/** Uses of the object database that fail, from a database that was just started. */
module ObjectCases {
  import opened ObjectPaths
  import opened ObjectTree

  lemma Paths()
    ensures Canonical("/a") && Components("/a") == ["a"]
    ensures Canonical("/a/b") && Components("/a/b") == ["a", "b"]
    ensures Canonical("/b") && Components("/b") == ["b"]
  {
    assert Render(["b"]) == "/b" by { assert ["b"][1..] == []; }
    ParseRendered(["b"]);
    assert Render(["a"]) == "/a" by { assert ["a"][1..] == []; }
    assert Render(["a", "b"]) == "/a/b" by { assert ["a", "b"][1..] == ["b"]; assert ["b"][1..] == []; }
    ParseRendered(["a"]);
    ParseRendered(["a", "b"]);
  }

  ghost function Started(root: Object): Tree {
    Tree({root}, map[root := []], map[root := []], map[root := 1])
  }

  /** A database with the object "/a", which is no directory and has no service table yet. */
  method WithFile() returns (db: ObjectDb, file: Object)
    ensures fresh(db) && fresh(db.rootDir) && fresh(file) && db.Valid()
    ensures file != db.rootDir && db.tree == Added(Started(db.rootDir), db.rootDir, file)
    ensures file.name == "a" && !file.isDir && file.refs == 1 && file.services == 0
  {
    db := new ObjectDb();
    ghost var t, root := db.tree, db.rootDir;
    Paths();
    var made, ok := db.Create("/a", false, true);
    assert AllButLast(["a"]) == [] && t.path[root] == [];
    file := made;
  }

  /** The only reference to the root cannot be released. */
  method RootReleased() returns (ok: bool)
    ensures !ok
  {
    var db := new ObjectDb();
    db.ParentField(db.rootDir);
    assert NodeOk(db.tree, Snapshot(db.tree.objs), db.rootDir);
    ghost var d, i;
    ok, d, i := db.DeRef(db.rootDir);
  }

  /** The only reference to an object below the root, whose parent has another one, cannot be released
      before a service table is installed; a file system that gets no memory tries to. */
  method ReleasedWithoutServices() returns (ok: bool)
    ensures !ok
  {
    var db, file := WithFile();
    RootKept(db, file);
    ghost var d, i;
    ok, d, i := db.DeRef(file);
  }

  /** With a service table it can. */
  method ReleasedWithServices() returns (ok: bool)
    ensures ok
  {
    var db, file := WithServices(12);
    RootKept(db, file);
    ghost var d, i;
    ok, d, i := db.DeRef(file);
  }

  lemma OtherPath(t: Tree, root: Object, file: Object, f: map<Object, Fields>)
    requires t == Added(Started(root), root, file) && root != file && file.name == "a" && root.isDir
    ensures t.kids.Keys == t.path.Keys == t.objs == {root, file} && LookedUp(t, null, ["b"])
    ensures !Astray(t, f, ["b"]) && !Misplaced(t, f, ["b"])
    ensures t.path[root] == AllButLast(["b"])
  {
    assert t.path[file] == ["a"] && t.path[root] == [] == AllButLast(["b"]);
    assert !Diverts(t, f, ["b"], file) && !Diverts(t, f, ["b"], root);
  }

  lemma TwoKids(t: Tree, t': Tree, root: Object, a: Object, b: Object)
    requires t == Added(Started(root), root, a) && root != a && a.name == "a" && root.isDir
    requires t.kids.Keys == t.path.Keys == t.objs && Inserted(t, t', b, ["b"]) && b != root && b != a
    ensures root in t'.objs && a in t'.objs && b in t'.objs && root in t'.kids && t'.kids[root] == [b, a]
  {
    assert t.path[root] == [] == AllButLast(["b"]);
    assert t' == Added(t, root, b);
  }

  /** A database after the creation of "/a" and then of "/b". */
  method WithTwo() returns (db: ObjectDb, a: Object, b: Object)
    ensures db.Valid() && db.rootDir in db.tree.objs && a in db.tree.objs && b in db.tree.objs
    ensures db.tree.kids[db.rootDir] == [b, a] && a.name == "a" && b.name == "b" && db.rootDir.isDir
  {
    db, a := WithFile();
    ghost var t, root := db.tree, db.rootDir;
    Paths();
    OtherPath(t, root, a, Snapshot(t.objs));
    b := CreateSecond(db, a);
    TwoKids(t, db.tree, root, a, b);
  }

  method CreateSecond(db: ObjectDb, a: Object) returns (b: Object)
    requires db.Valid() && a in db.tree.objs && Canonical("/b") && Components("/b") == ["b"]
    requires var f := Snapshot(db.tree.objs);
      LookedUp(db.tree, null, ["b"]) && !Astray(db.tree, f, ["b"]) && !Misplaced(db.tree, f, ["b"])
    modifies db`tree, db.tree.objs
    ensures db.Valid() && db.rootDir == old(db.rootDir) && b !in old(db.tree.objs) && b.name == "b"
    ensures Inserted(old(db.tree), db.tree, b, ["b"])
  {
    var made, ok := db.Create("/b", false, true);
    b := made;
  }

  /** The root then lists "b", then "a", and then nothing. */
  method ListedLastFirst() returns (first: Object?, second: Object?, third: Object?)
    ensures first != null && first.name == "b" && second != null && second.name == "a" && third == null
  {
    var db, a, b := WithTwo();
    ghost var kids := db.tree.kids[db.rootDir];
    assert kids[0] == b && kids[1] == a;
    first := db.EnumDir(db.rootDir, null);
    second := db.EnumDir(db.rootDir, first);
    third := db.EnumDir(db.rootDir, second);
  }

  lemma RootKept(db: ObjectDb, file: Object)
    requires db.Valid() && file != db.rootDir && db.tree == Added(Started(db.rootDir), db.rootDir, file)
    ensures db.rootDir.refs == 2 && file.parent == db.rootDir
  {
    var f := Snapshot(db.tree.objs);
    assert NodeOk(db.tree, f, db.rootDir) && ChildOk(f, db.rootDir, db.tree.kids[db.rootDir], 0);
  }

  lemma FilePaths(t: Tree, root: Object, file: Object)
    requires t == Added(Started(root), root, file) && root != file && file.name == "a" && !file.isDir
    ensures t.kids.Keys == t.path.Keys == t.objs == {root, file} && LookedUp(t, null, ["a", "b"])
    ensures forall t', o | Inserted(t, t', o, ["a", "b"]) :: t' == t
  {
    assert t.path[file] == ["a"] == AllButLast(["a", "b"]);
  }

  /** Where the path "/a/b" leads depends on the service table of "/a" alone. */
  lemma ByServices(t: Tree, root: Object, file: Object, f: map<Object, Fields>)
    requires t == Added(Started(root), root, file) && root != file && file.name == "a" && !file.isDir
    requires f.Keys == t.objs && root.isDir
    ensures Astray(t, f, ["a", "b"]) <==> f[file].services > 7
    ensures Misplaced(t, f, ["a", "b"]) <==> f[file].services > 5
  {
    assert t.path[file] == ["a"] == AllButLast(["a", "b"]) == ["a", "b"][..1];
    assert Diverts(t, f, ["a", "b"], file) <==> f[file].services > OBJDIR_FIND_CHILD;
  }

  /** A database after the creation of "/a/b" below the object "/a". */
  method WithLost() returns (db: ObjectDb, file: Object, lost: Object)
    ensures fresh(db) && fresh(db.rootDir) && fresh(file) && fresh(lost) && db.Valid()
    ensures db.tree == Added(Started(db.rootDir), db.rootDir, file) && file != db.rootDir
    ensures file.name == "a" && !file.isDir && lost != db.rootDir && lost != file
    ensures lost.parent == null && lost.refs == 1 && file.services == 0
  {
    db, file := WithFile();
    Paths();
    FilePaths(db.tree, db.rootDir, file);
    ByServices(db.tree, db.rootDir, file, Snapshot(db.tree.objs));
    var made, ok := db.Create("/a/b", false, true);
    lost := made;
  }

  /** An object created below one that is no directory is not found by its path. */
  method LookupOfLost() returns (found: bool)
    ensures !found
  {
    var db, file, lost := WithLost();
    Paths();
    FilePaths(db.tree, db.rootDir, file);
    ByServices(db.tree, db.rootDir, file, Snapshot(db.tree.objs));
    var o, ok := db.Find("/a/b");
    found := o != null;
  }

  /** Its only reference cannot be released. */
  method LostReleased() returns (ok: bool)
    ensures !ok
  {
    var db, file, lost := WithLost();
    ghost var d, i;
    ok, d, i := db.DeRef(lost);
  }

  /** A database with the object "/a", on which a table of n services is installed. */
  method WithServices(n: nat) returns (db: ObjectDb, file: Object)
    requires n > OBJ_SERVICE_NOTIFY
    ensures fresh(db) && fresh(db.rootDir) && fresh(file) && db.Valid() && file.services == n && file.refs == 1
    ensures file != db.rootDir && db.tree == Added(Started(db.rootDir), db.rootDir, file)
    ensures file.name == "a" && !file.isDir
  {
    db, file := WithFile();
    var installed := db.InstallSvcs(file, n);
  }

  /** A lookup below an object with the table of a display, of 9 services, does not end in null: the
      program calls the one that moves the start of the picture. */
  method LookupBelowDisplay() returns (ok: bool)
    ensures !ok
  {
    var db, file := WithServices(9);
    Paths();
    ByServices(db.tree, db.rootDir, file, Snapshot(db.tree.objs));
    var o;
    o, ok := db.Find("/a/b");
  }

  /** Below an object with the table of the log, of 7 services, a lookup ends in null, but a
      creation calls the one that writes to the log. */
  method CreationBelowLog() returns (found: bool, ok: bool)
    ensures !found && !ok
  {
    var db, file := WithServices(7);
    Paths();
    FilePaths(db.tree, db.rootDir, file);
    ByServices(db.tree, db.rootDir, file, Snapshot(db.tree.objs));
    var o, seen := db.Find("/a/b");
    found := o != null;
    var made;
    made, ok := db.Create("/a/b", false, true);
  }
}
