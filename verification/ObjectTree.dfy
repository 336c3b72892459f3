/** The object database: a tree of named objects with linked child lists, parent
    pointers and reference counts, looked up, printed and changed by path. */
module ObjectTree {
  import opened ObjectPaths

  /** Numbers of services: those every object may have, and those of directories. */
  const OBJ_SERVICE_REF: int := 1
  const OBJ_SERVICE_DESTROY: int := 2
  const OBJ_SERVICE_NOTIFY: int := 4
  const OBJDIR_ADD_CHILD: int := 5
  const OBJDIR_FIND_CHILD: int := 7

  /** How many services a directory has. */
  const DIR_SERVICES: int := 9

  /** An object. The child list fields are those of the directory data and are used by
      directories only. */
  class Object {
    const name: string
    const isDir: bool
    var refs: int
    var parent: Object?
    var nextChild: Object?
    var prevChild: Object?
    var childCount: int
    var childList: Object?
    /** Length of the service table; 0 as long as none is installed. */
    var services: int

    constructor (name: string, isDir: bool)
      ensures this.name == name && this.isDir == isDir && refs == 1 && services == OwnServices(isDir)
      ensures parent == null && nextChild == null && prevChild == null && childCount == 0 && childList == null
    {
      this.name := name;
      this.isDir := isDir;
      refs := 1;
      parent, nextChild, prevChild, childCount, childList := null, null, null, 0, null;
      services := OwnServices(isDir);
    }
  }

  /** The length of the service table of a new object. */
  function OwnServices(isDir: bool): int {
    if isDir then DIR_SERVICES else 0
  }

  function At(s: seq<Object>, i: int): Object? {
    if 0 <= i < |s| then s[i] else null
  }

  /** The changing fields of an object, and those of a set of objects. */
  datatype Fields = Fields(
    refs: int, parent: Object?, nextChild: Object?, prevChild: Object?, childCount: int, childList: Object?,
    services: int)

  ghost function FieldsOf(o: Object): Fields
    reads o
  {
    Fields(o.refs, o.parent, o.nextChild, o.prevChild, o.childCount, o.childList, o.services)
  }

  ghost function Snapshot(s: set<Object>): map<Object, Fields>
    reads s
  {
    map o | o in s :: FieldsOf(o)
  }

  /** The service tables of s are those of an earlier snapshot. */
  ghost predicate SameServices(s: set<Object>, f: map<Object, Fields>)
    reads s
  {
    forall o | o in s :: o in f && o.services == f[o].services
  }

  predicate ChildOk(f: map<Object, Fields>, d: Object, s: seq<Object>, i: int)
    requires 0 <= i < |s|
  {
    && s[i] in f && f[s[i]].parent == d
    && f[s[i]].nextChild == At(s, i + 1) && f[s[i]].prevChild == At(s, i - 1)
  }

  /** The child list of d runs through exactly the objects of s, linked both ways. */
  ghost predicate ListOk(f: map<Object, Fields>, d: Object, s: seq<Object>) {
    && d in f && f[d].childList == At(s, 0) && f[d].childCount == |s|
    && (forall i | 0 <= i < |s| :: ChildOk(f, d, s, i))
  }

  ghost predicate DistinctNames(s: seq<Object>) {
    forall i, j | 0 <= i < j < |s| :: s[i].name != s[j].name
  }

  /** The tree as a value: who is in it, the children of each object in list order, the path of
      each object, and the references callers hold, beside the one each child keeps to its parent. */
  datatype Tree = Tree(
    objs: set<Object>, kids: map<Object, seq<Object>>, path: map<Object, seq<string>>, held: map<Object, int>)

  ghost predicate KidOk(t: Tree, d: Object, i: int)
    requires d in t.kids && 0 <= i < |t.kids[d]|
  {
    var k := t.kids[d][i];
    k in t.objs && k in t.path && d in t.path && t.path[k] == t.path[d] + [k.name] && ValidName(k.name)
  }

  ghost predicate IsKid(t: Tree, d: Object, o: Object) {
    d in t.objs && d in t.kids && o in t.kids[d]
  }

  ghost predicate HasParent(t: Tree, o: Object) {
    exists d | d in t.objs :: IsKid(t, d, o)
  }

  /** The children of d are in the tree and differ by name; only directories have any. */
  ghost predicate DirOk(t: Tree, d: Object)
    requires d in t.kids
  {
    && (forall i | 0 <= i < |t.kids[d]| :: t.kids[d][i] in t.objs)
    && DistinctNames(t.kids[d]) && (t.kids[d] != [] ==> d.isDir)
  }

  ghost predicate DirsOk(t: Tree)
    requires t.kids.Keys == t.objs
  {
    forall d {:trigger DirOk(t, d)} | d in t.objs :: DirOk(t, d)
  }

  ghost predicate TreeOk(t: Tree, root: Object) {
    && t.kids.Keys == t.objs && t.path.Keys == t.objs
    && root in t.objs && root.isDir && t.path[root] == []
    && DirsOk(t)
    && (forall d, i {:trigger KidOk(t, d, i)} | d in t.objs && 0 <= i < |t.kids[d]| :: KidOk(t, d, i))
    && (forall o {:trigger HasParent(t, o)} | o in t.objs && o != root :: HasParent(t, o))
  }

  /** What looking up a path gives: the object with this path, or null when there is none. */
  ghost predicate LookedUp(t: Tree, r: Object?, cs: seq<string>) {
    if r == null then forall o | o in t.path :: t.path[o] != cs
    else r in t.path && t.path[r] == cs
  }

  /** The parent of an object below the root, and its place among the children. */
  lemma ParentOf(t: Tree, root: Object, o: Object) returns (d: Object, i: nat)
    requires TreeOk(t, root) && o in t.objs && o != root
    ensures d in t.objs && i < |t.kids[d]| && t.kids[d][i] == o
    ensures t.path[o] == t.path[d] + [o.name] && ValidName(o.name)
  {
    assert HasParent(t, o);
    d :| d in t.objs && IsKid(t, d, o);
    i :| 0 <= i < |t.kids[d]| && t.kids[d][i] == o;
    assert KidOk(t, d, i);
  }

  /** Two objects never have the same path. */
  lemma {:induction false} PathsDistinct(t: Tree, root: Object, o: Object, p: Object)
    requires TreeOk(t, root) && o in t.objs && p in t.objs && t.path[o] == t.path[p]
    ensures o == p
    decreases |t.path[o]|
  {
    if o != root && p != root {
      var d, i := ParentOf(t, root, o);
      var e, j := ParentOf(t, root, p);
      assert t.path[o][..|t.path[o]| - 1] == t.path[d] == t.path[e];
      assert o.name == t.path[o][|t.path[o]| - 1] == p.name;
      PathsDistinct(t, root, d, e);
      assert DirOk(t, d);
    } else if o != root {
      var d, i := ParentOf(t, root, o);
    } else if p != root {
      var d, i := ParentOf(t, root, p);
    }
  }

  /** Every prefix of an object's path is the path of an object. */
  lemma {:induction false} PrefixExists(t: Tree, root: Object, o: Object, n: nat) returns (a: Object)
    requires TreeOk(t, root) && o in t.objs && n <= |t.path[o]|
    ensures a in t.objs && t.path[a] == t.path[o][..n]
    decreases |t.path[o]|
  {
    if n == |t.path[o]| {
      a := o;
    } else {
      var d, i := ParentOf(t, root, o);
      a := PrefixExists(t, root, d, n);
    }
  }

  /** An object whose path extends the path of d by one component is a child of d. */
  lemma ChildByPath(t: Tree, root: Object, d: Object, o: Object, name: string)
    requires TreeOk(t, root) && d in t.objs && o in t.objs && t.path[o] == t.path[d] + [name]
    ensures o in t.kids[d] && o.name == name
  {
    var e, i := ParentOf(t, root, o);
    assert t.path[o][..|t.path[o]| - 1] == t.path[d] == t.path[e];
    assert t.path[o][|t.path[o]| - 1] == name == o.name;
    PathsDistinct(t, root, d, e);
  }

  /** If no child of d is called name, no path goes on with it. */
  lemma NoPathThrough(t: Tree, root: Object, d: Object, cs: seq<string>, n: nat, o: Object)
    requires TreeOk(t, root) && d in t.objs && n < |cs| && t.path[d] == cs[..n]
    requires forall k | k in t.kids[d] :: k.name != cs[n]
    requires o in t.objs
    ensures t.path[o] != cs
  {
    if t.path[o] == cs {
      var a := PrefixExists(t, root, o, n + 1);
      assert cs[..n + 1] == cs[..n] + [cs[n]];
      ChildByPath(t, root, d, a, cs[n]);
      assert false;
    }
  }

  lemma PartFits(name: string, above: seq<string>, rest: seq<string>)
    requires Parsable(name) && Components(name) == above + rest && rest != []
    ensures |rest[0]| < PART_BUFFER
  {
    assert Components(name)[|above|] == rest[0];
  }

  /** What the parser still has to read. */
  function Rest(name: string, pos: nat, last: bool): seq<string>
    requires pos <= |name|
  {
    if last then [] else Components(name[pos..])
  }

  lemma NothingThere(t: Tree, root: Object, d: Object, c: string, rest: seq<string>)
    requires TreeOk(t, root) && d in t.objs && forall k | k in t.kids[d] :: k.name != c
    ensures LookedUp(t, null, t.path[d] + ([c] + rest))
  {
    var cs, n := t.path[d] + ([c] + rest), |t.path[d]|;
    forall o | o in t.objs ensures t.path[o] != cs {
      NoPathThrough(t, root, d, cs, n, o);
    }
  }

  /** The path cs leads through o, which has a service in the place of the one that finds a child
      but is no directory. */
  ghost predicate Diverts(t: Tree, f: map<Object, Fields>, cs: seq<string>, o: Object) {
    && o in t.path && o in f && |t.path[o]| < |cs| && t.path[o] == cs[..|t.path[o]|]
    && !o.isDir && f[o].services > OBJDIR_FIND_CHILD
  }

  ghost predicate Astray(t: Tree, f: map<Object, Fields>, cs: seq<string>) {
    exists o {:trigger Diverts(t, f, cs, o)} | o in t.path :: Diverts(t, f, cs, o)
  }

  /** What stands above an object is a directory. */
  lemma {:induction false} AboveIsDir(t: Tree, root: Object, o: Object, a: Object)
    requires TreeOk(t, root) && o in t.objs && a in t.objs
    requires |t.path[a]| < |t.path[o]| && t.path[a] == t.path[o][..|t.path[a]|]
    ensures a.isDir
    decreases |t.path[o]|
  {
    var d, i := ParentOf(t, root, o);
    if |t.path[a]| == |t.path[d]| {
      PathsDistinct(t, root, a, d);
      assert DirOk(t, d);
    } else {
      AboveIsDir(t, root, d, a);
    }
  }

  /** The path of an object in the tree leads through directories only. */
  lemma AboveAreDirs(t: Tree, root: Object, f: map<Object, Fields>, o: Object)
    requires TreeOk(t, root) && o in t.objs
    ensures !Astray(t, f, t.path[o])
  {
    if a :| a in t.path && Diverts(t, f, t.path[o], a) {
      AboveIsDir(t, root, o, a);
      assert false;
    }
  }

  /** A path that ends nowhere at d, which finds no child by itself, is not led astray further on. */
  lemma NotAstray(t: Tree, root: Object, f: map<Object, Fields>, d: Object, c: string, rest: seq<string>)
    requires TreeOk(t, root) && d in t.objs && d in f && forall k | k in t.kids[d] :: k.name != c
    requires d.isDir || f[d].services <= OBJDIR_FIND_CHILD
    ensures !Astray(t, f, t.path[d] + ([c] + rest))
  {
    var cs, n := t.path[d] + ([c] + rest), |t.path[d]|;
    if a :| a in t.path && Diverts(t, f, cs, a) {
      var m := |t.path[a]|;
      if m < n {
        assert t.path[a] == t.path[d][..m];
        AboveIsDir(t, root, d, a);
      } else if m == n {
        assert t.path[a] == t.path[d];
        PathsDistinct(t, root, a, d);
      } else {
        NoPathThrough(t, root, d, cs[..m], n, a);
      }
      assert false;
    }
  }

  /** The path above cs leads to an object that is no directory but has a service in the place of
      the one that adds a child. */
  ghost predicate Misplaced(t: Tree, f: map<Object, Fields>, cs: seq<string>)
    requires cs != []
  {
    exists d {:trigger t.path[d]} | d in t.path ::
      d in f && t.path[d] == AllButLast(cs) && !d.isDir && f[d].services > OBJDIR_ADD_CHILD
  }

  lemma KidPath(t: Tree, root: Object, d: Object, r: Object, rest: seq<string>)
    requires TreeOk(t, root) && d in t.objs && r in t.kids[d]
    ensures r in t.objs && t.path[r] == t.path[d] + [r.name]
    ensures t.path[d] + ([r.name] + rest) == t.path[r] + rest
  {
    var i :| 0 <= i < |t.kids[d]| && t.kids[d][i] == r;
    assert KidOk(t, d, i);
  }

  lemma PrintedStep(path: seq<string>, here: seq<string>, above: seq<string>, name: string, printed: seq<string>)
    requires path == here + printed && here == above + [name]
    ensures path == above + ([name] + printed)
    ensures |Render(path)| >= |Render([name] + printed)| == 1 + |name| + |Render(printed)|
  {
    assert path == above + ([name] + printed);
    RenderConcat(above, [name] + printed);
    assert ([name] + printed)[1..] == printed;
  }

  // ----- adding and removing a leaf -----

  /** The tree with the new object o as first child of d. */
  function Added(t: Tree, d: Object, o: Object): Tree
    requires d in t.kids && d in t.path
  {
    Tree(t.objs + {o}, t.kids[d := [o] + t.kids[d]][o := []], t.path[o := t.path[d] + [o.name]], t.held[o := 1])
  }

  function AllButLast(cs: seq<string>): seq<string>
    requires cs != []
  {
    cs[..|cs| - 1]
  }

  lemma AllButLastSplit(above: seq<string>, part: string, rest: seq<string>)
    ensures AllButLast(above + ([part] + rest)) == if rest == [] then above else above + ([part] + AllButLast(rest))
  {
  }

  /** The new object o is in the tree if the path above its own leads to a directory, and
      nothing else has changed. */
  ghost predicate Inserted(t: Tree, t': Tree, o: Object, cs: seq<string>)
    requires t.kids.Keys == t.path.Keys == t.objs && cs != []
  {
    && (forall d {:trigger t.path[d]} | d in t.objs && t.path[d] == AllButLast(cs) :: t' == if d.isDir then Added(t, d, o) else t)
    && (LookedUp(t, null, AllButLast(cs)) ==> t' == t)
  }

  lemma InsertedUnder(t: Tree, root: Object, d: Object, o: Object, cs: seq<string>)
    requires TreeOk(t, root) && d in t.objs && cs != [] && t.path[d] == AllButLast(cs) && o.name == Last(cs)
    ensures cs == t.path[d] + [o.name] && !LookedUp(t, null, AllButLast(cs))
    ensures Inserted(t, if d.isDir then Added(t, d, o) else t, o, cs)
  {
    SameParent(t, root, d);
  }

  lemma CanonicalLast(name: string)
    requires Canonical(name)
    ensures Parsable(name) && ValidName(Last(Components(name)))
  {
    var cs := Components(name);
    assert ValidName(cs[|cs| - 1]);
  }

  lemma SameParent(t: Tree, root: Object, d: Object)
    requires TreeOk(t, root) && d in t.objs
    ensures forall e {:trigger t.path[e]} | e in t.objs && t.path[e] == t.path[d] :: e == d
  {
    forall e {:trigger t.path[e]} | e in t.objs && t.path[e] == t.path[d] ensures e == d {
      PathsDistinct(t, root, d, e);
    }
  }

  lemma AddedOk(t: Tree, root: Object, d: Object, o: Object)
    requires TreeOk(t, root) && d in t.objs && d.isDir && o !in t.objs && ValidName(o.name)
    requires LookedUp(t, null, t.path[d] + [o.name])
    ensures TreeOk(Added(t, d, o), root)
  {
    var t' := Added(t, d, o);
    forall i | 0 <= i < |t.kids[d]| ensures t.kids[d][i].name != o.name {
      assert KidOk(t, d, i);
    }
    forall e {:trigger DirOk(t', e)} | e in t'.objs ensures DirOk(t', e) {
      assert e != o ==> DirOk(t, e);
    }
    forall e, i {:trigger KidOk(t', e, i)} | e in t'.objs && 0 <= i < |t'.kids[e]| ensures KidOk(t', e, i) {
      if e == d {
        if i > 0 {
          assert KidOk(t, d, i - 1);
        }
      } else {
        assert KidOk(t, e, i);
      }
    }
    forall p {:trigger HasParent(t', p)} | p in t'.objs && p != root ensures HasParent(t', p) {
      if p == o {
        assert IsKid(t', d, o);
      } else {
        var e, i := ParentOf(t, root, p);
        assert t.kids[e][i] == p;
        assert IsKid(t', e, p);
      }
    }
  }

  /** The tree without the leaf o, which is the i-th child of d. */
  function Removed(t: Tree, d: Object, i: nat, o: Object): Tree
    requires d in t.kids && i < |t.kids[d]|
  {
    Tree(t.objs - {o}, (t.kids - {o})[d := t.kids[d][..i] + t.kids[d][i + 1..]], t.path - {o}, t.held - {o})
  }

  /** An object is a child of one directory, and at one place of its list. */
  lemma OnlyPlace(t: Tree, root: Object, d: Object, i: nat, e: Object, j: nat)
    requires TreeOk(t, root) && d in t.objs && e in t.objs && i < |t.kids[d]| && j < |t.kids[e]|
    requires t.kids[d][i] == t.kids[e][j]
    ensures e == d && j == i
  {
    assert KidOk(t, d, i) && KidOk(t, e, j);
    var n := t.kids[d][i].name;
    assert t.path[d] == (t.path[d] + [n])[..|t.path[d]|] && t.path[e] == (t.path[e] + [n])[..|t.path[e]|];
    PathsDistinct(t, root, d, e);
    assert DirOk(t, d);
  }

  lemma RemovedKid(t: Tree, root: Object, d: Object, i: nat, o: Object, e: Object, j: nat)
    requires TreeOk(t, root) && d in t.objs && i < |t.kids[d]| && t.kids[d][i] == o && o != d
    requires e in t.objs && e != o && j < |Removed(t, d, i, o).kids[e]|
    ensures KidOk(Removed(t, d, i, o), e, j)
  {
    var j0 := if e == d && j >= i then j + 1 else j;
    assert Removed(t, d, i, o).kids[e][j] == t.kids[e][j0];
    assert KidOk(t, e, j0);
    if t.kids[e][j0] == o {
      OnlyPlace(t, root, d, i, e, j0);
      assert false;
    }
  }

  lemma RemovedDir(t: Tree, root: Object, d: Object, i: nat, o: Object, e: Object)
    requires TreeOk(t, root) && d in t.objs && i < |t.kids[d]| && t.kids[d][i] == o && o != d
    requires e in t.objs && e != o
    ensures DirOk(Removed(t, d, i, o), e)
  {
    assert DirOk(t, e);
    var s := Removed(t, d, i, o).kids[e];
    forall j | 0 <= j < |s| ensures s[j] != o && s[j] in t.objs {
      var j0 := if e == d && j >= i then j + 1 else j;
      assert s[j] == t.kids[e][j0];
      if s[j] == o {
        OnlyPlace(t, root, d, i, e, j0);
        assert false;
      }
    }
  }

  lemma RemovedParent(t: Tree, root: Object, d: Object, i: nat, o: Object, p: Object)
    requires TreeOk(t, root) && d in t.objs && i < |t.kids[d]| && t.kids[d][i] == o && o != d
    requires p in t.objs && p != root && p != o && o in t.objs && t.kids[o] == []
    ensures HasParent(Removed(t, d, i, o), p)
  {
    var t' := Removed(t, d, i, o);
    var e, j := ParentOf(t, root, p);
    assert t'.kids[e][if e == d && j > i then j - 1 else j] == p;
    assert IsKid(t', e, p);
  }

  lemma RemovedOk(t: Tree, root: Object, d: Object, i: nat, o: Object)
    requires TreeOk(t, root) && d in t.objs && i < |t.kids[d]| && t.kids[d][i] == o
    requires o in t.objs && o != root && o != d && t.kids[o] == []
    ensures TreeOk(Removed(t, d, i, o), root)
  {
    var t' := Removed(t, d, i, o);
    forall e {:trigger DirOk(t', e)} | e in t'.objs ensures DirOk(t', e) {
      RemovedDir(t, root, d, i, o, e);
    }
    forall e, j {:trigger KidOk(t', e, j)} | e in t'.objs && 0 <= j < |t'.kids[e]| ensures KidOk(t', e, j) {
      RemovedKid(t, root, d, i, o, e, j);
    }
    forall p {:trigger HasParent(t', p)} | p in t'.objs && p != root ensures HasParent(t', p) {
      RemovedParent(t, root, d, i, o, p);
    }
  }

  /** A new child comes first, and removing one leaves the others in their order. */
  lemma KidPlaces(t: Tree, d: Object, o: Object, i: nat)
    requires d in t.kids && d in t.path && o != d
    ensures Added(t, d, o).kids[d] != [] && Added(t, d, o).kids[d][0] == o
    ensures forall a | 0 <= a < |t.kids[d]| :: Added(t, d, o).kids[d][a + 1] == t.kids[d][a]
    ensures i < |t.kids[d]| && t.kids[d][i] == o ==>
      && |Removed(t, d, i, o).kids[d]| == |t.kids[d]| - 1
      && forall a | 0 <= a < |t.kids[d]| && a != i ::
        Removed(t, d, i, o).kids[d][if a < i then a else a - 1] == t.kids[d][a]
  {
  }

  // ----- lookups -----

  lemma {:induction false} PathValid(t: Tree, root: Object, o: Object)
    requires TreeOk(t, root) && o in t.objs
    ensures forall i | 0 <= i < |t.path[o]| :: ValidName(t.path[o][i])
    decreases |t.path[o]|
  {
    if o != root {
      var d, i := ParentOf(t, root, o);
      PathValid(t, root, d);
    }
  }

  /** The path printed for an object below the root is one that can be looked up, and only that
      object is found by it. */
  lemma PrintedPathFinds(t: Tree, root: Object, o: Object, r: Object?)
    requires TreeOk(t, root) && o in t.objs && o != root
    ensures Canonical(Render(t.path[o])) && Parsable(Render(t.path[o])) && Render(t.path[o]) != "/"
    ensures LookedUp(t, r, Components(Render(t.path[o]))) ==> r == o
  {
    var cs := t.path[o];
    var d, i := ParentOf(t, root, o);
    PathValid(t, root, o);
    ParseRendered(cs);
    RenderStart(cs);
    RenderTerminated(cs);
    if LookedUp(t, r, cs) && r != null {
      assert r in t.objs;
      PathsDistinct(t, root, o, r);
    }
  }

  /** An object found by a canonical path prints as that path. */
  lemma FoundPathPrints(t: Tree, o: Object, name: string)
    requires Canonical(name) && LookedUp(t, o, Components(name))
    ensures Render(t.path[o]) == name
  {
    RenderParsed(name);
  }

  /** Creating an object makes its path lead to it if and only if the path above leads to a
      directory, and changes no other lookup. */
  lemma CreatedLookups(t: Tree, t': Tree, root: Object, o: Object, cs: seq<string>, other: seq<string>, r: Object?)
    requires TreeOk(t, root) && o !in t.objs && cs != [] && o.name == Last(cs)
    requires LookedUp(t, null, cs) && Inserted(t, t', o, cs)
    ensures LookedUp(t', o, cs) <==> exists d :: d in t.path && d.isDir && t.path[d] == AllButLast(cs)
    ensures other != cs && r != o ==> (LookedUp(t, r, other) <==> LookedUp(t', r, other))
  {
    assert cs == AllButLast(cs) + [o.name];
    if d :| d in t.objs && t.path[d] == AllButLast(cs) {
      assert t' == if d.isDir then Added(t, d, o) else t;
      SameParent(t, root, d);
      if d.isDir {
        forall p | p in t.objs ensures t'.path[p] == t.path[p] {
        }
        assert t'.path.Keys == t.path.Keys + {o} && t'.path[o] == cs;
      }
    } else {
      assert LookedUp(t, null, AllButLast(cs));
    }
  }

  /** Removing an object makes its path lead nowhere and changes no other lookup. */
  lemma RemovedLookups(t: Tree, root: Object, d: Object, i: nat, o: Object, other: seq<string>, r: Object?)
    requires TreeOk(t, root) && d in t.objs && i < |t.kids[d]| && t.kids[d][i] == o && o in t.path
    ensures LookedUp(Removed(t, d, i, o), null, t.path[o])
    ensures other != t.path[o] ==> (LookedUp(t, r, other) <==> LookedUp(Removed(t, d, i, o), r, other))
  {
    assert KidOk(t, d, i);
    var t' := Removed(t, d, i, o);
    forall p | p in t'.path ensures t'.path[p] != t.path[o] && t'.path[p] == t.path[p] {
      assert p in t.objs && p != o;
      if t.path[p] == t.path[o] {
        PathsDistinct(t, root, p, o);
      }
    }
    assert t.path.Keys == t'.path.Keys + {o};
  }

  // ----- links and counts -----

  /** Counts and links of one object agree with the tree: each child keeps a reference to it. A
      directory has its services. */
  ghost predicate NodeOk(t: Tree, f: map<Object, Fields>, d: Object) {
    && d in t.kids && d in t.held && ListOk(f, d, t.kids[d])
    && f[d].refs == t.held[d] + |t.kids[d]| && 0 <= t.held[d] && 1 <= f[d].refs
    && (d.isDir ==> f[d].services == DIR_SERVICES)
  }

  ghost predicate NodesOk(t: Tree, f: map<Object, Fields>) {
    forall d {:trigger NodeOk(t, f, d)} | d in t.objs :: NodeOk(t, f, d)
  }

  /** The fields after linking obj in as first child of dir, before the old first child head. */
  ghost predicate LinkedIn(f: map<Object, Fields>, f': map<Object, Fields>, dir: Object, obj: Object, head: Object?) {
    && dir in f && obj !in f && f'.Keys == f.Keys + {obj}
    && f'[obj] == Fields(1, dir, head, null, 0, null, f'[obj].services) && (obj.isDir ==> f'[obj].services == DIR_SERVICES)
    && f'[dir] == f[dir].(childList := obj, childCount := f[dir].childCount + 1, refs := f[dir].refs + 1)
    && (forall o | o in f && o != dir :: f'[o] == if o == head then f[o].(prevChild := obj) else f[o])
  }

  lemma LinkedNodeOk(t: Tree, f: map<Object, Fields>, f': map<Object, Fields>,
      root: Object, dir: Object, obj: Object, d: Object)
    requires TreeOk(t, root) && NodesOk(t, f) && f.Keys == t.objs && dir in t.objs
    requires LinkedIn(f, f', dir, obj, At(t.kids[dir], 0)) && d in t.objs && d != dir
    ensures NodeOk(Added(t, dir, obj), f', d)
  {
    assert NodeOk(t, f, d) && DirOk(t, d);
    var s := t.kids[d];
    forall i | 0 <= i < |s| ensures ChildOk(f', d, s, i) {
      assert ChildOk(f, d, s, i);
      if s[i] == At(t.kids[dir], 0) {
        OnlyPlace(t, root, dir, 0, d, i);
      }
    }
  }

  lemma LinkedParentOk(t: Tree, f: map<Object, Fields>, f': map<Object, Fields>,
      root: Object, dir: Object, obj: Object)
    requires TreeOk(t, root) && NodesOk(t, f) && f.Keys == t.objs && dir in t.objs
    requires LinkedIn(f, f', dir, obj, At(t.kids[dir], 0))
    ensures NodeOk(Added(t, dir, obj), f', dir)
  {
    assert NodeOk(t, f, dir) && DirOk(t, dir);
    var s := t.kids[dir];
    var s' := [obj] + s;
    forall i | 0 <= i < |s'| ensures ChildOk(f', dir, s', i) {
      if i > 0 {
        assert s'[i] == s[i - 1];
        assert ChildOk(f, dir, s, i - 1);
        assert s[i - 1] != dir by { NotOwnKid(t, root, dir, i - 1); }
      }
    }
  }

  /** No object is its own child. */
  lemma NotOwnKid(t: Tree, root: Object, d: Object, i: nat)
    requires TreeOk(t, root) && d in t.objs && i < |t.kids[d]|
    ensures t.kids[d][i] != d
  {
    assert KidOk(t, d, i);
    assert |t.path[t.kids[d][i]]| == |t.path[d]| + 1;
  }

  lemma LinkedNodesOk(t: Tree, f: map<Object, Fields>, f': map<Object, Fields>,
      root: Object, dir: Object, obj: Object)
    requires TreeOk(t, root) && NodesOk(t, f) && f.Keys == t.objs && dir in t.objs
    requires LinkedIn(f, f', dir, obj, At(t.kids[dir], 0))
    ensures NodesOk(Added(t, dir, obj), f')
  {
    var t' := Added(t, dir, obj);
    forall d {:trigger NodeOk(t', f', d)} | d in t'.objs ensures NodeOk(t', f', d) {
      if d == dir {
        LinkedParentOk(t, f, f', root, dir, obj);
      } else if d != obj {
        LinkedNodeOk(t, f, f', root, dir, obj, d);
      }
    }
  }

  /** The objects, given by their fields, form the tree. */
  ghost predicate Consistent(t: Tree, root: Object, f: map<Object, Fields>) {
    && TreeOk(t, root) && t.held.Keys == f.Keys == t.objs
    && f[root].parent == f[root].nextChild == f[root].prevChild == null
    && NodesOk(t, f)
  }

  lemma FirstKid(t: Tree, root: Object, f: map<Object, Fields>, dir: Object)
    requires Consistent(t, root, f) && dir in t.objs
    ensures f[dir].childList == At(t.kids[dir], 0)
    ensures f[dir].childList != null ==> f[dir].childList in t.objs && f[dir].childList != dir && f[dir].childList != root
  {
    assert DirOk(t, dir) && NodeOk(t, f, dir);
    if t.kids[dir] != [] {
      assert ChildOk(f, dir, t.kids[dir], 0);
      NotOwnKid(t, root, dir, 0);
    }
  }

  lemma LinkedConsistent(t: Tree, f: map<Object, Fields>, f': map<Object, Fields>,
      root: Object, dir: Object, obj: Object)
    requires Consistent(t, root, f) && dir in t.objs && dir.isDir && obj !in t.objs
    requires ValidName(obj.name) && LookedUp(t, null, t.path[dir] + [obj.name])
    requires LinkedIn(f, f', dir, obj, f[dir].childList)
    ensures Consistent(Added(t, dir, obj), root, f')
  {
    FirstKid(t, root, f, dir);
    AddedOk(t, root, dir, obj);
    LinkedNodesOk(t, f, f', root, dir, obj);
  }

  // ----- removing a leaf -----

  /** The fields after taking o out of the list of d, with o itself left out. */
  ghost predicate Unlinked(f: map<Object, Fields>, f': map<Object, Fields>, d: Object, o: Object) {
    && d in f && o in f && f'.Keys == f.Keys - {o} && d != o
    && f'[d] == f[d].(refs := f[d].refs - 1, childCount := f[d].childCount - 1,
                      childList := if f[d].childList == o then f[o].nextChild else f[d].childList)
    && (forall x {:trigger f'[x]} | x in f' && x != d :: f'[x] == Spliced(f, o, x))
  }

  /** What taking o out of its list does to the neighbours of o. */
  function Spliced(f: map<Object, Fields>, o: Object, x: Object): Fields
    requires o in f && x in f
  {
    f[x].(nextChild := if f[o].prevChild == x then f[o].nextChild else f[x].nextChild,
          prevChild := if f[o].nextChild == x then f[o].prevChild else f[x].prevChild)
  }

  /** The fields after the pointer changes of taking o out of the list of d. */
  ghost predicate ListCut(f: map<Object, Fields>, f': map<Object, Fields>, d: Object, o: Object) {
    && d in f && o in f && f'.Keys == f.Keys && d != o && f'[o] == f[o]
    && f'[d] == f[d].(childList := if f[d].childList == o then f[o].nextChild else f[d].childList)
    && (forall x {:trigger f'[x]} | x in f' && x != d && x != o :: f'[x] == Spliced(f, o, x))
  }

  ghost predicate SplicedAll(f: map<Object, Fields>, f': map<Object, Fields>, o: Object) {
    o in f && f'.Keys == f.Keys && forall x {:trigger f'[x]} | x in f' :: f'[x] == Spliced(f, o, x)
  }

  lemma HeadCut(f: map<Object, Fields>, f1: map<Object, Fields>, f2: map<Object, Fields>, d: Object, o: Object)
    requires SplicedAll(f, f1, o) && d in f && d != o && Siblings(f, o) && f[o].parent == d
    requires f2 == f1[d := f1[d].(childList := if f1[d].childList == o then f1[o].nextChild else f1[d].childList)]
    ensures ListCut(f, f2, d, o)
  {
  }

  lemma CutUnlinks(f: map<Object, Fields>, f1: map<Object, Fields>, f2: map<Object, Fields>, d: Object, o: Object)
    requires ListCut(f, f1, d, o)
    requires f2 == f1[d := f1[d].(refs := f1[d].refs - 1, childCount := f1[d].childCount - 1)]
    ensures Unlinked(f, f2 - {o}, d, o) && f2[o] == f[o]
  {
  }

  lemma UnlinkedNodeOk(t: Tree, f: map<Object, Fields>, f': map<Object, Fields>,
      root: Object, dir: Object, i: nat, o: Object, d: Object)
    requires Consistent(t, root, f) && dir in t.objs && i < |t.kids[dir]| && t.kids[dir][i] == o
    requires Unlinked(f, f', dir, o) && d in t.objs && d != dir && d != o
    ensures NodeOk(Removed(t, dir, i, o), f', d)
  {
    assert NodeOk(t, f, d) && DirOk(t, d) && NodeOk(t, f, dir) && ChildOk(f, dir, t.kids[dir], i);
    assert i > 0 ==> ChildOk(f, dir, t.kids[dir], i - 1);
    assert i + 1 < |t.kids[dir]| ==> ChildOk(f, dir, t.kids[dir], i + 1);
    var s := t.kids[d];
    forall j | 0 <= j < |s| ensures ChildOk(f', d, s, j) {
      assert ChildOk(f, d, s, j);
    }
  }

  lemma UnlinkedKidOk(t: Tree, f: map<Object, Fields>, f': map<Object, Fields>,
      root: Object, dir: Object, i: nat, o: Object, j: nat)
    requires Consistent(t, root, f) && dir in t.objs && i < |t.kids[dir]| && t.kids[dir][i] == o
    requires Unlinked(f, f', dir, o) && j < |t.kids[dir]| - 1
    ensures ChildOk(f', dir, t.kids[dir][..i] + t.kids[dir][i + 1..], j)
  {
    var s := t.kids[dir];
    var j0 := if j < i then j else j + 1;
    assert NodeOk(t, f, dir) && DirOk(t, dir) && ChildOk(f, dir, s, i) && ChildOk(f, dir, s, j0);
    NotOwnKid(t, root, dir, j0);
    if s[j0] == o {
      OnlyPlace(t, root, dir, i, dir, j0);
    }
    if i > 0 && s[j0] == s[i - 1] {
      OnlyPlace(t, root, dir, i - 1, dir, j0);
    }
    if i + 1 < |s| && s[j0] == s[i + 1] {
      OnlyPlace(t, root, dir, i + 1, dir, j0);
    }
  }

  lemma UnlinkedParentOk(t: Tree, f: map<Object, Fields>, f': map<Object, Fields>,
      root: Object, dir: Object, i: nat, o: Object)
    requires Consistent(t, root, f) && dir in t.objs && i < |t.kids[dir]| && t.kids[dir][i] == o
    requires Unlinked(f, f', dir, o) && f[dir].refs != 1
    ensures NodeOk(Removed(t, dir, i, o), f', dir)
  {
    assert NodeOk(t, f, dir) && ChildOk(f, dir, t.kids[dir], i);
    var s := t.kids[dir];
    var s' := s[..i] + s[i + 1..];
    forall j | 0 <= j < |s'| ensures ChildOk(f', dir, s', j) {
      UnlinkedKidOk(t, f, f', root, dir, i, o, j);
    }
    if i > 0 && s[0] == o {
      OnlyPlace(t, root, dir, i, dir, 0);
    }
  }

  lemma UnlinkedConsistent(t: Tree, f: map<Object, Fields>, f': map<Object, Fields>,
      root: Object, dir: Object, i: nat, o: Object)
    requires Consistent(t, root, f) && dir in t.objs && i < |t.kids[dir]| && t.kids[dir][i] == o
    requires Unlinked(f, f', dir, o) && f[dir].refs != 1 && o in t.objs && t.kids[o] == [] && o != root
    ensures Consistent(Removed(t, dir, i, o), root, f')
  {
    var t' := Removed(t, dir, i, o);
    RemovedOk(t, root, dir, i, o);
    ListNeighbours(t, root, f, dir, i);
    forall d {:trigger NodeOk(t', f', d)} | d in t'.objs ensures NodeOk(t', f', d) {
      if d == dir {
        UnlinkedParentOk(t, f, f', root, dir, i, o);
      } else {
        UnlinkedNodeOk(t, f, f', root, dir, i, o, d);
      }
    }
  }

  /** An object below the root has a directory above it that counts at least one child. */
  ghost predicate UpOk(f: map<Object, Fields>, path: map<Object, seq<string>>, x: Object)
    requires x in f
  {
    var p := f[x].parent;
    && x in path
    && (p != null ==> p in f && p in path && |path[p]| < |path[x]| && p.isDir && f[p].childCount != 0)
  }

  ghost predicate Upward(f: map<Object, Fields>, path: map<Object, seq<string>>) {
    forall x {:trigger UpOk(f, path, x)} | x in f :: UpOk(f, path, x)
  }

  lemma UpwardKept(f: map<Object, Fields>, f': map<Object, Fields>, path: map<Object, seq<string>>)
    requires Upward(f, path) && f'.Keys == f.Keys
    requires forall x | x in f :: f'[x].parent == f[x].parent && f'[x].childCount == f[x].childCount
    ensures Upward(f', path)
  {
    forall x {:trigger UpOk(f', path, x)} | x in f' ensures UpOk(f', path, x) {
      assert UpOk(f, path, x);
    }
  }

  /** The neighbours of o in its list are other objects. */
  ghost predicate Siblings(f: map<Object, Fields>, o: Object)
    requires o in f
  {
    && (f[o].prevChild != null ==> f[o].prevChild in f && f[o].prevChild != o && f[o].prevChild != f[o].parent)
    && (f[o].nextChild != null ==> f[o].nextChild in f && f[o].nextChild != o && f[o].nextChild != f[o].parent)
  }

  /** A directory that still counts children is not removed. */
  predicate NotEmpty(f: map<Object, Fields>, o: Object)
    requires o in f
  {
    o.isDir && f[o].childCount != 0
  }

  /** Dropping the last reference works: the object is below the root, has no children, is not all
      that keeps its parent, and its service table reaches to the one that destroys it. */
  ghost predicate Removable(f: map<Object, Fields>, o: Object)
    requires o in f
  {
    var p := f[o].parent;
    p != null && p in f && !NotEmpty(f, o) && f[p].refs != 1 && f[o].services > OBJ_SERVICE_DESTROY
  }

  /** A child's neighbours in its list are other children. */
  lemma ListNeighbours(t: Tree, root: Object, f: map<Object, Fields>, d: Object, i: nat)
    requires Consistent(t, root, f) && d in t.objs && i < |t.kids[d]|
    ensures t.kids[d][i] in f && f[t.kids[d][i]].parent == d && Siblings(f, t.kids[d][i])
    ensures f[t.kids[d][i]].prevChild != root && f[t.kids[d][i]].nextChild != root
  {
    assert NodeOk(t, f, d) && DirOk(t, d) && ChildOk(f, d, t.kids[d], i);
    assert i > 0 ==> ChildOk(f, d, t.kids[d], i - 1);
    assert i + 1 < |t.kids[d]| ==> ChildOk(f, d, t.kids[d], i + 1);
    if i > 0 {
      NotOwnKid(t, root, d, i - 1);
    }
    if i + 1 < |t.kids[d]| {
      NotOwnKid(t, root, d, i + 1);
    }
  }

  /** What the last held reference to an object says: it is a leaf, and either the root or at
      some place in a list. */
  lemma LeafAt(t: Tree, root: Object, f: map<Object, Fields>, o: Object)
      returns (d: Object, i: nat)
    requires Consistent(t, root, f) && o in t.objs && 1 <= t.held[o]
    ensures f[o].refs == 1 ==> t.kids[o] == [] && !NotEmpty(f, o) && Siblings(f, o)
    ensures o == root ==> f[o].parent == null
    ensures o != root ==> d in t.objs && i < |t.kids[d]| && t.kids[d][i] == o && f[o].parent == d && o != d
  {
    assert NodeOk(t, f, o);
    d, i := o, 0;
    if o != root {
      d, i := ParentOf(t, root, o);
      ListNeighbours(t, root, f, d, i);
      NotOwnKid(t, root, d, i);
    }
  }

  /** The tree with n more held references to o. */
  function Held(t: Tree, o: Object, n: int): Tree
    requires o in t.held
  {
    t.(held := t.held[o := t.held[o] + n])
  }

  lemma HeldTreeOk(t: Tree, root: Object, o: Object, n: int)
    requires TreeOk(t, root) && o in t.held
    ensures TreeOk(Held(t, o, n), root)
  {
    var t' := Held(t, o, n);
    forall d {:trigger DirOk(t', d)} | d in t.objs ensures DirOk(t', d) {
      assert DirOk(t, d);
    }
    forall d, i {:trigger KidOk(t', d, i)} | d in t.objs && 0 <= i < |t.kids[d]| ensures KidOk(t', d, i) {
      assert KidOk(t, d, i);
    }
    forall p {:trigger HasParent(t', p)} | p in t.objs && p != root ensures HasParent(t', p) {
      var d, i := ParentOf(t, root, p);
      assert IsKid(t', d, p);
    }
  }

  lemma RefsConsistent(t: Tree, root: Object, f: map<Object, Fields>, f': map<Object, Fields>,
      o: Object, n: int)
    requires Consistent(t, root, f) && o in t.objs
    requires n == 1 || (n == -1 && 1 <= t.held[o] && f[o].refs != 1)
    requires f' == f[o := f[o].(refs := f[o].refs + n)]
    ensures Consistent(Held(t, o, n), root, f')
  {
    var t' := Held(t, o, n);
    assert NodeOk(t, f, o);
    HeldTreeOk(t, root, o, n);
    forall d {:trigger NodeOk(t', f', d)} | d in t.objs ensures NodeOk(t', f', d) {
      assert NodeOk(t, f, d);
      forall i | 0 <= i < |t.kids[d]| ensures ChildOk(f', d, t.kids[d], i) {
        assert ChildOk(f, d, t.kids[d], i);
      }
    }
  }

  /** A service table on an object that is no directory, or on a directory without children, keeps
      the tree; on one with children it does not. */
  lemma ServicesConsistent(t: Tree, root: Object, f: map<Object, Fields>, f': map<Object, Fields>, o: Object, n: int)
    requires Consistent(t, root, f) && f'.Keys == f.Keys && (o.isDir ==> n == DIR_SERVICES)
    requires forall x | x in f && x != o :: f'[x] == f[x]
    requires o in f ==>
      f'[o] == if o.isDir then f[o].(services := n, childCount := 0, childList := null) else f[o].(services := n)
    ensures Consistent(t, root, f') <==> !o.isDir || o !in t.objs || t.kids[o] == []
  {
    if o.isDir && o in t.objs && t.kids[o] != [] {
      assert !NodeOk(t, f', o);
      return;
    }
    forall d {:trigger NodeOk(t, f', d)} | d in t.objs ensures NodeOk(t, f', d) {
      assert NodeOk(t, f, d);
      forall i | 0 <= i < |t.kids[d]| ensures ChildOk(f', d, t.kids[d], i) {
        assert ChildOk(f, d, t.kids[d], i);
      }
    }
  }

  // ----- the database -----

  class ObjectDb {
    var rootDir: Object
    ghost var tree: Tree

    ghost predicate Valid()
      reads this, tree.objs
    {
      Consistent(tree, rootDir, Snapshot(tree.objs))
    }

    /** Start-up: the root directory. */
    constructor ()
      ensures Valid() && fresh(tree.objs)
      ensures tree == Tree({rootDir}, map[rootDir := []], map[rootDir := []], map[rootDir := 1])
    {
      var root := new Object("", true);
      rootDir := root;
      tree := Tree({root}, map[root := []], map[root := []], map[root := 1]);
    }

    /** Calls the service of an object that finds a child by name, if its table is that long: the one of
        directories searches the child list. When ok is false the service is one of another kind
        of object, and nothing is said about what it does. */
    method FindChild(dir: Object, name: string) returns (found: Object?, ok: bool)
      requires Valid() && dir in tree.objs
      ensures ok <==> dir.isDir || dir.services <= OBJDIR_FIND_CHILD
      ensures ok && found != null ==> found in tree.objs && found in tree.kids[dir] && found.name == name
      ensures ok && found == null ==> forall k | k in tree.kids[dir] :: k.name != name
    {
      assert DirOk(tree, dir) && NodeOk(tree, Snapshot(tree.objs), dir);
      if dir.services <= OBJDIR_FIND_CHILD {
        return null, true;
      }
      if !dir.isDir {
        return null, false;
      }
      ok := true;
      var curChild := dir.childList;
      ghost var i := 0;
      ghost var s := tree.kids[dir];
      while curChild != null
        invariant i <= |s| && curChild == At(s, i)
        invariant forall k | 0 <= k < i :: s[k].name != name
        decreases |s| - i
      {
        if curChild.name == name {
          return curChild, true;
        }
        assert ChildOk(Snapshot(tree.objs), dir, s, i);
        curChild, i := curChild.nextChild, i + 1;
      }
      found := null;
    }

    /** Parent pointers follow the tree, and only the root has none. */
    lemma ParentField(o: Object)
      requires Valid() && o in tree.objs
      ensures o.parent == null <==> o == rootDir
      ensures o.parent != null ==> o.parent in tree.objs && tree.path[o] == tree.path[o.parent] + [o.name]
    {
      if o != rootDir {
        var d, i := ParentOf(tree, rootDir, o);
        assert NodeOk(tree, Snapshot(tree.objs), d) && ChildOk(Snapshot(tree.objs), d, tree.kids[d], i);
      }
    }

    /** Parses the next component of a path of which curDir is the part before pos. */
    method ParseHere(curDir: Object, name: string, pos: nat, buf: array<char>) returns (part: string, pos': nat, last: bool)
      requires Valid() && curDir in tree.objs && pos <= |name| && buf.Length == PART_BUFFER
      requires Parsable(name) && Components(name) == tree.path[curDir] + Components(name[pos..])
      modifies buf
      ensures Valid() && pos' <= |name|
      ensures Components(name) == tree.path[curDir] + ([part] + Rest(name, pos', last))
      ensures !last ==> |Components(name[pos'..])| < |Components(name[pos..])|
    {
      PartFits(name, tree.path[curDir], Components(name[pos..]));
      var len;
      pos', len, last := ParsePart(name, pos, buf);
      part := buf[..len];
      assert Components(name[pos..]) == [part] + Rest(name, pos', last);
    }

    /** Parses one component and looks it up in an object. */
    method LookUpPart(curDir: Object, name: string, pos: nat, buf: array<char>) returns (r: Object?, pos': nat, last: bool, ok: bool)
      requires Valid() && curDir in tree.objs && pos <= |name| && buf.Length == PART_BUFFER
      requires Parsable(name) && Components(name) == tree.path[curDir] + Components(name[pos..])
      modifies buf
      ensures Valid() && pos' <= |name|
      ensures !ok ==> Astray(tree, Snapshot(tree.objs), Components(name))
      ensures ok && r == null ==>
        LookedUp(tree, null, Components(name)) && !Astray(tree, Snapshot(tree.objs), Components(name))
      ensures ok && r != null ==> r in tree.objs && Components(name) == tree.path[r] + Rest(name, pos', last)
      ensures !last ==> |Components(name[pos'..])| < |Components(name[pos..])|
    {
      var part;
      part, pos', last := ParseHere(curDir, name, pos, buf);
      r, ok := FindChild(curDir, part);
      if !ok {
        assert Diverts(tree, Snapshot(tree.objs), Components(name), curDir);
      } else if r == null {
        NothingThere(tree, rootDir, curDir, part, Rest(name, pos', last));
        NotAstray(tree, rootDir, Snapshot(tree.objs), curDir, part, Rest(name, pos', last));
      } else {
        KidPath(tree, rootDir, curDir, r, Rest(name, pos', last));
      }
    }

    /** Finds the object with a path; null when there is none. When ok is false the path goes through an
        object whose table has some other service in the place of the one that finds a child; the program
        calls it, and nothing is said about what follows. */
    method Find(name: string) returns (r: Object?, ok: bool)
      requires Valid() && Parsable(name)
      ensures ok <==> name == "/" || !Astray(tree, Snapshot(tree.objs), Components(name))
      ensures ok && name == "/" ==> r == rootDir
      ensures ok && name != "/" ==> LookedUp(tree, r, Components(name))
      ensures ok && r != null ==> r in tree.objs
    {
      if name == "/" {
        return rootDir, true;
      }
      var buf := new char[PART_BUFFER];
      var pos: nat, last := 0, false;
      var curDir := rootDir;
      assert name[0..] == name;
      while true
        invariant Valid() && curDir in tree.objs && pos <= |name|
        invariant Components(name) == tree.path[curDir] + Components(name[pos..])
        decreases |Components(name[pos..])|
      {
        r, pos, last, ok := LookUpPart(curDir, name, pos, buf);
        if !ok || r == null {
          return;
        }
        if last {
          assert Components(name) == tree.path[r];
          AboveAreDirs(tree, rootDir, Snapshot(tree.objs), r);
          return;
        }
        curDir := r;
      }
    }

    /** Prints one component before those already printed, at the end of the buffer from which
        totalLen bytes are used; the new length may exceed the buffer, and then nothing is printed. */
    method PrintPart(iter: Object, buf: array<char>, totalLen: nat, ghost path: seq<string>, ghost printed: seq<string>)
        returns (total: nat)
      requires Valid() && iter in tree.objs && iter.parent != null && path == tree.path[iter] + printed
      requires totalLen == 1 + |Render(printed)| <= buf.Length
      requires buf[buf.Length - totalLen..buf.Length - 1] == Render(printed)
      modifies buf
      ensures Valid() && iter.parent in tree.objs && path == tree.path[iter.parent] + ([iter.name] + printed)
      ensures |tree.path[iter.parent]| < |tree.path[iter]|
      ensures total == 1 + |Render([iter.name] + printed)|
      ensures total <= buf.Length ==> buf[buf.Length - total..buf.Length - 1] == Render([iter.name] + printed)
      ensures buf[buf.Length - 1] == old(buf[buf.Length - 1]) && |Render(path)| + 1 >= total
    {
      ParentField(iter);
      PrintedStep(path, tree.path[iter], tree.path[iter.parent], iter.name, printed);
      var len := |iter.name| + 1;
      total := totalLen + len;
      if total <= buf.Length {
        WritePart(buf, buf.Length - total, iter.name, printed);
      }
    }

    /** Prints the path of an object into the end of a buffer; the result is the position it
        starts at, or -1 when it does not fit. */
    method GetPath(obj: Object, buf: array<char>) returns (start: int)
      requires Valid() && obj in tree.objs && 0 < buf.Length
      modifies buf
      ensures start == -1 <==> buf.Length < |Render(tree.path[obj])| + 1
      ensures start != -1 ==>
        && 0 <= start < buf.Length && buf[start..buf.Length - 1] == Render(tree.path[obj]) && buf[buf.Length - 1] == '\0'
    {
      forall k | 0 <= k < buf.Length {
        buf[k] := '\0';
      }
      var iter := obj;
      var totalLen := 1;
      ghost var printed: seq<string> := [];
      while iter.parent != null
        invariant Valid() && iter in tree.objs
        invariant tree.path[obj] == tree.path[iter] + printed
        invariant totalLen == 1 + |Render(printed)| <= buf.Length
        invariant buf[buf.Length - totalLen..buf.Length - 1] == Render(printed) && buf[buf.Length - 1] == '\0'
        decreases |tree.path[iter]|
      {
        totalLen := PrintPart(iter, buf, totalLen, tree.path[obj], printed);
        if totalLen > buf.Length {
          return -1;
        }
        printed := [iter.name] + printed;
        iter := iter.parent;
      }
      ParentField(iter);
      assert tree.path[obj] == printed;
      start := buf.Length - totalLen;
    }

    // ----- creating objects -----

    /** The pointer changes of adding a child. */
    method LinkFirst(dir: Object, obj: Object)
      requires dir in tree.objs && NewLeaf(obj)
      requires dir.childList != null ==> dir.childList in tree.objs && dir.childList != dir
      modifies tree.objs, obj
      ensures LinkedIn(old(Snapshot(tree.objs)), Snapshot(tree.objs + {obj}), dir, obj, old(dir.childList))
      ensures obj.refs == old(obj.refs) && obj.services == old(obj.services)
    {
      obj.nextChild := dir.childList;
      obj.prevChild := null;
      if dir.childList != null {
        dir.childList.prevChild := obj;
      }
      dir.childList := obj;
      dir.childCount := dir.childCount + 1;
      dir.refs := dir.refs + 1;
      obj.parent := dir;
    }

    /** Takes a tree that describes the objects as the tree of the database. */
    ghost method Adopt(t: Tree)
      requires Consistent(t, rootDir, Snapshot(t.objs))
      modifies this`tree
      ensures Valid() && tree == t
    {
      tree := t;
    }

    /** Links obj into the list of dir; the tree with obj then describes the objects. */
    method LinkKid(dir: Object, obj: Object)
      requires Valid() && dir in tree.objs && dir.isDir && NewLeaf(obj)
      requires ValidName(obj.name) && LookedUp(tree, null, tree.path[dir] + [obj.name])
      modifies tree.objs, obj
      ensures Consistent(Added(tree, dir, obj), rootDir, Snapshot(Added(tree, dir, obj).objs))
      ensures obj.refs == old(obj.refs) && obj.services == old(obj.services)
      ensures SameServices(tree.objs, old(Snapshot(tree.objs)))
    {
      ghost var f := Snapshot(tree.objs);
      FirstKid(tree, rootDir, f, dir);
      LinkFirst(dir, obj);
      assert SameServices(tree.objs, f) by {
        assert forall o | o in tree.objs :: o.services == Snapshot(tree.objs + {obj})[o].services;
      }
      LinkedConsistent(tree, f, Snapshot(tree.objs + {obj}), rootDir, dir, obj);
    }

    /** Adds the new object obj to the front of the children of a directory. */
    method AddChild(dir: Object, obj: Object)
      requires Valid() && dir in tree.objs && dir.isDir && NewLeaf(obj)
      requires ValidName(obj.name) && LookedUp(tree, null, tree.path[dir] + [obj.name])
      modifies this`tree, tree.objs, obj
      ensures Valid() && tree == Added(old(tree), dir, obj)
      ensures obj.refs == old(obj.refs) && obj.services == old(obj.services)
      ensures SameServices(old(tree).objs, old(Snapshot(tree.objs)))
    {
      LinkKid(dir, obj);
      Adopt(Added(tree, dir, obj));
    }

    /** Walks all but the last component of a path; null when a directory on the way does not
        exist or is no directory. */
    method FindParent(name: string) returns (curDir: Object?)
      requires Valid() && Parsable(name)
      ensures curDir != null ==> curDir in tree.objs
      ensures LookedUp(tree, curDir, AllButLast(Components(name)))
    {
      var buf := new char[PART_BUFFER];
      var pos: nat, last := 0, false;
      curDir := rootDir;
      assert name[0..] == name;
      while true
        invariant Valid() && curDir in tree.objs && pos <= |name|
        invariant Components(name) == tree.path[curDir] + Components(name[pos..])
        decreases |Components(name[pos..])|
      {
        var next: Object?;
        next, pos, last := NextDir(curDir, name, pos, buf);
        if next == null || last {
          return next;
        }
        curDir := next;
      }
    }

    /** Parses one component: the current directory itself before the last component, and else
        the child with this name. */
    method NextDir(curDir: Object, name: string, pos: nat, buf: array<char>) returns (next: Object?, pos': nat, last: bool)
      requires Valid() && curDir in tree.objs && pos <= |name| && buf.Length == PART_BUFFER
      requires Parsable(name) && Components(name) == tree.path[curDir] + Components(name[pos..])
      modifies buf
      ensures Valid() && pos' <= |name|
      ensures next == null ==> LookedUp(tree, null, AllButLast(Components(name)))
      ensures next != null ==> next in tree.objs
      ensures next != null && last ==> tree.path[next] == AllButLast(Components(name))
      ensures next != null && !last ==> Components(name) == tree.path[next] + Components(name[pos'..])
      ensures !last ==> |Components(name[pos'..])| < |Components(name[pos..])|
    {
      var part;
      part, pos', last := ParseHere(curDir, name, pos, buf);
      AllButLastSplit(tree.path[curDir], part, Rest(name, pos', last));
      if last {
        next := curDir;
      } else if !curDir.isDir {
        next := null;
        assert DirOk(tree, curDir);
        NothingThere(tree, rootDir, curDir, part, AllButLast(Rest(name, pos', last)));
      } else {
        var found;
        next, found := FindChild(curDir, part);
        if next == null {
          NothingThere(tree, rootDir, curDir, part, AllButLast(Rest(name, pos', last)));
        } else {
          KidPath(tree, rootDir, curDir, next, Rest(name, pos', last));
        }
      }
    }

    /** Puts a new object into the tree if the path above it leads to a directory; found is false when
        that path leads nowhere. When ok is false it leads to an object with some other service in the
        place of the one that adds a child; the program calls it, and nothing is said about what it does. */
    method Insert(name: string, obj: Object) returns (found: bool, ok: bool)
      requires Valid() && Canonical(name) && NewLeaf(obj) && obj.name == Last(Components(name))
      requires LookedUp(tree, null, Components(name))
      modifies this`tree, tree.objs, obj
      ensures ok <==> !Misplaced(old(tree), old(Snapshot(tree.objs)), Components(name))
      ensures ok ==> Valid() && Inserted(old(tree), tree, obj, Components(name))
      ensures ok ==> (found <==> !LookedUp(old(tree), null, AllButLast(Components(name))))
      ensures ok && obj !in tree.objs ==> FieldsOf(obj) == old(FieldsOf(obj))
      ensures ok ==> obj.refs == old(obj.refs) && obj.services == old(obj.services)
      ensures ok ==> SameServices(old(tree).objs, old(Snapshot(tree.objs)))
    {
      CanonicalLast(name);
      var curDir := FindParent(name);
      if curDir == null {
        return false, true;
      }
      InsertedUnder(tree, rootDir, curDir, obj, Components(name));
      SameParent(tree, rootDir, curDir);
      ok := CallAddChild(curDir, obj);
      found := true;
    }

    /** Calls the service of an object that adds a child, if its table is that long. */
    method CallAddChild(curDir: Object, obj: Object) returns (ok: bool)
      requires Valid() && curDir in tree.objs && NewLeaf(obj)
      requires ValidName(obj.name) && LookedUp(tree, null, tree.path[curDir] + [obj.name])
      modifies this`tree, tree.objs, obj
      ensures ok <==> curDir.isDir || old(curDir.services) <= OBJDIR_ADD_CHILD
      ensures ok ==> Valid() && tree == if curDir.isDir then Added(old(tree), curDir, obj) else old(tree)
      ensures obj !in tree.objs ==> FieldsOf(obj) == old(FieldsOf(obj))
      ensures obj.refs == old(obj.refs) && obj.services == old(obj.services)
      ensures SameServices(old(tree).objs, old(Snapshot(tree.objs)))
    {
      assert NodeOk(tree, Snapshot(tree.objs), curDir);
      if curDir.services <= OBJDIR_ADD_CHILD {
        return true;
      }
      if !curDir.isDir {
        return false;
      }
      AddChild(curDir, obj);
      ok := true;
    }

    /** Creates an object, unless the path is taken. The object is in the tree exactly when the path
        above it leads to a directory. When ok is false the lookup or the insertion calls a service of
        some other kind, or there is no memory and the program clears the new object through a null
        pointer. */
    method Create(name: string, isDir: bool, memory: bool) returns (obj: Object?, ok: bool)
      requires Valid() && (Canonical(name) || name == "/")
      modifies this`tree, tree.objs
      ensures rootDir == old(rootDir)
      ensures ok <==> name == "/" || var f := old(Snapshot(tree.objs));
        && !Astray(old(tree), f, Components(name))
        && (LookedUp(old(tree), null, Components(name)) ==> memory && !Misplaced(old(tree), f, Components(name)))
      ensures ok ==> Valid()
      ensures ok ==> (obj == null <==> name == "/" || !LookedUp(old(tree), null, Components(name)))
      ensures ok && obj == null ==> tree == old(tree)
      ensures ok && obj != null ==>
        fresh(obj) && obj.isDir == isDir && Inserted(old(tree), tree, obj, Components(name))
      ensures ok && obj != null ==>
        obj.name == Last(Components(name)) && obj.refs == 1 && obj.services == OwnServices(isDir)
      ensures ok && obj != null && obj !in tree.objs ==> obj.parent == null
      ensures ok ==> SameServices(old(tree).objs, old(Snapshot(tree.objs)))
    {
      var found;
      found, ok := Find(name);
      if !ok {
        return null, false;
      }
      if found != null {
        return null, true;
      }
      if !memory {
        return null, false;
      }
      var base := Basename(name);
      obj := new Object(base, isDir);
      var inserted;
      inserted, ok := Insert(name, obj);
    }

    /** Installs a table of n services and calls its init service, which on a directory begins a new child
        list; on one that has children the tree is no longer what the objects say. When ok is false an
        assertion of the program reads behind the table. */
    method InstallSvcs(obj: Object, n: nat) returns (ok: bool)
      requires Valid() && (obj.isDir ==> n == DIR_SERVICES)
      modifies obj`services, obj`childCount, obj`childList
      ensures ok <==> n > OBJ_SERVICE_NOTIFY
      ensures obj.services == n
      ensures if obj.isDir then obj.childCount == 0 && obj.childList == null
        else obj.childCount == old(obj.childCount) && obj.childList == old(obj.childList)
      ensures Valid() <==> !obj.isDir || obj !in tree.objs || tree.kids[obj] == []
    {
      ghost var f := Snapshot(tree.objs);
      obj.services := n;
      if obj.isDir {
        obj.childCount, obj.childList := 0, null;
      }
      ok := n > OBJ_SERVICE_NOTIFY;
      ServicesConsistent(tree, rootDir, f, Snapshot(tree.objs), obj, n);
    }

    // ----- releasing objects -----

    /** The list changes of removing a child. */
    method UnlinkKid(dir: Object, obj: Object, ghost s: set<Object>)
      requires dir in s && obj in s && obj.parent == dir && dir != obj
      requires Siblings(Snapshot(s), obj)
      modifies s
      ensures ListCut(old(Snapshot(s)), Snapshot(s), dir, obj)
    {
      ghost var f := Snapshot(s);
      SpliceOut(obj, s);
      ghost var f1 := Snapshot(s);
      if obj == dir.childList {
        dir.childList := obj.nextChild;
      }
      HeadCut(f, f1, Snapshot(s), dir, obj);
    }

    /** The neighbours of a child in its list are linked to each other. */
    method SpliceOut(obj: Object, ghost s: set<Object>)
      requires obj in s && Siblings(Snapshot(s), obj)
      modifies s
      ensures SplicedAll(old(Snapshot(s)), Snapshot(s), obj)
    {
      if obj.prevChild != null {
        obj.prevChild.nextChild := obj.nextChild;
      }
      if obj.nextChild != null {
        obj.nextChild.prevChild := obj.prevChild;
      }
    }

    /** Removes a child from a directory, which drops the child's reference to it. When ok is
        false an assertion of the program fails. */
    method RemoveChild(dir: Object, obj: Object, ghost s: set<Object>, ghost path: map<Object, seq<string>>) returns (removed: bool, ok: bool)
      requires dir in s && obj in s && dir != obj && dir.isDir && path.Keys == s
      requires var f := Snapshot(s); Upward(f, path) && (NotEmpty(f, obj) || Siblings(f, obj))
      modifies s
      decreases |path[dir]|, 3
      ensures removed <==> old(obj.parent) == dir && !NotEmpty(old(Snapshot(s)), obj)
      ensures !removed ==> ok && Snapshot(s) == old(Snapshot(s))
      ensures removed ==> ok == (old(dir.refs) != 1)
      ensures removed && ok ==> Unlinked(old(Snapshot(s)), Snapshot(s - {obj}), dir, obj)
      ensures ok ==> obj.childCount == old(obj.childCount) && obj.services == old(obj.services)
    {
      if obj.parent != dir || (obj.isDir && obj.childCount != 0) {
        return false, true;
      }
      removed := true;
      assert UpOk(Snapshot(s), path, obj);
      ghost var f := Snapshot(s);
      UnlinkKid(dir, obj, s);
      ghost var f1 := Snapshot(s);
      UpwardKept(f, f1, path);
      ok := DropChildOf(obj.parent, s, path);
      if ok {
        CutUnlinks(f, f1, Snapshot(s), dir, obj);
        assert Snapshot(s - {obj}) == Snapshot(s) - {obj};
      }
    }

    /** Drops the reference of a child to its parent, and then counts it out. */
    method DropChildOf(dir: Object, ghost s: set<Object>, ghost path: map<Object, seq<string>>) returns (ok: bool)
      requires dir in s && dir.isDir && dir.childCount != 0 && path.Keys == s
      requires Upward(Snapshot(s), path)
      modifies s
      decreases |path[dir]|, 2
      ensures ok == (old(dir.refs) != 1)
      ensures ok ==>
        Snapshot(s) ==
        old(Snapshot(s)[dir := FieldsOf(dir).(refs := dir.refs - 1, childCount := dir.childCount - 1)])
    {
      ok := DropRef(dir, s, path);
      if ok {
        dir.childCount := dir.childCount - 1;
      }
    }

    /** Drops a reference, and removes the object with the last one, among the objects s with these
        paths. When ok is false an assertion of the program fails, or it reads through the null pointer
        of an object without parent or without service table. */
    method DropRef(obj: Object, ghost s: set<Object>, ghost path: map<Object, seq<string>>) returns (ok: bool)
      requires obj in s && path.Keys == s
      requires var f := Snapshot(s); Upward(f, path) && (obj.refs != 1 || obj.parent == null || NotEmpty(f, obj) || Siblings(f, obj))
      modifies s
      decreases |path[obj]|, 1
      ensures old(obj.refs) != 1 ==>
        ok && Snapshot(s) == old(Snapshot(s)[obj := FieldsOf(obj).(refs := obj.refs - 1)])
      ensures old(obj.refs) != 1 ==> obj.refs == old(obj.refs) - 1
      ensures old(obj.refs) == 1 ==> ok == Removable(old(Snapshot(s)), obj)
      ensures old(obj.refs) == 1 && ok ==>
        Unlinked(old(Snapshot(s)), Snapshot(s - {obj}), old(obj.parent), obj)
    {
      assert UpOk(Snapshot(s), path, obj);
      ghost var f := Snapshot(s);
      obj.refs := obj.refs - 1;
      UpwardKept(f, Snapshot(s), path);
      ok := true;
      if obj.refs == 0 {
        if obj.parent == null || !obj.parent.isDir {
          return false;
        }
        var removed;
        removed, ok := RemoveChild(obj.parent, obj, s, path);
        if obj.services <= OBJ_SERVICE_DESTROY || (obj.isDir && obj.childCount != 0) {
          ok := false;
        }
      }
    }

    /** Every object's parent, if any, is a directory that counts it. */
    lemma AllUpward()
      requires Valid()
      ensures Upward(Snapshot(tree.objs), tree.path)
    {
      var f := Snapshot(tree.objs);
      forall x {:trigger UpOk(f, tree.path, x)} | x in f ensures UpOk(f, tree.path, x) {
        ParentField(x);
        if x != rootDir {
          var d, i := ParentOf(tree, rootDir, x);
          assert NodeOk(tree, f, d) && ChildOk(f, d, tree.kids[d], i) && DirOk(tree, d);
        }
      }
    }

    /** Takes a reference. When ok is false the program reads through the null pointer of an object
        without service table, or behind a table that is too short. */
    method Ref(obj: Object) returns (ok: bool)
      requires Valid()
      modifies this`tree, obj`refs
      ensures ok <==> obj.services > OBJ_SERVICE_REF
      ensures Valid() && obj.refs == old(obj.refs) + 1
      ensures tree == if obj in old(tree).objs then Held(old(tree), obj, 1) else old(tree)
    {
      ghost var f := Snapshot(tree.objs);
      ok := AddRef(obj, tree.objs);
      CountRef(obj, f);
    }

    /** The count of an object, which is one of the objects s or none of them. */
    method AddRef(obj: Object, ghost s: set<Object>) returns (ok: bool)
      modifies obj`refs
      ensures ok == (obj.services > OBJ_SERVICE_REF) && obj.refs == old(obj.refs) + 1
      ensures Snapshot(s) == old(if obj in s then Snapshot(s)[obj := FieldsOf(obj).(refs := obj.refs + 1)] else Snapshot(s))
    {
      obj.refs := obj.refs + 1;
      ok := obj.services > OBJ_SERVICE_REF;
    }

    /** The tree after a reference was taken, given the fields before. */
    ghost method CountRef(obj: Object, f: map<Object, Fields>)
      requires Consistent(tree, rootDir, f)
      requires Snapshot(tree.objs) == if obj in tree.objs then f[obj := f[obj].(refs := f[obj].refs + 1)] else f
      modifies this`tree
      ensures Valid() && tree == if obj in old(tree).objs then Held(old(tree), obj, 1) else old(tree)
    {
      if obj in tree.objs {
        RefsConsistent(tree, rootDir, f, Snapshot(tree.objs), obj, 1);
        Adopt(Held(tree, obj, 1));
      }
    }

    /** Releases a held reference; with the last one of all the object, the i-th child of d, leaves the
        tree. An object that was created outside of the tree, without a parent, only counts. When ok is
        false an assertion of the program fails, or it reads through a null pointer. */
    method DeRef(obj: Object) returns (ok: bool, ghost d: Object, ghost i: nat)
      requires Valid() && if obj in tree.objs then 1 <= tree.held[obj] else obj.parent == null
      modifies this`tree, tree.objs, obj
      ensures ok <==> old(obj.refs != 1 || (obj.parent != null && obj.parent.refs != 1 && obj.services > OBJ_SERVICE_DESTROY))
      ensures ok ==> Valid()
      ensures ok && old(obj.refs) != 1 ==>
        tree == (if obj in old(tree).objs then Held(old(tree), obj, -1) else old(tree)) && obj.refs == old(obj.refs) - 1
      ensures ok && old(obj.refs) == 1 ==>
        && d == old(obj.parent) && d in old(tree).objs && i < |old(tree).kids[d]| && old(tree).kids[d][i] == obj
        && tree == Removed(old(tree), d, i, obj)
    {
      ghost var f := Snapshot(tree.objs);
      ghost var s, path;
      s, path, d, i := DropReady(obj);
      ok := DropRef(obj, s, path);
      if obj in tree.objs && ok {
        Settle(obj, f, d, i);
      } else if ok {
        assert Snapshot(tree.objs) == f;
        Adopt(tree);
      }
    }

    /** The objects that releasing a reference can reach, with their paths: those of the tree, or only an
        object outside of it. */
    lemma DropReady(obj: Object) returns (s: set<Object>, path: map<Object, seq<string>>, d: Object, i: nat)
      requires Valid() && if obj in tree.objs then 1 <= tree.held[obj] else obj.parent == null
      ensures s == (if obj in tree.objs then tree.objs else {obj}) && path.Keys == s && Upward(Snapshot(s), path)
      ensures obj.refs == 1 && obj.parent != null ==> Siblings(Snapshot(s), obj) && !NotEmpty(Snapshot(s), obj)
      ensures obj in tree.objs && obj.refs == 1 ==> tree.kids[obj] == [] && !NotEmpty(Snapshot(s), obj)
      ensures obj in tree.objs && obj.parent != null ==>
        d in tree.objs && i < |tree.kids[d]| && tree.kids[d][i] == obj && obj.parent == d && obj != rootDir
    {
      d, i := obj, 0;
      if obj in tree.objs {
        s, path := tree.objs, tree.path;
        AllUpward();
        d, i := LeafAt(tree, rootDir, Snapshot(tree.objs), obj);
      } else {
        s, path := {obj}, map[obj := []];
        assert UpOk(Snapshot(s), path, obj);
      }
    }

    /** The tree after a reference was dropped, given the fields before. */
    ghost method Settle(obj: Object, f: map<Object, Fields>, d: Object, i: nat)
      requires Consistent(tree, rootDir, f) && obj in tree.objs && 1 <= tree.held[obj]
      requires f[obj].refs != 1 ==> Snapshot(tree.objs) == f[obj := f[obj].(refs := f[obj].refs - 1)]
      requires f[obj].refs == 1 ==>
        && Unlinked(f, Snapshot(tree.objs - {obj}), d, obj) && f[d].refs != 1 && obj != rootDir
        && d in tree.objs && i < |tree.kids[d]| && tree.kids[d][i] == obj && tree.kids[obj] == []
      modifies this`tree
      ensures Valid()
      ensures tree == if f[obj].refs != 1 then Held(old(tree), obj, -1) else Removed(old(tree), d, i, obj)
    {
      if f[obj].refs != 1 {
        RefsConsistent(tree, rootDir, f, Snapshot(tree.objs), obj, -1);
        Adopt(Held(tree, obj, -1));
      } else {
        UnlinkedConsistent(tree, f, Snapshot(tree.objs - {obj}), rootDir, d, i, obj);
        Adopt(Removed(tree, d, i, obj));
      }
    }

    /** The next object of an enumeration of a directory, which starts from null. */
    method EnumDir(dir: Object, iter: Object?) returns (next: Object?)
      requires Valid() && dir in tree.objs && (iter != null ==> iter in tree.objs)
      ensures !dir.isDir ==> next == null
      ensures dir.isDir && iter == null ==> next == At(tree.kids[dir], 0)
      ensures dir.isDir && iter == rootDir ==> next == null
      ensures forall d, i | dir.isDir && d in tree.objs && 0 <= i < |tree.kids[d]| && tree.kids[d][i] == iter ::
        next == At(tree.kids[d], i + 1)
    {
      if !dir.isDir {
        return null;
      }
      ghost var f := Snapshot(tree.objs);
      assert NodeOk(tree, f, dir);
      if iter != null {
        forall d, i | d in tree.objs && 0 <= i < |tree.kids[d]| && tree.kids[d][i] == iter
          ensures iter.nextChild == At(tree.kids[d], i + 1)
        {
          assert NodeOk(tree, f, d) && ChildOk(f, d, tree.kids[d], i);
        }
        next := iter.nextChild;
      } else {
        next := dir.childList;
      }
    }

    /** An object that is not in the tree yet. */
    ghost predicate NewLeaf(obj: Object)
      reads this, obj
    {
      && obj !in tree.objs && obj.refs == 1 && obj.childCount == 0 && obj.childList == null
      && (obj.isDir ==> obj.services == DIR_SERVICES)
    }
  }

  /** Writes '/' and a name into a buffer, before the components already printed. */
  method WritePart(buf: array<char>, pos: nat, name: string, ghost printed: seq<string>)
    requires pos + 1 + |name| < buf.Length && buf[pos + 1 + |name|..buf.Length - 1] == Render(printed)
    modifies buf
    ensures buf[pos..buf.Length - 1] == Render([name] + printed)
    ensures buf[buf.Length - 1] == old(buf[buf.Length - 1])
  {
    buf[pos] := '/';
    forall k | 0 <= k < |name| {
      buf[pos + 1 + k] := name[k];
    }
    assert ([name] + printed)[1..] == printed;
    assert buf[pos..buf.Length - 1] == "/" + name + Render(printed);
  }
}
