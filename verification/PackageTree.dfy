/** The package tree: parsed declarations become packages and groups that refer to each other,
    and a request is resolved by name and built. */
module PackageTree {
  import opened PackageGraph
  import opened PackageBuild

  datatype Value = Identifier(str: string) | Text(str: string) | Number(num: int)
  /** The names of properties: dependencies, usebuildpkg, packages, subgroups, those of the
      commands (download, configure, build, clean, confHelp), and all others. */
  datatype PropName = Dependencies | UseBuildPkg | Packages | SubGroups | Command | OtherProp
  datatype Property = Property(name: PropName, vals: seq<Value>)
  datatype Name = NoName | Name(str: string)
  datatype BlockKind = PackageBlock | GroupBlock | OtherBlock
  /** One parsed declaration. */
  datatype Block = Block(kind: BlockKind, name: Name, props: seq<Property>)

  // ----- what declarations mean -----

  /** The first declaration of this kind and name, or -1. */
  function First(bs: seq<Block>, kind: BlockKind, name: string): int {
    if bs == [] then -1
    else
      var n := |bs| - 1;
      var k := First(bs[..n], kind, name);
      if k < 0 && bs[n].kind == kind && bs[n].name == Name(name) then n else k
  }

  /** First is what it is called. */
  lemma {:induction false} FirstIs(bs: seq<Block>, kind: BlockKind, name: string)
    ensures var k := First(bs, kind, name); -1 <= k < |bs| && (k >= 0 ==> bs[k].kind == kind && bs[k].name == Name(name))
    ensures forall i | 0 <= i < |bs| && bs[i].kind == kind && bs[i].name == Name(name) :: 0 <= First(bs, kind, name) <= i
  {
    if bs != [] {
      FirstIs(bs[..|bs| - 1], kind, name);
    }
  }

  /** The declaration a name refers to: a dependency is a package before it is a group. */
  function Target(bs: seq<Block>, prop: PropName, name: string): int {
    if prop == Packages then First(bs, PackageBlock, name)
    else if prop == SubGroups then First(bs, GroupBlock, name)
    else if First(bs, PackageBlock, name) >= 0 then First(bs, PackageBlock, name)
    else First(bs, GroupBlock, name)
  }

  /** All values given for a property. */
  function Vals(props: seq<Property>, prop: PropName): seq<Value> {
    if props == [] then []
    else
      var p := props[|props| - 1];
      Vals(props[..|props| - 1], prop) + if p.name == prop then p.vals else []
  }

  /** A value that the last of the declarations bs may have. */
  predicate ValueOk(bs: seq<Block>, kind: BlockKind, prop: PropName, v: Value) {
    if kind == PackageBlock then
      if prop == Dependencies then v.Identifier? && Target(bs, prop, v.str) >= 0
      else if prop == UseBuildPkg then v.Identifier? && (v.str == "true" || v.str == "false")
      else prop == Command
    else (prop == Packages || prop == SubGroups) && v.Identifier? && Target(bs, prop, v.str) >= 0
  }

  /** The first n values of a property. */
  predicate ValsOk(bs: seq<Block>, kind: BlockKind, p: Property, n: int)
    requires n <= |p.vals|
  {
    forall j | 0 <= j < n :: ValueOk(bs, kind, p.name, p.vals[j])
  }

  /** The first n properties of a declaration. */
  predicate PropsOk(bs: seq<Block>, kind: BlockKind, props: seq<Property>, n: int)
    requires n <= |props|
  {
    forall i | 0 <= i < n :: ValsOk(bs, kind, props[i], |props[i].vals|)
  }

  lemma ValsOkNext(bs: seq<Block>, kind: BlockKind, p: Property, i: nat)
    requires i < |p.vals| && ValsOk(bs, kind, p, i)
    ensures ValsOk(bs, kind, p, i + 1) <==> ValueOk(bs, kind, p.name, p.vals[i])
    ensures !ValueOk(bs, kind, p.name, p.vals[i]) ==> !ValsOk(bs, kind, p, |p.vals|)
  {
  }

  lemma PropsOkNext(bs: seq<Block>, kind: BlockKind, props: seq<Property>, i: nat)
    requires i < |props| && PropsOk(bs, kind, props, i)
    ensures PropsOk(bs, kind, props, i + 1) <==> ValsOk(bs, kind, props[i], |props[i].vals|)
    ensures !ValsOk(bs, kind, props[i], |props[i].vals|) ==> !PropsOk(bs, kind, props, |props|)
  {
  }

  /** The last of the declarations is accepted after the others. */
  predicate BlockOk(bs: seq<Block>)
    requires bs != []
  {
    var b := bs[|bs| - 1];
    (b.kind == PackageBlock || b.kind == GroupBlock) && b.name.Name? && PropsOk(bs, b.kind, b.props, |b.props|)
  }

  /** Every declaration is accepted after those before it. */
  predicate Accepted(bs: seq<Block>) {
    bs == [] || (BlockOk(bs) && Accepted(bs[..|bs| - 1]))
  }

  /** Some declaration of this kind has this name. */
  ghost predicate Names(bs: seq<Block>, kind: BlockKind, name: string) {
    exists i :: 0 <= i < |bs| && bs[i].kind == kind && bs[i].name == Name(name)
  }

  /** What the values of a package may be, after the declarations bs, its own among them: dependencies name
      packages or groups, usebuildpkg is true or false, and a command is anything. */
  ghost predicate PackageValue(bs: seq<Block>, prop: PropName, v: Value) {
    match prop
    case Dependencies => v.Identifier? && (Names(bs, PackageBlock, v.str) || Names(bs, GroupBlock, v.str))
    case UseBuildPkg => v == Identifier("true") || v == Identifier("false")
    case Command => true
    case _ => false
  }

  /** The same for a group: packages name packages, and subgroups groups. */
  ghost predicate GroupValue(bs: seq<Block>, prop: PropName, v: Value) {
    match prop
    case Packages => v.Identifier? && Names(bs, PackageBlock, v.str)
    case SubGroups => v.Identifier? && Names(bs, GroupBlock, v.str)
    case _ => false
  }

  lemma NamesIff(bs: seq<Block>, kind: BlockKind, name: string)
    ensures First(bs, kind, name) >= 0 <==> Names(bs, kind, name)
  {
    FirstIs(bs, kind, name);
  }

  lemma ValueOkIff(bs: seq<Block>, kind: BlockKind, prop: PropName, v: Value)
    requires kind != OtherBlock
    ensures ValueOk(bs, kind, prop, v) <==>
      if kind == PackageBlock then PackageValue(bs, prop, v) else GroupValue(bs, prop, v)
  {
    if v.Identifier? {
      NamesIff(bs, PackageBlock, v.str);
      NamesIff(bs, GroupBlock, v.str);
    }
  }

  /** One more declaration is accepted if and only if it is a named package or group all of whose values are
      what they may be; it may have properties without values of any name. */
  lemma AcceptedNextIff(bs: seq<Block>, b: Block)
    ensures Accepted(bs + [b]) <==>
      && Accepted(bs) && b.kind != OtherBlock && b.name != NoName
      && forall i, j | 0 <= i < |b.props| && 0 <= j < |b.props[i].vals| ::
        if b.kind == PackageBlock then PackageValue(bs + [b], b.props[i].name, b.props[i].vals[j])
        else GroupValue(bs + [b], b.props[i].name, b.props[i].vals[j])
  {
    var bs' := bs + [b];
    assert bs'[..|bs'| - 1] == bs && bs'[|bs'| - 1] == b;
    if b.kind != OtherBlock {
      forall i, j | 0 <= i < |b.props| && 0 <= j < |b.props[i].vals|
        ensures ValueOk(bs', b.kind, b.props[i].name, b.props[i].vals[j]) <==>
          if b.kind == PackageBlock then PackageValue(bs', b.props[i].name, b.props[i].vals[j])
          else GroupValue(bs', b.props[i].name, b.props[i].vals[j])
      {
        ValueOkIff(bs', b.kind, b.props[i].name, b.props[i].vals[j]);
      }
      PropsOkIff(bs', b.kind, b.props);
    }
  }

  lemma PropsOkIff(bs: seq<Block>, kind: BlockKind, props: seq<Property>)
    ensures PropsOk(bs, kind, props, |props|) <==>
      forall i, j | 0 <= i < |props| && 0 <= j < |props[i].vals| :: ValueOk(bs, kind, props[i].name, props[i].vals[j])
  {
    if PropsOk(bs, kind, props, |props|) {
      forall i, j | 0 <= i < |props| && 0 <= j < |props[i].vals| ensures ValueOk(bs, kind, props[i].name, props[i].vals[j]) {
        assert ValsOk(bs, kind, props[i], |props[i].vals|);
      }
    }
  }

  /** The declaration lists itself: it has its own name, and no earlier declaration of its kind
      has this name. */
  predicate SelfListed(bs: seq<Block>, k: int)
    requires 0 <= k < |bs| && bs[k].name.Name?
  {
    var b := bs[k];
    var prop := if b.kind == PackageBlock then Dependencies else SubGroups;
    Identifier(b.name.str) in Vals(b.props, prop) && First(bs[..k], b.kind, b.name.str) < 0
  }

  // ----- declared objects -----

  function OfKind(nodes: seq<Node>, isPackage: bool): seq<Node> {
    if nodes == [] then []
    else
      var n := nodes[|nodes| - 1];
      OfKind(nodes[..|nodes| - 1], isPackage) + if n.P? == isPackage then [n] else []
  }

  function Kind(isPackage: bool): BlockKind {
    if isPackage then PackageBlock else GroupBlock
  }

  function NameOf(n: Node): string {
    match n case P(p) => p.name case G(g) => g.name
  }

  function Obj(n: Node): (o: object)
    ensures !(o is Builder)
  {
    match n case P(p) => p case G(g) => g
  }

  /** The object that the k-th declaration creates. */
  ghost predicate Declared(n: Node, b: Block, k: int) {
    Ord(n) == k && b.kind == Kind(n.P?) && b.name == Name(NameOf(n))
  }

  ghost predicate AllDeclared(nodes: seq<Node>, bs: seq<Block>) {
    |nodes| == |bs| && forall k {:trigger Declared(nodes[k], bs[k], k)} | 0 <= k < |bs| :: Declared(nodes[k], bs[k], k)
  }

  /** The objects that the values of a property refer to. */
  function Listed(nodes: seq<Node>, bs: seq<Block>, prop: PropName, vals: seq<Value>): seq<Node> {
    if vals == [] then []
    else Listed(nodes, bs, prop, vals[..|vals| - 1]) + Referred(nodes, bs, prop, vals[|vals| - 1])
  }

  function Referred(nodes: seq<Node>, bs: seq<Block>, prop: PropName, v: Value): seq<Node> {
    if v.Number? || !(0 <= Target(bs, prop, v.str) < |nodes|) then []
    else [nodes[Target(bs, prop, v.str)]]
  }

  /** The packages and the groups that an object refers to, and whether it is marked as built. */
  datatype Links = Links(pkgs: seq<Node>, groups: seq<Node>, built: bool)

  ghost function LinksOf(n: Node): Links
    reads Obj(n)
  {
    match n
    case P(p) => Links(PkgNodes(p.depends), GroupNodes(p.groupDeps), p.isBuilt)
    case G(g) => Links(PkgNodes(g.packages), GroupNodes(g.subGroups), false)
  }

  /** What the properties of a declaration list. */
  ghost function Wanted(isPackage: bool, nodes: seq<Node>, bs: seq<Block>, props: seq<Property>): Links {
    if isPackage then
      var l := Listed(nodes, bs, Dependencies, Vals(props, Dependencies));
      Links(OfKind(l, true), OfKind(l, false), false)
    else
      Links(
        Listed(nodes, bs, Packages, Vals(props, Packages)), Listed(nodes, bs, SubGroups, Vals(props, SubGroups)), false)
  }

  function ObjsOf(nodes: seq<Node>): set<object> {
    set n | n in nodes :: Obj(n)
  }

  /** What each object refers to. */
  ghost function LinksAll(nodes: seq<Node>): seq<Links>
    reads ObjsOf(nodes)
  {
    if nodes == [] then [] else LinksAll(nodes[..|nodes| - 1]) + [LinksOf(nodes[|nodes| - 1])]
  }

  /** What the k-th declaration lists, read after the declarations up to it. */
  ghost function WantedBy(nodes: seq<Node>, bs: seq<Block>, k: int): Links
    requires 0 <= k < |bs| == |nodes|
  {
    Wanted(nodes[k].P?, nodes[..k + 1], bs[..k + 1], bs[k].props)
  }

  ghost function WantedAll(nodes: seq<Node>, bs: seq<Block>): seq<Links>
    requires |nodes| == |bs|
  {
    seq(|bs|, k requires 0 <= k < |bs| => WantedBy(nodes, bs, k))
  }

  /** The links with those of one more value of a property. */
  function More(links: Links, isPackage: bool, prop: PropName, l: seq<Node>): Links {
    if isPackage && prop == Dependencies then
      links.(pkgs := links.pkgs + OfKind(l, true), groups := links.groups + OfKind(l, false))
    else if !isPackage && prop == Packages then links.(pkgs := links.pkgs + l)
    else if !isPackage && prop == SubGroups then links.(groups := links.groups + l)
    else links
  }

  lemma {:induction false} OfKindIn(nodes: seq<Node>, isPackage: bool, n: Node)
    ensures n in OfKind(nodes, isPackage) <==> n in nodes && n.P? == isPackage
  {
    if nodes != [] {
      var init := nodes[..|nodes| - 1];
      assert nodes == init + [nodes[|nodes| - 1]];
      OfKindIn(init, isPackage, n);
    }
  }

  /** Objects of a kind are listed in the order of their declarations. */
  lemma {:induction false} OfKindSorted(nodes: seq<Node>, bs: seq<Block>, isPackage: bool, i: int, j: int)
    requires AllDeclared(nodes, bs) && 0 <= i < j < |OfKind(nodes, isPackage)|
    ensures Ord(OfKind(nodes, isPackage)[i]) < Ord(OfKind(nodes, isPackage)[j])
  {
    var n := |nodes| - 1;
    var init := OfKind(nodes[..n], isPackage);
    forall k {:trigger Declared(nodes[..n][k], bs[..n][k], k)} | 0 <= k < n ensures Declared(nodes[..n][k], bs[..n][k], k) {
      assert Declared(nodes[k], bs[k], k);
    }
    if j < |init| {
      OfKindSorted(nodes[..n], bs[..n], isPackage, i, j);
    } else {
      OfKindIn(nodes[..n], isPackage, init[i]);
      var k :| 0 <= k < n && nodes[..n][k] == init[i];
      assert Declared(nodes[k], bs[k], k) && Declared(nodes[n], bs[n], n);
    }
  }

  /** The first object of a kind with some name is the one of the first such declaration. */
  lemma FoundIsFirst(nodes: seq<Node>, bs: seq<Block>, isPackage: bool, name: string, j: int)
    requires AllDeclared(nodes, bs) && 0 <= j < |OfKind(nodes, isPackage)|
    requires NameOf(OfKind(nodes, isPackage)[j]) == name
    requires forall i | 0 <= i < j :: NameOf(OfKind(nodes, isPackage)[i]) != name
    ensures var k := First(bs, Kind(isPackage), name); 0 <= k < |nodes| && nodes[k] == OfKind(nodes, isPackage)[j]
  {
    var l, k := OfKind(nodes, isPackage), First(bs, Kind(isPackage), name);
    FirstIs(bs, Kind(isPackage), name);
    OfKindIn(nodes, isPackage, l[j]);
    var m :| 0 <= m < |nodes| && nodes[m] == l[j];
    assert Declared(nodes[m], bs[m], m);
    assert 0 <= k <= m;
    assert Declared(nodes[k], bs[k], k);
    OfKindIn(nodes, isPackage, nodes[k]);
    var i :| 0 <= i < |l| && l[i] == nodes[k];
    if i > j {
      OfKindSorted(nodes, bs, isPackage, j, i);
    }
  }

  lemma NoneFound(nodes: seq<Node>, bs: seq<Block>, isPackage: bool, name: string)
    requires AllDeclared(nodes, bs) && forall i | 0 <= i < |OfKind(nodes, isPackage)| :: NameOf(OfKind(nodes, isPackage)[i]) != name
    ensures First(bs, Kind(isPackage), name) < 0
  {
    var k := First(bs, Kind(isPackage), name);
    FirstIs(bs, Kind(isPackage), name);
    if k >= 0 {
      assert Declared(nodes[k], bs[k], k);
      OfKindIn(nodes, isPackage, nodes[k]);
      assert false;
    }
  }

  datatype Expecting = Nothing | ExpectPackage | ExpectGroup

  class Builder {
    var packages: seq<Package>
    var pkgGroups: seq<Group>
    var expecting: Expecting
    var prop: PropName
    var curPkg: Package?
    var curPkgGroup: Group?
    /** The declarations read so far, and the object of each. */
    ghost var bs: seq<Block>
    ghost var nodes: seq<Node>

    /** The lists hold the objects of the declarations, the current one last. */
    ghost predicate Lists()
      reads this`packages, this`pkgGroups, this`bs, this`nodes, this`expecting, this`curPkg, this`curPkgGroup
    {
      && AllDeclared(nodes, bs)
      && PkgNodes(packages) == OfKind(nodes, true) && GroupNodes(pkgGroups) == OfKind(nodes, false)
      && (nodes != [] ==> IsCurrent(nodes[|nodes| - 1]))
    }

    ghost predicate IsCurrent(n: Node)
      reads this`expecting, this`curPkg, this`curPkgGroup
    {
      match n
      case P(p) => expecting == ExpectPackage && curPkg == p
      case G(g) => expecting == ExpectGroup && curPkgGroup == g
    }

    constructor ()
      ensures Lists() && bs == []
    {
      packages, pkgGroups, expecting, prop, curPkg, curPkgGroup, bs, nodes := [], [], Nothing, OtherProp, null, null, [], [];
    }

    /** Finds the first package with a name. */
    method FindPackage(name: string) returns (p: Package?)
      requires Lists()
      ensures var k := First(bs, PackageBlock, name); if p == null then k < 0 else 0 <= k < |nodes| && nodes[k] == P(p)
    {
      for i := 0 to |packages|
        invariant forall j | 0 <= j < i :: NameOf(PkgNodes(packages)[j]) != name
      {
        if packages[i].name == name {
          assert PkgNodes(packages)[i] == P(packages[i]);
          FoundIsFirst(nodes, bs, true, name, i);
          return packages[i];
        }
      }
      NoneFound(nodes, bs, true, name);
      p := null;
    }

    /** Finds the first group with a name. */
    method FindGroup(name: string) returns (g: Group?)
      requires Lists()
      ensures var k := First(bs, GroupBlock, name); if g == null then k < 0 else 0 <= k < |nodes| && nodes[k] == G(g)
    {
      for i := 0 to |pkgGroups|
        invariant forall j | 0 <= j < i :: NameOf(GroupNodes(pkgGroups)[j]) != name
      {
        if pkgGroups[i].name == name {
          assert GroupNodes(pkgGroups)[i] == G(pkgGroups[i]);
          FoundIsFirst(nodes, bs, false, name, i);
          return pkgGroups[i];
        }
      }
      NoneFound(nodes, bs, false, name);
      g := null;
    }

    /** Adds a package to the list, and makes it the current one. */
    method AddPackage(name: string, ghost b: Block)
      requires Lists() && b.kind == PackageBlock && b.name == Name(name)
      modifies this
      ensures Lists() && bs == old(bs) + [b] && curPkg != null && fresh(curPkg) && nodes == old(nodes) + [P(curPkg)]
      ensures LinksOf(P(curPkg)) == Links([], [], false)
    {
      var newPkg := new Package(name, |bs|);
      packages := packages + [newPkg];
      expecting := ExpectPackage;
      curPkg := newPkg;
      bs, nodes := bs + [b], nodes + [P(newPkg)];
      DeclaredNext(old(nodes), old(bs), P(newPkg), b);
      PkgNodesNext(old(packages), newPkg);
    }

    /** Adds a group to the list, and makes it the current one. */
    method AddGroup(name: string, ghost b: Block)
      requires Lists() && b.kind == GroupBlock && b.name == Name(name)
      modifies this
      ensures Lists() && bs == old(bs) + [b]
      ensures curPkgGroup != null && fresh(curPkgGroup) && nodes == old(nodes) + [G(curPkgGroup)]
      ensures LinksOf(G(curPkgGroup)) == Links([], [], false)
    {
      var newGrp := new Group(name, |bs|);
      pkgGroups := pkgGroups + [newGrp];
      expecting := ExpectGroup;
      curPkgGroup := newGrp;
      bs, nodes := bs + [b], nodes + [G(newGrp)];
      DeclaredNext(old(nodes), old(bs), G(newGrp), b);
      GroupNodesNext(old(pkgGroups), newGrp);
    }

    /** Adds a package, or else a group, to the dependencies of the current package. */
    method AddDependencyToPackage(depName: string) returns (ok: bool)
      requires Lists() && curPkg != null
      modifies curPkg
      ensures ok <==> Target(bs, Dependencies, depName) >= 0
      ensures ok ==>
        var l := Referred(nodes, bs, Dependencies, Identifier(depName));
        LinksOf(P(curPkg)) == More(old(LinksOf(P(curPkg))), true, Dependencies, l)
    {
      var package := FindPackage(depName);
      if package != null {
        PkgNodesNext(curPkg.depends, package);
        OfKindOne(P(package));
        curPkg.depends := curPkg.depends + [package];
      } else {
        var group := FindGroup(depName);
        if group == null {
          return false;
        }
        GroupNodesNext(curPkg.groupDeps, group);
        OfKindOne(G(group));
        curPkg.groupDeps := curPkg.groupDeps + [group];
      }
      ok := true;
    }

    /** Adds a package to the current group. */
    method AddPackageToGroup(packageName: string) returns (ok: bool)
      requires Lists() && curPkgGroup != null
      modifies curPkgGroup
      ensures ok <==> expecting == ExpectGroup && Target(bs, Packages, packageName) >= 0
      ensures ok ==>
        var l := Referred(nodes, bs, Packages, Identifier(packageName));
        LinksOf(G(curPkgGroup)) == More(old(LinksOf(G(curPkgGroup))), false, Packages, l)
    {
      if expecting != ExpectGroup {
        return false;
      }
      var package := FindPackage(packageName);
      if package == null {
        return false;
      }
      PkgNodesNext(curPkgGroup.packages, package);
      curPkgGroup.packages := curPkgGroup.packages + [package];
      ok := true;
    }

    /** Adds a group to the subgroups of the current group. */
    method AddGroupToGroup(groupName: string) returns (ok: bool)
      requires Lists() && curPkgGroup != null
      modifies curPkgGroup
      ensures ok <==> Target(bs, SubGroups, groupName) >= 0
      ensures ok ==>
        var l := Referred(nodes, bs, SubGroups, Identifier(groupName));
        LinksOf(G(curPkgGroup)) == More(old(LinksOf(G(curPkgGroup))), false, SubGroups, l)
    {
      var group := FindGroup(groupName);
      if group == null {
        return false;
      }
      GroupNodesNext(curPkgGroup.subGroups, group);
      curPkgGroup.subGroups := curPkgGroup.subGroups + [group];
      ok := true;
    }

    /** Adds a value of the current property to the current package or group. */
    method AddValue(v: Value) returns (ok: bool)
      requires bs != [] && Lists()
      modifies Obj(nodes[|nodes| - 1])
      ensures ok <==> ValueOk(bs, bs[|bs| - 1].kind, prop, v)
      ensures ok ==>
        var n := nodes[|nodes| - 1];
        LinksOf(n) == More(old(LinksOf(n)), n.P?, prop, Referred(nodes, bs, prop, v))
    {
      ghost var n := nodes[|nodes| - 1];
      assert IsCurrent(n) && Declared(n, bs[|bs| - 1], |bs| - 1);
      if expecting == ExpectPackage {
        if prop == Dependencies {
          if !v.Identifier? {
            return false;
          }
          ok := AddDependencyToPackage(v.str);
        } else if prop == UseBuildPkg {
          return v.Identifier? && (v.str == "true" || v.str == "false");
        } else {
          return prop == Command;
        }
      } else {
        if prop == Packages {
          if !v.Identifier? {
            return false;
          }
          ok := AddPackageToGroup(v.str);
        } else if prop == SubGroups {
          if !v.Identifier? {
            return false;
          }
          ok := AddGroupToGroup(v.str);
        } else {
          return false;
        }
      }
    }

    /** Starts a property: its name is remembered for its values. */
    method StartProperty(p: Property)
      requires bs != [] && Lists()
      modifies this`prop
      ensures Lists() && prop == p.name && LinksOf(nodes[|nodes| - 1]) == old(LinksOf(nodes[|nodes| - 1]))
    {
      assert Obj(nodes[|nodes| - 1]) != this;
      prop := p.name;
    }

    /** Adds the values of the current property to the current package or group, whose links after i
        values are links(i). */
    method AddValues(p: Property, ghost links: nat -> Links)
        returns (ok: bool)
      requires bs != [] && Lists() && prop == p.name && LinksOf(nodes[|nodes| - 1]) == links(0)
      requires Growing(nodes, bs, nodes[|nodes| - 1].P?, p, links)
      modifies Obj(nodes[|nodes| - 1])
      ensures bs == old(bs) && nodes == old(nodes) && Lists()
      ensures ok <==> ValsOk(bs, bs[|bs| - 1].kind, p, |p.vals|)
      ensures ok ==> LinksOf(nodes[|nodes| - 1]) == links(|p.vals|)
    {
      ghost var n := nodes[|nodes| - 1];
      assert Obj(n) != this;
      for i := 0 to |p.vals|
        invariant prop == p.name && bs == old(bs) && nodes == old(nodes) && Lists()
        invariant ValsOk(bs, bs[|bs| - 1].kind, p, i) && LinksOf(n) == links(i)
      {
        ValsOkNext(bs, bs[|bs| - 1].kind, p, i);
        assert GrowsAt(nodes, bs, n.P?, p, links, i);
        ok := AddValue(p.vals[i]);
        if !ok {
          return;
        }
      }
      ok := true;
    }

    /** Applies one property to the current package or group. */
    method AddProperty(p: Property, ghost seen: seq<Property>) returns (ok: bool)
      requires bs != [] && Lists()
      requires var n := nodes[|nodes| - 1]; LinksOf(n) == Wanted(n.P?, nodes, bs, seen)
      modifies this`prop, Obj(nodes[|nodes| - 1])
      ensures bs == old(bs) && nodes == old(nodes) && Lists()
      ensures ok <==> ValsOk(bs, bs[|bs| - 1].kind, p, |p.vals|)
      ensures ok ==> var n := nodes[|nodes| - 1]; LinksOf(n) == Wanted(n.P?, nodes, bs, seen + [p])
    {
      ghost var links := LinksWithValues(nodes[|nodes| - 1].P?, nodes, bs, seen, p);
      StartProperty(p);
      ok := AddValues(p, links);
    }

    /** Applies the properties of a declaration. */
    method AddProperties(props: seq<Property>) returns (ok: bool)
      requires bs != [] && Lists() && LinksOf(nodes[|nodes| - 1]) == Links([], [], false)
      modifies this`prop, Obj(nodes[|nodes| - 1])
      ensures bs == old(bs) && nodes == old(nodes) && Lists()
      ensures ok <==> PropsOk(bs, bs[|bs| - 1].kind, props, |props|)
      ensures ok ==> var n := nodes[|nodes| - 1]; LinksOf(n) == Wanted(n.P?, nodes, bs, props)
    {
      for i := 0 to |props|
        invariant bs == old(bs) && nodes == old(nodes) && Lists()
        invariant PropsOk(bs, bs[|bs| - 1].kind, props, i)
        invariant var n := nodes[|nodes| - 1]; LinksOf(n) == Wanted(n.P?, nodes, bs, props[..i])
      {
        assert props[..i + 1] == props[..i] + [props[i]];
        PropsOkNext(bs, bs[|bs| - 1].kind, props, i);
        ok := AddProperty(props[i], props[..i]);
        if !ok {
          return;
        }
      }
      assert props[..|props|] == props;
      ok := true;
    }

    /** Creates the object of a declaration and applies its properties. */
    method AddBlock(b: Block) returns (ok: bool)
      requires Lists()
      modifies this
      ensures ok <==> BlockOk(old(bs) + [b])
      ensures ok ==>
        && Lists() && bs == old(bs) + [b] && |nodes| == |bs| && nodes[..|nodes| - 1] == old(nodes)
        && fresh(Obj(nodes[|nodes| - 1])) && LinksOf(nodes[|nodes| - 1]) == Wanted(nodes[|nodes| - 1].P?, nodes, bs, b.props)
    {
      if b.kind != PackageBlock && b.kind != GroupBlock {
        return false;
      }
      if b.name.NoName? {
        return false;
      }
      if b.kind == PackageBlock {
        AddPackage(b.name.str, b);
      } else {
        AddGroup(b.name.str, b);
      }
      ok := AddProperties(b.props);
    }

    /** All declarations read were accepted, and their objects refer to what they list. */
    ghost predicate Made()
      reads this, ObjsOf(nodes)
    {
      && Lists() && Accepted(bs) && |nodes| == |bs| && LinksAll(nodes) == WantedAll(nodes, bs)
    }

    /** Adds a declaration to those made so far. */
    method AddNextBlock(b: Block) returns (ok: bool)
      requires Made()
      modifies this
      ensures ok <==> BlockOk(old(bs) + [b])
      ensures ok ==> Made() && bs == old(bs) + [b]
    {
      ghost var was, declared := nodes, bs;
      assert this !in ObjsOf(was);
      ok := AddBlock(b);
      assert LinksAll(was) == old(LinksAll(nodes));
      if ok {
        MadeNext(nodes, bs, was, declared, b);
      }
    }

    /** Turns the declarations into packages and groups, up to one that is not accepted. */
    method BuildPackageTree(blocks: seq<Block>) returns (ok: bool)
      requires Made() && bs == []
      modifies this
      ensures ok <==> Accepted(blocks)
      ensures ok ==> Made() && bs == blocks
    {
      for i := 0 to |blocks|
        invariant Made() && bs == blocks[..i]
      {
        AcceptedNext(blocks, i);
        ok := AddNextBlock(blocks[i]);
        if !ok {
          NotAccepted(blocks, i);
          return;
        }
      }
      assert blocks[..|blocks|] == blocks;
      ok := true;
    }

    /** What the tree says about each package and group. */
    lemma TreeAt(n: Node)
      requires Made() && n in nodes
      ensures var g := GraphOf(nodes, bs); n in g && match n
        case P(p) => !p.isBuilt && g[n] == PkgNodes(p.depends) + GroupNodes(p.groupDeps)
        case G(gr) => g[n] == GroupNodes(gr.subGroups) + PkgNodes(gr.packages)
    {
      var k :| 0 <= k < |nodes| && nodes[k] == n;
      GraphAt(nodes, bs, k);
      LinksAt(nodes, k);
    }

    /** A run of what the request reaches, before anything is built. */
    method StartRun(works: (Package, Step) -> bool, isPackage: bool, name: string) returns (run: Run)
      requires Made() && Buildable(nodes, bs, isPackage, name)
      ensures fresh(run) && run.Valid() && run.order == [] && run.log == []
      ensures run.graph == Part(GraphOf(nodes, bs), Requested(nodes, bs, isPackage, name)) && run.works == works
    {
      ghost var part := Part(GraphOf(nodes, bs), Requested(nodes, bs, isPackage, name));
      BuildableIff(nodes, bs, isPackage, name);
      ghost var pkgs: set<Package> := set p | p in packages && P(p) in part;
      ghost var groups: set<Group> := set g | g in pkgGroups && G(g) in part;
      forall n | n in part
        ensures if n.P? then n.pkg in pkgs else n.group in groups
        ensures match n
          case P(p) => !p.isBuilt && part[n] == PkgNodes(p.depends) + GroupNodes(p.groupDeps)
          case G(g) => part[n] == GroupNodes(g.subGroups) + PkgNodes(g.packages)
      {
        InLists(n);
        TreeAt(n);
      }
      run := new Run(works, pkgs, groups, part);
    }

    lemma InLists(n: Node)
      requires Lists()
      ensures n in nodes <==> if n.P? then n.pkg in packages else n.group in pkgGroups
    {
      OfKindIn(nodes, n.P?, n);
      if n.P? && n.pkg in packages {
        var i :| 0 <= i < |packages| && packages[i] == n.pkg;
        assert PkgNodes(packages)[i] == n;
      }
      if n.G? && n.group in pkgGroups {
        var i :| 0 <= i < |pkgGroups| && pkgGroups[i] == n.group;
        assert GroupNodes(pkgGroups)[i] == n;
      }
    }

    /** Builds every package. */
    method BuildAll(run: Run, action: string) returns (ok: bool)
      requires run.Valid() && Succeeded(run.works, run.order, action, run.log) && action != "confhelp"
      requires run.order == [] && forall j | 0 <= j < |packages| :: packages[j] in run.pkgs
      modifies run`order, run`log, run.pkgs`isBuilt
      ensures run.Valid() && (ok ==> Succeeded(run.works, run.order, action, run.log))
      ensures !ok ==> Halted(run.works, run.order, action, run.log)
      ensures ok ==> forall j | 0 <= j < |packages| :: Done(run.graph, P(packages[j]), run.order)
      ensures WalkedAll(run.graph, PkgNodes(packages), run.order, ok)
    {
      ghost var ns := PkgNodes(packages);
      for i := 0 to |packages|
        invariant run.Valid() && Succeeded(run.works, run.order, action, run.log)
        invariant run.order == WalkAll(run.graph, ns[..i], [])
        invariant forall j | 0 <= j < i :: Done(run.graph, P(packages[j]), run.order)
      {
        ghost var before := run.order;
        ok := run.BuildPackage(packages[i], action);
        WalkAllNext(run.graph, ns, i);
        if !ok {
          return;
        }
        forall j | 0 <= j < i ensures Done(run.graph, P(packages[j]), run.order) {
          DoneGrows(run.graph, P(packages[j]), before, run.order);
        }
      }
      assert ns[..|packages|] == ns;
      ok := true;
    }

    /** Builds a package, a group, or with the group name "all" every package. */
    method BuildPackages(run: Run, isPackage: bool, name: string, action: string) returns (ok: bool)
      requires Made() && run.Valid() && run.order == [] && run.log == [] && action != "confhelp"
      requires run.graph == Part(GraphOf(nodes, bs), Requested(nodes, bs, isPackage, name))
      modifies run`order, run`log, run.pkgs`isBuilt
      ensures run.Valid() && OrderOk(GraphOf(nodes, bs), run.order)
      ensures ok ==> Succeeded(run.works, run.order, action, run.log)
      ensures !ok && Asked(nodes, bs, isPackage, name) ==> Halted(run.works, run.order, action, run.log)
      ensures !Asked(nodes, bs, isPackage, name) ==> !ok && run.order == [] && run.log == []
      ensures Outcome(nodes, bs, isPackage, name, GraphOf(nodes, bs), run.order, ok)
      ensures WalkedAll(GraphOf(nodes, bs), Roots(nodes, bs, isPackage, name), run.order, ok)
    {
      ghost var g, from := GraphOf(nodes, bs), Requested(nodes, bs, isPackage, name);
      RequestedIn(nodes, bs, isPackage, name);
      ok := BuildRequest(run, isPackage, name, action);
      OutcomeOfPart(nodes, bs, isPackage, name, run.order, ok);
      RootsWalk(nodes, bs, isPackage, name);
    }

    method BuildRequest(run: Run, isPackage: bool, name: string, action: string) returns (ok: bool)
      requires Lists() && run.Valid() && run.order == [] && run.log == [] && action != "confhelp"
      requires forall n | n in Requested(nodes, bs, isPackage, name) :: n in run.graph
      modifies run`order, run`log, run.pkgs`isBuilt
      ensures run.Valid() && (ok ==> Succeeded(run.works, run.order, action, run.log))
      ensures !ok && Asked(nodes, bs, isPackage, name) ==> Halted(run.works, run.order, action, run.log)
      ensures !Asked(nodes, bs, isPackage, name) ==> !ok && run.order == [] && run.log == []
      ensures Outcome(nodes, bs, isPackage, name, run.graph, run.order, ok)
      ensures WalkedAll(run.graph, Roots(nodes, bs, isPackage, name), run.order, ok)
    {
      if !isPackage {
        if name != "all" {
          var group := FindGroup(name);
          if group == null {
            return false;
          }
          assert G(group) in Requested(nodes, bs, isPackage, name);
          ok := run.BuildGroup(group, action);
          WalkOne(run.graph, G(group));
        } else {
          forall j | 0 <= j < |packages| ensures packages[j] in run.pkgs {
            InLists(P(packages[j]));
            assert P(packages[j]) in Requested(nodes, bs, isPackage, name);
          }
          ok := BuildAll(run, action);
          forall n | n in nodes && n.P? ensures ok ==> Done(run.graph, n, run.order) {
            InLists(n);
          }
        }
      } else {
        var pkg := FindPackage(name);
        if pkg == null {
          return false;
        }
        assert P(pkg) in Requested(nodes, bs, isPackage, name);
        ok := run.BuildPackage(pkg, action);
        WalkOne(run.graph, P(pkg));
      }
    }
  }

  /** What a request asks for. */
  ghost function Requested(nodes: seq<Node>, bs: seq<Block>, isPackage: bool, name: string): set<Node> {
    var k := First(bs, Kind(isPackage), name);
    if !isPackage && name == "all" then set n | n in nodes && n.P?
    else if 0 <= k < |nodes| then {nodes[k]}
    else {}
  }

  /** What a request asks for, in order. */
  function Roots(nodes: seq<Node>, bs: seq<Block>, isPackage: bool, name: string): seq<Node> {
    var k := First(bs, Kind(isPackage), name);
    if !isPackage && name == "all" then OfKind(nodes, true) else if 0 <= k < |nodes| then [nodes[k]] else []
  }

  /** What was built is a walk from these nodes, one after the other, or the start of it if it failed. */
  ghost predicate WalkedAll(g: Graph, ns: seq<Node>, order: seq<Package>, ok: bool) {
    order <= WalkAll(g, ns, []) && (ok ==> order == WalkAll(g, ns, []))
  }

  lemma WalkAllNext(g: Graph, ns: seq<Node>, i: nat)
    requires i < |ns|
    ensures WalkAll(g, ns[..i + 1], []) == Walk(g, ns[i], WalkAll(g, ns[..i], []))
    ensures WalkAll(g, ns[..i + 1], []) <= WalkAll(g, ns, [])
  {
    assert ns[..i + 1][..i] == ns[..i];
    WalkAllGrows(g, ns, i + 1, []);
  }

  lemma WalkOne(g: Graph, n: Node)
    ensures WalkAll(g, [n], []) == Walk(g, n, [])
  {
    assert [n][..0] == [];
  }

  /** The walk of a request in the part that it reaches is the one in the graph. */
  lemma RootsWalk(nodes: seq<Node>, bs: seq<Block>, isPackage: bool, name: string)
    requires AllDeclared(nodes, bs)
    ensures var g := GraphOf(nodes, bs);
      WalkAll(Part(g, Requested(nodes, bs, isPackage, name)), Roots(nodes, bs, isPackage, name), []) ==
      WalkAll(g, Roots(nodes, bs, isPackage, name), [])
  {
    GraphBackward(nodes, bs);
    RequestedIn(nodes, bs, isPackage, name);
    var roots := Roots(nodes, bs, isPackage, name);
    forall n | n in roots ensures n in Requested(nodes, bs, isPackage, name) {
      OfKindIn(nodes, true, n);
    }
    PartWalkAll(GraphOf(nodes, bs), Requested(nodes, bs, isPackage, name), roots, []);
  }

  /** No declaration that the request reaches lists itself. */
  ghost predicate Buildable(nodes: seq<Node>, bs: seq<Block>, isPackage: bool, name: string)
    requires AllDeclared(nodes, bs)
  {
    forall k | 0 <= k < |bs| && bs[k].name.Name?
        && nodes[k] in Part(GraphOf(nodes, bs), Requested(nodes, bs, isPackage, name)) :: !SelfListed(bs, k)
  }

  /** Nodes that are declared up to the k-th one. */
  ghost predicate Earlier(nodes: seq<Node>, k: nat, edges: seq<Node>)
    requires k < |nodes|
  {
    forall m | m in edges :: m in nodes && (m == nodes[k] || Ord(m) < k)
  }

  lemma OrdIs(nodes: seq<Node>, bs: seq<Block>, k: nat)
    requires AllDeclared(nodes, bs) && k < |bs|
    ensures Ord(nodes[k]) == k
  {
    assert Declared(nodes[k], bs[k], k);
  }

  lemma EdgesEarlier(nodes: seq<Node>, bs: seq<Block>, k: nat)
    requires AllDeclared(nodes, bs) && k < |bs|
    ensures Earlier(nodes, k, EdgesAt(nodes, bs, k))
  {
    var edges := EdgesAt(nodes, bs, k);
    forall m | m in edges ensures m in nodes && (m == nodes[k] || Ord(m) < k) {
      var t := EdgesBackward(nodes, bs, k, m);
      OrdIs(nodes, bs, t);
    }
  }

  lemma BackwardEdges(nodes: seq<Node>, k: nat, g: Graph)
    requires k < |nodes| && g.Keys == (set n | n in nodes) && Ord(nodes[k]) == k
    requires nodes[k] in g && Earlier(nodes, k, g[nodes[k]])
    ensures BackwardAt(g, nodes[k])
  {
  }

  lemma GraphKeys(nodes: seq<Node>, bs: seq<Block>)
    requires AllDeclared(nodes, bs)
    ensures GraphOf(nodes, bs).Keys == set n | n in nodes
  {
  }

  lemma BackwardFrom(nodes: seq<Node>, bs: seq<Block>, k: nat)
    requires AllDeclared(nodes, bs) && k < |bs|
    ensures nodes[k] in GraphOf(nodes, bs) && BackwardAt(GraphOf(nodes, bs), nodes[k])
  {
    GraphAt(nodes, bs, k);
    GraphKeys(nodes, bs);
    EdgesEarlier(nodes, bs, k);
    BackwardEdges(nodes, k, GraphOf(nodes, bs));
  }

  lemma GraphBackward(nodes: seq<Node>, bs: seq<Block>)
    requires AllDeclared(nodes, bs)
    ensures Backward(GraphOf(nodes, bs))
  {
    var g := GraphOf(nodes, bs);
    forall n {:trigger BackwardAt(g, n)} | n in g ensures BackwardAt(g, n) {
      var k :| 0 <= k < |nodes| && nodes[k] == n;
      BackwardFrom(nodes, bs, k);
    }
  }

  /** What a request reaches has only edges to earlier declarations, and so no cycle, exactly when no
      declaration that it reaches lists itself. */
  lemma BuildableIff(nodes: seq<Node>, bs: seq<Block>, isPackage: bool, name: string)
    requires AllDeclared(nodes, bs) && Accepted(bs)
    ensures GraphOk(Part(GraphOf(nodes, bs), Requested(nodes, bs, isPackage, name))) <==>
      Buildable(nodes, bs, isPackage, name)
  {
    var g, from := GraphOf(nodes, bs), Requested(nodes, bs, isPackage, name);
    GraphBackward(nodes, bs);
    PartOkIff(g, from);
    forall k | 0 <= k < |bs| ensures bs[k].name.Name? && nodes[k] in g && (nodes[k] in g[nodes[k]] <==> SelfListed(bs, k)) {
      BlockAccepted(bs, k);
      GraphAt(nodes, bs, k);
      SelfEdgeIff(nodes, bs, k);
    }
  }

  lemma RequestedIn(nodes: seq<Node>, bs: seq<Block>, isPackage: bool, name: string)
    requires AllDeclared(nodes, bs)
    ensures forall n | n in Requested(nodes, bs, isPackage, name) ::
      n in Part(GraphOf(nodes, bs), Requested(nodes, bs, isPackage, name))
  {
  }

  /** What a build of the part that a request reaches does is what the request asks for. */
  lemma OutcomeOfPart(nodes: seq<Node>, bs: seq<Block>, isPackage: bool, name: string, order: seq<Package>, ok: bool)
    requires AllDeclared(nodes, bs)
    requires var h := Part(GraphOf(nodes, bs), Requested(nodes, bs, isPackage, name));
      OrderOk(h, order) && Outcome(nodes, bs, isPackage, name, h, order, ok)
    ensures OrderOk(GraphOf(nodes, bs), order) && Outcome(nodes, bs, isPackage, name, GraphOf(nodes, bs), order, ok)
  {
    var g, from := GraphOf(nodes, bs), Requested(nodes, bs, isPackage, name);
    GraphBackward(nodes, bs);
    PartOrder(g, from, order);
    RequestedIn(nodes, bs, isPackage, name);
    forall n | n in from ensures Done(Part(g, from), n, order) <==> Done(g, n, order) {
      PartDone(g, from, n, order);
    }
    var k := First(bs, Kind(isPackage), name);
    if (isPackage || name != "all") && 0 <= k < |nodes| {
      PartOnlyFor(g, from, nodes[k], [], order);
    }
  }

  /** The request names something that was declared, or everything. */
  ghost predicate Asked(nodes: seq<Node>, bs: seq<Block>, isPackage: bool, name: string) {
    (!isPackage && name == "all") || 0 <= First(bs, Kind(isPackage), name) < |nodes|
  }

  /** What a request builds: nothing but what is asked for, and all of it when it succeeds. */
  ghost predicate Outcome(nodes: seq<Node>, bs: seq<Block>, isPackage: bool, name: string, g: Graph,
      order: seq<Package>, ok: bool)
  {
    var k := First(bs, Kind(isPackage), name);
    if !isPackage && name == "all" then ok ==> forall n {:trigger Done(g, n, order)} | n in nodes && n.P? :: Done(g, n, order)
    else if 0 <= k < |nodes| then OnlyFor(g, nodes[k], [], order) && (ok ==> Done(g, nodes[k], order))
    else !ok && order == []
  }

  /** With one more object, which refers to what its declaration lists, all refer to what they list. */
  lemma MadeNext(nodes: seq<Node>, bs: seq<Block>, nodes0: seq<Node>, bs0: seq<Block>, b: Block)
    requires |nodes| == |bs| == |bs0| + 1 && nodes[..|nodes| - 1] == nodes0 && bs == bs0 + [b]
    requires Accepted(bs0) && BlockOk(bs) && LinksAll(nodes0) == WantedAll(nodes0, bs0)
    requires var n := nodes[|nodes| - 1]; LinksOf(n) == Wanted(n.P?, nodes, bs, b.props)
    ensures Accepted(bs) && LinksAll(nodes) == WantedAll(nodes, bs)
  {
    var n := nodes[|nodes| - 1];
    assert nodes == nodes0 + [n];
    assert bs[..|bs| - 1] == bs0;
    WantedGrows(nodes0, bs0, n, b);
  }

  lemma WantedGrows(nodes: seq<Node>, bs: seq<Block>, n: Node, b: Block)
    requires |nodes| == |bs|
    ensures WantedAll(nodes + [n], bs + [b]) == WantedAll(nodes, bs) + [Wanted(n.P?, nodes + [n], bs + [b], b.props)]
  {
    var ns, ds := nodes + [n], bs + [b];
    forall k | 0 <= k < |bs| ensures WantedBy(ns, ds, k) == WantedBy(nodes, bs, k) {
      assert ns[..k + 1] == nodes[..k + 1] && ds[..k + 1] == bs[..k + 1];
    }
    assert ns[..|bs| + 1] == ns && ds[..|bs| + 1] == ds;
  }

  lemma NotAccepted(bs: seq<Block>, i: nat)
    requires i < |bs| && !BlockOk(bs[..i] + [bs[i]])
    ensures !Accepted(bs)
  {
    AcceptedNext(bs, i);
    if Accepted(bs) {
      AcceptedPrefix(bs, i + 1);
    }
  }

  lemma AcceptedNext(bs: seq<Block>, i: nat)
    requires i < |bs|
    ensures Accepted(bs[..i + 1]) <==> Accepted(bs[..i]) && BlockOk(bs[..i] + [bs[i]])
  {
    assert bs[..i + 1] == bs[..i] + [bs[i]];
    assert bs[..i + 1][..i] == bs[..i];
  }

  lemma {:induction false} AcceptedPrefix(bs: seq<Block>, i: nat)
    requires i <= |bs| && Accepted(bs)
    ensures Accepted(bs[..i])
    decreases |bs|
  {
    if i == |bs| {
      assert bs[..i] == bs;
    } else {
      assert bs[..|bs| - 1][..i] == bs[..i];
      AcceptedPrefix(bs[..|bs| - 1], i);
    }
  }

  /** A property with its first i values only. */
  function Upto(p: Property, i: nat): Property
    requires i <= |p.vals|
  {
    Property(p.name, p.vals[..i])
  }

  /** One more value of a property adds what it refers to to the links. */
  ghost predicate GrowsAt(nodes: seq<Node>, bs: seq<Block>, isPackage: bool, p: Property, links: nat -> Links, i: nat)
    requires i < |p.vals|
  {
    links(i + 1) == More(links(i), isPackage, p.name, Referred(nodes, bs, p.name, p.vals[i]))
  }

  ghost predicate Growing(nodes: seq<Node>, bs: seq<Block>, isPackage: bool, p: Property, links: nat -> Links) {
    forall i: nat {:trigger GrowsAt(nodes, bs, isPackage, p, links, i)} | i < |p.vals| ::
      GrowsAt(nodes, bs, isPackage, p, links, i)
  }

  /** What is listed after each number of values of a property that follows others. */
  lemma LinksWithValues(isPackage: bool, nodes: seq<Node>, bs: seq<Block>, seen: seq<Property>, p: Property)
      returns (links: nat -> Links)
    ensures links(0) == Wanted(isPackage, nodes, bs, seen) && links(|p.vals|) == Wanted(isPackage, nodes, bs, seen + [p])
    ensures Growing(nodes, bs, isPackage, p, links)
  {
    links := (i: nat) => Wanted(isPackage, nodes, bs, if i <= |p.vals| then seen + [Upto(p, i)] else seen);
    WantedEnds(isPackage, nodes, bs, seen, p);
    forall i: nat {:trigger GrowsAt(nodes, bs, isPackage, p, links, i)} | i < |p.vals|
      ensures GrowsAt(nodes, bs, isPackage, p, links, i)
    {
      WantedNext(isPackage, nodes, bs, seen, p, i);
    }
  }

  lemma WantedEnds(isPackage: bool, nodes: seq<Node>, bs: seq<Block>, seen: seq<Property>, p: Property)
    ensures Wanted(isPackage, nodes, bs, seen + [Upto(p, 0)]) == Wanted(isPackage, nodes, bs, seen)
    ensures Upto(p, |p.vals|) == p
  {
    assert (seen + [Upto(p, 0)])[..|seen|] == seen;
    assert forall q :: Vals(seen + [Upto(p, 0)], q) == Vals(seen, q);
    assert p.vals[..|p.vals|] == p.vals;
  }

  lemma PkgNodesNext(s: seq<Package>, p: Package)
    ensures PkgNodes(s + [p]) == PkgNodes(s) + [P(p)]
  {
  }

  lemma GroupNodesNext(s: seq<Group>, g: Group)
    ensures GroupNodes(s + [g]) == GroupNodes(s) + [G(g)]
  {
  }

  lemma OfKindOne(n: Node)
    ensures OfKind([n], n.P?) == [n] && OfKind([n], !n.P?) == []
  {
    assert [n][..0] == [];
  }

  lemma {:induction false} OfKindConcat(a: seq<Node>, b: seq<Node>, isPackage: bool)
    ensures OfKind(a + b, isPackage) == OfKind(a, isPackage) + OfKind(b, isPackage)
  {
    if b == [] {
      assert a + b == a;
    } else {
      var n := |b| - 1;
      assert (a + b)[..|a + b| - 1] == a + b[..n];
      OfKindConcat(a, b[..n], isPackage);
    }
  }

  /** What one more value of the last property adds to what the properties list. */
  lemma WantedNext(isPackage: bool, nodes: seq<Node>, bs: seq<Block>, seen: seq<Property>, p: Property, i: nat)
    requires i < |p.vals|
    ensures Wanted(isPackage, nodes, bs, seen + [Upto(p, i + 1)]) ==
      More(Wanted(isPackage, nodes, bs, seen + [Upto(p, i)]), isPackage, p.name, Referred(nodes, bs, p.name, p.vals[i]))
  {
    var before, after, v := seen + [Upto(p, i)], seen + [Upto(p, i + 1)], p.vals[i];
    assert p.vals[..i + 1] == p.vals[..i] + [v];
    assert before[..|seen|] == seen && after[..|seen|] == seen;
    assert Vals(after, p.name) == Vals(before, p.name) + [v];
    assert Vals(after, p.name)[..|Vals(after, p.name)| - 1] == Vals(before, p.name);
    if isPackage && p.name == Dependencies {
      OfKindConcat(Listed(nodes, bs, p.name, Vals(before, p.name)), Referred(nodes, bs, p.name, v), true);
      OfKindConcat(Listed(nodes, bs, p.name, Vals(before, p.name)), Referred(nodes, bs, p.name, v), false);
    }
  }

  // ----- the order of what is listed -----

  /** Every value refers to something. */
  ghost predicate AllRefer(nodes: seq<Node>, bs: seq<Block>, prop: PropName, vals: seq<Value>) {
    forall i | 0 <= i < |vals| :: vals[i].Identifier? && 0 <= Target(bs, prop, vals[i].str) < |nodes|
  }

  /** The objects that are listed stand in the order of the values. */
  lemma {:induction false} ListedAt(nodes: seq<Node>, bs: seq<Block>, prop: PropName, vals: seq<Value>)
    requires AllRefer(nodes, bs, prop, vals)
    ensures |Listed(nodes, bs, prop, vals)| == |vals|
    ensures forall i | 0 <= i < |vals| :: Listed(nodes, bs, prop, vals)[i] == nodes[Target(bs, prop, vals[i].str)]
  {
    if vals != [] {
      ListedAt(nodes, bs, prop, vals[..|vals| - 1]);
    }
  }

  /** The values of properties with the same name follow one another. */
  lemma {:induction false} ValsConcat(a: seq<Property>, b: seq<Property>, prop: PropName)
    ensures Vals(a + b, prop) == Vals(a, prop) + Vals(b, prop)
  {
    if b == [] {
      assert a + b == a;
    } else {
      assert (a + b)[..|a + b| - 1] == a + b[..|b| - 1];
      ValsConcat(a, b[..|b| - 1], prop);
    }
  }

  /** Those of one kind keep their order. */
  lemma {:induction false} OfKindOrder(nodes: seq<Node>, isPackage: bool, i: int, j: int) returns (a: int, b: int)
    requires 0 <= i < j < |OfKind(nodes, isPackage)|
    ensures 0 <= a < b < |nodes| && nodes[a] == OfKind(nodes, isPackage)[i] && nodes[b] == OfKind(nodes, isPackage)[j]
  {
    var n := |nodes| - 1;
    var init := OfKind(nodes[..n], isPackage);
    if j < |init| {
      a, b := OfKindOrder(nodes[..n], isPackage, i, j);
    } else {
      OfKindIn(nodes[..n], isPackage, init[i]);
      a :| 0 <= a < n && nodes[..n][a] == init[i];
      b := n;
    }
  }

  // ----- the graph of the tree -----

  function NextOf(isPackage: bool, l: Links): seq<Node> {
    if isPackage then l.pkgs + l.groups else l.groups + l.pkgs
  }

  /** What the k-th object refers to, in the order it is visited. */
  ghost function EdgesAt(nodes: seq<Node>, bs: seq<Block>, k: int): seq<Node>
    requires 0 <= k < |bs| == |nodes|
  {
    NextOf(nodes[k].P?, WantedBy(nodes, bs, k))
  }

  /** The graph of the declarations. */
  ghost function GraphOf(nodes: seq<Node>, bs: seq<Block>): Graph
    requires AllDeclared(nodes, bs)
  {
    map n | n in nodes :: if 0 <= Ord(n) < |bs| then EdgesAt(nodes, bs, Ord(n)) else []
  }

  lemma {:induction false} LinksAt(nodes: seq<Node>, k: nat)
    requires k < |nodes|
    ensures |LinksAll(nodes)| == |nodes| && LinksAll(nodes)[k] == LinksOf(nodes[k])
  {
    var n := |nodes| - 1;
    if n > 0 {
      LinksAt(nodes[..n], if k < n then k else 0);
    }
  }

  lemma {:induction false} ListedIs(nodes: seq<Node>, bs: seq<Block>, prop: PropName, vals: seq<Value>, m: Node)
    ensures m in Listed(nodes, bs, prop, vals) <==> exists v | v in vals :: m in Referred(nodes, bs, prop, v)
  {
    if vals != [] {
      var init, v := vals[..|vals| - 1], vals[|vals| - 1];
      assert vals == init + [v];
      ListedIs(nodes, bs, prop, init, m);
    }
  }

  /** A value v of a property through which the k-th declaration refers to m. */
  ghost predicate Refers(nodes: seq<Node>, bs: seq<Block>, k: int, prop: PropName, v: Value, m: Node)
    requires 0 <= k < |bs| == |nodes|
  {
    && (if nodes[k].P? then prop == Dependencies else prop == SubGroups || prop == Packages)
    && v in Vals(bs[k].props, prop) && m in Referred(nodes[..k + 1], bs[..k + 1], prop, v)
  }

  lemma GraphAt(nodes: seq<Node>, bs: seq<Block>, k: nat)
    requires AllDeclared(nodes, bs) && k < |bs|
    ensures nodes[k] in GraphOf(nodes, bs) && GraphOf(nodes, bs)[nodes[k]] == EdgesAt(nodes, bs, k) && Ord(nodes[k]) == k
  {
    assert Declared(nodes[k], bs[k], k);
  }

  /** Every edge comes from a value of a property. */
  lemma EdgeSource(nodes: seq<Node>, bs: seq<Block>, k: nat, m: Node) returns (prop: PropName, v: Value)
    requires |nodes| == |bs| && k < |bs| && m in EdgesAt(nodes, bs, k)
    ensures Refers(nodes, bs, k, prop, v, m)
  {
    var ns, ds, props := nodes[..k + 1], bs[..k + 1], bs[k].props;
    if nodes[k].P? {
      prop := Dependencies;
      OfKindIn(Listed(ns, ds, prop, Vals(props, prop)), true, m);
      OfKindIn(Listed(ns, ds, prop, Vals(props, prop)), false, m);
    } else {
      prop := if m in Listed(ns, ds, SubGroups, Vals(props, SubGroups)) then SubGroups else Packages;
    }
    ListedIs(ns, ds, prop, Vals(props, prop), m);
    v :| v in Vals(props, prop) && m in Referred(ns, ds, prop, v);
  }

  lemma EdgeOf(nodes: seq<Node>, bs: seq<Block>, k: nat, prop: PropName, v: Value, m: Node)
    requires |nodes| == |bs| && k < |bs| && Refers(nodes, bs, k, prop, v, m)
    ensures m in EdgesAt(nodes, bs, k)
  {
    var ns, ds, vals := nodes[..k + 1], bs[..k + 1], Vals(bs[k].props, prop);
    ListedIs(ns, ds, prop, vals, m);
    OfKindIn(Listed(ns, ds, prop, vals), m.P?, m);
  }

  /** Every edge leads to a declaration that is not later than the one that lists it. */
  lemma EdgesBackward(nodes: seq<Node>, bs: seq<Block>, k: nat, m: Node) returns (t: nat)
    requires AllDeclared(nodes, bs) && k < |bs| && m in EdgesAt(nodes, bs, k)
    ensures t <= k && nodes[t] == m
  {
    var prop, v := EdgeSource(nodes, bs, k, m);
    t := Target(bs[..k + 1], prop, v.str);
    assert nodes[..k + 1][t] == nodes[t];
  }

  lemma {:induction false} ValSource(props: seq<Property>, prop: PropName, v: Value) returns (i: nat, j: nat)
    requires v in Vals(props, prop)
    ensures i < |props| && props[i].name == prop && j < |props[i].vals| && props[i].vals[j] == v
  {
    var n := |props| - 1;
    if props[n].name == prop && v in props[n].vals {
      i := n;
      j :| 0 <= j < |props[n].vals| && props[n].vals[j] == v;
    } else {
      i, j := ValSource(props[..n], prop, v);
    }
  }

  lemma ValOk(bs: seq<Block>, kind: BlockKind, props: seq<Property>, prop: PropName, v: Value)
    requires PropsOk(bs, kind, props, |props|) && v in Vals(props, prop)
    ensures ValueOk(bs, kind, prop, v)
  {
    var i, j := ValSource(props, prop, v);
    assert ValsOk(bs, kind, props[i], |props[i].vals|);
  }

  lemma BlockAccepted(bs: seq<Block>, k: nat)
    requires Accepted(bs) && k < |bs|
    ensures bs[k].kind != OtherBlock && bs[k].name.Name? && PropsOk(bs[..k + 1], bs[k].kind, bs[k].props, |bs[k].props|)
  {
    AcceptedPrefix(bs, k + 1);
  }

  /** The first declaration among the first k + 1 is the k-th one exactly when no earlier one has its
      kind and name. */
  lemma FirstIsSelf(bs: seq<Block>, k: nat, kind: BlockKind, name: string)
    requires k < |bs|
    ensures First(bs[..k + 1], kind, name) == k <==> First(bs[..k], kind, name) < 0 && bs[k].kind == kind && bs[k].name == Name(name)
  {
    assert bs[..k + 1][..k] == bs[..k];
    FirstIs(bs[..k], kind, name);
  }

  lemma SelfListedEdge(nodes: seq<Node>, bs: seq<Block>, k: nat)
    requires AllDeclared(nodes, bs) && k < |bs| && bs[k].kind != OtherBlock && bs[k].name.Name? && SelfListed(bs, k)
    ensures nodes[k] in EdgesAt(nodes, bs, k)
  {
    var n, b := nodes[k], bs[k];
    assert Declared(n, b, k);
    FirstIsSelf(bs, k, b.kind, b.name.str);
    assert nodes[..k + 1][k] == n;
    EdgeOf(nodes, bs, k, if n.P? then Dependencies else SubGroups, Identifier(b.name.str), n);
  }

  /** An object refers to itself exactly when its declaration lists itself. */
  lemma SelfEdgeIff(nodes: seq<Node>, bs: seq<Block>, k: nat)
    requires AllDeclared(nodes, bs) && Accepted(bs) && k < |bs| && bs[k].name.Name?
    ensures nodes[k] in EdgesAt(nodes, bs, k) <==> SelfListed(bs, k)
  {
    var n, b := nodes[k], bs[k];
    assert Declared(n, b, k);
    BlockAccepted(bs, k);
    if SelfListed(bs, k) {
      SelfListedEdge(nodes, bs, k);
    } else if n in EdgesAt(nodes, bs, k) {
      var q, v := EdgeSource(nodes, bs, k, n);
      ValOk(bs[..k + 1], b.kind, b.props, q, v);
      SelfTarget(nodes, bs, k, q, v);
      assert false;
    }
  }

  lemma SelfTarget(nodes: seq<Node>, bs: seq<Block>, k: nat, q: PropName, v: Value)
    requires AllDeclared(nodes, bs) && k < |bs| && Refers(nodes, bs, k, q, v, nodes[k]) && v.Identifier?
    ensures bs[k].name == Name(v.str) && First(bs[..k], bs[k].kind, v.str) < 0
    ensures q == if nodes[k].P? then Dependencies else SubGroups
  {
    var t := Target(bs[..k + 1], q, v.str);
    assert nodes[..k + 1][t] == nodes[t] == nodes[k];
    assert Declared(nodes[t], bs[t], t) && Declared(nodes[k], bs[k], k);
    FirstIs(bs[..k + 1], PackageBlock, v.str);
    FirstIs(bs[..k + 1], GroupBlock, v.str);
    FirstIsSelf(bs, k, bs[k].kind, v.str);
  }

  lemma DeclaredNext(nodes: seq<Node>, bs: seq<Block>, n: Node, b: Block)
    requires AllDeclared(nodes, bs) && Declared(n, b, |bs|)
    ensures AllDeclared(nodes + [n], bs + [b])
    ensures OfKind(nodes + [n], n.P?) == OfKind(nodes, n.P?) + [n] && OfKind(nodes + [n], !n.P?) == OfKind(nodes, !n.P?)
  {
    assert (nodes + [n])[..|nodes|] == nodes;
    forall k {:trigger Declared((nodes + [n])[k], (bs + [b])[k], k)} | 0 <= k < |bs| + 1 ensures Declared((nodes + [n])[k], (bs + [b])[k], k) {
      assert k < |bs| ==> Declared(nodes[k], bs[k], k);
    }
  }
}
