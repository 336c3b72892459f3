/** The build run: packages and groups are built by two mutually recursive functions, which
    build whatever a package needs before it and mark each package that was built. */
module PackageBuild {
  import opened PackageGraph

  class Run {
    /** Whether the command of a step succeeds. */
    const works: (Package, Step) -> bool
    ghost const pkgs: set<Package>
    ghost const groups: set<Group>
    ghost const graph: Graph
    /** Packages in the order they were marked, and the steps that were started. */
    ghost var order: seq<Package>
    ghost var log: seq<Event>

    ghost predicate PkgOk(p: Package)
      reads this, p
    {
      && P(p) in graph && graph[P(p)] == PkgNodes(p.depends) + GroupNodes(p.groupDeps)
      && (p.isBuilt <==> p in order)
    }

    ghost predicate GroupOk(g: Group)
      reads this, g
    {
      G(g) in graph && graph[G(g)] == GroupNodes(g.subGroups) + PkgNodes(g.packages)
    }

    /** The lists of packages and groups are those of the graph, and the marks those of the order. */
    ghost predicate Matches()
      reads this, pkgs, groups
    {
      && (forall p {:trigger PkgOk(p)} | p in pkgs :: PkgOk(p))
      && (forall g {:trigger GroupOk(g)} | g in groups :: GroupOk(g))
      && (forall n | n in graph :: if n.P? then n.pkg in pkgs else n.group in groups)
    }

    ghost predicate Valid()
      reads this, pkgs, groups
    {
      GraphOk(graph) && OrderOk(graph, order) && Matches()
    }

    /** A run before any package is built. */
    constructor (works: (Package, Step) -> bool, ghost pkgs: set<Package>, ghost groups: set<Group>, ghost graph: Graph)
      requires GraphOk(graph)
      requires forall p | p in pkgs :: P(p) in graph && !p.isBuilt && graph[P(p)] == PkgNodes(p.depends) + GroupNodes(p.groupDeps)
      requires forall g | g in groups :: G(g) in graph && graph[G(g)] == GroupNodes(g.subGroups) + PkgNodes(g.packages)
      requires forall n | n in graph :: if n.P? then n.pkg in pkgs else n.group in groups
      ensures Valid() && order == [] && log == []
      ensures this.works == works && this.pkgs == pkgs && this.groups == groups && this.graph == graph
    {
      this.works := works;
      this.pkgs, this.groups, this.graph := pkgs, groups, graph;
      order, log := [], [];
    }

    /** Takes one step for a package: an empty command, or a command that succeeds or fails. */
    method Take(package: Package, step: Step) returns (ok: bool)
      requires Valid()
      modifies this`log
      ensures Valid() && log == old(log) + [Event(package, step)] && ok == works(package, step)
    {
      log := log + [Event(package, step)];
      forall p {:trigger PkgOk(p)} | p in pkgs ensures PkgOk(p) {
        assert old(PkgOk(p));
      }
      forall g {:trigger GroupOk(g)} | g in groups ensures GroupOk(g) {
        assert old(GroupOk(g));
      }
      ok := works(package, step);
    }

    /** Marks a package as built. */
    method Mark(package: Package)
      requires package in pkgs && package !in order && Valid() && NeedsIn(graph, P(package), order)
      modifies this`order, package`isBuilt
      ensures Valid() && order == old(order) + [package]
    {
      assert PkgOk(package);
      OrderAppend(graph, order, package);
      package.isBuilt := true;
      order := order + [package];
      forall p {:trigger PkgOk(p)} | p in pkgs ensures PkgOk(p) {
        assert old(PkgOk(p));
      }
      forall g {:trigger GroupOk(g)} | g in groups ensures GroupOk(g) {
        assert old(GroupOk(g));
      }
    }

    /** Takes the steps of a known action, up to one that fails; k steps were started. */
    method TakeSteps(package: Package, action: string) returns (ok: bool, ghost k: nat)
      requires Known(action) && Valid()
      modifies this`log
      ensures Valid() && 0 < k <= |Steps(action)| && log == old(log) + StepsFor(package, Steps(action))[..k]
      ensures forall i | 0 <= i < k - 1 :: works(package, Steps(action)[i])
      ensures ok == works(package, Steps(action)[k - 1]) && (ok ==> k == |Steps(action)|)
    {
      k := 1;
      if action == "download" {
        ok := Take(package, Download);
      } else if action == "configure" {
        ok := Take(package, Configure);
      } else if action == "confbuild" {
        ok := Take(package, Configure);
        if ok {
          ok := Take(package, Build);
          k := 2;
        }
      } else if action == "build" {
        ok := Take(package, Build);
      } else if action == "clean" {
        ok := Take(package, Clean);
      } else {
        ok := Take(package, Download);
        if ok {
          ok := Take(package, Configure);
          k := 2;
          if ok {
            ok := Take(package, Build);
            k := 3;
          }
        }
      }
    }

    /** Marks the package and takes the steps of the action for it. */
    method Act(package: Package, action: string) returns (ok: bool)
      requires package in pkgs && package !in order && action != "confhelp"
      requires Valid() && NeedsIn(graph, P(package), order) && Succeeded(works, order, action, log)
      modifies this`order, this`log, package`isBuilt
      ensures Valid() && order == if Known(action) then old(order) + [package] else old(order)
      ensures ok ==> Known(action) && Succeeded(works, order, action, log)
      ensures !ok ==> Halted(works, order, action, log)
    {
      if !Known(action) {
        return false;
      }
      Mark(package);
      ghost var k;
      ok, k := TakeSteps(package, action);
      ActOutcome(works, old(order), action, old(log), package, k, ok, log);
    }

    /** Each list is a part of the edges of the graph, and leads to earlier declarations. */
    lemma DependAt(package: Package, i: nat)
      requires Valid() && package in pkgs && i < |package.depends|
      ensures EntryIs(graph, P(package), i, P(package.depends[i]))
      ensures package.depends[i] in pkgs && package.depends[i].ord < package.ord
    {
      assert PkgOk(package);
      EdgeAt(graph, P(package), i);
    }

    lemma GroupDepAt(package: Package, i: nat)
      requires Valid() && package in pkgs && i < |package.groupDeps|
      ensures EntryIs(graph, P(package), |package.depends| + i, G(package.groupDeps[i]))
      ensures package.groupDeps[i] in groups && package.groupDeps[i].ord < package.ord
    {
      assert PkgOk(package);
      EdgeAt(graph, P(package), |package.depends| + i);
    }

    lemma SubGroupAt(group: Group, i: nat)
      requires Valid() && group in groups && i < |group.subGroups|
      ensures EntryIs(graph, G(group), i, G(group.subGroups[i]))
      ensures group.subGroups[i] in groups && group.subGroups[i].ord < group.ord
    {
      assert GroupOk(group);
      EdgeAt(graph, G(group), i);
    }

    lemma MemberAt(group: Group, i: nat)
      requires Valid() && group in groups && i < |group.packages|
      ensures EntryIs(graph, G(group), |group.subGroups| + i, P(group.packages[i]))
      ensures group.packages[i] in pkgs && group.packages[i].ord < group.ord
    {
      assert GroupOk(group);
      EdgeAt(graph, G(group), |group.subGroups| + i);
    }

    lemma PackageEdges(package: Package)
      requires Valid() && package in pkgs
      ensures P(package) in graph && |graph[P(package)]| == |package.depends| + |package.groupDeps|
    {
      assert PkgOk(package);
    }

    lemma GroupEdges(group: Group)
      requires Valid() && group in groups
      ensures G(group) in graph && |graph[G(group)]| == |group.subGroups| + |group.packages|
    {
      assert GroupOk(group);
    }

    /** Builds the k-th entry of n, a package, when those before it are built. */
    method VisitPackage(ghost n: Node, package: Package, action: string, ghost k: nat, ghost walks: seq<seq<Package>>)
        returns (ok: bool)
      requires package in pkgs && EntryIs(graph, n, k, P(package)) && action != "confhelp"
      requires Valid() && Succeeded(works, order, action, log)
      requires Walks(graph, n, walks) && order == walks[k] && OnlyFor(graph, n, walks[0], order) && DoneUpTo(graph, n, k, order)
      modifies this`order, this`log, pkgs`isBuilt
      decreases package.ord, 2
      ensures Valid() && OnlyFor(graph, n, walks[0], order)
      ensures order <= walks[k + 1] && (ok ==> order == walks[k + 1])
      ensures ok ==> DoneUpTo(graph, n, k + 1, order) && Succeeded(works, order, action, log)
      ensures !ok ==> Halted(works, order, action, log)
      ensures n.P? && n.pkg !in old(order) ==> n.pkg !in order
    {
      ghost var before := order;
      assert WalkStep(graph, n, walks, k);
      ok := BuildPackage(package, action);
      Visited(graph, n, k, walks[0], before, order);
    }

    /** Builds the k-th entry of n, a group, when those before it are built. */
    method VisitGroup(ghost n: Node, group: Group, action: string, ghost k: nat, ghost walks: seq<seq<Package>>)
        returns (ok: bool)
      requires group in groups && EntryIs(graph, n, k, G(group)) && action != "confhelp"
      requires Valid() && Succeeded(works, order, action, log)
      requires Walks(graph, n, walks) && order == walks[k] && OnlyFor(graph, n, walks[0], order) && DoneUpTo(graph, n, k, order)
      modifies this`order, this`log, pkgs`isBuilt
      decreases group.ord, 2
      ensures Valid() && OnlyFor(graph, n, walks[0], order)
      ensures order <= walks[k + 1] && (ok ==> order == walks[k + 1])
      ensures ok ==> DoneUpTo(graph, n, k + 1, order) && Succeeded(works, order, action, log)
      ensures !ok ==> Halted(works, order, action, log)
      ensures n.P? && n.pkg !in old(order) ==> n.pkg !in order
    {
      ghost var before := order;
      assert WalkStep(graph, n, walks, k);
      ok := BuildGroup(group, action);
      Visited(graph, n, k, walks[0], before, order);
    }

    /** Builds the packages that a package depends on. */
    method BuildDepends(package: Package, action: string, ghost walks: seq<seq<Package>>) returns (ok: bool)
      requires package in pkgs && action != "confhelp" && package !in order
      requires Valid() && Succeeded(works, order, action, log) && Walks(graph, P(package), walks) && walks[0] == order
      modifies this`order, this`log, pkgs`isBuilt
      decreases package.ord, 0
      ensures Valid() && OnlyFor(graph, P(package), walks[0], order) && package !in order
      ensures order <= walks[|walks| - 1] && (ok ==> |package.depends| < |walks| && order == walks[|package.depends|])
      ensures ok ==> DoneUpTo(graph, P(package), |package.depends|, order) && Succeeded(works, order, action, log)
      ensures !ok ==> Halted(works, order, action, log)
    {
      ghost var n := P(package);
      PackageEdges(package);
      for i := 0 to |package.depends|
        invariant Valid() && Succeeded(works, order, action, log) && package !in order
        invariant OnlyFor(graph, n, walks[0], order) && DoneUpTo(graph, n, i, order) && order == walks[i]
      {
        DependAt(package, i);
        ok := VisitPackage(n, package.depends[i], action, i, walks);
        if !ok {
          WalksGrow(graph, n, walks, i + 1);
          return;
        }
      }
      WalksGrow(graph, n, walks, |package.depends|);
      ok := true;
    }

    /** Builds the groups that a package depends on, after its packages. */
    method BuildGroupDeps(package: Package, action: string, ghost walks: seq<seq<Package>>) returns (ok: bool)
      requires package in pkgs && action != "confhelp" && package !in order
      requires Valid() && Succeeded(works, order, action, log)
      requires Walks(graph, P(package), walks) && |package.depends| < |walks| && order == walks[|package.depends|]
      requires OnlyFor(graph, P(package), walks[0], order) && DoneUpTo(graph, P(package), |package.depends|, order)
      modifies this`order, this`log, pkgs`isBuilt
      decreases package.ord, 0
      ensures Valid() && OnlyFor(graph, P(package), walks[0], order) && package !in order
      ensures order <= walks[|walks| - 1] && (ok ==> order == walks[|walks| - 1])
      ensures ok ==> NeedsIn(graph, P(package), order) && Succeeded(works, order, action, log)
      ensures !ok ==> Halted(works, order, action, log)
    {
      ghost var n := P(package);
      PackageEdges(package);
      for i := 0 to |package.groupDeps|
        invariant Valid() && Succeeded(works, order, action, log) && package !in order
        invariant OnlyFor(graph, n, walks[0], order) && DoneUpTo(graph, n, |package.depends| + i, order)
        invariant order == walks[|package.depends| + i]
      {
        GroupDepAt(package, i);
        ok := VisitGroup(n, package.groupDeps[i], action, |package.depends| + i, walks);
        if !ok {
          WalksGrow(graph, n, walks, |package.depends| + i + 1);
          return;
        }
      }
      AllDone(graph, n, |package.depends| + |package.groupDeps|, order);
      ok := true;
    }

    /** Builds a package after everything it depends on. */
    method BuildPackage(package: Package, action: string) returns (ok: bool)
      requires package in pkgs && action != "confhelp"
      requires Valid() && Succeeded(works, order, action, log)
      modifies this`order, this`log, pkgs`isBuilt
      decreases package.ord, 1
      ensures Valid() && OnlyFor(graph, P(package), old(order), order)
      ensures Walked(graph, P(package), old(order), order, ok)
      ensures ok ==> Done(graph, P(package), order) && Succeeded(works, order, action, log)
      ensures !ok ==> Halted(works, order, action, log)
    {
      assert PkgOk(package);
      if package.isBuilt {
        InOrderDone(graph, order, package);
        return true;
      }
      ghost var walks := WalksOf(graph, P(package), order);
      ok := BuildDepends(package, action, walks);
      if !ok {
        return;
      }
      ok := BuildGroupDeps(package, action, walks);
      if !ok {
        return;
      }
      ghost var before := order;
      ok := Act(package, action);
      OrderedOnly(graph, package, old(order), before, order);
      if ok {
        InOrderDone(graph, order, package);
      }
    }

    /** Builds the subgroups of a group. */
    method BuildSubGroups(group: Group, action: string, ghost walks: seq<seq<Package>>) returns (ok: bool)
      requires group in groups && action != "confhelp"
      requires Valid() && Succeeded(works, order, action, log) && Walks(graph, G(group), walks) && walks[0] == order
      modifies this`order, this`log, pkgs`isBuilt
      decreases group.ord, 0
      ensures Valid() && OnlyFor(graph, G(group), walks[0], order)
      ensures order <= walks[|walks| - 1] && (ok ==> |group.subGroups| < |walks| && order == walks[|group.subGroups|])
      ensures ok ==> DoneUpTo(graph, G(group), |group.subGroups|, order) && Succeeded(works, order, action, log)
      ensures !ok ==> Halted(works, order, action, log)
    {
      ghost var n := G(group);
      GroupEdges(group);
      for i := 0 to |group.subGroups|
        invariant Valid() && Succeeded(works, order, action, log)
        invariant OnlyFor(graph, n, walks[0], order) && DoneUpTo(graph, n, i, order) && order == walks[i]
      {
        SubGroupAt(group, i);
        ok := VisitGroup(n, group.subGroups[i], action, i, walks);
        if !ok {
          WalksGrow(graph, n, walks, i + 1);
          return;
        }
      }
      WalksGrow(graph, n, walks, |group.subGroups|);
      ok := true;
    }

    /** Builds the packages of a group, after its subgroups. */
    method BuildMembers(group: Group, action: string, ghost walks: seq<seq<Package>>) returns (ok: bool)
      requires group in groups && action != "confhelp"
      requires Valid() && Succeeded(works, order, action, log)
      requires Walks(graph, G(group), walks) && |group.subGroups| < |walks| && order == walks[|group.subGroups|]
      requires OnlyFor(graph, G(group), walks[0], order) && DoneUpTo(graph, G(group), |group.subGroups|, order)
      modifies this`order, this`log, pkgs`isBuilt
      decreases group.ord, 0
      ensures Valid() && OnlyFor(graph, G(group), walks[0], order)
      ensures order <= walks[|walks| - 1] && (ok ==> order == walks[|walks| - 1])
      ensures ok ==> NeedsIn(graph, G(group), order) && Succeeded(works, order, action, log)
      ensures !ok ==> Halted(works, order, action, log)
    {
      ghost var n := G(group);
      GroupEdges(group);
      for i := 0 to |group.packages|
        invariant Valid() && Succeeded(works, order, action, log)
        invariant OnlyFor(graph, n, walks[0], order) && DoneUpTo(graph, n, |group.subGroups| + i, order)
        invariant order == walks[|group.subGroups| + i]
      {
        MemberAt(group, i);
        ok := VisitPackage(n, group.packages[i], action, |group.subGroups| + i, walks);
        if !ok {
          WalksGrow(graph, n, walks, |group.subGroups| + i + 1);
          return;
        }
      }
      AllDone(graph, n, |group.subGroups| + |group.packages|, order);
      ok := true;
    }

    /** Builds the subgroups of a group and then its packages. */
    method BuildGroup(group: Group, action: string) returns (ok: bool)
      requires group in groups && action != "confhelp"
      requires Valid() && Succeeded(works, order, action, log)
      modifies this`order, this`log, pkgs`isBuilt
      decreases group.ord, 1
      ensures Valid() && OnlyFor(graph, G(group), old(order), order)
      ensures Walked(graph, G(group), old(order), order, ok)
      ensures ok ==> Done(graph, G(group), order) && Succeeded(works, order, action, log)
      ensures !ok ==> Halted(works, order, action, log)
    {
      assert GroupOk(group);
      ghost var walks := WalksOf(graph, G(group), order);
      ok := BuildSubGroups(group, action, walks);
      if ok {
        ok := BuildMembers(group, action, walks);
      }
    }
  }

  /** What a package lists is visited packages first, and what a group lists groups first. */
  lemma EdgesOrdered(run: Run, n: Node, i: int, j: int)
    requires run.Valid() && n in run.graph && 0 <= i < j < |run.graph[n]|
    ensures n.P? && run.graph[n][j].P? ==> run.graph[n][i].P?
    ensures n.G? && run.graph[n][j].G? ==> run.graph[n][i].G?
  {
    if n.P? {
      assert run.PkgOk(n.pkg);
    } else {
      assert run.GroupOk(n.group);
    }
  }

  /** What was built from an order on is a walk from n, or the start of one if it failed. */
  ghost predicate Walked(g: Graph, n: Node, start: seq<Package>, order: seq<Package>, ok: bool) {
    order <= Walk(g, n, start) && (ok ==> order == Walk(g, n, start))
  }

  /** The first k entries that n lists are built. */
  ghost predicate DoneUpTo(g: Graph, n: Node, k: int, order: seq<Package>)
  {
    n in g && k <= |g[n]| && forall j | 0 <= j < k :: Done(g, g[n][j], order)
  }

  ghost predicate EntryIs(g: Graph, n: Node, i: int, m: Node) {
    n in g && 0 <= i < |g[n]| && g[n][i] == m
  }

  lemma EdgeAt(g: Graph, n: Node, i: nat)
    requires GraphOk(g) && n in g && i < |g[n]|
    ensures g[n][i] in g && Ord(g[n][i]) < Ord(n)
  {
    assert EdgesOk(g, n);
  }

  lemma AllDone(g: Graph, n: Node, k: nat, order: seq<Package>)
    requires n in g && k == |g[n]| && DoneUpTo(g, n, k, order)
    ensures NeedsIn(g, n, order)
  {
    DoneFromNext(g, n, order);
  }

  /** Building a package after what it needs is still only for the package. */
  lemma OrderedOnly(g: Graph, p: Package, start: seq<Package>, before: seq<Package>, after: seq<Package>)
    requires OnlyFor(g, P(p), start, before) && (after == before || after == before + [p])
    ensures OnlyFor(g, P(p), start, after)
  {
  }

  /** After building for the i-th entry of n, what was built is still for n, the entries before
      are still done, and n itself was not built. */
  lemma Visited(g: Graph, n: Node, i: nat, start: seq<Package>, before: seq<Package>, after: seq<Package>)
    requires GraphOk(g) && n in g && i < |g[n]| && OnlyFor(g, n, start, before) && OnlyFor(g, g[n][i], before, after)
    requires DoneUpTo(g, n, i, before)
    ensures OnlyFor(g, n, start, after) && DoneUpTo(g, n, i, after)
    ensures n.P? && n.pkg !in before ==> n.pkg !in after
  {
    OnlyForStep(g, n, g[n][i], start, before, after);
    forall j | 0 <= j < i ensures Done(g, g[n][j], after) {
      DoneGrows(g, g[n][j], before, after);
    }
    if n.P? && n.pkg !in before {
      NotItself(g, n.pkg, g[n][i], before, after);
    }
  }

  /** Taking the first k steps for p, up to one that fails if any does, is the whole action for
      p or stops the run. */
  lemma ActOutcome(works: (Package, Step) -> bool, order: seq<Package>, action: string, log: seq<Event>,
      p: Package, k: nat, ok: bool, log': seq<Event>)
    requires Succeeded(works, order, action, log) && Known(action)
    requires 0 < k <= |Steps(action)| && log' == log + StepsFor(p, Steps(action))[..k]
    requires forall i | 0 <= i < k - 1 :: works(p, Steps(action)[i])
    requires ok == works(p, Steps(action)[k - 1]) && (ok ==> k == |Steps(action)|)
    ensures ok ==> Succeeded(works, order + [p], action, log')
    ensures !ok ==> Halted(works, order + [p], action, log')
  {
    var steps := Steps(action);
    FlatAppend(order, p, steps);
    assert (order + [p])[..|order|] == order;
    assert forall i | |log| <= i < |log'| :: log'[i] == Event(p, steps[i - |log|]);
    assert forall i | 0 <= i < |log| :: log'[i] == log[i];
    if !ok {
      assert log' <= Flat(order + [p], steps);
      assert AllWork(works, log'[..|log'| - 1]);
    } else {
      assert StepsFor(p, steps)[..k] == StepsFor(p, steps);
    }
  }
}
