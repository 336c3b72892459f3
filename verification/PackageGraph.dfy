/** Packages and package groups, the graph of what each of them needs, and build orders:
    sequences of packages in which whatever a package needs comes before it. */
module PackageGraph {

  class Package {
    const name: string
    /** Which declaration this is. */
    ghost const ord: nat
    var depends: seq<Package>
    var groupDeps: seq<Group>
    var isBuilt: bool

    constructor (name: string, ghost ord: nat)
      ensures this.name == name && this.ord == ord && depends == [] && groupDeps == [] && !isBuilt
    {
      this.name := name;
      this.ord := ord;
      depends, groupDeps, isBuilt := [], [], false;
    }
  }

  class Group {
    const name: string
    ghost const ord: nat
    var packages: seq<Package>
    var subGroups: seq<Group>

    constructor (name: string, ghost ord: nat)
      ensures this.name == name && this.ord == ord && packages == [] && subGroups == []
    {
      this.name := name;
      this.ord := ord;
      packages, subGroups := [], [];
    }
  }

  datatype Node = P(pkg: Package) | G(group: Group)

  ghost function Ord(n: Node): nat {
    match n case P(p) => p.ord case G(g) => g.ord
  }

  function PkgNodes(s: seq<Package>): seq<Node> {
    seq(|s|, i requires 0 <= i < |s| => P(s[i]))
  }

  function GroupNodes(s: seq<Group>): seq<Node> {
    seq(|s|, i requires 0 <= i < |s| => G(s[i]))
  }

  /** What each package and group lists, in the order it is visited. */
  type Graph = map<Node, seq<Node>>

  ghost predicate EdgesOk(g: Graph, n: Node)
    requires n in g
  {
    forall m | m in g[n] :: m in g && Ord(m) < Ord(n)
  }

  /** Everything listed was declared before the declaration that lists it. */
  ghost predicate GraphOk(g: Graph) {
    forall n {:trigger EdgesOk(g, n)} | n in g :: EdgesOk(g, n)
  }

  /** What n lists leads to q, directly or through packages, groups and subgroups. */
  ghost predicate Needs(g: Graph, n: Node, q: Node)
    decreases Ord(n)
  {
    n in g && exists m | m in g[n] :: Ord(m) < Ord(n) && (m == q || Needs(g, m, q))
  }

  /** Everything n needs is in the order, and n itself if it is a package. */
  ghost predicate NeedsIn(g: Graph, n: Node, order: seq<Package>) {
    forall q | q in g && q.P? && Needs(g, n, q) :: q.pkg in order
  }

  ghost predicate Done(g: Graph, n: Node, order: seq<Package>) {
    (n.P? ==> n.pkg in order) && NeedsIn(g, n, order)
  }

  ghost predicate PlaceOk(g: Graph, order: seq<Package>, i: int)
    requires 0 <= i < |order|
  {
    P(order[i]) in g && order[i] !in order[..i] && NeedsIn(g, P(order[i]), order[..i])
  }

  /** No package twice, and each after everything it needs. */
  ghost predicate OrderOk(g: Graph, order: seq<Package>) {
    forall i {:trigger PlaceOk(g, order, i)} | 0 <= i < |order| :: PlaceOk(g, order, i)
  }

  /** What is in b and not in its prefix a belongs to n. */
  ghost predicate OnlyFor(g: Graph, n: Node, a: seq<Package>, b: seq<Package>) {
    && a <= b
    && forall i {:trigger b[i]} | |a| <= i < |b| :: n == P(b[i]) || Needs(g, n, P(b[i]))
  }

  /** Whatever n needs was declared before n. */
  lemma {:induction false} NeedsEarlier(g: Graph, n: Node, q: Node)
    requires GraphOk(g) && Needs(g, n, q)
    ensures q in g && Ord(q) < Ord(n)
    decreases Ord(n)
  {
    var m :| m in g[n] && Ord(m) < Ord(n) && (m == q || Needs(g, m, q));
    assert EdgesOk(g, n);
    if m != q {
      NeedsEarlier(g, m, q);
    }
  }

  lemma DoneFromNext(g: Graph, n: Node, order: seq<Package>)
    requires n in g && forall m | m in g[n] :: Done(g, m, order)
    ensures NeedsIn(g, n, order)
  {
    forall q | q in g && q.P? && Needs(g, n, q) ensures q.pkg in order {
      var m :| m in g[n] && Ord(m) < Ord(n) && (m == q || Needs(g, m, q));
      assert Done(g, m, order);
    }
  }

  lemma DoneGrows(g: Graph, n: Node, a: seq<Package>, b: seq<Package>)
    requires Done(g, n, a) && a <= b
    ensures Done(g, n, b)
  {
    forall q | q in g && q.P? && Needs(g, n, q) ensures q.pkg in b {
      assert q.pkg in a;
    }
  }

  /** A package in a build order has everything it needs there, too. */
  lemma InOrderDone(g: Graph, order: seq<Package>, p: Package)
    requires OrderOk(g, order) && p in order
    ensures Done(g, P(p), order)
  {
    var i :| 0 <= i < |order| && order[i] == p;
    assert PlaceOk(g, order, i);
    assert Done(g, P(p), order[..i] + [p]);
    DoneGrows(g, P(p), order[..i] + [p], order);
  }

  lemma OrderAppend(g: Graph, order: seq<Package>, p: Package)
    requires OrderOk(g, order) && p !in order && P(p) in g && NeedsIn(g, P(p), order)
    ensures OrderOk(g, order + [p])
  {
    var order' := order + [p];
    forall i {:trigger PlaceOk(g, order', i)} | 0 <= i < |order'| ensures PlaceOk(g, order', i) {
      if i < |order| {
        assert PlaceOk(g, order, i);
        assert order'[..i] == order[..i];
      } else {
        assert order'[..i] == order;
      }
    }
  }

  /** Going on for m, which n lists, is going on for n. */
  lemma OnlyForStep(g: Graph, n: Node, m: Node, a: seq<Package>, b: seq<Package>, c: seq<Package>)
    requires GraphOk(g) && n in g && m in g[n] && OnlyFor(g, n, a, b) && OnlyFor(g, m, b, c)
    ensures OnlyFor(g, n, a, c)
  {
    assert EdgesOk(g, n);
    forall i {:trigger c[i]} | |a| <= i < |c| ensures n == P(c[i]) || Needs(g, n, P(c[i])) {
      if i < |b| {
        assert c[i] == b[i];
      }
    }
  }

  /** Nothing built for what n lists is n. */
  lemma NotItself(g: Graph, p: Package, m: Node, b: seq<Package>, c: seq<Package>)
    requires GraphOk(g) && P(p) in g && m in g[P(p)] && OnlyFor(g, m, b, c) && p !in b
    ensures p !in c
  {
    assert EdgesOk(g, P(p));
    forall i | |b| <= i < |c| ensures c[i] != p {
      if m != P(c[i]) {
        NeedsEarlier(g, m, P(c[i]));
      }
    }
    assert forall i | 0 <= i < |b| :: c[i] == b[i];
  }

  // ----- the part of a graph that a request reaches -----

  /** Every edge leads to an earlier declaration or back to the one that lists it. */
  ghost predicate Backward(g: Graph) {
    forall n {:trigger BackwardAt(g, n)} | n in g :: BackwardAt(g, n)
  }

  ghost predicate BackwardAt(g: Graph, n: Node)
    requires n in g
  {
    forall m | m in g[n] :: m in g && (m == n || Ord(m) < Ord(n))
  }

  ghost predicate Reached(g: Graph, from: set<Node>, n: Node) {
    n in from || exists r :: r in from && Needs(g, r, n)
  }

  /** The nodes that are reached from some, with their edges. */
  ghost function Part(g: Graph, from: set<Node>): Graph {
    map n | n in g && Reached(g, from, n) :: g[n]
  }

  lemma {:induction false} NeedsThrough(g: Graph, r: Node, n: Node, m: Node)
    requires Needs(g, r, n) && n in g && m in g[n] && Ord(m) < Ord(n)
    ensures Needs(g, r, m)
    decreases Ord(r)
  {
    var k :| k in g[r] && Ord(k) < Ord(r) && (k == n || Needs(g, k, n));
    if k == n {
      assert Needs(g, n, m);
    } else {
      NeedsThrough(g, k, n, m);
    }
  }

  /** What a reached node lists is reached. */
  lemma PartClosed(g: Graph, from: set<Node>, n: Node, m: Node)
    requires Backward(g) && n in Part(g, from) && m in g[n]
    ensures m in Part(g, from)
  {
    assert BackwardAt(g, n);
    if m != n {
      if n in from {
        assert Needs(g, n, m);
      } else {
        var r :| r in from && Needs(g, r, n);
        NeedsThrough(g, r, n, m);
      }
    }
  }

  /** The part has only edges to earlier declarations exactly when nothing in it lists itself. */
  lemma PartOkIff(g: Graph, from: set<Node>)
    requires Backward(g)
    ensures GraphOk(Part(g, from)) <==> forall n | n in Part(g, from) :: n !in g[n]
  {
    var h := Part(g, from);
    forall n, m | n in h && m in h[n] ensures m in h && (m == n || Ord(m) < Ord(n)) {
      assert BackwardAt(g, n);
      PartClosed(g, from, n, m);
    }
    if GraphOk(h) {
      forall n | n in h ensures n !in g[n] {
        assert EdgesOk(h, n);
      }
    }
  }

  /** A node of the part needs what it needs in the whole graph. */
  lemma {:induction false} PartNeeds(g: Graph, from: set<Node>, n: Node, q: Node)
    requires Backward(g) && n in Part(g, from)
    ensures Needs(Part(g, from), n, q) <==> Needs(g, n, q)
    ensures Needs(g, n, q) ==> q in Part(g, from)
    decreases Ord(n)
  {
    forall m | m in g[n] && Ord(m) < Ord(n) ensures Needs(Part(g, from), m, q) <==> Needs(g, m, q)
      ensures m in Part(g, from) && (Needs(g, m, q) ==> q in Part(g, from))
    {
      PartClosed(g, from, n, m);
      PartNeeds(g, from, m, q);
    }
  }

  lemma PartDone(g: Graph, from: set<Node>, n: Node, order: seq<Package>)
    requires Backward(g) && n in Part(g, from)
    ensures NeedsIn(Part(g, from), n, order) <==> NeedsIn(g, n, order)
  {
    forall q | q in g && q.P?
      ensures Needs(Part(g, from), n, q) <==> Needs(g, n, q)
      ensures Needs(g, n, q) ==> q in Part(g, from)
    {
      PartNeeds(g, from, n, q);
    }
  }

  /** A build order of the part is one of the whole graph, built for the same. */
  lemma PartOrder(g: Graph, from: set<Node>, order: seq<Package>)
    requires Backward(g) && OrderOk(Part(g, from), order)
    ensures OrderOk(g, order)
  {
    forall i {:trigger PlaceOk(g, order, i)} | 0 <= i < |order| ensures PlaceOk(g, order, i) {
      assert PlaceOk(Part(g, from), order, i);
      PartDone(g, from, P(order[i]), order[..i]);
    }
  }

  lemma PartOnlyFor(g: Graph, from: set<Node>, n: Node, a: seq<Package>, b: seq<Package>)
    requires Backward(g) && n in Part(g, from) && OnlyFor(Part(g, from), n, a, b)
    ensures OnlyFor(g, n, a, b)
  {
    forall i {:trigger b[i]} | |a| <= i < |b| ensures n == P(b[i]) || Needs(g, n, P(b[i])) {
      PartNeeds(g, from, n, P(b[i]));
    }
  }

  // ----- the order in which packages are visited -----

  /** The order after a depth-first walk from n that began with some order: what n lists, one after the other, and
      then n itself, if it is a package that is not there yet. */
  ghost function Walk(g: Graph, n: Node, order: seq<Package>): seq<Package>
    decreases Ord(n), 1, 0
  {
    if n !in g || (n.P? && n.pkg in order) then order
    else
      var o := WalkFirst(g, n, |g[n]|, order);
      if n.P? then o + [n.pkg] else o
  }

  /** The walk from the first k nodes that n lists. */
  ghost function WalkFirst(g: Graph, n: Node, k: nat, order: seq<Package>): seq<Package>
    decreases Ord(n), 0, k
  {
    if n !in g || k == 0 || k > |g[n]| then order
    else
      var o := WalkFirst(g, n, k - 1, order);
      if Ord(g[n][k - 1]) < Ord(n) then Walk(g, g[n][k - 1], o) else o
  }

  /** The walks from some nodes, one after the other. */
  ghost function WalkAll(g: Graph, ns: seq<Node>, order: seq<Package>): seq<Package> {
    if ns == [] then order else Walk(g, ns[|ns| - 1], WalkAll(g, ns[..|ns| - 1], order))
  }

  /** A walk only adds to the order. */
  lemma {:induction false} WalkExtends(g: Graph, n: Node, order: seq<Package>)
    ensures order <= Walk(g, n, order)
    decreases Ord(n), 1, 0
  {
    if n in g && !(n.P? && n.pkg in order) {
      WalkFirstExtends(g, n, |g[n]|, order);
    }
  }

  lemma {:induction false} WalkFirstExtends(g: Graph, n: Node, k: nat, order: seq<Package>)
    ensures order <= WalkFirst(g, n, k, order)
    decreases Ord(n), 0, k
  {
    if n in g && 0 < k <= |g[n]| {
      WalkFirstExtends(g, n, k - 1, order);
      if Ord(g[n][k - 1]) < Ord(n) {
        WalkExtends(g, g[n][k - 1], WalkFirst(g, n, k - 1, order));
      }
    }
  }

  /** The orders on a walk from n, before and after each node that it lists. */
  ghost predicate Walks(g: Graph, n: Node, walks: seq<seq<Package>>) {
    n in g && |walks| == |g[n]| + 1 && forall k {:trigger WalkStep(g, n, walks, k)} | 0 <= k < |g[n]| :: WalkStep(g, n, walks, k)
  }

  ghost predicate WalkStep(g: Graph, n: Node, walks: seq<seq<Package>>, k: int)
    requires n in g && 0 <= k < |g[n]| && |walks| == |g[n]| + 1
  {
    walks[k + 1] == Walk(g, g[n][k], walks[k])
  }

  lemma WalksOf(g: Graph, n: Node, order: seq<Package>) returns (walks: seq<seq<Package>>)
    requires GraphOk(g) && n in g
    ensures Walks(g, n, walks) && walks[0] == order && walks[|walks| - 1] == WalkFirst(g, n, |g[n]|, order)
  {
    walks := seq(|g[n]| + 1, k requires 0 <= k <= |g[n]| => WalkFirst(g, n, k, order));
    assert EdgesOk(g, n);
    forall k {:trigger WalkStep(g, n, walks, k)} | 0 <= k < |g[n]| ensures WalkStep(g, n, walks, k) {
    }
  }

  lemma {:induction false} WalksGrow(g: Graph, n: Node, walks: seq<seq<Package>>, k: nat)
    requires Walks(g, n, walks) && k < |walks|
    ensures walks[k] <= walks[|walks| - 1]
    decreases |walks| - k
  {
    if k < |walks| - 1 {
      assert WalkStep(g, n, walks, k);
      WalkExtends(g, g[n][k], walks[k]);
      WalksGrow(g, n, walks, k + 1);
    }
  }

  lemma {:induction false} WalkAllGrows(g: Graph, ns: seq<Node>, k: nat, order: seq<Package>)
    requires k <= |ns|
    ensures WalkAll(g, ns[..k], order) <= WalkAll(g, ns, order)
  {
    if k < |ns| {
      var init := ns[..|ns| - 1];
      assert init[..k] == ns[..k];
      WalkAllGrows(g, init, k, order);
      WalkExtends(g, ns[|ns| - 1], WalkAll(g, init, order));
    } else {
      assert ns[..k] == ns;
    }
  }

  /** The walk in the part of a graph that is reached is the walk in the graph. */
  lemma {:induction false} PartWalk(g: Graph, from: set<Node>, n: Node, order: seq<Package>)
    requires Backward(g) && n in Part(g, from)
    ensures Walk(Part(g, from), n, order) == Walk(g, n, order)
    decreases Ord(n), 1, 0
  {
    if !(n.P? && n.pkg in order) {
      PartWalkFirst(g, from, n, |g[n]|, order);
    }
  }

  lemma {:induction false} PartWalkFirst(g: Graph, from: set<Node>, n: Node, k: nat, order: seq<Package>)
    requires Backward(g) && n in Part(g, from) && k <= |g[n]|
    ensures WalkFirst(Part(g, from), n, k, order) == WalkFirst(g, n, k, order)
    decreases Ord(n), 0, k
  {
    if k > 0 {
      PartWalkFirst(g, from, n, k - 1, order);
      var m := g[n][k - 1];
      if Ord(m) < Ord(n) {
        PartClosed(g, from, n, m);
        PartWalk(g, from, m, WalkFirst(g, n, k - 1, order));
      }
    }
  }

  lemma {:induction false} PartWalkAll(g: Graph, from: set<Node>, ns: seq<Node>, order: seq<Package>)
    requires Backward(g) && forall n | n in ns :: n in Part(g, from)
    ensures WalkAll(Part(g, from), ns, order) == WalkAll(g, ns, order)
  {
    if ns != [] {
      PartWalkAll(g, from, ns[..|ns| - 1], order);
      PartWalk(g, from, ns[|ns| - 1], WalkAll(g, ns[..|ns| - 1], order));
    }
  }

  // ----- the steps of an action -----

  datatype Step = Download | Configure | Build | Clean

  predicate Known(action: string) {
    action in ["download", "configure", "confbuild", "build", "clean", "all"]
  }

  /** The steps an action takes for each package. */
  function Steps(action: string): seq<Step> {
    if action == "download" then [Download]
    else if action == "configure" then [Configure]
    else if action == "confbuild" then [Configure, Build]
    else if action == "build" then [Build]
    else if action == "clean" then [Clean]
    else if action == "all" then [Download, Configure, Build]
    else []
  }

  /** A step that was started for a package. */
  datatype Event = Event(pkg: Package, step: Step)

  function StepsFor(p: Package, steps: seq<Step>): seq<Event> {
    seq(|steps|, i requires 0 <= i < |steps| => Event(p, steps[i]))
  }

  /** The steps for all packages of an order, one package after the other. */
  function Flat(order: seq<Package>, steps: seq<Step>): seq<Event> {
    if order == [] then [] else Flat(order[..|order| - 1], steps) + StepsFor(order[|order| - 1], steps)
  }

  predicate AllWork(works: (Package, Step) -> bool, log: seq<Event>) {
    forall i | 0 <= i < |log| :: works(log[i].pkg, log[i].step)
  }

  /** All steps for the order were taken, and none failed. */
  predicate Succeeded(works: (Package, Step) -> bool, order: seq<Package>, action: string, log: seq<Event>) {
    log == Flat(order, Steps(action)) && AllWork(works, log) && (!Known(action) ==> order == [])
  }

  /** The steps were taken up to one for the last package of the order, the only one that failed;
      or the action is not known and nothing was done. */
  predicate Halted(works: (Package, Step) -> bool, order: seq<Package>, action: string, log: seq<Event>) {
    if Known(action) then
      && order != [] && log != [] && log <= Flat(order, Steps(action))
      && |log| > |Flat(order[..|order| - 1], Steps(action))|
      && AllWork(works, log[..|log| - 1]) && !works(log[|log| - 1].pkg, log[|log| - 1].step)
    else order == [] && log == []
  }

  lemma FlatAppend(order: seq<Package>, p: Package, steps: seq<Step>)
    ensures Flat(order + [p], steps) == Flat(order, steps) + StepsFor(p, steps)
  {
    assert (order + [p])[..|order|] == order;
  }

  lemma {:induction false} FlatEvents(order: seq<Package>, steps: seq<Step>, p: Package, s: Step)
    ensures Event(p, s) in Flat(order, steps) <==> p in order && s in steps
  {
    if order != [] {
      var init, last := order[..|order| - 1], order[|order| - 1];
      FlatEvents(init, steps, p, s);
      assert order == init + [last];
      if s in steps {
        var i :| 0 <= i < |steps| && steps[i] == s;
        assert StepsFor(last, steps)[i] == Event(last, s);
      }
    }
  }

  /** No step of a package is taken twice. */
  lemma {:induction false} FlatOnce(g: Graph, order: seq<Package>, steps: seq<Step>, i: int, j: int)
    requires OrderOk(g, order) && forall a, b | 0 <= a < b < |steps| :: steps[a] != steps[b]
    requires 0 <= i < j < |Flat(order, steps)|
    ensures Flat(order, steps)[i] != Flat(order, steps)[j]
  {
    var init, last := order[..|order| - 1], order[|order| - 1];
    OrderInit(g, order);
    var done := Flat(init, steps);
    if j < |done| {
      FlatOnce(g, init, steps, i, j);
    } else if i < |done| {
      FlatEvents(init, steps, done[i].pkg, done[i].step);
      assert done[i].pkg != last;
    }
  }

  lemma OrderInit(g: Graph, order: seq<Package>)
    requires OrderOk(g, order) && order != []
    ensures OrderOk(g, order[..|order| - 1]) && PlaceOk(g, order, |order| - 1)
  {
    var init := order[..|order| - 1];
    forall i {:trigger PlaceOk(g, init, i)} | 0 <= i < |init| ensures PlaceOk(g, init, i) {
      assert PlaceOk(g, order, i);
      assert init[..i] == order[..i];
    }
  }

  /** Before a step of a package, all steps were taken for whatever it needs, and its own
      earlier steps. */
  lemma {:induction false} FlatOrdered(g: Graph, order: seq<Package>, steps: seq<Step>, i: int, q: Node, s: Step)
    requires OrderOk(g, order) && 0 <= i < |Flat(order, steps)| && q in g && q.P? && s in steps
    requires Needs(g, P(Flat(order, steps)[i].pkg), q)
    ensures Event(q.pkg, s) in Flat(order, steps)[..i]
  {
    var init := order[..|order| - 1];
    OrderInit(g, order);
    var done := Flat(init, steps);
    if i < |done| {
      FlatOrdered(g, init, steps, i, q, s);
      assert done[..i] == Flat(order, steps)[..i];
    } else {
      FlatEvents(init, steps, q.pkg, s);
      assert done <= Flat(order, steps)[..i];
    }
  }

  lemma {:induction false} FlatSteps(order: seq<Package>, steps: seq<Step>, i: int, b: int)
    requires 0 <= i < |Flat(order, steps)| && 0 <= b < |steps| && Flat(order, steps)[i].step == steps[b]
    requires forall c, d | 0 <= c < d < |steps| :: steps[c] != steps[d]
    ensures forall a | 0 <= a < b :: Event(Flat(order, steps)[i].pkg, steps[a]) in Flat(order, steps)[..i]
  {
    var init, last := order[..|order| - 1], order[|order| - 1];
    var done, all := Flat(init, steps), Flat(order, steps);
    if i < |done| {
      FlatSteps(init, steps, i, b);
      assert done[..i] == all[..i];
    } else {
      forall a | 0 <= a < b ensures Event(last, steps[a]) in all[..i] {
        assert all[|done| + a] == Event(last, steps[a]);
      }
    }
  }

  lemma StepsDistinct(action: string)
    ensures forall a, b | 0 <= a < b < |Steps(action)| :: Steps(action)[a] != Steps(action)[b]
  {
  }

  /** The log of a run is a part of the steps of its order. */
  ghost predicate RunOf(works: (Package, Step) -> bool, order: seq<Package>, action: string, log: seq<Event>) {
    Succeeded(works, order, action, log) || Halted(works, order, action, log)
  }

  lemma RunIsPrefix(works: (Package, Step) -> bool, order: seq<Package>, action: string, log: seq<Event>)
    requires RunOf(works, order, action, log)
    ensures log <= Flat(order, Steps(action)) && forall i | 0 <= i < |log| - 1 :: works(log[i].pkg, log[i].step)
  {
  }

  lemma RunOnce(g: Graph, order: seq<Package>, action: string, log: seq<Event>)
    requires OrderOk(g, order) && log <= Flat(order, Steps(action))
    ensures forall i, j | 0 <= i < j < |log| :: log[i] != log[j]
    ensures forall i | 0 <= i < |log| :: log[i].pkg in order && log[i].step in Steps(action)
  {
    StepsDistinct(action);
    forall i, j | 0 <= i < j < |log| ensures log[i] != log[j] {
      FlatOnce(g, order, Steps(action), i, j);
    }
    forall i | 0 <= i < |log| ensures log[i].pkg in order && log[i].step in Steps(action) {
      FlatEvents(order, Steps(action), log[i].pkg, log[i].step);
      assert log[i] in Flat(order, Steps(action));
    }
  }

  lemma RunAfterNeeds(g: Graph, order: seq<Package>, action: string, log: seq<Event>, i: int, q: Node, s: Step)
    requires OrderOk(g, order) && log <= Flat(order, Steps(action)) && 0 <= i < |log|
    requires q in g && q.P? && s in Steps(action) && Needs(g, P(log[i].pkg), q)
    ensures Event(q.pkg, s) in log[..i]
  {
    FlatOrdered(g, order, Steps(action), i, q, s);
    assert log[..i] == Flat(order, Steps(action))[..i];
  }

  lemma RunStepsInOrder(order: seq<Package>, action: string, log: seq<Event>, i: int, a: int, b: int)
    requires log <= Flat(order, Steps(action)) && 0 <= i < |log| && 0 <= a < b < |Steps(action)|
    requires log[i].step == Steps(action)[b]
    ensures Event(log[i].pkg, Steps(action)[a]) in log[..i]
  {
    StepsDistinct(action);
    FlatSteps(order, Steps(action), i, b);
    assert log[..i] == Flat(order, Steps(action))[..i];
  }

  /** What a run of an action does: no step of a package is taken twice, steps follow all steps
      of whatever the package needs and its own earlier steps, and only the last step taken can have
      failed. */
  lemma RunOrdered(g: Graph, works: (Package, Step) -> bool, order: seq<Package>, action: string, log: seq<Event>)
    requires OrderOk(g, order) && RunOf(works, order, action, log)
    ensures forall i, j | 0 <= i < j < |log| :: log[i] != log[j]
    ensures forall i, q, s | 0 <= i < |log| && q in g && q.P? && s in Steps(action) && Needs(g, P(log[i].pkg), q) ::
      Event(q.pkg, s) in log[..i] && works(q.pkg, s)
    ensures forall i, a, b | 0 <= i < |log| && 0 <= a < b < |Steps(action)| && log[i].step == Steps(action)[b] ::
      Event(log[i].pkg, Steps(action)[a]) in log[..i]
    ensures forall i | 0 <= i < |log| - 1 :: works(log[i].pkg, log[i].step)
    ensures forall i | 0 <= i < |log| :: log[i].pkg in order && log[i].step in Steps(action)
  {
    RunIsPrefix(works, order, action, log);
    RunOnce(g, order, action, log);
    forall i, q, s | 0 <= i < |log| && q in g && q.P? && s in Steps(action) && Needs(g, P(log[i].pkg), q)
      ensures Event(q.pkg, s) in log[..i] && works(q.pkg, s)
    {
      RunAfterNeeds(g, order, action, log, i, q, s);
      var k :| 0 <= k < i && log[k] == Event(q.pkg, s);
    }
    forall i, a, b | 0 <= i < |log| && 0 <= a < b < |Steps(action)| && log[i].step == Steps(action)[b]
      ensures Event(log[i].pkg, Steps(action)[a]) in log[..i]
    {
      RunStepsInOrder(order, action, log, i, a, b);
    }
  }

  /** A run that succeeds has taken every step for every package of the order. */
  lemma RunComplete(works: (Package, Step) -> bool, order: seq<Package>, action: string, log: seq<Event>)
    requires Succeeded(works, order, action, log)
    ensures forall p, s | p in order && s in Steps(action) :: Event(p, s) in log && works(p, s)
  {
    forall p, s | p in order && s in Steps(action) ensures Event(p, s) in log && works(p, s) {
      FlatEvents(order, Steps(action), p, s);
      var k :| 0 <= k < |log| && log[k] == Event(p, s);
    }
  }

  /** The step of a package was started before the i-th event. */
  predicate Before(log: seq<Event>, i: int, p: Package, s: Step)
    requires 0 <= i <= |log|
  {
    Event(p, s) in log[..i]
  }

  /** The log of a run of "all", finished or not: a package is configured after its download and built
      after it was configured, and nothing else happens. */
  ghost predicate AllLog(log: seq<Event>) {
    forall i | 0 <= i < |log| ::
      && log[i].step != Clean
      && (log[i].step == Configure ==> Before(log, i, log[i].pkg, Download))
      && (log[i].step == Build ==> Before(log, i, log[i].pkg, Configure))
  }

  /** The same for "confbuild". */
  ghost predicate ConfBuildLog(log: seq<Event>) {
    forall i | 0 <= i < |log| ::
      && (log[i].step == Configure || log[i].step == Build)
      && (log[i].step == Build ==> Before(log, i, log[i].pkg, Configure))
  }

  ghost predicate OnlyStep(log: seq<Event>, s: Step) {
    forall i | 0 <= i < |log| :: log[i].step == s
  }

  lemma StepsIn(order: seq<Package>, action: string, log: seq<Event>, i: int)
    requires log <= Flat(order, Steps(action)) && 0 <= i < |log|
    ensures log[i].step in Steps(action)
  {
    FlatEvents(order, Steps(action), log[i].pkg, log[i].step);
    assert log[i] in Flat(order, Steps(action));
  }

  lemma AllInOrder(order: seq<Package>, log: seq<Event>)
    requires log <= Flat(order, Steps("all"))
    ensures AllLog(log)
  {
    forall i | 0 <= i < |log|
      ensures log[i].step != Clean
      ensures log[i].step == Configure ==> Before(log, i, log[i].pkg, Download)
      ensures log[i].step == Build ==> Before(log, i, log[i].pkg, Configure)
    {
      StepsIn(order, "all", log, i);
      if log[i].step == Configure {
        RunStepsInOrder(order, "all", log, i, 0, 1);
      } else if log[i].step == Build {
        RunStepsInOrder(order, "all", log, i, 1, 2);
      }
    }
  }

  lemma ConfBuildInOrder(order: seq<Package>, log: seq<Event>)
    requires log <= Flat(order, Steps("confbuild"))
    ensures ConfBuildLog(log)
  {
    forall i | 0 <= i < |log|
      ensures log[i].step == Configure || log[i].step == Build
      ensures log[i].step == Build ==> Before(log, i, log[i].pkg, Configure)
    {
      StepsIn(order, "confbuild", log, i);
      if log[i].step == Build {
        RunStepsInOrder(order, "confbuild", log, i, 0, 1);
      }
    }
  }

  lemma OneStep(order: seq<Package>, action: string, log: seq<Event>, s: Step)
    requires log <= Flat(order, Steps(action)) && Steps(action) == [s]
    ensures OnlyStep(log, s)
  {
    forall i | 0 <= i < |log| ensures log[i].step == s {
      StepsIn(order, action, log, i);
    }
  }

  /** Which steps each action takes, and in what order, whether the run succeeds or stops. */
  lemma ActionSteps(works: (Package, Step) -> bool, order: seq<Package>, action: string, log: seq<Event>)
    requires RunOf(works, order, action, log)
    ensures action == "all" ==> AllLog(log)
    ensures action == "confbuild" ==> ConfBuildLog(log)
    ensures action == "download" ==> OnlyStep(log, Download)
    ensures action == "configure" ==> OnlyStep(log, Configure)
    ensures action == "build" ==> OnlyStep(log, Build)
    ensures action == "clean" ==> OnlyStep(log, Clean)
    ensures action !in ["download", "configure", "confbuild", "build", "clean", "all"] ==> log == []
  {
    RunIsPrefix(works, order, action, log);
    if action == "all" {
      AllInOrder(order, log);
    } else if action == "confbuild" {
      ConfBuildInOrder(order, log);
    } else if action == "download" {
      OneStep(order, action, log, Download);
    } else if action == "configure" {
      OneStep(order, action, log, Configure);
    } else if action == "build" {
      OneStep(order, action, log, Build);
    } else if action == "clean" {
      OneStep(order, action, log, Clean);
    }
  }

  /** Why a run stops: with one of the six actions a step has failed, and with any other one nothing was started. */
  lemma HaltReason(works: (Package, Step) -> bool, order: seq<Package>, action: string, log: seq<Event>)
    requires Halted(works, order, action, log)
    ensures if action in ["download", "configure", "confbuild", "build", "clean", "all"]
      then log != [] && !works(log[|log| - 1].pkg, log[|log| - 1].step)
      else log == []
  {
  }

  /** The step of every package of the order was taken. */
  ghost predicate TakenForAll(order: seq<Package>, log: seq<Event>, s: Step) {
    forall p | p in order :: Event(p, s) in log
  }

  /** Which steps a run that succeeds has taken for every package of its order. */
  lemma ActionComplete(works: (Package, Step) -> bool, order: seq<Package>, action: string, log: seq<Event>)
    requires Succeeded(works, order, action, log)
    ensures action == "all" ==>
      TakenForAll(order, log, Download) && TakenForAll(order, log, Configure) && TakenForAll(order, log, Build)
    ensures action == "confbuild" ==> TakenForAll(order, log, Configure) && TakenForAll(order, log, Build)
    ensures action == "download" ==> TakenForAll(order, log, Download)
    ensures action == "configure" ==> TakenForAll(order, log, Configure)
    ensures action == "build" ==> TakenForAll(order, log, Build)
    ensures action == "clean" ==> TakenForAll(order, log, Clean)
  {
    RunComplete(works, order, action, log);
    forall s | s in Steps(action) ensures TakenForAll(order, log, s) {
    }
  }
}
