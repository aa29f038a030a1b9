/** How the tree grows while the proxies in it are alive: where a subscriber lands, the shape of the tree, and how many
    proxies it can need. */
module Growth {
  import opened Basics
  import opened Tree
  import opened RoutingModel
  import opened BfsProofs
  import opened Fanout
  import opened TreeSafety

  /** The proxies and the listeners that hang in the tree. */
  ghost function TreeProxies(st: State): set<Name> {
    set c | c in Kin(st.edges) && c in st.proxies
  }

  ghost function TreeListeners(st: State): set<Name> {
    set c | c in Kin(st.edges) && c !in st.proxies
  }

  ghost function InnerNodes(st: State): set<Name>
    requires st.publishers != []
  {
    TreeProxies(st) + {st.Root()}
  }

  /** Every proxy in the tree answers every time it is asked. */
  ghost predicate Healthy(st: State, env: Env) {
    TreeProxies(st) <= env.alive1 && TreeProxies(st) <= env.alive2
  }

  ghost predicate Sound(role: Roles, st: State, d: map<Name, nat>, f: nat) {
    RolesOk(role, st) && Registered(role, st) && Distinct(st.edges) && TreeWith(st, d) && FanoutOk(st, f)
  }

  // ----- which nodes the search outputs -----

  lemma KinHasEdge(st: State, c: Name)
    ensures c in Kin(st.edges) <==> st.HasParentEdge(c)
  {
    if c in Kin(st.edges) {
      var e :| e in Elements(st.edges) && e.child == c;
      assert e in st.edges;
    }
    if st.HasParentEdge(c) {
      var e :| e in st.edges && e.child == c;
      assert e in Elements(st.edges);
    }
  }

  lemma AttachedKin(st: State, d: map<Name, nat>)
    requires TreeWith(st, d)
    ensures d.Keys == Kin(st.edges) + {st.Root()}
    ensures st.Root() !in Kin(st.edges)
  {
    TreeMeaning(Elements(st.edges), st.Root(), d);
    KinHasEdge(st, st.Root());
    forall e | e in st.edges
      ensures e.child != st.Root()
    {
      assert e in Elements(st.edges);
      assert d[e.child] == d[e.parent] + 1;
    }
  }

  /** A parent is an inner node. */
  lemma ParentsInner(role: Roles, st: State, d: map<Name, nat>, e: Edge)
    requires Registered(role, st) && TreeWith(st, d) && e in st.edges
    ensures e.parent in InnerNodes(st) && e.parent in d
    ensures e.child in d && d[e.child] == d[e.parent] + 1
  {
    assert e in Elements(st.edges);
    AttachedKin(st, d);
  }

  lemma {:induction false} InnerReached(role: Roles, st: State, d: map<Name, nat>, c: Name)
    requires RolesOk(role, st) && Registered(role, st) && TreeWith(st, d) && c in InnerNodes(st) && c in d
    ensures Reaches(Inner(st), st.Root(), c)
    decreases d[c]
  {
    if c == st.Root() {
      ReachesSelf(Inner(st), c);
    } else {
      AttachedHasEdge(st, d);
      var e :| e in st.edges && e.child == c;
      ParentsInner(role, st, d, e);
      InnerReached(role, st, d, e.parent);
      assert Edge(e.parent, c) in Inner(st);
      ReachesStep(Inner(st), st.Root(), e.parent, c);
    }
  }

  /** The search visits the root and the proxies in the tree, each at its depth in the tree. */
  lemma SearchIsInner(role: Roles, st: State, d: map<Name, nat>)
    requires RolesOk(role, st) && Registered(role, st) && TreeWith(st, d)
    ensures Nodes(Bfs(st, st.Root())) == InnerNodes(st)
    ensures forall a :: a in Bfs(st, st.Root()) ==> a.node in InnerNodes(st) && a.node in d && a.depth == d[a.node]
  {
    var nodes := Bfs(st, st.Root());
    BfsExact(st, st.Root());
    AttachedKin(st, d);
    forall n | n in Nodes(nodes)
      ensures n in InnerNodes(st)
    {
      InnerAttached(role, st, d, n);
    }
    forall c | c in InnerNodes(st)
      ensures c in Nodes(nodes)
    {
      InnerReached(role, st, d, c);
    }
    forall a | a in nodes
      ensures a.node in InnerNodes(st) && a.node in d && a.depth == d[a.node]
    {
      var i :| 0 <= i < |nodes| && nodes[i] == a;
      NodeIn(nodes, i);
      SearchDepth(st, d, nodes[i]);
    }
  }

  lemma SearchDepth(st: State, d: map<Name, nat>, a: At)
    requires TreeWith(st, d) && WalkOf(Inner(st), st.Root(), a)
    ensures a.node in d && a.depth == d[a.node]
  {
    var p :| PathFromTo(Inner(st), p, st.Root(), a.node) && |p| == a.depth + 1;
    forall i | 0 <= i < |p| - 1
      ensures Edge(p[i], p[i + 1]) in Elements(st.edges)
    {
      assert Edge(p[i], p[i + 1]) in Inner(st);
    }
    PathDepth(Elements(st.edges), st.Root(), d, p);
  }

  // ----- where a subscriber lands in a healthy tree -----

  ghost predicate Full(st: State, n: Name, f: nat) {
    |ChildSet(Elements(st.edges), n)| == f
  }

  datatype Landing =
    | Attaches(under: Name)
    | Grafts(under: Name, proxy: Name, moved: set<Name>)
    | NoProxyLeft(under: Name)

  /** What one conflict-free attempt does, with what must be true of the tree for it. */
  ghost predicate Lands(st: State, d: map<Name, nat>, sub: Name, f: nat, env: Env, l: Landing)
    requires st.publishers != []
  {
    var base, scan := Seeded(st, sub, env), SubscribeScan(st, sub, f, env);
    match l
    case Attaches(n) =>
      && n in InnerNodes(st) && n in d && !Full(st, n, f)
      && (forall m :: m in InnerNodes(st) && m in d && !Full(st, m, f) ==> d[n] <= d[m])
      && scan.tries != [] && scan.tries[0] == base.AddEdge(n, sub)
    case Grafts(n, x, m) =>
      && DeepestAndAllFull(st, d, n, f)
      && x in env.PickAlive(n)
      && scan.tries != [] && GraftAt(base, scan.tries[0], n, x, sub, m, f)
    case NoProxyLeft(n) =>
      && DeepestAndAllFull(st, d, n, f)
      && scan == Scan([], true)
      && (forall p :: p in st.proxies && p in env.PickAlive(n) ==> p in Used(st))
  }

  ghost predicate DeepestAndAllFull(st: State, d: map<Name, nat>, n: Name, f: nat)
    requires st.publishers != []
  {
    && n in InnerNodes(st) && n in d
    && (forall m :: m in InnerNodes(st) ==> Full(st, m, f))
    && (forall m :: m in InnerNodes(st) && m in d ==> d[m] <= d[n])
    && (forall c :: Edge(n, c) in st.edges ==> c !in st.proxies)
  }

  lemma UsableInner(role: Roles, st: State, d: map<Name, nat>, n: Name, alive: set<Name>)
    requires RolesOk(role, st) && TreeWith(st, d) && n in InnerNodes(st) && TreeProxies(st) <= alive
    ensures Usable(st, n, alive)
  {
  }

  lemma RoomMeans(role: Roles, st: State, d: map<Name, nat>, n: Name, sub: Name, f: nat, env: Env)
    requires Sound(role, st, d, f) && Healthy(st, env) && n in InnerNodes(st)
    ensures AttachStep(st, st, n, sub, f, env) == if Full(st, n, f) then Skip else Offer(st.AddEdge(n, sub))
  {
    UsableInner(role, st, d, n, env.alive1);
    ChildrenCount(st.edges, n);
    assert |ChildSet(Elements(st.edges), n)| <= f;
  }

  lemma ByDepthTotal()
    ensures TotalOrder(ByDepth())
  {
  }

  /** The first candidate is a deepest inner node. */
  lemma FirstCandDeepest(role: Roles, st: State, d: map<Name, nat>)
    requires RolesOk(role, st) && Registered(role, st) && TreeWith(st, d)
    ensures Cands(st) != []
    ensures var n := Cands(st)[0].node;
      n in InnerNodes(st) && n in d && forall m :: m in InnerNodes(st) && m in d ==> d[m] <= d[n]
  {
    var nodes, cands := Bfs(st, st.Root()), Cands(st);
    SearchIsInner(role, st, d);
    BfsExact(st, st.Root());
    SortByBag(nodes, ByDepth());
    SameBag(cands, nodes);
    var n := cands[0].node;
    assert cands[0] in nodes;
    forall m | m in InnerNodes(st) && m in d
      ensures d[m] <= d[n]
    {
      var i := NodesAt(nodes, m);
      assert nodes[i] in cands;
      var j :| 0 <= j < |cands| && cands[j] == nodes[i];
      FirstIsDeepest(nodes, j);
    }
  }

  lemma {:induction false} FirstIsDeepest(nodes: seq<At>, j: nat)
    requires j < |SortBy(nodes, ByDepth())|
    ensures SortBy(nodes, ByDepth())[j].depth <= SortBy(nodes, ByDepth())[0].depth
  {
    ByDepthTotal();
    SortByOrdered(nodes, ByDepth());
    if j > 0 {
      assert ByDepth()(SortBy(nodes, ByDepth())[0], SortBy(nodes, ByDepth())[j]);
    }
  }

  /** A deepest inner node has no proxy below it. */
  lemma DeepestHasListeners(role: Roles, st: State, d: map<Name, nat>, n: Name)
    requires RolesOk(role, st) && Registered(role, st) && TreeWith(st, d) && n in d
    requires forall m :: m in InnerNodes(st) && m in d ==> d[m] <= d[n]
    ensures forall c :: Edge(n, c) in st.edges ==> c !in st.proxies
  {
    forall c | Edge(n, c) in st.edges
      ensures c !in st.proxies
    {
      ParentsInner(role, st, d, Edge(n, c));
      KinHasEdge(st, c);
      assert Edge(n, c).child == c;
    }
  }

  lemma DeepestGrafts(role: Roles, st: State, d: map<Name, nat>, n: Name, sub: Name, f: nat, env: Env)
    requires Sound(role, st, d, f) && Healthy(st, env) && f >= 2 && DeepestAndAllFull(st, d, n, f)
    ensures GraftStep(st, st, n, sub, f, env) != Skip
    ensures GraftStep(st, st, n, sub, f, env) == Stop ==>
      forall p :: p in st.proxies && p in env.PickAlive(n) ==> p in Used(st)
  {
    UsableInner(role, st, d, n, env.alive2);
    ChildrenCount(st.edges, n);
    var ch := ChildrenIns(st.edges, n);
    assert Full(st, n, f);
    assert |ch| >= 2;
    assert ch[0] in ch && Edge(n, ch[0]) in st.edges;
    FirstUnusedIs(st.proxies, Used(st), env.PickAlive(n), 0);
  }

  lemma LandsInSeeded(role: Roles, base: State, d: map<Name, nat>, sub: Name, f: nat, env: Env)
      returns (n: Name, attach: bool)
    requires Sound(role, base, d, f) && Healthy(base, env) && f >= 2
    ensures attach ==> n in InnerNodes(base) && n in d && !Full(base, n, f)
    ensures attach ==> forall m :: m in InnerNodes(base) && m in d && !Full(base, m, f) ==> d[n] <= d[m]
    ensures !attach ==> DeepestAndAllFull(base, d, n, f)
    ensures var scan := Pass1(base, base, Bfs(base, base.Root()), 0, sub, f, env);
      if attach then scan.tries != [] && scan.tries[0] == base.AddEdge(n, sub) else
        match GraftStep(base, base, n, sub, f, env)
        case Skip => false
        case Stop => scan == Scan([], true)
        case Offer(next) => scan.tries != [] && scan.tries[0] == next
  {
    var nodes := Bfs(base, base.Root());
    var k := Pass1First(base, nodes, 0, sub, f, env);
    attach := k < |nodes|;
    if attach {
      n := nodes[k].node;
      LeastWithRoom(role, base, d, sub, f, env, k);
    } else {
      NoneHasRoom(role, base, d, sub, f, env);
      GraftsDeepest(role, base, d, sub, f, env);
      n := Cands(base)[0].node;
    }
  }

  /** In a full tree pass 2 stops at its first candidate, a deepest node. */
  lemma {:induction false} GraftsDeepest(role: Roles, base: State, d: map<Name, nat>, sub: Name, f: nat, env: Env)
    requires Sound(role, base, d, f) && Healthy(base, env) && f >= 2
    requires forall m :: m in InnerNodes(base) ==> Full(base, m, f)
    ensures Cands(base) != []
    ensures var n, scan := Cands(base)[0].node, Pass2(base, base, Cands(base), 0, sub, f, env);
      && DeepestAndAllFull(base, d, n, f)
      && match GraftStep(base, base, n, sub, f, env)
         case Skip => false
         case Stop => scan == Scan([], true)
         case Offer(next) => scan.tries != [] && scan.tries[0] == next
  {
    FirstCandDeepest(role, base, d);
    var n := Cands(base)[0].node;
    DeepestHasListeners(role, base, d, n);
    DeepestGrafts(role, base, d, n, sub, f, env);
    var c := Pass2First(base, Cands(base), 0, sub, f, env);
    assert c == 0;
  }

  lemma LeastWithRoom(role: Roles, base: State, d: map<Name, nat>, sub: Name, f: nat, env: Env, k: nat)
    requires Sound(role, base, d, f) && Healthy(base, env) && f >= 2
    requires var nodes := Bfs(base, base.Root());
      && k < |nodes| && AttachStep(base, base, nodes[k].node, sub, f, env).Offer?
      && forall j :: 0 <= j < k ==> AttachStep(base, base, nodes[j].node, sub, f, env) == Skip
    ensures var n := Bfs(base, base.Root())[k].node;
      && n in InnerNodes(base) && n in d && !Full(base, n, f)
      && forall m :: m in InnerNodes(base) && m in d && !Full(base, m, f) ==> d[n] <= d[m]
  {
    var nodes := Bfs(base, base.Root());
    SearchIsInner(role, base, d);
    assert nodes[k] in nodes;
    RoomMeans(role, base, d, nodes[k].node, sub, f, env);
    forall m | m in InnerNodes(base) && m in d && !Full(base, m, f)
      ensures d[nodes[k].node] <= d[m]
    {
      RoomMeans(role, base, d, m, sub, f, env);
      var i := NodesAt(nodes, m);
      assert k <= i && nodes[i] in nodes;
      SearchByDepth(base, base.Root(), k, i);
    }
  }

  lemma NoneHasRoom(role: Roles, base: State, d: map<Name, nat>, sub: Name, f: nat, env: Env)
    requires Sound(role, base, d, f) && Healthy(base, env) && f >= 2
    requires var nodes := Bfs(base, base.Root());
      forall j :: 0 <= j < |nodes| ==> AttachStep(base, base, nodes[j].node, sub, f, env) == Skip
    ensures forall m :: m in InnerNodes(base) ==> Full(base, m, f)
  {
    SearchIsInner(role, base, d);
    AttachedKin(base, d);
    forall m | m in InnerNodes(base)
      ensures Full(base, m, f)
    {
      RoomMeans(role, base, d, m, sub, f, env);
      var i := NodesAt(Bfs(base, base.Root()), m);
    }
  }

  lemma SeededSound(role: Roles, st: State, d: map<Name, nat>, f: nat, sub: Name, env: Env)
    requires Sound(role, st, d, f)
    ensures Sound(role, Seeded(st, sub, env), d, f)
  {
  }

  /** In a tree whose proxies are alive, a conflict-free subscribe attaches at the least depth with room, or grafts a
      proxy under a deepest node of an entirely full tree, or reports that no unused proxy is alive. It never falls
      through without a place. */
  lemma SubscribeLands(role: Roles, st: State, d: map<Name, nat>, sub: Name, f: nat, env: Env) returns (l: Landing)
    requires Sound(role, st, d, f) && Healthy(st, env) && f >= 2
    ensures Lands(st, d, sub, f, env, l)
  {
    var base := Seeded(st, sub, env);
    SeededSound(role, st, d, f, sub, env);
    var n, attach := LandsInSeeded(role, base, d, sub, f, env);
    if attach {
      l := Attaches(n);
    } else {
      DeepestGrafts(role, base, d, n, sub, f, env);
      if GraftStep(base, base, n, sub, f, env) == Stop {
        l := NoProxyLeft(n);
      } else {
        SearchIsInner(role, base, d);
        RootUsed(base, n);
        var x, m := GraftStepIs(base, n, sub, f, env);
        l := Grafts(n, x, m);
      }
    }
  }

  /** Every node of m was attached before every node of rest, a missing time counting as zero, or at the same time and
      has the smaller name. */
  ghost predicate LongestAttached(attach: map<Name, int>, m: set<Name>, rest: set<Name>) {
    forall a, b :: a in m && b in rest ==>
      var s, t := if a in attach then attach[a] else 0, if b in attach then attach[b] else 0;
      s < t || (s == t && a < b)
  }

  /** A graft keeps every attached node attached, attaches exactly the new proxy and the subscriber, adds two edges net,
      moves exactly min(k, f - 1) of the k listeners of n, none of them younger than one that stays, deepens exactly
      those by one level and changes no other depth. */
  lemma GraftEffect(role: Roles, st: State, next: State, d: map<Name, nat>, n: Name, x: Name, sub: Name, m: set<Name>,
                    f: nat)
    returns (d': map<Name, nat>)
    requires RolesOk(role, st) && Registered(role, st) && Distinct(st.edges) && TreeWith(st, d)
    requires n in Nodes(Bfs(st, st.Root())) && role(sub) == Listener && !st.HasParentEdge(sub)
    requires GraftAt(st, next, n, x, sub, m, f)
    ensures TreeWith(next, d')
    ensures d'.Keys == d.Keys + {x, sub} && x !in d && sub !in d
    ensures Kin(next.edges) == Kin(st.edges) + {x, sub}
    ensures |next.edges| == |st.edges| + 2
    ensures var k := |Listeners(st, n)|;
      m <= Listeners(st, n) && |m| == if k < f - 1 then k else f - 1
    ensures LongestAttached(st.attachMs, m, Listeners(st, n) - m)
    ensures n in d && d'[x] == d[n] + 1 && d'[sub] == d[n] + 2
    ensures forall y :: y in d ==> d'[y] == if y in m then d[y] + 1 else d[y]
  {
    GraftKeeps(role, st, next, d, n, x, sub, m, f);
    d' := GraftDepths(d, n, x, sub, m);
    MovedDepths(st, d, n, m);
    GrownByTwo(st, next, d, d', x, sub);
    OldestMove(st, next, n, x, sub, m, f);
  }

  lemma OldestMove(st: State, next: State, n: Name, x: Name, sub: Name, m: set<Name>, f: nat)
    requires GraftAt(st, next, n, x, sub, m, f)
    ensures var k := |Listeners(st, n)|;
      |m| == if k < f - 1 then k else f - 1
    ensures LongestAttached(st.attachMs, m, Listeners(st, n) - m)
  {
  }

  lemma MovedDepths(st: State, d: map<Name, nat>, n: Name, m: set<Name>)
    requires TreeWith(st, d) && n in d
    requires forall c :: c in m ==> Edge(n, c) in st.edges && c !in st.proxies
    ensures m <= Listeners(st, n)
    ensures forall c :: c in m ==> c in d && d[c] == d[n] + 1
  {
    forall c | c in m
      ensures c in Listeners(st, n) && c in d && d[c] == d[n] + 1
    {
      var e := Edge(n, c);
      assert e in Elements(st.edges);
    }
  }

  lemma GrownByTwo(st: State, next: State, d: map<Name, nat>, d': map<Name, nat>, x: Name, sub: Name)
    requires TreeWith(st, d) && TreeWith(next, d') && st.publishers == next.publishers
    requires Distinct(st.edges) && Distinct(next.edges)
    requires d'.Keys == d.Keys + {x, sub} && x !in d && sub !in d && x != sub
    ensures Kin(next.edges) == Kin(st.edges) + {x, sub}
    ensures |next.edges| == |st.edges| + 2
  {
    AttachedKin(st, d);
    AttachedKin(next, d');
    KinCount(st);
    KinCount(next);
    TwoMore(Kin(st.edges), Kin(next.edges), st.Root(), x, sub);
  }

  lemma TwoMore(a: set<Name>, b: set<Name>, r: Name, x: Name, y: Name)
    requires b + {r} == (a + {r}) + {x, y} && x !in a + {r} && y !in a + {r} && x != y && r !in a && r !in b
    ensures b == a + {x, y} && |b| == |a| + 2
  {
    assert b == a + {x, y};
    assert |a + {x, y}| == |a| + |{x, y}|;
  }

  lemma KinCount(st: State)
    requires Distinct(st.edges) && SingleParent(Elements(st.edges))
    ensures |Kin(st.edges)| == |st.edges|
    ensures |Kin(st.edges)| == |TreeProxies(st)| + |TreeListeners(st)|
  {
    ChildrenCard(Elements(st.edges));
    DistinctCard(st.edges);
    assert Kin(st.edges) == TreeProxies(st) + TreeListeners(st);
  }

  // ----- counting -----

  /** In a full tree with p proxies there are p*(f-1) + f listeners. */
  lemma FullSize(role: Roles, st: State, d: map<Name, nat>, f: nat)
    requires Sound(role, st, d, f) && forall m :: m in InnerNodes(st) ==> Full(st, m, f)
    requires f >= 1
    ensures |TreeListeners(st)| == |TreeProxies(st)| * (f - 1) + f
  {
    forall e | e in Elements(st.edges)
      ensures e.parent in InnerNodes(st)
    {
      ParentsInner(role, st, d, e);
    }
    FullCount(Elements(st.edges), InnerNodes(st), f);
    DistinctCard(st.edges);
    KinCount(st);
    InnerCount(st, d);
    Spread(|TreeProxies(st)|, f);
  }

  lemma InnerCount(st: State, d: map<Name, nat>)
    requires TreeWith(st, d)
    ensures |InnerNodes(st)| == |TreeProxies(st)| + 1
  {
    AttachedKin(st, d);
  }

  lemma Spread(p: nat, f: nat)
    requires f >= 1
    ensures (p + 1) * f == p + p * (f - 1) + f
  {
  }

  /** The sizing bound: p proxies in the tree need at least p*(f-1) + 2 listeners, now or earlier. */
  ghost predicate Sized(st: State, f: nat, peak: nat) {
    var p := |TreeProxies(st)|;
    |TreeListeners(st)| <= peak && (p == 0 || p * (f - 1) + 2 <= peak)
  }

  lemma Fewer(p: nat, q: nat, f: nat)
    requires p <= q && f >= 1
    ensures p * (f - 1) <= q * (f - 1)
  {
  }

  // ----- choose_proxies -----

  function Ceil(x: real): int {
    -(-x).Floor
  }

  /** Floating-point arithmetic: the result of an operation is its exact value, off by no more than one part in a
      hundred. Double precision is off by no more than one part in 2^53. */
  ghost predicate RoundsWell(round: real -> real) {
    forall x :: x >= 0.0 ==> 0.99 * x <= round(x) <= 1.01 * x
  }

  /** bench_utils.choose_proxies, with the rounding of its division and its product. */
  function ChooseProxies(listeners: int, fanout: int, round: real -> real): int {
    var f := Max(2, fanout);
    var n := Max(1, listeners);
    if n <= f then 0
    else Max(Ceil(round(round((n as real) / ((f - 1) as real)) * 1.5)), f + f * f)
  }

  lemma DivAbove(p: nat, f: int, n: int)
    requires f >= 2 && p * (f - 1) < n
    ensures p as real < (n as real) / ((f - 1) as real)
  {
    var a, b := n as real, (f - 1) as real;
    assert (p * (f - 1)) as real == (p as real) * b;
    assert (a / b) * b == a;
    CancelFactor(p as real, a / b, b);
  }

  lemma CancelFactor(x: real, q: real, b: real)
    requires b > 0.0 && x * b < q * b
    ensures x < q
  {
  }

  /** The half on top of n / (f - 1) outweighs the rounding. */
  lemma ChooseIsEnough(p: nat, f: nat, n: nat, round: real -> real)
    requires f >= 2 && p * (f - 1) + f + 1 <= n && RoundsWell(round)
    ensures p < ChooseProxies(n, f, round)
  {
    DivAbove(p, f, n);
    assert n > f by { Fewer(0, p, f); }
    var exact := (n as real) / ((f - 1) as real);
    var quotient := round(exact);
    assert quotient >= 0.99 * exact;
    assert round(quotient * 1.5) >= 0.99 * (quotient * 1.5);
  }

  lemma CeilIs(x: real)
    ensures Ceil(x) as real - 1.0 < x <= Ceil(x) as real
  {
  }

  lemma ThreeHalves(n: int, f: int, k: int)
    requires f >= 2
    ensures var x := (n as real) / ((f - 1) as real) * 1.5;
      (x <= k as real <==> 3 * n <= 2 * k * (f - 1)) && (k as real < x <==> 2 * k * (f - 1) < 3 * n)
  {
    var a, b := n as real, (f - 1) as real;
    assert (a / b) * b == a;
    assert (2 * k * (f - 1)) as real == 2.0 * (k as real) * b;
    Compare(k as real, (a / b) * 1.5, b);
    assert (a / b) * 1.5 * b == 1.5 * a;
  }

  lemma Compare(k: real, x: real, b: real)
    requires b > 0.0
    ensures (x <= k <==> x * b <= k * b) && (k < x <==> k * b < x * b)
  {
  }

  /** Without rounding it is the least number from f + f^2 on that is half as much again as n / (f - 1), and none if the
      root has room for all; a fanout below two counts as two, and fewer than one listener as one. */
  lemma ChooseExactly(listeners: int, fanout: int, round: real -> real)
    requires forall x :: round(x) == x
    ensures var f, n := if fanout < 2 then 2 else fanout, if listeners < 1 then 1 else listeners;
      var k := ChooseProxies(listeners, fanout, round);
      && (n <= f ==> k == 0)
      && (n > f ==> k >= f + f * f && 3 * n <= 2 * k * (f - 1) && (k == f + f * f || 2 * (k - 1) * (f - 1) < 3 * n))
  {
    var f, n := if fanout < 2 then 2 else fanout, if listeners < 1 then 1 else listeners;
    var x := (n as real) / ((f - 1) as real) * 1.5;
    assert round(round((n as real) / ((f - 1) as real)) * 1.5) == x;
    CeilIs(x);
    ThreeHalves(n, f, ChooseProxies(listeners, fanout, round));
    ThreeHalves(n, f, ChooseProxies(listeners, fanout, round) - 1);
  }

  /** A proxy is in use exactly when it hangs in the tree. */
  lemma UsedProxies(role: Roles, st: State, d: map<Name, nat>, p: Name)
    requires RolesOk(role, st) && Registered(role, st) && TreeWith(st, d) && p in st.proxies && p in Used(st)
    ensures p in TreeProxies(st)
  {
    if p in st.publishers {
      assert false;
    } else {
      var e := EndOf(st.edges, p);
      ParentsInner(role, st, d, e);
      KinHasEdge(st, p);
    }
  }

  /** A subscriber that finds fewer than a*(f-1) + f listeners in a healthy tree, a being the number of registered
      proxies that answer whenever asked, finds a place: "No unused proxies" is not reported. */
  lemma ProxiesLeft(role: Roles, st: State, d: map<Name, nat>, sub: Name, f: nat, env: Env, alive: set<Name>)
    requires Sound(role, st, d, f) && Healthy(st, env) && f >= 2
    requires alive <= Elements(st.proxies) && forall k :: k in InnerNodes(st) ==> alive <= env.PickAlive(k)
    requires |TreeListeners(st)| < |alive| * (f - 1) + f
    ensures SubscribeScan(st, sub, f, env).tries != []
  {
    var l := SubscribeLands(role, st, d, sub, f, env);
    if l.NoProxyLeft? {
      FullSize(role, st, d, f);
      forall p | p in alive
        ensures p in TreeProxies(st)
      {
        assert p in env.PickAlive(l.under);
        UsedProxies(role, st, d, p);
      }
      SubsetCard(alive, TreeProxies(st));
      Fewer(|alive|, |TreeProxies(st)|, f);
      assert false;
    }
  }

  /** So choose_proxies(n, f) of them suffice for n listeners. */
  lemma ProxiesSuffice(role: Roles, st: State, d: map<Name, nat>, sub: Name, f: nat, env: Env, alive: set<Name>, n: nat,
                       round: real -> real)
    requires Sound(role, st, d, f) && Healthy(st, env) && f >= 2 && RoundsWell(round)
    requires alive <= Elements(st.proxies) && forall k :: k in InnerNodes(st) ==> alive <= env.PickAlive(k)
    requires |alive| >= ChooseProxies(n, f, round) && |TreeListeners(st)| + 1 <= n
    ensures SubscribeScan(st, sub, f, env).tries != []
  {
    if |TreeListeners(st)| >= |alive| * (f - 1) + f {
      ChooseIsEnough(|alive|, f, n, round);
      assert false;
    }
    ProxiesLeft(role, st, d, sub, f, env, alive);
  }
}
