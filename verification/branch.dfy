/** Why the single path of proxies needs their heartbeats: a graft keeps the path exactly when it happens at its end,
    and when the proxies in the tree are dead it happens at the root. */
module Branch {
  import opened Basics
  import opened Tree
  import opened RoutingModel
  import opened BfsProofs
  import opened Fanout
  import opened TreeSafety
  import opened Growth
  import opened Shape
  import opened Protocol
  import opened Runs
  import opened Depth

  // ----- one graft -----

  /** Below a node that is not the deepest of a spine there is already a proxy at the next depth. */
  lemma NextProxy(role: Roles, st: State, d: map<Name, nat>, n: Name, q: Name) returns (y: Name)
    requires RolesOk(role, st) && Registered(role, st) && TreeWith(st, d) && Spine(st, d)
    requires n in d && q in TreeProxies(st) && q in d && d[n] < d[q]
    ensures y in TreeProxies(st) && y in d && d[y] == d[n] + 1
  {
    SpineDepths(role, st, d);
    HopBound(role, st, d, q);
    y := Taken(TreeProxies(st), d, |TreeProxies(st)|, d[n] + 1);
  }

  lemma Taken(s: set<Name>, d: map<Name, nat>, p: nat, k: nat) returns (y: Name)
    requires s <= d.Keys && (set x | x in s :: d[x]) == DepthsTo(p) && 1 <= k <= p
    ensures y in s && d[y] == k
  {
    DepthsToAre(p);
    var depths := set x | x in s :: d[x];
    assert k in DepthsTo(p);
    assert k in depths;
    y :| y in s && d[y] == k;
  }

  /** A graft under n keeps the proxies on one path if and only if no proxy is deeper than n. */
  lemma GraftKeepsSpine(role: Roles, st: State, next: State, d: map<Name, nat>, n: Name, x: Name, sub: Name,
                        m: set<Name>, f: nat) returns (d': map<Name, nat>)
    requires RolesOk(role, st) && Registered(role, st) && Distinct(st.edges) && TreeWith(st, d) && Spine(st, d)
    requires n in Nodes(Bfs(st, st.Root())) && role(sub) == Listener && !st.HasParentEdge(sub)
    requires GraftAt(st, next, n, x, sub, m, f)
    ensures TreeWith(next, d') && n in d
    ensures Spine(next, d') <==> forall q :: q in TreeProxies(st) && q in d ==> d[q] <= d[n]
  {
    GraftKeeps(role, st, next, d, n, x, sub, m, f);
    d' := GraftEffect(role, st, next, d, n, x, sub, m, f);
    AttachedKin(st, d);
    GraftSets(role, st, next, x, sub);
    MovedNotProxies(st, d, n, m);
    if q :| q in TreeProxies(st) && q in d && d[q] > d[n] {
      var y := NextProxy(role, st, d, n, q);
      assert d'[y] == d'[x] && y != x;
    } else {
      SpineGrown(st, next, d, d', n, x, m);
    }
  }

  // ----- a tree whose proxies are dead -----

  ghost predicate AllFull(st: State, f: nat)
    requires st.publishers != []
  {
    forall n :: n in InnerNodes(st) ==> Full(st, n, f)
  }

  /** The root of a full spine has a listener: at most one of its children is a proxy. */
  lemma RootListener(role: Roles, st: State, d: map<Name, nat>, f: nat) returns (c: Name)
    requires Sound(role, st, d, f) && Spine(st, d) && f >= 2 && AllFull(st, f)
    ensures Edge(st.Root(), c) in st.edges && c !in st.proxies
  {
    var kids := ChildSet(Elements(st.edges), st.Root());
    assert Full(st, st.Root(), f);
    var a := OneOf(kids);
    var b := OneOf(kids - {a});
    assert Edge(st.Root(), a) in st.edges && Edge(st.Root(), b) in st.edges;
    if a in st.proxies && b in st.proxies {
      OneProxyChild(role, st, d, a, b);
    }
    c := if a in st.proxies then b else a;
  }

  lemma OneProxyChild(role: Roles, st: State, d: map<Name, nat>, a: Name, b: Name)
    requires Registered(role, st) && TreeWith(st, d) && Spine(st, d)
    requires Edge(st.Root(), a) in st.edges && Edge(st.Root(), b) in st.edges && a in st.proxies && b in st.proxies
    ensures a == b
  {
    ParentsInner(role, st, d, Edge(st.Root(), a));
    ParentsInner(role, st, d, Edge(st.Root(), b));
    KinHasEdge(st, a);
    KinHasEdge(st, b);
    assert Edge(st.Root(), a).child == a && Edge(st.Root(), b).child == b;
    assert a in TreeProxies(st) && b in TreeProxies(st);
  }

  lemma OneOf(s: set<Name>) returns (x: Name)
    requires |s| >= 1
    ensures x in s && |s - {x}| == |s| - 1
  {
    x :| x in s;
  }

  /** The proxies in the tree do not answer, and a registered proxy that is not in use does. */
  ghost predicate Dead(st: State, env: Env)
    requires st.publishers != []
  {
    && TreeProxies(st) !! env.alive1 && TreeProxies(st) !! env.alive2
    && exists y :: y in st.proxies && y !in Used(st) && y in env.PickAlive(st.Root())
  }

  lemma DeadSkips(role: Roles, base: State, d: map<Name, nat>, f: nat, n: Name, sub: Name, env: Env)
    requires Sound(role, base, d, f) && AllFull(base, f) && Dead(base, env) && n in InnerNodes(base)
    ensures AttachStep(base, base, n, sub, f, env) == Skip
    ensures n != base.Root() ==> GraftStep(base, base, n, sub, f, env) == Skip
  {
    assert Full(base, n, f);
    ChildrenCount(base.edges, n);
    if n != base.Root() {
      assert n in TreeProxies(base) && n !in base.publishers;
    }
  }

  lemma RootGrafts(role: Roles, base: State, d: map<Name, nat>, f: nat, sub: Name, env: Env)
    requires Sound(role, base, d, f) && Spine(base, d) && f >= 2 && AllFull(base, f) && Dead(base, env)
    ensures GraftStep(base, base, base.Root(), sub, f, env).Offer?
  {
    var r := base.Root();
    var c := RootListener(role, base, d, f);
    ChildrenCount(base.edges, r);
    assert c in ChildrenIns(base.edges, r);
    FirstUnusedIs(base.proxies, Used(base), env.PickAlive(r), 0);
    var y :| y in base.proxies && y !in Used(base) && y in env.PickAlive(r);
    var k :| 0 <= k < |base.proxies| && base.proxies[k] == y;
  }

  /** The first offer is the graft under the root. */
  lemma {:induction false} FirstAtRoot(role: Roles, base: State, d: map<Name, nat>, f: nat, sub: Name, env: Env)
    requires Sound(role, base, d, f) && Spine(base, d) && f >= 2 && AllFull(base, f) && Dead(base, env)
    ensures GraftStep(base, base, base.Root(), sub, f, env).Offer?
    ensures var tries := Pass1(base, base, Bfs(base, base.Root()), 0, sub, f, env).tries;
      tries != [] && tries[0] == GraftStep(base, base, base.Root(), sub, f, env).st
  {
    var nodes := Bfs(base, base.Root());
    RootGrafts(role, base, d, f, sub, env);
    NoneAttaches(role, base, d, f, sub, env);
    var k := Pass1First(base, nodes, 0, sub, f, env);
    var c := Pass2First(base, Cands(base), 0, sub, f, env);
    RootIsFirst(role, base, d, f, sub, env, c);
  }

  lemma NoneAttaches(role: Roles, base: State, d: map<Name, nat>, f: nat, sub: Name, env: Env)
    requires Sound(role, base, d, f) && AllFull(base, f) && Dead(base, env)
    ensures var nodes := Bfs(base, base.Root());
      forall j :: 0 <= j < |nodes| ==> AttachStep(base, base, nodes[j].node, sub, f, env) == Skip
  {
    var nodes := Bfs(base, base.Root());
    SearchIsInner(role, base, d);
    forall j | 0 <= j < |nodes|
      ensures AttachStep(base, base, nodes[j].node, sub, f, env) == Skip
    {
      assert nodes[j] in nodes;
      DeadSkips(role, base, d, f, nodes[j].node, sub, env);
    }
  }

  /** Pass 2 passes over everything but the root. */
  lemma RootIsFirst(role: Roles, base: State, d: map<Name, nat>, f: nat, sub: Name, env: Env, c: nat)
    requires Sound(role, base, d, f) && AllFull(base, f) && Dead(base, env)
    requires GraftStep(base, base, base.Root(), sub, f, env).Offer?
    requires c <= |Cands(base)|
    requires forall j :: 0 <= j < c ==> GraftStep(base, base, Cands(base)[j].node, sub, f, env) == Skip
    requires c < |Cands(base)| ==> GraftStep(base, base, Cands(base)[c].node, sub, f, env) != Skip
    ensures c < |Cands(base)| && Cands(base)[c].node == base.Root()
  {
    var nodes, cands := Bfs(base, base.Root()), Cands(base);
    SearchIsInner(role, base, d);
    BfsExact(base, base.Root());
    SortByBag(nodes, ByDepth());
    SameBag(cands, nodes);
    assert nodes[0] in cands;
    var r :| 0 <= r < |cands| && cands[r] == nodes[0];
    assert c <= r;
    CandIn(base, c);
    DeadSkips(role, base, d, f, cands[c].node, sub, env);
  }

  /** A subscribe that finds a full tree whose proxies are dead grafts an unused proxy under the root, beside the path
      that is there: the proxies are no longer on one path. */
  lemma DeadProxiesBranch(role: Roles, st: State, d: map<Name, nat>, f: nat, sub: Name, env: Env)
    requires Sound(role, st, d, f) && Spine(st, d) && f >= 2 && AllFull(st, f) && TreeProxies(st) != {} && Dead(st, env)
    requires role(sub) == Listener && !st.HasParentEdge(sub)
    ensures Proposals(Subscribe(sub, env), st, f) != []
    ensures var next := Proposals(Subscribe(sub, env), st, f)[0];
      && Inv(role, next) && next.publishers == st.publishers
      && forall e :: TreeWith(next, e) ==> !Spine(next, e)
  {
    var base := Seeded(st, sub, env);
    SeededSound(role, st, d, f, sub, env);
    SameButTimes(st, base, d, f, env);
    FirstAtRoot(role, base, d, f, sub, env);
    HasOffer(st, sub, f, env);
    GraftsBeside(role, base, d, f, sub, env);
    SubscribeKeeps(role, st, sub, f, env);
  }

  lemma SameButTimes(st: State, base: State, d: map<Name, nat>, f: nat, env: Env)
    requires st.publishers != [] && base == st.(attachMs := base.attachMs)
    ensures Spine(st, d) ==> Spine(base, d)
    ensures AllFull(st, f) ==> AllFull(base, f)
    ensures Dead(st, env) ==> Dead(base, env)
    ensures TreeProxies(base) == TreeProxies(st)
    ensures forall s :: base.HasParentEdge(s) == st.HasParentEdge(s)
  {
    assert TreeProxies(base) == TreeProxies(st);
    assert Used(base) == Used(st);
    assert base.Root() == st.Root() && InnerNodes(base) == InnerNodes(st);
    forall n
      ensures Full(base, n, f) == Full(st, n, f)
    {
    }
  }

  lemma GraftsBeside(role: Roles, base: State, d: map<Name, nat>, f: nat, sub: Name, env: Env)
    requires Sound(role, base, d, f) && Spine(base, d) && f >= 2 && TreeProxies(base) != {}
    requires role(sub) == Listener && !base.HasParentEdge(sub)
    requires GraftStep(base, base, base.Root(), sub, f, env).Offer?
    ensures var next := GraftStep(base, base, base.Root(), sub, f, env).st;
      next.publishers == base.publishers && forall e :: TreeWith(next, e) ==> !Spine(next, e)
  {
    var r := base.Root();
    var next := GraftStep(base, base, r, sub, f, env).st;
    var x, m := GraftStepIs(base, r, sub, f, env);
    SearchIsInner(role, base, d);
    var d' := GraftKeepsSpine(role, base, next, d, r, x, sub, m, f);
    var q :| q in TreeProxies(base);
    AttachedKin(base, d);
    HopBound(role, base, d, q);
    forall e | TreeWith(next, e)
      ensures e == d'
    {
      DepthsUnique(Elements(next.edges), next.Root(), d', e);
    }
  }

  // ----- a run -----

  /** As many edges as the inner nodes can have children. */
  lemma FullByCount(role: Roles, st: State, d: map<Name, nat>, f: nat)
    requires Sound(role, st, d, f) && |st.edges| == |InnerNodes(st)| * f
    ensures AllFull(st, f)
  {
    var E, S := Elements(st.edges), InnerNodes(st);
    forall e | e in E
      ensures e.parent in S
    {
      ParentsInner(role, st, d, e);
    }
    DistinctCard(st.edges);
    forall n | n in S
      ensures Full(st, n, f)
    {
      OneFull(E, S, n, f);
    }
  }

  lemma OneFull(E: Edges, S: set<Name>, n: Name, f: nat)
    requires n in S && |E| == |S| * f && Bounded(E, f) && forall e :: e in E ==> e.parent in S
    ensures |ChildSet(E, n)| == f
  {
    OutEdges(E, n);
    forall k | k in S - {n}
      ensures |ChildSet(Without(E, n), k)| <= f
    {
      assert ChildSet(Without(E, n), k) == ChildSet(E, k);
    }
    AtMostCount(Without(E, n), S - {n}, f);
    AddTimes(|S - {n}|, f);
    assert |S| == |S - {n}| + 1;
  }

  /** Three listeners at a fanout of two: one proxy in the tree, and it and the root are full. */
  lemma ThreeListeners(role: Roles, st: State) returns (d: map<Name, nat>)
    requires Joined(role, st, 2, 3, 3)
    ensures Sound(role, st, d, 2) && Spine(st, d) && AllFull(st, 2) && |TreeProxies(st)| == 1
  {
    d := ShapedDepths(role, st, 2, 3);
    var y := DeepestListener(role, st, d, 2);
    HopBound(role, st, d, y);
    KinCount(st);
    InnerCount(st, d);
    FullByCount(role, st, d, 2);
  }

  /** The proxies in the tree are dead, all others answer. */
  ghost function OthersAnswer(st: State): Env {
    var others := Elements(st.proxies) - TreeProxies(st);
    Env(0, 0, others, others, map[0 := others], map[])
  }

  lemma OthersDead(role: Roles, st: State, d: map<Name, nat>)
    requires Joined(role, st, 2, 3, 3) && Sound(role, st, d, 2) && |TreeProxies(st)| == 1
    ensures Dead(st, OthersAnswer(st))
  {
    NamesToCard(0, 3);
    var others := Elements(st.proxies) - TreeProxies(st);
    if others == {} {
      SubsetCard(Elements(st.proxies), TreeProxies(st));
      assert false;
    }
    var y :| y in others;
    if y in Used(st) {
      UsedProxies(role, st, d, y);
      assert false;
    }
  }

  /** The fourth listener's first offer. */
  lemma FourthBranches(st: State) returns (env: Env)
    requires Joined(ManyRoles(3), st, 2, 3, 3)
    ensures var offers := Proposals(Subscribe(7, env), st, 2);
      && offers != [] && Inv(ManyRoles(3), offers[0]) && offers[0].publishers == [0]
      && forall e :: TreeWith(offers[0], e) ==> !Spine(offers[0], e)
  {
    var d := ThreeListeners(ManyRoles(3), st);
    env := OthersAnswer(st);
    OthersDead(ManyRoles(3), st, d);
    Newcomer(st, 3, 7);
    DeadProxiesBranch(ManyRoles(3), st, d, 2, 7, env);
  }

  /** From the empty key, at a fanout of two, with no swap ever refused: three listeners fill the root and one proxy;
      that proxy dies; the fourth listener starts a second branch. */
  lemma BranchRun() returns (s: Setup, tr: seq<Config>, last: State)
    ensures s.f == 2 && Run(s, tr) && Unrefused(s, tr) && NeverLate(s, tr)
    ensures last == Parse(Last(tr).cell) && Inv(s.role, last) && last.publishers == [0]
    ensures forall d :: TreeWith(last, d) ==> !Spine(last, d)
  {
    s := Setup(ManyRoles(3), 2, false, false);
    var st;
    tr, st := AllJoin(s, 3, 3);
    var env := FourthBranches(st);
    last := Proposals(Subscribe(7, env), st, 2)[0];
    tr := Alone(s, tr, Text(st, 0), Subscribe(7, env));
    UnrefusedNeverLate(s, tr);
  }
}
