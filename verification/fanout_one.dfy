/** The bound on children when the fanout may be one, as fanout() allows. */
module FanoutOne {
  import opened Basics
  import opened Tree
  import opened RoutingModel
  import opened BfsProofs
  import opened Fanout
  import opened TreeSafety
  import opened Protocol
  import opened Runs

  /** Node n may take the subscriber. */
  ghost predicate RoomUnder(st: State, n: Name, f: nat, env: Env) {
    Usable(st, n, env.alive1) && |ChildSet(Elements(st.edges), n)| < f
  }

  /** How many of the nodes from the i-th on may. */
  ghost function RoomCount(st: State, nodes: seq<At>, i: nat, f: nat, env: Env): nat
    decreases |nodes| - i
  {
    if i >= |nodes| then 0
    else (if RoomUnder(st, nodes[i].node, f, env) then 1 else 0) + RoomCount(st, nodes, i + 1, f, env)
  }

  /** How many of the nodes an attempt searches have room for the subscriber. */
  ghost function Rooms(st: State, sub: Name, f: nat, env: Env): nat {
    if st.publishers == [] then 0 else RoomCount(st, Bfs(Seeded(st, sub, env), st.Root()), 0, f, env)
  }

  lemma RoomOffers(base: State, cur: State, n: Name, sub: Name, f: nat, env: Env)
    requires cur.publishers == base.publishers && cur.proxies == base.proxies
    ensures AttachStep(base, cur, n, sub, f, env) ==
            if RoomUnder(base, n, f, env) then Offer(cur.AddEdge(n, sub)) else Skip
  {
    ChildrenCount(base.edges, n);
  }

  // ----- with a fanout of one, grafts break the bound for good -----

  /** x has two children or more and is none of the candidates still to come. */
  ghost predicate Crowded(cur: State, cands: seq<At>, i: nat, x: Name) {
    && |ChildSet(Elements(cur.edges), x)| >= 2
    && forall j :: i <= j < |cands| ==> cands[j].node != x
  }

  lemma {:induction false} StaysCrowded(base: State, cur: State, cands: seq<At>, i: nat, sub: Name, env: Env, k: nat,
                                        x: Name)
    requires Distinct(cur.edges) && DistinctNodes(cands) && cur.proxies == base.proxies && Ahead(base, cur, cands, i)
    requires Crowded(cur, cands, i, x) && k < |Pass2(base, cur, cands, i, sub, 1, env).tries|
    ensures |ChildSet(Elements(Pass2(base, cur, cands, i, sub, 1, env).tries[k].edges), x)| >= 2
    decreases |cands| - i
  {
    match GraftStep(base, cur, cands[i].node, sub, 1, env)
    case Skip =>
      StaysCrowded(base, cur, cands, i + 1, sub, env, k, x);
    case Stop =>
    case Offer(next) =>
      var later := Pass2(base, next, cands, i + 1, sub, 1, env).tries;
      assert |ChildSet(Elements(([next] + later)[k].edges), x)| >= 2 by {
        CrowdedNext(base, cur, cands, i, sub, env, x);
        if k > 0 {
          StaysCrowded(base, next, cands, i + 1, sub, env, k - 1, x);
        }
      }
  }

  lemma {:induction false} CrowdedNext(base: State, cur: State, cands: seq<At>, i: nat, sub: Name, env: Env, x: Name)
    requires Distinct(cur.edges) && DistinctNodes(cands) && cur.proxies == base.proxies && Ahead(base, cur, cands, i)
    requires Crowded(cur, cands, i, x) && i < |cands| && GraftStep(base, cur, cands[i].node, sub, 1, env).Offer?
    ensures var next := GraftStep(base, cur, cands[i].node, sub, 1, env).st;
      && Distinct(next.edges) && next.proxies == base.proxies && Ahead(base, next, cands, i + 1)
      && Crowded(next, cands, i + 1, x)
  {
    var n, next := cands[i].node, GraftStep(base, cur, cands[i].node, sub, 1, env).st;
    var y, m := GraftStepOk(base, cur, n, sub, 1, env);
    StillAhead(base, cur, next, cands, i, y, sub, m);
    GraftKids(Elements(cur.edges), Elements(next.edges), n, y, sub, m, x);
  }

  /** The new proxy gets the child that moves and the subscriber. */
  lemma {:induction false} GraftCrowds(base: State, cur: State, cands: seq<At>, i: nat, sub: Name, env: Env)
      returns (x: Name)
    requires Distinct(cur.edges) && DistinctNodes(cands) && cur.proxies == base.proxies && Ahead(base, cur, cands, i)
    requires !base.HasParentEdge(sub) && i < |cands| && GraftStep(base, cur, cands[i].node, sub, 1, env).Offer?
    ensures var next := GraftStep(base, cur, cands[i].node, sub, 1, env).st;
      && Distinct(next.edges) && next.proxies == base.proxies && Ahead(base, next, cands, i + 1)
      && Crowded(next, cands, i + 1, x)
  {
    var n, next := cands[i].node, GraftStep(base, cur, cands[i].node, sub, 1, env).st;
    var m;
    x, m := GraftStepOk(base, cur, n, sub, 1, env);
    StillAhead(base, cur, next, cands, i, x, sub, m);
    GraftKids(Elements(cur.edges), Elements(next.edges), n, x, sub, m, x);
    var c :| c in m;
    assert Edge(n, c) in base.edges && Edge(n, c).child == c;
    SubsetCard({c, sub}, ChildSet(Elements(next.edges), x));
  }

  lemma {:induction false} Pass2Breaks(base: State, cur: State, cands: seq<At>, i: nat, sub: Name, env: Env, k: nat)
      returns (x: Name)
    requires Distinct(cur.edges) && DistinctNodes(cands) && cur.proxies == base.proxies && Ahead(base, cur, cands, i)
    requires !base.HasParentEdge(sub) && k < |Pass2(base, cur, cands, i, sub, 1, env).tries|
    ensures |ChildSet(Elements(Pass2(base, cur, cands, i, sub, 1, env).tries[k].edges), x)| >= 2
    decreases |cands| - i
  {
    match GraftStep(base, cur, cands[i].node, sub, 1, env)
    case Skip =>
      x := Pass2Breaks(base, cur, cands, i + 1, sub, env, k);
    case Stop =>
      x := sub;
    case Offer(next) =>
      x := GraftCrowds(base, cur, cands, i, sub, env);
      var later := Pass2(base, next, cands, i + 1, sub, 1, env).tries;
      assert |ChildSet(Elements(([next] + later)[k].edges), x)| >= 2 by {
        if k > 0 {
          StaysCrowded(base, next, cands, i + 1, sub, env, k - 1, x);
        }
      }
  }

  // ----- every offer -----

  /** cur is the value read with edges added. */
  ghost predicate Extends(base: State, cur: State) {
    && Distinct(cur.edges) && cur.publishers == base.publishers && cur.proxies == base.proxies
    && forall e :: e in base.edges ==> e in cur.edges
  }

  lemma TailBreaks(base: State, cur: State, nodes: seq<At>, sub: Name, env: Env, k: nat) returns (x: Name)
    requires base.publishers != [] && nodes == Bfs(base, base.Root())
    requires Extends(base, cur) && !base.HasParentEdge(sub)
    requires k < |Pass2(base, cur, SortBy(nodes, ByDepth()), 0, sub, 1, env).tries|
    ensures |ChildSet(Elements(Pass2(base, cur, SortBy(nodes, ByDepth()), 0, sub, 1, env).tries[k].edges), x)| >= 2
  {
    var cands := SortBy(nodes, ByDepth());
    CandsAhead(base);
    AheadGrows(base, cur, cands);
    x := Pass2Breaks(base, cur, cands, 0, sub, env, k);
  }

  /** With a fanout of one the offers that are not of pass 1 leave a node with two children. */
  lemma {:induction false} GraftsBreak(base: State, cur: State, nodes: seq<At>, i: nat, sub: Name, env: Env, k: nat)
      returns (offer: State, x: Name)
    requires base.publishers != [] && nodes == Bfs(base, base.Root()) && !base.HasParentEdge(sub)
    requires Extends(base, cur)
    requires RoomCount(base, nodes, i, 1, env) <= k < |Pass1(base, cur, nodes, i, sub, 1, env).tries|
    ensures offer == Pass1(base, cur, nodes, i, sub, 1, env).tries[k]
    ensures |ChildSet(Elements(offer.edges), x)| >= 2
    decreases |nodes| - i
  {
    if i >= |nodes| {
      x := TailBreaks(base, cur, nodes, sub, env, k);
      offer := Pass2(base, cur, SortBy(nodes, ByDepth()), 0, sub, 1, env).tries[k];
    } else {
      RoomOffers(base, cur, nodes[i].node, sub, 1, env);
      match AttachStep(base, cur, nodes[i].node, sub, 1, env)
      case Skip =>
        offer, x := GraftsBreak(base, cur, nodes, i + 1, sub, env, k);
      case Offer(next) =>
        AttachedAt(base, cur, nodes, i, sub, 1, env, next, k);
        AddEdgeDistinct(cur, nodes[i].node, sub);
        offer, x := GraftsBreak(base, next, nodes, i + 1, sub, env, k - 1);
    }
  }

  /** Pass 1 makes one offer for each node with room. */
  lemma {:induction false} RoomsOffered(base: State, cur: State, nodes: seq<At>, i: nat, sub: Name, f: nat, env: Env)
    requires cur.publishers == base.publishers && cur.proxies == base.proxies
    ensures RoomCount(base, nodes, i, f, env) <= |Pass1(base, cur, nodes, i, sub, f, env).tries|
    decreases |nodes| - i
  {
    if i < |nodes| {
      RoomOffers(base, cur, nodes[i].node, sub, f, env);
      match AttachStep(base, cur, nodes[i].node, sub, f, env)
      case Skip =>
        RoomsOffered(base, cur, nodes, i + 1, sub, f, env);
      case Offer(next) =>
        RoomsOffered(base, next, nodes, i + 1, sub, f, env);
    }
  }

  /** What pass 1 offers at the k-th node with room. */
  ghost function RoomOffer(base: State, cur: State, nodes: seq<At>, i: nat, sub: Name, f: nat, env: Env, k: nat): State
    requires k < RoomCount(base, nodes, i, f, env)
    decreases |nodes| - i
  {
    if !RoomUnder(base, nodes[i].node, f, env) then RoomOffer(base, cur, nodes, i + 1, sub, f, env, k) else
      var next := cur.AddEdge(nodes[i].node, sub);
      if k == 0 then next else RoomOffer(base, next, nodes, i + 1, sub, f, env, k - 1)
  }

  lemma {:induction false} RoomOffersAre(base: State, cur: State, nodes: seq<At>, i: nat, sub: Name, f: nat, env: Env,
                                         k: nat)
    requires cur.publishers == base.publishers && cur.proxies == base.proxies
    requires k < RoomCount(base, nodes, i, f, env) <= |Pass1(base, cur, nodes, i, sub, f, env).tries|
    ensures Pass1(base, cur, nodes, i, sub, f, env).tries[k] == RoomOffer(base, cur, nodes, i, sub, f, env, k)
    decreases |nodes| - i
  {
    RoomOffers(base, cur, nodes[i].node, sub, f, env);
    match AttachStep(base, cur, nodes[i].node, sub, f, env)
    case Skip =>
      SkippedAt(base, cur, nodes, i, sub, f, env);
      RoomOffersAre(base, cur, nodes, i + 1, sub, f, env, k);
    case Offer(next) =>
      AttachedAt(base, cur, nodes, i, sub, f, env, next, k);
      if k > 0 {
        RoomsOffered(base, next, nodes, i + 1, sub, f, env);
        RoomOffersAre(base, next, nodes, i + 1, sub, f, env, k - 1);
      }
  }

  /** They keep the bound. */
  lemma {:induction false} RoomOfferBounded(base: State, cur: State, nodes: seq<At>, i: nat, sub: Name, f: nat,
                                            env: Env,
                                            k: nat)
    requires f >= 1 && DistinctNodes(nodes) && Attaching(base, cur, nodes, i, f)
    requires k < RoomCount(base, nodes, i, f, env)
    ensures FanoutOk(RoomOffer(base, cur, nodes, i, sub, f, env, k), f)
    decreases |nodes| - i
  {
    if !RoomUnder(base, nodes[i].node, f, env) {
      RoomOfferBounded(base, cur, nodes, i + 1, sub, f, env, k);
    } else {
      RoomOffers(base, cur, nodes[i].node, sub, f, env);
      OneAttach(base, cur, nodes, i, sub, f, env);
      if k > 0 {
        RoomOfferBounded(base, cur.AddEdge(nodes[i].node, sub), nodes, i + 1, sub, f, env, k - 1);
      }
    }
  }

  lemma {:induction false} SeededRooms(st: State, sub: Name, nodes: seq<At>, i: nat, f: nat, env: Env)
    ensures RoomCount(Seeded(st, sub, env), nodes, i, f, env) == RoomCount(st, nodes, i, f, env)
    decreases |nodes| - i
  {
    if i < |nodes| {
      SeededRooms(st, sub, nodes, i + 1, f, env);
    }
  }

  /** Of the values an attempt offers, made on a value within the bound, the k-th is within it exactly when the fanout
      is at least two or it comes from pass 1, which makes one offer for each node searched that has room. With a
      fanout of one these are the usable nodes without a child, and every offer of pass 2 breaks the bound. */
  lemma OfferBounded(st: State, sub: Name, f: nat, env: Env, k: nat)
    requires f >= 1 && FanoutOk(st, f) && k < |Proposals(Subscribe(sub, env), st, f)|
    ensures FanoutOk(Proposals(Subscribe(sub, env), st, f)[k], f) <==> f >= 2 || k < Rooms(st, sub, f, env)
  {
    var base := Seeded(st, sub, env);
    var nodes := Bfs(base, base.Root());
    SeededRooms(st, sub, nodes, 0, f, env);
    if f >= 2 || k < Rooms(st, sub, f, env) {
      OfferKept(base, nodes, sub, f, env, k);
    } else {
      OfferBroken(base, nodes, sub, env, k);
    }
  }

  lemma {:induction false} OfferKept(base: State, nodes: seq<At>, sub: Name, f: nat, env: Env, k: nat)
    requires f >= 1 && base.publishers != [] && nodes == Bfs(base, base.Root()) && FanoutOk(base, f)
    requires k < |Pass1(base, base, nodes, 0, sub, f, env).tries|
    requires f >= 2 || k < RoomCount(base, nodes, 0, f, env)
    ensures FanoutOk(Pass1(base, base, nodes, 0, sub, f, env).tries[k], f)
  {
    BfsExact(base, base.Root());
    if f >= 2 {
      Pass1Fanout(base, base, nodes, 0, sub, f, env, k);
    } else {
      RoomsOffered(base, base, nodes, 0, sub, f, env);
      RoomOffersAre(base, base, nodes, 0, sub, f, env, k);
      RoomOfferBounded(base, base, nodes, 0, sub, f, env, k);
    }
  }

  lemma {:induction false} OfferBroken(base: State, nodes: seq<At>, sub: Name, env: Env, k: nat)
    requires base.publishers != [] && nodes == Bfs(base, base.Root())
    requires Distinct(base.edges) && !base.HasParentEdge(sub)
    requires RoomCount(base, nodes, 0, 1, env) <= k < |Pass1(base, base, nodes, 0, sub, 1, env).tries|
    ensures !FanoutOk(Pass1(base, base, nodes, 0, sub, 1, env).tries[k], 1)
  {
    var offer, x := GraftsBreak(base, base, nodes, 0, sub, env, k);
  }

  // ----- whole runs -----

  /** The step is an accepted swap to an offer of pass 2. */
  ghost predicate SwapsGraft(s: Setup, c: Config, i: nat, m: Move) {
    && m.Exec? && i < |c.procs| && c.procs[i].Ready? && !c.procs[i].dirty
    && var p := c.procs[i];
      p.op.Subscribe? && p.k >= Rooms(Parse(p.was), p.op.node, s.f, p.op.env)
  }

  ghost predicate GraftSwap(s: Setup, c: Config, n: Config) {
    exists i, m :: TakesStep(s, c, n, i, m) && SwapsGraft(s, c, i, m)
  }

  ghost predicate GraftSwapTo(s: Setup, tr: seq<Config>, t: nat) {
    0 < t < |tr| && GraftSwap(s, tr[t - 1], tr[t])
  }

  ghost predicate NeverGrafts(s: Setup, tr: seq<Config>) {
    forall t: nat :: !GraftSwapTo(s, tr, t)
  }

  ghost predicate AlwaysBounded(s: Setup, tr: seq<Config>) {
    forall t :: 0 <= t < |tr| ==> FanoutOk(Parse(tr[t].cell), s.f)
  }

  lemma StepBounded(s: Setup, c: Config, n: Config, i: nat, m: Move)
    requires s.f >= 1 && ConfigOk(s, c) && TakesStep(s, c, n, i, m) && FanoutOk(Parse(c.cell), s.f)
    ensures FanoutOk(Parse(n.cell), s.f) <==> s.f >= 2 || !SwapsGraft(s, c, i, m)
  {
    if m.Exec? && c.procs[i].Ready? && !c.procs[i].dirty {
      var p := c.procs[i];
      assert PcOk(s, c.cell, p);
      match p.op
      case Subscribe(sub, env) =>
        OfferBounded(Parse(c.cell), sub, s.f, env, p.k);
      case _ =>
        OthersKept(p.op, Parse(c.cell), s.f, p.k);
    }
  }

  lemma {:induction false} BoundedAt(s: Setup, tr: seq<Config>, t: nat)
    requires s.f >= 1 && Run(s, tr) && t < |tr| && (s.f >= 2 || NeverGrafts(s, tr))
    ensures FanoutOk(Parse(tr[t].cell), s.f)
  {
    if t == 0 {
      EmptyInv(s.role, s.f);
    } else {
      BoundedAt(s, tr, t - 1);
      RunOk(s, tr, t - 1);
      assert StepTo(s, tr, t);
      var i, m :| TakesStep(s, tr[t - 1], tr[t], i, m);
      assert NeverGrafts(s, tr) ==> !GraftSwapTo(s, tr, t);
      StepBounded(s, tr[t - 1], tr[t], i, m);
    }
  }

  lemma BoundedNoGraft(s: Setup, c: Config, n: Config)
    requires s.f == 1 && ConfigOk(s, c) && FanoutOk(Parse(c.cell), s.f) && FanoutOk(Parse(n.cell), s.f)
    ensures !GraftSwap(s, c, n)
  {
    forall i: nat, m | TakesStep(s, c, n, i, m)
      ensures !SwapsGraft(s, c, i, m)
    {
      StepBounded(s, c, n, i, m);
    }
  }

  /** Over any run, also of the loops as written: no parent ever has more than f children exactly when f is at least
      two or no graft is ever accepted. */
  lemma BoundIffNeverGrafts(s: Setup, tr: seq<Config>)
    requires s.f >= 1 && Run(s, tr)
    ensures AlwaysBounded(s, tr) <==> s.f >= 2 || NeverGrafts(s, tr)
  {
    if s.f >= 2 || NeverGrafts(s, tr) {
      forall t | 0 <= t < |tr|
        ensures FanoutOk(Parse(tr[t].cell), s.f)
      {
        BoundedAt(s, tr, t);
      }
    }
    if AlwaysBounded(s, tr) && s.f == 1 {
      forall t: nat
        ensures !GraftSwapTo(s, tr, t)
      {
        BoundedStep(s, tr, t);
      }
    }
  }

  lemma BoundedStep(s: Setup, tr: seq<Config>, t: nat)
    requires s.f == 1 && Run(s, tr) && AlwaysBounded(s, tr)
    ensures !GraftSwapTo(s, tr, t)
  {
    if 0 < t < |tr| {
      RunOk(s, tr, t - 1);
      BoundedNoGraft(s, tr[t - 1], tr[t]);
    }
  }

  // ----- a run with a fanout of one -----

  const ROOT: Name := 1
  const PROXY: Name := 2
  const FIRST: Name := 10
  const SECOND: Name := 11

  function OneRole(n: Name): Role {
    if n == ROOT then Publisher else if n == PROXY then Proxy else Listener
  }

  const ANSWERING := Env(0, 0, {PROXY}, {PROXY}, map[ROOT := {PROXY}], map[])

  /** The root, a proxy that is not used, and what hangs under the root. */
  function Small(edges: seq<Edge>, attach: map<Name, int>): State {
    State([ROOT], [PROXY], edges, attach)
  }

  lemma SearchesRoot(st: State)
    requires st.publishers == [ROOT] && st.proxies == [PROXY] && (st.edges == [] || st.edges == [Edge(ROOT, FIRST)])
    ensures Bfs(st, ROOT) == [At(ROOT, 0)]
  {
    var r := Bfs(st, ROOT);
    BfsExact(st, ROOT);
    forall n | n in Nodes(r)
      ensures n == ROOT
    {
      var p :| PathFromTo(Inner(st), p, ROOT, n);
      ClosedContains(Inner(st), {ROOT}, p);
    }
    if |r| > 1 {
      NodeIn(r, 1);
      DistinctNodesAt(r, 0, 1);
    }
  }

  /** The first listener attaches to the root. */
  lemma FirstJoins() returns (next: State)
    ensures Proposals(Subscribe(FIRST, ANSWERING), Small([], map[]), 1) != []
    ensures next == Proposals(Subscribe(FIRST, ANSWERING), Small([], map[]), 1)[0]
    ensures next == Small([Edge(ROOT, FIRST)], next.attachMs)
  {
    var st := Small([], map[]);
    var base := Seeded(st, FIRST, ANSWERING);
    SearchesRoot(base);
    assert ChildSet(Elements(st.edges), ROOT) == {};
    RoomOffers(base, base, ROOT, FIRST, 1, ANSWERING);
    var k := Pass1First(base, [At(ROOT, 0)], 0, FIRST, 1, ANSWERING);
    next := base.AddEdge(ROOT, FIRST);
  }

  /** The second finds no room, and the graft under the root gives the proxy two children. */
  lemma SecondBreaks(st: State) returns (next: State)
    requires st == Small([Edge(ROOT, FIRST)], st.attachMs)
    ensures Proposals(Subscribe(SECOND, ANSWERING), st, 1) != []
    ensures next == Proposals(Subscribe(SECOND, ANSWERING), st, 1)[0]
    ensures ChildSet(Elements(next.edges), PROXY) == {FIRST, SECOND}
  {
    var base := Seeded(st, SECOND, ANSWERING);
    SecondOffers(st);
    TwoUnderProxy(base);
    next := GraftStep(base, base, ROOT, SECOND, 1, ANSWERING).st;
  }

  lemma SecondOffers(st: State)
    requires st == Small([Edge(ROOT, FIRST)], st.attachMs)
    ensures var base, tries := Seeded(st, SECOND, ANSWERING), Proposals(Subscribe(SECOND, ANSWERING), st, 1);
      && GraftStep(base, base, ROOT, SECOND, 1, ANSWERING).Offer?
      && tries != [] && tries[0] == GraftStep(base, base, ROOT, SECOND, 1, ANSWERING).st
  {
    var base := Seeded(st, SECOND, ANSWERING);
    var tries := Pass2(base, base, Cands(base), 0, SECOND, 1, ANSWERING).tries;
    assert Proposals(Subscribe(SECOND, ANSWERING), st, 1) == tries by {
      SearchesRoot(base);
      RootPassed(st);
      assert !st.HasParentEdge(SECOND);
    }
    SearchesRoot(base);
    GraftOffered(base);
  }

  lemma TwoUnderProxy(base: State)
    requires base.publishers == [ROOT] && base.proxies == [PROXY] && base.edges == [Edge(ROOT, FIRST)]
    ensures GraftStep(base, base, ROOT, SECOND, 1, ANSWERING).Offer?
    ensures var next := GraftStep(base, base, ROOT, SECOND, 1, ANSWERING).st;
      ChildSet(Elements(next.edges), PROXY) == {FIRST, SECOND}
  {
    RootGrafts(base);
    OneEdge(base);
    var x, m := GraftStepOk(base, base, ROOT, SECOND, 1, ANSWERING);
    var c :| c in m;
    assert m == {FIRST} && x == PROXY;
    var next := GraftStep(base, base, ROOT, SECOND, 1, ANSWERING).st;
    GraftKids(Elements(base.edges), Elements(next.edges), ROOT, x, SECOND, m, PROXY);
  }

  lemma RootPassed(st: State)
    requires st == Small([Edge(ROOT, FIRST)], st.attachMs)
    ensures var base := Seeded(st, SECOND, ANSWERING);
      Pass1(base, base, [At(ROOT, 0)], 0, SECOND, 1, ANSWERING) ==
      Pass2(base, base, SortBy([At(ROOT, 0)], ByDepth()), 0, SECOND, 1, ANSWERING)
  {
    OneEdge(st);
    var base := Seeded(st, SECOND, ANSWERING);
    RoomOffers(base, base, ROOT, SECOND, 1, ANSWERING);
    var _ := Pass1First(base, [At(ROOT, 0)], 0, SECOND, 1, ANSWERING);
  }

  lemma OneEdge(st: State)
    requires st.edges == [Edge(ROOT, FIRST)]
    ensures ChildSet(Elements(st.edges), ROOT) == {FIRST} && FanoutOk(st, 1)
  {
    assert Elements(st.edges) == {Edge(ROOT, FIRST)};
    assert st.edges[..0] == [];
    forall p
      ensures |ChildSet(Elements(st.edges), p)| <= 1
    {
      SubsetCard(ChildSet(Elements(st.edges), p), {FIRST});
    }
  }

  lemma {:induction false} OneChild(edges: seq<Edge>)
    requires edges == [Edge(ROOT, FIRST)]
    ensures ChildrenIns(edges, ROOT) == [FIRST] && Ends(edges) == {ROOT, FIRST}
  {
    assert edges[..0] == [];
    assert KidSeq(edges, ROOT) == KidSeq([], ROOT) + [FIRST] == [FIRST];
    assert Dedup([FIRST]) == Dedup([]) + [FIRST] == [FIRST];
    assert Ends(edges) == Ends([]) + {ROOT, FIRST};
  }

  lemma {:induction false} GraftOffered(base: State)
    requires base.publishers == [ROOT] && base.proxies == [PROXY] && base.edges == [Edge(ROOT, FIRST)]
    requires Bfs(base, ROOT) == [At(ROOT, 0)]
    ensures var tries, step := Pass2(base, base, Cands(base), 0, SECOND, 1, ANSWERING).tries,
                               GraftStep(base, base, ROOT, SECOND, 1, ANSWERING);
      step.Offer? && tries != [] && tries[0] == step.st
  {
    RootGrafts(base);
    assert SortBy([At(ROOT, 0)], ByDepth()) == [At(ROOT, 0)];
    Pass2Offers(base, base, Cands(base), 0, SECOND, 1, ANSWERING, GraftStep(base, base, ROOT, SECOND, 1, ANSWERING).st);
  }

  lemma RootGrafts(base: State)
    requires base.publishers == [ROOT] && base.proxies == [PROXY] && base.edges == [Edge(ROOT, FIRST)]
    ensures GraftStep(base, base, ROOT, SECOND, 1, ANSWERING).Offer?
  {
    OneChild(base.edges);
    assert FIRST !in base.proxies;
    assert PROXY !in Used(base) && PickUnused(base, {PROXY}) == Some(PROXY);
  }

  function OneSetup(): Setup {
    Setup(OneRole, 1, true, false)
  }

  lemma TwoRegister() returns (tr: seq<Config>)
    ensures Run(OneSetup(), tr) && Unrefused(OneSetup(), tr) && AtRest(Last(tr), Small([], map[]))
  {
    var rooted := State([ROOT], [], [], map[]);
    assert AddName([], ROOT) == [ROOT] && AddName([], PROXY) == [PROXY];
    tr := Alone(OneSetup(), [Config(Absent, [Idle, Idle])], Absent, RegisterPublisher(ROOT));
    tr := Alone(OneSetup(), tr, Text(rooted, 0), RegisterProxy(PROXY));
  }

  lemma ListenerJoins(tr: seq<Config>, st: State, n: Name) returns (more: seq<Config>)
    requires Run(OneSetup(), tr) && Unrefused(OneSetup(), tr) && AtRest(Last(tr), st) && OneRole(n) == Listener
    requires Proposals(Subscribe(n, ANSWERING), st, 1) != []
    ensures Run(OneSetup(), more) && Unrefused(OneSetup(), more)
    ensures AtRest(Last(more), Proposals(Subscribe(n, ANSWERING), st, 1)[0])
  {
    more := Alone(OneSetup(), tr, Text(st, 0), Subscribe(n, ANSWERING));
  }

  /** From the empty key, with a fanout of one, a proxy that answers and no swap ever refused, two subscribers are
      enough for a parent with two children. */
  lemma FanoutOneRun() returns (tr: seq<Config>)
    ensures Run(OneSetup(), tr) && Unrefused(OneSetup(), tr) && NeverLate(OneSetup(), tr) && OneSetup().f == 1
    ensures ChildSet(Elements(Parse(Last(tr).cell).edges), PROXY) == {FIRST, SECOND}
  {
    tr := TwoRegister();
    var first := FirstJoins();
    tr := ListenerJoins(tr, Small([], map[]), FIRST);
    var last := SecondBreaks(first);
    tr := ListenerJoins(tr, first, SECOND);
    UnrefusedNeverLate(OneSetup(), tr);
  }
}
