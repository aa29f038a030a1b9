/** What becomes of a subscriber when an attempt goes on, after a refused swap, with the value it had read and changed,
    as the loops of subscribe are written: every further offer gives the subscriber one more parent. */
module Retry {
  import opened Basics
  import opened Tree
  import opened RoutingModel
  import opened BfsProofs
  import opened Fanout
  import opened TreeSafety
  import opened Growth
  import opened Protocol
  import opened Runs

  ghost function ParentsOf(st: State, c: Name): (r: set<Name>)
    ensures forall p :: p in r <==> Edge(p, c) in st.edges
  {
    set e | e in st.edges && e.child == c :: e.parent
  }

  // ----- one more parent per offer -----

  lemma AttachParents(cur: State, n: Name, sub: Name)
    requires n !in ParentsOf(cur, sub)
    ensures ParentsOf(cur.AddEdge(n, sub), sub) == ParentsOf(cur, sub) + {n}
    ensures |ParentsOf(cur.AddEdge(n, sub), sub)| == |ParentsOf(cur, sub)| + 1
  {
  }

  lemma GraftParents(cur: State, next: State, n: Name, x: Name, sub: Name, m: set<Name>)
    requires Grafted(Elements(cur.edges), Elements(next.edges), n, x, sub, m)
    requires x !in Used(cur) && x != sub && sub !in m
    ensures |ParentsOf(next, sub)| == |ParentsOf(cur, sub)| + 1
  {
    NotParent(cur, x, sub);
    forall p
      ensures Edge(p, sub) in next.edges <==> Edge(p, sub) in cur.edges || p == x
    {
      GraftedParent(cur, next, n, x, sub, m, p);
    }
    assert ParentsOf(next, sub) == ParentsOf(cur, sub) + {x};
  }

  lemma NotParent(cur: State, x: Name, sub: Name)
    requires x !in Used(cur)
    ensures Edge(x, sub) !in cur.edges
  {
    UnusedHasNone(cur, x);
    assert Edge(x, sub) in cur.edges ==> Edge(x, sub).parent != x;
  }

  lemma GraftedParent(cur: State, next: State, n: Name, x: Name, sub: Name, m: set<Name>, p: Name)
    requires Grafted(Elements(cur.edges), Elements(next.edges), n, x, sub, m)
    requires x != sub && sub !in m
    ensures Edge(p, sub) in next.edges <==> Edge(p, sub) in cur.edges || p == x
  {
    var e := Edge(p, sub);
    assert e in next.edges <==> e in Elements(next.edges);
    assert e in cur.edges <==> e in Elements(cur.edges);
  }

  lemma {:induction false} Pass2Parents(base: State, cur: State, cands: seq<At>, i: nat, sub: Name, f: nat, env: Env,
                                        k: nat)
    requires f >= 1 && Distinct(cur.edges) && DistinctNodes(cands) && Ahead(base, cur, cands, i)
    requires cur.proxies == base.proxies && sub !in base.proxies && !base.HasParentEdge(sub)
    requires k < |Pass2(base, cur, cands, i, sub, f, env).tries|
    ensures |ParentsOf(Pass2(base, cur, cands, i, sub, f, env).tries[k], sub)| == |ParentsOf(cur, sub)| + k + 1
    decreases |cands| - i
  {
    match GraftStep(base, cur, cands[i].node, sub, f, env)
    case Skip =>
      Pass2Parents(base, cur, cands, i + 1, sub, f, env, k);
    case Stop =>
    case Offer(next) =>
      OfferParents(base, cur, cands, i, sub, f, env);
      if k > 0 {
        Pass2Parents(base, next, cands, i + 1, sub, f, env, k - 1);
      }
  }

  lemma {:induction false} OfferParents(base: State, cur: State, cands: seq<At>, i: nat, sub: Name, f: nat, env: Env)
    requires f >= 1 && Distinct(cur.edges) && i < |cands| && DistinctNodes(cands) && Ahead(base, cur, cands, i)
    requires cur.proxies == base.proxies && sub !in base.proxies && !base.HasParentEdge(sub)
    requires GraftStep(base, cur, cands[i].node, sub, f, env).Offer?
    ensures var next := GraftStep(base, cur, cands[i].node, sub, f, env).st;
      && Distinct(next.edges) && next.proxies == base.proxies && Ahead(base, next, cands, i + 1)
      && |ParentsOf(next, sub)| == |ParentsOf(cur, sub)| + 1
  {
    var n, next := cands[i].node, GraftStep(base, cur, cands[i].node, sub, f, env).st;
    var x, m := GraftStepOk(base, cur, n, sub, f, env);
    assert sub !in m by {
      assert Edge(n, sub) in base.edges ==> Edge(n, sub).child == sub;
    }
    GraftParents(cur, next, n, x, sub, m);
    StillAhead(base, cur, next, cands, i, x, sub, m);
  }

  /** Nodes still to come in pass 1 are not parents of the subscriber yet. */
  ghost predicate NotYet(cur: State, nodes: seq<At>, i: nat, sub: Name) {
    forall j :: i <= j < |nodes| ==> nodes[j].node !in ParentsOf(cur, sub)
  }

  lemma {:induction false} NotYetNext(cur: State, nodes: seq<At>, i: nat, sub: Name)
    requires i < |nodes| && DistinctNodes(nodes) && NotYet(cur, nodes, i, sub)
    ensures NotYet(cur.AddEdge(nodes[i].node, sub), nodes, i + 1, sub)
  {
    forall j | i + 1 <= j < |nodes|
      ensures nodes[j].node !in ParentsOf(cur.AddEdge(nodes[i].node, sub), sub)
    {
      DistinctNodesAt(nodes, i, j);
    }
  }

  lemma {:induction false} AttachOffer(cur: State, nodes: seq<At>, i: nat, sub: Name)
    requires i < |nodes| && DistinctNodes(nodes) && NotYet(cur, nodes, i, sub) && Distinct(cur.edges)
    ensures var next := cur.AddEdge(nodes[i].node, sub);
      && Distinct(next.edges) && NotYet(next, nodes, i + 1, sub)
      && |ParentsOf(next, sub)| == |ParentsOf(cur, sub)| + 1
  {
    AddEdgeDistinct(cur, nodes[i].node, sub);
    AttachParents(cur, nodes[i].node, sub);
    NotYetNext(cur, nodes, i, sub);
  }

  lemma {:induction false} TailParents(base: State, cur: State, nodes: seq<At>, sub: Name, f: nat, env: Env, k: nat)
    requires f >= 1 && Distinct(cur.edges) && base.publishers != [] && nodes == Bfs(base, base.Root())
    requires cur.publishers == base.publishers && cur.proxies == base.proxies
    requires forall e :: e in base.edges ==> e in cur.edges
    requires sub !in base.proxies && !base.HasParentEdge(sub)
    requires k < |Pass2(base, cur, SortBy(nodes, ByDepth()), 0, sub, f, env).tries|
    ensures |ParentsOf(Pass2(base, cur, SortBy(nodes, ByDepth()), 0, sub, f, env).tries[k], sub)| ==
            |ParentsOf(cur, sub)| + k + 1
  {
    CandsAhead(base);
    AheadGrows(base, cur, SortBy(nodes, ByDepth()));
    Pass2Parents(base, cur, SortBy(nodes, ByDepth()), 0, sub, f, env, k);
  }

  lemma {:induction false} Pass1Parents(base: State, cur: State, nodes: seq<At>, i: nat, sub: Name, f: nat, env: Env,
                                        k: nat)
    requires f >= 1 && Distinct(cur.edges) && DistinctNodes(nodes) && NotYet(cur, nodes, i, sub)
    requires base.publishers != [] && nodes == Bfs(base, base.Root())
    requires cur.publishers == base.publishers && cur.proxies == base.proxies
    requires forall e :: e in base.edges ==> e in cur.edges
    requires sub !in base.proxies && !base.HasParentEdge(sub)
    requires k < |Pass1(base, cur, nodes, i, sub, f, env).tries|
    ensures |ParentsOf(Pass1(base, cur, nodes, i, sub, f, env).tries[k], sub)| == |ParentsOf(cur, sub)| + k + 1
    decreases |nodes| - i
  {
    if i >= |nodes| {
      TailParents(base, cur, nodes, sub, f, env, k);
    } else {
      match AttachStep(base, cur, nodes[i].node, sub, f, env)
      case Skip =>
        Pass1Parents(base, cur, nodes, i + 1, sub, f, env, k);
      case Offer(next) =>
        OfferedAt(next, Pass1(base, next, nodes, i + 1, sub, f, env), k);
        AttachOffer(cur, nodes, i, sub);
        if k > 0 {
          Pass1Parents(base, next, nodes, i + 1, sub, f, env, k - 1);
        }
    }
  }

  /** The offer made after k refusals puts the subscriber under k + 1 parents. */
  lemma ParentsPerOffer(st: State, sub: Name, f: nat, env: Env, k: nat)
    requires f >= 1 && Distinct(st.edges) && sub !in st.proxies
    requires k < |Proposals(Subscribe(sub, env), st, f)|
    ensures |ParentsOf(Proposals(Subscribe(sub, env), st, f)[k], sub)| == k + 1
  {
    var base := Seeded(st, sub, env);
    CandsAhead(base);
    assert !base.HasParentEdge(sub);
    forall p
      ensures p !in ParentsOf(base, sub)
    {
      assert Edge(p, sub).child == sub;
    }
    assert ParentsOf(base, sub) == {};
    Pass1Parents(base, base, Bfs(base, base.Root()), 0, sub, f, env, k);
  }

  /** So an attempt that keeps going leaves a tree exactly when its first swap is the one that is accepted. */
  lemma TreeIffFirstAccepted(role: Roles, st: State, sub: Name, f: nat, env: Env, k: nat)
    requires f >= 1 && Inv(role, st) && role(sub) == Listener
    requires k < |Proposals(Subscribe(sub, env), st, f)|
    ensures Inv(role, Proposals(Subscribe(sub, env), st, f)[k]) <==> k == 0
  {
    if k == 0 {
      SubscribeKeeps(role, st, sub, f, env);
    } else {
      var next := Proposals(Subscribe(sub, env), st, f)[k];
      ParentsPerOffer(st, sub, f, env, k);
      TwoParentsNoTree(role, next, sub);
    }
  }

  lemma InvSingleParent(role: Roles, st: State)
    ensures Inv(role, st) ==> SingleParent(Elements(st.edges))
  {
    if Inv(role, st) && st.publishers != [] {
      var d :| TreeWith(st, d);
    }
  }

  lemma TwoParentsNoTree(role: Roles, st: State, c: Name)
    requires |ParentsOf(st, c)| >= 2
    ensures !Inv(role, st)
  {
    var p :| p in ParentsOf(st, c);
    assert |ParentsOf(st, c) - {p}| >= 1;
    var q :| q in ParentsOf(st, c) - {p};
    var e, g := Edge(p, c), Edge(q, c);
    assert e in Elements(st.edges) && g in Elements(st.edges) && e != g && e.child == g.child;
    InvSingleParent(role, st);
  }

  // ----- whole runs of the loops as written -----

  lemma LateBreaksTree(s: Setup, c: Config, n: Config, i: nat, m: Move)
    requires s.f >= 1 && ConfigOk(s, c) && AllInv(s, c) && TakesStep(s, c, n, i, m) && SwapsLate(c, i, m)
    ensures !Inv(s.role, Parse(n.cell))
  {
    var p := c.procs[i];
    assert PcOk(s, c.cell, p) && Inv(s.role, Parse(p.seen));
    match p.op
    case Subscribe(sub, env) =>
      if s.role(sub) == Proxy {
        NoRejoin(s.role, Parse(p.seen), sub);
      }
      TreeIffFirstAccepted(s.role, Parse(c.cell), sub, s.f, env, p.k);
    case _ =>
  }

  lemma TreeNotLate(s: Setup, c: Config, n: Config)
    requires s.f >= 1 && ConfigOk(s, c) && AllInv(s, c) && Inv(s.role, Parse(n.cell))
    ensures !LateSwap(s, c, n)
  {
    if i, m :| TakesStep(s, c, n, i, m) && SwapsLate(c, i, m) {
      LateBreaksTree(s, c, n, i, m);
      assert false;
    }
  }

  /** Over any run, also of the loops as written: the stored edges are a tree at every moment exactly when no accepted
      swap came after a refused one of the same attempt. */
  lemma TreeIffNeverLate(s: Setup, tr: seq<Config>)
    requires s.f >= 1 && Run(s, tr)
    ensures AlwaysTree(s, tr) <==> NeverLate(s, tr)
  {
    if NeverLate(s, tr) {
      forall t | 0 <= t < |tr|
        ensures Inv(s.role, Parse(tr[t].cell))
      {
        AllInvAt(s, tr, t);
      }
    }
    if AlwaysTree(s, tr) {
      forall t: nat | 0 < t < |tr|
        ensures !LateSwap(s, tr[t - 1], tr[t])
      {
        AllInvAt(s, tr, t - 1);
        RunOk(s, tr, t - 1);
        TreeNotLate(s, tr[t - 1], tr[t]);
      }
    }
  }

  // ----- a run that does it -----

  const R: Name := 1
  const P: Name := 2
  const THREE: nat := 3

  function FixedRole(n: Name): Role {
    if n == R then Publisher else if n == P then Proxy else Listener
  }

  function AsWritten(): Setup {
    Setup(FixedRole, THREE, false, true)
  }

  /** Both inner nodes answer every heartbeat check. */
  const ALL_ALIVE := Env(0, 0, {P}, {P}, map[R := {P}, P := {P}], map[])

  /** A second process writes the same text between the first one's WATCH and EXEC: the first is refused, goes on with
      the value it read, and its second offer is accepted. */
  lemma RefusedOnce(s: Setup, tr: seq<Config>, st: State, op: Op, same: Op) returns (more: seq<Config>)
    requires Run(s, tr) && AtRest(Last(tr), st) && !s.rereads
    requires Allowed(s.role, op, st) && HealthyOp(s, op, st) && |Proposals(op, st, s.f)| >= 2
    requires Allowed(s.role, same, st) && HealthyOp(s, same, st) && Proposals(same, st, s.f) == [st]
    requires Prints(same, st, 0)
    ensures Run(s, more) && AtRest(Last(more), Proposals(op, st, s.f)[1])
  {
    var x := Text(st, 0);
    var first := UpToCompare(s, tr, x, op);
    var half := OtherWrites(s, first, st, Ready(op, x, x, 0, false), same);
    more := SecondSwap(s, half, st, op);
  }

  lemma SecondSwap(s: Setup, tr: seq<Config>, st: State, op: Op) returns (more: seq<Config>)
    requires Run(s, tr) && !s.rereads && |Proposals(op, st, s.f)| >= 2
    requires Last(tr) == Config(Text(st, 0), [Ready(op, Text(st, 0), Text(st, 0), 0, true), Idle])
    ensures Run(s, more) && AtRest(Last(more), Proposals(op, st, s.f)[1])
  {
    var x := Text(st, 0);
    more := Then(s, tr, Config(x, [Loaded(op, x, x, 1), Idle]), 0, Exec(0));
    more := Then(s, more, Config(x, [Watching(op, x, x, 1, false), Idle]), 0, Watch);
    more := Then(s, more, Config(x, [Ready(op, x, x, 1, false), Idle]), 0, Compare);
    more := Then(s, more, Config(Text(Proposals(op, st, s.f)[1], 0), [Idle, Idle]), 0, Exec(0));
  }

  lemma OtherWrites(s: Setup, tr: seq<Config>, st: State, p: Pc, same: Op) returns (more: seq<Config>)
    requires Run(s, tr) && Last(tr) == Config(Text(st, 0), [p, Idle])
    requires Allowed(s.role, same, st) && HealthyOp(s, same, st) && Proposals(same, st, s.f) == [st]
    requires Prints(same, st, 0)
    ensures Run(s, more) && Last(more) == Config(Text(st, 0), [p.Dirtied(), Idle])
  {
    var x := Text(st, 0);
    more := Then(s, tr, Config(x, [p, Wants(same, x)]), 1, Decide(same));
    more := Then(s, more, Config(x, [p, Loaded(same, x, x, 0)]), 1, Load(false, same));
    more := Then(s, more, Config(x, [p, Watching(same, x, x, 0, false)]), 1, Watch);
    more := Then(s, more, Config(x, [p, Ready(same, x, x, 0, false)]), 1, Compare);
    more := Then(s, more, Config(x, [p.Dirtied(), Idle]), 1, Exec(0));
  }

  // ----- building a tree whose two inner nodes have room -----

  /** The root holds the listeners of a and, if b is not empty, the proxy, which holds b. */
  ghost predicate TwoLevels(st: State, a: set<Name>, b: set<Name>) {
    && st.publishers == [R] && st.proxies == [P]
    && Inv(FixedRole, st) && FanoutOk(st, THREE)
    && R !in a && P !in a && R !in b && P !in b
    && forall e :: e in st.edges <==>
         (e.parent == R && (e.child in a || (b != {} && e.child == P))) || (e.parent == P && e.child in b)
  }

  lemma LevelSizes(st: State, a: set<Name>, b: set<Name>)
    requires TwoLevels(st, a, b)
    ensures ChildSet(Elements(st.edges), R) == if b == {} then a else a + {P}
    ensures ChildSet(Elements(st.edges), P) == b
    ensures InnerNodes(st) == if b == {} then {R} else {R, P}
    ensures Healthy(st, ALL_ALIVE)
    ensures forall n :: n != R && n != P && n !in a && n !in b ==> !st.HasParentEdge(n)
  {
    var E := Elements(st.edges);
    forall p, c
      ensures Edge(p, c) in E <==> (p == R && (c in a || (b != {} && c == P))) || (p == P && c in b)
    {
      assert Edge(p, c).parent == p && Edge(p, c).child == c;
    }
    assert ChildSet(E, R) == if b == {} then a else a + {P};
    assert ChildSet(E, P) == b;
    KinHasEdge(st, P);
    assert b != {} ==> Edge(R, P) in st.edges && Edge(R, P).child == P;
    assert TreeProxies(st) <= {P};
    assert b == {} ==> !st.HasParentEdge(P);
    assert InnerNodes(st) == if b == {} then {R} else {R, P};
  }

  lemma LandsAtRoot(st: State, d: map<Name, nat>, n: Name, l: Landing)
    requires st.publishers == [R] && InnerNodes(st) == {R} && !Full(st, R, THREE) && TreeWith(st, d)
    requires Lands(st, d, n, THREE, ALL_ALIVE, l)
    ensures var scan := SubscribeScan(st, n, THREE, ALL_ALIVE);
      scan.tries != [] && scan.tries[0] == Seeded(st, n, ALL_ALIVE).AddEdge(R, n)
  {
    assert R in InnerNodes(st);
  }

  lemma LandsUnderProxy(st: State, d: map<Name, nat>, n: Name, l: Landing)
    requires st.publishers == [R] && InnerNodes(st) == {R} && Full(st, R, THREE) && TreeWith(st, d)
    requires P in st.proxies && P !in Used(st)
    requires Lands(st, d, n, THREE, ALL_ALIVE, l)
    ensures l.Grafts?
    ensures var scan := SubscribeScan(st, n, THREE, ALL_ALIVE);
      scan.tries != [] && GraftAt(Seeded(st, n, ALL_ALIVE), scan.tries[0], R, l.proxy, n, l.moved, THREE)
  {
    assert P in ALL_ALIVE.PickAlive(R);
    assert l.under in InnerNodes(st);
  }

  lemma LandsSomewhere(st: State, a: set<Name>, n: Name) returns (d: map<Name, nat>, l: Landing)
    requires TwoLevels(st, a, {}) && n != R && n != P && n !in a
    ensures TreeWith(st, d) && Lands(st, d, n, THREE, ALL_ALIVE, l) && InnerNodes(st) == {R}
    ensures ChildSet(Elements(st.edges), R) == a && !st.HasParentEdge(n)
  {
    LevelSizes(st, a, {});
    d :| TreeWith(st, d);
    assert Sound(FixedRole, st, d, THREE);
    l := SubscribeLands(FixedRole, st, d, n, THREE, ALL_ALIVE);
  }

  /** A listener joins a root that has room. */
  lemma JoinsRoot(st: State, a: set<Name>, n: Name) returns (next: State)
    requires TwoLevels(st, a, {}) && |a| < THREE && n != R && n != P && n !in a
    ensures Proposals(Subscribe(n, ALL_ALIVE), st, THREE) != []
    ensures next == Proposals(Subscribe(n, ALL_ALIVE), st, THREE)[0]
    ensures TwoLevels(next, a + {n}, {})
  {
    var d, l := LandsSomewhere(st, a, n);
    LandsAtRoot(st, d, n, l);
    next := SubscribeScan(st, n, THREE, ALL_ALIVE).tries[0];
    SubscribeKeeps(FixedRole, st, n, THREE, ALL_ALIVE);
    FanoutKept(Subscribe(n, ALL_ALIVE), st, THREE, 0);
    RootGrown(st, next, a, n);
  }

  lemma RootGrown(st: State, next: State, a: set<Name>, n: Name)
    requires TwoLevels(st, a, {}) && n != R && n != P
    requires next == Seeded(st, n, ALL_ALIVE).AddEdge(R, n) && Inv(FixedRole, next) && FanoutOk(next, THREE)
    ensures TwoLevels(next, a + {n}, {})
  {
    forall e: Edge
      ensures e == Edge(R, n) <==> e.parent == R && e.child == n
    {
    }
  }

  /** A listener joins a full root: the proxy is grafted and two listeners move under it. */
  lemma GraftsProxy(st: State, a: set<Name>, n: Name) returns (next: State, m: set<Name>)
    requires TwoLevels(st, a, {}) && |a| == THREE && n != R && n != P && n !in a
    ensures Proposals(Subscribe(n, ALL_ALIVE), st, THREE) != []
    ensures next == Proposals(Subscribe(n, ALL_ALIVE), st, THREE)[0]
    ensures m <= a && |m| == 2 && TwoLevels(next, a - m, m + {n})
  {
    var d, l := LandsSomewhere(st, a, n);
    PUnused(st, a);
    LandsUnderProxy(st, d, n, l);
    next, m := SubscribeScan(st, n, THREE, ALL_ALIVE).tries[0], l.moved;
    SubscribeKeeps(FixedRole, st, n, THREE, ALL_ALIVE);
    FanoutKept(Subscribe(n, ALL_ALIVE), st, THREE, 0);
    GraftedLevels(st, next, a, n, l.proxy, m);
  }

  lemma PUnused(st: State, a: set<Name>)
    requires TwoLevels(st, a, {})
    ensures P !in Used(st)
  {
    forall e | e in st.edges
      ensures e.parent != P && e.child != P
    {
    }
    if P in Ends(st.edges) {
      var e := EndOf(st.edges, P);
      assert false;
    }
  }

  lemma GraftedLevels(st: State, next: State, a: set<Name>, n: Name, x: Name, m: set<Name>)
    requires TwoLevels(st, a, {}) && n !in a && n != R && n != P && |a| == THREE
    requires GraftAt(Seeded(st, n, ALL_ALIVE), next, R, x, n, m, THREE)
    requires Inv(FixedRole, next) && FanoutOk(next, THREE)
    ensures m <= a && |m| == 2 && TwoLevels(next, a - m, m + {n})
  {
    MovedFromRoot(st, next, a, n, x, m);
    GraftedEdges(st, next, a, n, m);
  }

  lemma MovedFromRoot(st: State, next: State, a: set<Name>, n: Name, x: Name, m: set<Name>)
    requires TwoLevels(st, a, {}) && |a| == THREE
    requires GraftAt(Seeded(st, n, ALL_ALIVE), next, R, x, n, m, THREE)
    ensures m <= a && |m| == 2 && x == P
  {
    var base := Seeded(st, n, ALL_ALIVE);
    LevelSizes(st, a, {});
    assert Listeners(base, R) == a;
    forall c | c in m
      ensures c in a
    {
      assert Edge(R, c) in base.edges && Edge(R, c).child == c;
    }
  }

  lemma GraftedEdges(st: State, next: State, a: set<Name>, n: Name, m: set<Name>)
    requires TwoLevels(st, a, {}) && m <= a
    requires Grafted(Elements(st.edges), Elements(next.edges), R, P, n, m)
    ensures forall e :: e in next.edges <==>
      (e.parent == R && (e.child in a - m || e.child == P)) || (e.parent == P && e.child in m + {n})
  {
    forall e
      ensures e in next.edges <==>
        (e.parent == R && (e.child in a - m || e.child == P)) || (e.parent == P && e.child in m + {n})
    {
      assert e in next.edges <==> e in Elements(next.edges);
      assert e in st.edges <==> e in Elements(st.edges);
      assert e == Edge(R, P) <==> e.parent == R && e.child == P;
      assert e == Edge(P, n) <==> e.parent == P && e.child == n;
    }
  }

  /** A listener below the proxy leaves; others stay there. */
  lemma LeavesProxy(st: State, a: set<Name>, b: set<Name>, n: Name) returns (next: State)
    requires TwoLevels(st, a, b + {n}) && n !in b && n !in a && b != {}
    ensures next == Proposals(SignalDisconnect(n), st, THREE)[0]
    ensures TwoLevels(next, a, b) && next.attachMs == map[]
  {
    next := Proposals(SignalDisconnect(n), st, THREE)[0];
    SignalKeeps(FixedRole, st, n);
    FanoutKept(SignalDisconnect(n), st, THREE, 0);
    LeafCut(st, n);
    OnlyOther(R, n);
    OnlyOther(P, n);
    LevelsLeft(st, next, a, b, n);
  }

  lemma LevelsLeft(st: State, next: State, a: set<Name>, b: set<Name>, n: Name)
    requires TwoLevels(st, a, b + {n}) && n !in b && n !in a && b != {}
    requires next.publishers == [R] && next.proxies == [P] && Inv(FixedRole, next) && FanoutOk(next, THREE)
    requires forall e :: e in next.edges <==> e in st.edges && e.child != n
    ensures TwoLevels(next, a, b)
  {
    forall e
      ensures e in next.edges <==> (e.parent == R && (e.child in a || e.child == P)) || (e.parent == P && e.child in b)
    {
      assert e in st.edges <==> (e.parent == R && (e.child in a || e.child == P)) ||
                                (e.parent == P && e.child in b + {n});
    }
  }

  /** When a leaf goes, its own edge goes. */
  lemma LeafCut(st: State, n: Name)
    requires forall e :: e in st.edges ==> e.parent != n
    ensures forall e :: e in CutEdges(st.edges, n) <==> e in st.edges && e.child != n
  {
    LeafSubtree(st, n);
    FilterIs(st.edges, OutsideOf({n}));
  }

  lemma OnlyOther(x: Name, n: Name)
    requires x != n
    ensures Filter([x], NotName(n)) == [x]
  {
    assert [x][..0] == [];
  }

  lemma LeafSubtree(st: State, n: Name)
    requires forall e :: e in st.edges ==> e.parent != n
    ensures Subtree(Elements(st.edges), n) == {n}
  {
    var E := Elements(st.edges);
    SubtreeFacts(E, n);
    forall y | y in Subtree(E, n)
      ensures y == n
    {
      var p :| PathFromTo(E, p, n, y);
      ClosedContains(E, {n}, p);
    }
  }

  /** When both inner nodes have room, an attempt has a second offer. */
  lemma TwoOffers(st: State, a: set<Name>, b: set<Name>, n: Name)
    requires TwoLevels(st, a, b) && |a| < 2 && b != {} && |b| < THREE && n != R && n != P && n !in a && n !in b
    ensures |Proposals(Subscribe(n, ALL_ALIVE), st, THREE)| >= 2
  {
    var base := Seeded(st, n, ALL_ALIVE);
    RoomAtBoth(st, a, b);
    var d := SeededDepths(st, a, b, n);
    assert TreeProxies(base) == TreeProxies(st);
    BothOffer(base, d, n);
  }

  lemma RoomAtBoth(st: State, a: set<Name>, b: set<Name>)
    requires TwoLevels(st, a, b) && |a| < 2 && b != {} && |b| < THREE
    ensures InnerNodes(st) == {R, P} && Healthy(st, ALL_ALIVE) && !Full(st, R, THREE) && !Full(st, P, THREE)
  {
    LevelSizes(st, a, b);
    assert |a + {P}| <= 2;
  }

  lemma SeededDepths(st: State, a: set<Name>, b: set<Name>, n: Name) returns (d: map<Name, nat>)
    requires TwoLevels(st, a, b)
    ensures Sound(FixedRole, Seeded(st, n, ALL_ALIVE), d, THREE)
  {
    d :| TreeWith(st, d);
    SeededSound(FixedRole, st, d, THREE, n, ALL_ALIVE);
  }

  lemma {:induction false} BothOffer(base: State, d: map<Name, nat>, n: Name)
    requires Sound(FixedRole, base, d, THREE) && Healthy(base, ALL_ALIVE) && InnerNodes(base) == {R, P}
    requires !Full(base, R, THREE) && !Full(base, P, THREE)
    ensures |Pass1(base, base, Bfs(base, base.Root()), 0, n, THREE, ALL_ALIVE).tries| >= 2
  {
    SearchIsInner(FixedRole, base, d);
    RoomMeans(FixedRole, base, d, R, n, THREE, ALL_ALIVE);
    RoomMeans(FixedRole, base, d, P, n, THREE, ALL_ALIVE);
    var nodes := Bfs(base, base.Root());
    var i := NodesAt(nodes, R);
    var j := NodesAt(nodes, P);
    if i < j {
      Pass1Two(base, base, nodes, 0, i, j, n, THREE, ALL_ALIVE);
    } else {
      Pass1Two(base, base, nodes, 0, j, i, n, THREE, ALL_ALIVE);
    }
  }

  lemma {:induction false} Pass1One(base: State, cur: State, nodes: seq<At>, i: nat, j: nat, sub: Name, f: nat,
                                    env: Env)
    requires i <= j < |nodes| && AttachStep(base, base, nodes[j].node, sub, f, env).Offer?
    requires cur.proxies == base.proxies && cur.publishers == base.publishers
    ensures Pass1(base, cur, nodes, i, sub, f, env).tries != []
    decreases j - i
  {
    if i < j && AttachStep(base, cur, nodes[i].node, sub, f, env) == Skip {
      Pass1One(base, cur, nodes, i + 1, j, sub, f, env);
    }
  }

  lemma {:induction false} Pass1Two(base: State, cur: State, nodes: seq<At>, at: nat, i: nat, j: nat, sub: Name,
                                    f: nat, env: Env)
    requires at <= i < j < |nodes|
    requires AttachStep(base, base, nodes[i].node, sub, f, env).Offer?
    requires AttachStep(base, base, nodes[j].node, sub, f, env).Offer?
    requires cur.proxies == base.proxies && cur.publishers == base.publishers
    ensures |Pass1(base, cur, nodes, at, sub, f, env).tries| >= 2
    decreases i - at
  {
    match AttachStep(base, cur, nodes[at].node, sub, f, env)
    case Skip =>
      Pass1Two(base, cur, nodes, at + 1, i, j, sub, f, env);
    case Offer(next) =>
      Pass1One(base, next, nodes, at + 1, j, sub, f, env);
  }

  /** From the empty key, with the default fanout and every proxy alive, there is a run of the loops as written that
      ends with a subscriber under two parents: one process is about to commit its subscription when another registers
      the publisher once more. A listener has left through the signaling server, so there are no attach times and the
      value has only one text that the registration can write: the one already there. */
  lemma TwoParentRun() returns (tr: seq<Config>, sub: Name)
    ensures Run(AsWritten(), tr) && |ParentsOf(Parse(Last(tr).cell), sub)| == 2
    ensures !Inv(FixedRole, Parse(Last(tr).cell))
  {
    var s := AsWritten();
    var st;
    tr, st := BothRegistered();
    tr, st := Subscribed(s, tr, st, {}, 10);
    tr, st := Subscribed(s, tr, st, {10}, 11);
    tr, st := Subscribed(s, tr, st, {10, 11}, 12);
    tr, st, sub := SecondOffer(s, tr, st, {10, 11, 12});
  }

  lemma BothRegistered() returns (tr: seq<Config>, st: State)
    ensures Run(AsWritten(), tr) && AtRest(Last(tr), st) && TwoLevels(st, {}, {})
  {
    var s, mid := AsWritten(), Proposals(RegisterPublisher(R), EMPTY, THREE)[0];
    tr := [Config(Absent, [Idle, Idle])];
    tr := Alone(s, tr, Absent, RegisterPublisher(R));
    tr := Alone(s, tr, Text(mid, 0), RegisterProxy(P));
    st := Proposals(RegisterProxy(P), mid, THREE)[0];
    EmptyInv(FixedRole, THREE);
    RegisterPublisherKeeps(FixedRole, EMPTY, R);
    FanoutKept(RegisterPublisher(R), EMPTY, THREE, 0);
    FanoutKept(RegisterProxy(P), mid, THREE, 0);
    RegisterProxyKeeps(FixedRole, mid, P);
  }

  lemma Subscribed(s: Setup, tr: seq<Config>, st: State, a: set<Name>, n: Name) returns (more: seq<Config>, next: State)
    requires s == AsWritten() && Run(s, tr) && AtRest(Last(tr), st)
    requires TwoLevels(st, a, {}) && |a| < THREE && n != R && n != P && n !in a
    ensures Run(s, more) && AtRest(Last(more), next) && TwoLevels(next, a + {n}, {})
  {
    LevelSizes(st, a, {});
    next := JoinsRoot(st, a, n);
    more := Alone(s, tr, Text(st, 0), Subscribe(n, ALL_ALIVE));
  }

  lemma SecondOffer(s: Setup, tr: seq<Config>, st: State, a: set<Name>)
      returns (more: seq<Config>, last: State, sub: Name)
    requires s == AsWritten() && Run(s, tr) && AtRest(Last(tr), st)
    requires TwoLevels(st, a, {}) && |a| == THREE && 13 !in a && 14 !in a
    ensures Run(s, more) && AtRest(Last(more), last) && |ParentsOf(last, sub)| == 2 && !Inv(FixedRole, last)
  {
    var half, roomy, m := MakesRoom(s, tr, st, a);
    sub := 14;
    more, last := Refused(s, half, roomy, a - m, m, sub);
  }

  /** The root is full, so the fourth listener makes the attempt graft the proxy; when it leaves again both inner nodes
      have room and no attach times are stored. */
  lemma MakesRoom(s: Setup, tr: seq<Config>, st: State, a: set<Name>)
      returns (more: seq<Config>, roomy: State, m: set<Name>)
    requires s == AsWritten() && Run(s, tr) && AtRest(Last(tr), st)
    requires TwoLevels(st, a, {}) && |a| == THREE && 13 !in a
    ensures Run(s, more) && AtRest(Last(more), roomy)
    ensures m <= a && |m| == 2 && TwoLevels(roomy, a - m, m) && roomy.attachMs == map[]
  {
    LevelSizes(st, a, {});
    var grown;
    grown, m := GraftsProxy(st, a, 13);
    var joined := Alone(s, tr, Text(st, 0), Subscribe(13, ALL_ALIVE));
    roomy := LeavesProxy(grown, a - m, m, 13);
    LevelSizes(grown, a - m, m + {13});
    var left := Alone(s, joined, Text(grown, 0), SignalDisconnect(13));
    more := Respelled(s, left, roomy);
  }

  /** The publisher registers again: core's text of the same value replaces the signaling server's. */
  lemma Respelled(s: Setup, tr: seq<Config>, st: State) returns (more: seq<Config>)
    requires s == AsWritten() && Run(s, tr) && Last(tr) == Config(Text(st, 1), [Idle, Idle]) && st.publishers == [R]
    ensures Run(s, more) && AtRest(Last(more), st)
  {
    assert AddName(st.publishers, R) == st.publishers;
    more := Alone(s, tr, Text(st, 1), RegisterPublisher(R));
  }

  lemma Refused(s: Setup, tr: seq<Config>, st: State, a: set<Name>, b: set<Name>, n: Name)
      returns (more: seq<Config>, last: State)
    requires s == AsWritten() && Run(s, tr) && AtRest(Last(tr), st)
    requires TwoLevels(st, a, b) && |a| < 2 && b != {} && |b| < THREE && n != R && n != P && n !in a && n !in b
    requires st.attachMs == map[]
    ensures Run(s, more) && AtRest(Last(more), last) && |ParentsOf(last, n)| == 2 && !Inv(FixedRole, last)
  {
    LevelSizes(st, a, b);
    TwoOffers(st, a, b, n);
    more := RefusedOnce(s, tr, st, Subscribe(n, ALL_ALIVE), RegisterPublisher(R));
    last := Proposals(Subscribe(n, ALL_ALIVE), st, THREE)[1];
    ParentsPerOffer(st, n, THREE, ALL_ALIVE, 1);
    TwoParentsNoTree(FixedRole, last, n);
  }
}
