/** The header's claim about edges: unique, and at most fanout children per parent. It needs neither a tree nor fixed
    roles, and survives the swaps that are refused and built upon within one attempt. */
module Fanout {
  import opened Basics
  import opened Tree
  import opened RoutingModel
  import opened BfsProofs

  ghost predicate Bounded(E: Edges, f: nat) {
    forall p :: |ChildSet(E, p)| <= f
  }

  ghost predicate FanoutOk(st: State, f: nat) {
    Distinct(st.edges) && Bounded(Elements(st.edges), f)
  }

  lemma AddEdgeKids(st: State, n: Name, c: Name, p: Name)
    ensures var E, F := Elements(st.edges), Elements(st.AddEdge(n, c).edges);
      ChildSet(F, p) == if p == n then ChildSet(E, p) + {c} else ChildSet(E, p)
  {
    forall k
      ensures Edge(p, k) == Edge(n, c) <==> p == n && k == c
    {
    }
  }

  // ----- one graft -----

  lemma GraftKids(E: Edges, F: Edges, n: Name, x: Name, s: Name, m: set<Name>, p: Name)
    requires Grafted(E, F, n, x, s, m) && n != x
    ensures ChildSet(F, p) ==
      if p == n then (ChildSet(E, n) - m) + {x} else if p == x then ChildSet(E, x) + m + {s} else ChildSet(E, p)
  {
    var K := if p == n then (ChildSet(E, n) - m) + {x} else if p == x then ChildSet(E, x) + m + {s} else ChildSet(E, p);
    forall c
      ensures c in ChildSet(F, p) <==> c in K
    {
      var e := Edge(p, c);
      assert e.parent == p && e.child == c;
    }
  }

  lemma UnusedHasNone(st: State, x: Name)
    requires x !in Used(st)
    ensures ChildSet(Elements(st.edges), x) == {}
    ensures forall e :: e in st.edges ==> e.parent != x && e.child != x
    ensures x !in st.publishers
  {
    forall e | e in st.edges
      ensures e.parent != x && e.child != x
    {
      EndIn(st.edges, e);
    }
    forall c
      ensures c !in ChildSet(Elements(st.edges), x)
    {
      assert Edge(x, c) in st.edges ==> Edge(x, c).parent != x;
    }
  }

  lemma GraftBounded(E: Edges, F: Edges, n: Name, x: Name, s: Name, m: set<Name>, f: nat)
    requires Bounded(E, f) && Grafted(E, F, n, x, s, m) && n != x
    requires m <= ChildSet(E, n) && 1 <= |m| <= f - 1 && ChildSet(E, x) == {}
    ensures Bounded(F, f)
  {
    forall p
      ensures |ChildSet(F, p)| <= f
    {
      GraftKids(E, F, n, x, s, m, p);
      SwapCard(ChildSet(E, n), m, x);
      SwapCard(m, {}, s);
    }
  }

  lemma SwapCard(k: set<Name>, m: set<Name>, x: Name)
    requires m <= k
    ensures |(k - m) + {x}| <= |k| - |m| + 1
    ensures |{} + m + {x}| <= |m| + 1
  {
    assert k == (k - m) + m;
    assert |(k - m) + {x}| <= |k - m| + 1;
    assert {} + m == m;
  }

  // ----- pass 2 -----

  /** The candidates still to come are in use, so none is picked as new proxy, and they keep their old listeners. */
  ghost predicate Ahead(base: State, cur: State, cands: seq<At>, i: nat) {
    forall j :: i <= j < |cands| ==>
      && cands[j].node in Used(cur)
      && (forall c :: Edge(cands[j].node, c) in base.edges && c !in base.proxies ==>
          Edge(cands[j].node, c) in cur.edges)
  }

  lemma UsedGrows(cur: State, next: State, n: Name, x: Name, s: Name, m: set<Name>, u: Name)
    requires Grafted(Elements(cur.edges), Elements(next.edges), n, x, s, m)
    requires next.publishers == cur.publishers && u in Used(cur)
    ensures u in Used(next)
  {
    var F := Elements(next.edges);
    if u !in cur.publishers {
      var e := EndOf(cur.edges, u);
      if e in F {
        EndIn(next.edges, e);
      } else {
        assert Edge(x, e.child) in F && Edge(n, x) in F;
        EndIn(next.edges, Edge(n, x));
        EndIn(next.edges, Edge(x, e.child));
      }
    }
  }

  /** A graft under a node in use that still has the listeners it had when read. */
  lemma GraftStepOk(base: State, cur: State, n: Name, sub: Name, f: nat, env: Env) returns (x: Name, m: set<Name>)
    requires f >= 1 && Distinct(cur.edges) && cur.proxies == base.proxies && n in Used(cur)
    requires forall c :: Edge(n, c) in base.edges && c !in base.proxies ==> Edge(n, c) in cur.edges
    requires GraftStep(base, cur, n, sub, f, env).Offer?
    ensures var next := GraftStep(base, cur, n, sub, f, env).st;
      && Grafted(Elements(cur.edges), Elements(next.edges), n, x, sub, m)
      && next.publishers == cur.publishers && next.proxies == cur.proxies && Distinct(next.edges)
      && n != x && x in cur.proxies && x !in Used(cur) && ChildSet(Elements(cur.edges), x) == {}
      && m <= ChildSet(Elements(cur.edges), n) && m <= ChildSet(Elements(base.edges), n)
      && 1 <= |m| <= Max(f - 1, 1)
  {
    var ch := ChildrenIns(base.edges, n);
    var movers := Movers(cur, ch, f);
    x := PickUnused(cur, env.PickAlive(n)).value;
    m := Elements(movers);
    FirstUnusedIs(cur.proxies, Used(cur), env.PickAlive(n), 0);
    UnusedHasNone(cur, x);
    ChildrenCount(base.edges, n);
    MoversAre(cur, ch, f);
    DistinctCard(movers);
    forall c | c in movers
      ensures c != x && Edge(n, c) in Elements(cur.edges) && Edge(n, c) in Elements(base.edges)
    {
      assert Edge(n, c) in base.edges;
      assert Edge(n, c).child != x;
    }
    GraftIs(cur, n, x, sub, movers, env.GraftMs(n));
  }

  lemma {:induction false} OneGraft(base: State, cur: State, cands: seq<At>, i: nat, sub: Name, f: nat, env: Env)
    requires f >= 2 && FanoutOk(cur, f) && i < |cands| && DistinctNodes(cands)
    requires cur.proxies == base.proxies && Ahead(base, cur, cands, i)
    requires GraftStep(base, cur, cands[i].node, sub, f, env).Offer?
    ensures var next := GraftStep(base, cur, cands[i].node, sub, f, env).st;
      FanoutOk(next, f) && next.proxies == base.proxies && Ahead(base, next, cands, i + 1)
  {
    var next := GraftStep(base, cur, cands[i].node, sub, f, env).st;
    var x, m := GraftStepOk(base, cur, cands[i].node, sub, f, env);
    GraftBounded(Elements(cur.edges), Elements(next.edges), cands[i].node, x, sub, m, f);
    StillAhead(base, cur, next, cands, i, x, sub, m);
  }

  lemma {:induction false} StillAhead(base: State, cur: State, next: State, cands: seq<At>, i: nat, x: Name,
                                      sub: Name, m: set<Name>)
    requires i < |cands| && DistinctNodes(cands) && Ahead(base, cur, cands, i)
    requires Grafted(Elements(cur.edges), Elements(next.edges), cands[i].node, x, sub, m)
    requires next.publishers == cur.publishers
    ensures Ahead(base, next, cands, i + 1)
  {
    forall j | i + 1 <= j < |cands|
      ensures cands[j].node in Used(next)
      ensures forall c :: Edge(cands[j].node, c) in base.edges && c !in base.proxies ==>
          Edge(cands[j].node, c) in next.edges
    {
      UsedGrows(cur, next, cands[i].node, x, sub, m, cands[j].node);
      DistinctNodesAt(cands, i, j);
      forall c | Edge(cands[j].node, c) in base.edges && c !in base.proxies
        ensures Edge(cands[j].node, c) in next.edges
      {
        var e := Edge(cands[j].node, c);
        assert e in Elements(cur.edges) && e.parent != cands[i].node;
        assert e in Elements(next.edges);
      }
    }
  }

  lemma {:induction false} Pass2Fanout(base: State, cur: State, cands: seq<At>, i: nat, sub: Name, f: nat, env: Env,
                                       k: nat)
    requires f >= 2 && FanoutOk(cur, f) && DistinctNodes(cands)
    requires cur.proxies == base.proxies && Ahead(base, cur, cands, i)
    requires k < |Pass2(base, cur, cands, i, sub, f, env).tries|
    ensures FanoutOk(Pass2(base, cur, cands, i, sub, f, env).tries[k], f)
    decreases |cands| - i
  {
    match GraftStep(base, cur, cands[i].node, sub, f, env)
    case Skip =>
      Pass2Fanout(base, cur, cands, i + 1, sub, f, env, k);
    case Stop =>
    case Offer(next) =>
      OfferedAt(next, Pass2(base, next, cands, i + 1, sub, f, env), k);
      OneGraft(base, cur, cands, i, sub, f, env);
      if k > 0 {
        Pass2Fanout(base, next, cands, i + 1, sub, f, env, k - 1);
      }
  }

  // ----- pass 1 -----

  /** Up to node i, pass 1 has only added the subscriber below nodes that had room. */
  ghost predicate Attaching(base: State, cur: State, nodes: seq<At>, i: nat, f: nat) {
    && FanoutOk(cur, f)
    && cur.proxies == base.proxies && cur.publishers == base.publishers
    && (forall e :: e in base.edges ==> e in cur.edges)
    && (forall j :: i <= j < |nodes| ==>
          ChildSet(Elements(cur.edges), nodes[j].node) == ChildSet(Elements(base.edges), nodes[j].node))
  }

  lemma AddBounded(st: State, n: Name, c: Name, f: nat)
    requires FanoutOk(st, f) && |ChildSet(Elements(st.edges), n)| < f
    ensures FanoutOk(st.AddEdge(n, c), f)
  {
    AddEdgeDistinct(st, n, c);
    forall p
      ensures |ChildSet(Elements(st.AddEdge(n, c).edges), p)| <= f
    {
      AddEdgeKids(st, n, c, p);
      assert |ChildSet(Elements(st.edges), p) + {c}| <= |ChildSet(Elements(st.edges), p)| + 1;
    }
  }

  lemma {:induction false} OneAttach(base: State, cur: State, nodes: seq<At>, i: nat, sub: Name, f: nat, env: Env)
    requires i < |nodes| && DistinctNodes(nodes) && Attaching(base, cur, nodes, i, f)
    requires AttachStep(base, cur, nodes[i].node, sub, f, env).Offer?
    ensures Attaching(base, AttachStep(base, cur, nodes[i].node, sub, f, env).st, nodes, i + 1, f)
  {
    var n := nodes[i].node;
    ChildrenCount(base.edges, n);
    AddBounded(cur, n, sub, f);
    forall j | i + 1 <= j < |nodes|
      ensures ChildSet(Elements(cur.AddEdge(n, sub).edges), nodes[j].node) ==
              ChildSet(Elements(base.edges), nodes[j].node)
    {
      AddEdgeKids(cur, n, sub, nodes[j].node);
      DistinctNodesAt(nodes, i, j);
    }
  }

  /** Every node the search outputs is the root or already in use. */
  lemma BfsUsed(base: State, nodes: seq<At>, j: nat)
    requires base.publishers != [] && nodes == Bfs(base, base.Root()) && j < |nodes|
    ensures nodes[j].node in Used(base)
  {
    BfsExact(base, base.Root());
    assert WalkOf(Inner(base), base.Root(), nodes[j]);
    var p :| PathFromTo(Inner(base), p, base.Root(), nodes[j].node);
    if |p| > 1 {
      var e := Edge(p[|p| - 2], p[|p| - 1]);
      assert e in Inner(base);
      EndIn(base.edges, e);
    }
  }

  lemma {:induction false} InsertedNodes(s: seq<At>, x: At, le: (At, At) -> bool)
    ensures Nodes(InsertBy(s, x, le)) == Nodes(s) + {x.node}
    ensures DistinctNodes(s) && x.node !in Nodes(s) ==> DistinctNodes(InsertBy(s, x, le))
  {
    if s != [] {
      var t, l := s[..|s| - 1], s[|s| - 1];
      InsertedNodes(t, x, le);
      assert (s + [x])[..|s|] == s;
      var r := InsertBy(t, x, le);
      assert (r + [l])[..|r|] == r;
    } else {
      assert [x][..0] == [];
    }
  }

  lemma {:induction false} SortedNodes(s: seq<At>, le: (At, At) -> bool)
    ensures Nodes(SortBy(s, le)) == Nodes(s)
    ensures DistinctNodes(s) ==> DistinctNodes(SortBy(s, le))
  {
    if s != [] {
      SortedNodes(s[..|s| - 1], le);
      InsertedNodes(SortBy(s[..|s| - 1], le), s[|s| - 1], le);
    }
  }

  lemma CandsAhead(base: State)
    requires base.publishers != []
    ensures DistinctNodes(Bfs(base, base.Root()))
    ensures DistinctNodes(SortBy(Bfs(base, base.Root()), ByDepth()))
    ensures Ahead(base, base, SortBy(Bfs(base, base.Root()), ByDepth()), 0)
  {
    var nodes := Bfs(base, base.Root());
    var cands := SortBy(nodes, ByDepth());
    BfsExact(base, base.Root());
    SortedNodes(nodes, ByDepth());
    forall j | 0 <= j < |cands|
      ensures cands[j].node in Used(base)
    {
      NodeIn(cands, j);
      var a := NodesAt(nodes, cands[j].node);
      BfsUsed(base, nodes, a);
    }
  }

  lemma {:induction false} EndsGrow(edges: seq<Edge>, more: seq<Edge>)
    requires forall e :: e in edges ==> e in more
    ensures Ends(edges) <= Ends(more)
  {
    forall n | n in Ends(edges)
      ensures n in Ends(more)
    {
      var e := EndOf(edges, n);
      EndIn(more, e);
    }
  }

  lemma AheadGrows(base: State, cur: State, cands: seq<At>)
    requires Ahead(base, base, cands, 0)
    requires cur.publishers == base.publishers && forall e :: e in base.edges ==> e in cur.edges
    ensures Ahead(base, cur, cands, 0)
  {
    EndsGrow(base.edges, cur.edges);
  }

  lemma {:induction false} TailFanout(base: State, cur: State, nodes: seq<At>, sub: Name, f: nat, env: Env, k: nat)
    requires f >= 2 && base.publishers != [] && nodes == Bfs(base, base.Root()) && FanoutOk(cur, f)
    requires cur.publishers == base.publishers && cur.proxies == base.proxies
    requires forall e :: e in base.edges ==> e in cur.edges
    requires k < |Pass2(base, cur, SortBy(nodes, ByDepth()), 0, sub, f, env).tries|
    ensures FanoutOk(Pass2(base, cur, SortBy(nodes, ByDepth()), 0, sub, f, env).tries[k], f)
  {
    var cands := SortBy(nodes, ByDepth());
    CandsAhead(base);
    AheadGrows(base, cur, cands);
    Pass2Fanout(base, cur, cands, 0, sub, f, env, k);
  }

  lemma {:induction false} Pass1Fanout(base: State, cur: State, nodes: seq<At>, i: nat, sub: Name, f: nat, env: Env,
                                       k: nat)
    requires f >= 2 && base.publishers != [] && nodes == Bfs(base, base.Root())
    requires DistinctNodes(nodes) && Attaching(base, cur, nodes, i, f)
    requires k < |Pass1(base, cur, nodes, i, sub, f, env).tries|
    ensures FanoutOk(Pass1(base, cur, nodes, i, sub, f, env).tries[k], f)
    decreases |nodes| - i
  {
    if i >= |nodes| {
      TailFanout(base, cur, nodes, sub, f, env, k);
    } else {
      match AttachStep(base, cur, nodes[i].node, sub, f, env)
      case Skip =>
        Pass1Fanout(base, cur, nodes, i + 1, sub, f, env, k);
      case Offer(next) =>
        var later := Pass1(base, next, nodes, i + 1, sub, f, env).tries;
        assert FanoutOk(([next] + later)[k], f) by {
          OneAttach(base, cur, nodes, i, sub, f, env);
          if k > 0 {
            Pass1Fanout(base, next, nodes, i + 1, sub, f, env, k - 1);
          }
        }
    }
  }

  /** With a fanout of one a graft still moves one child, so the new proxy starts with two: grafting a value that was
      read keeps the bound exactly when the fanout is at least two. */
  lemma GraftNeedsTwo(st: State, n: Name, sub: Name, f: nat, env: Env)
    requires 1 <= f && FanoutOk(st, f) && !st.HasParentEdge(sub) && n in Used(st)
    requires GraftStep(st, st, n, sub, f, env).Offer?
    ensures FanoutOk(GraftStep(st, st, n, sub, f, env).st, f) <==> f >= 2
  {
    var next := GraftStep(st, st, n, sub, f, env).st;
    var x, m := GraftStepOk(st, st, n, sub, f, env);
    if f >= 2 {
      GraftBounded(Elements(st.edges), Elements(next.edges), n, x, sub, m, f);
    } else {
      var c :| c in m;
      assert Edge(n, c) in st.edges && Edge(n, c).child == c;
      GraftKids(Elements(st.edges), Elements(next.edges), n, x, sub, m, x);
      SubsetCard({c, sub}, ChildSet(Elements(next.edges), x));
    }
  }

  lemma FilterBounded(st: State, keep: Edge -> bool, f: nat)
    requires FanoutOk(st, f)
    ensures FanoutOk(st.(edges := Filter(st.edges, keep)), f)
  {
    FilterDistinct(st.edges, keep);
    FilterIs(st.edges, keep);
    forall p
      ensures |ChildSet(Elements(Filter(st.edges, keep)), p)| <= f
    {
      SubsetCard(ChildSet(Elements(Filter(st.edges, keep)), p), ChildSet(Elements(st.edges), p));
    }
  }

  /** Registering and disconnecting keep the bound, whatever it is. */
  lemma OthersKept(op: Op, st: State, f: nat, k: nat)
    requires !op.Subscribe? && FanoutOk(st, f) && k < |Proposals(op, st, f)|
    ensures FanoutOk(Proposals(op, st, f)[k], f)
  {
    match op
    case RegisterPublisher(_) =>
    case RegisterProxy(_) =>
    case Disconnect(n) =>
      FilterBounded(st, OutsideOf(Subtree(Elements(st.edges), n)), f);
    case SignalDisconnect(n) =>
      FilterBounded(st, OutsideOf(Subtree(Elements(st.edges), n)), f);
  }

  /** Every value any operation may commit, including those a subscribe attempt offers after earlier swaps were refused,
      keeps edges unique and children within the fanout, for every fanout of at least two. */
  lemma FanoutKept(op: Op, st: State, f: nat, k: nat)
    requires f >= 2 && FanoutOk(st, f) && k < |Proposals(op, st, f)|
    ensures FanoutOk(Proposals(op, st, f)[k], f)
  {
    match op
    case Subscribe(n, env) =>
      var base := Seeded(st, n, env);
      CandsAhead(base);
      Pass1Fanout(base, base, Bfs(base, base.Root()), 0, n, f, env, k);
    case _ =>
      OthersKept(op, st, f, k);
  }
}
