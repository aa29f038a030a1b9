/** core/src/routing.rs: the routing state updated in place, and the operations on it. Every method is proved against
    the value functions of RoutingModel. */
module Routing {
  import opened Basics
  import opened Tree
  import opened RoutingModel

  class RoutingState {
    var publishers: seq<Name>
    var proxies: seq<Name>
    var edges: seq<Edge>
    var attachMs: map<Name, int>

    function Value(): State
      reads this
    {
      State(publishers, proxies, edges, attachMs)
    }

    /** parse_state: the working copy of a value that was read. */
    constructor (st: State)
      ensures Value() == st
    {
      publishers, proxies, edges, attachMs := st.publishers, st.proxies, st.edges, st.attachMs;
    }

    method AddPublisher(n: Name)
      modifies this
      ensures Value() == old(Value()).(publishers := publishers)
      ensures publishers == if n in old(publishers) then old(publishers) else old(publishers) + [n]
    {
      if n !in publishers {
        publishers := publishers + [n];
      }
    }

    method AddProxy(n: Name)
      modifies this
      ensures Value() == old(Value()).(proxies := proxies)
      ensures proxies == if n in old(proxies) then old(proxies) else old(proxies) + [n]
    {
      if n !in proxies {
        proxies := proxies + [n];
      }
    }

    method AddEdgeUnique(p: Name, c: Name)
      modifies this
      ensures Value() == old(Value()).AddEdge(p, c)
      ensures edges == if Edge(p, c) in old(edges) then old(edges) else old(edges) + [Edge(p, c)]
    {
      if Edge(p, c) !in edges {
        edges := edges + [Edge(p, c)];
      }
    }

    method RemoveEdge(p: Name, c: Name)
      modifies this
      ensures Value() == old(Value()).RemoveEdge(p, c)
      ensures forall e :: e in edges <==> e in old(edges) && !(e.parent == p && e.child == c)
    {
      edges := Filter(edges, IsNot(Edge(p, c)));
    }
  }

  // ----- children maps -----

  type ChildMap = map<Name, seq<Name>>

  function Lookup(m: ChildMap, p: Name): seq<Name> {
    if p in m then m[p] else []
  }

  method BuildChildrenMap(edges: seq<Edge>) returns (out: ChildMap)
    ensures forall p :: Lookup(out, p) == Children(edges, p)
  {
    out := map[];
    for i := 0 to |edges|
      invariant forall p :: Lookup(out, p) == KidSeq(edges[..i], p)
    {
      var e := edges[i];
      assert edges[..i + 1] == edges[..i] + [e];
      forall p {
        KidSeqAppend(edges[..i], e, p);
      }
      out := out[e.parent := Lookup(out, e.parent) + [e.child]];
    }
    assert edges[..|edges|] == edges;
    ghost var raw := out;
    out := map p | p in out :: SortDedup(out[p]);
    forall p
      ensures Lookup(out, p) == Children(edges, p)
    {
      assert Lookup(raw, p) == KidSeq(edges, p);
    }
  }

  function SeenUnder(seen: map<Name, set<Name>>, p: Name): set<Name> {
    if p in seen then seen[p] else {}
  }

  method BuildChildrenMapInsertionOrder(edges: seq<Edge>) returns (out: ChildMap)
    ensures forall p :: Lookup(out, p) == ChildrenIns(edges, p)
  {
    out := map[];
    var seen: map<Name, set<Name>> := map[];
    for i := 0 to |edges|
      invariant forall p :: Lookup(out, p) == ChildrenIns(edges[..i], p)
      invariant forall p, c :: c in SeenUnder(seen, p) <==> c in Lookup(out, p)
    {
      var e := edges[i];
      assert edges[..i + 1] == edges[..i] + [e];
      ghost var out0, seen0 := out, seen;
      if e.child !in SeenUnder(seen, e.parent) {
        out := out[e.parent := Lookup(out, e.parent) + [e.child]];
      }
      seen := seen[e.parent := SeenUnder(seen, e.parent) + {e.child}];
      forall p
        ensures Lookup(out, p) == ChildrenIns(edges[..i + 1], p)
        ensures forall c :: c in SeenUnder(seen, p) <==> c in Lookup(out, p)
      {
        ChildrenInsAppend(edges[..i], e, p);
        assert Lookup(out0, p) == ChildrenIns(edges[..i], p);
        assert p != e.parent ==> SeenUnder(seen, p) == SeenUnder(seen0, p);
      }
    }
    assert edges[..|edges|] == edges;
  }

  // ----- searches -----

  /** The inner loop of the search: queue the intermediate children that have not been seen. */
  method VisitChildren(st: RoutingState, n: Name, ch: seq<Name>, d: nat, q: seq<At>, seen: set<Name>)
    returns (q': seq<At>, seen': set<Name>)
    requires ch == Children(st.edges, n)
    ensures q' == q + NewlySeen(st.Value(), ch, seen, d)
    ensures seen' == seen + Nodes(NewlySeen(st.Value(), ch, seen, d))
  {
    ghost var v := st.Value();
    ChildrenAre(st.edges, n);
    q', seen' := q, seen;
    for j := 0 to |ch|
      invariant q' == q + NewlySeen(v, ch[..j], seen, d)
      invariant seen' == seen + Nodes(NewlySeen(v, ch[..j], seen, d))
    {
      var c := ch[j];
      FreshNext(v, ch, j, seen, d);
      if (c in st.publishers || c in st.proxies) && c !in seen' {
        seen' := seen' + {c};
        q' := q' + [At(c, d)];
      }
    }
    assert ch[..|ch|] == ch;
  }

  method BfsIntermediatesWithDepth(st: RoutingState, root: Name, children: ChildMap) returns (out: seq<At>)
    requires forall p :: Lookup(children, p) == Children(st.edges, p)
    ensures out == Bfs(st.Value(), root)
  {
    ghost var v := st.Value();
    out := [];
    var q := [At(root, 0)];
    var seen := {root};
    while q != []
      invariant Searching(v, root, out, q, seen)
      decreases Unvisited(v, out + q, |out|)
    {
      out, q, seen := VisitFront(st, root, children, out, q, seen);
    }
    assert out + q == out;
  }

  /** What is output and what waits are together what the search has seen, and it goes on from there to its result. */
  ghost predicate Searching(v: State, root: Name, out: seq<At>, q: seq<At>, seen: set<Name>) {
    seen == Nodes(out + q) && BfsFrom(v, out + q, |out|) == Bfs(v, root)
  }

  /** The body of the loop. */
  method VisitFront(st: RoutingState, ghost root: Name, children: ChildMap, out: seq<At>, q: seq<At>, seen: set<Name>)
    returns (out': seq<At>, q': seq<At>, seen': set<Name>)
    requires forall p :: Lookup(children, p) == Children(st.edges, p)
    requires q != [] && Searching(st.Value(), root, out, q, seen)
    ensures Searching(st.Value(), root, out', q', seen')
    ensures Unvisited(st.Value(), out' + q', |out'|) < Unvisited(st.Value(), out + q, |out|)
  {
    var a := q[0];
    var ch := Lookup(children, a.node);
    SearchStep(st.Value(), out + q, out, q, seen, ch);
    out' := out + [a];
    q', seen' := VisitChildren(st, a.node, ch, a.depth + 1, q[1..], seen);
    assert out' + q' == (out + q) + NewlySeen(st.Value(), ch, seen, a.depth + 1);
  }

  /** One turn of the search: the front of the queue is output and its unseen children go to the end. */
  lemma SearchStep(v: State, all: seq<At>, out: seq<At>, q: seq<At>, seen: set<Name>, ch: seq<Name>)
    requires q != [] && all == out + q && seen == Nodes(all) && ch == Children(v.edges, q[0].node)
    ensures var fr := NewlySeen(v, ch, seen, q[0].depth + 1);
      && all + fr == (out + [q[0]]) + (q[1..] + fr)
      && Nodes(all + fr) == seen + Nodes(fr)
      && BfsFrom(v, all + fr, |out| + 1) == BfsFrom(v, all, |out|)
      && Unvisited(v, all + fr, |out| + 1) < Unvisited(v, all, |out|)
  {
    PopPush(out, q, FreshAt(v, all, |out|));
    VisitShrinks(v, all, |out|);
  }

  /** The inner loop of the subtree search: queue the children that have not been collected. */
  method CollectChildren(ch: seq<Name>, q: seq<Name>, subtree: set<Name>) returns (q': seq<Name>, subtree': set<Name>)
    ensures subtree' == subtree + Elements(ch)
    ensures QueuesNew(q, subtree, q', subtree')
  {
    q', subtree' := q, subtree;
    for j := 0 to |ch|
      invariant subtree' == subtree + Elements(ch[..j])
      invariant QueuesNew(q, subtree, q', subtree')
    {
      var c := ch[j];
      assert ch[..j + 1] == ch[..j] + [c];
      if c !in subtree' {
        QueueOne(q, subtree, q', subtree', c);
        subtree' := subtree' + {c};
        q' := q' + [c];
      }
    }
    assert ch[..|ch|] == ch;
  }

  /** What joined the set joined the end of the queue, once each. */
  ghost predicate QueuesNew(q: seq<Name>, s: set<Name>, q': seq<Name>, s': set<Name>) {
    && q <= q' && |q'| - |q| == |s' - s|
    && forall n :: n in q' <==> n in q || n in s' - s
  }

  lemma QueueOne(q: seq<Name>, s: set<Name>, q': seq<Name>, s': set<Name>, c: Name)
    requires QueuesNew(q, s, q', s') && s <= s' && c !in s'
    ensures QueuesNew(q, s, q' + [c], s' + {c})
  {
    assert (s' + {c}) - s == (s' - s) + {c};
  }

  /** The queue loop that core's disconnect and signaling's disconnect_node have in common. */
  method CollectSubtree(edges: seq<Edge>, node: Name, children: ChildMap) returns (subtree: set<Name>)
    requires forall p :: Lookup(children, p) == Children(edges, p)
    ensures subtree == Subtree(Elements(edges), node)
  {
    subtree := {node};
    var q := [node];
    ReachesSelf(Elements(edges), node);
    while q != []
      invariant Collecting(edges, node, q, subtree)
      decreases |Kin(edges) + {node} - subtree| + |q|
    {
      var n := q[0];
      ghost var q0, s0 := q, subtree;
      q, subtree := CollectChildren(Lookup(children, n), q[1..], subtree);
      CollectStep(edges, node, q0, s0, q, subtree);
    }
    AllCollected(Elements(edges), node, subtree);
  }

  /** Only descendants are collected, and those not waiting in the queue have had their children collected. */
  ghost predicate Collecting(edges: seq<Edge>, node: Name, q: seq<Name>, subtree: set<Name>) {
    && node in subtree && subtree <= Kin(edges) + {node}
    && (forall y :: y in subtree ==> Reaches(Elements(edges), node, y))
    && (forall n :: n in q ==> n in subtree)
    && (forall e :: e in edges && e.parent in subtree && e.parent !in q ==> e.child in subtree)
  }

  lemma CollectStep(edges: seq<Edge>, node: Name, q0: seq<Name>, s0: set<Name>, q: seq<Name>, s: set<Name>)
    requires Collecting(edges, node, q0, s0) && q0 != []
    requires s == s0 + Elements(Children(edges, q0[0]))
    requires QueuesNew(q0[1..], s0, q, s)
    ensures Collecting(edges, node, q, s)
    ensures |Kin(edges) + {node} - s| + |q| < |Kin(edges) + {node} - s0| + |q0|
  {
    assert q0 == [q0[0]] + q0[1..];
    ChildrenAre(edges, q0[0]);
    KidsReached(edges, node, q0[0], s - s0);
    LessLeft(Kin(edges) + {node}, s0, s);
    forall e | e in edges && e.parent in s && e.parent !in q
      ensures e.child in s
    {
      if e.parent == q0[0] {
        assert e == Edge(q0[0], e.child);
      } else {
        assert e.parent in s0 && e.parent !in q0;
      }
    }
  }

  lemma LessLeft(U: set<Name>, s0: set<Name>, s: set<Name>)
    requires s0 <= s <= U
    ensures |U - s| + |s - s0| == |U - s0|
  {
    assert U - s0 == (U - s) + (s - s0);
  }

  lemma KidsReached(edges: seq<Edge>, node: Name, n: Name, kids: set<Name>)
    requires Reaches(Elements(edges), node, n)
    requires forall c :: c in kids ==> Edge(n, c) in edges
    ensures forall c :: c in kids ==> Reaches(Elements(edges), node, c)
    ensures kids <= Kin(edges)
  {
    forall c | c in kids
      ensures Reaches(Elements(edges), node, c) && c in Kin(edges)
    {
      assert Edge(n, c) in Elements(edges);
      ReachesStep(Elements(edges), node, n, c);
    }
  }

  lemma AllCollected(E: Edges, node: Name, subtree: set<Name>)
    requires node in subtree
    requires forall y :: y in subtree ==> Reaches(E, node, y)
    requires forall e :: e in E && e.parent in subtree ==> e.child in subtree
    ensures subtree == Subtree(E, node)
  {
    forall y | Reaches(E, node, y)
      ensures y in subtree
    {
      var p :| PathFromTo(E, p, node, y);
      ClosedContains(E, subtree, p);
    }
    SubtreeFacts(E, node);
  }

  lemma UsedIs(st: State)
    ensures forall n :: n in Used(st) <==>
      n in st.publishers || exists e :: e in st.edges && (e.parent == n || e.child == n)
  {
    forall n
      ensures n in Used(st) <==> n in st.publishers || exists e :: e in st.edges && (e.parent == n || e.child == n)
    {
      UsedMeans(st, n);
    }
  }

  method UsedNodesSet(st: RoutingState) returns (used: set<Name>)
    ensures used == Used(st.Value())
    ensures forall n :: n in used <==>
      n in st.publishers || exists e :: e in st.edges && (e.parent == n || e.child == n)
  {
    UsedIs(st.Value());
    used := {};
    for i := 0 to |st.edges|
      invariant used == Ends(st.edges[..i])
    {
      assert st.edges[..i + 1][..i] == st.edges[..i];
      used := used + {st.edges[i].parent, st.edges[i].child};
    }
    assert st.edges[..|st.edges|] == st.edges;
    for i := 0 to |st.publishers|
      invariant used == Ends(st.edges) + Elements(st.publishers[..i])
    {
      used := used + {st.publishers[i]};
    }
    assert st.publishers[..|st.publishers|] == st.publishers;
  }

  method PickUnusedProxy(st: RoutingState, alive: set<Name>) returns (r: Option<Name>)
    ensures r == PickUnused(st.Value(), alive)
    ensures r.Some? ==> r.value in alive && Idle(st.Value(), r.value) && FirstIdle(st.Value(), r.value, alive)
    ensures r.None? ==> NoneIdle(st.Value(), alive)
  {
    PickIs(st.Value(), alive);
    var used := UsedNodesSet(st);
    for i := 0 to |st.proxies|
      invariant PickUnused(st.Value(), alive) == FirstUnused(st.proxies, used, alive, i)
    {
      if st.proxies[i] !in used && st.proxies[i] in alive {
        return Some(st.proxies[i]);
      }
    }
    return None;
  }

  // ----- register -----

  method RegisterPublisherAttempt(st: RoutingState, n: Name)
    modifies st
    ensures [st.Value()] == Proposals(RegisterPublisher(n), old(st.Value()), 0)
  {
    st.AddPublisher(n);
  }

  method RegisterProxyAttempt(st: RoutingState, n: Name)
    modifies st
    ensures [st.Value()] == Proposals(RegisterProxy(n), old(st.Value()), 0)
  {
    st.AddProxy(n);
  }

  // ----- disconnect -----

  lemma {:induction false} CutBySubtree(edges: seq<Edge>, node: Name, subtree: set<Name>)
    requires subtree == Subtree(Elements(edges), node)
    ensures Filter(edges, OutsideOf(subtree)) == CutEdges(edges, node)
  {
  }

  method DisconnectAttempt(st: RoutingState, node: Name)
    modifies st
    ensures [st.Value()] == Proposals(Disconnect(node), old(st.Value()), 0)
  {
    var children := BuildChildrenMap(st.edges);
    var subtree := CollectSubtree(st.edges, node, children);
    CutBySubtree(st.edges, node, subtree);
    st.edges := Filter(st.edges, OutsideOf(subtree));
  }

  // ----- subscribe -----

  method SeedAttachMs(st: RoutingState, sub: Name, env: Env)
    requires !st.Value().HasParentEdge(sub)
    modifies st`attachMs
    ensures st.Value() == Seeded(old(st.Value()), sub, env)
  {
    ghost var v := st.Value();
    if sub !in st.attachMs {
      st.attachMs := st.attachMs[sub := env.now];
    }
    for i := 0 to |st.edges|
      invariant st.Value() == v.(attachMs := st.attachMs)
      invariant forall n :: n in st.attachMs <==>
        n in v.attachMs || n == sub || (n in Kin(v.edges[..i]) && !v.IsIntermediate(n))
      invariant forall n :: n in st.attachMs ==>
        (st.attachMs[n] == if n in v.attachMs then v.attachMs[n] else if n == sub then env.now else env.seed)
    {
      var c := st.edges[i].child;
      assert st.edges[i] in st.edges;
      assert Elements(v.edges[..i + 1]) == Elements(v.edges[..i]) + {v.edges[i]};
      assert Kin(v.edges[..i + 1]) == Kin(v.edges[..i]) + {c};
      if c !in st.publishers && c !in st.proxies && c !in st.attachMs {
        st.attachMs := st.attachMs[c := env.seed];
      }
    }
    assert v.edges[..|v.edges|] == v.edges;
    assert st.attachMs == SeedMs(v, sub, env);
  }

  /** The swaps numbered from lo up to hi are all refused. */
  ghost predicate Refused(cas: set<nat>, lo: nat, hi: nat) {
    forall k :: lo <= k < hi ==> k !in cas
  }

  /** tries are the values of all that were offered, numbered from lo: every one if none was accepted, otherwise those
      up to the first that was. */
  ghost predicate StopsAtFirst(tries: seq<State>, all: seq<State>, won: bool, cas: set<nat>, lo: nat) {
    && tries <= all
    && (won ==> tries != [] && Refused(cas, lo, lo + |tries| - 1) && lo + |tries| - 1 in cas)
    && (!won ==> tries == all && Refused(cas, lo, lo + |tries|))
  }

  lemma RefusedNext(cas: set<nat>, lo: nat, hi: nat)
    requires Refused(cas, lo, hi) && hi !in cas
    ensures Refused(cas, lo, hi + 1)
  {
  }

  lemma Accepted(cas: set<nat>, lo: nat, k: nat, tries: seq<State>, st: State, rest: seq<State>)
    requires k == lo + |tries| && Refused(cas, lo, k) && k in cas
    ensures StopsAtFirst(tries + [st], tries + ([st] + rest), true, cas, lo)
  {
    assert tries + ([st] + rest) == (tries + [st]) + rest;
  }

  lemma StopsLater(first: seq<State>, tries: seq<State>, all: seq<State>, won: bool, cas: set<nat>, k: nat)
    requires k == |first| && Refused(cas, 0, k)
    requires StopsAtFirst(tries, all, won, cas, k)
    ensures StopsAtFirst(first + tries, first + all, won, cas, 0)
  {
  }

  /** Graft new proxy x under n: the loop moving children, one edge removed and one added at a time. */
  method GraftInPlace(st: RoutingState, n: Name, x: Name, sub: Name, movers: seq<Name>, ts: int)
    modifies st
    ensures st.Value() == Graft(old(st.Value()), n, x, sub, movers, ts)
  {
    st.AddEdgeUnique(n, x);
    st.AddEdgeUnique(x, sub);
    ghost var mid := st.Value();
    for i := 0 to |movers|
      invariant st.Value() == MoveAll(mid, n, x, movers[..i], ts)
    {
      assert movers[..i + 1][..i] == movers[..i];
      st.RemoveEdge(n, movers[i]);
      st.AddEdgeUnique(x, movers[i]);
      st.attachMs := st.attachMs[movers[i] := ts];
    }
    assert movers[..|movers|] == movers;
  }

  method TryAttach(st: RoutingState, ghost base: State, n: Name, kids: nat, sub: Name, f: nat, env: Env)
    returns (offered: bool)
    requires kids == |Children(base.edges, n)|
    modifies st
    ensures offered ==> st.Value().HasParentEdge(sub)
    ensures AttachStep(base, old(st.Value()), n, sub, f, env) == if offered then Offer(st.Value()) else Skip
    ensures !offered ==> st.Value() == old(st.Value())
  {
    if n in st.proxies && !(n in st.publishers || n in env.alive1) {
      return false;
    }
    if kids >= f {
      return false;
    }
    st.AddEdgeUnique(n, sub);
    assert Edge(n, sub) in st.Value().edges;
    return true;
  }

  /** Pass 1: try every node that has room, in breadth-first order, keeping the edge when the swap is refused. */
  method AttachPass(st: RoutingState, ghost base: State, nodes: seq<At>, children: ChildMap, sub: Name, f: nat,
                    env: Env,
                    cas: set<nat>) returns (won: bool, tries: seq<State>)
    requires st.Value() == base
    requires forall p :: Lookup(children, p) == Children(base.edges, p)
    modifies st
    ensures won ==> StopsAtFirst(tries, Pass1(base, base, nodes, 0, sub, f, env).tries, true, cas, 0)
    ensures won ==> st.Value() == tries[|tries| - 1] && st.Value().HasParentEdge(sub)
    ensures !won ==> Refused(cas, 0, |tries|)
    ensures !won ==> Pass1(base, base, nodes, 0, sub, f, env) ==
                     Offered(tries, Pass2(base, st.Value(), SortBy(nodes, ByDepth()), 0, sub, f, env))
  {
    won, tries := false, [];
    ghost var all := Pass1(base, base, nodes, 0, sub, f, env);
    for i := 0 to |nodes|
      invariant Refused(cas, 0, |tries|)
      invariant all == Offered(tries, Pass1(base, st.Value(), nodes, i, sub, f, env))
    {
      var n := nodes[i].node;
      var offered := TryAttach(st, base, n, |Lookup(children, n)|, sub, f, env);
      if offered {
        ghost var rest := Pass1(base, st.Value(), nodes, i + 1, sub, f, env);
        if |tries| in cas {
          Accepted(cas, 0, |tries|, tries, st.Value(), rest.tries);
          return true, tries + [st.Value()];
        }
        OfferedNext(tries, st.Value(), rest);
        RefusedNext(cas, 0, |tries|);
        tries := tries + [st.Value()];
      }
    }
  }

  method TryGraft(st: RoutingState, ghost base: State, n: Name, ch: seq<Name>, sub: Name, f: nat, env: Env)
    returns (offered: bool, stop: bool)
    requires ch == ChildrenIns(base.edges, n) && !base.HasParentEdge(sub)
    modifies st
    ensures offered ==> st.Value().HasParentEdge(sub)
    ensures GraftStep(base, old(st.Value()), n, sub, f, env) ==
            if stop then Stop else if offered then Offer(st.Value()) else Skip
    ensures !offered ==> st.Value() == old(st.Value())
    ensures stop ==> !offered && NoneIdle(st.Value(), env.PickAlive(n))
  {
    if n in st.proxies && !(n in st.publishers || n in env.alive2) {
      return false, false;
    }
    if ch == [] {
      return false, false;
    }
    if AllProxies(st.Value(), ch) {
      return false, false;
    }
    var picked := PickUnusedProxy(st, env.PickAlive(n));
    if picked == None {
      return false, true;
    }
    GraftAttaches(base, st.Value(), n, sub, f, env);
    GraftInPlace(st, n, picked.value, sub, Movers(st.Value(), ch, f), env.GraftMs(n));
    return true, false;
  }

  /** At one of the nodes no registered proxy that answers is idle. */
  ghost predicate LacksProxy(st: State, nodes: seq<At>, env: Env) {
    exists a :: a in nodes && NoneIdle(st, env.PickAlive(a.node))
  }

  /** What the loop of pass 2 has done before its i-th candidate: everything offered was refused. */
  ghost predicate AllRefused(base: State, cur: State, cands: seq<At>, i: nat, sub: Name, f: nat, env: Env,
                             cas: set<nat>,
                             done: nat, tries: seq<State>, all: Scan) {
    Goes(cas, done, tries, all, Pass2(base, cur, cands, i, sub, f, env))
  }

  /** All offered so far were refused, and what is left to offer is rest. */
  ghost predicate Goes(cas: set<nat>, done: nat, tries: seq<State>, all: Scan, rest: Scan) {
    Refused(cas, done, done + |tries|) && all == Offered(tries, rest)
  }

  lemma GoesOn(cas: set<nat>, done: nat, tries: seq<State>, all: Scan, next: State, rest: Scan)
    requires Goes(cas, done, tries, all, Offered([next], rest))
    ensures done + |tries| in cas ==> StopsAtFirst(tries + [next], all.tries, true, cas, done)
    ensures done + |tries| !in cas ==> Goes(cas, done, tries + [next], all, rest)
  {
    OfferedNext(tries, next, rest);
    if done + |tries| in cas {
      Accepted(cas, done, done + |tries|, tries, next, rest.tries);
    } else {
      RefusedNext(cas, done, done + |tries|);
    }
  }

  lemma RefusedAll(cas: set<nat>, done: nat, tries: seq<State>, all: Scan, noProxy: bool)
    requires Goes(cas, done, tries, all, Scan([], noProxy))
    ensures StopsAtFirst(tries, all.tries, false, cas, done) && all.noProxy == noProxy
  {
    assert tries + [] == tries;
  }

  /** One candidate of pass 2: from cur to next, offering or not, stopping or not. */
  lemma {:induction false} GraftTurned(base: State, cur: State, next: State, offered: bool, stop: bool, cands: seq<At>,
                                       i: nat, sub: Name, f: nat, env: Env, cas: set<nat>, done: nat, tries: seq<State>,
                                       all: Scan)
    requires i < |cands| && AllRefused(base, cur, cands, i, sub, f, env, cas, done, tries, all)
    requires GraftStep(base, cur, cands[i].node, sub, f, env) ==
             if stop then Stop else if offered then Offer(next) else Skip
    requires !offered ==> next == cur
    ensures stop ==> StopsAtFirst(tries, all.tries, false, cas, done) && all.noProxy
    ensures !stop && !offered ==> AllRefused(base, next, cands, i + 1, sub, f, env, cas, done, tries, all)
    ensures !stop && offered && done + |tries| in cas ==> StopsAtFirst(tries + [next], all.tries, true, cas, done)
    ensures !stop && offered && done + |tries| !in cas ==>
      AllRefused(base, next, cands, i + 1, sub, f, env, cas, done, tries + [next], all)
  {
    if stop {
      NextStopped(base, cur, cands, i, sub, f, env);
      RefusedAll(cas, done, tries, all, true);
    } else if offered {
      NextOffered(base, cur, next, cands, i, sub, f, env);
      GoesOn(cas, done, tries, all, next, Pass2(base, next, cands, i + 1, sub, f, env));
    } else {
      NextSkipped(base, cur, cands, i, sub, f, env);
    }
  }

  lemma {:induction false} GraftPassStarts(base: State, cur: State, cands: seq<At>, sub: Name, f: nat, env: Env,
                                           cas: set<nat>, done: nat)
    ensures AllRefused(base, cur, cands, 0, sub, f, env, cas, done, [], Pass2(base, cur, cands, 0, sub, f, env))
  {
    var all := Pass2(base, cur, cands, 0, sub, f, env);
    assert [] + all.tries == all.tries;
  }

  lemma GraftPassEnds(base: State, cur: State, cands: seq<At>, sub: Name, f: nat, env: Env, cas: set<nat>, done: nat,
                      tries: seq<State>, all: Scan)
    requires AllRefused(base, cur, cands, |cands|, sub, f, env, cas, done, tries, all)
    ensures StopsAtFirst(tries, all.tries, false, cas, done) && !all.noProxy
  {
  }

  /** The body of the loop of pass 2. */
  method GraftTurn(st: RoutingState, ghost base: State, ghost cands: seq<At>, ghost i: nat, n: Name, ch: seq<Name>,
                   sub: Name, f: nat, env: Env, cas: set<nat>, done: nat, tries: seq<State>, ghost all: Scan)
    returns (won: bool, stop: bool, tries': seq<State>)
    requires i < |cands| && n == cands[i].node && ch == ChildrenIns(base.edges, n) && !base.HasParentEdge(sub)
    requires AllRefused(base, st.Value(), cands, i, sub, f, env, cas, done, tries, all)
    modifies st
    ensures won ==> !stop && StopsAtFirst(tries', all.tries, true, cas, done) && st.Value() == tries'[|tries'| - 1]
    ensures won ==> st.Value().HasParentEdge(sub)
    ensures stop ==> StopsAtFirst(tries', all.tries, false, cas, done) && all.noProxy
    ensures stop ==> NoneIdle(st.Value(), env.PickAlive(n))
    ensures !won && !stop ==> AllRefused(base, st.Value(), cands, i + 1, sub, f, env, cas, done, tries', all)
  {
    ghost var cur := st.Value();
    var offered;
    offered, stop := TryGraft(st, base, n, ch, sub, f, env);
    GraftTurned(base, cur, st.Value(), offered, stop, cands, i, sub, f, env, cas, done, tries, all);
    won, tries' := false, tries;
    if offered {
      won, tries' := done + |tries| in cas, tries + [st.Value()];
    }
  }

  /** Pass 2: graft an unused proxy under the deepest node that can give it children. */
  method GraftPass(st: RoutingState, ghost base: State, nodes: seq<At>, childrenIns: ChildMap, sub: Name, f: nat,
                   env: Env,
                   cas: set<nat>, done: nat) returns (won: bool, noProxy: bool, tries: seq<State>)
    requires !base.HasParentEdge(sub) && forall p :: Lookup(childrenIns, p) == ChildrenIns(base.edges, p)
    modifies st
    ensures var all := Pass2(base, old(st.Value()), SortBy(nodes, ByDepth()), 0, sub, f, env);
      StopsAtFirst(tries, all.tries, won, cas, done) && (!won ==> noProxy == all.noProxy)
    ensures won ==> st.Value() == tries[|tries| - 1] && st.Value().HasParentEdge(sub)
    ensures noProxy ==> !won && LacksProxy(st.Value(), nodes, env)
  {
    won, noProxy, tries := false, false, [];
    var cands := SortBy(nodes, ByDepth());
    ghost var all := Pass2(base, st.Value(), cands, 0, sub, f, env);
    GraftPassStarts(base, st.Value(), cands, sub, f, env, cas, done);
    for i := 0 to |cands|
      invariant AllRefused(base, st.Value(), cands, i, sub, f, env, cas, done, tries, all)
    {
      var n := cands[i].node;
      won, noProxy, tries := GraftTurn(st, base, cands, i, n, Lookup(childrenIns, n), sub, f, env, cas, done, tries,
          all);
      if won {
        return;
      }
      if noProxy {
        SortedIn(nodes, ByDepth(), i);
        return;
      }
    }
    GraftPassEnds(base, st.Value(), cands, sub, f, env, cas, done, tries, all);
    noProxy := false;
  }

  lemma {:induction false} SortedIn(nodes: seq<At>, le: (At, At) -> bool, i: nat)
    requires i < |SortBy(nodes, le)|
    ensures SortBy(nodes, le)[i] in nodes
  {
    SortByBag(nodes, le);
    SameBag(SortBy(nodes, le), nodes);
    assert SortBy(nodes, le)[i] in SortBy(nodes, le);
  }

  lemma OfferedNext(tries: seq<State>, st: State, rest: Scan)
    ensures Offered(tries, Offered([st], rest)) == Offered(tries + [st], rest)
  {
    assert tries + ([st] + rest.tries) == (tries + [st]) + rest.tries;
  }

  /** Pass 2 behind a pass 1 whose offers, first, were all refused. */
  method GrowTree(st: RoutingState, ghost base: State, nodes: seq<At>, childrenIns: ChildMap, sub: Name, f: nat,
                  env: Env,
                  cas: set<nat>, first: seq<State>) returns (won: bool, noProxy: bool, tries: seq<State>)
    requires !base.HasParentEdge(sub) && forall p :: Lookup(childrenIns, p) == ChildrenIns(base.edges, p)
    requires Refused(cas, 0, |first|)
    modifies st
    ensures var scan := Offered(first, Pass2(base, old(st.Value()), SortBy(nodes, ByDepth()), 0, sub, f, env));
      StopsAtFirst(tries, scan.tries, won, cas, 0) && (!won ==> noProxy == scan.noProxy)
    ensures won ==> st.Value() == tries[|tries| - 1] && st.Value().HasParentEdge(sub)
    ensures noProxy ==> !won && LacksProxy(st.Value(), nodes, env)
  {
    ghost var rest := Pass2(base, st.Value(), SortBy(nodes, ByDepth()), 0, sub, f, env);
    won, noProxy, tries := GraftPass(st, base, nodes, childrenIns, sub, f, env, cas, |first|);
    StopsLater(first, tries, rest.tries, won, cas, |first|);
    tries := first + tries;
  }

  /** The part of the turn after attach times are seeded: the search, then both passes. */
  method PlaceSubscriber(st: RoutingState, sub: Name, f: nat, env: Env, cas: set<nat>)
    returns (won: bool, noProxy: bool, tries: seq<State>)
    requires st.publishers != [] && !st.Value().HasParentEdge(sub)
    modifies st
    ensures var base := old(st.Value());
      var scan := Pass1(base, base, Bfs(base, base.Root()), 0, sub, f, env);
      StopsAtFirst(tries, scan.tries, won, cas, 0) && (!won ==> noProxy == scan.noProxy)
    ensures won ==> st.Value() == tries[|tries| - 1] && st.Value().HasParentEdge(sub)
    ensures noProxy ==> !won
    ensures noProxy ==> LacksProxy(st.Value(), Bfs(old(st.Value()), old(st.Value()).Root()), env)
  {
    ghost var base := st.Value();
    var children := BuildChildrenMap(st.edges);
    var childrenIns := BuildChildrenMapInsertionOrder(st.edges);
    var nodes := BfsIntermediatesWithDepth(st, st.publishers[0], children);
    won, tries := AttachPass(st, base, nodes, children, sub, f, env, cas);
    if won {
      return true, false, tries;
    }
    won, noProxy, tries := GrowTree(st, base, nodes, childrenIns, sub, f, env, cas, tries);
  }
}
