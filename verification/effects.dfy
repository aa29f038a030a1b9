/** What the operations write and report, said with the fields of the stored value alone. */
module Effects {
  import opened Basics
  import opened Tree
  import opened RoutingModel
  import opened BfsProofs
  import opened Fanout
  import opened TreeSafety
  import opened Growth

  // ----- registering and disconnecting -----

  lemma RegisterWrites(st: State, n: Name, f: nat)
    ensures Proposals(RegisterPublisher(n), st, f) ==
      [State(if n in st.publishers then st.publishers else st.publishers + [n], st.proxies, st.edges, st.attachMs)]
    ensures Proposals(RegisterProxy(n), st, f) ==
      [State(st.publishers, if n in st.proxies then st.proxies else st.proxies + [n], st.edges, st.attachMs)]
  {
  }

  /** t is s with some of its elements left out. */
  ghost predicate InOrder<T(!new)>(t: seq<T>, s: seq<T>) {
    t == [] || (s != [] && (InOrder(t, s[..|s| - 1]) ||
                            (t[|t| - 1] == s[|s| - 1] && InOrder(t[..|t| - 1], s[..|s| - 1]))))
  }

  lemma {:induction false} FilterInOrder<T(!new)>(s: seq<T>, keep: T -> bool)
    ensures InOrder(Filter(s, keep), s)
  {
    if s != [] {
      FilterInOrder(s[..|s| - 1], keep);
      var r := Filter(s[..|s| - 1], keep);
      assert (r + [s[|s| - 1]])[..|r|] == r;
    }
  }

  lemma {:induction false} FilterCounts<T(!new)>(s: seq<T>, keep: T -> bool, x: T)
    ensures multiset(Filter(s, keep))[x] == if keep(x) then multiset(s)[x] else 0
  {
    if s != [] {
      FilterCounts(s[..|s| - 1], keep, x);
      assert s == s[..|s| - 1] + [s[|s| - 1]];
    }
  }

  lemma {:induction false} FilterAll<T(!new)>(s: seq<T>, keep: T -> bool)
    requires forall x :: x in s ==> keep(x)
    ensures Filter(s, keep) == s
  {
    if s != [] {
      FilterAll(s[..|s| - 1], keep);
    }
  }

  lemma {:induction false} FilterTail(s: seq<Name>, x: Name)
    requires Distinct(s) && s != [] && s[0] == x
    ensures Filter(s, NotName(x)) == s[1..]
  {
    if |s| == 1 {
      assert s[..0] == [];
    } else {
      var t := s[..|s| - 1];
      FilterTail(t, x);
      assert s[|s| - 1] != x by {
        assert t[0] in t;
      }
      assert t[1..] + [s[|s| - 1]] == s[1..];
    }
  }

  /** Both disconnects leave edges out and keep the order of the others. Core's changes nothing else. The signaling
      server's drops the attach times and takes the node off both lists, keeping the order: when the root goes, the
      next publisher comes first. */
  lemma DisconnectWrites(st: State, n: Name, f: nat)
    ensures |Proposals(Disconnect(n), st, f)| == |Proposals(SignalDisconnect(n), st, f)| == 1
    ensures var core := Proposals(Disconnect(n), st, f)[0];
      InOrder(core.edges, st.edges) && core == State(st.publishers, st.proxies, core.edges, st.attachMs)
    ensures var signal := Proposals(SignalDisconnect(n), st, f)[0];
      && InOrder(signal.edges, st.edges) && signal.attachMs == map[]
      && InOrder(signal.publishers, st.publishers) && InOrder(signal.proxies, st.proxies)
      && (n !in st.publishers ==> signal.publishers == st.publishers)
      && (st.publishers != [] && st.publishers[0] == n && Distinct(st.publishers) ==>
          signal.publishers == st.publishers[1..])
  {
    FilterInOrder(st.edges, OutsideOf(Subtree(Elements(st.edges), n)));
    FilterInOrder(st.publishers, NotName(n));
    FilterInOrder(st.proxies, NotName(n));
    if n !in st.publishers {
      FilterAll(st.publishers, NotName(n));
    }
    if st.publishers != [] && st.publishers[0] == n && Distinct(st.publishers) {
      FilterTail(st.publishers, n);
    }
  }

  // ----- attach times -----

  ghost predicate ListenerChild(st: State, c: Name) {
    c !in st.publishers && c !in st.proxies && exists e :: e in st.edges && e.child == c
  }

  /** The times an attempt works with: those stored, the clock for the subscriber if it has none, and a second reading
      for every child that is neither publisher nor proxy and has none. Nothing else changes. */
  lemma SeededTimes(st: State, sub: Name, env: Env)
    ensures var base := Seeded(st, sub, env);
      && base == State(st.publishers, st.proxies, st.edges, base.attachMs)
      && (forall c :: c in base.attachMs <==> c in st.attachMs || c == sub || ListenerChild(st, c))
      && (forall c :: c in base.attachMs ==>
            base.attachMs[c] == if c in st.attachMs then st.attachMs[c] else if c == sub then env.now else env.seed)
  {
    forall c
      ensures c in Kin(st.edges) <==> exists e :: e in st.edges && e.child == c
    {
      KinHasEdge(st, c);
    }
  }

  // ----- what the first offer of an attempt is -----

  /** Not a proxy, or also a publisher, or answering. */
  ghost predicate Serves(st: State, n: Name, alive: set<Name>) {
    n !in st.proxies || n in st.publishers || n in alive
  }

  ghost predicate Roomy(st: State, n: Name, f: nat, alive: set<Name>) {
    Serves(st, n, alive) && |ChildSet(Elements(st.edges), n)| < f
  }

  /** It has a child that can move. */
  ghost predicate Graftable(st: State, n: Name, alive: set<Name>) {
    Serves(st, n, alive) && exists c :: Edge(n, c) in st.edges && c !in st.proxies
  }

  datatype First =
    | RoomAt(at: nat)
    | GraftUnder(at: nat, proxy: Name, moved: set<Name>)
    | NoProxyAt(at: nat)
    | NoPlace

  /** What pass 1 does at n when the value read was base and the value so far is cur: children are counted as read. */
  lemma AttachMeans(base: State, cur: State, n: Name, sub: Name, f: nat, env: Env)
    ensures AttachStep(base, cur, n, sub, f, env) ==
            if Serves(cur, n, env.alive1) && |ChildSet(Elements(base.edges), n)| < f then Offer(cur.AddEdge(n, sub))
            else Skip
  {
    ChildrenCount(base.edges, n);
  }

  /** When pass 2 passes over n, and when it gives up there. */
  lemma StepMeans(base: State, cur: State, n: Name, sub: Name, f: nat, env: Env)
    ensures GraftStep(base, cur, n, sub, f, env) == Skip <==>
            !(Serves(cur, n, env.alive2) && exists c :: Edge(n, c) in base.edges && c !in cur.proxies)
    ensures GraftStep(base, cur, n, sub, f, env) == Stop ==> NoneIdle(cur, env.PickAlive(n))
  {
    var ch := ChildrenIns(base.edges, n);
    ChildrenCount(base.edges, n);
    if c :| Edge(n, c) in base.edges && c !in cur.proxies {
      assert c in ch;
    }
    if ch != [] && !AllProxies(cur, ch) {
      var c :| c in ch && c !in cur.proxies;
      assert Edge(n, c) in base.edges;
    }
    PickIs(cur, env.PickAlive(n));
  }

  /** Deepest first, and by name among nodes of the same depth. */
  lemma CandidateOrder(st: State, i: nat, j: nat)
    requires st.publishers != [] && i < j < |Cands(st)|
    ensures var a, b := Cands(st)[i], Cands(st)[j];
      a.depth > b.depth || (a.depth == b.depth && a.node < b.node)
  {
    ByDepthTotal();
    SortByOrdered(Bfs(st, st.Root()), ByDepth());
    CandsAhead(st);
    DistinctNodesAt(Cands(st), i, j);
    assert ByDepth()(Cands(st)[i], Cands(st)[j]);
  }

  /** The candidates are the nodes of the search. */
  lemma CandidatesAre(st: State, a: At)
    requires st.publishers != []
    ensures a in Cands(st) <==> a in Bfs(st, st.Root())
    ensures |Cands(st)| == |Bfs(st, st.Root())|
  {
    SortByBag(Bfs(st, st.Root()), ByDepth());
    SameBag(Cands(st), Bfs(st, st.Root()));
  }

  /** What a graft of x under n writes: the edges, and the time of the move for the children that moved. */
  ghost predicate GraftWritten(base: State, next: State, n: Name, x: Name, sub: Name, m: set<Name>, ts: int) {
    && next.publishers == base.publishers && next.proxies == base.proxies
    && (forall e :: e in next.edges <==>
          || e == Edge(n, x) || e == Edge(x, sub) || (e.parent == x && e.child in m)
          || (e in base.edges && !(e.parent == n && e.child in m)))
    && (forall c :: c in next.attachMs <==> c in base.attachMs || c in m)
    && (forall c :: c in next.attachMs ==> next.attachMs[c] == if c in m then ts else base.attachMs[c])
  }

  /** The children that move: those attached longest ago, by name if at the same time, f - 1 of them or all, at least
      one. */
  ghost predicate OldestOf(base: State, cur: State, n: Name, m: set<Name>, f: nat) {
    var kids := Movable(base, cur, n);
    var most := if f >= 2 then f - 1 else 1;
    && m <= kids && |m| == (if |kids| < most then |kids| else most)
    && LongestAttached(cur.attachMs, m, kids - m)
  }

  /** What pass 2 offers first, when it comes to that. */
  ghost predicate GraftMeant(base: State, scan: Scan, sub: Name, f: nat, env: Env, o: First)
    requires base.publishers != [] && !o.RoomAt?
  {
    var cands, offers := Cands(base), scan.tries;
    match o
    case GraftUnder(k, x, m) =>
      && FirstGraftable(base, cands, env, k)
      && x in env.PickAlive(cands[k].node) && Idle(base, x) && FirstIdle(base, x, env.PickAlive(cands[k].node))
      && OldestOf(base, base, cands[k].node, m, f)
      && offers != [] && GraftWritten(base, offers[0], cands[k].node, x, sub, m, env.GraftMs(cands[k].node))
    case NoProxyAt(k) =>
      && FirstGraftable(base, cands, env, k) && offers == [] && scan.noProxy
      && NoneIdle(base, env.PickAlive(cands[k].node))
    case NoPlace =>
      && offers == [] && !scan.noProxy
      && forall j :: 0 <= j < |cands| ==> !Graftable(base, cands[j].node, env.alive2)
  }

  ghost predicate FirstGraftable(base: State, cands: seq<At>, env: Env, k: nat) {
    && k < |cands| && Graftable(base, cands[k].node, env.alive2)
    && forall j :: 0 <= j < k ==> !Graftable(base, cands[j].node, env.alive2)
  }

  ghost predicate FirstMeans(st: State, sub: Name, f: nat, env: Env, o: First)
    requires st.publishers != []
  {
    var base, scan := Seeded(st, sub, env), SubscribeScan(st, sub, f, env);
    var nodes := Bfs(base, st.Root());
    && (forall e :: e in st.edges && e.child !in st.publishers && e.child !in st.proxies ==> e.child in base.attachMs)
    && if o.RoomAt? then
      && o.at < |nodes| && Roomy(base, nodes[o.at].node, f, env.alive1)
      && (forall j :: 0 <= j < o.at ==> !Roomy(base, nodes[j].node, f, env.alive1))
      && scan.tries != []
      && scan.tries[0] == State(st.publishers, st.proxies, st.edges + [Edge(nodes[o.at].node, sub)], base.attachMs)
    else
      && (forall j :: 0 <= j < |nodes| ==> !Roomy(base, nodes[j].node, f, env.alive1))
      && GraftMeant(base, scan, sub, f, env, o)
  }

  /** What pass 2 offers at n, first or later, whatever the value read and the value so far: children to move are those
      read, their times those so far. */
  lemma GraftMeans(base: State, cur: State, n: Name, sub: Name, f: nat, env: Env) returns (x: Name, m: set<Name>)
    requires f >= 1 && n in Used(cur) && GraftStep(base, cur, n, sub, f, env).Offer?
    ensures x in env.PickAlive(n) && Idle(cur, x) && FirstIdle(cur, x, env.PickAlive(n))
    ensures OldestOf(base, cur, n, m, f)
    ensures GraftWritten(cur, GraftStep(base, cur, n, sub, f, env).st, n, x, sub, m, env.GraftMs(n))
  {
    var movers := Movers(cur, ChildrenIns(base.edges, n), f);
    x, m := PickUnused(cur, env.PickAlive(n)).value, Elements(movers);
    PickIs(cur, env.PickAlive(n));
    UsedMeans(cur, x);
    ChildrenCount(base.edges, n);
    MoversAre(cur, ChildrenIns(base.edges, n), f);
    FirstUnusedIs(cur.proxies, Used(cur), env.PickAlive(n), 0);
    MoversOldest(base, cur, n, f);
    MoversWritten(cur, n, x, sub, movers, env.GraftMs(n));
  }

  ghost function Movable(base: State, cur: State, n: Name): set<Name> {
    set c | c in ChildSet(Elements(base.edges), n) && c !in cur.proxies
  }

  lemma MovableAre(base: State, cur: State, n: Name)
    ensures var ch := ChildrenIns(base.edges, n);
      && Distinct(ch) && |Filter(ch, NotProxy(cur))| == |Movable(base, cur, n)|
      && forall c :: c in Movable(base, cur, n) <==> c in ch && c !in cur.proxies
  {
    var ch := ChildrenIns(base.edges, n);
    ChildrenCount(base.edges, n);
    FilterDistinct(ch, NotProxy(cur));
    FilterIs(ch, NotProxy(cur));
    DistinctCard(Filter(ch, NotProxy(cur)));
    assert Elements(Filter(ch, NotProxy(cur))) == Movable(base, cur, n);
  }

  lemma MoversOldest(base: State, cur: State, n: Name, f: nat)
    requires !AllProxies(cur, ChildrenIns(base.edges, n))
    ensures OldestOf(base, cur, n, Elements(Movers(cur, ChildrenIns(base.edges, n), f)), f)
  {
    var ch := ChildrenIns(base.edges, n);
    var m := Movers(cur, ch, f);
    MovableAre(base, cur, n);
    MoversAre(cur, ch, f);
    DistinctCard(m);
    var c :| c in ch && c !in cur.proxies;
    assert c in Movable(base, cur, n);
    assert Elements(m) <= Movable(base, cur, n);
    MoversLongest(cur, ch, f, m, Movable(base, cur, n));
  }

  lemma {:induction false} MoversLongest(cur: State, ch: seq<Name>, f: nat, m: seq<Name>, kids: set<Name>)
    requires Distinct(ch) && !AllProxies(cur, ch) && m == Movers(cur, ch, f)
    requires forall c :: c in kids ==> c in ch && c !in cur.proxies
    ensures LongestAttached(cur.attachMs, Elements(m), kids - Elements(m))
  {
    MoversAre(cur, ch, f);
    forall a, b | a in Elements(m) && b in kids - Elements(m)
      ensures OlderThan(cur.attachMs, a, b)
    {
    }
  }

  lemma MoversWritten(cur: State, n: Name, x: Name, sub: Name, movers: seq<Name>, ts: int)
    requires n != x && x !in movers
    ensures GraftWritten(cur, Graft(cur, n, x, sub, movers, ts), n, x, sub, Elements(movers), ts)
  {
    var next := Graft(cur, n, x, sub, movers, ts);
    GraftIs(cur, n, x, sub, movers, ts);
    MoveTimes(cur.AddEdge(n, x).AddEdge(x, sub), n, x, movers, ts);
    forall e
      ensures e in next.edges <==>
        || e == Edge(n, x) || e == Edge(x, sub) || (e.parent == x && e.child in Elements(movers))
        || (e in cur.edges && !(e.parent == n && e.child in Elements(movers)))
    {
      assert e in next.edges <==> e in Elements(next.edges);
      assert e in cur.edges <==> e in Elements(cur.edges);
    }
  }

  /** On every stored value, whatever the heartbeats and clocks answer: an attempt attaches at the first node of the
      search that serves and has room; without one it grafts at the first candidate that serves and has a child to
      move, taking the first registered proxy that answers and is idle and moving the oldest children; without such a
      proxy, or such a candidate, it offers nothing. */
  lemma FirstOffer(st: State, sub: Name, f: nat, env: Env) returns (o: First)
    requires f >= 1 && st.publishers != [] && !st.HasParentEdge(sub)
    ensures FirstMeans(st, sub, f, env, o)
  {
    var base := Seeded(st, sub, env);
    var nodes := Bfs(base, st.Root());
    var k := Pass1First(base, nodes, 0, sub, f, env);
    RoomyAre(base, nodes, sub, f, env);
    SeededTimes(st, sub, env);
    if k < |nodes| {
      o := RoomAt(k);
      assert Edge(nodes[k].node, sub).child == sub;
    } else {
      o := FirstGraft(base, sub, f, env);
    }
  }

  /** The same for pass 2. */
  lemma FirstGraft(base: State, sub: Name, f: nat, env: Env) returns (o: First)
    requires f >= 1 && base.publishers != []
    ensures !o.RoomAt? && GraftMeant(base, Pass2(base, base, Cands(base), 0, sub, f, env), sub, f, env, o)
  {
    var cands := Cands(base);
    var c := Pass2First(base, cands, 0, sub, f, env);
    GraftableAre(base, sub, f, env);
    if c == |cands| {
      o := NoPlace;
    } else if GraftStep(base, base, cands[c].node, sub, f, env) == Stop {
      StepMeans(base, base, cands[c].node, sub, f, env);
      o := NoProxyAt(c);
    } else {
      CandIn(base, c);
      RootUsed(base, cands[c].node);
      var x, m := GraftMeans(base, base, cands[c].node, sub, f, env);
      o := GraftUnder(c, x, m);
    }
  }

  lemma RoomyAre(base: State, nodes: seq<At>, sub: Name, f: nat, env: Env)
    ensures forall j :: 0 <= j < |nodes| ==>
      (AttachStep(base, base, nodes[j].node, sub, f, env) ==
       if Roomy(base, nodes[j].node, f, env.alive1) then Offer(base.AddEdge(nodes[j].node, sub)) else Skip)
  {
    forall j | 0 <= j < |nodes|
      ensures AttachStep(base, base, nodes[j].node, sub, f, env) ==
              if Roomy(base, nodes[j].node, f, env.alive1) then Offer(base.AddEdge(nodes[j].node, sub)) else Skip
    {
      AttachMeans(base, base, nodes[j].node, sub, f, env);
    }
  }

  lemma GraftableAre(base: State, sub: Name, f: nat, env: Env)
    requires base.publishers != []
    ensures forall j :: 0 <= j < |Cands(base)| ==>
      (GraftStep(base, base, Cands(base)[j].node, sub, f, env) == Skip <==>
          !Graftable(base, Cands(base)[j].node, env.alive2))
  {
    forall j | 0 <= j < |Cands(base)|
      ensures GraftStep(base, base, Cands(base)[j].node, sub, f, env) == Skip <==>
              !Graftable(base, Cands(base)[j].node, env.alive2)
    {
      StepMeans(base, base, Cands(base)[j].node, sub, f, env);
    }
  }

  /** Whatever the stored value and the heartbeat answers: if some node the search outputs serves and has room, the
      first offer puts the subscriber under the first such node of the search, one at the least distance from the
      root. */
  lemma AttachesAtLeastDepth(st: State, sub: Name, f: nat, env: Env, j: nat) returns (k: nat)
    requires st.publishers != [] && !st.HasParentEdge(sub) && j < |Bfs(Seeded(st, sub, env), st.Root())|
    requires var base := Seeded(st, sub, env);
      Roomy(base, Bfs(base, st.Root())[j].node, f, env.alive1)
    ensures var base, offers := Seeded(st, sub, env), Proposals(Subscribe(sub, env), st, f);
      var nodes := Bfs(base, st.Root());
      && k <= j && nodes[k].depth <= nodes[j].depth && Roomy(base, nodes[k].node, f, env.alive1)
      && offers != [] && offers[0].edges == st.edges + [Edge(nodes[k].node, sub)]
  {
    var base := Seeded(st, sub, env);
    var nodes := Bfs(base, st.Root());
    k := Pass1First(base, nodes, 0, sub, f, env);
    AttachMeans(base, base, nodes[j].node, sub, f, env);
    assert k <= j;
    AttachMeans(base, base, nodes[k].node, sub, f, env);
    SearchByDepth(base, st.Root(), k, j);
    assert Edge(nodes[k].node, sub).child == sub;
  }
}
