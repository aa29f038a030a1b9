/** With fixed roles, every operation on the value it was read from keeps the stored edges a tree. */
module TreeSafety {
  import opened Basics
  import opened Tree
  import opened RoutingModel
  import opened BfsProofs
  import opened Fanout

  /** A node has one role for a topic, chosen by its configuration. */
  datatype Role = Publisher | Proxy | Listener

  type Roles = Name -> Role

  /** Every parent is the root or a registered proxy, no publisher is a child, every proxy that is a child is
      registered. */
  ghost predicate Registered(role: Roles, st: State) {
    forall e :: e in st.edges ==>
      && (e.parent in st.proxies || (st.publishers != [] && e.parent == st.publishers[0]))
      && role(e.child) != Publisher
      && (role(e.child) == Proxy ==> e.child in st.proxies)
  }

  ghost predicate RolesOk(role: Roles, st: State) {
    && (forall p :: p in st.publishers ==> role(p) == Publisher)
    && (forall p :: p in st.proxies ==> role(p) == Proxy)
    && Distinct(st.publishers) && Distinct(st.proxies)
  }

  ghost predicate TreeWith(st: State, d: map<Name, nat>) {
    st.publishers != [] && IsTree(Elements(st.edges), st.publishers[0], d)
  }

  ghost predicate IsTreeState(st: State) {
    if st.publishers == [] then st.edges == [] else exists d :: TreeWith(st, d)
  }

  ghost predicate Inv(role: Roles, st: State) {
    RolesOk(role, st) && Registered(role, st) && Distinct(st.edges) && IsTreeState(st)
  }

  // ----- what the invariant says about a value -----

  /** manage_topic_connections lets a proxy subscribe again when it has children but no parent. */
  ghost predicate Rejoins(st: State, p: Name) {
    (exists e :: e in st.edges && e.parent == p) && !st.HasParentEdge(p)
  }

  lemma NoRejoin(role: Roles, st: State, p: Name)
    requires Inv(role, st) && role(p) == Proxy
    ensures !Rejoins(st, p)
  {
    if st.publishers != [] {
      var d :| TreeWith(st, d);
      if e :| e in st.edges && e.parent == p {
        assert e in Elements(st.edges);
        assert p in d && p != st.publishers[0];
        assert HasParent(Elements(st.edges), p);
        var q :| Edge(q, p) in Elements(st.edges);
        assert Edge(q, p) in st.edges && Edge(q, p).child == p;
      }
    }
  }

  /** Everything in the tree hangs from publishers[0]; nothing else has an edge. */
  lemma InvMeans(role: Roles, st: State)
    requires Inv(role, st) && st.publishers != []
    ensures var E := Elements(st.edges);
      && (forall e :: e in E ==> Reaches(E, st.publishers[0], e.parent) && Reaches(E, st.publishers[0], e.child))
      && (forall p :: Edge(p, st.publishers[0]) !in E)
      && (forall p, q, c :: Edge(p, c) in E && Edge(q, c) in E ==> p == q)
      && (forall x, p :: PathFromTo(E, p, x, x) ==> p == [x])
  {
    var d :| TreeWith(st, d);
    TreeMeaning(Elements(st.edges), st.publishers[0], d);
  }

  // ----- the first offer of a subscribe attempt -----

  ghost function Cands(st: State): seq<At>
    requires st.publishers != []
  {
    SortBy(Bfs(st, st.Root()), ByDepth())
  }

  lemma {:induction false} Pass2First(base: State, cands: seq<At>, i: nat, sub: Name, f: nat, env: Env) returns (k: nat)
    requires i <= |cands|
    ensures i <= k <= |cands|
    ensures forall j :: i <= j < k ==> GraftStep(base, base, cands[j].node, sub, f, env) == Skip
    ensures var scan := Pass2(base, base, cands, i, sub, f, env);
      if k == |cands| then scan == Scan([], false) else
        match GraftStep(base, base, cands[k].node, sub, f, env)
        case Skip => false
        case Stop => scan == Scan([], true)
        case Offer(next) => scan.tries != [] && scan.tries[0] == next
    decreases |cands| - i
  {
    k := i;
    if i < |cands| {
      match GraftStep(base, base, cands[i].node, sub, f, env)
      case Skip =>
        k := Pass2First(base, cands, i + 1, sub, f, env);
        forall j | i <= j < k
          ensures GraftStep(base, base, cands[j].node, sub, f, env) == Skip
        {
          assert j == i || i + 1 <= j;
        }
      case Stop =>
      case Offer(next) => Pass2Offers(base, base, cands, i, sub, f, env, next);
    }
  }

  lemma {:induction false} Pass2Offers(base: State, cur: State, cands: seq<At>, i: nat, sub: Name, f: nat, env: Env,
                                       next: State)
    requires i < |cands| && GraftStep(base, cur, cands[i].node, sub, f, env) == Offer(next)
    ensures var scan := Pass2(base, cur, cands, i, sub, f, env);
      scan.tries != [] && scan.tries[0] == next
  {
  }

  lemma {:induction false} Pass1First(base: State, nodes: seq<At>, i: nat, sub: Name, f: nat, env: Env) returns (k: nat)
    requires i <= |nodes|
    ensures i <= k <= |nodes|
    ensures forall j :: i <= j < k ==> AttachStep(base, base, nodes[j].node, sub, f, env) == Skip
    ensures var scan := Pass1(base, base, nodes, i, sub, f, env);
      if k == |nodes| then scan == Pass2(base, base, SortBy(nodes, ByDepth()), 0, sub, f, env) else
        && AttachStep(base, base, nodes[k].node, sub, f, env).Offer?
        && scan.tries != [] && scan.tries[0] == base.AddEdge(nodes[k].node, sub)
    decreases |nodes| - i
  {
    if i == |nodes| || AttachStep(base, base, nodes[i].node, sub, f, env) != Skip {
      k := i;
    } else {
      k := Pass1First(base, nodes, i + 1, sub, f, env);
    }
  }

  // ----- inner nodes of a tree -----

  lemma InnerReach(st: State, n: Name)
    requires st.publishers != [] && n in Nodes(Bfs(st, st.Root()))
    ensures Reaches(Elements(st.edges), st.Root(), n)
    ensures n == st.Root() || st.IsIntermediate(n)
  {
    BfsExact(st, st.Root());
    var p :| PathFromTo(Inner(st), p, st.Root(), n);
    forall i | 0 <= i < |p| - 1
      ensures Edge(p[i], p[i + 1]) in Elements(st.edges)
    {
      assert Edge(p[i], p[i + 1]) in Inner(st);
    }
    assert PathFromTo(Elements(st.edges), p, st.Root(), n);
    if |p| > 1 {
      assert Edge(p[|p| - 2], p[|p| - 1]) in Inner(st);
    }
  }

  /** A node the search outputs is attached, and is the root or a registered proxy. */
  lemma InnerAttached(role: Roles, st: State, d: map<Name, nat>, n: Name)
    requires RolesOk(role, st) && Registered(role, st) && TreeWith(st, d)
    requires n in Nodes(Bfs(st, st.Root()))
    ensures n in d && (n == st.Root() || n in st.proxies)
  {
    InnerReach(st, n);
    TreeMeaning(Elements(st.edges), st.Root(), d);
    if n != st.Root() {
      assert HasParent(Elements(st.edges), n);
      var q :| Edge(q, n) in Elements(st.edges);
      assert role(Edge(q, n).child) != Publisher;
    }
  }

  lemma CandIn(st: State, k: nat)
    requires st.publishers != [] && k < |Cands(st)|
    ensures Cands(st)[k] in Bfs(st, st.Root())
    ensures Cands(st)[k].node in Nodes(Bfs(st, st.Root()))
  {
    var nodes := Bfs(st, st.Root());
    SortByBag(nodes, ByDepth());
    SameBag(Cands(st), nodes);
    assert Cands(st)[k] in nodes;
    var a :| 0 <= a < |nodes| && nodes[a] == Cands(st)[k];
    NodeIn(nodes, a);
  }

  // ----- each operation keeps the invariant -----

  lemma AttachedHasEdge(st: State, d: map<Name, nat>)
    requires TreeWith(st, d)
    ensures forall y :: y in d && y != st.Root() ==> st.HasParentEdge(y)
  {
    forall y | y in d && y != st.Root()
      ensures st.HasParentEdge(y)
    {
      assert HasParent(Elements(st.edges), y);
      var q :| Edge(q, y) in Elements(st.edges);
      assert Edge(q, y) in st.edges && Edge(q, y).child == y;
    }
  }

  lemma AttachKeeps(role: Roles, st: State, d: map<Name, nat>, n: Name, sub: Name)
    requires RolesOk(role, st) && Registered(role, st) && Distinct(st.edges) && TreeWith(st, d)
    requires n in Nodes(Bfs(st, st.Root())) && role(sub) == Listener && !st.HasParentEdge(sub)
    ensures n in d && sub !in d
    ensures TreeWith(st.AddEdge(n, sub), d[sub := d[n] + 1])
    ensures Inv(role, st.AddEdge(n, sub))
  {
    AttachKeepsTree(role, st, d, n, sub);
    AttachRegistered(role, st, d, n, sub);
  }

  lemma AttachKeepsTree(role: Roles, st: State, d: map<Name, nat>, n: Name, sub: Name)
    requires RolesOk(role, st) && Registered(role, st) && TreeWith(st, d)
    requires n in Nodes(Bfs(st, st.Root())) && role(sub) == Listener && !st.HasParentEdge(sub)
    ensures n in d && sub !in d
    ensures TreeWith(st.AddEdge(n, sub), d[sub := d[n] + 1])
  {
    var E := Elements(st.edges);
    InnerAttached(role, st, d, n);
    AttachedHasEdge(st, d);
    AttachTree(E, st.Root(), d, n, sub);
    assert Elements(st.AddEdge(n, sub).edges) == E + {Edge(n, sub)};
  }

  lemma AttachRegistered(role: Roles, st: State, d: map<Name, nat>, n: Name, sub: Name)
    requires RolesOk(role, st) && Registered(role, st) && Distinct(st.edges) && TreeWith(st, d)
    requires n in Nodes(Bfs(st, st.Root())) && role(sub) == Listener
    ensures RolesOk(role, st.AddEdge(n, sub)) && Registered(role, st.AddEdge(n, sub))
    ensures Distinct(st.AddEdge(n, sub).edges)
  {
    InnerAttached(role, st, d, n);
    AddEdgeDistinct(st, n, sub);
  }

  /** What a graft under n does: x is the new proxy, m the children that move. */
  ghost predicate GraftAt(st: State, next: State, n: Name, x: Name, sub: Name, m: set<Name>, f: nat) {
    && Grafted(Elements(st.edges), Elements(next.edges), n, x, sub, m)
    && next.publishers == st.publishers && next.proxies == st.proxies
    && x in st.proxies && x !in Used(st)
    && (forall c :: c in m ==> Edge(n, c) in st.edges && c !in st.proxies)
    && |m| == Min(|Listeners(st, n)|, f - 1)
    && (forall a, b :: a in m && b in Listeners(st, n) - m ==> OlderThan(st.attachMs, a, b))
    && (Distinct(st.edges) ==> Distinct(next.edges))
  }

  ghost function Listeners(st: State, n: Name): set<Name> {
    set c | c in ChildSet(Elements(st.edges), n) && c !in st.proxies
  }

  lemma GraftStepIs(st: State, n: Name, sub: Name, f: nat, env: Env) returns (x: Name, m: set<Name>)
    requires f >= 2 && GraftStep(st, st, n, sub, f, env).Offer?
    requires n in Used(st)
    ensures GraftAt(st, GraftStep(st, st, n, sub, f, env).st, n, x, sub, m, f)
    ensures x in env.PickAlive(n) && FirstFree(st.proxies, Used(st), env.PickAlive(n), 0, x)
    ensures Stamped(st.attachMs, GraftStep(st, st, n, sub, f, env).st.attachMs, m, env.GraftMs(n))
  {
    var ch := ChildrenIns(st.edges, n);
    var movers := Movers(st, ch, f);
    x := PickUnused(st, env.PickAlive(n)).value;
    m := Elements(movers);
    FirstUnusedIs(st.proxies, Used(st), env.PickAlive(n), 0);
    UnusedHasNone(st, x);
    ChildrenCount(st.edges, n);
    MoversAre(st, ch, f);
    DistinctCard(movers);
    FilterDistinct(ch, NotProxy(st));
    FilterIs(ch, NotProxy(st));
    DistinctCard(Filter(ch, NotProxy(st)));
    assert Elements(Filter(ch, NotProxy(st))) == Listeners(st, n);
    forall c | c in movers
      ensures c != x
    {
      assert Edge(n, c) in st.edges;
      assert Edge(n, c).child != x;
    }
    GraftIs(st, n, x, sub, movers, env.GraftMs(n));
    MoveTimes(st.AddEdge(n, x).AddEdge(x, sub), n, x, movers, env.GraftMs(n));
  }

  lemma GraftKeeps(role: Roles, st: State, next: State, d: map<Name, nat>, n: Name, x: Name, sub: Name, m: set<Name>,
                   f: nat)
    requires RolesOk(role, st) && Registered(role, st) && Distinct(st.edges) && TreeWith(st, d)
    requires n in Nodes(Bfs(st, st.Root())) && role(sub) == Listener && !st.HasParentEdge(sub)
    requires GraftAt(st, next, n, x, sub, m, f)
    ensures n in d && TreeWith(next, GraftDepths(d, n, x, sub, m))
    ensures Inv(role, next)
    ensures sub !in d && x !in d
  {
    var E, F := Elements(st.edges), Elements(next.edges);
    InnerAttached(role, st, d, n);
    UnusedHasNone(st, x);
    AttachedHasEdge(st, d);
    assert x != st.Root() && sub != st.Root();
    assert m <= ChildSet(E, n) by {
      forall c | c in m
        ensures c in ChildSet(E, n)
      {
        assert Edge(n, c) in E;
      }
    }
    forall c | c in m
      ensures c != st.Root() && c !in st.proxies
    {
      assert d[Edge(n, c).child] == d[n] + 1;
    }
    GraftTree(E, F, st.Root(), d, n, x, sub, m);
    assert TreeWith(next, GraftDepths(d, n, x, sub, m));
    forall e | e in next.edges
      ensures e.parent in st.proxies || e.parent == st.publishers[0]
      ensures role(e.child) != Publisher && (role(e.child) == Proxy ==> e.child in st.proxies)
    {
      assert e in F;
      if e.child in m {
        assert Edge(n, e.child) in st.edges;
        assert Edge(n, e.child).child == e.child;
      }
    }
  }

  lemma SeededSame(role: Roles, st: State, sub: Name, env: Env)
    ensures Inv(role, st) ==> Inv(role, Seeded(st, sub, env))
    ensures forall d :: TreeWith(st, d) ==> TreeWith(Seeded(st, sub, env), d)
  {
    var base := Seeded(st, sub, env);
    if Inv(role, st) && st.publishers != [] {
      var d :| TreeWith(st, d);
      assert TreeWith(base, d);
    }
  }

  lemma RootUsed(st: State, n: Name)
    requires st.publishers != [] && n in Nodes(Bfs(st, st.Root()))
    ensures n in Used(st)
  {
    var nodes := Bfs(st, st.Root());
    var j := NodesAt(nodes, n);
    BfsUsed(st, nodes, j);
  }

  /** With a fanout of one a graft does what it does with a fanout of two: one child moves. */
  lemma GraftMovesOne(st: State, n: Name, sub: Name, f: nat, env: Env)
    requires f >= 1
    ensures GraftStep(st, st, n, sub, f, env) == GraftStep(st, st, n, sub, Max(f, 2), env)
  {
  }

  lemma SubscribeKeeps(role: Roles, st: State, sub: Name, f: nat, env: Env)
    requires f >= 1 && Inv(role, st) && role(sub) == Listener
    requires Proposals(Subscribe(sub, env), st, f) != []
    ensures Inv(role, Proposals(Subscribe(sub, env), st, f)[0])
  {
    var base := Seeded(st, sub, env);
    SeededSame(role, st, sub, env);
    assert base.publishers == st.publishers && base.edges == st.edges && base.proxies == st.proxies;
    var d :| TreeWith(base, d);
    var nodes := Bfs(base, base.Root());
    var k := Pass1First(base, nodes, 0, sub, f, env);
    assert !base.HasParentEdge(sub);
    if k < |nodes| {
      NodeIn(nodes, k);
      AttachKeeps(role, base, d, nodes[k].node, sub);
    } else {
      var c := Pass2First(base, Cands(base), 0, sub, f, env);
      var n := Cands(base)[c].node;
      CandIn(base, c);
      RootUsed(base, n);
      GraftMovesOne(base, n, sub, f, env);
      var x, m := GraftStepIs(base, n, sub, Max(f, 2), env);
      GraftKeeps(role, base, GraftStep(base, base, n, sub, f, env).st, d, n, x, sub, m, Max(f, 2));
    }
  }

  lemma CutKeeps(role: Roles, st: State, x: Name)
    requires Inv(role, st)
    ensures Inv(role, st.(edges := CutEdges(st.edges, x)))
    ensures st.publishers != [] && x == st.publishers[0] ==> CutEdges(st.edges, x) == []
    ensures forall e :: e in CutEdges(st.edges, x) ==> e.parent != x && e.child != x
  {
    var next := st.(edges := CutEdges(st.edges, x));
    CutEdgesSet(st.edges, x);
    FilterDistinct(st.edges, OutsideOf(Subtree(Elements(st.edges), x)));
    SubtreeFacts(Elements(st.edges), x);
    forall e | e in next.edges
      ensures e in st.edges && e.parent != x && e.child != x
    {
      assert e in Elements(next.edges);
    }
    if st.publishers != [] {
      var d :| TreeWith(st, d);
      var d' := CutTree(Elements(st.edges), st.publishers[0], d, x);
      assert TreeWith(next, d');
      assert next.edges != [] ==> Elements(next.edges) != {} by {
        if next.edges != [] {
          assert next.edges[0] in Elements(next.edges);
        }
      }
    }
  }

  ghost function SignalNext(st: State, x: Name): State {
    State(Filter(st.publishers, NotName(x)), Filter(st.proxies, NotName(x)), CutEdges(st.edges, x), map[])
  }

  lemma SignalKeeps(role: Roles, st: State, x: Name)
    requires Inv(role, st)
    ensures Inv(role, SignalNext(st, x))
    ensures var next := SignalNext(st, x);
      && (forall e :: e in next.edges ==> e.parent != x && e.child != x)
      && x !in next.publishers && x !in next.proxies
      && if st.publishers != [] && x != st.publishers[0]
         then next.publishers != [] && next.Root() == st.Root()
         else next.edges == []
  {
    CutKeeps(role, st, x);
    SignalRegistered(role, st, x);
    SignalTree(role, st, x);
  }

  lemma SignalRegistered(role: Roles, st: State, x: Name)
    requires Inv(role, st) && Inv(role, st.(edges := CutEdges(st.edges, x)))
    requires forall e :: e in CutEdges(st.edges, x) ==> e.parent != x && e.child != x
    requires st.publishers != [] && x == st.publishers[0] ==> CutEdges(st.edges, x) == []
    ensures RolesOk(role, SignalNext(st, x)) && Registered(role, SignalNext(st, x))
    ensures x !in SignalNext(st, x).publishers && x !in SignalNext(st, x).proxies
  {
    FilterDistinct(st.publishers, NotName(x));
    FilterDistinct(st.proxies, NotName(x));
    FilterIs(st.publishers, NotName(x));
    FilterIs(st.proxies, NotName(x));
    var next, cut := SignalNext(st, x), st.(edges := CutEdges(st.edges, x));
    if st.publishers != [] && x != st.publishers[0] {
      FilterHead(st.publishers, x);
    }
    forall e | e in next.edges
      ensures e.parent in next.proxies || (next.publishers != [] && e.parent == next.publishers[0])
      ensures role(e.child) == Proxy ==> e.child in next.proxies
    {
      assert e in cut.edges;
    }
  }

  lemma SignalTree(role: Roles, st: State, x: Name)
    requires Inv(role, st) && Inv(role, st.(edges := CutEdges(st.edges, x)))
    requires st.publishers != [] && x == st.publishers[0] ==> CutEdges(st.edges, x) == []
    ensures var next := SignalNext(st, x);
      && IsTreeState(next)
      && if st.publishers != [] && x != st.publishers[0]
         then next.publishers != [] && next.Root() == st.Root()
         else next.edges == []
  {
    var next := SignalNext(st, x);
    if st.publishers != [] && x != st.publishers[0] {
      FilterHead(st.publishers, x);
      var d :| TreeWith(st.(edges := CutEdges(st.edges, x)), d);
      assert TreeWith(next, d);
    } else if next.publishers != [] {
      EmptyTree(next.publishers[0]);
      assert Elements(next.edges) == {};
      assert TreeWith(next, map[next.publishers[0] := 0]);
    }
  }

  lemma {:induction false} FilterHead(s: seq<Name>, x: Name)
    requires s != [] && s[0] != x
    ensures Filter(s, NotName(x)) != [] && Filter(s, NotName(x))[0] == s[0]
  {
    if |s| > 1 {
      FilterHead(s[..|s| - 1], x);
    }
  }

  lemma RegisterPublisherKeeps(role: Roles, st: State, p: Name)
    requires Inv(role, st) && role(p) == Publisher
    ensures var next := st.(publishers := AddName(st.publishers, p));
      && Inv(role, next) && p in next.publishers
      && if st.publishers == [] then next.Root() == p && next.edges == []
         else next.Root() == st.Root() && forall d :: TreeWith(st, d) <==> TreeWith(next, d)
  {
    var next := st.(publishers := AddName(st.publishers, p));
    if st.publishers == [] {
      EmptyTree(p);
      assert Elements(next.edges) == {};
      assert TreeWith(next, map[p := 0]);
    } else {
      var d :| TreeWith(st, d);
      assert TreeWith(next, d);
    }
  }

  lemma RegisterProxyKeeps(role: Roles, st: State, p: Name)
    requires Inv(role, st) && role(p) == Proxy
    ensures Inv(role, st.(proxies := AddName(st.proxies, p)))
  {
    var next := st.(proxies := AddName(st.proxies, p));
    if st.publishers != [] {
      var d :| TreeWith(st, d);
      assert TreeWith(next, d);
    }
  }

  /** Nodes act by their role; a proxy subscribes only when the re-join rule let it. */
  ghost predicate Allowed(role: Roles, op: Op, seen: State) {
    match op
    case RegisterPublisher(n) => role(n) == Publisher
    case RegisterProxy(n) => role(n) == Proxy
    case Subscribe(n, _) => role(n) == Listener || (role(n) == Proxy && Rejoins(seen, n))
    case Disconnect(_) => true
    case SignalDisconnect(_) => true
  }

  /** One operation applied to a freshly read value keeps the edges a tree below publishers[0]. */
  lemma OpKeepsTree(role: Roles, op: Op, seen: State, st: State, f: nat)
    requires f >= 1 && Inv(role, st) && Inv(role, seen) && Allowed(role, op, seen)
    requires Proposals(op, st, f) != []
    ensures Inv(role, Proposals(op, st, f)[0])
  {
    match op
    case RegisterPublisher(n) => RegisterPublisherKeeps(role, st, n);
    case RegisterProxy(n) => RegisterProxyKeeps(role, st, n);
    case Subscribe(n, env) =>
      if role(n) == Proxy {
        NoRejoin(role, seen, n);
      }
      SubscribeKeeps(role, st, n, f, env);
    case Disconnect(n) => CutKeeps(role, st, n);
    case SignalDisconnect(n) => SignalKeeps(role, st, n);
  }
}
