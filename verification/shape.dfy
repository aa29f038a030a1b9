/** While the proxies in the tree are alive, they form one path below the root, and their number is bounded by the
    largest number of listeners the tree has held. */
module Shape {
  import opened Basics
  import opened Tree
  import opened RoutingModel
  import opened BfsProofs
  import opened Fanout
  import opened TreeSafety
  import opened Growth

  /** No two proxies in the tree are equally far from the root. */
  ghost predicate Spine(st: State, d: map<Name, nat>) {
    forall a, b :: a in TreeProxies(st) && b in TreeProxies(st) && a in d && b in d && d[a] == d[b] ==> a == b
  }

  // ----- what a spine means -----

  /** Above any attached node there is one proxy at each smaller depth. */
  lemma {:induction false} ProxiesAbove(role: Roles, st: State, d: map<Name, nat>, y: Name) returns (above: set<Name>)
    requires RolesOk(role, st) && Registered(role, st) && TreeWith(st, d) && y in d && y != st.Root()
    ensures above <= TreeProxies(st) && |above| + 1 == d[y]
    ensures forall q :: q in above ==> q in d && 1 <= d[q] < d[y]
    decreases d[y]
  {
    AttachedHasEdge(st, d);
    var e :| e in st.edges && e.child == y;
    ParentsInner(role, st, d, e);
    if e.parent == st.Root() {
      above := {};
    } else {
      var rest := ProxiesAbove(role, st, d, e.parent);
      above := rest + {e.parent};
    }
  }

  /** In any tree, with p proxies every node is at most p + 1 hops from the root. */
  lemma HopBound(role: Roles, st: State, d: map<Name, nat>, y: Name)
    requires RolesOk(role, st) && Registered(role, st) && TreeWith(st, d) && y in d
    ensures d[y] <= |TreeProxies(st)| + 1
    ensures y in TreeProxies(st) ==> 1 <= d[y] <= |TreeProxies(st)|
  {
    AttachedKin(st, d);
    if y != st.Root() {
      var above := ProxiesAbove(role, st, d, y);
      SubsetCard(above, TreeProxies(st));
      if y in TreeProxies(st) {
        SubsetCard(above + {y}, TreeProxies(st));
      }
    }
  }

  lemma {:induction false} Injected(s: set<Name>, d: map<Name, nat>)
    requires s <= d.Keys && forall a, b :: a in s && b in s && d[a] == d[b] ==> a == b
    ensures |set x | x in s :: d[x]| == |s|
  {
    if s != {} {
      var x :| x in s;
      var t := s - {x};
      Injected(t, d);
      assert (set y | y in s :: d[y]) == (set y | y in t :: d[y]) + {d[x]};
    }
  }

  /** The depths 1 to p. */
  ghost function DepthsTo(p: nat): set<nat> {
    if p == 0 then {} else DepthsTo(p - 1) + {p}
  }

  lemma {:induction false} DepthsToAre(p: nat)
    ensures |DepthsTo(p)| == p
    ensures forall k: nat :: k in DepthsTo(p) <==> 1 <= k <= p
  {
    if p > 0 {
      DepthsToAre(p - 1);
    }
  }

  /** A spine of p proxies has exactly one proxy at each of the depths 1 to p: the tree is as deep as it has proxies,
      so the number of hops is linear, not logarithmic, in the number of inner nodes. */
  lemma SpineDepths(role: Roles, st: State, d: map<Name, nat>)
    requires RolesOk(role, st) && Registered(role, st) && TreeWith(st, d) && Spine(st, d)
    ensures TreeProxies(st) <= d.Keys
    ensures (set x | x in TreeProxies(st) :: d[x]) == DepthsTo(|TreeProxies(st)|)
  {
    AttachedKin(st, d);
    var p := |TreeProxies(st)|;
    var depths := set x | x in TreeProxies(st) :: d[x];
    DepthsToAre(p);
    forall k | k in depths
      ensures k in DepthsTo(p)
    {
      var x :| x in TreeProxies(st) && d[x] == k;
      HopBound(role, st, d, x);
    }
    Injected(TreeProxies(st), d);
    SubsetCard(depths, DepthsTo(p));
  }

  // ----- how deep a spine is for its listeners -----

  /** The inner nodes less than h hops from the root. */
  ghost function InnerAbove(st: State, d: map<Name, nat>, h: nat): set<Name>
    requires st.publishers != []
  {
    set n | n in InnerNodes(st) && n in d && d[n] < h
  }

  /** A spine has at most h proxies on the levels 1 to h. */
  lemma {:induction false} OnePerLevel(st: State, d: map<Name, nat>, s: set<Name>, h: nat)
    requires Spine(st, d) && s <= TreeProxies(st) && s <= d.Keys
    requires forall x :: x in s ==> 1 <= d[x] <= h
    ensures |s| <= h
    decreases h
  {
    if h > 0 {
      if x :| x in s && d[x] == h {
        forall y | y in s - {x}
          ensures 1 <= d[y] <= h - 1
        {
          assert d[y] == d[x] ==> y == x;
        }
        OnePerLevel(st, d, s - {x}, h - 1);
      } else {
        OnePerLevel(st, d, s, h - 1);
      }
    }
  }

  lemma FewAbove(role: Roles, st: State, d: map<Name, nat>, h: nat)
    requires RolesOk(role, st) && Registered(role, st) && TreeWith(st, d) && Spine(st, d) && h >= 1
    ensures st.Root() in InnerAbove(st, d, h) && |InnerAbove(st, d, h)| <= h
  {
    var below := InnerAbove(st, d, h) - {st.Root()};
    AttachedKin(st, d);
    forall x | x in below
      ensures 1 <= d[x] <= h - 1
    {
      HopBound(role, st, d, x);
    }
    OnePerLevel(st, d, below, h - 1);
  }

  /** The listeners, and the inner nodes above level h other than the root, are children of inner nodes above level h.
      */
  lemma ChildrenAbove(role: Roles, st: State, d: map<Name, nat>, h: nat)
    requires RolesOk(role, st) && Registered(role, st) && TreeWith(st, d)
    requires forall y :: y in TreeListeners(st) && y in d ==> d[y] <= h
    ensures TreeListeners(st) + (InnerAbove(st, d, h) - {st.Root()}) <= AllChildren(OutOf(st, InnerAbove(st, d, h)))
  {
    var out := OutOf(st, InnerAbove(st, d, h));
    forall y | y in TreeListeners(st) + (InnerAbove(st, d, h) - {st.Root()})
      ensures y in AllChildren(out)
    {
      AttachedKin(st, d);
      AttachedHasEdge(st, d);
      var e :| e in st.edges && e.child == y;
      ParentsInner(role, st, d, e);
      assert e in out;
    }
  }

  lemma Slack(l: nat, i: nat, h: nat, f: nat)
    requires f >= 1 && 1 <= i <= h && l + i <= i * f + 1
    ensures l <= h * (f - 1) + 1
  {
    assert i * f == i * (f - 1) + i;
    Fewer(i, h, f);
    assert i * (f - 1) <= h * (f - 1);
  }

  /** If no listener is more than h hops from the root of a spine, there are at most h*(f-1) + 1 listeners: each of
      the h levels of inner nodes has one node, and all but the last spend a child on the next level. */
  lemma ListenersByDepth(role: Roles, st: State, d: map<Name, nat>, f: nat, h: nat)
    requires Sound(role, st, d, f) && Spine(st, d) && f >= 1 && h >= 1
    requires forall y :: y in TreeListeners(st) && y in d ==> d[y] <= h
    ensures |TreeListeners(st)| <= h * (f - 1) + 1
  {
    var s := InnerAbove(st, d, h);
    var out := OutOf(st, s);
    FewAbove(role, st, d, h);
    ChildrenAbove(role, st, d, h);
    OutCount(role, st, d, f, s);
    var below := s - {st.Root()};
    assert |TreeListeners(st) + below| == |TreeListeners(st)| + |s| - 1 by {
      assert TreeListeners(st) !! below;
    }
    SubsetCard(TreeListeners(st) + below, AllChildren(out));
    Slack(|TreeListeners(st)|, |s|, h, f);
  }

  ghost function OutOf(st: State, s: set<Name>): Edges {
    set e | e in Elements(st.edges) && e.parent in s
  }

  lemma OutCount(role: Roles, st: State, d: map<Name, nat>, f: nat, s: set<Name>)
    requires TreeWith(st, d) && FanoutOk(st, f)
    ensures |AllChildren(OutOf(st, s))| <= |s| * f
  {
    var E, out := Elements(st.edges), OutOf(st, s);
    ChildrenCard(out);
    forall n | n in s
      ensures |ChildSet(out, n)| <= f
    {
      assert ChildSet(out, n) == ChildSet(E, n);
    }
    AtMostCount(out, s, f);
  }

  lemma {:induction false} DeepestOf(s: set<Name>, d: map<Name, nat>) returns (y: Name)
    requires s != {} && s <= d.Keys
    ensures y in s && forall x :: x in s ==> d[x] <= d[y]
    decreases s
  {
    y :| y in s;
    if s != {y} {
      var z := DeepestOf(s - {y}, d);
      if d[z] >= d[y] {
        y := z;
      }
    }
  }

  /** So some listener is at least (l - 1)/(f - 1) hops from the root, l being the number of listeners: the hops grow
      linearly with the listeners. */
  lemma DeepestListener(role: Roles, st: State, d: map<Name, nat>, f: nat) returns (y: Name)
    requires Sound(role, st, d, f) && Spine(st, d) && f >= 1 && TreeListeners(st) != {}
    ensures y in TreeListeners(st) && y in d && d[y] >= 1
    ensures forall x :: x in TreeListeners(st) ==> x in d && d[x] <= d[y]
    ensures |TreeListeners(st)| <= d[y] * (f - 1) + 1
  {
    AttachedKin(st, d);
    y := DeepestOf(TreeListeners(st), d);
    AttachedHasEdge(st, d);
    var e :| e in st.edges && e.child == y;
    ParentsInner(role, st, d, e);
    ListenersByDepth(role, st, d, f, d[y]);
  }

  // ----- the shape of a stored value, kept -----

  /** Everything the healthy operations keep. */
  ghost predicate Shaped(role: Roles, st: State, f: nat, peak: nat) {
    && Inv(role, st) && FanoutOk(st, f) && Sized(st, f, peak)
    && (st.publishers != [] ==> exists d :: TreeWith(st, d) && Spine(st, d))
  }

  /** A node many hops below the root takes a peak of listeners that grows with the hops. */
  lemma ShapedHops(role: Roles, st: State, f: nat, peak: nat, p: seq<Name>, y: Name)
    requires f >= 2 && Shaped(role, st, f, peak)
    requires st.publishers != [] && PathFromTo(Elements(st.edges), p, st.Root(), y)
    ensures var h := |p| - 1;
      h <= 1 || (h - 1) * (f - 1) + 2 <= peak
  {
    var d :| TreeWith(st, d);
    PathDepth(Elements(st.edges), st.Root(), d, p);
    HopBound(role, st, d, y);
    if |p| - 1 > 1 {
      Fewer(|p| - 1 - 1, |TreeProxies(st)|, f);
    }
  }

  lemma ShapedDepths(role: Roles, st: State, f: nat, peak: nat) returns (d: map<Name, nat>)
    requires Shaped(role, st, f, peak) && (st.publishers != [] || TreeListeners(st) != {})
    ensures st.publishers != [] && Sound(role, st, d, f) && Spine(st, d)
  {
    assert st.publishers == [] ==> Elements(st.edges) == {};
    d :| TreeWith(st, d) && Spine(st, d);
  }

  lemma EdgelessShaped(role: Roles, st: State, f: nat, peak: nat)
    requires Inv(role, st) && st.edges == []
    ensures Shaped(role, st, f, peak)
  {
    assert Elements(st.edges) == {};
    assert Kin(st.edges) == {};
    assert TreeListeners(st) == {} && TreeProxies(st) == {};
    forall p
      ensures |ChildSet(Elements(st.edges), p)| <= f
    {
      assert ChildSet(Elements(st.edges), p) == {};
    }
    if st.publishers != [] {
      EmptyTree(st.publishers[0]);
      assert TreeWith(st, map[st.publishers[0] := 0]) && Spine(st, map[st.publishers[0] := 0]);
    }
  }

  /** Fewer edges, and every node left at its depth. */
  lemma FewerShaped(role: Roles, st: State, next: State, d: map<Name, nat>, d': map<Name, nat>, f: nat, peak: nat)
    requires Sized(st, f, peak) && TreeWith(st, d) && Spine(st, d) && f >= 1
    requires Inv(role, next) && FanoutOk(next, f) && TreeWith(next, d')
    requires TreeProxies(next) <= TreeProxies(st) && TreeListeners(next) <= TreeListeners(st)
    requires forall y :: y in d' && y in TreeProxies(next) ==> y in d && d'[y] == d[y]
    ensures Shaped(role, next, f, peak)
  {
    SubsetCard(TreeProxies(next), TreeProxies(st));
    SubsetCard(TreeListeners(next), TreeListeners(st));
    Fewer(|TreeProxies(next)|, |TreeProxies(st)|, f);
    assert TreeWith(next, d') && Spine(next, d');
  }

  lemma CutSets(st: State, next: State, x: Name)
    requires next.edges == CutEdges(st.edges, x)
    requires forall p :: p in next.proxies <==> p in st.proxies && (p != x || x in next.proxies)
    ensures TreeProxies(next) <= TreeProxies(st) && TreeListeners(next) <= TreeListeners(st)
  {
    CutEdgesSet(st.edges, x);
    SubtreeFacts(Elements(st.edges), x);
    forall c | c in Kin(next.edges)
      ensures c in Kin(st.edges) && c != x
    {
      var e :| e in Elements(next.edges) && e.child == c;
      assert e in Cut(Elements(st.edges), x);
    }
  }

  lemma CutShaped(role: Roles, st: State, next: State, x: Name, f: nat, peak: nat)
    requires Shaped(role, st, f, peak) && Inv(role, next) && FanoutOk(next, f) && f >= 1
    requires next.edges == CutEdges(st.edges, x)
    requires forall p :: p in next.proxies <==> p in st.proxies && (p != x || x in next.proxies)
    requires next.publishers != [] && next.edges != [] ==> st.publishers != [] && next.publishers[0] == st.publishers[0]
    ensures Shaped(role, next, f, peak)
  {
    if next.edges == [] || next.publishers == [] {
      EdgelessShaped(role, next, f, peak);
    } else {
      var d :| TreeWith(st, d) && Spine(st, d);
      var d' := CutTree(Elements(st.edges), st.publishers[0], d, x);
      CutEdgesSet(st.edges, x);
      CutSets(st, next, x);
      assert TreeWith(next, d');
      FewerShaped(role, st, next, d, d', f, peak);
    }
  }

  lemma ProxyRegisteredSets(role: Roles, st: State, p: Name)
    requires Registered(role, st) && role(p) == Proxy
    ensures var next := st.(proxies := AddName(st.proxies, p));
      TreeProxies(next) == TreeProxies(st) && TreeListeners(next) == TreeListeners(st)
  {
    KinHasEdge(st, p);
  }

  lemma RegisterShaped(role: Roles, st: State, next: State, f: nat, peak: nat)
    requires Shaped(role, st, f, peak) && Inv(role, next) && f >= 1
    requires next.edges == st.edges && st.publishers <= next.publishers
    requires TreeProxies(next) == TreeProxies(st) && TreeListeners(next) == TreeListeners(st)
    ensures Shaped(role, next, f, peak)
  {
    if st.publishers == [] {
      EdgelessShaped(role, next, f, peak);
    } else {
      var d :| TreeWith(st, d) && Spine(st, d);
      assert TreeWith(next, d);
      FewerShaped(role, st, next, d, d, f, peak);
    }
  }

  lemma AttachSets(st: State, n: Name, sub: Name)
    requires sub !in st.proxies
    ensures TreeProxies(st.AddEdge(n, sub)) == TreeProxies(st)
    ensures TreeListeners(st.AddEdge(n, sub)) == TreeListeners(st) + {sub}
  {
    var next := st.AddEdge(n, sub);
    forall c
      ensures c in Kin(next.edges) <==> c in Kin(st.edges) || c == sub
    {
      KinHasEdge(next, c);
      KinHasEdge(st, c);
      assert Edge(n, sub).child == sub && Edge(n, sub) in next.edges;
    }
  }

  lemma AttachShaped(role: Roles, st: State, d: map<Name, nat>, n: Name, sub: Name, f: nat, peak: nat)
    requires Sound(role, st, d, f) && Spine(st, d) && Sized(st, f, peak)
    requires n in Nodes(Bfs(st, st.Root())) && role(sub) == Listener && !st.HasParentEdge(sub)
    requires FanoutOk(st.AddEdge(n, sub), f)
    requires |TreeListeners(st.AddEdge(n, sub))| <= peak
    ensures Shaped(role, st.AddEdge(n, sub), f, peak)
  {
    var next := st.AddEdge(n, sub);
    AttachKeeps(role, st, d, n, sub);
    AttachSets(st, n, sub);
    AttachSpine(st, next, d, d[sub := d[n] + 1], sub);
    ShapedBy(role, next, f, peak, d[sub := d[n] + 1]);
  }

  lemma ShapedBy(role: Roles, st: State, f: nat, peak: nat, d: map<Name, nat>)
    requires Inv(role, st) && FanoutOk(st, f) && Sized(st, f, peak) && TreeWith(st, d) && Spine(st, d)
    ensures Shaped(role, st, f, peak)
  {
  }

  lemma AttachSpine(st: State, next: State, d: map<Name, nat>, d': map<Name, nat>, sub: Name)
    requires Spine(st, d) && TreeProxies(next) == TreeProxies(st) && sub !in TreeProxies(st)
    requires forall y :: y in d' && y != sub ==> y in d && d'[y] == d[y]
    ensures Spine(next, d')
  {
  }

  lemma GraftSets(role: Roles, st: State, next: State, x: Name, sub: Name)
    requires RolesOk(role, st) && role(sub) == Listener && x in st.proxies && next.proxies == st.proxies
    requires Kin(next.edges) == Kin(st.edges) + {x, sub} && x !in Kin(st.edges) && sub !in Kin(st.edges)
    ensures TreeProxies(next) == TreeProxies(st) + {x} && x !in TreeProxies(st)
    ensures TreeListeners(next) == TreeListeners(st) + {sub} && sub !in TreeListeners(st)
  {
  }

  lemma GraftShaped(role: Roles, st: State, next: State, d: map<Name, nat>, n: Name, x: Name, sub: Name, m: set<Name>,
                    f: nat, peak: nat)
    requires Sound(role, st, d, f) && Spine(st, d) && DeepestAndAllFull(st, d, n, f) && f >= 2
    requires role(sub) == Listener && !st.HasParentEdge(sub) && GraftAt(st, next, n, x, sub, m, f)
    requires FanoutOk(next, f) && |TreeListeners(next)| <= peak
    ensures Shaped(role, next, f, peak)
  {
    SearchIsInner(role, st, d);
    GraftKeeps(role, st, next, d, n, x, sub, m, f);
    var d' := GraftEffect(role, st, next, d, n, x, sub, m, f);
    AttachedKin(st, d);
    GraftSets(role, st, next, x, sub);
    FullSize(role, st, d, f);
    GraftSized(st, next, x, sub, f, peak);
    MovedNotProxies(st, d, n, m);
    SpineGrown(st, next, d, d', n, x, m);
    ShapedBy(role, next, f, peak, d');
  }

  lemma GraftSized(st: State, next: State, x: Name, sub: Name, f: nat, peak: nat)
    requires f >= 2 && |TreeListeners(st)| == |TreeProxies(st)| * (f - 1) + f
    requires TreeProxies(next) == TreeProxies(st) + {x} && x !in TreeProxies(st)
    requires TreeListeners(next) == TreeListeners(st) + {sub} && sub !in TreeListeners(st)
    requires |TreeListeners(next)| <= peak
    ensures Sized(next, f, peak)
  {
    OneMore(|TreeProxies(st)|, |TreeListeners(st)|, f, peak);
  }

  /** A graft into a full tree of p proxies leaves one more proxy and one more listener. */
  lemma OneMore(p: nat, l: nat, f: nat, peak: nat)
    requires f >= 2 && l == p * (f - 1) + f && l + 1 <= peak
    ensures (p + 1) * (f - 1) + 2 <= peak
  {
  }

  lemma MovedNotProxies(st: State, d: map<Name, nat>, n: Name, m: set<Name>)
    requires m <= Listeners(st, n)
    ensures m !! TreeProxies(st)
  {
  }

  lemma SpineGrown(st: State, next: State, d: map<Name, nat>, d': map<Name, nat>, n: Name, x: Name, m: set<Name>)
    requires Spine(st, d) && TreeProxies(st) <= d.Keys && TreeProxies(next) == TreeProxies(st) + {x}
    requires n in d && x in d' && d'[x] == d[n] + 1 && m !! TreeProxies(st)
    requires forall q :: q in TreeProxies(st) ==> d[q] <= d[n]
    requires forall y :: y in d ==> y in d' && d'[y] == if y in m then d[y] + 1 else d[y]
    ensures Spine(next, d')
  {
  }

  lemma LandingShaped(role: Roles, base: State, next: State, d: map<Name, nat>, sub: Name, f: nat, l: Landing,
                      peak: nat)
    requires Sound(role, base, d, f) && Spine(base, d) && Sized(base, f, peak) && f >= 2
    requires role(sub) == Listener && !base.HasParentEdge(sub)
    requires FanoutOk(next, f) && |TreeListeners(next)| <= peak
    requires match l
      case Attaches(n) => n in InnerNodes(base) && next == base.AddEdge(n, sub)
      case Grafts(n, x, m) => DeepestAndAllFull(base, d, n, f) && GraftAt(base, next, n, x, sub, m, f)
      case NoProxyLeft(_) => false
    ensures Shaped(role, next, f, peak)
  {
    match l
    case Attaches(n) =>
      SearchIsInner(role, base, d);
      AttachShaped(role, base, d, n, sub, f, peak);
    case Grafts(n, x, m) =>
      GraftShaped(role, base, next, d, n, x, sub, m, f, peak);
  }

  /** The healthy operations keep the shape, the peak being raised to the listeners now attached. */
  lemma SubscribeShaped(role: Roles, st: State, sub: Name, f: nat, env: Env, peak: nat)
    requires f >= 2 && Shaped(role, st, f, peak) && role(sub) == Listener && Healthy(st, env)
    requires Proposals(Subscribe(sub, env), st, f) != []
    ensures var next := Proposals(Subscribe(sub, env), st, f)[0];
      Shaped(role, next, f, Max(peak, |TreeListeners(next)|))
  {
    var next := Proposals(Subscribe(sub, env), st, f)[0];
    var d := ShapedDepths(role, st, f, peak);
    FanoutKept(Subscribe(sub, env), st, f, 0);
    LandedShaped(role, st, next, d, sub, f, env, peak, Max(peak, |TreeListeners(next)|));
  }

  lemma LandedShaped(role: Roles, st: State, next: State, d: map<Name, nat>, sub: Name, f: nat, env: Env,
                     peak: nat, top: nat)
    requires Sound(role, st, d, f) && Spine(st, d) && Sized(st, f, peak) && f >= 2 && peak <= top
    requires role(sub) == Listener && !st.HasParentEdge(sub) && Healthy(st, env)
    requires SubscribeScan(st, sub, f, env).tries != [] && next == SubscribeScan(st, sub, f, env).tries[0]
    requires FanoutOk(next, f) && |TreeListeners(next)| <= top
    ensures Shaped(role, next, f, top)
  {
    var base := Seeded(st, sub, env);
    var l := SubscribeLands(role, st, d, sub, f, env);
    SeededSound(role, st, d, f, sub, env);
    SameTree(st, base, d, f, peak, top);
    assert l.Grafts? ==> DeepestAndAllFull(base, d, l.under, f);
    LandingShaped(role, base, next, d, sub, f, l, top);
  }

  lemma SameTree(st: State, base: State, d: map<Name, nat>, f: nat, peak: nat, top: nat)
    requires base == st.(attachMs := base.attachMs) && peak <= top
    ensures InnerNodesOf(base) == InnerNodesOf(st)
    ensures Spine(st, d) ==> Spine(base, d)
    ensures Sized(st, f, peak) ==> Sized(base, f, top)
    ensures forall s :: base.HasParentEdge(s) == st.HasParentEdge(s)
  {
    assert TreeProxies(base) == TreeProxies(st) && TreeListeners(base) == TreeListeners(st);
  }

  ghost function InnerNodesOf(st: State): set<Name> {
    if st.publishers == [] then {} else InnerNodes(st)
  }

  lemma OpShaped(role: Roles, op: Op, seen: State, st: State, f: nat, peak: nat)
    requires f >= 2 && Shaped(role, st, f, peak) && Inv(role, seen) && Allowed(role, op, seen)
    requires op.Subscribe? ==> Healthy(st, op.env)
    requires Proposals(op, st, f) != []
    ensures var next := Proposals(op, st, f)[0];
      Shaped(role, next, f, Max(peak, |TreeListeners(next)|))
  {
    var next := Proposals(op, st, f)[0];
    var top := Max(peak, |TreeListeners(next)|);
    assert Shaped(role, st, f, top) by {
      assert Sized(st, f, top);
    }
    OpKeepsTree(role, op, seen, st, f);
    FanoutKept(op, st, f, 0);
    match op
    case RegisterPublisher(n) =>
      RegisterShaped(role, st, next, f, top);
    case RegisterProxy(n) =>
      ProxyRegisteredSets(role, st, n);
      RegisterShaped(role, st, next, f, top);
    case Subscribe(n, env) =>
      if role(n) == Proxy {
        NoRejoin(role, seen, n);
      }
      SubscribeShaped(role, st, n, f, env, peak);
    case Disconnect(n) =>
      CutShaped(role, st, next, n, f, top);
    case SignalDisconnect(n) =>
      SignalCut(role, st, n);
      CutShaped(role, st, next, n, f, top);
  }

  lemma SignalCut(role: Roles, st: State, x: Name)
    requires Inv(role, st)
    ensures var next := SignalNext(st, x);
      && (forall p :: p in next.proxies <==> p in st.proxies && p != x)
      && (next.publishers != [] && next.edges != [] ==> st.publishers != [] && next.publishers[0] == st.publishers[0])
  {
    FilterIs(st.proxies, NotName(x));
    FilterIs(st.publishers, NotName(x));
    CutKeeps(role, st, x);
    if st.publishers != [] && x != st.publishers[0] {
      FilterHead(st.publishers, x);
    }
  }
}
