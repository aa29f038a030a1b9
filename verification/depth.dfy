/** How many hops the tree takes for its listeners: linearly many, not the logarithm. */
module Depth {
  import opened Basics
  import opened Tree
  import opened RoutingModel
  import opened BfsProofs
  import opened Fanout
  import opened TreeSafety
  import opened Growth
  import opened Shape
  import opened Protocol
  import opened Runs

  // ----- every run -----

  /** The path p leads from the root to a listener that is at least (l - 1)/(f - 1) hops away, l being the number of
      listeners attached. */
  ghost predicate LongPath(st: State, f: nat, p: seq<Name>, y: Name) {
    && st.publishers != [] && y in TreeListeners(st)
    && PathFromTo(Elements(st.edges), p, st.Root(), y)
    && |TreeListeners(st)| <= (|p| - 1) * (f - 1) + 1
  }

  lemma SpineIsLong(role: Roles, st: State, d: map<Name, nat>, f: nat) returns (p: seq<Name>, y: Name)
    requires Sound(role, st, d, f) && Spine(st, d) && f >= 1 && TreeListeners(st) != {}
    ensures LongPath(st, f, p, y)
  {
    y := DeepestListener(role, st, d, f);
    p := PathTo(st, d, y);
  }

  lemma PathTo(st: State, d: map<Name, nat>, y: Name) returns (p: seq<Name>)
    requires TreeWith(st, d) && y in d
    ensures PathFromTo(Elements(st.edges), p, st.Root(), y) && |p| - 1 == d[y]
  {
    RootReaches(Elements(st.edges), st.Root(), d, y);
    p :| PathFromTo(Elements(st.edges), p, st.Root(), y);
    PathDepth(Elements(st.edges), st.Root(), d, p);
  }

  lemma ShapedIsLong(role: Roles, st: State, f: nat, peak: nat) returns (p: seq<Name>, y: Name)
    requires f >= 2 && Shaped(role, st, f, peak) && TreeListeners(st) != {}
    ensures LongPath(st, f, p, y)
  {
    var d := ShapedDepths(role, st, f, peak);
    p, y := SpineIsLong(role, st, d, f);
  }

  /** While the proxies in the tree answer, at every moment of every run without late swaps some listener is at least
      (l - 1)/(f - 1) hops from the root. */
  lemma LongPathAlways(s: Setup, tr: seq<Config>, t: nat) returns (p: seq<Name>, y: Name)
    requires s.f >= 2 && s.healthy && Run(s, tr) && NeverLate(s, tr) && t < |tr|
    requires TreeListeners(Parse(tr[t].cell)) != {}
    ensures LongPath(Parse(tr[t].cell), s.f, p, y)
  {
    ShapeAlways(s, tr, t);
    p, y := ShapedIsLong(s.role, Parse(tr[t].cell), s.f, Peak(tr[..t + 1]));
  }

  function Pow(f: nat, e: nat): nat {
    if e == 0 then 1 else f * Pow(f, e - 1)
  }

  lemma PowDoubles(f: nat, e: nat)
    requires f >= 2
    ensures Pow(f, e + 1) >= 2 * Pow(f, e)
  {
    Fewer(2, f, Pow(f, e) + 1);
  }

  lemma {:induction false} PowAboveLine(f: nat, e: nat)
    requires f >= 2 && e >= 3
    ensures Pow(f, e - 1) >= e * (f - 1) + 1
  {
    if e == 3 {
      assert Pow(f, 2) == f * Pow(f, 1) && Pow(f, 1) == f * Pow(f, 0);
      Square(f);
    } else {
      PowAboveLine(f, e - 1);
      StepAbove(f, e - 1, Pow(f, e - 2));
    }
  }

  lemma Square(f: nat)
    requires f >= 2
    ensures f * (f * 1) >= 3 * (f - 1) + 1
  {
    assert (f - 1) * (f - 2) >= 0;
  }

  lemma StepAbove(f: nat, e: nat, q: nat)
    requires f >= 2 && q >= e * (f - 1) + 1
    ensures f * q >= (e + 1) * (f - 1) + 1
  {
    Fewer(1, q, f);
    assert f * q == q * (f - 1) + q;
    assert (e + 1) * (f - 1) == e * (f - 1) + (f - 1);
  }

  /** More than f^(e - 1) listeners take more than e hops, for e from three on: the deepest listener is further away
      than log_f of the number of listeners, rounded up. */
  lemma MoreThanLog(st: State, f: nat, p: seq<Name>, y: Name, e: nat)
    requires f >= 2 && e >= 3 && LongPath(st, f, p, y) && |TreeListeners(st)| > Pow(f, e - 1)
    ensures |p| - 1 > e
  {
    PowAboveLine(f, e);
    if |p| - 1 <= e {
      Fewer(|p| - 1, e, f);
    }
  }

  // ----- exactly how many hops -----

  /** No listener is more than h hops from the root. */
  ghost predicate WithinHops(st: State, h: nat)
    requires st.publishers != []
  {
    forall p, y :: y in TreeListeners(st) && PathFromTo(Elements(st.edges), p, st.Root(), y) ==> |p| - 1 <= h
  }

  /** A value that holds as many listeners as there ever were. */
  lemma ShapedWithin(role: Roles, st: State, f: nat, peak: nat, h: nat)
    requires f >= 2 && h >= 1 && st.publishers != [] && Shaped(role, st, f, peak) && |TreeListeners(st)| == peak
    ensures WithinHops(st, h) <==> peak <= h * (f - 1) + 1
  {
    if WithinHops(st, h) && TreeListeners(st) != {} {
      var p, y := ShapedIsLong(role, st, f, peak);
      Fewer(|p| - 1, h, f);
    }
    if peak <= h * (f - 1) + 1 {
      forall p, y | y in TreeListeners(st) && PathFromTo(Elements(st.edges), p, st.Root(), y)
        ensures |p| - 1 <= h
      {
        PathIsShort(role, st, f, peak, h, p, y);
      }
    }
  }

  lemma PathIsShort(role: Roles, st: State, f: nat, peak: nat, h: nat, p: seq<Name>, y: Name)
    requires f >= 2 && h >= 1 && st.publishers != [] && Shaped(role, st, f, peak)
    requires PathFromTo(Elements(st.edges), p, st.Root(), y) && peak <= h * (f - 1) + 1
    ensures |p| - 1 <= h
  {
    ShapedHops(role, st, f, peak, p, y);
    if |p| - 1 - 1 >= h {
      Fewer(h, |p| - 1 - 1, f);
    }
  }

  /** While the proxies in the tree answer, whenever as many listeners are attached as ever before, all of them are
      within h hops exactly if there are at most h*(f - 1) + 1. */
  lemma HopsExactly(s: Setup, tr: seq<Config>, t: nat, h: nat)
    requires s.f >= 2 && s.healthy && Run(s, tr) && NeverLate(s, tr) && t < |tr| && h >= 1
    requires var st := Parse(tr[t].cell);
      st.publishers != [] && |TreeListeners(st)| == Peak(tr[..t + 1])
    ensures var st := Parse(tr[t].cell);
      WithinHops(st, h) <==> |TreeListeners(st)| <= h * (s.f - 1) + 1
  {
    var st, peak := ShapedAt(s, tr, t);
    ShapedWithin(s.role, st, s.f, peak, h);
  }

  /** e is the logarithm of l to the base f, rounded up. */
  ghost predicate IsLog(f: nat, l: nat, e: nat) {
    e >= 1 && Pow(f, e - 1) < l <= Pow(f, e)
  }

  lemma LogBelowLine(f: nat, l: nat, e: nat)
    requires f >= 2 && IsLog(f, l, e)
    ensures l <= e * (f - 1) + 1 <==> l < 2 * f
  {
    assert Pow(f, 0) == 1 && Pow(f, 1) == f * Pow(f, 0);
    if e >= 3 {
      PowAboveLine(f, e);
      PowMonotone(f, 2, e - 1);
      assert Pow(f, 2) == f * Pow(f, 1);
      Fewer(2, f, f + 1);
    }
  }

  lemma {:induction false} PowMonotone(f: nat, a: nat, b: nat)
    requires f >= 2 && a <= b
    ensures Pow(f, a) <= Pow(f, b)
    decreases b - a
  {
    if a < b {
      PowMonotone(f, a, b - 1);
      PowDoubles(f, b - 1);
    }
  }

  /** So the logarithm of their number bounds the hops of the listeners exactly as long as there are fewer than 2*f. */
  lemma WithinLogExactly(s: Setup, tr: seq<Config>, t: nat, e: nat)
    requires s.f >= 2 && s.healthy && Run(s, tr) && NeverLate(s, tr) && t < |tr|
    requires var st := Parse(tr[t].cell);
      && st.publishers != [] && |TreeListeners(st)| == Peak(tr[..t + 1])
      && IsLog(s.f, |TreeListeners(st)|, e)
    ensures var st := Parse(tr[t].cell);
      WithinHops(st, e) <==> |TreeListeners(st)| < 2 * s.f
  {
    HopsExactly(s, tr, t, e);
    LogBelowLine(s.f, |TreeListeners(Parse(tr[t].cell))|, e);
  }

  // ----- runs with any number of listeners -----

  /** The names from lo up to and including hi. */
  ghost function NamesTo(lo: nat, hi: nat): set<Name>
    requires hi < 0x1_0000_0000
    decreases hi - lo
  {
    if lo >= hi then {} else NamesTo(lo, hi - 1) + {hi}
  }

  lemma {:induction false} NamesToCard(lo: nat, hi: nat)
    requires lo <= hi < 0x1_0000_0000
    ensures |NamesTo(lo, hi)| == hi - lo
  {
    NamesToAre(lo, hi);
  }

  lemma {:induction false} NamesToAre(lo: nat, hi: nat)
    requires lo <= hi < 0x1_0000_0000
    ensures |NamesTo(lo, hi)| == hi - lo
    ensures forall k :: k in NamesTo(lo, hi) <==> lo < k <= hi
    decreases hi - lo
  {
    if lo < hi {
      NamesToAre(lo, hi - 1);
    }
  }

  /** Name 0 is the publisher, 1 to n are proxies, all others listen. */
  function ManyRoles(n: nat): Roles {
    (k: Name) => if k == 0 then Publisher else if k <= n then Proxy else Listener
  }

  ghost function Answering(alive: set<Name>): Env {
    Env(0, 0, alive, alive, map k | k in alive + {0} :: alive, map[])
  }

  /** Everybody is registered, and k listeners have joined. */
  ghost predicate Joined(role: Roles, st: State, f: nat, n: nat, k: nat)
    requires n < 0x1_0000_0000
  {
    && st.publishers == [0] && Elements(st.proxies) == NamesTo(0, n)
    && Shaped(role, st, f, k) && |TreeListeners(st)| == k
    && forall c :: c in TreeListeners(st) ==> c <= n + k
  }

  lemma {:induction false} AllRegister(s: Setup, n: nat, k: nat) returns (tr: seq<Config>, st: State)
    requires s.f >= 2 && k <= n < 0x1_0000_0000 && s.role == ManyRoles(n)
    ensures Run(s, tr) && Unrefused(s, tr) && AtRest(Last(tr), st)
    ensures st.publishers == [0] && Elements(st.proxies) == NamesTo(0, k) && st.edges == [] && Inv(s.role, st)
    decreases k
  {
    if k == 0 {
      tr, st := RootRegisters(s);
    } else {
      var before, prev := AllRegister(s, n, k - 1);
      tr := Alone(s, before, Text(prev, 0), RegisterProxy(k));
      st := NextRegisters(s.role, prev, s.f, n, k);
    }
  }

  lemma RootRegisters(s: Setup) returns (tr: seq<Config>, st: State)
    requires s.role(0) == Publisher
    ensures Run(s, tr) && Unrefused(s, tr) && AtRest(Last(tr), st) && st == State([0], [], [], map[]) && Inv(s.role, st)
  {
    EmptyInv(s.role, s.f);
    RegisterPublisherKeeps(s.role, EMPTY, 0);
    tr := Alone(s, [Config(Absent, [Idle, Idle])], Absent, RegisterPublisher(0));
    st := Proposals(RegisterPublisher(0), EMPTY, s.f)[0];
  }

  lemma NextRegisters(role: Roles, st: State, f: nat, n: nat, k: nat) returns (next: State)
    requires 0 < k <= n < 0x1_0000_0000 && role == ManyRoles(n) && Inv(role, st)
    requires Elements(st.proxies) == NamesTo(0, k - 1)
    ensures next == Proposals(RegisterProxy(k), st, f)[0] && next == st.(proxies := st.proxies + [k])
    ensures Elements(next.proxies) == NamesTo(0, k) && Inv(role, next)
  {
    NamesToAre(0, k - 1);
    RegisterProxyKeeps(role, st, k);
    next := Proposals(RegisterProxy(k), st, f)[0];
    assert k !in Elements(st.proxies);
    ElementsSnoc(st.proxies, k);
  }

  /** What a subscribe in a healthy tree adds. */
  lemma JoinAdds(role: Roles, st: State, f: nat, peak: nat, sub: Name, env: Env)
    requires f >= 2 && Shaped(role, st, f, peak) && role(sub) == Listener && Healthy(st, env)
    requires Proposals(Subscribe(sub, env), st, f) != []
    ensures var next := Proposals(Subscribe(sub, env), st, f)[0];
      && TreeListeners(next) == TreeListeners(st) + {sub} && sub !in TreeListeners(st)
      && next.publishers == st.publishers && next.proxies == st.proxies
  {
    var next, base := Proposals(Subscribe(sub, env), st, f)[0], Seeded(st, sub, env);
    var d :| TreeWith(st, d) && Spine(st, d);
    var l := SubscribeLands(role, st, d, sub, f, env);
    KinHasEdge(st, sub);
    match l
    case Attaches(n) =>
      AttachSets(base, n, sub);
    case Grafts(n, x, m) =>
      SeededSound(role, st, d, f, sub, env);
      SearchIsInner(role, base, d);
      KinHasEdge(base, sub);
      var _ := GraftEffect(role, base, next, d, n, x, sub, m, f);
      AttachedKin(base, d);
      GraftSets(role, base, next, x, sub);
  }

  lemma {:induction false} AllJoin(s: Setup, n: nat, k: nat) returns (tr: seq<Config>, st: State)
    requires s.f >= 2 && k <= n && 2 * n < 0x1_0000_0000 && s.role == ManyRoles(n)
    ensures Run(s, tr) && Unrefused(s, tr) && AtRest(Last(tr), st) && Joined(s.role, st, s.f, n, k)
    decreases k
  {
    if k == 0 {
      tr, st := AllRegister(s, n, n);
      EdgelessShaped(s.role, st, s.f, 0);
    } else {
      var before, prev := AllJoin(s, n, k - 1);
      st := NextJoins(s.role, prev, s.f, n, k);
      tr := Alone(s, before, Text(prev, 0), Subscribe(n + k, Answering(NamesTo(0, n))));
    }
  }

  lemma NextJoins(role: Roles, st: State, f: nat, n: nat, k: nat) returns (next: State)
    requires f >= 2 && 1 <= k <= n && 2 * n < 0x1_0000_0000 && role == ManyRoles(n)
    requires Joined(role, st, f, n, k - 1)
    ensures var op := Subscribe(n + k, Answering(NamesTo(0, n)));
      && Healthy(st, op.env) && role(op.node) == Listener
      && Proposals(op, st, f) != [] && next == Proposals(op, st, f)[0] && Joined(role, next, f, n, k)
  {
    var env := Answering(NamesTo(0, n));
    CanJoin(role, st, f, k - 1, n, n + k, env);
    next := Proposals(Subscribe(n + k, env), st, f)[0];
    JoinedNext(role, st, next, f, n, k, env);
  }

  lemma JoinedNext(role: Roles, st: State, next: State, f: nat, n: nat, k: nat, env: Env)
    requires f >= 2 && 1 <= k <= n && 2 * n < 0x1_0000_0000 && Joined(role, st, f, n, k - 1)
    requires Healthy(st, env) && role(n + k) == Listener && n + k !in TreeListeners(st)
    requires Proposals(Subscribe(n + k, env), st, f) != [] && next == Proposals(Subscribe(n + k, env), st, f)[0]
    ensures Joined(role, next, f, n, k)
  {
    JoinAdds(role, st, f, k - 1, n + k, env);
    SubscribeShaped(role, st, n + k, f, env, k - 1);
    OneMoreListener(TreeListeners(st), TreeListeners(next), n, k);
    assert Max(k - 1, |TreeListeners(next)|) == k;
  }

  lemma OneMoreListener(s: set<Name>, t: set<Name>, n: nat, k: nat)
    requires 1 <= k && n + k < 0x1_0000_0000 && n + k !in s && |s| == k - 1 && forall c :: c in s ==> c <= n + k - 1
    requires t == s + {n + k}
    ensures |t| == k && forall c :: c in t ==> c <= n + k
  {
  }

  lemma {:induction false} CanJoin(role: Roles, st: State, f: nat, peak: nat, n: nat, sub: Name, env: Env)
    requires f >= 2 && n < sub && Shaped(role, st, f, peak) && env == Answering(NamesTo(0, n))
    requires st.publishers == [0] && Elements(st.proxies) == NamesTo(0, n) && |TreeListeners(st)| < n
    requires forall c :: c in TreeListeners(st) ==> c < sub
    ensures Healthy(st, env) && Proposals(Subscribe(sub, env), st, f) != []
  {
    ProxiesKnown(st, NamesTo(0, n));
    Newcomer(st, n, sub);
    NamesToCard(0, n);
    FindsPlace(role, st, f, peak, sub, NamesTo(0, n), env);
  }

  /** A proxy for each listener is enough. */
  lemma FindsPlace(role: Roles, st: State, f: nat, peak: nat, sub: Name, alive: set<Name>, env: Env)
    requires env == Answering(alive) && f >= 2 && Shaped(role, st, f, peak) && !st.HasParentEdge(sub)
    requires st.publishers == [0] && Elements(st.proxies) == alive
    requires |TreeListeners(st)| < |alive|
    ensures Proposals(Subscribe(sub, env), st, f) != []
  {
    Product(|alive|, f - 1);
    var d := ShapedDepths(role, st, f, peak);
    ProxiesKnown(st, alive);
    ProxiesLeft(role, st, d, sub, f, env, alive);
    HasOffer(st, sub, f, env);
  }

  lemma HasOffer(st: State, sub: Name, f: nat, env: Env)
    requires st.publishers != [] && !st.HasParentEdge(sub) && SubscribeScan(st, sub, f, env).tries != []
    ensures Proposals(Subscribe(sub, env), st, f) != []
  {
  }

  lemma Product(n: nat, g: nat)
    requires g >= 1
    ensures n <= n * g
  {
  }

  lemma ProxiesKnown(st: State, alive: set<Name>)
    requires st.publishers == [0] && Elements(st.proxies) == alive
    ensures Healthy(st, Answering(alive))
    ensures forall k :: k in InnerNodes(st) ==> alive <= Answering(alive).PickAlive(k)
  {
    assert TreeProxies(st) <= alive by {
      forall p | p in TreeProxies(st)
        ensures p in Elements(st.proxies)
      {
      }
    }
  }

  lemma {:induction false} Newcomer(st: State, n: nat, sub: Name)
    requires n < sub && Elements(st.proxies) == NamesTo(0, n)
    requires forall c :: c in TreeListeners(st) ==> c < sub
    ensures !st.HasParentEdge(sub)
  {
    NamesToAre(0, n);
    KinHasEdge(st, sub);
    assert sub !in Elements(st.proxies) && sub !in TreeListeners(st);
  }

  /** For every fanout of at least two and every number of listeners, as far as there are names, there is a run from
      the empty key, with all proxies answering and no swap ever refused, that attaches them all, and then some
      listener is at least (n - 1)/(f - 1) hops from the root, and all are within h hops exactly if n <= h*(f - 1) +
      1. */
  lemma LinearRun(f: nat, rereads: bool, n: nat) returns (s: Setup, tr: seq<Config>, p: seq<Name>, y: Name)
    requires f >= 2 && 1 <= n && 2 * n < 0x1_0000_0000
    ensures s == Setup(ManyRoles(n), f, rereads, true) && Run(s, tr) && Unrefused(s, tr) && NeverLate(s, tr)
    ensures |TreeListeners(Parse(Last(tr).cell))| == n && LongPath(Parse(Last(tr).cell), f, p, y)
    ensures forall h :: h >= 1 ==> (WithinHops(Parse(Last(tr).cell), h) <==> n <= h * (f - 1) + 1)
  {
    s := Setup(ManyRoles(n), f, rereads, true);
    var st;
    tr, st := AllJoin(s, n, n);
    UnrefusedNeverLate(s, tr);
    p, y := ShapedIsLong(s.role, st, f, n);
    forall h: nat | h >= 1
      ensures WithinHops(st, h) <==> n <= h * (f - 1) + 1
    {
      ShapedWithin(s.role, st, f, n, h);
    }
  }

  /** With the default fanout of three and six listeners the deepest is at least three hops away, and log_3(6) < 2. */
  lemma SixListeners() returns (s: Setup, tr: seq<Config>, p: seq<Name>, y: Name)
    ensures s.f == 3 && Run(s, tr) && Unrefused(s, tr) && NeverLate(s, tr)
    ensures |TreeListeners(Parse(Last(tr).cell))| == 6 < Pow(3, 2)
    ensures LongPath(Parse(Last(tr).cell), 3, p, y) && |p| - 1 >= 3
  {
    s, tr, p, y := LinearRun(3, false, 6);
    assert Pow(3, 0) == 1 && Pow(3, 1) == 3 && Pow(3, 2) == 9;
  }
}
