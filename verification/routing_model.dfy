/** The shared routing value of a topic and, as functions on values, what each operation proposes to write. */
module RoutingModel {
  import opened Basics
  import opened Tree

  // ----- the stored value (core/src/routing.rs, RoutingState) -----

  datatype State = State(publishers: seq<Name>, proxies: seq<Name>, edges: seq<Edge>, attachMs: map<Name, int>) {
    predicate IsIntermediate(n: Name) {
      n in publishers || n in proxies
    }

    predicate HasParentEdge(n: Name) {
      exists e :: e in edges && e.child == n
    }

    /** add_edge_unique */
    function AddEdge(p: Name, c: Name): (st: State)
      ensures forall e :: e in st.edges <==> e in edges || e == Edge(p, c)
    {
      if Edge(p, c) in edges then this else this.(edges := edges + [Edge(p, c)])
    }

    function RemoveEdge(p: Name, c: Name): (st: State)
      ensures forall e :: e in st.edges <==> e in edges && e != Edge(p, c)
    {
      FilterIs(edges, IsNot(Edge(p, c)));
      this.(edges := Filter(edges, IsNot(Edge(p, c))))
    }

    function Root(): Name
      requires publishers != []
    {
      publishers[0]
    }
  }

  const EMPTY := State([], [], [], map[])

  function IsNot(e: Edge): Edge -> bool {
    (g: Edge) => g != e
  }

  function AddName(s: seq<Name>, n: Name): seq<Name> {
    if n in s then s else s + [n]
  }

  function NotName(n: Name): Name -> bool {
    (m: Name) => m != n
  }

  // ----- children maps -----

  ghost predicate Ascending(s: seq<Name>) {
    forall i, j :: 0 <= i < j < |s| ==> s[i] < s[j]
  }

  /** Children of p, in the order their edges were added. */
  function KidSeq(edges: seq<Edge>, p: Name): seq<Name> {
    if edges == [] then [] else
      var e := edges[|edges| - 1];
      var r := KidSeq(edges[..|edges| - 1], p);
      if e.parent == p then r + [e.child] else r
  }

  lemma {:induction false} KidSeqAre(edges: seq<Edge>, p: Name)
    ensures forall c :: c in KidSeq(edges, p) <==> Edge(p, c) in edges
  {
    if edges != [] {
      var e := edges[|edges| - 1];
      KidSeqAre(edges[..|edges| - 1], p);
      assert edges == edges[..|edges| - 1] + [e];
      assert e.parent == p ==> e == Edge(p, e.child);
    }
  }

  function InsertName(s: seq<Name>, x: Name): seq<Name> {
    if s == [] then [x]
    else if x < s[0] then [x] + s
    else if x == s[0] then s
    else [s[0]] + InsertName(s[1..], x)
  }

  lemma {:induction false} InsertNameIs(s: seq<Name>, x: Name)
    ensures forall y :: y in InsertName(s, x) <==> y in s || y == x
  {
    if s != [] {
      assert s == [s[0]] + s[1..];
      InsertNameIs(s[1..], x);
    }
  }

  lemma {:induction false} InsertAscending(s: seq<Name>, x: Name)
    requires Ascending(s)
    ensures Ascending(InsertName(s, x))
  {
    if s != [] && s[0] < x {
      InsertNameIs(s[1..], x);
      InsertAscending(s[1..], x);
      var t := InsertName(s[1..], x);
      forall i | 0 <= i < |t|
        ensures s[0] < t[i]
      {
        assert t[i] in t;
      }
    }
  }

  /** Vec::sort then Vec::dedup. */
  function SortDedup(s: seq<Name>): seq<Name> {
    if s == [] then [] else InsertName(SortDedup(s[..|s| - 1]), s[|s| - 1])
  }

  lemma {:induction false} SortDedupIs(s: seq<Name>)
    ensures forall y :: y in SortDedup(s) <==> y in s
  {
    if s != [] {
      assert s == s[..|s| - 1] + [s[|s| - 1]];
      SortDedupIs(s[..|s| - 1]);
      InsertNameIs(SortDedup(s[..|s| - 1]), s[|s| - 1]);
    }
  }

  lemma {:induction false} SortDedupAscending(s: seq<Name>)
    ensures Ascending(SortDedup(s))
  {
    if s != [] {
      SortDedupAscending(s[..|s| - 1]);
      InsertAscending(SortDedup(s[..|s| - 1]), s[|s| - 1]);
    }
  }

  /** build_children_map: the entry of p, empty if there is none. */
  function Children(edges: seq<Edge>, p: Name): seq<Name> {
    SortDedup(KidSeq(edges, p))
  }

  function Dedup(s: seq<Name>): seq<Name> {
    if s == [] then [] else
      var r := Dedup(s[..|s| - 1]);
      if s[|s| - 1] in r then r else r + [s[|s| - 1]]
  }

  /** build_children_map_insertion_order: the entry of p, empty if there is none. */
  function ChildrenIns(edges: seq<Edge>, p: Name): seq<Name> {
    Dedup(KidSeq(edges, p))
  }

  lemma {:induction false} KidSeqAppend(edges: seq<Edge>, e: Edge, p: Name)
    ensures KidSeq(edges + [e], p) == KidSeq(edges, p) + if e.parent == p then [e.child] else []
  {
    assert (edges + [e])[..|edges|] == edges;
  }

  lemma ChildrenInsAppend(edges: seq<Edge>, e: Edge, p: Name)
    ensures ChildrenIns(edges + [e], p) ==
            ChildrenIns(edges, p) + if e.parent == p && e.child !in ChildrenIns(edges, p) then [e.child] else []
  {
    KidSeqAppend(edges, e, p);
    var k := KidSeq(edges, p);
    assert (k + [e.child])[..|k|] == k;
  }

  lemma {:induction false} DedupIs(s: seq<Name>)
    ensures Distinct(Dedup(s))
    ensures forall x :: x in Dedup(s) <==> x in s
  {
    if s != [] {
      assert s == s[..|s| - 1] + [s[|s| - 1]];
      DedupIs(s[..|s| - 1]);
      if s[|s| - 1] !in Dedup(s[..|s| - 1]) {
        DistinctAppend(Dedup(s[..|s| - 1]), s[|s| - 1]);
      }
    }
  }

  lemma {:induction false} AscendingDistinct(s: seq<Name>)
    requires Ascending(s)
    ensures Distinct(s)
  {
    if s != [] {
      AscendingDistinct(s[..|s| - 1]);
    }
  }

  lemma ChildrenAre(edges: seq<Edge>, p: Name)
    ensures Distinct(Children(edges, p)) && Distinct(ChildrenIns(edges, p))
    ensures forall c :: c in Children(edges, p) <==> Edge(p, c) in edges
    ensures forall c :: c in ChildrenIns(edges, p) <==> Edge(p, c) in edges
  {
    KidSeqAre(edges, p);
    DedupIs(KidSeq(edges, p));
    SortDedupIs(KidSeq(edges, p));
    SortDedupAscending(KidSeq(edges, p));
    AscendingDistinct(Children(edges, p));
  }

  lemma ChildrenCount(edges: seq<Edge>, p: Name)
    ensures Distinct(ChildrenIns(edges, p))
    ensures forall c :: c in ChildrenIns(edges, p) <==> Edge(p, c) in edges
    ensures |Children(edges, p)| == |ChildSet(Elements(edges), p)|
    ensures |ChildrenIns(edges, p)| == |ChildSet(Elements(edges), p)|
  {
    ChildrenAre(edges, p);
    DistinctCard(Children(edges, p));
    DistinctCard(ChildrenIns(edges, p));
    assert Elements(Children(edges, p)) == ChildSet(Elements(edges), p);
    assert Elements(ChildrenIns(edges, p)) == ChildSet(Elements(edges), p);
  }

  // ----- breadth-first search with depth -----

  datatype At = At(node: Name, depth: nat)

  ghost function Nodes(all: seq<At>): set<Name> {
    if all == [] then {} else Nodes(all[..|all| - 1]) + {all[|all| - 1].node}
  }

  ghost predicate DistinctNodes(all: seq<At>) {
    all == [] || (all[|all| - 1].node !in Nodes(all[..|all| - 1]) && DistinctNodes(all[..|all| - 1]))
  }

  lemma {:induction false} DistinctNodesAt(all: seq<At>, i: nat, j: nat)
    requires DistinctNodes(all) && i < j < |all|
    ensures all[i].node != all[j].node
  {
    var t := all[..|all| - 1];
    if j < |all| - 1 {
      DistinctNodesAt(t, i, j);
    } else {
      NodeIn(t, i);
    }
  }

  lemma {:induction false} DistinctNodesAppend(a: seq<At>, b: seq<At>)
    requires DistinctNodes(a) && DistinctNodes(b) && Nodes(a) !! Nodes(b)
    ensures DistinctNodes(a + b)
  {
    if b == [] {
      assert a + b == a;
    } else {
      assert (a + b)[..|a + b| - 1] == a + b[..|b| - 1];
      DistinctNodesAppend(a, b[..|b| - 1]);
      NodesAppend(a, b[..|b| - 1]);
    }
  }

  /** The intermediate children not seen yet, at depth d, in order. */
  function NewlySeen(st: State, ch: seq<Name>, seen: set<Name>, d: nat): seq<At> {
    if ch == [] then [] else
      var c := ch[|ch| - 1];
      var r := NewlySeen(st, ch[..|ch| - 1], seen, d);
      if st.IsIntermediate(c) && c !in seen then r + [At(c, d)] else r
  }

  lemma {:induction false} FreshAre(st: State, ch: seq<Name>, seen: set<Name>, d: nat)
    requires Distinct(ch)
    ensures var r := NewlySeen(st, ch, seen, d);
      && DistinctNodes(r)
      && (forall i :: 0 <= i < |r| ==> r[i].depth == d)
      && (forall n :: n in Nodes(r) <==> n in ch && st.IsIntermediate(n) && n !in seen)
  {
    if ch != [] {
      var t, c := ch[..|ch| - 1], ch[|ch| - 1];
      FreshAre(st, t, seen, d);
      assert ch == t + [c];
      var r := NewlySeen(st, t, seen, d);
      assert (r + [At(c, d)])[..|r|] == r;
    }
  }

  lemma {:induction false} NodesAt(all: seq<At>, n: Name) returns (i: nat)
    requires n in Nodes(all)
    ensures i < |all| && all[i].node == n
  {
    if all[|all| - 1].node == n {
      i := |all| - 1;
    } else {
      i := NodesAt(all[..|all| - 1], n);
    }
  }

  lemma {:induction false} NodeIn(all: seq<At>, i: nat)
    requires i < |all|
    ensures all[i].node in Nodes(all)
  {
    if i < |all| - 1 {
      NodeIn(all[..|all| - 1], i);
    }
  }

  lemma {:induction false} NodesAppend(a: seq<At>, b: seq<At>)
    ensures Nodes(a + b) == Nodes(a) + Nodes(b)
  {
    if b == [] {
      assert a + b == a;
    } else {
      assert (a + b)[..|a + b| - 1] == a + b[..|b| - 1];
      NodesAppend(a, b[..|b| - 1]);
    }
  }

  ghost function Kin(edges: seq<Edge>): set<Name> {
    AllChildren(Elements(edges))
  }

  lemma {:induction false} NodesCard(all: seq<At>)
    requires DistinctNodes(all)
    ensures |Nodes(all)| == |all|
  {
    if all != [] {
      NodesCard(all[..|all| - 1]);
    }
  }

  lemma {:induction false} FreshNext(st: State, ch: seq<Name>, j: nat, seen: set<Name>, d: nat)
    requires Distinct(ch) && j < |ch|
    ensures var r, c := NewlySeen(st, ch[..j], seen, d), ch[j];
      && c !in Nodes(r)
      && NewlySeen(st, ch[..j + 1], seen, d) == (if st.IsIntermediate(c) && c !in seen then r + [At(c, d)] else r)
      && Nodes(r + [At(c, d)]) == Nodes(r) + {c}
  {
    PrefixDistinct(ch, j);
    FreshAre(st, ch[..j], seen, d);
    assert ch[..j + 1][..j] == ch[..j];
    var r := NewlySeen(st, ch[..j], seen, d);
    assert (r + [At(ch[j], d)])[..|r|] == r;
  }

  /** What visiting all[i] queues. */
  ghost function FreshAt(st: State, all: seq<At>, i: nat): seq<At>
    requires i < |all|
  {
    NewlySeen(st, Children(st.edges, all[i].node), Nodes(all), all[i].depth + 1)
  }

  lemma {:induction false} FreshAtAre(st: State, all: seq<At>, i: nat)
    requires i < |all|
    ensures var r := FreshAt(st, all, i);
      && DistinctNodes(r)
      && (forall k :: 0 <= k < |r| ==> r[k].depth == all[i].depth + 1)
      && (forall n :: n in Nodes(r) <==> Edge(all[i].node, n) in st.edges && st.IsIntermediate(n) && n !in Nodes(all))
  {
    ChildrenAre(st.edges, all[i].node);
    FreshAre(st, Children(st.edges, all[i].node), Nodes(all), all[i].depth + 1);
  }

  ghost function Unvisited(st: State, all: seq<At>, i: nat): nat
    requires i <= |all|
  {
    |Kin(st.edges) - Nodes(all)| + |all| - i
  }

  /** Each visit uses up one place: what is unseen shrinks by what is queued. */
  lemma {:induction false} VisitShrinks(st: State, all: seq<At>, i: nat)
    requires i < |all|
    ensures Unvisited(st, all + FreshAt(st, all, i), i + 1) < Unvisited(st, all, i)
    ensures Nodes(all + FreshAt(st, all, i)) == Nodes(all) + Nodes(FreshAt(st, all, i))
  {
    var fr := FreshAt(st, all, i);
    FreshAtAre(st, all, i);
    NodesAppend(all, fr);
    NodesCard(fr);
    forall n | n in Nodes(fr)
      ensures n in Kin(st.edges) && n !in Nodes(all)
    {
      assert Edge(all[i].node, n) in Elements(st.edges);
    }
    DiffCard(Kin(st.edges), Nodes(all), Nodes(fr));
  }

  lemma DiffCard(k: set<Name>, n: set<Name>, b: set<Name>)
    requires b <= k - n
    ensures |k - (n + b)| + |b| == |k - n|
  {
    assert k - n == (k - (n + b)) + b;
  }

  /** The search after i visits: all[..i] has been output, all[i..] is the queue. */
  ghost function BfsFrom(st: State, all: seq<At>, i: nat): seq<At>
    requires i <= |all|
    decreases Unvisited(st, all, i)
  {
    if i == |all| then all else
      VisitShrinks(st, all, i);
      BfsFrom(st, all + FreshAt(st, all, i), i + 1)
  }

  /** bfs_intermediates_with_depth */
  ghost function Bfs(st: State, root: Name): seq<At> {
    BfsFrom(st, [At(root, 0)], 0)
  }

  // ----- subscribe -----

  /** What the environment answers during one attempt: the two clock readings, the heartbeat answers of the two
      passes, and, for a graft under n, the heartbeat answers about unused proxies and the clock. */
  datatype Env = Env(now: int, seed: int, alive1: set<Name>, alive2: set<Name>,
                     pick: map<Name, set<Name>>, graftMs: map<Name, int>) {
    function PickAlive(n: Name): set<Name> { if n in pick then pick[n] else {} }
    function GraftMs(n: Name): int { if n in graftMs then graftMs[n] else now }
  }

  /** The node is not skipped: parent_is_usable is only asked for registered proxies. */
  predicate Usable(st: State, n: Name, alive: set<Name>) {
    n in st.proxies ==> n in st.publishers || n in alive
  }

  ghost function LeafKin(st: State): set<Name> {
    set c | c in Kin(st.edges) && !st.IsIntermediate(c)
  }

  ghost function SeedMs(st: State, sub: Name, env: Env): map<Name, int> {
    map n | n in st.attachMs.Keys + {sub} + LeafKin(st) ::
      if n in st.attachMs then st.attachMs[n] else if n == sub then env.now else env.seed
  }

  /** The subscriber and every attached listener get an attach time. */
  ghost function Seeded(st: State, sub: Name, env: Env): State {
    st.(attachMs := SeedMs(st, sub, env))
  }

  function Ends(edges: seq<Edge>): set<Name> {
    if edges == [] then {} else
      Ends(edges[..|edges| - 1]) + {edges[|edges| - 1].parent, edges[|edges| - 1].child}
  }

  lemma {:induction false} EndIn(edges: seq<Edge>, e: Edge)
    requires e in edges
    ensures e.parent in Ends(edges) && e.child in Ends(edges)
  {
    if e != edges[|edges| - 1] {
      assert edges == edges[..|edges| - 1] + [edges[|edges| - 1]];
      EndIn(edges[..|edges| - 1], e);
    }
  }

  lemma {:induction false} EndOf(edges: seq<Edge>, n: Name) returns (e: Edge)
    requires n in Ends(edges)
    ensures e in edges && (e.parent == n || e.child == n)
  {
    e := edges[|edges| - 1];
    if e.parent != n && e.child != n {
      e := EndOf(edges[..|edges| - 1], n);
    }
  }

  /** used_nodes_set */
  ghost function Used(st: State): set<Name> {
    Ends(st.edges) + Elements(st.publishers)
  }

  function FirstUnused(proxies: seq<Name>, used: set<Name>, alive: set<Name>, i: nat): Option<Name>
    decreases |proxies| - i
  {
    if i >= |proxies| then None
    else if proxies[i] !in used && proxies[i] in alive then Some(proxies[i])
    else FirstUnused(proxies, used, alive, i + 1)
  }

  /** From position i on, x stands before every other entry that is alive and not used. */
  ghost predicate FirstFree(proxies: seq<Name>, used: set<Name>, alive: set<Name>, i: nat, x: Name) {
    exists k :: i <= k < |proxies| && proxies[k] == x && forall j :: i <= j < k && proxies[j] in alive ==>
        proxies[j] in used
  }

  lemma {:induction false} FirstUnusedIs(proxies: seq<Name>, used: set<Name>, alive: set<Name>, i: nat)
    ensures match FirstUnused(proxies, used, alive, i)
      case Some(x) => x in proxies && x !in used && x in alive && FirstFree(proxies, used, alive, i, x)
      case None => forall k :: i <= k < |proxies| && proxies[k] in alive ==> proxies[k] in used
    decreases |proxies| - i
  {
    if i < |proxies| && !(proxies[i] !in used && proxies[i] in alive) {
      FirstUnusedIs(proxies, used, alive, i + 1);
      FreeFromNext(proxies, used, alive, i);
    } else if i < |proxies| {
      assert FirstFree(proxies, used, alive, i, proxies[i]);
    }
  }

  lemma FreeFromNext(proxies: seq<Name>, used: set<Name>, alive: set<Name>, i: nat)
    requires i < |proxies| && (proxies[i] in alive ==> proxies[i] in used)
    ensures forall x :: FirstFree(proxies, used, alive, i + 1, x) ==> FirstFree(proxies, used, alive, i, x)
  {
    forall x | FirstFree(proxies, used, alive, i + 1, x)
      ensures FirstFree(proxies, used, alive, i, x)
    {
      var k :| i + 1 <= k < |proxies| && proxies[k] == x &&
               forall j :: i + 1 <= j < k && proxies[j] in alive ==> proxies[j] in used;
      assert forall j :: i <= j < k && proxies[j] in alive ==> proxies[j] in used;
    }
  }

  /** pick_unused_proxy */
  ghost function PickUnused(st: State, alive: set<Name>): Option<Name> {
    FirstUnused(st.proxies, Used(st), alive, 0)
  }

  /** At the end of no edge, and no publisher. */
  ghost predicate Idle(st: State, p: Name) {
    p !in st.publishers && forall e :: e in st.edges ==> e.parent != p && e.child != p
  }

  /** It is registered before every other proxy that answers and is idle. */
  ghost predicate FirstIdle(st: State, x: Name, alive: set<Name>) {
    exists k :: 0 <= k < |st.proxies| && st.proxies[k] == x &&
      forall j :: 0 <= j < k && st.proxies[j] in alive ==> !Idle(st, st.proxies[j])
  }

  /** No registered proxy that answers is idle. */
  ghost predicate NoneIdle(st: State, alive: set<Name>) {
    forall p :: p in st.proxies && p in alive ==> !Idle(st, p)
  }

  lemma UsedMeans(st: State, p: Name)
    ensures p in Used(st) <==> !Idle(st, p)
  {
    if p in Ends(st.edges) {
      var e := EndOf(st.edges, p);
    }
    forall e | e in st.edges
      ensures e.parent in Used(st) && e.child in Used(st)
    {
      EndIn(st.edges, e);
    }
  }

  lemma FirstFreeIdle(st: State, x: Name, alive: set<Name>)
    requires FirstFree(st.proxies, Used(st), alive, 0, x)
    ensures FirstIdle(st, x, alive)
  {
    var k :| 0 <= k < |st.proxies| && st.proxies[k] == x &&
             forall j :: 0 <= j < k && st.proxies[j] in alive ==> st.proxies[j] in Used(st);
    forall j | 0 <= j < k && st.proxies[j] in alive
      ensures !Idle(st, st.proxies[j])
    {
      UsedMeans(st, st.proxies[j]);
    }
  }

  lemma PickIs(st: State, alive: set<Name>)
    ensures match PickUnused(st, alive)
      case Some(x) => x in alive && Idle(st, x) && FirstIdle(st, x, alive)
      case None => NoneIdle(st, alive)
  {
    FirstUnusedIs(st.proxies, Used(st), alive, 0);
    match PickUnused(st, alive)
    case Some(x) =>
      UsedMeans(st, x);
      FirstFreeIdle(st, x, alive);
    case None =>
      forall p | p in st.proxies && p in alive
        ensures !Idle(st, p)
      {
        UsedMeans(st, p);
      }
  }

  function Ms(attach: map<Name, int>, n: Name): int {
    if n in attach then attach[n] else 0
  }

  /** Older first, then by name. */
  function ByAge(attach: map<Name, int>): (Name, Name) -> bool {
    (a: Name, b: Name) => Ms(attach, a) < Ms(attach, b) || (Ms(attach, a) == Ms(attach, b) && a <= b)
  }

  /** a was attached before b, a missing time counting as zero, or at the same time and its name is smaller. */
  ghost predicate OlderThan(attach: map<Name, int>, a: Name, b: Name) {
    var s, t := if a in attach then attach[a] else 0, if b in attach then attach[b] else 0;
    s < t || (s == t && a < b)
  }

  function NotProxy(st: State): Name -> bool {
    (c: Name) => c !in st.proxies
  }

  function Min(a: int, b: int): int { if a <= b then a else b }
  function Max(a: int, b: int): int { if a >= b then a else b }

  function MoveCount(k: nat, f: nat): nat {
    Max(Min(k, Max(f - 1, 0)), 1)
  }

  /** The children of a full node that move under the new proxy. */
  function Movers(cur: State, ch: seq<Name>, f: nat): seq<Name> {
    var byAge := SortBy(Filter(ch, NotProxy(cur)), ByAge(cur.attachMs));
    byAge[..Min(MoveCount(|byAge|, f), |byAge|)]
  }

  function MoveAll(cur: State, n: Name, x: Name, movers: seq<Name>, ts: int): State {
    if movers == [] then cur else
      var c := movers[|movers| - 1];
      var st := MoveAll(cur, n, x, movers[..|movers| - 1], ts).RemoveEdge(n, c).AddEdge(x, c);
      st.(attachMs := st.attachMs[c := ts])
  }

  function Graft(cur: State, n: Name, x: Name, sub: Name, movers: seq<Name>, ts: int): State {
    MoveAll(cur.AddEdge(n, x).AddEdge(x, sub), n, x, movers, ts)
  }

  /** Deeper first, then by name. */
  function ByDepth(): (At, At) -> bool {
    (a: At, b: At) => a.depth > b.depth || (a.depth == b.depth && a.node <= b.node)
  }

  /** The values an attempt hands to the compare-and-swap while every one of them is refused,
      and whether it stops for lack of a proxy. */
  datatype Scan = Scan(tries: seq<State>, noProxy: bool)

  /** The scan whose first offers are tries. */
  function Offered(tries: seq<State>, rest: Scan): Scan {
    Scan(tries + rest.tries, rest.noProxy)
  }

  /** What a pass does at one node: pass over it, give up the attempt, or offer a value. */
  datatype Step = Skip | Stop | Offer(st: State)

  predicate AllProxies(st: State, ch: seq<Name>) {
    forall c :: c in ch ==> c in st.proxies
  }

  /** Pass 2 at node n. base is the state read, cur has been mutated by earlier offers. */
  ghost function GraftStep(base: State, cur: State, n: Name, sub: Name, f: nat, env: Env): Step {
    var ch := ChildrenIns(base.edges, n);
    if !Usable(cur, n, env.alive2) || ch == [] || AllProxies(cur, ch) then Skip else
      match PickUnused(cur, env.PickAlive(n))
      case None => Stop
      case Some(x) => Offer(Graft(cur, n, x, sub, Movers(cur, ch, f), env.GraftMs(n)))
  }

  /** Pass 2 over the candidates from the i-th on. */
  ghost function Pass2(base: State, cur: State, cands: seq<At>, i: nat, sub: Name, f: nat, env: Env): Scan
    decreases |cands| - i
  {
    if i >= |cands| then Scan([], false) else
      match GraftStep(base, cur, cands[i].node, sub, f, env)
      case Skip => Pass2(base, cur, cands, i + 1, sub, f, env)
      case Stop => Scan([], true)
      case Offer(next) => Offered([next], Pass2(base, next, cands, i + 1, sub, f, env))
  }

  /** Pass 1 at node n. */
  function AttachStep(base: State, cur: State, n: Name, sub: Name, f: nat, env: Env): (r: Step)
    ensures !r.Stop?
  {
    if Usable(cur, n, env.alive1) && |Children(base.edges, n)| < f then Offer(cur.AddEdge(n, sub)) else Skip
  }

  /** Pass 1 over the nodes from the i-th on, then pass 2 over all of them, deepest first. */
  ghost function Pass1(base: State, cur: State, nodes: seq<At>, i: nat, sub: Name, f: nat, env: Env): Scan
    decreases |nodes| - i
  {
    if i >= |nodes| then Pass2(base, cur, SortBy(nodes, ByDepth()), 0, sub, f, env) else
      match AttachStep(base, cur, nodes[i].node, sub, f, env)
      case Offer(next) => Offered([next], Pass1(base, next, nodes, i + 1, sub, f, env))
      case Skip => Pass1(base, cur, nodes, i + 1, sub, f, env)
  }

  ghost function SubscribeScan(st: State, sub: Name, f: nat, env: Env): Scan
    requires st.publishers != []
  {
    var base := Seeded(st, sub, env);
    Pass1(base, base, Bfs(base, base.Root()), 0, sub, f, env)
  }

  lemma {:induction false} NextSkipped(base: State, cur: State, cands: seq<At>, i: nat, sub: Name, f: nat, env: Env)
    requires i < |cands| && GraftStep(base, cur, cands[i].node, sub, f, env) == Skip
    ensures Pass2(base, cur, cands, i, sub, f, env) == Pass2(base, cur, cands, i + 1, sub, f, env)
  {
  }

  lemma {:induction false} NextStopped(base: State, cur: State, cands: seq<At>, i: nat, sub: Name, f: nat, env: Env)
    requires i < |cands| && GraftStep(base, cur, cands[i].node, sub, f, env) == Stop
    ensures Pass2(base, cur, cands, i, sub, f, env) == Scan([], true)
  {
  }

  lemma {:induction false} NextOffered(base: State, cur: State, next: State, cands: seq<At>, i: nat, sub: Name, f: nat,
                                       env: Env)
    requires i < |cands| && GraftStep(base, cur, cands[i].node, sub, f, env) == Offer(next)
    ensures Pass2(base, cur, cands, i, sub, f, env) == Offered([next], Pass2(base, next, cands, i + 1, sub, f, env))
  {
  }

  lemma {:induction false} SkippedAt(base: State, cur: State, nodes: seq<At>, i: nat, sub: Name, f: nat, env: Env)
    requires i < |nodes| && AttachStep(base, cur, nodes[i].node, sub, f, env) == Skip
    ensures Pass1(base, cur, nodes, i, sub, f, env) == Pass1(base, cur, nodes, i + 1, sub, f, env)
  {
  }

  /** The k-th offer of pass 1 when it attaches at the i-th node. */
  lemma {:induction false} AttachedAt(base: State, cur: State, nodes: seq<At>, i: nat, sub: Name, f: nat, env: Env,
                                      next: State, k: nat)
    requires i < |nodes| && AttachStep(base, cur, nodes[i].node, sub, f, env) == Offer(next)
    requires k < |Pass1(base, cur, nodes, i, sub, f, env).tries|
    ensures k == 0 ==> Pass1(base, cur, nodes, i, sub, f, env).tries[k] == next
    ensures k > 0 ==>
      && k - 1 < |Pass1(base, next, nodes, i + 1, sub, f, env).tries|
      && Pass1(base, cur, nodes, i, sub, f, env).tries[k] == Pass1(base, next, nodes, i + 1, sub, f, env).tries[k - 1]
  {
    OfferedAt(next, Pass1(base, next, nodes, i + 1, sub, f, env), k);
  }

  /** The same for pass 2. */
  lemma {:induction false} GraftedAt(base: State, cur: State, cands: seq<At>, i: nat, sub: Name, f: nat, env: Env,
                                     next: State, k: nat)
    requires i < |cands| && GraftStep(base, cur, cands[i].node, sub, f, env) == Offer(next)
    requires k < |Pass2(base, cur, cands, i, sub, f, env).tries|
    ensures k == 0 ==> Pass2(base, cur, cands, i, sub, f, env).tries[k] == next
    ensures k > 0 ==>
      && k - 1 < |Pass2(base, next, cands, i + 1, sub, f, env).tries|
      && Pass2(base, cur, cands, i, sub, f, env).tries[k] == Pass2(base, next, cands, i + 1, sub, f, env).tries[k - 1]
  {
    OfferedAt(next, Pass2(base, next, cands, i + 1, sub, f, env), k);
  }

  /** The k-th of the values offered from here on. */
  lemma OfferedAt(next: State, rest: Scan, k: nat)
    requires k < |Offered([next], rest).tries|
    ensures k == 0 ==> Offered([next], rest).tries[k] == next
    ensures k > 0 ==> k - 1 < |rest.tries| && Offered([next], rest).tries[k] == rest.tries[k - 1]
  {
  }

  // ----- the operations -----

  datatype Op =
    | RegisterPublisher(node: Name)
    | RegisterProxy(node: Name)
    | Subscribe(node: Name, env: Env)
    | Disconnect(node: Name)        // core/src/routing.rs
    | SignalDisconnect(node: Name)  // signaling/src/main.rs

  function OutsideOf(S: set<Name>): Edge -> bool {
    (e: Edge) => e.parent !in S && e.child !in S
  }

  ghost function CutEdges(edges: seq<Edge>, x: Name): seq<Edge> {
    Filter(edges, OutsideOf(Subtree(Elements(edges), x)))
  }

  /** The values op hands to the compare-and-swap, in order, while every one of them is refused. The first is what a
      single attempt on a freshly read st proposes. */
  ghost function Proposals(op: Op, st: State, f: nat): seq<State> {
    match op
    case RegisterPublisher(n) => [st.(publishers := AddName(st.publishers, n))]
    case RegisterProxy(n) => [st.(proxies := AddName(st.proxies, n))]
    case Subscribe(n, env) =>
      if st.publishers == [] || st.HasParentEdge(n) then [] else SubscribeScan(st, n, f, env).tries
    case Disconnect(n) => [st.(edges := CutEdges(st.edges, n))]
    case SignalDisconnect(n) =>
      // the signaling server's copy of the type has no attach_ms field
      [State(Filter(st.publishers, NotName(n)), Filter(st.proxies, NotName(n)), CutEdges(st.edges, n), map[])]
  }

  lemma CutEdgesSet(edges: seq<Edge>, x: Name)
    ensures Elements(CutEdges(edges, x)) == Cut(Elements(edges), x)
  {
    FilterIs(edges, OutsideOf(Subtree(Elements(edges), x)));
  }

  // ----- what a graft does to the edge set -----

  lemma AddEdgeDistinct(st: State, p: Name, c: Name)
    requires Distinct(st.edges)
    ensures Distinct(st.AddEdge(p, c).edges)
  {
    if Edge(p, c) !in st.edges {
      DistinctAppend(st.edges, Edge(p, c));
    }
  }

  lemma {:induction false} MoveAllFrame(cur: State, n: Name, x: Name, movers: seq<Name>, ts: int)
    ensures MoveAll(cur, n, x, movers, ts).publishers == cur.publishers
    ensures MoveAll(cur, n, x, movers, ts).proxies == cur.proxies
    ensures Distinct(cur.edges) ==> Distinct(MoveAll(cur, n, x, movers, ts).edges)
  {
    if movers != [] {
      var prev := MoveAll(cur, n, x, movers[..|movers| - 1], ts);
      var c := movers[|movers| - 1];
      MoveAllFrame(cur, n, x, movers[..|movers| - 1], ts);
      if Distinct(cur.edges) {
        FilterDistinct(prev.edges, IsNot(Edge(n, c)));
        AddEdgeDistinct(prev.RemoveEdge(n, c), x, c);
      }
    }
  }

  lemma {:induction false} MoveAllEdges(cur: State, n: Name, x: Name, movers: seq<Name>, ts: int)
    requires n != x
    ensures forall e :: e in MoveAll(cur, n, x, movers, ts).edges <==>
      (e.parent == x && e.child in movers) || (e in cur.edges && !(e.parent == n && e.child in movers))
  {
    if movers != [] {
      var t := movers[..|movers| - 1];
      var c := movers[|movers| - 1];
      assert movers == t + [c];
      MoveAllEdges(cur, n, x, t, ts);
      var prev := MoveAll(cur, n, x, t, ts);
    }
  }

  /** Exactly the nodes of m get the time ts. */
  ghost predicate Stamped(was: map<Name, int>, now: map<Name, int>, m: set<Name>, ts: int) {
    && now.Keys == was.Keys + m
    && forall c :: c in now ==> now[c] == if c in m then ts else was[c]
  }

  lemma StampOne(was: map<Name, int>, now: map<Name, int>, m: set<Name>, ts: int, c: Name)
    requires Stamped(was, now, m, ts)
    ensures Stamped(was, now[c := ts], m + {c}, ts)
  {
  }

  /** The children that move get the time of the move; other times stay. */
  lemma {:induction false} MoveTimes(cur: State, n: Name, x: Name, movers: seq<Name>, ts: int)
    ensures Stamped(cur.attachMs, MoveAll(cur, n, x, movers, ts).attachMs, Elements(movers), ts)
  {
    if movers == [] {
      assert Elements<Name>([]) == {};
    } else {
      var t, c := movers[..|movers| - 1], movers[|movers| - 1];
      MoveTimes(cur, n, x, t, ts);
      StampOne(cur.attachMs, MoveAll(cur, n, x, t, ts).attachMs, Elements(t), ts, c);
      ElementsSnoc(t, c);
      assert movers == t + [c];
    }
  }

  lemma AddBothEdges(cur: State, n: Name, x: Name, sub: Name)
    ensures var mid := cur.AddEdge(n, x).AddEdge(x, sub);
      && (forall e :: e in mid.edges <==> e in cur.edges || e == Edge(n, x) || e == Edge(x, sub))
      && (Distinct(cur.edges) ==> Distinct(mid.edges))
  {
    if Distinct(cur.edges) {
      AddEdgeDistinct(cur, n, x);
      AddEdgeDistinct(cur.AddEdge(n, x), x, sub);
    }
  }

  lemma GraftIs(cur: State, n: Name, x: Name, sub: Name, movers: seq<Name>, ts: int)
    requires n != x && x !in movers
    ensures var st := Graft(cur, n, x, sub, movers, ts);
      && Grafted(Elements(cur.edges), Elements(st.edges), n, x, sub, Elements(movers))
      && st.publishers == cur.publishers && st.proxies == cur.proxies
      && (Distinct(cur.edges) ==> Distinct(st.edges))
  {
    var mid := cur.AddEdge(n, x).AddEdge(x, sub);
    AddBothEdges(cur, n, x, sub);
    MoveAllFrame(mid, n, x, movers, ts);
    MoveAllEdges(mid, n, x, movers, ts);
  }

  lemma ByAgeTotal(attach: map<Name, int>)
    ensures TotalOrder(ByAge(attach))
  {
  }

  lemma ByAgeMeans(attach: map<Name, int>, a: Name, b: Name)
    requires ByAge(attach)(a, b) && a != b
    ensures OlderThan(attach, a, b)
  {
  }

  /** The movers: among the non-proxy children, MoveCount of them, none younger than one that stays. */
  lemma {:induction false} MoversAre(cur: State, ch: seq<Name>, f: nat)
    requires Distinct(ch) && !AllProxies(cur, ch)
    ensures var m := Movers(cur, ch, f);
      && Distinct(m)
      && |m| == MoveCount(|Filter(ch, NotProxy(cur))|, f)
      && (forall c :: c in m ==> c in ch && c !in cur.proxies)
      && (forall a, b :: a in m && b in ch && b !in cur.proxies && b !in m ==> OlderThan(cur.attachMs, a, b))
  {
    var flt := Filter(ch, NotProxy(cur));
    var le := ByAge(cur.attachMs);
    var byAge := SortBy(flt, le);
    ByAgeTotal(cur.attachMs);
    FilterDistinct(ch, NotProxy(cur));
    FilterIs(ch, NotProxy(cur));
    SortByBag(flt, le);
    SameBag(byAge, flt);
    PrefixDistinct(byAge, |Movers(cur, ch, f)|);
    var c :| c in ch && c !in cur.proxies;
    assert c in flt;
    var m := Movers(cur, ch, f);
    forall c | c in m
      ensures c in ch && c !in cur.proxies
    {
      assert c in byAge && c in flt;
    }
    forall a, b | a in m && b in ch && b !in cur.proxies && b !in m
      ensures OlderThan(cur.attachMs, a, b)
    {
      assert b in flt;
      FirstOfSorted(flt, |m|, le, a, b);
      ByAgeMeans(cur.attachMs, a, b);
    }
  }

  lemma {:induction false} MoveAllKeeps(cur: State, n: Name, x: Name, movers: seq<Name>, ts: int, e: Edge)
    requires e in cur.edges && e.child !in movers
    ensures e in MoveAll(cur, n, x, movers, ts).edges
  {
    if movers != [] {
      var t, c := movers[..|movers| - 1], movers[|movers| - 1];
      assert movers == t + [c];
      MoveAllKeeps(cur, n, x, t, ts, e);
    }
  }

  /** Every graft gives the subscriber a parent. */
  lemma GraftAttaches(base: State, cur: State, n: Name, sub: Name, f: nat, env: Env)
    requires !base.HasParentEdge(sub) && GraftStep(base, cur, n, sub, f, env).Offer?
    ensures GraftStep(base, cur, n, sub, f, env).st.HasParentEdge(sub)
  {
    var ch, x := ChildrenIns(base.edges, n), PickUnused(cur, env.PickAlive(n)).value;
    var m, ts := Movers(cur, ch, f), env.GraftMs(n);
    ChildrenAre(base.edges, n);
    MoversAre(cur, ch, f);
    assert sub !in m;
    MoveAllKeeps(cur.AddEdge(n, x).AddEdge(x, sub), n, x, m, ts, Edge(x, sub));
    assert Edge(x, sub) in Graft(cur, n, x, sub, m, ts).edges;
  }
}
