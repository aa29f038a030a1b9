/** bfs_intermediates_with_depth computes true shortest distances over the inner nodes. */
module BfsProofs {
  import opened Basics
  import opened Tree
  import opened RoutingModel

  /** The edges the search follows: those into publishers and registered proxies. */
  ghost function Inner(st: State): (r: Edges)
    ensures forall e :: e in r <==> e in st.edges && (e.child in st.publishers || e.child in st.proxies)
  {
    set e | e in st.edges && (e.child in st.publishers || e.child in st.proxies)
  }

  ghost predicate WalkOf(I: Edges, root: Name, a: At) {
    exists p :: PathFromTo(I, p, root, a.node) && |p| == a.depth + 1
  }

  ghost predicate Within(all: seq<At>, n: Name, d: nat) {
    exists j :: 0 <= j < |all| && all[j].node == n && all[j].depth <= d
  }

  ghost predicate DepthOrdered(all: seq<At>) {
    forall a, b :: 0 <= a < b < |all| ==> all[a].depth <= all[b].depth
  }

  ghost predicate Layered(all: seq<At>, i: nat) {
    && DistinctNodes(all)
    && DepthOrdered(all)
    && (forall b :: i <= b < |all| ==> all[b].depth <= all[i].depth + 1)
  }

  ghost predicate Walks(I: Edges, root: Name, all: seq<At>) {
    forall k :: 0 <= k < |all| ==> WalkOf(I, root, all[k])
  }

  ghost predicate Covered(I: Edges, all: seq<At>, i: nat)
    requires i <= |all|
  {
    forall k, c :: 0 <= k < i && Edge(all[k].node, c) in I ==> Within(all, c, all[k].depth + 1)
  }

  /** all[..i] has been output, all[i..] waits in the queue. */
  ghost predicate BfsInv(I: Edges, root: Name, all: seq<At>, i: nat) {
    && i <= |all| && all != [] && all[0] == At(root, 0)
    && Layered(all, i)
    && Walks(I, root, all)
    && Covered(I, all, i)
  }

  lemma FreshWalks(st: State, root: Name, all: seq<At>, i: nat)
    requires i < |all| && WalkOf(Inner(st), root, all[i])
    ensures Walks(Inner(st), root, FreshAt(st, all, i))
  {
    var a, fr := all[i], FreshAt(st, all, i);
    var p :| PathFromTo(Inner(st), p, root, a.node) && |p| == a.depth + 1;
    FreshAtAre(st, all, i);
    forall k | 0 <= k < |fr|
      ensures WalkOf(Inner(st), root, fr[k])
    {
      NodeIn(fr, k);
      assert Edge(a.node, fr[k].node) in Inner(st);
      assert PathFromTo(Inner(st), p + [fr[k].node], root, fr[k].node);
    }
  }

  lemma FreshCovers(st: State, all: seq<At>, i: nat, c: Name)
    requires i < |all| && DepthOrdered(all)
    requires forall b :: i <= b < |all| ==> all[b].depth <= all[i].depth + 1
    requires Edge(all[i].node, c) in Inner(st)
    ensures Within(all + FreshAt(st, all, i), c, all[i].depth + 1)
  {
    var fr := FreshAt(st, all, i);
    FreshAtAre(st, all, i);
    if c in Nodes(all) {
      var j := NodesAt(all, c);
      assert (all + fr)[j].node == c;
      assert j < i ==> all[j].depth <= all[i].depth;
    } else {
      var j := NodesAt(fr, c);
      assert (all + fr)[|all| + j].node == c;
    }
  }

  lemma WithinGrows(all: seq<At>, fr: seq<At>, c: Name, d: nat)
    requires Within(all, c, d)
    ensures Within(all + fr, c, d)
  {
    var j :| 0 <= j < |all| && all[j].node == c && all[j].depth <= d;
    assert (all + fr)[j].node == c;
  }

  lemma VisitLayered(st: State, all: seq<At>, i: nat)
    requires i < |all| && Layered(all, i)
    ensures Layered(all + FreshAt(st, all, i), i + 1)
  {
    var fr := FreshAt(st, all, i);
    var next := all + fr;
    FreshAtAre(st, all, i);
    DistinctNodesAppend(all, fr);
    forall j | 0 <= j < |all|
      ensures all[j].depth <= all[i].depth + 1
    {
      assert j < i ==> all[j].depth <= all[i].depth;
    }
    forall b | i + 1 <= b < |next|
      ensures next[b].depth <= next[i + 1].depth + 1
    {
      assert b < |all| ==> all[b].depth <= all[i].depth + 1;
      assert i + 1 < |all| ==> all[i].depth <= all[i + 1].depth;
    }
  }

  lemma VisitCovered(st: State, all: seq<At>, i: nat)
    requires i < |all| && Layered(all, i) && Covered(Inner(st), all, i)
    ensures Covered(Inner(st), all + FreshAt(st, all, i), i + 1)
  {
    var fr := FreshAt(st, all, i);
    var next := all + fr;
    forall k, c | 0 <= k < i + 1 && Edge(next[k].node, c) in Inner(st)
      ensures Within(next, c, next[k].depth + 1)
    {
      assert next[k] == all[k];
      if k < i {
        WithinGrows(all, fr, c, all[k].depth + 1);
      } else {
        FreshCovers(st, all, i, c);
      }
    }
  }

  lemma BfsVisit(st: State, root: Name, all: seq<At>, i: nat)
    requires BfsInv(Inner(st), root, all, i) && i < |all|
    ensures BfsInv(Inner(st), root, all + FreshAt(st, all, i), i + 1)
  {
    VisitLayered(st, all, i);
    VisitCovered(st, all, i);
    FreshWalks(st, root, all, i);
  }

  lemma {:induction false} BfsRuns(st: State, root: Name, all: seq<At>, i: nat)
    requires BfsInv(Inner(st), root, all, i)
    ensures BfsInv(Inner(st), root, BfsFrom(st, all, i), |BfsFrom(st, all, i)|)
    decreases Unvisited(st, all, i)
  {
    if i < |all| {
      VisitShrinks(st, all, i);
      BfsVisit(st, root, all, i);
      BfsRuns(st, root, all + FreshAt(st, all, i), i + 1);
    }
  }

  lemma {:induction false} PathWithin(I: Edges, root: Name, all: seq<At>, p: seq<Name>)
    requires all != [] && all[0] == At(root, 0) && Covered(I, all, |all|)
    requires IsPath(I, p) && p[0] == root
    ensures Within(all, p[|p| - 1], |p| - 1)
  {
    if |p| == 1 {
      assert all[0].node == root;
    } else {
      PathWithin(I, root, all, p[..|p| - 1]);
      var u := p[|p| - 2];
      var k :| 0 <= k < |all| && all[k].node == u && all[k].depth <= |p| - 2;
      assert Edge(all[k].node, p[|p| - 1]) in I;
      var j :| 0 <= j < |all| && all[j].node == p[|p| - 1] && all[j].depth <= all[k].depth + 1;
    }
  }

  /** The depths are shortest distances. */
  lemma {:induction false} FinalDepths(I: Edges, root: Name, r: seq<At>)
    requires r != [] && r[0] == At(root, 0) && DistinctNodes(r) && Covered(I, r, |r|)
    ensures forall k, p :: 0 <= k < |r| && PathFromTo(I, p, root, r[k].node) ==> r[k].depth < |p|
  {
    forall k, p | 0 <= k < |r| && PathFromTo(I, p, root, r[k].node)
      ensures r[k].depth < |p|
    {
      PathWithin(I, root, r, p);
      var j :| 0 <= j < |r| && r[j].node == r[k].node && r[j].depth <= |p| - 1;
      if j < k {
        DistinctNodesAt(r, j, k);
      } else if k < j {
        DistinctNodesAt(r, k, j);
      }
    }
  }

  /** The nodes are the reachable ones. */
  lemma {:induction false} FinalNodes(I: Edges, root: Name, r: seq<At>)
    requires r != [] && r[0] == At(root, 0) && Walks(I, root, r) && Covered(I, r, |r|)
    ensures forall n :: n in Nodes(r) <==> Reaches(I, root, n)
  {
    forall n | n in Nodes(r)
      ensures Reaches(I, root, n)
    {
      var k := NodesAt(r, n);
      assert WalkOf(I, root, r[k]);
    }
    forall n | Reaches(I, root, n)
      ensures n in Nodes(r)
    {
      var p :| PathFromTo(I, p, root, n);
      PathWithin(I, root, r, p);
      var j :| 0 <= j < |r| && r[j].node == n;
      NodeIn(r, j);
    }
  }

  /** The search outputs exactly the nodes reachable from the root through intermediates, each once, in order of
      depth, and each depth is the length of a shortest such path. Holds for every stored value, tree or not. */
  lemma BfsExact(st: State, root: Name)
    ensures var r := Bfs(st, root);
      && r != [] && r[0] == At(root, 0)
      && DistinctNodes(r)
      && DepthOrdered(r)
      && (forall n :: n in Nodes(r) <==> Reaches(Inner(st), root, n))
      && Walks(Inner(st), root, r)
      && (forall k, p :: 0 <= k < |r| && PathFromTo(Inner(st), p, root, r[k].node) ==> r[k].depth < |p|)
  {
    var start := [At(root, 0)];
    assert PathFromTo(Inner(st), [root], root, root);
    assert WalkOf(Inner(st), root, start[0]);
    BfsRuns(st, root, start, 0);
    FinalDepths(Inner(st), root, Bfs(st, root));
    FinalNodes(Inner(st), root, Bfs(st, root));
  }

  // ----- the order of the search -----

  /** The first position from j on whose node is a parent of n, or the length. */
  ghost function FirstAbove(edges: seq<Edge>, all: seq<At>, n: Name, j: nat): nat
    decreases |all| - j
  {
    if j >= |all| || Edge(all[j].node, n) in edges then j else FirstAbove(edges, all, n, j + 1)
  }

  lemma {:induction false} FirstAboveGrows(edges: seq<Edge>, all: seq<At>, fr: seq<At>, n: Name, j: nat)
    requires FirstAbove(edges, all, n, j) < |all|
    ensures FirstAbove(edges, all + fr, n, j) == FirstAbove(edges, all, n, j)
    decreases |all| - j
  {
    if Edge(all[j].node, n) !in edges {
      FirstAboveGrows(edges, all, fr, n, j + 1);
    }
  }

  lemma {:induction false} FirstAboveIs(edges: seq<Edge>, all: seq<At>, n: Name, j: nat, i: nat)
    requires j <= i < |all| && Edge(all[i].node, n) in edges
    requires forall k :: j <= k < i ==> Edge(all[k].node, n) !in edges
    ensures FirstAbove(edges, all, n, j) == i
    decreases i - j
  {
    if j < i {
      FirstAboveIs(edges, all, n, j + 1, i);
    }
  }

  /** The k-th node comes before the l-th: its first parent does, or it is the same and its name is smaller. */
  ghost predicate InTurn(edges: seq<Edge>, all: seq<At>, k: nat, l: nat)
    requires k < |all| && l < |all|
  {
    var p, q := FirstAbove(edges, all, all[k].node, 0), FirstAbove(edges, all, all[l].node, 0);
    p < q || (p == q && all[k].node < all[l].node)
  }

  ghost predicate Turns(edges: seq<Edge>, all: seq<At>, i: nat) {
    && (forall k :: 0 < k < |all| ==> FirstAbove(edges, all, all[k].node, 0) < i)
    && (forall k, l :: 0 < k < l < |all| ==> InTurn(edges, all, k, l))
  }

  lemma {:induction false} FreshAscending(st: State, ch: seq<Name>, seen: set<Name>, d: nat, a: nat, b: nat)
    requires Ascending(ch) && Distinct(ch) && a < b < |NewlySeen(st, ch, seen, d)|
    ensures NewlySeen(st, ch, seen, d)[a].node < NewlySeen(st, ch, seen, d)[b].node
  {
    var t, c := ch[..|ch| - 1], ch[|ch| - 1];
    var r := NewlySeen(st, t, seen, d);
    if b < |r| {
      FreshAscending(st, t, seen, d, a, b);
    } else {
      FreshAre(st, t, seen, d);
      NodeIn(r, a);
      assert r[a].node in t;
    }
  }

  /** What a visit queues has the node visited as its first parent. */
  lemma {:induction false} FreshBelow(st: State, all: seq<At>, i: nat, k: nat)
    requires i < |all| && Covered(Inner(st), all, i) && k < |FreshAt(st, all, i)|
    ensures FirstAbove(st.edges, all + FreshAt(st, all, i), FreshAt(st, all, i)[k].node, 0) == i
  {
    var fr := FreshAt(st, all, i);
    var next, n := all + fr, fr[k].node;
    FreshAtAre(st, all, i);
    NodeIn(fr, k);
    forall j | 0 <= j < i
      ensures Edge(next[j].node, n) !in st.edges
    {
      if Edge(all[j].node, n) in st.edges {
        assert Edge(all[j].node, n) in Inner(st);
        var m :| 0 <= m < |all| && all[m].node == n && all[m].depth <= all[j].depth + 1;
        NodeIn(all, m);
        assert false;
      }
    }
    FirstAboveIs(st.edges, next, n, 0, i);
  }

  lemma VisitTurns(st: State, all: seq<At>, i: nat)
    requires i < |all| && Covered(Inner(st), all, i) && Turns(st.edges, all, i)
    ensures Turns(st.edges, all + FreshAt(st, all, i), i + 1)
  {
    var fr := FreshAt(st, all, i);
    var next := all + fr;
    forall k | 0 < k < |next|
      ensures FirstAbove(st.edges, next, next[k].node, 0) ==
              if k < |all| then FirstAbove(st.edges, all, all[k].node, 0) else i
      ensures FirstAbove(st.edges, next, next[k].node, 0) < i + 1
    {
      if k < |all| {
        FirstAboveGrows(st.edges, all, fr, all[k].node, 0);
      } else {
        FreshBelow(st, all, i, k - |all|);
      }
    }
    forall k, l | 0 < k < l < |next|
      ensures InTurn(st.edges, next, k, l)
    {
      if l < |all| {
        assert InTurn(st.edges, all, k, l);
      } else if k >= |all| {
        ChildrenInOrder(st.edges, all[i].node);
        FreshAscending(st, Children(st.edges, all[i].node), Nodes(all), all[i].depth + 1, k - |all|, l - |all|);
      }
    }
  }

  lemma ChildrenInOrder(edges: seq<Edge>, p: Name)
    ensures Ascending(Children(edges, p)) && Distinct(Children(edges, p))
    ensures forall c :: c in Children(edges, p) <==> Edge(p, c) in edges
  {
    ChildrenAre(edges, p);
    SortDedupAscending(KidSeq(edges, p));
  }

  lemma {:induction false} TurnsRun(st: State, root: Name, all: seq<At>, i: nat)
    requires BfsInv(Inner(st), root, all, i) && Turns(st.edges, all, i)
    ensures Turns(st.edges, BfsFrom(st, all, i), |BfsFrom(st, all, i)|)
    decreases Unvisited(st, all, i)
  {
    if i < |all| {
      VisitShrinks(st, all, i);
      BfsVisit(st, root, all, i);
      VisitTurns(st, all, i);
      TurnsRun(st, root, all + FreshAt(st, all, i), i + 1);
    }
  }

  /** The order of the search, for every stored value: the children of a node that comes earlier come first, and the
      children of one node by name. A node counts as a child of the first of its parents. */
  lemma SearchOrder(st: State, root: Name, k: nat, l: nat)
    requires 0 < k < l < |Bfs(st, root)|
    ensures var r := Bfs(st, root);
      var p, q := FirstAbove(st.edges, r, r[k].node, 0), FirstAbove(st.edges, r, r[l].node, 0);
      p < |r| && q < |r| && (p < q || (p == q && r[k].node < r[l].node))
  {
    var start := [At(root, 0)];
    assert PathFromTo(Inner(st), [root], root, root);
    assert WalkOf(Inner(st), root, start[0]);
    TurnsRun(st, root, start, 0);
    assert InTurn(st.edges, Bfs(st, root), k, l);
  }

  lemma SearchByDepth(st: State, root: Name, i: nat, j: nat)
    requires i <= j < |Bfs(st, root)|
    ensures Bfs(st, root)[i].depth <= Bfs(st, root)[j].depth
  {
    BfsExact(st, root);
  }
}
