/** The distribution tree as a set of edges: what a tree is, and what attaching, grafting and cutting do to it. */
module Tree {
  import opened Basics

  datatype Edge = Edge(parent: Name, child: Name)

  type Edges = set<Edge>

  ghost function ChildSet(E: Edges, p: Name): (r: set<Name>)
    ensures forall c :: c in r <==> Edge(p, c) in E
  {
    set e | e in E && e.parent == p :: e.child
  }

  ghost function AllChildren(E: Edges): set<Name> {
    set e | e in E :: e.child
  }

  ghost function Touched(E: Edges): set<Name> {
    (set e | e in E :: e.parent) + AllChildren(E)
  }

  // ----- paths -----

  ghost predicate IsPath(E: Edges, p: seq<Name>) {
    |p| > 0 && forall i :: 0 <= i < |p| - 1 ==> Edge(p[i], p[i + 1]) in E
  }

  ghost predicate PathFromTo(E: Edges, p: seq<Name>, a: Name, b: Name) {
    IsPath(E, p) && p[0] == a && p[|p| - 1] == b
  }

  ghost predicate Reaches(E: Edges, a: Name, b: Name) {
    exists p :: PathFromTo(E, p, a, b)
  }

  lemma ReachesSelf(E: Edges, a: Name)
    ensures Reaches(E, a, a)
  {
    assert PathFromTo(E, [a], a, a);
  }

  lemma ReachesStep(E: Edges, a: Name, b: Name, c: Name)
    requires Reaches(E, a, b) && Edge(b, c) in E
    ensures Reaches(E, a, c)
  {
    var p :| PathFromTo(E, p, a, b);
    assert PathFromTo(E, p + [c], a, c);
  }

  /** A set closed under edges contains everything reachable from its members. */
  lemma {:induction false} ClosedContains(E: Edges, S: set<Name>, p: seq<Name>)
    requires IsPath(E, p) && p[0] in S
    requires forall e :: e in E && e.parent in S ==> e.child in S
    ensures p[|p| - 1] in S
  {
    if |p| > 1 {
      ClosedContains(E, S, p[..|p| - 1]);
      assert Edge(p[|p| - 2], p[|p| - 1]) in E;
    }
  }

  /** x together with its descendants. */
  ghost function Subtree(E: Edges, x: Name): set<Name> {
    set y | y in Touched(E) + {x} && Reaches(E, x, y)
  }

  lemma SubtreeFacts(E: Edges, x: Name)
    ensures x in Subtree(E, x)
    ensures forall y :: y in Subtree(E, x) <==> Reaches(E, x, y)
    ensures forall e :: e in E && e.parent in Subtree(E, x) ==> e.child in Subtree(E, x)
    ensures forall y :: y in Subtree(E, x) && y != x ==> exists p :: p in Subtree(E, x) && Edge(p, y) in E
  {
    ReachesSelf(E, x);
    forall y | Reaches(E, x, y)
      ensures y in Subtree(E, x)
      ensures y != x ==> exists p :: Reaches(E, x, p) && Edge(p, y) in E
    {
      var q :| PathFromTo(E, q, x, y);
      if y != x {
        var p := q[|q| - 2];
        assert PathFromTo(E, q[..|q| - 1], x, p);
        assert Edge(p, y) in E;
      }
    }
    forall e | e in E && e.parent in Subtree(E, x)
      ensures e.child in Subtree(E, x)
    {
      assert e == Edge(e.parent, e.child);
      ReachesStep(E, x, e.parent, e.child);
    }
    forall y | y in Subtree(E, x) && y != x
      ensures exists p :: p in Subtree(E, x) && Edge(p, y) in E
    {
      var p :| Reaches(E, x, p) && Edge(p, y) in E;
      assert p in Subtree(E, x);
    }
  }

  /** The edges left once x and all its descendants are detached. */
  ghost function Cut(E: Edges, x: Name): Edges {
    set e | e in E && e.parent !in Subtree(E, x) && e.child !in Subtree(E, x)
  }

  // ----- trees -----

  /** d gives every attached node its number of hops from the root. */
  ghost predicate IsTree(E: Edges, root: Name, d: map<Name, nat>) {
    && root in d && d[root] == 0
    && (forall e :: e in E ==> e.parent in d && e.child in d && d[e.child] == d[e.parent] + 1)
    && (forall x {:trigger HasParent(E, x)} :: x in d && x != root ==> HasParent(E, x))
    && SingleParent(E)
  }

  ghost predicate HasParent(E: Edges, x: Name) {
    exists p :: Edge(p, x) in E
  }

  ghost predicate SingleParent(E: Edges) {
    forall e1, e2 :: e1 in E && e2 in E && e1.child == e2.child ==> e1 == e2
  }

  lemma {:induction false} PathDepth(E: Edges, root: Name, d: map<Name, nat>, p: seq<Name>)
    requires IsTree(E, root, d) && IsPath(E, p) && p[0] in d
    ensures p[|p| - 1] in d && d[p[|p| - 1]] == d[p[0]] + |p| - 1
  {
    if |p| > 1 {
      PathDepth(E, root, d, p[..|p| - 1]);
      assert Edge(p[|p| - 2], p[|p| - 1]) in E;
    }
  }

  lemma {:induction false} RootReaches(E: Edges, root: Name, d: map<Name, nat>, x: Name)
    requires IsTree(E, root, d) && x in d
    ensures Reaches(E, root, x)
    decreases d[x]
  {
    if x == root {
      ReachesSelf(E, root);
    } else {
      assert HasParent(E, x);
      var p :| Edge(p, x) in E;
      RootReaches(E, root, d, p);
      ReachesStep(E, root, p, x);
    }
  }

  /** What the depth map stands for: exactly the nodes with a path from the root are attached,
      every path to x has d[x] edges, every other node has one parent and no path returns to its start. */
  lemma TreeMeaning(E: Edges, root: Name, d: map<Name, nat>)
    requires IsTree(E, root, d)
    ensures forall x :: x in d <==> Reaches(E, root, x)
    ensures forall x, p :: PathFromTo(E, p, root, x) ==> x in d && |p| == d[x] + 1
    ensures forall x, p :: PathFromTo(E, p, x, x) ==> p == [x]
    ensures forall p :: Edge(p, root) !in E
    ensures forall x, p, q :: Edge(p, x) in E && Edge(q, x) in E ==> p == q
    ensures d.Keys == AllChildren(E) + {root}
  {
    forall x, p | PathFromTo(E, p, root, x)
      ensures x in d && |p| == d[x] + 1
    {
      PathDepth(E, root, d, p);
    }
    forall x | x in d
      ensures Reaches(E, root, x)
    {
      RootReaches(E, root, d, x);
    }
    forall x, p | PathFromTo(E, p, x, x)
      ensures p == [x]
    {
      if |p| > 1 {
        assert Edge(p[0], p[1]) in E;
        PathDepth(E, root, d, p);
      }
    }
    forall x | x in d && x != root
      ensures x in AllChildren(E)
    {
      assert HasParent(E, x);
      var p :| Edge(p, x) in E;
    }
  }

  /** The depths are determined by the edges. */
  lemma DepthsUnique(E: Edges, root: Name, d: map<Name, nat>, d': map<Name, nat>)
    requires IsTree(E, root, d) && IsTree(E, root, d')
    ensures d == d'
  {
    TreeMeaning(E, root, d);
    TreeMeaning(E, root, d');
    forall x | x in d
      ensures d[x] == d'[x]
    {
      var p :| PathFromTo(E, p, root, x);
      assert |p| == d[x] + 1 && |p| == d'[x] + 1;
    }
  }

  lemma EmptyTree(root: Name)
    ensures IsTree({}, root, map[root := 0])
  {
  }

  lemma AttachTree(E: Edges, root: Name, d: map<Name, nat>, n: Name, s: Name)
    requires IsTree(E, root, d) && n in d && s !in d
    ensures IsTree(E + {Edge(n, s)}, root, d[s := d[n] + 1])
  {
    var E' := E + {Edge(n, s)};
    var d' := d[s := d[n] + 1];
    forall x | x in d' && x != root
      ensures HasParent(E', x)
    {
      if x == s {
        assert Edge(n, s) in E';
      } else {
        assert HasParent(E, x);
        var p :| Edge(p, x) in E;
        assert Edge(p, x) in E';
      }
    }
  }

  /** F is E after new inner node x is put under n, s under x, and the children m of n move to x. */
  ghost predicate Grafted(E: Edges, F: Edges, n: Name, x: Name, s: Name, m: set<Name>) {
    forall e :: e in F <==>
      || e == Edge(n, x)
      || e == Edge(x, s)
      || (e.parent == x && e.child in m)
      || (e in E && !(e.parent == n && e.child in m))
  }

  /** A graft changes no depth but those of x, s and the moved nodes. */
  ghost function GraftDepths(d: map<Name, nat>, n: Name, x: Name, s: Name, m: set<Name>): map<Name, nat>
    requires n in d
  {
    map y | y in d.Keys + {x, s} ::
      if y == x then d[n] + 1 else if y == s || y in m then d[n] + 2 else d[y]
  }

  lemma GraftTree(E: Edges, F: Edges, root: Name, d: map<Name, nat>, n: Name, x: Name, s: Name, m: set<Name>)
    requires IsTree(E, root, d) && Grafted(E, F, n, x, s, m)
    requires n in d && x !in d && s !in d && x != s
    requires m <= ChildSet(E, n)
    requires forall e :: e in E ==> e.parent !in m
    ensures IsTree(F, root, GraftDepths(d, n, x, s, m))
  {
    var d' := GraftDepths(d, n, x, s, m);
    forall c | c in m
      ensures c in d && d[c] == d[n] + 1 && c != n
    {
      assert Edge(n, c) in E;
    }
    assert n !in m;
    assert root !in m;
    assert root in d' && d'[root] == 0;
    forall e | e in F
      ensures e.parent in d' && e.child in d' && d'[e.child] == d'[e.parent] + 1
    {
      if e in E {
        assert e.child in m ==> e.parent == n by { SameParent(E, n, e, m); }
      }
    }
    forall y | y in d' && y != root
      ensures HasParent(F, y)
    {
      if y == x {
        assert Edge(n, x) in F;
      } else if y == s || y in m {
        assert Edge(x, y) in F;
      } else {
        assert HasParent(E, y);
        var p :| Edge(p, y) in E;
        assert Edge(p, y) in F;
      }
    }
    GraftSingleParent(E, F, d, n, x, s, m);
  }

  lemma SameParent(E: Edges, n: Name, e: Edge, m: set<Name>)
    requires SingleParent(E) && e in E && m <= ChildSet(E, n)
    ensures e.child in m ==> e.parent == n
  {
    if e.child in m {
      assert Edge(n, e.child) in E;
    }
  }

  lemma GraftSingleParent(E: Edges, F: Edges, d: map<Name, nat>, n: Name, x: Name, s: Name, m: set<Name>)
    requires SingleParent(E) && Grafted(E, F, n, x, s, m)
    requires forall e :: e in E ==> e.child in d
    requires n in d && x !in d && s !in d && x != s
    requires m <= ChildSet(E, n) && forall c :: c in m ==> c in d
    ensures SingleParent(F)
  {
    forall e1, e2 | e1 in F && e2 in F && e1.child == e2.child
      ensures e1 == e2
    {
      if e1 in E {
        SameParent(E, n, e1, m);
      }
      if e2 in E {
        SameParent(E, n, e2, m);
      }
    }
  }

  lemma {:induction false} RootClosed(E: Edges, root: Name, d: map<Name, nat>, S: set<Name>, y: Name)
    requires IsTree(E, root, d) && root in S && y in d
    requires forall e :: e in E && e.parent in S ==> e.child in S
    ensures y in S
    decreases d[y]
  {
    if y != root {
      assert HasParent(E, y);
      var p :| Edge(p, y) in E;
      RootClosed(E, root, d, S, p);
    }
  }

  /** Cutting any node leaves a tree in which every surviving node keeps its depth; cutting the root leaves no edge. */
  lemma CutTree(E: Edges, root: Name, d: map<Name, nat>, x: Name) returns (d': map<Name, nat>)
    requires IsTree(E, root, d)
    ensures IsTree(Cut(E, x), root, d')
    ensures d' == map y | y in d && (y == root || y !in Subtree(E, x)) :: d[y]
    ensures x == root ==> Cut(E, x) == {}
  {
    SubtreeFacts(E, x);
    d' := CutOff(E, Cut(E, x), root, d, Subtree(E, x));
  }

  lemma CutOff(E: Edges, F: Edges, root: Name, d: map<Name, nat>, S: set<Name>) returns (d': map<Name, nat>)
    requires IsTree(E, root, d)
    requires forall e :: e in E && e.parent in S ==> e.child in S
    requires forall e :: e in F <==> e in E && e.parent !in S && e.child !in S
    ensures IsTree(F, root, d')
    ensures d' == map y | y in d && (y == root || y !in S) :: d[y]
    ensures root in S ==> F == {}
  {
    d' := map y | y in d && (y == root || y !in S) :: d[y];
    if root in S {
      forall y | y in d
        ensures y in S
      {
        RootClosed(E, root, d, S, y);
      }
      assert F == {};
    } else {
      forall y | y in d' && y != root
        ensures HasParent(F, y)
      {
        assert HasParent(E, y);
        var p :| Edge(p, y) in E;
        assert Edge(p, y).parent !in S;
        assert Edge(p, y) in F;
      }
    }
  }

  // ----- counting -----

  lemma {:induction false} ChildrenCard(E: Edges)
    requires SingleParent(E)
    ensures |AllChildren(E)| == |E|
  {
    if E != {} {
      var e :| e in E;
      var F := E - {e};
      ChildrenCard(F);
      assert AllChildren(E) == AllChildren(F) + {e.child} by {
        forall c | c in AllChildren(E)
          ensures c in AllChildren(F) + {e.child}
        {
          var g :| g in E && g.child == c;
          assert g == e || g in F;
        }
      }
      assert e.child !in AllChildren(F);
    }
  }

  /** Detaching x from a tree removes one edge per node of its subtree, one less if x had no parent. */
  lemma CutCount(E: Edges, root: Name, d: map<Name, nat>, x: Name)
    requires IsTree(E, root, d)
    ensures |E| - |Cut(E, x)| == |Subtree(E, x)| - (if x in AllChildren(E) then 0 else 1)
  {
    SubtreeFacts(E, x);
    CutOffCount(E, Cut(E, x), x, Subtree(E, x));
  }

  lemma CutOffCount(E: Edges, F: Edges, x: Name, S: set<Name>)
    requires SingleParent(E) && x in S
    requires forall e :: e in E && e.parent in S ==> e.child in S
    requires forall y :: y in S && y != x ==> exists p :: p in S && Edge(p, y) in E
    requires forall e :: e in F <==> e in E && e.parent !in S && e.child !in S
    ensures |E| - |F| == |S| - (if x in AllChildren(E) then 0 else 1)
  {
    var gone := E - F;
    assert |gone| == |E| - |F| by { assert E == gone + F; }
    ChildrenCard(gone);
    var T := if x in AllChildren(E) then S else S - {x};
    assert AllChildren(gone) == T by {
      forall y | y in T
        ensures y in AllChildren(gone)
      {
        if y == x {
          var e :| e in E && e.child == x;
          assert e in gone;
        } else {
          var p :| p in S && Edge(p, y) in E;
          assert Edge(p, y) in gone;
        }
      }
      forall y | y in AllChildren(gone)
        ensures y in T
      {
        var e :| e in gone && e.child == y;
      }
    }
  }

  ghost function Without(E: Edges, n: Name): Edges {
    set e | e in E && e.parent != n
  }

  lemma {:induction false} OutEdges(E: Edges, n: Name)
    ensures |E| == |ChildSet(E, n)| + |Without(E, n)|
  {
    var F := E - Without(E, n);
    assert E == F + Without(E, n);
    assert ChildSet(F, n) == ChildSet(E, n);
    OutEdgesCard(F, n);
  }

  lemma {:induction false} OutEdgesCard(F: Edges, n: Name)
    requires forall e :: e in F ==> e.parent == n
    ensures |F| == |ChildSet(F, n)|
  {
    if F != {} {
      var e :| e in F;
      OutEdgesCard(F - {e}, n);
      assert ChildSet(F, n) == ChildSet(F - {e}, n) + {e.child};
      assert e == Edge(n, e.child);
    }
  }

  lemma AddTimes(n: nat, f: nat)
    ensures n * f + f == (n + 1) * f
  {
  }

  lemma FullRest(E: Edges, S: set<Name>, n: Name, f: nat)
    requires n in S
    requires forall e :: e in E ==> e.parent in S
    requires forall k :: k in S ==> |ChildSet(E, k)| == f
    ensures forall e :: e in Without(E, n) ==> e.parent in S - {n}
    ensures forall k :: k in S - {n} ==> |ChildSet(Without(E, n), k)| == f
  {
    forall k | k in S - {n}
      ensures |ChildSet(Without(E, n), k)| == f
    {
      assert ChildSet(Without(E, n), k) == ChildSet(E, k);
    }
  }

  /** If all edges leave nodes of S and each of these has f children, there are |S| * f edges. */
  lemma {:induction false} FullCount(E: Edges, S: set<Name>, f: nat)
    requires forall e :: e in E ==> e.parent in S
    requires forall n :: n in S ==> |ChildSet(E, n)| == f
    ensures |E| == |S| * f
  {
    if S == {} {
      assert E == {};
    } else {
      var n :| n in S;
      OutEdges(E, n);
      FullRest(E, S, n, f);
      FullCount(Without(E, n), S - {n}, f);
      assert |S| == |S - {n}| + 1;
      AddTimes(|S - {n}|, f);
    }
  }

  /** With at most f children each, at most |S| * f edges. */
  lemma {:induction false} AtMostCount(E: Edges, S: set<Name>, f: nat)
    requires forall e :: e in E ==> e.parent in S
    requires forall n :: n in S ==> |ChildSet(E, n)| <= f
    ensures |E| <= |S| * f
  {
    if S == {} {
      assert E == {};
    } else {
      var n :| n in S;
      OutEdges(E, n);
      forall k | k in S - {n}
        ensures |ChildSet(Without(E, n), k)| <= f
      {
        assert ChildSet(Without(E, n), k) == ChildSet(E, k);
      }
      AtMostCount(Without(E, n), S - {n}, f);
      assert |S| == |S - {n}| + 1;
      AddTimes(|S - {n}|, f);
    }
  }
}
