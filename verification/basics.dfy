/** Types and small sequence/set facts shared by every module. */
module Basics {
  datatype Option<+T> = None | Some(value: T)

  type byte = x: int | 0 <= x < 256

  /** UTF-8 text and wire data, byte by byte. */
  type Text = seq<byte>

  /** A 4-byte GDPName read as a big-endian number; module Names relates it to its printed form. */
  type Name = x: int | 0 <= x < 0x1_0000_0000

  /** No element occurs twice. */
  ghost predicate Distinct<T(!new)>(s: seq<T>) {
    s == [] || (s[|s| - 1] !in s[..|s| - 1] && Distinct(s[..|s| - 1]))
  }

  ghost function Elements<T(!new)>(s: seq<T>): set<T> {
    set x | x in s
  }

  /** The elements of s that satisfy keep, in order (Vec::retain, Iterator::filter). */
  function Filter<T>(s: seq<T>, keep: T -> bool): seq<T> {
    if s == [] then [] else
      var r := Filter(s[..|s| - 1], keep);
      if keep(s[|s| - 1]) then r + [s[|s| - 1]] else r
  }

  lemma {:induction false} FilterIs<T(!new)>(s: seq<T>, keep: T -> bool)
    ensures forall x :: x in Filter(s, keep) <==> x in s && keep(x)
  {
    if s != [] {
      FilterIs(s[..|s| - 1], keep);
      assert s == s[..|s| - 1] + [s[|s| - 1]];
    }
  }

  lemma {:induction false} FilterDistinct<T(!new)>(s: seq<T>, keep: T -> bool)
    requires Distinct(s)
    ensures Distinct(Filter(s, keep))
  {
    if s != [] {
      FilterDistinct(s[..|s| - 1], keep);
      FilterIs(s[..|s| - 1], keep);
      if keep(s[|s| - 1]) {
        DistinctAppend(Filter(s[..|s| - 1], keep), s[|s| - 1]);
      }
    }
  }

  lemma {:induction false} DistinctCard<T(!new)>(s: seq<T>)
    requires Distinct(s)
    ensures |Elements(s)| == |s|
  {
    if s != [] {
      var t := s[..|s| - 1];
      DistinctCard(t);
      ElementsSnoc(t, s[|s| - 1]);
      assert s == t + [s[|s| - 1]];
    }
  }

  lemma ElementsSnoc<T(!new)>(t: seq<T>, x: T)
    ensures Elements(t + [x]) == Elements(t) + {x}
  {
  }

  lemma {:induction false} DistinctAppend<T(!new)>(s: seq<T>, x: T)
    requires Distinct(s) && x !in s
    ensures Distinct(s + [x])
  {
    assert (s + [x])[..|s|] == s;
  }

  lemma PopPush<T>(done: seq<T>, q: seq<T>, more: seq<T>)
    requires q != []
    ensures (done + [q[0]]) + q[1..] == done + q
    ensures (done + [q[0]]) + (q[1..] + more) == (done + q) + more
  {
  }

  lemma SubsetCard<T>(a: set<T>, b: set<T>)
    requires a <= b
    ensures |a| <= |b|
    ensures |a| == |b| ==> a == b
  {
    assert |b| == |a| + |b - a| by { assert b == a + (b - a); }
  }

  lemma {:induction false} PrefixDistinct<T(!new)>(s: seq<T>, k: nat)
    requires k <= |s| && Distinct(s)
    ensures Distinct(s[..k])
    ensures k < |s| ==> s[k] !in s[..k]
  {
    if k < |s| - 1 {
      PrefixDistinct(s[..|s| - 1], k);
      assert s[..|s| - 1][..k] == s[..k];
    } else if k == |s| {
      assert s[..k] == s;
    }
  }

  /** Insertion into a sequence ordered by le, after the elements that are le x. */
  function InsertBy<T>(s: seq<T>, x: T, le: (T, T) -> bool): seq<T> {
    if s == [] then [x]
    else if le(s[|s| - 1], x) then s + [x]
    else InsertBy(s[..|s| - 1], x, le) + [s[|s| - 1]]
  }

  /** A stable sort (slice::sort_by). */
  function SortBy<T>(s: seq<T>, le: (T, T) -> bool): seq<T> {
    if s == [] then []
    else InsertBy(SortBy(s[..|s| - 1], le), s[|s| - 1], le)
  }

  lemma {:induction false} InsertByBag<T>(s: seq<T>, x: T, le: (T, T) -> bool)
    ensures multiset(InsertBy(s, x, le)) == multiset(s) + multiset{x}
  {
    if s != [] {
      assert s == s[..|s| - 1] + [s[|s| - 1]];
      InsertByBag(s[..|s| - 1], x, le);
    }
  }

  lemma {:induction false} SortByBag<T>(s: seq<T>, le: (T, T) -> bool)
    ensures multiset(SortBy(s, le)) == multiset(s)
  {
    if s != [] {
      assert s == s[..|s| - 1] + [s[|s| - 1]];
      SortByBag(s[..|s| - 1], le);
      InsertByBag(SortBy(s[..|s| - 1], le), s[|s| - 1], le);
    }
  }

  ghost predicate TotalOrder<T(!new)>(le: (T, T) -> bool) {
    && (forall a, b :: le(a, b) || le(b, a))
    && (forall a, b, c :: le(a, b) && le(b, c) ==> le(a, c))
  }

  ghost predicate OrderedBy<T(!new)>(s: seq<T>, le: (T, T) -> bool) {
    forall i, j :: 0 <= i < j < |s| ==> le(s[i], s[j])
  }

  lemma {:induction false} InsertByOrdered<T(!new)>(s: seq<T>, x: T, le: (T, T) -> bool)
    requires TotalOrder(le) && OrderedBy(s, le)
    ensures OrderedBy(InsertBy(s, x, le), le)
  {
    if s != [] && !le(s[|s| - 1], x) {
      var t := s[..|s| - 1];
      InsertByOrdered(t, x, le);
      var r := InsertBy(t, x, le);
      InsertByBag(t, x, le);
      forall i | 0 <= i < |r|
        ensures le(r[i], s[|s| - 1])
      {
        assert r[i] in multiset(r);
        assert r[i] in t || r[i] == x;
      }
    } else if s != [] {
      forall i | 0 <= i < |s|
        ensures le(s[i], x)
      {
        assert i < |s| - 1 ==> le(s[i], s[|s| - 1]);
      }
    }
  }

  lemma {:induction false} SortByOrdered<T(!new)>(s: seq<T>, le: (T, T) -> bool)
    requires TotalOrder(le)
    ensures OrderedBy(SortBy(s, le), le)
  {
    if s != [] {
      SortByOrdered(s[..|s| - 1], le);
      InsertByOrdered(SortBy(s[..|s| - 1], le), s[|s| - 1], le);
    }
  }

  /** The first k of the sorted elements come before all the others. */
  lemma {:induction false} FirstOfSorted<T(!new)>(s: seq<T>, k: nat, le: (T, T) -> bool, a: T, b: T)
    requires TotalOrder(le) && k <= |SortBy(s, le)|
    requires a in SortBy(s, le)[..k] && b in s && b !in SortBy(s, le)[..k]
    ensures le(a, b)
  {
    var r := SortBy(s, le);
    SortByOrdered(s, le);
    SortByBag(s, le);
    SameBag(r, s);
    assert r == r[..k] + r[k..];
    var i :| 0 <= i < k && r[i] == a;
    var j :| 0 <= j < |r| - k && r[k..][j] == b;
    assert r[k + j] == b;
  }

  /** Sorting keeps the elements, and keeps them distinct. */
  lemma {:induction false} SameBag<T(!new)>(r: seq<T>, s: seq<T>)
    requires multiset(r) == multiset(s)
    ensures |r| == |s|
    ensures forall x :: x in r <==> x in s
    ensures Distinct(s) ==> Distinct(r)
  {
    assert |multiset(r)| == |multiset(s)|;
    forall x
      ensures x in r <==> x in s
    {
      assert x in r <==> x in multiset(r);
      assert x in s <==> x in multiset(s);
    }
    if Distinct(s) {
      forall x
        ensures multiset(r)[x] <= 1
      {
        DistinctCounts(s, x);
      }
      CountsDistinct(r);
    }
  }

  lemma {:induction false} CountsDistinct<T(!new)>(r: seq<T>)
    requires forall x :: multiset(r)[x] <= 1
    ensures Distinct(r)
  {
    if r != [] {
      var t, l := r[..|r| - 1], r[|r| - 1];
      assert r == t + [l];
      assert multiset(r) == multiset(t) + multiset{l};
      forall x
        ensures multiset(t)[x] <= 1
      {
        assert multiset(r)[x] <= 1;
      }
      CountsDistinct(t);
      assert multiset(r)[l] == multiset(t)[l] + 1;
      assert multiset(t)[l] == 0;
    }
  }

  lemma {:induction false} DistinctCounts<T(!new)>(s: seq<T>, x: T)
    requires Distinct(s)
    ensures multiset(s)[x] <= 1
  {
    if s != [] {
      var t := s[..|s| - 1];
      DistinctCounts(t, x);
      assert s == t + [s[|s| - 1]];
    }
  }
}
