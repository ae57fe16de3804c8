// Small types shared by the other modules.
module Common {
  datatype Option<+T> = None | Some(value: T)

  predicate Distinct<T(==)>(s: seq<T>) {
    forall i, j :: 0 <= i < j < |s| ==> s[i] != s[j]
  }

  // -------------------------------------------------------------- characters

  predicate NoneOf(s: string, c: char) {
    forall i :: 0 <= i < |s| ==> s[i] != c
  }

  /** What stands before the first separator is determined by the whole. */
  lemma CutAtFirst(a: string, b: string, c: char, whole: string)
    requires NoneOf(a, c) && NoneOf(b, c) && a + [c] <= whole && b + [c] <= whole
    ensures a == b
  {
    assert whole[|a|] == (a + [c])[|a|] && whole[|b|] == (b + [c])[|b|];
    assert forall i :: 0 <= i < |a| ==> whole[i] == (a + [c])[i];
    assert forall i :: 0 <= i < |b| ==> whole[i] == (b + [c])[i];
    assert a == whole[..|a|] && b == whole[..|b|];
  }

  /** So is what stands after the last one. */
  lemma CutAtLast(a: string, x: string, b: string, y: string, c: char)
    requires NoneOf(x, c) && NoneOf(y, c) && a + [c] + x == b + [c] + y
    ensures a == b && x == y
  {
    var whole := a + [c] + x;
    assert whole[|a|] == c && whole[|b|] == c;
    assert forall i :: |a| < i < |whole| ==> whole[i] == x[i - |a| - 1];
    assert forall i :: |b| < i < |whole| ==> whole[i] == y[i - |b| - 1];
    assert |a| == |b|;
    assert whole[..|a|] == a && whole[..|b|] == b;
    assert whole[|a| + 1..] == x && whole[|b| + 1..] == y;
  }

  // ----------------------------------------------------------- distinct images

  /** The values of a function on a list. */
  function Image<T, K(==)>(s: seq<T>, f: T -> K): set<K> {
    if s == [] then {} else Image(s[..|s| - 1], f) + {f(s[|s| - 1])}
  }

  predicate DistinctBy<T, K(==)>(s: seq<T>, f: T -> K) {
    forall i, j :: 0 <= i < j < |s| ==> f(s[i]) != f(s[j])
  }

  lemma {:induction false} ImageMembers<T, K>(s: seq<T>, f: T -> K)
    ensures forall i :: 0 <= i < |s| ==> f(s[i]) in Image(s, f)
    ensures forall k :: k in Image(s, f) ==> exists i :: 0 <= i < |s| && f(s[i]) == k
  {
    if s != [] {
      var n := |s| - 1;
      ImageMembers(s[..n], f);
      forall k | k in Image(s, f) ensures exists i :: 0 <= i < |s| && f(s[i]) == k {
        if k == f(s[n]) {
        } else {
          var i :| 0 <= i < n && f(s[..n][i]) == k;
          assert f(s[i]) == k;
        }
      }
      forall i | 0 <= i < |s| ensures f(s[i]) in Image(s, f) {
        assert i < n ==> f(s[..n][i]) in Image(s[..n], f);
      }
    }
  }

  lemma DistinctStep<T, K>(s: seq<T>, f: T -> K)
    requires s != []
    ensures var front, last := s[..|s| - 1], s[|s| - 1];
      DistinctBy(s, f) <==> DistinctBy(front, f) && f(last) !in Image(front, f)
  {
    hide Image;
    var n := |s| - 1;
    var front := s[..n];
    ImageMembers(front, f);
    assert forall i :: 0 <= i < n ==> front[i] == s[i];
    if f(s[n]) in Image(front, f) {
      var i :| 0 <= i < n && f(front[i]) == f(s[n]);
      assert f(s[i]) == f(s[n]);
    } else if DistinctBy(front, f) {
      forall i, j | 0 <= i < j < |s| ensures f(s[i]) != f(s[j]) {
        assert f(front[i]) in Image(front, f);
        assert j < n ==> f(front[i]) != f(front[j]);
      }
    } else {
      var i, j :| 0 <= i < j < n && f(front[i]) == f(front[j]);
      assert f(s[i]) == f(s[j]);
    }
  }

  /** A list has at most as many values as elements, and as many exactly when no value repeats. */
  lemma {:induction false} ImageSize<T, K>(s: seq<T>, f: T -> K)
    ensures |Image(s, f)| <= |s|
    ensures |Image(s, f)| == |s| <==> DistinctBy(s, f)
  {
    hide DistinctBy;
    if s == [] {
      NothingRepeats(f);
    } else {
      var front, last := s[..|s| - 1], s[|s| - 1];
      ImageSize(front, f);
      DistinctStep(s, f);
      if f(last) in Image(front, f) {
        assert Image(s, f) == Image(front, f);
      }
    }
  }

  lemma NothingRepeats<T, K>(f: T -> K)
    ensures DistinctBy([], f)
  {
  }

  lemma SameSizeSubset<K>(a: set<K>, b: set<K>)
    requires a <= b && |a| == |b|
    ensures a == b
  {
    if a != b {
      var x :| x in b && x !in a;
      assert |b - {x}| == |b| - 1;
      SubsetSize(a, b - {x});
    }
  }

  lemma {:induction false} SubsetSize<K>(a: set<K>, b: set<K>)
    requires a <= b
    ensures |a| <= |b|
  {
    if a != {} {
      var x :| x in a;
      SubsetSize(a - {x}, b - {x});
    }
  }

  /** Distinct values that all occur in a list of the same length are all of its values, and those are distinct too. */
  lemma DistinctFillsImage<T, K>(a: seq<T>, b: seq<T>, f: T -> K)
    requires |a| == |b| && Image(b, f) <= Image(a, f) && DistinctBy(b, f)
    ensures Image(b, f) == Image(a, f) && DistinctBy(a, f)
  {
    ImageSize(a, f);
    ImageSize(b, f);
    SubsetSize(Image(b, f), Image(a, f));
    SameSizeSubset(Image(b, f), Image(a, f));
  }

  // ------------------------------------------------------------ filtering

  /** The elements that satisfy p, in order. */
  function Filter<T>(s: seq<T>, p: T -> bool): seq<T> {
    if s == [] then []
    else Filter(s[..|s| - 1], p) + (if p(s[|s| - 1]) then [s[|s| - 1]] else [])
  }

  lemma {:induction false} FilterMembers<T(!new)>(s: seq<T>, p: T -> bool)
    ensures |Filter(s, p)| <= |s|
    ensures forall x :: x in Filter(s, p) <==> x in s && p(x)
  {
    if s != [] {
      FilterMembers(s[..|s| - 1], p);
      assert s == s[..|s| - 1] + [s[|s| - 1]];
    }
  }

  lemma {:induction false} FilterCounts<T(!new)>(s: seq<T>, p: T -> bool, x: T)
    ensures multiset(Filter(s, p))[x] == if p(x) then multiset(s)[x] else 0
  {
    if s != [] {
      FilterCounts(s[..|s| - 1], p, x);
      assert s == s[..|s| - 1] + [s[|s| - 1]];
    }
  }

  lemma {:induction false} FilterSum<T(!new)>(a: seq<T>, b: seq<T>, p: T -> bool)
    ensures Filter(a + b, p) == Filter(a, p) + Filter(b, p)
  {
    if b == [] {
      assert a + b == a;
    } else {
      FilterSum(a, b[..|b| - 1], p);
      assert (a + b)[..|a + b| - 1] == a + b[..|b| - 1];
    }
  }

  lemma {:induction false} FilterAll<T(!new)>(s: seq<T>, p: T -> bool)
    ensures |Filter(s, p)| == |s| <==> forall x :: x in s ==> p(x)
    ensures (forall x :: x in s ==> p(x)) ==> Filter(s, p) == s
    ensures (forall x :: x in s ==> !p(x)) ==> Filter(s, p) == []
  {
    if s != [] {
      FilterAll(s[..|s| - 1], p);
      FilterMembers(s[..|s| - 1], p);
      assert s == s[..|s| - 1] + [s[|s| - 1]];
    }
  }

  /** Filtering twice, when the second test implies the first. */
  lemma {:induction false} FilterInner<T(!new)>(s: seq<T>, p: T -> bool, q: T -> bool)
    requires forall x :: q(x) ==> p(x)
    ensures Filter(Filter(s, p), q) == Filter(s, q)
  {
    if s != [] {
      var n := |s| - 1;
      FilterInner(s[..n], p, q);
      var front := Filter(s[..n], p);
      if p(s[n]) {
        assert Filter(s, p) == front + [s[n]];
        assert (front + [s[n]])[..|front|] == front;
      } else {
        assert Filter(s, p) == front;
      }
    }
  }

  /** Filtering twice, when the first test implies the second, or excludes it. */
  lemma FilterOuter<T(!new)>(s: seq<T>, p: T -> bool, q: T -> bool)
    ensures (forall x :: p(x) ==> q(x)) ==> Filter(Filter(s, p), q) == Filter(s, p)
    ensures (forall x :: p(x) ==> !q(x)) ==> Filter(Filter(s, p), q) == []
  {
    FilterMembers(s, p);
    FilterAll(Filter(s, p), q);
  }

  /** Two positions of the filtered list come from two positions of the list, in the same order. */
  lemma {:induction false} FilterPositions<T(!new)>(s: seq<T>, p: T -> bool, i: nat, j: nat)
    requires i < j < |Filter(s, p)|
    ensures exists a, b :: 0 <= a < b < |s| && s[a] == Filter(s, p)[i] && s[b] == Filter(s, p)[j]
  {
    var n := |s| - 1;
    var front := Filter(s[..n], p);
    if j < |front| {
      FilterPositions(s[..n], p, i, j);
      var a, b :| 0 <= a < b < n && s[..n][a] == front[i] && s[..n][b] == front[j];
      assert s[a] == Filter(s, p)[i] && s[b] == Filter(s, p)[j];
    } else {
      var x := front[i];
      assert x in front;
      FilterMembers(s[..n], p);
      var a :| 0 <= a < n && s[..n][a] == x;
      assert s[a] == Filter(s, p)[i] && s[n] == Filter(s, p)[j];
    }
  }

  /** Two tests that agree on the elements filter alike. */
  lemma {:induction false} FilterAgrees<T(!new)>(s: seq<T>, p: T -> bool, q: T -> bool)
    requires forall x :: x in s ==> p(x) == q(x)
    ensures Filter(s, p) == Filter(s, q)
  {
    if s != [] {
      assert s == s[..|s| - 1] + [s[|s| - 1]];
      FilterAgrees(s[..|s| - 1], p, q);
    }
  }

  /** Filtering a permutation gives a permutation. */
  lemma FilterPermuted<T(!new)>(a: seq<T>, b: seq<T>, p: T -> bool)
    requires multiset(a) == multiset(b)
    ensures multiset(Filter(a, p)) == multiset(Filter(b, p)) && |Filter(a, p)| == |Filter(b, p)|
  {
    forall x ensures multiset(Filter(a, p))[x] == multiset(Filter(b, p))[x] {
      FilterCounts(a, p, x);
      FilterCounts(b, p, x);
    }
    assert multiset(Filter(a, p)) == multiset(Filter(b, p));
    assert |multiset(Filter(a, p))| == |Filter(a, p)|;
  }

  // --------------------------------------------------------------- sorting

  predicate Ascending<T>(s: seq<T>, rank: T -> int) {
    forall i, j :: 0 <= i < j < |s| ==> rank(s[i]) <= rank(s[j])
  }

  /** The stable sort by rank: each element goes behind all that are not greater. */
  function SortedBy<T>(s: seq<T>, rank: T -> int): seq<T> {
    if s == [] then [] else Placed(SortedBy(s[..|s| - 1], rank), s[|s| - 1], rank)
  }

  function Placed<T>(s: seq<T>, e: T, rank: T -> int): seq<T> {
    if s == [] || rank(s[|s| - 1]) <= rank(e) then s + [e]
    else Placed(s[..|s| - 1], e, rank) + [s[|s| - 1]]
  }

  lemma {:induction false} PlacedMembers<T>(s: seq<T>, e: T, rank: T -> int)
    ensures multiset(Placed(s, e, rank)) == multiset(s) + multiset{e}
  {
    if s != [] && rank(s[|s| - 1]) > rank(e) {
      PlacedMembers(s[..|s| - 1], e, rank);
      assert s == s[..|s| - 1] + [s[|s| - 1]];
    }
  }

  lemma {:induction false} PlacedIsSorted<T>(s: seq<T>, e: T, rank: T -> int)
    requires Ascending(s, rank)
    ensures Ascending(Placed(s, e, rank), rank)
    ensures forall i :: 0 <= i < |Placed(s, e, rank)| ==> Placed(s, e, rank)[i] == e || Placed(s, e, rank)[i] in s
  {
    if s != [] && rank(s[|s| - 1]) > rank(e) {
      var front, last, r := s[..|s| - 1], s[|s| - 1], Placed(s, e, rank);
      PlacedIsSorted(front, e, rank);
      forall i, j | 0 <= i < j < |r| ensures rank(r[i]) <= rank(r[j]) {
        if j == |r| - 1 && r[i] != e {
          var k :| 0 <= k < |front| && front[k] == r[i];
          assert s[k] == r[i];
        }
      }
    }
  }

  function AtRank<T>(rank: T -> int, t: int): T -> bool {
    (e: T) => rank(e) == t
  }

  lemma {:induction false} PlacedIsStable<T(!new)>(s: seq<T>, e: T, rank: T -> int, t: int)
    requires Ascending(s, rank)
    ensures Filter(Placed(s, e, rank), AtRank(rank, t)) == Filter(s, AtRank(rank, t)) + if rank(e) == t then [e] else []
  {
    if s != [] && rank(s[|s| - 1]) > rank(e) {
      PlacedIsStable(s[..|s| - 1], e, rank, t);
    }
  }

  lemma {:induction false} SortPermutes<T(!new)>(s: seq<T>, rank: T -> int)
    ensures multiset(SortedBy(s, rank)) == multiset(s) && Ascending(SortedBy(s, rank), rank)
  {
    if s != [] {
      var front, last := s[..|s| - 1], s[|s| - 1];
      SortPermutes(front, rank);
      PlacedMembers(SortedBy(front, rank), last, rank);
      PlacedIsSorted(SortedBy(front, rank), last, rank);
      assert s == front + [last];
    }
  }

  /** The sort keeps the order of elements of one rank. */
  lemma {:induction false} SortIsStable<T(!new)>(s: seq<T>, rank: T -> int, t: int)
    ensures Filter(SortedBy(s, rank), AtRank(rank, t)) == Filter(s, AtRank(rank, t))
  {
    hide Placed;
    if s != [] {
      var front, last := s[..|s| - 1], s[|s| - 1];
      SortIsStable(front, rank, t);
      SortPermutes(front, rank);
      PlacedIsStable(SortedBy(front, rank), last, rank, t);
    }
  }
}
