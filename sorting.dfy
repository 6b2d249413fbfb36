/**
 * numpy's argsort over float keys, with equal keys kept in index order, and the
 * ordinal ranks argsort(argsort(x)) that the week table turns into expected wins.
 */
module Sorting {
  import opened Sums

  /** Index i sorts before index j: the smaller key first, equal keys by index. */
  predicate Precedes(keys: seq<real>, i: int, j: int)
  {
    0 <= i < |keys| && 0 <= j < |keys| && (keys[i] < keys[j] || (keys[i] == keys[j] && i < j))
  }

  /** The index sequence s lists its indices in Precedes order. */
  predicate SortedBy(keys: seq<real>, s: seq<nat>)
  {
    forall a, b :: 0 <= a < b < |s| ==> Precedes(keys, s[a], s[b])
  }

  /** Every index in s is a position of a sequence of length n. */
  predicate InBounds(s: seq<nat>, n: nat)
  {
    forall k :: 0 <= k < |s| ==> s[k] < n
  }

  /** s lists each of 0 .. n-1 exactly once. */
  predicate IsPermutation(s: seq<nat>, n: nat)
  {
    multiset(s) == multiset(Range(n))
  }

  /** Places index x into s in front of the first index it precedes. */
  function Insert(keys: seq<real>, s: seq<nat>, x: nat): seq<nat>
  {
    if s == [] then [x]
    else if Precedes(keys, x, s[0]) then [x] + s
    else [s[0]] + Insert(keys, s[1..], x)
  }

  /** The indices 0 .. m-1 in Precedes order. */
  function SortPrefix(keys: seq<real>, m: nat): seq<nat>
    requires m <= |keys|
  {
    if m == 0 then [] else Insert(keys, SortPrefix(keys, m - 1), m - 1)
  }

  /** A permutation of 0 .. n-1 has n elements, all below n. */
  lemma PermutationBounds(s: seq<nat>, n: nat)
    requires IsPermutation(s, n)
    ensures |s| == n && InBounds(s, n)
  {
    assert |s| == |multiset(s)| == |multiset(Range(n))| == n;
    forall k | 0 <= k < |s| ensures s[k] < n {
      assert s[k] in multiset(Range(n));
    }
  }

  /** np.argsort(keys), with equal keys kept in index order. */
  function ArgSort(keys: seq<real>): (order: seq<nat>)
    ensures IsPermutation(order, |keys|)
    ensures |order| == |keys| && InBounds(order, |keys|)
  {
    var order := SortPrefix(keys, |keys|);
    SortPrefixPermutes(keys, |keys|);
    PermutationBounds(order, |keys|);
    order
  }

  /** Inserting adds x and keeps everything else. */
  lemma {:induction false} InsertPermutes(keys: seq<real>, s: seq<nat>, x: nat)
    ensures multiset(Insert(keys, s, x)) == multiset(s) + multiset{x}
    decreases |s|
  {
    if s != [] && !Precedes(keys, x, s[0]) {
      InsertPermutes(keys, s[1..], x);
      assert s == [s[0]] + s[1..];
    }
  }

  /** Sorting the prefix of length m lists each of 0 .. m-1 once. */
  lemma {:induction false} SortPrefixPermutes(keys: seq<real>, m: nat)
    requires m <= |keys|
    ensures IsPermutation(SortPrefix(keys, m), m)
  {
    if m > 0 {
      var x: nat := m - 1;
      SortPrefixPermutes(keys, x);
      InsertPermutes(keys, SortPrefix(keys, x), x);
      assert Range(m) == Range(x) + [x];
    }
  }

  /** Inserting into a sorted sequence an index it does not hold keeps it sorted. */
  lemma {:induction false} InsertSorted(keys: seq<real>, s: seq<nat>, x: nat)
    requires SortedBy(keys, s) && InBounds(s, |keys|)
    requires x < |keys| && x !in s
    ensures SortedBy(keys, Insert(keys, s, x))
    decreases |s|
  {
    if s != [] && !Precedes(keys, x, s[0]) {
      var t := Insert(keys, s[1..], x);
      InsertSorted(keys, s[1..], x);
      InsertPermutes(keys, s[1..], x);
      assert Precedes(keys, s[0], x);
      forall b | 0 <= b < |t| ensures Precedes(keys, s[0], t[b]) {
        assert t[b] in multiset(t);
        if t[b] != x {
          assert t[b] in multiset(s[1..]);
          var c :| 0 <= c < |s[1..]| && s[1..][c] == t[b];
          assert s[c + 1] == t[b];
        }
      }
    }
  }

  /** Index m is not among the indices of a permutation of 0 .. m-1. */
  lemma FreshIndex(s: seq<nat>, m: nat, n: nat)
    requires IsPermutation(s, m) && m <= n
    ensures InBounds(s, n) && m !in s
  {
    PermutationBounds(s, m);
  }

  lemma {:induction false} SortPrefixSorted(keys: seq<real>, m: nat)
    requires m <= |keys|
    ensures SortedBy(keys, SortPrefix(keys, m))
  {
    if m > 0 {
      var x: nat := m - 1;
      var s := SortPrefix(keys, x);
      assert SortedBy(keys, Insert(keys, s, x)) by {
        SortPrefixSorted(keys, x);
        SortPrefixPermutes(keys, x);
        FreshIndex(s, x, |keys|);
        InsertSorted(keys, s, x);
      }
    }
  }

  /** ArgSort lists indices with smaller keys first and equal keys by index. */
  lemma ArgSortSorted(keys: seq<real>)
    ensures SortedBy(keys, ArgSort(keys))
  {
    SortPrefixSorted(keys, |keys|);
  }

  /** An index sequence sorted by Precedes has no repeated index. */
  lemma SortedDistinct(keys: seq<real>, s: seq<nat>)
    requires SortedBy(keys, s)
    ensures forall a, b :: 0 <= a < |s| && 0 <= b < |s| && a != b ==> s[a] != s[b]
  {
  }

  /** The entries of s in the order the index sequence lists (numpy's s[order]). */
  function Gather<T>(s: seq<T>, order: seq<nat>): (r: seq<T>)
    requires InBounds(order, |s|)
    ensures |r| == |order|
  {
    if order == [] then [] else [s[order[0]]] + Gather(s, order[1..])
  }

  lemma {:induction false} GatherAt<T>(s: seq<T>, order: seq<nat>, k: nat)
    requires InBounds(order, |s|) && k < |order|
    ensures Gather(s, order)[k] == s[order[k]]
    decreases |order|
  {
    if k > 0 {
      GatherAt(s, order[1..], k - 1);
    }
  }

  lemma {:induction false} GatherAppend<T>(s: seq<T>, p: seq<nat>, q: seq<nat>)
    requires InBounds(p, |s|) && InBounds(q, |s|)
    ensures InBounds(p + q, |s|)
    ensures Gather(s, p + q) == Gather(s, p) + Gather(s, q)
    decreases |p|
  {
    if p != [] {
      assert (p + q)[1..] == p[1..] + q;
      GatherAppend(s, p[1..], q);
    } else {
      assert p + q == q;
    }
  }

  /** Reading s along q is reading entry q[i] plus reading along q without place i. */
  lemma GatherRemove<T>(s: seq<T>, q: seq<nat>, i: nat)
    requires InBounds(q, |s|) && i < |q|
    ensures InBounds(q[..i] + q[i + 1..], |s|)
    ensures multiset(Gather(s, q)) == multiset{s[q[i]]} + multiset(Gather(s, q[..i] + q[i + 1..]))
  {
    var front, back := q[..i], q[i + 1..];
    assert q == front + ([q[i]] + back);
    GatherAppend(s, front, [q[i]] + back);
    GatherAppend(s, front, back);
    assert Gather(s, [q[i]] + back) == [s[q[i]]] + Gather(s, back);
  }

  /** Reading s along two orders with the same indices gives the same entries. */
  lemma {:induction false} GatherPermutation<T>(s: seq<T>, p: seq<nat>, q: seq<nat>)
    requires InBounds(p, |s|) && InBounds(q, |s|) && multiset(p) == multiset(q)
    ensures multiset(Gather(s, p)) == multiset(Gather(s, q))
    decreases |p|
  {
    if p == [] {
      assert |q| == |multiset(q)| == 0;
    } else {
      assert p[0] in multiset(q);
      var i :| 0 <= i < |q| && q[i] == p[0];
      var rest := q[..i] + q[i + 1..];
      assert multiset(p[1..]) == multiset(rest) by {
        RemoveMatching(p, q, i);
      }
      GatherRemove(s, q, i);
      GatherPermutation(s, p[1..], rest);
      assert Gather(s, p) == [s[p[0]]] + Gather(s, p[1..]);
    }
  }

  /** Reading s along 0 .. |s|-1 gives s back. */
  lemma GatherRange<T>(s: seq<T>)
    ensures InBounds(Range(|s|), |s|) && Gather(s, Range(|s|)) == s
  {
    forall k | 0 <= k < |s| ensures Gather(s, Range(|s|))[k] == s[k] {
      GatherAt(s, Range(|s|), k);
    }
  }

  /** Reading s in argsort order keeps exactly the entries of s. */
  lemma GatherArgSort<T>(s: seq<T>, keys: seq<real>)
    requires |s| == |keys|
    ensures multiset(Gather(s, ArgSort(keys))) == multiset(s)
  {
    GatherRange(s);
    GatherPermutation(s, ArgSort(keys), Range(|s|));
  }

  /** An index sequence read as the float keys numpy sorts it by. */
  function AsKeys(s: seq<nat>): seq<real>
  {
    seq(|s|, k requires 0 <= k < |s| => s[k] as real)
  }

  /** np.argsort(np.argsort(points)): the 0-based ordinal rank of every position. */
  function Ranks(points: seq<real>): seq<nat>
  {
    ArgSort(AsKeys(ArgSort(points)))
  }

  lemma {:induction false} IncreasingLower(t: seq<int>, a: nat)
    requires forall i, j :: 0 <= i < j < |t| ==> t[i] < t[j]
    requires forall i :: 0 <= i < |t| ==> 0 <= t[i]
    requires a < |t|
    ensures a <= t[a]
  {
    if a > 0 {
      IncreasingLower(t, a - 1);
    }
  }

  lemma {:induction false} IncreasingUpper(t: seq<int>, a: nat)
    requires forall i, j :: 0 <= i < j < |t| ==> t[i] < t[j]
    requires forall i :: 0 <= i < |t| ==> t[i] < |t|
    requires a < |t|
    ensures t[a] <= a
    decreases |t| - a
  {
    if a < |t| - 1 {
      IncreasingUpper(t, a + 1);
    }
  }

  /**
   * If q sorts the positions of a permutation "order" by the values order holds,
   * then q is the inverse of order: order[q[i]] == i.
   */
  lemma SortingAPermutationInverts(order: seq<nat>, q: seq<nat>)
    requires |q| == |order| && InBounds(order, |order|) && InBounds(q, |order|)
    requires forall a, b :: 0 <= a < |order| && 0 <= b < |order| && a != b ==> order[a] != order[b]
    requires SortedBy(AsKeys(order), q)
    ensures forall i :: 0 <= i < |order| ==> order[q[i]] == i
  {
    var n := |order|;
    var keys := AsKeys(order);
    var t := seq(n, a requires 0 <= a < n => order[q[a]]);
    forall a, b | 0 <= a < b < n ensures t[a] < t[b] {
      assert Precedes(keys, q[a], q[b]);
      assert keys[q[a]] == order[q[a]] as real;
      assert keys[q[b]] == order[q[b]] as real;
    }
    forall a | 0 <= a < n ensures order[q[a]] == a {
      IncreasingLower(t, a);
      IncreasingUpper(t, a);
    }
  }

  /** Reading the sort order at the ranks gives back every position. */
  lemma OrderAtRanks(points: seq<real>)
    ensures |Ranks(points)| == |points| && InBounds(Ranks(points), |points|)
    ensures forall i :: 0 <= i < |points| ==> ArgSort(points)[Ranks(points)[i]] == i
  {
    var order := ArgSort(points);
    var q := ArgSort(AsKeys(order));
    assert q == Ranks(points);
    ArgSortSorted(points);
    SortedDistinct(points, order);
    ArgSortSorted(AsKeys(order));
    SortingAPermutationInverts(order, q);
  }

  /** The entry at place k of the sort order has rank k. */
  lemma RankOfPlace(points: seq<real>, k: nat)
    requires k < |points|
    ensures |Ranks(points)| == |points| && ArgSort(points)[k] < |points|
    ensures Ranks(points)[ArgSort(points)[k]] == k
  {
    var order := ArgSort(points);
    OrderAtRanks(points);
    ArgSortSorted(points);
    SortedDistinct(points, order);
    assert order[Ranks(points)[order[k]]] == order[k];
  }

  /**
   * The ranks are a permutation of 0 .. n-1 that inverts the sort order: the entry at
   * position i sits at place Ranks[i] of the argsort order, and the entry at place k
   * of that order has rank k.
   */
  lemma RanksInvertOrder(points: seq<real>)
    ensures |Ranks(points)| == |points| && IsPermutation(Ranks(points), |points|)
    ensures forall i :: 0 <= i < |points| ==> ArgSort(points)[Ranks(points)[i]] == i
    ensures forall k :: 0 <= k < |points| ==> Ranks(points)[ArgSort(points)[k]] == k
  {
    OrderAtRanks(points);
    forall k | 0 <= k < |points| ensures Ranks(points)[ArgSort(points)[k]] == k {
      RankOfPlace(points, k);
    }
  }

  /** Ranks follow Precedes exactly: more points ranks higher, and so does the later of two equal scores. */
  lemma RanksOrder(points: seq<real>, i: nat, j: nat)
    requires i < |points| && j < |points|
    ensures |Ranks(points)| == |points|
    ensures Ranks(points)[i] < Ranks(points)[j] <==> Precedes(points, i, j)
  {
    var order := ArgSort(points);
    OrderAtRanks(points);
    var a, b := Ranks(points)[i], Ranks(points)[j];
    assert order[a] == i && order[b] == j;
    ArgSortSorted(points);
    if a > b {
      assert Precedes(points, order[b], order[a]);
    } else if a < b {
      assert Precedes(points, order[a], order[b]);
    }
  }

  /** For each position j: 1 when the entry at j sorts before the entry at i, else 0. */
  function Outranked(points: seq<real>, i: nat): nat -> real
  {
    j => if Precedes(points, j, i) then 1.0 else 0.0
  }

  /** The entry at place k of the sort order sorts before entry i exactly when k is below i's rank. */
  lemma OutrankedAtPlace(points: seq<real>, i: nat, k: nat)
    requires i < |points| && k < |points|
    ensures |Ranks(points)| == |points| && |ArgSort(points)| == |points|
    ensures Precedes(points, ArgSort(points)[k], i) <==> k < Ranks(points)[i]
  {
    var order := ArgSort(points);
    var r := Ranks(points)[i];
    OrderAtRanks(points);
    assert order[r] == i;
    ArgSortSorted(points);
    if k < r {
      assert Precedes(points, order[k], order[r]);
    } else if k > r {
      assert Precedes(points, order[r], order[k]);
    }
  }

  /** Walking the sort order, exactly the places below i's rank hold entries that sort before i. */
  lemma OutrankedInSortOrder(points: seq<real>, i: nat)
    requires i < |points|
    ensures SumBy(ArgSort(points), Outranked(points, i)) == SumBy(Range(|points|), Below(Ranks(points)[i]))
  {
    var n := |points|;
    var order := ArgSort(points);
    var r := Ranks(points)[i];
    var f := Outranked(points, i);
    forall k | 0 <= k < n ensures f(order[k]) == Below(r)(Range(n)[k]) {
      OutrankedAtPlace(points, i, k);
    }
    SumByPointwise(order, f, Range(n), Below(r));
  }

  /** The rank of an entry is the number of entries that sort before it. */
  lemma RankCountsPreceding(points: seq<real>, i: nat)
    requires i < |points|
    ensures Ranks(points)[i] as real == SumBy(Range(|points|), Outranked(points, i))
  {
    var n := |points|;
    var r := Ranks(points)[i];
    SumByPermutation(Range(n), ArgSort(points), Outranked(points, i));
    OutrankedInSortOrder(points, i);
    CountBelow(n, r);
  }
}
