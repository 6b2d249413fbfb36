/** Finite sums over sequences, and the facts about them the engine's proofs use. */
module Sums {

  /** The naturals 0 .. n-1 in ascending order. */
  function Range(n: nat): (r: seq<nat>)
    ensures |r| == n
    ensures forall k :: 0 <= k < n ==> r[k] == k
  {
    if n == 0 then [] else Range(n - 1) + [n - 1]
  }

  /** The sum of f over the elements of s. */
  function SumBy<T>(s: seq<T>, f: T -> real): real
  {
    if s == [] then 0.0 else f(s[0]) + SumBy(s[1..], f)
  }

  lemma {:induction false} SumByAppend<T>(a: seq<T>, b: seq<T>, f: T -> real)
    ensures SumBy(a + b, f) == SumBy(a, f) + SumBy(b, f)
    decreases |a|
  {
    if a != [] {
      assert (a + b)[1..] == a[1..] + b;
      SumByAppend(a[1..], b, f);
    } else {
      assert a + b == b;
    }
  }

  /** Taking out the term at position i leaves the rest of the sum. */
  lemma SumByRemove<T>(t: seq<T>, i: nat, f: T -> real)
    requires i < |t|
    ensures SumBy(t, f) == f(t[i]) + SumBy(t[..i] + t[i + 1..], f)
  {
    var front, back := t[..i], t[i + 1..];
    assert t == (front + [t[i]]) + back;
    assert SumBy(front + [t[i]], f) == SumBy(front, f) + f(t[i]) by {
      SumByAppend(front, [t[i]], f);
      assert SumBy([t[i]], f) == f(t[i]) + SumBy([], f);
    }
    SumByAppend(front + [t[i]], back, f);
    SumByAppend(front, back, f);
  }

  /** Removing one copy of the same element from two equal multisets keeps them equal. */
  lemma RemoveMatching<T>(s: seq<T>, t: seq<T>, i: nat)
    requires multiset(s) == multiset(t) && s != [] && i < |t| && t[i] == s[0]
    ensures multiset(s[1..]) == multiset(t[..i] + t[i + 1..])
  {
    var rest := t[..i] + t[i + 1..];
    assert s == [s[0]] + s[1..];
    assert multiset(s) == multiset{s[0]} + multiset(s[1..]);
    assert t == t[..i] + [t[i]] + t[i + 1..];
    assert multiset(t) == multiset(t[..i]) + multiset{t[i]} + multiset(t[i + 1..]);
    assert multiset(rest) == multiset(t[..i]) + multiset(t[i + 1..]);
    assert multiset(s[1..]) == multiset(s) - multiset{s[0]};
  }

  /** An entry of a sequence is found at some place of any permutation of it. */
  lemma FindInPermutation<T>(s: seq<T>, t: seq<T>, a: nat) returns (k: nat)
    requires multiset(s) == multiset(t) && a < |s|
    ensures k < |t| && t[k] == s[a]
  {
    assert s[a] in multiset(t);
    k :| 0 <= k < |t| && t[k] == s[a];
  }

  /** No element occurs twice in s. */
  predicate Distinct<T(==)>(s: seq<T>)
  {
    forall i, j :: 0 <= i < j < |s| ==> s[i] != s[j]
  }

  /** Taking out one position of a sequence without repeats leaves one without repeats. */
  lemma DistinctRemove<T>(t: seq<T>, i: nat)
    requires Distinct(t) && i < |t|
    ensures Distinct(t[..i] + t[i + 1..])
  {
    var rest := t[..i] + t[i + 1..];
    forall a, b | 0 <= a < b < |rest| ensures rest[a] != rest[b] {
      var a' := if a < i then a else a + 1;
      var b' := if b < i then b else b + 1;
      assert rest[a] == t[a'] && rest[b] == t[b'];
    }
  }

  /**
   * Matching s[0] with t[i] and taking both out keeps the conditions of DistinctCover
   * for what is left.
   */
  lemma CoverStep<T>(s: seq<T>, t: seq<T>, i: nat)
    requires |s| == |t| && Distinct(s) && Distinct(t)
    requires forall k :: 0 <= k < |s| ==> s[k] in t
    requires i < |t| && t[i] == s[0]
    ensures |s[1..]| == |t[..i] + t[i + 1..]|
    ensures Distinct(s[1..]) && Distinct(t[..i] + t[i + 1..])
    ensures forall k :: 0 <= k < |s[1..]| ==> s[1..][k] in t[..i] + t[i + 1..]
  {
    var tail, rest := s[1..], t[..i] + t[i + 1..];
    DistinctRemove(t, i);
    forall k | 0 <= k < |tail| ensures tail[k] in rest {
      var m :| 0 <= m < |t| && t[m] == s[k + 1];
      assert m != i;
      if m < i {
        assert rest[m] == t[m];
      } else {
        assert rest[m - 1] == t[m];
      }
    }
  }

  /** Putting back a matched pair of elements keeps two multisets equal. */
  lemma PutBack<T>(s: seq<T>, t: seq<T>, i: nat)
    requires s != [] && i < |t| && t[i] == s[0]
    requires multiset(s[1..]) == multiset(t[..i] + t[i + 1..])
    ensures multiset(s) == multiset(t)
  {
    assert s == [s[0]] + s[1..];
    assert t == t[..i] + [t[i]] + t[i + 1..];
    assert multiset(t) == multiset(t[..i]) + multiset{t[i]} + multiset(t[i + 1..]);
  }

  /** Two sequences without repeats, of one length, the first inside the second, are permutations. */
  lemma {:induction false} DistinctCover<T>(s: seq<T>, t: seq<T>)
    requires |s| == |t| && Distinct(s) && Distinct(t)
    requires forall k :: 0 <= k < |s| ==> s[k] in t
    ensures multiset(s) == multiset(t)
    decreases |s|
  {
    if s != [] {
      assert s[0] in t;
      var i :| 0 <= i < |t| && t[i] == s[0];
      CoverStep(s, t, i);
      DistinctCover(s[1..], t[..i] + t[i + 1..]);
      PutBack(s, t, i);
    }
  }

  /** f applied to every element of s. */
  function Image<T>(s: seq<T>, f: T -> T): (r: seq<T>)
    ensures |r| == |s|
  {
    seq(|s|, k requires 0 <= k < |s| => f(s[k]))
  }

  /** A map that sends s into itself and undoes itself on s only reorders s. */
  lemma InvolutionPermutes<T>(s: seq<T>, f: T -> T)
    requires Distinct(s)
    requires forall k :: 0 <= k < |s| ==> f(s[k]) in s && f(f(s[k])) == s[k]
    ensures multiset(Image(s, f)) == multiset(s)
  {
    var r := Image(s, f);
    forall a, b | 0 <= a < b < |r| ensures r[a] != r[b] {
      assert f(r[a]) == s[a] && f(r[b]) == s[b];
    }
    DistinctCover(r, s);
  }

  /** Reordering a sequence does not change its sum. */
  lemma {:induction false} SumByPermutation<T>(s: seq<T>, t: seq<T>, f: T -> real)
    requires multiset(s) == multiset(t)
    ensures SumBy(s, f) == SumBy(t, f)
    decreases |s|
  {
    if s == [] {
      assert |t| == |multiset(t)| == 0;
    } else {
      assert s[0] in multiset(t);
      var i :| 0 <= i < |t| && t[i] == s[0];
      RemoveMatching(s, t, i);
      SumByPermutation(s[1..], t[..i] + t[i + 1..], f);
      SumByRemove(t, i, f);
    }
  }

  /** Two sums agree when their terms agree position by position. */
  lemma {:induction false} SumByPointwise<T, U>(a: seq<T>, f: T -> real, b: seq<U>, g: U -> real)
    requires |a| == |b|
    requires forall k :: 0 <= k < |a| ==> f(a[k]) == g(b[k])
    ensures SumBy(a, f) == SumBy(b, g)
    decreases |a|
  {
    if a != [] {
      assert f(a[0]) == g(b[0]);
      SumByPointwise(a[1..], f, b[1..], g);
    }
  }

  /** The sum of a difference is the difference of the sums. */
  lemma {:induction false} SumByDifference<T>(s: seq<T>, f: T -> real, g: T -> real)
    ensures SumBy(s, x => f(x) - g(x)) == SumBy(s, f) - SumBy(s, g)
    decreases |s|
  {
    if s != [] {
      SumByDifference(s[1..], f, g);
    }
  }

  /** When g is 1 - f term by term, the sum of g is |s| minus the sum of f. */
  lemma {:induction false} SumByComplement<T>(s: seq<T>, f: T -> real, g: T -> real)
    requires forall k :: 0 <= k < |s| ==> g(s[k]) == 1.0 - f(s[k])
    ensures SumBy(s, g) == |s| as real - SumBy(s, f)
    decreases |s|
  {
    if s != [] {
      assert forall k :: 1 <= k < |s| ==> s[1..][k - 1] == s[k];
      SumByComplement(s[1..], f, g);
    }
  }

  /** The pointwise sum of two functions. */
  function Plus<T>(f: T -> real, g: T -> real): T -> real
  {
    x => f(x) + g(x)
  }

  /** The sum of a sum is the sum of the sums. */
  lemma {:induction false} SumByAdd<T>(s: seq<T>, f: T -> real, g: T -> real)
    ensures SumBy(s, Plus(f, g)) == SumBy(s, f) + SumBy(s, g)
    decreases |s|
  {
    if s != [] {
      SumByAdd(s[1..], f, g);
    }
  }

  /** Summing the same value c over s gives |s| times c. */
  lemma {:induction false} SumByConstant<T>(s: seq<T>, f: T -> real, c: real)
    requires forall k :: 0 <= k < |s| ==> f(s[k]) == c
    ensures SumBy(s, f) == |s| as real * c
    decreases |s|
  {
    if s != [] {
      assert forall k :: 1 <= k < |s| ==> s[1..][k - 1] == s[k];
      SumByConstant(s[1..], f, c);
    }
  }

  /** 1 for the naturals below r and 0 for the rest. */
  function Below(r: nat): nat -> real
  {
    k => if k < r then 1.0 else 0.0
  }

  /** A natural number, divided by d. */
  function Scaled(d: real): nat -> real
    requires d != 0.0
  {
    k => k as real / d
  }

  /** Counting the positions below r among 0 .. n-1 gives r. */
  lemma {:induction false} CountBelow(n: nat, r: nat)
    requires r <= n
    ensures SumBy(Range(n), Below(r)) == r as real
  {
    if n > 0 {
      var m: nat := n - 1;
      SumByAppend<nat>(Range(m), [m], Below(r));
      assert Range(n) == Range(m) + [m];
      assert SumBy<nat>([m], Below(r)) == Below(r)(m);
      if r == n {
        CountBelow(m, m);
        SumByPointwise<nat, nat>(Range(m), Below(r), Range(m), Below(m));
      } else {
        CountBelow(m, r);
      }
    }
  }

  lemma DivideSum(a: real, b: real, d: real)
    requires d != 0.0
    ensures a / d + b / d == (a + b) / d
  {
  }

  lemma GaussStep(m: nat)
    ensures (m * (m - 1)) as real / 2.0 + m as real == ((m + 1) * m) as real / 2.0
  {
    assert m * (m - 1) + 2 * m == (m + 1) * m;
  }

  /** Gauss: the values 0 .. n-1, each divided by d, add up to n(n-1)/2 divided by d. */
  lemma {:induction false} SumOfRange(n: nat, d: real)
    requires d != 0.0
    ensures SumBy(Range(n), Scaled(d)) == ((n * (n - 1)) as real / 2.0) / d
  {
    if n > 0 {
      var m: nat := n - 1;
      SumByAppend<nat>(Range(m), [m], Scaled(d));
      assert Range(n) == Range(m) + [m];
      SumOfRange(m, d);
      assert SumBy<nat>([m], Scaled(d)) == m as real / d;
      DivideSum((m * (m - 1)) as real / 2.0, m as real, d);
      GaussStep(m);
    }
  }

  /**
   * f pairs up the elements of s: it maps s into s and undoes itself there, and the
   * values of g on the two elements of a pair add up to 1.
   */
  predicate PairsUp<T(==)>(s: seq<T>, f: T -> T, g: T -> real)
  {
    Distinct(s)
    && (forall k :: 0 <= k < |s| ==> f(s[k]) in s && f(f(s[k])) == s[k])
    && (forall k :: 0 <= k < |s| ==> g(f(s[k])) == 1.0 - g(s[k]))
  }

  /** When f pairs up the elements of s under g, the sum of g over s is |s|/2. */
  lemma PairedSumIsHalf<T>(s: seq<T>, f: T -> T, g: T -> real)
    requires PairsUp(s, f, g)
    ensures SumBy(s, g) == |s| as real / 2.0
  {
    var partners := Image(s, f);
    InvolutionPermutes(s, f);
    SumByPermutation(partners, s, g);
    SumByComplement(s, g, x => g(f(x)));
    SumByPointwise(s, x => g(f(x)), partners, g);
  }
}
