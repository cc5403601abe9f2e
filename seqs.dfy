/** Sequence utilities shared by the word-bank models: order-preserving
    filtering (NumPy boolean masks and list comprehensions), counting and
    summation. */
module Seqs {

  /** `a` can be obtained from `b` by deleting elements, keeping the order. */
  predicate IsSubsequence<T(==)>(a: seq<T>, b: seq<T>)
    decreases |b|
  {
    a == [] || (b != [] && ((a[0] == b[0] && IsSubsequence(a[1..], b[1..])) || IsSubsequence(a, b[1..])))
  }

  /** The elements of `s` that satisfy `p`, in their original order. */
  function Filter<T(==,!new)>(s: seq<T>, p: T -> bool): (r: seq<T>)
    ensures |r| <= |s|
    ensures forall x :: x in r <==> x in s && p(x)
  {
    if s == [] then [] else (if p(s[0]) then [s[0]] else []) + Filter(s[1..], p)
  }

  /** A filtered sequence keeps the surviving elements in their original order. */
  lemma {:induction false} FilterIsSubsequence<T(!new)>(s: seq<T>, p: T -> bool)
    ensures IsSubsequence(Filter(s, p), s)
  {
    if s != [] {
      FilterIsSubsequence(s[1..], p);
      var r := Filter(s, p);
      if p(s[0]) {
        assert r == [s[0]] + Filter(s[1..], p);
        assert r[0] == s[0] && r[1..] == Filter(s[1..], p);
      } else {
        assert r == Filter(s[1..], p);
      }
    }
  }

  /** Two filters in a row are one filter by the conjunction of their predicates. */
  lemma {:induction false} FilterFilter<T(!new)>(s: seq<T>, p: T -> bool, q: T -> bool, r: T -> bool)
    requires forall x :: r(x) == (p(x) && q(x))
    ensures Filter(Filter(s, p), q) == Filter(s, r)
  {
    if s != [] {
      FilterFilter(s[1..], p, q, r);
      if p(s[0]) {
        assert Filter(s, p) == [s[0]] + Filter(s[1..], p);
        assert Filter(s, p)[1..] == Filter(s[1..], p);
      } else {
        assert Filter(s, p) == Filter(s[1..], p);
      }
    }
  }

  /** Filtering depends only on the values of the predicate. */
  lemma {:induction false} FilterExt<T(!new)>(s: seq<T>, p: T -> bool, q: T -> bool)
    requires forall x :: p(x) == q(x)
    ensures Filter(s, p) == Filter(s, q)
  {
    if s != [] {
      FilterExt(s[1..], p, q);
    }
  }

  /** Occurrences of `x` among the first `n` elements of `s`. */
  function CountBelow<T(==)>(s: seq<T>, x: T, n: nat): nat
    requires n <= |s|
  {
    if n == 0 then 0 else CountBelow(s, x, n - 1) + (if s[n - 1] == x then 1 else 0)
  }

  /** Occurrences of `x` in `s` (Python's `list.count`, `str.count`). */
  function Count<T(==)>(s: seq<T>, x: T): nat
  {
    CountBelow(s, x, |s|)
  }

  lemma {:induction false} CountBelowPositive<T>(s: seq<T>, x: T, n: nat)
    requires n <= |s|
    ensures CountBelow(s, x, n) > 0 <==> exists j :: 0 <= j < n && s[j] == x
  {
    if n > 0 {
      CountBelowPositive(s, x, n - 1);
    }
  }

  /** A value occurs in a sequence exactly when its count is positive. */
  lemma CountPositive<T>(s: seq<T>, x: T)
    ensures Count(s, x) > 0 <==> x in s
  {
    CountBelowPositive(s, x, |s|);
  }

  lemma {:induction false} CountBelowBound<T>(s: seq<T>, x: T, n: nat)
    requires n <= |s|
    ensures CountBelow(s, x, n) <= n
  {
    if n > 0 {
      CountBelowBound(s, x, n - 1);
    }
  }

  lemma {:induction false} CountBelowPrefix<T>(s: seq<T>, t: seq<T>, x: T, n: nat)
    requires n <= |s| && n <= |t| && s[..n] == t[..n]
    ensures CountBelow(s, x, n) == CountBelow(t, x, n)
  {
    if n > 0 {
      assert s[n - 1] == s[..n][n - 1] == t[..n][n - 1] == t[n - 1];
      assert s[..n - 1] == s[..n][..n - 1] == t[..n][..n - 1] == t[..n - 1];
      CountBelowPrefix(s, t, x, n - 1);
    }
  }

  /** Number of positions below `n` whose element is `c` and whose mark is `m`
      (how many times letter `c` of a guess received feedback `m`). */
  function MarkCount<T(==), M(==)>(word: seq<T>, marks: seq<M>, c: T, m: M, n: nat): nat
    requires n <= |word| && n <= |marks|
  {
    if n == 0 then 0
    else MarkCount(word, marks, c, m, n - 1) + (if word[n - 1] == c && marks[n - 1] == m then 1 else 0)
  }

  /** Number of words of `bank` holding `c` at position `p`. */
  function ColumnCount<T(==)>(bank: seq<seq<T>>, p: nat, c: T): (r: nat)
    ensures r <= |bank|
  {
    if bank == [] then 0
    else ColumnCount(bank[..|bank| - 1], p, c) + (if p < |bank[|bank| - 1]| && bank[|bank| - 1][p] == c then 1 else 0)
  }

  /** A letter has a positive count at `p` exactly when some word holds it there. */
  lemma {:induction false} ColumnCountPositive<T>(bank: seq<seq<T>>, p: nat, c: T)
    ensures ColumnCount(bank, p, c) > 0 <==> exists i :: 0 <= i < |bank| && p < |bank[i]| && bank[i][p] == c
  {
    if bank != [] {
      var init := bank[..|bank| - 1];
      ColumnCountPositive(init, p, c);
      if ColumnCount(init, p, c) > 0 {
        var i :| 0 <= i < |init| && p < |init[i]| && init[i][p] == c;
        assert bank[i] == init[i];
      }
      if exists i :: 0 <= i < |bank| && p < |bank[i]| && bank[i][p] == c {
        var i :| 0 <= i < |bank| && p < |bank[i]| && bank[i][p] == c;
        if i < |init| {
          assert init[i] == bank[i];
        }
      }
    }
  }

  /** Sum over the letters of `letters` of their counts at position `p`. */
  function ColumnSum<T(==)>(bank: seq<seq<T>>, p: nat, letters: seq<T>): nat
  {
    if letters == [] then 0 else ColumnCount(bank, p, letters[0]) + ColumnSum(bank, p, letters[1..])
  }

  predicate Distinct<T(==)>(s: seq<T>)
  {
    forall i, j :: 0 <= i < j < |s| ==> s[i] != s[j]
  }

  lemma {:induction false} IndicatorSum<T>(bank: seq<seq<T>>, w: seq<T>, p: nat, letters: seq<T>)
    requires bank != [] && w == bank[|bank| - 1] && p < |w| && Distinct(letters)
    ensures ColumnSum(bank, p, letters) == ColumnSum(bank[..|bank| - 1], p, letters) + (if w[p] in letters then 1 else 0)
  {
    if letters != [] {
      IndicatorSum(bank, w, p, letters[1..]);
      assert w[p] in letters <==> w[p] == letters[0] || w[p] in letters[1..];
      assert w[p] == letters[0] ==> w[p] !in letters[1..];
    }
  }

  /** When every word has its letter at `p` listed exactly once in `letters`,
      the counts at `p` add up to the number of words. */
  lemma {:induction false} ColumnSumIsSize<T>(bank: seq<seq<T>>, p: nat, letters: seq<T>)
    requires Distinct(letters)
    requires forall i :: 0 <= i < |bank| ==> p < |bank[i]| && bank[i][p] in letters
    ensures ColumnSum(bank, p, letters) == |bank|
  {
    if bank == [] {
      ZeroColumnSum(p, letters);
    } else {
      var init := bank[..|bank| - 1];
      forall i | 0 <= i < |init| ensures p < |init[i]| && init[i][p] in letters {
        assert init[i] == bank[i];
      }
      ColumnSumIsSize(init, p, letters);
      IndicatorSum(bank, bank[|bank| - 1], p, letters);
    }
  }

  lemma {:induction false} ZeroColumnSum<T>(p: nat, letters: seq<T>)
    ensures ColumnSum([], p, letters) == 0
  {
    if letters != [] {
      ZeroColumnSum(p, letters[1..]);
    }
  }

  /** Sum of a sequence of reals (NumPy `sum`). */
  function Sum(s: seq<real>): real
  {
    if s == [] then 0.0 else Sum(s[..|s| - 1]) + s[|s| - 1]
  }

  /** A sequence of zeros sums to zero. */
  lemma {:induction false} SumOfZeros(s: seq<real>)
    requires forall i :: 0 <= i < |s| ==> s[i] == 0.0
    ensures Sum(s) == 0.0
  {
    if s != [] {
      SumOfZeros(s[..|s| - 1]);
    }
  }

  /** Scaling every term scales the sum. */
  lemma {:induction false} SumScale(s: seq<real>, t: seq<real>, c: real)
    requires |s| == |t| && forall i :: 0 <= i < |s| ==> t[i] == s[i] * c
    ensures Sum(t) == Sum(s) * c
  {
    if s != [] {
      var n := |s| - 1;
      SumScale(s[..n], t[..n], c);
      assert Sum(t) == Sum(s[..n]) * c + s[n] * c;
      assert Sum(s[..n]) * c + s[n] * c == (Sum(s[..n]) + s[n]) * c;
    }
  }

  /** Sum of a sequence of naturals. */
  function NatSum(s: seq<nat>): nat
  {
    if s == [] then 0 else NatSum(s[..|s| - 1]) + s[|s| - 1]
  }

  lemma {:induction false} NatSumBoundsElement(s: seq<nat>, i: nat)
    requires i < |s|
    ensures s[i] <= NatSum(s)
  {
    if i < |s| - 1 {
      NatSumBoundsElement(s[..|s| - 1], i);
    }
  }

  function Min(a: int, b: int): int
  {
    if a <= b then a else b
  }

  function Max(a: int, b: int): int
  {
    if a >= b then a else b
  }

  /** The elements of `s` in reverse order (`[::-1]`). */
  function Reverse<T>(s: seq<T>): (r: seq<T>)
    ensures |r| == |s|
    ensures forall i :: 0 <= i < |s| ==> r[i] == s[|s| - 1 - i]
  {
    seq(|s|, i requires 0 <= i < |s| => s[|s| - 1 - i])
  }

  /** Python's `s[:n]`: a negative bound counts from the end. */
  function SliceTo<T>(s: seq<T>, n: int): (r: seq<T>)
    ensures n >= 0 ==> r == s[..Min(n, |s|)]
    ensures n < 0 ==> r == s[..Max(|s| + n, 0)]
  {
    if n >= 0 then s[..Min(n, |s|)] else s[..Max(|s| + n, 0)]
  }

  /** Positions below `n` where `s` holds `x`, in increasing order
      (`[i for i, c in enumerate(s) if c == x]`). */
  function IndicesBelow<T(==)>(s: seq<T>, x: T, n: nat): (r: seq<nat>)
    requires n <= |s|
    ensures |r| == CountBelow(s, x, n)
    ensures forall k :: 0 <= k < |r| ==> r[k] < n && s[r[k]] == x
    ensures forall i :: 0 <= i < n && s[i] == x ==> i in r
    ensures forall k, l :: 0 <= k < l < |r| ==> r[k] < r[l]
  {
    if n == 0 then [] else IndicesBelow(s, x, n - 1) + (if s[n - 1] == x then [n - 1] else [])
  }

  /** All positions where `s` holds `x`. */
  function Indices<T(==)>(s: seq<T>, x: T): (r: seq<nat>)
    ensures |r| == Count(s, x)
    ensures forall k :: 0 <= k < |r| ==> r[k] < |s| && s[r[k]] == x
    ensures forall i :: 0 <= i < |s| && s[i] == x ==> i in r
  {
    IndicesBelow(s, x, |s|)
  }

  /** The elements of `s` at the positions `idx` (`[s[i] for i in idx]`). */
  function Pick<T>(s: seq<T>, idx: seq<nat>): (r: seq<T>)
    requires forall k :: 0 <= k < |idx| ==> idx[k] < |s|
    ensures |r| == |idx|
    ensures forall k :: 0 <= k < |idx| ==> r[k] == s[idx[k]]
  {
    seq(|idx|, k requires 0 <= k < |idx| => s[idx[k]])
  }

  lemma CountSnoc<T>(s: seq<T>, y: T, x: T)
    ensures Count(s + [y], x) == Count(s, x) + (if y == x then 1 else 0)
  {
    CountBelowPrefix(s + [y], s, x, |s|);
  }

  lemma PickSnoc<T>(s: seq<T>, idx: seq<nat>, j: nat)
    requires j < |s| && forall k :: 0 <= k < |idx| ==> idx[k] < |s|
    ensures Pick(s, idx + [j]) == Pick(s, idx) + [s[j]]
  {
    var a, b := Pick(s, idx + [j]), Pick(s, idx) + [s[j]];
    forall k | 0 <= k < |a| ensures a[k] == b[k] {
      if k < |idx| {
        assert (idx + [j])[k] == idx[k];
      }
    }
  }

  /** Counting `m` among the marks of the occurrences of `c` is counting how
      often `c` received mark `m`. */
  lemma {:induction false} PickCount<T, M>(word: seq<T>, marks: seq<M>, c: T, m: M, n: nat)
    requires n <= |word| == |marks|
    ensures Count(Pick(marks, IndicesBelow(word, c, n)), m) == MarkCount(word, marks, c, m, n)
  {
    if n > 0 {
      PickCount(word, marks, c, m, n - 1);
      PickCountStep(word, marks, c, m, n, IndicesBelow(word, c, n - 1), IndicesBelow(word, c, n));
    }
  }

  /** One more position: its mark is counted when it holds `c`. */
  lemma PickCountStep<T, M>(word: seq<T>, marks: seq<M>, c: T, m: M, n: nat, prev: seq<nat>, cur: seq<nat>)
    requires 0 < n <= |word| == |marks|
    requires forall k :: 0 <= k < |prev| ==> prev[k] < n - 1
    requires cur == if word[n - 1] == c then prev + [n - 1] else prev
    requires Count(Pick(marks, prev), m) == MarkCount(word, marks, c, m, n - 1)
    ensures forall k :: 0 <= k < |cur| ==> cur[k] < |marks|
    ensures Count(Pick(marks, cur), m) == MarkCount(word, marks, c, m, n)
  {
    if word[n - 1] == c {
      PickSnoc(marks, prev, n - 1);
      CountSnoc(Pick(marks, prev), marks[n - 1], m);
    }
  }

  /** A filter that every element passes changes nothing. */
  lemma {:induction false} FilterAll<T(!new)>(s: seq<T>, p: T -> bool)
    requires forall x :: p(x)
    ensures Filter(s, p) == s
  {
    if s != [] {
      FilterAll(s[1..], p);
    }
  }

  /** Some position below `n` holds `c` with mark `m` exactly when the count is positive. */
  lemma {:induction false} MarkCountPositive<T, M>(word: seq<T>, marks: seq<M>, c: T, m: M, n: nat)
    requires n <= |word| && n <= |marks|
    ensures MarkCount(word, marks, c, m, n) > 0 <==> exists i :: 0 <= i < n && word[i] == c && marks[i] == m
  {
    if n > 0 {
      MarkCountPositive(word, marks, c, m, n - 1);
    }
  }

  lemma {:induction false} ReverseMultiset<T>(s: seq<T>)
    ensures multiset(Reverse(s)) == multiset(s)
  {
    if s != [] {
      var init := s[..|s| - 1];
      ReverseMultiset(init);
      assert Reverse(s) == [s[|s| - 1]] + Reverse(init);
      assert s == init + [s[|s| - 1]];
    }
  }
}
