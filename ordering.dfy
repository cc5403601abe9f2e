/** Python's ordering of strings (by code point, a proper prefix first) and of
    the `(score, word)` and `(word, score)` tuples the guess helper sorts and
    keeps in heaps; and `sorted` for the `(word, score)` lists. */
module Ordering {
  import Seqs

  /** `a < b` on Python strings. */
  predicate StrLt(a: string, b: string)
    decreases |a|
  {
    if a == [] then b != []
    else b != [] && (a[0] < b[0] || (a[0] == b[0] && StrLt(a[1..], b[1..])))
  }

  lemma {:induction false} StrLtIrreflexive(a: string)
    ensures !StrLt(a, a)
    decreases |a|
  {
    if a != [] {
      StrLtIrreflexive(a[1..]);
    }
  }

  lemma {:induction false} StrLtTransitive(a: string, b: string, c: string)
    requires StrLt(a, b) && StrLt(b, c)
    ensures StrLt(a, c)
    decreases |a|
  {
    if a != [] && a[0] == b[0] && b[0] == c[0] {
      StrLtTransitive(a[1..], b[1..], c[1..]);
    }
  }

  /** Distinct strings are ordered one way or the other. */
  lemma {:induction false} StrLtTotal(a: string, b: string)
    requires a != b
    ensures StrLt(a, b) || StrLt(b, a)
    decreases |a|
  {
    if a != [] && b != [] && a[0] == b[0] {
      assert a == [a[0]] + a[1..] && b == [b[0]] + b[1..];
      StrLtTotal(a[1..], b[1..]);
    }
  }

  /** A heap entry `(score, word)`. */
  type Entry = (real, string)

  /** Python's `<` on `(score, word)` tuples. */
  predicate EntryLt(a: Entry, b: Entry)
  {
    a.0 < b.0 || (a.0 == b.0 && StrLt(a.1, b.1))
  }

  predicate EntryLe(a: Entry, b: Entry)
  {
    a == b || EntryLt(a, b)
  }

  /** Entries are totally ordered: `<=` is total and transitive. */
  lemma EntryLeTotal(a: Entry, b: Entry)
    ensures EntryLe(a, b) || EntryLe(b, a)
  {
    if a.0 == b.0 && a.1 != b.1 {
      StrLtTotal(a.1, b.1);
    }
  }

  lemma EntryLeTransitive(a: Entry, b: Entry, c: Entry)
    requires EntryLe(a, b) && EntryLe(b, c)
    ensures EntryLe(a, c)
  {
    if a != b && b != c && a.0 == b.0 && b.0 == c.0 {
      StrLtTransitive(a.1, b.1, c.1);
    }
  }

  /** An output pair `(word, score)`. */
  type Pair = (string, real)

  /** Python's `<` on `(word, score)` tuples. */
  predicate PairLt(a: Pair, b: Pair)
  {
    StrLt(a.0, b.0) || (a.0 == b.0 && a.1 < b.1)
  }

  predicate PairLe(a: Pair, b: Pair)
  {
    a == b || PairLt(a, b)
  }

  lemma PairLeTotal(a: Pair, b: Pair)
    ensures PairLe(a, b) || PairLe(b, a)
  {
    if a.0 != b.0 {
      StrLtTotal(a.0, b.0);
    }
  }

  lemma PairLeTransitive(a: Pair, b: Pair, c: Pair)
    requires PairLe(a, b) && PairLe(b, c)
    ensures PairLe(a, c)
  {
    if a != b && b != c {
      if StrLt(a.0, b.0) && StrLt(b.0, c.0) {
        StrLtTransitive(a.0, b.0, c.0);
      }
    }
  }

  predicate SortedAsc(s: seq<Pair>)
  {
    forall i, j :: 0 <= i < j < |s| ==> PairLe(s[i], s[j])
  }

  predicate SortedDesc(s: seq<Pair>)
  {
    forall i, j :: 0 <= i < j < |s| ==> PairLe(s[j], s[i])
  }

  /** `x` inserted into the ascending `s` before the first larger element. */
  function Insert(x: Pair, s: seq<Pair>): (r: seq<Pair>)
    requires SortedAsc(s)
    ensures SortedAsc(r)
    ensures multiset(r) == multiset(s) + multiset{x}
  {
    if s == [] then [x]
    else if PairLe(x, s[0]) then
      assert forall j :: 0 <= j < |s| ==> PairLe(x, s[j]) by {
        forall j | 0 <= j < |s| ensures PairLe(x, s[j]) {
          PairLeTransitive(x, s[0], s[j]);
        }
      }
      [x] + s
    else
      PairLeTotal(x, s[0]);
      var rest := Insert(x, s[1..]);
      InsertBehind(x, s, rest);
      [s[0]] + rest
  }

  /** The head of `s` in front of `x` inserted into the rest of `s`: still
      ascending, since the head is no larger than `x` or anything after it. */
  lemma InsertBehind(x: Pair, s: seq<Pair>, rest: seq<Pair>)
    requires s != [] && SortedAsc(s) && PairLe(s[0], x)
    requires SortedAsc(rest) && multiset(rest) == multiset(s[1..]) + multiset{x}
    ensures SortedAsc([s[0]] + rest)
    ensures multiset([s[0]] + rest) == multiset(s) + multiset{x}
  {
    assert s == [s[0]] + s[1..];
    forall k | 0 <= k < |rest| ensures PairLe(s[0], rest[k]) {
      assert rest[k] in multiset(rest);
      if rest[k] != x {
        assert rest[k] in multiset(s[1..]);
        var j :| 0 <= j < |s[1..]| && s[1..][j] == rest[k];
        assert s[j + 1] == rest[k];
      }
    }
    var r := [s[0]] + rest;
    forall i, j | 0 <= i < j < |r| ensures PairLe(r[i], r[j]) {
      if i > 0 {
        assert r[i] == rest[i - 1] && r[j] == rest[j - 1];
      }
    }
  }

  /** `sorted(s)`: ascending, the same elements. */
  function SortAsc(s: seq<Pair>): (r: seq<Pair>)
    ensures SortedAsc(r)
    ensures multiset(r) == multiset(s)
  {
    if s == [] then []
    else
      assert s == s[..|s| - 1] + [s[|s| - 1]];
      Insert(s[|s| - 1], SortAsc(s[..|s| - 1]))
  }

  /** `sorted(s, reverse=True)`: descending, the same elements. */
  function SortDesc(s: seq<Pair>): (r: seq<Pair>)
    ensures SortedDesc(r)
    ensures multiset(r) == multiset(s)
  {
    var a := SortAsc(s);
    Seqs.ReverseMultiset(a);
    Seqs.Reverse(a)
  }
}
