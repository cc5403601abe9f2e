/** The game's feedback rule: the two-pass green/yellow/white evaluation of a
    guess against a secret word (gui.py, `GUIApp.submit_guess`), stated as a
    closed-form reference, and the colour names the NumPy managers consume. */
module Feedback {
  import opened Seqs

  /** Feedback colours as the NumPy word-bank managers receive them
      ('green', 'yellow', 'gray'). */
  datatype Color = Green | Yellow | Gray

  /** The terminal front end's map from g/y/w letters to colour names
      (`format_feedback`); any other letter is a KeyError there. */
  function FormatFeedback(marks: string): (r: seq<Color>)
    requires forall i :: 0 <= i < |marks| ==> marks[i] in "gyw"
    ensures |r| == |marks|
    ensures forall i :: 0 <= i < |marks| ==>
      (r[i] == Green <==> marks[i] == 'g') && (r[i] == Yellow <==> marks[i] == 'y') && (r[i] == Gray <==> marks[i] == 'w')
  {
    seq(|marks|, i requires 0 <= i < |marks| => if marks[i] == 'g' then Green else if marks[i] == 'y' then Yellow else Gray)
  }

  /** Positions below `n` where guess and secret both hold `c` (greens on `c`). */
  function Greens<T(==)>(s: seq<T>, g: seq<T>, c: T, n: nat): nat
    requires n <= |s| == |g|
  {
    if n == 0 then 0 else Greens(s, g, c, n - 1) + (if g[n - 1] == c && s[n - 1] == c then 1 else 0)
  }

  /** Positions below `n` where the guess holds `c` and the secret does not:
      the occurrences of `c` that the second pass has to decide. */
  function Misses<T(==)>(s: seq<T>, g: seq<T>, c: T, n: nat): nat
    requires n <= |s| == |g|
  {
    if n == 0 then 0 else Misses(s, g, c, n - 1) + (if g[n - 1] == c && s[n - 1] != c then 1 else 0)
  }

  /** Positions below `n` where the secret holds `c` and the guess does not:
      the copies of `c` still in the pool after the first pass. */
  function Spare<T(==)>(s: seq<T>, g: seq<T>, c: T, n: nat): nat
    requires n <= |s| == |g|
  {
    if n == 0 then 0 else Spare(s, g, c, n - 1) + (if s[n - 1] == c && g[n - 1] != c then 1 else 0)
  }

  /** The mark of position `i`: green on an exact match; otherwise yellow when
      fewer earlier unmatched occurrences of the letter have claimed a copy
      than the pool holds, white when the pool is used up. */
  function Mark<T(==)>(s: seq<T>, g: seq<T>, i: nat): char
    requires |s| == |g| && i < |g|
  {
    if g[i] == s[i] then 'g'
    else if Misses(s, g, g[i], i) < Spare(s, g, g[i], |s|) then 'y'
    else 'w'
  }

  /** The feedback string for `guess` against `secret`. */
  function Oracle<T(==)>(secret: seq<T>, guess: seq<T>): (r: string)
    requires |secret| == |guess|
    ensures |r| == |guess|
    ensures forall i :: 0 <= i < |guess| ==> r[i] in "gyw"
    ensures forall i :: 0 <= i < |guess| ==> (r[i] == 'g' <==> guess[i] == secret[i])
  {
    seq(|guess|, i requires 0 <= i < |guess| => Mark(secret, guess, i))
  }

  /** The colours a NumPy manager receives for `guess` against `secret`. */
  function Evaluate<T(==)>(secret: seq<T>, guess: seq<T>): (r: seq<Color>)
    requires |secret| == |guess|
    ensures |r| == |guess|
    ensures forall i :: 0 <= i < |guess| ==> (r[i] == Green <==> guess[i] == secret[i])
  {
    FormatFeedback(Oracle(secret, guess))
  }

  /** Every copy of `c` in the secret is either matched in place or in the pool. */
  lemma {:induction false} SecretSplit<T>(s: seq<T>, g: seq<T>, c: T, n: nat)
    requires n <= |s| == |g|
    ensures CountBelow(s, c, n) == Greens(s, g, c, n) + Spare(s, g, c, n)
  {
    if n > 0 {
      SecretSplit(s, g, c, n - 1);
    }
  }

  lemma {:induction false} MissesMonotone<T>(s: seq<T>, g: seq<T>, c: T, n: nat, m: nat)
    requires n <= m <= |s| == |g|
    ensures Misses(s, g, c, n) <= Misses(s, g, c, m)
    decreases m - n
  {
    if n < m {
      MissesMonotone(s, g, c, n, m - 1);
    }
  }

  /** The green marks on `c` are the exact matches of `c`. */
  lemma {:induction false} GreenMarks<T>(s: seq<T>, g: seq<T>, c: T, n: nat)
    requires n <= |s| == |g|
    ensures MarkCount(g, Oracle(s, g), c, 'g', n) == Greens(s, g, c, n)
  {
    if n > 0 {
      GreenMarks(s, g, c, n - 1);
    }
  }

  /** The yellow marks on `c` among the first `n` positions: as many unmatched
      occurrences as the pool can serve. */
  lemma {:induction false} YellowMarks<T>(s: seq<T>, g: seq<T>, c: T, n: nat)
    requires n <= |s| == |g|
    ensures MarkCount(g, Oracle(s, g), c, 'y', n) == Min(Misses(s, g, c, n), Spare(s, g, c, |s|))
  {
    if n > 0 {
      YellowMarks(s, g, c, n - 1);
      var o := Oracle(s, g);
      assert o[n - 1] == Mark(s, g, n - 1);
    }
  }

  /** The green and yellow marks on a letter never exceed its copies in the
      secret: the pool never goes negative. */
  lemma CreditedAtMostCount<T>(secret: seq<T>, guess: seq<T>, c: T)
    requires |secret| == |guess|
    ensures MarkCount(guess, Oracle(secret, guess), c, 'g', |guess|)
          + MarkCount(guess, Oracle(secret, guess), c, 'y', |guess|) <= Count(secret, c)
  {
    GreenMarks(secret, guess, c, |guess|);
    YellowMarks(secret, guess, c, |guess|);
    SecretSplit(secret, guess, c, |secret|);
  }

  /** A white mark on `c` means every copy of `c` in the secret has already
      been credited green or yellow. */
  lemma WhiteMeansExhausted<T>(secret: seq<T>, guess: seq<T>, c: T, i: nat)
    requires |secret| == |guess| && i < |guess| && guess[i] == c && Oracle(secret, guess)[i] == 'w'
    ensures MarkCount(guess, Oracle(secret, guess), c, 'g', |guess|)
          + MarkCount(guess, Oracle(secret, guess), c, 'y', |guess|) == Count(secret, c)
    ensures Misses(secret, guess, c, |guess|) > Spare(secret, guess, c, |guess|)
  {
    assert Oracle(secret, guess)[i] == Mark(secret, guess, i);
    MissesMonotone(secret, guess, c, i + 1, |guess|);
    GreenMarks(secret, guess, c, |guess|);
    YellowMarks(secret, guess, c, |guess|);
    SecretSplit(secret, guess, c, |secret|);
  }

  /** A yellow mark is off its position and its letter occurs in the secret. */
  lemma YellowMeansElsewhere<T>(secret: seq<T>, guess: seq<T>, i: nat)
    requires |secret| == |guess| && i < |guess| && Oracle(secret, guess)[i] == 'y'
    ensures guess[i] != secret[i]
    ensures guess[i] in secret
    ensures Spare(secret, guess, guess[i], |secret|) > 0
  {
    assert Oracle(secret, guess)[i] == Mark(secret, guess, i);
    SecretSplit(secret, guess, guess[i], |secret|);
    CountPositive(secret, guess[i]);
  }

  /** A single-occurrence letter marked white is absent from the secret. */
  lemma LoneWhiteMeansAbsent<T>(secret: seq<T>, guess: seq<T>, i: nat)
    requires |secret| == |guess| && i < |guess| && Oracle(secret, guess)[i] == 'w'
    requires Count(guess, guess[i]) == 1
    ensures guess[i] !in secret
  {
    var c := guess[i];
    assert Oracle(secret, guess)[i] == Mark(secret, guess, i);
    MissesBelowCount(secret, guess, c, i);
    CountBelowSplit(guess, c, i);
    GreensBelowCount(secret, guess, c, |guess|);
    GreensNotAt(secret, guess, c, i, |guess|);
    SecretSplit(secret, guess, c, |secret|);
    CountPositive(secret, c);
  }

  lemma {:induction false} MissesBelowCount<T>(s: seq<T>, g: seq<T>, c: T, n: nat)
    requires n <= |s| == |g|
    ensures Misses(s, g, c, n) <= CountBelow(g, c, n)
  {
    if n > 0 {
      MissesBelowCount(s, g, c, n - 1);
    }
  }

  lemma {:induction false} GreensBelowCount<T>(s: seq<T>, g: seq<T>, c: T, n: nat)
    requires n <= |s| == |g|
    ensures Greens(s, g, c, n) <= CountBelow(g, c, n)
  {
    if n > 0 {
      GreensBelowCount(s, g, c, n - 1);
    }
  }

  /** The occurrences of `c` in `g` split into those below `i`, the one at `i`
      and those after it. */
  lemma {:induction false} CountBelowSplit<T>(g: seq<T>, c: T, i: nat)
    requires i < |g| && g[i] == c
    ensures CountBelow(g, c, i) + 1 <= Count(g, c)
  {
    CountBelowMonotone(g, c, i + 1, |g|);
  }

  lemma {:induction false} CountBelowMonotone<T>(g: seq<T>, c: T, n: nat, m: nat)
    requires n <= m <= |g|
    ensures CountBelow(g, c, n) <= CountBelow(g, c, m)
    decreases m - n
  {
    if n < m {
      CountBelowMonotone(g, c, n, m - 1);
    }
  }

  /** When position `i` holds `c` unmatched, the greens on `c` leave room for it. */
  lemma {:induction false} GreensNotAt<T>(s: seq<T>, g: seq<T>, c: T, i: nat, n: nat)
    requires n <= |s| == |g| && i < |g| && g[i] == c && s[i] != c
    ensures i < n ==> Greens(s, g, c, n) + 1 <= CountBelow(g, c, n)
  {
    if n > 0 && i < n {
      if i < n - 1 {
        GreensNotAt(s, g, c, i, n - 1);
      } else {
        GreensBelowCount(s, g, c, n - 1);
      }
    }
  }

  /** Every guess symbol is one of the three colours, so the marks on `c`
      account for all occurrences of `c`. */
  lemma {:induction false} ColorsPartition<T>(g: seq<T>, info: seq<Color>, c: T, n: nat)
    requires n <= |g| && n <= |info|
    ensures CountBelow(g, c, n) == MarkCount(g, info, c, Green, n) + MarkCount(g, info, c, Yellow, n) + MarkCount(g, info, c, Gray, n)
  {
    if n > 0 {
      ColorsPartition(g, info, c, n - 1);
      assert info[n - 1].Green? || info[n - 1].Yellow? || info[n - 1].Gray?;
    }
  }

  /** Colour counts of the formatted feedback are the letter counts of the string. */
  lemma {:induction false} FormatFeedbackCounts<T>(g: seq<T>, marks: string, c: T, n: nat)
    requires n <= |g| && n <= |marks|
    requires forall i :: 0 <= i < |marks| ==> marks[i] in "gyw"
    ensures MarkCount(g, FormatFeedback(marks), c, Green, n) == MarkCount(g, marks, c, 'g', n)
    ensures MarkCount(g, FormatFeedback(marks), c, Yellow, n) == MarkCount(g, marks, c, 'y', n)
    ensures MarkCount(g, FormatFeedback(marks), c, Gray, n) == MarkCount(g, marks, c, 'w', n)
  {
    if n > 0 {
      FormatFeedbackCounts(g, marks, c, n - 1);
    }
  }

  /** A copy of `c` left in the pool sits at a position the guess does not match. */
  lemma {:induction false} SpareWitness<T>(s: seq<T>, g: seq<T>, c: T, n: nat)
    requires n <= |s| == |g| && Spare(s, g, c, n) > 0
    ensures exists j :: 0 <= j < n && s[j] == c && g[j] != c
  {
    if !(s[n - 1] == c && g[n - 1] != c) {
      SpareWitness(s, g, c, n - 1);
    }
  }
}
