/** The pieces shared by the two NumPy entropy scorers
    (wordle_buddy/utils/word_scorer_entropy.py and
    wordle_solver/utils/word_scorer_entropy.py): the letter-by-position
    frequency table, its row totals, the three clipped probabilities fed to
    the binary entropy, and the within-word letter counts with the two
    repeated-letter factors. */
module LetterTables {
  import opened Seqs
  import opened Words

  /** `char_freq_table` as a value: entry `[c][p]` is the number of words of
      `bank` holding code `c` at position `p`, for codes below `rows`. */
  function Frequencies(bank: seq<Word>, rows: nat): (r: seq<seq<nat>>)
    ensures |r| == rows
    ensures forall c :: 0 <= c < rows ==> |r[c]| == WordLength
  {
    seq(rows, c requires 0 <= c < rows => seq(WordLength, p requires 0 <= p < WordLength => ColumnCount(bank, p, c)))
  }

  /** Every code of every word of `bank` is a row of a table with `rows` rows. */
  predicate InRange(bank: seq<Word>, rows: nat)
  {
    forall i, p :: 0 <= i < |bank| && 0 <= p < WordLength ==> 0 <= bank[i][p] < rows
  }

  /** A table of `rows` rows of five counts. */
  predicate Shaped(t: seq<seq<nat>>, rows: nat)
  {
    |t| == rows && forall c :: 0 <= c < rows ==> |t[c]| == WordLength
  }

  /** The codes `k .. n-1`. */
  function Codes(k: nat, n: nat): (r: seq<int>)
    ensures |r| == if k <= n then n - k else 0
    ensures forall i :: 0 <= i < |r| ==> r[i] == k + i
    decreases n - k
  {
    if k >= n then [] else [k as int] + Codes(k + 1, n)
  }

  /** The entries of column `p` in the rows `k ..`. */
  function ColumnTotal(t: seq<seq<nat>>, p: nat, k: nat): nat
    requires p < WordLength && Shaped(t, |t|)
    decreases |t| - k
  {
    if k >= |t| then 0 else t[k][p] + ColumnTotal(t, p, k + 1)
  }

  /** Each column of the table counts every word once. */
  lemma ColumnTotalIsSize(bank: seq<Word>, rows: nat, p: nat)
    requires p < WordLength && InRange(bank, rows)
    ensures ColumnTotal(Frequencies(bank, rows), p, 0) == |bank|
  {
    var t := Frequencies(bank, rows);
    ColumnTotalIsColumnSum(bank, rows, p, 0);
    var letters := Codes(0, rows);
    assert Distinct(letters);
    forall i | 0 <= i < |bank| ensures p < |bank[i]| && bank[i][p] in letters {
      assert letters[bank[i][p]] == bank[i][p];
    }
    ColumnSumIsSize(bank, p, letters);
  }

  lemma {:induction false} ColumnTotalIsColumnSum(bank: seq<Word>, rows: nat, p: nat, k: nat)
    requires p < WordLength
    ensures ColumnTotal(Frequencies(bank, rows), p, k) == ColumnSum(bank, p, Codes(k, rows))
    decreases rows - k
  {
    if k < rows {
      ColumnTotalIsColumnSum(bank, rows, p, k + 1);
      assert Codes(k, rows)[1..] == Codes(k + 1, rows);
    }
  }

  /** `np.sum(char_freq_table, axis=1)[c]`: the total count of code `c`. */
  function RowTotal(t: seq<seq<nat>>, c: int): nat
    requires 0 <= c < |t|
  {
    NatSum(t[c])
  }

  /** Copies of `c` over all the words of `bank`. */
  function Copies(bank: seq<Word>, c: int): nat
  {
    if bank == [] then 0 else Copies(bank[..|bank| - 1], c) + Count(bank[|bank| - 1], c)
  }

  /** The row total of a code is its number of copies over the bank, and it
      is at least the count at any one position, so the yellow numerator
      `total[c] - table[c][p]` is never negative. */
  lemma RowTotalIsCopies(bank: seq<Word>, rows: nat, c: int, p: nat)
    requires 0 <= c < rows && p < WordLength
    ensures RowTotal(Frequencies(bank, rows), c) == Copies(bank, c)
    ensures RowTotal(Frequencies(bank, rows), c) >= Frequencies(bank, rows)[c][p]
  {
    var row := Frequencies(bank, rows)[c];
    PrefixSumIsCopies(bank, c, row, WordLength);
    assert row[..WordLength] == row;
    AllCopies(bank, c);
    NatSumBoundsElement(row, p);
  }

  lemma {:induction false} PrefixSumIsCopies(bank: seq<Word>, c: int, row: seq<nat>, n: nat)
    requires |row| == WordLength && n <= WordLength
    requires forall p :: 0 <= p < WordLength ==> row[p] == ColumnCount(bank, p, c)
    ensures NatSum(row[..n]) == CopiesBelow(bank, c, n)
  {
    if n > 0 {
      PrefixSumIsCopies(bank, c, row, n - 1);
      assert row[..n][..n - 1] == row[..n - 1];
      CopiesBelowStep(bank, c, n);
    } else {
      NoCopiesBelow(bank, c);
    }
  }

  /** Copies of `c` among the first `n` letters of the words of `bank`. */
  function CopiesBelow(bank: seq<Word>, c: int, n: nat): nat
    requires n <= WordLength
  {
    if bank == [] then 0 else CopiesBelow(bank[..|bank| - 1], c, n) + CountBelow(bank[|bank| - 1], c, n)
  }

  lemma {:induction false} AllCopies(bank: seq<Word>, c: int)
    ensures CopiesBelow(bank, c, WordLength) == Copies(bank, c)
  {
    if bank != [] {
      AllCopies(bank[..|bank| - 1], c);
    }
  }

  lemma {:induction false} NoCopiesBelow(bank: seq<Word>, c: int)
    ensures CopiesBelow(bank, c, 0) == 0
  {
    if bank != [] {
      NoCopiesBelow(bank[..|bank| - 1], c);
    }
  }

  lemma {:induction false} CopiesBelowStep(bank: seq<Word>, c: int, n: nat)
    requires 0 < n <= WordLength
    ensures CopiesBelow(bank, c, n) == CopiesBelow(bank, c, n - 1) + ColumnCount(bank, n - 1, c)
  {
    if bank != [] {
      CopiesBelowStep(bank[..|bank| - 1], c, n);
    }
  }

  /** `np.clip` to `[epsilon, 1 - epsilon]` with `epsilon = 1e-10`. */
  const Epsilon: real := 0.0000000001

  function Clip(x: real): (r: real)
    ensures Epsilon <= r <= 1.0 - Epsilon
    ensures Epsilon <= x <= 1.0 - Epsilon ==> r == x
    ensures x < Epsilon ==> r == Epsilon
    ensures x > 1.0 - Epsilon ==> r == 1.0 - Epsilon
  {
    if x < Epsilon then Epsilon else if x > 1.0 - Epsilon then 1.0 - Epsilon else x
  }

  /** The share of `n` words that `count` makes. */
  function Share(count: int, n: nat): real
    requires n > 0
  {
    count as real / n as real
  }

  /** `p_green`: the clipped share of words holding `c` at `p`. */
  function PGreen(t: seq<seq<nat>>, n: nat, c: int, p: nat): real
    requires n > 0 && Shaped(t, |t|) && 0 <= c < |t| && p < WordLength
  {
    Clip(Share(t[c][p], n))
  }

  /** `p_yellow`: the clipped share of copies of `c` away from `p`. */
  function PYellow(t: seq<seq<nat>>, n: nat, c: int, p: nat): real
    requires n > 0 && Shaped(t, |t|) && 0 <= c < |t| && p < WordLength
  {
    Clip(Share(RowTotal(t, c) - t[c][p], n))
  }

  /** `p_white`: one less the clipped share of all copies of `c`. */
  function PWhite(t: seq<seq<nat>>, n: nat, c: int): real
    requires n > 0 && 0 <= c < |t|
  {
    Clip(1.0 - Share(RowTotal(t, c), n))
  }

  /** `np.take_along_axis(per_word_char_frequencies, words, axis=1)` for one
      word: the number of copies, within the word, of the letter at each
      position. */
  function LetterCounts(w: Word): (r: seq<nat>)
    ensures |r| == WordLength
    ensures forall p :: 0 <= p < WordLength ==> r[p] == Count(w, w[p])
  {
    seq(WordLength, p requires 0 <= p < WordLength => Count(w, w[p]))
  }

  /** The yellow factor `(1 + 1/k) / 2`. */
  function YellowPenalty(k: nat): real
    requires k > 0
  {
    (1.0 + 1.0 / k as real) / 2.0
  }

  /** The white factor `1/k` (1 where the count is 0). */
  function WhitePenalty(k: nat): real
  {
    if k > 0 then 1.0 / k as real else 1.0
  }

  /** Every letter of a word occurs in it at least once, so both factors are
      defined; they are 1 for a letter that occurs once and shrink for a
      repeated one. */
  lemma PenaltiesOfCounts(w: Word, p: nat)
    requires p < WordLength
    ensures LetterCounts(w)[p] >= 1
    ensures LetterCounts(w)[p] == 1 ==> YellowPenalty(1) == 1.0 && WhitePenalty(1) == 1.0
    ensures LetterCounts(w)[p] > 1 ==> 0.5 < YellowPenalty(LetterCounts(w)[p]) < 1.0
    ensures LetterCounts(w)[p] > 1 ==> 0.0 < WhitePenalty(LetterCounts(w)[p]) < 1.0
  {
    CountPositive(w, w[p]);
    var k := LetterCounts(w)[p];
    if k > 1 {
      assert 1.0 / k as real < 1.0;
    }
  }
}
