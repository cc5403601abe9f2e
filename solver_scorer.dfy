/** The entropy scorer of the `wordle_solver` package
    (wordle_solver/utils/word_scorer_entropy.py). Unlike the `wordle_buddy`
    scorer it keeps a snapshot of a bank taken by `toggle_mode`, counts its
    frequency table, held in a fixed array, over that snapshot, scores the
    rows of the possible bank, scales only repeated letters, and multiplies
    every entry by the answer weight. The binary entropy is the parameter
    `H`. */
module SolverScorer {
  import opened Seqs
  import opened Words
  import opened Outcomes
  import opened Feedback
  import opened LetterTables
  import opened Hyperparameters
  import opened SolverWordBank

  /** `np.where(repeated_mask, yellow_penalty * white_penalty, 1)`: the two
      factors multiplied together, for a letter that occurs more than once. */
  function RepeatFactor(k: nat): real
  {
    if k > 1 then YellowPenalty(k) * WhitePenalty(k) else 1.0
  }

  /** A letter met once is left alone; a repeated one is scaled strictly
      between 0 and 1/2. */
  lemma RepeatFactorRange(k: nat)
    ensures k <= 1 ==> RepeatFactor(k) == 1.0
    ensures k > 1 ==> 0.0 < RepeatFactor(k) < 0.5
  {
    if k > 1 {
      var y, w := YellowPenalty(k), WhitePenalty(k);
      assert 0.5 < y < 1.0;
      assert 0.0 < w <= 0.5 by {
        assert k as real >= 2.0;
      }
      assert y * w < 1.0 * w;
    }
  }

  /** `1 + answer_weight_base * (1 + attempt_num / max_guesses)`: every row
      of the possible bank is a potential answer, so every entry gets it. */
  function AnswerFactor(base: real, attemptNum: int, maxGuesses: int): real
    requires maxGuesses != 0
  {
    1.0 + base * (1.0 + attemptNum as real / maxGuesses as real)
  }

  /** `entropy * repeat_factor * answer_factor`, in the order numpy applies them. */
  function Scaled(entropy: real, repeatFactor: real, answerFactor: real): real
  {
    entropy * repeatFactor * answerFactor
  }

  /** The entry of position `p` of `w`: the green, yellow and white entropies
      of its letter summed, then scaled. */
  function PositionEntropy(H: real -> real, t: seq<seq<nat>>, n: nat, w: Word, p: nat, answerFactor: real): real
    requires n > 0 && Shaped(t, |t|) && p < WordLength && 0 <= w[p] < |t|
  {
    var c := w[p];
    Scaled(H(PGreen(t, n, c, p)) + H(PYellow(t, n, c, p)) + H(PWhite(t, n, c)), RepeatFactor(LetterCounts(w)[p]), answerFactor)
  }

  /** Every code of `w` is a row of a table with `rows` rows. */
  predicate CodesBelow(w: Word, rows: nat)
  {
    forall p :: 0 <= p < WordLength ==> 0 <= w[p] < rows
  }

  /** The five entries of `w`. */
  function WordEntries(H: real -> real, t: seq<seq<nat>>, n: nat, w: Word, answerFactor: real): (r: seq<real>)
    requires n > 0 && Shaped(t, |t|) && CodesBelow(w, |t|)
    ensures |r| == WordLength
  {
    seq(WordLength, p requires 0 <= p < WordLength => PositionEntropy(H, t, n, w, p, answerFactor))
  }

  /** The score of `w`: its five entries summed. */
  function WordScore(H: real -> real, t: seq<seq<nat>>, n: nat, w: Word, answerFactor: real): real
    requires n > 0 && Shaped(t, |t|) && CodesBelow(w, |t|)
  {
    Sum(WordEntries(H, t, n, w, answerFactor))
  }

  /** `score_word_bank` after the table is counted: the attribute lookup of
      `answer_weight_base` fails first when the record has none, then the
      division by `max_guesses`; otherwise one score per row of the possible
      bank, every one with the same answer factor. */
  function Scores(H: real -> real, t: seq<seq<nat>>, n: nat, possible: seq<Word>,
                  answerWeightBase: Option<real>, maxGuesses: int, attemptNum: int): (r: Result<seq<real>>)
    requires n > 0 && Shaped(t, |t|) && InRange(possible, |t|)
    ensures r.Ok? <==> answerWeightBase.Some? && maxGuesses != 0
    ensures answerWeightBase.None? ==> r == Err(AttributeError)
    ensures answerWeightBase.Some? && maxGuesses == 0 ==> r == Err(ZeroDivisionError)
    ensures r.Ok? ==> |r.value| == |possible|
  {
    if answerWeightBase.None? then Err(AttributeError)
    else if maxGuesses == 0 then Err(ZeroDivisionError)
    else
      var factor := AnswerFactor(answerWeightBase.value, attemptNum, maxGuesses);
      Ok(seq(|possible|, i requires 0 <= i < |possible| && CodesBelow(possible[i], |t|) =>
        WordScore(H, t, n, possible[i], factor)))
  }

  /** The scores are those of the possible rows, each the unweighted score
      multiplied by the one answer factor, so the weighting never changes
      which word scores higher. */
  lemma ScoresAreWeighted(H: real -> real, t: seq<seq<nat>>, n: nat, possible: seq<Word>,
                          base: real, maxGuesses: int, attemptNum: int, i: nat)
    requires n > 0 && Shaped(t, |t|) && InRange(possible, |t|) && maxGuesses != 0 && i < |possible|
    ensures CodesBelow(possible[i], |t|)
    ensures Scores(H, t, n, possible, Some(base), maxGuesses, attemptNum).value[i]
            == WordScore(H, t, n, possible[i], 1.0) * AnswerFactor(base, attemptNum, maxGuesses)
  {
    var w, f := possible[i], AnswerFactor(base, attemptNum, maxGuesses);
    assert CodesBelow(w, |t|);
    var plain, weighted := WordEntries(H, t, n, w, 1.0), WordEntries(H, t, n, w, f);
    forall p | 0 <= p < WordLength ensures weighted[p] == plain[p] * f {
      ScaledByFactor(H(PGreen(t, n, w[p], p)) + H(PYellow(t, n, w[p], p)) + H(PWhite(t, n, w[p])), RepeatFactor(LetterCounts(w)[p]), f);
    }
    SumScale(plain, weighted, f);
  }

  lemma ScaledByFactor(e: real, k: real, f: real)
    ensures Scaled(e, k, f) == Scaled(e, k, 1.0) * f
  {
  }

  /** A letter met once in its word keeps its plain entropy sum. */
  lemma SingleLetterUnscaled(H: real -> real, t: seq<seq<nat>>, n: nat, w: Word, p: nat, answerFactor: real)
    requires n > 0 && Shaped(t, |t|) && CodesBelow(w, |t|) && p < WordLength
    requires Count(w, w[p]) == 1
    ensures PositionEntropy(H, t, n, w, p, answerFactor)
            == (H(PGreen(t, n, w[p], p)) + H(PYellow(t, n, w[p], p)) + H(PWhite(t, n, w[p]))) * answerFactor
  {
    RepeatFactorRange(LetterCounts(w)[p]);
  }

  class WordScorerEntropy {
    const wordBank: WordBankManager
    const hparams: Params
    /** `hparams.answer_weight_base` when the record passed in has that
        attribute; the module's own record does not. */
    const answerWeightBase: Option<real>
    const H: real -> real
    var hardcoreMode: bool
    /** The bank taken by the last `toggle_mode`. */
    var currentWordBank: seq<Word>
    /** `char_freq_table`: a row for each code up to `np.max` of the full
        bank, a column for each position. */
    const charFreqTable: array2<nat>

    ghost predicate Valid()
      reads this, wordBank
    {
      wordBank.Valid()
      && charFreqTable.Length0 == MaxCode(wordBank.fullWordBank) + 1
      && charFreqTable.Length1 == WordLength
      && (forall w :: w in currentWordBank ==> w in wordBank.fullWordBank)
    }

    /** The table holds the frequencies of the snapshot. */
    ghost predicate Counted()
      reads this, charFreqTable
    {
      forall c, p :: 0 <= c < charFreqTable.Length0 && 0 <= p < charFreqTable.Length1 ==>
        charFreqTable[c, p] == ColumnCount(currentWordBank, p, c)
    }

    /** `__init__`: the bank is taken by `toggle_mode`, and the table is a
        zeroed array sized from the full bank. */
    constructor (wordBank: WordBankManager, hparams: Params, answerWeightBase: Option<real>, H: real -> real, hardcoreMode: bool)
      requires wordBank.Valid()
      ensures this.wordBank == wordBank && this.hparams == hparams && this.answerWeightBase == answerWeightBase && this.H == H
      ensures this.hardcoreMode == hardcoreMode
      ensures currentWordBank == if hardcoreMode then wordBank.fullWordBank else wordBank.possibleWordBank
      ensures Valid() && fresh(charFreqTable)
      ensures forall c, p :: 0 <= c < charFreqTable.Length0 && 0 <= p < charFreqTable.Length1 ==> charFreqTable[c, p] == 0
    {
      this.wordBank := wordBank;
      this.hparams := hparams;
      this.answerWeightBase := answerWeightBase;
      this.H := H;
      this.hardcoreMode := hardcoreMode;
      currentWordBank := if hardcoreMode then wordBank.fullWordBank else wordBank.possibleWordBank;
      charFreqTable := new nat[MaxCode(wordBank.fullWordBank) + 1, WordLength]((c, p) => 0);
    }

    /** `toggle_mode`: the full bank in hardcore mode, the possible bank
        otherwise, taken now and kept until the next call. */
    method ToggleMode(hardcoreMode: bool)
      requires Valid()
      modifies this
      ensures Valid()
      ensures this.hardcoreMode == hardcoreMode
      ensures currentWordBank == if hardcoreMode then wordBank.fullWordBank else wordBank.possibleWordBank
    {
      this.hardcoreMode := hardcoreMode;
      currentWordBank := if hardcoreMode then wordBank.fullWordBank else wordBank.possibleWordBank;
    }

    /** The codes of a bank drawn from the full bank are rows of the table. */
    lemma DrawnInRange(bank: seq<Word>)
      requires Valid() && (forall w :: w in bank ==> w in wordBank.fullWordBank)
      ensures InRange(bank, charFreqTable.Length0)
    {
      forall i, p | 0 <= i < |bank| && 0 <= p < WordLength ensures 0 <= bank[i][p] < charFreqTable.Length0 {
        assert bank[i] in wordBank.fullWordBank;
      }
    }

    /** `char_freq_table.fill(0)`. */
    method ClearTable()
      requires Valid()
      modifies charFreqTable
      ensures forall c, p :: 0 <= c < charFreqTable.Length0 && 0 <= p < charFreqTable.Length1 ==> charFreqTable[c, p] == 0
    {
      var c := 0;
      while c < charFreqTable.Length0
        invariant 0 <= c <= charFreqTable.Length0
        invariant forall c', p :: 0 <= c' < c && 0 <= p < charFreqTable.Length1 ==> charFreqTable[c', p] == 0
      {
        var p := 0;
        while p < charFreqTable.Length1
          invariant 0 <= p <= charFreqTable.Length1
          invariant forall c', p' :: 0 <= c' < c && 0 <= p' < charFreqTable.Length1 ==> charFreqTable[c', p'] == 0
          invariant forall p' :: 0 <= p' < p ==> charFreqTable[c, p'] == 0
        {
          charFreqTable[c, p] := 0;
          p := p + 1;
        }
        c := c + 1;
      }
    }

    /** `np.add.at` on column `pos`: one more at the row of each snapshot
        word's letter there; the other columns are untouched. */
    method CountColumn(pos: nat)
      requires Valid() && pos < WordLength
      modifies charFreqTable
      ensures forall c, p :: 0 <= c < charFreqTable.Length0 && 0 <= p < charFreqTable.Length1 ==>
                charFreqTable[c, p] == old(charFreqTable[c, p]) + if p == pos then ColumnCount(currentWordBank, pos, c) else 0
    {
      var bank := currentWordBank;
      DrawnInRange(bank);
      var i := 0;
      assert bank[..0] == [];
      assert forall c :: ColumnCount(bank[..0], pos, c) == 0;
      while i < |bank|
        invariant i <= |bank|
        invariant forall c, p :: 0 <= c < charFreqTable.Length0 && 0 <= p < charFreqTable.Length1 ==>
                    charFreqTable[c, p] == old(charFreqTable[c, p]) + if p == pos then ColumnCount(bank[..i], pos, c) else 0
      {
        var c := bank[i][pos];
        assert bank[..i + 1][..i] == bank[..i];
        charFreqTable[c, pos] := charFreqTable[c, pos] + 1;
        i := i + 1;
      }
      assert bank[..i] == bank;
    }

    /** `_precompute_letter_frequencies`: the table is zeroed in place and
        counted over the snapshot, whatever the possible bank now is. */
    method PrecomputeLetterFrequencies()
      requires Valid()
      modifies charFreqTable
      ensures Counted()
    {
      ClearTable();
      var pos := 0;
      while pos < WordLength
        invariant pos <= WordLength
        invariant forall c, p :: 0 <= c < charFreqTable.Length0 && 0 <= p < charFreqTable.Length1 ==>
                    charFreqTable[c, p] == if p < pos then ColumnCount(currentWordBank, p, c) else 0
      {
        CountColumn(pos);
        pos := pos + 1;
      }
    }

    /** The table as a value. */
    function Table(): (t: seq<seq<nat>>)
      reads this, charFreqTable
      ensures Shaped(t, charFreqTable.Length0) || charFreqTable.Length1 != WordLength
    {
      seq(charFreqTable.Length0, c requires 0 <= c < charFreqTable.Length0 reads charFreqTable =>
        seq(charFreqTable.Length1, p requires 0 <= p < charFreqTable.Length1 reads charFreqTable => charFreqTable[c, p]))
    }

    /** `score_word_bank`: count the snapshot, then score the possible rows
        with shares of the snapshot's size. */
    method ScoreWordBank(attemptNum: int) returns (r: Result<seq<real>>)
      requires Valid() && currentWordBank != []
      modifies charFreqTable
      ensures Counted()
      ensures InRange(wordBank.possibleWordBank, charFreqTable.Length0)
      ensures Table() == Frequencies(currentWordBank, charFreqTable.Length0)
      ensures r == Scores(H, Frequencies(currentWordBank, charFreqTable.Length0), |currentWordBank|, wordBank.possibleWordBank,
                          answerWeightBase, hparams.maxGuesses, attemptNum)
    {
      PrecomputeLetterFrequencies();
      var t := Table();
      assert forall c :: 0 <= c < |t| ==> t[c] == Frequencies(currentWordBank, charFreqTable.Length0)[c];
      DrawnInRange(wordBank.possibleWordBank);
      r := Scores(H, t, |currentWordBank|, wordBank.possibleWordBank, answerWeightBase, hparams.maxGuesses, attemptNum);
    }
  }

  /** A `cull` reassigns the possible bank but leaves the scorer's snapshot,
      so a scorer outside hardcore mode goes on counting the bank as it was
      at its last `toggle_mode`. */
  method CullKeepsSnapshot(scorer: WordScorerEntropy, guess: Word, information: seq<Color>)
    requires scorer.Valid() && |information| == WordLength
    modifies scorer.wordBank
    ensures scorer.Valid()
    ensures scorer.currentWordBank == old(scorer.currentWordBank)
    ensures scorer.wordBank.possibleWordBank == CullResult(old(scorer.wordBank.possibleWordBank), guess, information)
  {
    scorer.wordBank.Cull(guess, information);
  }
}
