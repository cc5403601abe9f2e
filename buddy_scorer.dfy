/** The entropy scorer of the `wordle_buddy` package
    (wordle_buddy/utils/word_scorer_entropy.py): the bank it scores follows
    the mode at the time of scoring, the frequency table is counted over the
    possible words, repeated letters scale the yellow and white terms, and in
    the end game words that cannot be the answer score zero. The binary
    entropy is the parameter `H`. */
module BuddyScorer {
  import opened Seqs
  import opened Words
  import opened LetterTables
  import opened Hyperparameters
  import opened BuddyWordBank

  /** Every code of `w` is a row of a table with `rows` rows. */
  predicate CodesBelow(w: Word, rows: nat)
  {
    forall p :: 0 <= p < WordLength ==> 0 <= w[p] < rows
  }

  /** `green + yellow * yellow_penalty + white * white_penalty`. */
  function Combine(green: real, yellow: real, yellowPenalty: real, white: real, whitePenalty: real): real
  {
    green + yellow * yellowPenalty + white * whitePenalty
  }

  /** The entropy of position `p` of `w` before masking: the green, yellow
      and white entropies of its letter, the yellow one scaled by
      `(1 + 1/k) / 2` and the white one by `1/k`, where `k` is the number of
      copies of the letter in `w`. */
  function PositionEntropy(H: real -> real, t: seq<seq<nat>>, n: nat, w: Word, p: nat): real
    requires n > 0 && Shaped(t, |t|) && CodesBelow(w, |t|) && p < WordLength
  {
    var c := w[p];
    var k := LetterCounts(w)[p];
    PenaltiesOfCounts(w, p);
    Combine(H(PGreen(t, n, c, p)), H(PYellow(t, n, c, p)), YellowPenalty(k), H(PWhite(t, n, c)), WhitePenalty(k))
  }

  /** The end game: at most two possible words, or the last attempt. */
  predicate EndGame(possibleCount: nat, attemptNum: int, maxGuesses: int)
  {
    possibleCount <= 2 || attemptNum == maxGuesses
  }

  /** The five entropies of `w` after `_apply_hyperparameters`: in the end
      game a word that is not possible has all of them multiplied by 0. */
  function WordEntropies(H: real -> real, t: seq<seq<nat>>, possible: seq<Word>, attemptNum: int, maxGuesses: int, w: Word): (r: seq<real>)
    requires possible != [] && Shaped(t, |t|) && CodesBelow(w, |t|)
    ensures |r| == WordLength
  {
    seq(WordLength, p requires 0 <= p < WordLength =>
      if EndGame(|possible|, attemptNum, maxGuesses) && w !in possible then 0.0
      else PositionEntropy(H, t, |possible|, w, p))
  }

  /** The score of `w`: its five entropies summed. */
  function WordScore(H: real -> real, t: seq<seq<nat>>, possible: seq<Word>, attemptNum: int, maxGuesses: int, w: Word): real
    requires possible != [] && Shaped(t, |t|) && CodesBelow(w, |t|)
  {
    Sum(WordEntropies(H, t, possible, attemptNum, maxGuesses, w))
  }

  /** The scores of the words of `working`, one each. */
  function Scores(H: real -> real, t: seq<seq<nat>>, possible: seq<Word>, attemptNum: int, maxGuesses: int, working: seq<Word>): (r: seq<real>)
    requires possible != [] && Shaped(t, |t|) && InRange(working, |t|)
    ensures |r| == |working|
    ensures forall i :: 0 <= i < |working| ==>
              CodesBelow(working[i], |t|) && r[i] == WordScore(H, t, possible, attemptNum, maxGuesses, working[i])
  {
    if working == [] then []
    else
      assert CodesBelow(working[0], |t|);
      assert InRange(working[1..], |t|) by {
        forall i, p | 0 <= i < |working| - 1 && 0 <= p < WordLength ensures 0 <= working[1..][i][p] < |t| {
          assert working[1..][i] == working[i + 1];
        }
      }
      [WordScore(H, t, possible, attemptNum, maxGuesses, working[0])] + Scores(H, t, possible, attemptNum, maxGuesses, working[1..])
  }

  /** The mask: in the end game a word that cannot be the answer has every
      entropy zero and scores zero; every other word, and every word outside
      the end game, keeps its entropies. */
  lemma EndGameMask(H: real -> real, t: seq<seq<nat>>, possible: seq<Word>, attemptNum: int, maxGuesses: int, w: Word)
    requires possible != [] && Shaped(t, |t|) && CodesBelow(w, |t|)
    ensures EndGame(|possible|, attemptNum, maxGuesses) && w !in possible ==>
              (forall p :: 0 <= p < WordLength ==> WordEntropies(H, t, possible, attemptNum, maxGuesses, w)[p] == 0.0)
              && WordScore(H, t, possible, attemptNum, maxGuesses, w) == 0.0
    ensures !EndGame(|possible|, attemptNum, maxGuesses) || w in possible ==>
              forall p :: 0 <= p < WordLength ==>
                WordEntropies(H, t, possible, attemptNum, maxGuesses, w)[p] == PositionEntropy(H, t, |possible|, w, p)
  {
    var e := WordEntropies(H, t, possible, attemptNum, maxGuesses, w);
    if EndGame(|possible|, attemptNum, maxGuesses) && w !in possible {
      SumOfZeros(e);
    }
  }

  /** A word whose letters are all distinct has neither term scaled. */
  lemma DistinctLettersUnscaled(H: real -> real, t: seq<seq<nat>>, n: nat, w: Word, p: nat)
    requires n > 0 && Shaped(t, |t|) && CodesBelow(w, |t|) && p < WordLength
    requires Count(w, w[p]) == 1
    ensures PositionEntropy(H, t, n, w, p)
            == H(PGreen(t, n, w[p], p)) + H(PYellow(t, n, w[p], p)) + H(PWhite(t, n, w[p]))
  {
    PenaltiesOfCounts(w, p);
  }

  class WordScorerEntropy {
    const wordBank: WordBankManager
    const hparams: Params
    const H: real -> real
    var hardcoreMode: bool
    /** `np.max` over the full bank: the table has a row for each code up to it. */
    const maxUnicode: int
    /** The bank scored by the last `score_word_bank`. */
    var workingWordBank: seq<Word>

    ghost predicate Valid()
      reads this, wordBank
    {
      wordBank.Valid() && maxUnicode == MaxCode(wordBank.fullWordBank)
    }

    /** `__init__`: the bank it reads, and the largest code of the full bank. */
    constructor (wordBank: WordBankManager, hparams: Params, H: real -> real, hardcoreMode: bool)
      requires wordBank.Valid()
      ensures this.wordBank == wordBank && this.hparams == hparams && this.H == H && this.hardcoreMode == hardcoreMode
      ensures workingWordBank == []
      ensures Valid()
    {
      this.wordBank := wordBank;
      this.hparams := hparams;
      this.H := H;
      this.hardcoreMode := hardcoreMode;
      maxUnicode := MaxCode(wordBank.fullWordBank);
      workingWordBank := [];
    }

    /** `toggle_mode`: only the flag changes. */
    method ToggleMode(hardcoreMode: bool)
      modifies this
      ensures this.hardcoreMode == hardcoreMode && workingWordBank == old(workingWordBank)
    {
      this.hardcoreMode := hardcoreMode;
    }

    /** `current_word_bank`: the possible words in hardcore mode, the full bank
        otherwise. */
    function CurrentWordBank(): (r: seq<Word>)
      reads this, wordBank
      ensures r == if hardcoreMode then wordBank.possibleWordBank else wordBank.fullWordBank
    {
      if hardcoreMode then wordBank.possibleWordBank else wordBank.fullWordBank
    }

    /** The number of rows of the table, `max_unicode + 1`. */
    function Rows(): nat
      reads this, wordBank
      requires Valid()
    {
      maxUnicode + 1
    }

    /** `_precompute_letter_frequencies`: a zeroed table, then for each
        position one more at the row of each possible word's letter there.
        The possible words are counted whatever the mode. */
    method PrecomputeLetterFrequencies() returns (table: seq<seq<nat>>)
      requires Valid()
      ensures table == Frequencies(wordBank.possibleWordBank, Rows())
    {
      var bank := wordBank.possibleWordBank;
      var rows := Rows();
      BankInRange(bank);
      table := seq(rows, c => [0, 0, 0, 0, 0]);
      var pos := 0;
      while pos < WordLength
        invariant pos <= WordLength && Shaped(table, rows)
        invariant forall c, p :: 0 <= c < rows && 0 <= p < WordLength ==>
                    table[c][p] == if p < pos then ColumnCount(bank, p, c) else 0
      {
        table := AddColumn(table, bank, pos);
        pos := pos + 1;
      }
      assert forall c :: 0 <= c < rows ==> table[c] == Frequencies(bank, rows)[c];
    }

    /** The codes of the possible words are rows of the table. */
    lemma BankInRange(bank: seq<Word>)
      requires Valid() && (forall w :: w in bank ==> w in wordBank.fullWordBank)
      ensures InRange(bank, Rows())
    {
      forall i, p | 0 <= i < |bank| && 0 <= p < WordLength ensures 0 <= bank[i][p] < Rows() {
        assert bank[i] in wordBank.fullWordBank;
      }
    }

    /** The scores of the working bank at `attemptNum`, from the table of
        the possible words. */
    function ScoresFor(attemptNum: int): (r: seq<real>)
      reads this, wordBank
      requires Valid() && wordBank.possibleWordBank != [] && InRange(workingWordBank, Rows())
      ensures |r| == |workingWordBank|
    {
      Scores(H, Frequencies(wordBank.possibleWordBank, Rows()), wordBank.possibleWordBank,
             attemptNum, hparams.maxGuesses, workingWordBank)
    }

    /** `score_word_bank`: fix the bank to score from the mode, count the
        table, and score every word of that bank. */
    method ScoreWordBank(attemptNum: int) returns (scores: seq<real>)
      requires Valid() && wordBank.possibleWordBank != []
      modifies this
      ensures Valid() && hardcoreMode == old(hardcoreMode)
      ensures workingWordBank == CurrentWordBank()
      ensures |scores| == |workingWordBank|
      ensures InRange(workingWordBank, Rows())
      ensures scores == ScoresFor(attemptNum)
    {
      workingWordBank := CurrentWordBank();
      var table := PrecomputeLetterFrequencies();
      BankInRange(workingWordBank);
      scores := Scores(H, table, wordBank.possibleWordBank, attemptNum, hparams.maxGuesses, workingWordBank);
    }
  }

  /** `np.add.at` on column `pos`: one more at the row of each word's letter
      at that position. */
  method AddColumn(table: seq<seq<nat>>, bank: seq<Word>, pos: nat) returns (r: seq<seq<nat>>)
    requires pos < WordLength && Shaped(table, |table|) && InRange(bank, |table|)
    ensures Shaped(r, |table|)
    ensures forall c, p :: 0 <= c < |table| && 0 <= p < WordLength ==>
              r[c][p] == table[c][p] + if p == pos then ColumnCount(bank, pos, c) else 0
  {
    r := table;
    var i := 0;
    assert bank[..0] == [];
    assert forall c :: ColumnCount(bank[..0], pos, c) == 0;
    while i < |bank|
      invariant i <= |bank| && Shaped(r, |table|)
      invariant forall c, p :: 0 <= c < |table| && 0 <= p < WordLength ==>
                  r[c][p] == table[c][p] + if p == pos then ColumnCount(bank[..i], pos, c) else 0
    {
      var c := bank[i][pos];
      assert bank[..i + 1][..i] == bank[..i];
      r := r[c := r[c][pos := r[c][pos] + 1]];
      i := i + 1;
    }
    assert bank[..i] == bank;
  }
}
