/** The entropy score calculator of guessing.py (`EntropyScoreCalculator`):
    a per-position letter frequency table over the possible words, three
    guarded entropy terms per letter, positional vowel and consonant
    weights, a diminishing factor for repeated letters and an answer weight
    for words that may be the secret. The binary entropy itself is a
    parameter `H`. */
module GuessingScore {
  import opened Seqs
  import opened Words
  import opened Outcomes

  /** The fields of the `Hyperparameters` record the calculator reads. */
  datatype GuessingWeights = GuessingWeights(
    vowelPosWeights: seq<real>,
    consonantPosWeights: seq<real>,
    repeatLetterPenalty: real,
    mismatchPenalty: real,
    answerWeightBase: real,
    maxGuesses: int)

  /** The record's defaults (hyperparameters.py). */
  const DefaultWeights: GuessingWeights :=
    GuessingWeights([1.2, 1.2, 1.2, 1.2, 1.2], [1.5, 1.0, 1.2, 1.1, 1.5], 1.3, 2.0, 1.0, 6)

  const Vowels: string := "aeiou"

  /** The positional weights that apply to letter `c`. */
  function WeightsFor(weights: GuessingWeights, c: char): seq<real>
  {
    if c in Vowels then weights.vowelPosWeights else weights.consonantPosWeights
  }

  /** The guard shared by the three entropy calculators: no information when
      the count is zero or reaches the number of words; otherwise `H` of the
      count's share of the words, which is then strictly between 0 and 1. */
  function Guard(count: nat, total: nat, H: real -> real): (r: real)
    ensures count == 0 || count >= total ==> r == 0.0
    ensures 0 < count < total ==> 0.0 < count as real / total as real < 1.0 && r == H(count as real / total as real)
  {
    if count == 0 || count >= total then 0.0
    else
      assert count as real < total as real;
      H(count as real / total as real)
  }

  /** The counts of `c` at the positions below `n` other than `skip`, summed. */
  function OtherColumns(bank: seq<TextWord>, c: char, n: nat, skip: int): nat
  {
    if n == 0 then 0
    else OtherColumns(bank, c, n - 1, skip) + (if n - 1 == skip then 0 else ColumnCount(bank, n - 1, c))
  }

  /** Copies of `c` over all the words of `bank`. */
  function Occurrences(bank: seq<TextWord>, c: char): nat
  {
    if bank == [] then 0 else Occurrences(bank[..|bank| - 1], c) + Count(bank[|bank| - 1], c)
  }

  /** The weighted sum of the three entropies of one position. */
  function Weighted(weight: real, green: real, yellow: real, white: real): real
  {
    weight * (green + yellow + white)
  }

  /** An entropy scaled by the diminishing factor `1 / k`. */
  function Diminished(entropy: real, k: nat): real
    requires k > 0
  {
    entropy * (1.0 / k as real)
  }

  /** The term of position `pos` of `word`: the green, yellow and white
      entropies of its letter, where from the second occurrence of a letter
      on the white term is dropped and the yellow term divided by the number
      of occurrences so far, times the letter's weight for the position. A
      bank with no words has no frequency entry for the position (KeyError);
      a weight list too short for the position is an IndexError. */
  function PositionTerm(weights: GuessingWeights, H: real -> real, bank: seq<TextWord>, word: TextWord, pos: nat): Result<real>
    requires pos < WordLength
  {
    if bank == [] then Err(KeyError)
    else
      var c := word[pos];
      var total := |bank|;
      var green := Guard(ColumnCount(bank, pos, c), total, H);
      var yellow := Guard(OtherColumns(bank, c, WordLength, pos), total, H);
      var white := Guard(OtherColumns(bank, c, WordLength, -1), total, H);
      var k := CountBelow(word, c, pos + 1);
      var w := WeightsFor(weights, c);
      if pos >= |w| then Err(IndexError)
      else if k > 1 then Ok(Weighted(w[pos], green, Diminished(yellow, k), 0.0))
      else Ok(Weighted(w[pos], green, yellow, white))
  }

  /** The sum of the terms of the positions below `n`, or the first error. */
  function ScoreBelow(weights: GuessingWeights, H: real -> real, bank: seq<TextWord>, word: TextWord, n: nat): Result<real>
    requires n <= WordLength
  {
    if n == 0 then Ok(0.0)
    else
      match ScoreBelow(weights, H, bank, word, n - 1)
      case Err(e) => Err(e)
      case Ok(s) =>
        match PositionTerm(weights, H, bank, word, n - 1)
        case Err(e) => Err(e)
        case Ok(t) => Ok(s + t)
  }

  /** `answer_weight_base * (1 + attempt_num / max_guesses)`. */
  function AnswerWeight(weights: GuessingWeights, attempt: int): real
    requires weights.maxGuesses != 0
  {
    weights.answerWeightBase * (1.0 + attempt as real / weights.maxGuesses as real)
  }

  /** A score multiplied by the answer weight. */
  function Weighed(score: real, weights: GuessingWeights, attempt: int): real
    requires weights.maxGuesses != 0
  {
    score * AnswerWeight(weights, attempt)
  }

  /** The score of `word` against the possible words `bank` at attempt
      `attempt`: the sum of its position terms, multiplied by
      `answer_weight_base * (1 + attempt / max_guesses)` when the word is
      itself possible (ZeroDivisionError when `max_guesses` is 0). */
  function Score(weights: GuessingWeights, H: real -> real, bank: seq<TextWord>, attempt: int, word: TextWord): Result<real>
  {
    match ScoreBelow(weights, H, bank, word, |word|)
    case Err(e) => Err(e)
    case Ok(s) =>
      if word !in bank then Ok(s)
      else if weights.maxGuesses == 0 then Err(ZeroDivisionError)
      else Ok(Weighed(s, weights, attempt))
  }

  /** The positions `0 .. n-1`. */
  function Positions(n: nat): (r: set<int>)
    ensures |r| == n
    ensures forall q :: q in r <==> 0 <= q < n
  {
    if n == 0 then {} else Positions(n - 1) + {n - 1}
  }

  /** `m` maps each letter found at position `p` of the words of `bank` to
      the number of words holding it there, and holds no other letter. */
  predicate CountsColumn(m: map<char, nat>, bank: seq<TextWord>, p: nat)
  {
    forall c :: (c in m <==> ColumnCount(bank, p, c) > 0) && (c in m ==> m[c] == ColumnCount(bank, p, c))
  }

  /** The result of `count_letter_frequencies` for `bank`: an entry for each
      position when there are words, none when there are not. */
  ghost predicate IsTable(table: map<int, map<char, nat>>, bank: seq<TextWord>)
  {
    (forall q :: q in table <==> bank != [] && 0 <= q < WordLength)
    && forall q :: q in table ==> CountsColumn(table[q], bank, q)
  }

  /** `letter_frequencies[pos].get(char, 0)` for a table of `bank`. */
  function TableCount(table: map<int, map<char, nat>>, q: int, c: char): nat
    requires q in table
  {
    if c in table[q] then table[q][c] else 0
  }

  /** The scorer's state: the possible words, their frequency table, the
      attempt number and the number of possible words. Those four exist only
      once `update_word_bank` has run; until then `wordBankSet` is false and
      their fields hold placeholders that nothing reads. */
  class EntropyScoreCalculator {
    const fullWordBank: seq<TextWord>
    const hyperparameters: GuessingWeights
    const H: real -> real
    /** Whether `update_word_bank` has set the attributes below. */
    var wordBankSet: bool
    var possibleWordBank: seq<TextWord>
    var letterFrequencies: map<int, map<char, nat>>
    var attemptNum: int
    var totalWordsList: nat

    ghost predicate Valid()
      reads this
    {
      IsTable(letterFrequencies, possibleWordBank) && totalWordsList == |possibleWordBank|
    }

    /** `__init__`: only the full bank and the hyperparameters are set; the
        possible words and their table wait for `update_word_bank`. */
    constructor (fullWordBank: seq<TextWord>, hyperparameters: GuessingWeights, H: real -> real)
      ensures this.fullWordBank == fullWordBank && this.hyperparameters == hyperparameters && this.H == H
      ensures !wordBankSet
      ensures Valid()
    {
      this.fullWordBank := fullWordBank;
      this.hyperparameters := hyperparameters;
      this.H := H;
      wordBankSet := false;
      possibleWordBank := [];
      letterFrequencies := map[];
      attemptNum := 0;
      totalWordsList := 0;
    }

    /** `update_word_bank`: the bank, its table, the attempt number and the
        number of words are replaced together. */
    method UpdateWordBank(possibleWordBank: seq<TextWord>, attemptNum: int)
      modifies this
      ensures Valid() && wordBankSet
      ensures this.possibleWordBank == possibleWordBank && this.attemptNum == attemptNum
      ensures totalWordsList == |possibleWordBank|
      ensures IsTable(letterFrequencies, possibleWordBank)
    {
      wordBankSet := true;
      this.possibleWordBank := possibleWordBank;
      letterFrequencies := CountLetterFrequencies();
      this.attemptNum := attemptNum;
      totalWordsList := |possibleWordBank|;
    }

    /** `count_letter_frequencies`: for each word and each position, one more
        for the word's letter at that position. */
    method CountLetterFrequencies() returns (r: map<int, map<char, nat>>)
      ensures IsTable(r, possibleWordBank)
    {
      var bank := possibleWordBank;
      r := map[];
      var i := 0;
      while i < |bank|
        invariant i <= |bank|
        invariant IsTable(r, bank[..i])
      {
        r := CountWord(r, bank, i);
        i := i + 1;
      }
      assert bank[..i] == bank;
    }

    /** One iteration of `count_letter_frequencies`: the letters of word
        `i` counted into the table of the words before it. */
    static method CountWord(table: map<int, map<char, nat>>, bank: seq<TextWord>, i: nat) returns (r: map<int, map<char, nat>>)
      requires i < |bank| && IsTable(table, bank[..i])
      ensures IsTable(r, bank[..i + 1])
    {
      r := table;
      var word := bank[i];
      assert bank[..i + 1][..i] == bank[..i];
      var pos := 0;
      while pos < WordLength
        invariant pos <= WordLength
        invariant PartlyCounted(r, bank, i, pos)
      {
        var column: map<char, nat> := if pos in r then r[pos] else map[];
        var c := word[pos];
        column := column[c := (if c in column then column[c] else 0) + 1];
        PartlyCountedStep(r, bank, i, pos);
        r := r[pos := column];
        pos := pos + 1;
      }
    }

    /** `calculate_green_entropy`: the guarded entropy of the letter's count
        at the position, which is the number of possible words holding it
        there. Before any update `letter_frequencies` does not exist
        (AttributeError); a bank without words has no entry for the position
        (KeyError). */
    function GreenEntropy(c: char, pos: int): (r: Result<real>)
      reads this
      requires Valid()
      ensures r == if !wordBankSet then Err(AttributeError)
                   else if possibleWordBank != [] && 0 <= pos < WordLength
                   then Ok(Guard(ColumnCount(possibleWordBank, pos, c), |possibleWordBank|, H))
                   else Err(KeyError)
    {
      if !wordBankSet then Err(AttributeError)
      else if pos !in letterFrequencies then Err(KeyError)
      else
        TableCountIsColumn(letterFrequencies, possibleWordBank, pos, c);
        Ok(Guard(TableCount(letterFrequencies, pos, c), totalWordsList, H))
    }

    /** `calculate_yellow_entropy`: the guarded entropy of the letter's
        counts at the other positions, summed. `__call__` reaches it only
        after `calculate_green_entropy` has found the table. */
    function YellowEntropy(c: char, pos: int): (r: real)
      reads this
      requires Valid() && wordBankSet
      ensures possibleWordBank != [] ==> r == Guard(OtherColumns(possibleWordBank, c, WordLength, pos), |possibleWordBank|, H)
    {
      TableSumIsColumns(letterFrequencies, possibleWordBank, c, pos);
      Guard(TableSum(letterFrequencies, c, |letterFrequencies|, pos), totalWordsList, H)
    }

    /** `calculate_white_entropy`: the guarded entropy of the letter's counts
        at all positions, summed. Like the yellow entropy, it is reached only
        once the table exists. */
    function WhiteEntropy(c: char): (r: real)
      reads this
      requires Valid() && wordBankSet
      ensures possibleWordBank != [] ==> r == Guard(OtherColumns(possibleWordBank, c, WordLength, -1), |possibleWordBank|, H)
    {
      TableSumIsColumns(letterFrequencies, possibleWordBank, c, -1);
      Guard(TableSum(letterFrequencies, c, |letterFrequencies|, -1), totalWordsList, H)
    }

    /** One iteration of `__call__`: the term of position `pos`, whose
        letter has now been seen `k` times. */
    method PositionScore(word: TextWord, pos: nat, k: nat) returns (r: Result<real>)
      requires Valid() && wordBankSet && pos < WordLength && k == CountBelow(word, word[pos], pos + 1)
      ensures r == PositionTerm(hyperparameters, H, possibleWordBank, word, pos)
    {
      var c := word[pos];
      var green := GreenEntropy(c, pos);
      if green.Err? {
        return Err(green.error);
      }
      var yellowEntropy := YellowEntropy(c, pos);
      var whiteEntropy := WhiteEntropy(c);
      if k > 1 {
        whiteEntropy := 0.0;
        yellowEntropy := Diminished(yellowEntropy, k);
      }
      var charWeights := WeightsFor(hyperparameters, c);
      if pos >= |charWeights| {
        return Err(IndexError);
      }
      r := Ok(Weighted(charWeights[pos], green.value, yellowEntropy, whiteEntropy));
    }

    /** `__call__`: the score of `word`, the answer weight applied when
        the word is itself possible; AttributeError before any update. */
    method Call(word: TextWord) returns (r: Result<real>)
      requires Valid()
      ensures r == if wordBankSet then Score(hyperparameters, H, possibleWordBank, attemptNum, word) else Err(AttributeError)
    {
      if !wordBankSet {
        // the first position's `calculate_green_entropy` reads the missing table
        return Err(AttributeError);
      }
      var sum := PositionSum(word);
      if sum.Err? {
        return Err(sum.error);
      }
      var score := sum.value;
      ScoreOfSum(hyperparameters, H, possibleWordBank, attemptNum, word, score);
      if word in possibleWordBank {
        if hyperparameters.maxGuesses == 0 {
          return Err(ZeroDivisionError);
        }
        score := Weighed(score, hyperparameters, attemptNum);
      }
      r := Ok(score);
    }

    /** The loop of `__call__`: the position terms accumulated with a
        running count of each letter seen. */
    method PositionSum(word: TextWord) returns (r: Result<real>)
      requires Valid() && wordBankSet
      ensures r == ScoreBelow(hyperparameters, H, possibleWordBank, word, |word|)
    {
      var score := 0.0;
      var letterCounts: map<char, nat> := map[];
      var pos := 0;
      while pos < |word|
        invariant pos <= |word|
        invariant ScoreBelow(hyperparameters, H, possibleWordBank, word, pos) == Ok(score)
        invariant RunningCounts(letterCounts, word, pos)
      {
        var term;
        term, letterCounts := AddTerm(word, pos, score, letterCounts);
        if term.Err? {
          return Err(term.error);
        }
        score := score + term.value;
        pos := pos + 1;
      }
      r := Ok(score);
    }

    /** One iteration of the loop of `__call__`: count the letter at `pos`
        and compute its term. */
    method AddTerm(word: TextWord, pos: nat, score: real, letterCounts: map<char, nat>)
      returns (term: Result<real>, counts: map<char, nat>)
      requires Valid() && wordBankSet && pos < WordLength
      requires ScoreBelow(hyperparameters, H, possibleWordBank, word, pos) == Ok(score)
      requires RunningCounts(letterCounts, word, pos)
      ensures RunningCounts(counts, word, pos + 1)
      ensures term.Err? ==> ScoreBelow(hyperparameters, H, possibleWordBank, word, |word|) == Err(term.error)
      ensures term.Ok? ==> ScoreBelow(hyperparameters, H, possibleWordBank, word, pos + 1) == Ok(score + term.value)
    {
      var c := word[pos];
      var k := (if c in letterCounts then letterCounts[c] else 0) + 1;
      CountStep(letterCounts, word, pos);
      counts := letterCounts[c := k];
      term := PositionScore(word, pos, k);
      if term.Err? {
        ScoreBelowFailsAt(hyperparameters, H, possibleWordBank, word, pos, score);
      } else {
        ScoreBelowStep(hyperparameters, H, possibleWordBank, word, pos, score, term.value);
      }
    }
  }

  /** The running letter counts after one more position. */
  lemma CountStep(counts: map<char, nat>, word: TextWord, pos: nat)
    requires pos < WordLength
    requires RunningCounts(counts, word, pos)
    ensures var k := (if word[pos] in counts then counts[word[pos]] else 0) + 1;
            k == CountBelow(word, word[pos], pos + 1) && RunningCounts(counts[word[pos] := k], word, pos + 1)
  {
  }

  /** `letter_counts` after the positions below `pos`: each letter's number
      of occurrences among them. */
  predicate RunningCounts(counts: map<char, nat>, word: TextWord, pos: nat)
    requires pos <= WordLength
  {
    forall c :: (if c in counts then counts[c] else 0) == CountBelow(word, c, pos)
  }

  /** The sum of `letter_frequencies[q].get(char, 0)` over the positions
      `q` below `n` other than `skip`. */
  function TableSum(table: map<int, map<char, nat>>, c: char, n: nat, skip: int): nat
    requires forall q :: 0 <= q < n ==> q in table
  {
    if n == 0 then 0 else TableSum(table, c, n - 1, skip) + (if n - 1 == skip then 0 else TableCount(table, n - 1, c))
  }

  /** A table entry is the count of the letter in that column of the bank. */
  lemma TableCountIsColumn(table: map<int, map<char, nat>>, bank: seq<TextWord>, q: int, c: char)
    requires IsTable(table, bank) && q in table
    ensures 0 <= q < WordLength && TableCount(table, q, c) == ColumnCount(bank, q, c)
  {
    assert CountsColumn(table[q], bank, q);
  }

  /** Summing a table over all its positions is summing the counts over
      the bank. */
  lemma TableSumIsColumns(table: map<int, map<char, nat>>, bank: seq<TextWord>, c: char, skip: int)
    requires IsTable(table, bank)
    ensures forall q :: 0 <= q < |table| ==> q in table
    ensures bank != [] ==> TableSum(table, c, |table|, skip) == OtherColumns(bank, c, WordLength, skip)
  {
    assert table.Keys == (if bank == [] then {} else Positions(WordLength));
    assert |table.Keys| == |table|;
    if bank != [] {
      TableSumPrefix(table, bank, c, WordLength, skip);
    }
  }

  lemma {:induction false} TableSumPrefix(table: map<int, map<char, nat>>, bank: seq<TextWord>, c: char, n: nat, skip: int)
    requires IsTable(table, bank) && bank != [] && n <= WordLength
    ensures forall q :: 0 <= q < n ==> q in table
    ensures TableSum(table, c, n, skip) == OtherColumns(bank, c, n, skip)
  {
    if n > 0 {
      TableSumPrefix(table, bank, c, n - 1, skip);
      assert n - 1 in table;
      TableCountIsColumn(table, bank, n - 1, c);
    }
  }

  /** The table while word `i` is being counted: the positions below `pos`
      count it, the others do not yet. */
  ghost predicate PartlyCounted(r: map<int, map<char, nat>>, bank: seq<TextWord>, i: nat, pos: nat)
    requires i < |bank| && pos <= WordLength
  {
    (forall q :: q in r <==> 0 <= q < (if i == 0 then pos else WordLength))
    && (forall q :: q in r && q < pos ==> CountsColumn(r[q], bank[..i + 1], q))
    && (forall q :: q in r && q >= pos ==> CountsColumn(r[q], bank[..i], q))
  }

  lemma PartlyCountedStep(r: map<int, map<char, nat>>, bank: seq<TextWord>, i: nat, pos: nat)
    requires i < |bank| && pos < WordLength && PartlyCounted(r, bank, i, pos)
    ensures var column: map<char, nat> := if pos in r then r[pos] else map[];
            var c := bank[i][pos];
            PartlyCounted(r[pos := column[c := (if c in column then column[c] else 0) + 1]], bank, i, pos + 1)
  {
    var column: map<char, nat> := if pos in r then r[pos] else map[];
    assert bank[..i + 1][..i] == bank[..i];
    ColumnStep(column, bank[..i + 1], pos);
  }

  /** Counting one more word at position `p`. */
  lemma ColumnStep(m: map<char, nat>, bank: seq<TextWord>, p: nat)
    requires bank != [] && p < WordLength && CountsColumn(m, bank[..|bank| - 1], p)
    ensures CountsColumn(m[bank[|bank| - 1][p] := (if bank[|bank| - 1][p] in m then m[bank[|bank| - 1][p]] else 0) + 1], bank, p)
  {
  }

  lemma ScoreBelowStep(weights: GuessingWeights, H: real -> real, bank: seq<TextWord>, word: TextWord, n: nat, s: real, t: real)
    requires n < WordLength
    requires ScoreBelow(weights, H, bank, word, n) == Ok(s) && PositionTerm(weights, H, bank, word, n) == Ok(t)
    ensures ScoreBelow(weights, H, bank, word, n + 1) == Ok(s + t)
  {
  }

  lemma ScoreOfSum(weights: GuessingWeights, H: real -> real, bank: seq<TextWord>, attempt: int, word: TextWord, s: real)
    requires ScoreBelow(weights, H, bank, word, |word|) == Ok(s)
    ensures word !in bank ==> Score(weights, H, bank, attempt, word) == Ok(s)
    ensures word in bank && weights.maxGuesses == 0 ==> Score(weights, H, bank, attempt, word) == Err(ZeroDivisionError)
    ensures word in bank && weights.maxGuesses != 0 ==> Score(weights, H, bank, attempt, word) == Ok(Weighed(s, weights, attempt))
  {
  }

  /** The first failing position decides the error of the sum. */
  lemma ScoreBelowFailsAt(weights: GuessingWeights, H: real -> real, bank: seq<TextWord>, word: TextWord, n: nat, s: real)
    requires n < WordLength
    requires ScoreBelow(weights, H, bank, word, n) == Ok(s) && PositionTerm(weights, H, bank, word, n).Err?
    ensures ScoreBelow(weights, H, bank, word, |word|) == PositionTerm(weights, H, bank, word, n)
  {
    assert ScoreBelow(weights, H, bank, word, n + 1) == PositionTerm(weights, H, bank, word, n);
    ScoreBelowStaysErr(weights, H, bank, word, n + 1, |word|);
  }

  /** An error in an earlier position is the error of the whole sum. */
  lemma {:induction false} ScoreBelowStaysErr(weights: GuessingWeights, H: real -> real, bank: seq<TextWord>, word: TextWord, n: nat, m: nat)
    requires n <= m <= WordLength && ScoreBelow(weights, H, bank, word, n).Err?
    ensures ScoreBelow(weights, H, bank, word, m) == ScoreBelow(weights, H, bank, word, n)
    decreases m - n
  {
    if n < m {
      ScoreBelowStaysErr(weights, H, bank, word, n, m - 1);
    }
  }

  /** The entries of position `q` of a table, for the letters `letters`, summed. */
  function LetterSum(table: map<int, map<char, nat>>, q: int, letters: seq<char>): nat
    requires q in table
  {
    if letters == [] then 0 else TableCount(table, q, letters[0]) + LetterSum(table, q, letters[1..])
  }

  /** Each position of the frequency table counts every word once: over any
      list of distinct letters that covers the position's keys, the entries
      add up to the number of words. */
  lemma TableColumnSum(table: map<int, map<char, nat>>, bank: seq<TextWord>, q: int, letters: seq<char>)
    requires IsTable(table, bank) && q in table
    requires Distinct(letters) && forall c :: c in table[q] ==> c in letters
    ensures LetterSum(table, q, letters) == |bank|
  {
    assert 0 <= q < WordLength;
    LetterSumIsColumnSum(table, bank, q, letters);
    forall i | 0 <= i < |bank| ensures q < |bank[i]| && bank[i][q] in letters {
      ColumnCountPositive(bank, q, bank[i][q]);
      assert CountsColumn(table[q], bank, q);
    }
    ColumnSumIsSize(bank, q, letters);
  }

  lemma {:induction false} LetterSumIsColumnSum(table: map<int, map<char, nat>>, bank: seq<TextWord>, q: int, letters: seq<char>)
    requires IsTable(table, bank) && q in table && 0 <= q
    ensures LetterSum(table, q, letters) == ColumnSum(bank, q, letters)
  {
    if letters != [] {
      TableCountIsColumn(table, bank, q, letters[0]);
      LetterSumIsColumnSum(table, bank, q, letters[1..]);
    }
  }

  /** The white count of a letter is its number of copies over the bank, and
      its yellow count at `pos` is the copies found at the other positions. */
  lemma WhiteAndYellowCounts(bank: seq<TextWord>, c: char, pos: nat)
    requires pos < WordLength
    ensures OtherColumns(bank, c, WordLength, -1) == Occurrences(bank, c)
    ensures OtherColumns(bank, c, WordLength, pos) + ColumnCount(bank, pos, c) == Occurrences(bank, c)
  {
    AllColumnsAreOccurrences(bank, c);
    SkipOneColumn(bank, c, WordLength, pos);
  }

  lemma {:induction false} AllColumnsAreOccurrences(bank: seq<TextWord>, c: char)
    ensures OtherColumns(bank, c, WordLength, -1) == Occurrences(bank, c)
  {
    if bank != [] {
      AllColumnsAreOccurrences(bank[..|bank| - 1], c);
      ColumnsOfLastWord(bank, c, WordLength);
      assert Count(bank[|bank| - 1], c) == CountBelow(bank[|bank| - 1], c, WordLength);
    } else {
      NoColumns(bank, c, WordLength);
    }
  }

  lemma {:induction false} NoColumns(bank: seq<TextWord>, c: char, n: nat)
    requires bank == []
    ensures OtherColumns(bank, c, n, -1) == 0
  {
    if n > 0 {
      NoColumns(bank, c, n - 1);
    }
  }

  /** Adding a word adds its copies of `c` among its first `n` letters. */
  lemma {:induction false} ColumnsOfLastWord(bank: seq<TextWord>, c: char, n: nat)
    requires bank != [] && n <= WordLength
    ensures OtherColumns(bank, c, n, -1) == OtherColumns(bank[..|bank| - 1], c, n, -1) + CountBelow(bank[|bank| - 1], c, n)
  {
    if n > 0 {
      ColumnsOfLastWord(bank, c, n - 1);
    }
  }

  lemma {:induction false} SkipOneColumn(bank: seq<TextWord>, c: char, n: nat, pos: nat)
    ensures OtherColumns(bank, c, n, pos) + (if pos < n then ColumnCount(bank, pos, c) else 0) == OtherColumns(bank, c, n, -1)
  {
    if n > 0 {
      SkipOneColumn(bank, c, n - 1, pos);
    }
  }

  /** Every letter of `word` has a positional weight for its position. */
  predicate WeightsCover(weights: GuessingWeights, word: TextWord)
  {
    forall p :: 0 <= p < WordLength ==> p < |WeightsFor(weights, word[p])|
  }

  /** When the bank has words, the sum of the terms fails exactly when some
      position has no weight, and then with IndexError. */
  lemma {:induction false} ScoreBelowOutcome(weights: GuessingWeights, H: real -> real, bank: seq<TextWord>, word: TextWord, n: nat)
    requires bank != [] && n <= WordLength
    ensures ScoreBelow(weights, H, bank, word, n).Err? <==> exists p :: 0 <= p < n && p >= |WeightsFor(weights, word[p])|
    ensures ScoreBelow(weights, H, bank, word, n).Err? ==> ScoreBelow(weights, H, bank, word, n).error == IndexError
  {
    if n > 0 {
      ScoreBelowOutcome(weights, H, bank, word, n - 1);
    }
  }

  /** The outcomes of `__call__` once the bank has been updated: KeyError
      when there are no possible words, IndexError when a weight list is too short
      for a position, ZeroDivisionError when the word is possible and
      `max_guesses` is 0, and a score otherwise. */
  lemma ScoreOutcome(weights: GuessingWeights, H: real -> real, bank: seq<TextWord>, attempt: int, word: TextWord)
    ensures bank == [] ==> Score(weights, H, bank, attempt, word) == Err(KeyError)
    ensures bank != [] && !WeightsCover(weights, word) ==> Score(weights, H, bank, attempt, word) == Err(IndexError)
    ensures bank != [] && WeightsCover(weights, word) && word in bank && weights.maxGuesses == 0 ==>
              Score(weights, H, bank, attempt, word) == Err(ZeroDivisionError)
    ensures bank != [] && WeightsCover(weights, word) && (word !in bank || weights.maxGuesses != 0) ==>
              Score(weights, H, bank, attempt, word).Ok?
  {
    if bank == [] {
      assert ScoreBelow(weights, H, bank, word, 1) == Err(KeyError);
      ScoreBelowStaysErr(weights, H, bank, word, 1, WordLength);
    } else {
      ScoreBelowOutcome(weights, H, bank, word, WordLength);
    }
  }

  /** With the default weights every word of a non-empty bank has a score. */
  lemma DefaultScoreIsOk(H: real -> real, bank: seq<TextWord>, attempt: int, word: TextWord)
    requires bank != []
    ensures Score(DefaultWeights, H, bank, attempt, word).Ok?
  {
    ScoreOutcome(DefaultWeights, H, bank, attempt, word);
  }
}
