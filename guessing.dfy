/** The guess helper of guessing.py (`GuessHelper`): a string word bank
    narrowed by green, yellow and white feedback, and the best and worst
    guesses found by scoring a bank with the entropy calculator while
    keeping two heaps. */
module Guessing {
  import opened Seqs
  import opened Words
  import opened Outcomes
  import opened Feedback
  import opened Ordering
  import opened HeapSelection
  import opened GuessingScore

  /** The validation of `cull_possible_word_bank`, in the source's order: the
      guess must be in the full bank, the feedback may hold only g, y and w,
      and it must have five symbols. */
  function CheckCull(fullWordBank: seq<TextWord>, guessedWord: string, info: string): (r: Result<()>)
    ensures r.Ok? <==> guessedWord in fullWordBank && (forall i :: 0 <= i < |info| ==> info[i] in "gyw") && |info| == WordLength
    ensures guessedWord !in fullWordBank ==> r == Err(ValueError(NotInWordBank))
    ensures guessedWord in fullWordBank && (exists i :: 0 <= i < |info| && info[i] !in "gyw") ==> r == Err(ValueError(InvalidCharacters))
    ensures guessedWord in fullWordBank && (forall i :: 0 <= i < |info| ==> info[i] in "gyw") && |info| != WordLength ==>
              r == Err(ValueError(WrongLength))
  {
    if guessedWord !in fullWordBank then Err(ValueError(NotInWordBank))
    else if exists i :: 0 <= i < |info| && info[i] !in "gyw" then Err(ValueError(InvalidCharacters))
    else if |info| != WordLength then Err(ValueError(WrongLength))
    else Ok(())
  }

  /** `letter_counts[c]` after the first `n` positions: the green and yellow
      marks given to `c`. */
  function Credited(guess: string, info: string, c: char, n: nat): nat
    requires n <= |guess| && n <= |info|
  {
    MarkCount(guess, info, c, 'g', n) + MarkCount(guess, info, c, 'y', n)
  }

  /** The filter of position `i` of the guess: a green pins the letter, a
      yellow demands it elsewhere, a white bans a letter with no green or
      yellow mark and otherwise caps its count and bans it at `i`. */
  predicate PositionKeeps(w: TextWord, guess: TextWord, info: string, i: nat)
    requires |info| == WordLength && i < WordLength
  {
    var c := guess[i];
    if info[i] == 'g' then w[i] == c
    else if info[i] == 'y' then c in w && w[i] != c
    else if info[i] == 'w' then
      if Credited(guess, info, c, WordLength) == 0 then c !in w
      else Count(w, c) <= Credited(guess, info, c, WordLength) && w[i] != c
    else true
  }

  /** `w` passes the filters of the first `n` positions. */
  predicate PositionsKeep(w: TextWord, guess: TextWord, info: string, n: nat)
    requires |info| == WordLength && n <= WordLength
  {
    forall i :: 0 <= i < n ==> PositionKeeps(w, guess, info, i)
  }

  /** The possible words after a cull of `bank` by valid input. */
  function GuessCullResult(bank: seq<TextWord>, guess: TextWord, info: string): (r: seq<TextWord>)
    requires |info| == WordLength
    ensures forall w :: w in r <==> w in bank && PositionsKeep(w, guess, info, WordLength)
    ensures IsSubsequence(r, bank)
  {
    FilterIsSubsequence(bank, (w: TextWord) => PositionsKeep(w, guess, info, WordLength));
    Filter(bank, (w: TextWord) => PositionsKeep(w, guess, info, WordLength))
  }

  /** The heaps after scoring the words of `universe` in order: each score
      goes into the best heap as `(score, word)` and into the worst heap as
      `(-score, word)`; the first error of the calculator or of
      `heapreplace` ends the scan. */
  function Scan(weights: GuessingWeights, H: real -> real, bank: seq<TextWord>, attempt: int,
                universe: seq<TextWord>, numBest: int, numWorst: int): Result<(seq<Entry>, seq<Entry>)>
  {
    if universe == [] then Ok(([], []))
    else
      var word := universe[|universe| - 1];
      match Scan(weights, H, bank, attempt, universe[..|universe| - 1], numBest, numWorst)
      case Err(e) => Err(e)
      case Ok(heaps) =>
        match Score(weights, H, bank, attempt, word)
        case Err(e) => Err(e)
        case Ok(s) => Push(heaps, s, word, numBest, numWorst)
  }

  /** One word's score pushed into both heaps: `(score, word)` into the
      best heap and `(-score, word)` into the worst one. */
  function Push(heaps: (seq<Entry>, seq<Entry>), s: real, word: string, numBest: int, numWorst: int): (r: Result<(seq<Entry>, seq<Entry>)>)
    ensures r.Ok? <==> WorstStep(heaps.1, (-s, word), numWorst).Ok?
    ensures r.Ok? ==> r.value.0 == BestStep(heaps.0, (s, word), numBest) && (-s, word) in r.value.1
    ensures r.Ok? ==> r.value.1 == WorstStep(heaps.1, (-s, word), numWorst).value
  {
    match WorstStep(heaps.1, (-s, word), numWorst)
    case Err(e) => Err(e)
    case Ok(worst) => Ok((BestStep(heaps.0, (s, word), numBest), worst))
  }

  /** `[(word, score) for score, word in heap]`. */
  function Swapped(h: seq<Entry>): (r: seq<Pair>)
    ensures |r| == |h|
    ensures forall i :: 0 <= i < |h| ==> r[i] == (h[i].1, h[i].0)
  {
    seq(|h|, i requires 0 <= i < |h| => (h[i].1, h[i].0))
  }

  /** `[(word, -score) for score, word in heap]`. */
  function Negated(h: seq<Entry>): (r: seq<Pair>)
    ensures |r| == |h|
    ensures forall i :: 0 <= i < |h| ==> r[i] == (h[i].1, -h[i].0)
  {
    seq(|h|, i requires 0 <= i < |h| => (h[i].1, -h[i].0))
  }

  /** The words scored: all words, or only the possible ones in hardcore mode. */
  function Universe(fullWordBank: seq<TextWord>, possibleWordBank: seq<TextWord>, hardcoreMode: bool): seq<TextWord>
  {
    if hardcoreMode then possibleWordBank else fullWordBank
  }

  /** The result of `find_optimal_guesses`: the best heap sorted in reverse
      and the worst heap with its scores restored, sorted. */
  function OptimalGuesses(weights: GuessingWeights, H: real -> real, fullWordBank: seq<TextWord>,
                          possibleWordBank: seq<TextWord>, hardcoreMode: bool, attempt: int,
                          numBest: int, numWorst: int): Result<(seq<Pair>, seq<Pair>)>
  {
    match Scan(weights, H, possibleWordBank, attempt, Universe(fullWordBank, possibleWordBank, hardcoreMode), numBest, numWorst)
    case Err(e) => Err(e)
    case Ok(heaps) => Ok((SortDesc(Swapped(heaps.0)), SortAsc(Negated(heaps.1))))
  }

  /** Every word of `universe` has a score. */
  predicate AllScored(weights: GuessingWeights, H: real -> real, bank: seq<TextWord>, attempt: int, universe: seq<TextWord>)
  {
    forall w :: w in universe ==> Score(weights, H, bank, attempt, w).Ok?
  }

  /** The `(score, word)` entries of a universe whose words all have scores. */
  function Entries(weights: GuessingWeights, H: real -> real, bank: seq<TextWord>, attempt: int, universe: seq<TextWord>): (r: seq<Entry>)
    requires AllScored(weights, H, bank, attempt, universe)
    ensures |r| == |universe|
  {
    if universe == [] then []
    else
      var word := universe[|universe| - 1];
      Entries(weights, H, bank, attempt, universe[..|universe| - 1]) + [(Score(weights, H, bank, attempt, word).value, word)]
  }

  /** The `(-score, word)` entries of the same universe. */
  function NegatedEntries(weights: GuessingWeights, H: real -> real, bank: seq<TextWord>, attempt: int, universe: seq<TextWord>): (r: seq<Entry>)
    requires AllScored(weights, H, bank, attempt, universe)
    ensures |r| == |universe|
  {
    if universe == [] then []
    else
      var word := universe[|universe| - 1];
      NegatedEntries(weights, H, bank, attempt, universe[..|universe| - 1]) + [(-Score(weights, H, bank, attempt, word).value, word)]
  }

  /** When every word has a score, the scan is the two heap folds over the
      entries: it fails only when the worst heap does. */
  lemma {:induction false} ScanIsFolds(weights: GuessingWeights, H: real -> real, bank: seq<TextWord>, attempt: int,
                                       universe: seq<TextWord>, numBest: int, numWorst: int)
    requires AllScored(weights, H, bank, attempt, universe)
    ensures var worst := WorstFold(NegatedEntries(weights, H, bank, attempt, universe), numWorst);
            Scan(weights, H, bank, attempt, universe, numBest, numWorst)
              == if worst.Err? then Err(worst.error)
                 else Ok((BestFold(Entries(weights, H, bank, attempt, universe), numBest), worst.value))
  {
    if universe != [] {
      var init := universe[..|universe| - 1];
      assert AllScored(weights, H, bank, attempt, init) by {
        forall w | w in init ensures Score(weights, H, bank, attempt, w).Ok? {
          assert w in universe;
        }
      }
      ScanIsFolds(weights, H, bank, attempt, init, numBest, numWorst);
      var items := Entries(weights, H, bank, attempt, universe);
      var negs := NegatedEntries(weights, H, bank, attempt, universe);
      assert items[..|items| - 1] == Entries(weights, H, bank, attempt, init);
      assert negs[..|negs| - 1] == NegatedEntries(weights, H, bank, attempt, init);
    }
  }

  /** The best list: `min(num_best, n)` of the `n` scored words, sorted by
      descending word, and no entry left out is greater than one kept. */
  lemma BestGuesses(weights: GuessingWeights, H: real -> real, fullWordBank: seq<TextWord>,
                    possibleWordBank: seq<TextWord>, hardcoreMode: bool, attempt: int, numBest: int, numWorst: int)
    requires AllScored(weights, H, possibleWordBank, attempt, Universe(fullWordBank, possibleWordBank, hardcoreMode))
    requires OptimalGuesses(weights, H, fullWordBank, possibleWordBank, hardcoreMode, attempt, numBest, numWorst).Ok?
    ensures var universe := Universe(fullWordBank, possibleWordBank, hardcoreMode);
            var items := Entries(weights, H, possibleWordBank, attempt, universe);
            var best := OptimalGuesses(weights, H, fullWordBank, possibleWordBank, hardcoreMode, attempt, numBest, numWorst).value.0;
            |best| == Min(Max(numBest, 0), |universe|)
            && SortedDesc(best)
            && multiset(best) == multiset(Swapped(BestFold(items, numBest)))
            && KeepsLargest(items, BestFold(items, numBest))
  {
    var universe := Universe(fullWordBank, possibleWordBank, hardcoreMode);
    var items := Entries(weights, H, possibleWordBank, attempt, universe);
    ScanIsFolds(weights, H, possibleWordBank, attempt, universe, numBest, numWorst);
    BestFoldSize(items, numBest);
    BestFoldIsTopK(items, numBest);
  }

  /** The worst list: with `num_worst >= 1` nothing fails, it holds
      `min(num_worst, n)` entries drawn from the scored words and always the
      last word scored; with `num_worst <= 0` and a word to score,
      `heapreplace` fails on the empty heap. */
  lemma WorstGuesses(weights: GuessingWeights, H: real -> real, fullWordBank: seq<TextWord>,
                     possibleWordBank: seq<TextWord>, hardcoreMode: bool, attempt: int, numBest: int, numWorst: int)
    requires AllScored(weights, H, possibleWordBank, attempt, Universe(fullWordBank, possibleWordBank, hardcoreMode))
    ensures var universe := Universe(fullWordBank, possibleWordBank, hardcoreMode);
            var r := OptimalGuesses(weights, H, fullWordBank, possibleWordBank, hardcoreMode, attempt, numBest, numWorst);
            && (numWorst >= 1 ==> r.Ok? && |r.value.1| == Min(numWorst, |universe|))
            && (numWorst >= 1 && universe != [] ==> exists p :: p in r.value.1 && p.0 == universe[|universe| - 1])
            && (numWorst <= 0 && universe != [] ==> r == Err(IndexError))
  {
    var universe := Universe(fullWordBank, possibleWordBank, hardcoreMode);
    var negs := NegatedEntries(weights, H, possibleWordBank, attempt, universe);
    ScanIsFolds(weights, H, possibleWordBank, attempt, universe, numBest, numWorst);
    if numWorst >= 1 {
      WorstFoldShape(negs, numWorst);
      if universe != [] {
        var h := WorstFold(negs, numWorst).value;
        var last := negs[|negs| - 1];
        assert last.1 == universe[|universe| - 1];
        var j :| 0 <= j < |h| && h[j] == last;
        var sorted := SortAsc(Negated(h));
        assert Negated(h)[j] in multiset(sorted);
      }
    } else {
      WorstFoldFails(negs, numWorst);
    }
  }

  /** Outside hardcore mode, an empty possible bank makes the first score
      fail with KeyError; in hardcore mode nothing is scored. */
  lemma EmptyPossibleBank(weights: GuessingWeights, H: real -> real, fullWordBank: seq<TextWord>,
                          hardcoreMode: bool, attempt: int, numBest: int, numWorst: int)
    ensures var r := OptimalGuesses(weights, H, fullWordBank, [], hardcoreMode, attempt, numBest, numWorst);
            (hardcoreMode ==> r == Ok(([], [])))
            && (!hardcoreMode && fullWordBank != [] ==> r == Err(KeyError))
  {
    if !hardcoreMode && fullWordBank != [] {
      ScanFirstError(weights, H, [], attempt, fullWordBank, numBest, numWorst);
    }
  }

  /** The scan over words none of which has a score fails with the first word's error. */
  lemma {:induction false} ScanFirstError(weights: GuessingWeights, H: real -> real, bank: seq<TextWord>, attempt: int,
                                          universe: seq<TextWord>, numBest: int, numWorst: int)
    requires bank == [] && universe != []
    ensures Scan(weights, H, bank, attempt, universe, numBest, numWorst) == Err(KeyError)
  {
    ScoreOutcome(weights, H, bank, attempt, universe[|universe| - 1]);
    if |universe| > 1 {
      ScanFirstError(weights, H, bank, attempt, universe[..|universe| - 1], numBest, numWorst);
    }
  }

  /** What a word that survives a cull satisfies, and conversely: for each
      mark of the guess the rule of `cull_possible_word_bank`. */
  lemma GuessCullRules(bank: seq<TextWord>, guess: TextWord, info: string, w: TextWord)
    requires |info| == WordLength
    ensures w in GuessCullResult(bank, guess, info) <==>
      w in bank
      && (forall i :: 0 <= i < WordLength && info[i] == 'g' ==> w[i] == guess[i])
      && (forall i :: 0 <= i < WordLength && info[i] == 'y' ==> guess[i] in w && w[i] != guess[i])
      && (forall i :: 0 <= i < WordLength && info[i] == 'w' && Credited(guess, info, guess[i], WordLength) == 0 ==> guess[i] !in w)
      && (forall i :: 0 <= i < WordLength && info[i] == 'w' && Credited(guess, info, guess[i], WordLength) > 0 ==>
            Count(w, guess[i]) <= Credited(guess, info, guess[i], WordLength) && w[i] != guess[i])
  {
    forall i | 0 <= i < WordLength
      ensures PositionKeeps(w, guess, info, i) <==>
        (info[i] == 'g' ==> w[i] == guess[i])
        && (info[i] == 'y' ==> guess[i] in w && w[i] != guess[i])
        && (info[i] == 'w' && Credited(guess, info, guess[i], WordLength) == 0 ==> guess[i] !in w)
        && (info[i] == 'w' && Credited(guess, info, guess[i], WordLength) > 0 ==>
              Count(w, guess[i]) <= Credited(guess, info, guess[i], WordLength) && w[i] != guess[i])
    {
    }
  }

  /** A cull never removes the secret when the feedback is the game's own
      evaluation of the guess against that secret. */
  lemma GuessCullKeepsSecret(bank: seq<TextWord>, secret: TextWord, guess: TextWord)
    requires secret in bank
    ensures secret in GuessCullResult(bank, guess, Oracle(secret, guess))
  {
    var info := Oracle(secret, guess);
    forall i | 0 <= i < WordLength ensures PositionKeeps(secret, guess, info, i) {
      var c := guess[i];
      if info[i] == 'y' {
        YellowMeansElsewhere(secret, guess, i);
      } else if info[i] == 'w' {
        WhiteMeansExhausted(secret, guess, c, i);
        CountPositive(secret, c);
      }
    }
  }

  /** The helper's state: the full bank, the words still possible, the mode
      and the score calculator built over the full bank. */
  class GuessHelper {
    const fullWordBank: seq<TextWord>
    var possibleWordBank: seq<TextWord>
    const hardcoreMode: bool
    const scoreCalculator: EntropyScoreCalculator

    ghost predicate Valid()
      reads this, scoreCalculator
    {
      scoreCalculator.Valid() && scoreCalculator.fullWordBank == fullWordBank
    }

    /** `__init__`: every word possible, a fresh calculator. */
    constructor (fullWordBank: seq<TextWord>, hyperparameters: GuessingWeights, H: real -> real, hardcoreMode: bool)
      ensures this.fullWordBank == fullWordBank && this.hardcoreMode == hardcoreMode
      ensures possibleWordBank == fullWordBank
      ensures fresh(scoreCalculator)
      ensures scoreCalculator.hyperparameters == hyperparameters && scoreCalculator.H == H
      ensures !scoreCalculator.wordBankSet
      ensures Valid()
    {
      this.fullWordBank := fullWordBank;
      possibleWordBank := fullWordBank;
      this.hardcoreMode := hardcoreMode;
      scoreCalculator := new EntropyScoreCalculator(fullWordBank, hyperparameters, H);
    }

    /** `find_optimal_guesses`: refresh the calculator with the possible words
        and the attempt number, score the words of the mode, and report the
        two heaps. */
    method FindOptimalGuesses(attemptNum: int, numBest: int, numWorst: int) returns (r: Result<(seq<Pair>, seq<Pair>)>)
      requires Valid()
      modifies scoreCalculator
      ensures Valid()
      ensures scoreCalculator.wordBankSet
      ensures scoreCalculator.possibleWordBank == possibleWordBank && scoreCalculator.attemptNum == attemptNum
      ensures r == OptimalGuesses(scoreCalculator.hyperparameters, scoreCalculator.H, fullWordBank, possibleWordBank,
                                  hardcoreMode, attemptNum, numBest, numWorst)
    {
      scoreCalculator.UpdateWordBank(possibleWordBank, attemptNum);
      var wordBank := if hardcoreMode then possibleWordBank else fullWordBank;
      var heaps := ScanHeaps(wordBank, numBest, numWorst);
      if heaps.Err? {
        return Err(heaps.error);
      }
      var (best, worst) := heaps.value;
      r := Ok((SortDesc(Swapped(best)), SortAsc(Negated(worst))));
    }

    /** The loop of `find_optimal_guesses`: each word of `wordBank` scored
        and pushed into the two heaps. */
    method ScanHeaps(wordBank: seq<TextWord>, numBest: int, numWorst: int) returns (r: Result<(seq<Entry>, seq<Entry>)>)
      requires scoreCalculator.Valid() && scoreCalculator.wordBankSet
      ensures r == Scan(scoreCalculator.hyperparameters, scoreCalculator.H, scoreCalculator.possibleWordBank,
                        scoreCalculator.attemptNum, wordBank, numBest, numWorst)
    {
      var calculator := scoreCalculator;
      ghost var weights, H, bank, attempt := calculator.hyperparameters, calculator.H, calculator.possibleWordBank, calculator.attemptNum;
      var best: seq<Entry> := [];
      var worst: seq<Entry> := [];
      var i := 0;
      while i < |wordBank|
        invariant i <= |wordBank|
        invariant Scan(weights, H, bank, attempt, wordBank[..i], numBest, numWorst) == Ok((best, worst))
      {
        var word := wordBank[i];
        assert wordBank[..i + 1][..i] == wordBank[..i];
        var wordScore := calculator.Call(word);
        if wordScore.Err? {
          ScanStaysErr(weights, H, bank, attempt, wordBank, numBest, numWorst, i + 1);
          return Err(wordScore.error);
        }
        var pushed := PushScore(best, worst, wordScore.value, word, numBest, numWorst);
        if pushed.Err? {
          ScanStaysErr(weights, H, bank, attempt, wordBank, numBest, numWorst, i + 1);
          return Err(pushed.error);
        }
        best, worst := pushed.value.0, pushed.value.1;
        i := i + 1;
      }
      assert wordBank[..i] == wordBank;
      r := Ok((best, worst));
    }

    /** The heap updates of one iteration of `find_optimal_guesses`. */
    static method PushScore(best: seq<Entry>, worst: seq<Entry>, s: real, word: string, numBest: int, numWorst: int)
      returns (r: Result<(seq<Entry>, seq<Entry>)>)
      ensures r == Push((best, worst), s, word, numBest, numWorst)
    {
      var newBest := best;
      if |newBest| < numBest {
        newBest := newBest + [(s, word)];
      } else {
        newBest := PushPop(newBest, (s, word));
      }
      if |worst| < numWorst {
        return Ok((newBest, worst + [(-s, word)]));
      }
      var replaced := Replace(worst, (-s, word));
      if replaced.Err? {
        return Err(replaced.error);
      }
      r := Ok((newBest, replaced.value));
    }

    /** `cull_possible_word_bank`: validate the input, leaving the bank as it
        was on a ValueError, then count the green and yellow marks per letter
        and filter the bank position by position. */
    method CullPossibleWordBank(guessedWord: string, guessedWordInfo: string) returns (r: Result<()>)
      modifies this
      ensures r == CheckCull(fullWordBank, guessedWord, guessedWordInfo)
      ensures r.Err? ==> possibleWordBank == old(possibleWordBank)
      ensures r.Ok? ==> |guessedWord| == WordLength
                        && possibleWordBank == GuessCullResult(old(possibleWordBank), guessedWord, guessedWordInfo)
    {
      r := CheckCull(fullWordBank, guessedWord, guessedWordInfo);
      if r.Err? {
        return;
      }
      var guess: TextWord := guessedWord;
      var info := guessedWordInfo;
      var letterCounts := CountMarks(guess, info);
      ghost var start := possibleWordBank;
      FilterAll(start, (w: TextWord) => PositionsKeep(w, guess, info, 0));
      var position := 0;
      while position < WordLength
        invariant position <= WordLength
        invariant possibleWordBank == Filter(start, (w: TextWord) => PositionsKeep(w, guess, info, position))
      {
        FilterPosition(guess, info, letterCounts, position);
        FilterFilter(start, (w: TextWord) => PositionsKeep(w, guess, info, position),
          (w: TextWord) => PositionKeeps(w, guess, info, position),
          (w: TextWord) => PositionsKeep(w, guess, info, position + 1));
        position := position + 1;
      }
    }

    /** The first loop of `cull_possible_word_bank`: one more for a letter at
        each green or yellow mark. */
    static method CountMarks(guess: TextWord, info: string) returns (letterCounts: map<char, nat>)
      requires |info| == WordLength
      ensures forall c :: (if c in letterCounts then letterCounts[c] else 0) == Credited(guess, info, c, WordLength)
    {
      letterCounts := map[];
      var i := 0;
      while i < WordLength
        invariant i <= WordLength
        invariant forall c :: (if c in letterCounts then letterCounts[c] else 0) == Credited(guess, info, c, i)
      {
        var c := guess[i];
        if info[i] == 'g' || info[i] == 'y' {
          letterCounts := letterCounts[c := (if c in letterCounts then letterCounts[c] else 0) + 1];
        }
        i := i + 1;
      }
    }

    /** One iteration of the second loop: the filter of the mark at `position`. */
    method FilterPosition(guess: TextWord, info: string, letterCounts: map<char, nat>, position: nat)
      requires |info| == WordLength && position < WordLength
      requires forall c :: (if c in letterCounts then letterCounts[c] else 0) == Credited(guess, info, c, WordLength)
      modifies this
      ensures possibleWordBank == Filter(old(possibleWordBank), (w: TextWord) => PositionKeeps(w, guess, info, position))
    {
      var c := guess[position];
      var charInfo := info[position];
      ghost var before := possibleWordBank;
      if charInfo == 'g' {
        possibleWordBank := Filter(possibleWordBank, (w: TextWord) => w[position] == c);
        FilterExt(before, (w: TextWord) => w[position] == c, (w: TextWord) => PositionKeeps(w, guess, info, position));
      } else if charInfo == 'y' {
        possibleWordBank := Filter(possibleWordBank, (w: TextWord) => c in w && w[position] != c);
        FilterExt(before, (w: TextWord) => c in w && w[position] != c, (w: TextWord) => PositionKeeps(w, guess, info, position));
      } else if charInfo == 'w' {
        var count := if c in letterCounts then letterCounts[c] else 0;
        if count == 0 {
          possibleWordBank := Filter(possibleWordBank, (w: TextWord) => c !in w);
          FilterExt(before, (w: TextWord) => c !in w, (w: TextWord) => PositionKeeps(w, guess, info, position));
        } else {
          possibleWordBank := Filter(possibleWordBank, (w: TextWord) => Count(w, c) <= count && w[position] != c);
          FilterExt(before, (w: TextWord) => Count(w, c) <= count && w[position] != c,
            (w: TextWord) => PositionKeeps(w, guess, info, position));
        }
      } else {
        FilterAll(before, (w: TextWord) => PositionKeeps(w, guess, info, position));
      }
    }
  }

  /** Once the scan of a prefix fails, the scan of the whole universe fails
      with the same error. */
  lemma {:induction false} ScanStaysErr(weights: GuessingWeights, H: real -> real, bank: seq<TextWord>, attempt: int,
                                        universe: seq<TextWord>, numBest: int, numWorst: int, n: nat)
    requires n <= |universe| && Scan(weights, H, bank, attempt, universe[..n], numBest, numWorst).Err?
    ensures Scan(weights, H, bank, attempt, universe, numBest, numWorst) == Scan(weights, H, bank, attempt, universe[..n], numBest, numWorst)
    decreases |universe| - n
  {
    if n < |universe| {
      assert universe[..n + 1][..n] == universe[..n];
      ScanStaysErr(weights, H, bank, attempt, universe, numBest, numWorst, n + 1);
    } else {
      assert universe[..n] == universe;
    }
  }
}
