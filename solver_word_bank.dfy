/** The word bank of the `wordle_solver` package
    (wordle_solver/utils/word_bank_manager.py): the same bank and filters as
    the `wordle_buddy` manager, with the older `cull`, which bounds the count
    of a repeated letter only from above and only after a gray mark, and
    whose yellow filter searches the whole word. */
module SolverWordBank {
  import opened Seqs
  import opened Words
  import opened Feedback
  import opened BankFilters

  /** `_remove_yellow` keeps the words that hold the letter somewhere but not
      at `index`. */
  predicate YellowKeeps(w: Word, index: nat, correct: int)
  {
    correct in w && index < WordLength && w[index] != correct
  }

  /** `_remove_duplicate_letters` keeps the words with at most `maxCount`
      copies of the letter. */
  predicate DuplicateKeeps(w: Word, letter: int, maxCount: int)
  {
    Count(w, letter) <= maxCount
  }

  /** `_regular_removal`: the filter of a letter that occurs once in the guess. */
  predicate RegularKeeps(w: Word, letter: int, position: nat, feedback: Color)
  {
    match feedback
    case Gray => GrayKeeps(w, letter)
    case Green => GreenKeeps(w, position, letter)
    case Yellow => YellowKeeps(w, position, letter)
  }

  /** The count bound of a repeated letter: only when one copy was marked gray,
      at most the number of non-gray marks. */
  predicate BoundKeeps(w: Word, letter: int, feedback: seq<Color>)
  {
    Gray in feedback ==> DuplicateKeeps(w, letter, |feedback| - Count(feedback, Gray))
  }

  /** The filter of one position of a repeated letter; gray positions add none. */
  predicate PositionKeeps(w: Word, letter: int, i: nat, color: Color)
  {
    match color
    case Green => GreenKeeps(w, i, letter)
    case Yellow => YellowKeeps(w, i, letter)
    case Gray => true
  }

  /** The first `n` positions of a repeated letter pass their filters. */
  predicate PositionsKeep(w: Word, letter: int, indices: seq<nat>, feedback: seq<Color>, n: nat)
    requires n <= |indices| == |feedback|
  {
    forall t :: 0 <= t < n ==> PositionKeeps(w, letter, indices[t], feedback[t])
  }

  /** The filter `cull` applies for a letter that occurs several times. */
  predicate RepeatedKeeps(w: Word, letter: int, indices: seq<nat>, feedback: seq<Color>)
    requires |indices| == |feedback|
  {
    BoundKeeps(w, letter, feedback) && PositionsKeep(w, letter, indices, feedback, |indices|)
  }

  /** The filter `cull` applies for one letter of the guess. */
  predicate LetterKeeps(w: Word, guess: Word, information: seq<Color>, letter: int)
    requires |information| == WordLength
  {
    var indices := Indices(guess, letter);
    var feedback := Pick(information, indices);
    if |indices| == 1 then RegularKeeps(w, letter, indices[0], feedback[0])
    else RepeatedKeeps(w, letter, indices, feedback)
  }

  /** `w` passes the filters of the first `n` letters of `occurrences`. */
  predicate LettersKeep(w: Word, guess: Word, information: seq<Color>, occurrences: seq<(int, nat)>, n: nat)
    requires |information| == WordLength && n <= |occurrences|
  {
    forall t :: 0 <= t < n ==> LetterKeeps(w, guess, information, occurrences[t].0)
  }

  /** `w` survives a cull by `guess` and `information`. */
  predicate Survives(w: Word, guess: Word, information: seq<Color>)
    requires |information| == WordLength
  {
    var occurrences := FindDuplicates(guess);
    LettersKeep(w, guess, information, occurrences, |occurrences|)
  }

  /** The possible words after a cull of `bank`. */
  function CullResult(bank: seq<Word>, guess: Word, information: seq<Color>): (r: seq<Word>)
    requires |information| == WordLength
    ensures forall w :: w in r <==> w in bank && Survives(w, guess, information)
    ensures |r| <= |bank|
  {
    Filter(bank, (w: Word) => Survives(w, guess, information))
  }

  class WordBankManager {
    /** The normalised bank as loaded. */
    const fullWordBank: seq<Word>
    /** The code point that was subtracted to normalise the bank. */
    const asciiConverterKey: int
    /** The words still consistent with the feedback given so far. */
    var possibleWordBank: seq<Word>

    /** The possible words are drawn from the full bank, whose codes are
        non-negative and decode to characters. */
    ghost predicate Valid()
      reads this
    {
      (forall w :: w in possibleWordBank ==> w in fullWordBank)
      && Normalized(fullWordBank)
      && (forall w :: w in fullWordBank ==> Decodable(w, asciiConverterKey))
    }

    /** `__init__`: the bank converted by `_load_word_bank`, every word possible. */
    constructor (words: seq<TextWord>)
      requires words != []
      ensures fullWordBank == LoadBank(words).0 && asciiConverterKey == LoadBank(words).1
      ensures possibleWordBank == fullWordBank
      ensures Valid()
    {
      var loaded := LoadBank(words);
      fullWordBank := loaded.0;
      asciiConverterKey := loaded.1;
      possibleWordBank := loaded.0;
      new;
      forall w | w in loaded.0 ensures Decodable(w, loaded.1) {
        var i :| 0 <= i < |loaded.0| && loaded.0[i] == w;
        LoadedWordsDecode(words, i);
      }
    }

    method RemoveGray(incorrect: int)
      requires Valid()
      modifies this
      ensures Valid()
      ensures possibleWordBank == Filter(old(possibleWordBank), (w: Word) => GrayKeeps(w, incorrect))
    {
      possibleWordBank := Filter(possibleWordBank, (w: Word) => GrayKeeps(w, incorrect));
    }

    method RemoveGreen(index: nat, correct: int)
      requires Valid()
      modifies this
      ensures Valid()
      ensures possibleWordBank == Filter(old(possibleWordBank), (w: Word) => GreenKeeps(w, index, correct))
    {
      possibleWordBank := Filter(possibleWordBank, (w: Word) => GreenKeeps(w, index, correct));
    }

    method RemoveYellow(index: nat, correct: int)
      requires Valid()
      modifies this
      ensures Valid()
      ensures possibleWordBank == Filter(old(possibleWordBank), (w: Word) => YellowKeeps(w, index, correct))
    {
      possibleWordBank := Filter(possibleWordBank, (w: Word) => YellowKeeps(w, index, correct));
    }

    method RemoveDuplicateLetters(letter: int, maxCount: int)
      requires Valid()
      modifies this
      ensures Valid()
      ensures possibleWordBank == Filter(old(possibleWordBank), (w: Word) => DuplicateKeeps(w, letter, maxCount))
    {
      possibleWordBank := Filter(possibleWordBank, (w: Word) => DuplicateKeeps(w, letter, maxCount));
    }

    method RegularRemoval(letter: int, position: nat, feedback: Color)
      requires Valid()
      modifies this
      ensures Valid()
      ensures possibleWordBank == Filter(old(possibleWordBank), (w: Word) => RegularKeeps(w, letter, position, feedback))
    {
      ghost var before := possibleWordBank;
      match feedback
      case Gray =>
        RemoveGray(letter);
        FilterExt(before, (w: Word) => GrayKeeps(w, letter), (w: Word) => RegularKeeps(w, letter, position, feedback));
      case Green =>
        RemoveGreen(position, letter);
        FilterExt(before, (w: Word) => GreenKeeps(w, position, letter), (w: Word) => RegularKeeps(w, letter, position, feedback));
      case Yellow =>
        RemoveYellow(position, letter);
        FilterExt(before, (w: Word) => YellowKeeps(w, position, letter), (w: Word) => RegularKeeps(w, letter, position, feedback));
    }

    /** The gray bound of the `else` branch of `cull`. */
    method BoundRemoval(letter: int, feedback: seq<Color>)
      requires Valid()
      modifies this
      ensures Valid()
      ensures possibleWordBank == Filter(old(possibleWordBank), (w: Word) => BoundKeeps(w, letter, feedback))
    {
      ghost var before := possibleWordBank;
      if Gray in feedback {
        var maxCount := |feedback| - Count(feedback, Gray);
        RemoveDuplicateLetters(letter, maxCount);
        FilterExt(before, (w: Word) => DuplicateKeeps(w, letter, maxCount), (w: Word) => BoundKeeps(w, letter, feedback));
      } else {
        FilterAll(before, (w: Word) => BoundKeeps(w, letter, feedback));
      }
    }

    /** Green or yellow at one position of a repeated letter; gray removes nothing. */
    method PositionRemoval(letter: int, i: nat, color: Color)
      requires Valid()
      modifies this
      ensures Valid()
      ensures possibleWordBank == Filter(old(possibleWordBank), (w: Word) => PositionKeeps(w, letter, i, color))
    {
      ghost var prev := possibleWordBank;
      if color == Green {
        RemoveGreen(i, letter);
        FilterExt(prev, (w: Word) => GreenKeeps(w, i, letter), (w: Word) => PositionKeeps(w, letter, i, color));
      } else if color == Yellow {
        RemoveYellow(i, letter);
        FilterExt(prev, (w: Word) => YellowKeeps(w, i, letter), (w: Word) => PositionKeeps(w, letter, i, color));
      } else {
        FilterAll(prev, (w: Word) => PositionKeeps(w, letter, i, color));
      }
    }

    /** The `else` branch of `cull`: the gray bound, then green or yellow at
        each position of the letter in turn. */
    method RepeatedRemoval(letter: int, indices: seq<nat>, feedback: seq<Color>)
      requires Valid() && |indices| == |feedback|
      modifies this
      ensures Valid()
      ensures possibleWordBank == Filter(old(possibleWordBank), (w: Word) => RepeatedKeeps(w, letter, indices, feedback))
    {
      ghost var before := possibleWordBank;
      BoundRemoval(letter, feedback);
      ghost var bounded := possibleWordBank;
      FilterAll(bounded, (w: Word) => PositionsKeep(w, letter, indices, feedback, 0));
      var t := 0;
      while t < |indices|
        invariant t <= |indices|
        invariant Valid()
        invariant possibleWordBank == Filter(bounded, (w: Word) => PositionsKeep(w, letter, indices, feedback, t))
      {
        PositionRemoval(letter, indices[t], feedback[t]);
        PositionsKeepStep(bounded, letter, indices, feedback, t);
        t := t + 1;
      }
      FilterFilter(before,
        (w: Word) => BoundKeeps(w, letter, feedback),
        (w: Word) => PositionsKeep(w, letter, indices, feedback, t),
        (w: Word) => RepeatedKeeps(w, letter, indices, feedback));
    }

    /** One iteration of `cull`: the filter of one letter, found `count` times. */
    method CullLetter(guess: Word, information: seq<Color>, letter: int, count: nat)
      requires Valid() && |information| == WordLength && count == Count(guess, letter)
      modifies this
      ensures Valid()
      ensures possibleWordBank == Filter(old(possibleWordBank), (w: Word) => LetterKeeps(w, guess, information, letter))
    {
      var indices := Indices(guess, letter);
      var feedback := Pick(information, indices);
      ghost var before := possibleWordBank;
      if count == 1 {
        RegularRemoval(letter, indices[0], feedback[0]);
        FilterExt(before, (w: Word) => RegularKeeps(w, letter, indices[0], feedback[0]),
          (w: Word) => LetterKeeps(w, guess, information, letter));
      } else {
        RepeatedRemoval(letter, indices, feedback);
        FilterExt(before, (w: Word) => RepeatedKeeps(w, letter, indices, feedback),
          (w: Word) => LetterKeeps(w, guess, information, letter));
      }
    }

    /** `cull`: filter the possible words by every letter of the guess, in
        increasing code order, stopping once no word is left. */
    method Cull(guess: Word, information: seq<Color>)
      requires Valid() && |information| == WordLength
      modifies this
      ensures Valid()
      ensures possibleWordBank == CullResult(old(possibleWordBank), guess, information)
    {
      ghost var start := possibleWordBank;
      var occurrences := FindDuplicates(guess);
      FilterAll(start, (w: Word) => LettersKeep(w, guess, information, occurrences, 0));
      var j := 0;
      while j < |occurrences|
        invariant j <= |occurrences|
        invariant Valid()
        invariant possibleWordBank == Filter(start, (w: Word) => LettersKeep(w, guess, information, occurrences, j))
      {
        var (letter, count) := occurrences[j];
        if |possibleWordBank| == 0 {
          EmptyStaysEmpty(start, guess, information, occurrences, j);
          return;
        }
        CullLetter(guess, information, letter, count);
        LettersKeepStep(start, guess, information, occurrences, j);
        j := j + 1;
      }
      FilterExt(start,
        (w: Word) => LettersKeep(w, guess, information, occurrences, j),
        (w: Word) => Survives(w, guess, information));
    }

    /** `reset`: every word of the bank is possible again. */
    method Reset()
      requires Valid()
      modifies this
      ensures Valid()
      ensures possibleWordBank == fullWordBank
    {
      possibleWordBank := fullWordBank;
    }
  }

  lemma LettersKeepPrefix(w: Word, guess: Word, information: seq<Color>, occurrences: seq<(int, nat)>, j: nat, n: nat)
    requires |information| == WordLength && j <= n <= |occurrences|
    ensures LettersKeep(w, guess, information, occurrences, n) ==> LettersKeep(w, guess, information, occurrences, j)
  {
  }

  /** Filtering by one more letter extends the prefix of filters passed. */
  lemma LettersKeepStep(bank: seq<Word>, guess: Word, information: seq<Color>, occurrences: seq<(int, nat)>, j: nat)
    requires |information| == WordLength && j < |occurrences|
    ensures Filter(Filter(bank, (w: Word) => LettersKeep(w, guess, information, occurrences, j)),
                   (w: Word) => LetterKeeps(w, guess, information, occurrences[j].0))
         == Filter(bank, (w: Word) => LettersKeep(w, guess, information, occurrences, j + 1))
  {
    FilterFilter(bank,
      (w: Word) => LettersKeep(w, guess, information, occurrences, j),
      (w: Word) => LetterKeeps(w, guess, information, occurrences[j].0),
      (w: Word) => LettersKeep(w, guess, information, occurrences, j + 1));
  }

  /** Filtering by one more position extends the prefix of filters passed. */
  lemma PositionsKeepStep(bank: seq<Word>, letter: int, indices: seq<nat>, feedback: seq<Color>, t: nat)
    requires t < |indices| == |feedback|
    ensures Filter(Filter(bank, (w: Word) => PositionsKeep(w, letter, indices, feedback, t)),
                   (w: Word) => PositionKeeps(w, letter, indices[t], feedback[t]))
         == Filter(bank, (w: Word) => PositionsKeep(w, letter, indices, feedback, t + 1))
  {
    FilterFilter(bank,
      (w: Word) => PositionsKeep(w, letter, indices, feedback, t),
      (w: Word) => PositionKeeps(w, letter, indices[t], feedback[t]),
      (w: Word) => PositionsKeep(w, letter, indices, feedback, t + 1));
  }

  /** Once no word passes the first filters, no word passes all of them. */
  lemma EmptyStaysEmpty(bank: seq<Word>, guess: Word, information: seq<Color>, occurrences: seq<(int, nat)>, j: nat)
    requires |information| == WordLength && j <= |occurrences| && occurrences == FindDuplicates(guess)
    requires Filter(bank, (w: Word) => LettersKeep(w, guess, information, occurrences, j)) == []
    ensures CullResult(bank, guess, information) == []
  {
    forall w: Word ensures Survives(w, guess, information) == (LettersKeep(w, guess, information, occurrences, j) && Survives(w, guess, information)) {
      LettersKeepPrefix(w, guess, information, occurrences, j, |occurrences|);
    }
    FilterFilter(bank,
      (w: Word) => LettersKeep(w, guess, information, occurrences, j),
      (w: Word) => Survives(w, guess, information),
      (w: Word) => Survives(w, guess, information));
  }

  /** A cull keeps an order-preserving subsequence of the bank. */
  lemma CullIsSubsequence(bank: seq<Word>, guess: Word, information: seq<Color>)
    requires |information| == WordLength
    ensures IsSubsequence(CullResult(bank, guess, information), bank)
  {
    FilterIsSubsequence(bank, (w: Word) => Survives(w, guess, information));
  }

  /** A word survives exactly when it passes the filter of every letter code
      of the guess that is not negative; negative codes get no filter. */
  lemma SurvivesIff(w: Word, guess: Word, information: seq<Color>)
    requires |information| == WordLength
    ensures Survives(w, guess, information) <==>
      forall i :: 0 <= i < WordLength && guess[i] >= 0 ==> LetterKeeps(w, guess, information, guess[i])
  {
    var occurrences := FindDuplicates(guess);
    if Survives(w, guess, information) {
      forall i | 0 <= i < WordLength && guess[i] >= 0 ensures LetterKeeps(w, guess, information, guess[i]) {
        assert guess[i] in guess;
        var j :| 0 <= j < |occurrences| && occurrences[j].0 == guess[i];
      }
    }
  }

  /** For a letter found once in the guess, at `i`: the same three rules as
      the `wordle_buddy` manager. */
  lemma SingleLetterRule(w: Word, guess: Word, information: seq<Color>, i: nat)
    requires |information| == WordLength && i < WordLength && Count(guess, guess[i]) == 1
    ensures LetterKeeps(w, guess, information, guess[i]) <==>
      match information[i]
      case Gray => guess[i] !in w
      case Green => w[i] == guess[i]
      case Yellow => guess[i] in w && w[i] != guess[i]
  {
    var indices := Indices(guess, guess[i]);
    assert i in indices;
    assert indices[0] == i;
  }

  /** The rule for a letter found several times, on the guess positions: no
      lower bound; at most the green and yellow marks when a copy was marked
      gray; the letter at every green position; for every yellow position,
      the letter somewhere in the word but not there. */
  predicate RepeatedRule(w: Word, guess: Word, information: seq<Color>, c: int)
    requires |information| == WordLength
  {
    var credited := MarkCount(guess, information, c, Green, WordLength) + MarkCount(guess, information, c, Yellow, WordLength);
    (MarkCount(guess, information, c, Gray, WordLength) > 0 ==> Count(w, c) <= credited)
    && (forall i :: 0 <= i < WordLength && guess[i] == c && information[i] == Green ==> w[i] == c)
    && (forall i :: 0 <= i < WordLength && guess[i] == c && information[i] == Yellow ==> c in w && w[i] != c)
  }

  /** For a letter found several times, the filter `cull` applies is exactly
      `RepeatedRule`. */
  lemma RepeatedLetterRule(w: Word, guess: Word, information: seq<Color>, c: int)
    requires |information| == WordLength && Count(guess, c) > 1
    ensures LetterKeeps(w, guess, information, c) <==> RepeatedRule(w, guess, information, c)
  {
    RepeatedBoundRule(w, guess, information, c);
    RepeatedPositionsRule(w, guess, information, c);
  }

  /** The gray bound, on the guess positions. */
  lemma RepeatedBoundRule(w: Word, guess: Word, information: seq<Color>, c: int)
    requires |information| == WordLength
    ensures var feedback := Pick(information, Indices(guess, c));
            BoundKeeps(w, c, feedback) <==>
              (MarkCount(guess, information, c, Gray, WordLength) > 0 ==>
                 Count(w, c) <= MarkCount(guess, information, c, Green, WordLength) + MarkCount(guess, information, c, Yellow, WordLength))
  {
    var feedback := Pick(information, Indices(guess, c));
    PickCount(guess, information, c, Gray, WordLength);
    CountPositive(feedback, Gray);
    ColorsPartition(guess, information, c, WordLength);
  }

  /** The green and yellow filters, on the guess positions. */
  lemma RepeatedPositionsRule(w: Word, guess: Word, information: seq<Color>, c: int)
    requires |information| == WordLength
    ensures var indices := Indices(guess, c);
            PositionsKeep(w, c, indices, Pick(information, indices), |indices|) <==>
              (forall i :: 0 <= i < WordLength && guess[i] == c && information[i] == Green ==> w[i] == c)
              && (forall i :: 0 <= i < WordLength && guess[i] == c && information[i] == Yellow ==> c in w && w[i] != c)
  {
    var indices := Indices(guess, c);
    var feedback := Pick(information, indices);
    if PositionsKeep(w, c, indices, feedback, |indices|) {
      forall i | 0 <= i < WordLength && guess[i] == c
        ensures (information[i] == Green ==> w[i] == c) && (information[i] == Yellow ==> c in w && w[i] != c) {
        assert i in indices;
        var t :| 0 <= t < |indices| && indices[t] == i;
        assert PositionKeeps(w, c, indices[t], feedback[t]);
      }
    }
  }

  /** A single-occurrence letter's filter keeps the secret that produced the feedback. */
  lemma RegularSound(secret: Word, guess: Word, letter: int)
    requires Count(guess, letter) == 1
    ensures LetterKeeps(secret, guess, Evaluate(secret, guess), letter)
  {
    var info := Evaluate(secret, guess);
    var marks := Oracle(secret, guess);
    var indices := Indices(guess, letter);
    var i := indices[0];
    assert guess[i] == letter;
    match info[i]
    case Gray =>
      assert marks[i] == 'w';
      LoneWhiteMeansAbsent(secret, guess, i);
    case Green =>
    case Yellow =>
      assert marks[i] == 'y';
      YellowMeansElsewhere(secret, guess, i);
  }

  /** A repeated letter's filter keeps the secret that produced the feedback. */
  lemma RepeatedSound(secret: Word, guess: Word, letter: int)
    requires Count(guess, letter) > 1
    ensures LetterKeeps(secret, guess, Evaluate(secret, guess), letter)
  {
    var info := Evaluate(secret, guess);
    var marks := Oracle(secret, guess);
    RepeatedLetterRule(secret, guess, info, letter);
    FormatFeedbackCounts(guess, marks, letter, WordLength);
    if MarkCount(guess, info, letter, Gray, WordLength) > 0 {
      MarkCountPositive(guess, info, letter, Gray, WordLength);
      var i :| 0 <= i < WordLength && guess[i] == letter && info[i] == Gray;
      assert marks[i] == 'w';
      WhiteMeansExhausted(secret, guess, letter, i);
    }
    forall i | 0 <= i < WordLength && guess[i] == letter && info[i] == Yellow ensures letter in secret && secret[i] != letter {
      assert marks[i] == 'y';
      YellowMeansElsewhere(secret, guess, i);
    }
  }

  /** `cull` never removes the secret word when the feedback is the game's
      own evaluation of the guess against that secret. */
  lemma CullKeepsSecret(bank: seq<Word>, secret: Word, guess: Word)
    requires secret in bank
    ensures secret in CullResult(bank, guess, Evaluate(secret, guess))
  {
    var info := Evaluate(secret, guess);
    var occurrences := FindDuplicates(guess);
    forall t | 0 <= t < |occurrences| ensures LetterKeeps(secret, guess, info, occurrences[t].0) {
      var letter := occurrences[t].0;
      if Count(guess, letter) == 1 {
        RegularSound(secret, guess, letter);
      } else {
        RepeatedSound(secret, guess, letter);
      }
    }
  }
}
