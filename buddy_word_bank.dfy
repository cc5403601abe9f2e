/** The word bank of the `wordle_buddy` package
    (wordle_buddy/utils/word_bank_manager.py): the full NumPy bank, the words
    still possible, and the feedback filters that cull the possible words. */
module BuddyWordBank {
  import opened Seqs
  import opened Words
  import opened Feedback
  import opened BankFilters

  /** `_remove_yellow` keeps the words that hold the letter in a column
      outside `confirmed` but not at `index`. */
  predicate YellowKeeps(w: Word, index: nat, letter: int, confirmed: seq<nat>)
  {
    (exists j :: 0 <= j < WordLength && j !in confirmed && w[j] == letter)
    && index < WordLength && w[index] != letter
  }

  /** `_filter_by_letter_count` keeps the words with between `minCount` and
      `maxCount` copies of the letter. */
  predicate CountKeeps(w: Word, letter: int, minCount: int, maxCount: int)
  {
    minCount <= Count(w, letter) <= maxCount
  }

  /** `_regular_removal`: the filter of a letter that occurs once in the guess. */
  predicate RegularKeeps(w: Word, letter: int, position: nat, feedback: Color)
  {
    match feedback
    case Gray => GrayKeeps(w, letter)
    case Green => GreenKeeps(w, position, letter)
    case Yellow => YellowKeeps(w, position, letter, [])
  }

  /** The positions among `indices` whose feedback is `color`
      (`[i for i, color in zip(indices, feedback) if color == ...]`). */
  function Select(indices: seq<nat>, feedback: seq<Color>, color: Color): (r: seq<nat>)
    requires |indices| == |feedback|
    ensures forall i :: i in r <==> exists k :: 0 <= k < |indices| && indices[k] == i && feedback[k] == color
    decreases |indices|
  {
    if indices == [] then []
    else (if feedback[0] == color then [indices[0]] else []) + Select(indices[1..], feedback[1..], color)
  }

  /** The upper bound on copies of a repeated letter: the guess length, or the
      number of non-gray marks when one copy was marked gray. */
  function MaxCount(feedback: seq<Color>): int
  {
    if Gray in feedback then |feedback| - Count(feedback, Gray) else WordLength
  }

  /** The lower bound on copies of a repeated letter: its green and yellow marks. */
  function MinCount(feedback: seq<Color>): nat
  {
    Count(feedback, Yellow) + Count(feedback, Green)
  }

  predicate AllGreen(w: Word, greens: seq<nat>, letter: int, n: nat)
    requires n <= |greens|
  {
    forall t :: 0 <= t < n ==> GreenKeeps(w, greens[t], letter)
  }

  predicate AllYellow(w: Word, yellows: seq<nat>, letter: int, greens: seq<nat>, n: nat)
    requires n <= |yellows|
  {
    forall t :: 0 <= t < n ==> YellowKeeps(w, yellows[t], letter, greens)
  }

  /** The filter `cull` applies for a letter that occurs several times: the
      count bounds, then each green position, then each yellow position
      with the green positions excluded from the search for the letter. */
  predicate RepeatedKeeps(w: Word, letter: int, indices: seq<nat>, feedback: seq<Color>)
    requires |indices| == |feedback|
  {
    var greens := Select(indices, feedback, Green);
    var yellows := Select(indices, feedback, Yellow);
    CountKeeps(w, letter, MinCount(feedback), MaxCount(feedback))
    && AllGreen(w, greens, letter, |greens|)
    && AllYellow(w, yellows, letter, greens, |yellows|)
  }

  /** The filter `cull` applies for one letter of the guess: the feedback
      the letter's positions received decides the rule. */
  predicate LetterKeeps(w: Word, guess: Word, information: seq<Color>, letter: int)
    requires |information| == WordLength
  {
    var indices := Indices(guess, letter);
    var feedback := Pick(information, indices);
    if |indices| == 1 then RegularKeeps(w, letter, indices[0], feedback[0])
    else RepeatedKeeps(w, letter, indices, feedback)
  }

  /** `w` passes the filters of the first `n` letters of `occurrences`. */
  predicate LettersKeep(w: Word, guess: Word, information: seq<Color>, occurrences: seq<(int, nat)>, n: nat)
    requires |information| == WordLength && n <= |occurrences|
  {
    forall t :: 0 <= t < n ==> LetterKeeps(w, guess, information, occurrences[t].0)
  }

  /** `w` survives a cull by `guess` and `information`. */
  predicate Survives(w: Word, guess: Word, information: seq<Color>)
    requires |information| == WordLength
  {
    var occurrences := FindDuplicates(guess);
    LettersKeep(w, guess, information, occurrences, |occurrences|)
  }

  /** The possible words after a cull of `bank`. */
  function CullResult(bank: seq<Word>, guess: Word, information: seq<Color>): (r: seq<Word>)
    requires |information| == WordLength
    ensures forall w :: w in r <==> w in bank && Survives(w, guess, information)
    ensures |r| <= |bank|
  {
    Filter(bank, (w: Word) => Survives(w, guess, information))
  }

  class WordBankManager {
    /** The normalised bank as loaded. */
    const fullWordBank: seq<Word>
    /** The code point that was subtracted to normalise the bank. */
    const asciiConverterKey: int
    /** The words still consistent with the feedback given so far. */
    var possibleWordBank: seq<Word>

    /** The possible words are drawn from the full bank, whose codes are
        non-negative and decode to characters. */
    ghost predicate Valid()
      reads this
    {
      (forall w :: w in possibleWordBank ==> w in fullWordBank)
      && Normalized(fullWordBank)
      && (forall w :: w in fullWordBank ==> Decodable(w, asciiConverterKey))
    }

    /** `__init__`: the bank converted by `_load_word_bank`, every word possible. */
    constructor (words: seq<TextWord>)
      requires words != []
      ensures fullWordBank == LoadBank(words).0 && asciiConverterKey == LoadBank(words).1
      ensures possibleWordBank == fullWordBank
      ensures Valid()
    {
      var loaded := LoadBank(words);
      fullWordBank := loaded.0;
      asciiConverterKey := loaded.1;
      possibleWordBank := loaded.0;
      new;
      forall w | w in loaded.0 ensures Decodable(w, loaded.1) {
        var i :| 0 <= i < |loaded.0| && loaded.0[i] == w;
        LoadedWordsDecode(words, i);
      }
    }

    method RemoveGray(incorrect: int)
      requires Valid()
      modifies this
      ensures Valid()
      ensures possibleWordBank == Filter(old(possibleWordBank), (w: Word) => GrayKeeps(w, incorrect))
    {
      possibleWordBank := Filter(possibleWordBank, (w: Word) => GrayKeeps(w, incorrect));
    }

    method RemoveGreen(index: nat, letter: int)
      requires Valid()
      modifies this
      ensures Valid()
      ensures possibleWordBank == Filter(old(possibleWordBank), (w: Word) => GreenKeeps(w, index, letter))
    {
      possibleWordBank := Filter(possibleWordBank, (w: Word) => GreenKeeps(w, index, letter));
    }

    method RemoveYellow(index: nat, letter: int, confirmedIndices: seq<nat>)
      requires Valid()
      modifies this
      ensures Valid()
      ensures possibleWordBank == Filter(old(possibleWordBank), (w: Word) => YellowKeeps(w, index, letter, confirmedIndices))
    {
      possibleWordBank := Filter(possibleWordBank, (w: Word) => YellowKeeps(w, index, letter, confirmedIndices));
    }

    method FilterByLetterCount(letter: int, minCount: int, maxCount: int)
      requires Valid()
      modifies this
      ensures Valid()
      ensures possibleWordBank == Filter(old(possibleWordBank), (w: Word) => CountKeeps(w, letter, minCount, maxCount))
    {
      possibleWordBank := Filter(possibleWordBank, (w: Word) => CountKeeps(w, letter, minCount, maxCount));
    }

    method RegularRemoval(letter: int, position: nat, feedback: Color)
      requires Valid()
      modifies this
      ensures Valid()
      ensures possibleWordBank == Filter(old(possibleWordBank), (w: Word) => RegularKeeps(w, letter, position, feedback))
    {
      ghost var before := possibleWordBank;
      match feedback
      case Gray =>
        RemoveGray(letter);
        FilterExt(before, (w: Word) => GrayKeeps(w, letter), (w: Word) => RegularKeeps(w, letter, position, feedback));
      case Green =>
        RemoveGreen(position, letter);
        FilterExt(before, (w: Word) => GreenKeeps(w, position, letter), (w: Word) => RegularKeeps(w, letter, position, feedback));
      case Yellow =>
        RemoveYellow(position, letter, []);
        FilterExt(before, (w: Word) => YellowKeeps(w, position, letter, []), (w: Word) => RegularKeeps(w, letter, position, feedback));
    }

    /** The `else` branch of `cull` for a letter found at several positions. */
    method RepeatedRemoval(letter: int, indices: seq<nat>, feedback: seq<Color>)
      requires Valid() && |indices| == |feedback|
      modifies this
      ensures Valid()
      ensures possibleWordBank == Filter(old(possibleWordBank), (w: Word) => RepeatedKeeps(w, letter, indices, feedback))
    {
      ghost var before := possibleWordBank;
      var maxCount := WordLength as int;
      if Gray in feedback {
        maxCount := |feedback| - Count(feedback, Gray);
      }
      var minCount := Count(feedback, Yellow) + Count(feedback, Green);
      FilterByLetterCount(letter, minCount, maxCount);
      ghost var counted := possibleWordBank;
      var greenIndices := Select(indices, feedback, Green);
      var yellowIndices := Select(indices, feedback, Yellow);
      RemoveGreens(greenIndices, letter);
      ghost var greened := possibleWordBank;
      RemoveYellows(yellowIndices, letter, greenIndices);
      FilterFilter(before,
        (w: Word) => CountKeeps(w, letter, minCount, maxCount),
        (w: Word) => AllGreen(w, greenIndices, letter, |greenIndices|),
        (w: Word) => CountKeeps(w, letter, minCount, maxCount) && AllGreen(w, greenIndices, letter, |greenIndices|));
      FilterFilter(before,
        (w: Word) => CountKeeps(w, letter, minCount, maxCount) && AllGreen(w, greenIndices, letter, |greenIndices|),
        (w: Word) => AllYellow(w, yellowIndices, letter, greenIndices, |yellowIndices|),
        (w: Word) => RepeatedKeeps(w, letter, indices, feedback));
    }

    /** `for idx in green_indices: self._remove_green(idx, letter)` */
    method RemoveGreens(greenIndices: seq<nat>, letter: int)
      requires Valid()
      modifies this
      ensures Valid()
      ensures possibleWordBank == Filter(old(possibleWordBank), (w: Word) => AllGreen(w, greenIndices, letter, |greenIndices|))
    {
      ghost var before := possibleWordBank;
      FilterAll(before, (w: Word) => AllGreen(w, greenIndices, letter, 0));
      var t := 0;
      while t < |greenIndices|
        invariant t <= |greenIndices|
        invariant Valid()
        invariant possibleWordBank == Filter(before, (w: Word) => AllGreen(w, greenIndices, letter, t))
      {
        RemoveGreen(greenIndices[t], letter);
        AllGreenStep(before, greenIndices, letter, t);
        t := t + 1;
      }
    }

    /** `for idx in yellow_indices: self._remove_yellow(idx, letter, green_indices)` */
    method RemoveYellows(yellowIndices: seq<nat>, letter: int, greenIndices: seq<nat>)
      requires Valid()
      modifies this
      ensures Valid()
      ensures possibleWordBank == Filter(old(possibleWordBank), (w: Word) => AllYellow(w, yellowIndices, letter, greenIndices, |yellowIndices|))
    {
      ghost var before := possibleWordBank;
      FilterAll(before, (w: Word) => AllYellow(w, yellowIndices, letter, greenIndices, 0));
      var u := 0;
      while u < |yellowIndices|
        invariant u <= |yellowIndices|
        invariant Valid()
        invariant possibleWordBank == Filter(before, (w: Word) => AllYellow(w, yellowIndices, letter, greenIndices, u))
      {
        RemoveYellow(yellowIndices[u], letter, greenIndices);
        AllYellowStep(before, yellowIndices, letter, greenIndices, u);
        u := u + 1;
      }
    }

    /** One iteration of `cull`: the filter of one letter, found `count` times. */
    method CullLetter(guess: Word, information: seq<Color>, letter: int, count: nat)
      requires Valid() && |information| == WordLength && count == Count(guess, letter)
      modifies this
      ensures Valid()
      ensures possibleWordBank == Filter(old(possibleWordBank), (w: Word) => LetterKeeps(w, guess, information, letter))
    {
      var indices := Indices(guess, letter);
      var feedback := Pick(information, indices);
      ghost var before := possibleWordBank;
      if count == 1 {
        RegularRemoval(letter, indices[0], feedback[0]);
        FilterExt(before, (w: Word) => RegularKeeps(w, letter, indices[0], feedback[0]),
          (w: Word) => LetterKeeps(w, guess, information, letter));
      } else {
        RepeatedRemoval(letter, indices, feedback);
        FilterExt(before, (w: Word) => RepeatedKeeps(w, letter, indices, feedback),
          (w: Word) => LetterKeeps(w, guess, information, letter));
      }
    }

    /** `cull`: filter the possible words by every letter of the guess, in
        increasing code order, stopping once no word is left. */
    method Cull(guess: Word, information: seq<Color>)
      requires Valid() && |information| == WordLength
      modifies this
      ensures Valid()
      ensures possibleWordBank == CullResult(old(possibleWordBank), guess, information)
    {
      ghost var start := possibleWordBank;
      var occurrences := FindDuplicates(guess);
      FilterAll(start, (w: Word) => LettersKeep(w, guess, information, occurrences, 0));
      var j := 0;
      while j < |occurrences|
        invariant j <= |occurrences|
        invariant Valid()
        invariant possibleWordBank == Filter(start, (w: Word) => LettersKeep(w, guess, information, occurrences, j))
      {
        var (letter, count) := occurrences[j];
        if |possibleWordBank| == 0 {
          EmptyStaysEmpty(start, guess, information, occurrences, j);
          return;
        }
        CullLetter(guess, information, letter, count);
        LettersKeepStep(start, guess, information, occurrences, j);
        j := j + 1;
      }
      FilterExt(start,
        (w: Word) => LettersKeep(w, guess, information, occurrences, j),
        (w: Word) => Survives(w, guess, information));
    }

    /** `reset`: every word of the bank is possible again. */
    method Reset()
      requires Valid()
      modifies this
      ensures Valid()
      ensures possibleWordBank == fullWordBank
    {
      possibleWordBank := fullWordBank;
    }
  }

  /** Filtering by one more green position extends the prefix of greens passed. */
  lemma AllGreenStep(bank: seq<Word>, greens: seq<nat>, letter: int, t: nat)
    requires t < |greens|
    ensures Filter(Filter(bank, (w: Word) => AllGreen(w, greens, letter, t)),
                   (w: Word) => GreenKeeps(w, greens[t], letter))
         == Filter(bank, (w: Word) => AllGreen(w, greens, letter, t + 1))
  {
    FilterFilter(bank,
      (w: Word) => AllGreen(w, greens, letter, t),
      (w: Word) => GreenKeeps(w, greens[t], letter),
      (w: Word) => AllGreen(w, greens, letter, t + 1));
  }

  /** Filtering by one more yellow position extends the prefix of yellows passed. */
  lemma AllYellowStep(bank: seq<Word>, yellows: seq<nat>, letter: int, greens: seq<nat>, u: nat)
    requires u < |yellows|
    ensures Filter(Filter(bank, (w: Word) => AllYellow(w, yellows, letter, greens, u)),
                   (w: Word) => YellowKeeps(w, yellows[u], letter, greens))
         == Filter(bank, (w: Word) => AllYellow(w, yellows, letter, greens, u + 1))
  {
    FilterFilter(bank,
      (w: Word) => AllYellow(w, yellows, letter, greens, u),
      (w: Word) => YellowKeeps(w, yellows[u], letter, greens),
      (w: Word) => AllYellow(w, yellows, letter, greens, u + 1));
  }

  lemma LettersKeepPrefix(w: Word, guess: Word, information: seq<Color>, occurrences: seq<(int, nat)>, j: nat, n: nat)
    requires |information| == WordLength && j <= n <= |occurrences|
    ensures LettersKeep(w, guess, information, occurrences, n) ==> LettersKeep(w, guess, information, occurrences, j)
  {
  }

  /** Filtering by one more letter extends the prefix of filters passed. */
  lemma LettersKeepStep(bank: seq<Word>, guess: Word, information: seq<Color>, occurrences: seq<(int, nat)>, j: nat)
    requires |information| == WordLength && j < |occurrences|
    ensures Filter(Filter(bank, (w: Word) => LettersKeep(w, guess, information, occurrences, j)),
                   (w: Word) => LetterKeeps(w, guess, information, occurrences[j].0))
         == Filter(bank, (w: Word) => LettersKeep(w, guess, information, occurrences, j + 1))
  {
    FilterFilter(bank,
      (w: Word) => LettersKeep(w, guess, information, occurrences, j),
      (w: Word) => LetterKeeps(w, guess, information, occurrences[j].0),
      (w: Word) => LettersKeep(w, guess, information, occurrences, j + 1));
  }

  /** Once no word passes the first filters, no word passes all of them. */
  lemma EmptyStaysEmpty(bank: seq<Word>, guess: Word, information: seq<Color>, occurrences: seq<(int, nat)>, j: nat)
    requires |information| == WordLength && j <= |occurrences| && occurrences == FindDuplicates(guess)
    requires Filter(bank, (w: Word) => LettersKeep(w, guess, information, occurrences, j)) == []
    ensures CullResult(bank, guess, information) == []
  {
    forall w: Word ensures Survives(w, guess, information) == (LettersKeep(w, guess, information, occurrences, j) && Survives(w, guess, information)) {
      LettersKeepPrefix(w, guess, information, occurrences, j, |occurrences|);
    }
    FilterFilter(bank,
      (w: Word) => LettersKeep(w, guess, information, occurrences, j),
      (w: Word) => Survives(w, guess, information),
      (w: Word) => Survives(w, guess, information));
  }

  /** A single-occurrence letter's filter keeps the secret that produced the feedback. */
  lemma RegularSound(secret: Word, guess: Word, letter: int)
    requires Count(guess, letter) == 1
    ensures LetterKeeps(secret, guess, Evaluate(secret, guess), letter)
  {
    var info := Evaluate(secret, guess);
    var marks := Oracle(secret, guess);
    var indices := Indices(guess, letter);
    var i := indices[0];
    assert guess[i] == letter;
    match info[i]
    case Gray =>
      assert marks[i] == 'w';
      LoneWhiteMeansAbsent(secret, guess, i);
    case Green =>
    case Yellow =>
      assert marks[i] == 'y';
      YellowMeansElsewhere(secret, guess, i);
      var j :| 0 <= j < |secret| && secret[j] == letter;
      assert j !in [];
  }

  /** The count bounds of a repeated letter hold for the secret. */
  lemma CountBoundsSound(secret: Word, guess: Word, letter: int)
    ensures var feedback := Pick(Evaluate(secret, guess), Indices(guess, letter));
      MinCount(feedback) <= Count(secret, letter) <= MaxCount(feedback)
  {
    var info := Evaluate(secret, guess);
    var marks := Oracle(secret, guess);
    var indices := Indices(guess, letter);
    var feedback := Pick(info, indices);
    PickCount(guess, info, letter, Green, |guess|);
    PickCount(guess, info, letter, Yellow, |guess|);
    PickCount(guess, info, letter, Gray, |guess|);
    FormatFeedbackCounts(guess, marks, letter, |guess|);
    CreditedAtMostCount(secret, guess, letter);
    if Gray in feedback {
      var k :| 0 <= k < |feedback| && feedback[k] == Gray;
      var i := indices[k];
      assert info[i] == Gray && marks[i] == 'w';
      WhiteMeansExhausted(secret, guess, letter, i);
      ColorsPartition(guess, info, letter, |guess|);
    } else {
      CountBelowBound(secret, letter, |secret|);
    }
  }

  /** The green and yellow filters of a repeated letter keep the secret. */
  lemma PositionsSound(secret: Word, guess: Word, letter: int)
    ensures var indices := Indices(guess, letter);
      var feedback := Pick(Evaluate(secret, guess), indices);
      var greens := Select(indices, feedback, Green);
      var yellows := Select(indices, feedback, Yellow);
      AllGreen(secret, greens, letter, |greens|) && AllYellow(secret, yellows, letter, greens, |yellows|)
  {
    var indices := Indices(guess, letter);
    var feedback := Pick(Evaluate(secret, guess), indices);
    var greens := Select(indices, feedback, Green);
    forall t | 0 <= t < |greens| ensures GreenKeeps(secret, greens[t], letter) {
      assert greens[t] in greens;
      var k :| 0 <= k < |indices| && indices[k] == greens[t] && feedback[k] == Green;
    }
    YellowsSound(secret, guess, letter);
  }

  /** The yellow filters of a repeated letter keep the secret. */
  lemma YellowsSound(secret: Word, guess: Word, letter: int)
    ensures var indices := Indices(guess, letter);
      var feedback := Pick(Evaluate(secret, guess), indices);
      var yellows := Select(indices, feedback, Yellow);
      AllYellow(secret, yellows, letter, Select(indices, feedback, Green), |yellows|)
  {
    var info := Evaluate(secret, guess);
    var indices := Indices(guess, letter);
    var feedback := Pick(info, indices);
    var greens := Select(indices, feedback, Green);
    var yellows := Select(indices, feedback, Yellow);
    forall t | 0 <= t < |yellows| ensures YellowKeeps(secret, yellows[t], letter, greens) {
      assert yellows[t] in yellows;
      var k :| 0 <= k < |indices| && indices[k] == yellows[t] && feedback[k] == Yellow;
      YellowSoundAt(secret, guess, indices[k]);
      var j :| 0 <= j < WordLength && secret[j] == letter && guess[j] != letter;
      assert j !in greens;
    }
  }

  /** A yellow position is off the secret's letter there, and the secret holds
      the letter at a position where the guess does not. */
  lemma YellowSoundAt(secret: Word, guess: Word, i: nat)
    requires i < WordLength && Evaluate(secret, guess)[i] == Yellow
    ensures secret[i] != guess[i]
    ensures exists j :: 0 <= j < WordLength && secret[j] == guess[i] && guess[j] != guess[i]
  {
    assert Oracle(secret, guess)[i] == 'y';
    YellowMeansElsewhere(secret, guess, i);
    SpareWitness(secret, guess, guess[i], |secret|);
  }

  /** `cull` never removes the secret word when the feedback is the game's
      own evaluation of the guess against that secret. */
  lemma CullKeepsSecret(bank: seq<Word>, secret: Word, guess: Word)
    requires secret in bank
    ensures secret in CullResult(bank, guess, Evaluate(secret, guess))
  {
    var info := Evaluate(secret, guess);
    var occurrences := FindDuplicates(guess);
    forall t | 0 <= t < |occurrences| ensures LetterKeeps(secret, guess, info, occurrences[t].0) {
      var letter := occurrences[t].0;
      if Count(guess, letter) == 1 {
        RegularSound(secret, guess, letter);
      } else {
        CountBoundsSound(secret, guess, letter);
        PositionsSound(secret, guess, letter);
      }
    }
  }

  /** A cull keeps an order-preserving subsequence of the bank. */
  lemma CullIsSubsequence(bank: seq<Word>, guess: Word, information: seq<Color>)
    requires |information| == WordLength
    ensures IsSubsequence(CullResult(bank, guess, information), bank)
  {
    FilterIsSubsequence(bank, (w: Word) => Survives(w, guess, information));
  }

  /** A word survives exactly when it passes the filter of every letter code
      of the guess that is not negative; negative codes get no filter. */
  lemma SurvivesIff(w: Word, guess: Word, information: seq<Color>)
    requires |information| == WordLength
    ensures Survives(w, guess, information) <==>
      forall i :: 0 <= i < WordLength && guess[i] >= 0 ==> LetterKeeps(w, guess, information, guess[i])
  {
    var occurrences := FindDuplicates(guess);
    if Survives(w, guess, information) {
      forall i | 0 <= i < WordLength && guess[i] >= 0 ensures LetterKeeps(w, guess, information, guess[i]) {
        assert guess[i] in guess;
        var j :| 0 <= j < |occurrences| && occurrences[j].0 == guess[i];
      }
    }
  }

  /** For a letter found once in the guess, at `i`: gray removes every word with
      the letter, green keeps the words with the letter at `i`, yellow keeps
      the words with the letter elsewhere but not at `i`. */
  lemma SingleLetterRule(w: Word, guess: Word, information: seq<Color>, i: nat)
    requires |information| == WordLength && i < WordLength && Count(guess, guess[i]) == 1
    ensures LetterKeeps(w, guess, information, guess[i]) <==>
      match information[i]
      case Gray => guess[i] !in w
      case Green => w[i] == guess[i]
      case Yellow => guess[i] in w && w[i] != guess[i]
  {
    var indices := Indices(guess, guess[i]);
    assert i in indices;
    assert indices[0] == i;
  }

  /** The rule for a letter found several times, stated on the guess positions:
      at least as many copies as green and yellow marks, no more than those
      when a copy was marked gray, the letter at every green position, and
      for every yellow position none there but one at a position that is not
      a green of this letter. */
  predicate RepeatedRule(w: Word, guess: Word, information: seq<Color>, c: int)
    requires |information| == WordLength
  {
    var credited := MarkCount(guess, information, c, Green, WordLength) + MarkCount(guess, information, c, Yellow, WordLength);
    credited <= Count(w, c)
    && (MarkCount(guess, information, c, Gray, WordLength) > 0 ==> Count(w, c) <= credited)
    && (forall i :: 0 <= i < WordLength && guess[i] == c && information[i] == Green ==> w[i] == c)
    && (forall i :: 0 <= i < WordLength && guess[i] == c && information[i] == Yellow ==>
          w[i] != c && exists j :: 0 <= j < WordLength && !(guess[j] == c && information[j] == Green) && w[j] == c)
  }

  lemma RepeatedBounds(w: Word, guess: Word, information: seq<Color>, c: int)
    requires |information| == WordLength
    ensures var feedback := Pick(information, Indices(guess, c));
      var credited := MarkCount(guess, information, c, Green, WordLength) + MarkCount(guess, information, c, Yellow, WordLength);
      MinCount(feedback) == credited
      && (Gray in feedback <==> MarkCount(guess, information, c, Gray, WordLength) > 0)
      && (Gray in feedback ==> MaxCount(feedback) == credited)
      && (Gray !in feedback ==> MaxCount(feedback) == WordLength)
  {
    var feedback := Pick(information, Indices(guess, c));
    PickCount(guess, information, c, Green, WordLength);
    PickCount(guess, information, c, Yellow, WordLength);
    PickCount(guess, information, c, Gray, WordLength);
    CountPositive(feedback, Gray);
    ColorsPartition(guess, information, c, WordLength);
  }

  /** A green of letter `c` among the positions of `c` is a green position of the guess. */
  lemma SelectGreens(guess: Word, information: seq<Color>, c: int, j: int)
    requires |information| == WordLength
    ensures var indices := Indices(guess, c);
      j in Select(indices, Pick(information, indices), Green) <==> 0 <= j < WordLength && guess[j] == c && information[j] == Green
  {
    var indices := Indices(guess, c);
    if 0 <= j < WordLength && guess[j] == c {
      assert j in indices;
    }
  }

  /** For a letter found several times, the filter `cull` applies is exactly
      `RepeatedRule`. */
  lemma RepeatedLetterRule(w: Word, guess: Word, information: seq<Color>, c: int)
    requires |information| == WordLength && Count(guess, c) > 1
    ensures LetterKeeps(w, guess, information, c) <==> RepeatedRule(w, guess, information, c)
  {
    RepeatedBounds(w, guess, information, c);
    CountBelowBound(w, c, WordLength);
    GreensRule(w, guess, information, c);
    YellowsRule(w, guess, information, c);
  }

  /** The green filters of a repeated letter, on the guess positions. */
  lemma GreensRule(w: Word, guess: Word, information: seq<Color>, c: int)
    requires |information| == WordLength
    ensures var indices := Indices(guess, c);
      var greens := Select(indices, Pick(information, indices), Green);
      AllGreen(w, greens, c, |greens|) <==>
        forall i :: 0 <= i < WordLength && guess[i] == c && information[i] == Green ==> w[i] == c
  {
    var indices := Indices(guess, c);
    var greens := Select(indices, Pick(information, indices), Green);
    if AllGreen(w, greens, c, |greens|) {
      forall i | 0 <= i < WordLength && guess[i] == c && information[i] == Green ensures w[i] == c {
        SelectGreens(guess, information, c, i);
        var t :| 0 <= t < |greens| && greens[t] == i;
      }
    } else {
      var t :| 0 <= t < |greens| && !GreenKeeps(w, greens[t], c);
      assert greens[t] in greens;
      SelectGreens(guess, information, c, greens[t]);
    }
  }

  /** The yellow filters of a repeated letter, on the guess positions. */
  lemma YellowsRule(w: Word, guess: Word, information: seq<Color>, c: int)
    requires |information| == WordLength
    ensures var indices := Indices(guess, c);
      var feedback := Pick(information, indices);
      var yellows := Select(indices, feedback, Yellow);
      AllYellow(w, yellows, c, Select(indices, feedback, Green), |yellows|) <==>
        forall i :: 0 <= i < WordLength && guess[i] == c && information[i] == Yellow ==>
          w[i] != c && exists j :: 0 <= j < WordLength && !(guess[j] == c && information[j] == Green) && w[j] == c
  {
    var indices := Indices(guess, c);
    var feedback := Pick(information, indices);
    var greens := Select(indices, feedback, Green);
    var yellows := Select(indices, feedback, Yellow);
    forall j ensures j in greens <==> 0 <= j < WordLength && guess[j] == c && information[j] == Green {
      SelectGreens(guess, information, c, j);
    }
    forall i ensures i in yellows <==> 0 <= i < WordLength && guess[i] == c && information[i] == Yellow {
      if 0 <= i < WordLength && guess[i] == c {
        assert i in indices;
      }
    }
    if AllYellow(w, yellows, c, greens, |yellows|) {
      forall i | 0 <= i < WordLength && guess[i] == c && information[i] == Yellow
        ensures w[i] != c && exists j :: 0 <= j < WordLength && !(guess[j] == c && information[j] == Green) && w[j] == c {
        var t :| 0 <= t < |yellows| && yellows[t] == i;
        assert YellowKeeps(w, yellows[t], c, greens);
      }
    } else {
      var t :| 0 <= t < |yellows| && !YellowKeeps(w, yellows[t], c, greens);
      assert yellows[t] in yellows;
    }
  }
}
