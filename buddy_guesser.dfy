/** `WordleGuesser` of the `wordle_buddy` package (wordle_buddy/guesser.py):
    it replays guesses against its word bank, records the attempts, and
    suggests the highest-scoring words of the scorer's bank. */
module BuddyGuesser {
  import opened Seqs
  import opened Words
  import opened Outcomes
  import opened Feedback
  import opened LetterTables
  import opened Hyperparameters
  import opened BuddyWordBank
  import opened BuddyScorer

  /** The one-element answer when there is nothing to suggest. */
  const NoViableGuesses: string := "No Viable Guesses"

  /** An entry of `attempts`: the encoded guess and its feedback. */
  datatype Attempt = Attempt(guess: Word, feedback: seq<Color>)

  /** Every guess has five letters and every feedback five colours. */
  predicate WellFormed(guesses: seq<string>, feedbacks: seq<seq<Color>>)
  {
    (forall i :: 0 <= i < |guesses| ==> |guesses[i]| == WordLength)
    && (forall i :: 0 <= i < |feedbacks| ==> |feedbacks[i]| == WordLength)
  }

  /** The bank left after culling `bank` by each lower-cased guess in turn. */
  function Replay(bank: seq<Word>, key: int, guesses: seq<string>, feedbacks: seq<seq<Color>>): seq<Word>
    requires |guesses| == |feedbacks| && WellFormed(guesses, feedbacks)
  {
    if guesses == [] then bank
    else
      var n := |guesses| - 1;
      CullResult(Replay(bank, key, guesses[..n], feedbacks[..n]), Encode(Lower(guesses[n]), key), feedbacks[n])
  }

  /** The attempts recorded by replaying the guesses. */
  function Recorded(key: int, guesses: seq<string>, feedbacks: seq<seq<Color>>): (r: seq<Attempt>)
    requires |guesses| == |feedbacks| && WellFormed(guesses, feedbacks)
    ensures |r| == |guesses|
  {
    seq(|guesses|, i requires 0 <= i < |guesses| => Attempt(Encode(Lower(guesses[i]), key), feedbacks[i]))
  }

  /** Replaying one more guess culls once more and records one more attempt. */
  lemma ReplayStep(bank: seq<Word>, key: int, guesses: seq<string>, feedbacks: seq<seq<Color>>, i: nat)
    requires |guesses| == |feedbacks| && WellFormed(guesses, feedbacks) && i < |guesses|
    ensures |Lower(guesses[i])| == WordLength
    ensures Replay(bank, key, guesses[..i + 1], feedbacks[..i + 1])
            == CullResult(Replay(bank, key, guesses[..i], feedbacks[..i]), Encode(Lower(guesses[i]), key), feedbacks[i])
  {
    assert guesses[..i + 1][..i] == guesses[..i] && feedbacks[..i + 1][..i] == feedbacks[..i];
  }

  lemma RecordedStep(key: int, guesses: seq<string>, feedbacks: seq<seq<Color>>, i: nat)
    requires |guesses| == |feedbacks| && WellFormed(guesses, feedbacks) && i < |guesses|
    ensures Recorded(key, guesses[..i + 1], feedbacks[..i + 1])
            == Recorded(key, guesses[..i], feedbacks[..i]) + [Attempt(Encode(Lower(guesses[i]), key), feedbacks[i])]
  {
    var a, b := Recorded(key, guesses[..i + 1], feedbacks[..i + 1]), Recorded(key, guesses[..i], feedbacks[..i]);
    forall k | 0 <= k < i ensures a[k] == b[k] {
      assert guesses[..i + 1][k] == guesses[..i][k] && feedbacks[..i + 1][k] == feedbacks[..i][k];
    }
  }

  /** Replaying never adds a word: what is left was in the bank. */
  lemma {:induction false} ReplayShrinks(bank: seq<Word>, key: int, guesses: seq<string>, feedbacks: seq<seq<Color>>)
    requires |guesses| == |feedbacks| && WellFormed(guesses, feedbacks)
    ensures |Replay(bank, key, guesses, feedbacks)| <= |bank|
    ensures forall w :: w in Replay(bank, key, guesses, feedbacks) ==> w in bank
  {
    if guesses != [] {
      var n := |guesses| - 1;
      ReplayShrinks(bank, key, guesses[..n], feedbacks[..n]);
    }
  }

  /** A secret in the bank survives the replay of guesses whose feedback the
      game computed against it. */
  lemma {:induction false} ReplayKeepsSecret(bank: seq<Word>, key: int, guesses: seq<string>, feedbacks: seq<seq<Color>>, secret: Word)
    requires |guesses| == |feedbacks| && WellFormed(guesses, feedbacks) && secret in bank
    requires forall i :: 0 <= i < |guesses| ==> feedbacks[i] == Evaluate(secret, Encode(Lower(guesses[i]), key))
    ensures secret in Replay(bank, key, guesses, feedbacks)
  {
    if guesses != [] {
      var n := |guesses| - 1;
      ReplayKeepsSecret(bank, key, guesses[..n], feedbacks[..n], secret);
      CullKeepsSecret(Replay(bank, key, guesses[..n], feedbacks[..n]), secret, Encode(Lower(guesses[n]), key));
    }
  }

  /** The positions `0 .. n-1`. */
  function Range(n: nat): (r: seq<nat>)
    ensures |r| == n && forall k :: 0 <= k < n ==> r[k] == k
  {
    seq(n, k requires 0 <= k < n => k)
  }

  /** Positions of `scores`, each below its length. */
  predicate Positions(order: seq<nat>, scores: seq<real>)
  {
    forall k :: 0 <= k < |order| ==> order[k] < |scores|
  }

  /** The positions are in ascending order of their scores. */
  predicate AscendingBy(order: seq<nat>, scores: seq<real>)
    requires Positions(order, scores)
  {
    forall k, l :: 0 <= k < l < |order| ==> scores[order[k]] <= scores[order[l]]
  }

  /** Position `i` placed after every position of no greater score. */
  function InsertPosition(order: seq<nat>, i: nat, scores: seq<real>): (r: seq<nat>)
    requires i < |scores| && Positions(order, scores) && AscendingBy(order, scores)
    ensures |r| == |order| + 1 && multiset(r) == multiset(order) + multiset{i}
    ensures Positions(r, scores) && AscendingBy(r, scores)
  {
    if order == [] then [i]
    else if scores[i] < scores[order[0]] then [i] + order
    else
      var rest := InsertPosition(order[1..], i, scores);
      InsertBehind(order, i, scores, rest);
      [order[0]] + rest
  }

  /** Putting the first position in front of the insertion into the rest
      keeps the order ascending: every inserted position scores at least as
      much as the first. */
  lemma InsertBehind(order: seq<nat>, i: nat, scores: seq<real>, rest: seq<nat>)
    requires order != [] && i < |scores| && Positions(order, scores) && AscendingBy(order, scores)
    requires scores[order[0]] <= scores[i]
    requires Positions(rest, scores) && AscendingBy(rest, scores)
    requires multiset(rest) == multiset(order[1..]) + multiset{i}
    ensures multiset([order[0]] + rest) == multiset(order) + multiset{i}
    ensures Positions([order[0]] + rest, scores) && AscendingBy([order[0]] + rest, scores)
  {
    assert order == [order[0]] + order[1..];
    forall k | 0 <= k < |rest| ensures scores[order[0]] <= scores[rest[k]] {
      assert rest[k] in multiset(rest);
      if rest[k] != i {
        assert rest[k] in multiset(order[1..]);
        var j :| 0 <= j < |order[1..]| && order[1..][j] == rest[k];
        assert order[j + 1] == rest[k];
      }
    }
    var r := [order[0]] + rest;
    forall k, l | 0 <= k < l < |r| ensures scores[r[k]] <= scores[r[l]] {
      if k > 0 {
        assert r[k] == rest[k - 1] && r[l] == rest[l - 1];
      }
    }
  }

  /** `np.argsort(scores)`: every position once, in ascending order of score,
      equal scores in the order of their positions. */
  function ArgSort(scores: seq<real>): (r: seq<nat>)
    ensures |r| == |scores| && multiset(r) == multiset(Range(|scores|))
    ensures Positions(r, scores) && AscendingBy(r, scores)
  {
    ArgSortBelow(scores, |scores|)
  }

  function ArgSortBelow(scores: seq<real>, n: nat): (r: seq<nat>)
    requires n <= |scores|
    ensures |r| == n && multiset(r) == multiset(Range(n))
    ensures Positions(r, scores) && AscendingBy(r, scores)
  {
    if n == 0 then []
    else
      assert Range(n) == Range(n - 1) + [n - 1];
      InsertPosition(ArgSortBelow(scores, n - 1), n - 1, scores)
  }

  /** The positions of `s` with a positive score, in their order (the `if
      scores[i] > 0` of the list comprehension). */
  function PositiveOnly(scores: seq<real>, s: seq<nat>): (r: seq<nat>)
    requires Positions(s, scores)
    ensures |r| <= |s| && Positions(r, scores)
    ensures forall k :: 0 <= k < |r| ==> scores[r[k]] > 0.0
    ensures forall x :: x in r <==> x in s && scores[x] > 0.0
  {
    if s == [] then []
    else
      var tail := PositiveOnly(scores, s[1..]);
      if scores[s[0]] > 0.0 then [s[0]] + tail else tail
  }

  /** Distinct positions in non-increasing order of score. */
  predicate Ranked(s: seq<nat>, scores: seq<real>)
    requires Positions(s, scores)
  {
    forall k, l :: 0 <= k < l < |s| ==> scores[s[k]] >= scores[s[l]] && s[k] != s[l]
  }

  /** Keeping the positive positions keeps the ranking. */
  lemma {:induction false} PositiveOnlyRanked(scores: seq<real>, s: seq<nat>)
    requires Positions(s, scores) && Ranked(s, scores)
    ensures Ranked(PositiveOnly(scores, s), scores)
    ensures s != [] && scores[s[0]] > 0.0 ==> PositiveOnly(scores, s)[0] == s[0]
  {
    if s != [] {
      RankedTail(s, scores);
      var tail := PositiveOnly(scores, s[1..]);
      PositiveOnlyRanked(scores, s[1..]);
      if scores[s[0]] > 0.0 {
        forall l | 0 <= l < |tail| ensures scores[s[0]] >= scores[tail[l]] && s[0] != tail[l] {
          assert tail[l] in s[1..];
          var j :| 0 <= j < |s[1..]| && s[1..][j] == tail[l];
          assert s[j + 1] == tail[l];
        }
        RankedCons(s[0], tail, scores);
      }
    }
  }

  lemma RankedTail(s: seq<nat>, scores: seq<real>)
    requires s != [] && Positions(s, scores) && Ranked(s, scores)
    ensures Positions(s[1..], scores) && Ranked(s[1..], scores)
  {
  }

  lemma RankedCons(x: nat, t: seq<nat>, scores: seq<real>)
    requires x < |scores| && Positions(t, scores) && Ranked(t, scores)
    requires forall l :: 0 <= l < |t| ==> scores[x] >= scores[t[l]] && x != t[l]
    ensures Positions([x] + t, scores) && Ranked([x] + t, scores)
  {
  }

  /** `np.argsort(scores)[::-1][:n]`: the positions from the highest score
      down, cut as Python cuts a slice. */
  function Chosen(scores: seq<real>, n: int): (r: seq<nat>)
    ensures Positions(r, scores)
    ensures |r| == if n >= 0 then Min(n, |scores|) else Max(|scores| + n, 0)
  {
    SliceTo(Reverse(ArgSort(scores)), n)
  }

  /** The cut keeps the top scores: a position left out scores no more than
      any position kept. */
  lemma ChosenIsTopK(scores: seq<real>, n: int, i: nat, j: nat)
    requires i < |scores| && i !in Chosen(scores, n) && j in Chosen(scores, n)
    ensures scores[i] <= scores[j]
  {
    var order := ArgSort(scores);
    var desc := Reverse(order);
    var prefix := Chosen(scores, n);
    assert prefix == desc[..|prefix|];
    DescendingRanked(scores);
    var l := PositionIn(order, i);
    assert desc[|order| - 1 - l] == i;
    RankedFront(desc, scores, |prefix|, |order| - 1 - l, j);
  }

  /** In a ranked sequence, a position beyond the front scores no more
      than one inside it. */
  lemma RankedFront(s: seq<nat>, scores: seq<real>, m: nat, ki: nat, j: nat)
    requires Positions(s, scores) && Ranked(s, scores) && m <= |s|
    requires ki < |s| && s[ki] !in s[..m] && j in s[..m]
    ensures scores[s[ki]] <= scores[j]
  {
  }

  /** Where position `i` stands in a permutation of the positions. */
  lemma PositionIn(order: seq<nat>, i: nat) returns (l: nat)
    requires i < |order| && multiset(order) == multiset(Range(|order|))
    ensures l < |order| && order[l] == i
  {
    assert Range(|order|)[i] == i;
    assert i in multiset(Range(|order|));
    assert i in multiset(order);
    l :| 0 <= l < |order| && order[l] == i;
  }

  /** The cut positions are ranked, and the first one holds a highest score. */
  lemma ChosenRanked(scores: seq<real>, n: int)
    ensures Ranked(Chosen(scores, n), scores)
    ensures Chosen(scores, n) != [] ==> forall i :: 0 <= i < |scores| ==> scores[Chosen(scores, n)[0]] >= scores[i]
    ensures n >= 1 && scores != [] ==> Chosen(scores, n) != []
  {
    var desc := Reverse(ArgSort(scores));
    var prefix := Chosen(scores, n);
    DescendingRanked(scores);
    assert prefix == desc[..|prefix|];
    RankedPrefix(desc, |prefix|, scores);
    if prefix != [] {
      assert prefix[0] == desc[0] == ArgSort(scores)[|scores| - 1];
      forall i | 0 <= i < |scores| ensures scores[prefix[0]] >= scores[i] {
        InArgSort(scores, i);
      }
    }
  }

  lemma RankedPrefix(s: seq<nat>, m: nat, scores: seq<real>)
    requires m <= |s| && Positions(s, scores) && Ranked(s, scores)
    ensures Positions(s[..m], scores) && Ranked(s[..m], scores)
  {
  }

  /** `np.argsort(scores)[::-1]` is ranked. */
  lemma DescendingRanked(scores: seq<real>)
    ensures Positions(Reverse(ArgSort(scores)), scores) && Ranked(Reverse(ArgSort(scores)), scores)
  {
    var order := ArgSort(scores);
    var desc := Reverse(order);
    forall k, l | 0 <= k < l < |desc| ensures scores[desc[k]] >= scores[desc[l]] && desc[k] != desc[l] {
      assert desc[k] == order[|order| - 1 - k] && desc[l] == order[|order| - 1 - l];
      PositionsDistinct(order, |order| - 1 - l, |order| - 1 - k);
    }
  }

  /** Every position of `scores` is in its `ArgSort`, at or before the last. */
  lemma InArgSort(scores: seq<real>, i: nat)
    requires i < |scores|
    ensures i in ArgSort(scores) && scores[ArgSort(scores)[|scores| - 1]] >= scores[i]
  {
    var order := ArgSort(scores);
    assert Range(|scores|)[i] == i;
    assert i in multiset(Range(|scores|));
    assert i in multiset(order);
    var k :| 0 <= k < |order| && order[k] == i;
  }

  /** The positions whose words `best_guess` returns. */
  function Selection(scores: seq<real>, n: int): (r: seq<nat>)
    ensures Positions(r, scores)
    ensures forall j :: 0 <= j < |r| ==> scores[r[j]] > 0.0
    ensures n >= 0 ==> |r| <= n
  {
    PositiveOnly(scores, Chosen(scores, n))
  }

  /** `best_guess` returns the top words: a position left out of the
      selection scores no more than any selected one, and the selection is
      the front of the cut, up to its first score that is not positive. */
  lemma SelectionIsTopK(scores: seq<real>, n: int, i: nat, j: nat)
    requires i < |scores| && i !in Selection(scores, n) && j in Selection(scores, n)
    ensures scores[i] <= scores[j]
  {
    var sel := Selection(scores, n);
    var k :| 0 <= k < |sel| && sel[k] == j;
    assert scores[j] > 0.0;
    if scores[i] > 0.0 {
      assert i !in Chosen(scores, n);
      ChosenIsTopK(scores, n, i, j);
    }
  }

  /** The selection is a prefix of the cut, and every position of the cut
      past it has a score that is not positive. */
  lemma SelectionIsPrefix(scores: seq<real>, n: int)
    ensures var sel := Selection(scores, n);
            var cut := Chosen(scores, n);
            |sel| <= |cut| && sel == cut[..|sel|]
            && forall k :: |sel| <= k < |cut| ==> scores[cut[k]] <= 0.0
  {
    ChosenRanked(scores, n);
    PositiveOnlyPrefix(scores, Chosen(scores, n));
  }

  /** Keeping the positive positions of a ranked sequence keeps a prefix. */
  lemma {:induction false} PositiveOnlyPrefix(scores: seq<real>, s: seq<nat>)
    requires Positions(s, scores) && Ranked(s, scores)
    ensures var r := PositiveOnly(scores, s);
            |r| <= |s| && r == s[..|r|] && forall k :: |r| <= k < |s| ==> scores[s[k]] <= 0.0
  {
    if s != [] {
      RankedTail(s, scores);
      PositiveOnlyPrefix(scores, s[1..]);
      if scores[s[0]] > 0.0 {
        PrefixCons(scores, s, PositiveOnly(scores, s[1..]));
      } else {
        NonPositiveHead(scores, s);
      }
    }
  }

  lemma PrefixCons(scores: seq<real>, s: seq<nat>, tail: seq<nat>)
    requires s != [] && Positions(s, scores)
    requires |tail| < |s| && tail == s[1..][..|tail|]
    requires forall k :: |tail| <= k < |s| - 1 ==> scores[s[1..][k]] <= 0.0
    ensures [s[0]] + tail == s[..|tail| + 1]
    ensures forall k :: |tail| + 1 <= k < |s| ==> scores[s[k]] <= 0.0
  {
  }

  /** A ranked sequence headed by a score that is not positive has no
      positive score at all. */
  lemma NonPositiveHead(scores: seq<real>, s: seq<nat>)
    requires s != [] && Positions(s, scores) && Ranked(s, scores) && scores[s[0]] <= 0.0
    ensures PositiveOnly(scores, s) == []
    ensures forall k :: 0 <= k < |s| ==> scores[s[k]] <= 0.0
  {
  }

  /** The selected positions are distinct and in non-increasing order of score. */
  lemma SelectionRanked(scores: seq<real>, n: int)
    ensures Ranked(Selection(scores, n), scores)
  {
    ChosenRanked(scores, n);
    PositiveOnlyRanked(scores, Chosen(scores, n));
  }

  /** A selection that is not empty starts at a highest score, and with
      `n >= 1` the selection is empty only when no score is positive. */
  lemma SelectionHead(scores: seq<real>, n: int)
    ensures Selection(scores, n) != [] ==>
              forall i :: 0 <= i < |scores| ==> scores[Selection(scores, n)[0]] >= scores[i]
    ensures n >= 1 && (exists i :: 0 <= i < |scores| && scores[i] > 0.0) ==> Selection(scores, n) != []
  {
    var prefix := Chosen(scores, n);
    ChosenRanked(scores, n);
    if prefix != [] {
      PositiveOnlyHead(scores, prefix);
    }
  }

  /** When the first position holds a highest score, something is kept
      exactly when it is positive, and then it is kept first. */
  lemma PositiveOnlyHead(scores: seq<real>, s: seq<nat>)
    requires Positions(s, scores) && s != []
    requires forall i :: 0 <= i < |scores| ==> scores[s[0]] >= scores[i]
    ensures PositiveOnly(scores, s) != [] <==> scores[s[0]] > 0.0
    ensures PositiveOnly(scores, s) != [] ==> PositiveOnly(scores, s)[0] == s[0]
  {
  }

  /** The positions of an `ArgSort` result are distinct. */
  lemma PositionsDistinct(order: seq<nat>, k: nat, l: nat)
    requires k < l < |order| && multiset(order) == multiset(Range(|order|))
    ensures order[k] != order[l]
  {
    if order[k] == order[l] {
      var x := order[k];
      assert order == order[..l] + order[l..];
      assert multiset(order) == multiset(order[..l]) + multiset(order[l..]);
      assert x in multiset(order[..l]) && x in multiset(order[l..]);
      RangeOnce(|order|, x);
      assert false;
    }
  }

  lemma {:induction false} RangeOnce(n: nat, x: nat)
    ensures multiset(Range(n))[x] <= 1
  {
    if n > 0 {
      assert Range(n) == Range(n - 1) + [n - 1];
      RangeOnce(n - 1, x);
      if x == n - 1 {
        assert x !in Range(n - 1);
      }
    }
  }

  /** Every word of `working` decodes with `key`. */
  predicate Scored(working: seq<Word>, key: int)
  {
    forall w :: w in working ==> Decodable(w, key)
  }

  /** What `best_guess` returns once a bank has been scored: the selected
      words decoded, or the sentinel when none is selected. */
  function Suggestions(scores: seq<real>, working: seq<Word>, key: int, numBestGuesses: int): (r: seq<string>)
    requires |scores| == |working| && Scored(working, key)
    ensures r == [NoViableGuesses] <==> Selection(scores, Min(numBestGuesses, |working|)) == []
    ensures r != [NoViableGuesses] ==>
              var sel := Selection(scores, Min(numBestGuesses, |working|));
              |r| == |sel| && forall j :: 0 <= j < |r| ==> r[j] == Decode(working[sel[j]], key)
  {
    var sel := Selection(scores, Min(numBestGuesses, |working|));
    if sel == [] then [NoViableGuesses]
    else
      var r := seq(|sel|, j requires 0 <= j < |sel| => Decode(working[sel[j]], key));
      assert |r[0]| == WordLength != |NoViableGuesses|;
      r
  }

  class WordleGuesser {
    const wordBank: WordBankManager
    const scorer: WordScorerEntropy
    var attempts: seq<Attempt>

    ghost predicate Valid()
      reads this, wordBank, scorer
    {
      scorer.wordBank == wordBank && scorer.Valid()
    }

    /** `__init__`: a loaded bank and a scorer over it, in its default
        hardcore mode, and no attempts. */
    constructor (words: seq<TextWord>, hparams: Params, H: real -> real)
      requires words != []
      ensures Valid() && fresh(wordBank) && fresh(scorer)
      ensures wordBank.possibleWordBank == wordBank.fullWordBank == LoadBank(words).0
      ensures scorer.hardcoreMode && scorer.hparams == hparams && attempts == []
    {
      var bank := new WordBankManager(words);
      wordBank := bank;
      scorer := new WordScorerEntropy(bank, hparams, H, true);
      attempts := [];
    }

    /** `process_guess`: cull by the encoded guess and record one attempt. */
    method ProcessGuess(guess: string, feedback: seq<Color>)
      requires Valid() && |guess| == WordLength && |feedback| == WordLength
      modifies this, wordBank
      ensures Valid()
      ensures wordBank.possibleWordBank == CullResult(old(wordBank.possibleWordBank), Encode(guess, wordBank.asciiConverterKey), feedback)
      ensures attempts == old(attempts) + [Attempt(Encode(guess, wordBank.asciiConverterKey), feedback)]
    {
      var encoded := Encode(guess, wordBank.asciiConverterKey);
      wordBank.Cull(encoded, feedback);
      attempts := attempts + [Attempt(encoded, feedback)];
    }

    /** `process_guesses`: a length mismatch fails before anything changes;
        otherwise the game is reset and every guess replayed, lower-cased, so
        the bank and the attempts depend on the arguments alone. */
    method ProcessGuesses(guesses: seq<string>, feedbacks: seq<seq<Color>>) returns (r: Result<()>)
      requires Valid() && WellFormed(guesses, feedbacks)
      modifies this, wordBank
      ensures Valid()
      ensures r.Ok? <==> |guesses| == |feedbacks|
      ensures r.Err? ==> r.error == ValueError(LengthMismatch)
                         && wordBank.possibleWordBank == old(wordBank.possibleWordBank) && attempts == old(attempts)
      ensures r.Ok? ==> wordBank.possibleWordBank == Replay(wordBank.fullWordBank, wordBank.asciiConverterKey, guesses, feedbacks)
                        && attempts == Recorded(wordBank.asciiConverterKey, guesses, feedbacks)
    {
      if |guesses| != |feedbacks| {
        return Err(ValueError(LengthMismatch));
      }
      ResetGame();
      var key := wordBank.asciiConverterKey;
      var i := 0;
      assert guesses[..0] == [] && feedbacks[..0] == [];
      while i < |guesses|
        invariant i <= |guesses| && Valid()
        invariant wordBank.possibleWordBank == Replay(wordBank.fullWordBank, key, guesses[..i], feedbacks[..i])
        invariant attempts == Recorded(key, guesses[..i], feedbacks[..i])
      {
        ReplayStep(wordBank.fullWordBank, key, guesses, feedbacks, i);
        RecordedStep(key, guesses, feedbacks, i);
        ProcessGuess(Lower(guesses[i]), feedbacks[i]);
        i := i + 1;
      }
      assert guesses[..i] == guesses && feedbacks[..i] == feedbacks;
      r := Ok(());
    }

    /** `best_guess`: the sentinel when no word is possible; otherwise the
        scorer's bank is scored for the next attempt and the best words of it
        with positive scores are returned, no more than asked for and no more
        than the bank holds. */
    method BestGuess(numBestGuesses: int) returns (r: seq<string>)
      requires Valid()
      modifies scorer
      ensures Valid() && scorer.hardcoreMode == old(scorer.hardcoreMode)
      ensures wordBank.possibleWordBank == [] ==>
                r == [NoViableGuesses] && scorer.workingWordBank == old(scorer.workingWordBank)
      ensures wordBank.possibleWordBank != [] ==>
                scorer.workingWordBank == scorer.CurrentWordBank()
                && InRange(scorer.workingWordBank, scorer.Rows())
                && Scored(scorer.workingWordBank, wordBank.asciiConverterKey)
                && r == Suggestions(scorer.ScoresFor(|attempts| + 1), scorer.workingWordBank, wordBank.asciiConverterKey, numBestGuesses)
    {
      if |wordBank.possibleWordBank| == 0 {
        return [NoViableGuesses];
      }
      r := ScoreAndSuggest(numBestGuesses);
    }

    /** `best_guess` once some word is possible: lines 64 to 82. */
    method ScoreAndSuggest(numBestGuesses: int) returns (r: seq<string>)
      requires Valid() && wordBank.possibleWordBank != []
      modifies scorer
      ensures Valid() && scorer.hardcoreMode == old(scorer.hardcoreMode)
      ensures scorer.workingWordBank == scorer.CurrentWordBank()
      ensures InRange(scorer.workingWordBank, scorer.Rows())
      ensures Scored(scorer.workingWordBank, wordBank.asciiConverterKey)
      ensures r == Suggestions(scorer.ScoresFor(|attempts| + 1), scorer.workingWordBank, wordBank.asciiConverterKey, numBestGuesses)
    {
      var scores := scorer.ScoreWordBank(|attempts| + 1);
      WorkingDecodes();
      // the selection is stated over `ScoresFor`, which `scores` equals
      r := Suggestions(scorer.ScoresFor(|attempts| + 1), scorer.workingWordBank, wordBank.asciiConverterKey, numBestGuesses);
    }

    /** The scorer's bank is drawn from the full bank, so it decodes. */
    lemma WorkingDecodes()
      requires Valid() && scorer.workingWordBank == scorer.CurrentWordBank()
      ensures Scored(scorer.workingWordBank, wordBank.asciiConverterKey)
    {
      forall w | w in scorer.workingWordBank ensures Decodable(w, wordBank.asciiConverterKey) {
        assert w in wordBank.fullWordBank;
      }
    }

    /** `reset_game`: every word possible again and no attempts. */
    method ResetGame()
      requires Valid()
      modifies this, wordBank
      ensures Valid()
      ensures wordBank.possibleWordBank == wordBank.fullWordBank && attempts == []
    {
      wordBank.Reset();
      attempts := [];
    }
  }
}
