/** The game window (gui.py, the same as archive/gui.py): the secret word,
    the two-pass feedback of a guess against it, the row and attempt
    counters, and the calls into the guessing helper. Widgets are not
    modelled; what a label would show is kept as state. */
module Gui {
  import opened Seqs
  import opened Words
  import opened Outcomes
  import opened Feedback
  import opened Ordering
  import opened Guessing

  /** The rows of the result grid. */
  const Rows: int := 6

  /** The feedback computed in `submit_guess`: the secret's letters are
      counted into a pool; the first pass marks the exact matches green and
      takes their copies from the pool; the second pass marks each other
      position yellow while the pool holds its letter, taking a copy, and
      white otherwise. */
  method ComputeFeedback(secret: TextWord, guess: TextWord) returns (result: string)
    ensures result == Oracle(secret, guess)
  {
    var marks := new char[WordLength](_ => 'w');
    var remaining := CountLetters(secret);
    remaining := MarkGreens(secret, guess, marks, remaining);
    MarkYellows(secret, guess, marks, remaining);
    result := marks[..];
  }

  /** The pool: each letter of the secret with its number of copies. */
  method CountLetters(secret: TextWord) returns (remaining: map<char, int>)
    ensures forall c :: c in remaining <==> CountBelow(secret, c, |secret|) > 0
    ensures forall c :: c in remaining ==> remaining[c] == CountBelow(secret, c, |secret|)
  {
    remaining := map[];
    var i := 0;
    while i < WordLength
      invariant i <= WordLength
      invariant forall c :: c in remaining <==> CountBelow(secret, c, i) > 0
      invariant forall c :: c in remaining ==> remaining[c] == CountBelow(secret, c, i)
    {
      var letter := secret[i];
      CountBelowPositive(secret, letter, i);
      remaining := remaining[letter := (if letter in remaining then remaining[letter] else 0) + 1];
      i := i + 1;
    }
  }

  /** The first pass: every exact match is marked green and takes its copy
      from the pool, which is left holding the unmatched copies. */
  method MarkGreens(secret: TextWord, guess: TextWord, marks: array<char>, pool: map<char, int>) returns (remaining: map<char, int>)
    requires marks.Length == WordLength && forall j :: 0 <= j < WordLength ==> marks[j] == 'w'
    requires forall c :: c in pool <==> CountBelow(secret, c, |secret|) > 0
    requires forall c :: c in pool ==> pool[c] == CountBelow(secret, c, |secret|)
    modifies marks
    ensures forall j :: 0 <= j < WordLength ==> marks[j] == if guess[j] == secret[j] then 'g' else 'w'
    ensures forall c :: c !in remaining ==> Spare(secret, guess, c, |secret|) == 0
    ensures forall c :: c in remaining ==> remaining[c] == Spare(secret, guess, c, |secret|)
  {
    remaining := pool;
    var i := 0;
    while i < WordLength
      invariant i <= WordLength
      invariant forall c :: c in remaining <==> CountBelow(secret, c, |secret|) > 0
      invariant forall c :: c in remaining ==> remaining[c] == CountBelow(secret, c, |secret|) - Greens(secret, guess, c, i)
      invariant forall j :: 0 <= j < WordLength ==> marks[j] == if j < i && guess[j] == secret[j] then 'g' else 'w'
    {
      var letter := guess[i];
      if letter == secret[i] {
        CountBelowPositive(secret, letter, |secret|);
        marks[i] := 'g';
        remaining := remaining[letter := remaining[letter] - 1];
      }
      i := i + 1;
    }
    forall c ensures CountBelow(secret, c, |secret|) == Greens(secret, guess, c, |secret|) + Spare(secret, guess, c, |secret|) {
      SecretSplit(secret, guess, c, |secret|);
    }
  }

  /** The second pass: every other position is marked yellow while the pool
      holds a copy of its letter, taking the copy, and white otherwise. */
  method MarkYellows(secret: TextWord, guess: TextWord, marks: array<char>, pool: map<char, int>)
    requires marks.Length == WordLength
    requires forall j :: 0 <= j < WordLength ==> marks[j] == if guess[j] == secret[j] then 'g' else 'w'
    requires forall c :: c !in pool ==> Spare(secret, guess, c, |secret|) == 0
    requires forall c :: c in pool ==> pool[c] == Spare(secret, guess, c, |secret|)
    modifies marks
    ensures marks[..] == Oracle(secret, guess)
  {
    var remaining := pool;
    var i := 0;
    assert PoolAfter(secret, guess, remaining, 0);
    while i < WordLength
      invariant i <= WordLength
      invariant PoolAfter(secret, guess, remaining, i)
      invariant forall j :: 0 <= j < i ==> marks[j] == Mark(secret, guess, j)
      invariant forall j :: i <= j < WordLength ==> marks[j] == if guess[j] == secret[j] then 'g' else 'w'
    {
      remaining := MarkYellowAt(secret, guess, marks, remaining, i);
      i := i + 1;
    }
    MarksAreOracle(secret, guess, marks[..]);
  }

  /** One step of the second pass, at position `i`. */
  method MarkYellowAt(secret: TextWord, guess: TextWord, marks: array<char>, remaining: map<char, int>, i: nat)
    returns (next: map<char, int>)
    requires marks.Length == WordLength && i < WordLength && PoolAfter(secret, guess, remaining, i)
    requires marks[i] == if guess[i] == secret[i] then 'g' else 'w'
    modifies marks
    ensures PoolAfter(secret, guess, next, i + 1)
    ensures marks[i] == Mark(secret, guess, i)
    ensures forall j :: 0 <= j < WordLength && j != i ==> marks[j] == old(marks[j])
  {
    next := remaining;
    var letter := guess[i];
    if letter != secret[i] {
      if letter in remaining && remaining[letter] > 0 {
        TakeCopy(secret, guess, remaining, i);
        marks[i] := 'y';
        next := remaining[letter := remaining[letter] - 1];
      } else {
        KeepPool(secret, guess, remaining, i);
        marks[i] := 'w';
      }
    } else {
      KeepPool(secret, guess, remaining, i);
    }
  }

  /** Five marks, each the rule's mark of its position, are the feedback. */
  lemma MarksAreOracle(s: TextWord, g: TextWord, marks: string)
    requires |marks| == WordLength && forall j :: 0 <= j < WordLength ==> marks[j] == Mark(s, g, j)
    ensures marks == Oracle(s, g)
  {
  }

  /** The pool after the second pass has seen the positions below `i`: each
      letter's unmatched copies less those claimed by earlier misses. */
  ghost predicate PoolAfter(s: TextWord, g: TextWord, remaining: map<char, int>, i: nat)
    requires i <= WordLength
  {
    (forall c :: c !in remaining ==> Spare(s, g, c, |s|) == 0)
    && forall c :: c in remaining ==>
         remaining[c] == Spare(s, g, c, |s|) - Min(Misses(s, g, c, i), Spare(s, g, c, |s|))
  }

  /** A miss whose letter the pool still holds is yellow and takes a copy. */
  lemma TakeCopy(s: TextWord, g: TextWord, remaining: map<char, int>, i: nat)
    requires i < WordLength && PoolAfter(s, g, remaining, i)
    requires g[i] != s[i] && g[i] in remaining && remaining[g[i]] > 0
    ensures Mark(s, g, i) == 'y'
    ensures PoolAfter(s, g, remaining[g[i] := remaining[g[i]] - 1], i + 1)
  {
  }

  /** An exact match is green, and a miss the pool cannot serve is white;
      neither changes the pool. */
  lemma KeepPool(s: TextWord, g: TextWord, remaining: map<char, int>, i: nat)
    requires i < WordLength && PoolAfter(s, g, remaining, i)
    requires g[i] != s[i] ==> g[i] !in remaining || remaining[g[i]] <= 0
    ensures Mark(s, g, i) == if g[i] == s[i] then 'g' else 'w'
    ensures PoolAfter(s, g, remaining, i + 1)
  {
  }

  /** What `submit_guess` does with a guess of five letters. */
  datatype Submission =
    | Rejected            // the guess is not five letters long: an error box
    | GameOver            // every row is used: an information box
    | Accepted(feedback: string)

  /** `update_guess_info` as written: it unpacks each `(word, score)` pair as
      `score, word`, so it formats the word with `.3f`, which raises
      ValueError for a string; only two empty lists display. */
  function ShowGuessesAsWritten(best: seq<Pair>, worst: seq<Pair>): (r: Result<(seq<Pair>, seq<Pair>)>)
    ensures r.Ok? <==> best == [] && worst == []
  {
    if best == [] && worst == [] then Ok((best, worst)) else Err(ValueError(WrongFormat))
  }

  /** As written, the first non-empty suggestion list raises before
      `attempt_num` is incremented, so no accepted guess advances it. */
  lemma ShowingAGuessFailsAsWritten(best: seq<Pair>, worst: seq<Pair>, p: Pair)
    requires p in best || p in worst
    ensures ShowGuessesAsWritten(best, worst) == Err(ValueError(WrongFormat))
  {
  }

  /** The feedback of a guess of the full bank always passes the helper's
      checks; one outside the bank is refused with ValueError. */
  lemma FeedbackPassesCheck(fullWordBank: seq<TextWord>, secret: TextWord, guess: TextWord)
    ensures CheckCull(fullWordBank, guess, Oracle(secret, guess))
            == if guess in fullWordBank then Ok(()) else Err(ValueError(NotInWordBank))
  {
  }

  class GuiApp {
    const guesserHelper: GuessHelper
    /** `attempt_num`: the attempt number handed to the helper. */
    var attemptNum: int
    /** `current_row`: the next row of the result grid. */
    var currentRow: int
    /** `secret_word`, absent until `set_word` accepts one. */
    var secretWord: Option<TextWord>
    /** The best and worst guesses the labels show. */
    var shown: (seq<Pair>, seq<Pair>)

    ghost predicate Valid()
      reads this, guesserHelper, guesserHelper.scoreCalculator
    {
      guesserHelper.Valid()
    }

    /** `__init__`: no attempt made, no row used, no secret. */
    constructor (guesserHelper: GuessHelper)
      requires guesserHelper.Valid()
      ensures this.guesserHelper == guesserHelper
      ensures attemptNum == 0 && currentRow == 0 && secretWord == None && shown == ([], [])
      ensures Valid()
    {
      this.guesserHelper := guesserHelper;
      attemptNum := 0;
      currentRow := 0;
      secretWord := None;
      shown := ([], []);
    }

    /** `set_word`: a word of five letters, lower-cased, becomes the secret
        and the helper's suggestions for the current attempt are shown; any
        other length is refused and nothing changes. */
    method SetWord(input: string) returns (r: Result<bool>)
      requires Valid()
      modifies this, guesserHelper.scoreCalculator
      ensures Valid()
      ensures attemptNum == old(attemptNum) && currentRow == old(currentRow)
      ensures guesserHelper.possibleWordBank == old(guesserHelper.possibleWordBank)
      ensures |Lower(input)| != WordLength ==> r == Ok(false) && secretWord == old(secretWord) && shown == old(shown)
      ensures |Lower(input)| == WordLength ==> secretWord.Some? && secretWord.value == Lower(input)
      ensures |Lower(input)| == WordLength ==>
                var g := OptimalGuesses(guesserHelper.scoreCalculator.hyperparameters, guesserHelper.scoreCalculator.H,
                                        guesserHelper.fullWordBank, guesserHelper.possibleWordBank,
                                        guesserHelper.hardcoreMode, attemptNum, 5, 3);
                (g.Err? ==> r == Err(g.error) && shown == old(shown)) && (g.Ok? ==> r == Ok(true) && shown == g.value)
    {
      var word := Lower(input);
      if |word| != WordLength {
        return Ok(false);
      }
      var secret: TextWord := word;
      secretWord := Some(secret);
      var g := guesserHelper.FindOptimalGuesses(attemptNum, 5, 3);
      if g.Err? {
        return Err(g.error);
      }
      // `update_guess_info` as intended: every pair shown, word and score
      shown := g.value;
      r := Ok(true);
    }

    /** `submit_guess`: a guess of another length is refused and a full grid
        ends the game, with nothing changed in either case; otherwise the
        feedback against the secret uses up a row, culls the helper's bank,
        shows the suggestions for the attempt before this one is counted,
        and counts the attempt. Without a secret, AttributeError. */
    method SubmitGuess(input: string) returns (r: Result<Submission>)
      requires Valid()
      modifies this, guesserHelper, guesserHelper.scoreCalculator
      ensures Valid()
      ensures |Lower(input)| != WordLength ==>
                r == Ok(Rejected) && unchanged(this) && guesserHelper.possibleWordBank == old(guesserHelper.possibleWordBank)
      ensures |Lower(input)| == WordLength && old(currentRow) >= Rows ==>
                r == Ok(GameOver) && unchanged(this) && guesserHelper.possibleWordBank == old(guesserHelper.possibleWordBank)
      ensures |Lower(input)| == WordLength && old(currentRow) < Rows && old(secretWord).None? ==>
                r == Err(AttributeError) && unchanged(this) && guesserHelper.possibleWordBank == old(guesserHelper.possibleWordBank)
      ensures |Lower(input)| == WordLength && old(currentRow) < Rows && old(secretWord).Some? ==>
                var guess: TextWord := Lower(input);
                var feedback := Oracle(old(secretWord).value, guess);
                var check := CheckCull(guesserHelper.fullWordBank, guess, feedback);
                currentRow == old(currentRow) + 1 && secretWord == old(secretWord)
                && (check.Err? ==> r == Err(check.error) && attemptNum == old(attemptNum) && shown == old(shown)
                                   && guesserHelper.possibleWordBank == old(guesserHelper.possibleWordBank))
                && (check.Ok? ==>
                      var culled := GuessCullResult(old(guesserHelper.possibleWordBank), guess, feedback);
                      var g := OptimalGuesses(guesserHelper.scoreCalculator.hyperparameters, guesserHelper.scoreCalculator.H,
                                              guesserHelper.fullWordBank, culled, guesserHelper.hardcoreMode, old(attemptNum), 5, 3);
                      guesserHelper.possibleWordBank == culled
                      && (g.Err? ==> r == Err(g.error) && attemptNum == old(attemptNum) && shown == old(shown))
                      && (g.Ok? ==> r == Ok(Accepted(feedback)) && attemptNum == old(attemptNum) + 1 && shown == g.value))
      ensures r.Ok? && r.value.Accepted? ==>
                old(secretWord).Some? && r.value.feedback == Oracle(old(secretWord).value, Lower(input))
                && currentRow == old(currentRow) + 1 && attemptNum == old(attemptNum) + 1
                && guesserHelper.scoreCalculator.attemptNum == old(attemptNum)
                && Ok(shown) == OptimalGuesses(guesserHelper.scoreCalculator.hyperparameters, guesserHelper.scoreCalculator.H,
                                               guesserHelper.fullWordBank, guesserHelper.possibleWordBank,
                                               guesserHelper.hardcoreMode, old(attemptNum), 5, 3)
      ensures r.Ok? && r.value.Accepted? && old(secretWord).value in old(guesserHelper.possibleWordBank) ==>
                old(secretWord).value in guesserHelper.possibleWordBank
    {
      var guess := Lower(input);
      if |guess| != WordLength {
        return Ok(Rejected);
      }
      if currentRow >= Rows {
        return Ok(GameOver);
      }
      if secretWord.None? {
        return Err(AttributeError);
      }
      var secret := secretWord.value;
      var feedback := ComputeFeedback(secret, guess);
      currentRow := currentRow + 1;
      var culled := guesserHelper.CullPossibleWordBank(guess, feedback);
      if culled.Err? {
        return Err(culled.error);
      }
      ghost var before := old(guesserHelper.possibleWordBank);
      if secret in before {
        GuessCullKeepsSecret(before, secret, guess);
      }
      var g := guesserHelper.FindOptimalGuesses(attemptNum, 5, 3);
      if g.Err? {
        return Err(g.error);
      }
      // `update_guess_info` as intended: every pair shown, word and score
      shown := g.value;
      attemptNum := attemptNum + 1;
      r := Ok(Accepted(feedback));
    }
  }
}
