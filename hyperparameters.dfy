/** The `Hyperparameters` record of both NumPy packages
    (wordle_buddy/utils/hyperparameters.py and its identical copy
    wordle_solver/utils/hyperparameters.py): its defaults and the ordered
    checks of `__post_init__`. */
module Hyperparameters {
  import opened Outcomes

  /** The value given for `hardcore_mode`: a bool, or anything else. */
  datatype Flag = Bool(b: bool) | NotABool

  datatype Params = Params(
    vowelPosWeights: seq<real>,
    consonantPosWeights: seq<real>,
    repeatLetterPenalty: real,
    mismatchPenalty: real,
    invalidWordDecayRatePenalty: real,
    maxGuesses: int,
    hardcoreMode: Flag)

  /** The field defaults. */
  const Defaults: Params :=
    Params([1.2, 1.2, 1.2, 1.2, 1.2], [1.5, 1.0, 1.2, 1.1, 1.5], 1.3, 2.0, 0.5, 6, Bool(false))

  /** Every weight of the list is positive. */
  predicate AllPositive(weights: seq<real>)
  {
    forall i :: 0 <= i < |weights| ==> weights[i] > 0.0
  }

  /** The conditions `__post_init__` checks. */
  predicate Acceptable(h: Params)
  {
    AllPositive(h.vowelPosWeights) && AllPositive(h.consonantPosWeights)
    && h.repeatLetterPenalty > 0.0 && h.mismatchPenalty > 0.0 && h.invalidWordDecayRatePenalty > 0.0
    && h.maxGuesses > 0 && h.hardcoreMode.Bool?
  }

  /** `__post_init__`: the checks in order, the first failing one raising its
      ValueError; an accepted record yields whether the UserWarning about an
      unconventional `max_guesses` is issued. */
  function PostInit(h: Params): (r: Result<bool>)
    ensures r.Ok? <==> Acceptable(h)
    ensures r.Ok? ==> (r.value <==> h.maxGuesses != 6)
    ensures r.Err? ==> r.error.ValueError?
  {
    if !AllPositive(h.vowelPosWeights) then Err(ValueError(NotPositive("vowel_pos_weights")))
    else if !AllPositive(h.consonantPosWeights) then Err(ValueError(NotPositive("consonant_pos_weights")))
    else if h.repeatLetterPenalty <= 0.0 then Err(ValueError(NotPositive("repeat_letter_penalty")))
    else if h.mismatchPenalty <= 0.0 then Err(ValueError(NotPositive("mismatch_penalty")))
    else if h.invalidWordDecayRatePenalty <= 0.0 then Err(ValueError(NotPositive("invalid_word_decay_rate_penalty")))
    else if h.maxGuesses <= 0 then Err(ValueError(NotPositive("max_guesses")))
    else if !h.hardcoreMode.Bool? then Err(ValueError(NotBool))
    else Ok(h.maxGuesses != 6)
  }

  /** The error names the first failing check: a check only decides the
      outcome when every check before it passes. */
  lemma FirstFailingCheck(h: Params)
    ensures !AllPositive(h.vowelPosWeights) ==> PostInit(h) == Err(ValueError(NotPositive("vowel_pos_weights")))
    ensures (AllPositive(h.vowelPosWeights) && !AllPositive(h.consonantPosWeights)) ==>
              PostInit(h) == Err(ValueError(NotPositive("consonant_pos_weights")))
    ensures (AllPositive(h.vowelPosWeights) && AllPositive(h.consonantPosWeights) && h.repeatLetterPenalty <= 0.0) ==>
              PostInit(h) == Err(ValueError(NotPositive("repeat_letter_penalty")))
    ensures (AllPositive(h.vowelPosWeights) && AllPositive(h.consonantPosWeights) && h.repeatLetterPenalty > 0.0
             && h.mismatchPenalty <= 0.0) ==>
              PostInit(h) == Err(ValueError(NotPositive("mismatch_penalty")))
    ensures (AllPositive(h.vowelPosWeights) && AllPositive(h.consonantPosWeights) && h.repeatLetterPenalty > 0.0
             && h.mismatchPenalty > 0.0 && h.invalidWordDecayRatePenalty <= 0.0) ==>
              PostInit(h) == Err(ValueError(NotPositive("invalid_word_decay_rate_penalty")))
    ensures (AllPositive(h.vowelPosWeights) && AllPositive(h.consonantPosWeights) && h.repeatLetterPenalty > 0.0
             && h.mismatchPenalty > 0.0 && h.invalidWordDecayRatePenalty > 0.0 && h.maxGuesses <= 0) ==>
              PostInit(h) == Err(ValueError(NotPositive("max_guesses")))
    ensures (AllPositive(h.vowelPosWeights) && AllPositive(h.consonantPosWeights) && h.repeatLetterPenalty > 0.0
             && h.mismatchPenalty > 0.0 && h.invalidWordDecayRatePenalty > 0.0 && h.maxGuesses > 0
             && !h.hardcoreMode.Bool?) ==>
              PostInit(h) == Err(ValueError(NotBool))
  {
  }

  /** The defaults pass every check and issue no warning. */
  lemma DefaultsAccepted()
    ensures PostInit(Defaults) == Ok(false)
  {
    assert AllPositive(Defaults.vowelPosWeights);
    assert AllPositive(Defaults.consonantPosWeights);
  }

  /** A `max_guesses` other than 6 only warns: changing it on an accepted
      record to any other positive value still yields a record. */
  lemma UnconventionalMaxGuessesWarns(h: Params, n: int)
    requires Acceptable(h) && n > 0 && n != 6
    ensures PostInit(h.(maxGuesses := n)) == Ok(true)
  {
  }
}
