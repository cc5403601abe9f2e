/** The two NumPy `cull` variants side by side: on the same bank, guess and
    feedback, the `wordle_buddy` manager keeps a subsequence of what the
    `wordle_solver` manager keeps. */
module CullComparison {
  import opened Seqs
  import opened Words
  import opened Feedback
  import Buddy = BuddyWordBank
  import Solver = SolverWordBank

  /** Every filter of the newer `cull` implies the corresponding older one. */
  lemma LetterImplies(w: Word, guess: Word, information: seq<Color>, i: nat)
    requires |information| == WordLength && i < WordLength
    ensures Buddy.LetterKeeps(w, guess, information, guess[i]) ==> Solver.LetterKeeps(w, guess, information, guess[i])
  {
    var c := guess[i];
    CountPositive(guess, c);
    if Count(guess, c) == 1 {
      Buddy.SingleLetterRule(w, guess, information, i);
      Solver.SingleLetterRule(w, guess, information, i);
    } else {
      Buddy.RepeatedLetterRule(w, guess, information, c);
      Solver.RepeatedLetterRule(w, guess, information, c);
    }
  }

  /** A word the `wordle_buddy` cull keeps is kept by the `wordle_solver` cull. */
  lemma SurvivesImplies(w: Word, guess: Word, information: seq<Color>)
    requires |information| == WordLength
    ensures Buddy.Survives(w, guess, information) ==> Solver.Survives(w, guess, information)
  {
    Buddy.SurvivesIff(w, guess, information);
    Solver.SurvivesIff(w, guess, information);
    forall i | 0 <= i < WordLength {
      LetterImplies(w, guess, information, i);
    }
  }

  /** The `wordle_buddy` result is the `wordle_solver` result filtered further,
      so it is a subsequence of it and holds no other word. */
  lemma BuddyRefinesSolver(bank: seq<Word>, guess: Word, information: seq<Color>)
    requires |information| == WordLength
    ensures Buddy.CullResult(bank, guess, information)
         == Filter(Solver.CullResult(bank, guess, information), (w: Word) => Buddy.Survives(w, guess, information))
    ensures IsSubsequence(Buddy.CullResult(bank, guess, information), Solver.CullResult(bank, guess, information))
    ensures forall w :: w in Buddy.CullResult(bank, guess, information) ==> w in Solver.CullResult(bank, guess, information)
  {
    forall w: Word ensures Buddy.Survives(w, guess, information)
        == (Solver.Survives(w, guess, information) && Buddy.Survives(w, guess, information)) {
      SurvivesImplies(w, guess, information);
    }
    FilterFilter(bank,
      (w: Word) => Solver.Survives(w, guess, information),
      (w: Word) => Buddy.Survives(w, guess, information),
      (w: Word) => Buddy.Survives(w, guess, information));
    FilterIsSubsequence(Solver.CullResult(bank, guess, information), (w: Word) => Buddy.Survives(w, guess, information));
  }
}
