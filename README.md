# WordleBuddy, modelled in Dafny

WordleBuddy is a Wordle assistant. It keeps a bank of five-letter words, culls
the bank with the green/yellow/gray feedback of each guess, and ranks the next
guesses by letter-frequency entropy. The repository holds three
implementations of that loop, and this project models all three.

- **The list-based helper** (`guessing.py`, identical to `archive/guessing.py`).
  `GuessHelper` holds a full and a possible word list. It validates each
  guess and feedback string and culls position by position. Its
  `EntropyScoreCalculator` scores words from a per-position letter table, and
  `find_optimal_guesses` picks the best and worst words with two heaps. The
  window in `gui.py` (identical to `archive/gui.py`) computes the feedback of
  a guess against a secret word with a two-pass letter pool. It drives the
  helper and counts rows and attempts.
- **The `wordle_buddy` package.** `WordBankManager` holds a NumPy bank of
  integer letter codes, normalised by the smallest code point. Its `cull`
  applies per-letter filters chosen by how often a letter occurs in the guess.
  `WordScorerEntropy` scores a bank with clipped binary entropies and
  repeated-letter penalties, and masks non-answers in the end game.
  `WordleGuesser` replays guesses and returns the best words.
- **The `wordle_solver` package.** This is an older `WordBankManager` with a
  weaker filter for repeated letters. Its `WordScorerEntropy` keeps a
  frequency table in place and weights every word by an answer factor.

Both `hyperparameters.py` files of the packages are the same record with the
same `__post_init__` checks, so one module models them.

Each source file maps to one or more modules:

| module | models |
|---|---|
| `Words` | words as text and as codes, `str.lower`, loading, `encode_word`/`decode_word` |
| `Feedback` | the two-pass rule of `gui.py` in closed form (`Oracle`), the colour names |
| `BankFilters`, `BuddyWordBank`, `SolverWordBank`, `CullComparison` | the two NumPy managers and how their culls relate |
| `LetterTables`, `BuddyScorer`, `SolverScorer` | the NumPy scorers |
| `Hyperparameters` | the `Hyperparameters` record |
| `BuddyGuesser` | `WordleGuesser` |
| `GuessingScore`, `Guessing`, `HeapSelection`, `Ordering` | `guessing.py` |
| `Gui` | the logic of `GUIApp` |
| `Seqs`, `Outcomes` | shared sequence lemmas, and Python's exceptions as a `Result` |

Code that updates objects in place is modelled by classes whose methods
`modify` their fields. Each method is proved against a function of the old
state: `possibleWordBank == CullResult(old(possibleWordBank), …)`,
`result == Oracle(secret, guess)`, and `r == OptimalGuesses(…)`. The
properties the program relies on are lemmas about those functions:

- soundness: a cull by a secret's own feedback keeps the secret;
- the exact rule each cull applies;
- the best heap keeps the largest scores, and the intended worst heap the
  lowest; the worst heap as written keeps the last word seen and the
  lowest scores before it;
- the feedback never credits more copies of a letter than the secret holds.

Python exceptions are values of `Outcomes.Result`. The binary entropy
`-p log2 p - (1-p) log2 (1-p)` is a parameter `H: real -> real`.

## Model

| member | source | states |
|---|---|---|
| Words.LowerChar | gui.py:58 | `str.lower` on one character, for ASCII only: 'A'–'Z' become lower case and every other character is left as it is |
| Words.Lower | gui.py:71 | lower-casing keeps the length and lowers each character in place |
| Words.LowerIdempotent | wordle_buddy/guesser.py:51 | lower-casing twice is lower-casing once (`guess.lower()` followed by `encode_word`'s `char.lower()`); lower-case text is unchanged |
| Words.MaxOfWord | wordle_buddy/utils/word_scorer_entropy.py:32 | `np.max` over a non-empty word bounds every code and is one of them |
| Words.MaxCode | wordle_buddy/utils/word_scorer_entropy.py:32 | `np.max` over a non-empty bank bounds every code of every word and is one of them |
| Words.MaxCodeOfNormalized | wordle_solver/utils/word_scorer_entropy.py:29-30 | a non-empty normalised bank has a largest code of at least 0, so the table has a row |
| Words.Ord | wordle_buddy/utils/word_bank_manager.py:36 | each letter becomes its code point |
| Words.MinCode | wordle_buddy/utils/word_bank_manager.py:39 | `word_bank.min()` is at most every code and is attained |
| Words.Shift | wordle_buddy/utils/word_bank_manager.py:42 | normalising subtracts the key from every code |
| Words.LoadBank | wordle_buddy/utils/word_bank_manager.py:36-44 | each loaded code plus the key is the letter's code point; every code is at least 0 and some code is 0 |
| Words.Encode | wordle_buddy/utils/word_bank_manager.py:130-132 | each code plus the key is the code point of the lower-cased letter |
| Words.Decode | wordle_buddy/utils/word_bank_manager.py:126-128 | each character is the code plus the key |
| Words.DecodeEncode | wordle_buddy/utils/word_bank_manager.py:126-132 | `decode_word(encode_word(w))` is `w` lower-cased, whatever the key |
| Words.EncodeDecode | wordle_solver/utils/word_bank_manager.py:117-123 | `encode_word(decode_word(c))` is `c` when the decoded text is lower-case |
| Words.LoadedWordsDecode | wordle_solver/utils/word_bank_manager.py:36-44 | every loaded word decodes back to the text it was loaded from |
| Feedback.FormatFeedback | wordle_solver/terminal_version.py:73-80 | `g`, `y` and `w` map to green, yellow and gray, position by position |
| Feedback.Oracle | gui.py:76-100 | five marks from g/y/w; position i is `g` exactly when guess and secret agree there |
| Feedback.Evaluate | wordle_solver/terminal_version.py:73-80 | the colours of the rule's marks; Green exactly at the matching positions |
| Feedback.SecretSplit | gui.py:80-89 | each copy of a letter in the secret is either matched in place or left in the pool |
| Feedback.MissesMonotone | gui.py:91-100 | the unmatched occurrences of a letter seen so far only grow |
| Feedback.GreenMarks | gui.py:84-89 | the green marks on a letter are its in-place matches |
| Feedback.YellowMarks | gui.py:91-100 | the yellow marks on a letter are the smaller of its unmatched occurrences and its pool |
| Feedback.CreditedAtMostCount | gui.py:80-97 | the green and yellow marks on a letter never exceed its copies in the secret: the pool never goes negative |
| Feedback.WhiteMeansExhausted | gui.py:92-100 | a white mark on a letter means its green and yellow marks equal its copies in the secret |
| Feedback.YellowMeansElsewhere | gui.py:93-97 | a yellow at i means `guess[i] != secret[i]` and `guess[i]` occurs in the secret |
| Feedback.LoneWhiteMeansAbsent | gui.py:91-100 | a letter found once in the guess and marked white is absent from the secret |
| Feedback.MissesBelowCount | gui.py:91-93 | unmatched occurrences never exceed the occurrences in the guess |
| Feedback.GreensBelowCount | gui.py:84-86 | in-place matches never exceed the occurrences in the guess |
| Feedback.CountBelowSplit | gui.py:91-93 | an occurrence at i leaves at least one more occurrence than those before i |
| Feedback.CountBelowMonotone | gui.py:80-82 | counts over a longer prefix are no smaller |
| Feedback.GreensNotAt | gui.py:84-86 | a mismatch at i leaves an occurrence of the letter unmatched |
| Feedback.ColorsPartition | wordle_buddy/utils/word_bank_manager.py:102-113 | every occurrence of a letter gets exactly one of the three colours |
| Feedback.FormatFeedbackCounts | wordle_solver/terminal_version.py:73-80 | mapping letters to colours keeps each count of marks |
| Feedback.SpareWitness | gui.py:94-97 | a non-empty pool for a letter has a secret position holding it that was not matched |
| BankFilters.FindDuplicates | wordle_buddy/utils/word_bank_manager.py:46-50 | the non-negative codes of the word with their counts, each once, ascending, every such code present |
| BankFilters.Bincount | wordle_buddy/utils/word_bank_manager.py:49 | `np.bincount` restricted to positive counts, ascending by code |
| BankFilters.BincountCovers | wordle_buddy/utils/word_bank_manager.py:49-50 | every code below the bound that occurs is listed |
| BuddyWordBank.Select | wordle_buddy/utils/word_bank_manager.py:116-117 | exactly the positions whose feedback has the given colour |
| BuddyWordBank.CullResult | wordle_buddy/utils/word_bank_manager.py:90-124 | the words of the bank that pass every letter's filter, no more words than before |
| BuddyWordBank.WordBankManager.constructor | wordle_buddy/utils/word_bank_manager.py:15-22 | the loaded bank and key, every word possible |
| BuddyWordBank.WordBankManager.RemoveGray | wordle_buddy/utils/word_bank_manager.py:52-55 | keeps exactly the words without the letter, in order |
| BuddyWordBank.WordBankManager.RemoveGreen | wordle_buddy/utils/word_bank_manager.py:57-60 | keeps exactly the words with the letter at the index |
| BuddyWordBank.WordBankManager.RemoveYellow | wordle_buddy/utils/word_bank_manager.py:62-69 | keeps the words with the letter in a column outside the confirmed ones and not at the index |
| BuddyWordBank.WordBankManager.FilterByLetterCount | wordle_buddy/utils/word_bank_manager.py:71-74 | keeps the words whose count of the letter lies between the bounds |
| BuddyWordBank.WordBankManager.RegularRemoval | wordle_buddy/utils/word_bank_manager.py:76-88 | dispatches on the colour to the gray, green or yellow filter |
| BuddyWordBank.WordBankManager.RepeatedRemoval | wordle_buddy/utils/word_bank_manager.py:109-124 | the count bounds, then every green, then every yellow with the greens excluded |
| BuddyWordBank.WordBankManager.RemoveGreens | wordle_buddy/utils/word_bank_manager.py:120-121 | keeps the words with the letter at every green index |
| BuddyWordBank.WordBankManager.RemoveYellows | wordle_buddy/utils/word_bank_manager.py:123-124 | keeps the words passing the yellow filter of every yellow index |
| BuddyWordBank.WordBankManager.CullLetter | wordle_buddy/utils/word_bank_manager.py:100-124 | one iteration: the regular filter for a single occurrence, the repeated one otherwise |
| BuddyWordBank.WordBankManager.Cull | wordle_buddy/utils/word_bank_manager.py:90-124 | the possible words become `CullResult` of the old ones, including the early return on an empty bank |
| BuddyWordBank.WordBankManager.Reset | wordle_buddy/utils/word_bank_manager.py:134-136 | every word of the full bank is possible again |
| BuddyWordBank.LettersKeepPrefix | wordle_buddy/utils/word_bank_manager.py:100 | passing the filters of more letters implies passing those of fewer |
| BuddyWordBank.LettersKeepStep | wordle_buddy/utils/word_bank_manager.py:100-124 | filtering by one more letter extends the filters passed |
| BuddyWordBank.EmptyStaysEmpty | wordle_buddy/utils/word_bank_manager.py:104-105 | returning early on an empty bank loses nothing: the full cull is empty too |
| BuddyWordBank.RegularSound | wordle_buddy/utils/word_bank_manager.py:107-108 | the filter of a letter found once keeps the secret that produced the feedback |
| BuddyWordBank.CountBoundsSound | wordle_buddy/utils/word_bank_manager.py:110-114 | the secret's count of a repeated letter lies within the computed bounds |
| BuddyWordBank.PositionsSound | wordle_buddy/utils/word_bank_manager.py:116-124 | the secret passes the green and yellow filters of a repeated letter |
| BuddyWordBank.CullKeepsSecret | wordle_buddy/utils/word_bank_manager.py:90-124 | a cull with the secret's own feedback never removes the secret |
| BuddyWordBank.CullIsSubsequence | wordle_buddy/utils/word_bank_manager.py:54-55 | a cull keeps an order-preserving subsequence of the bank |
| BuddyWordBank.SurvivesIff | wordle_buddy/utils/word_bank_manager.py:97-100 | a word survives exactly when it passes the filter of every non-negative code of the guess |
| BuddyWordBank.SingleLetterRule | wordle_buddy/utils/word_bank_manager.py:76-88 | for a letter found once: gray bans it, green pins it, yellow demands it elsewhere but not here |
| BuddyWordBank.RepeatedBounds | wordle_buddy/utils/word_bank_manager.py:110-113 | the minimum is the green and yellow marks; the maximum is that too once one copy is gray, five otherwise |
| BuddyWordBank.SelectGreens | wordle_buddy/utils/word_bank_manager.py:116 | the green indices of a letter are exactly its green guess positions |
| BuddyWordBank.RepeatedLetterRule | wordle_buddy/utils/word_bank_manager.py:109-124 | the repeated-letter filter is exactly the rule stated on guess positions: count bounds, greens, and yellows found outside the greens |
| SolverWordBank.CullResult | wordle_solver/utils/word_bank_manager.py:87-115 | the words of the bank that pass every letter's filter |
| SolverWordBank.WordBankManager.constructor | wordle_solver/utils/word_bank_manager.py:15-22 | the loaded bank and key, every word possible |
| SolverWordBank.WordBankManager.RemoveGray | wordle_solver/utils/word_bank_manager.py:52-55 | keeps exactly the words without the letter |
| SolverWordBank.WordBankManager.RemoveGreen | wordle_solver/utils/word_bank_manager.py:57-60 | keeps exactly the words with the letter at the index |
| SolverWordBank.WordBankManager.RemoveYellow | wordle_solver/utils/word_bank_manager.py:62-66 | keeps the words with the letter somewhere but not at the index |
| SolverWordBank.WordBankManager.RemoveDuplicateLetters | wordle_solver/utils/word_bank_manager.py:68-71 | keeps the words with at most the allowed copies |
| SolverWordBank.WordBankManager.RegularRemoval | wordle_solver/utils/word_bank_manager.py:73-85 | dispatches on the colour to the gray, green or yellow filter |
| SolverWordBank.WordBankManager.BoundRemoval | wordle_solver/utils/word_bank_manager.py:107-109 | only when a copy is gray, caps the count at the non-gray marks |
| SolverWordBank.WordBankManager.RepeatedRemoval | wordle_solver/utils/word_bank_manager.py:106-115 | the gray cap, then green or yellow at each position in order |
| SolverWordBank.WordBankManager.CullLetter | wordle_solver/utils/word_bank_manager.py:97-115 | one iteration of the loop over letters |
| SolverWordBank.WordBankManager.Cull | wordle_solver/utils/word_bank_manager.py:87-115 | the possible words become `CullResult` of the old ones |
| SolverWordBank.WordBankManager.Reset | wordle_solver/utils/word_bank_manager.py:125-127 | every word of the full bank is possible again |
| SolverWordBank.LettersKeepPrefix | wordle_solver/utils/word_bank_manager.py:97 | passing more letters' filters implies passing fewer |
| SolverWordBank.LettersKeepStep | wordle_solver/utils/word_bank_manager.py:97-115 | filtering by one more letter extends the filters passed |
| SolverWordBank.EmptyStaysEmpty | wordle_solver/utils/word_bank_manager.py:101-102 | the early return on an empty bank loses nothing |
| SolverWordBank.CullIsSubsequence | wordle_solver/utils/word_bank_manager.py:54-55 | a cull keeps an order-preserving subsequence |
| SolverWordBank.SurvivesIff | wordle_solver/utils/word_bank_manager.py:94-99 | survival is passing the filter of every non-negative code of the guess |
| SolverWordBank.SingleLetterRule | wordle_solver/utils/word_bank_manager.py:73-85 | for a letter found once: gray bans it, green pins it, yellow demands it elsewhere |
| SolverWordBank.RepeatedLetterRule | wordle_solver/utils/word_bank_manager.py:106-115 | the repeated-letter filter is exactly: no more copies than non-gray marks when one is gray, greens pinned, yellows elsewhere |
| SolverWordBank.RegularSound | wordle_solver/utils/word_bank_manager.py:104-105 | the filter of a letter found once keeps the secret |
| SolverWordBank.RepeatedSound | wordle_solver/utils/word_bank_manager.py:106-115 | the filter of a repeated letter keeps the secret |
| SolverWordBank.CullKeepsSecret | wordle_solver/utils/word_bank_manager.py:87-115 | a cull with the secret's own feedback never removes the secret |
| CullComparison.LetterImplies | wordle_buddy/utils/word_bank_manager.py:107-124 | each letter filter of the `wordle_buddy` cull implies the `wordle_solver` one |
| CullComparison.SurvivesImplies | wordle_solver/utils/word_bank_manager.py:87-115 | a word the `wordle_buddy` cull keeps, the `wordle_solver` cull keeps |
| CullComparison.BuddyRefinesSolver | wordle_buddy/utils/word_bank_manager.py:90-124 | the `wordle_buddy` result is the `wordle_solver` result filtered further, a subsequence of it |
| LetterTables.Frequencies | wordle_buddy/utils/word_scorer_entropy.py:52-56 | entry `[c][p]` counts the words holding code c at position p |
| LetterTables.Codes | wordle_buddy/utils/word_scorer_entropy.py:52 | the row codes of the table, in order |
| LetterTables.ColumnTotalIsSize | wordle_solver/utils/word_scorer_entropy.py:43-48 | every column of the table sums to the number of words counted |
| LetterTables.ColumnTotalIsColumnSum | wordle_solver/utils/word_scorer_entropy.py:47-48 | a column total over rows is the column count summed over those codes |
| LetterTables.RowTotalIsCopies | wordle_buddy/utils/word_scorer_entropy.py:67-73 | a row total is the code's copies over the bank and at least any entry, so the yellow numerator is non-negative |
| LetterTables.PrefixSumIsCopies | wordle_buddy/utils/word_scorer_entropy.py:67 | a row's prefix sum counts the copies within that many positions |
| LetterTables.AllCopies | wordle_buddy/utils/word_scorer_entropy.py:67 | all five positions give every copy |
| LetterTables.NoCopiesBelow | wordle_buddy/utils/word_scorer_entropy.py:67 | no positions give no copies |
| LetterTables.CopiesBelowStep | wordle_buddy/utils/word_scorer_entropy.py:67 | one more position adds its column count |
| LetterTables.Clip | wordle_buddy/utils/word_scorer_entropy.py:77-80 | the result lies in `[1e-10, 1 - 1e-10]`, equals x inside, and the nearer bound outside |
| LetterTables.LetterCounts | wordle_buddy/utils/word_scorer_entropy.py:113-120 | position p holds the count, within the word, of the letter at p |
| LetterTables.PenaltiesOfCounts | wordle_buddy/utils/word_scorer_entropy.py:122-126 | the count is at least 1; both factors are 1 for a single letter, and strictly smaller when it repeats |
| BuddyScorer.WordEntropies | wordle_buddy/utils/word_scorer_entropy.py:128-147 | five entropies per word |
| BuddyScorer.Scores | wordle_buddy/utils/word_scorer_entropy.py:189-190 | one score per word of the working bank |
| BuddyScorer.EndGameMask | wordle_buddy/utils/word_scorer_entropy.py:136-147 | in the end game (at most two possible words, or the last attempt) a non-answer's entropies and score are 0; otherwise every entropy is kept |
| BuddyScorer.DistinctLettersUnscaled | wordle_buddy/utils/word_scorer_entropy.py:122-132 | a letter that occurs once is not scaled: green plus yellow plus white |
| BuddyScorer.WordScorerEntropy.constructor | wordle_buddy/utils/word_scorer_entropy.py:16-32 | the bank, hyperparameters, mode, and the largest code of the full bank |
| BuddyScorer.WordScorerEntropy.ToggleMode | wordle_buddy/utils/word_scorer_entropy.py:34-40 | only the flag changes |
| BuddyScorer.WordScorerEntropy.CurrentWordBank | wordle_buddy/utils/word_scorer_entropy.py:42-47 | the possible words in hardcore mode, the full bank otherwise |
| BuddyScorer.WordScorerEntropy.PrecomputeLetterFrequencies | wordle_buddy/utils/word_scorer_entropy.py:49-58 | the table counts the possible words, whatever the mode |
| BuddyScorer.WordScorerEntropy.BankInRange | wordle_buddy/utils/word_scorer_entropy.py:52 | every code of a bank drawn from the full bank is a row of the table |
| BuddyScorer.WordScorerEntropy.ScoreWordBank | wordle_buddy/utils/word_scorer_entropy.py:173-192 | the working bank is fixed from the mode and every word of it is scored against the possible words' table |
| BuddyScorer.AddColumn | wordle_buddy/utils/word_scorer_entropy.py:55-56 | `np.add.at` on a column adds the column's counts and leaves the other columns alone |
| SolverScorer.RepeatFactorRange | wordle_solver/utils/word_scorer_entropy.py:121-137 | the factor is 1 for a single letter and strictly between 0 and 1/2 for a repeated one |
| SolverScorer.WordEntries | wordle_solver/utils/word_scorer_entropy.py:133-144 | five weighted entropies per word |
| SolverScorer.Scores | wordle_solver/utils/word_scorer_entropy.py:148-166 | one score per possible word; AttributeError without `answer_weight_base`, ZeroDivisionError when `max_guesses` is 0 |
| SolverScorer.ScoresAreWeighted | wordle_solver/utils/word_scorer_entropy.py:139-144 | every score is the unweighted score times `1 + base * (1 + attempt / max_guesses)` |
| SolverScorer.ScaledByFactor | wordle_solver/utils/word_scorer_entropy.py:144 | a scaled entry is the unweighted entry times the answer factor |
| SolverScorer.SingleLetterUnscaled | wordle_solver/utils/word_scorer_entropy.py:129-137 | a letter found once keeps its combined entropy, times the answer factor |
| SolverScorer.WordScorerEntropy.constructor | wordle_solver/utils/word_scorer_entropy.py:16-30 | a zeroed table of `max + 1` rows by 5, and the bank fixed by the mode |
| SolverScorer.WordScorerEntropy.ToggleMode | wordle_solver/utils/word_scorer_entropy.py:32-41 | True fixes the full bank, False the possible words as they are now |
| SolverScorer.WordScorerEntropy.DrawnInRange | wordle_solver/utils/word_scorer_entropy.py:29-30 | every code of a bank drawn from the full bank is a row of the table |
| SolverScorer.WordScorerEntropy.ClearTable | wordle_solver/utils/word_scorer_entropy.py:46 | `fill(0)` zeroes every entry |
| SolverScorer.WordScorerEntropy.CountColumn | wordle_solver/utils/word_scorer_entropy.py:47-48 | one column gains its counts and the others keep theirs |
| SolverScorer.WordScorerEntropy.PrecomputeLetterFrequencies | wordle_solver/utils/word_scorer_entropy.py:43-48 | the table holds the frequencies of the bank fixed by the mode |
| SolverScorer.WordScorerEntropy.Table | wordle_solver/utils/word_scorer_entropy.py:30 | the table read as rows of five counts |
| SolverScorer.WordScorerEntropy.ScoreWordBank | wordle_solver/utils/word_scorer_entropy.py:148-166 | the table is counted over the fixed bank, and the possible words are scored from it |
| SolverScorer.CullKeepsSnapshot | wordle_solver/utils/word_scorer_entropy.py:39-41 | a cull rebinds the possible words but not the bank the scorer fixed |
| Hyperparameters.PostInit | wordle_buddy/utils/hyperparameters.py:29-54 | construction succeeds exactly when every check passes; the warning is given exactly when `max_guesses != 6` |
| Hyperparameters.FirstFailingCheck | wordle_buddy/utils/hyperparameters.py:34-47 | the checks run in order and the first failing one names the error |
| Hyperparameters.DefaultsAccepted | wordle_solver/utils/hyperparameters.py:20-27 | the defaults pass every check and give no warning |
| Hyperparameters.UnconventionalMaxGuessesWarns | wordle_solver/utils/hyperparameters.py:50-54 | another positive `max_guesses` only warns |
| BuddyGuesser.Recorded | wordle_buddy/guesser.py:50-51 | one attempt per guess, its encoding and feedback |
| BuddyGuesser.ReplayStep | wordle_buddy/guesser.py:34-35 | replaying one more guess is one more cull by its lower-cased encoding |
| BuddyGuesser.RecordedStep | wordle_buddy/guesser.py:36 | one more guess appends one attempt |
| BuddyGuesser.ReplayShrinks | wordle_buddy/guesser.py:49-51 | replayed guesses leave no more words than before, all from the bank |
| BuddyGuesser.ReplayKeepsSecret | wordle_buddy/guesser.py:38-51 | replaying the secret's own feedback for every guess keeps the secret |
| BuddyGuesser.Range | wordle_buddy/guesser.py:70 | the positions `0 .. n-1` |
| BuddyGuesser.InsertPosition | wordle_buddy/guesser.py:70 | inserting keeps the order ascending by score and adds the position once |
| BuddyGuesser.ArgSort | wordle_buddy/guesser.py:70 | `np.argsort`: a permutation of the positions, ascending by score |
| BuddyGuesser.ArgSortBelow | wordle_buddy/guesser.py:70 | the same for the first n positions |
| BuddyGuesser.PositiveOnly | wordle_buddy/guesser.py:71-75 | keeps exactly the chosen positions whose score is positive |
| BuddyGuesser.PositiveOnlyRanked | wordle_buddy/guesser.py:71-75 | filtering keeps the ranking and a positive head |
| BuddyGuesser.Chosen | wordle_buddy/guesser.py:70 | `argsort(scores)[::-1][:n]`: exactly `min(n, len(scores))` positions for n >= 0, and `len(scores) + n` (at least 0) for negative n, as a Python slice cuts |
| BuddyGuesser.ChosenIsTopK | wordle_buddy/guesser.py:55-70 | the cut holds the top scores: a position left out scores no more than any position kept |
| BuddyGuesser.RankedFront | wordle_buddy/guesser.py:70 | in a ranked sequence a position past the front scores no more than one in it |
| BuddyGuesser.PositionIn | wordle_buddy/guesser.py:70 | every position stands somewhere in a permutation of the positions |
| BuddyGuesser.ChosenRanked | wordle_buddy/guesser.py:70 | ranked by descending score, headed by a maximum, non-empty when n >= 1 |
| BuddyGuesser.DescendingRanked | wordle_buddy/guesser.py:70 | the reversed argsort is ranked by descending score |
| BuddyGuesser.InArgSort | wordle_buddy/guesser.py:70 | every position is sorted, and the last one has the top score |
| BuddyGuesser.Selection | wordle_buddy/guesser.py:68-75 | at most n distinct positions, each with a positive score |
| BuddyGuesser.SelectionIsTopK | wordle_buddy/guesser.py:53-75 | `best_guess` returns the top words: a position left out scores no more than any selected one |
| BuddyGuesser.SelectionIsPrefix | wordle_buddy/guesser.py:70-75 | the selection is the front of the cut, and every cut position after it has a score that is not positive |
| BuddyGuesser.PositiveOnlyPrefix | wordle_buddy/guesser.py:71-75 | the positive filter of a ranked sequence is a prefix of it, followed only by scores that are not positive |
| BuddyGuesser.PrefixCons | wordle_buddy/guesser.py:71-75 | a kept head in front of a kept prefix of the tail is a prefix of the whole |
| BuddyGuesser.NonPositiveHead | wordle_buddy/guesser.py:71-75 | a ranked sequence whose head is not positive keeps nothing |
| BuddyGuesser.SelectionRanked | wordle_buddy/guesser.py:70-75 | the selected positions are in descending order of score |
| BuddyGuesser.SelectionHead | wordle_buddy/guesser.py:70-80 | a non-empty selection starts with a top score; it is non-empty when n >= 1 and some score is positive |
| BuddyGuesser.PositiveOnlyHead | wordle_buddy/guesser.py:71-75 | the filter is non-empty exactly when its first candidate scores positive, and then starts with it |
| BuddyGuesser.PositionsDistinct | wordle_buddy/guesser.py:70 | the positions of a permutation are distinct |
| BuddyGuesser.RangeOnce | wordle_buddy/guesser.py:70 | each position occurs once in the range |
| BuddyGuesser.Suggestions | wordle_buddy/guesser.py:64-82 | the sentinel exactly when nothing is selected, otherwise the decoded selected words in order |
| BuddyGuesser.WordleGuesser.constructor | wordle_buddy/guesser.py:14-25 | a loaded bank with every word possible, a hardcore scorer over it, no attempts |
| BuddyGuesser.WordleGuesser.ProcessGuess | wordle_buddy/guesser.py:27-36 | culls by the encoded guess and appends the attempt |
| BuddyGuesser.WordleGuesser.ProcessGuesses | wordle_buddy/guesser.py:38-51 | ValueError with nothing changed on a length mismatch; otherwise a reset and the replay of every lower-cased guess |
| BuddyGuesser.WordleGuesser.BestGuess | wordle_buddy/guesser.py:53-82 | the sentinel on an empty bank; otherwise the suggestions from scores at attempt `len(attempts) + 1` over the working bank, which are the words of `Selection` and hence the top words by `SelectionIsTopK` |
| BuddyGuesser.WordleGuesser.WorkingDecodes | wordle_buddy/guesser.py:76 | every word of the working bank decodes |
| BuddyGuesser.WordleGuesser.ResetGame | wordle_buddy/guesser.py:84-87 | every word possible again and no attempts |
| GuessingScore.Guard | guessing.py:262-268 | 0 when the count is 0 or reaches the total; otherwise H of a probability strictly between 0 and 1 |
| GuessingScore.Positions | guessing.py:282 | `range(len(letter_frequencies))` is the five positions |
| GuessingScore.EntropyScoreCalculator.constructor | guessing.py:12-24 | only the full bank and the hyperparameters are set; the possible words, table, attempt number and size do not exist until an update |
| GuessingScore.EntropyScoreCalculator.UpdateWordBank | guessing.py:222-232 | the bank, its frequency table, the attempt number and the bank size are set together |
| GuessingScore.EntropyScoreCalculator.CountLetterFrequencies | guessing.py:234-247 | the table counts each letter at each position over the bank |
| GuessingScore.EntropyScoreCalculator.CountWord | guessing.py:244-245 | one more word counted at each of its positions |
| GuessingScore.EntropyScoreCalculator.GreenEntropy | guessing.py:249-268 | the guarded entropy of the letter's count at the position; AttributeError before any update, KeyError without possible words |
| GuessingScore.EntropyScoreCalculator.YellowEntropy | guessing.py:270-291 | the guarded entropy of the letter's count at the other positions |
| GuessingScore.EntropyScoreCalculator.WhiteEntropy | guessing.py:293-313 | the guarded entropy of the letter's count over all positions |
| GuessingScore.EntropyScoreCalculator.PositionScore | guessing.py:196-213 | one position's weighted term, the white entropy dropped and the yellow divided by the count on a repeat |
| GuessingScore.EntropyScoreCalculator.Call | guessing.py:183-220 | AttributeError before any update; otherwise the summed terms, weighted by the answer factor for a possible word |
| GuessingScore.EntropyScoreCalculator.PositionSum | guessing.py:196-213 | the loop accumulates the terms or stops at the first error |
| GuessingScore.TableCountIsColumn | guessing.py:260 | a table lookup is the letter's count in that column |
| GuessingScore.TableSumIsColumns | guessing.py:281-283 | summing the table over positions is summing the column counts |
| GuessingScore.TableSumPrefix | guessing.py:303-305 | the same over the first n positions |
| GuessingScore.ColumnStep | guessing.py:245 | counting one more word keeps the column counts right |
| GuessingScore.ScoreBelowStep | guessing.py:213 | one more term adds to the sum |
| GuessingScore.ScoreOfSum | guessing.py:215-220 | no weight for a non-answer; ZeroDivisionError when `max_guesses` is 0; otherwise the weighted sum |
| GuessingScore.ScoreBelowFailsAt | guessing.py:212 | the first failing position decides the error |
| GuessingScore.ScoreBelowStaysErr | guessing.py:196-213 | an earlier error is the error of the whole sum |
| GuessingScore.TableColumnSum | guessing.py:243-247 | each position of the table counts every word once |
| GuessingScore.LetterSumIsColumnSum | guessing.py:243-247 | a table column summed over letters is the column count summed |
| GuessingScore.WhiteAndYellowCounts | guessing.py:281-305 | the white count is the letter's copies; yellow plus green is the same |
| GuessingScore.AllColumnsAreOccurrences | guessing.py:303-305 | all columns together give every copy |
| GuessingScore.NoColumns | guessing.py:303-305 | no columns give no copies |
| GuessingScore.ColumnsOfLastWord | guessing.py:243-245 | a word adds its own copies |
| GuessingScore.SkipOneColumn | guessing.py:281-283 | leaving out one column takes that column's count away |
| GuessingScore.ScoreBelowOutcome | guessing.py:212 | the sum fails exactly when a position has no weight, with IndexError |
| GuessingScore.ScoreOutcome | guessing.py:183-220 | KeyError without possible words, IndexError without weights, ZeroDivisionError for an answer when `max_guesses` is 0, a score otherwise |
| GuessingScore.DefaultScoreIsOk | hyperparameters.py:11-16 | with the default weights every word of a non-empty bank has a score |
| Guessing.CheckCull | guessing.py:138-144 | the three ValueErrors in order: not in the word bank, invalid characters, wrong length |
| Guessing.GuessCullResult | guessing.py:146-178 | the words passing every position's filter, an order-preserving subsequence |
| Guessing.Push | guessing.py:107-117 | the best heap takes one `heappush`/`heappushpop` step with `(score, word)` and the worst heap one `heappush`/`heapreplace` step with `(-score, word)`; fails exactly when that `heapreplace` raises IndexError |
| Guessing.Swapped | guessing.py:120 | `(word, score)` for each `(score, word)` |
| Guessing.Negated | guessing.py:121 | `(word, -score)` for each `(score, word)` |
| Guessing.Entries | guessing.py:104-109 | one `(score, word)` per word scored |
| Guessing.NegatedEntries | guessing.py:113-117 | one `(-score, word)` per word scored |
| Guessing.ScanIsFolds | guessing.py:104-117 | with every word scored, the loop is the two independent heap folds |
| Guessing.BestGuesses | guessing.py:107-120 | the best list holds `min(num_best, n)` scored words, sorted in reverse, none left out scoring higher than one kept |
| Guessing.WorstGuesses | guessing.py:113-121 | with `num_worst >= 1` it holds `min(num_worst, n)` words, the last scored among them, sorted; otherwise IndexError |
| Guessing.EmptyPossibleBank | guessing.py:102-105 | outside hardcore mode an empty possible bank fails with KeyError |
| Guessing.ScanFirstError | guessing.py:104-105 | the first word's error is the scan's error |
| Guessing.GuessCullRules | guessing.py:154-178 | a surviving word is pinned by greens, has yellows elsewhere, lacks an uncredited white letter, and has at most the credited copies of a credited one; and conversely |
| Guessing.GuessCullKeepsSecret | guessing.py:125-178 | feedback from the game's two-pass rule never culls the secret |
| Guessing.GuessHelper.constructor | guessing.py:60-79 | every word possible and a fresh calculator over the full bank, not yet updated |
| Guessing.GuessHelper.FindOptimalGuesses | guessing.py:81-123 | the calculator is updated with the possible words and the attempt; the result is `OptimalGuesses` |
| Guessing.GuessHelper.ScanHeaps | guessing.py:104-117 | the loop computes the scan |
| Guessing.GuessHelper.PushScore | guessing.py:107-117 | one iteration is `Push` |
| Guessing.GuessHelper.CullPossibleWordBank | guessing.py:125-178 | the validation result; nothing changes on an error, otherwise the bank becomes `GuessCullResult` |
| Guessing.GuessHelper.CountMarks | guessing.py:146-151 | `letter_counts` maps each letter to its green and yellow marks |
| Guessing.GuessHelper.FilterPosition | guessing.py:154-178 | one position's filter |
| Guessing.ScanStaysErr | guessing.py:104-105 | once a prefix fails, the scan fails with the same error |
| HeapSelection.MinOf | guessing.py:111 | `heap[0]` is a least entry |
| HeapSelection.Remove | guessing.py:111 | one copy taken out |
| HeapSelection.PushPop | guessing.py:111 | the newcomer replaces the minimum exactly when it is greater |
| HeapSelection.Replace | guessing.py:117 | IndexError on an empty heap; otherwise the minimum out and the newcomer in, whatever its value |
| HeapSelection.BestStep | guessing.py:108-111 | push while short, push-pop after |
| HeapSelection.WorstStep | guessing.py:114-117 | push while short, `heapreplace` after; fails only on an empty full heap; the new entry is always kept |
| HeapSelection.BestFoldShort | guessing.py:108-109 | while short, the heap holds every entry |
| HeapSelection.BestFoldSize | guessing.py:107-111 | the best heap holds `min(max(k, 0), n)` entries |
| HeapSelection.BestFoldIsTopK | guessing.py:107-111 | no entry left out is greater than an entry kept |
| HeapSelection.BestStepKeepsLargest | guessing.py:111 | a push-pop on a full heap keeps the largest |
| HeapSelection.EvictMinKeepsLargest | guessing.py:111 | the minimum gives way to a greater newcomer |
| HeapSelection.RejectKeepsLargest | guessing.py:111 | a newcomer no greater than the minimum is turned away |
| HeapSelection.WorstFoldShape | guessing.py:113-117 | with k >= 1 there is no failure, `min(k, n)` entries, the last one always kept |
| HeapSelection.WorstFoldShort | guessing.py:113-115 | while at most k words have been scored, the worst heap holds them all |
| HeapSelection.WorstFoldKeepsLastAndLargest | guessing.py:113-117 | with k >= 1 the worst heap holds the last entry and, beside it, the largest of the earlier entries: over `(-score, word)`, the last word plus the lowest scores before it |
| HeapSelection.WorstFoldFails | guessing.py:114-117 | with k <= 0 the first entry raises IndexError |
| HeapSelection.WorstHeapIsNotBottomK | guessing.py:113-117 | the worst heap is not the k lowest scores: scores 1.0 then 2.0 in one slot keep 2.0 |
| HeapSelection.IntendedWorstFold | guessing.py:82-87 | the worst heap as the docstring intends it: `min(k, n)` entries and no word left out scores lower than a word kept (the largest negated entries), with no failure |
| Ordering.StrLtIrreflexive | guessing.py:109 | no string is less than itself |
| Ordering.StrLtTransitive | guessing.py:109 | string order is transitive |
| Ordering.StrLtTotal | guessing.py:109 | distinct strings are ordered |
| Ordering.EntryLeTotal | guessing.py:109 | `(score, word)` tuples are totally ordered |
| Ordering.EntryLeTransitive | guessing.py:109 | and transitively |
| Ordering.PairLeTotal | guessing.py:120-121 | `(word, score)` pairs are totally ordered |
| Ordering.PairLeTransitive | guessing.py:120-121 | and transitively |
| Ordering.Insert | guessing.py:121 | inserting into a sorted list keeps it sorted and adds one element |
| Ordering.SortAsc | guessing.py:121 | `sorted`: ascending, a permutation |
| Ordering.SortDesc | guessing.py:120 | `sorted(reverse=True)`: descending, a permutation |
| Seqs.Filter | wordle_buddy/utils/word_bank_manager.py:54-55 | boolean-mask indexing keeps exactly the elements passing, no more than before |
| Seqs.FilterIsSubsequence | guessing.py:156-159 | a filter keeps order |
| Seqs.FilterFilter | wordle_buddy/utils/word_bank_manager.py:119-124 | two filters in a row are one filter by the conjunction |
| Seqs.FilterExt | guessing.py:154-178 | equivalent predicates filter alike |
| Seqs.SliceTo | wordle_buddy/guesser.py:70 | Python's `[:n]`, a negative bound counting from the end |
| Seqs.Reverse | wordle_buddy/guesser.py:70 | `[::-1]` |
| Seqs.Indices | wordle_buddy/utils/word_bank_manager.py:98 | exactly the positions holding the letter, as many as its count |
| Seqs.Pick | wordle_buddy/utils/word_bank_manager.py:102 | the feedback at those positions |
| Seqs.PickCount | wordle_buddy/utils/word_bank_manager.py:112-113 | `feedback.count(color)` is the letter's marks of that colour |
| Gui.ComputeFeedback | gui.py:76-105 | the two-pass loops over the letter pool compute exactly `Oracle(secret, guess)` |
| Gui.CountLetters | gui.py:80-82 | the pool holds every letter of the secret with its number of copies |
| Gui.MarkGreens | gui.py:84-89 | exact matches are green and the pool keeps the unmatched copies |
| Gui.MarkYellows | gui.py:91-100 | the rest become yellow while the pool has the letter, white otherwise |
| Gui.MarksAreOracle | gui.py:100-105 | five marks that follow the rule are the feedback string |
| Gui.TakeCopy | gui.py:94-97 | a miss the pool can serve is yellow and takes a copy |
| Gui.KeepPool | gui.py:92-100 | a green or a white leaves the pool alone |
| Gui.ShowGuessesAsWritten | gui.py:117-121 | as written, displaying fails unless both lists are empty |
| Gui.ShowingAGuessFailsAsWritten | gui.py:120-121 | as written, any pair to display makes the display raise ValueError |
| Gui.FeedbackPassesCheck | gui.py:107 | the GUI's feedback always passes the helper's character and length checks; only a guess outside the bank is refused |
| Gui.GuiApp.constructor | gui.py:5-11 | no attempt, no row, no secret |
| Gui.GuiApp.SetWord | gui.py:57-68 | a word of another length is refused with nothing changed; otherwise it becomes the secret and every suggested pair for the current attempt is shown, as `update_guess_info` intends |
| Gui.GuiApp.SubmitGuess | gui.py:70-115 | another length: refused, no change and no cull; a full grid: nothing culled; no secret: AttributeError, no change; otherwise the row advances and the rule's feedback is computed; a cull error is returned with the bank, `attempt_num` and the shown guesses unchanged; after a cull the bank is the culled bank, a `find_optimal_guesses` error is returned with `attempt_num` and the shown guesses unchanged, and a success gives Accepted with that feedback, `attempt_num + 1` and exactly the suggested pairs for the attempt number before the increment shown; a secret in the bank survives |

## Left out

- The binary entropy and `log2` are an uninterpreted `H: real -> real`, and
  floats are reals. No numeric property of the entropies is claimed.
- Rounding is not modelled. `int32` codes and float rounding are unbounded
  integers and exact reals.
- File loading is not modelled: `np.load`, `importlib.resources`, JSON/CSV in
  `archive/utils.py`, and `input()` prompts. A bank is a parameter: a list of
  five-letter words.
- The Tk widgets are not modelled: construction, labels, colours, message
  boxes, clearing the entry, and disabling the word entry after `set_word`.
  The labels' content is kept as `GuiApp.shown`.
- Console output is not modelled: `print`, `display_word_counts`,
  `show_attempts`, `main.py`, `terminal_version.py`'s prompt loop and timing,
  and the `config.py` files.
- `_apply_hparams_old` and the `char_map` of the `wordle_buddy` scorer are
  dead code. `HardCodedCalculator` and the `ScoreCalculatorBase`
  `NotImplementedError` stubs are not implemented, and the `score_calculator
  is None` check can never fire.
- The `wordle_buddy` docstring of `toggle_mode` has the polarity inverted. The
  model follows the code: hardcore scores the possible words.
- Feedback given to the NumPy managers is a `Color`. A string other than
  'green', 'yellow' or 'gray' matches no branch of `_regular_removal`, but
  this is not representable.
- BuddyScorer.Scores requires a non-empty possible bank. With none, NumPy
  divides by zero and yields `nan`, and `best_guess` never gets there.
- SolverScorer.WordScorerEntropy.ScoreWordBank requires a non-empty fixed
  bank for the same reason.
- Words.LowerChar: lowers only the ASCII letters 'A'–'Z'. Python's
  `str.lower` also lowers every other cased letter, such as the 'Ä' and 'Ñ'
  of the German, Austrian and Spanish banks. It also turns some characters
  into two ('İ'), and then `ord` raises TypeError. Neither is modelled,
  because Unicode case mapping is out of scope.
- Words.Lower inherits the ASCII-only lowering: an upper-case non-ASCII
  letter is left as it is.
- Words.Encode: the same gap, since it lowers with Words.Lower. An
  upper-case non-ASCII letter in a guess is encoded as it is, where the
  source encodes its lower-case form.
- Guessing.GuessHelper.constructor takes the scoring weights as a required
  argument. The source's default `hyperparameters=None` (guessing.py:64) is
  not modelled. With it, every score that gets past the green entropy raises
  AttributeError when it reads the position weights (guessing.py:212). The
  GUI's entry point (main.py:24-26) passes a `Hyperparameters`, but it
  passes the calculator as `ScoreCalculator=`, which matches no parameter
  (the source names it `score_calculator_class`, guessing.py:63), so that
  call raises TypeError before any helper exists. The model starts from a
  constructed helper.
- Guessing.GuessHelper.FindOptimalGuesses keeps the worst heap as written
  (`heapreplace`, HeapSelection.WorstFold); the intended bottom-k heap is
  HeapSelection.IntendedWorstFold, which only the finding below uses.
- BuddyGuesser.ArgSort is stable: equal scores stay in position order.
  NumPy's default quicksort makes no such promise, so the model fixes one
  tie order.
- SolverScorer.Scores reads `answer_weight_base` as an `Option`. The
  `wordle_solver` `Hyperparameters` record has no such field, so with it the
  source raises AttributeError (the `None` case).
- The `isin` on void views in the `wordle_buddy` scorer is modelled as
  membership of the whole word. The element-wise `isin` in the
  `wordle_solver` scorer is always true and is modelled as the constant
  factor.

## Findings

| source | as written | input that shows it | evidently intended | confidence | as-written member | corrected member |
|---|---|---|---|---|---|---|
| gui.py:117-121 | `update_guess_info` unpacks each `(word, score)` pair from `find_optimal_guesses` as `score, word`, so it formats the word string with `.3f` (and the worst list's spec `.3f\n` is no float spec either). Python raises ValueError, `submit_guess` stops before `attempt_num += 1`, and `set_word` fails the same way | any non-empty best list, such as `[("crane", 4.2)]` | show each word with its score, so that an accepted guess always advances `attempt_num` | not executed | Gui.ShowGuessesAsWritten, Gui.ShowingAGuessFailsAsWritten | Gui.GuiApp.SetWord, Gui.GuiApp.SubmitGuess |
| guessing.py:113-117 | once the worst heap is full, `heapreplace` pops the smallest negated entry and then pushes the new one unconditionally, so every later word enters the heap whatever its score, and the heap ends up holding the last word seen plus the `num_worst - 1` lowest scores among the earlier words, rather than the `num_worst` lowest scores that the docstring (guessing.py:82, 87) promises | scores 1.0 then 2.0 with `num_worst = 1` keep 2.0 | `heappushpop`, which lets a newcomer in only when its negated score beats the smallest one kept, so that the heap keeps the bottom `num_worst` scores | not executed | HeapSelection.WorstFold, HeapSelection.WorstFoldKeepsLastAndLargest, HeapSelection.WorstHeapIsNotBottomK | HeapSelection.IntendedWorstFold |
