# Wordle solving engine in Dafny

This project models the core of a Wordle solver. The core has two classes.

`WordleHelper` keeps two lists:
- the universe of words, which is the five-letter words of the input, upper-cased, in input order;
- the candidates still consistent with the feedback received so far.

A guess's feedback is a list of `(letter, color)` pairs. `WordleHelper` turns it into three groups of constraints:
- green: a position mapped to its letter;
- yellow: letters that must occur, each with positions it may not take;
- gray: letters that may not occur.

It then filters the candidates stably. The helper also scores a word by letter presence: the sum, over the word's distinct letters, of the number of basis words containing that letter. It ranks words with a stable descending sort to produce a best guess and a list of recommended starting words.

`WordleAI` holds a strategy name, the helper and the histories of one game. It picks the next guess with one of four strategies, `random`, `frequency`, `elimination` and `adaptive`, from the attempt number and the number of candidates left.

Modules, in dependency order:

- `Words`: words and upper-casing, the word-list loader, `Option` and `Result`, and the subsequence relation used for order preservation.
- `Feedback`: feedback colours and marks, the constraint groups, and constraint extraction. There is a fold `Extract` and the loop `ExtractConstraints` proved equal to it. Lemmas characterise each group exactly.
- `Filter`: the per-word survival test. This is a predicate `Satisfies` and the loop `Matches` proved equal to it. It also holds the stable filter `Surviving`, its membership and idempotence lemmas, and the correspondence between the extracted constraints and a direct reading of the feedback (`ConsistentWith`).
- `Scoring`: letter presence counts (`Frequencies` and the loop `LetterFrequencies`), per-position counts (`PositionCounts` and the nested loop `PositionFrequencies`), and the word score with its set-sum characterisation.
- `Ranking`: the stable descending sort, proved a permutation that is sorted and keeps ties in order. `FirstMax` is the reference "earliest maximum". Also here: `get_best_guess`, `get_recommended_starters` and `suggest_next_move` as functions, with lemmas.
- `Helper`: class `WordleHelper`. `allWords` is a `const` and `possibleWords` a field. `FilterWords` updates the field in place and keeps `Valid()`: the candidates are a subsequence of the universe.
- `Agent`: the strategy decision table (`Decide`), its lemmas, and class `WordleAI` with its history fields.

Random choices are modelled as nondeterminism. A strategy returns `Move.RandomFrom(pool)` with a non-empty pool, and `WordleAI.MakeGuess` resolves it to some element of the pool with `:|`.

Errors: an unknown strategy name and indexing an empty list both become `Err` values. The unknown name is `GuessError.UnknownStrategy`. The empty list is `GuessError.EmptySequence`, covering `best_starters[0]` with no starters and `random.choice([])`. The unknown name is reported from `MakeGuess`, not from the constructor, as in the source.

Two behaviours of the code are modelled exactly as written:
- The random strategy never uses a starting word, even on attempt 1; only the frequency, elimination and adaptive strategies open with the top starter.
- A gray mark is suppressed only by a green or yellow mark for the same letter at an EARLIER position. A gray mark that comes before a later green or yellow mark for that letter still forbids the letter, so then no word survives (`Filter.GrayBeforeConfirmEliminatesAll`). For example, under standard Wordle marking, guess GEESE against secret PROSE gives gray E, gray E, then green E. The secret itself is filtered out (`Filter.GeeseAgainstProse`). This is the behaviour as written and is modelled as such.

## Model

| member | source | states |
|---|---|---|
| Words.UpperChar | WordleHelper.py:13 | ASCII `upper()`: a lower-case letter moves to the matching capital, every other character is unchanged |
| Words.Upper | WordleHelper.py:13 | upper-casing keeps length and maps each character by `UpperChar` |
| Words.UpperIsUpper | WordleHelper.py:13 | an upper-cased word has no lower-case letters, and upper-casing is idempotent |
| Words.LoadWords | WordleHelper.py:13 | the loaded list is no longer than the input, and every loaded word has five letters and no lower-case letter |
| Words.LoadWordsAppend | WordleHelper.py:13 | loading keeps input order: loading a concatenation is the concatenation of the loads |
| Words.LoadWordsMembers | WordleHelper.py:13 | a word is loaded iff some input word of length 5 upper-cases to it |
| Words.SubsequenceProperties | WordleHelper.py:54-90 | a subsequence is no longer than the list it comes from and holds only its elements |
| Words.SubsequenceTransitive | WordleHelper.py:54-90 | a subsequence of a subsequence is a subsequence, so repeated filtering keeps universe order |
| Feedback.Record | WordleHelper.py:41-51 | one entry's effect on the constraints; characterised through `Extract` by `ExtractGreen`, `ExtractYellow` and `ExtractGray` |
| Feedback.Extract | WordleHelper.py:35-51 | the constraints of a whole feedback list, left to right; characterised group by group by `ExtractGreen`, `ExtractYellow` and `ExtractGray`, and by `Filter.SatisfiesExtract` |
| Feedback.ExtractConstraints | WordleHelper.py:35-51 | the feedback loop builds exactly the constraints of the left-to-right fold `Extract` |
| Feedback.ExtractGreen | WordleHelper.py:41-42 | position k is green-constrained iff entry k is green, and then it is constrained to entry k's letter |
| Feedback.ExtractYellow | WordleHelper.py:43-47 | a letter is required iff some entry marks it yellow; its forbidden positions are exactly all positions where it is marked yellow (they accumulate) |
| Feedback.ExtractYellowLetters | WordleHelper.py:43-44 | a letter is required iff some entry marks it yellow |
| Feedback.ExtractNotAtKeys | WordleHelper.py:43-47 | the letters with forbidden positions are exactly the required yellow letters |
| Feedback.ExtractNotAtPositions | WordleHelper.py:45-47 | a yellow letter's forbidden positions are all the positions where it is marked yellow, accumulated over repeats |
| Feedback.ConfirmedByRecorded | WordleHelper.py:50 | a letter is already yellow or a green value exactly when an earlier entry marked it green or yellow |
| Feedback.ExtractGray | WordleHelper.py:48-51 | a letter is forbidden iff some entry marks it gray and no EARLIER entry marks it green or yellow |
| Feedback.ExtractWellFormed | WordleHelper.py:40-47 | feedback of at most five entries records only positions 0 to 4 |
| Filter.Satisfies | WordleHelper.py:57-85 | the survival test; `Filter.Matches` proves the source's loops decide it, and `Filter.SatisfiesExtract` proves it accepts exactly the words consistent with the feedback |
| Filter.Matches | WordleHelper.py:55-85 | the three check loops (green, yellow with its inner break, gray) accept a word iff it satisfies all three constraint groups |
| Filter.Surviving | WordleHelper.py:53-91 | the filtered list is no longer than the candidates, and holds only candidates that satisfy the constraints |
| Filter.SurvivingIsSubsequence | WordleHelper.py:54-88 | the filter keeps the candidates it keeps in their original order |
| Filter.SurvivingMembers | WordleHelper.py:57-88 | a word survives iff it was a candidate and satisfies every green, yellow and gray constraint |
| Filter.SurvivingFixpoint | WordleHelper.py:53-91 | a list whose every word satisfies the constraints passes through unchanged |
| Filter.SurvivingIdempotent | WordleHelper.py:53-91 | filtering a second time with the same feedback changes nothing |
| Filter.SurvivingAppend | WordleHelper.py:54-88 | each candidate is tested on its own: filtering a concatenation is filtering each part, so every satisfying copy of a repeated word is kept, in order |
| Filter.SatisfiesExtractSound | WordleHelper.py:40-85 | a word passing the extracted constraints agrees with every green, yellow and unsuppressed gray entry of the feedback |
| Filter.SatisfiesExtractComplete | WordleHelper.py:40-85 | a word agreeing with every green, yellow and unsuppressed gray entry passes the extracted constraints |
| Filter.SatisfiesExtract | WordleHelper.py:40-85 | both directions: the extracted constraints accept exactly the words consistent with the feedback |
| Filter.GrayBeforeConfirmEliminatesAll | WordleHelper.py:48-51 | a gray entry before a green or yellow entry of the same letter leaves no candidate at all |
| Filter.GeeseAgainstProse | WordleHelper.py:48-51 | the GEESE/PROSE feedback forbids E and filters out PROSE itself |
| Helper.WordleHelper.constructor | WordleHelper.py:11-14 | the universe is the loaded input and the candidates equal the universe |
| Helper.WordleHelper.Reset | WordleHelper.py:16-18 | the candidates equal the universe again and the universe is unchanged |
| Helper.WordleHelper.FilterWords | WordleHelper.py:20-91 | the new candidates are the old ones filtered by the extracted constraints, still a subsequence of the universe, and the returned list is the new candidate list |
| Scoring.PresenceCount | WordleHelper.py:106-109 | the number of words containing a letter is at most the number of words, and positive iff some word contains it |
| Scoring.Frequencies | WordleHelper.py:106-111 | the letters counted are exactly those occurring in some word, each counted once per word containing it, so between 1 and the basis size |
| Scoring.FrequencyIsPresenceCount | WordleHelper.py:106-111 | a frequency read with default 0 is the letter's presence count |
| Scoring.LetterFrequencies | WordleHelper.py:93-111 | the counting loop builds the `Frequencies` map, each count between 1 and the number of words |
| Scoring.CountAt | WordleHelper.py:126-129 | the count of a letter at a position is at most the number of words, and positive iff some word holds it there |
| Scoring.PositionCountsMeaning | WordleHelper.py:126-131 | a position's counter holds exactly the letters seen there, each with the number of words holding it there |
| Scoring.PositionFrequencies | WordleHelper.py:113-131 | the nested loops give five counters, the i-th being the counts at position i |
| Scoring.PositionCountsSum | WordleHelper.py:126-131 | when every word has five letters, each position's counts sum to the number of words |
| Scoring.SumUniqueIsSetSum | WordleHelper.py:152 | summing over the letters of a word while skipping repeats is the sum over its letter set |
| Scoring.ScoreWord | WordleHelper.py:133-154 | `score_word`; characterised by `ScoreIsPresenceSum`, `ScoreDependsOnLettersOnly` and `ScoreBound` |
| Scoring.ScoreIsPresenceSum | WordleHelper.py:148-154 | the score is the sum, over the distinct letters of the upper-cased word, of their presence counts |
| Scoring.ScoreDependsOnLettersOnly | WordleHelper.py:148-154 | two words with the same letter set score the same, whatever order or repetition |
| Scoring.ScoreBound | WordleHelper.py:148-154 | a score is at most the number of distinct letters times the basis size |
| Ranking.SortByScore | WordleHelper.py:185 | the stable descending sort; characterised by `SortFacts`, `SortMembers` and `SortHead` |
| Ranking.InsertPerm | WordleHelper.py:185 | inserting adds exactly the one entry |
| Ranking.InsertSorted | WordleHelper.py:185 | inserting into a descending list keeps it descending |
| Ranking.InsertStable | WordleHelper.py:185 | an inserted entry comes after every earlier entry of equal score |
| Ranking.SortPerm | WordleHelper.py:185 | the sort is a permutation of its input |
| Ranking.SortSorted | WordleHelper.py:185 | the sorted list is in non-increasing score order |
| Ranking.SortStable | WordleHelper.py:185 | the entries of any one score appear in the sorted list in their input order |
| Ranking.SortFacts | WordleHelper.py:185 | the descending sort is a permutation, non-increasing, and keeps equal-score entries in their original order |
| Ranking.SortMembers | WordleHelper.py:185 | the sorted list has exactly the entries of the input |
| Ranking.SortWordsPerm | WordleHelper.py:185 | sorting permutes the words, with their repetitions, as well as the entries |
| Ranking.InsertWordsPerm | WordleHelper.py:185 | inserting an entry adds exactly its word to the multiset of words |
| Ranking.TopComplement | WordleHelper.py:185-203 | the first n entries of the ranking are a sub-multiset of the input, and every input entry left out, counted with repetitions, scores at most each kept one |
| Ranking.TailWordsBelowHead | WordleHelper.py:185-203 | in a ranking whose entries carry their own scores, no word after position n scores above one before it |
| Ranking.FirstMax | WordleHelper.py:185-187 | the reference argmax: an index of highest score with every earlier entry strictly lower |
| Ranking.SortHead | WordleHelper.py:185-187 | the head of the sorted list is the earliest highest-scoring entry |
| Ranking.TopOfScoreAll | WordleHelper.py:182-187 | the head of a scored and sorted pool is the pool's earliest best word |
| Ranking.BestGuess | WordleHelper.py:156-187 | `get_best_guess`; characterised by `BestGuessSpec` |
| Ranking.BestGuessSpec | WordleHelper.py:167-187 | no candidates gives None; one gives that candidate; otherwise the earliest best word of the pool (the candidates if at most two or remaining-only, else the universe) scored against the candidates |
| Ranking.PyTake | WordleHelper.py:203 | `s[:n]` is a prefix of length min(n, len), a negative n counting from the end |
| Ranking.RecommendedStarters | WordleHelper.py:189-203 | `get_recommended_starters`; by `StartersSpec` and `StartersComplete`, exactly the first min(n, number of words) entries of the stable descending ranking of the universe: universe words with their own scores, taken with their repetitions, none left out scoring above one kept, ties in universe order |
| Ranking.StartersTop | WordleHelper.py:199-203 | exactly min(n, number of words) entries for n at least 0, and no entry at a later position of the ranking scores above one kept |
| Ranking.StartersComplete | WordleHelper.py:199-203 | the starters are the ranking's prefix of their length: a sub-multiset of the scored universe, and every scored universe entry not among them, counted with repetitions, scores at most each starter |
| Ranking.StartersEntries | WordleHelper.py:199-203 | each starter is a universe word with its score against the universe, in non-increasing score order |
| Ranking.StartersHead | WordleHelper.py:199-203 | the first starter scores at least as much as every universe word |
| Ranking.StartersTies | WordleHelper.py:199-203 | starters of equal score appear in universe order |
| Ranking.StartersSpec | WordleHelper.py:199-203 | the first min(n, number of words) pairs of the ranking, each a universe word with its score against the universe, non-increasing, the ranking's own prefix, a sub-multiset of the scored universe with no entry left out (counted with repetitions) scoring above one kept, the first the best of all, ties in universe order |
| Ranking.RankedEntries | WordleHelper.py:182-185 | every entry of a ranked pool is a pool word carrying its own score |
| Ranking.AlternativesRanked | WordleAI.py:154 | `scored[1:6]` has at most five words from the pool, none above the best, in non-increasing score order |
| Ranking.Suggest | WordleAI.py:138-156 | `suggest_next_move` on the candidate list; by `SuggestSpec`, the best and alternatives scored again are exactly the first min(6, n) entries of the ranking of the first 100 candidates |
| Ranking.ShownIsPrefix | WordleAI.py:153-154 | the best and the alternatives, scored again, are the first min(6, n) entries of the ranking |
| Ranking.SuggestNext | WordleAI.py:149-154 | no entry ranked after the alternatives scores above any of them, and the shown words of equal score appear in candidate order |
| Ranking.SuggestComplete | WordleAI.py:149-154 | the shown words scored again are the first min(6, n) entries of the ranking, a sub-multiset of the scored first 100 candidates, and no scored candidate left out, counted with repetitions, scores above a shown word |
| Ranking.SuggestSpec | WordleAI.py:145-156 | no candidates gives `(None, [])`; otherwise the best is the earliest best of the first 100 candidates, followed by the next at most five entries of the ranking: from those 100, no better than the best, non-increasing, none ranked later scoring above them, ties in candidate order; the shown words scored again are exactly the first min(6, n) ranked entries, and no scored candidate left out, counted with repetitions, scores above a shown word |
| Agent.RandomStrategy | WordleAI.py:66-70 | `_random_strategy`; characterised by `RandomPool` |
| Agent.FrequencyStrategy | WordleAI.py:72-84 | `_frequency_strategy`; characterised by `FirstAttempt` and `LaterAttempts` |
| Agent.EliminationStrategy | WordleAI.py:86-96 | `_elimination_strategy`; characterised by `FirstAttempt` and `LaterAttempts` |
| Agent.AdaptiveStrategy | WordleAI.py:98-122 | `_adaptive_strategy`; characterised by `FirstAttempt` and `AdaptiveTable` |
| Agent.Decide | WordleAI.py:33-52 | a random pick is always from a non-empty list that is the candidates or the universe, and only the random and adaptive strategies pick at random |
| Agent.DecideFailures | WordleAI.py:43-52 | an unknown strategy name is an error; a known strategy fails only when it must take a starter or random word from an empty list |
| Agent.FirstAttempt | WordleAI.py:79-110 | on attempt 1 frequency, elimination and adaptive return the first starter; random ignores the attempt and the starters |
| Agent.RandomPool | WordleAI.py:66-70 | the random strategy draws from the candidates, or from the universe when none remain, and fails only when both are empty |
| Agent.AdaptiveTable | WordleAI.py:106-122 | after attempt 1: over 100 candidates, the earliest best universe word; 11 to 100, the earliest best candidate; 1 to 10, the first candidate; none, a random universe word |
| Agent.LaterAttempts | WordleAI.py:83-96 | after attempt 1, frequency gives the earliest best candidate and elimination the earliest best word of the universe (the candidates when at most two), the sole candidate when one remains, and None when none remain |
| Agent.StarterWords | WordleAI.py:25 | `best_starters`; by `StarterWordsSpec`, the words of `RecommendedStarters(20)`: at most 20 universe words taken with their repetitions, non-increasing in score, none left out scoring above one kept, the first the earliest best word |
| Agent.RankedWords | WordleAI.py:25 | the words of a ranking are pool words in non-increasing score order |
| Agent.StarterWordsSplit | WordleAI.py:25 | the starter words are a sub-multiset of the universe, and what is left is the words of the rest of the ranking |
| Agent.StarterWordsRescored | WordleAI.py:25 | the starter words scored again are exactly `RecommendedStarters(20)` |
| Agent.StarterWordsComplete | WordleAI.py:25 | the starter words are a sub-multiset of the universe, and no universe word left out, counted with repetitions, scores above a starter |
| Agent.StarterWordsSpec | WordleAI.py:25 | exactly min(20, number of words) starters, universe words in non-increasing score, the first being the earliest best word of the universe, a sub-multiset of the universe with no word left out scoring above a kept one, and scored again they are `RecommendedStarters(20)` |
| Agent.BestGuessIsWord | WordleHelper.py:167-187 | a best guess, when there is one, is a universe word |
| Agent.DecidedWordsAreWords | WordleAI.py:43-122 | every word any strategy settles on, and every word of a random pool, is a universe word |
| Agent.Choice | WordleAI.py:69-70 | `random.choice` returns some element of its non-empty list |
| Agent.WordleAI.constructor | WordleAI.py:11-25 | a fresh helper over the loaded universe with all words as candidates, the given strategy accepted as is, empty histories, starters from the universe |
| Agent.WordleAI.Reset | WordleAI.py:27-31 | both histories empty and the candidates restored to the universe |
| Agent.WordleAI.MakeGuess | WordleAI.py:33-52 | the result is the strategy's decision, a random pick being some member of its pool, and every word guessed is a universe word |
| Agent.WordleAI.ProcessFeedback | WordleAI.py:54-64 | exactly one entry appended to each history, and the candidates filtered by the feedback |
| Agent.WordleAI.GetStatistics | WordleAI.py:124-136 | attempts made equals the number of guesses recorded, remaining words is the candidate count and at most the universe size, strategy as given |
| Agent.WordleAI.SuggestNextMove | WordleAI.py:138-156 | read-only; a best word exactly when candidates remain, and the best and alternatives are candidates |

## Left out

- `WordleTrainer` and the command-line driver with its terminal rendering, menu and progress display are not part of this model. They are I/O glue and depend on a game class that is not part of this model.
- Real randomness: `random.choice` is a nondeterministic pick of some element; which element is not modelled.
- Upper-casing covers ASCII letters only. Python's `str.upper` also maps non-ASCII letters, and can change a string's length.
- `filter_words` upper-cases the guess and never uses it. The model takes the guess and ignores it.
- Feedback letters are compared with the upper-case words exactly as given. A lower-case feedback letter is not upper-cased in the source either.
- Helper.WordleHelper.FilterWords: the model requires one feedback entry per letter, so at most five. The source accepts longer feedback. It raises `IndexError` only when a candidate reaches a green or yellow position beyond 4: a green position checked before the first green mismatch, or a yellow letter's position when that letter occurs in the word. Gray and unrecognised entries past position 4 are never used as indices. Agent.WordleAI.ProcessFeedback inherits the same precondition.
- Scoring.PositionFrequencies: requires words of at most five letters. The source raises `IndexError` on longer words, which never occur in the universe.
- Default arguments are not modelled; every parameter is passed explicitly. The `words` default of the read-only helper methods is the current candidate list, which the model passes wherever the source relies on it (`get_best_guess`, `suggest_next_move`). The other defaults are `strategy="frequency"` of the agent's constructor, `attempt_number=1` of `make_guess`, `use_remaining_only=True` of `get_best_guess` and `top_n=10` of `get_recommended_starters`. Every call site in the source passes these four explicitly.
- `score_word`, `get_letter_frequencies`, `get_best_guess` and `get_recommended_starters` change nothing. They are module functions over the universe and candidate lists, not methods of the classes.
- The lists that `filter_words` and `get_statistics` return are values here. Python returns the live list objects, so later aliasing of them is not modelled.
- Scores are unbounded naturals; Python's `int` is unbounded too. The `float` return annotation of `score_word` does not affect the values.
