/** The playing agent: a strategy named at construction, the per-game guess and feedback
    histories, and the decision table that turns (strategy, attempt number, candidates)
    into the next guess. */
module Agent {
  import opened Words
  import opened Feedback
  import opened Filter
  import opened Scoring
  import opened Ranking
  import opened Helper

  /** `ValueError` for an unknown strategy name; `IndexError` for indexing or choosing
      from an empty list. */
  datatype GuessError = UnknownStrategy(name: string) | EmptySequence

  /** What a strategy decides: a fixed answer (which may be `None`), a random pick from a
      non-empty pool, or an error. */
  datatype Move = Fixed(guess: Option<Word>) | RandomFrom(pool: seq<Word>) | Failed(error: GuessError)

  const TopStarters: int := 20

  /** `[word for word, _ in helper.get_recommended_starters(20)]` */
  function StarterWords(all: seq<Word>): seq<Word>
  {
    WordsOf(RecommendedStarters(all, TopStarters))
  }

  /** `best_starters[0]` */
  function Starter(starters: seq<Word>): Move
  {
    if |starters| == 0 then Failed(EmptySequence) else Fixed(Some(starters[0]))
  }

  /** `random.choice(pool)` */
  function PickFrom(pool: seq<Word>): Move
  {
    if |pool| == 0 then Failed(EmptySequence) else RandomFrom(pool)
  }

  /** `_random_strategy()`: the attempt number plays no part. */
  function RandomStrategy(possible: seq<Word>, all: seq<Word>): Move
  {
    if |possible| == 0 then PickFrom(all) else PickFrom(possible)
  }

  /** `_frequency_strategy(attempt_number)` */
  function FrequencyStrategy(attempt: int, possible: seq<Word>, all: seq<Word>, starters: seq<Word>): Move
    requires forall w :: w in possible ==> w in all
  {
    if attempt == 1 then Starter(starters) else Fixed(BestGuess(possible, all, true))
  }

  /** `_elimination_strategy(attempt_number)` */
  function EliminationStrategy(attempt: int, possible: seq<Word>, all: seq<Word>, starters: seq<Word>): Move
    requires forall w :: w in possible ==> w in all
  {
    if attempt == 1 then Starter(starters) else Fixed(BestGuess(possible, all, false))
  }

  /** `_adaptive_strategy(attempt_number)` */
  function AdaptiveStrategy(attempt: int, possible: seq<Word>, all: seq<Word>, starters: seq<Word>): Move
    requires forall w :: w in possible ==> w in all
  {
    var remaining := |possible|;
    if attempt == 1 then Starter(starters)
    else if remaining > 100 then Fixed(BestGuess(possible, all, false))
    else if remaining > 10 then Fixed(BestGuess(possible, all, true))
    else if remaining > 0 then Fixed(Some(possible[0]))
    else PickFrom(all)
  }

  /** `make_guess(attempt_number)`: dispatch on the strategy name, failing only here for an
      unknown name. A random pick is always from the candidates or the universe, and
      never from an empty list. */
  function Decide(strategy: string, attempt: int, possible: seq<Word>, all: seq<Word>, starters: seq<Word>): (m: Move)
    requires forall w :: w in possible ==> w in all
    ensures m.RandomFrom? ==> |m.pool| > 0 && (m.pool == possible || m.pool == all)
    ensures m.RandomFrom? ==> strategy == "random" || (strategy == "adaptive" && m.pool == all)
  {
    if strategy == "random" then RandomStrategy(possible, all)
    else if strategy == "frequency" then FrequencyStrategy(attempt, possible, all, starters)
    else if strategy == "elimination" then EliminationStrategy(attempt, possible, all, starters)
    else if strategy == "adaptive" then AdaptiveStrategy(attempt, possible, all, starters)
    else Failed(UnknownStrategy(strategy))
  }

  predicate KnownStrategy(strategy: string)
  {
    strategy == "random" || strategy == "frequency" || strategy == "elimination" || strategy == "adaptive"
  }

  /** An unknown strategy name is an error, and the only way a known strategy fails is an
      empty list to take a starter or random word from. */
  lemma DecideFailures(strategy: string, attempt: int, possible: seq<Word>, all: seq<Word>, starters: seq<Word>)
    requires forall w :: w in possible ==> w in all
    ensures !KnownStrategy(strategy) ==>
      Decide(strategy, attempt, possible, all, starters) == Failed(UnknownStrategy(strategy))
    ensures KnownStrategy(strategy) && Decide(strategy, attempt, possible, all, starters).Failed? ==>
      Decide(strategy, attempt, possible, all, starters).error == EmptySequence &&
      (|starters| == 0 || |all| == 0)
  {
  }

  /** On attempt 1 the frequency, elimination and adaptive strategies open with the top
      starter; the random strategy ignores the attempt number and the starters. */
  lemma FirstAttempt(strategy: string, attempt: int, possible: seq<Word>, all: seq<Word>, starters: seq<Word>)
    requires forall w :: w in possible ==> w in all
    ensures strategy in {"frequency", "elimination", "adaptive"} && attempt == 1 ==>
      Decide(strategy, attempt, possible, all, starters) == Starter(starters)
    ensures Decide("random", attempt, possible, all, starters) == Decide("random", 1, possible, all, [])
  {
  }

  /** The random strategy picks among the candidates, or among all words when none remain. */
  lemma RandomPool(attempt: int, possible: seq<Word>, all: seq<Word>, starters: seq<Word>)
    requires forall w :: w in possible ==> w in all
    ensures |possible| > 0 ==> Decide("random", attempt, possible, all, starters) == RandomFrom(possible)
    ensures |possible| == 0 && |all| > 0 ==> Decide("random", attempt, possible, all, starters) == RandomFrom(all)
    ensures |possible| == 0 && |all| == 0 ==> Decide("random", attempt, possible, all, starters) == Failed(EmptySequence)
  {
  }

  /** After attempt 1 the adaptive strategy goes by the number of candidates left: over
      100, the best guess among all words; 11 to 100, the earliest best-scoring candidate;
      1 to 10, the first candidate; none, a random word of the universe. */
  lemma AdaptiveTable(attempt: int, possible: seq<Word>, all: seq<Word>, starters: seq<Word>)
    requires forall w :: w in possible ==> w in all
    requires attempt != 1
    ensures |possible| > 100 ==>
      Decide("adaptive", attempt, possible, all, starters) == Fixed(BestGuess(possible, all, false)) &&
      exists k :: IsFirstBest(all, possible, k) &&
                  Decide("adaptive", attempt, possible, all, starters) == Fixed(Some(all[k]))
    ensures 10 < |possible| <= 100 ==>
      exists k :: IsFirstBest(possible, possible, k) &&
                  Decide("adaptive", attempt, possible, all, starters) == Fixed(Some(possible[k]))
    ensures 0 < |possible| <= 10 ==>
      Decide("adaptive", attempt, possible, all, starters) == Fixed(Some(possible[0]))
    ensures |possible| == 0 ==>
      Decide("adaptive", attempt, possible, all, starters) == PickFrom(all)
  {
    BestGuessSpec(possible, all, false);
    BestGuessSpec(possible, all, true);
  }

  /** After attempt 1 the frequency strategy returns the best guess among the candidates
      and the elimination strategy the best guess among all words (the candidates when at
      most two remain): none without candidates, the sole candidate, or the earliest
      best-scoring word of the pool. */
  lemma LaterAttempts(attempt: int, possible: seq<Word>, all: seq<Word>, starters: seq<Word>)
    requires forall w :: w in possible ==> w in all
    requires attempt != 1
    ensures |possible| == 0 ==>
      Decide("frequency", attempt, possible, all, starters) == Fixed(None) &&
      Decide("elimination", attempt, possible, all, starters) == Fixed(None)
    ensures |possible| == 1 ==>
      Decide("frequency", attempt, possible, all, starters) == Fixed(Some(possible[0])) &&
      Decide("elimination", attempt, possible, all, starters) == Fixed(Some(possible[0]))
    ensures |possible| >= 2 ==>
      exists k :: IsFirstBest(possible, possible, k) &&
                  Decide("frequency", attempt, possible, all, starters) == Fixed(Some(possible[k]))
    ensures |possible| >= 2 ==>
      var pool := if |possible| <= 2 then possible else all;
      exists k :: IsFirstBest(pool, possible, k) &&
                  Decide("elimination", attempt, possible, all, starters) == Fixed(Some(pool[k]))
  {
    BestGuessSpec(possible, all, false);
    BestGuessSpec(possible, all, true);
  }

  /** The words of a ranking whose entries carry their own scores are pool words in
      non-increasing score order. */
  lemma RankedWords(r: seq<Ranked>, pool: seq<Word>, basis: seq<Word>)
    requires SortedDesc(r)
    requires forall e :: e in r ==> e.word in pool && e.score == ScoreWord(e.word, basis)
    ensures |WordsOf(r)| == |r|
    ensures forall w :: w in WordsOf(r) ==> w in pool
    ensures forall i, j :: 0 <= i < j < |WordsOf(r)| ==>
              ScoreWord(WordsOf(r)[i], basis) >= ScoreWord(WordsOf(r)[j], basis)
  {
    assert forall i :: 0 <= i < |r| ==> r[i] in r;
  }

  /** The starter words, scored again, are the recommended starters themselves. */
  lemma StarterWordsRescored(all: seq<Word>)
    ensures ScoreAll(StarterWords(all), all) == RecommendedStarters(all, TopStarters)
  {
    var sorted := SortByScore(ScoreAll(all, all));
    var r := RecommendedStarters(all, TopStarters);
    StartersComplete(all, TopStarters);
    RankedEntries(all, all);
    forall i | 0 <= i < |r|
      ensures ScoreAll(StarterWords(all), all)[i] == r[i]
    {
      assert r[i] == sorted[i];
      assert sorted[i] in sorted;
    }
  }

  /** The universe words are the starter words plus the words of the rest of the
      ranking. */
  lemma StarterWordsSplit(all: seq<Word>)
    ensures var sorted := SortByScore(ScoreAll(all, all));
      && multiset(StarterWords(all)) <= multiset(all)
      && multiset(all) - multiset(StarterWords(all)) ==
         multiset(WordsOf(sorted[|StarterWords(all)|..]))
  {
    var s := ScoreAll(all, all);
    var sorted := SortByScore(s);
    var r := RecommendedStarters(all, TopStarters);
    var rest := sorted[|r|..];
    StartersComplete(all, TopStarters);
    assert sorted == r + rest;
    WordsOfAppend(r, rest);
    SortWordsPerm(s);
    assert WordsOf(s) == all;
  }

  /** The starter words are taken from the universe, and no universe word left out,
      counted with repetitions, scores above a starter. */
  lemma StarterWordsComplete(all: seq<Word>)
    ensures multiset(StarterWords(all)) <= multiset(all)
    ensures forall w, i :: w in multiset(all) - multiset(StarterWords(all)) &&
                          0 <= i < |StarterWords(all)|
              ==> ScoreWord(w, all) <= ScoreWord(StarterWords(all)[i], all)
  {
    var s := ScoreAll(all, all);
    var sorted := SortByScore(s);
    var r := RecommendedStarters(all, TopStarters);
    var rest := sorted[|r|..];
    StarterWordsSplit(all);
    SortSorted(s);
    RankedEntries(all, all);
    assert r == sorted[..|r|];
    TailWordsBelowHead(sorted, all, |r|);
  }

  /** Exactly min(20, number of words) starters, all from the universe and taken with
      their repetitions, in non-increasing order of their score against the universe, no
      universe word left out scoring above a starter, the first of them the earliest
      best-scoring word; scored again they are the recommended starters. */
  lemma StarterWordsSpec(all: seq<Word>)
    ensures |StarterWords(all)| == if |all| <= 20 then |all| else 20
    ensures forall w :: w in StarterWords(all) ==> w in all
    ensures forall i, j :: 0 <= i < j < |StarterWords(all)| ==>
              ScoreWord(StarterWords(all)[i], all) >= ScoreWord(StarterWords(all)[j], all)
    ensures |all| > 0 ==> exists k :: IsFirstBest(all, all, k) && StarterWords(all)[0] == all[k]
    ensures multiset(StarterWords(all)) <= multiset(all)
    ensures forall w, i :: w in multiset(all) - multiset(StarterWords(all)) &&
                          0 <= i < |StarterWords(all)|
              ==> ScoreWord(w, all) <= ScoreWord(StarterWords(all)[i], all)
    ensures ScoreAll(StarterWords(all), all) == RecommendedStarters(all, TopStarters)
  {
    StarterWordsComplete(all);
    StarterWordsRescored(all);
    var s := ScoreAll(all, all);
    SortFacts(s);
    var r := RecommendedStarters(all, TopStarters);
    StartersSpec(all, TopStarters);
    RankedWords(r, all, all);
    if |all| > 0 {
      TopOfScoreAll(all, all);
      assert r[0] == SortByScore(s)[0];
    }
  }

  /** The best guess, when there is one, is a word of the universe. */
  lemma BestGuessIsWord(possible: seq<Word>, all: seq<Word>, remainingOnly: bool)
    requires forall w :: w in possible ==> w in all
    ensures BestGuess(possible, all, remainingOnly).Some? ==> BestGuess(possible, all, remainingOnly).value in all
  {
    BestGuessSpec(possible, all, remainingOnly);
    if |possible| > 0 {
      assert possible[0] in possible;
    }
  }

  /** Every word a strategy settles on is a word of the universe, when the starters are
      the ones computed from it. */
  lemma DecidedWordsAreWords(strategy: string, attempt: int, possible: seq<Word>, all: seq<Word>)
    requires forall w :: w in possible ==> w in all
    ensures var m := Decide(strategy, attempt, possible, all, StarterWords(all));
      && (m.Fixed? && m.guess.Some? ==> m.guess.value in all)
      && (m.RandomFrom? ==> forall w :: w in m.pool ==> w in all)
  {
    var starters := StarterWords(all);
    if strategy in {"frequency", "elimination", "adaptive"} && attempt == 1 {
      if |starters| > 0 {
        var r := RecommendedStarters(all, TopStarters);
        StartersEntries(all, TopStarters);
        assert starters[0] == r[0].word && r[0] in r;
      }
    } else if strategy == "frequency" {
      BestGuessIsWord(possible, all, true);
    } else if strategy == "elimination" {
      BestGuessIsWord(possible, all, false);
    } else if strategy == "adaptive" {
      if |possible| > 100 {
        BestGuessIsWord(possible, all, false);
      } else if |possible| > 10 {
        BestGuessIsWord(possible, all, true);
      } else if |possible| > 0 {
        assert possible[0] in possible;
      }
    }
  }

  /** `random.choice(pool)`: some element, which one is not modelled. */
  method Choice(pool: seq<Word>) returns (w: Word)
    requires |pool| > 0
    ensures w in pool
  {
    var i :| 0 <= i < |pool|;
    w := pool[i];
  }

  /** The value of `get_statistics()`. */
  datatype Statistics = Statistics(attemptsMade: nat, remainingWords: nat, strategy: string, guesses: seq<string>)

  class WordleAI {
    const helper: WordleHelper
    const strategy: string
    var guessHistory: seq<string>
    var feedbackHistory: seq<Feedback>
    /** `best_starters`, computed once at construction. */
    const bestStarters: seq<Word>

    ghost predicate Valid()
      reads this, helper
    {
      helper.Valid() && bestStarters == StarterWords(helper.allWords)
    }

    /** `__init__(word_list, strategy)`: any strategy name is accepted here. */
    constructor (wordList: seq<string>, strategy: string)
      ensures Valid() && fresh(helper)
      ensures helper.allWords == LoadWords(wordList) && helper.possibleWords == helper.allWords
      ensures this.strategy == strategy
      ensures guessHistory == [] && feedbackHistory == []
    {
      var h := new WordleHelper(wordList);
      helper := h;
      this.strategy := strategy;
      guessHistory := [];
      feedbackHistory := [];
      bestStarters := WordsOf(RecommendedStarters(h.allWords, TopStarters));
    }

    /** `reset()`: a new game over the same universe. */
    method Reset()
      requires Valid()
      modifies this, helper
      ensures Valid()
      ensures helper.possibleWords == helper.allWords
      ensures guessHistory == [] && feedbackHistory == []
    {
      helper.Reset();
      guessHistory := [];
      feedbackHistory := [];
    }

    /** `make_guess(attempt_number)`: the decision of `Decide`, a random pick resolved to
        some member of its pool. Nothing changes. */
    method MakeGuess(attempt: int) returns (r: Result<Option<Word>, GuessError>)
      requires Valid()
      ensures var m := Decide(strategy, attempt, helper.possibleWords, helper.allWords, bestStarters);
        && (m.Fixed? ==> r == Ok(m.guess))
        && (m.Failed? ==> r == Err(m.error))
        && (m.RandomFrom? ==> r.Ok? && r.value.Some? && r.value.value in m.pool)
      ensures r.Ok? && r.value.Some? ==> r.value.value in helper.allWords
    {
      DecidedWordsAreWords(strategy, attempt, helper.possibleWords, helper.allWords);
      var m := Decide(strategy, attempt, helper.possibleWords, helper.allWords, bestStarters);
      match m
      case Fixed(g) =>
        r := Ok(g);
      case RandomFrom(pool) =>
        var w := Choice(pool);
        r := Ok(Some(w));
      case Failed(e) =>
        r := Err(e);
    }

    /** `process_feedback(guess, feedback)`: one more entry in each history, and the
        candidates filtered by the feedback. */
    method ProcessFeedback(guess: string, feedback: Feedback)
      requires Valid()
      requires |feedback| <= WordLength
      modifies this, helper
      ensures Valid()
      ensures guessHistory == old(guessHistory) + [guess]
      ensures feedbackHistory == old(feedbackHistory) + [feedback]
      ensures helper.possibleWords == Surviving(old(helper.possibleWords), Extract(feedback))
    {
      guessHistory := guessHistory + [guess];
      feedbackHistory := feedbackHistory + [feedback];
      var _ := helper.FilterWords(guess, feedback);
    }

    /** `get_statistics()`: the number of attempts is the number of guesses recorded, and
        no more candidates remain than the universe holds. */
    function GetStatistics(): (r: Statistics)
      requires Valid()
      reads this, helper
      ensures r.attemptsMade == |r.guesses| && r.guesses == guessHistory
      ensures r.remainingWords == |helper.possibleWords| <= |helper.allWords|
      ensures r.strategy == strategy
    {
      SubsequenceProperties(helper.possibleWords, helper.allWords);
      Statistics(|guessHistory|, |helper.possibleWords|, strategy, guessHistory)
    }

    /** `suggest_next_move()`: read-only; a best word exactly when candidates remain, and
        then one of them. */
    function SuggestNextMove(): (r: Suggestion)
      reads this, helper
      ensures r.best.None? <==> |helper.possibleWords| == 0
      ensures r.best.Some? ==> r.best.value in helper.possibleWords
      ensures forall w :: w in r.alternatives ==> w in helper.possibleWords
    {
      SuggestSpec(helper.possibleWords);
      Suggest(helper.possibleWords)
    }
  }
}
