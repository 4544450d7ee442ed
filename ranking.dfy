/** The guess selector: scored words, Python's stable descending sort by score, and the
    three rankings built on it (best guess, recommended starters, suggested move). */
module Ranking {
  import opened Words
  import opened Scoring

  /** A `(word, score)` pair. */
  datatype Ranked = Ranked(word: Word, score: nat)

  /** `[(word, score_word(word, basis)) for word in pool]` */
  function ScoreAll(pool: seq<Word>, basis: seq<Word>): seq<Ranked>
  {
    seq(|pool|, i requires 0 <= i < |pool| => Ranked(pool[i], ScoreWord(pool[i], basis)))
  }

  /** `[word for word, _ in ranked]` */
  function WordsOf(ranked: seq<Ranked>): seq<Word>
  {
    seq(|ranked|, i requires 0 <= i < |ranked| => ranked[i].word)
  }

  /** Places `x` after every entry scoring at least as much, so equal scores keep
      their order of arrival. */
  function Insert(x: Ranked, r: seq<Ranked>): (r': seq<Ranked>)
    ensures |r'| == |r| + 1
    decreases |r|
  {
    if |r| == 0 then [x]
    else if r[0].score >= x.score then [r[0]] + Insert(x, r[1..])
    else [x] + r
  }

  /** `ranked.sort(key=lambda x: x[1], reverse=True)`: stable, highest score first. */
  function SortByScore(s: seq<Ranked>): (r: seq<Ranked>)
    ensures |r| == |s|
    decreases |s|
  {
    if |s| == 0 then [] else Insert(Last(s), SortByScore(Init(s)))
  }

  predicate SortedDesc(r: seq<Ranked>)
  {
    forall i, j :: 0 <= i < j < |r| ==> r[i].score >= r[j].score
  }

  /** The entries scoring exactly `v`, in order. */
  function WithScore(s: seq<Ranked>, v: nat): seq<Ranked>
    decreases |s|
  {
    if |s| == 0 then []
    else (if s[0].score == v then [s[0]] else []) + WithScore(s[1..], v)
  }

  lemma {:induction false} WithScoreAppend(a: seq<Ranked>, b: seq<Ranked>, v: nat)
    ensures WithScore(a + b, v) == WithScore(a, v) + WithScore(b, v)
    decreases |a|
  {
    if |a| == 0 {
      assert a + b == b;
    } else {
      assert (a + b)[1..] == a[1..] + b;
      WithScoreAppend(a[1..], b, v);
    }
  }

  lemma {:induction false} WithScoreNone(s: seq<Ranked>, v: nat)
    requires forall i :: 0 <= i < |s| ==> s[i].score != v
    ensures WithScore(s, v) == []
    decreases |s|
  {
    if |s| > 0 {
      WithScoreNone(s[1..], v);
    }
  }

  lemma {:induction false} InsertPerm(x: Ranked, r: seq<Ranked>)
    ensures multiset(Insert(x, r)) == multiset(r) + multiset{x}
    decreases |r|
  {
    if |r| > 0 && r[0].score >= x.score {
      InsertPerm(x, r[1..]);
      assert r == [r[0]] + r[1..];
    }
  }

  lemma {:induction false} InsertSorted(x: Ranked, r: seq<Ranked>)
    requires SortedDesc(r)
    ensures SortedDesc(Insert(x, r))
    decreases |r|
  {
    if |r| > 0 && r[0].score >= x.score {
      var tail := Insert(x, r[1..]);
      InsertSorted(x, r[1..]);
      InsertPerm(x, r[1..]);
      forall j | 0 <= j < |tail|
        ensures r[0].score >= tail[j].score
      {
        assert tail[j] in multiset(tail);
        assert tail[j] in multiset(r[1..]) + multiset{x};
        if tail[j] != x {
          assert tail[j] in r[1..];
        }
      }
    }
  }

  lemma {:induction false} InsertStable(x: Ranked, r: seq<Ranked>, v: nat)
    requires SortedDesc(r)
    ensures WithScore(Insert(x, r), v) == WithScore(r, v) + (if x.score == v then [x] else [])
    decreases |r|
  {
    if |r| == 0 {
    } else if r[0].score >= x.score {
      InsertStable(x, r[1..], v);
      WithScoreAppend([r[0]], Insert(x, r[1..]), v);
      WithScoreAppend([r[0]], r[1..], v);
      assert r == [r[0]] + r[1..];
    } else {
      WithScoreAppend([x], r, v);
      if x.score == v {
        WithScoreNone(r, v);
      }
    }
  }

  lemma MultisetInitLast(s: seq<Ranked>)
    requires |s| > 0
    ensures multiset(s) == multiset(Init(s)) + multiset{Last(s)}
  {
    assert s == Init(s) + [Last(s)];
  }

  lemma {:induction false} SortPerm(s: seq<Ranked>)
    ensures multiset(SortByScore(s)) == multiset(s)
    decreases |s|
  {
    if |s| > 0 {
      SortPerm(Init(s));
      InsertPerm(Last(s), SortByScore(Init(s)));
      MultisetInitLast(s);
    }
  }

  lemma WordsOfAppend(a: seq<Ranked>, b: seq<Ranked>)
    ensures WordsOf(a + b) == WordsOf(a) + WordsOf(b)
  {
    assert forall i :: 0 <= i < |a + b| ==> WordsOf(a + b)[i] == (WordsOf(a) + WordsOf(b))[i];
  }

  lemma {:induction false} InsertWordsPerm(x: Ranked, r: seq<Ranked>)
    ensures multiset(WordsOf(Insert(x, r))) == multiset(WordsOf(r)) + multiset{x.word}
    decreases |r|
  {
    if |r| == 0 {
      assert WordsOf([x]) == [x.word];
    } else if r[0].score >= x.score {
      InsertWordsPerm(x, r[1..]);
      WordsOfAppend([r[0]], Insert(x, r[1..]));
      WordsOfAppend([r[0]], r[1..]);
      assert r == [r[0]] + r[1..];
    } else {
      WordsOfAppend([x], r);
      assert WordsOf([x]) == [x.word];
    }
  }

  /** Sorting permutes the words as well as the entries. */
  lemma {:induction false} SortWordsPerm(s: seq<Ranked>)
    ensures multiset(WordsOf(SortByScore(s))) == multiset(WordsOf(s))
    decreases |s|
  {
    if |s| > 0 {
      SortWordsPerm(Init(s));
      InsertWordsPerm(Last(s), SortByScore(Init(s)));
      assert s == Init(s) + [Last(s)];
      WordsOfAppend(Init(s), [Last(s)]);
      assert WordsOf([Last(s)]) == [Last(s).word];
    }
  }

  lemma {:induction false} SortSorted(s: seq<Ranked>)
    ensures SortedDesc(SortByScore(s))
    decreases |s|
  {
    if |s| > 0 {
      SortSorted(Init(s));
      InsertSorted(Last(s), SortByScore(Init(s)));
    }
  }

  lemma {:induction false} SortStable(s: seq<Ranked>, v: nat)
    ensures WithScore(SortByScore(s), v) == WithScore(s, v)
    decreases |s|
  {
    if |s| > 0 {
      SortStable(Init(s), v);
      SortSorted(Init(s));
      InsertStable(Last(s), SortByScore(Init(s)), v);
      WithScoreAppend(Init(s), [Last(s)], v);
      assert s == Init(s) + [Last(s)];
    }
  }

  /** The sort is a permutation, puts higher scores first, and keeps entries of equal
      score in their original relative order. */
  lemma SortFacts(s: seq<Ranked>)
    ensures multiset(SortByScore(s)) == multiset(s)
    ensures |SortByScore(s)| == |s|
    ensures SortedDesc(SortByScore(s))
    ensures forall v :: WithScore(SortByScore(s), v) == WithScore(s, v)
  {
    SortPerm(s);
    SortSorted(s);
    forall v
      ensures WithScore(SortByScore(s), v) == WithScore(s, v)
    {
      SortStable(s, v);
    }
    assert |SortByScore(s)| == |multiset(SortByScore(s))|;
  }

  /** Sorting keeps exactly the entries it was given. */
  lemma SortMembers(s: seq<Ranked>)
    ensures forall e :: e in SortByScore(s) <==> e in s
  {
    SortFacts(s);
    assert forall e :: e in SortByScore(s) <==> e in multiset(SortByScore(s));
  }

  lemma Cut(a: seq<Ranked>, n: nat)
    requires n <= |a|
    ensures a == a[..n] + a[n..]
  {
  }

  /** Cutting a sequence in two splits its multiset in two. */
  lemma CutMultiset(a: seq<Ranked>, n: nat)
    requires n <= |a|
    ensures multiset(a[..n]) <= multiset(a)
    ensures multiset(a) - multiset(a[..n]) == multiset(a[n..])
  {
    assert a == a[..n] + a[n..];
  }

  /** In a sorted list, nothing after position `n` scores above anything before it. */
  lemma TailBelowHead(r: seq<Ranked>, n: nat)
    requires n <= |r| && SortedDesc(r)
    ensures forall e, i :: e in multiset(r[n..]) && 0 <= i < n ==> e.score <= r[i].score
  {
    forall e: Ranked, i | e in multiset(r[n..]) && 0 <= i < n
      ensures e.score <= r[i].score
    {
      var j :| 0 <= j < |r| - n && r[n..][j] == e;
      assert r[n + j] == e;
    }
  }

  /** In a sorted list whose entries carry their own scores, no word after position `n`
      scores above a word before it. */
  lemma TailWordsBelowHead(r: seq<Ranked>, basis: seq<Word>, n: nat)
    requires n <= |r| && SortedDesc(r)
    requires forall e :: e in r ==> e.score == ScoreWord(e.word, basis)
    ensures forall w, i :: w in multiset(WordsOf(r[n..])) && 0 <= i < n ==>
              ScoreWord(w, basis) <= ScoreWord(r[i].word, basis)
  {
    forall w, i | w in multiset(WordsOf(r[n..])) && 0 <= i < n
      ensures ScoreWord(w, basis) <= ScoreWord(r[i].word, basis)
    {
      var j :| 0 <= j < |r| - n && WordsOf(r[n..])[j] == w;
      assert r[n + j] in r && r[i] in r;
    }
  }

  /** Cutting the ranking after `n` entries keeps some of its entries and leaves out the
      rest, and no entry left out scores above one kept. */
  lemma TopComplement(s: seq<Ranked>, n: nat)
    requires n <= |s|
    ensures multiset(SortByScore(s)[..n]) <= multiset(s)
    ensures forall e, i :: e in multiset(s) - multiset(SortByScore(s)[..n]) && 0 <= i < n
              ==> e.score <= SortByScore(s)[i].score
  {
    var sorted := SortByScore(s);
    SortPerm(s);
    SortSorted(s);
    CutMultiset(sorted, n);
    TailBelowHead(sorted, n);
  }

  /** The index of the first entry of highest score: the reference for "the best,
      earliest on ties". */
  function FirstMax(s: seq<Ranked>): (k: nat)
    requires |s| > 0
    ensures k < |s|
    ensures forall j :: 0 <= j < |s| ==> s[j].score <= s[k].score
    ensures forall j :: 0 <= j < k ==> s[j].score < s[k].score
    decreases |s|
  {
    if |s| == 1 then 0
    else
      var k := FirstMax(Init(s));
      if Last(s).score > s[k].score then |s| - 1 else k
  }

  /** The head of the sorted list is the first entry of highest score. */
  lemma {:induction false} SortHead(s: seq<Ranked>)
    requires |s| > 0
    ensures |SortByScore(s)| > 0 && SortByScore(s)[0] == s[FirstMax(s)]
    decreases |s|
  {
    if |s| > 1 {
      SortHead(Init(s));
    }
  }

  /** `pool[k]` has the highest score under `basis`, and every earlier word scores less. */
  predicate IsFirstBest(pool: seq<Word>, basis: seq<Word>, k: int)
  {
    0 <= k < |pool| &&
    (forall j :: 0 <= j < |pool| ==> ScoreWord(pool[j], basis) <= ScoreWord(pool[k], basis)) &&
    (forall j :: 0 <= j < k ==> ScoreWord(pool[j], basis) < ScoreWord(pool[k], basis))
  }

  lemma TopOfScoreAll(pool: seq<Word>, basis: seq<Word>)
    requires |pool| > 0
    ensures |SortByScore(ScoreAll(pool, basis))| > 0
    ensures IsFirstBest(pool, basis, FirstMax(ScoreAll(pool, basis)))
    ensures SortByScore(ScoreAll(pool, basis))[0].word == pool[FirstMax(ScoreAll(pool, basis))]
  {
    var s := ScoreAll(pool, basis);
    SortHead(s);
    var k := FirstMax(s);
    assert forall j :: 0 <= j < |pool| ==> s[j].score == ScoreWord(pool[j], basis);
  }

  /** The words `get_best_guess` scores: the candidates themselves when there are at most
      two of them or remaining-only mode is on, every word otherwise. */
  function GuessPool(possible: seq<Word>, all: seq<Word>, remainingOnly: bool): seq<Word>
  {
    if |possible| <= 2 || remainingOnly then possible else all
  }

  /** `get_best_guess(use_remaining_only)`, over the helper's candidates and universe. */
  function BestGuess(possible: seq<Word>, all: seq<Word>, remainingOnly: bool): Option<Word>
    requires forall w :: w in possible ==> w in all
  {
    if |possible| == 0 then None
    else if |possible| == 1 then Some(possible[0])
    else
      var pool := GuessPool(possible, all, remainingOnly);
      assert possible[0] in all;
      TopOfScoreAll(pool, possible);
      Some(SortByScore(ScoreAll(pool, possible))[0].word)
  }

  /** No candidate: no guess. One candidate: that one, unscored. Otherwise a word of the
      pool with the highest score against the candidates, the earliest on ties. */
  lemma BestGuessSpec(possible: seq<Word>, all: seq<Word>, remainingOnly: bool)
    requires forall w :: w in possible ==> w in all
    ensures |possible| == 0 ==> BestGuess(possible, all, remainingOnly) == None
    ensures |possible| == 1 ==> BestGuess(possible, all, remainingOnly) == Some(possible[0])
    ensures |possible| >= 2 ==>
      var pool := GuessPool(possible, all, remainingOnly);
      exists k :: IsFirstBest(pool, possible, k) &&
                  BestGuess(possible, all, remainingOnly) == Some(pool[k])
  {
    if |possible| >= 2 {
      var pool := GuessPool(possible, all, remainingOnly);
      assert possible[0] in all;
      TopOfScoreAll(pool, possible);
      var k := FirstMax(ScoreAll(pool, possible));
      assert IsFirstBest(pool, possible, k);
    }
  }

  /** Python's `s[:n]`, a negative `n` counting from the end. */
  function PyTake<T>(s: seq<T>, n: int): (r: seq<T>)
    ensures n >= 0 ==> |r| == if n <= |s| then n else |s|
    ensures n < 0 ==> |r| == if |s| + n >= 0 then |s| + n else 0
    ensures r == s[..|r|]
  {
    if n >= 0 then (if n <= |s| then s[..n] else s)
    else (if |s| + n >= 0 then s[..|s| + n] else [])
  }

  /** `get_recommended_starters(top_n)` */
  function RecommendedStarters(all: seq<Word>, topN: int): seq<Ranked>
  {
    PyTake(SortByScore(ScoreAll(all, all)), topN)
  }

  /** The first `topN` entries of the ranking (at most all of them), none left out scoring
      above one kept. */
  lemma StartersTop(all: seq<Word>, topN: int)
    ensures |RecommendedStarters(all, topN)| <= |all|
    ensures topN >= 0 ==> |RecommendedStarters(all, topN)| == if topN <= |all| then topN else |all|
    ensures forall i, j :: 0 <= i < |RecommendedStarters(all, topN)| <= j < |SortByScore(ScoreAll(all, all))| ==>
              SortByScore(ScoreAll(all, all))[j].score <= RecommendedStarters(all, topN)[i].score
  {
    SortFacts(ScoreAll(all, all));
  }

  /** Each starter is a universe word carrying its score against the universe, and the
      starters are in non-increasing score order. */
  lemma StartersEntries(all: seq<Word>, topN: int)
    ensures forall e :: e in RecommendedStarters(all, topN) ==>
              e.word in all && e.score == ScoreWord(e.word, all)
    ensures SortedDesc(RecommendedStarters(all, topN))
  {
    var sorted := SortByScore(ScoreAll(all, all));
    var r := RecommendedStarters(all, topN);
    SortSorted(ScoreAll(all, all));
    RankedEntries(all, all);
    assert r == sorted[..|r|];
    assert forall e :: e in r ==> e in sorted;
  }

  /** The first starter scores at least as much as every universe word. */
  lemma StartersHead(all: seq<Word>, topN: int)
    ensures |RecommendedStarters(all, topN)| > 0 ==>
              forall w :: w in all ==> ScoreWord(w, all) <= RecommendedStarters(all, topN)[0].score
  {
    var s := ScoreAll(all, all);
    var r := RecommendedStarters(all, topN);
    if |r| > 0 {
      SortHead(s);
      assert r[0] == SortByScore(s)[0];
      forall w | w in all
        ensures ScoreWord(w, all) <= r[0].score
      {
        var j :| 0 <= j < |all| && all[j] == w;
        assert s[j].score == ScoreWord(w, all);
      }
    }
  }

  /** The starters are a prefix of the ranking: entries taken from the ranked universe,
      and no entry left out, counted with repetitions, scores above one kept. */
  lemma StartersComplete(all: seq<Word>, topN: int)
    ensures RecommendedStarters(all, topN) ==
            SortByScore(ScoreAll(all, all))[..|RecommendedStarters(all, topN)|]
    ensures multiset(RecommendedStarters(all, topN)) <= multiset(ScoreAll(all, all))
    ensures forall e, i :: e in multiset(ScoreAll(all, all)) - multiset(RecommendedStarters(all, topN)) &&
                          0 <= i < |RecommendedStarters(all, topN)|
              ==> e.score <= RecommendedStarters(all, topN)[i].score
  {
    var s := ScoreAll(all, all);
    var r := RecommendedStarters(all, topN);
    SortFacts(s);
    TopComplement(s, |r|);
  }

  /** Starters of equal score appear in universe order. */
  lemma StartersTies(all: seq<Word>, topN: int, v: nat)
    ensures WithScore(RecommendedStarters(all, topN), v) <= WithScore(ScoreAll(all, all), v)
  {
    var s := ScoreAll(all, all);
    var sorted := SortByScore(s);
    var r := RecommendedStarters(all, topN);
    var n := |r|;
    assert r == sorted[..n];
    SortStable(s, v);
    Cut(sorted, n);
    WithScoreAppend(sorted[..n], sorted[n..], v);
  }

  /** The starters are the first `topN` entries of the ranking (all of it when shorter):
      words of the universe, each with its score against the universe, highest first, no
      entry left out (counted with repetitions) scoring above one kept, the first the best
      of all, and words of equal score in their original order. */
  lemma StartersSpec(all: seq<Word>, topN: int)
    ensures topN >= 0 ==> |RecommendedStarters(all, topN)| == if topN <= |all| then topN else |all|
    ensures forall i, j :: 0 <= i < |RecommendedStarters(all, topN)| <= j < |SortByScore(ScoreAll(all, all))| ==>
              SortByScore(ScoreAll(all, all))[j].score <= RecommendedStarters(all, topN)[i].score
    ensures |RecommendedStarters(all, topN)| <= |all|
    ensures forall e :: e in RecommendedStarters(all, topN) ==>
              e.word in all && e.score == ScoreWord(e.word, all)
    ensures SortedDesc(RecommendedStarters(all, topN))
    ensures |RecommendedStarters(all, topN)| > 0 ==>
              forall w :: w in all ==> ScoreWord(w, all) <= RecommendedStarters(all, topN)[0].score
    ensures forall v :: WithScore(RecommendedStarters(all, topN), v) <=
                        WithScore(ScoreAll(all, all), v)
    ensures RecommendedStarters(all, topN) ==
            SortByScore(ScoreAll(all, all))[..|RecommendedStarters(all, topN)|]
    ensures multiset(RecommendedStarters(all, topN)) <= multiset(ScoreAll(all, all))
    ensures forall e, i :: e in multiset(ScoreAll(all, all)) - multiset(RecommendedStarters(all, topN)) &&
                          0 <= i < |RecommendedStarters(all, topN)|
              ==> e.score <= RecommendedStarters(all, topN)[i].score
  {
    StartersTop(all, topN);
    StartersComplete(all, topN);
    StartersEntries(all, topN);
    StartersHead(all, topN);
    forall v
      ensures WithScore(RecommendedStarters(all, topN), v) <= WithScore(ScoreAll(all, all), v)
    {
      StartersTies(all, topN, v);
    }
  }

  /** The value of `suggest_next_move`. */
  datatype Suggestion = Suggestion(best: Option<Word>, alternatives: seq<Word>)

  /** Python's `s[1:6]` for a non-empty `s`. */
  function Alternatives(s: seq<Ranked>): seq<Ranked>
    requires |s| > 0
  {
    if |s| <= 6 then s[1..] else s[1..6]
  }

  /** `suggest_next_move`: the first 100 candidates ranked against all candidates; the
      first is the best, the next five are the alternatives. */
  function Suggest(possible: seq<Word>): Suggestion
  {
    if |possible| == 0 then Suggestion(None, [])
    else
      var head := PyTake(possible, 100);
      TopOfScoreAll(head, possible);
      var scored := SortByScore(ScoreAll(head, possible));
      Suggestion(Some(scored[0].word), WordsOf(Alternatives(scored)))
  }

  /** Every entry of a ranking is a word of its pool carrying its own score. */
  lemma RankedEntries(pool: seq<Word>, basis: seq<Word>)
    ensures forall e :: e in SortByScore(ScoreAll(pool, basis)) ==>
              e.word in pool && e.score == ScoreWord(e.word, basis)
  {
    var s := ScoreAll(pool, basis);
    SortMembers(s);
    forall e | e in SortByScore(s)
      ensures e.word in pool && e.score == ScoreWord(e.word, basis)
    {
      var j :| 0 <= j < |s| && s[j] == e;
    }
  }

  /** The alternatives follow the best in the ranking, so they score no more than it and
      appear in non-increasing score order. */
  lemma AlternativesRanked(scored: seq<Ranked>, pool: seq<Word>, basis: seq<Word>)
    requires |scored| > 0 && SortedDesc(scored)
    requires forall e :: e in scored ==> e.word in pool && e.score == ScoreWord(e.word, basis)
    ensures var alts := WordsOf(Alternatives(scored));
      && |alts| == (if |scored| <= 6 then |scored| - 1 else 5)
      && (forall i :: 0 <= i < |alts| ==>
            alts[i] in pool && ScoreWord(alts[i], basis) <= ScoreWord(scored[0].word, basis))
      && (forall i, j :: 0 <= i < j < |alts| ==>
            ScoreWord(alts[i], basis) >= ScoreWord(alts[j], basis))
  {
    var alts := Alternatives(scored);
    assert forall i :: 0 <= i < |alts| ==> alts[i] == scored[i + 1];
    assert scored[0] in scored;
    forall i | 0 <= i < |alts|
      ensures alts[i].word in pool && alts[i].score == ScoreWord(alts[i].word, basis)
    {
      assert scored[i + 1] in scored;
    }
  }

  /** The best and the alternatives, scored again, are the first `min(6, n)` entries of a
      ranking whose entries carry their own scores. */
  lemma ShownIsPrefix(scored: seq<Ranked>, basis: seq<Word>)
    requires |scored| > 0
    requires forall e :: e in scored ==> e.score == ScoreWord(e.word, basis)
    ensures ScoreAll([scored[0].word] + WordsOf(Alternatives(scored)), basis) ==
            scored[..if |scored| <= 6 then |scored| else 6]
  {
    var n := if |scored| <= 6 then |scored| else 6;
    var shown := [scored[0].word] + WordsOf(Alternatives(scored));
    assert |shown| == n;
    forall k | 0 <= k < n
      ensures ScoreAll(shown, basis)[k] == scored[k]
    {
      if k > 0 {
        assert Alternatives(scored)[k - 1] == scored[k];
      }
      assert shown[k] == scored[k].word;
      assert scored[k] in scored;
    }
  }

  /** The best and the alternatives are the first entries of the ranking: no entry ranked
      after them scores above any alternative, and words of equal score appear in
      candidate order. */
  lemma SuggestNext(possible: seq<Word>)
    requires |possible| > 0
    ensures var head := PyTake(possible, 100);
      var sg := Suggest(possible);
      var scored := SortByScore(ScoreAll(head, possible));
      sg.best.Some? &&
      (forall i, j :: 0 <= i < |sg.alternatives| && 1 + |sg.alternatives| <= j < |scored| ==>
         scored[j].score <= ScoreWord(sg.alternatives[i], possible)) &&
      (forall v :: WithScore(ScoreAll([sg.best.value] + sg.alternatives, possible), v) <=
                   WithScore(ScoreAll(head, possible), v))
  {
    var head := PyTake(possible, 100);
    var s := ScoreAll(head, possible);
    var scored := SortByScore(s);
    SortFacts(s);
    RankedEntries(head, possible);
    var n := if |scored| <= 6 then |scored| else 6;
    ShownIsPrefix(scored, possible);
    var alts := Alternatives(scored);
    forall i, j | 0 <= i < |alts| && n <= j < |scored|
      ensures scored[j].score <= ScoreWord(alts[i].word, possible)
    {
      assert alts[i] == scored[i + 1];
      assert scored[i + 1] in scored;
    }
    forall v
      ensures WithScore(scored[..n], v) <= WithScore(s, v)
    {
      assert scored == scored[..n] + scored[n..];
      WithScoreAppend(scored[..n], scored[n..], v);
    }
  }

  /** The best and the alternatives, scored again, are the first `min(6, n)` entries of
      the ranking of the first 100 candidates: taken from those candidates' entries, and
      no entry left out, counted with repetitions, scores above one shown. */
  lemma SuggestComplete(possible: seq<Word>)
    requires |possible| > 0
    ensures var head := PyTake(possible, 100);
      var sg := Suggest(possible);
      var scored := SortByScore(ScoreAll(head, possible));
      sg.best.Some? &&
      var shown := [sg.best.value] + sg.alternatives;
      && ScoreAll(shown, possible) == scored[..if |scored| <= 6 then |scored| else 6]
      && multiset(ScoreAll(shown, possible)) <= multiset(ScoreAll(head, possible))
      && (forall e, i :: e in multiset(ScoreAll(head, possible)) - multiset(ScoreAll(shown, possible)) &&
                         0 <= i < |shown|
            ==> e.score <= ScoreWord(shown[i], possible))
  {
    var head := PyTake(possible, 100);
    var s := ScoreAll(head, possible);
    var scored := SortByScore(s);
    SortFacts(s);
    RankedEntries(head, possible);
    ShownIsPrefix(scored, possible);
    var n := if |scored| <= 6 then |scored| else 6;
    TopComplement(s, n);
    var shown := [scored[0].word] + WordsOf(Alternatives(scored));
    forall i | 0 <= i < |shown|
      ensures ScoreWord(shown[i], possible) == scored[i].score
    {
      assert ScoreAll(shown, possible)[i] == scored[i];
    }
  }

  /** No candidates: `(None, [])`. Otherwise the best is the first highest-scoring word of
      the first 100 candidates, and at most five alternatives follow, each among those
      100 words, none scoring above the best, in non-increasing score order; they are the
      next entries of the ranking, since no entry ranked after them scores above any of
      them, and words of equal score appear in candidate order. */
  lemma SuggestSpec(possible: seq<Word>)
    ensures |possible| == 0 ==> Suggest(possible) == Suggestion(None, [])
    ensures |possible| > 0 ==>
      var head := PyTake(possible, 100);
      var sg := Suggest(possible);
      && sg.best.Some?
      && (exists k :: IsFirstBest(head, possible, k) && sg.best.value == head[k])
      && |sg.alternatives| == (if |head| <= 6 then |head| - 1 else 5)
      && (forall i :: 0 <= i < |sg.alternatives| ==>
            sg.alternatives[i] in head &&
            ScoreWord(sg.alternatives[i], possible) <= ScoreWord(sg.best.value, possible))
      && (forall i, j :: 0 <= i < j < |sg.alternatives| ==>
            ScoreWord(sg.alternatives[i], possible) >= ScoreWord(sg.alternatives[j], possible))
    ensures |possible| > 0 ==>
      var head := PyTake(possible, 100);
      var sg := Suggest(possible);
      var scored := SortByScore(ScoreAll(head, possible));
      sg.best.Some? &&
      (forall i, j :: 0 <= i < |sg.alternatives| && 1 + |sg.alternatives| <= j < |scored| ==>
         scored[j].score <= ScoreWord(sg.alternatives[i], possible)) &&
      (forall v :: WithScore(ScoreAll([sg.best.value] + sg.alternatives, possible), v) <=
                   WithScore(ScoreAll(head, possible), v))
    ensures |possible| > 0 ==>
      var head := PyTake(possible, 100);
      var sg := Suggest(possible);
      var scored := SortByScore(ScoreAll(head, possible));
      sg.best.Some? &&
      var shown := [sg.best.value] + sg.alternatives;
      && ScoreAll(shown, possible) == scored[..if |scored| <= 6 then |scored| else 6]
      && multiset(ScoreAll(shown, possible)) <= multiset(ScoreAll(head, possible))
      && (forall e, i :: e in multiset(ScoreAll(head, possible)) - multiset(ScoreAll(shown, possible)) &&
                         0 <= i < |shown|
            ==> e.score <= ScoreWord(shown[i], possible))
  {
    if |possible| > 0 {
      var head := PyTake(possible, 100);
      var s := ScoreAll(head, possible);
      var scored := SortByScore(s);
      TopOfScoreAll(head, possible);
      SortFacts(s);
      RankedEntries(head, possible);
      AlternativesRanked(scored, head, possible);
      var k := FirstMax(s);
      assert IsFirstBest(head, possible, k);
      SuggestNext(possible);
      SuggestComplete(possible);
    }
  }
}
