/** The frequency scorer: per-letter presence counts over a basis of words, per-position
    counts, and the score of a word as the sum of the presence counts of its distinct
    letters. */
module Scoring {
  import opened Words

  /** `set(word)` */
  function LetterSet(w: Word): set<char>
  {
    set c | c in w
  }

  /** `counter.get(l, 0)` */
  function Get(m: map<char, nat>, l: char): nat
  {
    if l in m then m[l] else 0
  }

  /** The number of words of `words` that contain `l` at least once. */
  function PresenceCount(words: seq<Word>, l: char): (n: nat)
    ensures n <= |words|
    ensures n > 0 <==> exists w :: w in words && l in w
    decreases |words|
  {
    if |words| == 0 then 0
    else
      assert words == Init(words) + [Last(words)];
      PresenceCount(Init(words), l) + (if l in Last(words) then 1 else 0)
  }

  /** `freq.update(set(word))`: one more for each letter of `letters`. */
  function Tally(freq: map<char, nat>, letters: set<char>): map<char, nat>
  {
    map l | l in freq.Keys + letters :: Get(freq, l) + (if l in letters then 1 else 0)
  }

  /** The Counter that `get_letter_frequencies` builds, word by word. */
  function Frequencies(words: seq<Word>): (freq: map<char, nat>)
    ensures forall l :: l in freq <==> exists w :: w in words && l in w
    ensures forall l :: l in freq ==> 1 <= freq[l] == PresenceCount(words, l) <= |words|
    decreases |words|
  {
    if |words| == 0 then map[]
    else
      assert words == Init(words) + [Last(words)];
      Tally(Frequencies(Init(words)), LetterSet(Last(words)))
  }

  /** A letter's frequency, absent letters reading as 0, is its presence count. */
  lemma FrequencyIsPresenceCount(words: seq<Word>, l: char)
    ensures Get(Frequencies(words), l) == PresenceCount(words, l)
  {
  }

  /** `get_letter_frequencies(words)` */
  method LetterFrequencies(words: seq<Word>) returns (freq: map<char, nat>)
    ensures freq == Frequencies(words)
    ensures forall l :: l in freq ==> 1 <= freq[l] == PresenceCount(words, l) <= |words|
  {
    freq := map[];
    for j := 0 to |words|
      invariant freq == Frequencies(words[..j])
    {
      assert Init(words[..j + 1]) == words[..j];
      freq := Tally(freq, LetterSet(words[j]));
    }
    assert words[..|words|] == words;
  }

  /** The number of words of `words` that hold `l` at position `i`. */
  function CountAt(words: seq<Word>, i: nat, l: char): (n: nat)
    ensures n <= |words|
    ensures n > 0 <==> exists w :: w in words && i < |w| && w[i] == l
    decreases |words|
  {
    if |words| == 0 then 0
    else
      assert words == Init(words) + [Last(words)];
      CountAt(Init(words), i, l) + (if i < |Last(words)| && Last(words)[i] == l then 1 else 0)
  }

  /** `counter[l] += 1` */
  function Bump(m: map<char, nat>, l: char): map<char, nat>
  {
    var n: nat := Get(m, l) + 1;
    m[l := n]
  }

  /** The Counter for position `i` that `get_position_frequencies` builds. */
  function PositionCounts(words: seq<Word>, i: nat): map<char, nat>
    decreases |words|
  {
    if |words| == 0 then map[]
    else
      var m := PositionCounts(Init(words), i);
      var w := Last(words);
      if i < |w| then Bump(m, w[i]) else m
  }

  /** Position `i`'s Counter holds the letters found at position `i`, each with the
      number of words holding it there. */
  lemma {:induction false} PositionCountsMeaning(words: seq<Word>, i: nat)
    ensures forall l :: l in PositionCounts(words, i) <==> exists w :: w in words && i < |w| && w[i] == l
    ensures forall l :: Get(PositionCounts(words, i), l) == CountAt(words, i, l)
    decreases |words|
  {
    if |words| > 0 {
      assert words == Init(words) + [Last(words)];
      PositionCountsMeaning(Init(words), i);
    }
  }

  /** `get_position_frequencies(words)`: one Counter per position. */
  method PositionFrequencies(words: seq<Word>) returns (pf: seq<map<char, nat>>)
    requires forall w :: w in words ==> |w| <= WordLength
    ensures |pf| == WordLength
    ensures forall i :: 0 <= i < WordLength ==> pf[i] == PositionCounts(words, i)
  {
    pf := [map[], map[], map[], map[], map[]];
    for j := 0 to |words|
      invariant |pf| == WordLength
      invariant forall i :: 0 <= i < WordLength ==> pf[i] == PositionCounts(words[..j], i)
    {
      var word := words[j];
      assert word in words;
      assert Init(words[..j + 1]) == words[..j] && Last(words[..j + 1]) == word;
      for i := 0 to |word|
        invariant |pf| == WordLength
        invariant forall k :: 0 <= k < i ==> pf[k] == PositionCounts(words[..j + 1], k)
        invariant forall k :: i <= k < WordLength ==> pf[k] == PositionCounts(words[..j], k)
      {
        var letter := word[i];
        var bumped: nat := Get(pf[i], letter) + 1;
        var row: map<char, nat> := pf[i][letter := bumped];
        pf := pf[i := row];
      }
    }
    assert words[..|words|] == words;
  }

  /** Sum of the values of `f` (absent keys reading as 0) over the letters of `s`. */
  ghost function SetSum(s: set<char>, f: map<char, nat>): nat
    decreases s
  {
    if s == {} then 0
    else
      var x := Pick(s);
      Get(f, x) + SetSum(s - {x}, f)
  }

  ghost function Pick(s: set<char>): char
    requires s != {}
  {
    var x :| x in s; x
  }

  /** A set sum may take out any element first. */
  lemma {:induction false} SetSumRemove(s: set<char>, f: map<char, nat>, x: char)
    requires x in s
    ensures SetSum(s, f) == Get(f, x) + SetSum(s - {x}, f)
    decreases |s|
  {
    var y := Pick(s);
    if y != x {
      SetSumRemove(s - {y}, f, x);
      SetSumRemove(s - {x}, f, y);
      assert s - {y} - {x} == s - {x} - {y};
    }
  }

  /** A set sum only looks at the values on its own set. */
  lemma {:induction false} SetSumCongruent(s: set<char>, f: map<char, nat>, g: map<char, nat>)
    requires forall l :: l in s ==> Get(f, l) == Get(g, l)
    ensures SetSum(s, f) == SetSum(s, g)
    decreases |s|
  {
    if s != {} {
      SetSumCongruent(s - {Pick(s)}, f, g);
    }
  }

  /** Each position's counts add up to the number of words when every word is full length. */
  lemma {:induction false} PositionCountsSum(words: seq<Word>, i: nat)
    requires i < WordLength
    requires forall w :: w in words ==> |w| == WordLength
    ensures SetSum(PositionCounts(words, i).Keys, PositionCounts(words, i)) == |words|
    decreases |words|
  {
    if |words| > 0 {
      assert words == Init(words) + [Last(words)];
      var m := PositionCounts(Init(words), i);
      PositionCountsSum(Init(words), i);
      var x := Last(words)[i];
      var m' := Bump(m, x);
      assert PositionCounts(words, i) == m';
      SetSumRemove(m'.Keys, m', x);
      if x in m {
        SetSumRemove(m.Keys, m, x);
        assert m'.Keys - {x} == m.Keys - {x};
      } else {
        assert m'.Keys - {x} == m.Keys;
      }
      SetSumCongruent(m'.Keys - {x}, m', m);
    }
  }

  /** Sum of `freq.get(letter, 0)`, each distinct letter of `w` taken once. */
  function SumUnique(w: Word, freq: map<char, nat>): nat
    decreases |w|
  {
    if |w| == 0 then 0
    else SumUnique(Init(w), freq) + (if Last(w) in Init(w) then 0 else Get(freq, Last(w)))
  }

  lemma {:induction false} SumUniqueIsSetSum(w: Word, freq: map<char, nat>)
    ensures SumUnique(w, freq) == SetSum(LetterSet(w), freq)
    decreases |w|
  {
    if |w| > 0 {
      var x := Last(w);
      SumUniqueIsSetSum(Init(w), freq);
      assert w == Init(w) + [x];
      assert LetterSet(w) == LetterSet(Init(w)) + {x};
      if x !in Init(w) {
        SetSumRemove(LetterSet(w), freq, x);
        assert LetterSet(w) - {x} == LetterSet(Init(w));
      } else {
        assert LetterSet(w) == LetterSet(Init(w));
      }
    }
  }

  /** `score_word(word, basis)` */
  function ScoreWord(word: Word, basis: seq<Word>): nat
  {
    SumUnique(Upper(word), Frequencies(basis))
  }

  /** The score is the sum, over the distinct letters of the upper-cased word, of the
      number of basis words containing that letter. */
  lemma ScoreIsPresenceSum(word: Word, basis: seq<Word>)
    ensures ScoreWord(word, basis) == SetSum(LetterSet(Upper(word)), Frequencies(basis))
    ensures forall l :: Get(Frequencies(basis), l) == PresenceCount(basis, l)
  {
    SumUniqueIsSetSum(Upper(word), Frequencies(basis));
  }

  /** Two words with the same letters score the same, whatever the order and repetition. */
  lemma ScoreDependsOnLettersOnly(w1: Word, w2: Word, basis: seq<Word>)
    requires LetterSet(Upper(w1)) == LetterSet(Upper(w2))
    ensures ScoreWord(w1, basis) == ScoreWord(w2, basis)
  {
    ScoreIsPresenceSum(w1, basis);
    ScoreIsPresenceSum(w2, basis);
  }

  /** A set sum of values that are each at most `b` is at most `|s| * b`. */
  lemma {:induction false} SetSumBound(s: set<char>, f: map<char, nat>, b: nat)
    requires forall l :: Get(f, l) <= b
    ensures SetSum(s, f) <= |s| * b
    decreases |s|
  {
    if s != {} {
      var x := Pick(s);
      var k := |s - {x}|;
      SetSumBound(s - {x}, f, b);
      assert k + 1 == |s|;
      assert SetSum(s, f) <= b + k * b;
      assert b + k * b == (k + 1) * b;
    }
  }

  /** A word scores at most (number of distinct letters) x (basis size). */
  lemma ScoreBound(word: Word, basis: seq<Word>)
    ensures ScoreWord(word, basis) <= |LetterSet(Upper(word))| * |basis|
  {
    ScoreIsPresenceSum(word, basis);
    SetSumBound(LetterSet(Upper(word)), Frequencies(basis), |basis|);
  }
}
