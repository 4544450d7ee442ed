/** The candidate filter: which words satisfy a set of constraints, and the stable filter
    that keeps them in their original order. */
module Filter {
  import opened Words
  import opened Feedback

  /** Every green position holds its letter. */
  predicate GreenOk(w: Word, c: Constraints)
  {
    forall p :: p in c.green ==> p < |w| && w[p] == c.green[p]
  }

  /** A yellow letter occurs in the word and at none of its forbidden positions. */
  predicate YellowLetterOk(w: Word, c: Constraints, l: char)
  {
    l in w && (l in c.notAt ==> forall p :: p in c.notAt[l] ==> p < |w| && w[p] != l)
  }

  predicate YellowOk(w: Word, c: Constraints)
  {
    forall l :: l in c.yellow ==> YellowLetterOk(w, c, l)
  }

  /** No gray letter occurs in the word. */
  predicate GrayOk(w: Word, c: Constraints)
  {
    forall l :: l in c.gray ==> l !in w
  }

  /** The survival test that `filter_words` applies to each candidate. */
  predicate Satisfies(w: Word, c: Constraints)
  {
    GreenOk(w, c) && YellowOk(w, c) && GrayOk(w, c)
  }

  /** The per-word check of `filter_words`: the green loop, the yellow loop (whose inner
      `break` leaves only the loop over positions) and the gray loop. */
  method Matches(word: Word, c: Constraints) returns (valid: bool)
    requires |word| == WordLength && WellFormed(c)
    ensures valid == Satisfies(word, c)
  {
    valid := true;

    var greens := c.green.Keys;
    while greens != {}
      invariant greens <= c.green.Keys
      invariant forall p :: p in c.green.Keys - greens ==> word[p] == c.green[p]
      decreases greens
    {
      var p :| p in greens;
      if word[p] != c.green[p] {
        valid := false;
        break;
      }
      greens := greens - {p};
    }
    if !valid {
      return;
    }

    var yellows := c.yellow;
    while yellows != {}
      invariant yellows <= c.yellow
      invariant valid <==> forall l :: l in c.yellow - yellows ==> YellowLetterOk(word, c, l)
      decreases yellows
    {
      var l :| l in yellows;
      if l !in word {
        valid := false;
        break;
      }
      if l in c.notAt {
        var positions := c.notAt[l];
        while positions != {}
          invariant positions <= c.notAt[l]
          invariant valid <==>
            (forall l' :: l' in c.yellow - yellows ==> YellowLetterOk(word, c, l')) &&
            (forall p :: p in c.notAt[l] - positions ==> word[p] != l)
          decreases positions
        {
          var p :| p in positions;
          if word[p] == l {
            valid := false;
            break;
          }
          positions := positions - {p};
        }
      }
      assert c.yellow - (yellows - {l}) == (c.yellow - yellows) + {l};
      yellows := yellows - {l};
    }
    if !valid {
      return;
    }

    var grays := c.gray;
    while grays != {}
      invariant grays <= c.gray
      invariant forall l :: l in c.gray - grays ==> l !in word
      decreases grays
    {
      var l :| l in grays;
      if l in word {
        valid := false;
        break;
      }
      grays := grays - {l};
    }
  }

  /** The words of `ws` that satisfy `c`, in their original order. */
  function Surviving(ws: seq<Word>, c: Constraints): (r: seq<Word>)
    ensures |r| <= |ws|
    ensures forall w :: w in r ==> w in ws && Satisfies(w, c)
    decreases |ws|
  {
    if |ws| == 0 then []
    else
      var rest := Surviving(Init(ws), c);
      assert ws == Init(ws) + [Last(ws)];
      if Satisfies(Last(ws), c) then rest + [Last(ws)] else rest
  }

  /** Each word is tested on its own: filtering a concatenation filters each part, so
      every satisfying copy of a repeated word is kept, in order. */
  lemma {:induction false} SurvivingAppend(a: seq<Word>, b: seq<Word>, c: Constraints)
    ensures Surviving(a + b, c) == Surviving(a, c) + Surviving(b, c)
    decreases |b|
  {
    if |b| == 0 {
      assert a + b == a;
    } else {
      assert Init(a + b) == a + Init(b);
      assert Last(a + b) == Last(b);
      SurvivingAppend(a, Init(b), c);
    }
  }

  /** The filter keeps the order of the words it keeps. */
  lemma {:induction false} SurvivingIsSubsequence(ws: seq<Word>, c: Constraints)
    ensures IsSubsequence(Surviving(ws, c), ws)
    decreases |ws|
  {
    if |ws| > 0 {
      SurvivingIsSubsequence(Init(ws), c);
      var rest := Surviving(Init(ws), c);
      if Satisfies(Last(ws), c) {
        assert Init(rest + [Last(ws)]) == rest;
      }
    }
  }

  /** A word survives exactly when it was a candidate and satisfies the constraints. */
  lemma {:induction false} SurvivingMembers(ws: seq<Word>, c: Constraints, w: Word)
    ensures w in Surviving(ws, c) <==> w in ws && Satisfies(w, c)
    decreases |ws|
  {
    if |ws| > 0 {
      SurvivingMembers(Init(ws), c, w);
      assert ws == Init(ws) + [Last(ws)];
    }
  }

  /** A list whose every word satisfies the constraints passes through unchanged. */
  lemma {:induction false} SurvivingFixpoint(ws: seq<Word>, c: Constraints)
    requires forall w :: w in ws ==> Satisfies(w, c)
    ensures Surviving(ws, c) == ws
    decreases |ws|
  {
    if |ws| > 0 {
      assert ws == Init(ws) + [Last(ws)];
      SurvivingFixpoint(Init(ws), c);
    }
  }

  /** Filtering twice with the same constraints is filtering once. */
  lemma SurvivingIdempotent(ws: seq<Word>, c: Constraints)
    ensures Surviving(Surviving(ws, c), c) == Surviving(ws, c)
  {
    SurvivingFixpoint(Surviving(ws, c), c);
  }

  /** The meaning of one feedback sequence stated on the feedback itself: green entries
      fix their letter, yellow entries demand their letter elsewhere, and a gray entry
      forbids its letter unless an earlier entry confirmed it. */
  predicate ConsistentWith(w: Word, fb: Feedback)
  {
    (forall i :: 0 <= i < |fb| && fb[i].color == Green ==> i < |w| && w[i] == fb[i].letter) &&
    (forall i :: 0 <= i < |fb| && fb[i].color == Yellow ==>
       fb[i].letter in w && i < |w| && w[i] != fb[i].letter) &&
    (forall i :: 0 <= i < |fb| && fb[i].color == Gray && !ConfirmedBefore(fb, fb[i].letter, i) ==>
       fb[i].letter !in w)
  }

  /** Every word satisfying the extracted constraints is consistent with the feedback. */
  lemma SatisfiesExtractSound(w: Word, fb: Feedback)
    requires Satisfies(w, Extract(fb))
    ensures ConsistentWith(w, fb)
  {
    var c := Extract(fb);
    ExtractGreen(fb);
    ExtractYellow(fb);
    ExtractGray(fb);
    forall i | 0 <= i < |fb| && fb[i].color == Yellow
      ensures fb[i].letter in w && i < |w| && w[i] != fb[i].letter
    {
      var l := fb[i].letter;
      assert fb[i] == Mark(l, Yellow);
      assert l in c.yellow && l in c.notAt && i in YellowPositions(fb, l);
      assert YellowLetterOk(w, c, l);
    }
    forall i | 0 <= i < |fb| && fb[i].color == Gray && !ConfirmedBefore(fb, fb[i].letter, i)
      ensures fb[i].letter !in w
    {
      assert fb[i] == Mark(fb[i].letter, Gray);
    }
  }

  /** Every word consistent with the feedback satisfies the extracted constraints. */
  lemma SatisfiesExtractComplete(w: Word, fb: Feedback)
    requires ConsistentWith(w, fb)
    ensures Satisfies(w, Extract(fb))
  {
    var c := Extract(fb);
    ExtractGreen(fb);
    ExtractYellow(fb);
    ExtractGray(fb);
    forall l | l in c.yellow
      ensures YellowLetterOk(w, c, l)
    {
      var i :| 0 <= i < |fb| && fb[i] == Mark(l, Yellow);
      assert fb[i].color == Yellow;
      forall p | p in c.notAt[l]
        ensures p < |w| && w[p] != l
      {
        assert p in YellowPositions(fb, l);
      }
    }
    forall l | l in c.gray
      ensures l !in w
    {
      var i :| 0 <= i < |fb| && fb[i] == Mark(l, Gray) && !ConfirmedBefore(fb, l, i);
      assert fb[i].color == Gray;
    }
  }

  /** The extracted constraints accept exactly the words consistent with the feedback. */
  lemma SatisfiesExtract(w: Word, fb: Feedback)
    ensures Satisfies(w, Extract(fb)) <==> ConsistentWith(w, fb)
  {
    if Satisfies(w, Extract(fb)) {
      SatisfiesExtractSound(w, fb);
    }
    if ConsistentWith(w, fb) {
      SatisfiesExtractComplete(w, fb);
    }
  }

  /** A gray entry that comes BEFORE a green or yellow entry for the same letter still
      forbids that letter, so no word at all survives such feedback. */
  lemma GrayBeforeConfirmEliminatesAll(ws: seq<Word>, fb: Feedback, i: nat, j: nat)
    requires i < j < |fb| && fb[i].letter == fb[j].letter
    requires fb[i].color == Gray && !ConfirmedBefore(fb, fb[i].letter, i)
    requires fb[j].color == Green || fb[j].color == Yellow
    ensures Surviving(ws, Extract(fb)) == []
  {
    var c := Extract(fb);
    if Surviving(ws, c) != [] {
      var w := Surviving(ws, c)[0];
      SatisfiesExtract(w, fb);
      assert false;
    }
  }

  /** Guess GEESE against secret PROSE under standard Wordle marking: the E at position 4
      is green and the two earlier E entries are gray, because PROSE has only one E. The gray entries come first, so E
      is forbidden and the secret itself is filtered out. */
  lemma GeeseAgainstProse()
    ensures var fb := [Mark('G', Gray), Mark('E', Gray), Mark('E', Gray),
                       Mark('S', Green), Mark('E', Green)];
            'E' in Extract(fb).gray && Surviving(["PROSE"], Extract(fb)) == []
  {
    var fb := [Mark('G', Gray), Mark('E', Gray), Mark('E', Gray),
               Mark('S', Green), Mark('E', Green)];
    assert !ConfirmedBefore(fb, 'E', 1);
    GrayBeforeConfirmEliminatesAll(["PROSE"], fb, 1, 4);
    ExtractGray(fb);
    assert fb[1] == Mark('E', Gray);
  }
}
