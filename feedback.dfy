/** The feedback interpreter: one guess's per-letter colours become the three groups of
    constraints (green positions, yellow letters with their forbidden positions, gray
    letters) that the candidate filter applies. */
module Feedback {
  import opened Words

  /** The colour of one feedback entry. The source compares colour strings; a string
      other than the three it knows falls through every branch and is ignored. */
  datatype Color = Green | Yellow | Gray | Unrecognized

  /** One `(letter, color)` feedback pair. */
  datatype Mark = Mark(letter: char, color: Color)

  type Feedback = seq<Mark>

  /** The constraint groups built by the feedback loop:
      green: position -> letter; yellow: letters that must occur;
      notAt: yellow letter -> positions it may not occupy; gray: letters that may not occur. */
  datatype Constraints = Constraints(
    green: map<nat, char>,
    yellow: set<char>,
    notAt: map<char, set<nat>>,
    gray: set<char>)

  const NoConstraints := Constraints(map[], {}, map[], {})

  /** The effect of the feedback entry at position `i` on the constraints gathered from
      the entries before it. A gray letter is forbidden only when no EARLIER entry has
      already recorded it as yellow or as a green value. */
  function Record(c: Constraints, i: nat, m: Mark): Constraints
  {
    match m.color
    case Green => c.(green := c.green[i := m.letter])
    case Yellow =>
      var seen := if m.letter in c.notAt then c.notAt[m.letter] else {};
      c.(yellow := c.yellow + {m.letter}, notAt := c.notAt[m.letter := seen + {i}])
    case Gray =>
      if m.letter !in c.yellow && m.letter !in c.green.Values
      then c.(gray := c.gray + {m.letter})
      else c
    case Unrecognized => c
  }

  /** The constraints of a whole feedback sequence, entries taken left to right. */
  function Extract(fb: Feedback): Constraints
    decreases |fb|
  {
    if |fb| == 0 then NoConstraints
    else Record(Extract(Init(fb)), |fb| - 1, Last(fb))
  }

  /** Some entry before position `i` marks `l` green or yellow. */
  predicate ConfirmedBefore(fb: Feedback, l: char, i: int)
    requires i <= |fb|
  {
    exists j :: 0 <= j < i && fb[j].letter == l && (fb[j].color == Green || fb[j].color == Yellow)
  }

  /** The loop at the head of `filter_words` that gathers the constraint groups. */
  method ExtractConstraints(feedback: Feedback) returns (c: Constraints)
    ensures c == Extract(feedback)
  {
    var green: map<nat, char> := map[];
    var yellow: set<char> := {};
    var notAt: map<char, set<nat>> := map[];
    var gray: set<char> := {};
    for i := 0 to |feedback|
      invariant Constraints(green, yellow, notAt, gray) == Extract(feedback[..i])
    {
      assert Init(feedback[..i + 1]) == feedback[..i];
      var letter, color := feedback[i].letter, feedback[i].color;
      if color == Green {
        green := green[i := letter];
      } else if color == Yellow {
        yellow := yellow + {letter};
        if letter !in notAt {
          notAt := notAt[letter := {}];
        }
        notAt := notAt[letter := notAt[letter] + {i}];
      } else if color == Gray {
        if letter !in yellow && letter !in green.Values {
          gray := gray + {letter};
        }
      }
    }
    assert feedback[..|feedback|] == feedback;
    c := Constraints(green, yellow, notAt, gray);
  }

  /** Green: exactly the green positions, each mapped to its own letter. */
  lemma {:induction false} ExtractGreen(fb: Feedback)
    ensures forall k: nat :: k in Extract(fb).green <==> k < |fb| && fb[k].color == Green
    ensures forall k: nat :: k in Extract(fb).green ==> Extract(fb).green[k] == fb[k].letter
    decreases |fb|
  {
    if |fb| > 0 {
      ExtractGreen(Init(fb));
    }
  }

  /** The positions at which `l` is marked yellow. */
  function YellowPositions(fb: Feedback, l: char): set<nat>
  {
    set p: nat | p < |fb| && fb[p] == Mark(l, Yellow)
  }

  lemma {:induction false} ExtractYellowLetters(fb: Feedback)
    ensures forall l :: l in Extract(fb).yellow <==>
      exists i :: 0 <= i < |fb| && fb[i] == Mark(l, Yellow)
    decreases |fb|
  {
    if |fb| > 0 {
      var n := |fb| - 1;
      ExtractYellowLetters(Init(fb));
      assert forall i :: 0 <= i < n ==> Init(fb)[i] == fb[i];
      if fb[n].color == Yellow {
        assert fb[n] == Mark(fb[n].letter, Yellow);
      }
    }
  }

  lemma {:induction false} ExtractNotAtKeys(fb: Feedback)
    ensures Extract(fb).notAt.Keys == Extract(fb).yellow
    decreases |fb|
  {
    if |fb| > 0 {
      ExtractNotAtKeys(Init(fb));
    }
  }

  /** Marking `l` yellow at the last position adds that position to its yellow positions. */
  lemma YellowPositionsStep(fb: Feedback, l: char)
    requires |fb| > 0
    ensures YellowPositions(fb, l) ==
            YellowPositions(Init(fb), l) + (if Last(fb) == Mark(l, Yellow) then {|fb| - 1} else {})
  {
    assert forall i :: 0 <= i < |fb| - 1 ==> Init(fb)[i] == fb[i];
  }

  lemma {:induction false} ExtractNotAtPositions(fb: Feedback)
    ensures forall l :: l in Extract(fb).notAt ==> Extract(fb).notAt[l] == YellowPositions(fb, l)
    decreases |fb|
  {
    if |fb| > 0 {
      var pre := Init(fb);
      ExtractNotAtPositions(pre);
      ExtractNotAtKeys(pre);
      ExtractYellowLetters(pre);
      forall l | l in Extract(fb).notAt
        ensures Extract(fb).notAt[l] == YellowPositions(fb, l)
      {
        YellowPositionsStep(fb, l);
      }
    }
  }

  /** Yellow: a letter is required exactly when some entry marks it yellow, and its
      forbidden positions are all the positions where it is marked yellow. */
  lemma ExtractYellow(fb: Feedback)
    ensures forall l :: l in Extract(fb).yellow <==>
      exists i :: 0 <= i < |fb| && fb[i] == Mark(l, Yellow)
    ensures Extract(fb).notAt.Keys == Extract(fb).yellow
    ensures forall l :: l in Extract(fb).notAt ==> Extract(fb).notAt[l] == YellowPositions(fb, l)
  {
    ExtractYellowLetters(fb);
    ExtractNotAtKeys(fb);
    ExtractNotAtPositions(fb);
  }

  /** Before the last entry, the prefix and the whole list agree on what is confirmed. */
  lemma ConfirmedPrefix(fb: Feedback)
    requires |fb| > 0
    ensures forall l, i :: 0 <= i < |fb| ==> (ConfirmedBefore(Init(fb), l, i) <==> ConfirmedBefore(fb, l, i))
  {
    assert forall i :: 0 <= i < |fb| - 1 ==> Init(fb)[i] == fb[i];
  }

  /** A letter is already yellow or a green value exactly when some entry before the last
      confirmed it. */
  lemma ConfirmedByRecorded(fb: Feedback, l: char)
    requires |fb| > 0
    ensures var c := Extract(Init(fb));
      l in c.yellow || l in c.green.Values <==> ConfirmedBefore(fb, l, |fb| - 1)
  {
    var n := |fb| - 1;
    var pre := Init(fb);
    var c := Extract(pre);
    ExtractGreen(pre);
    ExtractYellowLetters(pre);
    assert forall i :: 0 <= i < n ==> pre[i] == fb[i];
    if ConfirmedBefore(fb, l, n) {
      var j :| 0 <= j < n && fb[j].letter == l && (fb[j].color == Green || fb[j].color == Yellow);
      if fb[j].color == Green {
        assert j in c.green && c.green[j] == l;
      } else {
        assert pre[j] == Mark(l, Yellow);
      }
    }
    if l in c.green.Values {
      var k :| k in c.green && c.green[k] == l;
      assert fb[k].letter == l && fb[k].color == Green;
    }
  }

  /** Gray: a letter is forbidden exactly when some entry marks it gray and no entry
      BEFORE that one marks it green or yellow. */
  lemma {:induction false} ExtractGray(fb: Feedback)
    ensures forall l :: l in Extract(fb).gray <==>
      exists i :: 0 <= i < |fb| && fb[i] == Mark(l, Gray) && !ConfirmedBefore(fb, l, i)
    decreases |fb|
  {
    if |fb| > 0 {
      var n := |fb| - 1;
      var pre := Init(fb);
      ExtractGray(pre);
      ConfirmedPrefix(fb);
      assert forall i :: 0 <= i < n ==> pre[i] == fb[i];
      var m := fb[n];
      if m.color == Gray {
        ConfirmedByRecorded(fb, m.letter);
        assert fb[n] == Mark(m.letter, Gray);
      }
    }
  }

  /** All recorded positions lie inside a word when the feedback is no longer than one. */
  predicate WellFormed(c: Constraints)
  {
    (forall p :: p in c.green ==> p < WordLength) &&
    (forall l, p :: l in c.notAt && p in c.notAt[l] ==> p < WordLength)
  }

  lemma ExtractWellFormed(fb: Feedback)
    requires |fb| <= WordLength
    ensures WellFormed(Extract(fb))
  {
    ExtractGreen(fb);
    ExtractYellow(fb);
  }
}
