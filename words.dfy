/** Words, the length-5 filter and upper-casing used when the word list is loaded,
    and the small generic helpers the rest of the model shares. */
module Words {

  datatype Option<+T> = None | Some(value: T)

  datatype Result<+T, +E> = Ok(value: T) | Err(error: E)

  /** Every word the engine keeps has this many letters. */
  const WordLength: nat := 5

  type Word = seq<char>

  function Init<T>(s: seq<T>): seq<T>
    requires |s| > 0
  {
    s[..|s| - 1]
  }

  function Last<T>(s: seq<T>): T
    requires |s| > 0
  {
    s[|s| - 1]
  }

  /** Python's `str.upper`, restricted to ASCII letters. */
  function UpperChar(c: char): (u: char)
    ensures 'a' <= c <= 'z' ==> 'A' <= u <= 'Z' && u as int == c as int - 32
    ensures !('a' <= c <= 'z') ==> u == c
  {
    if 'a' <= c <= 'z' then (c as int - 32) as char else c
  }

  function Upper(w: seq<char>): (u: seq<char>)
    ensures |u| == |w|
    ensures forall i :: 0 <= i < |w| ==> u[i] == UpperChar(w[i])
  {
    seq(|w|, i requires 0 <= i < |w| => UpperChar(w[i]))
  }

  predicate IsUpper(w: seq<char>)
  {
    forall i :: 0 <= i < |w| ==> !('a' <= w[i] <= 'z')
  }

  lemma UpperIsUpper(w: seq<char>)
    ensures IsUpper(Upper(w))
    ensures Upper(Upper(w)) == Upper(w)
  {
  }

  /** `[word.upper() for word in word_list if len(word) == 5]`, built front to back. */
  function LoadWords(wordList: seq<string>): (r: seq<Word>)
    ensures |r| <= |wordList|
    ensures forall w :: w in r ==> |w| == WordLength && IsUpper(w)
    decreases |wordList|
  {
    if |wordList| == 0 then []
    else
      var rest := LoadWords(Init(wordList));
      var w := Last(wordList);
      UpperIsUpper(w);
      if |w| == WordLength then rest + [Upper(w)] else rest
  }

  /** Loading keeps the input order: loading a concatenation concatenates the loads. */
  lemma {:induction false} LoadWordsAppend(a: seq<string>, b: seq<string>)
    ensures LoadWords(a + b) == LoadWords(a) + LoadWords(b)
    decreases |b|
  {
    if |b| == 0 {
      assert a + b == a;
    } else {
      assert Init(a + b) == a + Init(b);
      assert Last(a + b) == Last(b);
      LoadWordsAppend(a, Init(b));
    }
  }

  /** A word is loaded exactly when some input word of length 5 upper-cases to it. */
  lemma {:induction false} LoadWordsMembers(wordList: seq<string>, w: Word)
    ensures w in LoadWords(wordList) <==>
            exists v :: v in wordList && |v| == WordLength && Upper(v) == w
    decreases |wordList|
  {
    if |wordList| > 0 {
      LoadWordsMembers(Init(wordList), w);
      assert wordList == Init(wordList) + [Last(wordList)];
      forall v | v in wordList
        ensures v in Init(wordList) || v == Last(wordList)
      {
      }
    }
  }

  /** `a` is `b` with some elements left out, order kept. */
  predicate IsSubsequence<T(==)>(a: seq<T>, b: seq<T>)
    decreases |b|
  {
    |a| == 0 ||
    (|b| > 0 &&
     ((Last(a) == Last(b) && IsSubsequence(Init(a), Init(b))) || IsSubsequence(a, Init(b))))
  }

  lemma {:induction false} SubsequenceProperties<T>(a: seq<T>, b: seq<T>)
    requires IsSubsequence(a, b)
    ensures |a| <= |b|
    ensures forall x :: x in a ==> x in b
    decreases |b|
  {
    if |a| > 0 {
      assert b == Init(b) + [Last(b)];
      if Last(a) == Last(b) && IsSubsequence(Init(a), Init(b)) {
        SubsequenceProperties(Init(a), Init(b));
        assert a == Init(a) + [Last(a)];
      } else {
        SubsequenceProperties(a, Init(b));
      }
    }
  }

  lemma {:induction false} SubsequenceTransitive<T>(a: seq<T>, b: seq<T>, c: seq<T>)
    requires IsSubsequence(a, b) && IsSubsequence(b, c)
    ensures IsSubsequence(a, c)
    decreases |c|
  {
    SubsequenceProperties(a, b);
    if |a| > 0 {
      if IsSubsequence(b, Init(c)) {
        SubsequenceTransitive(a, b, Init(c));
      } else {
        assert Last(b) == Last(c) && IsSubsequence(Init(b), Init(c));
        if Last(a) == Last(b) && IsSubsequence(Init(a), Init(b)) {
          SubsequenceTransitive(Init(a), Init(b), Init(c));
        } else {
          SubsequenceTransitive(a, Init(b), Init(c));
        }
      }
    }
  }

  lemma {:induction false} SubsequenceReflexive<T>(a: seq<T>)
    ensures IsSubsequence(a, a)
    decreases |a|
  {
    if |a| > 0 {
      SubsequenceReflexive(Init(a));
    }
  }
}
