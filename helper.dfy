/** The helper object: the universe of words and the live candidate list that feedback
    shrinks. */
module Helper {
  import opened Words
  import opened Feedback
  import opened Filter

  class WordleHelper {
    /** `all_words`: the loaded universe; the source never reassigns it. */
    const allWords: seq<Word>
    /** `possible_words`: the words still consistent with the feedback so far. */
    var possibleWords: seq<Word>

    /** Every word of the universe has five letters, and the candidates are the universe
        with some words left out, in universe order. */
    ghost predicate Valid()
      reads this
    {
      && (forall w :: w in allWords ==> |w| == WordLength)
      && IsSubsequence(possibleWords, allWords)
      && (forall w :: w in possibleWords ==> w in allWords)
    }

    /** `__init__(word_list)` */
    constructor (wordList: seq<string>)
      ensures Valid()
      ensures allWords == LoadWords(wordList)
      ensures possibleWords == allWords
    {
      allWords := LoadWords(wordList);
      possibleWords := LoadWords(wordList);
      new;
      SubsequenceReflexive(allWords);
    }

    /** `reset()` */
    method Reset()
      requires Valid()
      modifies this
      ensures Valid()
      ensures possibleWords == allWords
    {
      possibleWords := allWords;
      SubsequenceReflexive(allWords);
    }

    /** `filter_words(guess, feedback)`: gathers the constraints of the feedback, keeps the
        candidates that satisfy them in order, and stores and returns that list. The
        guess itself is upper-cased by the source and then never used. */
    method FilterWords(guess: string, feedback: Feedback) returns (filtered: seq<Word>)
      requires Valid()
      requires |feedback| <= WordLength
      modifies this
      ensures Valid()
      ensures possibleWords == Surviving(old(possibleWords), Extract(feedback))
      ensures filtered == possibleWords
    {
      var c := ExtractConstraints(feedback);
      ExtractWellFormed(feedback);
      var words := possibleWords;
      filtered := [];
      for j := 0 to |words|
        invariant filtered == Surviving(words[..j], c)
      {
        assert Init(words[..j + 1]) == words[..j];
        var word := words[j];
        assert word in allWords;
        var valid := Matches(word, c);
        if valid {
          filtered := filtered + [word];
        }
      }
      assert words[..|words|] == words;
      SurvivingIsSubsequence(words, c);
      SubsequenceTransitive(filtered, words, allWords);
      SubsequenceProperties(filtered, allWords);
      possibleWords := filtered;
    }
  }
}
