/** Words that follow one another in a text. */
module Phrases {
  import opened InvertedIndex

  /** The phrase stands in the text, word for word, from an index on. */
  ghost predicate OccursAt(text: seq<Term>, phrase: seq<Term>, k: nat) {
    forall i {:trigger phrase[i]} :: 0 <= i < |phrase| ==> IsWord(text, k + i, phrase[i])
  }

  /** The n-th word of the text. */
  predicate IsWord(text: seq<Term>, n: nat, word: Term) {
    n < |text| && text[n] == word
  }

  /** The text contains the words of a nonempty phrase one after another. */
  ghost predicate InSequence(text: seq<Term>, phrase: seq<Term>) {
    phrase != [] && exists k: nat :: OccursAt(text, phrase, k)
  }

  lemma WordOccurs(text: seq<Term>, phrase: seq<Term>, k: nat, i: nat)
    requires OccursAt(text, phrase, k) && i < |phrase|
    ensures k + i < |text| && text[k + i] == phrase[i]
  {
    assert phrase[i] in phrase;
  }

  /** That is, the phrase can be cut out of the text. */
  lemma InSequenceSplits(text: seq<Term>, phrase: seq<Term>)
    ensures InSequence(text, phrase) <==> phrase != [] && exists before, after :: text == before + phrase + after
  {
    if InSequence(text, phrase) {
      var k: nat :| OccursAt(text, phrase, k);
      CutOut(text, phrase, k);
    }
    if before, after :| text == before + phrase + after {
      assert OccursAt(text, phrase, |before|);
    }
  }

  lemma CutOut(text: seq<Term>, phrase: seq<Term>, k: nat)
    requires OccursAt(text, phrase, k) && phrase != []
    ensures k + |phrase| <= |text| && text == text[..k] + phrase + text[k + |phrase|..]
  {
    WordOccurs(text, phrase, k, |phrase| - 1);
    forall i | 0 <= i < |phrase| ensures text[k..k + |phrase|][i] == phrase[i] {
      WordOccurs(text, phrase, k, i);
    }
    assert text[k..k + |phrase|] == phrase;
  }
}
