/**
  How text becomes terms with positions (src/engine/termgenerator.cpp, src/engine/document.cpp):
  the words of all texts, in order, numbered from 1.
 */
module TermGenerators {
  import opened Phrases
  import opened InvertedIndex
  import opened IdUtils
  import opened Transactions

  function PositionsFor(terms: TermMap, word: Term): seq<nat> {
    if word in terms then terms[word] else []
  }

  /** A term's positions are the places of that word in the text, in order. */
  ghost predicate Places(text: seq<Term>, word: Term, positions: seq<nat>) {
    Nondecreasing(positions) && forall n :: n in positions <==> 1 <= n <= |text| && text[n - 1] == word
  }

  ghost predicate Describes(terms: TermMap, text: seq<Term>) {
    forall word {:trigger PositionsFor(terms, word)} ::
      Places(text, word, PositionsFor(terms, word)) && (word in terms ==> terms[word] != [])
  }

  class TermGenerator {
    var terms: TermMap
    var position: nat
    /** All words so far. */
    ghost var text: seq<Term>

    ghost predicate Valid()
      reads this
    {
      Describes(terms, text) && position == |text| + 1
    }

    constructor ()
      ensures Valid() && text == []
    {
      terms, position, text := map[], 1, [];
    }

    method IndexText(words: seq<Term>)
      requires Valid()
      modifies this
      ensures Valid() && text == old(text) + words
    {
      for i := 0 to |words|
        invariant Valid() && text == old(text) + words[..i]
      {
        WordDescribed(terms, text, words[i]);
        assert words[..i + 1] == words[..i] + [words[i]];
        terms := terms[words[i] := PositionsFor(terms, words[i]) + [position]];
        position := position + 1;
        text := text + [words[i]];
      }
      assert words[..|words|] == words;
    }
  }

  lemma WordDescribed(terms: TermMap, text: seq<Term>, word: Term)
    requires Describes(terms, text)
    ensures Describes(terms[word := PositionsFor(terms, word) + [|text| + 1]], text + [word])
  {
    var terms', text' := terms[word := PositionsFor(terms, word) + [|text| + 1]], text + [word];
    forall w
      ensures Places(text', w, PositionsFor(terms', w)) && (w in terms' ==> terms'[w] != [])
    {
      assert Places(text, w, PositionsFor(terms, w)) && (w in terms ==> terms[w] != []);
      WordPlaced(text, word, w, PositionsFor(terms, w));
    }
  }

  lemma WordPlaced(text: seq<Term>, word: Term, w: Term, positions: seq<nat>)
    requires Places(text, w, positions)
    ensures Places(text + [word], w, if w == word then positions + [|text| + 1] else positions)
  {
    forall i | 0 <= i < |positions| ensures positions[i] <= |text| {
      assert positions[i] in positions;
    }
  }

  /** Terms follow one another in the index exactly if the words do in the text. */
  lemma PhraseIsInText(terms: TermMap, text: seq<Term>, phrase: seq<Term>)
    requires Describes(terms, text) && phrase != []
    ensures HasPhrase(terms, phrase) <==> InSequence(text, phrase)
  {
    if n: nat :| HasPhraseAt(terms, phrase, n) {
      assert phrase[0] in terms && n + 0 in terms[phrase[0]];
      TermAtPlace(terms, text, phrase[0], n);
      forall i {:trigger phrase[i]} | 0 <= i < |phrase| ensures IsWord(text, n - 1 + i, phrase[i]) {
        assert phrase[i] in terms && n + i in terms[phrase[i]];
        TermAtPlace(terms, text, phrase[i], n + i);
      }
      assert OccursAt(text, phrase, n - 1);
    }
    if InSequence(text, phrase) {
      var k: nat :| OccursAt(text, phrase, k);
      forall i {:trigger phrase[i]} | 0 <= i < |phrase| ensures phrase[i] in terms && k + 1 + i in terms[phrase[i]] {
        WordOccurs(text, phrase, k, i);
        TermAtPlace(terms, text, phrase[i], k + 1 + i);
      }
      assert HasPhraseAt(terms, phrase, k + 1);
    }
  }

  lemma TermAtPlace(terms: TermMap, text: seq<Term>, word: Term, n: nat)
    requires Describes(terms, text)
    ensures word in terms && n in terms[word] <==> 1 <= n <= |text| && text[n - 1] == word
  {
    var positions := PositionsFor(terms, word);
    assert Places(text, word, positions);
    assert n in positions <==> 1 <= n <= |text| && text[n - 1] == word;
    assert word !in terms ==> positions == [];
  }

  /** From texts to an answer: a document that was indexed from them has a phrase exactly if they do. */
  method IndexAndAsk(texts: seq<seq<Term>>, ghost phrase: seq<Term>) returns (terms: TermMap, ghost text: seq<Term>)
    requires phrase != []
    ensures text == Joined(texts) && Describes(terms, text)
    ensures HasPhrase(terms, phrase) <==> exists before, after :: text == before + phrase + after
  {
    var generator := new TermGenerator();
    for i := 0 to |texts|
      invariant generator.Valid() && generator.text == Joined(texts[..i]) && fresh(generator)
    {
      generator.IndexText(texts[i]);
      assert texts[..i + 1][..i] == texts[..i];
    }
    assert texts[..|texts|] == texts;
    terms, text := generator.terms, generator.text;
    PhraseIsInText(terms, text, phrase);
    InSequenceSplits(text, phrase);
  }

  function Joined(texts: seq<seq<Term>>): seq<Term> {
    if texts == [] then [] else Joined(texts[..|texts| - 1]) + texts[|texts| - 1]
  }
}
