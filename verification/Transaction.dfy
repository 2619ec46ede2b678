/**
  Queries over a committed database (src/engine/transaction.cpp): each of them finds
  what a scan of the documents would find.
 */
module Transactions {
  import opened Phrases
  import opened IdUtils
  import opened IdTree
  import opened InvertedIndex
  import opened Documents
  import opened Cursors
  import opened PhraseMatch
  import opened PostingIterators
  import opened SearchTree
  import opened PostingDBs

  /** Real ids, and positions in the order in which they were found. */
  ghost predicate ProperIndex(index: Index) {
    0 !in index && forall id, term :: id in index && term in index[id] ==> Nondecreasing(index[id][term])
  }

  /** A commit leaves tables that can be read as they are. */
  lemma CommittedLists(postings: Postings, positions: Positions, index: Index)
    requires Represents(postings, positions, map[], index) && ProperIndex(index)
    ensures StoredLists(postings) && StoredPositions(positions)
    ensures forall term, id :: id in Get(postings, term) <==> term in TermsOf(index, id)
    ensures forall term :: PositionsInvert(index, term, Get(positions, term))
  {
    NothingPending(postings, positions, index);
    forall t | t in postings ensures Ascending(postings[t], IdOf) && 0 !in postings[t] {
      assert IdsInvert(index, t, Get(postings, t));
    }
    forall t | t in positions ensures StoredPositionList(positions[t]) {
      assert PositionsInvert(index, t, Get(positions, t));
    }
  }

  ghost predicate StoredPositionList(list: seq<PositionInfo>) {
    list != [] && Ascending(list, DocIdOf) &&
    forall info :: info in list ==> info.docId > 0 && Nondecreasing(info.positions)
  }

  ghost predicate StoredPositions(positions: Positions) {
    forall t :: t in positions ==> StoredPositionList(positions[t])
  }

  /** The phrase occurs in a document: term i is at position n + i for some n. */
  ghost predicate HasPhraseAt(doc: TermMap, phrase: seq<Term>, n: nat) {
    forall i {:trigger phrase[i]} :: 0 <= i < |phrase| ==> phrase[i] in doc && n + i in doc[phrase[i]]
  }

  ghost predicate HasPhrase(doc: TermMap, phrase: seq<Term>) {
    exists n: nat :: HasPhraseAt(doc, phrase, n)
  }

  /** PositionDB::iter. */
  method PositionIter(positions: Positions, term: Term) returns (it: PostingIterator?)
    requires StoredPositions(positions)
    ensures it == null <==> term !in positions
    ensures it != null ==> it.Valid() && it.kind == Positions && it.cursor == Start && fresh(it.Repr)
    ensures it != null ==> it.Occurrences == ToMap(positions[term])
  {
    if term !in positions {
      return null;
    }
    assert StoredPositionList(positions[term]);
    it := new PostingIterator.OfPositions(positions[term]);
  }

  /** One position iterator per term, unless some term has none. */
  method CollectPositions(positions: Positions, phrase: seq<Term>)
    returns (found: bool, vec: seq<PostingIterator>, ghost repr: set<PostingIterator>, ghost height: nat)
    requires StoredPositions(positions)
    ensures found <==> forall i :: 0 <= i < |phrase| ==> phrase[i] in positions
    ensures found ==> Built(vec, repr, height) && fresh(repr) && OverTerms(positions, phrase, |phrase|, vec)
  {
    vec, repr, height := [], {}, 0;
    for k := 0 to |phrase|
      invariant forall i :: 0 <= i < k ==> phrase[i] in positions
      invariant Built(vec, repr, height) && fresh(repr) && OverTerms(positions, phrase, k, vec)
    {
      var it := PositionIter(positions, phrase[k]);
      if it == null {
        return false, vec, repr, height;
      }
      OverTermsGrows(positions, phrase, k, vec, it);
      vec, repr, height := Push(vec, repr, height, it);
    }
    found := true;
  }

  /** One iterator for each of the first k terms. */
  ghost predicate OverTerms(positions: Positions, phrase: seq<Term>, k: nat, vec: seq<PostingIterator>) {
    |vec| == k <= |phrase| && forall i :: 0 <= i < |vec| ==>
      vec[i].kind == Positions && phrase[i] in positions && vec[i].Occurrences == ToMap(positions[phrase[i]])
  }

  lemma OverTermsGrows(positions: Positions, phrase: seq<Term>, k: nat, vec: seq<PostingIterator>, it: PostingIterator)
    requires k < |phrase| && OverTerms(positions, phrase, k, vec) && phrase[k] in positions
    requires it.kind == Positions && it.Occurrences == ToMap(positions[phrase[k]])
    ensures OverTerms(positions, phrase, k + 1, vec + [it])
  {
  }

  /**
    An EngineQuery of several terms: exactly the documents where the terms follow one
    another.  An empty query gives an iterator that finds nothing.
   */
  method PhraseQuery(positions: Positions, phrase: seq<Term>, ghost postings: Postings, ghost index: Index)
    returns (it: PostingIterator?)
    requires Represents(postings, positions, map[], index) && ProperIndex(index) && |phrase| != 1
    ensures it != null ==> it.Valid() && it.cursor == Start && fresh(it.Repr)
    ensures forall id :: (it != null && id in it.Ids) <==> phrase != [] && HasPhrase(TermsOf(index, id), phrase)
  {
    CommittedLists(postings, positions, index);
    var found, vec;
    ghost var repr, height;
    found, vec, repr, height := CollectPositions(positions, phrase);
    if !found {
      forall id ensures !HasPhrase(TermsOf(index, id), phrase) {
        NoPositionsNoPhrase(positions, phrase, index, id);
      }
      return null;
    }
    it := PostingIterator.MakePhrase(vec, repr, height);
    forall id ensures id in it.Ids <==> phrase != [] && HasPhrase(TermsOf(index, id), phrase) {
      PhraseIsScan(positions, phrase, vec, repr, height, index, id);
    }
  }

  /** A position list has an entry for a document exactly when the document has positions for the term. */
  lemma PositionsAt(positions: Positions, term: Term, index: Index, id: Id)
    requires PositionsInvert(index, term, Get(positions, term))
    ensures id in ToMap(Get(positions, term)) <==> term in TermsOf(index, id) && TermsOf(index, id)[term] != []
    ensures id in ToMap(Get(positions, term)) ==> ToMap(Get(positions, term))[id] == TermsOf(index, id)[term]
  {
    var list := Get(positions, term);
    ToMapHasKeys(list, id);
    if id in ToMap(list) {
      var i :| 0 <= i < |list| && DocIdOf(list[i]) == id;
      ToMapAt(list, i);
      assert list[i] in list;
    }
    if term in TermsOf(index, id) && TermsOf(index, id)[term] != [] {
      assert PositionInfo(id, TermsOf(index, id)[term]) in list;
    }
  }

  lemma NoPositionsNoPhrase(positions: Positions, phrase: seq<Term>, index: Index, id: Id)
    requires forall term :: PositionsInvert(index, term, Get(positions, term))
    requires exists i :: 0 <= i < |phrase| && phrase[i] !in positions
    ensures !HasPhrase(TermsOf(index, id), phrase)
  {
    var i :| 0 <= i < |phrase| && phrase[i] !in positions;
    PositionsAt(positions, phrase[i], index, id);
    assert forall n: nat :: !HasPhraseAt(TermsOf(index, id), phrase, n);
  }

  /** The phrase iterator's notion of a phrase, over the stored lists, is the documents' own. */
  lemma PhraseIsScan(positions: Positions, phrase: seq<Term>, vec: seq<PostingIterator>, repr: set<PostingIterator>,
                     height: nat, index: Index, id: Id)
    requires (forall term :: PositionsInvert(index, term, Get(positions, term))) &&
      OverTerms(positions, phrase, |phrase|, vec) && Team(vec, repr, height)
    ensures (forall i :: 0 <= i < |vec| ==> id in vec[i].Ids) && PhraseOccurs(ListsAt(vec, |vec|, id)) <==>
      HasPhrase(TermsOf(index, id), phrase)
  {
    var doc, lists := TermsOf(index, id), ListsAt(vec, |vec|, id);
    forall i | 0 <= i < |vec|
      ensures id in vec[i].Ids <==> phrase[i] in doc && doc[phrase[i]] != []
      ensures id in vec[i].Ids ==> lists[i] == doc[phrase[i]]
    {
      assert vec[i].Valid();
      assert Get(positions, phrase[i]) == positions[phrase[i]];
      PositionsAt(positions, phrase[i], index, id);
    }
    if n: nat :| HasPhraseAt(doc, phrase, n) {
      forall i | 0 <= i < |vec| ensures id in vec[i].Ids && n + i in lists[i] {
        assert phrase[i] in doc && n + i in doc[phrase[i]];
      }
      assert PhraseAt(lists, n);
    }
    if (forall i :: 0 <= i < |vec| ==> id in vec[i].Ids) && PhraseOccurs(lists) {
      var n: nat :| PhraseAt(lists, n);
      forall i | 0 <= i < |phrase| ensures phrase[i] in doc && n + i in doc[phrase[i]] {
        assert n + i in lists[i];
      }
      assert HasPhraseAt(doc, phrase, n);
    }
  }

  datatype PhraseTerm = PhraseTerm(term: Term, startsWith: bool)

  function TermsIn(subQueries: seq<PhraseTerm>): seq<Term> {
    seq(|subQueries|, i requires 0 <= i < |subQueries| => subQueries[i].term)
  }

  /** What an EngineQuery asks of a document.  A single term need not have positions; only it can be a prefix. */
  ghost predicate Answers(doc: TermMap, subQueries: seq<PhraseTerm>) {
    if |subQueries| == 1 then
      if subQueries[0].startsWith then exists t :: t in doc && subQueries[0].term <= t else subQueries[0].term in doc
    else
      subQueries != [] && HasPhrase(doc, TermsIn(subQueries))
  }

  /** Transaction::postingIterator for an EngineQuery: exactly the documents that answer it. */
  method EngineQuery(postings: Postings, positions: Positions, subQueries: seq<PhraseTerm>, ghost index: Index)
    returns (it: PostingIterator?)
    requires Represents(postings, positions, map[], index) && ProperIndex(index)
    ensures it != null ==> it.Valid() && it.cursor == Start && fresh(it.Repr)
    ensures forall id :: (it != null && id in it.Ids) <==> Answers(TermsOf(index, id), subQueries)
  {
    CommittedLists(postings, positions, index);
    if |subQueries| == 1 {
      it := TermQuery(postings, subQueries[0], index);
    } else {
      it := PhraseQuery(positions, TermsIn(subQueries), postings, index);
    }
  }

  /** A single term, whole or as a prefix. */
  method TermQuery(postings: Postings, sq: PhraseTerm, ghost index: Index) returns (it: PostingIterator?)
    requires StoredLists(postings) && forall term, id :: id in Get(postings, term) <==> term in TermsOf(index, id)
    ensures it != null ==> it.Valid() && it.cursor == Start && fresh(it.Repr)
    ensures forall id :: (it != null && id in it.Ids) <==> Answers(TermsOf(index, id), [sq])
  {
    if !sq.startsWith {
      it := TermIter(postings, sq.term);
      assert forall id :: id in Get(postings, sq.term) <==> sq.term in TermsOf(index, id);
    } else {
      it := PrefixIter(postings, sq.term, t => true);
      forall id ensures (it != null && id in it.Ids) <==> exists t :: t in TermsOf(index, id) && sq.term <= t {
        PrefixIsScan(postings, sq.term, t => true, index, id);
      }
    }
  }

  lemma PrefixIsScan(postings: Postings, prefix: Term, validate: Term -> bool, index: Index, id: Id)
    requires forall term, id :: id in Get(postings, term) <==> term in TermsOf(index, id)
    ensures (exists t :: t in postings && Matches(prefix, validate, t) && id in postings[t]) <==>
      exists t :: t in TermsOf(index, id) && Matches(prefix, validate, t)
  {
    if t :| t in TermsOf(index, id) && Matches(prefix, validate, t) {
      assert id in Get(postings, t);
    }
    if t :| t in postings && Matches(prefix, validate, t) && id in postings[t] {
      assert id in Get(postings, t);
    }
  }

  /** The prefix that file name terms carry. */
  const FILE_NAME_PREFIX: Term := [70]

  function FileNameTerm(word: Term): Term {
    FILE_NAME_PREFIX + word
  }

  function NameOfDocument(files: Files, id: Id): string {
    if id in files then files[id].name else ""
  }

  /** The file name terms are the words of the stored name, and only they carry the prefix. */
  ghost predicate FileNamesIndexed(docs: Docs, files: Files, termList: string -> seq<Term>) {
    forall id, word :: FileNameTerm(word) in TermsOf(Inversion(docs), id) <==>
      id in docs && docs[id].fileName != map[] && word in termList(NameOfDocument(files, id))
  }

  /** Whether the last word may be the beginning of one: only if it has more than two bytes. */
  predicate Expands(query: seq<Term>, expandLast: bool) {
    expandLast && query != [] && |query[|query| - 1]| > 2
  }

  /** What a scan of all documents with file name terms would select. */
  ghost predicate NameAnswers(docs: Docs, files: Files, termList: string -> seq<Term>, query: seq<Term>,
                              expandLast: bool, id: Id) {
    id in docs && docs[id].fileName != map[] &&
    var words := termList(NameOfDocument(files, id));
    if |query| == 1 && Expands(query, expandLast) then exists w :: w in words && query[0] <= w
    else InSequence(words, query)
  }

  /** std::set_intersection on two ascending lists. */
  function SetIntersection(a: seq<Id>, b: seq<Id>): (r: seq<Id>)
    requires Ascending(a, IdOf) && Ascending(b, IdOf)
    ensures Ascending(r, IdOf)
    ensures forall x :: x in r <==> x in a && x in b
    decreases |a| + |b|
  {
    if a == [] || b == [] then []
    else if a[0] < b[0] then
      assert forall j :: 0 <= j < |b| ==> b[j] >= b[0];
      SetIntersection(a[1..], b)
    else if b[0] < a[0] then
      assert forall j :: 0 <= j < |a| ==> a[j] >= a[0];
      SetIntersection(a, b[1..])
    else
      var r := SetIntersection(a[1..], b[1..]);
      assert forall i :: 0 <= i < |r| ==> r[i] in a[1..];
      [a[0]] + r
  }

  /** std::ranges::search, which finds nothing if there is nothing to look for. */
  method Search(words: seq<Term>, query: seq<Term>) returns (found: bool)
    ensures found <==> InSequence(words, query)
  {
    if query == [] {
      return false;
    }
    for k := 0 to |words|
      invariant forall j :: 0 <= j < k ==> !OccursAt(words, query, j)
    {
      var matches := MatchesAt(words, query, k);
      if matches {
        return true;
      }
    }
    forall k: nat ensures !OccursAt(words, query, k) {
      assert query[0] in query && (OccursAt(words, query, k) ==> k + 0 < |words|);
    }
    return false;
  }

  method MatchesAt(words: seq<Term>, query: seq<Term>, k: nat) returns (matches: bool)
    ensures matches <==> OccursAt(words, query, k)
  {
    for i := 0 to |query|
      invariant forall j {:trigger query[j]} :: 0 <= j < i ==> IsWord(words, k + j, query[j])
    {
      if !IsWord(words, k + i, query[i]) {
        return false;
      }
    }
    return true;
  }

  /** std::remove_if and erase: the documents whose stored names contain the query, in order. */
  method KeepMatches(list: seq<Id>, files: Files, termList: string -> seq<Term>, query: seq<Term>)
    returns (kept: seq<Id>)
    requires Ascending(list, IdOf)
    ensures Ascending(kept, IdOf)
    ensures forall x :: x in kept <==> x in list && InSequence(termList(NameOfDocument(files, x)), query)
  {
    kept := [];
    for i := 0 to |list|
      invariant Ascending(kept, IdOf) && forall a, j :: 0 <= a < |kept| && i <= j < |list| ==> kept[a] < list[j]
      invariant forall x :: x in kept <==> x in list[..i] && InSequence(termList(NameOfDocument(files, x)), query)
    {
      var matches := Search(termList(NameOfDocument(files, list[i])), query);
      if matches {
        kept := kept + [list[i]];
      }
      assert list[..i + 1] == list[..i] + [list[i]];
    }
    assert list[..|list|] == list;
  }

  /** The document is in the posting lists of the first n words. */
  ghost predicate HasWords(postings: Postings, words: seq<Term>, n: nat, id: Id) {
    n <= |words| && forall i :: 0 <= i < n ==> id in Get(postings, FileNameTerm(words[i]))
  }

  /** The documents that have all of the words in their names. */
  method IntersectWords(postings: Postings, words: seq<Term>) returns (out: seq<Id>)
    requires StoredLists(postings) && words != []
    ensures Ascending(out, IdOf) && 0 !in out
    ensures forall id :: id in out <==> HasWords(postings, words, |words|, id)
  {
    out := Get(postings, FileNameTerm(words[0]));
    for i := 1 to |words|
      invariant Ascending(out, IdOf) && 0 !in out
      invariant forall id :: id in out <==> HasWords(postings, words, i, id)
    {
      if out == [] {
        assert forall id :: HasWords(postings, words, |words|, id) ==> HasWords(postings, words, i, id);
        return;
      }
      var vec2 := Get(postings, FileNameTerm(words[i]));
      out := SetIntersection(out, vec2);
    }
  }

  /**
    Transaction::postingIterator for a FilenameQuery: posting lists narrow the search
    down, the stored names decide, and the result is that of a full scan.
   */
  method FilenameQuery(postings: Postings, files: Files, termList: string -> seq<Term>, query: seq<Term>,
                       expandLast: bool, ghost positions: Positions, ghost docs: Docs) returns (it: PostingIterator?)
    requires Represents(postings, positions, map[], Inversion(docs)) && ProperIndex(Inversion(docs))
    requires FileNamesIndexed(docs, files, termList)
    ensures it != null ==> it.Valid() && it.cursor == Start && fresh(it.Repr)
    ensures forall id ::
      (it != null && id in it.Ids) <==> query != [] && NameAnswers(docs, files, termList, query, expandLast, id)
  {
    CommittedLists(postings, positions, Inversion(docs));
    if query == [] {
      return null;
    }
    var expands := Expands(query, expandLast);
    if |query| == 1 {
      it := TermQuery(postings, PhraseTerm(FileNameTerm(query[0]), expands), Inversion(docs));
      forall id
        ensures Answers(TermsOf(Inversion(docs), id), [PhraseTerm(FileNameTerm(query[0]), expands)]) <==>
          NameAnswers(docs, files, termList, query, expandLast, id)
      {
        OneWord(docs, files, termList, query[0], expandLast, id);
        assert query == [query[0]];
      }
    } else {
      it := WordsQuery(postings, files, termList, query, docs);
      assert forall id ::
        NameAnswers(docs, files, termList, query, expandLast, id) <==>
          NameAnswers(docs, files, termList, query, false, id);
    }
  }

  lemma OneWord(docs: Docs, files: Files, termList: string -> seq<Term>, word: Term, expandLast: bool, id: Id)
    requires FileNamesIndexed(docs, files, termList)
    ensures Answers(TermsOf(Inversion(docs), id), [PhraseTerm(FileNameTerm(word), Expands([word], expandLast))]) <==>
      NameAnswers(docs, files, termList, [word], expandLast, id)
  {
    var words, terms := termList(NameOfDocument(files, id)), TermsOf(Inversion(docs), id);
    if Expands([word], expandLast) {
      if w :| w in words && word <= w && FileNameTerm(w) in terms {
        assert FileNameTerm(word) <= FileNameTerm(w);
      }
      if t :| t in terms && FileNameTerm(word) <= t {
        assert t == FileNameTerm(t[1..]) && word <= t[1..];
      }
    } else {
      OneWordInSequence(words, word);
    }
  }

  lemma OneWordInSequence(words: seq<Term>, word: Term)
    ensures InSequence(words, [word]) <==> word in words
  {
    if word in words {
      var k: nat :| k < |words| && words[k] == word;
      assert OccursAt(words, [word], k);
    }
    if InSequence(words, [word]) {
      var k: nat :| OccursAt(words, [word], k);
      WordOccurs(words, [word], k, 0);
    }
  }

  /** Several words: the intersection of the posting lists, then the names themselves. */
  method WordsQuery(postings: Postings, files: Files, termList: string -> seq<Term>, query: seq<Term>, ghost docs: Docs)
    returns (it: PostingIterator?)
    requires StoredLists(postings) && FileNamesIndexed(docs, files, termList) && |query| > 1
    requires forall term, id :: id in Get(postings, term) <==> term in TermsOf(Inversion(docs), id)
    ensures it != null ==> it.Valid() && it.cursor == Start && fresh(it.Repr)
    ensures forall id :: (it != null && id in it.Ids) <==> NameAnswers(docs, files, termList, query, false, id)
  {
    var out := IntersectWords(postings, query);
    forall id
      ensures id in out && InSequence(termList(NameOfDocument(files, id)), query) <==>
        NameAnswers(docs, files, termList, query, false, id)
    {
      NarrowingLosesNothing(postings, files, termList, query, docs, id);
    }
    if out == [] {
      return null;
    }
    var kept := KeepMatches(out, files, termList, query);
    it := new PostingIterator.OfVector(kept);
  }

  lemma NarrowingLosesNothing(postings: Postings, files: Files, termList: string -> seq<Term>, query: seq<Term>,
                              docs: Docs, id: Id)
    requires FileNamesIndexed(docs, files, termList) && |query| > 1
    requires forall term, id :: id in Get(postings, term) <==> term in TermsOf(Inversion(docs), id)
    ensures HasWords(postings, query, |query|, id) && InSequence(termList(NameOfDocument(files, id)), query) <==>
      NameAnswers(docs, files, termList, query, false, id)
  {
    var words := termList(NameOfDocument(files, id));
    forall i | 0 <= i < |query|
      ensures id in Get(postings, FileNameTerm(query[i])) <==>
        id in docs && docs[id].fileName != map[] && query[i] in words
    {
      assert FileNameTerm(query[i]) in TermsOf(Inversion(docs), id) <==>
        id in docs && docs[id].fileName != map[] && query[i] in words;
    }
    assert HasWords(postings, query, |query|, id) ==> id in Get(postings, FileNameTerm(query[0]));
    if InSequence(words, query) {
      var k: nat :| OccursAt(words, query, k);
      forall i | 0 <= i < |query| ensures query[i] in words {
        WordOccurs(words, query, k, i);
      }
    }
  }

  /** Running a query: all answers, in ascending order, each once. */
  method Results(it: PostingIterator?) returns (results: seq<Id>)
    requires it != null ==> it.Valid() && it.cursor == Start
    modifies if it != null then it.Repr else {}
    ensures Ascending(results, IdOf) && forall id :: id in results <==> it != null && id in it.Ids
  {
    if it == null {
      return [];
    }
    results := Exec(it);
  }

  /** A query right after a commit, from the tables to the list of answers. */
  method PhraseSearch(postings: Postings, positions: Positions, subQueries: seq<PhraseTerm>, ghost docs: Docs)
    returns (results: seq<Id>)
    requires Represents(postings, positions, map[], Inversion(docs)) && ProperIndex(Inversion(docs))
    ensures Ascending(results, IdOf)
    ensures forall id :: id in results <==> Answers(Merge(DocAt(docs, id)), subQueries)
  {
    var it := EngineQuery(postings, positions, subQueries, Inversion(docs));
    results := Results(it);
    forall id ensures TermsOf(Inversion(docs), id) == Merge(DocAt(docs, id)) {
      InversionAt(docs, id);
    }
  }
}
