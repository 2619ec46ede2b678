/**
  When the index agrees with a replaced document to the last position, although terms may
  have been in several categories on the way (src/engine/writetransaction.cpp).  What the
  index should say of a term is what the last category that has it says; what it does say
  are the first positions that were logged and not removed again.
 */
module IndexAgreement {
  import opened InvertedIndex
  import opened Documents
  import opened Replacements

  function PositionsAt(m: TermMap, t: Term): seq<nat> {
    if t in m then m[t] else []
  }

  function FirstOf(p: seq<nat>, q: seq<nat>): seq<nat> {
    if p != [] then p else q
  }

  /** The positions in a category that is not replaced. */
  function Staying(was: Doc, ops: Operations, t: Term): seq<nat> {
    FirstOf(if ops.terms then [] else PositionsAt(was.content, t),
            FirstOf(if ops.xattrTerms then [] else PositionsAt(was.xattr, t),
                    if ops.fileNameTerms then [] else PositionsAt(was.fileName, t)))
  }

  /** A later category that is replaced had the term, so that what is logged before is removed. */
  ghost predicate Cleared(was: Doc, ops: Operations, c: Category, t: Term) {
    exists a :: Before(c, a) && Selected(ops, a) && t in Part(was, a)
  }

  /** The positions that a category brings, unless they are removed again. */
  ghost function Brought(was: Doc, doc: Document, ops: Operations, c: Category, t: Term): seq<nat> {
    if Brings(doc, ops, c, t) && !Cleared(was, ops, c, t) then Part(DocOf(doc), c)[t] else []
  }

  /** The first positions of them all: those that stay, then those that the categories bring, in order. */
  ghost function KeptPositions(was: Doc, doc: Document, ops: Operations, t: Term): seq<nat> {
    FirstOf(Staying(was, ops, t),
            FirstOf(Brought(was, doc, ops, Content, t),
                    FirstOf(Brought(was, doc, ops, XAttr, t), Brought(was, doc, ops, FileName, t))))
  }

  lemma ClearedUnfolds(was: Doc, ops: Operations, t: Term)
    ensures Cleared(was, ops, Content, t) <==>
      (ops.xattrTerms && t in was.xattr) || (ops.fileNameTerms && t in was.fileName)
    ensures Cleared(was, ops, XAttr, t) <==> ops.fileNameTerms && t in was.fileName
    ensures !Cleared(was, ops, FileName, t)
  {
    assert Before(Content, XAttr) && Before(Content, FileName) && Before(XAttr, FileName);
    assert Part(was, XAttr) == was.xattr && Part(was, FileName) == was.fileName;
  }

  /** What one category's block makes of a term's positions. */
  function AfterPart(on: bool, p: seq<nat>, prev: TermMap, terms: TermMap, t: Term): seq<nat> {
    if on then FirstOf(if t in prev then [] else p, PositionsAt(terms, t)) else p
  }

  lemma PartIfPositions(on: bool, m: TermMap, prev: TermMap, terms: TermMap, t: Term)
    ensures PositionsAt(PartIf(on, m, prev, terms), t) == AfterPart(on, PositionsAt(m, t), prev, terms, t)
  {
  }

  function AfterParts(p: seq<nat>, was: Doc, doc: Document, ops: Operations, t: Term): seq<nat> {
    var p1 := AfterPart(ops.terms, p, was.content, EntryMap(doc.terms), t);
    var p2 := AfterPart(ops.xattrTerms, p1, was.xattr, EntryMap(doc.xattrTerms), t);
    AfterPart(ops.fileNameTerms, p2, was.fileName, EntryMap(doc.fileNameTerms), t)
  }

  lemma ReplacedPositions(m: TermMap, was: Doc, doc: Document, ops: Operations, t: Term)
    ensures PositionsAt(ReplacedTerms(m, was, doc, ops), t) == AfterParts(PositionsAt(m, t), was, doc, ops, t)
  {
    var m1 := PartIf(ops.terms, m, was.content, EntryMap(doc.terms));
    var m2 := PartIf(ops.xattrTerms, m1, was.xattr, EntryMap(doc.xattrTerms));
    PartIfPositions(ops.terms, m, was.content, EntryMap(doc.terms), t);
    PartIfPositions(ops.xattrTerms, m1, was.xattr, EntryMap(doc.xattrTerms), t);
    PartIfPositions(ops.fileNameTerms, m2, was.fileName, EntryMap(doc.fileNameTerms), t);
  }

  /** The index has exactly those positions. */
  lemma KeptAreIndexed(was: Doc, doc: Document, ops: Operations, t: Term)
    requires Once(was, t)
    ensures PositionsAt(ReplacedTerms(Merge(was), was, doc, ops), t) == KeptPositions(was, doc, ops, t)
  {
    ReplacedPositions(Merge(was), was, doc, ops, t);
    KeptByParts(was, doc, ops, t);
  }

  lemma KeptByParts(was: Doc, doc: Document, ops: Operations, t: Term)
    requires Once(was, t)
    ensures AfterParts(PositionsAt(Merge(was), t), was, doc, ops, t) == KeptPositions(was, doc, ops, t)
  {
    ClearedUnfolds(was, ops, t);
  }

  /** No term is lost, and of a term in several categories the positions kept are those of the last one. */
  ghost predicate IndexAgrees(was: Doc, doc: Document, ops: Operations) {
    forall t :: t in Merge(DocAfter(was, doc, ops)) ==> TermAgrees(was, doc, ops, t)
  }

  ghost predicate TermAgrees(was: Doc, doc: Document, ops: Operations, t: Term)
    requires t in Merge(DocAfter(was, doc, ops))
  {
    var after := DocAfter(was, doc, ops);
    !Loses(was, doc, ops, t) && (Once(after, t) || KeptPositions(was, doc, ops, t) == Merge(after)[t])
  }

  /** A term that is in one category afterwards and not lost has that category's positions. */
  lemma OnceIsKept(was: Doc, doc: Document, ops: Operations, t: Term)
    requires Once(was, t) && t in Merge(DocAfter(was, doc, ops))
    requires Once(DocAfter(was, doc, ops), t) && !Loses(was, doc, ops, t)
    ensures KeptPositions(was, doc, ops, t) == Merge(DocAfter(was, doc, ops))[t]
  {
    ClearedUnfolds(was, ops, t);
    LossUnfolds(was, doc, ops, t);
  }

  /** The index agrees with the document after the replacement exactly then. */
  lemma AgreementIsExact(was: Doc, doc: Document, ops: Operations)
    requires Separate(was)
    ensures ReplacedTerms(Merge(was), was, doc, ops) == Merge(DocAfter(was, doc, ops)) <==> IndexAgrees(was, doc, ops)
  {
    var index, terms := ReplacedTerms(Merge(was), was, doc, ops), Merge(DocAfter(was, doc, ops));
    SeparateIsOnce(was);
    forall t
      ensures t in index ==> t in terms
      ensures t in terms ==> (t in index && index[t] == terms[t] <==> TermAgrees(was, doc, ops, t))
    {
      assert Once(was, t);
      TermAgreement(was, doc, ops, t);
    }
    if IndexAgrees(was, doc, ops) {
      assert forall t :: t in terms ==> t in index && index[t] == terms[t];
    }
  }

  lemma TermAgreement(was: Doc, doc: Document, ops: Operations, t: Term)
    requires Once(was, t)
    ensures var index, terms := ReplacedTerms(Merge(was), was, doc, ops), Merge(DocAfter(was, doc, ops));
      (t in index ==> t in terms) &&
      (t in terms ==> (t in index && index[t] == terms[t] <==> TermAgrees(was, doc, ops, t)))
  {
    LeftOrLost(was, doc, ops, t);
    KeptAreIndexed(was, doc, ops, t);
    if t in Merge(DocAfter(was, doc, ops)) && !Loses(was, doc, ops, t) && Once(DocAfter(was, doc, ops), t) {
      OnceIsKept(was, doc, ops, t);
    }
  }

  /** For a new document: the first category that has positions of a term has those of the last that has the term. */
  ghost predicate FirstIsLast(doc: Doc) {
    forall t :: t in Merge(doc) ==> FirstPositions(doc, t) == Merge(doc)[t]
  }

  function FirstPositions(doc: Doc, t: Term): seq<nat> {
    FirstOf(PositionsAt(doc.content, t), FirstOf(PositionsAt(doc.xattr, t), PositionsAt(doc.fileName, t)))
  }

  /** Every category is replaced, and there was nothing before. */
  predicate AllNew(was: Doc, ops: Operations) {
    was == EMPTY_DOC && ops.terms && ops.xattrTerms && ops.fileNameTerms
  }

  lemma NewAgreement(doc: Document, ops: Operations)
    requires AllNew(EMPTY_DOC, ops)
    ensures IndexAgrees(EMPTY_DOC, doc, ops) <==> FirstIsLast(DocOf(doc))
  {
    assert DocAfter(EMPTY_DOC, doc, ops) == DocOf(doc);
    forall t | t in Merge(DocOf(doc))
      ensures TermAgrees(EMPTY_DOC, doc, ops, t) <==> FirstPositions(DocOf(doc), t) == Merge(DocOf(doc))[t]
    {
      ClearedUnfolds(EMPTY_DOC, ops, t);
      LossUnfolds(EMPTY_DOC, doc, ops, t);
    }
  }

  /** Each term of a document with its first positions. */
  function FirstTerms(doc: Doc): TermMap {
    map t | t in Merge(doc) :: FirstPositions(doc, t)
  }

  lemma NewTerms(doc: Document, ops: Operations)
    requires AllNew(EMPTY_DOC, ops)
    ensures ReplacedTerms(map[], EMPTY_DOC, doc, ops) == FirstTerms(DocOf(doc))
  {
    var index := ReplacedTerms(map[], EMPTY_DOC, doc, ops);
    forall t
      ensures t in index <==> t in FirstTerms(DocOf(doc))
      ensures t in index ==> index[t] == FirstTerms(DocOf(doc))[t]
    {
      NewTerm(doc, ops, t);
    }
  }

  lemma NewTerm(doc: Document, ops: Operations, t: Term)
    requires AllNew(EMPTY_DOC, ops)
    ensures var index := ReplacedTerms(map[], EMPTY_DOC, doc, ops);
      (t in index <==> t in Merge(DocOf(doc))) && PositionsAt(index, t) == FirstPositions(DocOf(doc), t)
  {
    assert Merge(EMPTY_DOC) == map[];
    LeftOrLost(EMPTY_DOC, doc, ops, t);
    LossUnfolds(EMPTY_DOC, doc, ops, t);
    KeptAreIndexed(EMPTY_DOC, doc, ops, t);
    ClearedUnfolds(EMPTY_DOC, ops, t);
  }

  /** A term in two categories, without positions: not separate, and yet the index agrees. */
  lemma DoubledMayAgree(t: Term)
    ensures var doc := Document(1, 2, "/a", [TermEntry(t, [])], [], [TermEntry(t, [])], false, 0, 0, []);
      var ops := Operations(true, true, true, false, false, false);
      !Separate(DocOf(doc)) && IndexAgrees(EMPTY_DOC, doc, ops)
  {
    var doc := Document(1, 2, "/a", [TermEntry(t, [])], [], [TermEntry(t, [])], false, 0, 0, []);
    var ops := Operations(true, true, true, false, false, false);
    assert EntryMap(doc.terms) == map[t := []] && EntryMap(doc.fileNameTerms) == map[t := []];
    NewAgreement(doc, ops);
    assert t in DocOf(doc).content && t in DocOf(doc).fileName;
  }
}
