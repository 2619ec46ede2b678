/**
  What replaceDocument makes of a document's terms (src/engine/writetransaction.cpp):
  one category after the other, the old terms are logged as removed and the new ones as
  added.  A term that an earlier category brings may be removed again with a later one.
 */
module Replacements {
  import opened IdUtils
  import opened InvertedIndex
  import opened Documents

  /** Which parts of a document a replacement concerns (src/engine/documentoperations.h). */
  datatype Operations = Operations(
    terms: bool, xattrTerms: bool, fileNameTerms: bool, time: bool, data: bool, url: bool)

  function UpdatedIf(on: bool, docs: Docs, id: Id, c: Category, terms: TermMap): Docs {
    if on then Updated(docs, id, c, terms) else docs
  }

  /** The documents after a replacement: the selected categories of one document are new, the others as they were. */
  function Replaced(docs: Docs, doc: Document, ops: Operations): Docs {
    var docs1 := UpdatedIf(ops.terms, docs, doc.id, Content, EntryMap(doc.terms));
    var docs2 := UpdatedIf(ops.xattrTerms, docs1, doc.id, XAttr, EntryMap(doc.xattrTerms));
    UpdatedIf(ops.fileNameTerms, docs2, doc.id, FileName, EntryMap(doc.fileNameTerms))
  }

  /** At no step of the replacement does a term belong to two categories. */
  ghost predicate StaysSeparate(docs: Docs, doc: Document, ops: Operations) {
    var docs1 := UpdatedIf(ops.terms, docs, doc.id, Content, EntryMap(doc.terms));
    var docs2 := UpdatedIf(ops.xattrTerms, docs1, doc.id, XAttr, EntryMap(doc.xattrTerms));
    Separate(DocAt(docs1, doc.id)) && Separate(DocAt(docs2, doc.id)) &&
    Separate(DocAt(Replaced(docs, doc, ops), doc.id))
  }

  /** What a document says of its terms. */
  function DocOf(doc: Document): Doc {
    Doc(EntryMap(doc.terms), EntryMap(doc.xattrTerms), EntryMap(doc.fileNameTerms))
  }

  ghost predicate Mentions(entries: seq<TermEntry>, t: Term) {
    exists i :: 0 <= i < |entries| && entries[i].term == t
  }

  /** Each category has exactly the terms of its entries, and the document those of all of them. */
  lemma DocHolds(doc: Document, t: Term)
    requires DistinctTerms(doc.terms) && DistinctTerms(doc.xattrTerms) && DistinctTerms(doc.fileNameTerms)
    ensures t in DocOf(doc).content <==> Mentions(doc.terms, t)
    ensures t in DocOf(doc).xattr <==> Mentions(doc.xattrTerms, t)
    ensures t in DocOf(doc).fileName <==> Mentions(doc.fileNameTerms, t)
    ensures t in Merge(DocOf(doc)) <==>
      Mentions(doc.terms, t) || Mentions(doc.xattrTerms, t) || Mentions(doc.fileNameTerms, t)
  {
    EntryMapHolds(doc.terms);
    EntryMapHolds(doc.xattrTerms);
    EntryMapHolds(doc.fileNameTerms);
  }

  function Selected(ops: Operations, c: Category): bool {
    match c
    case Content => ops.terms
    case XAttr => ops.xattrTerms
    case FileName => ops.fileNameTerms
  }

  /** The order in which the categories are replaced. */
  predicate Before(b: Category, c: Category) {
    (b.Content? && !c.Content?) || (b.XAttr? && c.FileName?)
  }

  /** A replaced category has the term now. */
  predicate Brings(doc: Document, ops: Operations, c: Category, t: Term) {
    Selected(ops, c) && t in Part(DocOf(doc), c)
  }

  /** A replaced category had the term and has it no more. */
  predicate Drops(was: Doc, doc: Document, ops: Operations, c: Category, t: Term) {
    Selected(ops, c) && t in Part(was, c) && t !in Part(DocOf(doc), c)
  }

  /** A category drops the term after an earlier one has brought it, and no later one brings it back. */
  ghost predicate Loses(was: Doc, doc: Document, ops: Operations, t: Term) {
    exists c :: Drops(was, doc, ops, c, t) && (exists b :: Before(b, c) && Brings(doc, ops, b, t)) &&
      forall a :: Before(c, a) ==> !Brings(doc, ops, a, t)
  }

  function PartIf(on: bool, m: TermMap, prev: TermMap, terms: TermMap): TermMap {
    if on then PartReplaced(m, prev.Keys, terms) else m
  }

  /** The document's indexed terms after the three blocks of replaceDocument. */
  function ReplacedTerms(m: TermMap, was: Doc, doc: Document, ops: Operations): TermMap {
    var m1 := PartIf(ops.terms, m, was.content, EntryMap(doc.terms));
    var m2 := PartIf(ops.xattrTerms, m1, was.xattr, EntryMap(doc.xattrTerms));
    PartIf(ops.fileNameTerms, m2, was.fileName, EntryMap(doc.fileNameTerms))
  }

  /** What the index says after a replacement. */
  ghost function ReplacedIndex(docs: Docs, doc: Document, ops: Operations): Index {
    Inversion(docs)[doc.id := ReplacedTerms(Merge(DocAt(docs, doc.id)), DocAt(docs, doc.id), doc, ops)]
  }

  lemma PartIfKeys(on: bool, m: TermMap, prev: TermMap, terms: TermMap, t: Term)
    ensures t in PartIf(on, m, prev, terms) <==> (on && t in terms) || (t in m && !(on && t in prev))
  {
  }

  /** Which terms are left, block by block. */
  lemma ReplacedKeys(m: TermMap, was: Doc, doc: Document, ops: Operations, t: Term)
    ensures t in ReplacedTerms(m, was, doc, ops) <==>
      Brings(doc, ops, FileName, t) || (!(ops.fileNameTerms && t in was.fileName) &&
        (Brings(doc, ops, XAttr, t) || (!(ops.xattrTerms && t in was.xattr) &&
          (Brings(doc, ops, Content, t) || (!(ops.terms && t in was.content) && t in m)))))
  {
    var m1 := PartIf(ops.terms, m, was.content, EntryMap(doc.terms));
    var m2 := PartIf(ops.xattrTerms, m1, was.xattr, EntryMap(doc.xattrTerms));
    PartIfKeys(ops.terms, m, was.content, EntryMap(doc.terms), t);
    PartIfKeys(ops.xattrTerms, m1, was.xattr, EntryMap(doc.xattrTerms), t);
    PartIfKeys(ops.fileNameTerms, m2, was.fileName, EntryMap(doc.fileNameTerms), t);
  }

  /** A document after a replacement, category by category. */
  function DocAfter(was: Doc, doc: Document, ops: Operations): Doc {
    Doc(if ops.terms then EntryMap(doc.terms) else was.content,
        if ops.xattrTerms then EntryMap(doc.xattrTerms) else was.xattr,
        if ops.fileNameTerms then EntryMap(doc.fileNameTerms) else was.fileName)
  }

  lemma ReplacedDoc(docs: Docs, doc: Document, ops: Operations)
    ensures DocAt(Replaced(docs, doc, ops), doc.id) == DocAfter(DocAt(docs, doc.id), doc, ops)
    ensures forall x :: x != doc.id ==> DocAt(Replaced(docs, doc, ops), x) == DocAt(docs, x)
  {
  }

  /** The index has a term of the replaced document exactly if the document has it and it is not lost. */
  lemma LossIsExact(docs: Docs, doc: Document, ops: Operations, t: Term)
    requires Separate(DocAt(docs, doc.id))
    ensures t in TermsOf(ReplacedIndex(docs, doc, ops), doc.id) <==>
      t in Merge(DocAt(Replaced(docs, doc, ops), doc.id)) && !Loses(DocAt(docs, doc.id), doc, ops, t)
  {
    SeparateIsOnce(DocAt(docs, doc.id));
    assert Once(DocAt(docs, doc.id), t);
    ReplacedDoc(docs, doc, ops);
    LeftOrLost(DocAt(docs, doc.id), doc, ops, t);
  }

  lemma LeftOrLost(was: Doc, doc: Document, ops: Operations, t: Term)
    requires Once(was, t)
    ensures t in ReplacedTerms(Merge(was), was, doc, ops) <==>
      t in Merge(DocAfter(was, doc, ops)) && !Loses(was, doc, ops, t)
  {
    ReplacedKeys(Merge(was), was, doc, ops, t);
    LossUnfolds(was, doc, ops, t);
  }

  /** The term is in at most one category. */
  predicate Once(doc: Doc, t: Term) {
    !(t in doc.content && t in doc.xattr) && !(t in doc.content && t in doc.fileName) &&
    !(t in doc.xattr && t in doc.fileName)
  }

  lemma SeparateIsOnce(doc: Doc)
    ensures Separate(doc) <==> forall t :: Once(doc, t)
  {
    if forall t :: Once(doc, t) {
      forall t ensures t in doc.content ==> t !in doc.xattr && t !in doc.fileName {
        assert Once(doc, t);
      }
      forall t ensures t in doc.xattr ==> t !in doc.fileName {
        assert Once(doc, t);
      }
    }
  }

  /** The same for all documents. */
  lemma IndexAfter(docs: Docs, doc: Document, ops: Operations, id: Id, t: Term)
    requires Separate(DocAt(docs, doc.id))
    ensures t in TermsOf(ReplacedIndex(docs, doc, ops), id) <==>
      t in Merge(DocAt(Replaced(docs, doc, ops), id)) && !(id == doc.id && Loses(DocAt(docs, doc.id), doc, ops, t))
  {
    if id == doc.id {
      LossIsExact(docs, doc, ops, t);
    } else {
      InversionAt(docs, id);
      ReplacedDoc(docs, doc, ops);
    }
  }

  /** A lost term is one that the document has. */
  lemma LostIsThere(docs: Docs, doc: Document, ops: Operations, t: Term)
    requires Separate(DocAt(docs, doc.id)) && Loses(DocAt(docs, doc.id), doc, ops, t)
    ensures t in TermsOf(Inversion(Replaced(docs, doc, ops)), doc.id) &&
      t !in TermsOf(ReplacedIndex(docs, doc, ops), doc.id)
  {
    InversionAt(Replaced(docs, doc, ops), doc.id);
    ReplacedDoc(docs, doc, ops);
    LossIsExact(docs, doc, ops, t);
    LossUnfolds(DocAt(docs, doc.id), doc, ops, t);
  }

  /** There are two ways to lose a term: dropped by the attributes, or by the file name. */
  lemma LossUnfolds(was: Doc, doc: Document, ops: Operations, t: Term)
    ensures Loses(was, doc, ops, t) <==>
      (Drops(was, doc, ops, XAttr, t) && Brings(doc, ops, Content, t) && !Brings(doc, ops, FileName, t)) ||
      (Drops(was, doc, ops, FileName, t) && (Brings(doc, ops, Content, t) || Brings(doc, ops, XAttr, t)))
  {
    assert forall a :: !Before(FileName, a);
    assert forall a :: Before(XAttr, a) ==> a == FileName;
    assert forall b :: Before(b, XAttr) ==> b == Content;
    assert Before(Content, XAttr) && Before(Content, FileName) && Before(XAttr, FileName);
    assert forall b :: !Before(b, Content);
  }

  /** The categories stay separate throughout exactly if they are separate afterwards and nothing is lost. */
  lemma SeparateOrLost(docs: Docs, doc: Document, ops: Operations)
    requires Separate(DocAt(docs, doc.id))
    ensures StaysSeparate(docs, doc, ops) <==>
      Separate(DocAt(Replaced(docs, doc, ops), doc.id)) && forall t :: !Loses(DocAt(docs, doc.id), doc, ops, t)
  {
    var was := DocAt(docs, doc.id);
    var first, second := ops.(xattrTerms := false, fileNameTerms := false), ops.(fileNameTerms := false);
    var d1, d2, d3 := DocAfter(was, doc, first), DocAfter(was, doc, second), DocAfter(was, doc, ops);
    ReplacedDoc(docs, doc, ops);
    ReplacedDoc(docs, doc, first);
    ReplacedDoc(docs, doc, second);
    SeparateIsOnce(was);
    SeparateIsOnce(d1);
    SeparateIsOnce(d2);
    SeparateIsOnce(d3);
    forall t ensures Once(d1, t) && Once(d2, t) && Once(d3, t) <==> Once(d3, t) && !Loses(was, doc, ops, t) {
      assert Once(was, t);
      LossUnfolds(was, doc, ops, t);
    }
  }

  /** Then the index is that of the documents after the replacement, with their positions. */
  lemma ReplacedInverts(docs: Docs, doc: Document, ops: Operations)
    requires Separate(DocAt(docs, doc.id)) && StaysSeparate(docs, doc, ops)
    ensures TermsOf(ReplacedIndex(docs, doc, ops), doc.id) == Merge(DocAt(Replaced(docs, doc, ops), doc.id))
  {
    var was := DocAt(docs, doc.id);
    var docs1 := UpdatedIf(ops.terms, docs, doc.id, Content, EntryMap(doc.terms));
    var docs2 := UpdatedIf(ops.xattrTerms, docs1, doc.id, XAttr, EntryMap(doc.xattrTerms));
    if ops.terms {
      ReplacePartInverts(was, Content, EntryMap(doc.terms));
    }
    if ops.xattrTerms {
      ReplacePartInverts(DocAt(docs1, doc.id), XAttr, EntryMap(doc.xattrTerms));
    }
    if ops.fileNameTerms {
      ReplacePartInverts(DocAt(docs2, doc.id), FileName, EntryMap(doc.fileNameTerms));
    }
  }

  /** A document whose file name term becomes a content term: the index loses the term. */
  lemma CrossCategoryMoveIsLost(t: Term)
    ensures var docs: Docs := map[1 := Doc(map[], map[], map[t := [0]])];
      var doc := Document(1, 2, "/a", [TermEntry(t, [0])], [], [], false, 0, 0, []);
      var ops := Operations(true, false, true, false, false, false);
      Separate(docs[1]) && t in Merge(DocAt(Replaced(docs, doc, ops), 1)) &&
      t !in TermsOf(ReplacedIndex(docs, doc, ops), 1)
  {
    var docs: Docs := map[1 := Doc(map[], map[], map[t := [0]])];
    var doc := Document(1, 2, "/a", [TermEntry(t, [0])], [], [], false, 0, 0, []);
    var ops := Operations(true, false, true, false, false, false);
    LossIsExact(docs, doc, ops, t);
    LossUnfolds(docs[1], doc, ops, t);
  }

  ghost predicate OfKind(kind: Term -> Category, doc: Doc) {
    forall c, t :: t in Part(doc, c) ==> kind(t) == c
  }

  ghost predicate OfKinds(kind: Term -> Category, docs: Docs) {
    forall id :: id in docs ==> OfKind(kind, docs[id])
  }

  /** A term generator whose prefixes tell the categories apart meets that condition. */
  lemma PrefixesStaySeparate(docs: Docs, doc: Document, ops: Operations, kind: Term -> Category)
    requires OfKind(kind, DocAt(docs, doc.id)) && OfKind(kind, DocOf(doc))
    ensures StaysSeparate(docs, doc, ops)
  {
    var docs1 := UpdatedIf(ops.terms, docs, doc.id, Content, EntryMap(doc.terms));
    var docs2 := UpdatedIf(ops.xattrTerms, docs1, doc.id, XAttr, EntryMap(doc.xattrTerms));
    var d0, d1, d2 := DocAt(docs, doc.id), DocAt(docs1, doc.id), DocAt(docs2, doc.id);
    var d3, new' := DocAt(Replaced(docs, doc, ops), doc.id), DocOf(doc);
    forall c, t
      ensures t in Part(d1, c) || t in Part(d2, c) || t in Part(d3, c) ==> kind(t) == c
    {
      assert t in Part(d1, c) || t in Part(d2, c) || t in Part(d3, c) ==> t in Part(d0, c) || t in Part(new', c);
    }
    KindsSeparate(kind, d1);
    KindsSeparate(kind, d2);
    KindsSeparate(kind, d3);
  }

  lemma KindsSeparate(kind: Term -> Category, doc: Doc)
    requires OfKind(kind, doc)
    ensures Separate(doc)
  {
    forall t
      ensures (t in doc.content ==> kind(t) == Content) && (t in doc.xattr ==> kind(t) == XAttr) &&
        (t in doc.fileName ==> kind(t) == FileName)
    {
      assert Part(doc, Content) == doc.content && Part(doc, XAttr) == doc.xattr && Part(doc, FileName) == doc.fileName;
    }
  }
}
