/**
  Documents and how the forward tables and the index describe them
  (src/engine/document.h, src/engine/documentdb.cpp).
 */
module Documents {
  import opened Sequences
  import opened Bytes
  import opened IdUtils
  import opened InvertedIndex

  /** A document as handed to the engine. */
  datatype Document = Document(
    id: Id, parentId: Id, url: string,
    terms: seq<TermEntry>, xattrTerms: seq<TermEntry>, fileNameTerms: seq<TermEntry>,
    contentIndexing: bool, mTime: nat, cTime: nat, data: seq<Byte>)

  datatype TimeInfo = TimeInfo(mTime: nat, cTime: nat)

  /** The three kinds of terms, each with a forward table of its own. */
  datatype Category = Content | XAttr | FileName

  /** What the engine knows of a document's terms. */
  datatype Doc = Doc(content: TermMap, xattr: TermMap, fileName: TermMap)

  type Docs = map<Id, Doc>

  const EMPTY_DOC := Doc(map[], map[], map[])

  function DocAt(docs: Docs, id: Id): Doc {
    if id in docs then docs[id] else EMPTY_DOC
  }

  function Part(doc: Doc, c: Category): TermMap {
    match c
    case Content => doc.content
    case XAttr => doc.xattr
    case FileName => doc.fileName
  }

  function WithPart(doc: Doc, c: Category, terms: TermMap): Doc {
    match c
    case Content => doc.(content := terms)
    case XAttr => doc.(xattr := terms)
    case FileName => doc.(fileName := terms)
  }

  /** The documents after one category of one of them is replaced. */
  function Updated(docs: Docs, id: Id, c: Category, terms: TermMap): Docs {
    docs[id := WithPart(DocAt(docs, id), c, terms)]
  }

  /** The categories share no term. */
  ghost predicate Separate(doc: Doc) {
    doc.content.Keys !! doc.xattr.Keys && doc.content.Keys !! doc.fileName.Keys && doc.xattr.Keys !! doc.fileName.Keys
  }

  ghost predicate AllSeparate(docs: Docs) {
    forall id {:trigger docs[id]} :: id in docs ==> Separate(docs[id])
  }

  function Merge(doc: Doc): TermMap {
    doc.content + doc.xattr + doc.fileName
  }

  /** What the index should say about these documents. */
  ghost function Inversion(docs: Docs): Index {
    map id | id in docs :: Merge(docs[id])
  }

  type ForwardTable = map<Id, seq<Term>>

  /** DocumentDB::get. */
  function GetTerms(table: ForwardTable, id: Id): seq<Term> {
    if id in table then table[id] else []
  }

  /** The table lists exactly the terms of that category, each once, and no empty lists. */
  ghost predicate Lists(table: ForwardTable, docs: Docs, c: Category) {
    forall id {:trigger GetTerms(table, id)} ::
      (id in table ==> table[id] != []) && ListsDoc(GetTerms(table, id), Part(DocAt(docs, id), c))
  }

  ghost predicate ListsDoc(list: seq<Term>, terms: TermMap) {
    NoRepeats(list) && forall t :: t in list <==> t in terms
  }

  function SetTerms(table: ForwardTable, id: Id, list: seq<Term>): ForwardTable {
    if list == [] then table - {id} else table[id := list]
  }

  lemma SetTermsLists(table: ForwardTable, docs: Docs, c: Category, id: Id, entries: seq<TermEntry>)
    requires Lists(table, docs, c) && DistinctTerms(entries)
    ensures Lists(SetTerms(table, id, Keys(entries)), Updated(docs, id, c, EntryMap(entries)), c)
  {
    EntryMapKeys(entries);
    var docs' := Updated(docs, id, c, EntryMap(entries));
    var table' := SetTerms(table, id, Keys(entries));
    forall x
      ensures (x in table' ==> table'[x] != []) && ListsDoc(GetTerms(table', x), Part(DocAt(docs', x), c))
    {
      assert ListsDoc(GetTerms(table, x), Part(DocAt(docs, x), c)) && (x in table ==> table[x] != []);
    }
  }

  /** The other tables are not concerned. */
  lemma OtherTableLists(table: ForwardTable, docs: Docs, c: Category, other: Category, id: Id, terms: TermMap)
    requires Lists(table, docs, c) && other != c
    ensures Lists(table, Updated(docs, id, other, terms), c)
  {
    forall x ensures Part(DocAt(Updated(docs, id, other, terms), x), c) == Part(DocAt(docs, x), c) {
    }
  }

  lemma RemovalLists(table: ForwardTable, docs: Docs, c: Category, gone: set<Id>)
    requires Lists(table, docs, c)
    ensures Lists(table - gone, docs - gone, c)
  {
    forall x
      ensures x in table - gone ==> (table - gone)[x] != []
      ensures ListsDoc(GetTerms(table - gone, x), Part(DocAt(docs - gone, x), c))
    {
      assert ListsDoc(GetTerms(table, x), Part(DocAt(docs, x), c)) && (x in table ==> table[x] != []);
    }
  }

  lemma InversionAt(docs: Docs, id: Id)
    ensures TermsOf(Inversion(docs), id) == Merge(DocAt(docs, id))
  {
  }

  /** A document's indexed terms after some are removed and then others added. */
  function PartReplaced(m: TermMap, prev: set<Term>, terms: TermMap): TermMap {
    Fill(m - prev, terms)
  }

  /** What logged removals and then additions do to an index. */
  lemma PartLogged(index: Index, id: Id, prev: seq<Term>, entries: seq<TermEntry>, x: Id)
    requires DistinctTerms(entries)
    ensures TermsOf(WithTerms(WithoutTerms(index, id, prev), id, entries), x) ==
      if x == id then PartReplaced(TermsOf(index, id), (set t | t in prev), EntryMap(entries)) else TermsOf(index, x)
  {
    WithTermsAt(WithoutTerms(index, id, prev), id, entries, x);
    WithoutTermsAt(index, id, prev, x);
  }

  /** With separate categories, removing one category's terms and adding new ones is replacing that category. */
  lemma ReplacePartInverts(doc: Doc, c: Category, terms: TermMap)
    requires Separate(doc) && Separate(WithPart(doc, c, terms))
    ensures PartReplaced(Merge(doc), Part(doc, c).Keys, terms) == Merge(WithPart(doc, c, terms))
  {
  }

  /** An index without the terms that a document has. */
  ghost function Unindexed(index: Index, docs: Docs, id: Id): Index {
    index[id := TermsOf(index, id) - Merge(DocAt(docs, id)).Keys]
  }

  /** Removing all listed terms of a document takes them from any index. */
  lemma RemoveAllListed(index: Index, docs: Docs, id: Id, a: seq<Term>, b: seq<Term>, c: seq<Term>, x: Id)
    requires ListsDoc(a, DocAt(docs, id).content) && ListsDoc(b, DocAt(docs, id).fileName)
    requires ListsDoc(c, DocAt(docs, id).xattr)
    ensures TermsOf(WithoutTerms(WithoutTerms(WithoutTerms(index, id, a), id, b), id, c), x) ==
      TermsOf(Unindexed(index, docs, id), x)
  {
    var i1 := WithoutTerms(index, id, a);
    var i2 := WithoutTerms(i1, id, b);
    WithoutTermsAt(index, id, a, x);
    WithoutTermsAt(i1, id, b, x);
    WithoutTermsAt(i2, id, c, x);
    if x == id {
      var doc := DocAt(docs, id);
      assert (set t | t in a) == doc.content.Keys;
      assert (set t | t in b) == doc.fileName.Keys;
      assert (set t | t in c) == doc.xattr.Keys;
      WithoutParts(TermsOf(index, id), doc);
    }
  }

  lemma WithoutParts(m: TermMap, doc: Doc)
    ensures m - doc.content.Keys - doc.fileName.Keys - doc.xattr.Keys == m - Merge(doc).Keys
  {
  }

  /** From the index of the documents that leaves the index without the document. */
  lemma RemoveAllInverts(docs: Docs, id: Id, x: Id)
    ensures TermsOf(Unindexed(Inversion(docs), docs, id), x) == TermsOf(Inversion(docs - {id}), x)
  {
    InversionAt(docs, x);
    InversionAt(docs - {id}, x);
  }
}
