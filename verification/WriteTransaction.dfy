/**
  WriteTransaction (src/engine/writetransaction.cpp).  The forward tables are written
  at once; the inverted index only gets a log entry, which commit replays.  `docs` is
  what the transaction means: the documents with their terms and positions.
 */
module WriteTransactions {
  import opened Bytes
  import opened IdUtils
  import opened InvertedIndex
  import opened Documents
  import opened Replacements
  import opened IndexAgreement
  import opened IdTree
  import opened Paths
  import opened Urls
  import opened AddPaths
  import opened DocumentUrlDBs
  import opened MTimeDBs
  import opened IdTreeDescent
  import opened TreeUpdates
  import opened Removals
  import opened StoredTables

  /** Three lists of removals that cover a document's terms remove it from the index. */
  lemma RemovalLogged(posting: Postings, position: Positions, pending: Pending, index: Index, docs: Docs, id: Id,
                      a: seq<Term>, b: seq<Term>, c: seq<Term>)
    requires ListsDoc(a, DocAt(docs, id).content) && ListsDoc(b, DocAt(docs, id).fileName)
    requires ListsDoc(c, DocAt(docs, id).xattr)
    requires Represents(posting, position, pending,
                        WithoutTerms(WithoutTerms(WithoutTerms(index, id, a), id, b), id, c))
    ensures Represents(posting, position, pending, Unindexed(index, docs, id))
  {
    var index' := WithoutTerms(WithoutTerms(WithoutTerms(index, id, a), id, b), id, c);
    forall x ensures TermsOf(Unindexed(index, docs, id), x) == TermsOf(index', x) {
      RemoveAllListed(index, docs, id, a, b, c, x);
    }
    SameIndex(posting, position, pending, index', Unindexed(index, docs, id));
  }

  /** A sound index stays sound without a document. */
  lemma SoundWithout(posting: Postings, position: Positions, pending: Pending, docs: Docs, id: Id)
    requires AllSeparate(docs) && Represents(posting, position, pending, Unindexed(Inversion(docs), docs, id))
    ensures Sound(docs - {id}, posting, position, pending)
  {
    forall x ensures TermsOf(Unindexed(Inversion(docs), docs, id), x) == TermsOf(Inversion(docs - {id}), x) {
      RemoveAllInverts(docs, id, x);
    }
    SameIndex(posting, position, pending, Unindexed(Inversion(docs), docs, id), Inversion(docs - {id}));
  }

  /** Removing a document repairs an index in which a replacement has lost or doubled its terms. */
  lemma RemovalRepairs(posting: Postings, position: Positions, pending: Pending, docs: Docs, doc: Document,
                       ops: Operations)
    requires AllSeparate(docs)
    requires Represents(posting, position, pending,
                        Unindexed(ReplacedIndex(docs, doc, ops), Replaced(docs, doc, ops), doc.id))
    ensures Sound(Replaced(docs, doc, ops) - {doc.id}, posting, position, pending)
  {
    var docs' := Replaced(docs, doc, ops);
    RepairedIndex(docs, doc, ops);
    SameIndex(posting, position, pending, Unindexed(ReplacedIndex(docs, doc, ops), docs', doc.id),
              Inversion(docs' - {doc.id}));
    assert forall x :: x in docs' && x != doc.id ==> docs'[x] == docs[x] by {
      ReplacedDoc(docs, doc, ops);
    }
  }

  lemma RepairedIndex(docs: Docs, doc: Document, ops: Operations)
    requires Separate(DocAt(docs, doc.id))
    ensures var docs' := Replaced(docs, doc, ops);
      var index := Unindexed(ReplacedIndex(docs, doc, ops), docs', doc.id);
      forall x :: TermsOf(Inversion(docs' - {doc.id}), x) == TermsOf(index, x)
  {
    var docs', index := Replaced(docs, doc, ops), ReplacedIndex(docs, doc, ops);
    OthersIndexed(docs, doc, ops);
    forall t | t in TermsOf(index, doc.id) ensures t in Merge(DocAt(docs', doc.id)) {
      LossIsExact(docs, doc, ops, t);
    }
    forall x ensures TermsOf(Inversion(docs' - {doc.id}), x) == TermsOf(Unindexed(index, docs', doc.id), x) {
      InversionAt(docs' - {doc.id}, x);
      InversionAt(docs', x);
    }
  }

  function WithTable(s: Stored, c: Category, table: ForwardTable): Stored {
    match c
    case Content => s.(docTerms := table)
    case XAttr => s.(docXattrTerms := table)
    case FileName => s.(docFileNameTerms := table)
  }

  /** Terms as the engine gets them: QMap keys. */
  predicate ProperTerms(doc: Document) {
    DistinctTerms(doc.terms) && DistinctTerms(doc.xattrTerms) && DistinctTerms(doc.fileNameTerms)
  }

  /** What addDocument asserts of the terms. */
  predicate ProperDocument(doc: Document) {
    ProperTerms(doc) && doc.terms != []
  }

  /** The index after one category of a document has got new terms. */
  ghost function PartIndex(index: Index, docs: Docs, id: Id, c: Category, terms: TermMap): Index {
    index[id := PartReplaced(TermsOf(index, id), Part(DocAt(docs, id), c).Keys, terms)]
  }

  lemma PartIndexed(posting: Postings, position: Positions, pending: Pending, index: Index, docs: Docs, id: Id,
                    c: Category, prev: seq<Term>, terms: seq<TermEntry>)
    requires ListsDoc(prev, Part(DocAt(docs, id), c)) && DistinctTerms(terms)
    requires Represents(posting, position, pending, WithTerms(WithoutTerms(index, id, prev), id, terms))
    ensures Represents(posting, position, pending, PartIndex(index, docs, id, c, EntryMap(terms)))
  {
    var index' := WithTerms(WithoutTerms(index, id, prev), id, terms);
    assert (set t | t in prev) == Part(DocAt(docs, id), c).Keys;
    forall x ensures TermsOf(PartIndex(index, docs, id, c, EntryMap(terms)), x) == TermsOf(index', x) {
      PartLogged(index, id, prev, terms, x);
    }
    SameIndex(posting, position, pending, index', PartIndex(index, docs, id, c, EntryMap(terms)));
  }

  /** After a replacement every posting list, with the log, has its documents but for lost terms. */
  ghost predicate PostedBut(posting: Postings, pending: Pending, docs: Docs, doc: Document, was: Doc, ops: Operations) {
    forall id, t :: id in EffectiveIds(posting, pending, t) <==>
      t in Merge(DocAt(docs, id)) && !(id == doc.id && Loses(was, doc, ops, t))
  }

  /** The three forward tables list the documents' terms. */
  ghost predicate ListsOk(terms: ForwardTable, xattrTerms: ForwardTable, fileNameTerms: ForwardTable, docs: Docs) {
    Lists(terms, docs, Content) && Lists(xattrTerms, docs, XAttr) && Lists(fileNameTerms, docs, FileName)
  }

  /** Every posting list, with the log, has exactly its documents. */
  ghost predicate Posted(posting: Postings, pending: Pending, docs: Docs) {
    forall id, t :: id in EffectiveIds(posting, pending, t) <==> t in Merge(DocAt(docs, id))
  }

  /** The log and the stored lists are the index of the documents, none of which has a term in two categories. */
  ghost predicate Sound(docs: Docs, posting: Postings, position: Positions, pending: Pending) {
    AllSeparate(docs) && Represents(posting, position, pending, Inversion(docs))
  }

  /** The index has got one category's new terms, if that category is replaced. */
  ghost predicate PartDone(on: bool, docs: Docs, id: Id, c: Category, terms: TermMap, index: Index, index': Index) {
    forall x :: TermsOf(index', x) ==
      if x == id then PartIf(on, TermsOf(index, id), Part(DocAt(docs, id), c), terms) else TermsOf(index, x)
  }

  lemma PartIsDone(index: Index, docs: Docs, id: Id, c: Category, terms: TermMap)
    ensures PartDone(true, docs, id, c, terms, index, PartIndex(index, docs, id, c, terms))
  {
  }

  lemma AfterThreeParts(docs: Docs, doc: Document, ops: Operations, i1: Index, i2: Index, i3: Index)
    requires var docs1 := UpdatedIf(ops.terms, docs, doc.id, Content, EntryMap(doc.terms));
      var docs2 := UpdatedIf(ops.xattrTerms, docs1, doc.id, XAttr, EntryMap(doc.xattrTerms));
      PartDone(ops.terms, docs, doc.id, Content, EntryMap(doc.terms), Inversion(docs), i1) &&
      PartDone(ops.xattrTerms, docs1, doc.id, XAttr, EntryMap(doc.xattrTerms), i1, i2) &&
      PartDone(ops.fileNameTerms, docs2, doc.id, FileName, EntryMap(doc.fileNameTerms), i2, i3)
    ensures forall x :: TermsOf(i3, x) == TermsOf(ReplacedIndex(docs, doc, ops), x)
  {
    InversionAt(docs, doc.id);
  }

  /**
    The index after a replacement.  Its terms and positions are known; it is that of the
    documents exactly if no term is lost and terms in several categories keep the right
    positions; it is sound exactly if the categories stay separate.
   */
  ghost predicate IndexReplaced(posting: Postings, position: Positions, pending: Pending, docs: Docs, doc: Document,
                                ops: Operations) {
    var docs' := Replaced(docs, doc, ops);
    Represents(posting, position, pending, ReplacedIndex(docs, doc, ops)) &&
    (Represents(posting, position, pending, Inversion(docs')) <==> IndexAgrees(DocAt(docs, doc.id), doc, ops)) &&
    (Sound(docs', posting, position, pending) <==> StaysSeparate(docs, doc, ops)) &&
    PostedBut(posting, pending, docs', doc, DocAt(docs, doc.id), ops)
  }

  lemma WhenReplaced(posting: Postings, position: Positions, pending: Pending, docs: Docs, doc: Document,
                     ops: Operations)
    requires AllSeparate(docs) && Represents(posting, position, pending, ReplacedIndex(docs, doc, ops))
    ensures IndexReplaced(posting, position, pending, docs, doc, ops)
  {
    PostedButLost(posting, position, pending, docs, doc, ops);
    AgreesWhen(posting, position, pending, docs, doc, ops);
    SoundWhen(posting, position, pending, docs, doc, ops);
  }

  /** The log and the stored lists are the index of the documents exactly if index and document agree. */
  lemma AgreesWhen(posting: Postings, position: Positions, pending: Pending, docs: Docs, doc: Document,
                   ops: Operations)
    requires AllSeparate(docs) && Represents(posting, position, pending, ReplacedIndex(docs, doc, ops))
    ensures Represents(posting, position, pending, Inversion(Replaced(docs, doc, ops))) <==>
      IndexAgrees(DocAt(docs, doc.id), doc, ops)
  {
    var index, inversion := ReplacedIndex(docs, doc, ops), Inversion(Replaced(docs, doc, ops));
    ReplacedDoc(docs, doc, ops);
    InversionAt(Replaced(docs, doc, ops), doc.id);
    AgreementIsExact(DocAt(docs, doc.id), doc, ops);
    if IndexAgrees(DocAt(docs, doc.id), doc, ops) {
      OthersIndexed(docs, doc, ops);
      SameIndex(posting, position, pending, index, inversion);
    } else if Represents(posting, position, pending, inversion) {
      IndexDetermined(posting, position, pending, index, inversion);
    }
  }

  lemma OthersIndexed(docs: Docs, doc: Document, ops: Operations)
    ensures forall x :: x != doc.id ==>
      TermsOf(Inversion(Replaced(docs, doc, ops)), x) == TermsOf(ReplacedIndex(docs, doc, ops), x)
  {
    ReplacedDoc(docs, doc, ops);
    forall x | x != doc.id
      ensures TermsOf(Inversion(Replaced(docs, doc, ops)), x) == TermsOf(ReplacedIndex(docs, doc, ops), x)
    {
      InversionAt(Replaced(docs, doc, ops), x);
      InversionAt(docs, x);
    }
  }

  lemma SoundWhen(posting: Postings, position: Positions, pending: Pending, docs: Docs, doc: Document, ops: Operations)
    requires AllSeparate(docs) && Represents(posting, position, pending, ReplacedIndex(docs, doc, ops))
    ensures Sound(Replaced(docs, doc, ops), posting, position, pending) <==> StaysSeparate(docs, doc, ops)
  {
    SeparateOrLost(docs, doc, ops);
    if StaysSeparate(docs, doc, ops) {
      SeparateIsSound(posting, position, pending, docs, doc, ops);
    } else if AllSeparate(Replaced(docs, doc, ops)) {
      LostIsUnsound(posting, position, pending, docs, doc, ops);
    }
  }

  /** The index after a new document: each term with its first positions. */
  ghost predicate IndexAdded(posting: Postings, position: Positions, pending: Pending, docs: Docs, doc: Document) {
    Represents(posting, position, pending, Inversion(docs)[doc.id := FirstTerms(DocOf(doc))]) &&
    (Represents(posting, position, pending, Inversion(docs)) <==> FirstIsLast(DocOf(doc))) &&
    (Sound(docs, posting, position, pending) <==> Separate(DocOf(doc))) && Posted(posting, pending, docs)
  }

  lemma PostedButLost(posting: Postings, position: Positions, pending: Pending, docs: Docs, doc: Document,
                      ops: Operations)
    requires AllSeparate(docs) && Represents(posting, position, pending, ReplacedIndex(docs, doc, ops))
    ensures PostedBut(posting, pending, Replaced(docs, doc, ops), doc, DocAt(docs, doc.id), ops)
  {
    forall id, t
      ensures id in EffectiveIds(posting, pending, t) <==>
        t in Merge(DocAt(Replaced(docs, doc, ops), id)) && !(id == doc.id && Loses(DocAt(docs, doc.id), doc, ops, t))
    {
      assert IdsInvert(ReplacedIndex(docs, doc, ops), t, EffectiveIds(posting, pending, t));
      IndexAfter(docs, doc, ops, id, t);
    }
  }

  lemma SeparateIsSound(posting: Postings, position: Positions, pending: Pending, docs: Docs, doc: Document,
                        ops: Operations)
    requires AllSeparate(docs) && Represents(posting, position, pending, ReplacedIndex(docs, doc, ops))
    requires StaysSeparate(docs, doc, ops)
    ensures Sound(Replaced(docs, doc, ops), posting, position, pending)
  {
    var docs', index := Replaced(docs, doc, ops), ReplacedIndex(docs, doc, ops);
    ReplacedDoc(docs, doc, ops);
    assert forall x :: x in docs' && x != doc.id ==> docs'[x] == docs[x];
    IndexOfReplaced(docs, doc, ops);
    SameIndex(posting, position, pending, index, Inversion(docs'));
  }

  lemma IndexOfReplaced(docs: Docs, doc: Document, ops: Operations)
    requires AllSeparate(docs) && StaysSeparate(docs, doc, ops)
    ensures forall x :: TermsOf(Inversion(Replaced(docs, doc, ops)), x) == TermsOf(ReplacedIndex(docs, doc, ops), x)
  {
    ReplacedDoc(docs, doc, ops);
    ReplacedInverts(docs, doc, ops);
    forall x ensures TermsOf(Inversion(Replaced(docs, doc, ops)), x) == TermsOf(ReplacedIndex(docs, doc, ops), x) {
      InversionAt(Replaced(docs, doc, ops), x);
      InversionAt(docs, x);
    }
  }

  lemma LostIsUnsound(posting: Postings, position: Positions, pending: Pending, docs: Docs, doc: Document,
                      ops: Operations)
    requires AllSeparate(docs) && Represents(posting, position, pending, ReplacedIndex(docs, doc, ops))
    requires exists t :: Loses(DocAt(docs, doc.id), doc, ops, t)
    ensures !Represents(posting, position, pending, Inversion(Replaced(docs, doc, ops)))
  {
    var docs', index := Replaced(docs, doc, ops), ReplacedIndex(docs, doc, ops);
    var t :| Loses(DocAt(docs, doc.id), doc, ops, t);
    LostIsThere(docs, doc, ops, t);
    if Represents(posting, position, pending, Inversion(docs')) {
      IndexDetermined(posting, position, pending, index, Inversion(docs'));
    }
  }

  /** The directory part of a path, if addPath looks at it at all, is a clean path. */
  ghost predicate CleanDirectory(url: string) {
    var dir := ParentPath(url);
    dir != "" && dir[|dir| - 1] != '/' ==> CleanPath(dir)
  }

  /** The document's path, id and parent are what the file system has. */
  predicate AtItsPath(stat: string -> Id, doc: Document) {
    CleanPath(doc.url) && doc.url != "" && stat(doc.url) == doc.id &&
    (ParentPath(doc.url) != "" ==> stat(ParentPath(doc.url)) == doc.parentId)
  }

  /** ... and its directory can be found, as far up as something that is known. */
  predicate OnDisk(stat: string -> Id, files: Files, doc: Document) {
    AtItsPath(stat, doc) && Reaches(stat, files, ParentPath(doc.url))
  }

  /** The parent that a document is entered under. */
  function TreeParent(doc: Document): Id {
    if LastSlash(doc.url) > 0 then doc.parentId else 0
  }

  /** The document is entered, the other entries are as they were. */
  ghost predicate Entered(files0: Files, files: Files, doc: Document) {
    doc.id in files && files[doc.id] == FilePath(TreeParent(doc), NameOf(doc.url)) &&
    forall n :: n in files0 && n != doc.id ==> n in files && files[n] == files0[n]
  }

  /** All that is known of the tree agrees with the file system. */
  ghost predicate Current(stat: string -> Id, files: Files) {
    Acyclic(files) && ProperNames(files) && Agrees(stat, files)
  }

  /** The tree has the document at its path, agrees with the file system, and has nothing else that is new. */
  ghost predicate InPlace(stat: string -> Id, files0: Files, children: Children, files: Files, doc: Document) {
    Forest(children, files) && ProperNames(files) && Agrees(stat, files) && Extends(files0, files) &&
    doc.id in files && Url(files, doc.id) == doc.url &&
    forall n :: n in files && n !in files0 && n != doc.id ==> OnPath(stat, files, ParentPath(doc.url), n)
  }

  /**
    Where a new document has gone in the tree.  If its path, id and parent are those of the
    file system, the tables are a forest exactly if its directory can be found as far up as
    something known, and it is new to the tree or already in that directory.
   */
  ghost predicate PlacedIn(stat: string -> Id, files0: Files, children: Children, files: Files, doc: Document) {
    (NameOf(doc.url) != "" ==> Entered(files0, files, doc)) &&
    (AtItsPath(stat, doc) ==>
      (Forest(children, files) <==> OnDisk(stat, files0, doc) && MayPut(files0, doc.id, TreeParent(doc)))) &&
    (OnDisk(stat, files0, doc) && Current(stat, files0) ==> InPlace(stat, files0, children, files, doc))
  }

  ghost predicate DirectoryInPlace(stat: string -> Id, files0: Files, files: Files, doc: Document) {
    Current(stat, files) && Extends(files0, files) &&
    (ParentPath(doc.url) == "" || DirId(stat, ParentPath(doc.url)) in files) &&
    AddedOnPath(stat, files0, files, ParentPath(doc.url))
  }

  lemma DirectoryKnown(stat: string -> Id, files0: Files, files: Files, doc: Document)
    requires OnDisk(stat, files0, doc) && Current(stat, files0) && ParentPath(doc.url) != ""
    requires Settled(stat, files0, files, ParentPath(doc.url), true)
    ensures DirectoryInPlace(stat, files0, files, doc)
  {
    AddedNames(stat, files0, files, ParentPath(doc.url));
  }

  /** The directory's entries and then the document's own. */
  lemma PlacedAll(stat: string -> Id, files0: Files, files: Files, children': Children, files': Files, doc: Document,
                  known: bool)
    requires Injective(stat) && Acyclic(files0) && doc.id != 0 && doc.parentId != 0 && Extends(files0, files)
    requires AtItsPath(stat, doc) ==>
      if ParentPath(doc.url) == "" then files == files0 else Settled(stat, files0, files, ParentPath(doc.url), known)
    requires OnDisk(stat, files0, doc) && Current(stat, files0) ==> DirectoryInPlace(stat, files0, files, doc)
    requires files' == files[doc.id := FilePath(TreeParent(doc), NameOf(doc.url))]
    requires Mirror(children', files') <==> MayPut(files, doc.id, TreeParent(doc))
    ensures PlacedIn(stat, files0, children', files', doc)
  {
    if AtItsPath(stat, doc) {
      PlacedForest(stat, files0, files, children', files', doc.url, TreeParent(doc), known);
    }
    if OnDisk(stat, files0, doc) && Current(stat, files0) {
      PlaceEntry(stat, files, doc.id, doc.url);
      SoundlyPlaced(stat, files0, files, children', files', doc);
    }
  }

  lemma PlacedInPlace(stat: string -> Id, files0: Files, files: Files, children: Children, files': Files, doc: Document)
    requires AtItsPath(stat, doc) && Injective(stat) && doc.id != 0 && DirectoryInPlace(stat, files0, files, doc)
    requires files' == files[doc.id := Entry(stat, doc.url)] && Forest(children, files') && Extends(files, files')
    ensures InPlace(stat, files0, children, files', doc)
  {
    PlacedAgrees(stat, files, files', doc.id, doc.url);
    StillOnPath(stat, files0, files, files', doc);
  }

  /** A document placed below a known directory is where the file system has it. */
  lemma SoundlyPlaced(stat: string -> Id, files0: Files, files: Files, children: Children, files': Files, doc: Document)
    requires OnDisk(stat, files0, doc) && Injective(stat) && doc.id != 0 && DirectoryInPlace(stat, files0, files, doc)
    requires files' == files[doc.id := Entry(stat, doc.url)] && Mirror(children, files')
    ensures InPlace(stat, files0, children, files', doc)
  {
    PlaceEntry(stat, files, doc.id, doc.url);
    PlacedInPlace(stat, files0, files, children, files', doc);
  }

  lemma StillOnPath(stat: string -> Id, files0: Files, files: Files, files': Files, doc: Document)
    requires AddedOnPath(stat, files0, files, ParentPath(doc.url)) && SameBut(files, files', doc.id)
    ensures forall n :: n in files' && n !in files0 && n != doc.id ==> OnPath(stat, files', ParentPath(doc.url), n)
  {
    forall n | n in files' && n !in files0 && n != doc.id ensures OnPath(stat, files', ParentPath(doc.url), n) {
      assert OnPath(stat, files, ParentPath(doc.url), n);
      var k: nat :| EnteredAs(stat, files, Ancestor(ParentPath(doc.url), k), n);
      assert EnteredAs(stat, files', Ancestor(ParentPath(doc.url), k), n);
    }
  }

  const ALL_TERMS := Operations(true, true, true, false, false, false)

  /** A new document is one all of whose terms are replaced: nothing can be lost. */
  lemma NewDocument(docs: Docs, doc: Document)
    requires DocAt(docs, doc.id) == EMPTY_DOC
    ensures Replaced(docs, doc, ALL_TERMS) == docs[doc.id := DocOf(doc)]
    ensures StaysSeparate(docs, doc, ALL_TERMS) <==> Separate(DocOf(doc))
  {
  }

  lemma WhenAdded(posting: Postings, position: Positions, pending: Pending, docs: Docs, doc: Document)
    requires IndexReplaced(posting, position, pending, docs, doc, ALL_TERMS) && DocAt(docs, doc.id) == EMPTY_DOC
    ensures IndexAdded(posting, position, pending, docs[doc.id := DocOf(doc)], doc)
  {
    NewDocument(docs, doc);
    NewAgreement(doc, ALL_TERMS);
    AddedIndex(docs, doc);
    SameIndex(posting, position, pending, ReplacedIndex(docs, doc, ALL_TERMS),
              Inversion(docs[doc.id := DocOf(doc)])[doc.id := FirstTerms(DocOf(doc))]);
    NothingToLose(posting, pending, docs[doc.id := DocOf(doc)], doc);
  }

  lemma AddedIndex(docs: Docs, doc: Document)
    requires DocAt(docs, doc.id) == EMPTY_DOC
    ensures var added := Inversion(docs[doc.id := DocOf(doc)])[doc.id := FirstTerms(DocOf(doc))];
      forall x :: TermsOf(added, x) == TermsOf(ReplacedIndex(docs, doc, ALL_TERMS), x)
  {
    NewTerms(doc, ALL_TERMS);
    assert Merge(EMPTY_DOC) == map[];
    forall x | x != doc.id ensures TermsOf(Inversion(docs[doc.id := DocOf(doc)]), x) == TermsOf(Inversion(docs), x) {
      InversionAt(docs[doc.id := DocOf(doc)], x);
      InversionAt(docs, x);
    }
  }

  lemma NothingToLose(posting: Postings, pending: Pending, docs: Docs, doc: Document)
    requires PostedBut(posting, pending, docs, doc, EMPTY_DOC, ALL_TERMS)
    ensures Posted(posting, pending, docs)
  {
    forall t ensures !Loses(EMPTY_DOC, doc, ALL_TERMS, t) {
    }
  }

  class WriteTransaction {
    const docUrl: DocumentUrlDB
    var docTerms: ForwardTable
    var docXattrTerms: ForwardTable
    var docFileNameTerms: ForwardTable
    var docTime: map<Id, TimeInfo>
    var mtime: MTimes
    var docData: map<Id, seq<Byte>>
    var contentIndexing: set<Id>
    var failed: set<Id>
    var posting: Postings
    var position: Positions
    var pending: Pending
    ghost var docs: Docs

    ghost predicate Valid()
      reads this`docTerms, this`docXattrTerms, this`docFileNameTerms, this`docs, this`posting, this`position,
            this`pending
    {
      TablesOk() && Sound(docs, posting, position, pending)
    }

    ghost predicate TablesOk()
      reads this`docTerms, this`docXattrTerms, this`docFileNameTerms, this`docs
    {
      ListsOk(docTerms, docXattrTerms, docFileNameTerms, docs)
    }

    function Tables(): Stored
      reads this`docTerms, this`docXattrTerms, this`docFileNameTerms, this`docTime, this`docData, this`contentIndexing,
            this`failed
    {
      Stored(docTerms, docXattrTerms, docFileNameTerms, docTime, docData, contentIndexing, failed)
    }

    ghost function Now(): Snapshot
      reads this, docUrl
    {
      Snapshot(docUrl.idFilename, docs, Tables())
    }

    constructor (docUrl: DocumentUrlDB)
      ensures Valid() && TimesMirrored(docTime, mtime) && docs == map[] && this.docUrl == docUrl
      ensures Tables() == EMPTY.stored && pending == map[]
    {
      this.docUrl := docUrl;
      docTerms, docXattrTerms, docFileNameTerms := map[], map[], map[];
      docTime, mtime, docData, contentIndexing, failed := map[], {}, map[], {}, {};
      posting, position, pending, docs := map[], map[], map[], map[];
    }

    /** Logs an addition for each term; the result lists the terms. */
    method AddTerms(id: Id, terms: seq<TermEntry>, ghost index: Index) returns (termList: seq<Term>)
      requires Represents(posting, position, pending, index)
      modifies this`pending
      ensures Represents(posting, position, pending, WithTerms(index, id, terms))
      ensures termList == Keys(terms)
    {
      termList := [];
      for i := 0 to |terms|
        invariant Represents(posting, position, pending, WithTerms(index, id, terms[..i]))
        invariant termList == Keys(terms[..i])
      {
        var entry := terms[i];
        assert terms[..i + 1][..i] == terms[..i];
        LogAdd(posting, position, pending, WithTerms(index, id, terms[..i]), id, entry.term, entry.positions);
        termList := termList + [entry.term];
        pending := Log(pending, entry.term, AddId(PositionInfo(id, entry.positions)));
      }
      assert terms[..|terms|] == terms;
    }

    /** Logs a removal for each term. */
    method RemoveTerms(id: Id, terms: seq<Term>, ghost index: Index)
      requires Represents(posting, position, pending, index)
      modifies this`pending
      ensures Represents(posting, position, pending, WithoutTerms(index, id, terms))
    {
      for i := 0 to |terms|
        invariant Represents(posting, position, pending, WithoutTerms(index, id, terms[..i]))
      {
        assert terms[..i + 1][..i] == terms[..i];
        LogRemove(posting, position, pending, WithoutTerms(index, id, terms[..i]), id, terms[i]);
        pending := Log(pending, terms[i], RemoveId(PositionInfo(id, [])));
      }
      assert terms[..|terms|] == terms;
    }

    /** Removals for all previous terms, then additions. */
    method ReplaceTerms(id: Id, prevTerms: seq<Term>, terms: seq<TermEntry>, ghost index: Index)
      returns (termList: seq<Term>)
      requires Represents(posting, position, pending, index)
      modifies this`pending
      ensures Represents(posting, position, pending, WithTerms(WithoutTerms(index, id, prevTerms), id, terms))
      ensures termList == Keys(terms)
    {
      RemoveTerms(id, prevTerms, index);
      termList := AddTerms(id, terms, WithoutTerms(index, id, prevTerms));
    }

    function Table(c: Category): ForwardTable
      reads this`docTerms, this`docXattrTerms, this`docFileNameTerms
    {
      match c
      case Content => docTerms
      case XAttr => docXattrTerms
      case FileName => docFileNameTerms
    }

    /** Logs that one category's terms of a document give way to new ones. */
    method LogPart(c: Category, id: Id, prevTerms: seq<Term>, terms: seq<TermEntry>, ghost index: Index)
      returns (newTerms: seq<Term>)
      requires TablesOk() && DistinctTerms(terms) && prevTerms == GetTerms(Table(c), id)
      requires Represents(posting, position, pending, index)
      modifies this`pending
      ensures Represents(posting, position, pending, PartIndex(index, docs, id, c, EntryMap(terms)))
      ensures newTerms == Keys(terms)
    {
      assert ListsDoc(prevTerms, Part(DocAt(docs, id), c));
      newTerms := ReplaceTerms(id, prevTerms, terms, index);
      PartIndexed(posting, position, pending, index, docs, id, c, prevTerms, terms);
    }

    /**
      One category's block of replaceDocument and, where there are no previous terms, of
      addDocument, whatever the other categories hold.
     */
    method ReplacePart(c: Category, id: Id, terms: seq<TermEntry>, ghost index: Index)
      requires TablesOk() && DistinctTerms(terms) && (c == Content ==> terms != [])
      requires Represents(posting, position, pending, index)
      modifies this`pending, this`docTerms, this`docXattrTerms, this`docFileNameTerms, this`docs
      ensures TablesOk() && docs == Updated(old(docs), id, c, EntryMap(terms))
      ensures Represents(posting, position, pending, PartIndex(index, old(docs), id, c, EntryMap(terms)))
      ensures Tables() == WithTable(old(Tables()), c, SetTerms(old(Table(c)), id, Keys(terms)))
    {
      var prevTerms := GetTerms(Table(c), id);
      var newTerms := LogPart(c, id, prevTerms, terms, index);
      assert Tables() == old(Tables()) && Table(c) == old(Table(c));
      StoreList(c, id, newTerms, prevTerms, terms);
    }

    /** The new list is written only if it differs. */
    method StoreList(c: Category, id: Id, newTerms: seq<Term>, prevTerms: seq<Term>, ghost terms: seq<TermEntry>)
      requires TablesOk() && DistinctTerms(terms) && newTerms == Keys(terms) && prevTerms == GetTerms(Table(c), id)
      modifies this`docTerms, this`docXattrTerms, this`docFileNameTerms, this`docs
      ensures TablesOk() && docs == Updated(old(docs), id, c, EntryMap(terms))
      ensures Tables() == WithTable(old(Tables()), c, SetTerms(old(Table(c)), id, newTerms))
    {
      if newTerms != prevTerms {
        SetTable(c, id, newTerms, terms);
      } else {
        KeepTable(c, id, terms);
      }
    }

    /** Stores one category's list; an empty list is not stored. */
    method SetTable(c: Category, id: Id, list: seq<Term>, ghost terms: seq<TermEntry>)
      requires TablesOk() && DistinctTerms(terms) && list == Keys(terms)
      modifies this`docTerms, this`docXattrTerms, this`docFileNameTerms, this`docs
      ensures TablesOk() && docs == Updated(old(docs), id, c, EntryMap(terms))
      ensures Tables() == WithTable(old(Tables()), c, SetTerms(old(Table(c)), id, list))
    {
      SetTermsLists(Table(c), docs, c, id, terms);
      ghost var m := EntryMap(terms);
      match c {
        case Content =>
          OtherTableLists(docXattrTerms, docs, XAttr, c, id, m);
          OtherTableLists(docFileNameTerms, docs, FileName, c, id, m);
          docTerms := SetTerms(docTerms, id, list);
        case XAttr =>
          OtherTableLists(docTerms, docs, Content, c, id, m);
          OtherTableLists(docFileNameTerms, docs, FileName, c, id, m);
          docXattrTerms := SetTerms(docXattrTerms, id, list);
        case FileName =>
          OtherTableLists(docTerms, docs, Content, c, id, m);
          OtherTableLists(docXattrTerms, docs, XAttr, c, id, m);
          docFileNameTerms := SetTerms(docFileNameTerms, id, list);
      }
      docs := Updated(docs, id, c, m);
    }

    /** The stored list is already the new one: only the positions differ. */
    ghost method KeepTable(c: Category, id: Id, terms: seq<TermEntry>)
      requires TablesOk() && DistinctTerms(terms) && GetTerms(Table(c), id) == Keys(terms)
      modifies this`docs
      ensures TablesOk() && docs == Updated(old(docs), id, c, EntryMap(terms))
      ensures SetTerms(Table(c), id, Keys(terms)) == Table(c)
    {
      assert Lists(Table(c), docs, c);
      assert (id in Table(c) ==> Table(c)[id] != []) && ListsDoc(GetTerms(Table(c), id), Part(DocAt(docs, id), c));
      assert SetTerms(Table(c), id, Keys(terms)) == Table(c);
      SetTermsLists(Table(c), docs, c, id, terms);
      ghost var m := EntryMap(terms);
      if c != Content { OtherTableLists(docTerms, docs, Content, c, id, m); }
      if c != XAttr { OtherTableLists(docXattrTerms, docs, XAttr, c, id, m); }
      if c != FileName { OtherTableLists(docFileNameTerms, docs, FileName, c, id, m); }
      docs := Updated(docs, id, c, m);
    }

    method AddAllTerms(doc: Document)
      requires Valid() && ProperDocument(doc) && Unknown(doc.id)
      modifies this`pending, this`docTerms, this`docXattrTerms, this`docFileNameTerms, this`docs
      ensures TablesOk() && docs == old(docs)[doc.id := DocOf(doc)] && Tables() == WithLists(old(Tables()), doc)
      ensures IndexAdded(posting, position, pending, docs, doc)
    {
      ghost var docs0 := docs;
      NoTermsYet(doc.id);
      NewDocument(docs, doc);
      ReplaceAllTerms(doc, ALL_TERMS);
      WhenAdded(posting, position, pending, docs0, doc);
    }

    lemma NoTermsYet(id: Id)
      requires TablesOk() && Unknown(id)
      ensures DocAt(docs, id) == EMPTY_DOC
    {
      assert ListsDoc(GetTerms(docTerms, id), Part(DocAt(docs, id), Content));
      assert ListsDoc(GetTerms(docXattrTerms, id), Part(DocAt(docs, id), XAttr));
      assert ListsDoc(GetTerms(docFileNameTerms, id), Part(DocAt(docs, id), FileName));
    }

    /** What addDocument asserts of its argument's id. */
    predicate Unknown(id: Id)
      reads this
    {
      NotStored(Tables(), id)
    }

    /** The entries of a new document's directory. */
    method PlaceDirectory(doc: Document) returns (parentId: Id, ghost known: bool)
      requires Forest(docUrl.idTree, docUrl.idFilename) && Injective(docUrl.stat) && CleanDirectory(doc.url)
      modifies docUrl`idTree, docUrl`idFilename
      ensures parentId == TreeParent(doc) && Mirror(docUrl.idTree, docUrl.idFilename)
      ensures Extends(old(docUrl.idFilename), docUrl.idFilename)
      ensures AtItsPath(docUrl.stat, doc) ==>
        if ParentPath(doc.url) == "" then docUrl.idFilename == old(docUrl.idFilename)
        else Settled(docUrl.stat, old(docUrl.idFilename), docUrl.idFilename, ParentPath(doc.url), known)
      ensures old(OnDisk(docUrl.stat, docUrl.idFilename, doc) && Current(docUrl.stat, docUrl.idFilename)) ==>
        DirectoryInPlace(docUrl.stat, old(docUrl.idFilename), docUrl.idFilename, doc)
    {
      if LastSlash(doc.url) <= 0 {
        return 0, true;
      }
      var ok := docUrl.AddPath(ParentPath(doc.url));
      if old(OnDisk(docUrl.stat, docUrl.idFilename, doc) && Current(docUrl.stat, docUrl.idFilename)) {
        DirectoryKnown(docUrl.stat, old(docUrl.idFilename), docUrl.idFilename, doc);
      }
      return doc.parentId, ok;
    }

    /**
      Enters a new document into the directory tree, below the entries of its directory.
      The tables are a forest afterwards exactly if the directory can be found as far up as
      something known, and the document is new to the tree or already in that directory.
     */
    method Place(doc: Document) returns (ok: bool)
      requires doc.id != 0 && doc.parentId != 0 && Forest(docUrl.idTree, docUrl.idFilename) && Injective(docUrl.stat)
      requires CleanDirectory(doc.url)
      modifies docUrl`idTree, docUrl`idFilename
      ensures ok <==> NameOf(doc.url) != ""
      ensures PlacedIn(docUrl.stat, old(docUrl.idFilename), docUrl.idTree, docUrl.idFilename, doc)
    {
      ghost var stat, files0, known := docUrl.stat, docUrl.idFilename, true;
      var parentId: Id;
      parentId, known := PlaceDirectory(doc);
      ghost var files := docUrl.idFilename;
      ok := docUrl.Put(doc.id, parentId, NameOf(doc.url));
      if ok {
        PlacedAll(stat, files0, files, docUrl.idTree, docUrl.idFilename, doc, known);
      }
    }

    /**
      Adds a document that is not known yet.  The index is that of the documents exactly if
      the first positions of each term are those of its last category, and sound exactly if
      no term is in two categories; the posting lists are right in any case.
     */
    method AddDocument(doc: Document)
      requires Valid() && doc.id != 0 && doc.parentId != 0 && Unknown(doc.id) && ProperDocument(doc)
      requires Forest(docUrl.idTree, docUrl.idFilename) && Injective(docUrl.stat) && CleanDirectory(doc.url)
      modifies this`pending, this`docTerms, this`docXattrTerms, this`docFileNameTerms, this`docs
      modifies this`docTime, this`mtime, this`docData, this`contentIndexing, docUrl`idTree, docUrl`idFilename
      ensures NameOf(doc.url) == "" ==> docs == old(docs) && Tables() == old(Tables()) && pending == old(pending)
      ensures NameOf(doc.url) != "" ==> docs == old(docs)[doc.id := DocOf(doc)] && TablesOk()
      ensures NameOf(doc.url) != "" ==> IndexAdded(posting, position, pending, docs, doc)
      ensures NameOf(doc.url) != "" ==>
        Tables() == WithRest(WithLists(old(Tables()), doc), doc) && StoredNew(old(Tables()), Tables(), doc)
      ensures old(TimesMirrored(docTime, mtime)) ==> TimesMirrored(docTime, mtime)
      ensures PlacedIn(docUrl.stat, old(docUrl.idFilename), docUrl.idTree, docUrl.idFilename, doc)
    {
      var placed := Place(doc);
      if placed {
        Store(doc);
      }
    }

    /** Everything about a new document except its place in the tree. */
    method Store(doc: Document)
      requires Valid() && Unknown(doc.id) && ProperDocument(doc)
      modifies this`pending, this`docTerms, this`docXattrTerms, this`docFileNameTerms, this`docs
      modifies this`docTime, this`mtime, this`docData, this`contentIndexing
      ensures docs == old(docs)[doc.id := DocOf(doc)] && TablesOk()
      ensures IndexAdded(posting, position, pending, docs, doc)
      ensures Tables() == WithRest(WithLists(old(Tables()), doc), doc) && StoredNew(old(Tables()), Tables(), doc)
      ensures old(TimesMirrored(docTime, mtime)) ==> TimesMirrored(docTime, mtime)
    {
      AddAllTerms(doc);
      StoreRest(doc);
      NewIsStored(old(Tables()), doc);
    }

    /** The rest of addDocument, for an id without a time entry. */
    method StoreRest(doc: Document)
      requires doc.id !in docTime
      modifies this`docTime, this`mtime, this`docData, this`contentIndexing
      ensures Tables() == WithRest(old(Tables()), doc)
      ensures old(TimesMirrored(docTime, mtime)) ==> TimesMirrored(docTime, mtime)
    {
      if doc.contentIndexing {
        contentIndexing := contentIndexing + {doc.id};
      }
      docTime := docTime[doc.id := TimeInfo(doc.mTime, doc.cTime)];
      mtime := mtime + {(doc.mTime, doc.id)};
      if doc.data != [] {
        docData := docData[doc.id := doc.data];
      }
    }

    /**
      The three blocks of replaceDocument that concern terms.  The posting lists are right
      but for the terms that are lost, and the index is sound as before exactly if at no
      step a term belongs to two categories.
     */
    method ReplaceAllTerms(doc: Document, ops: Operations)
      requires Valid() && ProperTerms(doc) && (ops.terms ==> doc.terms != [])
      modifies this`pending, this`docTerms, this`docXattrTerms, this`docFileNameTerms, this`docs
      ensures TablesOk() && docs == Replaced(old(docs), doc, ops)
      ensures Tables() == ReplacedLists(old(Tables()), doc, ops)
      ensures IndexReplaced(posting, position, pending, old(docs), doc, ops)
    {
      ReplaceParts(doc, ops);
      WhenReplaced(posting, position, pending, old(docs), doc, ops);
    }

    method ReplaceParts(doc: Document, ops: Operations)
      requires Valid() && ProperTerms(doc) && (ops.terms ==> doc.terms != [])
      modifies this`pending, this`docTerms, this`docXattrTerms, this`docFileNameTerms, this`docs
      ensures TablesOk() && docs == Replaced(old(docs), doc, ops)
      ensures Tables() == ReplacedLists(old(Tables()), doc, ops)
      ensures Represents(posting, position, pending, ReplacedIndex(old(docs), doc, ops))
    {
      ghost var docs0 := docs;
      ghost var i1 := ReplacePartIf(ops.terms, Content, doc.id, doc.terms, Inversion(docs));
      ghost var i2 := ReplacePartIf(ops.xattrTerms, XAttr, doc.id, doc.xattrTerms, i1);
      ghost var i3 := ReplacePartIf(ops.fileNameTerms, FileName, doc.id, doc.fileNameTerms, i2);
      AfterThreeParts(docs0, doc, ops, i1, i2, i3);
      SameIndex(posting, position, pending, i3, ReplacedIndex(docs0, doc, ops));
    }

    method ReplacePartIf(on: bool, c: Category, id: Id, terms: seq<TermEntry>, ghost index: Index)
      returns (ghost index': Index)
      requires TablesOk() && DistinctTerms(terms) && (on && c == Content ==> terms != [])
      requires Represents(posting, position, pending, index)
      modifies this`pending, this`docTerms, this`docXattrTerms, this`docFileNameTerms, this`docs
      ensures TablesOk() && docs == UpdatedIf(on, old(docs), id, c, EntryMap(terms))
      ensures Represents(posting, position, pending, index')
      ensures PartDone(on, old(docs), id, c, EntryMap(terms), index, index')
      ensures Tables() ==
        if on then WithTable(old(Tables()), c, SetTerms(old(Table(c)), id, Keys(terms))) else old(Tables())
    {
      if on {
        ReplacePart(c, id, terms, index);
        index' := PartIndex(index, old(docs), id, c, EntryMap(terms));
        PartIsDone(index, old(docs), id, c, EntryMap(terms));
      } else {
        index' := index;
      }
    }

    /** The pair of the old modification time gives way to that of the new one. */
    method ReplaceTime(doc: Document)
      requires doc.id != 0
      modifies this`docTime, this`mtime
      ensures docTime == old(docTime)[doc.id := TimeInfo(doc.mTime, doc.cTime)]
      ensures old(TimesMirrored(docTime, mtime)) ==>
        (TimesMirrored(docTime, mtime) <==> doc.id in old(docTime) || doc.mTime != 0)
    {
      var info := if doc.id in docTime then docTime[doc.id] else TimeInfo(0, 0);
      if info.mTime != doc.mTime {
        mtime := mtime - {(info.mTime, doc.id)} + {(doc.mTime, doc.id)};
      }
      docTime := docTime[doc.id := TimeInfo(doc.mTime, doc.cTime)];
      assert (doc.mTime, doc.id) in mtime || (info.mTime == doc.mTime && (doc.mTime, doc.id) !in old(mtime));
    }

    /**
      Replaces the selected parts of a document.  The posting lists are right but for lost
      terms, and the whole index is sound exactly if the categories stay separate.  The
      times stay mirrored unless a time of 0 is entered for a document without one, and the
      forest survives a move exactly when it does not go below the document itself.
     */
    method ReplaceDocument(doc: Document, ops: Operations)
      requires Valid() && doc.id != 0 && ProperTerms(doc)
      requires (ops.terms ==> doc.terms != []) && (ops.url ==> NameOf(doc.url) != "")
      modifies this`pending, this`docTerms, this`docXattrTerms, this`docFileNameTerms, this`docs
      modifies this`docTime, this`mtime, this`docData, this`contentIndexing, docUrl`idTree, docUrl`idFilename
      ensures TablesOk() && docs == Replaced(old(docs), doc, ops)
      ensures IndexReplaced(posting, position, pending, old(docs), doc, ops)
      ensures Tables() == ReplacedRest(ReplacedLists(old(Tables()), doc, ops), doc, ops)
      ensures StoredReplaced(old(Tables()), Tables(), doc, ops)
      ensures old(TimesMirrored(docTime, mtime)) ==>
        (TimesMirrored(docTime, mtime) <==> !ops.time || doc.id in old(docTime) || doc.mTime != 0)
      ensures !ops.url ==> docUrl.idTree == old(docUrl.idTree) && docUrl.idFilename == old(docUrl.idFilename)
      ensures ops.url ==> docUrl.idFilename == old(docUrl.idFilename)[doc.id := FilePath(doc.parentId, NameOf(doc.url))]
      ensures ops.url && old(Forest(docUrl.idTree, docUrl.idFilename)) ==>
        (Forest(docUrl.idTree, docUrl.idFilename) <==>
          if doc.id in old(docUrl.idFilename) then MayMove(old(docUrl.idFilename), doc.id, doc.parentId)
          else doc.parentId in old(docUrl.idFilename))
    {
      ReplaceTables(doc, ops);
      if ops.url {
        docUrl.UpdateUrl(doc.id, doc.parentId, NameOf(doc.url));
      }
    }

    method ReplaceTables(doc: Document, ops: Operations)
      requires Valid() && doc.id != 0 && ProperTerms(doc) && (ops.terms ==> doc.terms != [])
      modifies this`pending, this`docTerms, this`docXattrTerms, this`docFileNameTerms, this`docs
      modifies this`docTime, this`mtime, this`docData, this`contentIndexing
      ensures TablesOk() && docs == Replaced(old(docs), doc, ops)
      ensures IndexReplaced(posting, position, pending, old(docs), doc, ops)
      ensures Tables() == ReplacedRest(ReplacedLists(old(Tables()), doc, ops), doc, ops)
      ensures StoredReplaced(old(Tables()), Tables(), doc, ops)
      ensures old(TimesMirrored(docTime, mtime)) ==>
        (TimesMirrored(docTime, mtime) <==> !ops.time || doc.id in old(docTime) || doc.mTime != 0)
    {
      ReplaceAllTerms(doc, ops);
      ReplaceRest(doc, ops);
      ReplacementIsStored(old(Tables()), doc, ops);
    }

    method ReplaceRest(doc: Document, ops: Operations)
      requires doc.id != 0
      modifies this`docTime, this`mtime, this`docData, this`contentIndexing
      ensures Tables() == ReplacedRest(old(Tables()), doc, ops)
      ensures old(TimesMirrored(docTime, mtime)) ==>
        (TimesMirrored(docTime, mtime) <==> !ops.time || doc.id in old(docTime) || doc.mTime != 0)
    {
      if doc.contentIndexing {
        contentIndexing := contentIndexing + {doc.id};
      }
      if ops.time {
        ReplaceTime(doc);
      }
      if ops.data && doc.data != [] {
        docData := docData[doc.id := doc.data];
      }
    }

    /**
      Replays one term's operations over its stored lists; the positions are only read when
      an operation needs them.
     */
    method CommitTerm(term: Term, operations: seq<Operation>)
      requires NothingEmpty(position)
      modifies this`posting, this`position
      ensures posting == Set(old(posting), term, ReplayIds(Get(old(posting), term), operations))
      ensures position == Set(old(position), term, ReplayPositions(Get(old(position), term), operations))
    {
      var list := Get(posting, term);
      var fetchedPositionList := false;
      var positionList: seq<PositionInfo> := [];
      for i := 0 to |operations|
        invariant list == ReplayIds(Get(posting, term), operations[..i])
        invariant (if fetchedPositionList then positionList else Get(position, term)) ==
          ReplayPositions(Get(position, term), operations[..i])
      {
        assert operations[..i + 1][..i] == operations[..i];
        var op := operations[i];
        match op {
          case AddId(data) =>
            list := SortedIdInsert(list, data.docId, IdOf);
            if data.positions != [] {
              if !fetchedPositionList {
                positionList, fetchedPositionList := Get(position, term), true;
              }
              positionList := SortedIdInsert(positionList, data, DocIdOf);
            }
          case RemoveId(data) =>
            list := SortedIdRemove(list, data.docId, IdOf);
            if !fetchedPositionList {
              positionList, fetchedPositionList := Get(position, term), true;
            }
            positionList := SortedIdRemove(positionList, data.docId, DocIdOf);
        }
      }
      assert operations[..|operations|] == operations;
      posting := Set(posting, term, list);
      if fetchedPositionList {
        position := Set(position, term, positionList);
      }
    }

    /**
      Replays the whole log, in whatever order the terms come.  Afterwards the stored lists
      are what the log said: for each term of the index exactly its documents, ascending,
      with their positions, and no empty lists.  If the log said what the documents say,
      they are the inversion of the documents.
     */
    method Commit(ghost index: Index)
      requires Represents(posting, position, pending, index)
      modifies this`posting, this`position, this`pending
      ensures Represents(posting, position, pending, index) && pending == map[]
      ensures forall term :: IdsInvert(index, term, Get(posting, term))
      ensures forall term :: PositionsInvert(index, term, Get(position, term))
      ensures forall term :: term in posting <==> exists id :: term in TermsOf(index, id)
    {
      var rest := pending.Keys;
      ghost var done: set<Term> := {};
      assert pending - {} == pending;
      while rest != {}
        invariant done + rest == pending.Keys && done !! rest
        invariant Represents(posting, position, pending - done, index)
        decreases rest
      {
        var term :| term in rest;
        StoreTerm(posting, position, pending - done, index, term);
        assert Get(pending - done, term) == pending[term] && pending - done - {term} == pending - (done + {term});
        CommitTerm(term, pending[term]);
        rest, done := rest - {term}, done + {term};
      }
      assert pending - done == map[];
      pending := map[];
      NothingPending(posting, position, index);
    }

    /** Logs the removal of all of a document's terms. */
    method LogRemoval(id: Id, ghost index: Index)
      requires TablesOk() && Represents(posting, position, pending, index)
      modifies this`pending
      ensures Represents(posting, position, pending, Unindexed(index, docs, id))
    {
      var terms, names, xattrs := GetTerms(docTerms, id), GetTerms(docFileNameTerms, id), GetTerms(docXattrTerms, id);
      assert ListsDoc(terms, Part(DocAt(docs, id), Content));
      assert ListsDoc(names, Part(DocAt(docs, id), FileName));
      assert ListsDoc(xattrs, Part(DocAt(docs, id), XAttr));
      RemoveTerms(id, terms, index);
      RemoveTerms(id, names, WithoutTerms(index, id, terms));
      if id in docXattrTerms {
        RemoveTerms(id, xattrs, WithoutTerms(WithoutTerms(index, id, terms), id, names));
      }
      RemovalLogged(posting, position, pending, index, docs, id, terms, names, xattrs);
    }

    /** Drops a document's forward lists. */
    method DropLists(id: Id)
      requires TablesOk()
      modifies this`docTerms, this`docXattrTerms, this`docFileNameTerms, this`docs
      ensures TablesOk() && docs == old(docs) - {id}
      ensures docTerms == old(docTerms) - {id} && docXattrTerms == old(docXattrTerms) - {id}
      ensures docFileNameTerms == old(docFileNameTerms) - {id}
    {
      RemovalLists(docTerms, docs, Content, {id});
      RemovalLists(docXattrTerms, docs, XAttr, {id});
      RemovalLists(docFileNameTerms, docs, FileName, {id});
      docTerms := docTerms - {id};
      docXattrTerms := docXattrTerms - {id};
      docFileNameTerms := docFileNameTerms - {id};
      docs := docs - {id};
    }

    method RemoveAllTerms(id: Id, ghost index: Index)
      requires TablesOk() && Represents(posting, position, pending, index)
      modifies this`pending, this`docTerms, this`docXattrTerms, this`docFileNameTerms, this`docs
      ensures TablesOk() && docs == old(docs) - {id}
      ensures Represents(posting, position, pending, Unindexed(index, old(docs), id))
      ensures docTerms == old(docTerms) - {id} && docXattrTerms == old(docXattrTerms) - {id}
      ensures docFileNameTerms == old(docFileNameTerms) - {id}
    {
      LogRemoval(id, index);
      DropLists(id);
    }

    /** Forgets when a document was modified. */
    method DropTime(id: Id)
      modifies this`docTime, this`mtime
      ensures docTime == old(docTime) - {id}
      ensures old(TimesMirrored(docTime, mtime)) ==> TimesMirrored(docTime, mtime)
    {
      var info := if id in docTime then docTime[id] else TimeInfo(0, 0);
      docTime := docTime - {id};
      mtime := mtime - {(info.mTime, id)};
    }

    /**
      Erases one document everywhere.  The directory tree stays a forest exactly if the
      document is unknown to it or has no children; the index, whatever it says of other
      documents, has none of its terms any more.
     */
    method RemoveDocument(id: Id, ghost index: Index)
      requires TablesOk() && id != 0 && Represents(posting, position, pending, index)
      modifies this`pending, this`docTerms, this`docXattrTerms, this`docFileNameTerms, this`docs
      modifies this`docTime, this`mtime, this`docData, this`contentIndexing, this`failed
      modifies docUrl`idTree, docUrl`idFilename
      ensures TablesOk() && Now() == Without(old(Now()), {id}) && ErasedEverywhere(old(Now()), Now(), {id})
      ensures Unknown(id) && id !in failed
      ensures Represents(posting, position, pending, Unindexed(index, old(docs), id))
      ensures old(TimesMirrored(docTime, mtime)) ==> TimesMirrored(docTime, mtime)
      ensures old(Forest(docUrl.idTree, docUrl.idFilename)) ==>
        Mirror(docUrl.idTree, docUrl.idFilename) &&
        (Forest(docUrl.idTree, docUrl.idFilename) <==>
          id !in old(docUrl.idFilename) || GetChildren(old(docUrl.idTree), id) == [])
    {
      RemoveAllTerms(id, index);
      docUrl.Del(id);
      contentIndexing := contentIndexing - {id};
      failed := failed - {id};
      DropTime(id);
      docData := docData - {id};
      WithoutErases(old(Now()), {id});
    }

    /** Keeps a sound index sound. */
    method RemoveSoundly(id: Id)
      requires Valid() && id != 0
      modifies this`pending, this`docTerms, this`docXattrTerms, this`docFileNameTerms, this`docs
      modifies this`docTime, this`mtime, this`docData, this`contentIndexing, this`failed
      modifies docUrl`idTree, docUrl`idFilename
      ensures Valid() && Now() == Without(old(Now()), {id}) && ErasedEverywhere(old(Now()), Now(), {id})
      ensures Unknown(id) && id !in failed
      ensures old(TimesMirrored(docTime, mtime)) ==> TimesMirrored(docTime, mtime)
      ensures old(Forest(docUrl.idTree, docUrl.idFilename)) ==>
        Mirror(docUrl.idTree, docUrl.idFilename) &&
        (Forest(docUrl.idTree, docUrl.idFilename) <==>
          id !in old(docUrl.idFilename) || GetChildren(old(docUrl.idTree), id) == [])
    {
      ghost var docs0 := docs;
      RemoveDocument(id, Inversion(docs));
      SoundWithout(posting, position, pending, docs0, id);
    }

    /** Erases a document and everything below it: exactly p and its descendants, each from every table. */
    method RemoveRecursively(p: Id)
      requires Valid() && p != 0 && Forest(docUrl.idTree, docUrl.idFilename)
      modifies this`pending, this`docTerms, this`docXattrTerms, this`docFileNameTerms, this`docs
      modifies this`docTime, this`mtime, this`docData, this`contentIndexing, this`failed
      modifies docUrl`idTree, docUrl`idFilename
      ensures Valid() && Forest(docUrl.idTree, docUrl.idFilename)
      ensures Now() == Without(old(Now()), Family(old(docUrl.idFilename), p))
      ensures ErasedEverywhere(old(Now()), Now(), Family(old(docUrl.idFilename), p))
      ensures old(TimesMirrored(docTime, mtime)) ==> TimesMirrored(docTime, mtime)
      decreases Family(docUrl.idFilename, p), 1
    {
      ghost var tree, before := docUrl.idTree, Now();
      var children := GetChildren(docUrl.idTree, p);
      RemoveChildren(p, children);
      AllChildrenGone(tree, before.files, p, docUrl.idTree, docUrl.idFilename);
      RemoveSoundly(p);
      WithoutMore(before, Families(before.files, children), {p});
      WithoutErases(before, Family(before.files, p));
    }

    method RemoveChildren(ghost p: Id, children: seq<Id>)
      requires Valid() && p != 0 && Forest(docUrl.idTree, docUrl.idFilename) &&
        children == GetChildren(docUrl.idTree, p)
      modifies this`pending, this`docTerms, this`docXattrTerms, this`docFileNameTerms, this`docs
      modifies this`docTime, this`mtime, this`docData, this`contentIndexing, this`failed
      modifies docUrl`idTree, docUrl`idFilename
      ensures Valid() && Forest(docUrl.idTree, docUrl.idFilename)
      ensures Now() == Without(old(Now()), Families(old(docUrl.idFilename), children))
      ensures old(TimesMirrored(docTime, mtime)) ==> TimesMirrored(docTime, mtime)
      decreases Family(docUrl.idFilename, p), 0
    {
      ghost var tree, before := docUrl.idTree, Now();
      WithoutNothing(before);
      for i := 0 to |children|
        invariant Valid() && Forest(docUrl.idTree, docUrl.idFilename)
        invariant Now() == Without(before, Families(before.files, children[..i]))
        invariant old(TimesMirrored(docTime, mtime)) ==> TimesMirrored(docTime, mtime)
      {
        NextChild(tree, before.files, p, i, docUrl.idFilename);
        if children[i] != 0 {
          RemoveRecursively(children[i]);
        }
        WithoutMore(before, Families(before.files, children[..i]), Family(before.files, children[i]));
      }
      assert children[..|children|] == children;
    }

    /**
      Erases below p only what shouldDelete says, and never a node with something left
      below it: what goes are the nodes whose whole branch is to go.
     */
    method RemoveRecursivelyIf(p: Id, shouldDelete: string -> bool) returns (removed: bool)
      requires Valid() && p != 0 && Forest(docUrl.idTree, docUrl.idFilename)
      modifies this`pending, this`docTerms, this`docXattrTerms, this`docFileNameTerms, this`docs
      modifies this`docTime, this`mtime, this`docData, this`contentIndexing, this`failed
      modifies docUrl`idTree, docUrl`idFilename
      ensures Valid() && Forest(docUrl.idTree, docUrl.idFilename)
      ensures Now() == Without(old(Now()), Removed(old(docUrl.idFilename), shouldDelete, p))
      ensures ErasedEverywhere(old(Now()), Now(), Removed(old(docUrl.idFilename), shouldDelete, p))
      ensures old(TimesMirrored(docTime, mtime)) ==> TimesMirrored(docTime, mtime)
      ensures removed <==> p in Removed(old(docUrl.idFilename), shouldDelete, p)
      decreases Family(docUrl.idFilename, p), 1
    {
      ghost var tree, before := docUrl.idTree, Now();
      WithoutErases(before, Removed(before.files, shouldDelete, p));
      var url := docUrl.Get(p);
      if !shouldDelete(url) {
        KeptRoot(before.files, shouldDelete, p);
        WithoutNothing(before);
        return false;
      }
      var children := GetChildren(docUrl.idTree, p);
      var isEmpty := RemoveChildrenIf(p, children, shouldDelete);
      RemovedUnfolds(tree, before.files, shouldDelete, p);
      LeftBelow(tree, before.files, shouldDelete, p, docUrl.idTree, docUrl.idFilename);
      if isEmpty && GetChildren(docUrl.idTree, p) == [] {
        RemoveSoundly(p);
        WithoutMore(before, RemovedBelow(before.files, shouldDelete, children, |children|), {p});
        return true;
      }
      return false;
    }

    method RemoveChildrenIf(ghost p: Id, children: seq<Id>, shouldDelete: string -> bool) returns (isEmpty: bool)
      requires Valid() && p != 0 && Forest(docUrl.idTree, docUrl.idFilename) &&
        children == GetChildren(docUrl.idTree, p)
      modifies this`pending, this`docTerms, this`docXattrTerms, this`docFileNameTerms, this`docs
      modifies this`docTime, this`mtime, this`docData, this`contentIndexing, this`failed
      modifies docUrl`idTree, docUrl`idFilename
      ensures Valid() && Forest(docUrl.idTree, docUrl.idFilename)
      ensures Now() == Without(old(Now()), RemovedBelow(old(docUrl.idFilename), shouldDelete, children, |children|))
      ensures old(TimesMirrored(docTime, mtime)) ==> TimesMirrored(docTime, mtime)
      ensures isEmpty <==> forall c :: c in children ==> c in Removed(old(docUrl.idFilename), shouldDelete, c)
      decreases Family(docUrl.idFilename, p), 0
    {
      ghost var tree, before := docUrl.idTree, Now();
      WithoutNothing(before);
      isEmpty := true;
      for i := 0 to |children|
        invariant Valid() && Forest(docUrl.idTree, docUrl.idFilename)
        invariant Now() == Without(before, RemovedBelow(before.files, shouldDelete, children, i))
        invariant old(TimesMirrored(docTime, mtime)) ==> TimesMirrored(docTime, mtime)
        invariant isEmpty <==>
          forall j :: 0 <= j < i ==> children[j] in Removed(before.files, shouldDelete, children[j])
      {
        NextCandidate(tree, before.files, shouldDelete, p, i, docUrl.idFilename);
        WithoutNext(before, shouldDelete, children, i);
        if children[i] != 0 {
          var removed := RemoveRecursivelyIf(children[i], shouldDelete);
          assert removed <==> children[i] in Removed(before.files, shouldDelete, children[i]);
          isEmpty := isEmpty && removed;
        }
      }
    }
  }

  /** What goes with one more child. */
  lemma WithoutNext(s: Snapshot, shouldDelete: string -> bool, children: seq<Id>, i: nat)
    requires Acyclic(s.files) && i < |children|
    ensures
      Without(Without(s, RemovedBelow(s.files, shouldDelete, children, i)), Removed(s.files, shouldDelete, children[i]))
      == Without(s, RemovedBelow(s.files, shouldDelete, children, i + 1))
  {
    WithoutMore(s, RemovedBelow(s.files, shouldDelete, children, i), Removed(s.files, shouldDelete, children[i]));
  }

  /** Once what goes below p is gone, p is a leaf exactly when all of its children went. */
  lemma LeftBelow(children: Children, files: Files, shouldDelete: string -> bool, p: Id, children': Children,
                  rest: Files)
    requires Forest(children, files) && p != 0 && shouldDelete(PathOf(files, p)) && Forest(children', rest)
    requires rest == files - (Removed(files, shouldDelete, p) - {p})
    ensures p in Removed(files, shouldDelete, p) ==> GetChildren(children', p) == []
    ensures p in Removed(files, shouldDelete, p) ==>
      Removed(files, shouldDelete, p) - {p} + {p} == Removed(files, shouldDelete, p)
    ensures p !in Removed(files, shouldDelete, p) ==>
      Removed(files, shouldDelete, p) - {p} == Removed(files, shouldDelete, p)
  {
    if p in Removed(files, shouldDelete, p) {
      RemovedDownClosed(files, shouldDelete, p);
      if GetChildren(children', p) != [] {
        var c := GetChildren(children', p)[0];
        assert c in GetChildren(children', p) <==> c in rest && rest[c].parentId == p;
        BelowItself(files, c);
        ParentNotBelow(files, c);
      }
    }
  }
}
