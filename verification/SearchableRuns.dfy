/**
  What a search by name finds after any run of operations that keep to the names: from
  the first document that is added to the list of answers.
 */
module SearchableRuns {
  import opened IdUtils
  import opened IdTree
  import opened InvertedIndex
  import opened Documents
  import opened AddPaths
  import opened Replacements
  import opened Removals
  import opened StoredTables
  import opened Transactions
  import opened MetadataMovers
  import opened NameIndexing
  import opened CommittedQueries
  import opened TransactionRuns

  /** File name terms are the prefixed words of names, in order, and no other terms look like them. */
  ghost predicate Segments(l: Language, termList: string -> seq<Term>) {
    Spoken(l) && NamesTerms(l.nameTerms, termList) && ProperTermsOf(l.nameTerms) &&
    forall word :: l.kind(FileNameTerm(word)) == FileName
  }

  /** The documents can be searched by name. */
  ghost predicate Searchable(s: Snapshot, termList: string -> seq<Term>) {
    ProperDocs(s.docs) && NamesIndexed(s.docs, s.files, termList)
  }

  /** New terms have their positions in order, and a new name comes with its terms. */
  ghost predicate KeepsNames(step: Step, l: Language) {
    match step
    case Add(doc) => PositionsInOrder(doc) && doc.fileNameTerms == l.nameTerms(NameOf(doc.url))
    case Replace(doc, ops) =>
      PositionsInOrder(doc) && ops.fileNameTerms == ops.url &&
      (ops.url ==> doc.fileNameTerms == l.nameTerms(NameOf(doc.url)))
    case _ => true
  }

  ghost predicate PositionsInOrder(doc: Document) {
    PartsInOrder(DocOf(doc))
  }

  ghost predicate PartsInOrder(doc: Doc) {
    InOrder(doc.content) && InOrder(doc.xattr) && InOrder(doc.fileName)
  }

  lemma ProperParts(doc: Doc)
    requires Separate(doc)
    ensures ProperDoc(doc) <==> PartsInOrder(doc)
  {
    assert forall t :: t in doc.content ==> Merge(doc)[t] == doc.content[t];
    assert forall t :: t in doc.xattr ==> Merge(doc)[t] == doc.xattr[t];
    assert forall t :: t in doc.fileName ==> Merge(doc)[t] == doc.fileName[t];
  }

  /** Terms of their kinds: only file name terms have the prefix. */
  lemma KindsNamed(l: Language, termList: string -> seq<Term>, doc: Doc)
    requires Segments(l, termList) && OfKind(l.kind, doc)
    ensures Unnamed(doc)
  {
    forall word ensures FileNameTerm(word) !in doc.content && FileNameTerm(word) !in doc.xattr {
      assert FileNameTerm(word) in doc.content ==> FileNameTerm(word) in Part(doc, Content);
      assert FileNameTerm(word) in doc.xattr ==> FileNameTerm(word) in Part(doc, XAttr);
    }
  }

  /** Each step of a run keeps the documents searchable. */
  lemma StepKeepsNames(l: Language, termList: string -> seq<Term>, m: Moment, step: Step, m': Moment)
    requires Segments(l, termList) && KeepsNames(step, l) && Searchable(m.now, termList)
    requires Whole(m, l.kind) && Whole(m', l.kind) && Next(m, step, m', l)
    ensures Searchable(m'.now, termList)
  {
    if Ready(m, step, l.kind) {
      match step
      case Add(doc) => AddStays(l, termList, m, doc, m');
      case Replace(doc, ops) => ReplaceStays(l, termList, m.now, doc, ops, m'.now);
      case Remove(id) => RemovingKeepsNames(m.now, {id}, termList);
      case RemoveTree(p) => RemovingKeepsNames(m.now, Family(m.now.files, p), termList);
      case RemoveTreeIf(p, shouldDelete) =>
        RemovingKeepsNames(m.now, Removed(m.now.files, shouldDelete, p), termList);
      case Move(from, to) => MoveStays(l, termList, m, from, to, m');
      case _ =>
    }
  }

  lemma AddStays(l: Language, termList: string -> seq<Term>, m: Moment, doc: Document, m': Moment)
    requires Segments(l, termList) && KeepsNames(Add(doc), l) && Searchable(m.now, termList)
    requires Whole(m, l.kind) && Whole(m', l.kind) && Ready(m, Add(doc), l.kind) && Took(m, Add(doc), m', l)
    ensures Searchable(m'.now, termList)
  {
    DocumentOfKind(l.kind, doc);
    AtHome(doc.url);
    KindsNamed(l, termList, DocOf(doc));
    assert NameTermsAre(l.nameTerms(NameOf(doc.url)), NameOf(doc.url), termList);
    AddKeepsNames(m.now.docs, m.now.files, m'.now.files, doc, termList);
    ProperParts(DocOf(doc));
  }

  lemma ReplaceStays(l: Language, termList: string -> seq<Term>, s: Snapshot, doc: Document, ops: Operations,
                     s': Snapshot)
    requires Segments(l, termList) && KeepsNames(Replace(doc, ops), l) && Searchable(s, termList) && doc.id != 0
    requires AllSeparate(s.docs) && AllSeparate(s'.docs) && OfKinds(l.kind, s'.docs)
    requires s'.docs == Replaced(s.docs, doc, ops)
    requires s'.files == if ops.url then s.files[doc.id := FilePath(doc.parentId, NameOf(doc.url))] else s.files
    ensures Searchable(s', termList)
  {
    forall x | x in s'.docs ensures ProperDoc(s'.docs[x]) && NameIndexed(s'.docs[x], s'.files, x, termList) {
      ReplacedDoc(s.docs, doc, ops);
      if x == doc.id {
        OneReplaced(l, termList, s, doc, ops, s');
      } else {
        assert DocAt(s'.docs, x) == DocAt(s.docs, x) && x in s.docs;
        OtherStays(termList, s, s', x);
      }
    }
  }

  lemma OtherStays(termList: string -> seq<Term>, s: Snapshot, s': Snapshot, x: Id)
    requires Searchable(s, termList) && x in s.docs && x in s'.docs && s'.docs[x] == s.docs[x]
    requires x in s.files ==> x in s'.files && s'.files[x] == s.files[x]
    ensures ProperDoc(s'.docs[x]) && NameIndexed(s'.docs[x], s'.files, x, termList)
  {
    assert NameIndexed(s.docs[x], s.files, x, termList);
  }

  lemma OneReplaced(l: Language, termList: string -> seq<Term>, s: Snapshot, doc: Document, ops: Operations,
                    s': Snapshot)
    requires Segments(l, termList) && KeepsNames(Replace(doc, ops), l) && Searchable(s, termList)
    requires AllSeparate(s.docs) && AllSeparate(s'.docs) && OfKinds(l.kind, s'.docs) && doc.id in s'.docs
    requires s'.docs[doc.id] == DocAfter(DocAt(s.docs, doc.id), doc, ops)
    requires s'.files == if ops.url then s.files[doc.id := FilePath(doc.parentId, NameOf(doc.url))] else s.files
    ensures ProperDoc(s'.docs[doc.id]) && NameIndexed(s'.docs[doc.id], s'.files, doc.id, termList)
  {
    var was := DocAt(s.docs, doc.id);
    assert doc.id in s.docs ==> NameIndexed(was, s.files, doc.id, termList) && ProperDoc(was);
    ReplacedNamed(l, termList, was, doc, ops, s.files, s'.files);
    ReplacedInOrder(was, doc, ops);
  }

  lemma ReplacedNamed(l: Language, termList: string -> seq<Term>, was: Doc, doc: Document, ops: Operations,
                      files: Files, files': Files)
    requires Segments(l, termList) && KeepsNames(Replace(doc, ops), l) && OfKind(l.kind, DocAfter(was, doc, ops))
    requires was == EMPTY_DOC || NameIndexed(was, files, doc.id, termList)
    requires files' == if ops.url then files[doc.id := FilePath(doc.parentId, NameOf(doc.url))] else files
    ensures NameIndexed(DocAfter(was, doc, ops), files', doc.id, termList)
  {
    var after, name := DocAfter(was, doc, ops), NameOf(doc.url);
    KindsNamed(l, termList, after);
    assert NameTermsAre(l.nameTerms(name), name, termList);
    if ops.url {
      assert Named(after, name, termList);
    } else if after.fileName != map[] {
      assert Named(was, files[doc.id].name, termList);
      assert Named(after, files[doc.id].name, termList);
    }
  }

  lemma ReplacedInOrder(was: Doc, doc: Document, ops: Operations)
    requires PositionsInOrder(doc) && Separate(was) && ProperDoc(was) && Separate(DocAfter(was, doc, ops))
    ensures ProperDoc(DocAfter(was, doc, ops))
  {
    ProperParts(was);
    ProperParts(DocAfter(was, doc, ops));
  }

  lemma MoveStays(l: Language, termList: string -> seq<Term>, m: Moment, from: string, to: string, m': Moment)
    requires Segments(l, termList) && Searchable(m.now, termList)
    requires Whole(m, l.kind) && Whole(m', l.kind)
    requires MoveHappened(m, m', from, to, l.nameTerms)
    ensures Searchable(m'.now, termList)
  {
    var gone, id, parentId :| MoveMade(m.now, m'.now, m'.children, from, to, l.nameTerms, gone, id, parentId);
    MoveKeepsNames(m.now, m'.now, to, l.nameTerms, gone, id, parentId, termList);
    MoveKeepsProper(m.now, m'.now, to, l.nameTerms, gone, id, parentId);
  }

  /** So does any run. */
  lemma {:induction false} RunKeepsNames(l: Language, termList: string -> seq<Term>, h: seq<Moment>,
                                         steps: seq<Step>, i: nat)
    requires Segments(l, termList) && History(h, steps, l) && i <= |steps|
    requires h[0].now == EMPTY && forall j :: 0 <= j < |steps| ==> KeepsNames(steps[j], l)
    ensures Searchable(h[i].now, termList)
  {
    if i > 0 {
      RunKeepsNames(l, termList, h, steps, i - 1);
      StepKeepsNames(l, termList, h[i - 1], steps[i - 1], h[i]);
    }
  }

  /**
    From an empty index through any run to a search by name: after a commit the answers are
    those of a scan of the names under which the documents are stored.
   */
  method RunAndFindNames(stat: string -> Id, l: Language, steps: seq<Step>, termList: string -> seq<Term>,
                         query: seq<Term>, expandLast: bool)
    returns (results: seq<Id>, ghost h: seq<Moment>)
    requires Injective(stat) && Segments(l, termList) && forall j :: 0 <= j < |steps| ==> KeepsNames(steps[j], l)
    requires forall i :: 0 <= i < |steps| && steps[i].ChangeDisk? ==> Injective(steps[i].stat)
    ensures History(h, steps, l) && h[0].now == EMPTY && h[0].stat == stat && Ascending(results, IdOf)
    ensures forall id :: id in results <==>
      query != [] && NameAnswers(h[|steps|].now.docs, h[|steps|].now.files, termList, query, expandLast, id)
  {
    var tx;
    tx, h := Run(stat, l, steps);
    RunKeepsNames(l, termList, h, steps, |steps|);
    NamesAreIndexed(tx.docs, tx.docUrl.idFilename, termList);
    DocsAreProper(tx.docs);
    results := CommitAndFindNames(tx, termList, query, expandLast);
  }
}
