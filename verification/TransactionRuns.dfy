/**
  Whole transactions: any sequence of the operations of src/engine/writetransaction.cpp
  and src/file/metadatamover.cpp, while the file system changes at will.
 */
module TransactionRuns {
  import opened IdUtils
  import opened IdTree
  import opened InvertedIndex
  import opened Documents
  import opened Urls
  import opened AddPaths
  import opened TreeUpdates
  import opened DocumentUrlDBs
  import opened MTimeDBs
  import opened Removals
  import opened Replacements
  import opened StoredTables
  import opened WriteTransactions
  import opened Paths
  import opened Relocations
  import opened MetadataMovers

  /** How terms are made: their categories can be told apart, and file names have terms of their own. */
  datatype Language = Language(kind: Term -> Category, nameTerms: string -> seq<TermEntry>)

  ghost predicate Spoken(l: Language) {
    forall name {:trigger l.nameTerms(name)} ::
      DistinctTerms(l.nameTerms(name)) && OfKind(l.kind, Doc(map[], map[], EntryMap(l.nameTerms(name))))
  }

  datatype Step =
    Add(doc: Document) | Replace(doc: Document, ops: Operations) | Remove(id: Id) |
    RemoveTree(p: Id) | RemoveTreeIf(p: Id, shouldDelete: string -> bool) | Store |
    Move(from: string, to: string) | ChangeDisk(stat: string -> Id)

  /** All tables, the log, what they mean, and the file system. */
  datatype Moment = Moment(stat: string -> Id, children: Children, now: Snapshot, mtime: MTimes,
                           posting: Postings, position: Positions, pending: Pending)

  ghost function Seen(tx: WriteTransaction): Moment
    reads tx, tx.docUrl
  {
    Moment(tx.docUrl.stat, tx.docUrl.idTree, tx.Now(), tx.mtime, tx.posting, tx.position, tx.pending)
  }

  /** Index, forward tables, times and tree are all in order, and each category has its kind of terms. */
  ghost predicate Whole(m: Moment, kind: Term -> Category) {
    var s := m.now.stored;
    ListsOk(s.docTerms, s.docXattrTerms, s.docFileNameTerms, m.now.docs) &&
    Sound(m.now.docs, m.posting, m.position, m.pending) && Forest(m.children, m.now.files) &&
    TimesMirrored(s.docTime, m.mtime) && Injective(m.stat) && OfKinds(kind, m.now.docs)
  }

  /** The terms of a category are of its kind. */
  predicate TermsOfKind(kind: Term -> Category, terms: seq<TermEntry>, c: Category) {
    forall i :: 0 <= i < |terms| ==> kind(terms[i].term) == c
  }

  predicate OfItsKinds(kind: Term -> Category, doc: Document) {
    TermsOfKind(kind, doc.terms, Content) && TermsOfKind(kind, doc.xattrTerms, XAttr) &&
    TermsOfKind(kind, doc.fileNameTerms, FileName)
  }

  lemma DocumentOfKind(kind: Term -> Category, doc: Document)
    requires OfItsKinds(kind, doc)
    ensures OfKind(kind, DocOf(doc)) && Separate(DocOf(doc))
  {
    EntryMapKeys(doc.terms);
    EntryMapKeys(doc.xattrTerms);
    EntryMapKeys(doc.fileNameTerms);
    KindsSeparate(kind, DocOf(doc));
  }

  /** What a step needs to leave everything in order, in terms of its arguments and the tables. */
  ghost predicate Ready(m: Moment, step: Step, kind: Term -> Category)
    requires Acyclic(m.now.files)
  {
    match step
    case Add(doc) => ReadyToAdd(m.stat, m.now.files, m.now.stored, doc, kind)
    case Replace(doc, ops) =>
      ReadyToReplace(m.now.files, m.now.stored, doc, ops, kind) &&
      (ops.url ==> MayMove(m.now.files, doc.id, doc.parentId))
    case Remove(id) => id != 0 && (id !in m.now.files || GetChildren(m.children, id) == [])
    case RemoveTree(p) => p != 0
    case RemoveTreeIf(p, _) => p != 0
    case Store => true
    case Move(from, to) => ReadyToMove(m.now.files, from, to) && Removable(m.now.files, to)
    case ChangeDisk(_) => true
  }

  predicate ReadyToAdd(stat: string -> Id, files: Files, s: Stored, doc: Document, kind: Term -> Category) {
    doc.id != 0 && doc.parentId != 0 && NotStored(s, doc.id) && ProperDocument(doc) && OfItsKinds(kind, doc) &&
    OnDisk(stat, files, doc) && MayPut(files, doc.id, TreeParent(doc))
  }

  predicate ReadyToReplace(files: Files, s: Stored, doc: Document, ops: Operations, kind: Term -> Category) {
    doc.id != 0 && ProperTerms(doc) && OfItsKinds(kind, doc) && (ops.terms ==> doc.terms != []) &&
    (ops.time ==> doc.id in s.docTime || doc.mTime != 0) && (ops.url ==> NameOf(doc.url) != "" && doc.id in files)
  }

  /** The target is not inside the source, and paths identify entries. */
  predicate ReadyToMove(files: Files, from: string, to: string) {
    UniqueNames(files) && ProperPath(from) && ProperPath(to) &&
    !(Components(from) <= Components(ParentPath(Chop(to))))
  }

  /** What a step does to the tables and to what they mean. */
  ghost predicate Took(m: Moment, step: Step, m': Moment, l: Language)
    requires Acyclic(m.now.files)
  {
    match step
    case Add(doc) =>
      m'.now.docs == m.now.docs[doc.id := DocOf(doc)] && m'.stat == m.stat &&
      m'.now.stored == StoredTables.WithRest(WithLists(m.now.stored, doc), doc) &&
      PlacedIn(m.stat, m.now.files, m'.children, m'.now.files, doc)
    case Replace(doc, ops) =>
      m'.now.docs == Replaced(m.now.docs, doc, ops) && m'.stat == m.stat &&
      m'.now.stored == ReplacedRest(ReplacedLists(m.now.stored, doc, ops), doc, ops) &&
      m'.now.files == if ops.url then m.now.files[doc.id := FilePath(doc.parentId, NameOf(doc.url))] else m.now.files
    case Remove(id) => m'.now == Without(m.now, {id}) && m'.stat == m.stat
    case RemoveTree(p) => m'.now == Without(m.now, Family(m.now.files, p)) && m'.stat == m.stat
    case RemoveTreeIf(p, shouldDelete) =>
      m'.now == Without(m.now, Removed(m.now.files, shouldDelete, p)) && m'.stat == m.stat
    case Store => m' == m.(posting := m'.posting, position := m'.position, pending := map[])
    case Move(from, to) => MoveHappened(m, m', from, to, l.nameTerms) && m'.pending == map[] && m'.stat == m.stat
    case ChangeDisk(stat) => m' == m.(stat := stat)
  }

  ghost predicate MoveHappened(m: Moment, m': Moment, from: string, to: string, nameTerms: string -> seq<TermEntry>)
    requires Acyclic(m.now.files)
  {
    exists gone, id, parentId :: MoveMade(m.now, m'.now, m'.children, from, to, nameTerms, gone, id, parentId)
  }

  /** One step of a run: it is taken if it is ready, and left out if not. */
  ghost predicate Next(m: Moment, step: Step, m': Moment, l: Language)
    requires Acyclic(m.now.files)
  {
    if Ready(m, step, l.kind) then Took(m, step, m', l) else m' == m
  }

  /** A run as it was seen before its first step and after each. */
  ghost predicate History(h: seq<Moment>, steps: seq<Step>, l: Language) {
    |h| == |steps| + 1 && Recorded(h, steps, l)
  }

  /** The same for a run that is not over yet. */
  ghost predicate Recorded(h: seq<Moment>, steps: seq<Step>, l: Language) {
    0 < |h| <= |steps| + 1 && (forall i :: 0 <= i < |h| ==> Whole(h[i], l.kind)) &&
    forall i {:trigger steps[i]} :: 0 <= i < |h| - 1 ==> Next(h[i], steps[i], h[i + 1], l)
  }

  lemma RecordNext(h: seq<Moment>, steps: seq<Step>, l: Language, m: Moment)
    requires Recorded(h, steps, l) && |h| <= |steps| && Whole(m, l.kind) && Next(h[|h| - 1], steps[|h| - 1], m, l)
    ensures Recorded(h + [m], steps, l)
  {
    var h' := h + [m];
    forall i {:trigger steps[i]} | 0 <= i < |h| ensures Next(h'[i], steps[i], h'[i + 1], l) {
      assert h'[i] == h[i] && (i < |h| - 1 ==> h'[i + 1] == h[i + 1]);
    }
  }

  /** Whether an entry may move under a parent, found out by climbing from the parent. */
  method TestMove(files: Files, id: Id, parent: Id) returns (ok: bool)
    requires Acyclic(files) && id != 0
    ensures ok <==> MayMove(files, id, parent)
  {
    if parent != 0 && parent !in files {
      return false;
    }
    TopDepth(files);
    var n := parent;
    while n != 0
      invariant (n == 0 || n in files) && Grounded(files, n) && Grounded(files, 0)
      invariant Below(files, parent, id) <==> Below(files, n, id)
      decreases Depth(files, n)
    {
      BelowUnfolds(files, n, id);
      if n == id {
        return false;
      }
      ParentGrounded(files, n);
      n := files[n].parentId;
    }
    BelowUnfolds(files, 0, id);
    return true;
  }

  lemma BelowUnfolds(files: Files, n: Id, id: Id)
    requires Acyclic(files) && id != 0
    ensures Below(files, n, id) <==> n == id || (n in files && Below(files, files[n].parentId, id))
  {
    if n == id {
      BelowItself(files, n);
    } else if Below(files, n, id) {
      var k: nat :| Up(files, n, k) == id;
      assert n in files && Up(files, files[n].parentId, k - 1) == id;
    } else if n in files && Below(files, files[n].parentId, id) {
      var k: nat :| Up(files, files[n].parentId, k) == id;
      assert Up(files, n, k + 1) == id;
    }
  }

  lemma AtHome(url: string)
    requires CleanPath(url) && url != ""
    ensures CleanDirectory(url) && NameOf(url) != ""
  {
  }

  /** Whether a step is ready. */
  method Test(tx: WriteTransaction, step: Step, l: Language) returns (ready: bool)
    requires Whole(Seen(tx), l.kind)
    ensures ready == Ready(Seen(tx), step, l.kind)
  {
    var files := tx.docUrl.idFilename;
    match step
    case Add(doc) => ready := ReadyToAdd(tx.docUrl.stat, files, tx.Tables(), doc, l.kind);
    case Replace(doc, ops) =>
      ready := ReadyToReplace(files, tx.Tables(), doc, ops, l.kind);
      if ready && ops.url {
        ready := TestMove(files, doc.id, doc.parentId);
      }
    case Remove(id) => ready := id != 0 && (id !in files || GetChildren(tx.docUrl.idTree, id) == []);
    case RemoveTree(p) => ready := p != 0;
    case RemoveTreeIf(p, _) => ready := p != 0;
    case Store => ready := true;
    case Move(from, to) =>
      ready := ReadyToMove(files, from, to);
      if ready {
        var id := tx.docUrl.DocumentId(to);
        LocatedIs(files, Components(to), id);
        LeafIs(tx.docUrl.idTree, files, id);
        ready := id == 0 || EndsWithSlash(to) || GetChildren(tx.docUrl.idTree, id) == [];
      }
    case ChangeDisk(_) => ready := true;
  }

  /** Takes a step if everything stays in order with it. */
  method Perform(tx: WriteTransaction, step: Step, l: Language)
    requires Whole(Seen(tx), l.kind) && Spoken(l) && (step.ChangeDisk? ==> Injective(step.stat))
    modifies tx, tx.docUrl
    ensures Whole(Seen(tx), l.kind) && Next(old(Seen(tx)), step, Seen(tx), l)
  {
    var ready := Test(tx, step, l);
    if ready {
      Take(tx, step, l);
    }
  }

  method Take(tx: WriteTransaction, step: Step, l: Language)
    requires Whole(Seen(tx), l.kind) && Spoken(l) && (step.ChangeDisk? ==> Injective(step.stat))
    requires Ready(Seen(tx), step, l.kind)
    modifies tx, tx.docUrl
    ensures Whole(Seen(tx), l.kind) && Took(old(Seen(tx)), step, Seen(tx), l)
  {
    match step
    case Add(doc) => TakeAdd(tx, doc, l);
    case Replace(doc, ops) => TakeReplace(tx, doc, ops, l);
    case Remove(id) => TakeRemove(tx, id, l);
    case RemoveTree(p) => TakeRemoveTree(tx, p, l);
    case RemoveTreeIf(p, shouldDelete) => TakeRemoveTreeIf(tx, p, shouldDelete, l);
    case Store => tx.Commit(Inversion(tx.docs));
    case Move(from, to) => TakeMove(tx, from, to, l);
    case ChangeDisk(stat) => tx.docUrl.stat := stat;
  }

  method TakeAdd(tx: WriteTransaction, doc: Document, l: Language)
    requires Whole(Seen(tx), l.kind) && Ready(Seen(tx), Add(doc), l.kind)
    modifies tx, tx.docUrl`idTree, tx.docUrl`idFilename
    ensures Whole(Seen(tx), l.kind) && Took(old(Seen(tx)), Add(doc), Seen(tx), l)
  {
    DocumentOfKind(l.kind, doc);
    AtHome(doc.url);
    tx.AddDocument(doc);
  }

  method TakeReplace(tx: WriteTransaction, doc: Document, ops: Operations, l: Language)
    requires Whole(Seen(tx), l.kind) && Ready(Seen(tx), Replace(doc, ops), l.kind)
    modifies tx, tx.docUrl`idTree, tx.docUrl`idFilename
    ensures Whole(Seen(tx), l.kind) && Took(old(Seen(tx)), Replace(doc, ops), Seen(tx), l)
  {
    KindsReplaced(l.kind, tx.docs, doc, ops);
    tx.ReplaceDocument(doc, ops);
  }

  lemma KindsReplaced(kind: Term -> Category, docs: Docs, doc: Document, ops: Operations)
    requires OfKinds(kind, docs) && OfItsKinds(kind, doc)
    ensures OfKinds(kind, Replaced(docs, doc, ops)) && StaysSeparate(docs, doc, ops)
  {
    DocumentOfKind(kind, doc);
    assert OfKind(kind, DocAt(docs, doc.id));
    PrefixesStaySeparate(docs, doc, ops, kind);
    ReplacedDoc(docs, doc, ops);
    forall c, t | t in Part(DocAfter(DocAt(docs, doc.id), doc, ops), c) ensures kind(t) == c {
      assert t in Part(DocAt(docs, doc.id), c) || t in Part(DocOf(doc), c);
    }
    forall x | x in Replaced(docs, doc, ops) && x != doc.id ensures OfKind(kind, Replaced(docs, doc, ops)[x]) {
      assert DocAt(Replaced(docs, doc, ops), x) == DocAt(docs, x) && x in docs;
    }
  }

  method TakeRemove(tx: WriteTransaction, id: Id, l: Language)
    requires Whole(Seen(tx), l.kind) && Ready(Seen(tx), Remove(id), l.kind)
    modifies tx, tx.docUrl`idTree, tx.docUrl`idFilename
    ensures Whole(Seen(tx), l.kind) && Took(old(Seen(tx)), Remove(id), Seen(tx), l)
  {
    tx.RemoveSoundly(id);
  }

  method TakeRemoveTree(tx: WriteTransaction, p: Id, l: Language)
    requires Whole(Seen(tx), l.kind) && p != 0
    modifies tx, tx.docUrl`idTree, tx.docUrl`idFilename
    ensures Whole(Seen(tx), l.kind) && Took(old(Seen(tx)), RemoveTree(p), Seen(tx), l)
  {
    tx.RemoveRecursively(p);
  }

  method TakeRemoveTreeIf(tx: WriteTransaction, p: Id, shouldDelete: string -> bool, l: Language)
    requires Whole(Seen(tx), l.kind) && p != 0
    modifies tx, tx.docUrl`idTree, tx.docUrl`idFilename
    ensures Whole(Seen(tx), l.kind) && Took(old(Seen(tx)), RemoveTreeIf(p, shouldDelete), Seen(tx), l)
  {
    var removed := tx.RemoveRecursivelyIf(p, shouldDelete);
  }

  method TakeMove(tx: WriteTransaction, from: string, to: string, l: Language)
    requires Whole(Seen(tx), l.kind) && Spoken(l) && Ready(Seen(tx), Move(from, to), l.kind)
    modifies tx, tx.docUrl`idTree, tx.docUrl`idFilename
    ensures Whole(Seen(tx), l.kind) && Took(old(Seen(tx)), Move(from, to), Seen(tx), l)
  {
    ghost var before := Seen(tx);
    var signals;
    ghost var gone, id, parentId;
    signals, gone, id, parentId := MoveFileMetadata(tx, from, to, l.nameTerms, l.kind);
    assert MoveHappened(before, Seen(tx), from, to, l.nameTerms);
    KindsMoved(before.now, tx.Now(), to, l, gone, id, parentId);
  }

  lemma KindsMoved(before: Snapshot, after: Snapshot, to: string, l: Language, gone: set<Id>, id: Id, parentId: Id)
    requires OfKinds(l.kind, before.docs) && Spoken(l) && MoveDone(before, after, to, l.nameTerms, gone, id, parentId)
    ensures OfKinds(l.kind, after.docs)
  {
    var terms := EntryMap(l.nameTerms(NameOf(Chop(to))));
    assert OfKind(l.kind, Doc(map[], map[], terms));
    assert OfKind(l.kind, EMPTY_DOC);
    forall x | x in after.docs ensures OfKind(l.kind, after.docs[x]) {
      assert OfKind(l.kind, DocAt(before.docs, x));
      forall c, t | t in Part(after.docs[x], c) ensures l.kind(t) == c {
        assert t in Part(DocAt(before.docs, x), c) || t in Part(Doc(map[], map[], terms), c);
      }
    }
  }

  /**
    At every point of any run, replaying the log over the stored lists gives the inversion
    of the documents, the two tree tables are a forest, and the times are mirrored; each
    step does what it says exactly if it is ready.
   */
  method Run(stat: string -> Id, l: Language, steps: seq<Step>) returns (tx: WriteTransaction, ghost h: seq<Moment>)
    requires Injective(stat) && Spoken(l)
    requires forall i :: 0 <= i < |steps| && steps[i].ChangeDisk? ==> Injective(steps[i].stat)
    ensures fresh(tx) && fresh(tx.docUrl) && History(h, steps, l)
    ensures h[0].now == EMPTY && h[0].stat == stat && h[|steps|] == Seen(tx)
  {
    tx := Begin(stat, l);
    h := RunOn(tx, l, steps);
  }

  /** An empty index. */
  method Begin(stat: string -> Id, ghost l: Language) returns (tx: WriteTransaction)
    requires Injective(stat)
    ensures fresh(tx) && fresh(tx.docUrl) && Whole(Seen(tx), l.kind)
    ensures tx.Now() == EMPTY && tx.docUrl.stat == stat
  {
    var docUrl := new DocumentUrlDB(stat);
    tx := new WriteTransaction(docUrl);
  }

  /** A run from any index that is in order. */
  method RunOn(tx: WriteTransaction, l: Language, steps: seq<Step>) returns (ghost h: seq<Moment>)
    requires Whole(Seen(tx), l.kind) && Spoken(l)
    requires forall i :: 0 <= i < |steps| && steps[i].ChangeDisk? ==> Injective(steps[i].stat)
    modifies tx, tx.docUrl
    ensures History(h, steps, l) && h[0] == old(Seen(tx)) && h[|steps|] == Seen(tx)
  {
    h := [Seen(tx)];
    for i := 0 to |steps|
      invariant |h| == i + 1 && h[i] == Seen(tx) && h[0] == old(Seen(tx)) && Recorded(h, steps, l)
    {
      Perform(tx, steps[i], l);
      RecordNext(h, steps, l, Seen(tx));
      h := h + [Seen(tx)];
    }
  }

  /** No other entry of the directory has the entry's name. */
  ghost predicate Alone(files: Files, n: Id)
    requires n in files
  {
    forall x :: x in files && files[x] == files[n] ==> x == n
  }

  /** Names stay unique exactly if the entries that are new are alone with theirs. */
  lemma UniqueAfter(files: Files, files': Files, fresh': set<Id>)
    requires UniqueNames(files)
    requires forall n :: n in files' && n !in fresh' ==> n in files && files'[n] == files[n]
    ensures UniqueNames(files') <==> forall n :: n in files' && n in fresh' ==> Alone(files', n)
  {
    if forall n :: n in files' && n in fresh' ==> Alone(files', n) {
      forall a, b | a in files' && b in files' && files'[a].parentId == files'[b].parentId &&
                    files'[a].name == files'[b].name
        ensures a == b
      {
        assert files'[a] == files'[b];
        assert a in fresh' ==> Alone(files', a);
        assert b in fresh' ==> Alone(files', b);
      }
    }
  }

  /** The entries that a step brings or changes. */
  ghost function NewEntries(m: Moment, step: Step, m': Moment): set<Id> {
    match step
    case Add(doc) => m'.now.files.Keys - m.now.files.Keys + {doc.id}
    case Replace(doc, ops) => if ops.url then {doc.id} else {}
    case _ => {}
  }

  /** Which steps keep names unique, so that paths go on to identify entries. */
  lemma NamesStayUnique(m: Moment, step: Step, m': Moment, l: Language)
    requires Whole(m, l.kind) && Whole(m', l.kind) && UniqueNames(m.now.files) && Next(m, step, m', l)
    ensures UniqueNames(m'.now.files) <==>
      !Ready(m, step, l.kind) ||
      forall n :: n in m'.now.files && n in NewEntries(m, step, m') ==> Alone(m'.now.files, n)
  {
    if Ready(m, step, l.kind) {
      match step
      case Add(doc) => AddedEntries(m, doc, m', l);
      case Replace(doc, ops) => UniqueAfter(m.now.files, m'.now.files, NewEntries(m, step, m'));
      case Move(from, to) => MovedUnique(m, from, to, m', l);
      case _ =>
    }
  }

  lemma AddedEntries(m: Moment, doc: Document, m': Moment, l: Language)
    requires Whole(m, l.kind) && UniqueNames(m.now.files) && Ready(m, Add(doc), l.kind) && Took(m, Add(doc), m', l)
    ensures UniqueNames(m'.now.files) <==>
      forall n :: n in m'.now.files && n in NewEntries(m, Add(doc), m') ==> Alone(m'.now.files, n)
  {
    AtHome(doc.url);
    UniqueAfter(m.now.files, m'.now.files, NewEntries(m, Add(doc), m'));
  }

  lemma MovedUnique(m: Moment, from: string, to: string, m': Moment, l: Language)
    requires Whole(m, l.kind) && Whole(m', l.kind) && UniqueNames(m.now.files)
    requires MoveHappened(m, m', from, to, l.nameTerms)
    ensures UniqueNames(m'.now.files)
  {
    var gone, id, parentId :| MoveMade(m.now, m'.now, m'.children, from, to, l.nameTerms, gone, id, parentId);
    assert id == 0 || parentId == 0 ==> m'.now.files == m.now.files - gone;
  }

  /** After a removal no table keeps a document of the same id from being added: what it needs is the same as ever. */
  lemma RemovedMayReturn(m: Moment, step: Step, m': Moment, l: Language, doc: Document)
    requires Whole(m, l.kind) && Whole(m', l.kind) && Ready(m, step, l.kind) && Took(m, step, m', l)
    requires Erases(m.now.files, step, doc.id) && doc.id != 0
    ensures NotStored(m'.now.stored, doc.id) && doc.id !in m'.now.stored.failed && doc.id !in m'.now.files
    ensures Ready(m', Add(doc), l.kind) <==>
      doc.parentId != 0 && ProperDocument(doc) && OfItsKinds(l.kind, doc) && OnDisk(m'.stat, m'.now.files, doc)
  {
    match step
    case Remove(id) => NothingKept(m.now, {id}, doc.id);
    case RemoveTree(p) => NothingKept(m.now, Family(m.now.files, p), doc.id);
    case RemoveTreeIf(p, shouldDelete) => NothingKept(m.now, Removed(m.now.files, shouldDelete, p), doc.id);
    case _ =>
  }

  lemma NothingKept(s: Snapshot, gone: set<Id>, id: Id)
    ensures id in gone ==>
      NotStored(Without(s, gone).stored, id) && id !in Without(s, gone).stored.failed && id !in Without(s, gone).files
  {
    WithoutErases(s, gone);
    ErasedIsUnknown(s, Without(s, gone), gone, id);
  }

  /** The step erases this id. */
  ghost predicate Erases(files: Files, step: Step, id: Id)
    requires Acyclic(files)
  {
    match step
    case Remove(gone) => gone == id
    case RemoveTree(p) => id in Family(files, p)
    case RemoveTreeIf(p, shouldDelete) => id in Removed(files, shouldDelete, p)
    case _ => false
  }

  /** The step stores something of this id, as far as arguments tell; a move does for the entry that it moves. */
  ghost predicate Stores(step: Step, m': Moment, id: Id) {
    match step
    case Add(doc) => doc.id == id
    case Replace(doc, _) => doc.id == id
    case Move(_, to) => Located(m'.now.files, Components(to)) == id
    case _ => false
  }

  /** What is stored after a step was stored by it, or before it and not erased by it. */
  ghost predicate StoredBefore(m: Moment, step: Step, m': Moment, l: Language, id: Id) {
    NotStored(m'.now.stored, id) || Stores(step, m', id) ||
    (!NotStored(m.now.stored, id) && !ErasedIn(m, step, l, id))
  }

  lemma StepStores(m: Moment, step: Step, m': Moment, l: Language, id: Id)
    requires Whole(m, l.kind) && Whole(m', l.kind) && Next(m, step, m', l)
    ensures StoredBefore(m, step, m', l, id)
  {
    if Ready(m, step, l.kind) && !NotStored(m'.now.stored, id) {
      match step
      case Remove(gone) => ErasingStores(m.now, {gone}, id);
      case RemoveTree(p) => ErasingStores(m.now, Family(m.now.files, p), id);
      case RemoveTreeIf(p, shouldDelete) => ErasingStores(m.now, Removed(m.now.files, shouldDelete, p), id);
      case Replace(doc, ops) => ReplacingStores(m.now.stored, doc, ops, id);
      case Move(from, to) => MoveStores(m, from, to, m', l, id);
      case _ =>
    }
  }

  lemma ErasingStores(s: Snapshot, gone: set<Id>, id: Id)
    requires !NotStored(Without(s, gone).stored, id)
    ensures !NotStored(s.stored, id) && id !in gone
  {
    WithoutErases(s, gone);
    ErasedIsUnknown(s, Without(s, gone), gone, id);
  }

  lemma ReplacingStores(s: Stored, doc: Document, ops: Operations, id: Id)
    requires !NotStored(ReplacedRest(ReplacedLists(s, doc, ops), doc, ops), id)
    ensures !NotStored(s, id) || id == doc.id
  {
    ReplacementIsStored(s, doc, ops);
  }

  lemma MoveStores(m: Moment, from: string, to: string, m': Moment, l: Language, id: Id)
    requires Whole(m, l.kind) && Whole(m', l.kind) && MoveHappened(m, m', from, to, l.nameTerms)
    requires !NotStored(m'.now.stored, id)
    ensures Located(m'.now.files, Components(to)) == id || !NotStored(m.now.stored, id)
  {
    var gone, moved, parentId :| MoveMade(m.now, m'.now, m'.children, from, to, l.nameTerms, gone, moved, parentId);
    MoveStoresOne(m.now, m'.now, to, l.nameTerms, gone, moved, parentId, id);
  }

  /** The step is taken and erases the id. */
  ghost predicate ErasedIn(m: Moment, step: Step, l: Language, id: Id) {
    Whole(m, l.kind) && Ready(m, step, l.kind) && Erases(m.now.files, step, id)
  }

  /** The id was stored by a step of the run, and no step since has erased it. */
  ghost predicate StoredSince(h: seq<Moment>, steps: seq<Step>, l: Language, i: nat, id: Id)
    requires |h| == |steps| + 1 && i <= |steps|
  {
    exists j :: 0 <= j < i && StoredAt(h, steps, l, j, i, id)
  }

  ghost predicate StoredAt(h: seq<Moment>, steps: seq<Step>, l: Language, j: nat, i: nat, id: Id)
    requires |h| == |steps| + 1 && j < i <= |steps|
  {
    Stores(steps[j], h[j + 1], id) && forall k {:trigger steps[k]} :: j < k < i ==> !ErasedIn(h[k], steps[k], l, id)
  }

  /** No table ever keeps what is not there any more: whatever is stored was stored since it was last erased. */
  lemma NothingLeftBehind(h: seq<Moment>, steps: seq<Step>, l: Language, i: nat, id: Id)
    requires History(h, steps, l) && h[0].now == EMPTY && i <= |steps| && !NotStored(h[i].now.stored, id)
    ensures StoredSince(h, steps, l, i, id)
  {
    forall k | 0 <= k < |steps| ensures StoredBefore(h[k], steps[k], h[k + 1], l, id) {
      StepStores(h[k], steps[k], h[k + 1], l, id);
    }
    SinceByInduction(h, steps, l, i, id);
  }

  lemma {:induction false} SinceByInduction(h: seq<Moment>, steps: seq<Step>, l: Language, i: nat, id: Id)
    requires |h| == |steps| + 1 && i <= |steps| && NotStored(h[0].now.stored, id) && !NotStored(h[i].now.stored, id)
    requires forall k {:trigger steps[k]} :: 0 <= k < |steps| ==> StoredBefore(h[k], steps[k], h[k + 1], l, id)
    ensures StoredSince(h, steps, l, i, id)
  {
    if i > 0 {
      assert StoredBefore(h[i - 1], steps[i - 1], h[i], l, id);
      if Stores(steps[i - 1], h[i], id) {
        assert StoredAt(h, steps, l, i - 1, i, id);
      } else {
        SinceByInduction(h, steps, l, i - 1, id);
        StaysSince(h, steps, l, i - 1, id);
      }
    }
  }

  lemma StaysSince(h: seq<Moment>, steps: seq<Step>, l: Language, i: nat, id: Id)
    requires |h| == |steps| + 1 && i < |steps| && StoredSince(h, steps, l, i, id) && !ErasedIn(h[i], steps[i], l, id)
    ensures StoredSince(h, steps, l, i + 1, id)
  {
    var j :| 0 <= j < i && StoredAt(h, steps, l, j, i, id);
    assert StoredAt(h, steps, l, j, i + 1, id);
  }

  /** A loss is stored: the posting lists after a commit have all documents but those that lost the term. */
  method ReplaceAndStore(tx: WriteTransaction, doc: Document, ops: Operations)
    requires tx.Valid() && doc.id != 0 && ProperTerms(doc)
    requires (ops.terms ==> doc.terms != []) && (ops.url ==> NameOf(doc.url) != "")
    modifies tx, tx.docUrl`idTree, tx.docUrl`idFilename
    ensures tx.docs == Replaced(old(tx.docs), doc, ops)
    ensures forall id, t :: id in Get(tx.posting, t) <==>
      t in Merge(DocAt(tx.docs, id)) && !(id == doc.id && Loses(DocAt(old(tx.docs), id), doc, ops, t))
  {
    ghost var docs := tx.docs;
    ReplaceAndCommit(tx, doc, ops);
    LossStored(tx.posting, docs, doc, ops);
  }

  method ReplaceAndCommit(tx: WriteTransaction, doc: Document, ops: Operations)
    requires tx.Valid() && doc.id != 0 && ProperTerms(doc)
    requires (ops.terms ==> doc.terms != []) && (ops.url ==> NameOf(doc.url) != "")
    modifies tx, tx.docUrl`idTree, tx.docUrl`idFilename
    ensures tx.docs == Replaced(old(tx.docs), doc, ops)
    ensures forall t :: IdsInvert(ReplacedIndex(old(tx.docs), doc, ops), t, Get(tx.posting, t))
    ensures forall t :: PositionsInvert(ReplacedIndex(old(tx.docs), doc, ops), t, Get(tx.position, t))
  {
    ghost var docs := tx.docs;
    tx.ReplaceDocument(doc, ops);
    tx.Commit(ReplacedIndex(docs, doc, ops));
  }

  lemma LossStored(posting: Postings, docs: Docs, doc: Document, ops: Operations)
    requires AllSeparate(docs) && forall t :: IdsInvert(ReplacedIndex(docs, doc, ops), t, Get(posting, t))
    ensures forall id, t :: id in Get(posting, t) <==>
      t in Merge(DocAt(Replaced(docs, doc, ops), id)) && !(id == doc.id && Loses(DocAt(docs, id), doc, ops, t))
  {
    forall id, t
      ensures id in Get(posting, t) <==>
        t in Merge(DocAt(Replaced(docs, doc, ops), id)) && !(id == doc.id && Loses(DocAt(docs, id), doc, ops, t))
    {
      IndexAfter(docs, doc, ops, id, t);
      assert IdsInvert(ReplacedIndex(docs, doc, ops), t, Get(posting, t));
    }
  }

  /** A removal of the document makes good again what its replacement has lost or doubled. */
  method ReplaceAndRemove(tx: WriteTransaction, doc: Document, ops: Operations)
    requires tx.Valid() && doc.id != 0 && ProperTerms(doc)
    requires (ops.terms ==> doc.terms != []) && (ops.url ==> NameOf(doc.url) != "")
    modifies tx, tx.docUrl`idTree, tx.docUrl`idFilename
    ensures tx.Valid() && tx.docs == old(tx.docs) - {doc.id}
  {
    ghost var docs := tx.docs;
    tx.ReplaceDocument(doc, ops);
    tx.RemoveDocument(doc.id, ReplacedIndex(docs, doc, ops));
    RemovalRepairs(tx.posting, tx.position, tx.pending, docs, doc, ops);
    OthersKept(docs, doc, ops);
  }

  lemma OthersKept(docs: Docs, doc: Document, ops: Operations)
    ensures Replaced(docs, doc, ops) - {doc.id} == docs - {doc.id}
  {
  }
}
