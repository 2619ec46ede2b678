/**
  Renames (src/file/metadatamover.cpp): the entry at the new path is removed, then the
  moved entry is hung there with the file name terms of its new name.
 */
module MetadataMovers {
  import opened IdUtils
  import opened IdTree
  import opened InvertedIndex
  import opened Documents
  import opened Paths
  import opened Urls
  import opened AddPaths
  import opened TreeUpdates
  import opened MTimeDBs
  import opened Removals
  import opened Relocations
  import opened Replacements
  import opened StoredTables
  import opened WriteTransactions

  /** What the mover tells its listeners. */
  datatype Signal = FileRemoved(url: string) | MovedWithoutData(path: string)

  /** Without a trailing slash. */
  function Chop(path: string): string {
    if EndsWithSlash(path) then path[..|path| - 1] else path
  }

  lemma ChopComponents(path: string)
    ensures Components(Chop(path)) == Components(path)
  {
    if EndsWithSlash(path) {
      assert path == Chop(path) + "/";
      ComponentsDropSlash(Chop(path));
    }
  }

  lemma CleanComponents(path: string)
    requires CleanPath(path) && path != ""
    ensures Components(path) == Components(ParentPath(path)) + [NameOf(path)]
    ensures Components(ParentPath(path) + "/") == Components(ParentPath(path))
  {
    PathParts(path);
    ComponentsAppend(ParentPath(path), NameOf(path));
    ComponentsDropSlash(ParentPath(path));
  }

  /** A path of a file or, with a trailing slash, of a directory, other than the root. */
  predicate ProperPath(path: string) {
    CleanPath(Chop(path)) && Chop(path) != ""
  }

  /** What goes when the entry at a path is removed. */
  ghost function Overwritten(files: Files, path: string): set<Id> {
    var id := Located(files, Components(path));
    if id == 0 then {} else if EndsWithSlash(path) then Family(files, id) else {id}
  }

  /** Nothing is lost below a path: it has a trailing slash, or does not name a directory with entries. */
  ghost predicate Removable(files: Files, path: string) {
    var id := Located(files, Components(path));
    id == 0 || EndsWithSlash(path) || Leaf(files, id)
  }

  ghost predicate Leaf(files: Files, id: Id) {
    forall n :: n in files ==> files[n].parentId != id
  }

  lemma LeafIs(children: Children, files: Files, id: Id)
    requires Mirror(children, files)
    ensures Leaf(files, id) <==> GetChildren(children, id) == []
  {
    if GetChildren(children, id) != [] {
      var n := GetChildren(children, id)[0];
      assert n in GetChildren(children, id);
      assert n in files && files[n].parentId == id;
    } else {
      forall n | n in files ensures files[n].parentId != id {
        assert n !in GetChildren(children, id);
      }
    }
  }

  lemma OverwrittenClosed(files: Files, path: string)
    requires Acyclic(files) && Removable(files, path)
    ensures DownClosed(files, Overwritten(files, path)) && 0 !in Overwritten(files, path)
  {
    var id := Located(files, Components(path));
    if id != 0 {
      FamilyDownClosed(files, id);
    }
  }

  /** MetadataMover::removeMetadata.  The forest survives exactly when the path was removable. */
  method RemoveMetadata(tx: WriteTransaction, url: string) returns (signal: Signal)
    requires tx.Valid() && Forest(tx.docUrl.idTree, tx.docUrl.idFilename) && UniqueNames(tx.docUrl.idFilename)
    modifies tx, tx.docUrl`idTree, tx.docUrl`idFilename
    ensures tx.Valid() && tx.Now() == Without(old(tx.Now()), Overwritten(old(tx.docUrl.idFilename), url))
    ensures ErasedEverywhere(old(tx.Now()), tx.Now(), Overwritten(old(tx.docUrl.idFilename), url))
    ensures old(TimesMirrored(tx.docTime, tx.mtime)) ==> TimesMirrored(tx.docTime, tx.mtime)
    ensures Mirror(tx.docUrl.idTree, tx.docUrl.idFilename)
    ensures Forest(tx.docUrl.idTree, tx.docUrl.idFilename) <==> old(Removable(tx.docUrl.idFilename, url))
    ensures signal == FileRemoved(url)
  {
    WithoutNothing(tx.Now());
    WithoutErases(tx.Now(), Overwritten(tx.docUrl.idFilename, url));
    var id := tx.docUrl.DocumentId(url);
    LocatedIs(tx.docUrl.idFilename, Components(url), id);
    if id == 0 {
      return FileRemoved(url);
    }
    LeafIs(tx.docUrl.idTree, tx.docUrl.idFilename, id);
    if !EndsWithSlash(url) {
      tx.RemoveSoundly(id);
    } else {
      tx.RemoveRecursively(id);
    }
    return FileRemoved(url);
  }

  /** The file name terms of a name, in a vocabulary that marks the categories. */
  ghost predicate Vocabulary(kind: Term -> Category, docs: Docs, nameTerms: string -> seq<TermEntry>) {
    OfKinds(kind, docs) &&
    forall name {:trigger nameTerms(name)} ::
      DistinctTerms(nameTerms(name)) && OfKind(kind, Doc(map[], map[], EntryMap(nameTerms(name))))
  }

  /** The document with which updateMetadata replaces url and file name terms. */
  function Renamed(id: Id, parentId: Id, toPath: string, nameTerms: string -> seq<TermEntry>): Document {
    Document(id, parentId, toPath, [], [], nameTerms(NameOf(toPath)), false, 0, 0, [])
  }

  const RENAME := Operations(false, false, true, false, false, true)

  /** The documents after a rename: new file name terms for one of them. */
  function RenamedDocs(docs: Docs, id: Id, toPath: string, nameTerms: string -> seq<TermEntry>): Docs {
    Updated(docs, id, FileName, EntryMap(nameTerms(NameOf(toPath))))
  }

  /** Everything after a rename: the entry's place, its file name terms and their list are new. */
  function Renaming(s: Snapshot, id: Id, parentId: Id, toPath: string, nameTerms: string -> seq<TermEntry>): Snapshot {
    var list := Keys(nameTerms(NameOf(toPath)));
    Snapshot(s.files[id := FilePath(parentId, NameOf(toPath))], RenamedDocs(s.docs, id, toPath, nameTerms),
             s.stored.(docFileNameTerms := SetTerms(s.stored.docFileNameTerms, id, list)))
  }

  lemma RenameFits(kind: Term -> Category, s: Snapshot, nameTerms: string -> seq<TermEntry>, id: Id, parentId: Id,
                   toPath: string)
    requires Vocabulary(kind, s.docs, nameTerms)
    ensures var doc := Renamed(id, parentId, toPath, nameTerms);
      var after := Renaming(s, id, parentId, toPath, nameTerms);
      StaysSeparate(s.docs, doc, RENAME) && ProperTerms(doc) && Replaced(s.docs, doc, RENAME) == after.docs &&
      ReplacedRest(ReplacedLists(s.stored, doc, RENAME), doc, RENAME) == after.stored
  {
    var doc := Renamed(id, parentId, toPath, nameTerms);
    assert DocOf(doc) == Doc(map[], map[], EntryMap(nameTerms(NameOf(toPath))));
    PrefixesStaySeparate(s.docs, doc, RENAME, kind);
  }

  /** What listeners are told to index when the moved entry, or the directory it moves to, is not known. */
  function Unknown(id: Id, parentId: Id, to: string): seq<Signal> {
    if id == 0 then [MovedWithoutData(Chop(to))]
    else if parentId == 0 then [MovedWithoutData(ParentPath(Chop(to)) + "/")] else []
  }

  /**
    What that means: an entry that is not known is to be indexed at its new path, without
    trailing slash; a directory that is not known is to be indexed with what moves into it.
   */
  ghost predicate Tells(id: Id, parentId: Id, to: string, signals: seq<Signal>) {
    if id != 0 && parentId != 0 then signals == []
    else |signals| == 1 && signals[0].MovedWithoutData? && Asks(id, to, signals[0].path)
  }

  ghost predicate Asks(id: Id, to: string, path: string) {
    if id == 0 then !EndsWithSlash(path) && (path == to || path + "/" == to)
    else EndsWithSlash(path) && exists name :: IsName(name) && (path + name == to || path + name + "/" == to)
  }

  lemma SignalsMean(id: Id, parentId: Id, to: string)
    requires ProperPath(to)
    ensures Tells(id, parentId, to, Unknown(id, parentId, to))
  {
    var path := Chop(to);
    PathParts(path);
    assert path == ParentPath(path) + "/" + NameOf(path);
    assert path == to || path + "/" == to;
  }

  /** MetadataMover::updateMetadata, when nothing is left at the new path. */
  method UpdateMetadata(tx: WriteTransaction, from: string, to: string, nameTerms: string -> seq<TermEntry>,
                        ghost kind: Term -> Category)
    returns (id: Id, parentId: Id, signals: seq<Signal>)
    requires tx.Valid() && Mirror(tx.docUrl.idTree, tx.docUrl.idFilename)
    requires 0 !in tx.docUrl.idFilename && UniqueNames(tx.docUrl.idFilename)
    requires ProperPath(from) && ProperPath(to) && Vocabulary(kind, tx.docs, nameTerms)
    modifies tx, tx.docUrl`idTree, tx.docUrl`idFilename
    ensures tx.Valid() && signals == Unknown(id, parentId, to) && Tells(id, parentId, to, signals)
    ensures id == Located(old(tx.docUrl.idFilename), Components(from))
    ensures parentId == if id == 0 then 0 else Located(old(tx.docUrl.idFilename), Components(ParentPath(Chop(to))))
    ensures id == 0 || parentId == 0 ==> tx.Now() == old(tx.Now()) && tx.docUrl.idTree == old(tx.docUrl.idTree)
    ensures id != 0 && parentId != 0 ==> tx.Now() == Renaming(old(tx.Now()), id, parentId, Chop(to), nameTerms)
    ensures id != 0 && parentId != 0 && old(Forest(tx.docUrl.idTree, tx.docUrl.idFilename)) ==>
      (Forest(tx.docUrl.idTree, tx.docUrl.idFilename) <==> MayMove(old(tx.docUrl.idFilename), id, parentId))
    ensures old(TimesMirrored(tx.docTime, tx.mtime)) ==> TimesMirrored(tx.docTime, tx.mtime)
  {
    id, parentId, signals := 0, 0, [];
    var toPath, fromPath := Chop(to), Chop(from);
    ChopComponents(from);
    CleanComponents(toPath);
    SignalsMean(0, 0, to);
    id := tx.docUrl.DocumentId(fromPath);
    LocatedIs(tx.docUrl.idFilename, Components(from), id);
    if id == 0 {
      return 0, 0, [MovedWithoutData(toPath)];
    }
    var parentPath := ParentPath(toPath) + "/";
    parentId := tx.docUrl.DocumentId(parentPath);
    LocatedIs(tx.docUrl.idFilename, Components(ParentPath(toPath)), parentId);
    SignalsMean(id, parentId, to);
    if parentId == 0 {
      return id, 0, [MovedWithoutData(parentPath)];
    }
    RenameFits(kind, tx.Now(), nameTerms, id, parentId, toPath);
    tx.ReplaceDocument(Renamed(id, parentId, toPath, nameTerms), RENAME);
  }

  /**
    The outcome of a rename, given the entries before it and after it.  `rest` is what
    the removal at the new path has left.  If the moved entry and the new directory
    are known, and the directory is not inside what moves, the entry is found at the
    new path and nothing at the old one; exactly the moved subtree has new paths, and
    each of them is the new path followed by the old rest.
   */
  ghost predicate Moved(rest: Files, files: Files, from: string, to: string, id: Id, parentId: Id)
    requires Acyclic(rest)
  {
    id in rest && parentId in rest && files == rest[id := FilePath(parentId, NameOf(Chop(to)))] &&
    Acyclic(files) && UniqueNames(files) &&
    Located(files, Components(to)) == id && Located(files, Components(from)) == 0 &&
    Url(files, id) == Url(rest, parentId) + "/" + NameOf(Chop(to)) && OnlyItsSubtree(rest, files, id)
  }

  ghost predicate OnlyItsSubtree(rest: Files, files: Files, id: Id)
    requires Acyclic(rest) && Acyclic(files) && id in rest && files.Keys == rest.Keys
  {
    forall n {:trigger Below(rest, n, id)} :: n in rest ==>
      if Below(rest, n, id) then SameRest(rest, files, id, n) else Url(files, n) == Url(rest, n)
  }

  lemma MoveIsRename(files: Files, gone: set<Id>, after: Files, from: string, to: string, id: Id, parentId: Id)
    requires Acyclic(files) && UniqueNames(files) && 0 !in gone && DownClosed(files, gone) && Acyclic(files - gone)
    requires ProperPath(from) && ProperPath(to)
    requires var target := Located(files, Components(to)); target == 0 || target in gone
    requires id == Located(files - gone, Components(from)) && id != 0
    requires parentId == Located(files - gone, Components(ParentPath(Chop(to)))) && parentId != 0
    requires after == (files - gone)[id := FilePath(parentId, NameOf(Chop(to)))]
    ensures Acyclic(after) <==> !(Components(from) <= Components(ParentPath(Chop(to))))
    ensures Acyclic(after) ==> Moved(files - gone, after, from, to, id, parentId)
  {
    var rest, name := files - gone, NameOf(Chop(to));
    LocatedNames(rest, Components(from));
    LocatedNames(rest, Components(ParentPath(Chop(to))));
    ChopComponents(to);
    CleanComponents(Chop(to));
    RemovalKeepsNames(files, gone);
    PlaceFreed(files, gone, id, parentId, name);
    MoveSucceeds(rest, id, parentId, name);
    if Acyclic(after) {
      MoveLands(rest, after, id, parentId, name);
      MoveIsFound(rest, after, id, parentId, name);
      forall n | n in rest
        ensures if Below(rest, n, id) then SameRest(rest, after, id, n) else Url(after, n) == Url(rest, n)
      {
        MoveRebases(rest, after, id, parentId, name, n);
      }
    }
  }

  /** Before and after moveFileMetadata: what was at the new path is gone, and the rest is renamed if it can be. */
  ghost predicate MoveDone(before: Snapshot, after: Snapshot, to: string, nameTerms: string -> seq<TermEntry>,
                           gone: set<Id>, id: Id, parentId: Id)
  {
    var rest := Without(before, gone);
    after == if id == 0 || parentId == 0 then rest else Renaming(rest, id, parentId, Chop(to), nameTerms)
  }

  /** A move stores nothing new but for the entry that it moves. */
  lemma MoveStoresOne(before: Snapshot, after: Snapshot, to: string, nameTerms: string -> seq<TermEntry>,
                      gone: set<Id>, id: Id, parentId: Id, x: Id)
    requires MoveDone(before, after, to, nameTerms, gone, id, parentId) && !NotStored(after.stored, x)
    ensures (id != 0 && parentId != 0 && x == id) || (!NotStored(before.stored, x) && x !in gone)
  {
    WithoutErases(before, gone);
    ErasedIsUnknown(before, Without(before, gone), gone, x);
  }

  /** The ids that take part in a move. */
  ghost predicate MoveOf(files: Files, from: string, to: string, gone: set<Id>, id: Id, parentId: Id)
  {
    gone == Overwritten(files, to) && id == Located(files - gone, Components(from)) &&
    parentId == if id == 0 then 0 else Located(files - gone, Components(ParentPath(Chop(to))))
  }

  /** Everything that moveFileMetadata leaves, given the snapshots and the tree's children before and after. */
  ghost predicate MoveMade(before: Snapshot, after: Snapshot, children: Children, from: string, to: string,
                           nameTerms: string -> seq<TermEntry>, gone: set<Id>, id: Id, parentId: Id)
    requires Acyclic(before.files)
  {
    MoveOf(before.files, from, to, gone, id, parentId) && MoveDone(before, after, to, nameTerms, gone, id, parentId) &&
    (Forest(children, after.files) <==>
      Removable(before.files, to) &&
      (id == 0 || parentId == 0 || !(Components(from) <= Components(ParentPath(Chop(to)))))) &&
    (Forest(children, after.files) && id != 0 && parentId != 0 ==>
      Acyclic(before.files - gone) && Moved(before.files - gone, after.files, from, to, id, parentId))
  }

  /** MetadataMover::moveFileMetadata. */
  method MoveFileMetadata(tx: WriteTransaction, from: string, to: string, nameTerms: string -> seq<TermEntry>,
                          ghost kind: Term -> Category)
    returns (signals: seq<Signal>, ghost gone: set<Id>, ghost id: Id, ghost parentId: Id)
    requires tx.Valid() && Forest(tx.docUrl.idTree, tx.docUrl.idFilename) && UniqueNames(tx.docUrl.idFilename)
    requires ProperPath(from) && ProperPath(to) && Vocabulary(kind, tx.docs, nameTerms)
    modifies tx, tx.docUrl`idTree, tx.docUrl`idFilename
    ensures tx.Valid() && tx.pending == map[] && signals == [FileRemoved(to)] + Unknown(id, parentId, to)
    ensures Tells(id, parentId, to, signals[1..])
    ensures MoveMade(old(tx.Now()), tx.Now(), tx.docUrl.idTree, from, to, nameTerms, gone, id, parentId)
    ensures old(TimesMirrored(tx.docTime, tx.mtime)) ==> TimesMirrored(tx.docTime, tx.mtime)
  {
    signals, gone, id, parentId := RemoveAndUpdate(tx, from, to, nameTerms, kind);
    SignalsMean(id, parentId, to);
    ghost var after, children := tx.Now(), tx.docUrl.idTree;
    assert MoveMade(old(tx.Now()), after, children, from, to, nameTerms, gone, id, parentId);
    tx.Commit(Inversion(tx.docs));
    assert tx.Now() == after && tx.docUrl.idTree == children;
  }

  /** The two steps before the commit. */
  method RemoveAndUpdate(tx: WriteTransaction, from: string, to: string, nameTerms: string -> seq<TermEntry>,
                         ghost kind: Term -> Category)
    returns (signals: seq<Signal>, ghost gone: set<Id>, ghost id: Id, ghost parentId: Id)
    requires tx.Valid() && Forest(tx.docUrl.idTree, tx.docUrl.idFilename) && UniqueNames(tx.docUrl.idFilename)
    requires ProperPath(from) && ProperPath(to) && Vocabulary(kind, tx.docs, nameTerms)
    modifies tx, tx.docUrl`idTree, tx.docUrl`idFilename
    ensures tx.Valid() && signals == [FileRemoved(to)] + Unknown(id, parentId, to)
    ensures MoveMade(old(tx.Now()), tx.Now(), tx.docUrl.idTree, from, to, nameTerms, gone, id, parentId)
    ensures old(TimesMirrored(tx.docTime, tx.mtime)) ==> TimesMirrored(tx.docTime, tx.mtime)
  {
    ghost var before := tx.Now();
    gone := Overwritten(before.files, to);
    var removed := RemoveMetadata(tx, to);
    ghost var middle := tx.docUrl.idTree;
    assert Vocabulary(kind, tx.docs, nameTerms);
    var moved, parent, more := UpdateMetadata(tx, from, to, nameTerms, kind);
    id, parentId := moved, parent;
    signals := [removed] + more;
    MoveIsMade(before, tx.Now(), middle, tx.docUrl.idTree, from, to, nameTerms, gone, id, parentId);
  }

  /** What the two steps promise one after the other, put together. */
  lemma MoveIsMade(before: Snapshot, after: Snapshot, middle: Children, children: Children, from: string, to: string,
                   nameTerms: string -> seq<TermEntry>, gone: set<Id>, id: Id, parentId: Id)
    requires Acyclic(before.files) && UniqueNames(before.files) && ProperPath(from) && ProperPath(to)
    requires MoveOf(before.files, from, to, gone, id, parentId)
    requires MoveDone(before, after, to, nameTerms, gone, id, parentId)
    requires Forest(middle, before.files - gone) <==> Removable(before.files, to)
    requires id == 0 || parentId == 0 ==> children == middle
    requires id != 0 && parentId != 0 && Forest(middle, before.files - gone) ==>
      (Forest(children, after.files) <==> MayMove(before.files - gone, id, parentId))
    ensures MoveMade(before, after, children, from, to, nameTerms, gone, id, parentId)
  {
    if !Removable(before.files, to) {
      OrphansStay(before.files, to, after.files, Components(from), id, FilePath(parentId, NameOf(Chop(to))));
    } else if id != 0 && parentId != 0 {
      AfterOverwriting(before.files, to);
      MoveKeepsForest(before.files, gone, after.files, from, to, id, parentId);
    }
  }

  lemma AfterOverwriting(files: Files, to: string)
    requires Acyclic(files) && UniqueNames(files) && Removable(files, to)
    ensures var gone := Overwritten(files, to);
      0 !in gone && DownClosed(files, gone) && Acyclic(files - gone) && UniqueNames(files - gone)
  {
    OverwrittenClosed(files, to);
    RemovalKeepsNames(files, Overwritten(files, to));
  }

  /** An entry below an overwritten directory that was not removed with it cannot be looked up, so it stays there. */
  lemma OrphansStay(files: Files, to: string, after: Files, names: seq<string>, id: Id, place: FilePath)
    requires Acyclic(files) && !Removable(files, to)
    requires var rest := files - Overwritten(files, to);
      id == Located(rest, names) && (after == rest || (id != 0 && after == rest[id := place]))
    ensures !Acyclic(after)
  {
    var gone := Located(files, Components(to));
    var rest := files - Overwritten(files, to);
    LocatedNames(files, Components(to));
    var orphan :| orphan in files && files[orphan].parentId == gone;
    ParentNotBelow(files, orphan);
    BelowItself(files, gone);
    assert orphan in rest && gone !in rest && gone != 0;
    if id != 0 {
      assert Leads(rest, names, id);
      assert names != [] && id in rest && Leads(rest, names[..|names| - 1], rest[id].parentId);
      assert rest[id].parentId == 0 || rest[id].parentId in rest;
      assert id != orphan && id != gone;
    }
    assert after[orphan].parentId == gone && gone !in after;
  }

  /** What the forest after the two steps is, in terms of paths. */
  lemma MoveKeepsForest(files: Files, gone: set<Id>, after: Files, from: string, to: string, id: Id, parentId: Id)
    requires Acyclic(files) && UniqueNames(files) && 0 !in gone && DownClosed(files, gone) && Acyclic(files - gone)
    requires MoveOf(files, from, to, gone, id, parentId) && id != 0 && parentId != 0
    requires ProperPath(from) && ProperPath(to)
    requires after == (files - gone)[id := FilePath(parentId, NameOf(Chop(to)))]
    ensures MayMove(files - gone, id, parentId) <==> !(Components(from) <= Components(ParentPath(Chop(to))))
    ensures MayMove(files - gone, id, parentId) ==> Moved(files - gone, after, from, to, id, parentId)
  {
    MoveAcyclic(files - gone, id, parentId, NameOf(Chop(to)));
    BelowItself(files, Located(files, Components(to)));
    MoveIsRename(files, gone, after, from, to, id, parentId);
  }
}
