/**
  The tables that the engine writes at once, and what each operation leaves in them
  (src/engine/writetransaction.cpp): entry by entry, one table after the other.
 */
module StoredTables {
  import opened Bytes
  import opened IdUtils
  import opened InvertedIndex
  import opened Documents
  import opened Replacements
  import opened IdTree

  /** The tables other than those of the index and the directory tree. */
  datatype Stored = Stored(
    docTerms: ForwardTable, docXattrTerms: ForwardTable, docFileNameTerms: ForwardTable,
    docTime: map<Id, TimeInfo>, docData: map<Id, seq<Byte>>, contentIndexing: set<Id>, failed: set<Id>)

  /** The id has no entry in any of the tables that addDocument asks. */
  predicate NotStored(s: Stored, id: Id) {
    id !in s.docTerms && id !in s.docXattrTerms && id !in s.docFileNameTerms && id !in s.docTime && id !in s.docData &&
    id !in s.contentIndexing
  }

  function Erase(s: Stored, gone: set<Id>): Stored {
    Stored(s.docTerms - gone, s.docXattrTerms - gone, s.docFileNameTerms - gone,
           s.docTime - gone, s.docData - gone, s.contentIndexing - gone, s.failed - gone)
  }

  /** Everything the transaction knows of documents. */
  datatype Snapshot = Snapshot(files: Files, docs: Docs, stored: Stored)

  function Without(s: Snapshot, gone: set<Id>): Snapshot {
    Snapshot(s.files - gone, s.docs - gone, Erase(s.stored, gone))
  }

  lemma WithoutMore(s: Snapshot, a: set<Id>, b: set<Id>)
    ensures Without(Without(s, a), b) == Without(s, a + b)
  {
  }

  lemma WithoutNothing(s: Snapshot)
    ensures Without(s, {}) == s
  {
  }

  /** The forward lists after a replacement. */
  function ReplacedLists(s: Stored, doc: Document, ops: Operations): Stored {
    s.(docTerms := if ops.terms then SetTerms(s.docTerms, doc.id, Keys(doc.terms)) else s.docTerms,
       docXattrTerms :=
         if ops.xattrTerms then SetTerms(s.docXattrTerms, doc.id, Keys(doc.xattrTerms)) else s.docXattrTerms,
       docFileNameTerms :=
         if ops.fileNameTerms then SetTerms(s.docFileNameTerms, doc.id, Keys(doc.fileNameTerms))
         else s.docFileNameTerms)
  }

  function ReplacedRest(s: Stored, doc: Document, ops: Operations): Stored {
    s.(docTime := if ops.time then s.docTime[doc.id := TimeInfo(doc.mTime, doc.cTime)] else s.docTime,
       docData := if ops.data && doc.data != [] then s.docData[doc.id := doc.data] else s.docData,
       contentIndexing := if doc.contentIndexing then s.contentIndexing + {doc.id} else s.contentIndexing)
  }

  function WithLists(s: Stored, doc: Document): Stored {
    s.(docTerms := SetTerms(s.docTerms, doc.id, Keys(doc.terms)),
       docXattrTerms := SetTerms(s.docXattrTerms, doc.id, Keys(doc.xattrTerms)),
       docFileNameTerms := SetTerms(s.docFileNameTerms, doc.id, Keys(doc.fileNameTerms)))
  }

  function WithRest(s: Stored, doc: Document): Stored {
    s.(docTime := s.docTime[doc.id := TimeInfo(doc.mTime, doc.cTime)],
       docData := if doc.data != [] then s.docData[doc.id := doc.data] else s.docData,
       contentIndexing := if doc.contentIndexing then s.contentIndexing + {doc.id} else s.contentIndexing)
  }

  /** Nothing is stored at all. */
  const EMPTY := Snapshot(map[], map[], Stored(map[], map[], map[], map[], map[], {}, {}))

  /** An id has the same entry as before, or none as before. */
  ghost predicate SameAt<T(!new)>(before: map<Id, T>, after: map<Id, T>, x: Id) {
    (x in after <==> x in before) && (x in before ==> after[x] == before[x])
  }

  /** These ids have no entry any more, and all others are as before. */
  ghost predicate GoneFrom<T(!new)>(before: map<Id, T>, after: map<Id, T>, gone: set<Id>) {
    forall x {:trigger SameAt(before, after, x)} :: if x in gone then x !in after else SameAt(before, after, x)
  }

  ghost predicate GoneFromSet(before: set<Id>, after: set<Id>, gone: set<Id>) {
    after == before - gone
  }

  /** No table keeps an entry of these ids, and no table has changed for any other. */
  ghost predicate ErasedEverywhere(s: Snapshot, t: Snapshot, gone: set<Id>) {
    GoneFrom(s.files, t.files, gone) && GoneFrom(s.docs, t.docs, gone) &&
    GoneFrom(s.stored.docTerms, t.stored.docTerms, gone) &&
    GoneFrom(s.stored.docXattrTerms, t.stored.docXattrTerms, gone) &&
    GoneFrom(s.stored.docFileNameTerms, t.stored.docFileNameTerms, gone) &&
    GoneFrom(s.stored.docTime, t.stored.docTime, gone) && GoneFrom(s.stored.docData, t.stored.docData, gone) &&
    GoneFromSet(s.stored.contentIndexing, t.stored.contentIndexing, gone) &&
    GoneFromSet(s.stored.failed, t.stored.failed, gone)
  }

  lemma WithoutErases(s: Snapshot, gone: set<Id>)
    ensures ErasedEverywhere(s, Without(s, gone), gone)
  {
  }

  /** So nothing of them is known any more. */
  lemma ErasedIsUnknown(s: Snapshot, t: Snapshot, gone: set<Id>, x: Id)
    requires ErasedEverywhere(s, t, gone)
    ensures x in gone ==> NotStored(t.stored, x) && x !in t.stored.failed && x !in t.files && x !in t.docs
    ensures x !in gone ==> (NotStored(t.stored, x) <==> NotStored(s.stored, x))
  {
    assert SameAt(s.files, t.files, x) || x in gone;
    assert SameAt(s.docs, t.docs, x) || x in gone;
    assert SameAt(s.stored.docTerms, t.stored.docTerms, x) || x in gone;
    assert SameAt(s.stored.docXattrTerms, t.stored.docXattrTerms, x) || x in gone;
    assert SameAt(s.stored.docFileNameTerms, t.stored.docFileNameTerms, x) || x in gone;
    assert SameAt(s.stored.docTime, t.stored.docTime, x) || x in gone;
    assert SameAt(s.stored.docData, t.stored.docData, x) || x in gone;
  }

  /** The table lists the terms of these entries, in order; an empty list is not stored. */
  ghost predicate ListedAs(table: ForwardTable, id: Id, entries: seq<TermEntry>) {
    if entries == [] then id !in table
    else
      id in table && |table[id]| == |entries| && forall i :: 0 <= i < |entries| ==> table[id][i] == entries[i].term
  }

  ghost predicate TimedAs(docTime: map<Id, TimeInfo>, doc: Document) {
    doc.id in docTime && docTime[doc.id].mTime == doc.mTime && docTime[doc.id].cTime == doc.cTime
  }

  ghost predicate OthersSame<T(!new)>(before: map<Id, T>, after: map<Id, T>, id: Id) {
    forall x {:trigger SameAt(before, after, x)} :: x != id ==> SameAt(before, after, x)
  }

  /** The list of one id is new, if at all; the others are as before. */
  ghost predicate ListReplaced(on: bool, before: ForwardTable, after: ForwardTable, id: Id, entries: seq<TermEntry>) {
    OthersSame(before, after, id) && if on then ListedAs(after, id, entries) else SameAt(before, after, id)
  }

  ghost predicate TimeReplaced(on: bool, before: map<Id, TimeInfo>, after: map<Id, TimeInfo>, doc: Document) {
    OthersSame(before, after, doc.id) && if on then TimedAs(after, doc) else SameAt(before, after, doc.id)
  }

  /** Data are stored unless there are none. */
  ghost predicate DataReplaced(on: bool, before: map<Id, seq<Byte>>, after: map<Id, seq<Byte>>, doc: Document) {
    OthersSame(before, after, doc.id) &&
    if on && doc.data != [] then doc.id in after && after[doc.id] == doc.data else SameAt(before, after, doc.id)
  }

  /** The entries after a replacement, table by table: the selected ones are new, the others as before. */
  ghost predicate StoredReplaced(s: Stored, t: Stored, doc: Document, ops: Operations) {
    ListReplaced(ops.terms, s.docTerms, t.docTerms, doc.id, doc.terms) &&
    ListReplaced(ops.xattrTerms, s.docXattrTerms, t.docXattrTerms, doc.id, doc.xattrTerms) &&
    ListReplaced(ops.fileNameTerms, s.docFileNameTerms, t.docFileNameTerms, doc.id, doc.fileNameTerms) &&
    TimeReplaced(ops.time, s.docTime, t.docTime, doc) && DataReplaced(ops.data, s.docData, t.docData, doc) &&
    (forall x :: x in t.contentIndexing <==> x in s.contentIndexing || (x == doc.id && doc.contentIndexing)) &&
    t.failed == s.failed
  }

  const EVERYTHING := Operations(true, true, true, true, true, true)

  /** The entries after a new document, table by table: its own are new, and no others change. */
  ghost predicate StoredNew(s: Stored, t: Stored, doc: Document) {
    StoredReplaced(s, t, doc, EVERYTHING) && (doc.data == [] ==> doc.id !in t.docData) &&
    (doc.id in t.contentIndexing <==> doc.contentIndexing)
  }

  lemma ListIsReplaced(on: bool, table: ForwardTable, id: Id, entries: seq<TermEntry>)
    ensures ListReplaced(on, table, if on then SetTerms(table, id, Keys(entries)) else table, id, entries)
  {
    EntryMapKeys(entries);
  }

  lemma ReplacementIsStored(s: Stored, doc: Document, ops: Operations)
    ensures StoredReplaced(s, ReplacedRest(ReplacedLists(s, doc, ops), doc, ops), doc, ops)
  {
    ListIsReplaced(ops.terms, s.docTerms, doc.id, doc.terms);
    ListIsReplaced(ops.xattrTerms, s.docXattrTerms, doc.id, doc.xattrTerms);
    ListIsReplaced(ops.fileNameTerms, s.docFileNameTerms, doc.id, doc.fileNameTerms);
  }

  lemma NewIsStored(s: Stored, doc: Document)
    requires NotStored(s, doc.id)
    ensures StoredNew(s, WithRest(WithLists(s, doc), doc), doc)
  {
    ReplacementIsStored(s, doc, EVERYTHING);
    assert ReplacedRest(ReplacedLists(s, doc, EVERYTHING), doc, EVERYTHING) == WithRest(WithLists(s, doc), doc);
  }
}
