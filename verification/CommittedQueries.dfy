/** The write path and the query path together: what a query finds once a transaction is committed. */
module CommittedQueries {
  import opened Sequences
  import opened IdUtils
  import opened IdTree
  import opened InvertedIndex
  import opened Documents
  import opened MTimeDBs
  import opened Replacements
  import opened AddPaths
  import opened PostingIterators
  import opened SearchTree
  import opened Transactions
  import opened StoredTables
  import opened WriteTransactions

  /** Whatever the transaction did, a phrase search after its commit is a scan of the documents. */
  method CommitAndSearch(tx: WriteTransaction, subQueries: seq<PhraseTerm>) returns (results: seq<Id>)
    requires tx.Valid() && ProperIndex(Inversion(tx.docs))
    modifies tx`posting, tx`position, tx`pending
    ensures tx.Valid() && tx.docs == old(tx.docs)
    ensures Ascending(results, IdOf)
    ensures forall id :: id in results <==> Answers(Merge(DocAt(tx.docs, id)), subQueries)
  {
    tx.Commit(Inversion(tx.docs));
    results := PhraseSearch(tx.posting, tx.position, subQueries, tx.docs);
  }

  /** The same for file names. */
  method CommitAndFindNames(tx: WriteTransaction, termList: string -> seq<Term>, query: seq<Term>, expandLast: bool)
    returns (results: seq<Id>)
    requires tx.Valid() && ProperIndex(Inversion(tx.docs)) && FileNamesIndexed(tx.docs, tx.docUrl.idFilename, termList)
    modifies tx`posting, tx`position, tx`pending
    ensures tx.Valid() && tx.docs == old(tx.docs)
    ensures Ascending(results, IdOf)
    ensures forall id :: id in results <==>
      query != [] && NameAnswers(tx.docs, tx.docUrl.idFilename, termList, query, expandLast, id)
  {
    tx.Commit(Inversion(tx.docs));
    var it := FilenameQuery(tx.posting, tx.docUrl.idFilename, termList, query, expandLast, tx.position, tx.docs);
    results := Results(it);
  }

  ghost function ModifiedIn(docTime: map<Id, TimeInfo>, beginTime: nat, endTime: nat): set<Id> {
    set id | id in docTime && beginTime <= docTime[id].mTime <= endTime
  }

  /** A range of modification times is a scan of the time table. */
  method ModifiedBetween(tx: WriteTransaction, beginTime: nat, endTime: nat) returns (results: seq<Id>)
    requires TimesMirrored(tx.docTime, tx.mtime) && 0 !in tx.docTime
    ensures Ascending(results, IdOf)
    ensures forall id :: id in results <==> id in tx.docTime && beginTime <= tx.docTime[id].mTime <= endTime
  {
    RangeIsScan(tx.docTime, tx.mtime, beginTime, endTime);
    var it := IterRange(tx.mtime, beginTime, endTime);
    results := Results(it);
    assert forall id :: id in results <==> id in InRange(tx.mtime, beginTime, endTime);
  }

  lemma OneTimeChanges(before: map<Id, TimeInfo>, after: map<Id, TimeInfo>, doc: Document, beginTime: nat, endTime: nat)
    requires TimeReplaced(true, before, after, doc) && 0 !in before && doc.id != 0
    ensures 0 !in after && (doc.id in ModifiedIn(after, beginTime, endTime) <==> beginTime <= doc.mTime <= endTime)
    ensures forall id :: id != doc.id ==>
      (id in ModifiedIn(after, beginTime, endTime) <==> id in ModifiedIn(before, beginTime, endTime))
  {
    assert SameAt(before, after, 0);
    forall id | id != doc.id
      ensures id in ModifiedIn(after, beginTime, endTime) <==> id in ModifiedIn(before, beginTime, endTime)
    {
      assert SameAt(before, after, id);
    }
  }

  /** What the searches below need of a new document. */
  ghost predicate Addable(tx: WriteTransaction, doc: Document)
    reads tx, tx.docUrl
  {
    tx.Valid() && doc.id != 0 && doc.parentId != 0 && tx.Unknown(doc.id) && ProperDocument(doc) &&
    Forest(tx.docUrl.idTree, tx.docUrl.idFilename) && Injective(tx.docUrl.stat) && CleanDirectory(doc.url) &&
    NameOf(doc.url) != ""
  }

  method AddTimed(tx: WriteTransaction, doc: Document)
    requires Addable(tx, doc) && TimesMirrored(tx.docTime, tx.mtime)
    modifies tx, tx.docUrl`idTree, tx.docUrl`idFilename
    ensures TimesMirrored(tx.docTime, tx.mtime)
    ensures TimeReplaced(true, old(tx.docTime), tx.docTime, doc)
  {
    tx.AddDocument(doc);
  }

  method AddSeparate(tx: WriteTransaction, doc: Document)
    requires Addable(tx, doc) && Separate(DocOf(doc))
    modifies tx, tx.docUrl`idTree, tx.docUrl`idFilename
    ensures tx.Valid() && tx.docs == old(tx.docs)[doc.id := DocOf(doc)]
  {
    tx.AddDocument(doc);
  }

  /** A new document is found by its time of modification, and changes no other answer. */
  method AddAndFindByTime(tx: WriteTransaction, doc: Document, beginTime: nat, endTime: nat) returns (results: seq<Id>)
    requires Addable(tx, doc) && TimesMirrored(tx.docTime, tx.mtime) && 0 !in tx.docTime
    modifies tx, tx.docUrl`idTree, tx.docUrl`idFilename
    ensures Ascending(results, IdOf)
    ensures doc.id in results <==> beginTime <= doc.mTime <= endTime
    ensures forall id :: id != doc.id ==> (id in results <==> id in old(ModifiedIn(tx.docTime, beginTime, endTime)))
  {
    ghost var before := tx.docTime;
    AddTimed(tx, doc);
    OneTimeChanges(before, tx.docTime, doc, beginTime, endTime);
    results := ModifiedBetween(tx, beginTime, endTime);
  }

  /** A new document is found by exactly the terms that it was handed over with, and changes no other answer. */
  method AddAndSearch(tx: WriteTransaction, doc: Document, term: Term) returns (results: seq<Id>)
    requires Addable(tx, doc) && Separate(DocOf(doc)) && ProperIndex(Inversion(tx.docs[doc.id := DocOf(doc)]))
    modifies tx, tx.docUrl`idTree, tx.docUrl`idFilename
    ensures Ascending(results, IdOf)
    ensures doc.id in results <==>
      Mentions(doc.terms, term) || Mentions(doc.xattrTerms, term) || Mentions(doc.fileNameTerms, term)
    ensures forall id :: id != doc.id ==> (id in results <==> term in Merge(DocAt(old(tx.docs), id)))
  {
    AddSeparate(tx, doc);
    DocHolds(doc, term);
    results := CommitAndSearch(tx, [PhraseTerm(term, false)]);
  }

  /** So is a document whose time is replaced. */
  method ReplaceAndFindByTime(tx: WriteTransaction, doc: Document, ops: Operations, beginTime: nat, endTime: nat)
    returns (results: seq<Id>)
    requires tx.Valid() && doc.id != 0 && ProperTerms(doc) && (ops.terms ==> doc.terms != [])
    requires (ops.url ==> NameOf(doc.url) != "") && ops.time && (doc.id in tx.docTime || doc.mTime != 0)
    requires TimesMirrored(tx.docTime, tx.mtime) && 0 !in tx.docTime
    modifies tx, tx.docUrl`idTree, tx.docUrl`idFilename
    ensures Ascending(results, IdOf)
    ensures doc.id in results <==> beginTime <= doc.mTime <= endTime
    ensures forall id :: id != doc.id ==> (id in results <==> id in old(ModifiedIn(tx.docTime, beginTime, endTime)))
  {
    ghost var before := tx.docTime;
    tx.ReplaceDocument(doc, ops);
    OneTimeChanges(before, tx.docTime, doc, beginTime, endTime);
    results := ModifiedBetween(tx, beginTime, endTime);
  }

  /** What is removed with all below it is found no more, at no time, and changes no other answer. */
  method RemoveAndFindByTime(tx: WriteTransaction, p: Id, beginTime: nat, endTime: nat) returns (results: seq<Id>)
    requires tx.Valid() && p != 0 && Forest(tx.docUrl.idTree, tx.docUrl.idFilename)
    requires TimesMirrored(tx.docTime, tx.mtime) && 0 !in tx.docTime
    modifies tx, tx.docUrl`idTree, tx.docUrl`idFilename
    ensures Ascending(results, IdOf)
    ensures forall id :: id in results <==>
      id in old(ModifiedIn(tx.docTime, beginTime, endTime)) && id !in Family(old(tx.docUrl.idFilename), p)
  {
    tx.RemoveRecursively(p);
    results := ModifiedBetween(tx, beginTime, endTime);
  }

  /** What the subtree iterator lists: an entry and all below it, ascending. */
  method ListSubtree(children: Children, ghost files: Files, p: Id) returns (listed: seq<Id>)
    requires Forest(children, files) && p != 0
    ensures Ascending(listed, IdOf) && forall id :: id in listed <==> id in Family(files, p)
  {
    var it := new PostingIterator.OfSubtree(children, files, p);
    listed := Exec(it);
  }

  /** The recursive removal erases exactly the ids that the subtree iterator lists. */
  method RemoveListed(tx: WriteTransaction, p: Id) returns (listed: seq<Id>)
    requires tx.Valid() && p != 0 && Forest(tx.docUrl.idTree, tx.docUrl.idFilename)
    modifies tx, tx.docUrl`idTree, tx.docUrl`idFilename
    ensures tx.Valid() && Ascending(listed, IdOf)
    ensures ErasedEverywhere(old(tx.Now()), tx.Now(), Elements(listed))
  {
    listed := ListSubtree(tx.docUrl.idTree, tx.docUrl.idFilename, p);
    assert Elements(listed) == Family(tx.docUrl.idFilename, p);
    tx.RemoveRecursively(p);
  }
}
