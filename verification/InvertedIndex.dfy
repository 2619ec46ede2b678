/**
  The inverted index with its log of pending operations
  (src/engine/writetransaction.cpp).  `Index` is what the index should say: for
  each document, its terms with their positions.  The stored tables together with
  the log represent an Index when replaying the log over the tables inverts it.
 */
module InvertedIndex {
  import opened Bytes
  import opened IdUtils

  type Term = seq<Byte>

  /** The terms of one document or one category of it, with their positions. */
  type TermMap = map<Term, seq<nat>>

  type Index = map<Id, TermMap>

  datatype Operation = AddId(data: PositionInfo) | RemoveId(data: PositionInfo)

  type Postings = map<Term, seq<Id>>
  type Positions = map<Term, seq<PositionInfo>>
  type Pending = map<Term, seq<Operation>>

  /** A table read: no entry reads as the empty list. */
  function Get<T>(table: map<Term, seq<T>>, term: Term): seq<T> {
    if term in table then table[term] else []
  }

  /** A table write: an empty list deletes the entry. */
  function Set<T>(table: map<Term, seq<T>>, term: Term, list: seq<T>): map<Term, seq<T>> {
    if list == [] then table - {term} else table[term := list]
  }

  function TermsOf(index: Index, id: Id): TermMap {
    if id in index then index[id] else map[]
  }

  function ApplyToIds(list: seq<Id>, op: Operation): seq<Id> {
    match op
    case AddId(data) => SortedIdInsert(list, data.docId, IdOf)
    case RemoveId(data) => SortedIdRemove(list, data.docId, IdOf)
  }

  function ApplyToPositions(list: seq<PositionInfo>, op: Operation): seq<PositionInfo> {
    match op
    case AddId(data) => if data.positions != [] then SortedIdInsert(list, data, DocIdOf) else list
    case RemoveId(data) => SortedIdRemove(list, data.docId, DocIdOf)
  }

  function ReplayIds(list: seq<Id>, ops: seq<Operation>): seq<Id> {
    if ops == [] then list else ApplyToIds(ReplayIds(list, ops[..|ops| - 1]), ops[|ops| - 1])
  }

  function ReplayPositions(list: seq<PositionInfo>, ops: seq<Operation>): seq<PositionInfo> {
    if ops == [] then list else ApplyToPositions(ReplayPositions(list, ops[..|ops| - 1]), ops[|ops| - 1])
  }

  /** The document ids a term has once the log is replayed. */
  function EffectiveIds(postings: Postings, pending: Pending, term: Term): seq<Id> {
    ReplayIds(Get(postings, term), Get(pending, term))
  }

  function EffectivePositions(positions: Positions, pending: Pending, term: Term): seq<PositionInfo> {
    ReplayPositions(Get(positions, term), Get(pending, term))
  }

  /** The list has exactly the documents with that term, ascending. */
  ghost predicate IdsInvert(index: Index, term: Term, list: seq<Id>) {
    Ascending(list, IdOf) && forall id :: id in list <==> term in TermsOf(index, id)
  }

  /** The list has exactly the documents with positions for that term, ascending, with those positions. */
  ghost predicate PositionsInvert(index: Index, term: Term, list: seq<PositionInfo>) {
    Ascending(list, DocIdOf) &&
    forall info :: info in list <==>
      term in TermsOf(index, info.docId) && info.positions == TermsOf(index, info.docId)[term] && info.positions != []
  }

  ghost predicate NothingEmpty<T>(table: map<Term, seq<T>>) {
    forall term :: term in table ==> table[term] != []
  }

  /** Stored tables plus log represent the index. */
  ghost predicate Represents(postings: Postings, positions: Positions, pending: Pending, index: Index) {
    NothingEmpty(postings) && NothingEmpty(positions) &&
    (forall term {:trigger EffectiveIds(postings, pending, term)} ::
      IdsInvert(index, term, EffectiveIds(postings, pending, term))) &&
    (forall term {:trigger EffectivePositions(positions, pending, term)} ::
      PositionsInvert(index, term, EffectivePositions(positions, pending, term)))
  }

  /** The log with one more operation for a term. */
  function Log(pending: Pending, term: Term, op: Operation): Pending {
    pending[term := Get(pending, term) + [op]]
  }

  lemma LogReplays(postings: Postings, positions: Positions, pending: Pending, term: Term, op: Operation, other: Term)
    ensures EffectiveIds(postings, Log(pending, term, op), other) ==
      if other == term then ApplyToIds(EffectiveIds(postings, pending, term), op)
      else EffectiveIds(postings, pending, other)
    ensures EffectivePositions(positions, Log(pending, term, op), other) ==
      if other == term then ApplyToPositions(EffectivePositions(positions, pending, term), op)
      else EffectivePositions(positions, pending, other)
  {
    if other == term {
      var ops := Get(pending, term);
      assert (ops + [op])[..|ops|] == ops;
    }
  }

  /** Positions that are already there are not replaced. */
  function Fill(m: TermMap, terms: TermMap): TermMap {
    map t | t in m.Keys + terms.Keys :: if t in terms && (t !in m || m[t] == []) then terms[t] else m[t]
  }

  function WithTerm(index: Index, id: Id, term: Term, positions: seq<nat>): Index {
    index[id := Fill(TermsOf(index, id), map[term := positions])]
  }

  function WithoutTerm(index: Index, id: Id, term: Term): Index {
    index[id := TermsOf(index, id) - {term}]
  }

  /** Adding a term to a document, whether it has it or not. */
  lemma AddInverts(index: Index, id: Id, term: Term, ps: seq<nat>, ids: seq<Id>, infos: seq<PositionInfo>)
    requires IdsInvert(index, term, ids) && PositionsInvert(index, term, infos)
    ensures IdsInvert(WithTerm(index, id, term, ps), term, ApplyToIds(ids, AddId(PositionInfo(id, ps))))
    ensures PositionsInvert(WithTerm(index, id, term, ps), term, ApplyToPositions(infos, AddId(PositionInfo(id, ps))))
  {
    AddInvertsIds(index, id, term, ps, ids);
    AddInvertsPositions(index, id, term, ps, infos);
  }

  lemma AddInvertsIds(index: Index, id: Id, term: Term, ps: seq<nat>, ids: seq<Id>)
    requires IdsInvert(index, term, ids)
    ensures IdsInvert(WithTerm(index, id, term, ps), term, SortedIdInsert(ids, id, IdOf))
  {
    InsertIsSetInsert(ids, id, IdOf);
    assert HasKey(ids, IdOf, id) <==> id in ids;
  }

  lemma AddInvertsPositions(index: Index, id: Id, term: Term, ps: seq<nat>, infos: seq<PositionInfo>)
    requires PositionsInvert(index, term, infos)
    ensures PositionsInvert(WithTerm(index, id, term, ps), term, ApplyToPositions(infos, AddId(PositionInfo(id, ps))))
  {
    var index' := WithTerm(index, id, term, ps);
    var m := TermsOf(index, id);
    if term in m && m[term] != [] {
      assert forall x :: SameTerm(TermsOf(index, x), TermsOf(index', x), term);
      OthersInvert(index, index', term, [], infos);
      PositionsTaken(infos, PositionInfo(id, m[term]), PositionInfo(id, ps));
    } else {
      NewPositions(index, index', id, term, ps, infos);
    }
  }

  /** A document's positions stay when others are inserted. */
  lemma PositionsTaken(infos: seq<PositionInfo>, kept: PositionInfo, data: PositionInfo)
    requires Ascending(infos, DocIdOf) && kept in infos && kept.docId == data.docId
    ensures SortedIdInsert(infos, data, DocIdOf) == infos
  {
    InsertIsSetInsert(infos, data, DocIdOf);
  }

  /** A document gets positions for a term for which it had none. */
  lemma NewPositions(index: Index, index': Index, id: Id, term: Term, ps: seq<nat>, infos: seq<PositionInfo>)
    requires PositionsInvert(index, term, infos) && (term in TermsOf(index, id) ==> TermsOf(index, id)[term] == [])
    requires term in TermsOf(index', id) && TermsOf(index', id)[term] == ps
    requires forall x :: x != id ==> TermsOf(index', x) == TermsOf(index, x)
    ensures PositionsInvert(index', term, ApplyToPositions(infos, AddId(PositionInfo(id, ps))))
  {
    if ps != [] {
      var data := PositionInfo(id, ps);
      InsertIsSetInsert(infos, data, DocIdOf);
      assert !HasKey(infos, DocIdOf, DocIdOf(data)) by {
        assert forall i :: 0 <= i < |infos| ==> infos[i] in infos;
      }
    }
  }

  /** Removing a term from a document, whether it has it or not. */
  lemma RemoveInverts(index: Index, id: Id, term: Term, ids: seq<Id>, infos: seq<PositionInfo>)
    requires IdsInvert(index, term, ids) && PositionsInvert(index, term, infos)
    ensures IdsInvert(WithoutTerm(index, id, term), term, SortedIdRemove(ids, id, IdOf))
    ensures PositionsInvert(WithoutTerm(index, id, term), term, SortedIdRemove(infos, id, DocIdOf))
  {
    RemoveIsSetRemove(ids, id, IdOf);
    RemoveIsSetRemove(infos, id, DocIdOf);
  }

  ghost predicate SameTerm(m: TermMap, m': TermMap, term: Term) {
    (term in m' <==> term in m) && (term in m ==> m'[term] == m[term])
  }

  /** Only what the index says of a term matters to its lists. */
  lemma OthersInvert(index: Index, index': Index, term: Term, ids: seq<Id>, infos: seq<PositionInfo>)
    requires forall x :: SameTerm(TermsOf(index, x), TermsOf(index', x), term)
    ensures IdsInvert(index, term, ids) ==> IdsInvert(index', term, ids)
    ensures PositionsInvert(index, term, infos) ==> PositionsInvert(index', term, infos)
  {
  }

  /** Logging an AddId is adding the term to the document, which keeps positions that it has for it. */
  lemma LogAdd(postings: Postings, positions: Positions, pending: Pending, index: Index, id: Id, term: Term,
               ps: seq<nat>)
    requires Represents(postings, positions, pending, index)
    ensures Represents(postings, positions, Log(pending, term, AddId(PositionInfo(id, ps))),
      WithTerm(index, id, term, ps))
  {
    var op := AddId(PositionInfo(id, ps));
    var index' := WithTerm(index, id, term, ps);
    forall other
      ensures IdsInvert(index', other, EffectiveIds(postings, Log(pending, term, op), other))
      ensures PositionsInvert(index', other, EffectivePositions(positions, Log(pending, term, op), other))
    {
      var ids, infos := EffectiveIds(postings, pending, other), EffectivePositions(positions, pending, other);
      LogReplays(postings, positions, pending, term, op, other);
      if other == term {
        AddInverts(index, id, term, ps, ids, infos);
      } else {
        OthersInvert(index, index', other, ids, infos);
      }
    }
  }

  /** Logging a RemoveId is removing the term from the document. */
  lemma LogRemove(postings: Postings, positions: Positions, pending: Pending, index: Index, id: Id, term: Term)
    requires Represents(postings, positions, pending, index)
    ensures Represents(postings, positions, Log(pending, term, RemoveId(PositionInfo(id, []))),
      WithoutTerm(index, id, term))
  {
    var op := RemoveId(PositionInfo(id, []));
    var index' := WithoutTerm(index, id, term);
    forall other
      ensures IdsInvert(index', other, EffectiveIds(postings, Log(pending, term, op), other))
      ensures PositionsInvert(index', other, EffectivePositions(positions, Log(pending, term, op), other))
    {
      var ids, infos := EffectiveIds(postings, pending, other), EffectivePositions(positions, pending, other);
      LogReplays(postings, positions, pending, term, op, other);
      if other == term {
        RemoveInverts(index, id, term, ids, infos);
      } else {
        OthersInvert(index, index', other, ids, infos);
      }
    }
  }

  /** Only what the index says of each document matters. */
  lemma SameIndex(postings: Postings, positions: Positions, pending: Pending, index: Index, index': Index)
    requires Represents(postings, positions, pending, index)
    requires forall id :: TermsOf(index', id) == TermsOf(index, id)
    ensures Represents(postings, positions, pending, index')
  {
    forall term
      ensures IdsInvert(index', term, EffectiveIds(postings, pending, term))
      ensures PositionsInvert(index', term, EffectivePositions(positions, pending, term))
    {
      OthersInvert(index, index', term, EffectiveIds(postings, pending, term),
        EffectivePositions(positions, pending, term));
    }
  }

  /** Storing one term's replayed lists and forgetting its operations changes nothing. */
  lemma StoreTerm(postings: Postings, positions: Positions, pending: Pending, index: Index, term: Term)
    requires Represents(postings, positions, pending, index)
    ensures Represents(Set(postings, term, EffectiveIds(postings, pending, term)),
                       Set(positions, term, EffectivePositions(positions, pending, term)), pending - {term}, index)
  {
    var postings', positions' := Set(postings, term, EffectiveIds(postings, pending, term)),
                                 Set(positions, term, EffectivePositions(positions, pending, term));
    forall other
      ensures EffectiveIds(postings', pending - {term}, other) == EffectiveIds(postings, pending, other)
      ensures EffectivePositions(positions', pending - {term}, other) == EffectivePositions(positions, pending, other)
    {
    }
  }

  /** With an empty log the stored tables themselves are the inversion. */
  lemma NothingPending(postings: Postings, positions: Positions, index: Index)
    requires Represents(postings, positions, map[], index)
    ensures forall term :: IdsInvert(index, term, Get(postings, term))
    ensures forall term :: PositionsInvert(index, term, Get(positions, term))
    ensures forall term :: term in postings <==> exists id :: term in TermsOf(index, id)
  {
    forall term
      ensures IdsInvert(index, term, Get(postings, term)) && PositionsInvert(index, term, Get(positions, term))
      ensures term in postings <==> exists id :: term in TermsOf(index, id)
    {
      assert EffectiveIds(postings, map[], term) == Get(postings, term);
      assert EffectivePositions(positions, map[], term) == Get(positions, term);
      if term in postings {
        assert postings[term][0] in Get(postings, term);
      }
    }
  }

  /** An index is determined by the tables that represent it, as far as terms go. */
  lemma IndexDetermined(postings: Postings, positions: Positions, pending: Pending, index: Index, index': Index)
    requires Represents(postings, positions, pending, index) && Represents(postings, positions, pending, index')
    ensures forall id :: TermsOf(index, id) == TermsOf(index', id)
  {
    forall id ensures TermsOf(index, id) == TermsOf(index', id) {
      forall term ensures term in TermsOf(index, id) <==> term in TermsOf(index', id) {
        assert id in EffectiveIds(postings, pending, term) <==> term in TermsOf(index, id);
      }
      forall term | term in TermsOf(index, id) ensures TermsOf(index, id)[term] == TermsOf(index', id)[term] {
        var infos := EffectivePositions(positions, pending, term);
        assert PositionInfo(id, TermsOf(index, id)[term]) in infos <==> TermsOf(index, id)[term] != [];
        assert PositionInfo(id, TermsOf(index', id)[term]) in infos <==> TermsOf(index', id)[term] != [];
        assert PositionInfo(id, TermsOf(index, id)[term]) in infos ==>
          TermsOf(index, id)[term] == TermsOf(index', id)[term];
      }
    }
  }

  /** One term of a document with its positions. */
  datatype TermEntry = TermEntry(term: Term, positions: seq<nat>)

  /** The terms of a document as QMap holds them: each key once. */
  predicate DistinctTerms(entries: seq<TermEntry>) {
    forall i, j :: 0 <= i < j < |entries| ==> entries[i].term != entries[j].term
  }

  function EntryMap(entries: seq<TermEntry>): TermMap {
    if entries == [] then map[] else
      var n := |entries| - 1;
      EntryMap(entries[..n])[entries[n].term := entries[n].positions]
  }

  function Keys(entries: seq<TermEntry>): seq<Term> {
    if entries == [] then [] else Keys(entries[..|entries| - 1]) + [entries[|entries| - 1].term]
  }

  lemma {:induction false} EntryMapKeys(entries: seq<TermEntry>)
    ensures |Keys(entries)| == |entries| && forall i :: 0 <= i < |entries| ==> Keys(entries)[i] == entries[i].term
    ensures forall t :: t in EntryMap(entries) <==> t in Keys(entries)
  {
    if entries != [] {
      EntryMapKeys(entries[..|entries| - 1]);
    }
  }

  /** Exactly the terms of the entries, each with its positions. */
  lemma {:induction false} EntryMapHolds(entries: seq<TermEntry>)
    requires DistinctTerms(entries)
    ensures forall i :: 0 <= i < |entries| ==>
      entries[i].term in EntryMap(entries) && EntryMap(entries)[entries[i].term] == entries[i].positions
    ensures forall t :: t in EntryMap(entries) ==> exists i :: 0 <= i < |entries| && entries[i].term == t
  {
    if entries != [] {
      var n := |entries| - 1;
      EntryMapHolds(entries[..n]);
      EntryMapKeys(entries[..n]);
    }
  }

  ghost function WithTerms(index: Index, id: Id, entries: seq<TermEntry>): Index {
    if entries == [] then index else
      var n := |entries| - 1;
      WithTerm(WithTerms(index, id, entries[..n]), id, entries[n].term, entries[n].positions)
  }

  ghost function WithoutTerms(index: Index, id: Id, terms: seq<Term>): Index {
    if terms == [] then index else
      var n := |terms| - 1;
      WithoutTerm(WithoutTerms(index, id, terms[..n]), id, terms[n])
  }

  lemma {:induction false} WithTermsAt(index: Index, id: Id, entries: seq<TermEntry>, x: Id)
    requires DistinctTerms(entries)
    ensures TermsOf(WithTerms(index, id, entries), x) ==
      if x == id then Fill(TermsOf(index, id), EntryMap(entries)) else TermsOf(index, x)
  {
    var m := TermsOf(index, id);
    if entries == [] {
      assert Fill(m, map[]) == m;
    } else {
      var n := |entries| - 1;
      WithTermsAt(index, id, entries[..n], x);
      EntryMapKeys(entries[..n]);
      FillMore(m, EntryMap(entries[..n]), entries[n].term, entries[n].positions);
    }
  }

  lemma FillMore(m: TermMap, terms: TermMap, term: Term, ps: seq<nat>)
    requires term !in terms
    ensures Fill(Fill(m, terms), map[term := ps]) == Fill(m, terms[term := ps])
  {
  }

  lemma {:induction false} WithoutTermsAt(index: Index, id: Id, terms: seq<Term>, x: Id)
    ensures TermsOf(WithoutTerms(index, id, terms), x) ==
      if x == id then TermsOf(index, id) - (set t | t in terms) else TermsOf(index, x)
  {
    if terms != [] {
      var n := |terms| - 1;
      WithoutTermsAt(index, id, terms[..n], x);
      assert terms == terms[..n] + [terms[n]];
      assert (set t | t in terms) == (set t | t in terms[..n]) + {terms[n]};
    }
  }
}
