/**
  What a posting iterator promises its caller, as a relation on cursors.

  An iterator stands for a finite set of document ids.  Its cursor is before
  the first one, on one, or past the last one, and the two moves of
  src/engine/postingiterator.h take it to the least id that is still ahead.
 */
module Cursors {
  import opened IdUtils

  datatype Cursor = Start | At(id: Id) | End

  /** docId(): 0 before the first id and after the last one. */
  function DocId(p: Cursor): Id {
    if p.At? then p.id else 0
  }

  /** y is the current id or still ahead of the cursor. */
  predicate Reach(p: Cursor, y: Id) {
    p.Start? || (p.At? && p.id <= y)
  }

  /** The cursor may move from p to q. */
  predicate Forward(p: Cursor, q: Cursor) {
    q == p || q.End? || (q.At? && Reach(p, q.id))
  }

  /** q is on the least id of ids that is at least low and reachable from p; past the end if there is none. */
  ghost predicate IsLeast(ids: set<Id>, p: Cursor, low: Id, q: Cursor) {
    match q
    case At(x) => x in ids && low <= x && Reach(p, x) && forall y :: y in ids && low <= y && Reach(p, y) ==> x <= y
    case End => forall y :: y in ids && low <= y ==> !Reach(p, y)
    case Start => false
  }

  /** The effect of next(). */
  ghost predicate Stepped(ids: set<Id>, p: Cursor, q: Cursor) {
    IsLeast(ids, p, DocId(p) + 1, q)
  }

  /** The effect of skipTo(low); skipTo(0) never moves. */
  ghost predicate Skipped(ids: set<Id>, p: Cursor, low: Id, q: Cursor) {
    if low == 0 then q == p else IsLeast(ids, p, low, q)
  }

  ghost predicate Within(ids: set<Id>, p: Cursor) {
    0 !in ids && (p.At? ==> p.id in ids)
  }

  /** Both moves are functions: two cursors that satisfy the contract are the same cursor. */
  lemma LeastIsUnique(ids: set<Id>, p: Cursor, low: Id, q: Cursor, r: Cursor)
    requires IsLeast(ids, p, low, q) && IsLeast(ids, p, low, r)
    ensures q == r
  {
    if q.At? && r.At? {
      assert q.id <= r.id && r.id <= q.id;
    }
  }

  /** On the way from p to low by single steps: at q, nothing from low on has been passed. */
  ghost predicate Passing(ids: set<Id>, p: Cursor, low: Id, q: Cursor) {
    Within(ids, q) &&
    (q == p ||
      (DocId(p) < low && q.At? && Reach(p, q.id) && forall y :: y in ids && low <= y && Reach(p, y) ==> Reach(q, y)))
  }

  /** Calling next until the id is large enough is skipTo. */
  lemma PassingStep(ids: set<Id>, p: Cursor, low: Id, q: Cursor, r: Cursor)
    requires Passing(ids, p, low, q) && DocId(q) < low && Stepped(ids, q, r)
    ensures DocId(p) < low && (r.End? ==> Skipped(ids, p, low, r)) && (r.At? ==> Passing(ids, p, low, r))
  {
  }

  lemma PassingEnds(ids: set<Id>, p: Cursor, low: Id, q: Cursor)
    requires Passing(ids, p, low, q) && low <= DocId(q)
    ensures Skipped(ids, p, low, q)
  {
    if q == p {
      SkipBackIsIdle(ids, p, low, q);
    }
  }

  /** Skipping to an id the cursor has already reached does not move it. */
  lemma SkipBackIsIdle(ids: set<Id>, p: Cursor, low: Id, q: Cursor)
    requires Within(ids, p) && low <= DocId(p)
    ensures Skipped(ids, p, low, q) <==> q == p
  {
    if p.At? && Skipped(ids, p, low, q) && low > 0 {
      assert q.At? && p.id in ids;
    }
  }

  /** The ids delivered by calling next until it returns 0. */
  ghost predicate Enumerates(out: seq<Id>, ids: set<Id>, p: Cursor) {
    Ascending(out, IdOf) && forall x :: x in out <==> x in ids && Reach(p, x) && x != DocId(p)
  }

  /** The list holds exactly the ids of the set, ascending. */
  ghost predicate Lists<T>(list: seq<T>, key: T -> Id, ids: set<Id>) {
    Ascending(list, key) && forall y :: y in ids <==> HasKey(list, key, y)
  }

  /** A cursor kept as an index into such a list; at the end the list may have been dropped. */
  ghost predicate OnList<T>(list: seq<T>, key: T -> Id, ids: set<Id>, pos: int, p: Cursor) {
    match p
    case Start => pos == -1 && Lists(list, key, ids)
    case At(x) => 0 <= pos < |list| && key(list[pos]) == x && Lists(list, key, ids)
    case End => 0 <= pos && |list| <= pos
  }

  /** The next index is the next id. */
  lemma ListStep<T>(list: seq<T>, key: T -> Id, ids: set<Id>, pos: int, p: Cursor)
    requires 0 !in ids && OnList(list, key, ids, pos, p) && !p.End?
    ensures Stepped(ids, p, if pos + 1 < |list| then At(key(list[pos + 1])) else End)
    ensures pos + 1 < |list| ==> key(list[pos + 1]) in ids
  {
    forall y | y in ids && DocId(p) < y
      ensures pos + 1 < |list| && key(list[pos + 1]) <= y
    {
      var i :| 0 <= i < |list| && key(list[i]) == y;
      assert i > pos;
      assert i > pos + 1 ==> key(list[pos + 1]) < key(list[i]);
    }
    if pos + 1 < |list| {
      assert HasKey(list, key, key(list[pos + 1]));
      assert pos >= 0 ==> key(list[pos]) < key(list[pos + 1]);
    }
  }
}
