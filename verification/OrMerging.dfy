/**
  The reasoning behind OrPostingIterator: its children, all advanced past the
  last delivered id, still cover exactly the rest of the union.
 */
module OrMerging {
  import opened Sequences
  import opened IdUtils
  import opened Cursors

  /** The child is started, ahead of d, and has missed none of its ids above d. */
  ghost predicate ChildCovers(all: set<Id>, ids: set<Id>, p: Cursor, d: Id) {
    ids <= all && 0 !in ids && !p.Start? && (p.At? ==> d < p.id && p.id in ids) &&
    forall y :: y in ids && d < y ==> Reach(p, y)
  }

  /** Every id of all above d belongs to some child. */
  ghost predicate Covered(all: set<Id>, ids: seq<set<Id>>, d: Id) {
    forall y :: y in all && d < y ==> exists i :: 0 <= i < |ids| && y in ids[i]
  }

  /** Children before n cover what is above d1, the others what is above d0. */
  ghost predicate Covering(all: set<Id>, ids: seq<set<Id>>, ps: seq<Cursor>, d1: Id, n: nat, d0: Id) {
    |ids| == |ps| && n <= |ids| &&
    (forall i :: 0 <= i < n ==> ChildCovers(all, ids[i], ps[i], d1)) &&
    (forall i :: n <= i < |ids| ==> ChildCovers(all, ids[i], ps[i], d0))
  }

  /** next is the smallest current id among the first n children, or 0 if they are all exhausted. */
  ghost predicate Lowest(ps: seq<Cursor>, n: nat, next: Id)
    requires n <= |ps|
  {
    if next == 0 then forall i :: 0 <= i < n ==> ps[i].End?
    else (exists i :: 0 <= i < n && ps[i] == At(next)) && forall i :: 0 <= i < n && ps[i].At? ==> next <= ps[i].id
  }

  /** The running minimum of the source's loops. */
  function Lower(next: Id, id: Id): Id {
    if id != 0 && (id < next || next == 0) then id else next
  }

  lemma LowestGrows(ps: seq<Cursor>, qs: seq<Cursor>, n: nat, next: Id)
    requires n < |ps| == |qs| && Lowest(ps, n, next) && (qs[n].At? ==> qs[n].id > 0) && !qs[n].Start?
    requires forall i :: 0 <= i < n ==> qs[i] == ps[i]
    ensures Lowest(qs, n + 1, Lower(next, DocId(qs[n])))
  {
    var next' := Lower(next, DocId(qs[n]));
    if next' == next && next != 0 {
      var i :| 0 <= i < n && ps[i] == At(next);
      assert qs[i] == At(next);
    } else if next' != 0 {
      assert qs[n] == At(next');
    }
  }

  /** The ids of all above d. */
  ghost function Above(all: set<Id>, d: Id): set<Id> {
    set y | y in all && d < y
  }

  /** The smallest current id of the children is the smallest id still to be delivered. */
  lemma LowestIsNext(all: set<Id>, ids: seq<set<Id>>, ps: seq<Cursor>, d: Id, next: Id)
    requires Covering(all, ids, ps, d, |ids|, d) && Covered(all, ids, d) && Lowest(ps, |ids|, next)
    ensures next == 0 ==> forall y :: y in all ==> y <= d
    ensures next > 0 ==> next in all && d < next && forall y :: y in all && d < y ==> next <= y
  {
    forall y | y in all && d < y
      ensures next > 0 && next <= y
    {
      var i :| 0 <= i < |ids| && y in ids[i];
      assert ChildCovers(all, ids[i], ps[i], d);
      assert Reach(ps[i], y) && ps[i].At?;
    }
    if next > 0 {
      var i :| 0 <= i < |ids| && ps[i] == At(next);
      assert ChildCovers(all, ids[i], ps[i], d);
    }
  }

  lemma SkipCovers(all: set<Id>, ids: set<Id>, p: Cursor, d: Id, id: Id, q: Cursor)
    requires ChildCovers(all, ids, p, d) && d < id && Skipped(ids, p, id, q)
    ensures ChildCovers(all, ids, q, id - 1)
  {
  }

  /** A child on docId steps; any other child is already past it. */
  lemma StepCovers(all: set<Id>, ids: set<Id>, p: Cursor, d: Id, docId: Id, q: Cursor)
    requires ChildCovers(all, ids, p, d) && d < docId && (p.At? ==> docId <= p.id)
    requires if DocId(p) == docId then Stepped(ids, p, q) else q == p
    ensures ChildCovers(all, ids, q, docId)
  {
  }

  lemma CoveringSteps(all: set<Id>, ids: seq<set<Id>>, ps: seq<Cursor>, qs: seq<Cursor>, d1: Id, n: nat, d0: Id)
    requires Covering(all, ids, ps, d1, n, d0) && n < |ids| && |qs| == |ps| && qs == ps[n := qs[n]]
    requires ChildCovers(all, ids[n], qs[n], d1)
    ensures Covering(all, ids, qs, d1, n + 1, d0)
  {
  }

  /** skipTo's fast forward to id: the first n children are there, next is the lowest of them. */
  ghost predicate Skipping(all: set<Id>, ids: seq<set<Id>>, ps: seq<Cursor>, low: Id, id: Id, n: nat, next: Id) {
    low < id && |ids| == |ps| && n <= |ps| &&
    Covering(all, ids, ps, id - 1, n, low) && Covered(all, ids, id - 1) && Lowest(ps, n, next)
  }

  lemma SkippingStep(all: set<Id>, ids: seq<set<Id>>, ps: seq<Cursor>, qs: seq<Cursor>, low: Id, id: Id, n: nat,
                     next: Id)
    requires Skipping(all, ids, ps, low, id, n, next) && n < |ids|
    requires |qs| == |ps| && qs == ps[n := qs[n]] && Skipped(ids[n], ps[n], id, qs[n])
    ensures Skipping(all, ids, qs, low, id, n + 1, Lower(next, DocId(qs[n])))
  {
    SkipCovers(all, ids[n], ps[n], low, id, qs[n]);
    CoveringSteps(all, ids, ps, qs, id - 1, n, low);
    LowestGrows(ps, qs, n, next);
  }

  /** With the lowest current id at docId, nothing is below it. */
  lemma LowestRaises(all: set<Id>, ids: seq<set<Id>>, ps: seq<Cursor>, d: Id, docId: Id)
    requires Covering(all, ids, ps, d, |ids|, d) && Covered(all, ids, d) && Lowest(ps, |ids|, docId) && docId > 0
    ensures d < docId
    ensures Covering(all, ids, ps, docId, 0, docId - 1) && Covered(all, ids, docId)
  {
    LowestIsNext(all, ids, ps, d, docId);
    forall i | 0 <= i < |ids| ensures ChildCovers(all, ids[i], ps[i], docId - 1) {
      assert ChildCovers(all, ids[i], ps[i], d);
    }
    forall y | y in all && docId < y ensures exists i :: 0 <= i < |ids| && y in ids[i] {
      assert d < y;
    }
  }

  lemma CoveringWithout(all: set<Id>, ids: seq<set<Id>>, ps: seq<Cursor>, d1: Id, n: nat, d0: Id)
    requires n < |ids| && Covering(all, ids, ps, d1, n + 1, d0)
    ensures Covering(all, WithoutAt(ids, n), WithoutAt(ps, n), d1, n, d0)
  {
    var ids', ps' := WithoutAt(ids, n), WithoutAt(ps, n);
    forall i | 0 <= i < |ids'|
      ensures ChildCovers(all, ids'[i], ps'[i], if i < n then d1 else d0)
    {
      var j := if i < n then i else i + 1;
      assert ids'[i] == ids[j] && ps'[i] == ps[j];
    }
  }

  /** An exhausted child can be dropped: it has nothing above d. */
  lemma CoveredWithout(all: set<Id>, ids: seq<set<Id>>, d: Id, n: nat)
    requires n < |ids| && Covered(all, ids, d) && ChildCovers(all, ids[n], End, d)
    ensures Covered(all, WithoutAt(ids, n), d)
  {
    var ids' := WithoutAt(ids, n);
    forall y | y in all && d < y
      ensures exists i :: 0 <= i < |ids'| && y in ids'[i]
    {
      var i :| 0 <= i < |ids| && y in ids[i];
      assert i != n;
      assert ids'[if i < n then i else i - 1] == ids[i];
    }
  }

  lemma LowestOfPrefix(ps: seq<Cursor>, qs: seq<Cursor>, n: nat, next: Id)
    requires n <= |ps| && n <= |qs| && ps[..n] == qs[..n] && Lowest(ps, n, next)
    ensures Lowest(qs, n, next)
  {
    assert forall i :: 0 <= i < n ==> qs[i] == qs[..n][i] == ps[i];
  }

  /** The state of an OrPostingIterator at p. */
  ghost predicate Merged(all: set<Id>, ids: seq<set<Id>>, ps: seq<Cursor>, docId: Id, next: Id, p: Cursor) {
    |ids| == |ps| && docId == DocId(p) && Within(all, p) &&
    if p.End? then next == 0
    else Covering(all, ids, ps, docId, |ids|, docId) && Covered(all, ids, docId) && Lowest(ps, |ids|, next)
  }

  /** While the constructor advances the children for the first time: the first n are done. */
  ghost predicate Opening(all: set<Id>, ids: seq<set<Id>>, ps: seq<Cursor>, n: nat) {
    |ids| == |ps| && n <= |ids| &&
    (forall i :: 0 <= i < |ids| ==> ids[i] <= all && 0 !in ids[i]) &&
    (forall i :: 0 <= i < n ==> ChildCovers(all, ids[i], ps[i], 0)) &&
    (forall i :: n <= i < |ids| ==> ps[i].Start?)
  }

  lemma OpeningSteps(all: set<Id>, ids: seq<set<Id>>, ps: seq<Cursor>, qs: seq<Cursor>, n: nat)
    requires Opening(all, ids, ps, n) && n < |ids| && |qs| == |ps| && qs == ps[n := qs[n]]
    requires Stepped(ids[n], ps[n], qs[n])
    ensures Opening(all, ids, qs, n + 1)
  {
  }

  /** all is the union of the children's sets. */
  ghost predicate IsUnion(all: set<Id>, ids: seq<set<Id>>) {
    forall y :: y in all <==> exists i :: 0 <= i < |ids| && y in ids[i]
  }
}
