/**
  The reasoning behind the leapfrog loops of AndPostingIterator and
  PhraseAndIterator: what a list of cursors, one per child, does in one round.
 */
module Leapfrogging {
  import opened IdUtils
  import opened Cursors

  /** Every wanted id is in every child and not yet behind it. */
  ghost predicate Ahead(ids: seq<set<Id>>, ps: seq<Cursor>, want: set<Id>)
    requires |ids| == |ps|
  {
    forall i, y :: 0 <= i < |ids| && y in want ==> y in ids[i] && Reach(ps[i], y)
  }

  ghost predicate AllFrom(want: set<Id>, low: Id) {
    forall y :: y in want ==> low <= y
  }

  ghost predicate AllForward(ps: seq<Cursor>, qs: seq<Cursor>)
    requires |ps| == |qs|
  {
    forall i :: 0 <= i < |ps| ==> Forward(ps[i], qs[i])
  }

  ghost predicate SomeEnd(ps: seq<Cursor>) {
    exists i :: 0 <= i < |ps| && ps[i].End?
  }

  ghost predicate AllAt(ps: seq<Cursor>, id: Id) {
    forall i :: 0 <= i < |ps| ==> ps[i] == At(id)
  }

  /** How the children stand when their parent is at p: not started, on p, or one of them exhausted. */
  ghost predicate InStep(ps: seq<Cursor>, p: Cursor) {
    match p
    case Start => forall i :: 0 <= i < |ps| ==> ps[i].Start?
    case At(x) => AllAt(ps, x)
    case End => ps != [] ==> SomeEnd(ps)
  }

  ghost function MaxOf(s: set<Id>): (m: Id)
    ensures forall y :: y in s ==> y <= m
  {
    if s == {} then 0 else
      var x :| x in s;
      var m := MaxOf(s - {x});
      assert forall y :: y in s ==> y == x || y in s - {x};
      if m < x then x else m
  }

  /** An upper bound for the ids of all children. */
  ghost function Top(ids: seq<set<Id>>): Id {
    if ids == [] then 0 else
      var m, rest := MaxOf(ids[0]), Top(ids[1..]);
      if m < rest then rest else m
  }

  lemma {:induction false} TopBounds(ids: seq<set<Id>>, i: nat, y: Id)
    requires i < |ids| && y in ids[i]
    ensures y <= Top(ids)
  {
    if i > 0 {
      assert ids[1..][i - 1] == ids[i];
      TopBounds(ids[1..], i - 1, y);
    }
  }

  /** Cursors stay within their sets. */
  ghost predicate AllWithin(ids: seq<set<Id>>, ps: seq<Cursor>) {
    |ids| == |ps| && forall i :: 0 <= i < |ids| ==> Within(ids[i], ps[i])
  }

  /** After the first n children have skipped. */
  ghost predicate PartRound(ids: seq<set<Id>>, ps0: seq<Cursor>, ps: seq<Cursor>, want: set<Id>, id: Id,
                            lowerBound: Id, n: nat) {
    |ids| == |ps0| == |ps| && n <= |ids| && Ahead(ids, ps, want) &&
    id <= lowerBound && AllFrom(want, lowerBound) &&
    (forall i :: n <= i < |ids| ==> ps[i] == ps0[i]) &&
    (forall i :: 0 <= i < n ==> ps[i].At? && Forward(ps0[i], ps[i]) && id <= ps[i].id <= lowerBound) &&
    (if n == 0 then lowerBound == id else 0 < lowerBound && lowerBound in ids[n - 1] && (id == 0 ==> !ps0[0].Start?))
  }

  /** Nothing is left: some child is exhausted; or the round asked nobody to move. */
  ghost predicate Over(ps0: seq<Cursor>, ps: seq<Cursor>, id: Id) {
    if id == 0 && ps0 != [] && ps0[0].Start? then ps == ps0 else SomeEnd(ps)
  }

  /** After a whole round: the largest id seen, or 0. */
  ghost predicate Round(ids: seq<set<Id>>, ps0: seq<Cursor>, ps: seq<Cursor>, want: set<Id>, id: Id, lowerBound: Id) {
    |ids| == |ps0| == |ps| && Ahead(ids, ps, want) && AllForward(ps0, ps) &&
    if lowerBound == 0 then Over(ps0, ps, id) else
      id <= lowerBound <= Top(ids) && AllFrom(want, lowerBound) &&
      (lowerBound == id ==> AllAt(ps, id)) && (forall i :: 0 <= i < |ps| ==> ps[i].At?) &&
      (id == 0 ==> ps0 != [] && !ps0[0].Start?)
  }

  lemma RoundStarts(ids: seq<set<Id>>, ps: seq<Cursor>, want: set<Id>, id: Id)
    requires |ids| == |ps| && Ahead(ids, ps, want) && AllFrom(want, id)
    ensures PartRound(ids, ps, ps, want, id, id, 0)
  {
  }

  lemma RoundGoesOn(ids: seq<set<Id>>, ps0: seq<Cursor>, ps: seq<Cursor>, qs: seq<Cursor>, want: set<Id>, id: Id,
                    low: Id, n: nat)
    requires PartRound(ids, ps0, ps, want, id, low, n) && n < |ids|
    requires |qs| == |ps| && qs == ps[n := qs[n]]
    requires Skipped(ids[n], ps[n], low, qs[n]) && Within(ids[n], ps[n]) && DocId(qs[n]) > 0
    ensures PartRound(ids, ps0, qs, want, id, DocId(qs[n]), n + 1)
  {
    assert forall i :: 0 <= i < |ids| && i != n ==> qs[i] == ps[i];
  }

  lemma RoundFails(ids: seq<set<Id>>, ps0: seq<Cursor>, ps: seq<Cursor>, qs: seq<Cursor>, want: set<Id>, id: Id,
                   low: Id, n: nat)
    requires PartRound(ids, ps0, ps, want, id, low, n) && n < |ids|
    requires |qs| == |ps| && qs == ps[n := qs[n]]
    requires Skipped(ids[n], ps[n], low, qs[n]) && Within(ids[n], ps[n]) && DocId(qs[n]) == 0
    ensures Round(ids, ps0, qs, want, id, 0)
  {
    assert forall i :: 0 <= i < |ids| && i != n ==> qs[i] == ps[i];
    if qs[n].End? {
      assert SomeEnd(qs);
    } else {
      assert qs == ps;
      assert ps[0] == ps0[0];
      assert ps == ps0;
    }
  }

  lemma RoundComplete(ids: seq<set<Id>>, ps0: seq<Cursor>, ps: seq<Cursor>, want: set<Id>, id: Id, lowerBound: Id)
    requires ids != [] && PartRound(ids, ps0, ps, want, id, lowerBound, |ids|)
    ensures Round(ids, ps0, ps, want, id, lowerBound)
  {
    TopBounds(ids, |ids| - 1, lowerBound);
  }

  lemma ForwardTransitive(ps: seq<Cursor>, qs: seq<Cursor>, rs: seq<Cursor>)
    requires |ps| == |qs| == |rs| && AllForward(ps, qs) && AllForward(qs, rs)
    ensures AllForward(ps, rs)
  {
  }

  /**
    What the whole loop achieves from ps0: every child on r, the least wanted id,
    or nothing left.
   */
  ghost predicate Sought(ids: seq<set<Id>>, ps0: seq<Cursor>, ps: seq<Cursor>, want: set<Id>, id: Id, r: Id) {
    |ids| == |ps0| == |ps| && AllForward(ps0, ps) && Ahead(ids, ps, want) &&
    if r == 0 then Over(ps0, ps, id) else
      AllAt(ps, r) && id <= r && AllFrom(want, r) && (id == 0 ==> ps0 != [] && !ps0[0].Start?)
  }

  /** The loop has reached id. */
  ghost predicate Seeking(ids: seq<set<Id>>, ps0: seq<Cursor>, ps: seq<Cursor>, want: set<Id>, id0: Id, id: Id) {
    |ids| == |ps0| == |ps| && id0 <= id && AllForward(ps0, ps) && Ahead(ids, ps, want) &&
    AllFrom(want, id) &&
    (if id == id0 then ps == ps0 else id0 == 0 ==> ps0 != [] && !ps0[0].Start?)
  }

  lemma SeekRound(ids: seq<set<Id>>, ps0: seq<Cursor>, ps: seq<Cursor>, qs: seq<Cursor>, want: set<Id>, id0: Id,
                  id: Id, lowerBound: Id)
    requires Seeking(ids, ps0, ps, want, id0, id) && Round(ids, ps, qs, want, id, lowerBound)
    ensures if lowerBound == 0 || lowerBound == id then Sought(ids, ps0, qs, want, id0, lowerBound)
            else Seeking(ids, ps0, qs, want, id0, lowerBound) && id < lowerBound <= Top(ids)
  {
    ForwardTransitive(ps0, ps, qs);
  }

  /** The phrase loop after its first child ran out: the next round ends it. */
  ghost predicate Stuck(ids: seq<set<Id>>, ps0: seq<Cursor>, ps: seq<Cursor>, want: set<Id>, id0: Id) {
    |ids| == |ps0| == |ps| && ps != [] && ps[0].End? && AllForward(ps0, ps) && Ahead(ids, ps, want) &&
    (id0 == 0 ==> !ps0[0].Start?)
  }

  lemma StuckRound(ids: seq<set<Id>>, ps0: seq<Cursor>, ps: seq<Cursor>, qs: seq<Cursor>, want: set<Id>, id0: Id,
                   lowerBound: Id)
    requires Stuck(ids, ps0, ps, want, id0) && Round(ids, ps, qs, want, 0, lowerBound)
    ensures lowerBound == 0 && Sought(ids, ps0, qs, want, id0, 0)
  {
    ForwardTransitive(ps0, ps, qs);
    assert Forward(ps[0], qs[0]);
  }

  ghost predicate PhraseLoop(ids: seq<set<Id>>, ps0: seq<Cursor>, ps: seq<Cursor>, want: set<Id>, id0: Id, id: Id,
                             stuck: bool) {
    if stuck then id == 0 && Stuck(ids, ps0, ps, want, id0) else Seeking(ids, ps0, ps, want, id0, id)
  }

  /** The children met on id, which is not wanted: stepping the first child loses nothing. */
  lemma SeekRejects(ids: seq<set<Id>>, ps0: seq<Cursor>, ps: seq<Cursor>, qs: seq<Cursor>, want: set<Id>, id0: Id,
                    id: Id)
    requires ids != [] && Sought(ids, ps0, ps, want, id0, id) && id > 0 && id !in want && AllWithin(ids, qs)
    requires |qs| == |ps| && qs == ps[0 := qs[0]] && Stepped(ids[0], ps[0], qs[0])
    ensures if qs[0].End? then Stuck(ids, ps0, qs, want, id0)
            else Seeking(ids, ps0, qs, want, id0, DocId(qs[0])) && id < DocId(qs[0]) <= Top(ids)
  {
    forall y | y in want
      ensures Reach(qs[0], y) && DocId(qs[0]) <= y
    {
      assert y in ids[0] && Reach(ps[0], y);
    }
    forall i, y | 0 <= i < |ids| && y in want
      ensures y in ids[i] && Reach(qs[i], y)
    {
    }
    if !qs[0].End? {
      TopBounds(ids, 0, DocId(qs[0]));
    }
  }

  /** all is the intersection of the children's sets; without children it is empty. */
  ghost predicate IsIntersection(all: set<Id>, ids: seq<set<Id>>) {
    forall y :: y in all <==> ids != [] && forall i :: 0 <= i < |ids| ==> y in ids[i]
  }

  /** The ids of all from low on that p has not passed. */
  ghost function Left(all: set<Id>, p: Cursor, low: Id): set<Id> {
    set y | y in all && low <= y && Reach(p, y)
  }

  /** A leapfrogging iterator at p, its children at ps. */
  ghost predicate InTune(all: set<Id>, ids: seq<set<Id>>, ps: seq<Cursor>, p: Cursor) {
    |ids| == |ps| && (forall i :: 0 <= i < |ids| ==> all <= ids[i]) &&
    Ahead(ids, ps, Left(all, p, 0)) && InStep(ps, p)
  }

  /** The id all children stand on belongs to the intersection. */
  lemma LandingIsCommon(all: set<Id>, ids: seq<set<Id>>, ps: seq<Cursor>, r: Id)
    requires ids != [] && IsIntersection(all, ids) && AllWithin(ids, ps) && AllAt(ps, r)
    ensures r in all
  {
    forall i | 0 <= i < |ids| ensures r in ids[i] {
      assert ps[i] == At(r) && Within(ids[i], ps[i]);
    }
  }

  lemma LeftIsLeast(all: set<Id>, p: Cursor, low: Id)
    ensures Left(all, p, low) == {} ==> IsLeast(all, p, low, End)
    ensures forall r :: r in Left(all, p, low) && AllFrom(Left(all, p, low), r) ==> IsLeast(all, p, low, At(r))
  {
    forall y | y in all && low <= y && Reach(p, y) ensures y in Left(all, p, low) {
    }
  }

  /** Nobody has started: everything is still ahead. */
  lemma StartInTune(all: set<Id>, ids: seq<set<Id>>, ps: seq<Cursor>)
    requires |ids| == |ps| && InStep(ps, Start) && AllWithin(ids, ps)
    requires all == {} || (ids != [] && forall i :: 0 <= i < |ids| ==> all <= ids[i])
    ensures InTune(all, ids, ps, Start) && Within(all, Start)
  {
    if all != {} {
      assert Within(ids[0], ps[0]);
    }
  }

  /** Where an iterator is after its loop has found r. */
  function Land(r: Id): Cursor {
    if r > 0 then At(r) else End
  }

  /** What the loop of skipTo starts from. */
  lemma SkipStarts(all: set<Id>, ids: seq<set<Id>>, ps: seq<Cursor>, p: Cursor, id: Id)
    requires InTune(all, ids, ps, p)
    ensures Ahead(ids, ps, Left(all, p, id)) && AllFrom(Left(all, p, id), id)
  {
    assert Left(all, p, id) <= Left(all, p, 0);
  }

  /** The result r of the loop lands the iterator on the cursor skipTo promises. */
  lemma SkipLands(all: set<Id>, ids: seq<set<Id>>, ps0: seq<Cursor>, ps: seq<Cursor>, p: Cursor, id: Id, r: Id,
                  q: Cursor)
    requires ids != [] && InTune(all, ids, ps0, p) && Within(all, p)
    requires Sought(ids, ps0, ps, Left(all, p, id), id, r) && (r > 0 ==> r in all)
    requires q == if r == id == 0 then p else Land(r)
    ensures InTune(all, ids, ps, q) && Skipped(all, p, id, q) && r == DocId(q) && Within(all, q)
  {
    LeftIsLeast(all, p, id);
    if r > 0 {
      LandingIsAhead(all, ids, ps0, ps, p, id, r);
      if id == 0 {
        assert p.At? ==> p.id in Left(all, p, id);
      }
    } else {
      var none := SomeEnd(ps);
      if none {
        var i :| 0 <= i < |ps| && ps[i].End?;
        assert Left(all, p, id) == {};
      }
      if p.At? {
        assert p.id in Left(all, p, 0);
      }
    }
  }

  /** The children came from where the parent was, so the id they met on is not behind it. */
  lemma LandingIsAhead(all: set<Id>, ids: seq<set<Id>>, ps0: seq<Cursor>, ps: seq<Cursor>, p: Cursor, low: Id, r: Id)
    requires ids != [] && |ids| == |ps0| == |ps| && InStep(ps0, p) && AllForward(ps0, ps) && AllAt(ps, r)
    requires r in all && low <= r
    ensures r in Left(all, p, low)
  {
    assert ps[0] == At(r) && Forward(ps0[0], ps[0]);
    if p.End? {
      var i :| 0 <= i < |ps0| && ps0[i].End?;
      assert Forward(ps0[i], ps[i]) && ps[i] == At(r);
    }
  }

  /** Moving the first child one step keeps every id still to be delivered in reach. */
  lemma StepKeepsAhead(all: set<Id>, ids: seq<set<Id>>, ps0: seq<Cursor>, ps: seq<Cursor>, p: Cursor)
    requires ids != [] && InTune(all, ids, ps0, p) && |ps| == |ps0| && ps == ps0[0 := ps[0]]
    requires Stepped(ids[0], ps0[0], ps[0])
    ensures Ahead(ids, ps, Left(all, p, DocId(p) + 1))
    ensures AllFrom(Left(all, p, DocId(p) + 1), DocId(ps[0]))
    ensures AllForward(ps0, ps) && (ps[0].At? ==> DocId(p) < ps[0].id)
  {
    var want := Left(all, p, DocId(p) + 1);
    forall y | y in want
      ensures Reach(ps[0], y) && DocId(ps[0]) <= y
    {
      assert y in Left(all, p, 0);
      assert y in ids[0] && Reach(ps0[0], y);
    }
    forall i, y | 0 <= i < |ids| && y in want
      ensures y in ids[i] && Reach(ps[i], y)
    {
      assert y in Left(all, p, 0);
    }
  }

  /** next() is a step of the first child followed by the same loop. */
  lemma NextLands(all: set<Id>, ids: seq<set<Id>>, ps0: seq<Cursor>, ps1: seq<Cursor>, ps: seq<Cursor>, p: Cursor,
                  r: Id, q: Cursor)
    requires ids != [] && InTune(all, ids, ps0, p) && Within(all, p)
    requires |ps1| == |ps0| && ps1 == ps0[0 := ps1[0]] && Stepped(ids[0], ps0[0], ps1[0])
    requires Sought(ids, ps1, ps, Left(all, p, DocId(p) + 1), DocId(ps1[0]), r) && (r > 0 ==> r in all)
    requires q == Land(r)
    ensures InTune(all, ids, ps, q) && Stepped(all, p, q) && r == DocId(q) && Within(all, q)
  {
    LeftIsLeast(all, p, DocId(p) + 1);
    StepKeepsAhead(all, ids, ps0, ps1, p);
    ForwardTransitive(ps0, ps1, ps);
    if r > 0 {
      assert ps1[0].At? && DocId(p) + 1 <= r;
      LandingIsAhead(all, ids, ps0, ps, p, DocId(p) + 1, r);
    } else {
      assert !ps1[0].Start?;
      var i :| 0 <= i < |ps| && ps[i].End?;
      assert Left(all, p, DocId(p) + 1) == {};
    }
  }
}
