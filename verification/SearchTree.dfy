/**
  Query trees as the search store builds and runs them (src/lib/searchstore.cpp):
  leaves are posting lists, inner nodes are And and Or, to any depth.
 */
module SearchTree {
  import opened IdUtils
  import opened Cursors
  import opened Leapfrogging
  import opened OrMerging
  import opened PostingIterators

  datatype Query = Leaf(ids: seq<Id>) | AndOf(subs: seq<Query>) | OrOf(subs: seq<Query>)

  /** Posting lists are stored ascending and without 0. */
  ghost predicate WellFormed(q: Query) {
    match q
    case Leaf(ids) => Ascending(ids, IdOf) && 0 !in ids
    case AndOf(subs) => forall s :: s in subs ==> WellFormed(s)
    case OrOf(subs) => forall s :: s in subs ==> WellFormed(s)
  }

  /** The set a query stands for; a conjunction of nothing finds nothing. */
  ghost function Denote(q: Query): set<Id>
    decreases q, 0
  {
    match q
    case Leaf(ids) => set y | y in ids
    case AndOf(subs) => CommonIds(DenoteAll(subs))
    case OrOf(subs) => AllIds(DenoteAll(subs))
  }

  ghost function DenoteAll(subs: seq<Query>): (r: seq<set<Id>>)
    ensures |r| == |subs|
    decreases subs, 1
  {
    if subs == [] then [] else DenoteAll(subs[..|subs| - 1]) + [Denote(subs[|subs| - 1])]
  }

  /** Whether a query, read as a Boolean expression, accepts an id. */
  ghost predicate Accepts(q: Query, id: Id) {
    match q
    case Leaf(ids) => id in ids
    case AndOf(subs) => subs != [] && forall sub :: sub in subs ==> Accepts(sub, id)
    case OrOf(subs) => exists sub :: sub in subs && Accepts(sub, id)
  }

  lemma {:induction false} DenotesAccepted(q: Query, id: Id)
    ensures id in Denote(q) <==> Accepts(q, id)
  {
    match q
    case Leaf(ids) =>
    case AndOf(subs) =>
      AllDenoted(subs, id);
      CommonIsIntersection(DenoteAll(subs));
    case OrOf(subs) =>
      AllDenoted(subs, id);
      AllIsUnion(DenoteAll(subs));
  }

  lemma {:induction false} AllDenoted(subs: seq<Query>, id: Id)
    ensures forall i :: 0 <= i < |subs| ==> (id in DenoteAll(subs)[i] <==> Accepts(subs[i], id))
  {
    forall i | 0 <= i < |subs| ensures id in DenoteAll(subs)[i] <==> Accepts(subs[i], id) {
      DenoteAllAt(subs, i);
      DenotesAccepted(subs[i], id);
    }
  }

  /** The iterators built so far, sharing nothing. */
  ghost predicate Built(its: seq<PostingIterator>, repr: set<PostingIterator>, height: nat)
    reads repr
  {
    Team(its, repr, height) && InStep(CursorsOf(its), Start)
  }

  lemma AllIdsGrows(ids: seq<set<Id>>, s: set<Id>)
    ensures AllIds(ids + [s]) == AllIds(ids) + s
  {
    assert (ids + [s])[..|ids|] == ids;
  }

  lemma OneTermIsAll(ids: seq<set<Id>>)
    requires |ids| == 1
    ensures AllIds(ids) == ids[0]
  {
    assert ids == [] + [ids[0]];
    AllIdsGrows([], ids[0]);
  }

  lemma UnionIsAll(all: set<Id>, ids: seq<set<Id>>)
    requires IsUnion(all, ids)
    ensures all == AllIds(ids)
  {
    AllIsUnion(ids);
  }

  lemma IntersectionIsCommon(all: set<Id>, ids: seq<set<Id>>)
    requires IsIntersection(all, ids)
    ensures all == CommonIds(ids)
  {
    CommonIsIntersection(ids);
  }

  lemma {:induction false} EmptyTermEmptiesAll(ids: seq<set<Id>>, i: nat)
    requires i < |ids| && ids[i] == {}
    ensures CommonIds(ids) == {}
  {
    CommonIsIntersection(ids);
    assert forall y :: y in CommonIds(ids) ==> y in ids[i];
  }

  lemma {:induction false} DenoteAllAt(subs: seq<Query>, i: nat)
    requires i < |subs|
    ensures DenoteAll(subs)[i] == Denote(subs[i])
  {
    var n := |subs| - 1;
    if i < n {
      DenoteAllAt(subs[..n], i);
    }
  }

  lemma EmptySubEmpties(subs: seq<Query>, i: nat)
    requires i < |subs| && Denote(subs[i]) == {}
    ensures CommonIds(DenoteAll(subs)) == {}
  {
    DenoteAllAt(subs, i);
    EmptyTermEmptiesAll(DenoteAll(subs), i);
  }

  /** SearchStore::constructQuery: null stands for an empty result. */
  method Construct(q: Query) returns (it: PostingIterator?)
    requires WellFormed(q)
    ensures it == null ==> Denote(q) == {}
    ensures it != null ==> it.Valid() && it.cursor == Start && fresh(it.Repr) && it.Ids == Denote(q)
    decreases q, 1
  {
    match q
    case Leaf(ids) =>
      it := ConstructLeaf(ids);
    case AndOf(subs) =>
      it := ConstructAnd(subs);
    case OrOf(subs) =>
      it := ConstructOr(subs);
  }

  /** PostingDB::iter: null when the term has no posting list. */
  method ConstructLeaf(ids: seq<Id>) returns (it: PostingIterator?)
    requires Ascending(ids, IdOf) && 0 !in ids
    ensures it == null <==> ids == []
    ensures it != null ==> it.Valid() && it.cursor == Start && fresh(it.Repr) && it.Ids == set y | y in ids
  {
    if ids == [] {
      return null;
    }
    it := new PostingIterator.OfVector(ids);
  }

  /** A conjunction: one empty term empties it. */
  method ConstructAnd(subs: seq<Query>) returns (it: PostingIterator?)
    requires forall s :: s in subs ==> WellFormed(s)
    ensures it == null ==> CommonIds(DenoteAll(subs)) == {}
    ensures it != null ==> it.Valid() && it.cursor == Start && fresh(it.Repr) && it.Ids == CommonIds(DenoteAll(subs))
    decreases subs, 1
  {
    var found, vec;
    ghost var repr, height;
    found, vec, repr, height := CollectAnd(subs);
    if !found {
      return null;
    }
    it := FinishAnd(vec, repr, height);
  }

  method CollectAnd(subs: seq<Query>)
    returns (found: bool, vec: seq<PostingIterator>, ghost repr: set<PostingIterator>, ghost height: nat)
    requires forall s :: s in subs ==> WellFormed(s)
    ensures if found then Built(vec, repr, height) && fresh(repr) && SetsOf(vec) == DenoteAll(subs)
            else CommonIds(DenoteAll(subs)) == {}
    decreases subs, 0
  {
    vec, repr, height := [], {}, 0;
    ghost var sets := [];
    for k := 0 to |subs|
      invariant Built(vec, repr, height) && fresh(repr)
      invariant SetsOf(vec) == sets == DenoteAll(subs[..k])
    {
      var sub := Construct(subs[k]);
      assert subs[..k + 1][..k] == subs[..k];
      if sub == null {
        EmptySubEmpties(subs, k);
        return false, vec, repr, height;
      }
      sets := sets + [sub.Ids];
      vec, repr, height := Push(vec, repr, height, sub);
    }
    assert subs[..|subs|] == subs;
    found := true;
  }

  /** No term is an empty result, a single term stands for itself. */
  method FinishAnd(vec: seq<PostingIterator>, ghost repr: set<PostingIterator>, ghost height: nat)
    returns (it: PostingIterator?)
    requires Built(vec, repr, height)
    ensures it == null ==> CommonIds(SetsOf(vec)) == {}
    ensures it != null ==>
      it.Valid() && it.cursor == Start && it.Ids == CommonIds(SetsOf(vec)) &&
      (fresh(it) || it in repr) && fresh(it.Repr - repr)
  {
    if |vec| == 0 {
      return null;
    } else if |vec| == 1 {
      assert vec[0].cursor == CursorsOf(vec)[0];
      return vec[0];
    }
    it := PostingIterator.MakeAnd(vec, repr, height);
    IntersectionIsCommon(it.Ids, SetsOf(vec));
  }

  /** A disjunction: empty terms are left out. */
  method ConstructOr(subs: seq<Query>) returns (it: PostingIterator?)
    requires forall s :: s in subs ==> WellFormed(s)
    ensures it == null ==> AllIds(DenoteAll(subs)) == {}
    ensures it != null ==> it.Valid() && it.cursor == Start && fresh(it.Repr) && it.Ids == AllIds(DenoteAll(subs))
    decreases subs, 1
  {
    var vec;
    ghost var repr, height;
    vec, repr, height := CollectOr(subs);
    it := FinishOr(vec, repr, height);
  }

  method CollectOr(subs: seq<Query>)
    returns (vec: seq<PostingIterator>, ghost repr: set<PostingIterator>, ghost height: nat)
    requires forall s :: s in subs ==> WellFormed(s)
    ensures Built(vec, repr, height) && fresh(repr) && AllIds(SetsOf(vec)) == AllIds(DenoteAll(subs))
    decreases subs, 0
  {
    vec, repr, height := [], {}, 0;
    for k := 0 to |subs|
      invariant Built(vec, repr, height) && fresh(repr)
      invariant AllIds(SetsOf(vec)) == AllIds(DenoteAll(subs[..k]))
    {
      var sub := Construct(subs[k]);
      assert subs[..k + 1][..k] == subs[..k];
      AllIdsGrows(DenoteAll(subs[..k]), Denote(subs[k]));
      vec, repr, height := PushUnlessEmpty(vec, repr, height, sub);
    }
    assert subs[..|subs|] == subs;
  }

  /** A term that is empty is left out. */
  method PushUnlessEmpty(vec: seq<PostingIterator>, ghost repr: set<PostingIterator>, ghost height: nat,
                         it: PostingIterator?)
    returns (vec': seq<PostingIterator>, ghost repr': set<PostingIterator>, ghost height': nat)
    requires Built(vec, repr, height) && (it != null ==> it.Valid() && it.cursor == Start && it.Repr !! repr)
    ensures Built(vec', repr', height') && repr' == if it == null then repr else repr + it.Repr
    ensures AllIds(SetsOf(vec')) == AllIds(SetsOf(vec)) + if it == null then {} else it.Ids
  {
    vec', repr', height' := vec, repr, height;
    if it != null {
      AllIdsGrows(SetsOf(vec), it.Ids);
      vec', repr', height' := Push(vec, repr, height, it);
    }
  }

  method FinishOr(vec: seq<PostingIterator>, ghost repr: set<PostingIterator>, ghost height: nat)
    returns (it: PostingIterator?)
    requires Built(vec, repr, height)
    modifies repr
    ensures it == null ==> AllIds(SetsOf(vec)) == {}
    ensures it != null ==>
      it.Valid() && it.cursor == Start && it.Ids == AllIds(SetsOf(vec)) &&
      (fresh(it) || it in repr) && fresh(it.Repr - repr)
  {
    if |vec| == 0 {
      return null;
    } else if |vec| == 1 {
      assert vec[0].cursor == CursorsOf(vec)[0];
      OneTermIsAll(SetsOf(vec));
      return vec[0];
    }
    it := PostingIterator.MakeOr(vec, repr, height);
    UnionIsAll(it.Ids, SetsOf(vec));
  }

  method Push(vec: seq<PostingIterator>, ghost repr: set<PostingIterator>, ghost height: nat, it: PostingIterator)
    returns (vec': seq<PostingIterator>, ghost repr': set<PostingIterator>, ghost height': nat)
    requires Built(vec, repr, height) && it.Valid() && it.cursor == Start && it.Repr !! repr
    ensures Built(vec', repr', height') && vec' == vec + [it] && repr' == repr + it.Repr
    ensures SetsOf(vec') == SetsOf(vec) + [it.Ids]
  {
    vec', repr' := vec + [it], repr + it.Repr;
    height' := if height <= it.Height then it.Height + 1 else height;
    TeamGrows(vec, repr, height, it, height');
    assert forall i :: 0 <= i < |vec'| ==> vec'[i].cursor == Start by {
      assert forall i :: 0 <= i < |vec| ==> CursorsOf(vec)[i] == vec[i].cursor;
    }
    assert forall i :: 0 <= i < |vec'| ==> SetsOf(vec')[i] == (SetsOf(vec) + [it.Ids])[i];
  }

  /** The loop of SearchStore::exec: call next until it returns 0. */
  method Exec(it: PostingIterator) returns (results: seq<Id>)
    requires it.Valid()
    modifies it.Repr
    ensures it.Valid() && it.cursor.End?
    ensures Enumerates(results, it.Ids, old(it.cursor))
  {
    ghost var p := it.cursor;
    results := [];
    var id := it.Next();
    while id != 0
      invariant it.Valid() && id == DocId(it.cursor)
      invariant Delivered(results, it.Ids, p, it.cursor)
      decreases it.cursor.At?, MaxOf(it.Ids) - id
    {
      ghost var q, before := it.cursor, results;
      results := results + [id];
      id := it.Next();
      DeliveredStep(before, it.Ids, p, q, it.cursor);
    }
  }

  /** With the cursor on q, exactly the ids before q have been delivered. */
  ghost predicate Delivered(results: seq<Id>, ids: set<Id>, p: Cursor, q: Cursor) {
    Ascending(results, IdOf) &&
    !q.Start? && (q.At? ==> q.id in ids && Reach(p, q.id) && q.id != DocId(p)) &&
    forall x :: x in results <==> x in ids && Reach(p, x) && x != DocId(p) && (q.At? ==> x < q.id)
  }

  lemma DeliveredStep(results: seq<Id>, ids: set<Id>, p: Cursor, q: Cursor, r: Cursor)
    requires q.At? && Delivered(results, ids, p, q) && Stepped(ids, q, r)
    ensures Delivered(results + [q.id], ids, p, r)
  {
    forall x | x in results ensures x < q.id {
    }
    assert forall i :: 0 <= i < |results| ==> results[i] in results;
  }

  /** A query, however nested, lists its set in ascending order, each id once. */
  method Search(q: Query) returns (results: seq<Id>)
    requires WellFormed(q)
    ensures Ascending(results, IdOf)
    ensures forall x :: x in results <==> Accepts(q, x)
  {
    forall x ensures x in Denote(q) <==> Accepts(q, x) {
      DenotesAccepted(q, x);
    }
    var it := Construct(q);
    if it == null {
      return [];
    }
    results := Exec(it);
  }
}
