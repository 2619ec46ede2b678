/**
  Time range queries (src/engine/mtimedb.cpp).  The table holds (mtime, id) pairs,
  ordered by time and then id.
 */
module MTimeDBs {
  import opened IdUtils
  import opened Cursors
  import opened Documents
  import opened PostingIterators

  type MTimes = set<(nat, Id)>

  ghost predicate TimesMirrored(docTime: map<Id, TimeInfo>, mtime: MTimes) {
    forall m, id {:trigger (m, id) in mtime} :: (m, id) in mtime <==> id in docTime && docTime[id].mTime == m
  }

  /** The database's order of the pairs. */
  predicate PairLe(a: (nat, Id), b: (nat, Id)) {
    a.0 < b.0 || (a.0 == b.0 && a.1 <= b.1)
  }

  ghost predicate IsFirst(pairs: MTimes, found: bool, pair: (nat, Id)) {
    (found <==> pairs != {}) && (found ==> pair in pairs && forall p :: p in pairs ==> PairLe(pair, p))
  }

  /** Where a cursor lands that looks for the least of these pairs. */
  method First(pairs: MTimes) returns (found: bool, pair: (nat, Id))
    ensures IsFirst(pairs, found, pair)
  {
    found, pair := false, (0, 0);
    var rest := pairs;
    while rest != {}
      invariant rest <= pairs && IsFirst(pairs - rest, found, pair)
      decreases rest
    {
      var p :| p in rest;
      assert pairs - (rest - {p}) == pairs - rest + {p};
      if !found || !PairLe(pair, p) {
        found, pair := true, p;
      }
      rest := rest - {p};
    }
    assert pairs - {} == pairs;
  }

  /** The ids whose time is in the range. */
  ghost function InRange(mtime: MTimes, beginTime: nat, endTime: nat): set<Id> {
    set p | p in mtime && beginTime <= p.0 <= endTime :: p.1
  }

  /** The loop of iterRange: the times from beginTime on, up to the first one beyond endTime. */
  method CollectRange(mtime: MTimes, beginTime: nat, endTime: nat) returns (results: seq<Id>)
    ensures forall id :: id in results <==> id in InRange(mtime, beginTime, endTime)
  {
    results := [];
    var rest := set p | p in mtime && beginTime <= p.0;
    var found, pair := First(rest);
    while found
      invariant rest <= mtime && IsFirst(rest, found, pair)
      invariant forall p :: p in rest ==> beginTime <= p.0
      invariant forall id :: id in results <==> id in InRange(mtime - rest, beginTime, endTime)
      decreases rest
    {
      if pair.0 > endTime {
        break;
      }
      results := results + [pair.1];
      RangeStep(mtime, rest, beginTime, endTime, pair);
      rest := rest - {pair};
      found, pair := First(rest);
    }
    assert forall p :: p in rest ==> p.0 > endTime;
    assert InRange(mtime - rest, beginTime, endTime) == InRange(mtime, beginTime, endTime);
  }

  lemma RangeStep(mtime: MTimes, rest: MTimes, beginTime: nat, endTime: nat, pair: (nat, Id))
    requires pair in rest && rest <= mtime && beginTime <= pair.0 <= endTime
    ensures InRange(mtime - (rest - {pair}), beginTime, endTime) == InRange(mtime - rest, beginTime, endTime) + {pair.1}
  {
    assert mtime - (rest - {pair}) == mtime - rest + {pair};
  }

  /** All documents modified in the range, ascending and without duplicates; null if there are none. */
  method IterRange(mtime: MTimes, beginTime: nat, endTime: nat) returns (it: PostingIterator?)
    requires forall p :: p in mtime ==> p.1 != 0
    ensures it == null <==> InRange(mtime, beginTime, endTime) == {}
    ensures it != null ==>
      it.Valid() && it.cursor == Start && fresh(it.Repr) && it.Ids == InRange(mtime, beginTime, endTime)
  {
    if endTime < beginTime {
      return null;
    }
    var results := CollectRange(mtime, beginTime, endTime);
    if results == [] {
      return null;
    }
    assert results[0] in InRange(mtime, beginTime, endTime);
    SameMembers(Sort(results), results);
    it := new PostingIterator.OfVector(Unique(Sort(results)));
  }

  /** While the pairs mirror the time table, the range query is a scan of that table. */
  lemma RangeIsScan(docTime: map<Id, TimeInfo>, mtime: MTimes, beginTime: nat, endTime: nat)
    requires TimesMirrored(docTime, mtime)
    ensures InRange(mtime, beginTime, endTime) == set id | id in docTime && beginTime <= docTime[id].mTime <= endTime
  {
    forall id | id in docTime && beginTime <= docTime[id].mTime <= endTime
      ensures id in InRange(mtime, beginTime, endTime)
    {
      assert (docTime[id].mTime, id) in mtime;
    }
  }
}
