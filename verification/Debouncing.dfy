/**
  How file events are debounced (src/file/pendingfilequeue.cpp, src/file/pendingfile.cpp), on
  values: what each event and each timer does, and what that keeps.  Time is an unbounded
  count of milliseconds that never goes back.  A log records what the queue tells its
  listeners, and when it forgets that it told them about a file.
 */
module Debouncing {
  import opened Sequences
  import opened Paths

  /** How long events are gathered before they are looked at. */
  const CACHE_INTERVAL := 10

  /** The events seen for one path (src/file/pendingfile.h). */
  datatype PendingFile = PendingFile(
    path: string, created: bool, closedOnWrite: bool, attributesChanged: bool, deleted: bool, modified: bool)
  {
    predicate ShouldIndexContents() {
      created || closedOnWrite || modified
    }

    predicate ShouldIndexXAttrOnly() {
      attributesChanged && !ShouldIndexContents()
    }

    /** The flags of both, except deletion. */
    function Merge(file: PendingFile): (r: PendingFile)
      ensures r.path == path && r.deleted == deleted
      ensures r.ShouldIndexContents() <==> ShouldIndexContents() || file.ShouldIndexContents()
      ensures r.attributesChanged <==> attributesChanged || file.attributesChanged
    {
      this.(attributesChanged := attributesChanged || file.attributesChanged,
            closedOnWrite := closedOnWrite || file.closedOnWrite,
            created := created || file.created,
            modified := modified || file.modified)
    }
  }

  datatype Entry =
    Emitted(path: string, time: nat, isNew: bool) | XAttrEmitted(path: string) | RemovalEmitted(path: string) |
    Forgotten(path: string)

  datatype Option<T> = None | Some(value: T)

  /** When a path's contents were last sent for indexing, as far as the queue remembers. */
  function Last(log: seq<Entry>, p: string): Option<nat> {
    if log == [] then None else
      match log[|log| - 1]
      case Emitted(path, time, _) => if path == p then Some(time) else Last(log[..|log| - 1], p)
      case Forgotten(path) => if path == p then None else Last(log[..|log| - 1], p)
      case _ => Last(log[..|log| - 1], p)
  }

  lemma LastAppend(log: seq<Entry>, e: Entry, p: string)
    ensures Last(log + [e], p) ==
      match e
      case Emitted(path, time, _) => if path == p then Some(time) else Last(log, p)
      case Forgotten(path) => if path == p then None else Last(log, p)
      case _ => Last(log, p)
  {
    assert (log + [e])[..|log|] == log;
  }

  /** Each emission comes at least `gap` after the one before it for the same path. */
  ghost predicate Spaced(log: seq<Entry>, gap: nat) {
    log == [] ||
    (var e, before := log[|log| - 1], log[..|log| - 1];
     Spaced(before, gap) && (e.Emitted? && Last(before, e.path).Some? ==> e.time >= Last(before, e.path).value + gap))
  }

  lemma SpacedAppend(log: seq<Entry>, e: Entry, gap: nat)
    requires Spaced(log, gap) && (e.Emitted? && Last(log, e.path).Some? ==> e.time >= Last(log, e.path).value + gap)
    ensures Spaced(log + [e], gap)
  {
    assert (log + [e])[..|log|] == log;
  }

  /** Any two emissions of one path with no forgetting in between are that far apart. */
  lemma {:induction false} SpacedPairs(log: seq<Entry>, gap: nat, i: nat, j: nat)
    requires Spaced(log, gap) && i < j < |log| && log[i].Emitted? && log[j].Emitted?
    requires log[i].path == log[j].path
    requires forall k :: i < k < j ==> log[k] != Forgotten(log[i].path)
    ensures log[j].time >= log[i].time + gap
    decreases |log|
  {
    var n := |log| - 1;
    if j < n {
      SpacedPairs(log[..n], gap, i, j);
    } else {
      var k := LatestBefore(log[..n], log[i].path, i);
      if k > i {
        SpacedPairs(log[..n], gap, i, k);
      }
    }
  }

  /** The emission that Last finds. */
  lemma {:induction false} LatestBefore(log: seq<Entry>, p: string, i: nat) returns (k: nat)
    requires i < |log| && log[i].Emitted? && log[i].path == p && forall k :: i < k < |log| ==> log[k] != Forgotten(p)
    ensures i <= k < |log| && log[k].Emitted? && log[k].path == p && Last(log, p) == Some(log[k].time)
  {
    k := |log| - 1;
    if k > i && !(log[k].Emitted? && log[k].path == p) {
      k := LatestBefore(log[..k], p, i);
    }
  }

  /** How the delays of a queue are set. */
  datatype Delays = Delays(minTimeout: nat, maxTimeout: nat, trackingTime: nat)

  function Gap(d: Delays): nat {
    if d.minTimeout < d.trackingTime then d.minTimeout else d.trackingTime
  }

  /** qBound. */
  function Bound(low: nat, x: int, high: nat): nat
    requires low <= high
  {
    if x < low then low else if x > high then high else x
  }

  /** What the queue remembers, at a time: deadlines, the records of recent emissions, and what it has told. */
  datatype State = State(pending: map<string, nat>, recent: map<string, nat>, log: seq<Entry>, now: nat)

  /** A change of contents is sent. */
  function Sent(s: State, p: string, isNew: bool): State {
    s.(pending := s.pending - {p}, recent := s.recent[p := s.now], log := s.log + [Emitted(p, s.now, isNew)])
  }

  function PutOff(s: State, p: string, deadline: nat): State {
    s.(pending := s.pending[p := deadline])
  }

  function Noted(s: State, e: Entry): State {
    s.(log := s.log + [e])
  }

  /** A path is dropped with its record. */
  function Forget(s: State, p: string): State {
    s.(pending := s.pending - {p}, recent := s.recent - {p}, log := s.log + [Forgotten(p)])
  }

  /** What is known of one path's last emission, deadline and record. */
  ghost predicate Tracked(d: Delays, s: State, p: string) {
    var last := Last(s.log, p);
    (p in s.pending ==> s.pending[p] <= s.now + d.maxTimeout) && (p in s.recent ==> s.recent[p] <= s.now) &&
    (last.Some? ==>
       last.value <= s.now && (p in s.pending ==> s.pending[p] >= last.value + d.minTimeout) &&
       ((p in s.recent && s.recent[p] == last.value) || s.now - last.value >= d.trackingTime))
  }

  /** Emissions have kept their distance, and what is remembered is enough to keep it. */
  ghost predicate Tidy(d: Delays, s: State) {
    d.minTimeout <= d.maxTimeout && Spaced(s.log, Gap(d)) && forall p :: Tracked(d, s, p)
  }

  ghost predicate Cached(cache: seq<PendingFile>) {
    (forall i, j :: 0 <= i < j < |cache| ==> cache[i].path != cache[j].path) &&
    forall f :: f in cache ==> !f.deleted && (f.ShouldIndexContents() || f.attributesChanged)
  }

  /** The cached paths whose contents changed. */
  ghost function ContentPaths(cache: seq<PendingFile>): set<string> {
    set f | f in cache && f.ShouldIndexContents() :: f.path
  }

  /** The path, if its contents are to be indexed. */
  ghost function Change(file: PendingFile): set<string> {
    if file.ShouldIndexContents() then {file.path} else {}
  }

  /** The state of the queue between events. */
  ghost predicate Good(d: Delays, cache: seq<PendingFile>, s: State, unserved: set<string>) {
    Cached(cache) && Tidy(d, s) && unserved == s.pending.Keys + ContentPaths(cache)
  }

  /** Nothing is cached any more. */
  lemma EmptyCacheIsGood(d: Delays, s: State)
    requires Tidy(d, s)
    ensures Good(d, [], s, s.pending.Keys)
  {
  }

  /** Sending a path that is not recent, or whose deadline has come, keeps the distance. */
  lemma EmitIsGood(d: Delays, s: State, p: string, isNew: bool)
    requires Tidy(d, s) && if p in s.pending then s.pending[p] <= s.now else p !in s.recent
    ensures Tidy(d, Sent(s, p, isNew))
  {
    assert Tracked(d, s, p);
    SpacedAppend(s.log, Emitted(p, s.now, isNew), Gap(d));
    forall q ensures Tracked(d, Sent(s, p, isNew), q) {
      LastAppend(s.log, Emitted(p, s.now, isNew), q);
      assert Tracked(d, s, q);
    }
  }

  /** So does putting a path off. */
  lemma PostponeIsGood(d: Delays, s: State, p: string, deadline: nat)
    requires Tidy(d, s) && s.now + d.minTimeout <= deadline <= s.now + d.maxTimeout
    ensures Tidy(d, PutOff(s, p, deadline))
  {
    forall q ensures Tracked(d, PutOff(s, p, deadline), q) {
      assert Tracked(d, s, q);
    }
  }

  /** Time passes. */
  lemma LaterIsGood(d: Delays, s: State, later: nat)
    requires Tidy(d, s) && s.now <= later
    ensures Tidy(d, s.(now := later))
  {
    forall q ensures Tracked(d, s.(now := later), q) {
      assert Tracked(d, s, q);
    }
  }

  /** Other entries of the log do not matter. */
  lemma NoteIsGood(d: Delays, s: State, e: Entry)
    requires Tidy(d, s) && (e.XAttrEmitted? || e.RemovalEmitted?)
    ensures Tidy(d, Noted(s, e))
  {
    SpacedAppend(s.log, e, Gap(d));
    forall q ensures Tracked(d, Noted(s, e), q) {
      LastAppend(s.log, e, q);
      assert Tracked(d, s, q);
    }
  }

  /** A path is dropped with its record. */
  lemma ForgetIsGood(d: Delays, s: State, p: string)
    requires Tidy(d, s)
    ensures Tidy(d, Forget(s, p))
  {
    SpacedAppend(s.log, Forgotten(p), Gap(d));
    forall q ensures Tracked(d, Forget(s, p), q) {
      LastAppend(s.log, Forgotten(p), q);
      assert Tracked(d, s, q);
    }
  }

  /** A deadline is dropped. */
  lemma DropIsGood(d: Delays, s: State, p: string)
    requires Tidy(d, s)
    ensures Tidy(d, s.(pending := s.pending - {p}))
  {
    forall q ensures Tracked(d, s.(pending := s.pending - {p}), q) {
      assert Tracked(d, s, q);
    }
  }

  /** A record that is old enough is dropped. */
  lemma PurgeIsGood(d: Delays, s: State, p: string)
    requires Tidy(d, s) && p in s.recent && s.now - s.recent[p] >= d.trackingTime
    ensures Tidy(d, s.(recent := s.recent - {p}))
  {
    forall q ensures Tracked(d, s.(recent := s.recent - {p}), q) {
      assert Tracked(d, s, q);
    }
  }

  function IndexOf(cache: seq<PendingFile>, p: string): (i: nat)
    ensures i <= |cache| && (i < |cache| ==> cache[i].path == p) && forall j :: 0 <= j < i ==> cache[j].path != p
  {
    if cache == [] || cache[0].path == p then 0 else 1 + IndexOf(cache[1..], p)
  }

  /** What enqueue does to the cache for an event that is not a removal. */
  function Added(cache: seq<PendingFile>, file: PendingFile): seq<PendingFile> {
    var i := IndexOf(cache, file.path);
    if i == |cache| then cache + [file] else cache[i := cache[i].Merge(file)]
  }

  lemma AddedIsCached(cache: seq<PendingFile>, file: PendingFile)
    requires Cached(cache) && !file.deleted && (file.ShouldIndexContents() || file.attributesChanged)
    ensures Cached(Added(cache, file))
    ensures ContentPaths(Added(cache, file)) == ContentPaths(cache) + Change(file)
  {
    var i := IndexOf(cache, file.path);
    var cache' := Added(cache, file);
    assert |cache| <= |cache'| && forall j :: 0 <= j < |cache| && j != i ==> cache'[j] == cache[j];
    assert i < |cache'| && cache'[i].path == file.path;
    forall p
      ensures p in ContentPaths(cache') <==> p in ContentPaths(cache) || (file.ShouldIndexContents() && p == file.path)
    {
      AtPath(cache, p);
      AtPath(cache', p);
    }
  }

  lemma AtPath(cache: seq<PendingFile>, p: string)
    ensures p in ContentPaths(cache) <==>
      exists j :: 0 <= j < |cache| && cache[j].path == p && cache[j].ShouldIndexContents()
  {
    if p in ContentPaths(cache) {
      var f :| f in cache && f.ShouldIndexContents() && f.path == p;
      var j :| 0 <= j < |cache| && cache[j] == f;
    }
  }

  /** A path's cached events are dropped, if there are any. */
  function Dropped(cache: seq<PendingFile>, p: string): seq<PendingFile> {
    var i := IndexOf(cache, p);
    if i < |cache| then WithoutAt(cache, i) else cache
  }

  lemma WithoutMembers(cache: seq<PendingFile>, i: nat)
    requires Cached(cache) && i < |cache|
    ensures forall f :: f in WithoutAt(cache, i) <==> f in cache && f.path != cache[i].path
  {
    assert cache == cache[..i] + [cache[i]] + cache[i + 1..];
    forall f | f in WithoutAt(cache, i) ensures f in cache && f.path != cache[i].path {
      var j :| 0 <= j < |cache| && j != i && cache[j] == f;
    }
  }

  lemma DroppedIsCached(cache: seq<PendingFile>, p: string)
    requires Cached(cache)
    ensures Cached(Dropped(cache, p)) && ContentPaths(Dropped(cache, p)) == ContentPaths(cache) - {p}
    ensures forall f :: f in Dropped(cache, p) <==> f in cache && f.path != p
  {
    var i := IndexOf(cache, p);
    if i < |cache| {
      WithoutMembers(cache, i);
      WithoutCached(cache, i);
    }
  }

  lemma WithoutCached(cache: seq<PendingFile>, i: nat)
    requires Cached(cache) && i < |cache|
    ensures Cached(WithoutAt(cache, i))
  {
    var rest := WithoutAt(cache, i);
    assert forall j :: 0 <= j < |rest| ==> rest[j] == cache[if j < i then j else j + 1];
  }

  /** The cached files that are not below a directory, in order. */
  function KeptFiles(cache: seq<PendingFile>, dir: string): (r: seq<PendingFile>)
    ensures forall f :: f in r <==> f in cache && !(dir <= f.path)
    ensures cache == [] ==> r == []
  {
    if cache == [] then [] else
      var n := |cache| - 1;
      assert cache == cache[..n] + [cache[n]];
      KeptFiles(cache[..n], dir) + if dir <= cache[n].path then [] else [cache[n]]
  }

  lemma {:induction false} KeptIsCached(cache: seq<PendingFile>, dir: string)
    requires Cached(cache)
    ensures Cached(KeptFiles(cache, dir))
  {
    if cache != [] {
      var n := |cache| - 1;
      assert cache == cache[..n] + [cache[n]];
      KeptIsCached(cache[..n], dir);
      forall f | f in KeptFiles(cache[..n], dir) ensures f.path != cache[n].path {
        var j :| 0 <= j < n && cache[..n][j] == f;
      }
    }
  }

  /** The paths whose cached events a removal retracts. */
  ghost function Retracted(cache: seq<PendingFile>, path: string): set<string> {
    {path} + AlsoBelow(cache, path)
  }

  /** The cached paths below, if the path is that of a directory. */
  ghost function AlsoBelow(cache: seq<PendingFile>, path: string): set<string> {
    if EndsWithSlash(path) then Below(cache, path) else {}
  }

  /** What a removal leaves in the cache. */
  function AfterRemoval(cache: seq<PendingFile>, path: string): seq<PendingFile> {
    Dropped(if EndsWithSlash(path) then KeptFiles(cache, path) else cache, path)
  }

  ghost function Below(cache: seq<PendingFile>, dir: string): set<string> {
    set f | f in cache && dir <= f.path :: f.path
  }

  /** What is left waiting after a directory's cached files are dropped. */
  lemma KeptServed(cache: seq<PendingFile>, pending: set<string>, dir: string)
    requires Cached(cache)
    ensures pending - Below(cache, dir) + ContentPaths(KeptFiles(cache, dir)) ==
      pending + ContentPaths(cache) - Below(cache, dir)
  {
    forall p ensures p in ContentPaths(KeptFiles(cache, dir)) <==> p in ContentPaths(cache) - Below(cache, dir) {
      KeptContents(cache, dir, p);
    }
  }

  lemma KeptContents(cache: seq<PendingFile>, dir: string, p: string)
    requires Cached(cache)
    ensures p in ContentPaths(KeptFiles(cache, dir)) <==> p in ContentPaths(cache) && !(dir <= p)
    ensures p in ContentPaths(cache) ==> (p in Below(cache, dir) <==> dir <= p)
  {
  }

  /** The removal of a path forgets what is cached below it, and is passed on. */
  ghost function Removed(cache: seq<PendingFile>, path: string, s: State): State {
    var below := if EndsWithSlash(path) then ForgottenBelow(cache, path, s) else s;
    below.(pending := below.pending - {path}, log := below.log + [RemovalEmitted(path)])
  }

  /** What becomes of the queue with one cached file. */
  function After(d: Delays, s: State, file: PendingFile): State
    requires d.minTimeout <= d.maxTimeout
  {
    var p := file.path;
    if !file.ShouldIndexContents() then Noted(s, XAttrEmitted(p))
    else if p in s.pending then PutOff(s, p, s.now + Bound(d.minTimeout, (s.pending[p] - s.now) * 2, d.maxTimeout))
    else if p in s.recent then PutOff(s, p, s.now + d.minTimeout)
    else Sent(s, p, file.created)
  }

  /**
    The deadline of a changed path: each further change doubles the time left, within the
    bounds; a path that was only sent recently waits for the lower bound; any other is sent.
   */
  ghost predicate DeadlineSet(d: Delays, p: string, s: State, t: State) {
    (p in s.pending ==>
      p in t.pending && Doubled(d, s.pending[p] - s.now, t.pending[p] - s.now) && SameRecord(p, s, t)) &&
    (p !in s.pending && p in s.recent ==>
      p in t.pending && t.pending[p] == s.now + d.minTimeout && SameRecord(p, s, t)) &&
    (p !in s.pending && p !in s.recent ==> p !in t.pending && p in t.recent && t.recent[p] == s.now)
  }

  /** From the time that was left to the time that is left now. */
  ghost predicate Doubled(d: Delays, left: int, left': int) {
    (2 * left <= d.minTimeout ==> left' == d.minTimeout) &&
    (d.minTimeout <= 2 * left <= d.maxTimeout ==> left' == 2 * left) &&
    (2 * left >= d.maxTimeout ==> left' == d.maxTimeout)
  }

  ghost predicate SameRecord(p: string, s: State, t: State) {
    (p in t.recent <==> p in s.recent) && (p in s.recent ==> t.recent[p] == s.recent[p])
  }

  /** A cached file changes the deadline of its path exactly if its contents changed. */
  ghost predicate DeadlinesSet(d: Delays, cache: seq<PendingFile>, s: State, t: State) {
    (forall j :: 0 <= j < |cache| ==>
      if cache[j].ShouldIndexContents() then DeadlineSet(d, cache[j].path, s, t) else SameFor(cache[j].path, s, t)) &&
    forall p :: NotAmong(cache, |cache|, p) ==> SameFor(p, s, t)
  }

  lemma ProcessedSets(d: Delays, cache: seq<PendingFile>, s: State, t: State)
    requires Processed(d, cache, |cache|, s, t)
    ensures DeadlinesSet(d, cache, s, t)
  {
    forall j | 0 <= j < |cache|
      ensures if cache[j].ShouldIndexContents() then DeadlineSet(d, cache[j].path, s, t)
              else SameFor(cache[j].path, s, t)
    {
      assert Outcome(d, cache[j], s, t);
    }
  }

  /** What listeners are told about one cached file. */
  function Tells(s: State, file: PendingFile): seq<Entry> {
    if !file.ShouldIndexContents() then [XAttrEmitted(file.path)]
    else if file.path in s.pending || file.path in s.recent then []
    else [Emitted(file.path, s.now, file.created)]
  }

  /** And about all of them, in order. */
  function AllTells(s: State, cache: seq<PendingFile>): seq<Entry> {
    if cache == [] then [] else
      var n := |cache| - 1;
      AllTells(s, cache[..n]) + Tells(s, cache[n])
  }

  lemma AllTellsNext(s: State, cache: seq<PendingFile>, i: nat)
    requires i < |cache|
    ensures AllTells(s, cache[..i + 1]) == AllTells(s, cache[..i]) + Tells(s, cache[i])
  {
    assert cache[..i + 1][..i] == cache[..i];
  }

  lemma {:induction false} ToldInAll(s: State, cache: seq<PendingFile>, i: nat, e: Entry)
    requires i < |cache| && e in Tells(s, cache[i])
    ensures e in AllTells(s, cache)
  {
    if i < |cache| - 1 {
      ToldInAll(s, cache[..|cache| - 1], i, e);
    }
  }

  /** Nothing else is told: attributes alone, and contents that neither wait nor were sent recently. */
  lemma {:induction false} ToldOnly(s: State, cache: seq<PendingFile>, e: Entry)
    ensures e in AllTells(s, cache) <==> exists j :: 0 <= j < |cache| && IsTold(s, cache[j], e)
  {
    if e in AllTells(s, cache) {
      var n := |cache| - 1;
      if e in AllTells(s, cache[..n]) {
        ToldOnly(s, cache[..n], e);
        var j :| 0 <= j < n && IsTold(s, cache[..n][j], e);
        assert IsTold(s, cache[j], e);
      } else {
        assert IsTold(s, cache[n], e);
      }
    }
    if j :| 0 <= j < |cache| && IsTold(s, cache[j], e) {
      ToldInAll(s, cache, j, e);
    }
  }

  ghost predicate IsTold(s: State, file: PendingFile, e: Entry) {
    (e == XAttrEmitted(file.path) && !file.ShouldIndexContents()) ||
    (e.Emitted? && e.path == file.path && e.time == s.now && e.isNew == file.created && file.ShouldIndexContents() &&
     file.path !in s.pending && file.path !in s.recent)
  }

  /** The entries that a directory's removal leaves for the cached files below. */
  function Forgets(cache: seq<PendingFile>, dir: string): seq<Entry> {
    if cache == [] then [] else
      var n := |cache| - 1;
      Forgets(cache[..n], dir) + if dir <= cache[n].path then [Forgotten(cache[n].path)] else []
  }

  /** The cached files below a directory are dropped with their deadlines and records. */
  ghost function ForgottenBelow(cache: seq<PendingFile>, dir: string, s: State): State {
    s.(pending := s.pending - Below(cache, dir), recent := s.recent - Below(cache, dir),
       log := s.log + Forgets(cache, dir))
  }

  lemma ForgottenNext(cache: seq<PendingFile>, i: nat, dir: string, s: State)
    requires i < |cache|
    ensures var before := ForgottenBelow(cache[..i], dir, s);
      ForgottenBelow(cache[..i + 1], dir, s) ==
      if dir <= cache[i].path then Forget(before, cache[i].path) else before
  {
    assert cache[..i + 1] == cache[..i] + [cache[i]];
    assert Below(cache[..i + 1], dir) ==
      Below(cache[..i], dir) + if dir <= cache[i].path then {cache[i].path} else {};
    if dir <= cache[i].path {
      var p, below := cache[i].path, Below(cache[..i], dir);
      assert s.pending - (below + {p}) == s.pending - below - {p};
      assert s.recent - (below + {p}) == s.recent - below - {p};
    } else {
      assert Below(cache[..i + 1], dir) == Below(cache[..i], dir);
    }
  }

  /** The log has grown by these entries, each of them once. */
  ghost predicate Told(before: seq<Entry>, after: seq<Entry>, what: set<Entry>) {
    |before| <= |after| && after[..|before|] == before && NoRepeats(after[|before|..]) &&
    forall e :: e in after[|before|..] <==> e in what
  }

  lemma ToldNext(before: seq<Entry>, log: seq<Entry>, what: set<Entry>, e: Entry)
    requires Told(before, log, what) && e !in what
    ensures Told(before, log + [e], what + {e})
  {
    var n := |before|;
    assert (log + [e])[n..] == log[n..] + [e] && (log + [e])[..n] == log[..n];
  }

  /** What falls due, but for what is still to be looked at. */
  ghost function Due(pending: map<string, nat>, rest: set<string>, now: nat): set<Entry> {
    set p | p in pending && p !in rest && pending[p] <= now :: Emitted(p, now, false)
  }

  lemma DueNext(pending: map<string, nat>, rest: set<string>, now: nat, p: string)
    requires p in pending && p in rest
    ensures Due(pending, rest - {p}, now) ==
      Due(pending, rest, now) + if pending[p] <= now then {Emitted(p, now, false)} else {}
    ensures Emitted(p, now, false) !in Due(pending, rest, now)
  {
  }

  /** No change is lost: it is sent at once, or by a deadline within the bounds. */
  ghost predicate NotLost(d: Delays, file: PendingFile, s: State) {
    if !file.ShouldIndexContents() then XAttrEmitted(file.path) in s.log
    else if file.path in s.pending then s.now + d.minTimeout <= s.pending[file.path] <= s.now + d.maxTimeout
    else Emitted(file.path, s.now, file.created) in s.log
  }

  /** The deadline and the record of a path are the same. */
  ghost predicate SameFor(p: string, s: State, t: State) {
    (p in s.pending <==> p in t.pending) && (p in s.pending ==> s.pending[p] == t.pending[p]) &&
    (p in s.recent <==> p in t.recent) && (p in s.recent ==> s.recent[p] == t.recent[p])
  }

  /** What became of one cached file, seen from the state before. */
  ghost predicate Outcome(d: Delays, file: PendingFile, s: State, t: State)
    requires d.minTimeout <= d.maxTimeout
  {
    SameFor(file.path, After(d, s, file), t) && NotLost(d, file, t)
  }

  /** The first i cached files have been processed, and no other path has been touched. */
  ghost predicate Processed(d: Delays, cache: seq<PendingFile>, i: nat, s: State, t: State) {
    d.minTimeout <= d.maxTimeout && i <= |cache| && t.now == s.now && t.log == s.log + AllTells(s, cache[..i]) &&
    (forall j :: 0 <= j < i ==> Outcome(d, cache[j], s, t)) &&
    forall p :: NotAmong(cache, i, p) ==> SameFor(p, s, t)
  }

  /** The path is none of the first i cached files. */
  ghost predicate NotAmong(cache: seq<PendingFile>, i: nat, p: string) {
    i <= |cache| && forall j :: 0 <= j < i ==> cache[j].path != p
  }

  lemma ProcessedStep(d: Delays, cache: seq<PendingFile>, i: nat, s: State, t: State, t': State)
    requires i < |cache| && Cached(cache) && Processed(d, cache, i, s, t) && t' == After(d, t, cache[i])
    ensures Processed(d, cache, i + 1, s, t')
  {
    assert NotAmong(cache, i, cache[i].path);
    AllTellsNext(s, cache, i);
    OutcomeHere(d, cache[i], s, t);
    forall j | 0 <= j < i ensures Outcome(d, cache[j], s, t') {
      OutcomeStays(d, cache[j], cache[i], s, t);
    }
    forall p | NotAmong(cache, i + 1, p) ensures SameFor(p, s, t') {
      assert NotAmong(cache, i, p) && p != cache[i].path;
    }
  }

  /** A file's outcome does not depend on the files processed before. */
  lemma OutcomeHere(d: Delays, file: PendingFile, s: State, t: State)
    requires d.minTimeout <= d.maxTimeout && SameFor(file.path, s, t) && s.now == t.now
    ensures Outcome(d, file, s, After(d, t, file))
  {
    var log := After(d, t, file).log;
    assert |log| > |t.log| ==> log[|t.log|] in log;
  }

  /** It stays so while other files are processed. */
  lemma OutcomeStays(d: Delays, file: PendingFile, other: PendingFile, s: State, t: State)
    requires d.minTimeout <= d.maxTimeout && Outcome(d, file, s, t) && file.path != other.path
    ensures Outcome(d, file, s, After(d, t, other))
  {
    assert forall e :: e in t.log ==> e in After(d, t, other).log;
  }

  lemma NothingLost(d: Delays, cache: seq<PendingFile>, s: State, t: State)
    requires Processed(d, cache, |cache|, s, t)
    ensures forall j :: 0 <= j < |cache| ==> NotLost(d, cache[j], t)
  {
    forall j | 0 <= j < |cache| ensures NotLost(d, cache[j], t) {
      assert Outcome(d, cache[j], s, t);
    }
  }

  /** One cached file less is waiting in the cache: it is served, or it has a deadline now. */
  lemma ServedStep(cache: seq<PendingFile>, i: nat, before: set<string>, after: set<string>,
                   waiting: set<string>, waiting': set<string>)
    requires i < |cache| && Cached(cache) && waiting == before + ContentPaths(cache[i..])
    requires forall p :: p != cache[i].path ==> (p in before <==> p in after)
    requires !cache[i].ShouldIndexContents() ==> after == before
    requires waiting' == waiting - if cache[i].path !in after then Change(cache[i]) else {}
    ensures waiting' == after + ContentPaths(cache[i + 1..])
  {
    var f := cache[i];
    assert cache[i..] == [f] + cache[i + 1..];
    assert ContentPaths(cache[i..]) == ContentPaths(cache[i + 1..]) + Change(f);
    forall g | g in cache[i + 1..] ensures g.path != f.path {
      var j :| i + 1 <= j < |cache| && cache[j] == g;
    }
  }

  /** The deadlines that lie ahead or are still to be looked at. */
  function Ahead(pending: map<string, nat>, rest: set<string>, now: nat): map<string, nat> {
    map p | p in pending && (p in rest || pending[p] > now) :: pending[p]
  }

  /** The records of what falls due. */
  function Fired(pending: map<string, nat>, rest: set<string>, now: nat): map<string, nat> {
    map p | p in pending && p !in rest && pending[p] <= now :: now
  }

  /** Nothing that has been looked at comes before the time, and something does then, unless nothing is left. */
  ghost predicate IsNext(dates: map<string, nat>, rest: set<string>, time: nat, otherwise: nat) {
    time <= otherwise && (forall p :: p in dates && p !in rest ==> time <= dates[p]) &&
    ((dates.Keys <= rest && time == otherwise) || exists p :: p in dates && p !in rest && dates[p] == time)
  }

  /** The deadlines have been looked at, except for those in `rest`: what was due is sent, each once. */
  ghost predicate Serving(d: Delays, before: State, rest: set<string>, s: State, nextUpdate: nat) {
    s.now == before.now && rest <= before.pending.Keys &&
    s.pending == Ahead(before.pending, rest, s.now) &&
    s.recent == before.recent + Fired(before.pending, rest, s.now) &&
    Told(before.log, s.log, Due(before.pending, rest, s.now)) &&
    IsNext(s.pending, rest, s.now + nextUpdate, s.now + d.maxTimeout)
  }

  lemma ServingStarts(d: Delays, s: State)
    ensures Serving(d, s, s.pending.Keys, s, d.maxTimeout)
  {
  }

  lemma SentIsServed(d: Delays, before: State, rest: set<string>, s: State, nextUpdate: nat, p: string)
    requires Serving(d, before, rest, s, nextUpdate) && p in rest && before.pending[p] <= s.now
    ensures Serving(d, before, rest - {p}, Sent(s, p, false), nextUpdate)
  {
    var t := Sent(s, p, false);
    DueNext(before.pending, rest, s.now, p);
    ToldNext(before.log, s.log, Due(before.pending, rest, s.now), Emitted(p, s.now, false));
    assert t.pending == Ahead(before.pending, rest - {p}, s.now);
    assert t.recent == before.recent + Fired(before.pending, rest - {p}, s.now);
  }

  lemma KeptIsServed(d: Delays, before: State, rest: set<string>, s: State, nextUpdate: nat, p: string)
    requires Serving(d, before, rest, s, nextUpdate) && p in rest && s.now < before.pending[p] <= s.now + d.maxTimeout
    ensures var left := before.pending[p] - s.now;
      Serving(d, before, rest - {p}, s, if left < nextUpdate then left else nextUpdate)
  {
    DueNext(before.pending, rest, s.now, p);
    assert s.pending == Ahead(before.pending, rest - {p}, s.now);
    assert Fired(before.pending, rest, s.now) == Fired(before.pending, rest - {p}, s.now);
    KeptIsNext(s.pending, rest, s.now + nextUpdate, s.now + d.maxTimeout, p);
  }

  lemma KeptIsNext(dates: map<string, nat>, rest: set<string>, time: nat, otherwise: nat, p: string)
    requires IsNext(dates, rest, time, otherwise) && p in dates && p in rest && dates[p] <= otherwise
    ensures IsNext(dates, rest - {p}, if dates[p] < time then dates[p] else time, otherwise)
  {
  }

  /** The records that are left, or still to be looked at. */
  function Kept(d: Delays, recent: map<string, nat>, rest: set<string>, now: nat): map<string, nat> {
    map p | p in recent && (p in rest || now - recent[p] < d.trackingTime) :: recent[p]
  }

  /** When records are of tracking age. */
  function Expiries(d: Delays, recent: map<string, nat>): map<string, nat> {
    map p | p in recent :: recent[p] + d.trackingTime
  }

  /** The records have been looked at, except for those in `rest`: exactly those of tracking age are gone. */
  ghost predicate Clearing(d: Delays, before: State, rest: set<string>, s: State, nextUpdate: nat) {
    rest <= before.recent.Keys && s == before.(recent := Kept(d, before.recent, rest, s.now)) &&
    IsNext(Expiries(d, s.recent), rest, s.now + nextUpdate, s.now + d.trackingTime)
  }

  lemma ClearingStarts(d: Delays, s: State)
    ensures Clearing(d, s, s.recent.Keys, s, d.trackingTime)
  {
    assert s.recent == Kept(d, s.recent, s.recent.Keys, s.now);
  }

  lemma OldIsCleared(d: Delays, before: State, rest: set<string>, s: State, nextUpdate: nat, p: string)
    requires Clearing(d, before, rest, s, nextUpdate) && p in rest && s.now - before.recent[p] >= d.trackingTime
    ensures Clearing(d, before, rest - {p}, s.(recent := s.recent - {p}), nextUpdate)
  {
    assert s.recent - {p} == Kept(d, before.recent, rest - {p}, s.now);
  }

  lemma RecentIsKept(d: Delays, before: State, rest: set<string>, s: State, nextUpdate: nat, p: string)
    requires Clearing(d, before, rest, s, nextUpdate) && p in rest && s.now - before.recent[p] < d.trackingTime
    requires before.recent[p] <= s.now
    ensures var left := d.trackingTime - (s.now - before.recent[p]);
      Clearing(d, before, rest - {p}, s, if left < nextUpdate then left else nextUpdate)
  {
    assert s.recent == Kept(d, before.recent, rest - {p}, s.now);
    KeptIsNext(Expiries(d, s.recent), rest, s.now + nextUpdate, s.now + d.trackingTime, p);
  }

  /** Everything about a queue; each timer, if it runs, has a time to fire at. */
  datatype Moment = Moment(
    cache: seq<PendingFile>, now: State, unserved: set<string>,
    cacheTimer: Option<nat>, pendingFilesTimer: Option<nat>, clearTimer: Option<nat>)

  /** Nothing waits without a timer. */
  ghost predicate Armed(d: Delays, m: Moment) {
    (m.cache != [] ==> m.cacheTimer.Some?) && (m.now.recent != map[] ==> m.clearTimer.Some?) &&
    (m.now.pending != map[] ==> m.pendingFilesTimer.Some?) &&
    (m.pendingFilesTimer.Some? ==> m.pendingFilesTimer.value <= m.now.now + d.maxTimeout)
  }

  /** What holds between events. */
  ghost predicate Sound(d: Delays, m: Moment) {
    Good(d, m.cache, m.now, m.unserved) && Armed(d, m)
  }

  /** Dropping what is cached below a directory keeps it. */
  lemma DropKeepsSound(d: Delays, m: Moment, dir: string)
    requires Sound(d, m) && Tidy(d, ForgottenBelow(m.cache, dir, m.now))
    ensures Sound(d, m.(cache := KeptFiles(m.cache, dir), now := ForgottenBelow(m.cache, dir, m.now),
                        unserved := m.unserved - Below(m.cache, dir)))
  {
    KeptIsCached(m.cache, dir);
    KeptServed(m.cache, m.now.pending.Keys, dir);
    assert (m.now.pending - Below(m.cache, dir)).Keys == m.now.pending.Keys - Below(m.cache, dir);
  }

  /** Without timers nothing is left. */
  lemma QuietIsEmpty(d: Delays, m: Moment)
    requires Sound(d, m) && m.cacheTimer.None? && m.pendingFilesTimer.None? && m.clearTimer.None?
    ensures m == Moment([], State(map[], map[], m.now.log, m.now.now), {}, None, None, None)
  {
  }

  datatype Event = Enqueued(file: PendingFile) | CacheTimer | PendingFilesTimer | ClearTimer

  /** An event that says anything. */
  predicate Relevant(file: PendingFile) {
    file.deleted || file.ShouldIndexContents() || file.attributesChanged
  }

  /** A timer that is started, if there is need, unless it runs already. */
  function StartedAt(timer: Option<nat>, needed: bool, time: nat): Option<nat> {
    if needed && timer.None? then Some(time) else timer
  }

  /** A timer that fires next when the first date comes. */
  ghost predicate Restarted(timer: Option<nat>, dates: map<string, nat>) {
    if dates == map[] then timer.None?
    else timer.Some? && IsNext(dates, {}, timer.value, timer.value)
  }

  function At(m: Moment, now: nat): Moment {
    m.(now := m.now.(now := now))
  }

  /** A change waits in the cache; a removal retracts what is cached and is passed on at once. */
  ghost function Taken(m: Moment, file: PendingFile): Moment {
    if file.deleted then
      m.(cache := AfterRemoval(m.cache, file.path), now := Removed(m.cache, file.path, m.now),
         unserved := m.unserved - Retracted(m.cache, file.path))
    else
      m.(cache := Added(m.cache, file), unserved := m.unserved + Change(file),
         cacheTimer := Some(m.now.now + CACHE_INTERVAL))
  }

  /** A removal of this path concerns that one. */
  predicate Covers(path: string, p: string) {
    p == path || (EndsWithSlash(path) && path <= p)
  }

  /** What a removal leaves: of the cache, what it does not concern; of deadlines, also what is not cached below. */
  lemma RemovalMeans(m: Moment, file: PendingFile)
    requires Cached(m.cache) && file.deleted
    ensures var m' := Taken(m, file);
      (forall f :: f in m'.cache <==> f in m.cache && !Covers(file.path, f.path)) &&
      (forall p :: p in m'.now.pending <==>
        p in m.now.pending && p != file.path && !(CachedAt(m.cache, p) && Covers(file.path, p))) &&
      (forall p :: p in m'.now.pending ==> m'.now.pending[p] == m.now.pending[p]) &&
      (forall p :: p in m'.now.recent <==>
        p in m.now.recent && !(EndsWithSlash(file.path) && CachedAt(m.cache, p) && file.path <= p)) &&
      (forall p :: p in m'.now.recent ==> m'.now.recent[p] == m.now.recent[p])
  {
    var kept := if EndsWithSlash(file.path) then KeptFiles(m.cache, file.path) else m.cache;
    KeptIsCached(m.cache, file.path);
    DroppedIsCached(kept, file.path);
  }

  ghost predicate CachedAt(cache: seq<PendingFile>, p: string) {
    exists f :: f in cache && f.path == p
  }

  /** What a change leaves: one entry for its path with the flags of all its events, the others untouched. */
  lemma ChangeMeans(m: Moment, file: PendingFile)
    requires Cached(m.cache) && !file.deleted
    ensures var m' := Taken(m, file);
      m'.now == m.now && m'.cacheTimer == Some(m.now.now + 10) &&
      (!CachedAt(m.cache, file.path) ==> m'.cache == m.cache + [file]) &&
      (CachedAt(m.cache, file.path) ==> exists i :: 0 <= i < |m.cache| && MergedAt(m.cache, file, m'.cache, i))
  {
    var i := IndexOf(m.cache, file.path);
    if i < |m.cache| {
      assert m.cache[i] in m.cache;
      assert MergedAt(m.cache, file, Taken(m, file).cache, i);
    } else {
      forall f | f in m.cache ensures f.path != file.path {
      }
    }
  }

  ghost predicate MergedAt(cache: seq<PendingFile>, file: PendingFile, cache': seq<PendingFile>, i: nat) {
    i < |cache| == |cache'| && cache[i].path == file.path && BothFlags(cache[i], file, cache'[i]) &&
    forall j :: 0 <= j < |cache| && j != i ==> cache'[j] == cache[j]
  }

  ghost predicate BothFlags(a: PendingFile, b: PendingFile, r: PendingFile) {
    r.path == a.path && r.deleted == a.deleted && (r.created <==> a.created || b.created) &&
    (r.closedOnWrite <==> a.closedOnWrite || b.closedOnWrite) && (r.modified <==> a.modified || b.modified) &&
    (r.attributesChanged <==> a.attributesChanged || b.attributesChanged)
  }

  /**
    Every cached change of contents is sent or has a deadline between the two delays from
    now, every change of attributes alone is sent, and nothing else that waits is touched.
   */
  ghost predicate CacheProcessed(d: Delays, m: Moment, m': Moment) {
    m'.cache == [] && m'.cacheTimer.None? && m'.unserved == m'.now.pending.Keys &&
    Processed(d, m.cache, |m.cache|, m.now, m'.now) &&
    m'.pendingFilesTimer == StartedAt(m.pendingFilesTimer, m'.now.pending != map[], m.now.now + d.minTimeout) &&
    m'.clearTimer == StartedAt(m.clearTimer, m'.now.recent != map[], m.now.now + d.trackingTime)
  }

  /** No deadline comes before the timer. */
  ghost predicate InTime(m: Moment) {
    forall p :: p in m.now.pending ==> m.pendingFilesTimer.Some? && m.pendingFilesTimer.value <= m.now.pending[p]
  }

  /** After the cache is processed that holds exactly if a timer that ran before is early enough for what is new. */
  lemma InTimeWhen(d: Delays, m: Moment, m': Moment)
    requires Sound(d, m) && CacheProcessed(d, m, m')
    ensures InTime(m') <==>
      m.pendingFilesTimer.None? || forall p :: p in m'.now.pending ==> m.pendingFilesTimer.value <= m'.now.pending[p]
  {
    if m.pendingFilesTimer.None? {
      forall p | p in m'.now.pending ensures m.now.now + d.minTimeout <= m'.now.pending[p] {
        if !NotAmong(m.cache, |m.cache|, p) {
          var j :| 0 <= j < |m.cache| && m.cache[j].path == p;
          assert Outcome(d, m.cache[j], m.now, m'.now);
        }
      }
    }
  }

  /** A path can miss its deadline: the timer already runs, for another one that was put off for long. */
  lemma TimerMayBeLate()
    ensures exists m, m' :: Sound(Usual(), m) && CacheProcessed(Usual(), m, m') && !InTime(m')
  {
    var m' := Moment([], LATE.now.(pending := LATE.now.pending["b" := 5010]), {"a", "b"}, None, Some(60000),
                     Some(120000));
    LateIsSound();
    LateIsProcessed(m');
    assert "b" in m'.now.pending && m'.now.pending["b"] == 5010;
  }

  /** Both were sent at 0; the first waits until 60000 by now, the second has changed again at 10. */
  const LATE := Moment(
    [PendingFile("b", false, false, false, false, true)],
    State(map["a" := 60000], map["a" := 0, "b" := 0], [Emitted("a", 0, true), Emitted("b", 0, true)], 10),
    {"a", "b"}, Some(10), Some(60000), Some(120000))

  /** The delays that the source starts with. */
  function Usual(): Delays {
    Delays(5000, 60000, 120000)
  }

  lemma LateIsSound()
    ensures Sound(Usual(), LATE)
  {
    var e0, e1 := Emitted("a", 0, true), Emitted("b", 0, true);
    assert [e0, e1] == ([] + [e0]) + [e1];
    SpacedAppend([], e0, Gap(Usual()));
    assert [] + [e0] == [e0];
    LastAppend([], e0, "b");
    SpacedAppend([e0], e1, Gap(Usual()));
    forall p ensures Tracked(Usual(), LATE.now, p) {
      LastAppend([], e0, p);
      LastAppend([e0], e1, p);
    }
    AtPath(LATE.cache, "b");
    assert ContentPaths(LATE.cache) == {"b"};
  }

  lemma LateIsProcessed(m': Moment)
    requires m' == Moment([], LATE.now.(pending := LATE.now.pending["b" := 5010]), {"a", "b"}, None, Some(60000),
                          Some(120000))
    ensures CacheProcessed(Usual(), LATE, m')
  {
    assert AllTells(LATE.now, LATE.cache[..1]) == AllTells(LATE.now, LATE.cache[..0]) + Tells(LATE.now, LATE.cache[0]);
    assert LATE.now.log + [] == LATE.now.log;
    forall p | NotAmong(LATE.cache, 1, p) ensures SameFor(p, LATE.now, m'.now) {
      assert LATE.cache[0].path != p;
    }
  }

  /** Exactly what is due is sent, once; the rest keeps its deadline, and the timer runs to the first of them. */
  ghost predicate DeadlinesServed(d: Delays, m: Moment, m': Moment) {
    m'.cache == m.cache && m'.cacheTimer == m.cacheTimer && m'.now.now == m.now.now &&
    m'.now.pending == Ahead(m.now.pending, {}, m.now.now) &&
    m'.now.recent == m.now.recent + Fired(m.now.pending, {}, m.now.now) &&
    Told(m.now.log, m'.now.log, Due(m.now.pending, {}, m.now.now)) &&
    Restarted(m'.pendingFilesTimer, m'.now.pending) &&
    m'.clearTimer == StartedAt(m.clearTimer, m'.now.recent != map[], m.now.now + d.trackingTime)
  }

  /** Exactly the records of tracking age are forgotten, and the timer runs until the next is. */
  ghost predicate RecordsCleared(d: Delays, m: Moment, m': Moment) {
    m' == m.(now := m.now.(recent := Kept(d, m.now.recent, {}, m.now.now)), clearTimer := m'.clearTimer) &&
    Restarted(m'.clearTimer, Expiries(d, m'.now.recent))
  }

  /** One event, some time after the one before. */
  ghost predicate Next(d: Delays, m: Moment, event: (nat, Event), m': Moment) {
    var later := At(m, m.now.now + event.0);
    match event.1
    case Enqueued(file) => m' == if Relevant(file) then Taken(later, file) else m
    case CacheTimer => CacheProcessed(d, later, m')
    case PendingFilesTimer => DeadlinesServed(d, later, m')
    case ClearTimer => RecordsCleared(d, later, m')
  }

  /** A run as it was seen before the first event and after each. */
  ghost predicate History(d: Delays, h: seq<Moment>, events: seq<(nat, Event)>) {
    |h| == |events| + 1 && Recorded(d, h, events)
  }

  /** The same for a run that is not over yet: every state is a good one and follows from the one before. */
  ghost predicate Recorded(d: Delays, h: seq<Moment>, events: seq<(nat, Event)>) {
    0 < |h| <= |events| + 1 && (forall i :: 0 <= i < |h| ==> Sound(d, h[i])) &&
    forall i {:trigger events[i]} :: 0 <= i < |h| - 1 ==> Next(d, h[i], events[i], h[i + 1])
  }

  lemma RecordNext(d: Delays, h: seq<Moment>, events: seq<(nat, Event)>, m: Moment)
    requires Recorded(d, h, events) && |h| <= |events| && Sound(d, m) && Next(d, h[|h| - 1], events[|h| - 1], m)
    ensures Recorded(d, h + [m], events)
  {
    var h' := h + [m];
    forall i {:trigger events[i]} | 0 <= i < |h| ensures Next(d, h'[i], events[i], h'[i + 1]) {
      assert h'[i] == h[i] && (i < |h| - 1 ==> h'[i + 1] == h[i + 1]);
    }
  }

  /** One event more. */
  lemma HistoryNext(d: Delays, h: seq<Moment>, events: seq<(nat, Event)>, event: (nat, Event), m: Moment)
    requires History(d, h, events) && Sound(d, m) && Next(d, h[|events|], event, m)
    ensures History(d, h + [m], events + [event])
  {
    var events' := events + [event];
    forall i {:trigger events'[i]} | 0 <= i < |h| - 1 ensures Next(d, h[i], events'[i], h[i + 1]) {
      assert events'[i] == events[i];
    }
    RecordNext(d, h, events', m);
  }

  /** A change of a path's contents is sent from one moment to the next. */
  ghost predicate Sends(m: Moment, m': Moment, p: string) {
    |m.now.log| <= |m'.now.log| &&
    exists isNew :: Emitted(p, m'.now.now, isNew) in m'.now.log[|m.now.log|..]
  }

  /** A removal takes the path's change back. */
  ghost predicate Retracts(m: Moment, event: Event, p: string) {
    event.Enqueued? && event.file.deleted && p in Retracted(m.cache, event.file.path)
  }

  ghost predicate Served(m: Moment, event: Event, m': Moment, p: string) {
    Sends(m, m', p) || Retracts(m, event, p)
  }

  /** No event loses a change of contents. */
  lemma StaysUnserved(d: Delays, m: Moment, event: (nat, Event), m': Moment, p: string)
    requires Sound(d, m) && Sound(d, m') && Next(d, m, event, m') && p in m.unserved
    ensures p in m'.unserved || Served(m, event.1, m', p)
  {
    match event.1
    case Enqueued(file) =>
    case CacheTimer => CachedIsServed(d, At(m, m.now.now + event.0), m', p);
    case PendingFilesTimer => DueIsSent(d, At(m, m.now.now + event.0), m', p);
    case ClearTimer =>
  }

  lemma CachedIsServed(d: Delays, m: Moment, m': Moment, p: string)
    requires Cached(m.cache) && p in m.now.pending.Keys + ContentPaths(m.cache) && CacheProcessed(d, m, m')
    ensures p in m'.unserved || Sends(m, m', p)
  {
    if NotAmong(m.cache, |m.cache|, p) {
      AtPath(m.cache, p);
      assert SameFor(p, m.now, m'.now);
    } else {
      var j :| 0 <= j < |m.cache| && m.cache[j].path == p;
      assert Outcome(d, m.cache[j], m.now, m'.now);
      OnePath(m.cache, j);
      OutcomeServes(d, m.cache, j, m.now, m'.now);
      ToldSends(m, m', p, m.cache[j].created);
    }
  }

  lemma ToldSends(m: Moment, m': Moment, p: string, isNew: bool)
    requires m'.now.now == m.now.now && m'.now.log == m.now.log + AllTells(m.now, m.cache[..|m.cache|])
    ensures Emitted(p, m.now.now, isNew) in AllTells(m.now, m.cache) ==> Sends(m, m', p)
  {
    assert m.cache[..|m.cache|] == m.cache;
    assert m'.now.log[|m.now.log|..] == AllTells(m.now, m.cache);
  }

  /** A cached path that was waiting has a deadline still, or is sent. */
  lemma OutcomeServes(d: Delays, cache: seq<PendingFile>, j: nat, s: State, t: State)
    requires d.minTimeout <= d.maxTimeout && j < |cache| && Outcome(d, cache[j], s, t)
    requires cache[j].path in s.pending || cache[j].ShouldIndexContents()
    ensures cache[j].path in t.pending || Emitted(cache[j].path, s.now, cache[j].created) in AllTells(s, cache)
  {
    var p := cache[j].path;
    if p !in t.pending {
      assert p !in After(d, s, cache[j]).pending;
      ToldInAll(s, cache, j, Emitted(p, s.now, cache[j].created));
    }
  }

  lemma OnePath(cache: seq<PendingFile>, j: nat)
    requires Cached(cache) && j < |cache|
    ensures cache[j].path in ContentPaths(cache) <==> cache[j].ShouldIndexContents()
  {
    AtPath(cache, cache[j].path);
  }

  lemma DueIsSent(d: Delays, m: Moment, m': Moment, p: string)
    requires p in m.now.pending.Keys + ContentPaths(m.cache) && DeadlinesServed(d, m, m')
    requires m'.unserved == m'.now.pending.Keys + ContentPaths(m'.cache)
    ensures p in m'.unserved || Sends(m, m', p)
  {
    if p !in m'.unserved {
      assert Emitted(p, m.now.now, false) in Due(m.now.pending, {}, m.now.now);
    }
  }

  /** From some event on, the path's contents were sent, or a removal took the change back. */
  ghost predicate SeenTo(d: Delays, h: seq<Moment>, events: seq<(nat, Event)>, i: nat, p: string)
    requires History(d, h, events)
  {
    exists j {:trigger events[j]} :: i <= j < |events| && Served(h[j], events[j].1, h[j + 1], p)
  }

  lemma {:induction false} UnservedOrSeenTo(d: Delays, h: seq<Moment>, events: seq<(nat, Event)>, i: nat, p: string)
    requires History(d, h, events) && i <= |events| && p in h[i].unserved
    ensures p in h[|events|].unserved || SeenTo(d, h, events, i, p)
    decreases |events| - i
  {
    if i < |events| {
      StaysUnserved(d, h[i], events[i], h[i + 1], p);
      if p in h[i + 1].unserved {
        UnservedOrSeenTo(d, h, events, i + 1, p);
      }
    }
  }

  /** The event is a change of this path's contents. */
  predicate Changes(event: Event, p: string) {
    event.Enqueued? && !event.file.deleted && event.file.ShouldIndexContents() && event.file.path == p
  }

  /** In any run a change of contents still waits at the end, has been sent since, or was taken back. */
  lemma NoChangeForgotten(d: Delays, h: seq<Moment>, events: seq<(nat, Event)>, i: nat, p: string)
    requires History(d, h, events) && i < |events| && Changes(events[i].1, p)
    ensures p in h[|events|].unserved || SeenTo(d, h, events, i + 1, p)
  {
    assert Next(d, h[i], events[i], h[i + 1]);
    UnservedOrSeenTo(d, h, events, i + 1, p);
  }

  /** Once no timer of cache and deadlines runs, every change of contents has been seen to. */
  lemma QuietHasSeenToAll(d: Delays, h: seq<Moment>, events: seq<(nat, Event)>, i: nat, p: string)
    requires History(d, h, events) && i < |events| && Changes(events[i].1, p)
    requires h[|events|].cacheTimer.None? && h[|events|].pendingFilesTimer.None?
    ensures SeenTo(d, h, events, i + 1, p)
  {
    NoChangeForgotten(d, h, events, i, p);
    assert Sound(d, h[|events|]);
  }

  /** The event is the firing of a timer that runs, not before its time. */
  ghost predicate Fires(m: Moment, event: (nat, Event)) {
    var now := m.now.now + event.0;
    match event.1
    case Enqueued(_) => false
    case CacheTimer => m.cacheTimer.Some? && m.cacheTimer.value <= now
    case PendingFilesTimer => m.pendingFilesTimer.Some? && m.pendingFilesTimer.value <= now
    case ClearTimer => m.clearTimer.Some? && m.clearTimer.value <= now
  }

  /** A run of timers only. */
  ghost predicate Firings(d: Delays, h: seq<Moment>, events: seq<(nat, Event)>) {
    History(d, h, events) && forall i {:trigger events[i]} :: 0 <= i < |events| ==> Fires(h[i], events[i])
  }

  lemma FiringsNext(d: Delays, h: seq<Moment>, events: seq<(nat, Event)>, event: (nat, Event), m: Moment)
    requires Firings(d, h, events) && Fires(h[|events|], event)
    requires Sound(d, m) && Next(d, h[|events|], event, m)
    ensures Firings(d, h + [m], events + [event])
  {
    var events' := events + [event];
    HistoryNext(d, h, events, event, m);
    forall i {:trigger events'[i]} | 0 <= i < |h| ensures Fires((h + [m])[i], events'[i]) {
      assert i < |events| ==> events'[i] == events[i];
    }
  }

  ghost predicate SendsAt(h: seq<Moment>, j: nat, p: string)
    requires j + 1 < |h|
  {
    Sends(h[j], h[j + 1], p)
  }

  /** In a run of timers until nothing waits, every change of contents that waited is sent. */
  lemma AllWaitingSent(d: Delays, h: seq<Moment>, events: seq<(nat, Event)>)
    requires Firings(d, h, events) && h[|events|].unserved == {}
    ensures forall p :: p in h[0].unserved ==> exists j: nat :: j < |events| && SendsAt(h, j, p)
  {
    forall p | p in h[0].unserved ensures exists j: nat :: j < |events| && SendsAt(h, j, p) {
      UnservedOrSeenTo(d, h, events, 0, p);
      var j: nat {:trigger events[j]} :| j < |events| && Served(h[j], events[j].1, h[j + 1], p);
      assert Fires(h[j], events[j]);
      assert SendsAt(h, j, p);
    }
  }

  /** How much a timer that looks after these dates has still to do: the first time it may come too early. */
  ghost function Wait(timer: Option<nat>, dates: map<string, nat>): nat {
    if timer.None? then 0 else if exists p :: p in dates && dates[p] <= timer.value then 1 else 2
  }

  /** Fewer dates, or as many and less to do. */
  ghost predicate Fewer(keys': set<string>, wait': nat, keys: set<string>, wait: nat) {
    keys' < keys || (keys' == keys && wait' < wait)
  }

  /** One step closer to rest. */
  ghost predicate Closer(d: Delays, m': Moment, m: Moment) {
    var deadlines', deadlines := m'.now.pending, m.now.pending;
    var wait', wait := Wait(m'.pendingFilesTimer, deadlines'), Wait(m.pendingFilesTimer, deadlines);
    var records', records := Expiries(d, m'.now.recent), Expiries(d, m.now.recent);
    (m'.cacheTimer.None? && m.cacheTimer.Some?) ||
    (m'.cacheTimer.None? == m.cacheTimer.None? &&
     (Fewer(deadlines'.Keys, wait', deadlines.Keys, wait) ||
      (deadlines'.Keys == deadlines.Keys && wait' == wait &&
       Fewer(m'.now.recent.Keys, Wait(m'.clearTimer, records'), m.now.recent.Keys, Wait(m.clearTimer, records)))))
  }

  /** A timer that looked after its dates has less to do. */
  lemma FiringIsFewer(timer: Option<nat>, dates: map<string, nat>, now: nat, timer': Option<nat>,
                      dates': map<string, nat>)
    requires timer.Some? && timer.value <= now && Restarted(timer', dates') && dates'.Keys <= dates.Keys
    requires forall p :: p in dates' ==> dates'[p] > now && dates'[p] == dates[p]
    ensures Fewer(dates'.Keys, Wait(timer', dates'), dates.Keys, Wait(timer, dates))
  {
    if dates'.Keys == dates.Keys && dates' != map[] {
      var p :| p in dates' && dates'[p] == timer'.value;
    }
  }

  /** Every timer that fires brings rest closer. */
  lemma FiringIsCloser(d: Delays, m: Moment, event: (nat, Event), m': Moment)
    requires Sound(d, m) && Fires(m, event) && Next(d, m, event, m')
    ensures Closer(d, m', m)
  {
    var later := At(m, m.now.now + event.0);
    match event.1
    case CacheTimer =>
    case PendingFilesTimer =>
      FiringIsFewer(m.pendingFilesTimer, m.now.pending, later.now.now, m'.pendingFilesTimer, m'.now.pending);
    case ClearTimer => ClearingIsFewer(d, m, later.now.now, m');
  }

  lemma ClearingIsFewer(d: Delays, m: Moment, now: nat, m': Moment)
    requires m.clearTimer.Some? && m.clearTimer.value <= now && RecordsCleared(d, At(m, now), m')
    ensures Fewer(m'.now.recent.Keys, Wait(m'.clearTimer, Expiries(d, m'.now.recent)), m.now.recent.Keys,
                  Wait(m.clearTimer, Expiries(d, m.now.recent)))
  {
    var records, records' := Expiries(d, m.now.recent), Expiries(d, m'.now.recent);
    assert records.Keys == m.now.recent.Keys && records'.Keys == m'.now.recent.Keys;
    FiringIsFewer(m.clearTimer, records, now, m'.clearTimer, records');
  }
}
