/**
  The batch loop of the content indexer (src/file/filecontentindexer.cpp) with its
  provider (src/file/filecontentindexerprovider.cpp).  The extractor process is a step
  of the environment: it commits a whole batch, or nothing if the batch has a bad file.
 */
module FileContentIndexers {
  import opened Sequences
  import opened IdUtils

  /** floor(log2(n)). */
  function Log2(n: nat): nat
    requires n > 0
  {
    if n == 1 then 0 else 1 + Log2(n / 2)
  }

  lemma {:induction false} Log2Monotone(m: nat, n: nat)
    requires 0 < m <= n
    ensures Log2(m) <= Log2(n)
  {
    if m > 1 {
      Log2Monotone(m / 2, n / 2);
    }
  }

  /** 2 to the power of Log2(n) is the largest power of two in n. */
  lemma {:induction false} Log2IsFloor(n: nat)
    requires n > 0
    ensures Power(Log2(n)) <= n < 2 * Power(Log2(n))
  {
    if n > 1 {
      Log2IsFloor(n / 2);
    }
  }

  function Power(k: nat): nat {
    if k == 0 then 1 else 2 * Power(k - 1)
  }

  /** The first ids in order, at most that many. */
  ghost predicate Fetched(ids: set<Id>, size: nat, list: seq<Id>) {
    Ascending(list, IdOf) && |list| == (if |ids| <= size then |ids| else size) &&
    (forall x :: x in list ==> x in ids) && forall x, y :: x in list && y in ids && y !in list ==> x < y
  }

  lemma {:induction false} SizeOfList(list: seq<Id>)
    requires Ascending(list, IdOf)
    ensures |Elements(list)| == |list|
  {
    if list != [] {
      var n := |list| - 1;
      SizeOfList(list[..n]);
      assert Elements(list) == Elements(list[..n]) + {list[n]};
      assert list[n] !in list[..n];
    }
  }

  /** The list holds the ids that are not in the rest, and these come before the rest. */
  ghost predicate Fetching(ids: set<Id>, rest: set<Id>, list: seq<Id>) {
    rest <= ids && Ascending(list, IdOf) && Elements(list) == ids - rest &&
    forall x, y :: x in list && y in rest ==> x < y
  }

  lemma FetchStep(ids: set<Id>, rest: set<Id>, list: seq<Id>, id: Id)
    requires Fetching(ids, rest, list) && id in rest && forall x :: x in rest ==> id <= x
    ensures Fetching(ids, rest - {id}, list + [id])
  {
    assert forall j :: 0 <= j < |list| ==> list[j] in list;
  }

  lemma FetchEnds(ids: set<Id>, rest: set<Id>, list: seq<Id>, size: nat)
    requires Fetching(ids, rest, list) && (|list| == size || (rest == {} && |list| < size))
    ensures Fetched(ids, size, list)
  {
    SizeOfList(list);
    assert |ids| == |Elements(list)| + |rest| by {
      assert ids == Elements(list) + rest;
    }
    assert forall y :: y in ids && y !in list ==> y in rest;
  }

  /** The sets that a provider stores. */
  datatype Books = Books(phaseOne: set<Id>, failed: set<Id>, indexed: set<Id>)

  function Committed(b: Books, batch: set<Id>): Books {
    b.(phaseOne := b.phaseOne - batch, indexed := b.indexed + batch)
  }

  function Marked(b: Books, id: Id): Books {
    b.(phaseOne := b.phaseOne - {id}, failed := b.failed + {id})
  }

  /** Phase one and the failed files, as stored; `indexed` are the files whose contents have been committed. */
  class FileContentIndexerProvider {
    var phaseOne: set<Id>
    var failed: set<Id>
    ghost var indexed: set<Id>

    ghost function Now(): Books
      reads this
    {
      Books(phaseOne, failed, indexed)
    }

    constructor (phaseOne: set<Id>, failed: set<Id>)
      ensures this.phaseOne == phaseOne && this.failed == failed && indexed == {}
    {
      this.phaseOne, this.failed, indexed := phaseOne, failed, {};
    }

    /** DocumentIdDB::fetchItems: a cursor over the ids in order. */
    method Fetch(size: nat) returns (list: seq<Id>)
      ensures Fetched(phaseOne, size, list)
    {
      list := [];
      var rest := phaseOne;
      for i := 0 to size
        invariant |list| == i && Fetching(phaseOne, rest, list)
      {
        if rest == {} {
          FetchEnds(phaseOne, rest, list, size);
          return;
        }
        var id := Least(rest);
        FetchStep(phaseOne, rest, list, id);
        rest := rest - {id};
        list := list + [id];
      }
      FetchEnds(phaseOne, rest, list, size);
    }

    method Least(ids: set<Id>) returns (id: Id)
      requires ids != {}
      ensures id in ids && forall x :: x in ids ==> id <= x
    {
      id :| id in ids;
      var rest := ids - {id};
      while rest != {}
        invariant rest <= ids && id in ids && forall x :: x in ids && x !in rest ==> id <= x
        decreases rest
      {
        var x :| x in rest;
        rest := rest - {x};
        if x < id {
          id := x;
        }
      }
    }

    method MarkFailed(id: Id)
      modifies this
      ensures Now() == Marked(old(Now()), id)
    {
      if id !in failed {
        failed := failed + {id};
      }
      phaseOne := phaseOne - {id};
    }

    /** One run of the extractor: it reports some finished files, then commits all of them or dies on a bad one. */
    method Extract(batch: seq<Id>, bad: set<Id>) returns (hadErrors: bool, finished: nat)
      modifies this
      ensures hadErrors <==> exists id :: id in batch && id in bad
      ensures hadErrors ==> Now() == old(Now())
      ensures !hadErrors ==> Now() == Committed(old(Now()), Elements(batch)) && finished == |batch|
    {
      hadErrors := exists id :: id in batch && id in bad;
      if hadErrors {
        finished := *;
      } else {
        finished := |batch|;
        phaseOne := phaseOne - Elements(batch);
        indexed := indexed + Elements(batch);
      }
    }
  }

  /** Where the files of phase one have gone: bad ones only to the failed, good ones only to the indexed. */
  ghost predicate Sorted(todo: set<Id>, bad: set<Id>, phaseOne: set<Id>, failed: set<Id>, indexed: set<Id>) {
    phaseOne + failed + indexed == todo && phaseOne !! failed && phaseOne !! indexed && failed <= bad && indexed !! bad
  }

  /** n files cost at most this many failed runs: for each of them one, and one more for each halving. */
  function Allowance(n: nat, limit: nat): nat
    requires limit > 0
  {
    if n == 0 then 0 else Allowance(n - 1, limit) + Log2(limit) + 1
  }

  lemma {:induction false} AllowanceIsProduct(n: nat, limit: nat)
    requires limit > 0
    ensures Allowance(n, limit) == n * (Log2(limit) + 1)
  {
    if n > 0 {
      AllowanceIsProduct(n - 1, limit);
      assert n * (Log2(limit) + 1) == (n - 1) * (Log2(limit) + 1) + Log2(limit) + 1;
    }
  }

  lemma {:induction false} AllowanceMonotone(m: nat, n: nat, limit: nat)
    requires limit > 0 && m <= n
    ensures Allowance(m, limit) <= Allowance(n, limit)
    decreases n
  {
    if m < n {
      AllowanceMonotone(m, n - 1, limit);
    }
  }

  /**
    The failed runs so far: what is allowed for the files marked, and those since the
    last mark, which halve the batch each time.
   */
  ghost predicate Bounded(runs: nat, marked: nat, since: nat, batchSize: nat, limit: nat) {
    0 < batchSize <= limit && runs <= Allowance(marked, limit) + since && since <= Log2(limit) - Log2(batchSize)
  }

  lemma BatchShrinks(runs: nat, marked: nat, since: nat, batchSize: nat, limit: nat, size: nat)
    requires Bounded(runs, marked, since, batchSize, limit) && 0 < size <= batchSize
    ensures Bounded(runs, marked, since, size, limit)
    ensures size > 1 ==> Bounded(runs + 1, marked, since + 1, size / 2, limit)
    ensures size == 1 ==> Bounded(runs + 1, marked + 1, 0, limit, limit)
    ensures runs + 1 <= Allowance(marked + 1, limit)
  {
    Log2Monotone(size, batchSize);
  }

  /** Fewer files have been marked than are bad, as long as a bad one is left. */
  lemma MarkedIsLess(todo: set<Id>, bad: set<Id>, phaseOne: set<Id>, failed: set<Id>, indexed: set<Id>)
    requires Sorted(todo, bad, phaseOne, failed, indexed)
    ensures |failed| <= |todo * bad|
    ensures phaseOne * bad != {} ==> |failed| < |todo * bad|
  {
    SubsetSize(failed, todo * bad);
    if id :| id in phaseOne * bad {
      SubsetSize(failed + {id}, todo * bad);
    }
  }

  lemma {:induction false} SubsetSize(a: set<Id>, b: set<Id>)
    requires a <= b
    ensures |a| <= |b|
  {
    if x :| x in a {
      SubsetSize(a - {x}, b - {x});
    }
  }

  /** What a run of the indexer starts from: the stored sets, the bad files and the batch size. */
  datatype Job = Job(start: Books, bad: set<Id>, limit: nat)

  /** What it has sorted since, the failed runs, and those of them since the last mark. */
  datatype Progress = Progress(failed: set<Id>, indexed: set<Id>, runs: nat, since: nat)

  /** How many of the job's files are bad. */
  ghost function BadCount(job: Job): nat {
    |job.start.phaseOne * job.bad|
  }

  /** The stored sets, given what they were before and what has been sorted since. */
  ghost predicate Stored(job: Job, now: Books, p: Progress) {
    Sorted(job.start.phaseOne, job.bad, now.phaseOne, p.failed, p.indexed) &&
    now.failed == job.start.failed + p.failed && now.indexed == job.start.indexed + p.indexed
  }

  /** A batch of good files is committed. */
  lemma BatchCommitted(job: Job, now: Books, p: Progress, batch: set<Id>)
    requires Stored(job, now, p) && batch <= now.phaseOne && batch !! job.bad && batch != {}
    ensures Stored(job, Committed(now, batch), p.(indexed := p.indexed + batch))
    ensures |p.indexed + batch| == |p.indexed| + |batch| && now.phaseOne - batch < now.phaseOne
    ensures (now.phaseOne - batch) * job.bad != {} <==> now.phaseOne * job.bad != {}
  {
    assert p.indexed !! batch;
    assert (now.phaseOne - batch) * job.bad == now.phaseOne * job.bad;
    var x :| x in batch;
    assert x in now.phaseOne && x !in now.phaseOne - batch;
  }

  /** A bad file is marked. */
  lemma FileMarked(job: Job, now: Books, p: Progress, id: Id)
    requires Stored(job, now, p) && id in now.phaseOne && id in job.bad
    ensures Stored(job, Marked(now, id), p.(failed := p.failed + {id}))
    ensures |p.failed + {id}| == |p.failed| + 1 && now.phaseOne - {id} < now.phaseOne
  {
    assert id !in p.failed && id !in p.indexed;
  }

  /** When phase one is empty, the bad files are the failed ones and the others are indexed. */
  lemma AllSorted(todo: set<Id>, bad: set<Id>, failed: set<Id>, indexed: set<Id>)
    requires Sorted(todo, bad, {}, failed, indexed)
    ensures failed == todo * bad && indexed == todo - bad
  {
  }

  lemma StartSorted(job: Job)
    requires job.limit > 0
    ensures Kept(job, job.start, Progress({}, {}, 0, 0), false, 0, job.limit)
  {
  }

  ghost predicate WithinBound(runs: nat, limit: nat, all: nat) {
    0 < limit && runs <= Allowance(all, limit)
  }

  /** What the loop keeps so that the bound holds in the end. */
  ghost predicate OnBudget(runs: nat, marked: nat, since: nat, size: nat, limit: nat, badLeft: bool) {
    Bounded(runs, marked, since, size, limit) && (since > 0 ==> badLeft)
  }

  /** A failed run: the batch is halved, or its only file marked, or the indexer is told to stop. */
  lemma FailedRun(runs: nat, marked: nat, since: nat, size: nat, limit: nat, all: nat, batch: nat, badLeft: bool)
    requires OnBudget(runs, marked, since, size, limit, true) && 0 < batch <= size && marked < all
    ensures WithinBound(runs + 1, limit, all)
    ensures batch > 1 ==> OnBudget(runs + 1, marked, since + 1, batch / 2, limit, true)
    ensures batch == 1 ==> OnBudget(runs + 1, marked + 1, 0, limit, limit, badLeft)
  {
    BatchShrinks(runs, marked, since, size, limit, batch);
    AllowanceMonotone(marked + 1, all, limit);
  }

  lemma GoodRun(runs: nat, marked: nat, since: nat, size: nat, limit: nat, batch: nat, badLeft: bool)
    requires OnBudget(runs, marked, since, size, limit, badLeft) && 0 < batch <= size
    ensures OnBudget(runs, marked, since, batch, limit, badLeft)
  {
    BatchShrinks(runs, marked, since, size, limit, batch);
  }

  /** What every turn of the loop keeps. */
  ghost predicate Kept(job: Job, now: Books, p: Progress, stop: bool, finishedCount: nat, size: nat) {
    Stored(job, now, p) && WithinBound(p.runs, job.limit, BadCount(job)) &&
    (stop || (finishedCount == |p.indexed| &&
      OnBudget(p.runs, |p.failed|, p.since, size, job.limit, now.phaseOne * job.bad != {})))
  }

  lemma BatchSucceeds(job: Job, now: Books, p: Progress, stop: bool, finishedCount: nat, size: nat, idList: seq<Id>)
    requires Kept(job, now, p, false, finishedCount, size)
    requires Fetched(now.phaseOne, size, idList) && idList != [] && forall id :: id in idList ==> id !in job.bad
    ensures now.phaseOne - Elements(idList) < now.phaseOne
    ensures Kept(job, Committed(now, Elements(idList)), p.(indexed := p.indexed + Elements(idList)), stop,
                 finishedCount + |idList|, |idList|)
  {
    SizeOfList(idList);
    assert idList[0] in Elements(idList);
    BatchCommitted(job, now, p, Elements(idList));
    GoodRun(p.runs, |p.failed|, p.since, size, job.limit, |idList|, now.phaseOne * job.bad != {});
  }

  lemma BatchFails(job: Job, now: Books, p: Progress, finishedCount: nat, size: nat, idList: seq<Id>)
    requires Kept(job, now, p, false, finishedCount, size)
    requires Fetched(now.phaseOne, size, idList) && exists id :: id in idList && id in job.bad
    ensures |p.failed| < BadCount(job) && OnBudget(p.runs, |p.failed|, p.since, size, job.limit, true)
    ensures WithinBound(p.runs + 1, job.limit, BadCount(job))
    ensures |idList| > 1 ==>
      Kept(job, now, p.(runs := p.runs + 1, since := p.since + 1), false, finishedCount, |idList| / 2)
  {
    var id :| id in idList && id in job.bad;
    assert id in now.phaseOne * job.bad;
    MarkedIsLess(job.start.phaseOne, job.bad, now.phaseOne, p.failed, p.indexed);
    FailedRun(p.runs, |p.failed|, p.since, size, job.limit, BadCount(job), |idList|, true);
  }

  lemma LastFileFails(job: Job, now: Books, p: Progress, finishedCount: nat, size: nat, id: Id)
    requires Kept(job, now, p, false, finishedCount, size) && Fetched(now.phaseOne, size, [id]) && id in job.bad
    ensures now.phaseOne - {id} < now.phaseOne
    ensures Kept(job, Marked(now, id), Progress(p.failed + {id}, p.indexed, p.runs + 1, 0), false,
                 finishedCount, job.limit)
  {
    assert id in [id];
    BatchFails(job, now, p, finishedCount, size, [id]);
    FailedRun(p.runs, |p.failed|, p.since, size, job.limit, BadCount(job), 1, (now.phaseOne - {id}) * job.bad != {});
    FileMarked(job, now, p, id);
  }

  class FileContentIndexer {
    const batchSize: nat
    const provider: FileContentIndexerProvider
    var stop: bool

    constructor (batchSize: nat, provider: FileContentIndexerProvider)
      ensures this.batchSize == batchSize && this.provider == provider
    {
      this.batchSize, this.provider, stop := batchSize, provider, false;
    }

    /** Another thread may call quit() at any time. */
    method LoadStop() returns (s: bool)
      modifies this
      ensures s == stop && (old(stop) ==> stop)
    {
      var quit: bool := *;
      stop := stop || quit;
      return stop;
    }

    /**
      Indexes everything in phase one.  However many files are bad, all others are
      indexed and exactly the bad ones are marked, after at most
      |bad| * (floor(log2(batchSize)) + 1) failed runs.
     */
    method Run(bad: set<Id>)
      returns (finishedCount: nat, ghost runs: nat, ghost newlyFailed: set<Id>, ghost newlyIndexed: set<Id>)
      requires batchSize > 0
      modifies this, provider
      ensures provider.failed == old(provider.failed) + newlyFailed
      ensures provider.indexed == old(provider.indexed) + newlyIndexed
      ensures Sorted(old(provider.phaseOne), bad, provider.phaseOne, newlyFailed, newlyIndexed)
      ensures !stop ==> provider.phaseOne == {} && newlyFailed == old(provider.phaseOne) * bad
      ensures !stop ==> newlyIndexed == old(provider.phaseOne) - bad && finishedCount == |newlyIndexed|
      ensures runs <= |old(provider.phaseOne) * bad| * (Log2(batchSize) + 1)
    {
      ghost var p: Progress;
      finishedCount, p := Loop(bad);
      runs, newlyFailed, newlyIndexed := p.runs, p.failed, p.indexed;
      if !stop {
        AllSorted(old(provider.phaseOne), bad, newlyFailed, newlyIndexed);
      }
      AllowanceIsProduct(|old(provider.phaseOne) * bad|, batchSize);
    }

    method Loop(bad: set<Id>) returns (finishedCount: nat, ghost p: Progress)
      requires batchSize > 0
      modifies this, provider
      ensures Stored(Job(old(provider.Now()), bad, batchSize), provider.Now(), p)
      ensures !stop ==> provider.phaseOne == {} && finishedCount == |p.indexed|
      ensures WithinBound(p.runs, batchSize, |old(provider.phaseOne) * bad|)
    {
      stop := false;
      ghost var job := Job(provider.Now(), bad, batchSize);
      var size: nat := batchSize;
      finishedCount := 0;
      p := Progress({}, {}, 0, 0);
      StartSorted(job);
      var more := true;
      while more
        invariant Kept(job, provider.Now(), p, stop, finishedCount, size)
        invariant !more ==> stop || provider.phaseOne == {}
        decreases more, !stop, provider.phaseOne, size
      {
        more, finishedCount, p, size := Turn(bad, job, p, finishedCount, size);
      }
    }

    /** The batch has got smaller, or phase one, or the indexer has been told to stop. */
    ghost predicate Nearer(phaseOne: set<Id>, size: nat, phaseOne': set<Id>, size': nat, stopped: bool) {
      stopped || phaseOne' < phaseOne || (phaseOne' == phaseOne && size' < size)
    }

    /** One turn: the loop ends if there is nothing left or the indexer is told to stop. */
    method Turn(bad: set<Id>, ghost job: Job, ghost p: Progress, finishedCount: nat, size: nat)
      returns (more: bool, finishedCount': nat, ghost p': Progress, size': nat)
      requires job.bad == bad && job.limit == batchSize && Kept(job, provider.Now(), p, stop, finishedCount, size)
      modifies this, provider
      ensures Kept(job, provider.Now(), p', stop, finishedCount', size')
      ensures !more ==> stop || provider.phaseOne == {}
      ensures more ==> !old(stop) && Nearer(old(provider.phaseOne), size, provider.phaseOne, size', stop)
    {
      more, finishedCount', p', size' := false, finishedCount, p, size;
      var idList := provider.Fetch(size);
      var stopped := LoadStop();
      if idList == [] || stopped {
        assert stop || provider.phaseOne == {};
        return;
      }
      finishedCount', p', size' := Batch(idList, bad, job, p, finishedCount, size);
      more := true;
    }

    /** A run of the extractor over one batch and what follows from its outcome. */
    method Batch(idList: seq<Id>, bad: set<Id>, ghost job: Job, ghost p: Progress, finishedCount: nat, ghost size: nat)
      returns (finishedCount': nat, ghost p': Progress, size': nat)
      requires job.bad == bad && job.limit == batchSize && Kept(job, provider.Now(), p, false, finishedCount, size)
      requires Fetched(provider.phaseOne, size, idList) && idList != [] && !stop
      modifies this, provider
      ensures Kept(job, provider.Now(), p', stop, finishedCount', size')
      ensures Nearer(old(provider.phaseOne), size, provider.phaseOne, size', stop)
    {
      p', size' := p, |idList|;
      var batchStartCount := finishedCount;
      ghost var before := provider.Now();
      var hadErrors, finished := provider.Extract(idList, bad);
      finishedCount' := finishedCount + finished;
      var stopped := LoadStop();
      if hadErrors {
        BatchFails(job, before, p, finishedCount, size, idList);
        p' := p.(runs := p.runs + 1);
      } else {
        BatchSucceeds(job, before, p, stopped, finishedCount, size, idList);
        p' := p.(indexed := p.indexed + Elements(idList));
      }
      if hadErrors && !stopped {
        if size' == 1 {
          var failedId := idList[0];
          assert idList == [failedId];
          LastFileFails(job, before, p, finishedCount, size, failedId);
          provider.MarkFailed(failedId);
          p', size' := Progress(p.failed + {failedId}, p.indexed, p.runs + 1, 0), batchSize;
        } else {
          p', size' := p'.(since := p.since + 1), size' / 2;
        }
        finishedCount' := batchStartCount;
      }
    }
  }
}
