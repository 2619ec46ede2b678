/**
  The queue that debounces file events (src/file/pendingfilequeue.cpp).
 */
module PendingFileQueues {
  import opened Paths
  import opened Debouncing

  class PendingFileQueue {
    const delays: Delays
    var cache: seq<PendingFile>
    var pendingFiles: map<string, nat>
    var recentlyEmitted: map<string, nat>
    /** When each of the three timers fires next. */
    var cacheTimer: Option<nat>
    var pendingFilesTimer: Option<nat>
    var clearTimer: Option<nat>
    ghost var log: seq<Entry>
    /**
      The paths with a change of contents that has been neither acted upon nor retracted;
      one that is still cached when an earlier one is sent stays.
     */
    ghost var unserved: set<string>
    /** The time of the event at hand. */
    var clock: nat

    ghost function Now(): State
      reads this`pendingFiles, this`recentlyEmitted, this`log, this`clock
    {
      State(pendingFiles, recentlyEmitted, log, clock)
    }

    ghost function Seen(): Moment
      reads this
    {
      Moment(cache, Now(), unserved, cacheTimer, pendingFilesTimer, clearTimer)
    }

    ghost predicate Valid()
      reads this
    {
      Sound(delays, Seen())
    }

    constructor (delays: Delays)
      requires delays.minTimeout <= delays.maxTimeout
      ensures Valid() && this.delays == delays
      ensures Seen() == Moment([], State(map[], map[], [], 0), {}, None, None, None)
    {
      this.delays := delays;
      cache, pendingFiles, recentlyEmitted := [], map[], map[];
      cacheTimer, pendingFilesTimer, clearTimer := None, None, None;
      log, unserved, clock := [], {}, 0;
    }

    /**
      An event for a path.  A change waits in the cache; a removal retracts what is cached
      and is passed on at once.
     */
    method Enqueue(file: PendingFile, now: nat)
      requires Valid() && clock <= now && Relevant(file)
      modifies this
      ensures Valid() && Seen() == Taken(At(old(Seen()), now), file)
    {
      Tick(now);
      if file.deleted {
        EnqueueRemoval(file.path);
        return;
      }
      AddToCache(file);
    }

    method EnqueueRemoval(path: string)
      requires Valid()
      modifies this`cache, this`pendingFiles, this`recentlyEmitted, this`log, this`unserved
      ensures Valid() && cache == AfterRemoval(old(cache), path)
      ensures unserved == old(unserved) - Retracted(old(cache), path)
      ensures Now() == Removed(old(cache), path, old(Now()))
    {
      ghost var before, waiting := cache, unserved;
      DropIfDirectory(path);
      assert unserved - {path} == waiting - Retracted(before, path);
      RemovePath(path);
    }

    method DropIfDirectory(path: string)
      requires Valid()
      modifies this`cache, this`pendingFiles, this`recentlyEmitted, this`log, this`unserved
      ensures Valid() && cache == if EndsWithSlash(path) then KeptFiles(old(cache), path) else old(cache)
      ensures unserved == old(unserved) - AlsoBelow(old(cache), path)
      ensures Now() == if EndsWithSlash(path) then ForgottenBelow(old(cache), path, old(Now())) else old(Now())
    {
      if EndsWithSlash(path) {
        DropBelow(path);
      }
    }

    /** Time has passed since the last event. */
    method Tick(now: nat)
      requires Valid() && clock <= now
      modifies this`clock
      ensures Valid() && Seen() == At(old(Seen()), now)
    {
      LaterIsGood(delays, Now(), now);
      clock := now;
    }

    method AddToCache(file: PendingFile)
      requires Valid() && Relevant(file) && !file.deleted
      modifies this`cache, this`cacheTimer, this`unserved
      ensures Valid() && Seen() == Taken(old(Seen()), file)
    {
      AddedIsCached(cache, file);
      unserved := unserved + Change(file);
      cache := Added(cache, file);
      cacheTimer := Some(clock + CACHE_INTERVAL);
    }

    /** The cached files below a directory are dropped, with their deadlines and records. */
    method DropBelow(dir: string)
      requires Valid()
      modifies this`cache, this`pendingFiles, this`recentlyEmitted, this`log, this`unserved
      ensures Valid() && cache == KeptFiles(old(cache), dir) && unserved == old(unserved) - Below(old(cache), dir)
      ensures Now() == ForgottenBelow(old(cache), dir, old(Now()))
    {
      ForgetBelow(dir);
      DropKeepsSound(delays, old(Seen()), dir);
      unserved := unserved - Below(cache, dir);
      cache := KeptFiles(cache, dir);
    }

    method ForgetBelow(dir: string)
      requires Tidy(delays, Now())
      modifies this`pendingFiles, this`recentlyEmitted, this`log
      ensures Tidy(delays, Now()) && Now() == ForgottenBelow(cache, dir, old(Now()))
    {
      for i := 0 to |cache|
        invariant Tidy(delays, Now()) && Now() == ForgottenBelow(cache[..i], dir, old(Now()))
      {
        ForgottenNext(cache, i, dir, old(Now()));
        if dir <= cache[i].path {
          ForgetPath(cache[i].path);
        }
      }
      assert cache[..|cache|] == cache;
    }

    method ForgetPath(path: string)
      requires Tidy(delays, Now())
      modifies this`pendingFiles, this`recentlyEmitted, this`log
      ensures Tidy(delays, Now()) && Now() == Forget(old(Now()), path)
    {
      ForgetIsGood(delays, Now(), path);
      pendingFiles := pendingFiles - {path};
      recentlyEmitted := recentlyEmitted - {path};
      log := log + [Forgotten(path)];
    }

    /** A path is removed from the index. */
    method RemovePath(path: string)
      requires Valid()
      modifies this`cache, this`pendingFiles, this`log, this`unserved
      ensures Valid() && cache == Dropped(old(cache), path) && unserved == old(unserved) - {path}
      ensures pendingFiles == old(pendingFiles) - {path} && log == old(log) + [RemovalEmitted(path)]
    {
      DroppedIsCached(cache, path);
      DropIsGood(delays, Now(), path);
      NoteIsGood(delays, Now().(pending := pendingFiles - {path}), RemovalEmitted(path));
      cache := Dropped(cache, path);
      pendingFiles := pendingFiles - {path};
      log := log + [RemovalEmitted(path)];
      unserved := unserved - {path};
    }

    /** Makes sure that the records will be looked at again. */
    method ArmClearTimer()
      modifies this`clearTimer
      ensures clearTimer == StartedAt(old(clearTimer), recentlyEmitted != map[], clock + delays.trackingTime)
    {
      if recentlyEmitted != map[] && clearTimer.None? {
        clearTimer := Some(clock + delays.trackingTime);
      }
    }

    /** A change of contents is sent for indexing. */
    method Emit(path: string, isNew: bool)
      requires Tidy(delays, Now())
      requires if path in pendingFiles then pendingFiles[path] <= clock else path !in recentlyEmitted
      modifies this`pendingFiles, this`recentlyEmitted, this`log, this`unserved
      ensures Tidy(delays, Now()) && Now() == Sent(old(Now()), path, isNew) && unserved == old(unserved) - {path}
    {
      EmitIsGood(delays, Now(), path, isNew);
      log := log + [Emitted(path, clock, isNew)];
      pendingFiles := pendingFiles - {path};
      recentlyEmitted := recentlyEmitted[path := clock];
      unserved := unserved - {path};
    }

    /**
      One cached file: attribute changes are sent on, contents are sent unless they were
      sent recently, and put off otherwise.
     */
    method ProcessFile(file: PendingFile)
      requires Tidy(delays, Now()) && (file.ShouldIndexContents() || file.attributesChanged)
      modifies this`pendingFiles, this`recentlyEmitted, this`log, this`unserved
      ensures Tidy(delays, Now()) && Now() == After(delays, old(Now()), file)
      ensures unserved == old(unserved) - if file.path !in pendingFiles then Change(file) else {}
    {
      assert unserved - {} == unserved;
      if file.ShouldIndexXAttrOnly() {
        NoteIsGood(delays, Now(), XAttrEmitted(file.path));
        log := log + [XAttrEmitted(file.path)];
      } else if file.path in pendingFiles {
        var msecondsLeft := pendingFiles[file.path] - clock;
        Postpone(file.path, clock + Bound(delays.minTimeout, msecondsLeft * 2, delays.maxTimeout));
      } else if file.path in recentlyEmitted {
        Postpone(file.path, clock + delays.minTimeout);
      } else {
        assert pendingFiles - {file.path} == pendingFiles;
        Emit(file.path, file.created);
      }
    }

    method Postpone(path: string, deadline: nat)
      requires Tidy(delays, Now()) && clock + delays.minTimeout <= deadline <= clock + delays.maxTimeout
      modifies this`pendingFiles
      ensures Tidy(delays, Now()) && Now() == PutOff(old(Now()), path, deadline)
    {
      PostponeIsGood(delays, Now(), path, deadline);
      pendingFiles := pendingFiles[path := deadline];
    }

    /**
      The cache timer fires.  Every cached change of contents is sent now or has a
      deadline between the two timeouts from now, with the timer running, and every change
      of attributes alone is sent; nothing else that waits is touched, and nothing is lost.
     */
    method ProcessCache(now: nat)
      requires Valid() && clock <= now
      modifies this
      ensures Valid() && CacheProcessed(delays, At(old(Seen()), now), Seen())
      ensures DeadlinesSet(delays, old(cache), old(Now()).(now := now), Now())
      ensures pendingFiles != map[] && old(pendingFilesTimer).None? ==>
        pendingFilesTimer == Some(now + delays.minTimeout)
      ensures forall j :: 0 <= j < |old(cache)| ==> NotLost(delays, old(cache)[j], Now())
    {
      Tick(now);
      ghost var files, before := cache, Now();
      ProcessAll();
      NothingLost(delays, files, before, Now());
      ProcessedSets(delays, files, before, Now());
      ArmPendingFilesTimer();
      ArmClearTimer();
    }

    /** Makes sure that the deadlines will be looked at. */
    method ArmPendingFilesTimer()
      modifies this`pendingFilesTimer
      ensures pendingFilesTimer == StartedAt(old(pendingFilesTimer), pendingFiles != map[], clock + delays.minTimeout)
    {
      if pendingFiles != map[] && pendingFilesTimer.None? {
        pendingFilesTimer := Some(clock + delays.minTimeout);
      }
    }

    /** All cached files, after which none is left. */
    method ProcessAll()
      requires Good(delays, cache, Now(), unserved)
      modifies this`cache, this`cacheTimer, this`pendingFiles, this`recentlyEmitted, this`log, this`unserved
      ensures Good(delays, cache, Now(), unserved) && unserved == pendingFiles.Keys && cache == [] && cacheTimer.None?
      ensures Processed(delays, old(cache), |old(cache)|, old(Now()), Now())
    {
      ProcessFiles();
      EmptyCacheIsGood(delays, Now());
      cacheTimer := None;
      cache := [];
    }

    method ProcessFiles()
      requires Good(delays, cache, Now(), unserved)
      modifies this`pendingFiles, this`recentlyEmitted, this`log, this`unserved
      ensures Tidy(delays, Now()) && unserved == pendingFiles.Keys
      ensures Processed(delays, cache, |cache|, old(Now()), Now())
    {
      assert cache[0..] == cache;
      for i := 0 to |cache|
        invariant Tidy(delays, Now()) && unserved == pendingFiles.Keys + ContentPaths(cache[i..])
        invariant Processed(delays, cache, i, old(Now()), Now())
      {
        ghost var before, waiting := Now(), unserved;
        assert cache[i] in cache;
        ProcessFile(cache[i]);
        ServedStep(cache, i, before.pending.Keys, pendingFiles.Keys, waiting, unserved);
        ProcessedStep(delays, cache, i, old(Now()), before, Now());
      }
    }

    /**
      The timer of the deadlines fires: what is due is sent, and the timer runs on until
      the next deadline.
     */
    method ProcessPendingFiles(now: nat)
      requires Valid() && clock <= now
      modifies this
      ensures Valid() && DeadlinesServed(delays, At(old(Seen()), now), Seen())
      ensures forall p :: p in pendingFiles <==> p in old(pendingFiles) && old(pendingFiles)[p] > now
    {
      Tick(now);
      ServeDeadlines();
      ArmClearTimer();
    }

    method ServeDeadlines()
      requires Good(delays, cache, Now(), unserved)
      modifies this`pendingFilesTimer, this`pendingFiles, this`recentlyEmitted, this`log, this`unserved
      ensures Good(delays, cache, Now(), unserved)
      ensures exists nextUpdate :: Serving(delays, old(Now()), {}, Now(), nextUpdate)
      ensures Restarted(pendingFilesTimer, pendingFiles)
      ensures pendingFilesTimer.Some? ==> pendingFilesTimer.value <= clock + delays.maxTimeout
    {
      pendingFilesTimer := None;
      var nextUpdate := EmitDue();
      if pendingFiles != map[] {
        pendingFilesTimer := Some(clock + nextUpdate);
      }
    }

    method EmitDue() returns (nextUpdate: nat)
      requires Good(delays, cache, Now(), unserved)
      modifies this`pendingFiles, this`recentlyEmitted, this`log, this`unserved
      ensures Good(delays, cache, Now(), unserved) && Serving(delays, old(Now()), {}, Now(), nextUpdate)
    {
      nextUpdate := delays.maxTimeout;
      var rest := pendingFiles.Keys;
      ServingStarts(delays, Now());
      while rest != {}
        invariant Good(delays, cache, Now(), unserved) && Serving(delays, old(Now()), rest, Now(), nextUpdate)
        decreases rest
      {
        var p :| p in rest;
        assert Tracked(delays, Now(), p);
        if pendingFiles[p] <= clock {
          SentIsServed(delays, old(Now()), rest, Now(), nextUpdate, p);
          EmitOverdue(p);
        } else {
          var left := pendingFiles[p] - clock;
          KeptIsServed(delays, old(Now()), rest, Now(), nextUpdate, p);
          nextUpdate := if left < nextUpdate then left else nextUpdate;
        }
        rest := rest - {p};
      }
    }

    method EmitOverdue(p: string)
      requires Good(delays, cache, Now(), unserved) && p in pendingFiles && pendingFiles[p] <= clock
      modifies this`pendingFiles, this`recentlyEmitted, this`log, this`unserved
      ensures Good(delays, cache, Now(), unserved) && Now() == Sent(old(Now()), p, false)
    {
      Emit(p, false);
      // A change of contents that is still in the cache goes on waiting there.
      unserved := unserved + ({p} * ContentPaths(cache));
    }

    /**
      The timer of the records fires: those old enough are forgotten, and the timer runs
      on while any are left.
     */
    method ClearRecentlyEmitted(now: nat)
      requires Valid() && clock <= now
      modifies this
      ensures Valid() && RecordsCleared(delays, At(old(Seen()), now), Seen())
      ensures forall p :: p in recentlyEmitted <==>
        p in old(recentlyEmitted) && now - old(recentlyEmitted)[p] < delays.trackingTime
    {
      Tick(now);
      clearTimer := None;
      var nextUpdate := Purge();
      if recentlyEmitted != map[] {
        clearTimer := Some(now + nextUpdate);
      }
    }

    method Purge() returns (nextUpdate: nat)
      requires Tidy(delays, Now())
      modifies this`recentlyEmitted
      ensures Tidy(delays, Now()) && Clearing(delays, old(Now()), {}, Now(), nextUpdate)
    {
      nextUpdate := delays.trackingTime;
      var rest := recentlyEmitted.Keys;
      ClearingStarts(delays, Now());
      while rest != {}
        invariant Tidy(delays, Now()) && Clearing(delays, old(Now()), rest, Now(), nextUpdate)
        decreases rest
      {
        var p :| p in rest;
        assert Tracked(delays, Now(), p);
        var msecondsSinceEmitted := clock - recentlyEmitted[p];
        if msecondsSinceEmitted >= delays.trackingTime {
          PurgeIsGood(delays, Now(), p);
          OldIsCleared(delays, old(Now()), rest, Now(), nextUpdate, p);
          recentlyEmitted := recentlyEmitted - {p};
        } else {
          RecentIsKept(delays, old(Now()), rest, Now(), nextUpdate, p);
          if delays.trackingTime - msecondsSinceEmitted < nextUpdate {
            nextUpdate := delays.trackingTime - msecondsSinceEmitted;
          }
        }
        rest := rest - {p};
      }
    }

    /** Any event, in any order, some time after the one before. */
    method Deliver(delay: nat, event: Event)
      requires Valid()
      modifies this
      ensures Valid() && Next(delays, old(Seen()), (delay, event), Seen())
    {
      match event
      case Enqueued(file) =>
        if Relevant(file) {
          Enqueue(file, clock + delay);
        }
      case CacheTimer => ProcessCache(clock + delay);
      case PendingFilesTimer => ProcessPendingFiles(clock + delay);
      case ClearTimer => ClearRecentlyEmitted(clock + delay);
    }

    /** A timer that runs fires, in time or late. */
    method FireTimer() returns (delay: nat, event: Event)
      requires Valid() && (cacheTimer.Some? || pendingFilesTimer.Some? || clearTimer.Some?)
      modifies this
      ensures Valid() && Next(delays, old(Seen()), (delay, event), Seen())
      ensures Fires(old(Seen()), (delay, event)) && Closer(delays, Seen(), old(Seen()))
    {
      delay, event := AnyTimer();
      Deliver(delay, event);
      FiringIsCloser(delays, old(Seen()), (delay, event), Seen());
    }

    method AnyTimer() returns (delay: nat, event: Event)
      requires cacheTimer.Some? || pendingFilesTimer.Some? || clearTimer.Some?
      ensures Fires(Seen(), (delay, event))
    {
      if
      case cacheTimer.Some? =>
        event := CacheTimer;
        delay := AnyDelay(cacheTimer.value);
      case pendingFilesTimer.Some? =>
        event := PendingFilesTimer;
        delay := AnyDelay(pendingFilesTimer.value);
      case clearTimer.Some? =>
        event := ClearTimer;
        delay := AnyDelay(clearTimer.value);
    }

    method AnyDelay(time: nat) returns (delay: nat)
      ensures time <= clock + delay
    {
      assert time <= clock + time;
      delay :| time <= clock + delay;
    }

    /**
      When events stop coming and timers fire, in whatever order and however late, every
      change that waits is sent and the queue comes to rest: nothing is cached, pending or
      remembered, and no timer runs.
     */
    method Settle() returns (ghost h: seq<Moment>, ghost events: seq<(nat, Event)>)
      requires Valid()
      modifies this
      ensures Valid() && Firings(delays, h, events) && h[0] == old(Seen()) && h[|events|] == Seen()
      ensures Seen() == Moment([], State(map[], map[], log, clock), {}, None, None, None)
      ensures forall p :: p in old(unserved) ==> exists j: nat :: j < |events| && SendsAt(h, j, p)
    {
      h, events := [Seen()], [];
      while cacheTimer.Some? || pendingFilesTimer.Some? || clearTimer.Some?
        invariant Valid() && Firings(delays, h, events) && h[0] == old(Seen()) && h[|events|] == Seen()
        decreases cacheTimer.Some?, pendingFiles.Keys, Wait(pendingFilesTimer, pendingFiles),
                  recentlyEmitted.Keys, Wait(clearTimer, Expiries(delays, recentlyEmitted))
      {
        var delay, event := FireTimer();
        FiringsNext(delays, h, events, (delay, event), Seen());
        h, events := h + [Seen()], events + [(delay, event)];
      }
      QuietIsEmpty(delays, Seen());
      AllWaitingSent(delays, h, events);
    }
  }

  /** Whatever happens when: every state on the way is a good one, and follows from the one before by its event. */
  method Run(delays: Delays, events: seq<(nat, Event)>) returns (queue: PendingFileQueue, ghost h: seq<Moment>)
    requires delays.minTimeout <= delays.maxTimeout
    ensures fresh(queue) && queue.Valid() && queue.delays == delays
    ensures History(delays, h, events) && h[|events|] == queue.Seen()
    ensures h[0] == Moment([], State(map[], map[], [], 0), {}, None, None, None)
  {
    queue := new PendingFileQueue(delays);
    h := RunOn(queue, events);
  }

  method RunOn(queue: PendingFileQueue, events: seq<(nat, Event)>) returns (ghost h: seq<Moment>)
    requires queue.Valid()
    modifies queue
    ensures queue.Valid() && History(queue.delays, h, events)
    ensures h[0] == old(queue.Seen()) && h[|events|] == queue.Seen()
  {
    h := [queue.Seen()];
    for i := 0 to |events|
      invariant |h| == i + 1 && h[i] == queue.Seen() && h[0] == old(queue.Seen())
      invariant queue.Valid() && Recorded(queue.delays, h, events)
    {
      queue.Deliver(events[i].0, events[i].1);
      RecordNext(queue.delays, h, events, queue.Seen());
      h := h + [queue.Seen()];
    }
  }
}
