/**
  The object that decides which indexer runs next (src/file/fileindexscheduler.cpp,
  src/file/fileindexscheduler.h).
 */
module FileIndexSchedulers {
  import opened Scheduling

  class FileIndexScheduler {
    var newFiles: seq<string>
    var modifiedFiles: seq<string>
    var xattrFiles: seq<string>
    var indexerState: IndexerState
    var checkUnindexed: bool
    var checkStale: bool
    var isGoingIdle: bool
    var isSuspended: bool
    var isFirstRun: bool
    var inStartup: bool
    /** The last state that listeners were told. */
    var announced: IndexerState
    // The power monitor, the provider's count, the thread pool and the event queue.
    var onBattery: bool
    var remaining: nat
    var running: nat
    var posted: nat
    /** What the last runner was given. */
    var handed: seq<string>
    /** The content indexer has been told to stop. */
    var quitting: bool

    ghost function Now(): Snapshot
      reads this
    {
      Snapshot(indexerState, newFiles, modifiedFiles, xattrFiles, checkUnindexed, checkStale, isGoingIdle, isSuspended,
               isFirstRun, inStartup, onBattery, remaining, running, posted)
    }

    ghost function Seen(): Moment
      reads this
    {
      Moment(Now(), announced, handed, quitting)
    }

    ghost predicate Valid()
      reads this
    {
      Sound(Seen())
    }

    constructor (firstRun: bool, onBattery: bool, remaining: nat)
      ensures Valid() && Seen() == Moment(Initially(firstRun, onBattery, remaining), Startup, [], false)
    {
      newFiles, modifiedFiles, xattrFiles, indexerState, announced := [], [], [], Startup, Startup;
      checkUnindexed, checkStale, isGoingIdle, isSuspended, isFirstRun, inStartup := true, true, false, false,
        firstRun, true;
      this.onBattery, this.remaining, running, posted, quitting, handed := onBattery, remaining, 0, 0, false, [];
    }

    /** Between events, idle means that no runner is at work. */
    lemma IdleIsQuiet()
      requires Valid()
      ensures IsIndexerIdle() <==> running == 0
    {
    }

    predicate IsIndexerIdle()
      reads this
    {
      isGoingIdle || indexerState == Suspended || indexerState == Startup || indexerState == Idle ||
      indexerState == LowPowerIdle
    }

    /** A runner starts: the state changes and is announced. */
    method Start(task: IndexerState, files: seq<string>)
      modifies this`indexerState, this`announced, this`running, this`quitting, this`handed
      ensures indexerState == announced == task && running == old(running) + 1 && handed == files
      ensures quitting == (old(quitting) && task != ContentIndexing)
    {
      handed := files;
      running := running + 1;
      quitting := quitting && task != ContentIndexing;
      indexerState := task;
      announced := task;
    }

    method Rest(state: IndexerState)
      requires announced == indexerState
      modifies this`indexerState, this`announced
      ensures indexerState == announced == state
    {
      if indexerState != state {
        indexerState := state;
        announced := state;
      }
    }

    method ScheduleIndexing()
      requires announced == indexerState
      modifies this
      ensures Seen() == Rescheduled(old(Seen()))
    {
      if !IsIndexerIdle() {
        return;
      }
      isGoingIdle := false;
      Choose();
    }

    /** What an idle indexer does next. */
    method Choose()
      requires !isGoingIdle && announced == indexerState
      modifies this`indexerState, this`announced, this`running, this`quitting, this`handed, this`newFiles,
               this`modifiedFiles, this`xattrFiles, this`checkStale, this`checkUnindexed, this`isFirstRun
      ensures Seen() == Taken(old(Seen()))
    {
      if isSuspended {
        Rest(Suspended);
        return;
      }
      if isFirstRun {
        if inStartup {
          return;
        }
        StartFirstRun();
        return;
      }
      ScheduleFiles();
    }

    method StartFirstRun()
      modifies this`indexerState, this`announced, this`running, this`quitting, this`handed, this`checkStale,
               this`checkUnindexed, this`isFirstRun
      ensures announced == indexerState && handed == [] && quitting == old(quitting)
      ensures Now() == old(Now()).(isFirstRun := false, checkStaleIndexEntries := false, checkUnindexedFiles := false,
                                   state := FirstRun, running := old(running) + 1)
    {
      isFirstRun := false;
      checkStale := false;
      checkUnindexed := false;
      Start(FirstRun, []);
    }

    /** The part of scheduleIndexing about queued files. */
    method ScheduleFiles()
      requires !isGoingIdle && !isSuspended && !isFirstRun && announced == indexerState
      modifies this`indexerState, this`announced, this`running, this`quitting, this`handed, this`newFiles,
               this`modifiedFiles, this`xattrFiles, this`checkStale, this`checkUnindexed
      ensures Seen() == Taken(old(Seen()))
    {
      if newFiles != [] {
        Start(NewFiles, newFiles);
        newFiles := [];
        return;
      }
      ScheduleOtherFiles();
    }

    method ScheduleOtherFiles()
      requires !isGoingIdle && !isSuspended && !isFirstRun && announced == indexerState && newFiles == []
      modifies this`indexerState, this`announced, this`running, this`quitting, this`handed, this`modifiedFiles,
               this`xattrFiles, this`checkStale, this`checkUnindexed
      ensures Seen() == Taken(old(Seen()))
    {
      if modifiedFiles != [] {
        Start(ModifiedFiles, modifiedFiles);
        modifiedFiles := [];
        return;
      }
      ScheduleXAttrFiles();
    }

    method ScheduleXAttrFiles()
      requires !isGoingIdle && !isSuspended && !isFirstRun && announced == indexerState
      requires newFiles == modifiedFiles == []
      modifies this`indexerState, this`announced, this`running, this`quitting, this`handed, this`xattrFiles,
               this`checkStale, this`checkUnindexed
      ensures Seen() == Taken(old(Seen()))
    {
      if xattrFiles != [] {
        Start(XAttrFiles, xattrFiles);
        xattrFiles := [];
        return;
      }
      if inStartup {
        Rest(Startup);
        return;
      }
      ScheduleHousekeeping();
    }

    /** The part about checks and content indexing. */
    method ScheduleHousekeeping()
      requires !isGoingIdle && !isSuspended && !isFirstRun && !inStartup && announced == indexerState
      requires newFiles == modifiedFiles == xattrFiles == []
      modifies this`indexerState, this`announced, this`running, this`quitting, this`handed, this`checkStale,
               this`checkUnindexed
      ensures Seen() == Taken(old(Seen()))
    {
      if onBattery {
        Rest(LowPowerIdle);
        return;
      }
      ScheduleChecks();
    }

    method ScheduleChecks()
      requires !isGoingIdle && !isSuspended && !isFirstRun && !inStartup && !onBattery && announced == indexerState
      requires newFiles == modifiedFiles == xattrFiles == []
      modifies this`indexerState, this`announced, this`running, this`quitting, this`handed, this`checkStale,
               this`checkUnindexed
      ensures Seen() == Taken(old(Seen()))
    {
      if checkStale {
        checkStale := false;
        Start(StaleIndexEntriesClean, []);
        return;
      }
      ScheduleContents();
    }

    method ScheduleContents()
      requires !isGoingIdle && !isSuspended && !isFirstRun && !inStartup && !onBattery
      requires newFiles == modifiedFiles == xattrFiles == [] && !checkStale && announced == indexerState
      modifies this`indexerState, this`announced, this`running, this`quitting, this`handed, this`checkUnindexed
      ensures Seen() == Taken(old(Seen()))
    {
      if remaining > 0 {
        Start(ContentIndexing, []);
        return;
      }
      if checkUnindexed {
        checkUnindexed := false;
        Start(UnindexedFileCheck, []);
        return;
      }
      Rest(Idle);
    }

    /** Looks for work after an event. */
    method ScheduleAfter(ghost before: Moment, ghost event: Event)
      requires Sound(before) && Schedules(before.now, event) && Seen() == Arrived(before, event)
      modifies this
      ensures Valid() && Seen() == After(before, event)
    {
      ArrivedAnnounced(before, event);
      AfterIsSound(before, event);
      ScheduleIndexing();
    }

    method Post()
      modifies this`posted
      ensures posted == old(posted) + 1
    {
      posted := posted + 1;
    }

    method IndexNewFile(file: string)
      requires Valid()
      modifies this
      ensures Valid() && Seen() == After(old(Seen()), NewFile(file))
    {
      AfterIsSound(Seen(), NewFile(file));
      if file !in newFiles {
        newFiles := newFiles + [file];
        if IsIndexerIdle() {
          Post();
        }
      }
    }

    method IndexModifiedFile(file: string)
      requires Valid()
      modifies this
      ensures Valid() && Seen() == After(old(Seen()), ModifiedFile(file))
    {
      AfterIsSound(Seen(), ModifiedFile(file));
      if file !in modifiedFiles {
        modifiedFiles := modifiedFiles + [file];
        if IsIndexerIdle() {
          Post();
        }
      }
    }

    method IndexXAttrFile(file: string)
      requires Valid()
      modifies this
      ensures Valid() && Seen() == After(old(Seen()), XAttrFile(file))
    {
      AfterIsSound(Seen(), XAttrFile(file));
      if file !in xattrFiles {
        xattrFiles := xattrFiles + [file];
        if IsIndexerIdle() {
          Post();
        }
      }
    }

    /** A runner is done; it may have left files for content indexing, or finished them. */
    method RunnerFinished(left: nat)
      requires Valid() && running > 0
      modifies this
      ensures Valid() && Seen() == After(old(Seen()), RunnerDone(left))
    {
      AfterIsSound(Seen(), RunnerDone(left));
      running := running - 1;
      remaining := left;
      isGoingIdle := true;
      Post();
    }

    /** The event loop delivers a posted callback. */
    method Callback()
      requires Valid() && posted > 0
      modifies this
      ensures Valid() && Seen() == After(old(Seen()), CallbackDelivered)
    {
      posted := posted - 1;
      ScheduleAfter(old(Seen()), CallbackDelivered);
    }

    method HandleFileRemoved(file: string)
      requires Valid()
      modifies this
      ensures Valid() && Seen() == After(old(Seen()), FileRemoved(file))
    {
      AfterIsSound(Seen(), FileRemoved(file));
      newFiles := WithoutFile(newFiles, file);
      modifiedFiles := WithoutFile(modifiedFiles, file);
      xattrFiles := WithoutFile(xattrFiles, file);
    }

    /** FileContentIndexer::quit, asked of whatever content indexer is at work. */
    method Quit()
      modifies this`quitting
      ensures quitting
    {
      quitting := true;
    }

    method UpdateConfig(shouldBeIndexed: string -> bool)
      requires Valid()
      modifies this
      ensures Valid() && Seen() == After(old(Seen()), ConfigChanged(shouldBeIndexed))
      ensures old(indexerState) == ContentIndexing ==> quitting
    {
      QuitsWhen(Seen(), ConfigChanged(shouldBeIndexed));
      if indexerState == ContentIndexing {
        Quit();
      }
      Reconfigure(shouldBeIndexed);
      ScheduleAfter(old(Seen()), ConfigChanged(shouldBeIndexed));
    }

    method Reconfigure(shouldBeIndexed: string -> bool)
      requires CleanQueues(Now())
      modifies this`newFiles, this`modifiedFiles, this`xattrFiles, this`checkStale, this`checkUnindexed
      ensures Now() == Reconfigured(old(Now()), shouldBeIndexed) && CleanQueues(Now())
    {
      FilterQueues(shouldBeIndexed);
      checkStale := true;
      checkUnindexed := true;
    }

    /** removeShouldNotIndex on the three queues. */
    method FilterQueues(keep: string -> bool)
      requires CleanQueues(Now())
      modifies this`newFiles, this`modifiedFiles, this`xattrFiles
      ensures newFiles == Keep(old(newFiles), keep) && modifiedFiles == Keep(old(modifiedFiles), keep) &&
        xattrFiles == Keep(old(xattrFiles), keep)
      ensures CleanQueues(Now())
    {
      newFiles := Keep(newFiles, keep);
      modifiedFiles := Keep(modifiedFiles, keep);
      xattrFiles := Keep(xattrFiles, keep);
    }

    method StartupFinished()
      requires Valid()
      modifies this
      ensures Valid() && Seen() == After(old(Seen()), StartedUp)
    {
      AfterIsSound(Seen(), StartedUp);
      inStartup := false;
      Post();
    }

    /** The power monitor has noticed a change and tells. */
    method PowerManagementStatusChanged(isOnBattery: bool)
      requires Valid()
      modifies this
      ensures Valid() && Seen() == After(old(Seen()), PowerChanged(isOnBattery)) && onBattery == isOnBattery
      ensures isOnBattery && old(indexerState) == ContentIndexing ==> quitting && indexerState == ContentIndexing
      ensures !isOnBattery && quitting ==> old(quitting)
    {
      PowerMeans(Seen(), isOnBattery);
      onBattery := isOnBattery;
      if isOnBattery && indexerState == ContentIndexing {
        Quit();
        AfterIsSound(old(Seen()), PowerChanged(isOnBattery));
      } else {
        ScheduleAfter(old(Seen()), PowerChanged(isOnBattery));
      }
    }

    method SetSuspend(suspend: bool)
      requires Valid()
      modifies this
      ensures Valid() && Seen() == After(old(Seen()), SuspendSet(suspend)) && isSuspended == suspend
      ensures suspend && old(indexerState) == ContentIndexing ==> quitting && indexerState == ContentIndexing
      ensures !suspend && quitting ==> old(quitting)
    {
      SuspendMeans(Seen(), suspend);
      isSuspended := suspend;
      if suspend && indexerState == ContentIndexing {
        Quit();
        AfterIsSound(old(Seen()), SuspendSet(suspend));
      } else {
        ScheduleAfter(old(Seen()), SuspendSet(suspend));
      }
    }

    method CheckUnindexedFiles()
      requires Valid()
      modifies this
      ensures Valid() && Seen() == After(old(Seen()), UnindexedCheck)
    {
      checkUnindexed := true;
      ScheduleAfter(old(Seen()), UnindexedCheck);
    }

    method CheckStaleIndexEntries()
      requires Valid()
      modifies this
      ensures Valid() && Seen() == After(old(Seen()), StaleCheck)
    {
      checkStale := true;
      ScheduleAfter(old(Seen()), StaleCheck);
    }

    /** Any event, in any order; one that cannot occur now does not. */
    method Deliver(event: Event)
      requires Valid()
      modifies this
      ensures Valid() && Seen() == After(old(Seen()), event)
    {
      match event
      case NewFile(file) => IndexNewFile(file);
      case ModifiedFile(file) => IndexModifiedFile(file);
      case XAttrFile(file) => IndexXAttrFile(file);
      case FileRemoved(file) => HandleFileRemoved(file);
      case RunnerDone(left) =>
        if running > 0 {
          RunnerFinished(left);
        }
      case CallbackDelivered =>
        if posted > 0 {
          Callback();
        }
      case ConfigChanged(shouldBeIndexed) => UpdateConfig(shouldBeIndexed);
      case StartedUp => StartupFinished();
      case PowerChanged(battery) => PowerManagementStatusChanged(battery);
      case SuspendSet(suspend) => SetSuspend(suspend);
      case UnindexedCheck => CheckUnindexedFiles();
      case StaleCheck => CheckStaleIndexEntries();
      case WatchesInstalled => ScheduleAfter(old(Seen()), WatchesInstalled);
    }

    /**
      When events stop coming, the runners finish and the callbacks are delivered, all work
      that is due gets done: the indexer comes to rest with no work due.  A runner may
      leave any number of files for content indexing; content indexing itself leaves none.
     */
    method Settle()
      requires Valid()
      modifies this
      ensures Valid() && running == 0 && posted == 0 && !WorkDue(Now()) && RestingState(indexerState)
      ensures isSuspended == old(isSuspended) && inStartup == old(inStartup) && onBattery == old(onBattery)
    {
      while running > 0 || posted > 0
        invariant Valid()
        invariant isSuspended == old(isSuspended) && inStartup == old(inStartup) && onBattery == old(onBattery)
        decreases Rank(Now()), posted
      {
        Progress();
      }
      QuietIsDone(Now());
    }

    /** One more event of those still outstanding. */
    method Progress()
      requires Valid() && (running > 0 || posted > 0)
      modifies this
      ensures Valid() && Closer(Now(), old(Now()))
    {
      if posted > 0 {
        DeliveryIsCloser(Now(), Now().(posted := posted - 1));
        Callback();
      } else {
        FinishRunner();
      }
    }

    /** The runner at work gets done. */
    method FinishRunner()
      requires Valid() && running > 0
      modifies this
      ensures Valid() && Closer(Now(), old(Now()))
    {
      var left: nat := *;
      if indexerState == ContentIndexing {
        left := 0;
      }
      FinishingIsCloser(Now(), left);
      RunnerFinished(left);
    }
  }

  /** Whatever happens, and in whatever order, every state on the way is a good one. */
  method Run(firstRun: bool, onBattery: bool, remaining: nat, events: seq<Event>)
    returns (scheduler: FileIndexScheduler, ghost h: seq<Moment>)
    ensures fresh(scheduler) && scheduler.Valid() && History(h, events) && h[|events|] == scheduler.Seen()
    ensures h[0] == Moment(Initially(firstRun, onBattery, remaining), Startup, [], false)
  {
    scheduler := new FileIndexScheduler(firstRun, onBattery, remaining);
    h := RunOn(scheduler, events);
  }

  method RunOn(scheduler: FileIndexScheduler, events: seq<Event>) returns (ghost h: seq<Moment>)
    requires scheduler.Valid()
    modifies scheduler
    ensures scheduler.Valid() && History(h, events) && h[0] == old(scheduler.Seen())
    ensures h[|events|] == scheduler.Seen()
  {
    h := [scheduler.Seen()];
    for i := 0 to |events|
      invariant |h| == i + 1 && h[i] == scheduler.Seen() && h[0] == old(scheduler.Seen())
      invariant scheduler.Valid() && Recorded(h, events)
    {
      scheduler.Deliver(events[i]);
      RecordNext(h, events, scheduler.Seen());
      h := h + [scheduler.Seen()];
    }
  }
}
