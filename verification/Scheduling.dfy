/**
  What each event means to the scheduler of src/file/fileindexscheduler.cpp, on values: the
  states it goes through and what they keep.  Runners live in a pool of threads, callbacks
  in an event queue: `running` counts the runners started whose `done` has not arrived yet,
  `posted` the zero-timeout callbacks that have not been delivered yet.
 */
module Scheduling {
  import opened Sequences
  import opened Paths
  datatype IndexerState =
    Idle | Suspended | FirstRun | NewFiles | ModifiedFiles | XAttrFiles | ContentIndexing |
    UnindexedFileCheck | StaleIndexEntriesClean | LowPowerIdle | Startup

  /** Everything the scheduler's decisions depend on, and what surrounds it. */
  datatype Snapshot = Snapshot(
    state: IndexerState, newFiles: seq<string>, modifiedFiles: seq<string>, xattrFiles: seq<string>,
    checkUnindexedFiles: bool, checkStaleIndexEntries: bool, isGoingIdle: bool, isSuspended: bool,
    isFirstRun: bool, inStartup: bool, onBattery: bool, remaining: nat, running: nat, posted: nat)

  predicate RestingState(s: IndexerState) {
    s == Suspended || s == Startup || s == Idle || s == LowPowerIdle
  }

  ghost predicate IndexerIdle(s: Snapshot) {
    s.isGoingIdle || RestingState(s.state)
  }

  /** Checks and content indexing, which wait for startup to be over and for mains power. */
  ghost predicate HousekeepingDue(s: Snapshot) {
    !s.inStartup && !s.onBattery && (s.checkStaleIndexEntries || s.remaining > 0 || s.checkUnindexedFiles)
  }

  /** There is something to do that neither suspension nor the wait for the first run holds back. */
  ghost predicate WorkDue(s: Snapshot) {
    !s.isSuspended && !(s.isFirstRun && s.inStartup) &&
    (s.isFirstRun || s.newFiles != [] || s.modifiedFiles != [] || s.xattrFiles != [] || HousekeepingDue(s))
  }

  /** The order in which work is taken up. */
  ghost function NextTask(s: Snapshot): IndexerState
    requires WorkDue(s)
  {
    if s.isFirstRun then FirstRun
    else if s.newFiles != [] then NewFiles
    else if s.modifiedFiles != [] then ModifiedFiles
    else if s.xattrFiles != [] then XAttrFiles
    else if s.checkStaleIndexEntries then StaleIndexEntriesClean
    else if s.remaining > 0 then ContentIndexing
    else UnindexedFileCheck
  }

  /** What is shown while there is nothing to run. */
  ghost function RestState(s: Snapshot): IndexerState {
    if s.isSuspended then Suspended
    else if s.isFirstRun then s.state
    else if s.inStartup then Startup
    else if s.onBattery then LowPowerIdle
    else Idle
  }

  /** What taking up a task removes from the work still to be done. */
  ghost function WithoutTask(s: Snapshot, task: IndexerState): Snapshot {
    match task
    case FirstRun => s.(isFirstRun := false, checkStaleIndexEntries := false, checkUnindexedFiles := false)
    case NewFiles => s.(newFiles := [])
    case ModifiedFiles => s.(modifiedFiles := [])
    case XAttrFiles => s.(xattrFiles := [])
    case StaleIndexEntriesClean => s.(checkStaleIndexEntries := false)
    case UnindexedFileCheck => s.(checkUnindexedFiles := false)
    case _ => s
  }

  /** The files that the runner for a task is given. */
  ghost function FilesFor(s: Snapshot, task: IndexerState): seq<string> {
    match task
    case NewFiles => s.newFiles
    case ModifiedFiles => s.modifiedFiles
    case XAttrFiles => s.xattrFiles
    case _ => []
  }

  /** At most one runner, and no busy state without one. */
  ghost predicate OneRunner(s: Snapshot) {
    s.running <= 1 && (s.running == 1 <==> !IndexerIdle(s)) &&
    (s.isFirstRun ==> RestingState(s.state) && !s.isGoingIdle)
  }

  /** No work is left lying about: somebody is at it, or a callback will look. */
  ghost predicate NothingStranded(s: Snapshot) {
    WorkDue(s) ==> s.running == 1 || s.posted > 0
  }

  /** What holds between events: in particular a runner that is done has left a callback behind. */
  ghost predicate Good(s: Snapshot) {
    OneRunner(s) && NothingStranded(s) && (s.isGoingIdle ==> s.posted > 0) && CleanQueues(s)
  }

  /** No file is queued twice for the same. */
  ghost predicate CleanQueues(s: Snapshot) {
    NoRepeats(s.newFiles) && NoRepeats(s.modifiedFiles) && NoRepeats(s.xattrFiles)
  }

  /** What scheduleIndexing does: nothing unless the indexer is idle, then the first task due, or rest. */
  ghost function Scheduled(s: Snapshot): Snapshot {
    if IndexerIdle(s) then Chosen(s.(isGoingIdle := false)) else s
  }

  ghost function Chosen(s: Snapshot): Snapshot {
    if WorkDue(s) then WithoutTask(s, NextTask(s)).(state := NextTask(s), running := s.running + 1)
    else s.(state := RestState(s))
  }

  /** After it nothing is stranded, even if no callback is pending; it starts a runner only when there is none. */
  lemma ScheduledIsGood(s: Snapshot)
    requires OneRunner(s) && CleanQueues(s)
    ensures Good(Scheduled(s))
    ensures WorkDue(Scheduled(s)) ==> Scheduled(s).running == 1
  {
    if IndexerIdle(s) {
      ChosenIsGood(s.(isGoingIdle := false));
    }
  }

  lemma ChosenIsGood(s: Snapshot)
    requires !s.isGoingIdle && s.running == 0 && CleanQueues(s)
    requires s.isFirstRun ==> RestingState(s.state)
    ensures Good(Chosen(s))
    ensures WorkDue(Chosen(s)) ==> Chosen(s).running == 1
  {
    if WorkDue(s) {
      TaskIsGood(s, NextTask(s));
    } else {
      RestIsGood(s);
    }
  }

  lemma TaskIsGood(s: Snapshot, task: IndexerState)
    requires !s.isGoingIdle && s.running == 0 && CleanQueues(s)
    requires WorkDue(s) && task == NextTask(s)
    ensures Good(WithoutTask(s, task).(state := task, running := s.running + 1))
  {
    TaskKeeps(s, task);
    TaskCleans(s, task);
  }

  lemma TaskCleans(s: Snapshot, task: IndexerState)
    requires CleanQueues(s)
    ensures CleanQueues(WithoutTask(s, task))
  {
  }

  lemma RestIsGood(s: Snapshot)
    requires !s.isGoingIdle && s.running == 0 && CleanQueues(s) && !WorkDue(s)
    requires s.isFirstRun ==> RestingState(s.state)
    ensures Good(s.(state := RestState(s))) && !WorkDue(s.(state := RestState(s)))
  {
  }

  /** How far content indexing still is from having nothing left: other runners may add files for it. */
  ghost function ContentStage(s: Snapshot): nat {
    if s.running > 0 then (if s.state == ContentIndexing then 1 else 3) else if s.remaining > 0 then 2 else 0
  }

  function Count(due: bool): nat {
    if due then 1 else 0
  }

  /** The work that is still to be started, with the part of content indexing. */
  ghost function Rank(s: Snapshot): nat {
    4 * (Count(s.isFirstRun) + Count(s.newFiles != []) + Count(s.modifiedFiles != []) + Count(s.xattrFiles != []) +
         Count(s.checkStaleIndexEntries) + Count(s.checkUnindexedFiles)) +
    ContentStage(s)
  }

  /** Scheduling never raises the rank. */
  lemma SchedulingRank(s: Snapshot)
    requires OneRunner(s)
    ensures Rank(Scheduled(s)) <= Rank(s)
  {
    if IndexerIdle(s) {
      var r := s.(isGoingIdle := false);
      assert Rank(r) == Rank(s);
      if WorkDue(r) {
        TaskRank(r);
      } else {
        RestRank(r);
      }
    }
  }

  lemma RestRank(s: Snapshot)
    requires !WorkDue(s) && s.running == 0
    ensures Rank(Chosen(s)) == Rank(s)
  {
  }

  /** One step closer to rest, with nothing changed from outside. */
  ghost predicate Closer(t: Snapshot, s: Snapshot) {
    (Rank(t) < Rank(s) || (Rank(t) == Rank(s) && t.posted < s.posted)) &&
    t.isSuspended == s.isSuspended && t.inStartup == s.inStartup && t.onBattery == s.onBattery
  }

  lemma DeliveryIsCloser(s: Snapshot, r: Snapshot)
    requires OneRunner(s) && s.posted > 0 && r == s.(posted := s.posted - 1)
    ensures Closer(Scheduled(r), s)
  {
    SchedulingRank(r);
    SchedulingKeeps(r);
  }

  lemma SchedulingKeeps(s: Snapshot)
    ensures var t := Scheduled(s);
      t.isSuspended == s.isSuspended && t.inStartup == s.inStartup && t.onBattery == s.onBattery && t.posted == s.posted
  {
    if WorkDue(s.(isGoingIdle := false)) {
      TaskKeeps(s.(isGoingIdle := false), NextTask(s.(isGoingIdle := false)));
    }
  }

  lemma TaskKeeps(s: Snapshot, task: IndexerState)
    ensures var t := WithoutTask(s, task);
      t.isSuspended == s.isSuspended && t.inStartup == s.inStartup && t.onBattery == s.onBattery && t.posted == s.posted
  {
    match task
    case FirstRun =>
    case NewFiles =>
    case _ =>
  }

  /** A finished runner brings rest closer, whatever it leaves for content indexing. */
  lemma FinishingIsCloser(s: Snapshot, left: nat)
    requires s.running == 1 && (s.state == ContentIndexing ==> left == 0)
    ensures Closer(s.(running := 0, isGoingIdle := true, posted := s.posted + 1, remaining := left), s)
  {
  }

  lemma TaskRank(s: Snapshot)
    requires WorkDue(s) && s.running == 0
    ensures Rank(Chosen(s)) < Rank(s)
  {
  }

  /** Quiet, but good: there is nothing due. */
  lemma QuietIsDone(s: Snapshot)
    requires Good(s) && s.running == 0 && s.posted == 0
    ensures !WorkDue(s) && RestingState(s.state)
  {
  }

  function Append(list: seq<string>, file: string): seq<string> {
    if file in list then list else list + [file]
  }

  /** QList::removeOne. */
  function RemoveOne(list: seq<string>, file: string): (r: seq<string>)
    requires NoRepeats(list)
    ensures NoRepeats(r) && forall f :: f in r <==> f in list && f != file
  {
    if list == [] then []
    else if list[0] == file then list[1..]
    else
      var r := RemoveOne(list[1..], file);
      assert forall i :: 0 <= i < |r| ==> r[i] in list[1..];
      [list[0]] + r
  }

  /** With another configuration: queued files that are not to be indexed any more go, and both checks become due. */
  ghost function Reconfigured(s: Snapshot, shouldBeIndexed: string -> bool): Snapshot {
    s.(newFiles := Keep(s.newFiles, shouldBeIndexed), modifiedFiles := Keep(s.modifiedFiles, shouldBeIndexed),
       xattrFiles := Keep(s.xattrFiles, shouldBeIndexed), checkStaleIndexEntries := true, checkUnindexedFiles := true)
  }

  /** std::remove_if and erase. */
  function Keep(list: seq<string>, keep: string -> bool): (r: seq<string>)
    ensures forall f :: f in r <==> f in list && keep(f)
    ensures NoRepeats(list) ==> NoRepeats(r)
  {
    if list == [] then [] else
      var r := Keep(list[1..], keep);
      assert forall i :: 0 <= i < |r| ==> r[i] in list[1..];
      assert NoRepeats(list) ==> NoRepeats(list[1..]);
      if keep(list[0]) then [list[0]] + r else r
  }

  function WithoutFile(list: seq<string>, file: string): (r: seq<string>)
    requires NoRepeats(list)
    ensures NoRepeats(r)
    ensures forall f :: f in r <==> f in list && if EndsWithSlash(file) then !(file <= f) else f != file
  {
    if !EndsWithSlash(file) then RemoveOne(list, file) else Keep(list, f => !(file <= f))
  }

  /** A scheduler starts with nothing queued and both checks due. */
  ghost function Initially(firstRun: bool, onBattery: bool, remaining: nat): Snapshot {
    Snapshot(Startup, [], [], [], true, true, false, false, firstRun, true, onBattery, remaining, 0, 0)
  }

  datatype Event =
    NewFile(file: string) | ModifiedFile(file: string) | XAttrFile(file: string) | FileRemoved(file: string) |
    RunnerDone(left: nat) | CallbackDelivered | ConfigChanged(shouldBeIndexed: string -> bool) | StartedUp |
    PowerChanged(battery: bool) | SuspendSet(suspend: bool) | UnindexedCheck | StaleCheck | WatchesInstalled

  /** The scheduler, what it told its listeners and the last runner, and whether content indexing is to stop. */
  datatype Moment = Moment(now: Snapshot, announced: IndexerState, handed: seq<string>, quitting: bool)

  /** Somebody will look whether there is something to do now. */
  ghost function Noticed(s: Snapshot, queued: bool): Snapshot {
    s.(posted := s.posted + Count(queued && IndexerIdle(s)))
  }

  /** What an event means by itself; one that cannot occur now means nothing. */
  ghost function Arrival(s: Snapshot, event: Event): Snapshot
    requires CleanQueues(s)
  {
    match event
    case NewFile(f) => Noticed(s, f !in s.newFiles).(newFiles := Append(s.newFiles, f))
    case ModifiedFile(f) => Noticed(s, f !in s.modifiedFiles).(modifiedFiles := Append(s.modifiedFiles, f))
    case XAttrFile(f) => Noticed(s, f !in s.xattrFiles).(xattrFiles := Append(s.xattrFiles, f))
    case FileRemoved(f) => Unqueued(s, f)
    case RunnerDone(left) => if s.running > 0 then Finished(s, left) else s
    case CallbackDelivered => if s.posted > 0 then s.(posted := s.posted - 1) else s
    case ConfigChanged(shouldBeIndexed) => Reconfigured(s, shouldBeIndexed)
    case StartedUp => s.(inStartup := false, posted := s.posted + 1)
    case PowerChanged(battery) => s.(onBattery := battery)
    case SuspendSet(suspend) => s.(isSuspended := suspend)
    case UnindexedCheck => s.(checkUnindexedFiles := true)
    case StaleCheck => s.(checkStaleIndexEntries := true)
    case WatchesInstalled => s
  }

  /** With the runner done: a callback is posted, and there may be files left for content indexing. */
  ghost function Finished(s: Snapshot, left: nat): Snapshot {
    s.(running := 0, isGoingIdle := true, posted := s.posted + 1, remaining := left)
  }

  ghost function Unqueued(s: Snapshot, file: string): Snapshot
    requires CleanQueues(s)
  {
    s.(newFiles := WithoutFile(s.newFiles, file), modifiedFiles := WithoutFile(s.modifiedFiles, file),
       xattrFiles := WithoutFile(s.xattrFiles, file))
  }

  /** The event stops content indexing, if that is at work. */
  ghost predicate Stops(s: Snapshot, event: Event) {
    s.state == ContentIndexing &&
    match event
    case ConfigChanged(_) => true
    case PowerChanged(battery) => battery
    case SuspendSet(suspend) => suspend
    case _ => false
  }

  /** The event makes the scheduler look at once what there is to do. */
  ghost predicate Schedules(s: Snapshot, event: Event) {
    match event
    case CallbackDelivered => s.posted > 0
    case PowerChanged(_) => !Stops(s, event)
    case SuspendSet(_) => !Stops(s, event)
    case ConfigChanged(_) => true
    case UnindexedCheck => true
    case StaleCheck => true
    case WatchesInstalled => true
    case _ => false
  }

  /** What scheduleIndexing does, told and handed over. */
  ghost function Rescheduled(m: Moment): Moment {
    if IndexerIdle(m.now) then Taken(m.(now := m.now.(isGoingIdle := false))) else m
  }

  /** A runner is given the files of its task; starting content indexing takes back that it is to stop. */
  ghost function Taken(m: Moment): Moment {
    var now := Chosen(m.now);
    if WorkDue(m.now) then
      Moment(now, now.state, FilesFor(m.now, NextTask(m.now)), m.quitting && now.state != ContentIndexing)
    else m.(now := now, announced := now.state)
  }

  /** What an event does before anybody looks for work. */
  ghost function Arrived(m: Moment, event: Event): Moment
    requires CleanQueues(m.now)
  {
    m.(now := Arrival(m.now, event), quitting := m.quitting || Stops(m.now, event))
  }

  /** What an event does. */
  ghost function After(m: Moment, event: Event): Moment
    requires CleanQueues(m.now)
  {
    if Schedules(m.now, event) then Rescheduled(Arrived(m, event)) else Arrived(m, event)
  }

  /** Content indexing does not go on, on battery or while suspended, without having been told to stop. */
  ghost predicate StopHeeded(m: Moment) {
    m.now.state == ContentIndexing && (m.now.onBattery || m.now.isSuspended) ==> m.quitting
  }

  /** What holds between events, as it is seen from outside. */
  ghost predicate Sound(m: Moment) {
    Good(m.now) && m.announced == m.now.state && StopHeeded(m)
  }

  /** Every event keeps it. */
  lemma AfterIsSound(m: Moment, event: Event)
    requires Sound(m)
    ensures Sound(After(m, event))
  {
    var arrived := Arrival(m.now, event);
    ArrivalKeepsRunner(m.now, event);
    ArrivalKeepsQueues(m.now, event);
    if Schedules(m.now, event) {
      ScheduledIsGood(arrived);
      RescheduledIs(Arrived(m, event));
      SchedulingHeeds(m, event);
    } else {
      ArrivalStrandsNothing(m.now, event);
    }
  }

  lemma SchedulingHeeds(m: Moment, event: Event)
    requires Sound(m)
    ensures StopHeeded(Arrived(m, event)) && StopHeeded(Rescheduled(Arrived(m, event)))
  {
    ArrivalHeeds(m, event);
    RescheduledHeeds(Arrived(m, event));
  }

  lemma ArrivalHeeds(m: Moment, event: Event)
    requires Sound(m)
    ensures StopHeeded(Arrived(m, event))
  {
  }

  lemma RescheduledHeeds(m: Moment)
    requires StopHeeded(m)
    ensures StopHeeded(Rescheduled(m))
  {
    var s := m.now.(isGoingIdle := false);
    if WorkDue(s) {
      StartMeans(s);
    }
  }

  /** Which events tell content indexing to stop; only a new start of it takes that back. */
  lemma QuitsWhen(m: Moment, event: Event)
    requires Sound(m)
    ensures var asked := m.now.state == ContentIndexing &&
        (event.ConfigChanged? || (event.PowerChanged? && event.battery) || (event.SuspendSet? && event.suspend));
      var m' := After(m, event);
      (asked ==> m'.quitting) && (m'.quitting ==> m.quitting || asked) &&
      (m.quitting && !m'.quitting ==> m'.now.state == ContentIndexing && m'.now.running > Arrival(m.now, event).running)
  {
    var s := Arrival(m.now, event).(isGoingIdle := false);
    if WorkDue(s) {
      StartMeans(s);
    }
  }

  lemma PowerMeans(m: Moment, battery: bool)
    requires Sound(m)
    ensures var m' := After(m, PowerChanged(battery));
      m'.now.onBattery == battery &&
      (battery && m.now.state == ContentIndexing ==> m'.quitting && m'.now.state == ContentIndexing) &&
      (!battery && m'.quitting ==> m.quitting)
  {
    QuitsWhen(m, PowerChanged(battery));
    SchedulingKeeps(Arrival(m.now, PowerChanged(battery)));
  }

  lemma SuspendMeans(m: Moment, suspend: bool)
    requires Sound(m)
    ensures var m' := After(m, SuspendSet(suspend));
      m'.now.isSuspended == suspend &&
      (suspend && m.now.state == ContentIndexing ==> m'.quitting && m'.now.state == ContentIndexing) &&
      (!suspend && m'.quitting ==> m.quitting)
  {
    QuitsWhen(m, SuspendSet(suspend));
    SchedulingKeeps(Arrival(m.now, SuspendSet(suspend)));
  }

  /** The order in which tasks are taken up. */
  const ORDER := [FirstRun, NewFiles, ModifiedFiles, XAttrFiles, StaleIndexEntriesClean, ContentIndexing,
                  UnindexedFileCheck]

  /** There is something to do for this task, and it may be done now. */
  ghost predicate TaskDue(s: Snapshot, task: IndexerState) {
    !s.isSuspended && !(s.isFirstRun && s.inStartup) &&
    match task
    case FirstRun => s.isFirstRun
    case NewFiles => s.newFiles != []
    case ModifiedFiles => s.modifiedFiles != []
    case XAttrFiles => s.xattrFiles != []
    case StaleIndexEntriesClean => s.checkStaleIndexEntries && !s.inStartup && !s.onBattery
    case ContentIndexing => s.remaining > 0 && !s.inStartup && !s.onBattery
    case UnindexedFileCheck => s.checkUnindexedFiles && !s.inStartup && !s.onBattery
    case _ => false
  }

  /** The next task is the first in that order that is due; without one there is no work. */
  lemma FirstDueIsNext(s: Snapshot)
    ensures WorkDue(s) <==> exists i :: 0 <= i < |ORDER| && TaskDue(s, ORDER[i])
    ensures WorkDue(s) ==>
      exists i :: 0 <= i < |ORDER| && NextTask(s) == ORDER[i] && TaskDue(s, ORDER[i]) &&
        forall j :: 0 <= j < i ==> !TaskDue(s, ORDER[j])
  {
    assert ORDER[0] == FirstRun && ORDER[1] == NewFiles && ORDER[2] == ModifiedFiles && ORDER[3] == XAttrFiles;
    assert ORDER[4] == StaleIndexEntriesClean && ORDER[5] == ContentIndexing && ORDER[6] == UnindexedFileCheck;
  }

  /** What starting a runner changes, field by field. */
  lemma StartMeans(s: Snapshot)
    requires WorkDue(s)
    ensures var task, t := NextTask(s), Chosen(s);
      TaskDue(s, task) && t.state == task && t.running == s.running + 1 && OthersQueued(s, t, task) &&
      (t.isFirstRun <==> s.isFirstRun && task != FirstRun) &&
      (t.checkStaleIndexEntries <==>
        s.checkStaleIndexEntries && task != FirstRun && task != StaleIndexEntriesClean) &&
      (t.checkUnindexedFiles <==> s.checkUnindexedFiles && task != FirstRun && task != UnindexedFileCheck) &&
      SameOutside(s, t)
  {
    FirstDueIsNext(s);
  }

  /** Only the task's own queue is emptied. */
  ghost predicate OthersQueued(s: Snapshot, t: Snapshot, task: IndexerState) {
    t.newFiles == (if task == NewFiles then [] else s.newFiles) &&
    t.modifiedFiles == (if task == ModifiedFiles then [] else s.modifiedFiles) &&
    t.xattrFiles == (if task == XAttrFiles then [] else s.xattrFiles)
  }

  ghost predicate SameOutside(s: Snapshot, t: Snapshot) {
    t.isSuspended == s.isSuspended && t.inStartup == s.inStartup && t.onBattery == s.onBattery &&
    t.remaining == s.remaining && t.posted == s.posted
  }

  /** What is shown at rest, state by state; nothing else changes. */
  lemma RestMeans(s: Snapshot)
    requires !WorkDue(s)
    ensures var t := Chosen(s);
      t == s.(state := t.state) && (s.isSuspended ==> t.state == Suspended) &&
      (!s.isSuspended && s.isFirstRun ==> t.state == s.state) &&
      (!s.isSuspended && !s.isFirstRun && s.inStartup ==> t.state == Startup) &&
      (!s.isSuspended && !s.isFirstRun && !s.inStartup && s.onBattery ==> t.state == LowPowerIdle) &&
      (!s.isSuspended && !s.isFirstRun && !s.inStartup && !s.onBattery ==> t.state == Idle)
  {
  }

  /** Which events switch what. */
  lemma SwitchesMean(s: Snapshot, event: Event)
    requires CleanQueues(s)
    ensures var t := Arrival(s, event);
      (t.inStartup <==> s.inStartup && !event.StartedUp?) && t.isFirstRun == s.isFirstRun &&
      t.onBattery == (if event.PowerChanged? then event.battery else s.onBattery) &&
      t.isSuspended == (if event.SuspendSet? then event.suspend else s.isSuspended)
  {
    match event
    case FileRemoved(_) =>
    case ConfigChanged(_) =>
    case RunnerDone(_) =>
    case CallbackDelivered =>
    case _ =>
  }

  /** Which events make a check due. */
  lemma ChecksMean(s: Snapshot, event: Event)
    requires CleanQueues(s)
    ensures var t := Arrival(s, event);
      (t.checkStaleIndexEntries <==> s.checkStaleIndexEntries || event.StaleCheck? || event.ConfigChanged?) &&
      (t.checkUnindexedFiles <==> s.checkUnindexedFiles || event.UnindexedCheck? || event.ConfigChanged?)
  {
    match event
    case FileRemoved(_) =>
    case ConfigChanged(_) =>
    case RunnerDone(_) =>
    case CallbackDelivered =>
    case _ =>
  }

  /** What becomes of the runner at work. */
  lemma RunnerMeans(s: Snapshot, event: Event)
    requires CleanQueues(s)
    ensures var t, done := Arrival(s, event), event.RunnerDone? && s.running > 0;
      (t.isGoingIdle <==> s.isGoingIdle || done) && t.running == (if done then 0 else s.running) &&
      t.remaining == (if done then event.left else s.remaining)
  {
    match event
    case FileRemoved(_) =>
    case ConfigChanged(_) =>
    case RunnerDone(_) =>
    case CallbackDelivered =>
    case _ =>
  }

  /** When a callback is posted, and when one is used up. */
  lemma PostedWhen(s: Snapshot, event: Event)
    requires CleanQueues(s)
    ensures Posts(s, event) ==> Arrival(s, event).posted == s.posted + 1
    ensures event.CallbackDelivered? && s.posted > 0 ==> Arrival(s, event).posted == s.posted - 1
    ensures !Posts(s, event) && !(event.CallbackDelivered? && s.posted > 0) ==> Arrival(s, event).posted == s.posted
  {
  }

  ghost predicate Posts(s: Snapshot, event: Event) {
    event.StartedUp? || (event.RunnerDone? && s.running > 0) ||
    ((event.NewFile? || event.ModifiedFile? || event.XAttrFile?) && IndexerIdle(s) && NewlyQueued(s, event))
  }

  ghost predicate NewlyQueued(s: Snapshot, event: Event) {
    (event.NewFile? ==> event.file !in s.newFiles) && (event.ModifiedFile? ==> event.file !in s.modifiedFiles) &&
    (event.XAttrFile? ==> event.file !in s.xattrFiles)
  }

  /** What an event does to a queue: its own file comes in, once, at the end, and only what it withdraws goes. */
  lemma QueueMeans(s: Snapshot, event: Event, task: IndexerState)
    requires CleanQueues(s) && (task == NewFiles || task == ModifiedFiles || task == XAttrFiles)
    ensures var queue, queue' := FilesFor(s, task), FilesFor(Arrival(s, event), task);
      (forall f :: Announces(event, task, f) ==> queue' == if f in queue then queue else queue + [f]) &&
      ((forall f :: !Announces(event, task, f)) ==> forall f :: f in queue' <==> f in queue && !Withdraws(event, f)) &&
      (!event.FileRemoved? && !event.ConfigChanged? && (forall f :: !Announces(event, task, f)) ==> queue' == queue)
  {
  }

  lemma ArrivedAnnounced(m: Moment, event: Event)
    requires Sound(m)
    ensures Arrived(m, event).announced == Arrived(m, event).now.state
  {
    ArrivalKeepsRunner(m.now, event);
  }

  lemma RescheduledIs(m: Moment)
    requires m.announced == m.now.state
    ensures Rescheduled(m).now == Scheduled(m.now) && Rescheduled(m).announced == Scheduled(m.now).state
  {
  }

  lemma ArrivalKeepsRunner(s: Snapshot, event: Event)
    requires Good(s)
    ensures OneRunner(Arrival(s, event)) && Arrival(s, event).state == s.state
  {
  }

  lemma ArrivalKeepsQueues(s: Snapshot, event: Event)
    requires Good(s)
    ensures CleanQueues(Arrival(s, event))
  {
  }

  /** Where an event does not look for work, it adds none without posting a callback. */
  lemma ArrivalStrandsNothing(s: Snapshot, event: Event)
    requires Good(s) && !Schedules(s, event)
    ensures NothingStranded(Arrival(s, event))
    ensures Arrival(s, event).isGoingIdle ==> Arrival(s, event).posted > 0
  {
  }

  /** A run as it was seen before the first event and after each. */
  ghost predicate History(h: seq<Moment>, events: seq<Event>) {
    |h| == |events| + 1 && Recorded(h, events)
  }

  /** The same for a run that is not over yet: every state is a good one and follows from the one before. */
  ghost predicate Recorded(h: seq<Moment>, events: seq<Event>) {
    0 < |h| <= |events| + 1 && (forall i :: 0 <= i < |h| ==> Sound(h[i])) &&
    forall i {:trigger events[i]} :: 0 <= i < |h| - 1 ==> h[i + 1] == After(h[i], events[i])
  }

  lemma RecordNext(h: seq<Moment>, events: seq<Event>, m: Moment)
    requires Recorded(h, events) && |h| <= |events| && Sound(m) && m == After(h[|h| - 1], events[|h| - 1])
    ensures Recorded(h + [m], events)
  {
    var h' := h + [m];
    forall i {:trigger events[i]} | 0 <= i < |h| ensures h'[i + 1] == After(h'[i], events[i]) {
      assert h'[i] == h[i] && (i < |h| - 1 ==> h'[i + 1] == h[i + 1]);
    }
  }

  /** The event asks for a file to be queued for a task. */
  ghost predicate Announces(event: Event, task: IndexerState, file: string) {
    match event
    case NewFile(f) => task == NewFiles && f == file
    case ModifiedFile(f) => task == ModifiedFiles && f == file
    case XAttrFile(f) => task == XAttrFiles && f == file
    case _ => false
  }

  /** The event takes a file from the queues: it is removed, or not to be indexed any more. */
  ghost predicate Withdraws(event: Event, file: string) {
    match event
    case FileRemoved(f) => if EndsWithSlash(f) then f <= file else f == file
    case ConfigChanged(shouldBeIndexed) => !shouldBeIndexed(file)
    case _ => false
  }

  /** The event starts a runner for a task and gives it a file. */
  ghost predicate HandsOver(m: Moment, event: Event, task: IndexerState, file: string)
    requires CleanQueues(m.now)
  {
    var arrived, m' := Arrival(m.now, event), After(m, event);
    Schedules(m.now, event) && IndexerIdle(arrived) && WorkDue(arrived) && m'.now.state == task && file in m'.handed
  }

  lemma AnnouncedIsQueued(m: Moment, event: Event, task: IndexerState, file: string)
    requires CleanQueues(m.now) && Announces(event, task, file)
    ensures file in FilesFor(After(m, event).now, task)
  {
  }

  /** Scheduling leaves a queue alone or gives all of it to a runner. */
  lemma ChosenKeepsQueued(s: Snapshot, task: IndexerState, file: string)
    requires file in FilesFor(s, task)
    ensures file in FilesFor(Chosen(s), task) || (WorkDue(s) && NextTask(s) == task)
  {
  }

  lemma ArrivalKeepsQueued(s: Snapshot, event: Event, task: IndexerState, file: string)
    requires CleanQueues(s) && file in FilesFor(s, task) && !Withdraws(event, file)
    ensures file in FilesFor(Arrival(s, event), task)
  {
  }

  /** No event loses a queued file. */
  lemma StaysQueued(m: Moment, event: Event, task: IndexerState, file: string)
    requires CleanQueues(m.now) && file in FilesFor(m.now, task) && !Withdraws(event, file)
    ensures file in FilesFor(After(m, event).now, task) || HandsOver(m, event, task, file)
  {
    ArrivalKeepsQueued(m.now, event, task, file);
    if Schedules(m.now, event) {
      SchedulingKeepsQueued(Arrived(m, event), task, file);
    }
  }

  lemma SchedulingKeepsQueued(m: Moment, task: IndexerState, file: string)
    requires file in FilesFor(m.now, task)
    ensures file in FilesFor(Rescheduled(m).now, task) ||
      (IndexerIdle(m.now) && WorkDue(m.now) && Rescheduled(m).now.state == task && file in Rescheduled(m).handed)
  {
    ChosenKeepsQueued(m.now.(isGoingIdle := false), task, file);
  }

  /**
    In any run a file that was announced for a task is still queued for it at the end, was
    given to a runner for that task since, or was withdrawn.
   */
  lemma NoFileForgotten(h: seq<Moment>, events: seq<Event>, i: nat, task: IndexerState, file: string)
    requires History(h, events) && i < |events| && Announces(events[i], task, file)
    ensures file in FilesFor(h[|events|].now, task) || SeenTo(h, events, i + 1, task, file)
  {
    assert Sound(h[i]);
    AnnouncedIsQueued(h[i], events[i], task, file);
    QueuedOrSeenTo(h, events, i + 1, task, file);
  }

  /** From some event on, a runner got the file, or the file was withdrawn. */
  ghost predicate SeenTo(h: seq<Moment>, events: seq<Event>, i: nat, task: IndexerState, file: string)
    requires History(h, events)
  {
    exists j {:trigger events[j]} :: i <= j < |events| &&
      ((CleanQueues(h[j].now) && HandsOver(h[j], events[j], task, file)) || Withdraws(events[j], file))
  }

  lemma {:induction false} QueuedOrSeenTo(h: seq<Moment>, events: seq<Event>, i: nat, task: IndexerState, file: string)
    requires History(h, events) && i <= |events| && file in FilesFor(h[i].now, task)
    ensures file in FilesFor(h[|events|].now, task) || SeenTo(h, events, i, task, file)
    decreases |events| - i
  {
    if i < |events| && !Withdraws(events[i], file) {
      assert Sound(h[i]);
      StaysQueued(h[i], events[i], task, file);
      if file in FilesFor(h[i + 1].now, task) {
        QueuedOrSeenTo(h, events, i + 1, task, file);
      }
    }
  }

  /** Once a run has come to rest, unsuspended and with startup over, every file announced was seen to. */
  lemma QuietHasSeenToAll(h: seq<Moment>, events: seq<Event>, i: nat, task: IndexerState, file: string)
    requires History(h, events) && i < |events| && Announces(events[i], task, file)
    requires var s := h[|events|].now; s.running == 0 && s.posted == 0 && !s.isSuspended && !s.inStartup
    ensures SeenTo(h, events, i + 1, task, file)
  {
    NoFileForgotten(h, events, i, task, file);
    assert Sound(h[|events|]);
    QuietIsDone(h[|events|].now);
  }
}
