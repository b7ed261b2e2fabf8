/** The migration run: the thread in Run, the row-copy thread, the events thread and any number of
    threads in Cancel, over the catalogue of tables.

    MigrationPlan says which statement each point of the run issues and where the run goes next;
    the class Migrator performs the phases in place and MigrationProtocol lets the threads
    interleave, one read or store of an atomic flag, or one statement, at a time. */
module MigrationPlan {
  import opened Basics
  import opened Catalogue

  datatype Config = Config(dropOriginal: bool, dropGhost: bool, postponeCutOver: bool)

  /** The operand of a `while` condition to be read next. */
  datatype Check = OfRunning | OfProgress | OfCancelled

  /** CleanupOnError. */
  datatype Cleanup = StopRunning | SetCancelled | StopQueue | DropGhost | DropChangelog | CleanedUp

  /** The threads that nothing but a stop or a cancellation ends. */
  datatype Helper = Heartbeat | Throttle

  /** Where the thread in Run is. */
  datatype Stage =
    | NotStarted
    | Setup                  // PhaseInitialSetup
    | AskGhost | DropStaleGhost | CreateGhost                // PhaseCreateGhostTable
    | AskChangelog | DropStaleChangelog | CreateChangelog
    | MarkMigrated
    | Prepare                // altering, inspecting, validating, counting rows, starting the stream
    | SpawnCopy | SpawnEvents                                // PhaseRowCopy
    | CopyLoop(check: Check) | JoinThreads | LeaveCopy
    | CutLoop(check: Check) | LeaveCutLoop | AskPostponed    // PhaseCutOver
    | Postponed(check: Check) | LeavePostponed
    | LockOriginal | Rename | UnlockRefused | Unlock
    | DropOld | DropHints | StopStream | JoinHelper(helper: Helper)  // PhaseCleanup
    | Succeeded
    | Failing(step: Cleanup) | Failed                        // HandleError

  /** The statement issued at a stage. */
  function StatementAt(names: Names, stage: Stage): Option<Ddl> {
    match stage
    case DropStaleGhost => Some(DropIfExists(names.ghost_))
    case CreateGhost => Some(CreateLike(names.ghost_, names.original))
    case DropStaleChangelog => Some(DropIfExists(names.changelog))
    case CreateChangelog => Some(Ddl.CreateChangelog(names.changelog))
    case LockOriginal => Some(LockTable(names.original))
    case Rename => Some(names.CutOver())
    case UnlockRefused => Some(UnlockTables)
    case Unlock => Some(UnlockTables)
    case DropOld => Some(DropIfExists(names.Old()))
    case DropHints => Some(DropIfExists(names.changelog))
    case _ => None
  }

  /** Where the run goes when the statement of a stage is reported done or failed. */
  function AfterStatement(config: Config, stage: Stage, ok: bool): Stage {
    match stage
    case DropStaleGhost => if ok then CreateGhost else Failing(StopRunning)
    case CreateGhost => if ok then AskChangelog else Failing(StopRunning)
    case DropStaleChangelog => Stage.CreateChangelog
    case CreateChangelog => if ok then MarkMigrated else Failing(StopRunning)
    case LockOriginal => if ok then Rename else Failing(StopRunning)
    case Rename => if ok then Unlock else UnlockRefused
    case UnlockRefused => Failing(StopRunning)
    case Unlock => if config.dropOriginal then DropOld else DropHints
    case DropOld => DropHints
    case DropHints => StopStream
    case _ => stage
  }

  function AfterJoin(helper: Helper): Stage {
    if helper.Heartbeat? then JoinHelper(Throttle) else Succeeded
  }

  /** Where the run goes when the inspector says whether a table exists. */
  function AfterAnswer(stage: Stage, exists_: bool): Stage {
    match stage
    case AskGhost => if exists_ then DropStaleGhost else CreateGhost
    case AskChangelog => if exists_ then DropStaleChangelog else Stage.CreateChangelog
    case _ => stage
  }

  /** The statement CleanupOnError issues at a step, if any. */
  function CleanupStatement(names: Names, config: Config, migrated: bool, step: Cleanup): Option<Ddl> {
    match step
    case DropGhost => if migrated && config.dropGhost then Some(DropIfExists(names.ghost_)) else None
    case DropChangelog => Some(DropIfExists(names.changelog))
    case _ => None
  }

  function AfterCleanup(step: Cleanup): Cleanup {
    match step
    case StopRunning => SetCancelled
    case SetCancelled => StopQueue
    case StopQueue => DropGhost
    case DropGhost => DropChangelog
    case _ => CleanedUp
  }
}

/** All threads together. */
module MigrationProtocol {
  import opened Basics
  import opened Catalogue
  import opened MigrationPlan

  datatype CopyStage = Unborn | ReadRunning | ReadCancelled | ReadPaused | Compare | Copying | Ended

  datatype EventsStage = Unborn | ReadRunning | ReadCancelled | Pop | ReadComplete | MarkProcessed | Applying | Ended

  datatype CancelStage = Idle | StoreRunning | JoinCopy | JoinEvents | Cleaning(step: Cleanup)

  datatype Flags = Flags(running: bool, cancelled: bool, complete: bool, processed: bool, migrated: bool)

  /** Counts of binlog events: put into the queue, taken out, and done with; how many had been put
      when the events thread last found the queue empty, and when row copy was marked complete.  A
      stopped queue takes nothing in and gives nothing out. */
  datatype Events = Events(stopped: bool, queued: nat, taken: nat, applied: nat, emptyAt: nat, completeAt: nat)

  /** What has happened so far. */
  datatype Past = Past(locks: nat, unlocks: nat, lockLost: bool, unlockRefused: bool,
                       renames: nat, moved: bool, renamed: bool, oldDropped: bool, dropRefused: bool)

  datatype Migration = Migration(
    names: Names, config: Config, server: Server, flags: Flags,
    run: Stage, copy: CopyStage, events: EventsStage, cancellers: seq<CancelStage>,
    copied: nat, total: nat, queue: Events, past: Past)

  /** `ok`, `outcome`, `rows` and the like resolve what the model leaves to the environment. */
  datatype Event =
    | RunStep(ok: bool, outcome: Outcome, total: nat)
    | CopyStep(ok: bool, rows: nat, paused: bool)
    | EventsStep
    | CancelStep(i: nat, outcome: Outcome)
    | Queue                          // the streamer queues an event
    | CreateElsewhere(name: string)  // another session creates or drops a table of its own
    | DropElsewhere(name: string)

  function Initial(names: Names, config: Config, tables: Tables, cancellers: nat): Migration {
    Migration(names, config, Server(tables, false), Flags(false, false, false, false, false),
              NotStarted, CopyStage.Unborn, EventsStage.Unborn, seq(cancellers, _ => Idle),
              0, 0, Events(false, 0, 0, 0, 0, 0), Past(0, 0, false, false, 0, false, false, false, false))
  }

  /** The original exists and is the only table with its rows; nothing else is assumed. */
  predicate IsStart(names: Names, tables: Tables) {
    && names.original in tables && tables[names.original] == Original
    && forall n <- tables :: n != names.original ==> tables[n] == Foreign
  }

  /** The loops of the heartbeat and throttle threads end when they read `running` as false or
      `cancelled` as true.  After the start of a run neither flag goes back, so a thread that has
      ended has left this condition behind it. */
  predicate HelpersEnd(flags: Flags) {
    !flags.running || flags.cancelled
  }

  predicate RunEnabled(s: Migration, outcome: Outcome) {
    var d := StatementAt(s.names, s.run);
    if d.Some? then CanEnd(s.server, d.value, outcome)
    else
      match s.run
      case JoinThreads => s.copy.Ended? && s.events.Ended?
      case JoinHelper(_) => HelpersEnd(s.flags)
      case Failing(step) => CleanupEnabled(s, step, outcome)
      case Succeeded | Failed => false
      case _ => true
  }

  predicate CleanupEnabled(s: Migration, step: Cleanup, outcome: Outcome) {
    var d := CleanupStatement(s.names, s.config, s.flags.migrated, step);
    d.Some? ==> CanEnd(s.server, d.value, outcome)
  }

  predicate IsOthers(names: Names, name: string) {
    name != names.original && name != names.ghost_ && name != names.changelog
  }

  predicate Enabled(s: Migration, e: Event) {
    match e
    case RunStep(_, outcome, _) => RunEnabled(s, outcome)
    case CopyStep(_, _, _) => !s.copy.Unborn? && !s.copy.Ended?
    case EventsStep => !s.events.Unborn? && !s.events.Ended?
    case CancelStep(i, outcome) =>
      i < |s.cancellers| &&
      (match s.cancellers[i]
       case JoinCopy => s.copy.Unborn? || s.copy.Ended?
       case JoinEvents => s.events.Unborn? || s.events.Ended?
       case Cleaning(step) => CleanupEnabled(s, step, outcome)
       case _ => true)
    case Queue => true
    case CreateElsewhere(name) => IsOthers(s.names, name) && name !in s.server.tables
    case DropElsewhere(name) =>
      IsOthers(s.names, name) && name in s.server.tables && s.server.tables[name] == Foreign
  }

  // ---- The thread in Run ----

  /** A statement of the run, with what it adds to the past. */
  function Issue(s: Migration, d: Ddl, outcome: Outcome): Migration
    requires CanEnd(s.server, d, outcome)
  {
    var p := s.past;
    var done := outcome == Done;
    var past :=
      match s.run
      case LockOriginal => p.(locks := if done then p.locks + 1 else p.locks, lockLost := p.lockLost || outcome == Lost)
      case Rename => p.(renames := p.renames + 1, moved := p.moved || outcome != Refused, renamed := p.renamed || done)
      case UnlockRefused => p.(unlocks := p.unlocks + 1, unlockRefused := p.unlockRefused || outcome == Refused)
      case Unlock => p.(unlocks := p.unlocks + 1, unlockRefused := p.unlockRefused || outcome == Refused)
      case DropOld => p.(oldDropped := true, dropRefused := p.dropRefused || outcome == Refused)
      case DropHints => p.(dropRefused := p.dropRefused || outcome == Refused)
      case _ => p;
    s.(server := After(s.server, d, outcome), run := AfterStatement(s.config, s.run, done), past := past)
  }

  function FailUnless(b: bool, next: Stage): Stage {
    if b then next else Failing(StopRunning)
  }

  /** A step of Run that issues no statement. */
  function Advance(s: Migration, ok: bool, total: nat): Migration {
    var f := s.flags;
    match s.run
    case NotStarted => s.(flags := f.(running := true), run := Setup)
    case Setup => s.(run := FailUnless(ok, AskGhost))
    case AskGhost => s.(run := AfterAnswer(s.run, ok))
    case AskChangelog => s.(run := AfterAnswer(s.run, ok))
    case MarkMigrated => s.(flags := f.(migrated := true), run := Prepare)
    case Prepare => if ok then s.(total := total, run := SpawnCopy) else s.(run := Failing(StopRunning))
    case SpawnCopy => s.(copy := CopyStage.ReadRunning, run := SpawnEvents)
    case SpawnEvents => s.(events := EventsStage.ReadRunning, run := CopyLoop(OfRunning))
    case CopyLoop(OfRunning) => s.(run := if f.running then CopyLoop(OfProgress) else JoinThreads)
    case CopyLoop(OfProgress) => s.(run := if f.complete then JoinThreads else CopyLoop(OfCancelled))
    case CopyLoop(OfCancelled) => s.(run := if f.cancelled then JoinThreads else CopyLoop(OfRunning))
    case JoinThreads => s.(run := LeaveCopy)
    case LeaveCopy => s.(run := FailUnless(!f.cancelled, CutLoop(OfRunning)))
    case CutLoop(OfRunning) => s.(run := if f.running then CutLoop(OfProgress) else LeaveCutLoop)
    case CutLoop(OfProgress) => s.(run := if f.processed then LeaveCutLoop else CutLoop(OfCancelled))
    case CutLoop(OfCancelled) => s.(run := if f.cancelled then LeaveCutLoop else CutLoop(OfRunning))
    case LeaveCutLoop => s.(run := FailUnless(!f.cancelled, AskPostponed))
    case AskPostponed => s.(run := if s.config.postponeCutOver then Postponed(OfRunning) else LockOriginal)
    case Postponed(OfRunning) => s.(run := if f.running then Postponed(OfCancelled) else LeavePostponed)
    case Postponed(_) => s.(run := if f.cancelled then LeavePostponed else Postponed(OfRunning))
    case LeavePostponed => s.(run := FailUnless(!f.cancelled, LockOriginal))
    case StopStream => s.(queue := s.queue.(stopped := true), run := JoinHelper(Heartbeat))
    case JoinHelper(helper) => s.(run := AfterJoin(helper))
    case _ => s
  }

  /** What a step of CleanupOnError does, in whatever thread. */
  function Clean(s: Migration, step: Cleanup, outcome: Outcome): Migration
    requires CleanupEnabled(s, step, outcome)
  {
    var d := CleanupStatement(s.names, s.config, s.flags.migrated, step);
    match step
    case StopRunning => s.(flags := s.flags.(running := false))
    case SetCancelled => s.(flags := s.flags.(cancelled := true))
    case StopQueue => s.(queue := s.queue.(stopped := true))
    case _ => if d.Some? then s.(server := After(s.server, d.value, outcome)) else s
  }

  function StepRun(s: Migration, ok: bool, outcome: Outcome, total: nat): Migration
    requires RunEnabled(s, outcome)
  {
    var d := StatementAt(s.names, s.run);
    if d.Some? then Issue(s, d.value, outcome)
    else
      match s.run
      case Failing(step) =>
        Clean(s, step, outcome).(run := if step.CleanedUp? then Failed else Failing(AfterCleanup(step)))
      case _ => Advance(s, ok, total)
  }

  // ---- The other threads ----

  function StepCopy(s: Migration, ok: bool, rows: nat, paused: bool): Migration {
    match s.copy
    case ReadRunning => s.(copy := if s.flags.running then CopyStage.ReadCancelled else CopyStage.Ended)
    case ReadCancelled => s.(copy := if s.flags.cancelled then CopyStage.Ended else ReadPaused)
    case ReadPaused => s.(copy := if paused then CopyStage.Ended else Compare)
    case Compare =>
      if s.copied >= s.total then
        s.(copy := CopyStage.Ended, flags := s.flags.(complete := true),
           queue := s.queue.(completeAt := s.queue.queued))
      else s.(copy := Copying)
    case Copying => s.(copied := s.copied + rows, copy := if ok then CopyStage.ReadRunning else CopyStage.Ended)
    case _ => s
  }

  function StepEvents(s: Migration): Migration {
    var q := s.queue;
    match s.events
    case ReadRunning => s.(events := if s.flags.running then EventsStage.ReadCancelled else EventsStage.Ended)
    case ReadCancelled => s.(events := if s.flags.cancelled then EventsStage.Ended else Pop)
    case Pop =>
      if q.stopped then s.(events := ReadComplete)
      else if q.taken < q.queued then s.(events := Applying, queue := q.(taken := q.taken + 1))
      else s.(events := ReadComplete, queue := q.(emptyAt := q.queued))
    case Applying => s.(events := EventsStage.ReadRunning, queue := q.(applied := q.applied + 1))
    case ReadComplete => s.(events := if s.flags.complete then MarkProcessed else EventsStage.ReadRunning)
    case MarkProcessed => s.(events := EventsStage.Ended, flags := s.flags.(processed := true))
    case _ => s
  }

  function StepCancel(s: Migration, i: nat, outcome: Outcome): Migration
    requires Enabled(s, CancelStep(i, outcome))
  {
    match s.cancellers[i]
    case Idle => s.(flags := s.flags.(cancelled := true), cancellers := s.cancellers[i := StoreRunning])
    case StoreRunning => s.(flags := s.flags.(running := false), cancellers := s.cancellers[i := JoinCopy])
    case JoinCopy => s.(cancellers := s.cancellers[i := JoinEvents])
    case JoinEvents => s.(cancellers := s.cancellers[i := Cleaning(StopRunning)])
    case Cleaning(step) =>
      Clean(s, step, outcome).(cancellers :=
        s.cancellers[i := if step.CleanedUp? then Idle else Cleaning(AfterCleanup(step))])
  }

  function Step(s: Migration, e: Event): Migration
    requires Enabled(s, e)
  {
    match e
    case RunStep(ok, outcome, total) => StepRun(s, ok, outcome, total)
    case CopyStep(ok, rows, paused) => StepCopy(s, ok, rows, paused)
    case EventsStep => StepEvents(s)
    case CancelStep(i, outcome) => StepCancel(s, i, outcome)
    case Queue => if s.queue.stopped then s else s.(queue := s.queue.(queued := s.queue.queued + 1))
    case CreateElsewhere(name) => s.(server := s.server.(tables := s.server.tables[name := Foreign]))
    case DropElsewhere(name) => s.(server := s.server.(tables := s.server.tables - {name}))
  }

  function Run(s: Migration, es: seq<Event>): Option<Migration>
    decreases |es|
  {
    if es == [] then Some(s)
    else if !Enabled(s, es[0]) then None
    else Run(Step(s, es[0]), es[1..])
  }

  // ---- Flags and progress ----

  /** `running` is false only before the run, in a run that is already failing, or once
      `cancelled` is set; so the loops of Run never leave silently. */
  predicate StopMeansCancelled(s: Migration) {
    && (!s.flags.running ==> s.flags.cancelled || s.run.NotStarted? || s.run == Failing(SetCancelled))
    && (s.run == Failing(StopQueue) || s.run == JoinHelper(Throttle) || s.run.Succeeded? ==> s.flags.cancelled)
    && forall c <- s.cancellers :: !c.Idle? ==> s.flags.cancelled
  }

  predicate IsBeforeCopy(stage: Stage) {
    match stage
    case NotStarted | Setup | AskGhost | DropStaleGhost | CreateGhost | AskChangelog | DropStaleChangelog
         | CreateChangelog | MarkMigrated | Prepare | SpawnCopy => true
    case _ => false
  }

  predicate ProgressIsHonest(s: Migration) {
    && (IsBeforeCopy(s.run) ==> s.copy.Unborn?)
    && (IsBeforeCopy(s.run) || s.run.SpawnEvents? ==> s.events.Unborn?)
    && (s.flags.complete ==> s.copied >= s.total && s.copy.Ended?)
    && (s.events.MarkProcessed? ==> s.flags.complete)
    && (s.flags.processed ==> s.flags.complete && s.events.Ended?)
  }

  /** From the lock on. */
  predicate IsCutOver(stage: Stage) {
    match stage
    case LockOriginal | Rename | UnlockRefused | Unlock | DropOld | DropHints | StopStream | JoinHelper(_)
         | Succeeded => true
    case _ => false
  }

  /** Nothing was taken from the queue since it was last found empty. */
  predicate CaughtUp(q: Events) {
    q.emptyAt == q.taken
  }

  predicate GatesHeld(s: Migration) {
    && (s.run.JoinThreads? || s.run.LeaveCopy? ==> s.flags.complete || s.flags.cancelled)
    && (s.run.CutLoop? ==> s.flags.complete)
    && (s.run.LeaveCutLoop? ==> s.flags.complete && (s.flags.processed || s.flags.cancelled))
    && (s.run.AskPostponed? || s.run.Postponed? || s.run.LeavePostponed? ==> s.flags.processed && CaughtUp(s.queue))
    && (s.run.Postponed? || s.run.LeavePostponed? ==> s.config.postponeCutOver)
    && (s.run.LeavePostponed? ==> s.flags.cancelled)
    && (IsCutOver(s.run) || s.past.renames > 0 ==>
          s.flags.processed && CaughtUp(s.queue) && !s.config.postponeCutOver)
  }

  predicate QueueCounted(s: Migration) {
    var q := s.queue;
    && q.taken <= q.queued && q.emptyAt <= q.taken && q.completeAt <= q.queued
    && q.applied + (if s.events.Applying? then 1 else 0) == q.taken
    && (q.stopped ==> s.flags.cancelled || s.run.JoinHelper?)
    && (s.events.ReadComplete? || s.events.MarkProcessed? || s.flags.processed ==> CaughtUp(q) || s.flags.cancelled)
  }

  predicate HoldsLock(stage: Stage) {
    stage.Rename? || stage.UnlockRefused? || stage.Unlock?
  }

  /** Where no lock or unlock can follow any more. */
  predicate IsAfterLock(stage: Stage) {
    match stage
    case DropOld | DropHints | StopStream | JoinHelper(_) | Succeeded | Failing(_) | Failed => true
    case _ => false
  }

  /** The server's lock is held from a reported lock to its UNLOCK, and for good once a lock went
      unreported or an UNLOCK was refused. */
  predicate LocksBalanced(s: Migration) {
    && s.past.locks == s.past.unlocks + (if HoldsLock(s.run) then 1 else 0)
    && (s.server.locked <==> HoldsLock(s.run) || s.past.lockLost || s.past.unlockRefused)
    && (s.past.lockLost || s.past.unlockRefused ==> IsAfterLock(s.run))
  }

  predicate FlowInv(s: Migration) {
    StopMeansCancelled(s) && ProgressIsHonest(s) && GatesHeld(s)
  }

  lemma IssueKeepsFlow(s: Migration, d: Ddl, outcome: Outcome)
    requires StatementAt(s.names, s.run) == Some(d) && CanEnd(s.server, d, outcome) && FlowInv(s)
    ensures FlowInv(Issue(s, d, outcome))
  {
  }

  lemma AdvanceKeepsFlow(s: Migration, ok: bool, outcome: Outcome, total: nat)
    requires StatementAt(s.names, s.run).None? && !s.run.Failing? && RunEnabled(s, outcome)
    requires FlowInv(s) && QueueCounted(s)
    ensures FlowInv(Advance(s, ok, total))
  {
    AdvanceKeepsGates(s, ok, outcome, total);
    AdvanceKeepsProgress(s, ok, outcome, total);
  }

  lemma AdvanceKeepsProgress(s: Migration, ok: bool, outcome: Outcome, total: nat)
    requires StatementAt(s.names, s.run).None? && !s.run.Failing? && RunEnabled(s, outcome) && ProgressIsHonest(s)
    ensures ProgressIsHonest(Advance(s, ok, total))
  {
  }

  lemma AdvanceKeepsGates(s: Migration, ok: bool, outcome: Outcome, total: nat)
    requires StatementAt(s.names, s.run).None? && !s.run.Failing? && RunEnabled(s, outcome)
    requires StopMeansCancelled(s) && ProgressIsHonest(s) && GatesHeld(s) && QueueCounted(s)
    ensures GatesHeld(Advance(s, ok, total))
  {
  }

  lemma FailKeepsFlow(s: Migration, outcome: Outcome)
    requires s.run.Failing? && RunEnabled(s, outcome) && FlowInv(s)
    ensures FlowInv(StepRun(s, true, outcome, 0))
  {
    FailKeepsGates(s, outcome);
    FailKeepsProgress(s, outcome);
    FailKeepsStop(s, outcome);
  }

  lemma FailKeepsStop(s: Migration, outcome: Outcome)
    requires s.run.Failing? && RunEnabled(s, outcome) && StopMeansCancelled(s)
    ensures StopMeansCancelled(StepRun(s, true, outcome, 0))
  {
  }

  lemma FailKeepsProgress(s: Migration, outcome: Outcome)
    requires s.run.Failing? && RunEnabled(s, outcome) && ProgressIsHonest(s)
    ensures ProgressIsHonest(StepRun(s, true, outcome, 0))
  {
  }

  lemma FailKeepsGates(s: Migration, outcome: Outcome)
    requires s.run.Failing? && RunEnabled(s, outcome) && GatesHeld(s)
    ensures GatesHeld(StepRun(s, true, outcome, 0))
  {
  }

  lemma CopyKeepsFlow(s: Migration, ok: bool, rows: nat, paused: bool)
    requires Enabled(s, CopyStep(ok, rows, paused)) && FlowInv(s)
    ensures FlowInv(StepCopy(s, ok, rows, paused))
  {
    CopyKeepsGates(s, ok, rows, paused);
    CopyKeepsProgress(s, ok, rows, paused);
  }

  lemma CopyKeepsProgress(s: Migration, ok: bool, rows: nat, paused: bool)
    requires Enabled(s, CopyStep(ok, rows, paused)) && ProgressIsHonest(s)
    ensures ProgressIsHonest(StepCopy(s, ok, rows, paused))
  {
  }

  lemma CopyKeepsGates(s: Migration, ok: bool, rows: nat, paused: bool)
    requires Enabled(s, CopyStep(ok, rows, paused)) && GatesHeld(s)
    ensures GatesHeld(StepCopy(s, ok, rows, paused))
  {
  }

  lemma EventsKeepFlow(s: Migration)
    requires Enabled(s, EventsStep) && FlowInv(s)
    ensures FlowInv(StepEvents(s))
  {
    EventsKeepGates(s);
    EventsKeepProgress(s);
  }

  lemma EventsKeepProgress(s: Migration)
    requires Enabled(s, EventsStep) && ProgressIsHonest(s)
    ensures ProgressIsHonest(StepEvents(s))
  {
  }

  lemma EventsKeepGates(s: Migration)
    requires Enabled(s, EventsStep) && ProgressIsHonest(s) && GatesHeld(s)
    ensures GatesHeld(StepEvents(s))
  {
  }

  lemma CancelKeepsFlow(s: Migration, i: nat, outcome: Outcome)
    requires Enabled(s, CancelStep(i, outcome)) && FlowInv(s)
    ensures FlowInv(StepCancel(s, i, outcome))
  {
    CancelKeepsStop(s, i, outcome);
    CancelFrame(s, i, outcome);
    OnlyFlagsKeepFlow(s, StepCancel(s, i, outcome));
  }

  /** Nothing the gates depend on differs, except that the run may have been cancelled. */
  predicate OnlyFlags(s: Migration, t: Migration) {
    && t.run == s.run && t.copy == s.copy && t.events == s.events && t.copied == s.copied && t.total == s.total
    && t.config == s.config && t.past == s.past && t.queue.taken == s.queue.taken && t.queue.emptyAt == s.queue.emptyAt
    && t.flags.complete == s.flags.complete && t.flags.processed == s.flags.processed
    && (s.flags.cancelled ==> t.flags.cancelled)
  }

  lemma CancelFrame(s: Migration, i: nat, outcome: Outcome)
    requires Enabled(s, CancelStep(i, outcome))
    ensures OnlyFlags(s, StepCancel(s, i, outcome))
  {
  }

  lemma OnlyFlagsKeepFlow(s: Migration, t: Migration)
    requires OnlyFlags(s, t) && ProgressIsHonest(s) && GatesHeld(s)
    ensures ProgressIsHonest(t) && GatesHeld(t)
  {
  }

  lemma CancelKeepsStop(s: Migration, i: nat, outcome: Outcome)
    requires Enabled(s, CancelStep(i, outcome)) && StopMeansCancelled(s)
    ensures StopMeansCancelled(StepCancel(s, i, outcome))
  {
  }

  lemma StepKeepsFlow(s: Migration, e: Event)
    requires Enabled(s, e) && FlowInv(s) && QueueCounted(s)
    ensures FlowInv(Step(s, e))
  {
    match e
    case RunStep(ok, outcome, total) =>
      var d := StatementAt(s.names, s.run);
      if d.Some? {
        IssueKeepsFlow(s, d.value, outcome);
      } else if s.run.Failing? {
        FailKeepsFlow(s, outcome);
      } else {
        AdvanceKeepsFlow(s, ok, outcome, total);
      }
    case CopyStep(ok, rows, paused) => CopyKeepsFlow(s, ok, rows, paused);
    case EventsStep => EventsKeepFlow(s);
    case CancelStep(i, outcome) => CancelKeepsFlow(s, i, outcome);
    case Queue =>
    case CreateElsewhere(_) =>
    case DropElsewhere(_) =>
  }

  lemma AdvanceKeepsQueue(s: Migration, ok: bool, outcome: Outcome, total: nat)
    requires StatementAt(s.names, s.run).None? && !s.run.Failing? && RunEnabled(s, outcome)
    requires FlowInv(s) && QueueCounted(s)
    ensures QueueCounted(Advance(s, ok, total))
  {
  }

  lemma RunKeepsQueue(s: Migration, ok: bool, outcome: Outcome, total: nat)
    requires RunEnabled(s, outcome) && FlowInv(s) && QueueCounted(s)
    ensures QueueCounted(StepRun(s, ok, outcome, total))
  {
    if StatementAt(s.names, s.run).None? && !s.run.Failing? {
      AdvanceKeepsQueue(s, ok, outcome, total);
    }
  }

  lemma CopyKeepsQueue(s: Migration, ok: bool, rows: nat, paused: bool)
    requires Enabled(s, CopyStep(ok, rows, paused)) && QueueCounted(s)
    ensures QueueCounted(StepCopy(s, ok, rows, paused))
  {
  }

  lemma EventsKeepQueue(s: Migration)
    requires Enabled(s, EventsStep) && FlowInv(s) && QueueCounted(s)
    ensures QueueCounted(StepEvents(s))
  {
  }

  lemma StepKeepsQueue(s: Migration, e: Event)
    requires Enabled(s, e) && FlowInv(s) && QueueCounted(s)
    ensures QueueCounted(Step(s, e))
  {
    match e
    case RunStep(ok, outcome, total) => RunKeepsQueue(s, ok, outcome, total);
    case CopyStep(ok, rows, paused) => CopyKeepsQueue(s, ok, rows, paused);
    case EventsStep => EventsKeepQueue(s);
    case CancelStep(i, outcome) => CancelKeepsQueue(s, i, outcome);
    case _ =>
  }

  lemma CancelKeepsQueue(s: Migration, i: nat, outcome: Outcome)
    requires Enabled(s, CancelStep(i, outcome)) && StopMeansCancelled(s) && QueueCounted(s)
    ensures QueueCounted(StepCancel(s, i, outcome))
  {
    CancelStopsQueue(s, i, outcome);
    CancelFrame(s, i, outcome);
  }

  /** A step of Cancel does at most stop the queue, and that after it has cancelled the run. */
  lemma CancelStopsQueue(s: Migration, i: nat, outcome: Outcome)
    requires Enabled(s, CancelStep(i, outcome)) && StopMeansCancelled(s)
    ensures var t := StepCancel(s, i, outcome); t.queue == s.queue.(stopped := t.queue.stopped)
    ensures StepCancel(s, i, outcome).queue.stopped ==> s.queue.stopped || s.flags.cancelled
  {
  }

  predicate IsIssue(s: Migration, e: Event) {
    e.RunStep? && StatementAt(s.names, s.run).Some?
  }

  /** Before the ghost is made; from there to the RENAME; after a RENAME reported done; on the way
      out of a failed run. */
  datatype Era = Early | Made | CutOver | Ending

  function EraOf(stage: Stage): Era {
    match stage
    case NotStarted | Setup | AskGhost | DropStaleGhost | CreateGhost => Early
    case Unlock | DropOld | DropHints | StopStream | JoinHelper(_) | Succeeded => CutOver
    case UnlockRefused | Failing(_) | Failed => Ending
    case _ => Made
  }

  predicate IsQuiet(before: Stage, after: Stage) {
    before == after ||
    (StatementAt(Names("", "", ""), before).None? && !HoldsLock(after) && !after.DropOld? &&
     (EraOf(after) == EraOf(before) || EraOf(after).Ending?))
  }

  lemma AdvanceIsQuiet(s: Migration, ok: bool, outcome: Outcome, total: nat)
    requires StatementAt(s.names, s.run).None? && !s.run.Failing? && RunEnabled(s, outcome)
    ensures var t := Advance(s, ok, total);
      t.names == s.names && t.config == s.config && t.past == s.past && t.server == s.server && IsQuiet(s.run, t.run)
  {
    AdvanceStages(s, ok, outcome, total);
  }

  lemma AdvanceStages(s: Migration, ok: bool, outcome: Outcome, total: nat)
    requires StatementAt(s.names, s.run).None? && !s.run.Failing? && RunEnabled(s, outcome)
    ensures IsQuiet(s.run, Advance(s, ok, total).run)
  {
  }

  /** `t` differs from `s` in its tables at most by lacking the ghost or the changelog. */
  ghost predicate OnlyCleans(s: Migration, t: Migration) {
    && t.names == s.names && t.config == s.config && t.past == s.past && t.server.locked == s.server.locked
    && t.server.tables.Keys <= s.server.tables.Keys
    && (forall n <- s.server.tables :: n in t.server.tables || n == s.names.ghost_ || n == s.names.changelog)
    && forall n <- t.server.tables :: t.server.tables[n] == s.server.tables[n]
  }

  lemma CleanIsQuiet(s: Migration, step: Cleanup, outcome: Outcome)
    requires CleanupEnabled(s, step, outcome)
    ensures OnlyCleans(s, Clean(s, step, outcome))
  {
  }

  lemma CancelIsQuiet(s: Migration, i: nat, outcome: Outcome)
    requires Enabled(s, CancelStep(i, outcome))
    ensures OnlyCleans(s, StepCancel(s, i, outcome)) && StepCancel(s, i, outcome).run == s.run
  {
    if s.cancellers[i].Cleaning? {
      CleanIsQuiet(s, s.cancellers[i].step, outcome);
    }
  }

  predicate IsThreadStep(e: Event) {
    e.CopyStep? || e.EventsStep? || e.Queue?
  }

  lemma ThreadIsQuiet(s: Migration, e: Event)
    requires Enabled(s, e) && IsThreadStep(e)
    ensures var t := Step(s, e);
      t.names == s.names && t.config == s.config && t.past == s.past && t.server == s.server && t.run == s.run
  {
  }

  lemma RunIsQuiet(s: Migration, ok: bool, outcome: Outcome, total: nat)
    requires RunEnabled(s, outcome) && StatementAt(s.names, s.run).None?
    ensures var t := StepRun(s, ok, outcome, total); OnlyCleans(s, t) && IsQuiet(s.run, t.run)
  {
    if s.run.Failing? {
      CleanIsQuiet(s, s.run.step, outcome);
    } else {
      AdvanceIsQuiet(s, ok, outcome, total);
    }
  }

  /** The migration's own steps that are no statement of Run leave the past, the lock and all
      tables but the ghost and the changelog alone. */
  lemma QuietStep(s: Migration, e: Event)
    requires Enabled(s, e) && !IsIssue(s, e) && !e.CreateElsewhere? && !e.DropElsewhere?
    ensures OnlyCleans(s, Step(s, e)) && IsQuiet(s.run, Step(s, e).run)
  {
    match e
    case RunStep(ok, outcome, total) => RunIsQuiet(s, ok, outcome, total);
    case CancelStep(i, outcome) => CancelIsQuiet(s, i, outcome);
    case _ => ThreadIsQuiet(s, e);
  }

  lemma IssueKeepsLocks(s: Migration, d: Ddl, outcome: Outcome)
    requires StatementAt(s.names, s.run) == Some(d) && CanEnd(s.server, d, outcome) && LocksBalanced(s)
    ensures LocksBalanced(Issue(s, d, outcome))
  {
  }

  lemma StepKeepsLocks(s: Migration, e: Event)
    requires Enabled(s, e) && LocksBalanced(s)
    ensures LocksBalanced(Step(s, e))
  {
    if IsIssue(s, e) {
      IssueKeepsLocks(s, StatementAt(s.names, s.run).value, e.outcome);
    } else if !e.CreateElsewhere? && !e.DropElsewhere? {
      QuietStep(s, e);
    }
  }

  // ---- The catalogue ----

  lemma OldDiffers(n: Names)
    ensures n.Old() != n.original
  {
    assert |n.Old()| == |n.original| + 4;
  }

  /** Where the original rows are. */
  ghost predicate RowsSurvive(s: Migration) {
    var tables, n, past := s.server.tables, s.names, s.past;
    && n.original in tables
    && (!past.moved ==> tables[n.original] == Original)
    && (past.moved && !past.oldDropped ==> n.Old() in tables && tables[n.Old()] == Original)
    && (past.oldDropped ==> past.renamed && s.config.dropOriginal)
    && (past.renamed ==> past.moved)
    && (past.moved ==> past.renames > 0)
  }

  ghost predicate ErasMatch(s: Migration) {
    && (EraOf(s.run).Early? || EraOf(s.run).Made? ==> !s.past.moved && s.past.renames == 0)
    && (EraOf(s.run).CutOver? ==> s.past.renamed)
    && (s.run.Unlock? || s.run.DropOld? ==> !s.past.oldDropped)
    && (s.run.DropOld? ==> s.config.dropOriginal)
    && s.past.renames <= 1
  }

  predicate IsWindingUp(stage: Stage) {
    stage.StopStream? || stage.JoinHelper? || stage.Succeeded?
  }

  /** What the clean-up after a cut-over has achieved so far. */
  ghost predicate CleanupKept(s: Migration) {
    var tables, n, past := s.server.tables, s.names, s.past;
    && (EraOf(s.run).CutOver? ==> n.ghost_ !in tables)
    && (s.run.DropHints? || IsWindingUp(s.run) ==> (past.oldDropped <==> s.config.dropOriginal))
    && (past.oldDropped && !past.dropRefused && n.Old() in tables ==> tables[n.Old()] == Foreign)
    && (IsWindingUp(s.run) ==> n.changelog !in tables || past.dropRefused)
  }

  /** The ghost is the migration's own table, and the one that takes the original's name. */
  ghost predicate GhostInPlace(s: Migration) {
    var tables, n := s.server.tables, s.names;
    && (EraOf(s.run).Made? && n.ghost_ in tables ==> tables[n.ghost_] == Ghost)
    && (s.past.moved ==> n.original in tables && tables[n.original] == Ghost)
  }

  ghost predicate RowsInv(s: Migration) {
    RowsSurvive(s) && ErasMatch(s) && CleanupKept(s)
  }

  lemma IssueKeepsRows(s: Migration, d: Ddl, outcome: Outcome)
    requires s.names.AreApart() && StatementAt(s.names, s.run) == Some(d) && CanEnd(s.server, d, outcome)
    requires RowsSurvive(s) && ErasMatch(s)
    ensures RowsSurvive(Issue(s, d, outcome)) && ErasMatch(Issue(s, d, outcome))
  {
    OldDiffers(s.names);
    if s.run.Rename? {
      CutOverEffect(s.server, s.names);
    }
  }

  lemma IssueKeepsCleanup(s: Migration, d: Ddl, outcome: Outcome)
    requires s.names.AreApart() && StatementAt(s.names, s.run) == Some(d) && CanEnd(s.server, d, outcome)
    requires RowsInv(s)
    ensures CleanupKept(Issue(s, d, outcome))
  {
    OldDiffers(s.names);
    if s.run.Rename? {
      CutOverEffect(s.server, s.names);
    }
  }

  lemma IssueKeepsGhost(s: Migration, d: Ddl, outcome: Outcome)
    requires s.names.AreDistinct() && StatementAt(s.names, s.run) == Some(d) && CanEnd(s.server, d, outcome)
    requires RowsInv(s) && GhostInPlace(s)
    ensures GhostInPlace(Issue(s, d, outcome))
  {
    OldDiffers(s.names);
    if s.run.Rename? {
      CutOverEffect(s.server, s.names);
    }
  }

  lemma QuietKeepsRows(s: Migration, t: Migration)
    requires s.names.AreApart() && RowsInv(s) && OnlyCleans(s, t) && IsQuiet(s.run, t.run)
    ensures RowsInv(t) && (GhostInPlace(s) ==> GhostInPlace(t))
  {
    OldDiffers(s.names);
  }

  lemma StepKeepsRows(s: Migration, e: Event)
    requires s.names.AreApart() && Enabled(s, e) && RowsInv(s)
    ensures RowsInv(Step(s, e))
  {
    if IsIssue(s, e) {
      IssueKeepsRows(s, StatementAt(s.names, s.run).value, e.outcome);
      IssueKeepsCleanup(s, StatementAt(s.names, s.run).value, e.outcome);
    } else if !e.CreateElsewhere? && !e.DropElsewhere? {
      QuietStep(s, e);
      QuietKeepsRows(s, Step(s, e));
    }
  }

  lemma StepKeepsGhost(s: Migration, e: Event)
    requires s.names.AreDistinct() && Enabled(s, e) && RowsInv(s) && GhostInPlace(s)
    ensures GhostInPlace(Step(s, e))
  {
    if IsIssue(s, e) {
      IssueKeepsGhost(s, StatementAt(s.names, s.run).value, e.outcome);
    } else if !e.CreateElsewhere? && !e.DropElsewhere? {
      QuietStep(s, e);
      QuietKeepsRows(s, Step(s, e));
    }
  }

  // ---- Every run ----

  ghost predicate Reachable(names: Names, config: Config, tables: Tables, cancellers: nat, s: Migration) {
    IsStart(names, tables) && exists es :: Run(Initial(names, config, tables, cancellers), es) == Some(s)
  }

  /** What every reachable state satisfies, whatever the tables are called. */
  predicate Inv(s: Migration) {
    FlowInv(s) && QueueCounted(s) && LocksBalanced(s)
  }

  lemma StepKeepsInv(s: Migration, e: Event)
    requires Enabled(s, e) && Inv(s)
    ensures Inv(Step(s, e))
  {
    StepKeepsFlow(s, e);
    StepKeepsQueue(s, e);
    StepKeepsLocks(s, e);
  }

  lemma {:induction false} RunKeepsInv(s: Migration, es: seq<Event>)
    requires Run(s, es).Some? && Inv(s)
    ensures Inv(Run(s, es).value)
    decreases |es|
  {
    if es != [] {
      StepKeepsInv(s, es[0]);
      RunKeepsInv(Step(s, es[0]), es[1..]);
    }
  }

  lemma {:induction false} RunKeepsNames(s: Migration, es: seq<Event>)
    requires Run(s, es).Some?
    ensures Run(s, es).value.names == s.names && Run(s, es).value.config == s.config
    decreases |es|
  {
    if es != [] {
      NamesStay(s, es[0]);
      RunKeepsNames(Step(s, es[0]), es[1..]);
    }
  }

  lemma {:induction false} RunKeepsRows(s: Migration, es: seq<Event>)
    requires Run(s, es).Some? && s.names.AreApart() && RowsInv(s)
    ensures RowsInv(Run(s, es).value)
    decreases |es|
  {
    if es != [] {
      StepKeepsRows(s, es[0]);
      NamesStay(s, es[0]);
      RunKeepsRows(Step(s, es[0]), es[1..]);
    }
  }

  lemma {:induction false} RunKeepsGhost(s: Migration, es: seq<Event>)
    requires Run(s, es).Some? && s.names.AreDistinct() && RowsInv(s) && GhostInPlace(s)
    ensures GhostInPlace(Run(s, es).value)
    decreases |es|
  {
    if es != [] {
      StepKeepsRows(s, es[0]);
      StepKeepsGhost(s, es[0]);
      NamesStay(s, es[0]);
      RunKeepsGhost(Step(s, es[0]), es[1..]);
    }
  }

  lemma NamesStay(s: Migration, e: Event)
    requires Enabled(s, e)
    ensures Step(s, e).names == s.names && Step(s, e).config == s.config
  {
  }

  lemma ReachableIsInv(names: Names, config: Config, tables: Tables, cancellers: nat, s: Migration)
    requires Reachable(names, config, tables, cancellers, s)
    ensures Inv(s) && s.config == config && s.names == names
  {
    var es :| Run(Initial(names, config, tables, cancellers), es) == Some(s);
    RunKeepsInv(Initial(names, config, tables, cancellers), es);
    RunKeepsNames(Initial(names, config, tables, cancellers), es);
  }

  /** Where Run reads `running` in a loop, finding it false means the migration is cancelled, so the
      check behind the loop fails the run. */
  lemma StopIsSeenAsCancel(names: Names, config: Config, tables: Tables, cancellers: nat, s: Migration)
    requires Reachable(names, config, tables, cancellers, s)
    requires s.run.CopyLoop? || s.run.CutLoop? || s.run.Postponed?
    ensures !s.flags.running ==> s.flags.cancelled
  {
    ReachableIsInv(names, config, tables, cancellers, s);
  }

  /** Whenever the RENAME is about to be issued: the original's lock was reported taken and the
      server still holds it, row copy counted at least all rows and was marked complete, the
      cut-over is not postponed, and the events thread has ended after finding the queue empty,
      having applied every event queued until then. */
  lemma RenameIsGuarded(names: Names, config: Config, tables: Tables, cancellers: nat, s: Migration)
    requires Reachable(names, config, tables, cancellers, s) && s.run.Rename?
    ensures s.server.locked && s.past.locks == s.past.unlocks + 1
    ensures s.copied >= s.total && s.flags.complete && s.flags.processed && !config.postponeCutOver
    ensures s.events.Ended? && s.queue.applied == s.queue.taken == s.queue.emptyAt
  {
    ReachableIsInv(names, config, tables, cancellers, s);
  }

  /** A postponed cut-over never renames: its loop only ends when the run is cancelled. */
  lemma PostponedNeverRenames(names: Names, config: Config, tables: Tables, cancellers: nat, s: Migration)
    requires Reachable(names, config, tables, cancellers, s) && config.postponeCutOver
    ensures s.past.renames == 0 && !s.run.LockOriginal? && !s.run.Rename?
  {
    ReachableIsInv(names, config, tables, cancellers, s);
  }

  /** Once a run has ended, every lock reported taken was followed by an UNLOCK, and the session
      still holds a lock exactly if a lock's success went unreported or an UNLOCK was refused. */
  lemma EveryLockIsUnlocked(names: Names, config: Config, tables: Tables, cancellers: nat, s: Migration)
    requires Reachable(names, config, tables, cancellers, s) && (s.run.Succeeded? || s.run.Failed?)
    ensures s.past.locks == s.past.unlocks
    ensures s.server.locked <==> s.past.lockLost || s.past.unlockRefused
  {
    ReachableIsInv(names, config, tables, cancellers, s);
  }

  lemma ReachableKeepsRows(names: Names, config: Config, tables: Tables, cancellers: nat, s: Migration)
    requires Reachable(names, config, tables, cancellers, s) && names.AreApart()
    ensures s.names == names && RowsInv(s)
    ensures names.AreDistinct() ==> GhostInPlace(s)
  {
    var start := Initial(names, config, tables, cancellers);
    var es :| Run(start, es) == Some(s);
    RunKeepsNames(start, es);
    RunKeepsRows(start, es);
    if names.AreDistinct() {
      RunKeepsGhost(start, es);
    }
  }

  /** If neither the ghost nor the changelog is named like the original or its `_old` table, the
      original rows are, in every state of every run, under the original's name or under the `_old`
      name, until a RENAME was reported done and the configuration has the `_old` table dropped.
      At most one RENAME is ever issued. */
  lemma OriginalRowsSurvive(names: Names, config: Config, tables: Tables, cancellers: nat, s: Migration)
    requires Reachable(names, config, tables, cancellers, s) && names.AreApart()
    ensures names.original in s.server.tables && s.past.renames <= 1
    ensures
      || s.server.tables[names.original] == Original
      || (names.Old() in s.server.tables && s.server.tables[names.Old()] == Original)
      || (s.past.renamed && config.dropOriginal)
  {
    ReachableKeepsRows(names, config, tables, cancellers, s);
    ReachableIsInv(names, config, tables, cancellers, s);
  }

  /** A run that reports success was renamed: the ghost is the original now and its own name is
      free.  If no drop of the clean-up was refused, the changelog is gone, and the `_old` name
      holds the original rows or, if so configured, nothing of the migration's. */
  lemma SuccessLeaves(names: Names, config: Config, tables: Tables, cancellers: nat, s: Migration)
    requires Reachable(names, config, tables, cancellers, s) && names.AreDistinct() && s.run.Succeeded?
    ensures s.past.renamed && s.past.renames == 1 && s.past.locks == s.past.unlocks
    ensures names.original in s.server.tables && s.server.tables[names.original] == Ghost
    ensures names.ghost_ !in s.server.tables
    ensures !config.dropOriginal ==> names.Old() in s.server.tables && s.server.tables[names.Old()] == Original
    ensures !s.past.dropRefused ==> names.changelog !in s.server.tables
    ensures !s.past.dropRefused && config.dropOriginal && names.Old() in s.server.tables ==>
      s.server.tables[names.Old()] == Foreign
  {
    ReachableKeepsRows(names, config, tables, cancellers, s);
    ReachableIsInv(names, config, tables, cancellers, s);
  }

  // ---- Which names are safe ----

  lemma {:induction false} RunAppend(s: Migration, es: seq<Event>, more: seq<Event>)
    requires Run(s, es).Some?
    ensures Run(s, es + more) == Run(Run(s, es).value, more)
    decreases |es|
  {
    if es == [] {
      assert es + more == more;
    } else {
      assert (es + more)[1..] == es[1..] + more;
      RunAppend(Step(s, es[0]), es[1..], more);
    }
  }

  /** The step is another session's. */
  predicate IsElsewhere(e: Event) {
    e.CreateElsewhere? || e.DropElsewhere?
  }

  predicate OnlyOurs(es: seq<Event>) {
    forall e <- es :: !IsElsewhere(e)
  }

  /** Some run in which no other session touches a table leads to `s`. */
  ghost predicate Alone(names: Names, config: Config, tables: Tables, cancellers: nat, s: Migration) {
    IsStart(names, tables) &&
    exists es :: OnlyOurs(es) && Run(Initial(names, config, tables, cancellers), es) == Some(s)
  }

  lemma AloneIsReachable(names: Names, config: Config, tables: Tables, cancellers: nat, s: Migration)
    requires Alone(names, config, tables, cancellers, s)
    ensures Reachable(names, config, tables, cancellers, s)
  {
  }

  lemma ReachOn(names: Names, config: Config, tables: Tables, cancellers: nat, s: Migration, e: Event)
    requires Alone(names, config, tables, cancellers, s) && Enabled(s, e) && !IsElsewhere(e)
    ensures Alone(names, config, tables, cancellers, Step(s, e))
  {
    var start := Initial(names, config, tables, cancellers);
    var es :| OnlyOurs(es) && Run(start, es) == Some(s);
    RunAppend(start, es, [e]);
    assert Run(Step(s, e), []) == Some(Step(s, e));
    assert OnlyOurs(es + [e]);
  }

  lemma ReachStart(names: Names, config: Config, tables: Tables, cancellers: nat)
    requires IsStart(names, tables)
    ensures Alone(names, config, tables, cancellers, Initial(names, config, tables, cancellers))
  {
    var s := Initial(names, config, tables, cancellers);
    assert Run(s, []) == Some(s) && OnlyOurs([]);
  }

  lemma StepKeepsOriginal(s: Migration, e: Event)
    requires s.names.original != s.names.ghost_ && s.names.original != s.names.changelog
    requires Enabled(s, e) && s.names.original in s.server.tables
    ensures s.names.original in Step(s, e).server.tables
  {
    OldDiffers(s.names);
    if !IsIssue(s, e) && !e.CreateElsewhere? && !e.DropElsewhere? {
      QuietStep(s, e);
    }
  }

  lemma {:induction false} RunKeepsOriginal(s: Migration, es: seq<Event>)
    requires s.names.original != s.names.ghost_ && s.names.original != s.names.changelog
    requires Run(s, es).Some? && s.names.original in s.server.tables
    ensures s.names.original in Run(s, es).value.server.tables
    decreases |es|
  {
    if es != [] {
      StepKeepsOriginal(s, es[0]);
      NamesStay(s, es[0]);
      RunKeepsOriginal(Step(s, es[0]), es[1..]);
    }
  }

  lemma ReachTo(names: Names, config: Config, tables: Tables, s: Migration, e: Event, t: Migration)
    requires Alone(names, config, tables, 0, s) && Enabled(s, e) && !IsElsewhere(e) && Step(s, e) == t
    ensures Alone(names, config, tables, 0, t)
  {
    ReachOn(names, config, tables, 0, s, e);
  }

  lemma FailingStep(names: Names, config: Config, tables: Tables, s: Migration, step: Cleanup) returns (t: Migration)
    requires Alone(names, config, tables, 0, s) && s.run == Failing(step) && !step.CleanedUp?
    ensures Alone(names, config, tables, 0, t)
    ensures t.names == s.names && t.server == s.server && t.past == s.past && t.run == Failing(AfterCleanup(step))
  {
    var e := RunStep(false, Refused, 0);
    t := Step(s, e);
    ReachOn(names, config, tables, 0, s, e);
  }

  lemma FailingStops(names: Names, config: Config, tables: Tables, s: Migration) returns (t: Migration)
    requires Alone(names, config, tables, 0, s) && s.run == Failing(StopRunning)
    ensures Alone(names, config, tables, 0, t)
    ensures t.names == s.names && t.server == s.server && t.past == s.past && t.run == Failing(StopQueue)
  {
    t := FailingStep(names, config, tables, s, StopRunning);
    t := FailingStep(names, config, tables, t, SetCancelled);
  }

  /** HandleError at work, up to CleanupOnError's drop of the changelog. */
  lemma FailingReaches(names: Names, config: Config, tables: Tables, s: Migration) returns (t: Migration)
    requires Alone(names, config, tables, 0, s) && s.run == Failing(StopRunning)
    ensures Alone(names, config, tables, 0, t)
    ensures t.names == s.names && t.server == s.server && t.past == s.past && t.run == Failing(DropChangelog)
  {
    t := FailingStops(names, config, tables, s);
    t := FailingStep(names, config, tables, t, StopQueue);
    t := FailingStep(names, config, tables, t, DropGhost);
  }

  /** A run whose setup fails. */
  lemma SetupFails(names: Names, config: Config, tables: Tables) returns (s: Migration)
    requires IsStart(names, tables)
    ensures Alone(names, config, tables, 0, s)
    ensures s.names == names && s.server.tables == tables && s.run == Failing(DropChangelog)
  {
    var e := RunStep(false, Refused, 0);
    var start := Initial(names, config, tables, 0);
    ReachStart(names, config, tables, 0);
    var up := start.(flags := start.flags.(running := true), run := Setup);
    ReachTo(names, config, tables, start, e, up);
    ReachTo(names, config, tables, up, e, up.(run := Failing(StopRunning)));
    s := FailingReaches(names, config, tables, up.(run := Failing(StopRunning)));
  }

  /** A run that is told a table with the ghost's name exists, up to dropping it. */
  lemma StaleGhost(names: Names, config: Config, tables: Tables) returns (s: Migration)
    requires IsStart(names, tables)
    ensures Alone(names, config, tables, 0, s)
    ensures s.names == names && s.server.tables == tables && s.run == DropStaleGhost
  {
    var e := RunStep(true, Refused, 0);
    var start := Initial(names, config, tables, 0);
    ReachStart(names, config, tables, 0);
    s := start.(flags := start.flags.(running := true), run := Setup);
    ReachTo(names, config, tables, start, e, s);
    ReachTo(names, config, tables, s, e, s.(run := AskGhost));
    ReachTo(names, config, tables, s.(run := AskGhost), e, s.(run := DropStaleGhost));
    s := s.(run := DropStaleGhost);
  }

  /** A table with the original's name exists in every state of every run exactly when neither the
      ghost nor the changelog is configured to have that name. */
  lemma OriginalAlwaysExistsIff(names: Names)
    ensures
      (forall config, tables, cancellers, s ::
        Reachable(names, config, tables, cancellers, s) ==> names.original in s.server.tables)
      <==> names.original != names.ghost_ && names.original != names.changelog
  {
    var config, tables := Config(true, true, false), map[names.original := Original];
    if names.original == names.changelog {
      var s := SetupFails(names, config, tables);
      ReachOn(names, config, tables, 0, s, RunStep(true, Done, 0));
      AloneIsReachable(names, config, tables, 0, Step(s, RunStep(true, Done, 0)));
      assert names.original !in Step(s, RunStep(true, Done, 0)).server.tables;
    } else if names.original == names.ghost_ {
      var s := StaleGhost(names, config, tables);
      ReachOn(names, config, tables, 0, s, RunStep(true, Done, 0));
      AloneIsReachable(names, config, tables, 0, Step(s, RunStep(true, Done, 0)));
      assert names.original !in Step(s, RunStep(true, Done, 0)).server.tables;
    } else {
      forall config, tables, cancellers, s | Reachable(names, config, tables, cancellers, s)
        ensures names.original in s.server.tables
      {
        var es :| Run(Initial(names, config, tables, cancellers), es) == Some(s);
        RunKeepsOriginal(Initial(names, config, tables, cancellers), es);
      }
    }
  }

  /** The step takes away or replaces a table that is not the migration's. */
  predicate LosesOld(s: Migration, e: Event)
    requires Enabled(s, e)
  {
    var old_ := s.names.Old();
    && !e.DropElsewhere?
    && old_ in s.server.tables && s.server.tables[old_] == Foreign
    && !(old_ in Step(s, e).server.tables && Step(s, e).server.tables[old_] == Foreign)
  }

  /** Under the original's name before the RENAME, and under the `_old` name from there to its
      drop, stands a table of the migration. */
  ghost predicate OldIsOurs(s: Migration) {
    var tables, n := s.server.tables, s.names;
    && (EraOf(s.run).Early? || EraOf(s.run).Made? ==> n.original in tables ==> tables[n.original] != Foreign)
    && (s.run.Unlock? || s.run.DropOld? ==> n.Old() in tables && tables[n.Old()] != Foreign)
  }

  predicate OldIsApart(n: Names) {
    n.Old() != n.ghost_ && n.Old() != n.changelog
  }

  lemma CutOverMovesOriginal(s: Server, n: Names)
    requires n.Old() != n.ghost_ && Execute(s, n.CutOver()).Some?
    ensures var t := Execute(s, n.CutOver()).value.tables;
      && n.original in s.tables && n.Old() !in s.tables
      && n.Old() in t && t[n.Old()] == s.tables[n.original]
  {
    OldDiffers(n);
  }

  lemma IssueKeepsOld(s: Migration, d: Ddl, outcome: Outcome)
    requires OldIsApart(s.names) && StatementAt(s.names, s.run) == Some(d) && CanEnd(s.server, d, outcome)
    requires OldIsOurs(s)
    ensures OldIsOurs(Issue(s, d, outcome))
  {
    OldDiffers(s.names);
    if s.run.Rename? && outcome != Refused {
      CutOverMovesOriginal(s.server, s.names);
    }
  }

  lemma StepKeepsOld(s: Migration, e: Event)
    requires OldIsApart(s.names) && Enabled(s, e) && OldIsOurs(s)
    ensures OldIsOurs(Step(s, e)) && !LosesOld(s, e)
  {
    OldDiffers(s.names);
    if IsIssue(s, e) {
      IssueKeepsOld(s, StatementAt(s.names, s.run).value, e.outcome);
      IssueSparesOld(s, e);
    } else if !e.CreateElsewhere? && !e.DropElsewhere? {
      QuietStep(s, e);
    }
  }

  lemma IssueSparesOld(s: Migration, e: Event)
    requires OldIsApart(s.names) && Enabled(s, e) && IsIssue(s, e) && OldIsOurs(s)
    ensures !LosesOld(s, e)
  {
    OldDiffers(s.names);
    if s.run.Rename? && e.outcome != Refused {
      CutOverMovesOriginal(s.server, s.names);
    }
  }

  lemma {:induction false} RunKeepsOld(s: Migration, es: seq<Event>)
    requires Run(s, es).Some? && OldIsApart(s.names) && OldIsOurs(s)
    ensures OldIsOurs(Run(s, es).value)
    decreases |es|
  {
    if es != [] {
      StepKeepsOld(s, es[0]);
      NamesStay(s, es[0]);
      RunKeepsOld(Step(s, es[0]), es[1..]);
    }
  }

  lemma OldIsSpared(names: Names, config: Config, tables: Tables, cancellers: nat, s: Migration, e: Event)
    requires OldIsApart(names) && Reachable(names, config, tables, cancellers, s) && Enabled(s, e)
    ensures !LosesOld(s, e)
  {
    var start := Initial(names, config, tables, cancellers);
    var es :| Run(start, es) == Some(s);
    RunKeepsNames(start, es);
    RunKeepsOld(start, es);
    StepKeepsOld(s, e);
  }

  /** A run that drops the `_old` table under the name it was given for its ghost or changelog. */
  lemma OldIsLost(names: Names) returns (config: Config, tables: Tables, s: Migration, e: Event)
    requires !OldIsApart(names)
    ensures Reachable(names, config, tables, 0, s) && Enabled(s, e) && LosesOld(s, e)
  {
    OldDiffers(names);
    config, tables := Config(true, true, false), map[names.original := Original, names.Old() := Foreign];
    e := RunStep(true, Done, 0);
    if names.Old() == names.changelog {
      s := SetupFails(names, config, tables);
    } else {
      s := StaleGhost(names, config, tables);
    }
    AloneIsReachable(names, config, tables, 0, s);
    DropLosesOld(s, e);
  }

  lemma DropLosesOld(s: Migration, e: Event)
    requires s.names.Old() in s.server.tables && s.server.tables[s.names.Old()] == Foreign
    requires e == RunStep(true, Done, 0)
    requires (s.run == Failing(DropChangelog) && s.names.Old() == s.names.changelog)
          || (s.run == DropStaleGhost && s.names.Old() == s.names.ghost_)
    ensures Enabled(s, e) && LosesOld(s, e)
  {
  }

  /** A table somebody else keeps under the `_old` name is never dropped or replaced by any step of
      any run, exactly when neither the ghost nor the changelog is configured to have that name. */
  lemma OldNeverLostIff(names: Names)
    ensures
      (forall config, tables, cancellers, s, e ::
        Reachable(names, config, tables, cancellers, s) && Enabled(s, e) ==> !LosesOld(s, e))
      <==> names.Old() != names.ghost_ && names.Old() != names.changelog
  {
    if OldIsApart(names) {
      forall config, tables, cancellers, s, e | Reachable(names, config, tables, cancellers, s) && Enabled(s, e)
        ensures !LosesOld(s, e)
      {
        OldIsSpared(names, config, tables, cancellers, s, e);
      }
    } else {
      var config, tables, s, e := OldIsLost(names);
    }
  }

  /** No step of the migration creates, drops or replaces a table under any other name. */
  lemma OtherTablesUntouched(s: Migration, e: Event, name: string)
    requires Enabled(s, e) && !e.CreateElsewhere? && !e.DropElsewhere?
    requires IsOthers(s.names, name) && name != s.names.Old()
    ensures name in s.server.tables <==> name in Step(s, e).server.tables
    ensures name in s.server.tables ==> Step(s, e).server.tables[name] == s.server.tables[name]
  {
    if !IsIssue(s, e) {
      QuietStep(s, e);
    }
  }

  // ---- The empty pop that closes the events thread ----

  /** The ghost and changelog tables get made, whatever was left under their names. */
  lemma TablesMade(names: Names, config: Config, tables: Tables) returns (s: Migration)
    requires IsStart(names, tables) && names.AreDistinct()
    ensures Alone(names, config, tables, 0, s)
    ensures s == Initial(names, config, tables, 0).(
      flags := Flags(true, false, false, false, true), run := Prepare,
      server := Server(tables[names.ghost_ := Ghost][names.changelog := Changelog], false))
  {
    var yes := RunStep(true, Done, 0);
    var start := Initial(names, config, tables, 0);
    ReachStart(names, config, tables, 0);
    s := start.(flags := start.flags.(running := true), run := Setup);
    ReachTo(names, config, tables, start, yes, s);
    ReachTo(names, config, tables, s, yes, s.(run := AskGhost));
    s := GhostMade(names, config, tables, s.(run := AskGhost));
    s := ChangelogMade(names, config, tables, s);
    ReachTo(names, config, tables, s, yes, s.(flags := s.flags.(migrated := true), run := Prepare));
    s := s.(flags := s.flags.(migrated := true), run := Prepare);
  }

  lemma GhostAsked(names: Names, config: Config, tables: Tables, s: Migration) returns (t: Migration)
    requires Alone(names, config, tables, 0, s) && s.run.AskGhost? && s.names == names
    ensures Alone(names, config, tables, 0, t)
    ensures t == s.(server := s.server.(tables := s.server.tables - {names.ghost_}), run := CreateGhost)
  {
    var old_ := s.server.tables;
    t := s.(server := s.server.(tables := old_ - {names.ghost_}), run := CreateGhost);
    if names.ghost_ in old_ {
      ReachTo(names, config, tables, s, RunStep(true, Done, 0), s.(run := DropStaleGhost));
      ReachTo(names, config, tables, s.(run := DropStaleGhost), RunStep(true, Done, 0), t);
    } else {
      assert old_ - {names.ghost_} == old_;
      ReachTo(names, config, tables, s, RunStep(false, Done, 0), t);
    }
  }

  lemma GhostMade(names: Names, config: Config, tables: Tables, s: Migration) returns (t: Migration)
    requires Alone(names, config, tables, 0, s) && s.run.AskGhost? && s.names == names
    requires names.original in s.server.tables && names.original != names.ghost_
    ensures Alone(names, config, tables, 0, t)
    ensures t == s.(server := s.server.(tables := s.server.tables[names.ghost_ := Ghost]), run := AskChangelog)
  {
    var m := GhostAsked(names, config, tables, s);
    t := s.(server := s.server.(tables := s.server.tables[names.ghost_ := Ghost]), run := AskChangelog);
    assert (s.server.tables - {names.ghost_})[names.ghost_ := Ghost] == t.server.tables;
    ReachTo(names, config, tables, m, RunStep(true, Done, 0), t);
  }

  lemma ChangelogAsked(names: Names, config: Config, tables: Tables, s: Migration) returns (t: Migration)
    requires Alone(names, config, tables, 0, s) && s.run.AskChangelog? && s.names == names
    ensures Alone(names, config, tables, 0, t)
    ensures t == s.(server := s.server.(tables := s.server.tables - {names.changelog}), run := Stage.CreateChangelog)
  {
    var old_ := s.server.tables;
    t := s.(server := s.server.(tables := old_ - {names.changelog}), run := Stage.CreateChangelog);
    if names.changelog in old_ {
      ReachTo(names, config, tables, s, RunStep(true, Done, 0), s.(run := DropStaleChangelog));
      ReachTo(names, config, tables, s.(run := DropStaleChangelog), RunStep(true, Done, 0), t);
    } else {
      assert old_ - {names.changelog} == old_;
      ReachTo(names, config, tables, s, RunStep(false, Done, 0), t);
    }
  }

  lemma ChangelogMade(names: Names, config: Config, tables: Tables, s: Migration) returns (t: Migration)
    requires Alone(names, config, tables, 0, s) && s.run.AskChangelog? && s.names == names
    ensures Alone(names, config, tables, 0, t)
    ensures t == s.(server := s.server.(tables := s.server.tables[names.changelog := Changelog]), run := MarkMigrated)
  {
    var m := ChangelogAsked(names, config, tables, s);
    t := s.(server := s.server.(tables := s.server.tables[names.changelog := Changelog]), run := MarkMigrated);
    assert (s.server.tables - {names.changelog})[names.changelog := Changelog] == t.server.tables;
    ReachTo(names, config, tables, m, RunStep(true, Done, 0), t);
  }

  lemma ThreadsSpawned(names: Names, config: Config, tables: Tables, s: Migration) returns (t: Migration)
    requires Alone(names, config, tables, 0, s) && s.run.Prepare?
    ensures Alone(names, config, tables, 0, t)
    ensures t == s.(total := 0, copy := CopyStage.ReadRunning, events := EventsStage.ReadRunning,
                    run := CopyLoop(OfRunning))
  {
    var e := RunStep(true, Done, 0);
    t := s.(total := 0, run := SpawnCopy);
    ReachTo(names, config, tables, s, e, t);
    ReachTo(names, config, tables, t, e, t.(copy := CopyStage.ReadRunning, run := SpawnEvents));
    t := t.(copy := CopyStage.ReadRunning, run := SpawnEvents);
    ReachTo(names, config, tables, t, e, t.(events := EventsStage.ReadRunning, run := CopyLoop(OfRunning)));
    t := t.(events := EventsStage.ReadRunning, run := CopyLoop(OfRunning));
  }

  lemma EventsFindNothing(names: Names, config: Config, tables: Tables, s: Migration) returns (t: Migration)
    requires Alone(names, config, tables, 0, s) && s.events.ReadRunning?
    requires s.flags.running && !s.flags.cancelled && !s.queue.stopped && s.queue.taken >= s.queue.queued
    ensures Alone(names, config, tables, 0, t)
    ensures t == s.(events := ReadComplete, queue := s.queue.(emptyAt := s.queue.queued))
  {
    ReachTo(names, config, tables, s, EventsStep, s.(events := EventsStage.ReadCancelled));
    ReachTo(names, config, tables, s.(events := EventsStage.ReadCancelled), EventsStep, s.(events := Pop));
    t := s.(events := ReadComplete, queue := s.queue.(emptyAt := s.queue.queued));
    ReachTo(names, config, tables, s.(events := Pop), EventsStep, t);
  }

  lemma EventQueued(names: Names, config: Config, tables: Tables, s: Migration) returns (t: Migration)
    requires Alone(names, config, tables, 0, s) && !s.queue.stopped
    ensures Alone(names, config, tables, 0, t) && t == s.(queue := s.queue.(queued := s.queue.queued + 1))
  {
    ReachOn(names, config, tables, 0, s, Queue);
    t := Step(s, Queue);
  }

  lemma CopyFindsNothing(names: Names, config: Config, tables: Tables, s: Migration) returns (t: Migration)
    requires Alone(names, config, tables, 0, s) && s.copy.ReadRunning?
    requires s.flags.running && !s.flags.cancelled && s.copied >= s.total
    ensures Alone(names, config, tables, 0, t)
    ensures t == s.(copy := CopyStage.Ended, flags := s.flags.(complete := true),
                    queue := s.queue.(completeAt := s.queue.queued))
  {
    var e := CopyStep(true, 0, false);
    ReachTo(names, config, tables, s, e, s.(copy := CopyStage.ReadCancelled));
    ReachTo(names, config, tables, s.(copy := CopyStage.ReadCancelled), e, s.(copy := ReadPaused));
    ReachTo(names, config, tables, s.(copy := ReadPaused), e, s.(copy := Compare));
    t := s.(copy := CopyStage.Ended, flags := s.flags.(complete := true),
            queue := s.queue.(completeAt := s.queue.queued));
    ReachTo(names, config, tables, s.(copy := Compare), e, t);
  }

  lemma EventsClose(names: Names, config: Config, tables: Tables, s: Migration) returns (t: Migration)
    requires Alone(names, config, tables, 0, s) && s.events.ReadComplete? && s.flags.complete
    ensures Alone(names, config, tables, 0, t)
    ensures t == s.(events := EventsStage.Ended, flags := s.flags.(processed := true))
  {
    ReachTo(names, config, tables, s, EventsStep, s.(events := MarkProcessed));
    t := s.(events := EventsStage.Ended, flags := s.flags.(processed := true));
    ReachTo(names, config, tables, s.(events := MarkProcessed), EventsStep, t);
  }

  lemma AdvanceTo(names: Names, config: Config, tables: Tables, s: Migration, t: Migration)
    requires Alone(names, config, tables, 0, s) && Advance(s, true, 0) == t
    requires StatementAt(s.names, s.run).None? && !s.run.Failing? && RunEnabled(s, Refused)
    ensures Alone(names, config, tables, 0, t)
  {
    ReachOn(names, config, tables, 0, s, RunStep(true, Refused, 0));
  }

  lemma CopyLoopLeft(names: Names, config: Config, tables: Tables, s: Migration)
    requires Alone(names, config, tables, 0, s) && s.run == CopyLoop(OfRunning)
    requires s.flags.running && s.flags.complete
    ensures Alone(names, config, tables, 0, s.(run := JoinThreads))
  {
    AdvanceTo(names, config, tables, s, s.(run := CopyLoop(OfProgress)));
    AdvanceTo(names, config, tables, s.(run := CopyLoop(OfProgress)), s.(run := JoinThreads));
  }

  lemma CopyPhaseLeft(names: Names, config: Config, tables: Tables, s: Migration)
    requires Alone(names, config, tables, 0, s) && s.run == CopyLoop(OfRunning)
    requires s.flags.running && !s.flags.cancelled && s.flags.complete && s.copy.Ended? && s.events.Ended?
    ensures Alone(names, config, tables, 0, s.(run := CutLoop(OfRunning)))
  {
    CopyLoopLeft(names, config, tables, s);
    AdvanceTo(names, config, tables, s.(run := JoinThreads), s.(run := LeaveCopy));
    AdvanceTo(names, config, tables, s.(run := LeaveCopy), s.(run := CutLoop(OfRunning)));
  }

  lemma CutLoopLeft(names: Names, config: Config, tables: Tables, s: Migration)
    requires Alone(names, config, tables, 0, s) && s.run == CutLoop(OfRunning)
    requires s.flags.running && s.flags.processed
    ensures Alone(names, config, tables, 0, s.(run := LeaveCutLoop))
  {
    AdvanceTo(names, config, tables, s, s.(run := CutLoop(OfProgress)));
    AdvanceTo(names, config, tables, s.(run := CutLoop(OfProgress)), s.(run := LeaveCutLoop));
  }

  lemma GatesPassed(names: Names, config: Config, tables: Tables, s: Migration)
    requires Alone(names, config, tables, 0, s) && s.run == CutLoop(OfRunning)
    requires s.flags.running && !s.flags.cancelled && s.flags.processed && !s.config.postponeCutOver
    ensures Alone(names, config, tables, 0, s.(run := LockOriginal))
  {
    CutLoopLeft(names, config, tables, s);
    AdvanceTo(names, config, tables, s.(run := LeaveCutLoop), s.(run := AskPostponed));
    AdvanceTo(names, config, tables, s.(run := AskPostponed), s.(run := LockOriginal));
  }

  lemma OriginalLocked(names: Names, config: Config, tables: Tables, s: Migration) returns (t: Migration)
    requires Alone(names, config, tables, 0, s) && s.run.LockOriginal? && s.names.original in s.server.tables
    ensures Alone(names, config, tables, 0, t) && t.run.Rename? && t.queue == s.queue
  {
    var e := RunStep(true, Done, 0);
    ReachOn(names, config, tables, 0, s, e);
    t := Step(s, e);
  }

  /** The events thread reads the completion flag after its pop, so the empty pop that lets the
      cut-over begin can come before row copy is complete: here an event that was queued before
      completion is still in the queue when the RENAME is about to be issued. */
  lemma EmptyPopMayPrecedeCompletion() returns (names: Names, config: Config, tables: Tables, s: Migration)
    ensures Reachable(names, config, tables, 0, s) && names.AreDistinct() && s.run.Rename?
    ensures s.queue.applied < s.queue.completeAt
  {
    names, config, tables := DefaultNames("t"), Config(true, true, false), map["t" := Original];
    DefaultNamesAreDistinct("t");
    s := TablesMade(names, config, tables);
    s := ThreadsSpawned(names, config, tables, s);
    s := EventsFindNothing(names, config, tables, s);
    s := EventQueued(names, config, tables, s);
    s := CopyFindsNothing(names, config, tables, s);
    s := EventsClose(names, config, tables, s);
    CopyPhaseLeft(names, config, tables, s);
    GatesPassed(names, config, tables, s.(run := CutLoop(OfRunning)));
    s := OriginalLocked(names, config, tables, s.(run := LockOriginal));
    AloneIsReachable(names, config, tables, 0, s);
  }

  /** The step marks row copy complete between the events thread's pop from an empty queue and its
      look at the completion flag, with an event queued in between. */
  predicate CompletesBehindEmptyPop(s: Migration, e: Event) {
    && e.CopyStep? && s.copy.Compare? && s.copied >= s.total
    && s.events.ReadComplete? && s.queue.queued > s.queue.taken
  }

  predicate NeverCompletesBehindEmptyPop(s: Migration, es: seq<Event>)
    requires Run(s, es).Some?
    decreases |es|
  {
    es == [] || (!CompletesBehindEmptyPop(s, es[0]) && NeverCompletesBehindEmptyPop(Step(s, es[0]), es[1..]))
  }

  /** Events queued before completion are, or will be, left behind. */
  predicate LeavesEvents(s: Migration) {
    && s.flags.complete && s.queue.taken < s.queue.completeAt
    && (s.events.ReadComplete? || s.events.MarkProcessed? || s.events.Ended?)
  }

  /** Once the events thread is about to close, or has, everything queued before completion has
      been taken, unless the run was cancelled before the gate. */
  predicate TakesEvents(s: Migration) {
    && (s.flags.complete && (s.events.ReadComplete? || s.events.MarkProcessed? || s.flags.processed) ==>
          s.queue.taken >= s.queue.completeAt || s.flags.cancelled)
    && (IsPastGate(s.run) ==> s.queue.taken >= s.queue.completeAt)
  }

  predicate IsPastGate(stage: Stage) {
    IsCutOver(stage) || stage.AskPostponed? || stage.Postponed? || stage.LeavePostponed?
  }

  lemma CopyTakesEvents(s: Migration, e: Event)
    requires Enabled(s, e) && e.CopyStep? && Inv(s) && TakesEvents(s)
    ensures if CompletesBehindEmptyPop(s, e) then LeavesEvents(Step(s, e)) else TakesEvents(Step(s, e))
  {
  }

  lemma EventsTakeEvents(s: Migration)
    requires Enabled(s, EventsStep) && Inv(s) && TakesEvents(s)
    ensures TakesEvents(StepEvents(s))
  {
  }

  lemma AdvanceTakesEvents(s: Migration, ok: bool, outcome: Outcome, total: nat)
    requires StatementAt(s.names, s.run).None? && !s.run.Failing? && RunEnabled(s, outcome)
    requires Inv(s) && TakesEvents(s)
    ensures TakesEvents(Advance(s, ok, total))
  {
  }

  lemma RunTakesEvents(s: Migration, ok: bool, outcome: Outcome, total: nat)
    requires RunEnabled(s, outcome) && Inv(s) && TakesEvents(s)
    ensures TakesEvents(StepRun(s, ok, outcome, total))
  {
    if StatementAt(s.names, s.run).None? && !s.run.Failing? {
      AdvanceTakesEvents(s, ok, outcome, total);
    }
  }

  lemma CancelTakesEvents(s: Migration, i: nat, outcome: Outcome)
    requires Enabled(s, CancelStep(i, outcome)) && TakesEvents(s)
    ensures TakesEvents(StepCancel(s, i, outcome))
  {
  }

  lemma StepTakesEvents(s: Migration, e: Event)
    requires Enabled(s, e) && Inv(s) && TakesEvents(s)
    ensures if CompletesBehindEmptyPop(s, e) then LeavesEvents(Step(s, e)) else TakesEvents(Step(s, e))
  {
    match e
    case RunStep(ok, outcome, total) => RunTakesEvents(s, ok, outcome, total);
    case CopyStep(_, _, _) => CopyTakesEvents(s, e);
    case EventsStep => EventsTakeEvents(s);
    case CancelStep(i, outcome) => CancelTakesEvents(s, i, outcome);
    case _ =>
  }

  lemma StepLeavesEvents(s: Migration, e: Event)
    requires Enabled(s, e) && ProgressIsHonest(s) && LeavesEvents(s)
    ensures LeavesEvents(Step(s, e))
  {
    match e
    case RunStep(ok, outcome, total) => RunLeavesEvents(s, ok, outcome, total);
    case CancelStep(i, outcome) => CancelLeavesEvents(s, i, outcome);
    case _ =>
  }

  lemma RunLeavesEvents(s: Migration, ok: bool, outcome: Outcome, total: nat)
    requires RunEnabled(s, outcome) && ProgressIsHonest(s) && LeavesEvents(s)
    ensures LeavesEvents(StepRun(s, ok, outcome, total))
  {
  }

  lemma CancelLeavesEvents(s: Migration, i: nat, outcome: Outcome)
    requires Enabled(s, CancelStep(i, outcome)) && LeavesEvents(s)
    ensures LeavesEvents(StepCancel(s, i, outcome))
  {
  }

  lemma {:induction false} RunLeavesEventsBehind(s: Migration, es: seq<Event>)
    requires Run(s, es).Some? && Inv(s) && LeavesEvents(s)
    ensures LeavesEvents(Run(s, es).value)
    decreases |es|
  {
    if es != [] {
      StepKeepsInv(s, es[0]);
      StepLeavesEvents(s, es[0]);
      RunLeavesEventsBehind(Step(s, es[0]), es[1..]);
    }
  }

  lemma {:induction false} RunTakesEventsIff(s: Migration, es: seq<Event>)
    requires Run(s, es).Some? && Inv(s) && TakesEvents(s)
    ensures var t := Run(s, es).value;
      if NeverCompletesBehindEmptyPop(s, es) then TakesEvents(t) else LeavesEvents(t)
    decreases |es|
  {
    if es != [] {
      var next := Step(s, es[0]);
      StepKeepsInv(s, es[0]);
      StepTakesEvents(s, es[0]);
      if CompletesBehindEmptyPop(s, es[0]) {
        RunLeavesEventsBehind(next, es[1..]);
      } else {
        RunTakesEventsIff(next, es[1..]);
      }
    }
  }

  /** In a run that comes to the RENAME, every event queued before row copy was complete has been
      applied exactly if completion never fell between an empty pop and the look at the flag. */
  lemma EarlyEventsAppliedIff(names: Names, config: Config, tables: Tables, cancellers: nat, es: seq<Event>)
    requires var start := Initial(names, config, tables, cancellers);
      Run(start, es).Some? && Run(start, es).value.run.Rename?
    ensures var start := Initial(names, config, tables, cancellers);
      var q := Run(start, es).value.queue;
      q.applied >= q.completeAt <==> NeverCompletesBehindEmptyPop(start, es)
  {
    var start := Initial(names, config, tables, cancellers);
    RunKeepsInv(start, es);
    RunTakesEventsIff(start, es);
  }

  // ---- A lock left behind ----

  /** A run of a table without rows that nothing goes wrong in, up to the lock. */
  lemma GatesOpen(names: Names, config: Config, tables: Tables) returns (s: Migration)
    requires IsStart(names, tables) && names.AreDistinct() && !config.postponeCutOver
    ensures Alone(names, config, tables, 0, s)
    ensures s.names == names && s.config == config && s.run.LockOriginal? && s.cancellers == []
    ensures s.past == Past(0, 0, false, false, 0, false, false, false, false)
    ensures s.server.tables == tables[names.ghost_ := Ghost][names.changelog := Changelog]
  {
    s := TablesMade(names, config, tables);
    s := ThreadsSpawned(names, config, tables, s);
    s := EventsFindNothing(names, config, tables, s);
    s := CopyFindsNothing(names, config, tables, s);
    s := EventsClose(names, config, tables, s);
    CopyPhaseLeft(names, config, tables, s);
    GatesPassed(names, config, tables, s.(run := CutLoop(OfRunning)));
    s := s.(run := LockOriginal);
  }

  lemma LockLost(names: Names, config: Config, tables: Tables, s: Migration) returns (t: Migration)
    requires Alone(names, config, tables, 0, s) && s.run.LockOriginal? && s.names.original in s.server.tables
    ensures Alone(names, config, tables, 0, t)
    ensures t.run == Failing(StopRunning) && t.server.locked && t.past.unlocks == s.past.unlocks
  {
    var e := RunStep(true, Lost, 0);
    ReachOn(names, config, tables, 0, s, e);
    t := Step(s, e);
  }

  /** HandleError to its end, with its drops refused. */
  lemma FailingEnds(names: Names, config: Config, tables: Tables, s: Migration) returns (t: Migration)
    requires Alone(names, config, tables, 0, s) && s.run == Failing(StopRunning)
    ensures Alone(names, config, tables, 0, t)
    ensures t.run.Failed? && t.server == s.server && t.past == s.past
  {
    t := FailingReaches(names, config, tables, s);
    t := FailingStep(names, config, tables, t, DropChangelog);
    t := FailingOver(names, config, tables, t);
  }

  lemma FailingOver(names: Names, config: Config, tables: Tables, s: Migration) returns (t: Migration)
    requires Alone(names, config, tables, 0, s) && s.run == Failing(CleanedUp)
    ensures Alone(names, config, tables, 0, t)
    ensures t.run.Failed? && t.server == s.server && t.past == s.past
  {
    t := s.(run := Failed);
    ReachTo(names, config, tables, s, RunStep(false, Refused, 0), t);
  }

  /** A run that has failed and still holds the original's lock, having issued no UNLOCK: the
      lock was taken, but its success was not reported. */
  lemma LockLeftBehind() returns (names: Names, config: Config, tables: Tables, s: Migration)
    ensures Reachable(names, config, tables, 0, s) && names.AreDistinct()
    ensures s.run.Failed? && s.server.locked && s.past.unlocks == 0
  {
    names, config, tables := DefaultNames("t"), Config(true, false, false), map["t" := Original];
    DefaultNamesAreDistinct("t");
    s := GatesOpen(names, config, tables);
    s := LockLost(names, config, tables, s);
    s := FailingEnds(names, config, tables, s);
    AloneIsReachable(names, config, tables, 0, s);
  }

  // ---- What success takes ----

  /** PhaseCleanup joins the heartbeat and throttle threads, whose loops go on until the run is
      stopped or cancelled, and it stops nothing but the streamer: the joins wait for somebody to
      cancel, and only then does the run report success. */
  lemma SuccessWaitsForCancel(names: Names, config: Config, tables: Tables, cancellers: nat, s: Migration)
    requires Reachable(names, config, tables, cancellers, s)
    ensures forall ok, outcome, total ::
      s.run.JoinHelper? ==> (Enabled(s, RunStep(ok, outcome, total)) <==> s.flags.cancelled)
    ensures s.run.Succeeded? ==> s.flags.cancelled
  {
    ReachableIsInv(names, config, tables, cancellers, s);
  }

  /** With nobody to call Cancel, only a failing run is cancelled. */
  predicate OnlyFailureCancels(s: Migration) {
    s.cancellers == [] && (s.flags.cancelled ==> s.run.Failing? || s.run.Failed?)
  }

  lemma StepKeepsUncancelled(s: Migration, e: Event)
    requires Enabled(s, e) && OnlyFailureCancels(s)
    ensures OnlyFailureCancels(Step(s, e))
  {
  }

  lemma {:induction false} RunKeepsUncancelled(s: Migration, es: seq<Event>)
    requires Run(s, es).Some? && OnlyFailureCancels(s)
    ensures OnlyFailureCancels(Run(s, es).value)
    decreases |es|
  {
    if es != [] {
      StepKeepsUncancelled(s, es[0]);
      RunKeepsUncancelled(Step(s, es[0]), es[1..]);
    }
  }

  lemma StatementDone(names: Names, config: Config, tables: Tables, s: Migration, d: Ddl) returns (t: Migration)
    requires Alone(names, config, tables, 0, s)
    requires StatementAt(s.names, s.run) == Some(d) && Execute(s.server, d).Some?
    ensures Alone(names, config, tables, 0, t) && t.names == s.names && t.cancellers == s.cancellers
    ensures t.run == AfterStatement(s.config, s.run, true) && t.server == Execute(s.server, d).value
  {
    t := Issue(s, d, Done);
    ReachOn(names, config, tables, 0, s, RunStep(true, Done, 0));
  }

  lemma LockTaken(names: Names, config: Config, tables: Tables, s: Migration) returns (t: Migration)
    requires Alone(names, config, tables, 0, s) && s.run.LockOriginal? && s.names.original in s.server.tables
    ensures Alone(names, config, tables, 0, t) && t.names == s.names && t.cancellers == s.cancellers
    ensures t.run.Rename? && t.server.tables == s.server.tables
  {
    t := StatementDone(names, config, tables, s, LockTable(s.names.original));
  }

  lemma CutOverDone(names: Names, config: Config, tables: Tables, s: Migration) returns (t: Migration)
    requires Alone(names, config, tables, 0, s) && s.run.Rename? && s.names.AreApart()
    requires s.names.original in s.server.tables && s.names.ghost_ in s.server.tables
    requires s.names.Old() !in s.server.tables
    ensures Alone(names, config, tables, 0, t) && t.run.Unlock? && t.cancellers == s.cancellers
  {
    CutOverEffect(s.server, s.names);
    t := StatementDone(names, config, tables, s, s.names.CutOver());
  }

  lemma Unlocked(names: Names, config: Config, tables: Tables, s: Migration) returns (t: Migration)
    requires Alone(names, config, tables, 0, s) && s.run.Unlock?
    ensures Alone(names, config, tables, 0, t) && t.names == s.names && t.cancellers == s.cancellers
    ensures t.run.DropOld? || t.run.DropHints?
  {
    t := StatementDone(names, config, tables, s, UnlockTables);
  }

  lemma OldDropped(names: Names, config: Config, tables: Tables, s: Migration) returns (t: Migration)
    requires Alone(names, config, tables, 0, s) && (s.run.DropOld? || s.run.DropHints?)
    ensures Alone(names, config, tables, 0, t) && t.names == s.names && t.cancellers == s.cancellers
    ensures t.run.DropHints?
  {
    t := s;
    if s.run.DropOld? {
      t := StatementDone(names, config, tables, s, DropIfExists(s.names.Old()));
    }
  }

  lemma HintsDropped(names: Names, config: Config, tables: Tables, s: Migration) returns (t: Migration)
    requires Alone(names, config, tables, 0, s) && s.run.DropHints?
    ensures Alone(names, config, tables, 0, t) && t.run.StopStream? && t.cancellers == s.cancellers
  {
    t := StatementDone(names, config, tables, s, DropIfExists(s.names.changelog));
  }

  lemma StreamStops(names: Names, config: Config, tables: Tables, s: Migration) returns (t: Migration)
    requires Alone(names, config, tables, 0, s) && s.run.StopStream?
    ensures Alone(names, config, tables, 0, t) && t.run == JoinHelper(Heartbeat) && t.cancellers == s.cancellers
  {
    t := s.(queue := s.queue.(stopped := true), run := JoinHelper(Heartbeat));
    AdvanceTo(names, config, tables, s, t);
  }

  /** A run that nobody cancels is also one with threads that could have. */
  lemma StepBeside(s: Migration, e: Event, cancellers: seq<CancelStage>)
    requires s.cancellers == [] && Enabled(s, e)
    ensures Enabled(s.(cancellers := cancellers), e)
    ensures Step(s.(cancellers := cancellers), e) == Step(s, e).(cancellers := cancellers)
    ensures Step(s, e).cancellers == []
  {
    if e.RunStep? {
      RunStepBeside(s, e, cancellers);
    }
  }

  lemma RunStepBeside(s: Migration, e: Event, cancellers: seq<CancelStage>)
    requires s.cancellers == [] && e.RunStep? && Enabled(s, e)
    ensures Enabled(s.(cancellers := cancellers), e)
    ensures Step(s.(cancellers := cancellers), e) == Step(s, e).(cancellers := cancellers)
    ensures Step(s, e).cancellers == []
  {
  }

  lemma {:induction false} RunBeside(s: Migration, es: seq<Event>, cancellers: seq<CancelStage>)
    requires s.cancellers == [] && Run(s, es).Some?
    ensures Run(s.(cancellers := cancellers), es) == Some(Run(s, es).value.(cancellers := cancellers))
    decreases |es|
  {
    if es != [] {
      StepBeside(s, es[0], cancellers);
      RunBeside(Step(s, es[0]), es[1..], cancellers);
    }
  }

  lemma ReachBeside(names: Names, config: Config, tables: Tables, s: Migration, cancellers: nat) returns (t: Migration)
    requires Alone(names, config, tables, 0, s)
    ensures Alone(names, config, tables, cancellers, t) && t.run == s.run
    ensures |t.cancellers| == cancellers && forall c <- t.cancellers :: c.Idle?
  {
    var start, beside := Initial(names, config, tables, 0), Initial(names, config, tables, cancellers);
    var es :| OnlyOurs(es) && Run(start, es) == Some(s);
    RunBeside(start, es, beside.cancellers);
    t := s.(cancellers := beside.cancellers);
    assert beside == start.(cancellers := beside.cancellers);
    assert Run(beside, es) == Some(t);
  }

  lemma CancelledAtJoin(names: Names, config: Config, tables: Tables, cancellers: nat, s: Migration)
    returns (t: Migration)
    requires Alone(names, config, tables, cancellers, s) && s.run.JoinHelper?
    requires s.cancellers != [] && s.cancellers[0].Idle?
    ensures Alone(names, config, tables, cancellers, t) && t.run == s.run && t.flags.cancelled
  {
    t := s.(flags := s.flags.(cancelled := true), cancellers := s.cancellers[0 := StoreRunning]);
    ReachOn(names, config, tables, cancellers, s, CancelStep(0, Done));
  }

  lemma HelperJoined(names: Names, config: Config, tables: Tables, cancellers: nat, s: Migration)
    returns (t: Migration)
    requires Alone(names, config, tables, cancellers, s) && s.run.JoinHelper? && s.flags.cancelled
    ensures Alone(names, config, tables, cancellers, t)
    ensures t.run == AfterJoin(s.run.helper) && t.flags == s.flags
  {
    t := s.(run := AfterJoin(s.run.helper));
    ReachOn(names, config, tables, cancellers, s, RunStep(true, Done, 0));
  }

  lemma SuccessWhenCancelled(names: Names, config: Config, tables: Tables, cancellers: nat) returns (s: Migration)
    requires IsStart(names, tables) && names.AreDistinct() && names.Old() !in tables
    requires !config.postponeCutOver && cancellers > 0
    ensures Alone(names, config, tables, cancellers, s) && s.run.Succeeded?
  {
    OldDiffers(names);
    s := GatesOpen(names, config, tables);
    s := LockTaken(names, config, tables, s);
    s := CutOverDone(names, config, tables, s);
    s := Unlocked(names, config, tables, s);
    s := OldDropped(names, config, tables, s);
    s := HintsDropped(names, config, tables, s);
    s := StreamStops(names, config, tables, s);
    s := ReachBeside(names, config, tables, s, cancellers);
    s := CancelledAtJoin(names, config, tables, cancellers, s);
    s := HelperJoined(names, config, tables, cancellers, s);
    s := HelperJoined(names, config, tables, cancellers, s);
  }

  /** Somebody's table stands under the `_old` name, and no RENAME was executed. */
  predicate OldIsTaken(s: Migration) {
    s.names.Old() in s.server.tables && !s.past.moved
  }

  lemma StepKeepsTaken(s: Migration, e: Event)
    requires s.names.AreApart() && Enabled(s, e) && !IsElsewhere(e) && RowsInv(s) && OldIsTaken(s)
    ensures OldIsTaken(Step(s, e))
  {
    OldDiffers(s.names);
    if IsIssue(s, e) {
      CutOverEffect(s.server, s.names);
    } else {
      QuietStep(s, e);
    }
  }

  lemma {:induction false} RunKeepsTaken(s: Migration, es: seq<Event>)
    requires s.names.AreApart() && Run(s, es).Some? && OnlyOurs(es) && RowsInv(s) && OldIsTaken(s)
    ensures OldIsTaken(Run(s, es).value) && RowsInv(Run(s, es).value)
    decreases |es|
  {
    if es != [] {
      StepKeepsTaken(s, es[0]);
      StepKeepsRows(s, es[0]);
      NamesStay(s, es[0]);
      RunKeepsTaken(Step(s, es[0]), es[1..]);
    }
  }

  lemma NeverOverTaken(names: Names, config: Config, tables: Tables, cancellers: nat, s: Migration)
    requires names.AreApart() && names.Old() in tables && Alone(names, config, tables, cancellers, s)
    ensures !s.run.Succeeded?
  {
    var start := Initial(names, config, tables, cancellers);
    var es :| OnlyOurs(es) && Run(start, es) == Some(s);
    RunKeepsTaken(start, es);
  }

  /** From any start, with tables of an earlier attempt under the ghost's and the changelog's names
      or not, and without any help from other sessions, some run reports success exactly when
      somebody may cancel it, the cut-over is not postponed and the `_old` name is free. */
  lemma SucceedsAloneIff(names: Names, config: Config, tables: Tables, cancellers: nat)
    requires IsStart(names, tables) && names.AreDistinct()
    ensures (exists s :: Alone(names, config, tables, cancellers, s) && s.run.Succeeded?)
      <==> cancellers > 0 && !config.postponeCutOver && names.Old() !in tables
  {
    if cancellers > 0 && !config.postponeCutOver && names.Old() !in tables {
      var s := SuccessWhenCancelled(names, config, tables, cancellers);
    } else {
      forall s | Alone(names, config, tables, cancellers, s) ensures !s.run.Succeeded? {
        if names.Old() in tables {
          NeverOverTaken(names, config, tables, cancellers, s);
        } else {
          AloneIsReachable(names, config, tables, cancellers, s);
          NeverSucceeds(names, config, tables, cancellers, s);
        }
      }
    }
  }

  /** The same whatever other sessions do, who may give the `_old` name free. */
  lemma CanSucceedIff(names: Names, config: Config, tables: Tables, cancellers: nat)
    requires IsStart(names, tables) && names.AreDistinct()
    ensures (exists s :: Reachable(names, config, tables, cancellers, s) && s.run.Succeeded?)
      <==> cancellers > 0 && !config.postponeCutOver
  {
    if cancellers > 0 && !config.postponeCutOver {
      var s := SuccessOverOld(names, config, tables, cancellers);
    } else {
      forall s | Reachable(names, config, tables, cancellers, s) ensures !s.run.Succeeded? {
        NeverSucceeds(names, config, tables, cancellers, s);
      }
    }
  }

  lemma SuccessOverOld(names: Names, config: Config, tables: Tables, cancellers: nat) returns (s: Migration)
    requires IsStart(names, tables) && names.AreDistinct() && !config.postponeCutOver && cancellers > 0
    ensures Reachable(names, config, tables, cancellers, s) && s.run.Succeeded?
  {
    OldDiffers(names);
    var free := tables - {names.Old()};
    s := SuccessWhenCancelled(names, config, free, cancellers);
    var es :| Run(Initial(names, config, free, cancellers), es) == Some(s);
    var start := Initial(names, config, tables, cancellers);
    if names.Old() in tables {
      var e := DropElsewhere(names.Old());
      assert Step(start, e) == Initial(names, config, free, cancellers);
      assert ([e] + es)[1..] == es;
      assert Run(start, [e] + es) == Some(s);
    } else {
      assert free == tables;
    }
  }

  lemma NeverSucceeds(names: Names, config: Config, tables: Tables, cancellers: nat, s: Migration)
    requires Reachable(names, config, tables, cancellers, s) && (cancellers == 0 || config.postponeCutOver)
    ensures !s.run.Succeeded?
  {
    ReachableIsInv(names, config, tables, cancellers, s);
    if cancellers == 0 {
      var start := Initial(names, config, tables, 0);
      var es :| Run(start, es) == Some(s);
      RunKeepsUncancelled(start, es);
    }
  }

  // ---- Cleaning up twice ----

  /** CleanupOnError as a whole; its statements can always be executed. */
  function CleanAll(s: Migration, ghostDrop: Outcome, changelogDrop: Outcome): Migration {
    var off := Clean(Clean(Clean(s, StopRunning, Done), SetCancelled, Done), StopQueue, Done);
    Clean(Clean(off, DropGhost, ghostDrop), DropChangelog, changelogDrop)
  }

  /** Some run leads from `s` to `t`. */
  ghost predicate Leads(s: Migration, t: Migration) {
    exists es :: Run(s, es) == Some(t)
  }

  lemma LeadsOn(s: Migration, t: Migration, e: Event)
    requires Leads(s, t) && Enabled(t, e)
    ensures Leads(s, Step(t, e))
  {
    var es :| Run(s, es) == Some(t);
    RunAppend(s, es, [e]);
    assert Run(Step(t, e), []) == Some(Step(t, e));
  }

  lemma CleanIgnoresRun(s: Migration, step: Cleanup, outcome: Outcome, stage: Stage)
    ensures Clean(s.(run := stage), step, outcome) == Clean(s, step, outcome).(run := stage)
  {
  }

  function AfterFailing(step: Cleanup): Stage {
    if step.CleanedUp? then Failed else Failing(AfterCleanup(step))
  }

  lemma CleanLeads(start: Migration, s: Migration, step: Cleanup, outcome: Outcome)
    requires Leads(start, s.(run := Failing(step)))
    ensures Leads(start, Clean(s, step, outcome).(run := AfterFailing(step)))
  {
    CleanIgnoresRun(s, step, outcome, Failing(step));
    LeadsOn(start, s.(run := Failing(step)), RunStep(true, outcome, 0));
  }

  /** Taken one step after the other in a failing run, the clean-up is CleanAll. */
  lemma CleanAllIsARun(s: Migration, a: Outcome, b: Outcome)
    requires s.run == Failing(StopRunning)
    ensures Leads(s, CleanAll(s, a, b).(run := Failed))
  {
    assert Run(s, []) == Some(s) && s.(run := Failing(StopRunning)) == s;
    CleanLeads(s, s, StopRunning, Done);
    var s1 := Clean(s, StopRunning, Done);
    CleanLeads(s, s1, SetCancelled, Done);
    var s2 := Clean(s1, SetCancelled, Done);
    CleanLeads(s, s2, StopQueue, Done);
    DropsLead(s, Clean(s2, StopQueue, Done), a, b);
  }

  lemma DropsLead(start: Migration, s: Migration, a: Outcome, b: Outcome)
    requires Leads(start, s.(run := Failing(DropGhost)))
    ensures Leads(start, Clean(Clean(s, DropGhost, a), DropChangelog, b).(run := Failed))
  {
    CleanLeads(start, s, DropGhost, a);
    var s1 := Clean(s, DropGhost, a);
    CleanLeads(start, s1, DropChangelog, b);
    CleanLeads(start, Clean(s1, DropChangelog, b), CleanedUp, Done);
  }

  /** What CleanupOnError leaves, whichever of its statements are refused. */
  lemma CleanupLeaves(s: Migration, a: Outcome, b: Outcome)
    ensures var t := CleanAll(s, a, b);
      && !t.flags.running && t.flags.cancelled && t.queue.stopped
      && forall n :: n in t.server.tables <==>
           && n in s.server.tables
           && !(n == s.names.changelog && b != Refused)
           && !(n == s.names.ghost_ && s.flags.migrated && s.config.dropGhost && a != Refused)
  {
  }

  /** A step of the clean-up has nothing left to do. */
  predicate IsSettled(s: Migration, step: Cleanup, outcome: Outcome) {
    var d := CleanupStatement(s.names, s.config, s.flags.migrated, step);
    d.Some? && d.value.DropIfExists? && d.value.name in s.server.tables ==> outcome == Refused
  }

  lemma DropIsStableIff(s: Migration, step: Cleanup, outcome: Outcome)
    requires step.DropGhost? || step.DropChangelog?
    ensures Clean(s, step, outcome) == s <==> IsSettled(s, step, outcome)
    ensures Clean(s, step, outcome).server.tables.Keys <= s.server.tables.Keys
  {
    var d := CleanupStatement(s.names, s.config, s.flags.migrated, step);
    if d.Some? && d.value.name !in s.server.tables {
      assert s.server.tables - {d.value.name} == s.server.tables;
    }
  }

  lemma AlreadyStopped(s: Migration)
    requires !s.flags.running && s.flags.cancelled && s.queue.stopped
    ensures Clean(Clean(Clean(s, StopRunning, Done), SetCancelled, Done), StopQueue, Done) == s
  {
  }

  /** A second CleanupOnError changes nothing exactly when each of its drops finds nothing or is
      refused; in particular whenever the drops of the first were executed. */
  lemma CleanupIsIdempotentIff(s: Migration, a: Outcome, b: Outcome, c: Outcome, d: Outcome)
    ensures var t := CleanAll(s, a, b);
      CleanAll(t, c, d) == t <==>
        && (s.names.ghost_ in t.server.tables && s.flags.migrated && s.config.dropGhost ==> c == Refused)
        && (s.names.changelog in t.server.tables ==> d == Refused)
    ensures a != Refused && b != Refused ==> CleanAll(CleanAll(s, a, b), c, d) == CleanAll(s, a, b)
  {
    var t := CleanAll(s, a, b);
    CleanupLeaves(s, a, b);
    AlreadyStopped(t);
    DropIsStableIff(t, DropGhost, c);
    DropIsStableIff(Clean(t, DropGhost, c), DropChangelog, d);
  }

  /** If the first drop of the changelog was refused, repeating the clean-up drops it. */
  lemma RefusedDropIsRepeated(s: Migration)
    requires s.names.changelog in s.server.tables
    ensures CleanAll(CleanAll(s, Refused, Refused), Refused, Done) != CleanAll(s, Refused, Refused)
  {
    CleanupLeaves(s, Refused, Refused);
    CleanupIsIdempotentIff(s, Refused, Refused, Refused, Done);
  }
}
