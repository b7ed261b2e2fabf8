/** What whole runs of a migration issue, and what makes them fail or stall. */
module MigrationRuns {
  import opened Basics
  import opened Catalogue
  import opened MigrationPlan
  import opened MigrationProtocol

  // ---- Why runs fail ----

  /** Something that Run does not get over: a phase that fails, a statement on the way to the new
      table or to the swap that is not reported done, or a cancellation seen behind a loop. */
  predicate IsMishap(s: Migration, e: Event) {
    e.RunStep? &&
    match s.run
    case Setup | Prepare => !e.ok
    case DropStaleGhost | CreateGhost | CreateChangelog | LockOriginal | Rename => e.outcome != Done
    case LeaveCopy | LeaveCutLoop | LeavePostponed => s.flags.cancelled
    case _ => false
  }

  predicate HasMishap(s: Migration, es: seq<Event>)
    requires Run(s, es).Some?
    decreases |es|
  {
    es != [] && (IsMishap(s, es[0]) || HasMishap(Step(s, es[0]), es[1..]))
  }

  /** On the way out of a failed run. */
  predicate IsFailing(stage: Stage) {
    stage.UnlockRefused? || stage.Failing? || stage.Failed?
  }

  lemma IssueFailsIff(s: Migration, d: Ddl, outcome: Outcome)
    requires StatementAt(s.names, s.run) == Some(d) && CanEnd(s.server, d, outcome)
    ensures IsFailing(Issue(s, d, outcome).run) <==> IsFailing(s.run) || IsMishap(s, RunStep(true, outcome, 0))
  {
  }

  lemma AdvanceFailsIff(s: Migration, ok: bool, outcome: Outcome, total: nat)
    requires StatementAt(s.names, s.run).None? && RunEnabled(s, outcome)
    ensures IsFailing(StepRun(s, ok, outcome, total).run) <==>
      IsFailing(s.run) || IsMishap(s, RunStep(ok, outcome, total))
  {
  }

  lemma OthersLeaveRun(s: Migration, e: Event)
    requires Enabled(s, e) && !e.RunStep?
    ensures Step(s, e).run == s.run
  {
    if e.CancelStep? {
      CancelIsQuiet(s, e.i, e.outcome);
    }
  }

  lemma StepFailsIff(s: Migration, e: Event)
    requires Enabled(s, e)
    ensures IsFailing(Step(s, e).run) <==> IsFailing(s.run) || IsMishap(s, e)
  {
    if !e.RunStep? {
      OthersLeaveRun(s, e);
    } else if StatementAt(s.names, s.run).Some? {
      IssueFailsIff(s, StatementAt(s.names, s.run).value, e.outcome);
    } else {
      AdvanceFailsIff(s, e.ok, e.outcome, e.total);
    }
  }

  lemma {:induction false} FailsIffFrom(s: Migration, es: seq<Event>)
    requires Run(s, es).Some?
    ensures IsFailing(Run(s, es).value.run) <==> IsFailing(s.run) || HasMishap(s, es)
    decreases |es|
  {
    if es != [] {
      StepFailsIff(s, es[0]);
      FailsIffFrom(Step(s, es[0]), es[1..]);
    }
  }

  /** A run fails exactly when one of the mishaps befalls it; a drop of the stale changelog or of
      the clean-up, or an UNLOCK, may go wrong in a run that succeeds. */
  lemma FailsIff(names: Names, config: Config, tables: Tables, cancellers: nat, es: seq<Event>)
    requires var start := Initial(names, config, tables, cancellers);
      Run(start, es).Some? && (Run(start, es).value.run.Succeeded? || Run(start, es).value.run.Failed?)
    ensures var start := Initial(names, config, tables, cancellers);
      Run(start, es).value.run.Failed? <==> HasMishap(start, es)
  {
    FailsIffFrom(Initial(names, config, tables, cancellers), es);
  }

  // ---- What successful runs issue ----

  /** The statements the thread in Run issues outside CleanupOnError, in order. */
  function Issued(s: Migration, es: seq<Event>): seq<Ddl>
    requires Run(s, es).Some?
    decreases |es|
  {
    if es == [] then []
    else
      var d := StatementAt(s.names, s.run);
      (if es[0].RunStep? && d.Some? then [d.value] else []) + Issued(Step(s, es[0]), es[1..])
  }

  function CleanUp(n: Names, config: Config): seq<Ddl> {
    (if config.dropOriginal then [DropIfExists(n.Old())] else []) + [DropIfExists(n.changelog)]
  }

  function Swap(n: Names, config: Config): seq<Ddl> {
    [LockTable(n.original), RenameTables(Move(n.original, n.Old()), Move(n.ghost_, n.original)), UnlockTables]
    + CleanUp(n, config)
  }

  /** The changelog table, after a stale one was dropped or not, and then the swap. */
  predicate IsChangelogAndSwap(n: Names, config: Config, log: seq<Ddl>) {
    var create := [Ddl.CreateChangelog(n.changelog)] + Swap(n, config);
    log == create || log == [DropIfExists(n.changelog)] + create
  }

  predicate IsGhostAndSwap(n: Names, config: Config, log: seq<Ddl>) {
    log != [] && log[0] == CreateLike(n.ghost_, n.original) && IsChangelogAndSwap(n, config, log[1..])
  }

  /** All statements of a run that succeeds, in order. */
  predicate IsWholeRun(n: Names, config: Config, log: seq<Ddl>) {
    || IsGhostAndSwap(n, config, log)
    || (log != [] && log[0] == DropIfExists(n.ghost_) && IsGhostAndSwap(n, config, log[1..]))
  }

  /** What such a run may still issue from a stage on. */
  predicate IsAhead(n: Names, config: Config, stage: Stage, log: seq<Ddl>) {
    var swap := Swap(n, config);
    match stage
    case NotStarted | Setup | AskGhost => IsWholeRun(n, config, log)
    case DropStaleGhost => log != [] && log[0] == DropIfExists(n.ghost_) && IsGhostAndSwap(n, config, log[1..])
    case CreateGhost => IsGhostAndSwap(n, config, log)
    case AskChangelog => IsChangelogAndSwap(n, config, log)
    case DropStaleChangelog => log == [DropIfExists(n.changelog)] + ([Ddl.CreateChangelog(n.changelog)] + swap)
    case CreateChangelog => log == [Ddl.CreateChangelog(n.changelog)] + swap
    case Rename => log == swap[1..]
    case Unlock => log == swap[2..]
    case DropOld => config.dropOriginal && log == CleanUp(n, config)
    case DropHints => log == [DropIfExists(n.changelog)]
    case StopStream | JoinHelper(_) | Succeeded => log == []
    case UnlockRefused | Failing(_) | Failed => false
    case _ => log == swap
  }

  lemma IssueIsAhead(s: Migration, d: Ddl, outcome: Outcome, log: seq<Ddl>)
    requires StatementAt(s.names, s.run) == Some(d) && CanEnd(s.server, d, outcome)
    requires IsAhead(s.names, s.config, Issue(s, d, outcome).run, log)
    requires s.run.DropOld? ==> s.config.dropOriginal
    ensures IsAhead(s.names, s.config, s.run, [d] + log)
  {
    assert ([d] + log)[1..] == log;
    var n, config := s.names, s.config;
    var swap := Swap(n, config);
    assert swap == [LockTable(n.original)] + swap[1..] && swap[1..] == [n.CutOver()] + swap[2..];
    assert swap[2..] == [UnlockTables] + CleanUp(n, config);
  }

  /** From the tables being made to the lock, and behind the clean-up's drops, nothing is issued. */
  predicate IsSilentMove(before: Stage, after: Stage) {
    || (IsAtStart(before) && IsAtStart(after))
    || (before.AskGhost? && (after.DropStaleGhost? || after.CreateGhost?))
    || (before.AskChangelog? && (after.DropStaleChangelog? || after.CreateChangelog?))
    || (IsMiddle(before) && IsMiddle(after))
    || (IsWindingUp(before) && IsWindingUp(after))
  }

  predicate IsAtStart(stage: Stage) {
    stage.NotStarted? || stage.Setup? || stage.AskGhost?
  }

  predicate IsMiddle(stage: Stage) {
    match stage
    case MarkMigrated | Prepare | SpawnCopy | SpawnEvents | CopyLoop(_) | JoinThreads | LeaveCopy
         | CutLoop(_) | LeaveCutLoop | AskPostponed | Postponed(_) | LeavePostponed | LockOriginal => true
    case _ => false
  }

  lemma AdvanceIsSilent(s: Migration, ok: bool, outcome: Outcome, total: nat)
    requires StatementAt(s.names, s.run).None? && RunEnabled(s, outcome)
    ensures var t := StepRun(s, ok, outcome, total).run; IsFailing(t) || IsSilentMove(s.run, t)
  {
  }

  lemma AdvanceIsAhead(s: Migration, ok: bool, outcome: Outcome, total: nat, log: seq<Ddl>)
    requires StatementAt(s.names, s.run).None? && RunEnabled(s, outcome)
    requires IsAhead(s.names, s.config, StepRun(s, ok, outcome, total).run, log)
    ensures IsAhead(s.names, s.config, s.run, log)
  {
    AdvanceIsSilent(s, ok, outcome, total);
    SilentIsAhead(s.names, s.config, s.run, StepRun(s, ok, outcome, total).run, log);
  }

  lemma SilentIsAhead(n: Names, config: Config, before: Stage, after: Stage, log: seq<Ddl>)
    requires IsSilentMove(before, after) && StatementAt(n, before).None? && IsAhead(n, config, after, log)
    ensures IsAhead(n, config, before, log)
  {
  }

  lemma StepIsAhead(s: Migration, e: Event, log: seq<Ddl>)
    requires Enabled(s, e) && IsAhead(s.names, s.config, Step(s, e).run, log)
    requires s.run.DropOld? ==> s.config.dropOriginal
    ensures var d := StatementAt(s.names, s.run);
      IsAhead(s.names, s.config, s.run, (if e.RunStep? && d.Some? then [d.value] else []) + log)
  {
    var d := StatementAt(s.names, s.run);
    assert [] + log == log;
    if !e.RunStep? {
      OthersLeaveRun(s, e);
    } else if d.Some? {
      IssueIsAhead(s, d.value, e.outcome, log);
    } else {
      AdvanceIsAhead(s, e.ok, e.outcome, e.total, log);
    }
  }

  lemma StepDropsOldIfTold(s: Migration, e: Event)
    requires Enabled(s, e) && (s.run.DropOld? ==> s.config.dropOriginal)
    ensures Step(s, e).run.DropOld? ==> s.config.dropOriginal
  {
    if !IsIssue(s, e) && !e.CreateElsewhere? && !e.DropElsewhere? {
      QuietStep(s, e);
    }
  }

  lemma {:induction false} RunIsAhead(s: Migration, es: seq<Event>)
    requires Run(s, es).Some? && Run(s, es).value.run.Succeeded? && (s.run.DropOld? ==> s.config.dropOriginal)
    ensures IsAhead(s.names, s.config, s.run, Issued(s, es))
    decreases |es|
  {
    if es != [] {
      NamesStay(s, es[0]);
      StepDropsOldIfTold(s, es[0]);
      RunIsAhead(Step(s, es[0]), es[1..]);
      StepIsAhead(s, es[0], Issued(Step(s, es[0]), es[1..]));
    }
  }

  /** Every run that reports success has issued the same statements in the same order, apart from
      the drops of stale tables and the configured drop of the original: the ghost and changelog
      are created, the original is locked, the tables are renamed and unlocked, and the original
      and the changelog are dropped. */
  lemma SuccessfulScript(names: Names, config: Config, tables: Tables, cancellers: nat, es: seq<Event>)
    requires var start := Initial(names, config, tables, cancellers);
      Run(start, es).Some? && Run(start, es).value.run.Succeeded?
    ensures IsWholeRun(names, config, Issued(Initial(names, config, tables, cancellers), es))
  {
    RunIsAhead(Initial(names, config, tables, cancellers), es);
  }

  // ---- What row copy does not get over ----

  /** The row-copy thread finds the run paused, or a chunk fails. */
  predicate IsCopyMishap(s: Migration, e: Event) {
    e.CopyStep? && ((s.copy.ReadPaused? && e.paused) || (s.copy.Copying? && !e.ok))
  }

  predicate CopyIsDead(s: Migration) {
    s.copy.Ended? && !s.flags.complete && !IsBeforeCopy(s.run)
  }

  lemma MishapEndsCopy(s: Migration, e: Event)
    requires Inv(s) && Enabled(s, e) && IsCopyMishap(s, e)
    ensures CopyIsDead(Step(s, e))
  {
  }

  lemma RunKeepsCopyDead(s: Migration, ok: bool, outcome: Outcome, total: nat)
    requires RunEnabled(s, outcome) && CopyIsDead(s)
    ensures CopyIsDead(StepRun(s, ok, outcome, total))
  {
  }

  lemma StepKeepsCopyDead(s: Migration, e: Event)
    requires Enabled(s, e) && CopyIsDead(s)
    ensures CopyIsDead(Step(s, e))
  {
    match e
    case RunStep(ok, outcome, total) => RunKeepsCopyDead(s, ok, outcome, total);
    case CancelStep(i, outcome) => CancelFrame(s, i, outcome);
    case _ =>
  }

  lemma {:induction false} CopyStaysDead(s: Migration, es: seq<Event>)
    requires Run(s, es).Some? && CopyIsDead(s)
    ensures CopyIsDead(Run(s, es).value)
    decreases |es|
  {
    if es != [] {
      StepKeepsCopyDead(s, es[0]);
      CopyStaysDead(Step(s, es[0]), es[1..]);
    }
  }

  /** A chunk that fails ends row copy, and so does a pause, which Resume does not undo: from there
      on no run marks row copy complete, renames or succeeds. */
  lemma CopyMishapIsFinal(names: Names, config: Config, tables: Tables, cancellers: nat,
                          s: Migration, e: Event, es: seq<Event>)
    requires Reachable(names, config, tables, cancellers, s)
    requires Enabled(s, e) && IsCopyMishap(s, e) && Run(Step(s, e), es).Some?
    ensures var t := Run(Step(s, e), es).value; !t.flags.complete && t.past.renames == 0 && !t.run.Succeeded?
  {
    ReachableIsInv(names, config, tables, cancellers, s);
    StepKeepsInv(s, e);
    MishapEndsCopy(s, e);
    CopyStaysDead(Step(s, e), es);
    RunKeepsInv(Step(s, e), es);
  }

  // ---- What a cancelled run still does ----

  function CopySteps(es: seq<Event>): nat {
    if es == [] then 0 else (if es[0].CopyStep? then 1 else 0) + CopySteps(es[1..])
  }

  function EventsSteps(es: seq<Event>): nat {
    if es == [] then 0 else (if es[0].EventsStep? then 1 else 0) + EventsSteps(es[1..])
  }

  /** The steps of the row-copy thread up to its end once `cancelled` is set, at most. */
  function CopyLeftCancelled(stage: CopyStage): nat {
    match stage
    case Unborn | ReadRunning => 2
    case ReadCancelled => 1
    case ReadPaused => 5
    case Compare => 4
    case Copying => 3
    case Ended => 0
  }

  /** The same once `running` is cleared. */
  function CopyLeftStopped(stage: CopyStage): nat {
    match stage
    case Unborn | ReadRunning => 1
    case ReadCancelled => 5
    case ReadPaused => 4
    case Compare => 3
    case Copying => 2
    case Ended => 0
  }

  function EventsLeftCancelled(stage: EventsStage): nat {
    match stage
    case Unborn | ReadRunning => 2
    case ReadCancelled | MarkProcessed => 1
    case Pop => 4
    case ReadComplete | Applying => 3
    case Ended => 0
  }

  function EventsLeftStopped(stage: EventsStage): nat {
    match stage
    case Unborn | ReadRunning | MarkProcessed => 1
    case ReadCancelled => 4
    case Pop => 3
    case ReadComplete | Applying => 2
    case Ended => 0
  }

  predicate IsStopped(s: Migration) {
    !s.flags.running && !s.run.NotStarted?
  }

  lemma FlagsOnlyStop(s: Migration, e: Event)
    requires Enabled(s, e)
    ensures s.flags.cancelled ==> Step(s, e).flags.cancelled
    ensures IsStopped(s) ==> IsStopped(Step(s, e))
  {
    match e
    case RunStep(ok, outcome, total) => RunOnlyStops(s, ok, outcome, total);
    case CancelStep(i, outcome) => CancelOnlyStops(s, i, outcome);
    case _ =>
  }

  lemma RunOnlyStops(s: Migration, ok: bool, outcome: Outcome, total: nat)
    requires RunEnabled(s, outcome)
    ensures var t := StepRun(s, ok, outcome, total);
      (s.flags.cancelled ==> t.flags.cancelled) && (IsStopped(s) ==> IsStopped(t))
  {
    RunStarts(s, ok, outcome, total);
    RunMovesOn(s, ok, outcome, total);
  }

  lemma RunStarts(s: Migration, ok: bool, outcome: Outcome, total: nat)
    requires RunEnabled(s, outcome)
    ensures var f := StepRun(s, ok, outcome, total).flags;
      (s.flags.cancelled ==> f.cancelled) && (f.running ==> s.flags.running || s.run.NotStarted?)
  {
    if s.run.Failing? {
      CleanOnlyStops(s, s.run.step, outcome);
    } else if StatementAt(s.names, s.run).None? {
      AdvanceStarts(s, ok, total);
    }
  }

  lemma CleanOnlyStops(s: Migration, step: Cleanup, outcome: Outcome)
    requires CleanupEnabled(s, step, outcome)
    ensures var f := Clean(s, step, outcome).flags;
      && (s.flags.cancelled ==> f.cancelled) && (f.running ==> s.flags.running)
      && f.complete == s.flags.complete && f.processed == s.flags.processed
  {
  }

  lemma AdvanceStarts(s: Migration, ok: bool, total: nat)
    ensures var f := Advance(s, ok, total).flags;
      && f.cancelled == s.flags.cancelled && (f.running ==> s.flags.running || s.run.NotStarted?)
      && f.complete == s.flags.complete && f.processed == s.flags.processed
  {
  }

  lemma RunMovesOn(s: Migration, ok: bool, outcome: Outcome, total: nat)
    requires RunEnabled(s, outcome)
    ensures !StepRun(s, ok, outcome, total).run.NotStarted?
  {
    if StatementAt(s.names, s.run).None? {
      AdvanceMovesOn(s, ok, outcome, total);
    }
  }

  lemma AdvanceMovesOn(s: Migration, ok: bool, outcome: Outcome, total: nat)
    requires RunEnabled(s, outcome) && StatementAt(s.names, s.run).None?
    ensures !StepRun(s, ok, outcome, total).run.NotStarted?
  {
  }

  lemma CancelOnlyStops(s: Migration, i: nat, outcome: Outcome)
    requires Enabled(s, CancelStep(i, outcome))
    ensures var t := StepCancel(s, i, outcome);
      (s.flags.cancelled ==> t.flags.cancelled) && (!s.flags.running ==> !t.flags.running) && t.run == s.run
  {
  }

  /** The threads as Run spawns them. */
  lemma RunSpawns(s: Migration, ok: bool, outcome: Outcome, total: nat)
    requires RunEnabled(s, outcome) && ProgressIsHonest(s)
    ensures var t := StepRun(s, ok, outcome, total);
      && (t.copy == s.copy || (s.copy.Unborn? && t.copy.ReadRunning?))
      && (t.events == s.events || (s.events.Unborn? && t.events.ReadRunning?))
  {
  }

  lemma StepCountsDown(s: Migration, e: Event)
    requires Inv(s) && Enabled(s, e)
    ensures var t := Step(s, e);
      var c, v := if e.CopyStep? then 1 else 0, if e.EventsStep? then 1 else 0;
      && (s.flags.cancelled ==>
            CopyLeftCancelled(t.copy) + c <= CopyLeftCancelled(s.copy) &&
            EventsLeftCancelled(t.events) + v <= EventsLeftCancelled(s.events))
      && (IsStopped(s) ==>
            CopyLeftStopped(t.copy) + c <= CopyLeftStopped(s.copy) &&
            EventsLeftStopped(t.events) + v <= EventsLeftStopped(s.events))
  {
    match e
    case RunStep(ok, outcome, total) => RunSpawns(s, ok, outcome, total);
    case CancelStep(i, outcome) => CancelFrame(s, i, outcome);
    case _ =>
  }

  lemma {:induction false} CountsDown(s: Migration, es: seq<Event>)
    requires Inv(s) && Run(s, es).Some?
    ensures s.flags.cancelled ==>
      CopySteps(es) <= CopyLeftCancelled(s.copy) && EventsSteps(es) <= EventsLeftCancelled(s.events)
    ensures IsStopped(s) ==>
      CopySteps(es) <= CopyLeftStopped(s.copy) && EventsSteps(es) <= EventsLeftStopped(s.events)
    decreases |es|
  {
    if es != [] {
      StepKeepsInv(s, es[0]);
      FlagsOnlyStop(s, es[0]);
      StepCountsDown(s, es[0]);
      CountsDown(Step(s, es[0]), es[1..]);
    }
  }

  /** Setting `cancelled` alone, or clearing `running` alone once the run has started, is enough to
      end both threads within a round, whatever else happens: from there on the row-copy thread
      takes at most 5 more steps and the events thread at most 4, so that the joins of Cancel
      return. */
  lemma CancelledThreadsEnd(names: Names, config: Config, tables: Tables, cancellers: nat, s: Migration, es: seq<Event>)
    requires Reachable(names, config, tables, cancellers, s) && Run(s, es).Some?
    requires s.flags.cancelled || IsStopped(s)
    ensures CopySteps(es) <= 5 && EventsSteps(es) <= 4
  {
    ReachableIsInv(names, config, tables, cancellers, s);
    CountsDown(s, es);
  }

  /** A Cancel called on a run that has started has set `cancelled` when it goes on to the second
      flag, and has both set while it joins and cleans up. */
  lemma CancelSetsFlags(s: Migration, i: nat, es: seq<Event>)
    requires i < |s.cancellers| && s.cancellers[i].Idle? && !s.run.NotStarted?
    requires Run(s, es).Some?
    ensures var t := Run(s, es).value;
      && i < |t.cancellers|
      && (!t.cancellers[i].Idle? ==> t.flags.cancelled)
      && (!t.cancellers[i].Idle? && !t.cancellers[i].StoreRunning? ==> !t.flags.running)
  {
    FlagsFollowStage(s, i, es);
  }

  /** What a canceller at a stage has stored. */
  predicate HasStored(s: Migration, i: nat)
    requires i < |s.cancellers|
  {
    match s.cancellers[i]
    case Idle => true
    case StoreRunning => s.flags.cancelled
    case _ => s.flags.cancelled && !s.flags.running
  }

  lemma StepKeepsStored(s: Migration, e: Event, i: nat)
    requires Enabled(s, e) && i < |s.cancellers| && HasStored(s, i) && !s.run.NotStarted?
    ensures |Step(s, e).cancellers| == |s.cancellers| && HasStored(Step(s, e), i) && !Step(s, e).run.NotStarted?
  {
    FlagsOnlyStop(s, e);
    if e.RunStep? {
      RunLeavesCancellers(s, e.ok, e.outcome, e.total);
      RunMovesOn(s, e.ok, e.outcome, e.total);
    }
  }

  lemma RunLeavesCancellers(s: Migration, ok: bool, outcome: Outcome, total: nat)
    requires RunEnabled(s, outcome)
    ensures StepRun(s, ok, outcome, total).cancellers == s.cancellers
  {
  }

  lemma {:induction false} FlagsFollowStage(s: Migration, i: nat, es: seq<Event>)
    requires Run(s, es).Some? && i < |s.cancellers| && HasStored(s, i) && !s.run.NotStarted?
    ensures |Run(s, es).value.cancellers| == |s.cancellers| && HasStored(Run(s, es).value, i)
    decreases |es|
  {
    if es != [] {
      StepKeepsStored(s, es[0], i);
      FlagsFollowStage(Step(s, es[0]), i, es[1..]);
    }
  }

  // ---- Why threads and loops end ----

  predicate HasCopyMishap(s: Migration, es: seq<Event>)
    requires Run(s, es).Some?
    decreases |es|
  {
    es != [] && (IsCopyMishap(s, es[0]) || HasCopyMishap(Step(s, es[0]), es[1..]))
  }

  predicate ToldToEnd(s: Migration) {
    s.flags.cancelled || IsStopped(s)
  }

  /** No thread has ended without having done its work or having been told to. */
  predicate EndedForCause(s: Migration, copyMishap: bool) {
    && (s.events.Ended? ==> s.flags.processed || ToldToEnd(s))
    && (s.copy.Ended? ==> s.flags.complete || copyMishap || ToldToEnd(s))
  }

  lemma StepEndsForCause(s: Migration, e: Event, copyMishap: bool)
    requires Inv(s) && Enabled(s, e) && EndedForCause(s, copyMishap)
    ensures EndedForCause(Step(s, e), copyMishap || IsCopyMishap(s, e))
  {
    FlagsOnlyStop(s, e);
    match e
    case RunStep(ok, outcome, total) =>
      RunSpawns(s, ok, outcome, total);
      RunKeepsProgress(s, ok, outcome, total);
    case CancelStep(i, outcome) => CancelFrame(s, i, outcome);
    case _ =>
  }

  lemma RunKeepsProgress(s: Migration, ok: bool, outcome: Outcome, total: nat)
    requires RunEnabled(s, outcome)
    ensures var f := StepRun(s, ok, outcome, total).flags;
      f.complete == s.flags.complete && f.processed == s.flags.processed
  {
    if s.run.Failing? {
      CleanOnlyStops(s, s.run.step, outcome);
    } else if StatementAt(s.names, s.run).None? {
      AdvanceStarts(s, ok, total);
    }
  }

  lemma {:induction false} RunEndsForCause(s: Migration, es: seq<Event>, copyMishap: bool)
    requires Inv(s) && Run(s, es).Some? && EndedForCause(s, copyMishap)
    ensures EndedForCause(Run(s, es).value, copyMishap || HasCopyMishap(s, es))
    decreases |es|
  {
    if es != [] {
      StepKeepsInv(s, es[0]);
      StepEndsForCause(s, es[0], copyMishap);
      RunEndsForCause(Step(s, es[0]), es[1..], copyMishap || IsCopyMishap(s, es[0]));
    }
  }

  /** In every run the events thread has only ended with everything processed, and the row-copy
      thread with row copy complete or after a pause or a failed chunk, unless the flags told them
      to end. */
  lemma ThreadsEndForCause(names: Names, config: Config, tables: Tables, cancellers: nat, es: seq<Event>)
    requires var start := Initial(names, config, tables, cancellers); Run(start, es).Some?
    ensures var start := Initial(names, config, tables, cancellers);
      var s := Run(start, es).value;
      && (s.events.Ended? ==> s.flags.processed || ToldToEnd(s))
      && (s.copy.Ended? ==> s.flags.complete || HasCopyMishap(start, es) || ToldToEnd(s))
  {
    RunEndsForCause(Initial(names, config, tables, cancellers), es, false);
  }

  predicate IsLoop(stage: Stage) {
    stage.CopyLoop? || stage.CutLoop? || stage.Postponed?
  }

  function CheckOf(stage: Stage): Check
    requires IsLoop(stage)
  {
    match stage
    case CopyLoop(check) => check
    case CutLoop(check) => check
    case Postponed(check) => check
  }

  /** The run is in one of its loops all along. */
  predicate StaysInLoop(s: Migration, es: seq<Event>)
    requires Run(s, es).Some?
    decreases |es|
  {
    IsLoop(s.run) && (es == [] || StaysInLoop(Step(s, es[0]), es[1..]))
  }

  function RunSteps(es: seq<Event>): nat {
    if es == [] then 0 else (if es[0].RunStep? then 1 else 0) + RunSteps(es[1..])
  }

  function ChecksLeftCancelled(stage: Stage): nat
    requires IsLoop(stage)
  {
    match CheckOf(stage)
    case OfRunning => 2
    case OfProgress => if stage.Postponed? then 0 else 1
    case OfCancelled => 0
  }

  function ChecksLeftStopped(stage: Stage): nat
    requires IsLoop(stage)
  {
    match CheckOf(stage)
    case OfRunning => 0
    case OfProgress => if stage.Postponed? then 1 else 2
    case OfCancelled => 1
  }

  lemma LoopCountsDown(s: Migration, e: Event)
    requires Enabled(s, e) && IsLoop(s.run) && IsLoop(Step(s, e).run)
    ensures var t, c := Step(s, e), if e.RunStep? then 1 else 0;
      && (s.flags.cancelled ==> ChecksLeftCancelled(t.run) + c <= ChecksLeftCancelled(s.run))
      && (!s.flags.running ==> ChecksLeftStopped(t.run) + c <= ChecksLeftStopped(s.run))
  {
    if !e.RunStep? {
      OthersLeaveRun(s, e);
    }
  }

  lemma {:induction false} LoopsCountDown(s: Migration, es: seq<Event>)
    requires Run(s, es).Some? && StaysInLoop(s, es)
    ensures s.flags.cancelled ==> RunSteps(es) <= ChecksLeftCancelled(s.run)
    ensures !s.flags.running ==> RunSteps(es) <= ChecksLeftStopped(s.run)
    decreases |es|
  {
    if es != [] {
      FlagsOnlyStop(s, es[0]);
      LoopCountsDown(s, es[0]);
      LoopsCountDown(Step(s, es[0]), es[1..]);
    }
  }

  /** Either flag alone also ends each loop of Run: once it is set, the run takes at most two steps
      without leaving the loop it is in. */
  lemma LoopsEnd(s: Migration, es: seq<Event>)
    requires Run(s, es).Some? && StaysInLoop(s, es) && (s.flags.cancelled || !s.flags.running)
    ensures RunSteps(es) <= 2
  {
    LoopsCountDown(s, es);
  }

  // ---- What Cancel waits for ----

  /** Both threads are there, and a canceller at a stage has joined those in front of it. */
  predicate HasJoined(s: Migration, i: nat)
    requires i < |s.cancellers|
  {
    && !s.copy.Unborn? && !s.events.Unborn?
    && (s.cancellers[i].JoinEvents? || s.cancellers[i].Cleaning? ==> s.copy.Ended?)
    && (s.cancellers[i].Cleaning? ==> s.events.Ended?)
  }

  lemma StepKeepsJoined(s: Migration, e: Event, i: nat)
    requires Inv(s) && Enabled(s, e) && i < |s.cancellers| && HasJoined(s, i)
    ensures |Step(s, e).cancellers| == |s.cancellers| && HasJoined(Step(s, e), i)
  {
    match e
    case RunStep(ok, outcome, total) =>
      RunLeavesCancellers(s, ok, outcome, total);
      RunSpawns(s, ok, outcome, total);
    case CancelStep(j, outcome) => CancelFrame(s, j, outcome);
    case _ =>
  }

  lemma {:induction false} RunKeepsJoined(s: Migration, es: seq<Event>, i: nat)
    requires Inv(s) && Run(s, es).Some? && i < |s.cancellers| && HasJoined(s, i)
    ensures |Run(s, es).value.cancellers| == |s.cancellers| && HasJoined(Run(s, es).value, i)
    decreases |es|
  {
    if es != [] {
      StepKeepsInv(s, es[0]);
      StepKeepsJoined(s, es[0], i);
      RunKeepsJoined(Step(s, es[0]), es[1..], i);
    }
  }

  /** A Cancel called while both threads are there only cleans up when both have ended. */
  lemma CancelJoinsFirst(names: Names, config: Config, tables: Tables, cancellers: nat,
                         s: Migration, i: nat, es: seq<Event>)
    requires Reachable(names, config, tables, cancellers, s) && Run(s, es).Some?
    requires i < |s.cancellers| && s.cancellers[i].Idle? && !s.copy.Unborn? && !s.events.Unborn?
    ensures var t := Run(s, es).value;
      i < |t.cancellers| && (t.cancellers[i].Cleaning? ==> t.copy.Ended? && t.events.Ended?)
  {
    ReachableIsInv(names, config, tables, cancellers, s);
    RunKeepsJoined(s, es, i);
  }
}
