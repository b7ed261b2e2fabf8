/** The connection and the phases of Run that issue DDL, in place. */
module MigratorObject {
  import opened Basics
  import opened Catalogue
  import opened DdlText
  import opened MigrationPlan

  /** What a phase is told or does. */
  datatype Act = Told(exists_: bool) | Issued(d: Ddl, outcome: Outcome) | StreamStopped | Joined(helper: Helper)

  function Next(names: Names, config: Config, stage: Stage, act: Act): Option<Stage> {
    match act
    case Told(exists_) =>
      if stage.AskGhost? || stage.AskChangelog? then Some(AfterAnswer(stage, exists_)) else None
    case Issued(d, outcome) =>
      if StatementAt(names, stage) == Some(d) then Some(AfterStatement(config, stage, outcome == Done)) else None
    case StreamStopped => if stage.StopStream? then Some(JoinHelper(Heartbeat)) else None
    case Joined(helper) => if stage == JoinHelper(helper) then Some(AfterJoin(helper)) else None
  }

  /** Where the run is after `acts`, if they are what the plan prescribes from `stage` on. */
  function Follow(names: Names, config: Config, stage: Stage, acts: seq<Act>): Option<Stage>
    decreases |acts|
  {
    if acts == [] then Some(stage)
    else
      var next :- Next(names, config, stage, acts[0]);
      Follow(names, config, next, acts[1..])
  }

  function PerformOne(s: Server, act: Act): Option<Server> {
    match act
    case Issued(d, outcome) => if CanEnd(s, d, outcome) then Some(After(s, d, outcome)) else None
    case _ => Some(s)
  }

  /** The server after `acts`, if they can have ended as they say. */
  function Perform(s: Server, acts: seq<Act>): Option<Server>
    decreases |acts|
  {
    if acts == [] then Some(s)
    else
      var next :- PerformOne(s, acts[0]);
      Perform(next, acts[1..])
  }

  /** The statements the plan has for CleanupOnError, in order. */
  predicate IsCleanup(names: Names, config: Config, migrated: bool, acts: seq<Act>) {
    var ghostDrop := CleanupStatement(names, config, migrated, DropGhost);
    && |acts| == (if ghostDrop.Some? then 2 else 1)
    && (forall a <- acts :: a.Issued?)
    && (ghostDrop.Some? ==> acts[0].d == ghostDrop.value)
    && CleanupStatement(names, config, migrated, DropChangelog) == Some(acts[|acts| - 1].d)
  }

  lemma {:induction false} FollowOn(names: Names, config: Config, stage: Stage, acts: seq<Act>, act: Act)
    requires Follow(names, config, stage, acts).Some?
    ensures Follow(names, config, stage, acts + [act]) ==
      Next(names, config, Follow(names, config, stage, acts).value, act)
    decreases |acts|
  {
    if acts != [] {
      assert (acts + [act])[1..] == acts[1..] + [act];
      FollowOn(names, config, Next(names, config, stage, acts[0]).value, acts[1..], act);
    } else {
      assert acts + [act] == [act];
    }
  }

  lemma {:induction false} PerformOn(s: Server, acts: seq<Act>, act: Act)
    requires Perform(s, acts).Some?
    ensures Perform(s, acts + [act]) == PerformOne(Perform(s, acts).value, act)
    decreases |acts|
  {
    if acts != [] {
      assert (acts + [act])[1..] == acts[1..] + [act];
      PerformOn(PerformOne(s, acts[0]).value, acts[1..], act);
    } else {
      assert acts + [act] == [act];
    }
  }

  class Connection {
    const database: string
    var server: Server

    constructor (database: string, tables: Tables)
      ensures this.database == database && server == Server(tables, false)
    {
      this.database := database;
      server := Server(tables, false);
    }

    /** A statement may be refused, or executed without the success being reported. */
    method Execute(sql: string) returns (ok: bool, ghost outcome: Outcome)
      modifies this
      ensures ok <==> outcome == Done
      ensures match ReadDdl(database, sql)
        case None => outcome == Refused && server == old(server)
        case Some(d) => CanEnd(old(server), d, outcome) && server == After(old(server), d, outcome)
    {
      var reached, reported := *, *;
      var d := ReadDdl(database, sql);
      var next := if d.None? then None else Catalogue.Execute(server, d.value);
      if next.None? || !reached {
        return false, Refused;
      }
      server := next.value;
      return reported, if reported then Done else Lost;
    }

    /** A failed query answers no. */
    method TableExists(name: string) returns (exists_: bool)
      ensures exists_ ==> name in server.tables
    {
      var reached := *;
      exists_ := reached && name in server.tables;
    }
  }

  class Migrator {
    const names: Names
    const config: Config
    const connection: Connection
    var running: bool
    var cancelled: bool
    var ghostTableMigrated: bool
    var streaming: bool

    constructor (names: Names, config: Config, connection: Connection)
      ensures this.names == names && this.config == config && this.connection == connection
      ensures !running && !cancelled && !ghostTableMigrated && !streaming
    {
      this.names, this.config, this.connection := names, config, connection;
      running, cancelled, ghostTableMigrated, streaming := false, false, false, false;
    }

    /** Issues one statement as text, recording it. */
    method Issue(d: Ddl, ghost before: seq<Act>, ghost start: Server) returns (ok: bool, ghost acts: seq<Act>)
      requires Perform(start, before) == Some(connection.server)
      modifies connection
      ensures |acts| == |before| + 1 && acts == before + [acts[|before|]]
      ensures acts[|before|].Issued? && acts[|before|].d == d && (ok <==> acts[|before|].outcome == Done)
      ensures Perform(start, acts) == Some(connection.server)
    {
      ghost var outcome;
      DdlRoundTrip(connection.database, d);
      ok, outcome := connection.Execute(DdlSql(connection.database, d));
      acts := before + [Issued(d, outcome)];
      PerformOn(start, before, Issued(d, outcome));
    }

    /** A statement at a stage of the plan. */
    method IssueAt(d: Ddl, ghost from: Stage, ghost stage: Stage, ghost before: seq<Act>, ghost start: Server)
      returns (ok: bool, ghost acts: seq<Act>)
      requires Perform(start, before) == Some(connection.server)
      requires Follow(names, config, from, before) == Some(stage) && StatementAt(names, stage) == Some(d)
      modifies connection
      ensures Perform(start, acts) == Some(connection.server)
      ensures Follow(names, config, from, acts) == Some(AfterStatement(config, stage, ok))
    {
      ok, acts := Issue(d, before, start);
      FollowOn(names, config, from, before, acts[|before|]);
    }

    method Ask(name: string, ghost from: Stage, ghost stage: Stage, ghost before: seq<Act>, ghost start: Server)
      returns (exists_: bool, ghost acts: seq<Act>)
      requires Perform(start, before) == Some(connection.server)
      requires Follow(names, config, from, before) == Some(stage) && (stage.AskGhost? || stage.AskChangelog?)
      ensures Perform(start, acts) == Some(connection.server)
      ensures Follow(names, config, from, acts) == Some(AfterAnswer(stage, exists_))
    {
      exists_ := connection.TableExists(name);
      acts := before + [Told(exists_)];
      FollowOn(names, config, from, before, Told(exists_));
      PerformOn(start, before, Told(exists_));
    }

    method PhaseCreateGhostTable() returns (ok: bool, ghost acts: seq<Act>)
      modifies this, connection
      ensures Perform(old(connection.server), acts) == Some(connection.server)
      ensures Follow(names, config, AskGhost, acts) == Some(if ok then MarkMigrated else Failing(StopRunning))
      ensures ghostTableMigrated == (old(ghostTableMigrated) || ok)
      ensures running == old(running) && cancelled == old(cancelled) && streaming == old(streaming)
    {
      ghost var start := connection.server;
      var exists_: bool;
      exists_, acts := Ask(names.ghost_, AskGhost, AskGhost, [], start);
      if exists_ {
        ok, acts := IssueAt(DropIfExists(names.ghost_), AskGhost, DropStaleGhost, acts, start);
        if !ok {
          return;
        }
      }
      ok, acts := IssueAt(CreateLike(names.ghost_, names.original), AskGhost, CreateGhost, acts, start);
      if !ok {
        return;
      }
      ok, acts := MakeChangelogTable(acts, start);
      if ok {
        ghostTableMigrated := true;
      }
    }

    method MakeChangelogTable(ghost before: seq<Act>, ghost start: Server) returns (ok: bool, ghost acts: seq<Act>)
      requires Perform(start, before) == Some(connection.server)
      requires Follow(names, config, AskGhost, before) == Some(AskChangelog)
      modifies connection
      ensures Perform(start, acts) == Some(connection.server)
      ensures Follow(names, config, AskGhost, acts) == Some(if ok then MarkMigrated else Failing(StopRunning))
    {
      var exists_: bool;
      exists_, acts := Ask(names.changelog, AskGhost, AskChangelog, before, start);
      if exists_ {
        ok, acts := IssueAt(DropIfExists(names.changelog), AskGhost, DropStaleChangelog, acts, start);
      }
      ok, acts := IssueAt(Ddl.CreateChangelog(names.changelog), AskGhost, Stage.CreateChangelog, acts, start);
    }

    /** PhaseCutOver from the lock on. */
    method CutOver() returns (ok: bool, ghost acts: seq<Act>)
      modifies connection
      ensures Perform(old(connection.server), acts) == Some(connection.server)
      ensures Follow(names, config, LockOriginal, acts)
           == Some(if !ok then Failing(StopRunning) else if config.dropOriginal then DropOld else DropHints)
    {
      ghost var start := connection.server;
      var unlocked: bool;
      ok, acts := IssueAt(LockTable(names.original), LockOriginal, LockOriginal, [], start);
      if !ok {
        return;
      }
      ok, acts := IssueAt(names.CutOver(), LockOriginal, Rename, acts, start);
      if !ok {
        unlocked, acts := IssueAt(UnlockTables, LockOriginal, UnlockRefused, acts, start);
        return;
      }
      unlocked, acts := IssueAt(UnlockTables, LockOriginal, Unlock, acts, start);
    }

    /** The drops, the stop of the streamer and the joins of the heartbeat and throttle threads.
        Nothing here ends those threads, so this comes back, with true, only when the run is
        stopped or cancelled; otherwise it waits at the first join. */
    method PhaseCleanup() returns (returns_: bool, ghost acts: seq<Act>)
      modifies this, connection
      ensures running == old(running) && cancelled == old(cancelled) && ghostTableMigrated == old(ghostTableMigrated)
      ensures !streaming && Perform(old(connection.server), acts) == Some(connection.server)
      ensures returns_ <==> !running || cancelled
      ensures Follow(names, config, if config.dropOriginal then DropOld else DropHints, acts)
           == Some(if returns_ then Succeeded else JoinHelper(Heartbeat))
    {
      ghost var start := connection.server;
      ghost var from := if config.dropOriginal then DropOld else DropHints;
      acts := [];
      var dropped: bool;
      if config.dropOriginal {
        dropped, acts := IssueAt(DropIfExists(names.Old()), from, DropOld, acts, start);
      }
      dropped, acts := IssueAt(DropIfExists(names.changelog), from, DropHints, acts, start);
      streaming := false;
      acts := Record(StreamStopped, JoinHelper(Heartbeat), from, StopStream, acts, start);
      returns_, acts := JoinHelpers(from, acts, start);
    }

    method JoinHelpers(ghost from: Stage, ghost before: seq<Act>, ghost start: Server)
      returns (returns_: bool, ghost acts: seq<Act>)
      requires Perform(start, before) == Some(connection.server)
      requires Follow(names, config, from, before) == Some(JoinHelper(Heartbeat))
      ensures Perform(start, acts) == Some(connection.server)
      ensures returns_ <==> !running || cancelled
      ensures Follow(names, config, from, acts) == Some(if returns_ then Succeeded else JoinHelper(Heartbeat))
    {
      returns_, acts := !running || cancelled, before;
      if returns_ {
        acts := Record(Joined(Heartbeat), JoinHelper(Throttle), from, JoinHelper(Heartbeat), acts, start);
        acts := Record(Joined(Throttle), Succeeded, from, JoinHelper(Throttle), acts, start);
      }
    }

    /** Adds what issues no statement to the record. */
    lemma Record(act: Act, next: Stage, from: Stage, stage: Stage, before: seq<Act>, start: Server)
      returns (acts: seq<Act>)
      requires Perform(start, before) == Some(connection.server) && (act.StreamStopped? || act.Joined?)
      requires Follow(names, config, from, before) == Some(stage) && Next(names, config, stage, act) == Some(next)
      ensures Perform(start, acts) == Some(connection.server)
      ensures Follow(names, config, from, acts) == Some(next)
    {
      acts := before + [act];
      FollowOn(names, config, from, before, act);
      PerformOn(start, before, act);
    }

    /** Issues exactly the statements the plan has for the clean-up, in order. */
    method CleanupOnError() returns (ghost acts: seq<Act>)
      modifies this, connection
      ensures !running && cancelled && !streaming && ghostTableMigrated == old(ghostTableMigrated)
      ensures Perform(old(connection.server), acts) == Some(connection.server)
      ensures IsCleanup(names, config, ghostTableMigrated, acts)
    {
      ghost var start := connection.server;
      running := false;
      cancelled := true;
      streaming := false;
      acts := [];
      var dropped: bool;
      if ghostTableMigrated && config.dropGhost {
        dropped, acts := Issue(DropIfExists(names.ghost_), acts, start);
      }
      dropped, acts := Issue(DropIfExists(names.changelog), acts, start);
    }
  }
}

/** The phases of the object are runs of the protocol. */
module MigratorRefines {
  import opened Basics
  import opened Catalogue
  import opened MigrationPlan
  import opened MigrationProtocol
  import opened MigratorObject

  function EventOf(act: Act): Event {
    match act
    case Told(exists_) => RunStep(exists_, Refused, 0)
    case Issued(_, outcome) => RunStep(true, outcome, 0)
    case _ => RunStep(true, Refused, 0)
  }

  function EventsOf(acts: seq<Act>): (r: seq<Event>)
    ensures |r| == |acts| && forall i :: 0 <= i < |r| ==> r[i] == EventOf(acts[i])
  {
    seq(|acts|, i requires 0 <= i < |acts| => EventOf(acts[i]))
  }

  lemma ActIsAStep(s: Migration, act: Act)
    requires Next(s.names, s.config, s.run, act).Some? && PerformOne(s.server, act).Some?
    requires act.Joined? ==> HelpersEnd(s.flags)
    ensures Enabled(s, EventOf(act))
    ensures var t := Step(s, EventOf(act));
      && t.run == Next(s.names, s.config, s.run, act).value && t.server == PerformOne(s.server, act).value
      && t.names == s.names && t.config == s.config && t.flags == s.flags
  {
  }

  /** What a phase does undisturbed is a run of the protocol's thread in Run, from the stage where
      the phase begins to the stage it leaves in, with the same effect on the server. */
  lemma {:induction false} PhaseIsARun(s: Migration, acts: seq<Act>)
    requires Follow(s.names, s.config, s.run, acts).Some? && Perform(s.server, acts).Some?
    requires Joined(Heartbeat) in acts || Joined(Throttle) in acts ==> HelpersEnd(s.flags)
    ensures var t := Run(s, EventsOf(acts));
      && t.Some? && t.value.run == Follow(s.names, s.config, s.run, acts).value
      && t.value.server == Perform(s.server, acts).value && t.value.flags == s.flags
    decreases |acts|
  {
    if acts != [] {
      ActIsAStep(s, acts[0]);
      assert EventsOf(acts)[1..] == EventsOf(acts[1..]);
      PhaseIsARun(Step(s, EventOf(acts[0])), acts[1..]);
    }
  }

  /** What CleanupOnError of the object does is the protocol's clean-up of a failing run. */
  lemma CleanupIsARun(s: Migration, acts: seq<Act>)
    requires s.run == Failing(StopRunning)
    requires IsCleanup(s.names, s.config, s.flags.migrated, acts) && Perform(s.server, acts).Some?
    ensures var t := CleanAll(s, acts[0].outcome, acts[|acts| - 1].outcome).(run := Failed);
      Leads(s, t) && t.server == Perform(s.server, acts).value
  {
    CleanAllIsARun(s, acts[0].outcome, acts[|acts| - 1].outcome);
    CleanupPerforms(s, acts);
  }

  lemma CleanupPerforms(s: Migration, acts: seq<Act>)
    requires IsCleanup(s.names, s.config, s.flags.migrated, acts) && Perform(s.server, acts).Some?
    ensures CleanAll(s, acts[0].outcome, acts[|acts| - 1].outcome).server == Perform(s.server, acts).value
  {
    if |acts| == 1 {
      assert acts == [acts[0]];
      PerformOneAct(s.server, acts[0]);
    } else {
      assert acts == [acts[0], acts[1]];
      PerformPair(s.server, acts[0], acts[1]);
      assert Exactly(Perform(s.server, acts)) == Exactly(Perform(s.server, [acts[0], acts[1]]));
      var t := After(s.server, acts[0].d, acts[0].outcome);
      assert PerformOne(s.server, acts[0]) == Some(t);
      assert Perform(s.server, acts).value == After(t, acts[1].d, acts[1].outcome);
      var off := Clean(Clean(Clean(s, StopRunning, Done), SetCancelled, Done), StopQueue, Done);
      assert off.server == s.server;
      assert Clean(off, DropGhost, acts[0].outcome).server == t;
    }
  }

  lemma PerformOneAct(s: Server, x: Act)
    ensures Perform(s, [x]) == PerformOne(s, x)
  {
    var t := PerformOne(s, x);
    if t.Some? {
      assert Perform(t.value, []) == t;
    }
  }

  lemma PerformPair(s: Server, x: Act, y: Act)
    ensures Perform(s, [x, y]) == if PerformOne(s, x).None? then None else PerformOne(PerformOne(s, x).value, y)
  {
    var t := PerformOne(s, x);
    if t.Some? {
      assert [x, y][1..] == [y];
      PerformOneAct(t.value, y);
    }
  }
}
