/**
 * packages/storage/src/schedules.ts and packages/server/src/automation/scheduler.ts
 *
 * The table of schedules, and the service that runs what is due. Each stretch of code
 * between two `await`s is one step; a `Frame` is a `runOne` call suspended at an `await`.
 * A row keeps its cron text already parsed: None is a text that does not parse.
 */
module Scheduler {
  import opened Prelude
  import Cron
  import Lane

  type Id = string

  datatype Status = Active | Failing | Disabled

  datatype Row = Row(
    cron: Option<Cron.Expression>,
    enabled: bool,
    status: Status,
    consecutiveFailures: nat,
    lastRunId: Option<nat>,
    lastRunAt: Option<int>,
    nextRunAt: Option<int>
  )

  /** Only the columns that are given change. */
  datatype Patch = Patch(
    cron: Option<Option<Cron.Expression>>,
    enabled: Option<bool>,
    status: Option<Status>,
    consecutiveFailures: Option<nat>,
    nextRunAt: Option<Option<int>>
  )

  type Table = map<Id, Row>

  function ApplyPatch(r: Row, p: Patch): Row {
    Row(OrElse(p.cron, r.cron), OrElse(p.enabled, r.enabled), OrElse(p.status, r.status),
        OrElse(p.consecutiveFailures, r.consecutiveFailures), r.lastRunId, r.lastRunAt, OrElse(p.nextRunAt, r.nextRunAt))
  }

  function DoUpdate(t: Table, id: Id, p: Patch): Table {
    if id in t then t[id := ApplyPatch(t[id], p)] else t
  }

  function DoMarkRun(t: Table, id: Id, runId: Option<nat>, ranAt: int, next: Option<int>): Table {
    if id in t then t[id := t[id].(lastRunId := runId, lastRunAt := Some(ranAt), nextRunAt := next)] else t
  }

  /** The WHERE clause of `findDueSchedules`. */
  predicate IsDue(r: Row, now: int) {
    r.enabled && r.status != Disabled && r.nextRunAt.Some? && r.nextRunAt.value <= now
  }

  /** The rows `findDueSchedules` returns: all that are due, once each, by next run. */
  ghost predicate IsDueList(t: Table, now: int, due: seq<(Id, Row)>) {
    && (forall i :: 0 <= i < |due| ==> due[i].0 in t && t[due[i].0] == due[i].1 && IsDue(due[i].1, now))
    && (forall id :: id in t && IsDue(t[id], now) ==> (id, t[id]) in due)
    && (forall i, j :: 0 <= i < j < |due| ==>
          due[i].0 != due[j].0 && OrElse(due[i].1.nextRunAt, 0) <= OrElse(due[j].1.nextRunAt, 0))
  }

  class ScheduleTable {
    var rows: Table

    method UpdateSchedule(id: Id, p: Patch)
      modifies this
      ensures rows == DoUpdate(old(rows), id, p)
    {
      if id in rows {
        rows := rows[id := ApplyPatch(rows[id], p)];
      }
    }

    method MarkScheduleRun(id: Id, runId: Option<nat>, ranAt: int, next: Option<int>)
      modifies this
      ensures rows == DoMarkRun(old(rows), id, runId, ranAt, next)
    {
      if id in rows {
        rows := rows[id := rows[id].(lastRunId := runId, lastRunAt := Some(ranAt), nextRunAt := next)];
      }
    }
  }

  /** `offset`: local time from UTC, in minutes. `maxFailures`: the auto-disable threshold. */
  datatype Config = Config(offset: int, maxFailures: nat)

  const LANE_CONFIG := Lane.Config(1, 50)

  datatype Value = Value(table: Table, active: set<Id>, lane: Lane.Value)

  /** Before the lane slot, with it (the agent runs), and awaiting delivery of the result. */
  datatype Phase = WaitingLane | Running(handle: Lane.Handle) | Delivering(handle: Lane.Handle)

  /** `run` identifies the call; `cron` is the expression of the row it was started with. */
  datatype Frame = Frame(run: nat, id: Id, cron: Option<Cron.Expression>, phase: Phase)

  const NO_CHANGE := Patch(None, None, None, None, None)

  function Opt<T>(o: Option<T>): seq<T> { if o.Some? then [o.value] else [] }

  function DoRunOne(v: Value, id: Id, cron: Option<Cron.Expression>, run: nat): (Value, Option<Frame>) {
    if id in v.active then (v, None)
    else
      var (lane, r) := Lane.DoAcquire(LANE_CONFIG, v.lane, id, run);
      var w := v.(active := v.active + {id}, lane := lane);
      match r
      case Granted(h) => (w, Some(Frame(run, id, cron, Running(h))))
      case Queued => (w, Some(Frame(run, id, cron, WaitingLane)))
      case QueueFull => (w, None)
  }

  /** One iteration of the loop in `tick`. */
  function DoTickItem(c: Config, v: Value, id: Id, row: Row, now: int, run: nat): (Value, Option<Frame>) {
    if id in v.active then
      if row.cron.None? then (v, None)
      else
        var next := Cron.Next(row.cron.value, c.offset, now);
        (v.(table := DoMarkRun(v.table, id, row.lastRunId, OrElse(row.lastRunAt, now), next)), None)
    else DoRunOne(v, id, row.cron, run)
  }

  /** How a failure or a success changes the row. */
  function AfterOutcome(c: Config, row: Row, failed: bool): Patch {
    if failed then
      var failures := row.consecutiveFailures + 1;
      var disable := failures >= c.maxFailures;
      NO_CHANGE.(consecutiveFailures := Some(failures), status := Some(if disable then Disabled else Failing),
                 enabled := if disable then Some(false) else None)
    else if row.consecutiveFailures > 0 || row.status != Active then
      NO_CHANGE.(consecutiveFailures := Some(0), status := Some(Active))
    else NO_CHANGE
  }

  /** The next run that is stored after a run: computed from the expression the run started with. */
  function NextFor(c: Config, cron: Option<Cron.Expression>, now: int): Option<int> {
    if cron.None? then None else Cron.Next(cron.value, c.offset, now)
  }

  function DoFinish(c: Config, v: Value, f: Frame, failed: bool, runId: nat, now: int): Value {
    var t := DoMarkRun(v.table, f.id, Some(runId), now, NextFor(c, f.cron, now));
    v.(table := if f.id in t then DoUpdate(t, f.id, AfterOutcome(c, t[f.id], failed)) else t)
  }

  /** The outer `finally`. */
  function DoRelease(v: Value, f: Frame): (Value, Option<Lane.Handle>)
    requires !f.phase.WaitingLane?
  {
    var (lane, granted) := Lane.DoRelease(v.lane, f.phase.handle);
    (v.(lane := lane, active := v.active - {f.id}), granted)
  }

  class SchedulerService {
    const config: Config
    const table: ScheduleTable
    const lane: Lane.ConcurrencyLane
    var active: set<Id>
    var stopping: bool

    ghost predicate Valid()
      reads this
    {
      lane.config == LANE_CONFIG
    }

    function Contents(): Value
      reads this, table, lane
    {
      Value(table.rows, active, lane.Contents())
    }

    constructor (config: Config, table: ScheduleTable, lane: Lane.ConcurrencyLane)
      requires lane.config == LANE_CONFIG
      ensures Valid() && this.config == config && this.table == table && this.lane == lane
      ensures active == {} && !stopping
    {
      this.config, this.table, this.lane := config, table, lane;
      active, stopping := {}, false;
    }

    method RunOne(id: Id, row: Row, run: nat) returns (f: Option<Frame>)
      requires Valid()
      modifies this`active, lane
      ensures Valid()
      ensures (Contents(), f) == DoRunOne(old(Contents()), id, row.cron, run)
    {
      if id in active {
        return None;
      }
      active := active + {id};
      var r := lane.Acquire(id, run);
      match r
      case Granted(h) => f := Some(Frame(run, id, row.cron, Running(h)));
      case Queued => f := Some(Frame(run, id, row.cron, WaitingLane));
      case QueueFull => f := None;
    }

    /** One iteration of the loop in `tick`. */
    method TickItem(id: Id, row: Row, now: int, run: nat) returns (f: Option<Frame>)
      requires Valid()
      modifies this`active, table, lane
      ensures Valid()
      ensures (Contents(), f) == DoTickItem(config, old(Contents()), id, row, now, run)
    {
      f := None;
      if id in active {
        if row.cron.Some? {
          var next := Cron.NextRunAt(row.cron.value, config.offset, now);
          table.MarkScheduleRun(id, row.lastRunId, OrElse(row.lastRunAt, now), next);
        }
      } else {
        f := RunOne(id, row, run);
      }
    }

    method Tick(now: int, due: seq<(Id, Row)>, run: nat) returns (started: seq<Frame>)
      requires Valid() && IsDueList(table.rows, now, due)
      modifies this`active, table, lane
      ensures Valid()
      ensures (Contents(), started) == if stopping then (old(Contents()), []) else DoTick(config, old(Contents()), due, now, run)
    {
      hide DoTickItem, IsDueList;
      started := [];
      if stopping {
        return;
      }
      var i := 0;
      ghost var all := DoTick(config, Contents(), due, now, run);
      assert due[0..] == due && [] + all.1 == all.1;
      while i < |due|
        modifies this`active, table, lane
        invariant i <= |due| && Valid()
        invariant var (v, fs) := DoTick(config, Contents(), due[i..], now, run + i);
                  all == (v, started + fs)
      {
        assert due[i..][0] == due[i] && due[i..][1..] == due[i + 1..];
        var f := TickItem(due[i].0, due[i].1, now, run + i);
        ghost var rest := DoTick(config, Contents(), due[i + 1..], now, run + i + 1).1;
        assert started + (Opt(f) + rest) == (started + Opt(f)) + rest;
        started := started + Opt(f);
        i := i + 1;
      }
      assert due[i..] == [] && started + [] == started;
    }

    /** `schedule.runNow`; None when the schedule does not exist, which the source reports as an error. */
    method TriggerNow(id: Id, run: nat) returns (f: Option<Frame>)
      requires Valid()
      modifies this`active, lane
      ensures Valid()
      ensures if id !in old(table.rows) then f.None? && Contents() == old(Contents())
              else (Contents(), f) == DoRunOne(old(Contents()), id, old(table.rows)[id].cron, run)
    {
      if id !in table.rows {
        return None;
      }
      f := RunOne(id, table.rows[id], run);
    }

    /** The agent run has ended; the row is updated before delivery is awaited. */
    method OnFinished(f: Frame, failed: bool, runId: nat, now: int) returns (g: Frame)
      requires Valid() && f.phase.Running?
      modifies table
      ensures Valid()
      ensures Contents() == DoFinish(config, old(Contents()), f, failed, runId, now)
      ensures g == f.(phase := Delivering(f.phase.handle))
    {
      var next: Option<int> := None;
      if f.cron.Some? {
        next := Cron.NextRunAt(f.cron.value, config.offset, now);
      }
      table.MarkScheduleRun(f.id, Some(runId), now, next);
      if f.id in table.rows {
        var current := table.rows[f.id];
        if failed {
          var failures := current.consecutiveFailures + 1;
          var shouldDisable := failures >= config.maxFailures;
          table.UpdateSchedule(f.id, NO_CHANGE.(consecutiveFailures := Some(failures),
                                                status := Some(if shouldDisable then Disabled else Failing),
                                                enabled := if shouldDisable then Some(false) else None));
        } else if current.consecutiveFailures > 0 || current.status != Active {
          table.UpdateSchedule(f.id, NO_CHANGE.(consecutiveFailures := Some(0), status := Some(Active)));
        } else {
          assert table.rows[f.id := ApplyPatch(current, NO_CHANGE)] == table.rows;
        }
      }
      g := f.(phase := Delivering(f.phase.handle));
    }

    method OnReleased(f: Frame) returns (granted: Option<Lane.Handle>)
      requires Valid() && !f.phase.WaitingLane?
      modifies this`active, lane
      ensures Valid()
      ensures (Contents(), granted) == DoRelease(old(Contents()), f)
    {
      granted := lane.ReleaseIfCurrent(f.phase.handle);
      active := active - {f.id};
    }
  }

  /** The loop of `tick`; call `i` of the loop gets the identity `run + i`. */
  function DoTick(c: Config, v: Value, due: seq<(Id, Row)>, now: int, run: nat): (Value, seq<Frame>)
    decreases |due|
  {
    if due == [] then (v, [])
    else
      var (w, f) := DoTickItem(c, v, due[0].0, due[0].1, now, run);
      var (x, fs) := DoTick(c, w, due[1..], now, run + 1);
      (x, Opt(f) + fs)
  }

  // ----- The service together with its suspended runs and the users' edits -------------------

  datatype Mark = Succeeded | Failed | Reenabled

  /** `log`: per schedule, how its runs ended and when it was re-enabled by a user. */
  datatype Sys = Sys(v: Value, frames: set<Frame>, nextRun: nat, log: map<Id, seq<Mark>>)

  datatype Event =
    | Tick(now: int, due: seq<(Id, Row)>)
    | Trigger(id: Id)
    | Finish(frame: Frame, failed: bool, runId: nat, now: int)
    | Release(frame: Frame)
    | Create(id: Id, cron: Cron.Expression, enabled: bool, nextRunAt: Option<int>)
    | Edit(id: Id, patch: Patch)
    | Delete(id: Id)

  const Init := Sys(Value(map[], {}, Lane.Empty), {}, 0, map[])

  /**
   * What `schedule.update`, `schedule.enable` and `schedule.disable` send to the table:
   * enabling a schedule also clears its failures.
   */
  predicate UserPatch(p: Patch) {
    if p.enabled == Some(true) then p.status == Some(Active) && p.consecutiveFailures == Some(0)
    else p.status.None? && p.consecutiveFailures.None?
  }

  /** A run may reach its `finally` without an outcome when the code before it throws. */
  ghost predicate Enabled(s: Sys, e: Event) {
    match e
    case Tick(now, due) => IsDueList(s.v.table, now, due)
    case Trigger(_) => true
    case Finish(f, _, _, _) => f in s.frames && f.phase.Running?
    case Release(f) => f in s.frames && !f.phase.WaitingLane?
    case Create(id, _, _, _) => id !in s.v.table
    case Edit(_, p) => UserPatch(p)
    case Delete(_) => true
  }

  function MarksOf(s: Sys, id: Id): seq<Mark> { GetOr(s.log, id, []) }

  function Start(s: Sys, v: Value, f: Option<Frame>): Sys {
    s.(v := v, frames := if f.Some? then s.frames + {f.value} else s.frames, nextRun := s.nextRun + 1)
  }

  function TickAll(c: Config, s: Sys, due: seq<(Id, Row)>, now: int): Sys
    decreases |due|
  {
    if due == [] then s
    else
      var (v, f) := DoTickItem(c, s.v, due[0].0, due[0].1, now, s.nextRun);
      TickAll(c, Start(s, v, f), due[1..], now)
  }

  function WakeOne(f: Frame, h: Lane.Handle): Frame {
    if f.phase.WaitingLane? && f.run == h.id then f.(phase := Running(h)) else f
  }

  function Step(c: Config, s: Sys, e: Event): Sys
    requires e.Release? ==> !e.frame.phase.WaitingLane?
    requires e.Finish? ==> e.frame.phase.Running?
  {
    match e
    case Tick(now, due) => TickAll(c, s, due, now)
    case Trigger(id) =>
      if id !in s.v.table then s
      else var (v, f) := DoRunOne(s.v, id, s.v.table[id].cron, s.nextRun); Start(s, v, f)
    case Finish(f, failed, runId, now) =>
      s.(v := DoFinish(c, s.v, f, failed, runId, now),
         frames := s.frames - {f} + {f.(phase := Delivering(f.phase.handle))},
         log := if f.id in s.v.table then s.log[f.id := MarksOf(s, f.id) + [if failed then Failed else Succeeded]] else s.log)
    case Release(f) =>
      var (v, g) := DoRelease(s.v, f);
      var rest := s.frames - {f};
      s.(v := v, frames := if g.None? then rest else set x | x in rest :: WakeOne(x, g.value))
    case Create(id, cron, enabled, next) =>
      s.(v := s.v.(table := s.v.table[id := Row(Some(cron), enabled, Active, 0, None, None, next)]), log := s.log[id := []])
    case Edit(id, p) =>
      s.(v := s.v.(table := DoUpdate(s.v.table, id, p)),
         log := if id in s.v.table && p.enabled == Some(true) then s.log[id := MarksOf(s, id) + [Reenabled]] else s.log)
    case Delete(id) => s.(v := s.v.(table := s.v.table - {id}), log := s.log - {id})
  }

  ghost predicate Feasible(c: Config, s: Sys, es: seq<Event>)
    decreases |es|
  {
    es == [] || (Enabled(s, es[0]) && Feasible(c, Step(c, s, es[0]), es[1..]))
  }

  ghost function Run(c: Config, s: Sys, es: seq<Event>): Sys
    requires Feasible(c, s, es)
    decreases |es|
  {
    if es == [] then s else Run(c, Step(c, s, es[0]), es[1..])
  }

  function FramesOf(s: Sys, id: Id): set<Frame> { set f | f in s.frames && f.id == id }

  /** Who is running, in the frames, the active set and the lane alike. */
  ghost predicate IdInv(s: Sys, id: Id, f: Option<Frame>) {
    && FramesOf(s, id) == (if f.Some? then {f.value} else {})
    && (f.Some? ==> !f.value.phase.WaitingLane? && f.value.phase.handle == Lane.Handle(f.value.run, id, 0))
    && (id in s.v.active <==> f.Some?)
    && Lane.Active(s.v.lane, id) == (if f.Some? then 1 else 0)
    && Lane.Queue(s.v.lane, id) == []
  }

  ghost predicate IdOk(s: Sys, id: Id) {
    exists f :: IdInv(s, id, f)
  }

  /** Failures since the last success or re-enabling. */
  function FailuresSince(marks: seq<Mark>): nat {
    if marks == [] || marks[|marks| - 1] != Failed then 0 else 1 + FailuresSince(marks[..|marks| - 1])
  }

  ghost predicate RowOk(c: Config, row: Row, marks: seq<Mark>) {
    && row.consecutiveFailures == FailuresSince(marks)
    && row.status == (if row.consecutiveFailures == 0 then Active else if row.consecutiveFailures < c.maxFailures then Failing else Disabled)
    && (row.status == Disabled ==> !row.enabled)
  }

  ghost predicate TableInv(c: Config, s: Sys) {
    forall id :: id in s.v.table ==> RowOk(c, s.v.table[id], MarksOf(s, id))
  }

  ghost predicate Inv(c: Config, s: Sys) {
    && s.v.lane.generation == 0
    && (forall id :: IdOk(s, id))
    && TableInv(c, s)
  }

  // ----- One step keeps the invariant --------------------------------------------------------

  lemma MarksSnoc(marks: seq<Mark>, m: Mark)
    ensures FailuresSince(marks + [m]) == if m == Failed then FailuresSince(marks) + 1 else 0
  {
    assert (marks + [m])[..|marks|] == marks;
  }

  /** `runOne` on an idle schedule gets its slot at once; on a running one it does nothing. */
  lemma StartKeeps(s: Sys, id: Id, cron: Option<Cron.Expression>, x: Id)
    requires s.v.lane.generation == 0 && IdOk(s, id) && IdOk(s, x)
    ensures var (v, f) := DoRunOne(s.v, id, cron, s.nextRun);
            && v.table == s.v.table && v.lane.generation == 0
            && f == (if id in s.v.active then None else Some(Frame(s.nextRun, id, cron, Running(Lane.Handle(s.nextRun, id, 0)))))
            && IdOk(Start(s, v, f), x)
  {
    var (v, f) := DoRunOne(s.v, id, cron, s.nextRun);
    var t := Start(s, v, f);
    var g :| IdInv(s, id, g);
    var h :| IdInv(s, x, h);
    if id !in s.v.active && x == id {
      assert FramesOf(t, x) == FramesOf(s, x) + {f.value};
      assert IdInv(t, x, f);
    } else {
      assert FramesOf(t, x) == FramesOf(s, x);
      assert IdInv(t, x, h);
    }
  }

  lemma TriggerKeepsInv(c: Config, s: Sys, id: Id)
    requires Inv(c, s)
    ensures Inv(c, Step(c, s, Trigger(id)))
  {
    if id in s.v.table {
      var t := Step(c, s, Trigger(id));
      forall x ensures IdOk(t, x) {
        assert IdOk(s, id) && IdOk(s, x);
        StartKeeps(s, id, s.v.table[id].cron, x);
      }
      assert IdOk(s, id);
      StartKeeps(s, id, s.v.table[id].cron, id);
    }
  }

  lemma TickItemKeeps(c: Config, s: Sys, id: Id, row: Row, now: int)
    requires Inv(c, s)
    ensures var (v, f) := DoTickItem(c, s.v, id, row, now, s.nextRun); Inv(c, Start(s, v, f))
  {
    var (v, f) := DoTickItem(c, s.v, id, row, now, s.nextRun);
    var t := Start(s, v, f);
    assert IdOk(s, id);
    if id in s.v.active {
      forall x ensures IdOk(t, x) {
        assert IdOk(s, x);
        var h :| IdInv(s, x, h);
        assert FramesOf(t, x) == FramesOf(s, x);
        assert IdInv(t, x, h);
      }
    } else {
      forall x ensures IdOk(t, x) {
        assert IdOk(s, x);
        StartKeeps(s, id, row.cron, x);
      }
      StartKeeps(s, id, row.cron, id);
    }
  }

  lemma {:induction false} TickKeepsInv(c: Config, s: Sys, due: seq<(Id, Row)>, now: int)
    requires Inv(c, s)
    ensures Inv(c, TickAll(c, s, due, now))
    decreases |due|
  {
    if due != [] {
      TickItemKeeps(c, s, due[0].0, due[0].1, now);
      var (v, f) := DoTickItem(c, s.v, due[0].0, due[0].1, now, s.nextRun);
      TickKeepsInv(c, Start(s, v, f), due[1..], now);
    }
  }

  lemma FinishKeepsTable(c: Config, s: Sys, f: Frame, failed: bool, runId: nat, now: int)
    requires TableInv(c, s) && f.phase.Running?
    ensures TableInv(c, Step(c, s, Finish(f, failed, runId, now)))
  {
    hide NextFor;
    var t := Step(c, s, Finish(f, failed, runId, now));
    MarksSnoc(MarksOf(s, f.id), if failed then Failed else Succeeded);
    hide FailuresSince;
    forall id | id in t.v.table ensures RowOk(c, t.v.table[id], MarksOf(t, id)) {
      assert RowOk(c, s.v.table[id], MarksOf(s, id));
    }
  }

  lemma FinishKeepsInv(c: Config, s: Sys, f: Frame, failed: bool, runId: nat, now: int)
    requires Inv(c, s) && f in s.frames && f.phase.Running?
    ensures Inv(c, Step(c, s, Finish(f, failed, runId, now)))
  {
    var t := Step(c, s, Finish(f, failed, runId, now));
    FinishKeepsTable(c, s, f, failed, runId, now);
    hide TableInv;
    assert t.v.lane == s.v.lane && t.v.active == s.v.active;
    var g := f.(phase := Delivering(f.phase.handle));
    assert t.frames == s.frames - {f} + {g};
    hide DoFinish, Step;
    forall x ensures IdOk(t, x) {
      assert IdOk(s, x);
      var h :| IdInv(s, x, h);
      if x == f.id {
        assert f in FramesOf(s, x);
        assert FramesOf(t, x) == {g};
        assert IdInv(t, x, Some(g));
      } else {
        assert FramesOf(t, x) == FramesOf(s, x);
        assert IdInv(t, x, h);
      }
    }
  }

  lemma ReleaseKeepsInv(c: Config, s: Sys, f: Frame)
    requires Inv(c, s) && f in s.frames && !f.phase.WaitingLane?
    ensures Inv(c, Step(c, s, Release(f)))
  {
    var t := Step(c, s, Release(f));
    assert IdOk(s, f.id);
    var g :| IdInv(s, f.id, g);
    assert f in FramesOf(s, f.id);
    forall x ensures IdOk(t, x) {
      assert IdOk(s, x);
      var h :| IdInv(s, x, h);
      if x == f.id {
        assert FramesOf(t, x) == {};
        assert IdInv(t, x, None);
      } else {
        assert FramesOf(t, x) == FramesOf(s, x);
        assert IdInv(t, x, h);
      }
    }
  }

  /** Editing the table leaves the runs alone. */
  lemma EditKeepsInv(c: Config, s: Sys, e: Event)
    requires Inv(c, s) && Enabled(s, e) && (e.Create? || e.Edit? || e.Delete?)
    ensures Inv(c, Step(c, s, e))
  {
    var t := Step(c, s, e);
    forall x ensures IdOk(t, x) {
      assert IdOk(s, x);
      var h :| IdInv(s, x, h);
      assert FramesOf(t, x) == FramesOf(s, x);
      assert IdInv(t, x, h);
    }
    if e.Edit? {
      MarksSnoc(MarksOf(s, e.id), Reenabled);
    }
  }

  lemma StepKeepsInv(c: Config, s: Sys, e: Event)
    requires Inv(c, s) && Enabled(s, e)
    ensures Inv(c, Step(c, s, e))
  {
    match e
    case Tick(now, due) => TickKeepsInv(c, s, due, now);
    case Trigger(id) => TriggerKeepsInv(c, s, id);
    case Finish(f, failed, runId, now) => FinishKeepsInv(c, s, f, failed, runId, now);
    case Release(f) => ReleaseKeepsInv(c, s, f);
    case _ => EditKeepsInv(c, s, e);
  }

  // ----- Every run ---------------------------------------------------------------------------

  lemma {:induction false} RunKeepsInv(c: Config, s: Sys, es: seq<Event>)
    requires Inv(c, s) && Feasible(c, s, es)
    ensures Inv(c, Run(c, s, es))
    decreases |es|
  {
    if es != [] {
      StepKeepsInv(c, s, es[0]);
      RunKeepsInv(c, Step(c, s, es[0]), es[1..]);
    }
  }

  lemma {:induction false} ReachableInv(c: Config, es: seq<Event>)
    requires Feasible(c, Init, es)
    ensures Inv(c, Run(c, Init, es))
  {
    forall x ensures IdOk(Init, x) {
      assert IdInv(Init, x, None);
    }
    RunKeepsInv(c, Init, es);
  }

  /** At most one run per schedule is in flight, and its lane slot was granted at once. */
  lemma {:induction false} OneRunPerSchedule(c: Config, es: seq<Event>, id: Id)
    requires Feasible(c, Init, es)
    ensures var s := Run(c, Init, es);
            && |FramesOf(s, id)| <= 1
            && (forall f :: f in FramesOf(s, id) ==> !f.phase.WaitingLane?)
            && (FramesOf(s, id) != {} <==> id in s.v.active)
            && (forall cron :: id !in s.v.active ==>
                  DoRunOne(s.v, id, cron, s.nextRun).1 == Some(Frame(s.nextRun, id, cron, Running(Lane.Handle(s.nextRun, id, 0)))))
  {
    ReachableInv(c, es);
    var s := Run(c, Init, es);
    assert IdOk(s, id);
    forall cron: Option<Cron.Expression>
      ensures id !in s.v.active ==>
                DoRunOne(s.v, id, cron, s.nextRun).1 == Some(Frame(s.nextRun, id, cron, Running(Lane.Handle(s.nextRun, id, 0)))) {
      StartKeeps(s, id, cron, id);
    }
  }

  /** The failure counter and the status of every schedule, from the history of its runs. */
  lemma {:induction false} FailureTracking(c: Config, es: seq<Event>, id: Id)
    requires Feasible(c, Init, es) && id in Run(c, Init, es).v.table
    ensures var s := Run(c, Init, es);
            var row, n := s.v.table[id], FailuresSince(MarksOf(s, id));
            && row.consecutiveFailures == n
            && (row.status == Active <==> n == 0)
            && (row.status == Failing <==> 0 < n < c.maxFailures)
            && (row.status == Disabled <==> n > 0 && n >= c.maxFailures)
            && (row.status == Disabled ==> !row.enabled)
  {
    ReachableInv(c, es);
  }

  /** The loop of `tick` starts only schedules of its list, and only idle ones. */
  lemma {:induction false} TickStartsOnly(c: Config, s: Sys, due: seq<(Id, Row)>, now: int, f: Frame)
    requires f in TickAll(c, s, due, now).frames && f !in s.frames
    ensures f.id !in s.v.active && exists i :: 0 <= i < |due| && due[i].0 == f.id && f.cron == due[i].1.cron
    decreases |due|
  {
    var (v, g) := DoTickItem(c, s.v, due[0].0, due[0].1, now, s.nextRun);
    var t := Start(s, v, g);
    if f !in t.frames {
      TickStartsOnly(c, t, due[1..], now, f);
      var i :| 0 <= i < |due[1..]| && due[1..][i].0 == f.id && f.cron == due[1..][i].1.cron;
      assert due[i + 1] == due[1..][i];
    }
  }

  /** A tick starts a schedule only if it is enabled, not disabled by failures, and due. */
  lemma {:induction false} TickStartsOnlyDue(c: Config, s: Sys, due: seq<(Id, Row)>, now: int, f: Frame)
    requires Enabled(s, Tick(now, due))
    requires f in Step(c, s, Tick(now, due)).frames && f !in s.frames
    ensures f.id in s.v.table && IsDue(s.v.table[f.id], now) && f.cron == s.v.table[f.id].cron && f.id !in s.v.active
  {
    TickStartsOnly(c, s, due, now, f);
  }

  lemma {:induction false} TickStartsIdle(c: Config, s: Sys, due: seq<(Id, Row)>, now: int, k: nat) returns (f: Frame)
    requires Inv(c, s) && k < |due| && due[k].0 !in s.v.active
    requires forall i, j :: 0 <= i < j < |due| ==> due[i].0 != due[j].0
    ensures f in TickAll(c, s, due, now).frames && f.id == due[k].0 && f.cron == due[k].1.cron && f.phase.Running?
    decreases |due|
  {
    var (id, row) := due[0];
    var (v, g) := DoTickItem(c, s.v, id, row, now, s.nextRun);
    var t := Start(s, v, g);
    assert IdOk(s, id);
    StartKeeps(s, id, row.cron, id);
    if k == 0 {
      f := g.value;
      TickOnlyAdds(c, t, due[1..], now);
    } else {
      TickItemKeeps(c, s, id, row, now);
      assert due[k].0 !in t.v.active;
      hide Inv, DoTickItem;
      assert due[1..][k - 1] == due[k];
      assert forall i, j :: 0 <= i < j < |due[1..]| ==> due[1..][i] == due[i + 1] && due[1..][j] == due[j + 1];
      f := TickStartsIdle(c, t, due[1..], now, k - 1);
    }
  }

  /**
   * A tick of any run starts exactly the schedules that are due and idle: each of them gets one
   * running call, with the expression of its row; nothing else is started, and no call goes away.
   */
  lemma {:induction false} TickStartsIff(c: Config, es: seq<Event>, now: int, due: seq<(Id, Row)>, id: Id)
    requires Feasible(c, Init, es) && Enabled(Run(c, Init, es), Tick(now, due))
    ensures var s := Run(c, Init, es);
            var t := Step(c, s, Tick(now, due));
            && s.frames <= t.frames
            && ((exists f :: f in t.frames - s.frames && f.id == id)
                <==> id in s.v.table && id !in s.v.active
                     && var row := s.v.table[id];
                     row.enabled && row.status != Disabled && row.nextRunAt.Some? && row.nextRunAt.value <= now)
            && forall f :: f in t.frames - s.frames && f.id == id ==>
                 FramesOf(t, id) == {f} && f.phase.Running? && id in s.v.table && f.cron == s.v.table[id].cron
  {
    var s := Run(c, Init, es);
    var t := Step(c, s, Tick(now, due));
    ReachableInv(c, es);
    hide Inv, Run, Feasible, IdOk, TickAll;
    TickOnlyAdds(c, s, due, now);
    forall f | f in t.frames - s.frames && f.id == id
      ensures id in s.v.table && IsDue(s.v.table[id], now) && id !in s.v.active && f.cron == s.v.table[id].cron {
      TickStartsOnlyDue(c, s, due, now, f);
    }
    if id in s.v.table && IsDue(s.v.table[id], now) && id !in s.v.active {
      var k :| 0 <= k < |due| && due[k] == (id, s.v.table[id]);
      var g := TickStartsIdle(c, s, due, now, k);
      IdleHasNoFrame(c, s, id);
      TickKeepsInv(c, s, due, now);
      OnlyFrame(c, t, g);
      assert g in t.frames - s.frames;
      assert forall f :: f in t.frames - s.frames && f.id == id ==> f in FramesOf(t, id);
    }
  }

  lemma IdleHasNoFrame(c: Config, s: Sys, id: Id)
    requires Inv(c, s) && id !in s.v.active
    ensures forall f :: f in s.frames ==> f.id != id
  {
    assert IdOk(s, id);
    assert FramesOf(s, id) == {};
    assert forall f :: f in s.frames && f.id == id ==> f in FramesOf(s, id);
  }

  lemma OnlyFrame(c: Config, s: Sys, f: Frame)
    requires Inv(c, s) && f in s.frames
    ensures FramesOf(s, f.id) == {f}
  {
    assert IdOk(s, f.id) && f in FramesOf(s, f.id);
  }

  /** A manual start does so exactly for a known schedule that is idle, whether it is due and enabled or not. */
  lemma {:induction false} TriggerStartsIff(c: Config, es: seq<Event>, id: Id)
    requires Feasible(c, Init, es)
    ensures var s := Run(c, Init, es);
            var t := Step(c, s, Trigger(id));
            && t.v.table == s.v.table
            && if id in s.v.table && id !in s.v.active
               then exists f :: t.frames == s.frames + {f} && f !in s.frames && f.id == id && f.phase.Running? && f.cron == s.v.table[id].cron
               else t.frames == s.frames
  {
    var s := Run(c, Init, es);
    ReachableInv(c, es);
    assert IdOk(s, id);
    if id in s.v.table {
      StartKeeps(s, id, s.v.table[id].cron, id);
      if id !in s.v.active {
        IdleHasNoFrame(c, s, id);
        var f := DoRunOne(s.v, id, s.v.table[id].cron, s.nextRun).1.value;
        assert Step(c, s, Trigger(id)).frames == s.frames + {f} && f !in s.frames;
      }
    }
  }

  // ----- The next run of a row ------------------------------------------------------------------

  /** The stored time, if there is one, is a minute that the row's own expression matches. */
  ghost predicate OnSchedule(c: Config, row: Row) {
    row.nextRunAt.Some? ==>
      row.cron.Some? && row.nextRunAt.value % 60000 == 0 && Cron.Matches(row.cron.value, c.offset, row.nextRunAt.value)
  }

  /** And it lies in the future. */
  ghost predicate Fresh(c: Config, row: Row, now: int) {
    OnSchedule(c, row) && (row.nextRunAt.Some? ==> row.nextRunAt.value > now)
  }

  /**
   * After a run, whatever happened to the row in the meantime: the stored time is in the future
   * and belongs to the row's own expression exactly if that expression matches the time found
   * for the one the run was started with, or no time was found.
   */
  lemma {:induction false} FreshAfterRunIff(c: Config, es: seq<Event>, f: Frame, failed: bool, runId: nat, now: int)
    requires Feasible(c, Init, es) && Enabled(Run(c, Init, es), Finish(f, failed, runId, now))
    requires f.id in Run(c, Init, es).v.table
    ensures var s := Run(c, Init, es);
            var row := Step(c, s, Finish(f, failed, runId, now)).v.table[f.id];
            var found := NextFor(c, f.cron, now);
            && row.cron == s.v.table[f.id].cron && row.lastRunAt == Some(now) && row.lastRunId == Some(runId)
            && (Fresh(c, row, now) <==>
                found.None? || (row.cron.Some? && Cron.Matches(row.cron.value, c.offset, found.value)))
  {
    if f.cron.Some? {
      Cron.NextIsLeast(f.cron.value, c.offset, now);
    }
  }

  /**
   * The row after a run. A failure is counted, and one that reaches the threshold disables the schedule; a success
   * clears the counter. No other row changes, and a row that is gone does not come back.
   */
  lemma RowAfterRun(c: Config, es: seq<Event>, f: Frame, failed: bool, runId: nat, now: int)
    requires Feasible(c, Init, es) && Enabled(Run(c, Init, es), Finish(f, failed, runId, now))
    ensures var s := Run(c, Init, es).v.table;
            var t := Step(c, Run(c, Init, es), Finish(f, failed, runId, now)).v.table;
            && t.Keys == s.Keys && (forall id :: id in s && id != f.id ==> t[id] == s[id])
            && (f.id in s ==>
                  var row, failures := s[f.id], if failed then s[f.id].consecutiveFailures + 1 else 0;
                  var disabled := failed && failures >= c.maxFailures;
                  t[f.id] == Row(row.cron, row.enabled && !disabled,
                                 if disabled then Disabled else if failed then Failing else Active,
                                 failures, Some(runId), Some(now),
                                 if f.cron.None? then None else Cron.Next(f.cron.value, c.offset, now)))
  {
    var s := Run(c, Init, es);
    ReachableInv(c, es);
    assert TableInv(c, s);
    assert f.id in s.v.table ==> RowOk(c, s.v.table[f.id], MarksOf(s, f.id));
    hide Cron.Next, Inv, Run, Feasible, FailuresSince;
  }

  /** A user's edit sets the columns that it names, in its own row alone. */
  lemma EditSetsColumns(c: Config, s: Sys, id: Id, p: Patch)
    requires id in s.v.table
    ensures var t := Step(c, s, Edit(id, p)).v.table;
            && t.Keys == s.v.table.Keys && (forall x :: x in t && x != id ==> t[x] == s.v.table[x])
            && var before, after := s.v.table[id], t[id];
            && Holds(after.cron, p.cron, before.cron) && Holds(after.enabled, p.enabled, before.enabled)
            && Holds(after.status, p.status, before.status) && Holds(after.nextRunAt, p.nextRunAt, before.nextRunAt)
            && Holds(after.consecutiveFailures, p.consecutiveFailures, before.consecutiveFailures)
            && after.lastRunId == before.lastRunId && after.lastRunAt == before.lastRunAt
  {
  }

  /** The event leaves the expression of the schedule alone. */
  predicate KeepsCron(e: Event, id: Id) {
    match e
    case Edit(x, p) => x != id || p.cron.None?
    case Create(x, _, _, _) => x != id
    case Delete(x) => x != id
    case _ => true
  }

  lemma {:induction false} TickKeepsCron(c: Config, s: Sys, due: seq<(Id, Row)>, now: int, id: Id)
    ensures var t := TickAll(c, s, due, now).v.table;
            (id in t <==> id in s.v.table) && (id in t ==> t[id].cron == s.v.table[id].cron)
    decreases |due|
  {
    if due != [] {
      var (v, f) := DoTickItem(c, s.v, due[0].0, due[0].1, now, s.nextRun);
      TickKeepsCron(c, Start(s, v, f), due[1..], now, id);
      assert (id in v.table <==> id in s.v.table) && (id in v.table ==> v.table[id].cron == s.v.table[id].cron);
    }
  }

  lemma StepKeepsCron(c: Config, s: Sys, e: Event, id: Id)
    requires Enabled(s, e) && KeepsCron(e, id)
    ensures var t := Step(c, s, e).v.table;
            (id in t <==> id in s.v.table) && (id in t ==> t[id].cron == s.v.table[id].cron)
  {
    if e.Tick? {
      TickKeepsCron(c, s, e.due, e.now, id);
    }
  }

  lemma {:induction false} RunKeepsCron(c: Config, s: Sys, es: seq<Event>, id: Id)
    requires Feasible(c, s, es) && forall e :: e in es ==> KeepsCron(e, id)
    ensures var t := Run(c, s, es).v.table;
            (id in t <==> id in s.v.table) && (id in t ==> t[id].cron == s.v.table[id].cron)
    decreases |es|
  {
    if es != [] {
      hide Step;
      assert es[0] in es && forall e :: e in es[1..] ==> e in es;
      StepKeepsCron(c, s, es[0], id);
      RunKeepsCron(c, Step(c, s, es[0]), es[1..], id);
    }
  }

  /** A run is started with the expression of its row. */
  lemma {:induction false} StartsWithRowsCron(c: Config, s: Sys, e: Event, f: Frame)
    requires Inv(c, s) && Enabled(s, e) && (e.Tick? || e.Trigger?) && f in Step(c, s, e).frames && f !in s.frames
    ensures f.id in s.v.table && f.cron == s.v.table[f.id].cron
  {
    if e.Tick? {
      TickStartsOnlyDue(c, s, e.due, e.now, f);
    }
  }

  /**
   * In every run: when a schedule was started by event `e` and its expression was left alone
   * since, the time stored at the end is in the future and matches the row's own expression;
   * and there is one if that expression is of the kind that runs every year.
   */
  lemma {:induction false} NextRunIsInTheFuture(c: Config, es: seq<Event>, e: Event, more: seq<Event>,
                                               f: Frame, failed: bool, runId: nat, now: int)
    requires Feasible(c, Init, es) && (e.Tick? || e.Trigger?) && Enabled(Run(c, Init, es), e)
    requires f in Step(c, Run(c, Init, es), e).frames && f !in Run(c, Init, es).frames
    requires Feasible(c, Step(c, Run(c, Init, es), e), more) && forall x :: x in more ==> KeepsCron(x, f.id)
    requires Enabled(Run(c, Step(c, Run(c, Init, es), e), more), Finish(f, failed, runId, now))
    ensures var u := Step(c, Run(c, Step(c, Run(c, Init, es), e), more), Finish(f, failed, runId, now));
            && f.id in u.v.table && Fresh(c, u.v.table[f.id], now)
            && var row := u.v.table[f.id];
            (row.cron.Some? && Cron.WellFormed(row.cron.value) && Cron.RunsEveryYear(row.cron.value) ==> row.nextRunAt.Some?)
  {
    var s := Run(c, Init, es);
    var t := Step(c, s, e);
    var u := Run(c, t, more);
    ReachableInv(c, es);
    StartsWithRowsCron(c, s, e, f);
    StepKeepsCron(c, s, e, f.id);
    RunKeepsCron(c, t, more, f.id);
    FinishStores(c, u, f, failed, runId, now);
  }

  lemma FinishStores(c: Config, u: Sys, f: Frame, failed: bool, runId: nat, now: int)
    requires f.phase.Running? && f.id in u.v.table && u.v.table[f.id].cron == f.cron
    ensures var row := Step(c, u, Finish(f, failed, runId, now)).v.table[f.id];
            && Fresh(c, row, now) && row.cron == f.cron
            && (f.cron.Some? && Cron.WellFormed(f.cron.value) && Cron.RunsEveryYear(f.cron.value) ==> row.nextRunAt.Some?)
  {
    hide Cron.Next, Cron.Matches, Cron.WellFormed, Cron.RunsEveryYear;
    if f.cron.Some? {
      Cron.NextIsLeast(f.cron.value, c.offset, now);
      if Cron.WellFormed(f.cron.value) && Cron.RunsEveryYear(f.cron.value) {
        Cron.YearlyScheduleRuns(f.cron.value, c.offset, now);
      }
    }
  }

  // ----- Skipping ---------------------------------------------------------------------------------

  /** The loop of `tick` touches only the rows of its list that are running. */
  lemma {:induction false} TickLeaves(c: Config, s: Sys, due: seq<(Id, Row)>, now: int, id: Id)
    requires id in s.v.table && forall i :: 0 <= i < |due| ==> due[i].0 != id
    ensures var t := TickAll(c, s, due, now); id in t.v.table && t.v.table[id] == s.v.table[id]
    decreases |due|
  {
    if due != [] {
      var (v, f) := DoTickItem(c, s.v, due[0].0, due[0].1, now, s.nextRun);
      assert id in v.table && v.table[id] == s.v.table[id];
      TickLeaves(c, Start(s, v, f), due[1..], now, id);
    }
  }

  /** A skipped row: another next run, and a last run in case it had none. */
  function MovedOn(row: Row, now: int, next: Option<int>): Row {
    row.(nextRunAt := next, lastRunAt := if row.lastRunAt.Some? then row.lastRunAt else Some(now))
  }

  lemma {:induction false} TickSkips(c: Config, s: Sys, due: seq<(Id, Row)>, now: int, k: nat)
    requires k < |due| && due[k].0 in s.v.active && due[k].0 in s.v.table && s.v.table[due[k].0] == due[k].1
    requires forall i, j :: 0 <= i < j < |due| ==> due[i].0 != due[j].0
    ensures var (id, row) := due[k];
            var t := TickAll(c, s, due, now);
            && id in t.v.table
            && (row.cron.None? ==> t.v.table[id] == row)
            && (row.cron.Some? ==> Fresh(c, t.v.table[id], now)
                                   && t.v.table[id] == MovedOn(row, now, Cron.Next(row.cron.value, c.offset, now)))
    decreases |due|
  {
    var (id, row) := due[k];
    var (v, f) := DoTickItem(c, s.v, due[0].0, due[0].1, now, s.nextRun);
    var t := Start(s, v, f);
    if k > 0 {
      assert due[1..][k - 1] == due[k];
      assert forall i, j :: 0 <= i < j < |due[1..]| ==> due[1..][i] == due[i + 1] && due[1..][j] == due[j + 1];
      TickSkips(c, t, due[1..], now, k - 1);
    } else {
      if row.cron.Some? {
        Cron.NextIsLeast(row.cron.value, c.offset, now);
      }
      assert forall i :: 0 <= i < |due[1..]| ==> due[1..][i] == due[i + 1];
      TickLeaves(c, t, due[1..], now, id);
    }
  }

  /**
   * A tick of any run: a due schedule that still runs is not started again, and the time
   * stored for it is in the future and matches its expression. Nothing else changes in the row.
   * (A text that does not parse is left due.)
   */
  lemma {:induction false} SkipMovesOn(c: Config, es: seq<Event>, now: int, due: seq<(Id, Row)>, id: Id)
    requires Feasible(c, Init, es) && Enabled(Run(c, Init, es), Tick(now, due))
    requires var s := Run(c, Init, es); id in s.v.table && IsDue(s.v.table[id], now) && id in s.v.active
    ensures var s := Run(c, Init, es);
            var t := Step(c, s, Tick(now, due));
            && FramesOf(t, id) == FramesOf(s, id) && id in t.v.table
            && if s.v.table[id].cron.Some?
               then Fresh(c, t.v.table[id], now)
                    && t.v.table[id] == MovedOn(s.v.table[id], now, Cron.Next(s.v.table[id].cron.value, c.offset, now))
               else t.v.table[id] == s.v.table[id]
  {
    var s := Run(c, Init, es);
    var t := Step(c, s, Tick(now, due));
    var k :| 0 <= k < |due| && due[k] == (id, s.v.table[id]);
    TickSkips(c, s, due, now, k);
    forall f | f in t.frames && f !in s.frames ensures f.id != id {
      TickStartsOnlyDue(c, s, due, now, f);
    }
    TickOnlyAdds(c, s, due, now);
  }

  lemma {:induction false} TickKeepsIdle(c: Config, s: Sys, due: seq<(Id, Row)>, now: int, k: nat)
    requires k < |due| && due[k].0 !in s.v.active && due[k].0 in s.v.table
    requires forall i, j :: 0 <= i < j < |due| ==> due[i].0 != due[j].0
    ensures var t := TickAll(c, s, due, now).v.table; due[k].0 in t && t[due[k].0] == s.v.table[due[k].0]
    decreases |due|
  {
    var (v, f) := DoTickItem(c, s.v, due[0].0, due[0].1, now, s.nextRun);
    var t := Start(s, v, f);
    assert forall i, j :: 0 <= i < j < |due[1..]| ==> due[1..][i] == due[i + 1] && due[1..][j] == due[j + 1];
    if k == 0 {
      TickLeaves(c, t, due[1..], now, due[0].0);
    } else {
      assert due[1..][k - 1] == due[k];
      TickKeepsIdle(c, t, due[1..], now, k - 1);
    }
  }

  /** Every other row stays as it is: that of a schedule which is not due, or is started now. */
  lemma {:induction false} TickKeepsOthers(c: Config, s: Sys, now: int, due: seq<(Id, Row)>, id: Id)
    requires Enabled(s, Tick(now, due)) && id in s.v.table && !(IsDue(s.v.table[id], now) && id in s.v.active)
    ensures var t := Step(c, s, Tick(now, due)).v.table; id in t && t[id] == s.v.table[id]
  {
    hide TickAll;
    if IsDue(s.v.table[id], now) {
      var k :| 0 <= k < |due| && due[k] == (id, s.v.table[id]);
      TickKeepsIdle(c, s, due, now, k);
    } else {
      TickLeaves(c, s, due, now, id);
    }
  }

  lemma {:induction false} TickOnlyAdds(c: Config, s: Sys, due: seq<(Id, Row)>, now: int)
    ensures s.frames <= TickAll(c, s, due, now).frames
    decreases |due|
  {
    if due != [] {
      var (v, f) := DoTickItem(c, s.v, due[0].0, due[0].1, now, s.nextRun);
      TickOnlyAdds(c, Start(s, v, f), due[1..], now);
    }
  }

  // ----- Editing a schedule while it runs ----------------------------------------------------------

  /** "m * * * *" */
  function HourlyAt(m: int): Cron.Expression {
    Cron.Expression([m], Cron.Between(0, 23), Cron.Between(1, 31), Cron.Between(1, 12), Cron.Between(0, 6))
  }

  lemma HourlyAlwaysRuns(m: int, offset: int, now: int)
    requires 0 <= m <= 59
    ensures Cron.Next(HourlyAt(m), offset, now).Some?
  {
    var e := HourlyAt(m);
    assert e.month[0] == 1 && e.dayOfMonth[0] == 1 && Cron.Cal.EveryYear(1, 1);
    assert 1 in e.month && 1 in e.dayOfMonth;
    Cron.YearlyScheduleRuns(e, offset, now);
  }

  /**
   * Such a run: "0 * * * *" is started by hand and edited to "30 * * * *" before it ends. What
   * is stored at its end, whenever that is, is a full hour, which the row's expression never matches.
   */
  lemma {:induction false} EditDuringRun(c: Config, id: Id, failed: bool, runId: nat, now: int, next: Option<int>)
    ensures var was, edited := HourlyAt(0), HourlyAt(30);
            var f := Frame(0, id, Some(was), Running(Lane.Handle(0, id, 0)));
            var edit := Edit(id, NO_CHANGE.(cron := Some(Some(edited)), nextRunAt := Some(Cron.Next(edited, c.offset, now))));
            var es := [Create(id, was, true, next), Trigger(id), edit, Finish(f, failed, runId, now)];
            && Feasible(c, Init, es) && id in Run(c, Init, es).v.table
            && var row := Run(c, Init, es).v.table[id];
               row.cron == Some(edited) && row.nextRunAt.Some? && !OnSchedule(c, row)
  {
    hide DoFinish, Cron.Matches, Cron.Next, HourlyAt;
    var was, edited := HourlyAt(0), HourlyAt(30);
    var f := Frame(0, id, Some(was), Running(Lane.Handle(0, id, 0)));
    var edit := Edit(id, NO_CHANGE.(cron := Some(Some(edited)), nextRunAt := Some(Cron.Next(edited, c.offset, now))));
    var finish := Finish(f, failed, runId, now);
    var es := [Create(id, was, true, next), Trigger(id), edit, finish];
    var s1 := Step(c, Init, es[0]);
    var s2 := Step(c, s1, es[1]);
    var s3 := Step(c, s2, es[2]);
    var s4 := Step(c, s3, finish);
    assert s1.v.table[id].cron == Some(was);
    assert f in s2.frames && id in s2.v.table;
    assert s3.frames == s2.frames && id in s3.v.table && s3.v.table[id].cron == Some(edited);
    assert es[1..] == [es[1], edit, finish] && es[1..][1..] == [edit, finish] && es[1..][1..][1..] == [finish];
    assert Feasible(c, s3, [finish]) && Run(c, s3, [finish]) == s4;
    assert Feasible(c, s2, [edit, finish]) && Run(c, s2, [edit, finish]) == s4;
    assert Feasible(c, s1, es[1..]) && Run(c, s1, es[1..]) == s4;
    FinishAfterEdit(c, s3, f, failed, runId, now);
  }

  lemma FinishAfterEdit(c: Config, s: Sys, f: Frame, failed: bool, runId: nat, now: int)
    requires f.phase.Running? && f.cron == Some(HourlyAt(0)) && f.id in s.v.table && s.v.table[f.id].cron == Some(HourlyAt(30))
    ensures var t := Step(c, s, Finish(f, failed, runId, now)).v.table;
            f.id in t && t[f.id].cron == Some(HourlyAt(30)) && t[f.id].nextRunAt.Some? && !OnSchedule(c, t[f.id])
  {
    HourlyAlwaysRuns(0, c.offset, now);
    Cron.NextIsLeast(HourlyAt(0), c.offset, now);
  }

  /** `next` is what `computeNextRunAt` gives at some time; None for a text that does not parse. */
  ghost predicate Computed(c: Config, cron: Option<Cron.Expression>, next: Option<int>) {
    exists now :: next == NextFor(c, cron, now)
  }

  /**
   * What the handlers of `schedule.create`, `schedule.update` and `schedule.enable` send: with an
   * expression its next run, without one either no time or the next run of the row's expression.
   */
  ghost predicate Sent(c: Config, s: Sys, e: Event) {
    match e
    case Create(_, cron, _, next) => Computed(c, Some(cron), next)
    case Edit(id, p) =>
      if p.cron.Some? then p.nextRunAt.Some? && Computed(c, p.cron.value, p.nextRunAt.value)
      else p.nextRunAt.Some? && id in s.v.table ==> Computed(c, s.v.table[id].cron, p.nextRunAt.value)
    case _ => true
  }

  /** Nobody gives a schedule an expression while a run of it is in flight. */
  predicate LeavesRunning(s: Sys, e: Event) {
    match e
    case Create(id, _, _, _) => id !in s.v.active
    case Edit(id, p) => p.cron.None? || id !in s.v.active
    case _ => true
  }

  ghost predicate Careful(c: Config, s: Sys, es: seq<Event>)
    requires Feasible(c, s, es)
    decreases |es|
  {
    es == [] || (Sent(c, s, es[0]) && LeavesRunning(s, es[0]) && Careful(c, Step(c, s, es[0]), es[1..]))
  }

  ghost predicate RowsOk(c: Config, s: Sys) {
    && (forall id :: id in s.v.table ==> OnSchedule(c, s.v.table[id]))
    && (forall f :: f in s.frames && f.id in s.v.table ==> f.cron == s.v.table[f.id].cron)
  }

  lemma ComputedIsOnSchedule(c: Config, row: Row)
    requires Computed(c, row.cron, row.nextRunAt)
    ensures OnSchedule(c, row)
  {
    var now :| row.nextRunAt == NextFor(c, row.cron, now);
    if row.cron.Some? {
      Cron.NextIsLeast(row.cron.value, c.offset, now);
    }
  }

  lemma TickItemKeepsRows(c: Config, s: Sys, id: Id, row: Row, now: int)
    requires RowsOk(c, s) && id in s.v.table && s.v.table[id].cron == row.cron
    ensures var (v, f) := DoTickItem(c, s.v, id, row, now, s.nextRun); RowsOk(c, Start(s, v, f))
  {
    hide Cron.Next, Cron.Matches;
    var (v, f) := DoTickItem(c, s.v, id, row, now, s.nextRun);
    if id in s.v.active && row.cron.Some? {
      assert NextFor(c, row.cron, now) == v.table[id].nextRunAt;
      ComputedIsOnSchedule(c, v.table[id]);
    }
  }

  lemma {:induction false} TickKeepsRows(c: Config, s: Sys, due: seq<(Id, Row)>, now: int)
    requires RowsOk(c, s)
    requires forall i :: 0 <= i < |due| ==> due[i].0 in s.v.table && s.v.table[due[i].0].cron == due[i].1.cron
    ensures RowsOk(c, TickAll(c, s, due, now))
    decreases |due|
  {
    hide RowsOk, Cron.Next;
    if due != [] {
      var (v, f) := DoTickItem(c, s.v, due[0].0, due[0].1, now, s.nextRun);
      var t := Start(s, v, f);
      TickItemKeepsRows(c, s, due[0].0, due[0].1, now);
      forall i | 0 <= i < |due[1..]|
        ensures due[1..][i].0 in t.v.table && t.v.table[due[1..][i].0].cron == due[1..][i].1.cron {
        assert due[1..][i] == due[i + 1];
      }
      TickKeepsRows(c, t, due[1..], now);
    }
  }

  lemma FinishKeepsRows(c: Config, s: Sys, f: Frame, failed: bool, runId: nat, now: int)
    requires RowsOk(c, s) && f in s.frames && f.phase.Running?
    ensures RowsOk(c, Step(c, s, Finish(f, failed, runId, now)))
  {
    hide Cron.Next, Cron.Matches;
    var t := Step(c, s, Finish(f, failed, runId, now));
    if f.id in s.v.table {
      assert t.v.table[f.id].nextRunAt == NextFor(c, f.cron, now);
      ComputedIsOnSchedule(c, t.v.table[f.id]);
    }
  }

  lemma EditKeepsRows(c: Config, s: Sys, e: Event)
    requires Inv(c, s) && RowsOk(c, s) && Sent(c, s, e) && LeavesRunning(s, e) && (e.Create? || e.Edit? || e.Delete?)
    ensures RowsOk(c, Step(c, s, e))
  {
    hide Cron.Next, Cron.Matches;
    var t := Step(c, s, e);
    forall f | f in s.frames ensures f.id in s.v.active {
      assert IdOk(s, f.id) && f in FramesOf(s, f.id);
    }
    forall id | id in t.v.table ensures OnSchedule(c, t.v.table[id]) {
      if Computed(c, t.v.table[id].cron, t.v.table[id].nextRunAt) {
        ComputedIsOnSchedule(c, t.v.table[id]);
      }
    }
  }

  lemma StepKeepsRows(c: Config, s: Sys, e: Event)
    requires Inv(c, s) && RowsOk(c, s) && Enabled(s, e) && Sent(c, s, e) && LeavesRunning(s, e)
    ensures RowsOk(c, Step(c, s, e))
  {
    match e
    case Tick(now, due) => TickKeepsRows(c, s, due, now);
    case Trigger(_) =>
    case Finish(f, failed, runId, now) => FinishKeepsRows(c, s, f, failed, runId, now);
    case Release(_) =>
    case _ => EditKeepsRows(c, s, e);
  }

  lemma {:induction false} RunKeepsRows(c: Config, s: Sys, es: seq<Event>)
    requires Inv(c, s) && RowsOk(c, s) && Feasible(c, s, es) && Careful(c, s, es)
    ensures RowsOk(c, Run(c, s, es))
    decreases |es|
  {
    if es != [] {
      StepKeepsInv(c, s, es[0]);
      StepKeepsRows(c, s, es[0]);
      RunKeepsRows(c, Step(c, s, es[0]), es[1..]);
    }
  }

  /**
   * As long as expressions are only changed while the schedule is idle, the time stored in
   * every row matches the row's own expression, at every moment of every run.
   */
  lemma {:induction false} AlwaysOnSchedule(c: Config, es: seq<Event>, id: Id)
    requires Feasible(c, Init, es) && Careful(c, Init, es) && id in Run(c, Init, es).v.table
    ensures OnSchedule(c, Run(c, Init, es).v.table[id])
  {
    ReachableInv(c, []);
    RunKeepsRows(c, Init, es);
  }
}
