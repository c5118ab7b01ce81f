/**
 One scheduler process as a state machine: restarts, ticks, requests, cancellations, and the
 ends of its run tasks, each one atomic step.
 */
module Scheduling {
  import opened Util
  import opened Cron
  import opened Runs
  import opened CatchUp

  datatype Config = Config(maxTasks: nat, misfire: real)

  /**
   The tables, and what the process keeps in memory: its live tasks by run id, the live tasks whose
   body is past its one write of an end status, the runs a human cancelled, whether it is stopping,
   and its own identity.
   */
  datatype Sys = Sys(d: Tables, tasks: set<nat>, recorded: set<nat>, cancelled: set<nat>, stopping: bool, runner: nat)

  // ---- start -------------------------------------------------------------------------

  /** `recover`: runs left running by another process are interrupted. */
  function Recovered(t: Table, runner: nat): (r: Table)
    ensures |r| == |t|
  {
    seq(|t|, i requires 0 <= i < |t| =>
      if t[i].status == Running && t[i].runner != runner then t[i].(status := Interrupted) else t[i])
  }

  /** `drop_boot_backlog`: without credentials, runs queued before the boot are skipped. */
  function BacklogDropped(t: Table, boot: real): (r: Table)
    ensures |r| == |t|
  {
    seq(|t|, i requires 0 <= i < |t| =>
      if t[i].status == Queued && t[i].createdAt < boot then t[i].(status := Skipped) else t[i])
  }

  /** A new process, with an identity of its own. */
  function Restarted(s: Sys, creds: bool, now: real): Sys {
    var t := Recovered(s.d.runs, s.runner + 1);
    Sys(s.d.(runs := if creds then t else BacklogDropped(t, now)), {}, {}, {}, false, s.runner + 1)
  }

  // ---- due schedules -----------------------------------------------------------------

  /** `due_agents` among the first `n`, in table order. */
  function DueAmong(agents: seq<Agent>, now: real, n: nat): (ids: seq<nat>)
    requires n <= |agents|
    ensures forall i :: i in ids <==>
      0 <= i < n && agents[i].active && agents[i].nextRun.Some? && agents[i].nextRun.value <= now
    ensures forall j :: 0 <= j < |ids| ==> ids[j] < n
    ensures forall j, k :: 0 <= j < k < |ids| ==> ids[j] < ids[k]
  {
    if n == 0 then []
    else DueAmong(agents, now, n - 1) + (if IsDue(agents[n - 1], now) then [n - 1] else [])
  }

  /** The turn of a due agent, with or without credentials; None when the search raises. */
  function Turn(d: Tables, i: nat, now: real, misfire: real, held: bool): Option<Tables>
    requires i < |d.agents| && IsDue(d.agents[i], now)
  {
    if held then HoldOne(d, i, now) else ScheduleOne(d, i, now, misfire)
  }

  function TurnIfDue(d: Tables, i: nat, now: real, misfire: real, held: bool): (Tables, bool) {
    if i >= |d.agents| || !IsDue(d.agents[i], now) then (d, false)
    else
      match Turn(d, i, now, misfire, held)
      case None => (d, true)
      case Some(e) => (e, false)
  }

  /** One turn per id, until a search raises. */
  function Turns(d: Tables, ids: seq<nat>, now: real, misfire: real, held: bool): (Tables, bool) {
    if ids == [] then (d, false)
    else
      var (e, raised) := Turns(d, ids[..|ids| - 1], now, misfire, held);
      if raised then (e, true) else TurnIfDue(e, ids[|ids| - 1], now, misfire, held)
  }

  // ---- queued runs -------------------------------------------------------------------

  /** Ids below `n` with a status, ascending: `runs_with_status`. */
  function WithStatus(t: Table, s: Status, n: nat): (ids: seq<nat>)
    requires n <= |t|
    ensures forall i :: i in ids <==> 0 <= i < n && t[i].status == s
  {
    if n == 0 then []
    else WithStatus(t, s, n - 1) + (if t[n - 1].status == s then [n - 1] else [])
  }

  function LiveAgents(t: Table): set<nat> {
    set i | 0 <= i < |t| && t[i].status == Running :: t[i].agent
  }

  function PausedRow(r: Run, i: nat, live: bool): Run {
    if r.agent == i && !Final(r.status) && !live then r.(status := Cancelled) else r
  }

  function AskedToStop(t: Table, tasks: set<nat>, i: nat, n: nat): set<nat>
    requires n <= |t|
  {
    set k | k in tasks && k < n && t[k].agent == i && !Final(t[k].status)
  }

  /** `pause_agent`: the agent stops, its queued runs are cancelled, its live ones asked to stop. */
  function Paused(s: Sys, i: nat): Sys
    requires i < |s.d.agents|
  {
    var a, t := s.d.agents[i], s.d.runs;
    s.(d := Tables(seq(|t|, k requires 0 <= k < |t| => PausedRow(t[k], i, k in s.tasks)),
                   s.d.agents[i := if a.active then a.(active := false, nextRun := None) else a]),
       cancelled := s.cancelled + AskedToStop(t, s.tasks, i, |t|))
  }

  /** One turn of the loop of `start_queued`; `allowed` are the agents whose owner may run them. */
  function StartOne(s: Sys, live: set<nat>, id: nat, allowed: set<nat>): (Sys, set<nat>) {
    if id >= |s.d.runs| || s.d.runs[id].agent in live then (s, live)
    else
      var i := s.d.runs[id].agent;
      if i >= |s.d.agents| || !s.d.agents[i].active then
        (s.(d := s.d.(runs := SetStatus(s.d.runs, id, Cancelled))), live)
      else if i !in allowed then
        (Paused(s.(d := s.d.(runs := SetStatus(s.d.runs, id, Cancelled))), i), live)
      else if !Claimable(s.d.runs, id) then (s, live)
      else (s.(d := s.d.(runs := Claim(s.d.runs, id, s.runner)), tasks := s.tasks + {id}), live + {i})
  }

  /** The loop of `start_queued` over a list of queued runs, until every task slot is used. */
  function StartLoop(c: Config, s: Sys, live: set<nat>, queue: seq<nat>, allowed: set<nat>): Sys
    decreases |queue|
  {
    if queue == [] || |s.tasks| >= c.maxTasks then s
    else
      var (s', live') := StartOne(s, live, queue[0], allowed);
      StartLoop(c, s', live', queue[1..], allowed)
  }

  function Started(c: Config, s: Sys, allowed: set<nat>): Sys {
    StartLoop(c, s, LiveAgents(s.d.runs), WithStatus(s.d.runs, Queued, |s.d.runs|), allowed)
  }

  /** `tick`; the watchdog only asks tasks to stop, which shows when they end. */
  function Ticked(c: Config, s: Sys, creds: bool, now: real, allowed: set<nat>): Sys {
    var (e, raised) := Turns(s.d, DueAmong(s.d.agents, now, |s.d.agents|), now, c.misfire, !creds);
    if raised || !creds then s.(d := e) else Started(c, s.(d := e), allowed)
  }

  // ---- the end of a run --------------------------------------------------------------

  /** How the body of a run ended: by itself, or by a timeout or a request to stop. */
  datatype Ending = Halted | NoSecrets | NoProjectBudget | OwnerLost | CallTooDear
                  | Ended(stopped: bool, overBudget: bool, result: bool, isError: bool, incomplete: bool)

  /** The status `_execute` records; `stopped` is the meter's budget stop. */
  function Outcome(e: Ending, stopping: bool, cancelled: bool): Status {
    match e
    case NoSecrets => Failed
    case NoProjectBudget => Budget
    case OwnerLost => Skipped
    case CallTooDear => Budget
    case Halted => if stopping then Interrupted else if cancelled then Cancelled else Timeout
    case Ended(stopped, overBudget, result, isError, incomplete) =>
      if stopped || overBudget then Budget
      else if !result || isError then Failed
      else if incomplete then Incomplete
      else Succeeded
  }

  /**
   The body of a task records the end of its run, whatever the row says by then; its agent's last
   run time is noted, its owner's loss pauses it. Every path of the body writes an end status once.
   */
  function Recorded(s: Sys, id: nat, e: Ending, now: real): Sys {
    if id !in s.tasks || id in s.recorded || id >= |s.d.runs| then s
    else
      var i := s.d.runs[id].agent;
      var t := SetStatus(s.d.runs, id, Outcome(e, s.stopping, id in s.cancelled));
      var agents :=
        if i >= |s.d.agents| then s.d.agents
        else if e == OwnerLost then s.d.agents[i := s.d.agents[i].(active := false)]
        else if e.Ended? || e.Halted? then s.d.agents[i := s.d.agents[i].(lastRun := Some(now))]
        else s.d.agents;
      s.(d := Tables(t, agents), recorded := s.recorded + {id})
  }

  /** `_done`: the task is over; a run it left running is closed. */
  function TaskDone(s: Sys, id: nat): Sys {
    if id !in s.tasks then s
    else
      var t := s.d.runs;
      s.(tasks := s.tasks - {id}, recorded := s.recorded - {id},
         d := s.d.(runs := if id < |t| && t[id].status == Running
                           then SetStatus(t, id, if id in s.cancelled then Cancelled else Failed) else t))
  }

  /** `cancel`. */
  function CancelAsked(s: Sys, id: nat): Sys {
    if id in s.tasks then s.(cancelled := s.cancelled + {id})
    else if Claimable(s.d.runs, id) then s.(d := s.d.(runs := SetStatus(s.d.runs, id, Cancelled)))
    else s
  }

  /** `request_run`: refused unless the agent is active and has no active run. */
  function Requested(s: Sys, i: nat, creds: bool, now: real): Sys {
    if i < |s.d.agents| && s.d.agents[i].active && !HasActive(s.d.runs, i) && creds
    then s.(d := s.d.(runs := Enqueue(s.d.runs, i, None, Queued, now))) else s
  }

  /** `fire_event` for one matching agent. */
  function Fired(s: Sys, i: nat, creds: bool, now: real): Sys {
    if i < |s.d.agents| && s.d.agents[i].active && s.d.agents[i].trigger == OnEvent
    then s.(d := s.d.(runs := Enqueue(s.d.runs, i, None, if !creds || HasActive(s.d.runs, i) then Skipped else Queued, now)))
    else s
  }

  /** A lifecycle operation rewrites the row and arms it with `next_fire`, or disarms it. */
  function Edited(s: Sys, i: nat, a: Agent, now: real): Sys {
    if i < |s.d.agents| then
      var b := a.(lastRun := s.d.agents[i].lastRun);
      s.(d := s.d.(agents := s.d.agents[i := b.(nextRun := NextFire(b, now))]))
    else
      var b := a.(lastRun := None);
      s.(d := s.d.(agents := s.d.agents + [b.(nextRun := NextFire(b, now))]))
  }

  // ---- events ------------------------------------------------------------------------

  datatype Event =
    | Restart(creds: bool)
    | Tick(creds: bool, allowed: set<nat>)
    | Request(agent: nat, creds: bool)
    | Fire(agent: nat, creds: bool)
    | Cancel(id: nat)
    | Revoke(agent: nat)
    | Stop
    | Record(id: nat, ending: Ending)
    | Done(id: nat)
    | Edit(agent: nat, row: Agent)

  function Step(c: Config, s: Sys, e: Event, now: real): Sys {
    match e
    case Restart(creds) => Restarted(s, creds, now)
    case Tick(creds, allowed) => Ticked(c, s, creds, now, allowed)
    case Request(i, creds) => Requested(s, i, creds, now)
    case Fire(i, creds) => Fired(s, i, creds, now)
    case Cancel(id) => CancelAsked(s, id)
    case Revoke(i) => if i < |s.d.agents| then Paused(s, i) else s
    case Stop => s.(stopping := true)
    case Record(id, ending) => Recorded(s, id, ending, now)
    case Done(id) => TaskDone(s, id)
    case Edit(i, row) => Edited(s, i, row, now)
  }

  /** A rewritten row has a schedule in a zone of the zone database. */
  ghost predicate EventOk(e: Event) {
    e.Edit? && e.row.sched.Some? ==> ZoneOk(e.row.sched.value.zone)
  }

  const FRESH := Sys(Tables([], []), {}, {}, {}, false, 0)

  ghost function Reached(c: Config, es: seq<(real, Event)>): Sys {
    if es == [] then FRESH
    else Step(c, Reached(c, es[..|es| - 1]), es[|es| - 1].1, es[|es| - 1].0)
  }

  ghost predicate RunOk(es: seq<(real, Event)>) {
    (forall i :: 0 <= i < |es| ==> EventOk(es[i].1)) &&
    (forall i, j :: 0 <= i <= j < |es| ==> 0.0 <= es[i].0 <= es[j].0)
  }

  // ---- safety ------------------------------------------------------------------------

  /**
   Running runs have a live task of this process, one per agent, within the limit of tasks; the run
   of a live task is running until its end is recorded, and final from then on.
   */
  ghost predicate Safe(c: Config, s: Sys) {
    s.recorded <= s.tasks &&
    (forall i :: i in s.tasks && i < |s.d.runs| ==>
      if i in s.recorded then Final(s.d.runs[i].status) else s.d.runs[i].status == Running) &&
    (forall i :: 0 <= i < |s.d.runs| && s.d.runs[i].status == Running ==> i in s.tasks) &&
    (forall i :: i in s.tasks ==> i < |s.d.runs| && s.d.runs[i].status != Queued) &&
    OneRunning(s.d.runs) && |s.tasks| <= c.maxTasks &&
    (forall i :: 0 <= i < |s.d.runs| ==> s.d.runs[i].runner <= s.runner)
  }

  ghost predicate OneRunning(t: Table) {
    forall i, j :: 0 <= i < j < |t| && t[i].status == Running && t[j].status == Running ==> t[i].agent != t[j].agent
  }

  /** The rows are a subset of those of a safe system in the sense of running: nothing starts. */
  ghost predicate NothingStarts(t: Table, u: Table) {
    |t| <= |u| &&
    (forall i :: 0 <= i < |t| ==> u[i].agent == t[i].agent && u[i].runner == t[i].runner &&
                                  (u[i].status == Running ==> t[i].status == Running) &&
                                  (u[i].status == Queued ==> t[i].status == Queued) &&
                                  (t[i].status != Queued ==> u[i].status == t[i].status)) &&
    (forall i :: |t| <= i < |u| ==> u[i].status != Running && u[i].runner == 0)
  }

  lemma NothingStartsSafe(c: Config, s: Sys, d: Tables)
    requires Safe(c, s) && NothingStarts(s.d.runs, d.runs)
    ensures Safe(c, s.(d := d))
  {
    var u := d.runs;
    forall i, j | 0 <= i < j < |u| && u[i].status == Running && u[j].status == Running ensures u[i].agent != u[j].agent {
      assert i < |s.d.runs| && j < |s.d.runs|;
    }
  }

  /** `s` is safe, its tables are in order at `clock`. */
  ghost predicate Inv(c: Config, s: Sys, clock: real) {
    Safe(c, s) && TablesOk(s.d, clock)
  }

  lemma TablesLater(d: Tables, clock: real, now: real)
    requires TablesOk(d, clock) && clock <= now
    ensures TablesOk(d, now)
  {
    forall k | 0 <= k < |d.runs| ensures RowOk(d, d.runs[k], now) {
      assert RowOk(d, d.runs[k], clock);
    }
  }

  /** Changing statuses only keeps the tables in order. */
  lemma StatusesOnly(d: Tables, u: Table, clock: real)
    requires TablesOk(d, clock) && |u| == |d.runs|
    requires forall i :: 0 <= i < |u| ==> u[i].agent == d.runs[i].agent && u[i].scheduledFor == d.runs[i].scheduledFor
    ensures TablesOk(d.(runs := u), clock)
  {
    forall k | 0 <= k < |u| ensures RowOk(d.(runs := u), u[k], clock) {
      assert RowOk(d, d.runs[k], clock);
    }
    forall i | 0 <= i < |d.agents| ensures ArmedOk(u, i, d.agents[i]) {
      assert ArmedOk(d.runs, i, d.agents[i]);
      if HasScheduledRow(u, i) {
        var k :| 0 <= k < |u| && u[k].agent == i && u[k].scheduledFor.Some?;
        assert d.runs[k].agent == i && d.runs[k].scheduledFor.Some?;
      }
    }
  }

  /** A row without a schedule may always be added. */
  lemma UnscheduledRow(d: Tables, i: nat, status: Status, now: real, clock: real)
    requires TablesOk(d, clock) && i < |d.agents|
    ensures TablesOk(d.(runs := Enqueue(d.runs, i, None, status, now)), clock)
  {
    var r := Runs.Run(i, None, status, 0, now);
    var u := d.runs + [r];
    forall k | 0 <= k < |u| ensures RowOk(d.(runs := u), u[k], clock) {
      assert k < |d.runs| ==> RowOk(d, d.runs[k], clock);
    }
    forall j | 0 <= j < |d.agents| ensures ArmedOk(u, j, d.agents[j]) {
      assert ArmedOk(d.runs, j, d.agents[j]);
      if HasScheduledRow(u, j) {
        var k :| 0 <= k < |u| && u[k].agent == j && u[k].scheduledFor.Some?;
        assert k < |d.runs|;
      }
    }
  }
}
