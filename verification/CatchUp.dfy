/**
 Due schedules: after a downtime each agent gets one row, for the latest occurrence that has
 passed, and is armed again for the future.
 */
module CatchUp {
  import opened Util
  import opened Cron
  import opened Runs

  datatype Trigger = Manual | Once | OnCron | OnEvent

  /**
   What the scheduler reads and writes of an agent row. `sched` is None when the stored
   schedule does not parse.
   */
  datatype Agent = Agent(active: bool, trigger: Trigger, sched: Option<Sched>, onceAt: Option<real>,
                         nextRun: Option<real>, lastRun: Option<real>)

  const LOOKBACK := 100000

  /** `_cron_latest_due` from an occurrence: None when the search raises. */
  function LatestFrom(s: Sched, occ: real, now: real, n: nat): Option<real>
    decreases n
  {
    if n == 0 then Some(occ)
    else
      match Next(s, occ)
      case None => None
      case Some(nxt) => if nxt > now then Some(occ) else LatestFrom(s, nxt, now, n - 1)
  }

  method CronLatestDue(s: Sched, from: real, now: real) returns (r: Option<real>)
    ensures r == LatestFrom(s, from, now, LOOKBACK)
  {
    var occ := from;
    for k := 0 to LOOKBACK
      invariant LatestFrom(s, occ, now, LOOKBACK - k) == LatestFrom(s, from, now, LOOKBACK)
    {
      var nxt := NextAfter(s, occ);
      if nxt.None? {
        return None;
      }
      if nxt.value > now {
        return Some(occ);
      }
      occ := nxt.value;
    }
    r := Some(occ);
  }

  /** `next_fire`. */
  function NextFire(a: Agent, now: real): Option<real> {
    if !a.active then None
    else if a.trigger == OnCron && a.sched.Some? then Next(a.sched.value, now)
    else if a.trigger == Once && a.onceAt.Some? && a.lastRun.None? then a.onceAt
    else None
  }

  predicate IsDue(a: Agent, now: real) {
    a.active && a.nextRun.Some? && a.nextRun.value <= now
  }

  datatype Tables = Tables(runs: Table, agents: seq<Agent>)

  datatype Occurrence = Raised | NoneLeft | At(at: real)

  /** The occurrence a due agent gets a row for. */
  function DueOccurrence(a: Agent, now: real): Occurrence
    requires IsDue(a, now)
  {
    if a.trigger != OnCron then At(a.nextRun.value)
    else if a.sched.None? then NoneLeft
    else
      match LatestFrom(a.sched.value, a.nextRun.value, now, LOOKBACK)
      case None => Raised
      case Some(occ) => At(occ)
  }

  function Rearmed(a: Agent, now: real): Agent {
    a.(nextRun := if a.trigger == Once then None else NextFire(a, now), lastRun := Some(now))
  }

  function RowStatus(t: Table, i: nat, occ: real, now: real, misfire: real): Status {
    if now - occ > misfire || HasActive(t, i) then Skipped else Queued
  }

  /** One turn of the loop of `schedule_due`; None when the search raises. */
  function ScheduleOne(d: Tables, i: nat, now: real, misfire: real): Option<Tables>
    requires i < |d.agents| && IsDue(d.agents[i], now)
  {
    var a := d.agents[i];
    match DueOccurrence(a, now)
    case Raised => None
    case NoneLeft => Some(d.(agents := d.agents[i := a.(nextRun := None)]))
    case At(occ) =>
      Some(Tables(Enqueue(d.runs, i, Some(occ), RowStatus(d.runs, i, occ, now, misfire), now),
                  d.agents[i := Rearmed(a, now)]))
  }

  /** One turn of the loop of `hold`: the row is skipped whatever its age. */
  function HoldOne(d: Tables, i: nat, now: real): Option<Tables>
    requires i < |d.agents| && IsDue(d.agents[i], now)
  {
    var a := d.agents[i];
    match DueOccurrence(a, now)
    case Raised => None
    case NoneLeft => Some(d.(agents := d.agents[i := Rearmed(a, now)]))
    case At(occ) =>
      Some(Tables(Enqueue(d.runs, i, Some(occ), Skipped, now), d.agents[i := Rearmed(a, now)]))
  }

  // ---- the latest occurrence ---------------------------------------------------------

  /** `occ` is the greatest occurrence not after `now`. */
  ghost predicate GreatestUpTo(s: Sched, occ: real, now: real) {
    IsOccurrence(s, occ) && occ <= now && forall u :: IsOccurrence(s, u) && u <= now ==> u <= occ
  }

  /** Every occurrence after `occ` and not after `now` is in `missed`. */
  ghost predicate MissedWithin(s: Sched, occ: real, now: real, missed: set<real>) {
    forall u :: IsOccurrence(s, u) && occ < u <= now ==> u in missed
  }

  /** With fewer missed occurrences than the look-back, the loop ends on the greatest one, never beyond. */
  lemma {:induction false} LatestIsGreatest(s: Sched, occ: real, now: real, n: nat, missed: set<real>)
    requires ZoneOk(s.zone) && IsOccurrence(s, occ) && occ <= now
    requires MissedWithin(s, occ, now, missed) && |missed| < n
    requires LatestFrom(s, occ, now, n).Some?
    ensures var r := LatestFrom(s, occ, now, n).value;
      occ <= r && GreatestUpTo(s, r, now) && Next(s, r).Some? && Next(s, r).value > now
    decreases n
  {
    NextIsLeast(s, occ);
    var nxt := Next(s, occ).value;
    if nxt <= now {
      assert nxt in missed;
      LatestIsGreatest(s, nxt, now, n - 1, missed - {nxt});
    }
  }

  /** The loop never returns an occurrence of the future, nor one before where it starts. */
  lemma {:induction false} LatestIsOccurrence(s: Sched, occ: real, now: real, n: nat)
    requires ZoneOk(s.zone) && IsOccurrence(s, occ) && occ <= now && LatestFrom(s, occ, now, n).Some?
    ensures var r := LatestFrom(s, occ, now, n).value; occ <= r <= now && IsOccurrence(s, r)
    decreases n
  {
    if n > 0 {
      NextIsLeast(s, occ);
      var nxt := Next(s, occ).value;
      if nxt <= now {
        LatestIsOccurrence(s, nxt, now, n - 1);
      }
    }
  }

  /** The search that starts at `g` finds nothing: no minute in its window is due. */
  ghost predicate EmptyWindow(s: Sched, g: real) {
    forall t :: Due(s, t, g) ==> t > WallMinute(s.zone, g) + 5 * 366 * 24 * 60
  }

  /** An occurrence between `occ` and `now` from which the search finds nothing. */
  ghost predicate DeadEnd(s: Sched, occ: real, now: real, g: real) {
    occ <= g <= now && IsOccurrence(s, g) && EmptyWindow(s, g)
  }

  ghost predicate Blocked(s: Sched, occ: real, now: real) {
    exists g :: DeadEnd(s, occ, now, g)
  }

  lemma NextOrEmpty(s: Sched, occ: real)
    requires ZoneOk(s.zone)
    ensures Next(s, occ).None? <==> EmptyWindow(s, occ)
    ensures Next(s, occ).Some? ==> Next(s, occ).value > occ && IsOccurrence(s, Next(s, occ).value)
  {
    NextIsLeast(s, occ);
  }

  lemma BlockedHere(s: Sched, occ: real, now: real)
    requires ZoneOk(s.zone) && IsOccurrence(s, occ) && occ <= now && Next(s, occ).None?
    ensures Blocked(s, occ, now)
  {
    NextOrEmpty(s, occ);
    assert DeadEnd(s, occ, now, occ);
  }

  /** After an occurrence that is followed by another, the dead ends are those from the other on. */
  lemma BlockedFurther(s: Sched, occ: real, nxt: real, now: real)
    requires ZoneOk(s.zone) && IsOccurrence(s, occ) && occ <= now && Next(s, occ) == Some(nxt)
    ensures Blocked(s, occ, now) <==> nxt <= now && Blocked(s, nxt, now)
  {
    NextIsLeast(s, occ);
    forall g | DeadEnd(s, occ, now, g) ensures nxt <= now && DeadEnd(s, nxt, now, g) {
      assert g != occ;
    }
    if g :| nxt <= now && DeadEnd(s, nxt, now, g) {
      assert DeadEnd(s, occ, now, g);
    }
  }

  lemma LatestStep(s: Sched, occ: real, now: real, n: nat)
    requires n > 0 && Next(s, occ).Some?
    ensures LatestFrom(s, occ, now, n).None? <==>
            Next(s, occ).value <= now && LatestFrom(s, Next(s, occ).value, now, n - 1).None?
  {
  }

  /** One occurrence fewer is missed after the next one. */
  lemma MissedFurther(s: Sched, occ: real, nxt: real, now: real, missed: set<real>)
    requires MissedWithin(s, occ, now, missed) && IsOccurrence(s, nxt) && occ < nxt <= now
    ensures MissedWithin(s, nxt, now, missed - {nxt}) && |missed - {nxt}| == |missed| - 1
  {
    assert nxt in missed;
  }

  /** The loop raises exactly when it passes an occurrence that is followed by an empty window. */
  lemma {:induction false} LatestRaisesExactly(s: Sched, occ: real, now: real, n: nat, missed: set<real>)
    requires ZoneOk(s.zone) && IsOccurrence(s, occ) && occ <= now
    requires MissedWithin(s, occ, now, missed) && |missed| < n
    ensures LatestFrom(s, occ, now, n).None? <==> exists g :: DeadEnd(s, occ, now, g)
    decreases n
  {
    assert Blocked(s, occ, now) <==> exists g :: DeadEnd(s, occ, now, g);
    if Next(s, occ).None? {
      BlockedHere(s, occ, now);
    } else {
      var nxt := Next(s, occ).value;
      NextOrEmpty(s, occ);
      LatestStep(s, occ, now, n);
      BlockedFurther(s, occ, nxt, now);
      if nxt <= now {
        MissedFurther(s, occ, nxt, now, missed);
        LatestRaisesExactly(s, nxt, now, n - 1, missed - {nxt});
      }
    }
  }

  // ---- what the tables keep ----------------------------------------------------------

  ghost predicate RowsBefore(t: Table, i: nat, n: real) {
    forall k :: 0 <= k < |t| && t[k].agent == i && t[k].scheduledFor.Some? ==> t[k].scheduledFor.value < n
  }

  ghost predicate HasScheduledRow(t: Table, i: nat) {
    exists k :: 0 <= k < |t| && t[k].agent == i && t[k].scheduledFor.Some?
  }

  ghost predicate Increasing(t: Table) {
    forall j, k :: 0 <= j < k < |t| && t[j].agent == t[k].agent && t[j].scheduledFor.Some? && t[k].scheduledFor.Some? ==>
      t[j].scheduledFor.value < t[k].scheduledFor.value
  }

  ghost predicate ArmedOk(t: Table, i: nat, a: Agent) {
    (a.nextRun.Some? ==> RowsBefore(t, i, a.nextRun.value)) &&
    (HasScheduledRow(t, i) ==> a.lastRun.Some?) &&
    (a.sched.Some? ==> ZoneOk(a.sched.value.zone)) &&
    (a.trigger == OnCron && a.nextRun.Some? ==> a.sched.Some? && IsOccurrence(a.sched.value, a.nextRun.value))
  }

  predicate RowOk(d: Tables, r: Run, clock: real) {
    r.agent < |d.agents| && (r.scheduledFor.Some? ==> r.scheduledFor.value <= clock)
  }

  /** Up to `clock`: rows lie in the past, in order, and every armed agent is armed past its rows. */
  ghost predicate TablesOk(d: Tables, clock: real) {
    (forall k :: 0 <= k < |d.runs| ==> RowOk(d, d.runs[k], clock)) &&
    Increasing(d.runs) &&
    (forall i :: 0 <= i < |d.agents| ==> ArmedOk(d.runs, i, d.agents[i]))
  }

  /** The instant a due agent's row is for lies between the one it was armed for and now. */
  lemma DueOccurrenceBounds(a: Agent, t: Table, i: nat, now: real)
    requires IsDue(a, now) && ArmedOk(t, i, a) && DueOccurrence(a, now).At?
    ensures a.nextRun.value <= DueOccurrence(a, now).at <= now
    ensures a.trigger == OnCron ==> IsOccurrence(a.sched.value, DueOccurrence(a, now).at)
  {
    if a.trigger == OnCron {
      LatestIsOccurrence(a.sched.value, a.nextRun.value, now, LOOKBACK);
    }
  }

  lemma RearmedIsLater(a: Agent, now: real)
    requires a.sched.Some? ==> ZoneOk(a.sched.value.zone)
    requires a.trigger == Once ==> a.nextRun.Some?
    ensures var b := Rearmed(a, now);
      b.nextRun.Some? ==>
        b.trigger == OnCron && b.sched.Some? && b.nextRun.value > now && IsOccurrence(b.sched.value, b.nextRun.value)
  {
    if a.sched.Some? {
      NextIsLeast(a.sched.value, now);
    }
  }

  /** Adding the row of a due agent and arming it again keeps both tables in order. */
  lemma OneRowAdded(d: Tables, i: nat, occ: real, status: Status, now: real, clock: real)
    requires TablesOk(d, clock) && clock <= now && i < |d.agents| && IsDue(d.agents[i], now)
    requires d.agents[i].nextRun.value <= occ <= now
    ensures !Taken(d.runs, i, Some(occ))
    ensures TablesOk(Tables(Enqueue(d.runs, i, Some(occ), status, now), d.agents[i := Rearmed(d.agents[i], now)]), now)
  {
    var a := d.agents[i];
    assert ArmedOk(d.runs, i, a);
    var t := Enqueue(d.runs, i, Some(occ), status, now);
    assert t == d.runs + [Run(i, Some(occ), status, 0, now)];
    RearmedIsLater(a, now);
    var e := Tables(t, d.agents[i := Rearmed(a, now)]);
    forall k | 0 <= k < |t| ensures RowOk(e, t[k], now) {
      assert k < |d.runs| ==> RowOk(d, d.runs[k], clock);
    }
    forall j | 0 <= j < |e.agents| ensures ArmedOk(t, j, e.agents[j]) {
      assert ArmedOk(d.runs, j, d.agents[j]);
      if j == i {
        if Rearmed(a, now).nextRun.Some? {
          assert RowsBefore(t, i, Rearmed(a, now).nextRun.value);
        }
      } else {
        OtherAgentsRows(d.runs, t[|d.runs|], j);
      }
    }
  }

  lemma OtherAgentsRows(t: Table, r: Run, j: nat)
    requires r.agent != j
    ensures HasScheduledRow(t + [r], j) ==> HasScheduledRow(t, j)
    ensures forall n :: RowsBefore(t, j, n) ==> RowsBefore(t + [r], j, n)
  {
    if HasScheduledRow(t + [r], j) {
      var k :| 0 <= k < |t + [r]| && (t + [r])[k].agent == j && (t + [r])[k].scheduledFor.Some?;
      assert k < |t| && t[k].agent == j;
    }
  }

  lemma RearmOnly(d: Tables, i: nat, b: Agent, now: real, clock: real)
    requires TablesOk(d, clock) && clock <= now && i < |d.agents|
    requires b.sched == d.agents[i].sched && b.nextRun.None? && (d.agents[i].lastRun.Some? ==> b.lastRun.Some?)
    ensures TablesOk(d.(agents := d.agents[i := b]), now)
  {
    var e := d.(agents := d.agents[i := b]);
    forall k | 0 <= k < |e.runs| ensures RowOk(e, e.runs[k], now) {
      assert RowOk(d, d.runs[k], clock);
    }
    forall j | 0 <= j < |e.agents| ensures ArmedOk(e.runs, j, e.agents[j]) {
      assert ArmedOk(d.runs, j, d.agents[j]);
    }
  }

  /** One turn of either loop adds at most one row, for an instant no row of the agent had. */
  lemma TurnKeeps(d: Tables, i: nat, now: real, misfire: real, clock: real, held: bool)
    requires TablesOk(d, clock) && clock <= now && i < |d.agents| && IsDue(d.agents[i], now)
    ensures var r := if held then HoldOne(d, i, now) else ScheduleOne(d, i, now, misfire);
      r.Some? ==> TablesOk(r.value, now) && Evolves(d.runs, r.value.runs) && |r.value.agents| == |d.agents|
  {
    var a := d.agents[i];
    assert ArmedOk(d.runs, i, a);
    match DueOccurrence(a, now) {
      case Raised =>
      case NoneLeft =>
        RearmOnly(d, i, a.(nextRun := None), now, clock);
        RearmOnly(d, i, Rearmed(a, now), now, clock);
      case At(occ) =>
        DueOccurrenceBounds(a, d.runs, i, now);
        OneRowAdded(d, i, occ, if held then Skipped else RowStatus(d.runs, i, occ, now, misfire), now, clock);
    }
  }

  /** A run of agent `i` waits or is under way. */
  ghost predicate QueuedOrRunning(t: Table, i: nat) {
    exists k :: 0 <= k < |t| && t[k].agent == i && t[k].status in {Queued, Running}
  }

  /** The status of the row that agent `i` gets for the instant `at`. */
  ghost function StatusFor(t: Table, i: nat, at: real, now: real, misfire: real, held: bool): Status {
    if held || now - at > misfire || QueuedOrRunning(t, i) then Skipped else Queued
  }

  /** What a turn that found the occurrence `occ` has done. */
  ghost predicate CaughtUpBy(d: Tables, e: Tables, i: nat, now: real, misfire: real, held: bool) {
    i < |d.agents| == |e.agents| && d.agents[i].sched.Some? &&
    var s := d.agents[i].sched.value;
    |e.runs| == |d.runs| + 1 && d.runs == e.runs[..|d.runs|] &&
    var r := e.runs[|d.runs|];
    CatchUpRow(s, i, r, now) && RowsBefore(d.runs, i, r.scheduledFor.value) &&
    r == Run(i, r.scheduledFor, StatusFor(d.runs, i, r.scheduledFor.value, now, misfire, held), 0, now) &&
    e.agents == d.agents[i := d.agents[i].(nextRun := Next(s, now), lastRun := Some(now))] &&
    (Next(s, now).Some? ==> Next(s, now).value > now)
  }

  lemma TurnCatchesUp(d: Tables, i: nat, now: real, misfire: real, clock: real, missed: set<real>, held: bool)
    requires TablesOk(d, clock) && clock <= now && i < |d.agents| && IsDue(d.agents[i], now)
    requires d.agents[i].trigger == OnCron
    requires MissedWithin(d.agents[i].sched.value, d.agents[i].nextRun.value, now, missed) && |missed| < LOOKBACK
    requires DueOccurrence(d.agents[i], now).At?
    ensures var turn := if held then HoldOne(d, i, now) else ScheduleOne(d, i, now, misfire);
      turn.Some? && CaughtUpBy(d, turn.value, i, now, misfire, held)
  {
    var a := d.agents[i];
    assert ArmedOk(d.runs, i, a);
    var s := a.sched.value;
    LatestIsGreatest(s, a.nextRun.value, now, LOOKBACK, missed);
    var occ := LatestFrom(s, a.nextRun.value, now, LOOKBACK).value;
    OneRowAdded(d, i, occ, if held then Skipped else RowStatus(d.runs, i, occ, now, misfire), now, clock);
    NextIsLeast(s, now);
  }

  /** A due cron agent raises exactly when an occurrence it has to pass is followed by an empty window. */
  lemma AgentRaisesExactly(a: Agent, t: Table, i: nat, now: real, missed: set<real>)
    requires IsDue(a, now) && a.trigger == OnCron && ArmedOk(t, i, a)
    requires MissedWithin(a.sched.value, a.nextRun.value, now, missed) && |missed| < LOOKBACK
    ensures DueOccurrence(a, now).Raised? <==> exists g :: DeadEnd(a.sched.value, a.nextRun.value, now, g)
    ensures !DueOccurrence(a, now).NoneLeft?
  {
    LatestRaisesExactly(a.sched.value, a.nextRun.value, now, LOOKBACK, missed);
  }

  /**
   Catch-up: the turn of a due cron agent that missed fewer than 100000 occurrences raises exactly
   when one of them is followed by an empty window. Otherwise it adds exactly one row, for the
   greatest occurrence not after now and later than all its rows so far, and arms the agent for the
   first occurrence after now, if the search finds one.
   */
  lemma CatchUpAddsOneRow(d: Tables, i: nat, now: real, misfire: real, clock: real, missed: set<real>, held: bool)
    requires TablesOk(d, clock) && clock <= now && i < |d.agents| && IsDue(d.agents[i], now)
    requires d.agents[i].trigger == OnCron
    requires MissedWithin(d.agents[i].sched.value, d.agents[i].nextRun.value, now, missed) && |missed| < 100000
    ensures var turn := if held then HoldOne(d, i, now) else ScheduleOne(d, i, now, misfire);
      (turn.None? <==> exists g :: DeadEnd(d.agents[i].sched.value, d.agents[i].nextRun.value, now, g)) &&
      (turn.Some? ==> CaughtUpBy(d, turn.value, i, now, misfire, held))
  {
    assert ArmedOk(d.runs, i, d.agents[i]);
    AgentRaisesExactly(d.agents[i], d.runs, i, now, missed);
    if DueOccurrence(d.agents[i], now).At? {
      TurnCatchesUp(d, i, now, misfire, clock, missed, held);
    }
  }

  /** A one-shot agent gets one row, for the time it was armed for, and is not armed again. */
  lemma OneShotTurnExactly(d: Tables, i: nat, now: real, misfire: real, clock: real, held: bool)
    requires TablesOk(d, clock) && clock <= now && i < |d.agents| && IsDue(d.agents[i], now)
    requires d.agents[i].trigger == Once
    ensures var turn := if held then HoldOne(d, i, now) else ScheduleOne(d, i, now, misfire);
      var at := d.agents[i].nextRun.value;
      turn == Some(Tables(
        d.runs + [Run(i, Some(at), StatusFor(d.runs, i, at, now, misfire, held), 0, now)],
        d.agents[i := d.agents[i].(nextRun := None, lastRun := Some(now))]))
  {
    assert ArmedOk(d.runs, i, d.agents[i]);
  }

  ghost predicate CatchUpRow(s: Sched, i: nat, r: Run, now: real) {
    r.agent == i && r.scheduledFor.Some? && GreatestUpTo(s, r.scheduledFor.value, now)
  }
}
