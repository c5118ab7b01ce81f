/**
 Run safety of one scheduler process, over every interleaving of its steps.
 */
module Safety {
  import opened Util
  import opened Cron
  import opened Runs
  import opened CatchUp
  import opened Scheduling

  lemma RestartKeeps(c: Config, s: Sys, creds: bool, now: real, clock: real)
    requires Inv(c, s, clock) && clock <= now
    ensures Inv(c, Restarted(s, creds, now), now) && Evolves(s.d.runs, Restarted(s, creds, now).d.runs)
  {
    TablesLater(s.d, clock, now);
    StatusesOnly(s.d, Restarted(s, creds, now).d.runs, now);
  }

  lemma TurnStartsNothing(d: Tables, i: nat, now: real, misfire: real, held: bool)
    requires i < |d.agents| && IsDue(d.agents[i], now)
    ensures var r := if held then HoldOne(d, i, now) else ScheduleOne(d, i, now, misfire);
      r.Some? ==> NothingStarts(d.runs, r.value.runs)
  {
  }

  lemma {:induction false} TurnsKeep(d: Tables, ids: seq<nat>, now: real, misfire: real, held: bool, clock: real)
    requires TablesOk(d, clock) && clock <= now
    ensures var (e, raised) := Turns(d, ids, now, misfire, held);
      TablesOk(e, now) && Evolves(d.runs, e.runs) && NothingStarts(d.runs, e.runs) && |e.agents| == |d.agents|
  {
    TablesLater(d, clock, now);
    if ids != [] {
      var (e, raised) := Turns(d, ids[..|ids| - 1], now, misfire, held);
      var i := ids[|ids| - 1];
      TurnsKeep(d, ids[..|ids| - 1], now, misfire, held, clock);
      if !raised && i < |e.agents| && IsDue(e.agents[i], now) {
        TurnKeeps(e, i, now, misfire, now, held);
        TurnStartsNothing(e, i, now, misfire, held);
        var r := if held then HoldOne(e, i, now) else ScheduleOne(e, i, now, misfire);
        if r.Some? {
          EvolvesTransitive(d.runs, e.runs, r.value.runs);
        }
      }
    }
  }

  lemma PauseKeeps(c: Config, s: Sys, i: nat, clock: real)
    requires Inv(c, s, clock) && i < |s.d.agents|
    ensures Inv(c, Paused(s, i), clock) && Evolves(s.d.runs, Paused(s, i).d.runs)
    ensures forall k :: 0 <= k < |s.d.runs| && Paused(s, i).d.runs[k].status == Running ==> s.d.runs[k].status == Running
  {
    var p := Paused(s, i);
    StatusesOnly(s.d, p.d.runs, clock);
    DisarmedOk(s.d.(runs := p.d.runs), i, p.d.agents[i], clock);
  }

  /** Replacing an agent row by one that is armed for the same instant, or not at all. */
  lemma DisarmedOk(d: Tables, i: nat, b: Agent, clock: real)
    requires TablesOk(d, clock) && i < |d.agents|
    requires b.sched == d.agents[i].sched && b.trigger == d.agents[i].trigger
    requires b.nextRun == d.agents[i].nextRun || b.nextRun.None?
    requires d.agents[i].lastRun.Some? ==> b.lastRun.Some?
    ensures TablesOk(d.(agents := d.agents[i := b]), clock)
  {
    var e := d.(agents := d.agents[i := b]);
    forall k | 0 <= k < |e.runs| ensures RowOk(e, e.runs[k], clock) {
      assert RowOk(d, d.runs[k], clock);
    }
    forall j | 0 <= j < |e.agents| ensures ArmedOk(e.runs, j, e.agents[j]) {
      assert ArmedOk(d.runs, j, d.agents[j]);
    }
  }

  // ---- starting queued runs ----------------------------------------------------------

  /** What the loop of `start_queued` knows of its list and of the agents it holds for live. */
  ghost predicate QueueOk(s: Sys, live: set<nat>, queue: seq<nat>) {
    (forall id :: id in queue ==> id < |s.d.runs| && (s.d.runs[id].status == Queued || s.d.runs[id].status == Cancelled)) &&
    (forall k :: 0 <= k < |s.d.runs| && s.d.runs[k].status == Running ==> s.d.runs[k].agent in live) &&
    (forall j, k :: 0 <= j < k < |queue| ==> queue[j] != queue[k])
  }

  lemma CancelOneKeeps(c: Config, s: Sys, id: nat, clock: real)
    requires Inv(c, s, clock) && id < |s.d.runs| && (s.d.runs[id].status == Queued || s.d.runs[id].status == Cancelled)
    ensures var u := s.(d := s.d.(runs := SetStatus(s.d.runs, id, Cancelled)));
      Inv(c, u, clock) && Evolves(s.d.runs, u.d.runs)
  {
    StatusesOnly(s.d, SetStatus(s.d.runs, id, Cancelled), clock);
  }

  lemma ClaimKeeps(c: Config, s: Sys, id: nat, clock: real)
    requires Inv(c, s, clock) && Claimable(s.d.runs, id) && |s.tasks| < c.maxTasks
    requires forall k :: 0 <= k < |s.d.runs| && s.d.runs[k].status == Running ==> s.d.runs[k].agent != s.d.runs[id].agent
    ensures var u := s.(d := s.d.(runs := Claim(s.d.runs, id, s.runner)), tasks := s.tasks + {id});
      Inv(c, u, clock) && Evolves(s.d.runs, u.d.runs)
  {
    StatusesOnly(s.d, Claim(s.d.runs, id, s.runner), clock);
  }

  lemma StartOneInv(c: Config, s: Sys, live: set<nat>, id: nat, allowed: set<nat>, clock: real)
    requires Inv(c, s, clock) && QueueOk(s, live, [id]) && |s.tasks| < c.maxTasks
    ensures var (u, live') := StartOne(s, live, id, allowed);
      Inv(c, u, clock) && Evolves(s.d.runs, u.d.runs)
  {
    assert id in [id];
    var i := s.d.runs[id].agent;
    assert RowOk(s.d, s.d.runs[id], clock);
    if i !in live {
      if !s.d.agents[i].active || i !in allowed {
        CancelOneKeeps(c, s, id, clock);
        if s.d.agents[i].active {
          var mid := s.(d := s.d.(runs := SetStatus(s.d.runs, id, Cancelled)));
          PauseKeeps(c, mid, i, clock);
          EvolvesTransitive(s.d.runs, mid.d.runs, Paused(mid, i).d.runs);
        }
      } else if Claimable(s.d.runs, id) {
        ClaimKeeps(c, s, id, clock);
      }
    }
  }

  /** A turn leaves the other rows alone, except that it may cancel them; what it starts it holds for live. */
  lemma StartOneFrame(s: Sys, live: set<nat>, id: nat, allowed: set<nat>)
    requires id < |s.d.runs|
    ensures var (u, live') := StartOne(s, live, id, allowed);
      |u.d.runs| == |s.d.runs| &&
      (forall k :: 0 <= k < |s.d.runs| && k != id ==>
        u.d.runs[k] == s.d.runs[k] || u.d.runs[k] == s.d.runs[k].(status := Cancelled)) &&
      (u.d.runs[id].status == Running ==> s.d.runs[id].status == Running || s.d.runs[id].agent in live') &&
      u.d.runs[id].agent == s.d.runs[id].agent && live <= live'
  {
  }

  lemma StartOneKeeps(c: Config, s: Sys, live: set<nat>, queue: seq<nat>, allowed: set<nat>, clock: real)
    requires Inv(c, s, clock) && queue != [] && QueueOk(s, live, queue) && |s.tasks| < c.maxTasks
    ensures var (u, live') := StartOne(s, live, queue[0], allowed);
      Inv(c, u, clock) && Evolves(s.d.runs, u.d.runs) && QueueOk(u, live', queue[1..])
  {
    var id := queue[0];
    assert id in queue;
    StartOneInv(c, s, live, id, allowed, clock);
    StartOneFrame(s, live, id, allowed);
    var (u, live') := StartOne(s, live, id, allowed);
    forall j | j in queue[1..] ensures j < |u.d.runs| && (u.d.runs[j].status == Queued || u.d.runs[j].status == Cancelled) {
      var k :| 1 <= k < |queue| && queue[k] == j;
      assert queue[0] != queue[k] && j in queue;
    }
  }

  lemma {:induction false} StartLoopKeeps(c: Config, s: Sys, live: set<nat>, queue: seq<nat>, allowed: set<nat>, clock: real)
    requires Inv(c, s, clock) && QueueOk(s, live, queue)
    ensures var u := StartLoop(c, s, live, queue, allowed);
      Inv(c, u, clock) && Evolves(s.d.runs, u.d.runs)
    decreases |queue|
  {
    if queue != [] && |s.tasks| < c.maxTasks {
      StartOneKeeps(c, s, live, queue, allowed, clock);
      var (s', live') := StartOne(s, live, queue[0], allowed);
      StartLoopKeeps(c, s', live', queue[1..], allowed, clock);
      EvolvesTransitive(s.d.runs, s'.d.runs, StartLoop(c, s, live, queue, allowed).d.runs);
    }
  }

  lemma {:induction false} WithStatusDistinct(t: Table, st: Status, n: nat)
    requires n <= |t|
    ensures forall j, k :: 0 <= j < k < |WithStatus(t, st, n)| ==> WithStatus(t, st, n)[j] != WithStatus(t, st, n)[k]
  {
    if n > 0 {
      WithStatusDistinct(t, st, n - 1);
      var ids := WithStatus(t, st, n - 1);
      assert forall j :: 0 <= j < |ids| ==> ids[j] in ids;
    }
  }

  lemma StartedKeeps(c: Config, s: Sys, allowed: set<nat>, clock: real)
    requires Inv(c, s, clock)
    ensures Inv(c, Started(c, s, allowed), clock) && Evolves(s.d.runs, Started(c, s, allowed).d.runs)
  {
    WithStatusDistinct(s.d.runs, Queued, |s.d.runs|);
    StartLoopKeeps(c, s, LiveAgents(s.d.runs), WithStatus(s.d.runs, Queued, |s.d.runs|), allowed, clock);
  }

  lemma TickKeeps(c: Config, s: Sys, creds: bool, now: real, allowed: set<nat>, clock: real)
    requires Inv(c, s, clock) && clock <= now
    ensures Inv(c, Ticked(c, s, creds, now, allowed), now) && Evolves(s.d.runs, Ticked(c, s, creds, now, allowed).d.runs)
  {
    var ids := DueAmong(s.d.agents, now, |s.d.agents|);
    var (e, raised) := Turns(s.d, ids, now, c.misfire, !creds);
    TurnsKeep(s.d, ids, now, c.misfire, !creds, clock);
    NothingStartsSafe(c, s, e);
    if !raised && creds {
      StartedKeeps(c, s.(d := e), allowed, now);
      EvolvesTransitive(s.d.runs, e.runs, Started(c, s.(d := e), allowed).d.runs);
    }
  }

  // ---- the other steps ---------------------------------------------------------------

  lemma RecordKeeps(c: Config, s: Sys, id: nat, e: Ending, now: real, clock: real)
    requires Inv(c, s, clock) && clock <= now
    ensures Inv(c, Recorded(s, id, e, now), now) && Evolves(s.d.runs, Recorded(s, id, e, now).d.runs)
  {
    TablesLater(s.d, clock, now);
    if id in s.tasks && id !in s.recorded {
      var t := SetStatus(s.d.runs, id, Outcome(e, s.stopping, id in s.cancelled));
      var i := s.d.runs[id].agent;
      StatusesOnly(s.d, t, now);
      assert RowOk(s.d, s.d.runs[id], now);
      DisarmedOk(s.d.(runs := t), i, Recorded(s, id, e, now).d.agents[i], now);
    }
  }

  lemma DoneRow(c: Config, s: Sys, id: nat)
    requires Safe(c, s) && id in s.tasks
    ensures var u := TaskDone(s, id);
      |u.d.runs| == |s.d.runs| && u.d.agents == s.d.agents && id < |u.d.runs| && Final(u.d.runs[id].status) &&
      RowEvolves(s.d.runs[id], u.d.runs[id]) && u.d.runs[id].agent == s.d.runs[id].agent &&
      u.d.runs[id].runner == s.d.runs[id].runner && u.d.runs[id].scheduledFor == s.d.runs[id].scheduledFor &&
      forall k :: 0 <= k < |s.d.runs| && k != id ==> u.d.runs[k] == s.d.runs[k]
  {
  }

  lemma DoneSafe(c: Config, s: Sys, id: nat)
    requires Safe(c, s) && id in s.tasks
    ensures Safe(c, TaskDone(s, id)) && Evolves(s.d.runs, TaskDone(s, id).d.runs)
  {
    var u := TaskDone(s, id);
    DoneRow(c, s, id);
    assert |u.tasks| == |s.tasks| - 1;
  }

  lemma DoneKeeps(c: Config, s: Sys, id: nat, now: real, clock: real)
    requires Inv(c, s, clock) && clock <= now
    ensures Inv(c, TaskDone(s, id), now) && Evolves(s.d.runs, TaskDone(s, id).d.runs)
  {
    TablesLater(s.d, clock, now);
    if id in s.tasks {
      DoneSafe(c, s, id);
      DoneRow(c, s, id);
      StatusesOnly(s.d, TaskDone(s, id).d.runs, now);
    }
  }

  lemma CancelKeeps(c: Config, s: Sys, id: nat, now: real, clock: real)
    requires Inv(c, s, clock) && clock <= now
    ensures Inv(c, CancelAsked(s, id), now) && Evolves(s.d.runs, CancelAsked(s, id).d.runs)
  {
    TablesLater(s.d, clock, now);
    StatusesOnly(s.d, CancelAsked(s, id).d.runs, now);
  }

  lemma NewRowKeeps(c: Config, s: Sys, i: nat, status: Status, now: real, clock: real)
    requires Inv(c, s, clock) && clock <= now && i < |s.d.agents| && status != Running
    ensures var u := s.(d := s.d.(runs := Enqueue(s.d.runs, i, None, status, now)));
      Inv(c, u, now) && Evolves(s.d.runs, u.d.runs)
  {
    TablesLater(s.d, clock, now);
    UnscheduledRow(s.d, i, status, now, now);
    NothingStartsSafe(c, s, s.d.(runs := Enqueue(s.d.runs, i, None, status, now)));
  }

  /** `next_fire` arms an agent past all its rows: a one-shot fires only before the first of them. */
  lemma ArmedByNextFire(t: Table, i: nat, b: Agent, now: real)
    requires b.sched.Some? ==> ZoneOk(b.sched.value.zone)
    requires HasScheduledRow(t, i) ==> b.lastRun.Some?
    requires forall k :: 0 <= k < |t| && t[k].agent == i && t[k].scheduledFor.Some? ==> t[k].scheduledFor.value <= now
    ensures ArmedOk(t, i, b.(nextRun := NextFire(b, now)))
  {
    if b.sched.Some? {
      NextIsLeast(b.sched.value, now);
    }
  }

  lemma EditKeeps(c: Config, s: Sys, i: nat, a: Agent, now: real, clock: real)
    requires Inv(c, s, clock) && clock <= now && (a.sched.Some? ==> ZoneOk(a.sched.value.zone))
    ensures Inv(c, Edited(s, i, a, now), now) && Evolves(s.d.runs, Edited(s, i, a, now).d.runs)
  {
    TablesLater(s.d, clock, now);
    var e, t := Edited(s, i, a, now).d, s.d.runs;
    var n := if i < |s.d.agents| then i else |s.d.agents|;
    forall k | 0 <= k < |t| ensures RowOk(e, t[k], now) {
      assert RowOk(s.d, t[k], now);
    }
    if i < |s.d.agents| {
      assert ArmedOk(t, i, s.d.agents[i]);
    }
    ArmedByNextFire(t, n, a.(lastRun := if i < |s.d.agents| then s.d.agents[i].lastRun else None), now);
    forall j | 0 <= j < |e.agents| ensures ArmedOk(t, j, e.agents[j]) {
      if j != n {
        assert ArmedOk(t, j, s.d.agents[j]);
      }
    }
  }

  // ---- every run of the machine ------------------------------------------------------

  lemma StepKeeps(c: Config, s: Sys, e: Event, now: real, clock: real)
    requires Inv(c, s, clock) && clock <= now && EventOk(e)
    ensures Inv(c, Step(c, s, e, now), now) && Evolves(s.d.runs, Step(c, s, e, now).d.runs)
  {
    TablesLater(s.d, clock, now);
    match e {
      case Restart(creds) => RestartKeeps(c, s, creds, now, clock);
      case Tick(creds, allowed) => TickKeeps(c, s, creds, now, allowed, clock);
      case Request(i, creds) =>
        if i < |s.d.agents| {
          NewRowKeeps(c, s, i, Queued, now, clock);
        }
      case Fire(i, creds) =>
        if i < |s.d.agents| {
          NewRowKeeps(c, s, i, Queued, now, clock);
          NewRowKeeps(c, s, i, Skipped, now, clock);
        }
      case Cancel(id) => CancelKeeps(c, s, id, now, clock);
      case Revoke(i) =>
        if i < |s.d.agents| {
          PauseKeeps(c, s, i, now);
        }
      case Stop =>
      case Record(id, ending) => RecordKeeps(c, s, id, ending, now, clock);
      case Done(id) => DoneKeeps(c, s, id, now, clock);
      case Edit(i, row) => EditKeeps(c, s, i, row, now, clock);
    }
  }

  function ClockOf(es: seq<(real, Event)>): real {
    if es == [] then 0.0 else es[|es| - 1].0
  }

  lemma PrefixOk(es: seq<(real, Event)>, n: nat)
    requires RunOk(es) && n <= |es|
    ensures RunOk(es[..n]) && 0.0 <= ClockOf(es[..n]) <= (if n == |es| then ClockOf(es) else es[n].0)
  {
  }

  /**
   Over every interleaving: at most one run per agent is running, at most `maxTasks` tasks are
   live, a running run has a live task, and the tables are in order.
   */
  lemma {:induction false} ReachedIsSafe(c: Config, es: seq<(real, Event)>)
    requires RunOk(es)
    ensures Inv(c, Reached(c, es), ClockOf(es))
  {
    if es != [] {
      var init, last := es[..|es| - 1], es[|es| - 1];
      PrefixOk(es, |es| - 1);
      ReachedIsSafe(c, init);
      StepKeeps(c, Reached(c, init), last.1, last.0, ClockOf(init));
    }
  }

  lemma LastStepEvolves(c: Config, es: seq<(real, Event)>)
    requires RunOk(es) && es != []
    ensures Evolves(Reached(c, es[..|es| - 1]).d.runs, Reached(c, es).d.runs)
  {
    var init, last := es[..|es| - 1], es[|es| - 1];
    PrefixOk(es, |es| - 1);
    ReachedIsSafe(c, init);
    StepKeeps(c, Reached(c, init), last.1, last.0, ClockOf(init));
  }

  /** Rows only evolve forward: queued, running, final. */
  lemma {:induction false} HistoryEvolves(c: Config, before: seq<(real, Event)>, after: seq<(real, Event)>)
    requires RunOk(before + after)
    ensures Evolves(Reached(c, before).d.runs, Reached(c, before + after).d.runs)
  {
    var all := before + after;
    if after == [] {
      assert all == before;
    } else {
      var init := after[..|after| - 1];
      assert all[..|all| - 1] == before + init;
      PrefixOk(all, |all| - 1);
      HistoryEvolves(c, before, init);
      LastStepEvolves(c, all);
      EvolvesTransitive(Reached(c, before).d.runs, Reached(c, before + init).d.runs, Reached(c, all).d.runs);
    }
  }

  /** A final status is never left. */
  lemma FinalForEver(c: Config, before: seq<(real, Event)>, after: seq<(real, Event)>, id: nat)
    requires RunOk(before + after) && id < |Reached(c, before).d.runs| && Final(Reached(c, before).d.runs[id].status)
    ensures id < |Reached(c, before + after).d.runs|
    ensures Reached(c, before + after).d.runs[id].status == Reached(c, before).d.runs[id].status
  {
    HistoryEvolves(c, before, after);
    assert RowEvolves(Reached(c, before).d.runs[id], Reached(c, before + after).d.runs[id]);
  }

  /**
   A claimed run never goes back to the queue, and without a live task it has a final status: so
   once its task is over, it has reached its one final status, and keeps it.
   */
  lemma ClaimedRunEnds(c: Config, before: seq<(real, Event)>, after: seq<(real, Event)>, id: nat)
    requires RunOk(before + after) && id < |Reached(c, before).d.runs| && Reached(c, before).d.runs[id].status == Running
    ensures var s := Reached(c, before + after);
      id < |s.d.runs| && s.d.runs[id].status != Queued && (id !in s.tasks ==> Final(s.d.runs[id].status))
  {
    HistoryEvolves(c, before, after);
    ReachedIsSafe(c, before + after);
    assert RowEvolves(Reached(c, before).d.runs[id], Reached(c, before + after).d.runs[id]);
  }

  /** The end of a task is where a run gets its final status, if its body recorded none. */
  lemma DoneIsFinal(c: Config, s: Sys, id: nat, now: real, clock: real)
    requires Inv(c, s, clock) && id in s.tasks
    ensures id !in Step(c, s, Done(id), now).tasks && Final(Step(c, s, Done(id), now).d.runs[id].status)
  {
  }

  /** The status of a live run once its body has recorded the ending `e`, or nothing, and its task is over. */
  function EndStatus(s: Sys, id: nat, e: Option<Ending>, now: real): Option<Status> {
    var t := if e.Some? then Recorded(s, id, e.value, now) else s;
    var u := TaskDone(t, id);
    if id < |u.d.runs| then Some(u.d.runs[id].status) else None
  }

  /**
   A live run that a human cancels ends cancelled exactly when its task is halted, or dies before it
   records anything: a body that comes to its end first keeps the status of that end. No run ends
   cancelled unasked.
   */
  lemma CancelIsHonoured(c: Config, s: Sys, id: nat, e: Option<Ending>, now: real, clock: real)
    requires Inv(c, s, clock) && id in s.tasks && id !in s.recorded && !s.stopping
    ensures EndStatus(CancelAsked(s, id), id, e, now) == Some(Cancelled) <==> e.None? || e.value.Halted?
    ensures id !in s.cancelled ==> EndStatus(s, id, e, now) != Some(Cancelled)
  {
    if e.Some? {
      EndedIsFinal(s, id, e.value, now);
      EndedIsFinal(CancelAsked(s, id), id, e.value, now);
    }
  }

  lemma EndedIsFinal(s: Sys, id: nat, e: Ending, now: real)
    requires id in s.tasks && id !in s.recorded && id < |s.d.runs|
    ensures Recorded(s, id, e, now).d.runs[id].status == Outcome(e, s.stopping, id in s.cancelled)
    ensures Final(Recorded(s, id, e, now).d.runs[id].status)
  {
  }

  /** A run succeeds exactly when it came to its end by itself, with a result that is no error, complete and paid for. */
  lemma SuccessExactly(s: Sys, id: nat, e: Ending, now: real)
    requires id in s.tasks && id !in s.recorded && id < |s.d.runs|
    ensures Recorded(s, id, e, now).d.runs[id].status == Succeeded <==>
            e == Ended(stopped := false, overBudget := false, result := true, isError := false, incomplete := false)
    ensures Final(Recorded(s, id, e, now).d.runs[id].status)
    ensures forall k :: 0 <= k < |s.d.runs| && k != id ==> Recorded(s, id, e, now).d.runs[k] == s.d.runs[k]
  {
  }

  /** Over whole runs with a clock that never goes back, each agent's scheduled rows are for later and later instants. */
  lemma ScheduledRowsIncrease(c: Config, es: seq<(real, Event)>)
    requires RunOk(es)
    ensures Increasing(Reached(c, es).d.runs) && UniqueOccurrences(Reached(c, es).d.runs)
  {
    ReachedIsSafe(c, es);
  }
}
