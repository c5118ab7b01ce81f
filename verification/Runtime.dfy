/**
 `Runtime`: the scheduler object, whose methods change its tables and its memory step by step.
 Each is the step of the state machine of the same name.
 */
module Runtime {
  import opened Util
  import opened Runs
  import opened CatchUp
  import opened Scheduling

  class Runtime {
    const config: Config
    var d: Tables
    var tasks: set<nat>
    var recorded: set<nat>
    var cancelled: set<nat>
    var stopping: bool
    var runner: nat

    ghost function State(): Sys
      reads this
    {
      Sys(d, tasks, recorded, cancelled, stopping, runner)
    }

    constructor (config: Config, d: Tables)
      ensures this.config == config && State() == Sys(d, {}, {}, {}, false, 0)
    {
      this.config, this.d := config, d;
      tasks, recorded, cancelled, stopping, runner := {}, {}, {}, false, 0;
    }

    /** A process starts: `start`, with its two clean-ups. */
    method Start(creds: bool, now: real)
      modifies this
      ensures State() == Restarted(old(State()), creds, now)
    {
      tasks, recorded, cancelled, stopping, runner := {}, {}, {}, false, runner + 1;
      Recover();
      if !creds {
        DropBootBacklog(now);
      }
    }

    method Recover()
      modifies `d
      ensures d == old(d).(runs := Recovered(old(d).runs, runner))
    {
      ghost var t := d.runs;
      for i := 0 to |d.runs|
        invariant d.agents == old(d).agents && |d.runs| == |t|
        invariant forall k :: i <= k < |t| ==> d.runs[k] == t[k]
        invariant forall k :: 0 <= k < i ==> d.runs[k] == Recovered(t, runner)[k]
      {
        if d.runs[i].status == Running && d.runs[i].runner != runner {
          d := d.(runs := SetStatus(d.runs, i, Interrupted));
        }
      }
      assert d.runs == Recovered(t, runner);
    }

    method DropBootBacklog(boot: real)
      modifies `d
      ensures d == old(d).(runs := BacklogDropped(old(d).runs, boot))
    {
      ghost var t := d.runs;
      for i := 0 to |d.runs|
        invariant d.agents == old(d).agents && |d.runs| == |t|
        invariant forall k :: i <= k < |t| ==> d.runs[k] == t[k]
        invariant forall k :: 0 <= k < i ==> d.runs[k] == BacklogDropped(t, boot)[k]
      {
        if d.runs[i].status == Queued && d.runs[i].createdAt < boot {
          d := d.(runs := SetStatus(d.runs, i, Skipped));
        }
      }
      assert d.runs == BacklogDropped(t, boot);
    }

    /** `schedule_due`, and `hold` when there are no credentials; `raised` when a search fails. */
    method ScheduleDue(now: real, held: bool) returns (raised: bool)
      modifies `d
      ensures (d, raised) == Turns(old(d), DueAmong(old(d).agents, now, |old(d).agents|), now, config.misfire, held)
    {
      var due := DueAmong(d.agents, now, |d.agents|);
      raised := false;
      for n := 0 to |due|
        invariant !raised && (d, false) == Turns(old(d), due[..n], now, config.misfire, held)
      {
        var i := due[n];
        assert due[..n + 1][..n] == due[..n] && due[..n + 1][n] == i;
        raised := OneDue(i, now, held);
        if raised {
          RaisedStays(old(d), due, n + 1, now, config.misfire, held);
          return;
        }
      }
      assert due[..|due|] == due;
    }

    /** One turn: find the occurrence, add its row, arm the agent again. */
    method OneDue(i: nat, now: real, held: bool) returns (raised: bool)
      modifies `d
      ensures (d, raised) == TurnIfDue(old(d), i, now, config.misfire, held)
    {
      if i >= |d.agents| || !IsDue(d.agents[i], now) {
        return false;
      }
      var a := d.agents[i];
      var occ: Option<real> := None;
      if a.trigger != OnCron {
        occ := a.nextRun;
      } else if a.sched.Some? {
        occ := CronLatestDue(a.sched.value, a.nextRun.value, now);
        if occ.None? {
          return true;
        }
      }
      raised := false;
      if occ.None? {
        d := d.(agents := d.agents[i := if held then Rearmed(a, now) else a.(nextRun := None)]);
        return;
      }
      var status := if held then Skipped else RowStatus(d.runs, i, occ.value, now, config.misfire);
      d := Tables(Enqueue(d.runs, i, occ, status, now), d.agents[i := Rearmed(a, now)]);
    }

    /** `start_queued`. */
    method StartQueued(allowed: set<nat>)
      modifies this
      ensures State() == Started(config, old(State()), allowed)
    {
      var live := LiveAgents(d.runs);
      var queue := WithStatus(d.runs, Queued, |d.runs|);
      ghost var goal := StartLoop(config, State(), live, queue, allowed);
      for n := 0 to |queue|
        invariant StartLoop(config, State(), live, queue[n..], allowed) == goal
      {
        if |tasks| >= config.maxTasks {
          return;
        }
        assert queue[n..][0] == queue[n] && queue[n..][1..] == queue[n + 1..];
        live := TryStart(queue[n], live, allowed);
      }
    }

    method TryStart(id: nat, live: set<nat>, allowed: set<nat>) returns (live': set<nat>)
      modifies this
      ensures (State(), live') == StartOne(old(State()), live, id, allowed)
    {
      live' := live;
      if id >= |d.runs| || d.runs[id].agent in live {
        return;
      }
      var i := d.runs[id].agent;
      if i >= |d.agents| || !d.agents[i].active {
        d := d.(runs := SetStatus(d.runs, id, Cancelled));
      } else if i !in allowed {
        d := d.(runs := SetStatus(d.runs, id, Cancelled));
        Pause(i);
      } else if Claimable(d.runs, id) {
        d := d.(runs := Claim(d.runs, id, runner));
        tasks, live' := tasks + {id}, live + {i};
      }
    }

    /** `pause_agent`. */
    method Pause(i: nat)
      requires i < |d.agents|
      modifies this
      ensures State() == Paused(old(State()), i)
    {
      if d.agents[i].active {
        d := d.(agents := d.agents[i := d.agents[i].(active := false, nextRun := None)]);
      }
      CancelRunsOf(i);
    }

    method CancelRunsOf(i: nat)
      modifies `d, `cancelled
      ensures |d.runs| == |old(d).runs| && d.agents == old(d).agents
      ensures forall k :: 0 <= k < |d.runs| ==> d.runs[k] == PausedRow(old(d).runs[k], i, k in tasks)
      ensures cancelled == old(cancelled) + AskedToStop(old(d).runs, tasks, i, |old(d).runs|)
    {
      ghost var t := d.runs;
      for k := 0 to |d.runs|
        invariant |d.runs| == |t| && d.agents == old(d).agents
        invariant forall m :: k <= m < |t| ==> d.runs[m] == t[m]
        invariant forall m :: 0 <= m < k ==> d.runs[m] == PausedRow(t[m], i, m in tasks)
        invariant cancelled == old(cancelled) + AskedToStop(t, tasks, i, k)
      {
        if d.runs[k].agent == i && !Final(d.runs[k].status) {
          if k in tasks {
            cancelled := cancelled + {k};
          } else {
            d := d.(runs := SetStatus(d.runs, k, Cancelled));
          }
        }
        AskedNext(t, tasks, i, k);
      }
    }

    /** `tick`. */
    method Tick(creds: bool, now: real, allowed: set<nat>)
      modifies this
      ensures State() == Ticked(config, old(State()), creds, now, allowed)
    {
      var raised := ScheduleDue(now, !creds);
      if !raised && creds {
        StartQueued(allowed);
      }
    }

    /** `cancel`. */
    method CancelRun(id: nat) returns (ok: bool)
      modifies this
      ensures State() == CancelAsked(old(State()), id)
      ensures ok <==> id in old(tasks) || Claimable(old(d).runs, id)
    {
      if id in tasks {
        cancelled := cancelled + {id};
        return true;
      }
      ok := Claimable(d.runs, id);
      if ok {
        d := d.(runs := SetStatus(d.runs, id, Cancelled));
      }
    }

    /** The end of `_execute`. */
    method RecordEnd(id: nat, e: Ending, now: real)
      modifies this
      ensures State() == Recorded(old(State()), id, e, now)
    {
      if id !in tasks || id in recorded || id >= |d.runs| {
        return;
      }
      var i := d.runs[id].agent;
      recorded := recorded + {id};
      d := d.(runs := SetStatus(d.runs, id, Outcome(e, stopping, id in cancelled)));
      if i < |d.agents| {
        if e == OwnerLost {
          d := d.(agents := d.agents[i := d.agents[i].(active := false)]);
        } else if e.Ended? || e.Halted? {
          d := d.(agents := d.agents[i := d.agents[i].(lastRun := Some(now))]);
        }
      }
    }

    /** `_done`. */
    method TaskOver(id: nat)
      modifies this
      ensures State() == TaskDone(old(State()), id)
    {
      if id !in tasks {
        return;
      }
      tasks, recorded := tasks - {id}, recorded - {id};
      if id < |d.runs| && d.runs[id].status == Running {
        d := d.(runs := SetStatus(d.runs, id, if id in cancelled then Cancelled else Failed));
      }
    }
  }

  lemma AskedNext(t: Table, tasks: set<nat>, i: nat, k: nat)
    requires k < |t|
    ensures AskedToStop(t, tasks, i, k + 1)
         == AskedToStop(t, tasks, i, k) + if k in tasks && t[k].agent == i && !Final(t[k].status) then {k} else {}
  {
  }

  /** Once a search has raised, the remaining agents get no turn. */
  lemma {:induction false} RaisedStays(d: Tables, ids: seq<nat>, n: nat, now: real, misfire: real, held: bool)
    requires n <= |ids| && Turns(d, ids[..n], now, misfire, held).1
    ensures Turns(d, ids, now, misfire, held) == Turns(d, ids[..n], now, misfire, held)
    decreases |ids| - n
  {
    if n == |ids| {
      assert ids[..n] == ids;
    } else {
      assert ids[..n + 1][..n] == ids[..n];
      RaisedStays(d, ids, n + 1, now, misfire, held);
    }
  }
}
