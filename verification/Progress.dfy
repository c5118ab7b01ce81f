/**
 What a tick achieves: every due cron agent is caught up with one row, and no run waits while
 its agent is idle and a task slot is free.
 */
module Progress {
  import opened Cron
  import opened Runs
  import opened CatchUp
  import opened Scheduling
  import opened Safety

  /** A turn touches one agent row and adds at most a row of that agent. */
  lemma TurnFrame(d: Tables, i: nat, now: real, misfire: real, held: bool, j: nat)
    requires i < |d.agents| && IsDue(d.agents[i], now) && j < |d.agents| && j != i
    requires Turn(d, i, now, misfire, held).Some?
    ensures var e := Turn(d, i, now, misfire, held).value;
      e.agents[j] == d.agents[j] && d.runs <= e.runs && (forall k :: |d.runs| <= k < |e.runs| ==> e.runs[k].agent == i)
  {
  }

  ghost predicate NoNewRow(t: Table, u: Table, j: nat) {
    t <= u && forall k :: |t| <= k < |u| ==> u[k].agent != j
  }

  lemma {:induction false} TurnsFrame(d: Tables, ids: seq<nat>, now: real, misfire: real, held: bool, j: nat)
    requires j !in ids && j < |d.agents|
    ensures var (e, raised) := Turns(d, ids, now, misfire, held);
      j < |e.agents| && e.agents[j] == d.agents[j] && NoNewRow(d.runs, e.runs, j)
  {
    if ids != [] {
      var init, i := ids[..|ids| - 1], ids[|ids| - 1];
      var (e, raised) := Turns(d, init, now, misfire, held);
      assert forall x :: x in init ==> x in ids;
      TurnsFrame(d, init, now, misfire, held, j);
      if !raised && i < |e.agents| && IsDue(e.agents[i], now) && Turn(e, i, now, misfire, held).Some? {
        TurnFrame(e, i, now, misfire, held, j);
      }
    }
  }

  ghost predicate StrictlyUp(ids: seq<nat>) {
    forall j, k :: 0 <= j < k < |ids| ==> ids[j] < ids[k]
  }

  /** `k` is the only new row of agent `i`, and it catches the agent up. */
  ghost predicate CaughtUp(s: Sched, t: Table, u: Table, i: nat, now: real, misfire: real, held: bool, k: nat) {
    t <= u && |t| <= k < |u| && CatchUpRow(s, i, u[k], now) &&
    u[k].status == StatusFor(t, i, u[k].scheduledFor.value, now, misfire, held) &&
    forall m :: |t| <= m < |u| && m != k ==> u[m].agent != i
  }

  lemma SameUnderWay(t: Table, u: Table, i: nat)
    requires NoNewRow(t, u, i)
    ensures QueuedOrRunning(t, i) <==> QueuedOrRunning(u, i)
  {
    if k :| 0 <= k < |t| && t[k].agent == i && t[k].status in {Queued, Running} {
      assert u[k] == t[k];
    }
    if k :| 0 <= k < |u| && u[k].agent == i && u[k].status in {Queued, Running} {
      assert k < |t| && u[k] == t[k];
    }
  }

  lemma LastTurnCatchesUp(d: Tables, e: Tables, i: nat, now: real, misfire: real, missed: set<real>, held: bool)
    returns (k: nat)
    requires TablesOk(e, now) && NoNewRow(d.runs, e.runs, i)
    requires i < |d.agents| && i < |e.agents| && e.agents[i] == d.agents[i]
    requires IsDue(d.agents[i], now) && d.agents[i].trigger == OnCron && d.agents[i].sched.Some?
    requires MissedWithin(d.agents[i].sched.value, d.agents[i].nextRun.value, now, missed) && |missed| < LOOKBACK
    requires DueOccurrence(d.agents[i], now).At?
    ensures Turn(e, i, now, misfire, held).Some?
    ensures var f := Turn(e, i, now, misfire, held).value;
      CaughtUp(d.agents[i].sched.value, d.runs, f.runs, i, now, misfire, held, k) &&
      i < |f.agents| && f.agents[i].nextRun == Next(d.agents[i].sched.value, now)
  {
    TurnCatchesUp(e, i, now, misfire, now, missed, held);
    k := |e.runs|;
    SameUnderWay(d.runs, e.runs, i);
  }

  // ---- a search that raises ----------------------------------------------------------

  ghost predicate AllDue(d: Tables, ids: seq<nat>, now: real) {
    StrictlyUp(ids) && forall i :: i in ids ==> i < |d.agents| && IsDue(d.agents[i], now)
  }

  /** The search of agent `i` raises. */
  predicate Raises(d: Tables, i: nat, now: real) {
    i < |d.agents| && IsDue(d.agents[i], now) && DueOccurrence(d.agents[i], now).Raised?
  }

  lemma AllDuePrefix(d: Tables, ids: seq<nat>, init: seq<nat>, last: nat, now: real)
    requires AllDue(d, ids, now) && ids == init + [last]
    ensures AllDue(d, init, now) && last < |d.agents| && IsDue(d.agents[last], now)
    ensures forall i :: i in ids <==> i in init || i == last
    ensures forall i :: i in init ==> i < last
  {
    assert last in ids;
    assert forall j :: 0 <= j < |init| ==> ids[j] == init[j];
    forall i | i in init ensures i < last {
      var k :| 0 <= k < |init| && init[k] == i;
      assert ids[k] < ids[|init|];
    }
  }

  /** The loop over due agents raises exactly when the search of one of them does. */
  lemma {:induction false} TurnsRaiseExactly(d: Tables, ids: seq<nat>, now: real, misfire: real, held: bool)
    requires AllDue(d, ids, now)
    ensures Turns(d, ids, now, misfire, held).1 <==> exists i :: i in ids && Raises(d, i, now)
  {
    if ids != [] {
      var init, last := ids[..|ids| - 1], ids[|ids| - 1];
      AllDuePrefix(d, ids, init, last, now);
      TurnsRaiseExactly(d, init, now, misfire, held);
      TurnsFrame(d, init, now, misfire, held, last);
      assert Turns(d, ids, now, misfire, held).1 <==> Turns(d, init, now, misfire, held).1 || Raises(d, last, now);
    }
  }

  /** From the first agent whose search raises on, nobody gets a row and nobody is armed again. */
  lemma {:induction false} TurnsStopAt(d: Tables, ids: seq<nat>, now: real, misfire: real, held: bool, r: nat, i: nat)
    requires AllDue(d, ids, now) && r in ids && Raises(d, r, now) && r <= i < |d.agents|
    ensures var (e, raised) := Turns(d, ids, now, misfire, held);
      raised && i < |e.agents| && e.agents[i] == d.agents[i] && NoNewRow(d.runs, e.runs, i)
  {
    TurnsRaiseExactly(d, ids, now, misfire, held);
    var init, last := ids[..|ids| - 1], ids[|ids| - 1];
    AllDuePrefix(d, ids, init, last, now);
    if r in init {
      TurnsStopAt(d, init, now, misfire, held, r, i);
    } else {
      assert i !in init;
      TurnsFrame(d, init, now, misfire, held, i);
      TurnsFrame(d, init, now, misfire, held, r);
    }
  }

  /**
   The loop over the due agents leaves each due cron agent that missed fewer than LOOKBACK
   occurrences with exactly one new row, for the greatest occurrence not after now, and armed for
   the first one after now, unless its own search or that of an agent before it raises.
   */
  lemma {:induction false} TurnsCatchUp(d: Tables, ids: seq<nat>, now: real, misfire: real, held: bool, clock: real,
                                        i: nat, missed: set<real>) returns (k: nat)
    requires TablesOk(d, clock) && clock <= now && AllDue(d, ids, now) && i in ids
    requires d.agents[i].trigger == OnCron && ArmedOk(d.runs, i, d.agents[i])
    requires MissedWithin(d.agents[i].sched.value, d.agents[i].nextRun.value, now, missed) && |missed| < LOOKBACK
    requires forall r :: r in ids && r <= i ==> !Raises(d, r, now)
    ensures var e := Turns(d, ids, now, misfire, held).0;
      CaughtUp(d.agents[i].sched.value, d.runs, e.runs, i, now, misfire, held, k) &&
      i < |e.agents| && e.agents[i].nextRun == Next(d.agents[i].sched.value, now)
  {
    var init, last := ids[..|ids| - 1], ids[|ids| - 1];
    var (e, raised) := Turns(d, init, now, misfire, held);
    TurnsKeep(d, init, now, misfire, held, clock);
    AllDuePrefix(d, ids, init, last, now);
    if last == i {
      TurnsRaiseExactly(d, init, now, misfire, held);
      TurnsFrame(d, init, now, misfire, held, i);
      k := LastTurnCatchesUp(d, e, i, now, misfire, missed, held);
    } else {
      k := TurnsCatchUp(d, init, now, misfire, held, clock, i, missed);
      if !raised {
        OtherTurn(e, last, now, misfire, held, d.agents[i].sched.value, d.runs, i, k);
      }
    }
  }

  /** A turn of another agent leaves agent `i` caught up. */
  lemma OtherTurn(e: Tables, last: nat, now: real, misfire: real, held: bool, s: Sched, t: Table, i: nat, k: nat)
    requires last != i && i < |e.agents| && CaughtUp(s, t, e.runs, i, now, misfire, held, k)
    ensures var f := TurnIfDue(e, last, now, misfire, held).0;
      CaughtUp(s, t, f.runs, i, now, misfire, held, k) && i < |f.agents| && f.agents[i] == e.agents[i]
  {
    if last < |e.agents| && IsDue(e.agents[last], now) && Turn(e, last, now, misfire, held).Some? {
      TurnFrame(e, last, now, misfire, held, i);
    }
  }

  lemma DueAmongIsAllDue(d: Tables, now: real)
    ensures AllDue(d, DueAmong(d.agents, now, |d.agents|), now)
    ensures forall i :: i in DueAmong(d.agents, now, |d.agents|) <==> 0 <= i < |d.agents| && IsDue(d.agents[i], now)
  {
  }

  /**
   Of the rows after those of `t`, exactly row `k` is of agent `i`, and it catches the agent up; it is skipped
   when the scheduler is held, or the row too late, or the agent has a run under way, and only then.
   */
  ghost predicate OneNewRow(s: Sched, t: Table, u: Table, i: nat, now: real, misfire: real, creds: bool, k: nat) {
    |t| <= k < |u| && CatchUpRow(s, i, u[k], now) &&
    (u[k].status == Skipped <==> !creds || now - u[k].scheduledFor.value > misfire || QueuedOrRunning(t, i)) &&
    forall m :: |t| <= m < |u| && m != k ==> u[m].agent != i
  }

  /**
   A whole tick, with or without credentials: a due cron agent that missed fewer than 100000
   occurrences gets exactly one new row, for the greatest occurrence not after now, unless its own
   search or that of a due agent before it raises.
   */
  lemma TickCatchesUp(c: Config, s: Sys, creds: bool, now: real, allowed: set<nat>, clock: real, i: nat, missed: set<real>)
    returns (k: nat)
    requires Inv(c, s, clock) && clock <= now && i < |s.d.agents|
    requires IsDue(s.d.agents[i], now) && s.d.agents[i].trigger == OnCron && ArmedOk(s.d.runs, i, s.d.agents[i])
    requires MissedWithin(s.d.agents[i].sched.value, s.d.agents[i].nextRun.value, now, missed) && |missed| < 100000
    requires forall r :: 0 <= r <= i ==> !Raises(s.d, r, now)
    ensures OneNewRow(s.d.agents[i].sched.value, s.d.runs, Ticked(c, s, creds, now, allowed).d.runs, i, now, c.misfire, creds, k)
  {
    var ids := DueAmong(s.d.agents, now, |s.d.agents|);
    DueAmongIsAllDue(s.d, now);
    var (e, raised) := Turns(s.d, ids, now, c.misfire, !creds);
    k := TurnsCatchUp(s.d, ids, now, c.misfire, !creds, clock, i, missed);
    if creds && !raised {
      TurnsKeep(s.d, ids, now, c.misfire, !creds, clock);
      NothingStartsSafe(c, s, e);
      StartedKeeps(c, s.(d := e), allowed, now);
      StartedAddsNothing(c, s.(d := e), LiveAgents(e.runs), WithStatus(e.runs, Queued, |e.runs|), allowed);
      StartedSkipsNothing(c, s.(d := e), LiveAgents(e.runs), WithStatus(e.runs, Queued, |e.runs|), allowed, k);
      var u := Started(c, s.(d := e), allowed).d.runs;
      assert forall m :: 0 <= m < |u| ==> RowEvolves(e.runs[m], u[m]);
    }
  }

  /** When the search of a due agent raises, the tick ends there: no later agent gets a row, no run starts. */
  lemma TickStopsAt(c: Config, s: Sys, creds: bool, now: real, allowed: set<nat>, r: nat, i: nat)
    requires Raises(s.d, r, now) && r <= i < |s.d.agents|
    ensures var u := Ticked(c, s, creds, now, allowed);
      u == s.(d := u.d) && i < |u.d.agents| && u.d.agents[i] == s.d.agents[i] && NoNewRow(s.d.runs, u.d.runs, i)
  {
    DueAmongIsAllDue(s.d, now);
    TurnsStopAt(s.d, DueAmong(s.d.agents, now, |s.d.agents|), now, c.misfire, !creds, r, i);
  }

  /** So an agent that is due gets its row in a tick exactly when no search raises up to its own. */
  lemma TickServesExactly(c: Config, s: Sys, creds: bool, now: real, allowed: set<nat>, clock: real, i: nat, missed: set<real>)
    requires Inv(c, s, clock) && clock <= now && i < |s.d.agents|
    requires IsDue(s.d.agents[i], now) && s.d.agents[i].trigger == OnCron && ArmedOk(s.d.runs, i, s.d.agents[i])
    requires MissedWithin(s.d.agents[i].sched.value, s.d.agents[i].nextRun.value, now, missed) && |missed| < 100000
    ensures (exists k: nat ::
              OneNewRow(s.d.agents[i].sched.value, s.d.runs, Ticked(c, s, creds, now, allowed).d.runs, i, now,
                        c.misfire, creds, k))
            <==> forall r :: 0 <= r <= i ==> !Raises(s.d, r, now)
  {
    if r :| 0 <= r <= i && Raises(s.d, r, now) {
      TickStopsAt(c, s, creds, now, allowed, r, i);
    } else {
      var k := TickCatchesUp(c, s, creds, now, allowed, clock, i, missed);
    }
  }

  lemma {:induction false} StartedAddsNothing(c: Config, s: Sys, live: set<nat>, queue: seq<nat>, allowed: set<nat>)
    ensures |StartLoop(c, s, live, queue, allowed).d.runs| == |s.d.runs|
    decreases |queue|
  {
    if queue != [] && |s.tasks| < c.maxTasks {
      var (s', live') := StartOne(s, live, queue[0], allowed);
      StartedAddsNothing(c, s', live', queue[1..], allowed);
    }
  }

  lemma {:induction false} StartedSkipsNothing(c: Config, s: Sys, live: set<nat>, queue: seq<nat>, allowed: set<nat>, k: nat)
    requires k < |s.d.runs|
    ensures var u := StartLoop(c, s, live, queue, allowed);
      k < |u.d.runs| && (u.d.runs[k].status == Skipped ==> s.d.runs[k].status == Skipped)
    decreases |queue|
  {
    if queue != [] && |s.tasks| < c.maxTasks {
      var (s', live') := StartOne(s, live, queue[0], allowed);
      StartedSkipsNothing(c, s', live', queue[1..], allowed, k);
    }
  }

  // ---- no run waits for nothing ------------------------------------------------------

  lemma StartOneRunning(c: Config, s: Sys, live: set<nat>, id: nat, allowed: set<nat>)
    requires Safe(c, s) && id < |s.d.runs| && (s.d.runs[id].status == Queued || s.d.runs[id].status == Cancelled)
    ensures var (u, live') := StartOne(s, live, id, allowed);
      |u.d.runs| == |s.d.runs| &&
      (forall k :: 0 <= k < |s.d.runs| ==> u.d.runs[k].agent == s.d.runs[k].agent) &&
      (forall k :: 0 <= k < |s.d.runs| && k != id ==> (u.d.runs[k].status == Running <==> s.d.runs[k].status == Running)) &&
      (u.d.runs[id].status == Queued ==> s.d.runs[id].agent in live') &&
      live' == if u.d.runs[id].status == Running then live + {s.d.runs[id].agent} else live
  {
    var i := s.d.runs[id].agent;
    if i !in live && i < |s.d.agents| && s.d.agents[i].active && i !in allowed {
      PausedRunning(s.(d := s.d.(runs := SetStatus(s.d.runs, id, Cancelled))), i);
    }
  }

  /** Pausing an agent changes neither which runs are running nor queues anything. */
  lemma PausedRunning(s: Sys, i: nat)
    requires i < |s.d.agents| && forall k :: 0 <= k < |s.d.runs| && s.d.runs[k].status == Running ==> k in s.tasks
    ensures var u := Paused(s, i).d.runs;
      |u| == |s.d.runs| && forall k :: 0 <= k < |u| ==>
        u[k].agent == s.d.runs[k].agent && (u[k].status == Running <==> s.d.runs[k].status == Running) &&
        (u[k].status == Queued ==> s.d.runs[k].status == Queued)
  {
  }

  lemma LiveAfter(t: Table, u: Table, live: set<nat>, live': set<nat>, id: nat)
    requires live == LiveAgents(t) && id < |t| == |u| && t[id].status != Running
    requires forall k :: 0 <= k < |t| ==> u[k].agent == t[k].agent
    requires forall k :: 0 <= k < |t| && k != id ==> (u[k].status == Running <==> t[k].status == Running)
    requires live' == if u[id].status == Running then live + {t[id].agent} else live
    ensures live' == LiveAgents(u)
  {
    forall a | a in LiveAgents(u) ensures a in live' {
      var k :| 0 <= k < |u| && u[k].status == Running && u[k].agent == a;
      assert k != id ==> t[k].status == Running;
    }
    forall a | a in live' ensures a in LiveAgents(u) {
      if a in live {
        var k :| 0 <= k < |t| && t[k].status == Running && t[k].agent == a;
        assert u[k].status == Running && u[k].agent == a;
      } else {
        assert u[id].status == Running && u[id].agent == a;
      }
    }
  }

  /** Once processed, a run is no longer queued, or its agent is running something. */
  lemma {:induction false} StartLoopServes(c: Config, s: Sys, live: set<nat>, queue: seq<nat>, allowed: set<nat>, clock: real)
    requires Inv(c, s, clock) && QueueOk(s, live, queue) && live == LiveAgents(s.d.runs)
    ensures var u := StartLoop(c, s, live, queue, allowed);
      LiveAgents(s.d.runs) <= LiveAgents(u.d.runs) && |s.d.runs| == |u.d.runs| &&
      (|u.tasks| < c.maxTasks ==> forall id :: id in queue ==> id < |u.d.runs| && Served(u.d.runs, id))
    decreases |queue|
  {
    if queue != [] && |s.tasks| < c.maxTasks {
      var id := queue[0];
      assert id in queue;
      var (s', live') := StartOne(s, live, id, allowed);
      StartOneKeeps(c, s, live, queue, allowed, clock);
      StartOneRunning(c, s, live, id, allowed);
      LiveAfter(s.d.runs, s'.d.runs, live, live', id);
      StartLoopServes(c, s', live', queue[1..], allowed, clock);
      StartLoopKeeps(c, s', live', queue[1..], allowed, clock);
      var u := StartLoop(c, s', live', queue[1..], allowed);
      assert RowEvolves(s'.d.runs[id], u.d.runs[id]);
      forall j | j in queue && |u.tasks| < c.maxTasks ensures j < |u.d.runs| && Served(u.d.runs, j) {
        assert j == id || j in queue[1..];
      }
    }
  }

  predicate Served(t: Table, id: nat)
    requires id < |t|
  {
    t[id].status == Queued ==> t[id].agent in LiveAgents(t)
  }

  /** After `start_queued`, either every task slot is used or no queued run has an idle agent. */
  lemma NoRunWaitsForNothing(c: Config, s: Sys, allowed: set<nat>, clock: real)
    requires Inv(c, s, clock)
    ensures var u := Started(c, s, allowed);
      |u.tasks| >= c.maxTasks ||
      forall id :: 0 <= id < |u.d.runs| && u.d.runs[id].status == Queued ==>
        exists k :: 0 <= k < |u.d.runs| && u.d.runs[k].status == Running && u.d.runs[k].agent == u.d.runs[id].agent
  {
    var queue := WithStatus(s.d.runs, Queued, |s.d.runs|);
    WithStatusDistinct(s.d.runs, Queued, |s.d.runs|);
    StartLoopServes(c, s, LiveAgents(s.d.runs), queue, allowed, clock);
    StartedKeeps(c, s, allowed, clock);
    var u := Started(c, s, allowed);
    forall id | 0 <= id < |u.d.runs| && u.d.runs[id].status == Queued && |u.tasks| < c.maxTasks
      ensures exists k :: 0 <= k < |u.d.runs| && u.d.runs[k].status == Running && u.d.runs[k].agent == u.d.runs[id].agent
    {
      assert RowEvolves(s.d.runs[id], u.d.runs[id]);
      assert id in queue && Served(u.d.runs, id);
    }
  }
}
