/**
 What each event does to the runs and the agents, said on what was there before: which ending gives which
 status, what a restart closes, which queued runs a tick starts, what a request, an alert, a cancellation
 and a revocation do.
 */
module Effects {
  import opened Util
  import opened Cron
  import opened Runs
  import opened CatchUp
  import opened Scheduling
  import opened Safety
  import opened Progress

  // ---- how a run ends ------------------------------------------------------------------

  /** A body that came to its end within its budget. */
  predicate PaidFor(e: Ending) {
    e.Ended? && !e.stopped && !e.overBudget
  }

  /** The status a body records, ending by ending; its agent's row is touched only as the ending says. */
  lemma RecordedExactly(c: Config, s: Sys, id: nat, e: Ending, now: real)
    requires Safe(c, s) && id in s.tasks && id !in s.recorded
    ensures var r := Step(c, s, Record(id, e), now).d.runs[id].status;
      (r == Succeeded <==> PaidFor(e) && e.result && !e.isError && !e.incomplete) &&
      (r == Incomplete <==> PaidFor(e) && e.result && !e.isError && e.incomplete) &&
      (r == Failed <==> e.NoSecrets? || (PaidFor(e) && (e.isError || !e.result))) &&
      (r == Budget <==> e.NoProjectBudget? || e.CallTooDear? || (e.Ended? && (e.stopped || e.overBudget))) &&
      (r == Skipped <==> e.OwnerLost?) &&
      (r == Interrupted <==> e.Halted? && s.stopping) &&
      (r == Cancelled <==> e.Halted? && !s.stopping && id in s.cancelled) &&
      (r == Timeout <==> e.Halted? && !s.stopping && id !in s.cancelled)
  {
  }

  /** A lost owner pauses the agent, as it is armed; an ending of the work itself is noted as its last run. */
  lemma RecordedAgentExactly(c: Config, s: Sys, id: nat, e: Ending, now: real)
    requires Safe(c, s) && id in s.tasks && id !in s.recorded && s.d.runs[id].agent < |s.d.agents|
    ensures var i, u := s.d.runs[id].agent, Step(c, s, Record(id, e), now).d.agents;
      |u| == |s.d.agents| && (forall j :: 0 <= j < |u| && j != i ==> u[j] == s.d.agents[j]) &&
      (u[i].active <==> s.d.agents[i].active && !e.OwnerLost?) && u[i].nextRun == s.d.agents[i].nextRun &&
      u[i].lastRun == if e.Ended? || e.Halted? then Some(now) else s.d.agents[i].lastRun
  {
  }

  /** When a task is over, a run it left running has failed, or was cancelled if a human asked; any other keeps its end. */
  lemma TaskOverExactly(c: Config, s: Sys, id: nat, now: real)
    requires Safe(c, s) && id in s.tasks
    ensures var u := Step(c, s, Done(id), now);
      u.tasks == s.tasks - {id} &&
      u.d.runs[id].status == (if s.d.runs[id].status != Running then s.d.runs[id].status
                              else if id in s.cancelled then Cancelled else Failed)
  {
  }

  /** A run whose task is halted while the process shuts down is interrupted, cancelled by a human or not. */
  lemma ShutdownInterrupts(c: Config, s: Sys, id: nat, stop: real, now: real)
    requires Safe(c, s) && id in s.tasks && id !in s.recorded
    ensures var u := Step(c, Step(c, s, Stop, stop), Record(id, Halted), now); u.d.runs[id].status == Interrupted
    ensures Step(c, s, Stop, stop).d == s.d && Step(c, s, Stop, stop).tasks == s.tasks
  {
  }

  // ---- restarts ------------------------------------------------------------------------

  /**
   A restart leaves nothing running: what was running is interrupted, and without credentials what was queued
   before is skipped. Every other status, and everything else of every row, stays.
   */
  lemma RestartExactly(c: Config, s: Sys, creds: bool, now: real, k: nat)
    requires Safe(c, s) && k < |s.d.runs|
    ensures var u := Step(c, s, Restart(creds), now);
      u.tasks == {} && u.cancelled == {} && !u.stopping && u.runner != s.runner && u.d.agents == s.d.agents && |u.d.runs| == |s.d.runs| &&
      u.d.runs[k] == s.d.runs[k].(status :=
        if s.d.runs[k].status == Running then Interrupted
        else if s.d.runs[k].status == Queued && !creds && s.d.runs[k].createdAt < now then Skipped
        else s.d.runs[k].status)
  {
  }

  // ---- a revocation, a cancellation, a request, an alert -------------------------------

  /** Pausing an agent: it alone is stopped and disarmed, its queued runs cancelled, its live ones asked to stop. */
  lemma RevokedExactly(c: Config, s: Sys, i: nat, now: real)
    requires Safe(c, s) && i < |s.d.agents|
    ensures var u := Step(c, s, Revoke(i), now);
      |u.d.agents| == |s.d.agents| && (forall j :: 0 <= j < |u.d.agents| && j != i ==> u.d.agents[j] == s.d.agents[j]) &&
      !u.d.agents[i].active && (s.d.agents[i].active ==> u.d.agents[i].nextRun == None)
    ensures var u := Step(c, s, Revoke(i), now);
      u.tasks == s.tasks && |u.d.runs| == |s.d.runs| &&
      forall k :: 0 <= k < |s.d.runs| ==>
        RevokedRun(s.d.runs[k], u.d.runs[k], i) && (k in u.cancelled <==> k in s.cancelled || RunsFor(s.d.runs[k], i))
  {
    forall k | 0 <= k < |s.d.runs|
      ensures RevokedRun(s.d.runs[k], Step(c, s, Revoke(i), now).d.runs[k], i)
      ensures k in Step(c, s, Revoke(i), now).cancelled <==> k in s.cancelled || RunsFor(s.d.runs[k], i)
    {
      assert s.d.runs[k].status == Running ==> k in s.tasks;
    }
  }

  predicate RunsFor(r: Run, i: nat) {
    r.agent == i && r.status == Running
  }

  predicate RevokedRun(r: Run, q: Run, i: nat) {
    q == if r.agent == i && r.status == Queued then r.(status := Cancelled) else r
  }

  /** A live run is asked to stop, a queued one cancelled at once; on any other run nothing happens. */
  lemma CancelExactly(c: Config, s: Sys, id: nat, now: real)
    requires Safe(c, s)
    ensures var u := Step(c, s, Cancel(id), now);
      u.d.agents == s.d.agents && u.tasks == s.tasks && |u.d.runs| == |s.d.runs| &&
      u.cancelled == s.cancelled + (if id in s.tasks then {id} else {}) &&
      forall k :: 0 <= k < |s.d.runs| ==>
        u.d.runs[k] == if k == id && s.d.runs[k].status == Queued then s.d.runs[k].(status := Cancelled) else s.d.runs[k]
  {
  }

  /** A request: one queued row, exactly when the agent is active, has no run under way, and there are credentials. */
  lemma RequestExactly(c: Config, s: Sys, i: nat, creds: bool, now: real)
    ensures var u := Step(c, s, Request(i, creds), now);
      u == s.(d := u.d) && u.d.agents == s.d.agents &&
      u.d.runs == s.d.runs +
        if i < |s.d.agents| && s.d.agents[i].active && creds && !QueuedOrRunning(s.d.runs, i)
        then [Runs.Run(i, None, Queued, 0, now)] else []
  {
  }

  /** An alert: one row for an active event agent, skipped without credentials or while a run is under way. */
  lemma FireExactly(c: Config, s: Sys, i: nat, creds: bool, now: real)
    ensures var u := Step(c, s, Fire(i, creds), now);
      u == s.(d := u.d) && u.d.agents == s.d.agents &&
      u.d.runs == s.d.runs +
        if i < |s.d.agents| && s.d.agents[i].active && s.d.agents[i].trigger == OnEvent
        then [Runs.Run(i, None, if creds && !QueuedOrRunning(s.d.runs, i) then Queued else Skipped, 0, now)] else []
  {
  }

  /** When an agent is armed for: a cron agent for its next occurrence, a one-shot for its time until it has run. */
  lemma ArmedExactly(a: Agent, now: real)
    ensures NextFire(a, now) ==
      if a.active && a.trigger == OnCron && a.sched.Some? then Next(a.sched.value, now)
      else if a.active && a.trigger == Once && a.lastRun == None then a.onceAt
      else None
  {
  }

  /** A lifecycle operation: the row as rewritten, its last run kept, armed as above; a new agent has not run. */
  lemma EditedExactly(c: Config, s: Sys, i: nat, a: Agent, now: real)
    ensures var u, n := Step(c, s, Edit(i, a), now), if i < |s.d.agents| then i else |s.d.agents|;
      u.d.runs == s.d.runs && u.tasks == s.tasks && n < |u.d.agents| &&
      (forall j :: 0 <= j < |s.d.agents| && j != n ==> u.d.agents[j] == s.d.agents[j]) &&
      var b := a.(lastRun := if i < |s.d.agents| then s.d.agents[i].lastRun else None);
      u.d.agents[n] == b.(nextRun := NextFire(b, now))
  {
  }

  // ---- which queued runs are started ---------------------------------------------------

  /** Before the loop: nothing of this agent runs, and it is active and its owner may run it. */
  predicate Startable(s: Sys, allowed: set<nat>, live: set<nat>, id: nat) {
    id < |s.d.runs| && s.d.runs[id].status == Queued && s.d.runs[id].agent !in live &&
    s.d.runs[id].agent < |s.d.agents| && s.d.agents[s.d.runs[id].agent].active && s.d.runs[id].agent in allowed
  }

  /** A run that can never start: its agent is gone, not active, or its owner may not run it. */
  predicate Hopeless(s: Sys, allowed: set<nat>, id: nat) {
    id < |s.d.runs| && s.d.runs[id].status == Queued &&
    (s.d.runs[id].agent >= |s.d.agents| || !s.d.agents[s.d.runs[id].agent].active || s.d.runs[id].agent !in allowed)
  }

  /** Row `id` between before and after: started, cancelled, or as it was. */
  predicate RowMoved(s: Sys, u: Sys, allowed: set<nat>, live: set<nat>, id: nat)
    requires id < |s.d.runs| && id < |u.d.runs|
  {
    var r, q := s.d.runs[id], u.d.runs[id];
    (q == r && (id in u.tasks <==> id in s.tasks)) ||
    (q == r.(status := Running, runner := s.runner) && Startable(s, allowed, live, id) && id in u.tasks) ||
    (q == r.(status := Cancelled) && Hopeless(s, allowed, id) && (id in u.tasks <==> id in s.tasks))
  }

  /** Agent `i` between before and after: paused because its owner may not run it, or as it was. */
  ghost predicate AgentMoved(s: Sys, u: Sys, allowed: set<nat>, i: nat)
    requires i < |s.d.agents| && i < |u.d.agents|
  {
    u.d.agents[i] == s.d.agents[i] ||
    (i !in allowed && u.d.agents[i] == s.d.agents[i].(active := false, nextRun := None))
  }

  ghost predicate Moved(s: Sys, u: Sys, allowed: set<nat>, live: set<nat>) {
    |u.d.runs| == |s.d.runs| && |u.d.agents| == |s.d.agents| && u.runner == s.runner &&
    (forall k :: 0 <= k < |s.d.runs| ==> RowMoved(s, u, allowed, live, k)) &&
    (forall i :: 0 <= i < |s.d.agents| ==> AgentMoved(s, u, allowed, i))
  }

  lemma StartOneMoves(c: Config, s: Sys, live: set<nat>, id: nat, allowed: set<nat>)
    requires Safe(c, s) && id < |s.d.runs| && s.d.runs[id].status in {Queued, Cancelled}
    ensures Moved(s, StartOne(s, live, id, allowed).0, allowed, live)
    ensures live <= StartOne(s, live, id, allowed).1
  {
    var u := StartOne(s, live, id, allowed).0;
    forall k | 0 <= k < |s.d.runs| ensures RowMoved(s, u, allowed, live, k) {
      assert s.d.runs[k].status == Running ==> k in s.tasks;
      assert s.d.runs[k].status == Queued ==> k !in s.tasks;
    }
  }

  lemma RowMovedThen(s: Sys, m: Sys, u: Sys, allowed: set<nat>, live: set<nat>, live': set<nat>, k: nat)
    requires Moved(s, m, allowed, live) && Moved(m, u, allowed, live') && live <= live' && k < |s.d.runs|
    ensures RowMoved(s, u, allowed, live, k)
  {
    assert RowMoved(s, m, allowed, live, k) && RowMoved(m, u, allowed, live', k);
    var i := s.d.runs[k].agent;
    if i < |s.d.agents| {
      assert AgentMoved(s, m, allowed, i);
    }
  }

  lemma MovedThen(s: Sys, m: Sys, u: Sys, allowed: set<nat>, live: set<nat>, live': set<nat>)
    requires Moved(s, m, allowed, live) && Moved(m, u, allowed, live') && live <= live'
    ensures Moved(s, u, allowed, live)
  {
    forall k | 0 <= k < |s.d.runs| ensures RowMoved(s, u, allowed, live, k) {
      RowMovedThen(s, m, u, allowed, live, live', k);
    }
    forall i | 0 <= i < |s.d.agents| ensures AgentMoved(s, u, allowed, i) {
      assert AgentMoved(s, m, allowed, i) && AgentMoved(m, u, allowed, i);
    }
  }

  lemma NotMoved(s: Sys, allowed: set<nat>, live: set<nat>)
    ensures Moved(s, s, allowed, live)
  {
  }

  lemma {:induction false} StartLoopMoves(c: Config, s: Sys, live: set<nat>, queue: seq<nat>, allowed: set<nat>, clock: real)
    requires Inv(c, s, clock) && QueueOk(s, live, queue)
    ensures Moved(s, StartLoop(c, s, live, queue, allowed), allowed, live)
    decreases |queue|
  {
    if queue != [] && |s.tasks| < c.maxTasks {
      var id := queue[0];
      assert id in queue;
      var (m, live') := StartOne(s, live, id, allowed);
      StartOneKeeps(c, s, live, queue, allowed, clock);
      StartOneMoves(c, s, live, id, allowed);
      StartLoopMoves(c, m, live', queue[1..], allowed, clock);
      MovedThen(s, m, StartLoop(c, m, live', queue[1..], allowed), allowed, live, live');
    } else {
      NotMoved(s, allowed, live);
    }
  }

  // ---- the oldest run of an agent goes first -------------------------------------------

  /** Row `k` was queued and is running now. */
  predicate WasStarted(s: Sys, u: Sys, k: nat) {
    k < |s.d.runs| && k < |u.d.runs| && s.d.runs[k].status == Queued && u.d.runs[k].status == Running
  }

  /** Of two queued runs of an agent, the younger is never started before the older. */
  ghost predicate OldestFirst(s: Sys, u: Sys) {
    forall j: nat, k: nat :: j < k && WasStarted(s, u, k) && s.d.runs[j].status == Queued ==>
      s.d.runs[j].agent != s.d.runs[k].agent
  }

  /** Every queued run is still to come, or its agent is taken. */
  ghost predicate Covers(s: Sys, live: set<nat>, queue: seq<nat>) {
    StrictlyUp(queue) &&
    forall j :: 0 <= j < |s.d.runs| && s.d.runs[j].status == Queued ==> j in queue || s.d.runs[j].agent in live
  }

  lemma CoversRest(c: Config, s: Sys, live: set<nat>, queue: seq<nat>, allowed: set<nat>)
    requires Safe(c, s) && QueueOk(s, live, queue) && queue != [] && Covers(s, live, queue)
    ensures var (m, live') := StartOne(s, live, queue[0], allowed); Covers(m, live', queue[1..])
  {
    var id := queue[0];
    assert id in queue;
    var (m, live') := StartOne(s, live, id, allowed);
    StartOneMoves(c, s, live, id, allowed);
    StartOneRunning(c, s, live, id, allowed);
    forall j | 0 <= j < |m.d.runs| && m.d.runs[j].status == Queued ensures j in queue[1..] || m.d.runs[j].agent in live' {
      assert RowMoved(s, m, allowed, live, j);
    }
  }

  /** The head of the queue is the oldest queued run of its agent, if that agent is free. */
  lemma HeadIsOldest(s: Sys, live: set<nat>, queue: seq<nat>, j: nat)
    requires queue != [] && Covers(s, live, queue) && queue[0] < |s.d.runs| && s.d.runs[queue[0]].agent !in live
    requires j < queue[0] && s.d.runs[j].status == Queued
    ensures s.d.runs[j].agent != s.d.runs[queue[0]].agent
  {
    assert forall k :: 0 <= k < |queue| ==> queue[0] <= queue[k];
  }

  lemma {:induction false} StartLoopOldestFirst(c: Config, s: Sys, live: set<nat>, queue: seq<nat>, allowed: set<nat>, clock: real)
    requires Inv(c, s, clock) && QueueOk(s, live, queue) && Covers(s, live, queue)
    ensures OldestFirst(s, StartLoop(c, s, live, queue, allowed))
    decreases |queue|
  {
    if queue != [] && |s.tasks| < c.maxTasks {
      var id := queue[0];
      assert id in queue;
      var (m, live') := StartOne(s, live, id, allowed);
      var u := StartLoop(c, m, live', queue[1..], allowed);
      StartOneKeeps(c, s, live, queue, allowed, clock);
      CoversRest(c, s, live, queue, allowed);
      StartLoopOldestFirst(c, m, live', queue[1..], allowed, clock);
      StartLoopMoves(c, m, live', queue[1..], allowed, clock);
      StartOneMoves(c, s, live, id, allowed);
      StartOneRunning(c, s, live, id, allowed);
      forall j: nat, k: nat | j < k && WasStarted(s, u, k) && s.d.runs[j].status == Queued
        ensures s.d.runs[j].agent != s.d.runs[k].agent
      {
        OneStartInOrder(c, s, live, queue, m, live', u, allowed, j, k);
      }
    }
  }

  lemma OneStartInOrder(c: Config, s: Sys, live: set<nat>, queue: seq<nat>, m: Sys, live': set<nat>, u: Sys,
                        allowed: set<nat>, j: nat, k: nat)
    requires queue != [] && Covers(s, live, queue) && queue[0] < |s.d.runs|
    requires Moved(s, m, allowed, live) && Moved(m, u, allowed, live') && OldestFirst(m, u)
    requires m.d.runs[queue[0]].status == Running ==> s.d.runs[queue[0]].agent in live'
    requires forall i :: 0 <= i < |s.d.runs| && i != queue[0] ==> (m.d.runs[i].status == Running <==> s.d.runs[i].status == Running)
    requires j < k && WasStarted(s, u, k) && s.d.runs[j].status == Queued
    ensures s.d.runs[j].agent != s.d.runs[k].agent
  {
    assert RowMoved(s, m, allowed, live, j) && RowMoved(s, m, allowed, live, k) && RowMoved(m, u, allowed, live', k);
    if m.d.runs[k].status == Running {
      HeadIsOldest(s, live, queue, j);
    } else if s.d.runs[j].agent < |s.d.agents| {
      assert AgentMoved(s, m, allowed, s.d.runs[j].agent);
      assert WasStarted(m, u, k);
    }
  }

  /**
   `start_queued` on a safe system: a run is started only if it was queued, its agent active and allowed and
   nothing of it running; it is cancelled only if its agent cannot run; every other row stays; only agents that
   may not run are paused; and no run is started before an older one of its agent.
   */
  lemma StartsExactly(c: Config, s: Sys, allowed: set<nat>, clock: real, live: set<nat>)
    requires Inv(c, s, clock)
    requires forall i :: i in live <==> exists k :: 0 <= k < |s.d.runs| && s.d.runs[k].status == Running && s.d.runs[k].agent == i
    ensures Moved(s, Started(c, s, allowed), allowed, live) && OldestFirst(s, Started(c, s, allowed))
  {
    assert live == LiveAgents(s.d.runs);
    var queue := WithStatus(s.d.runs, Queued, |s.d.runs|);
    WithStatusDistinct(s.d.runs, Queued, |s.d.runs|);
    WithStatusUp(s.d.runs, Queued, |s.d.runs|);
    StartLoopMoves(c, s, live, queue, allowed, clock);
    StartLoopOldestFirst(c, s, live, queue, allowed, clock);
  }

  lemma {:induction false} WithStatusUp(t: Table, st: Status, n: nat)
    requires n <= |t|
    ensures StrictlyUp(WithStatus(t, st, n))
  {
    if n > 0 {
      WithStatusUp(t, st, n - 1);
      var ids := WithStatus(t, st, n - 1);
      assert forall j :: 0 <= j < |ids| ==> ids[j] in ids;
    }
  }

  /** Without credentials a tick starts nothing, and the rows it adds are skipped ones. */
  lemma HeldTickStartsNothing(c: Config, s: Sys, allowed: set<nat>, now: real, clock: real)
    requires Inv(c, s, clock) && clock <= now
    ensures var u := Step(c, s, Tick(false, allowed), now);
      u == s.(d := u.d) && s.d.runs <= u.d.runs &&
      forall k :: |s.d.runs| <= k < |u.d.runs| ==> u.d.runs[k].status == Skipped && u.d.runs[k].scheduledFor.Some?
  {
    HeldTurnsSkip(s.d, DueAmong(s.d.agents, now, |s.d.agents|), now, c.misfire);
  }

  lemma {:induction false} HeldTurnsSkip(d: Tables, ids: seq<nat>, now: real, misfire: real)
    ensures var e := Turns(d, ids, now, misfire, true).0;
      d.runs <= e.runs &&
      forall k :: |d.runs| <= k < |e.runs| ==> e.runs[k].status == Skipped && e.runs[k].scheduledFor.Some?
  {
    if ids != [] {
      HeldTurnsSkip(d, ids[..|ids| - 1], now, misfire);
    }
  }

  /**
   A tick with credentials in which no search raises leaves no queued run waiting for nothing: every task slot
   is used, or each queued run has an agent that is running something.
   */
  lemma TickLeavesNoneWaiting(c: Config, s: Sys, allowed: set<nat>, now: real, clock: real)
    requires Inv(c, s, clock) && clock <= now && forall i :: 0 <= i < |s.d.agents| ==> !Raises(s.d, i, now)
    ensures var u := Step(c, s, Tick(true, allowed), now);
      |u.tasks| >= c.maxTasks ||
      forall id :: 0 <= id < |u.d.runs| && u.d.runs[id].status == Queued ==>
        exists k :: 0 <= k < |u.d.runs| && u.d.runs[k].status == Running && u.d.runs[k].agent == u.d.runs[id].agent
  {
    var ids := DueAmong(s.d.agents, now, |s.d.agents|);
    DueAmongIsAllDue(s.d, now);
    TurnsRaiseExactly(s.d, ids, now, c.misfire, false);
    TurnsKeep(s.d, ids, now, c.misfire, false, clock);
    var e := Turns(s.d, ids, now, c.misfire, false).0;
    NothingStartsSafe(c, s, e);
    NoRunWaitsForNothing(c, s.(d := e), allowed, now);
  }
}
