/**
 The `runs` table: inserts are unique per scheduled occurrence, a claim is an atomic
 conditional update. Any number of schedulers may share it.
 */
module Runs {
  import opened Util

  datatype Status = Queued | Running | Succeeded | Incomplete | Failed | Timeout | Budget | Interrupted | Cancelled | Skipped

  predicate Final(s: Status) {
    s != Queued && s != Running
  }

  /** A run; its id is its position in the table. */
  datatype Run = Run(agent: nat, scheduledFor: Option<real>, status: Status, runner: nat, createdAt: real)

  type Table = seq<Run>

  predicate Taken(t: Table, agent: nat, at: Option<real>) {
    at.Some? && exists i :: 0 <= i < |t| && t[i].agent == agent && t[i].scheduledFor == at
  }

  /** `enqueue_run`: INSERT OR IGNORE under UNIQUE(agent_id, scheduled_for). */
  function Enqueue(t: Table, agent: nat, at: Option<real>, status: Status, now: real): Table {
    if Taken(t, agent, at) then t else t + [Run(agent, at, status, 0, now)]
  }

  /** `active_run`. */
  predicate HasActive(t: Table, agent: nat) {
    exists i :: 0 <= i < |t| && t[i].agent == agent && !Final(t[i].status)
  }

  predicate Claimable(t: Table, id: nat) {
    id < |t| && t[id].status == Queued
  }

  /** `claim_run`: queued to running, or nothing. */
  function Claim(t: Table, id: nat, runner: nat): Table {
    if Claimable(t, id) then t[id := t[id].(status := Running, runner := runner)] else t
  }

  /** `update_run` with a status; unconditional. */
  function SetStatus(t: Table, id: nat, s: Status): Table {
    if id < |t| then t[id := t[id].(status := s)] else t
  }

  // ---- several schedulers ------------------------------------------------------------

  datatype StoreOp = Insert(agent: nat, at: Option<real>, status: Status, now: real)
                   | Grab(id: nat, runner: nat)
                   | Finish(id: nat, status: Status)

  predicate StoreOpOk(op: StoreOp) {
    match op
    case Insert(_, _, s, _) => s == Queued || s == Skipped
    case Grab(_, _) => true
    case Finish(_, s) => Final(s)
  }

  function ApplyStore(t: Table, op: StoreOp): Table {
    match op
    case Insert(agent, at, s, now) => Enqueue(t, agent, at, s, now)
    case Grab(id, runner) => Claim(t, id, runner)
    case Finish(id, s) => SetStatus(t, id, s)
  }

  ghost function RunStore(ops: seq<StoreOp>): Table {
    if ops == [] then [] else ApplyStore(RunStore(ops[..|ops| - 1]), ops[|ops| - 1])
  }

  /** How many of the operations are successful claims of `id`. */
  ghost function Claims(ops: seq<StoreOp>, id: nat): nat {
    if ops == [] then 0
    else
      var init, last := ops[..|ops| - 1], ops[|ops| - 1];
      Claims(init, id) + (if last.Grab? && last.id == id && Claimable(RunStore(init), id) then 1 else 0)
  }

  ghost predicate UniqueOccurrences(t: Table) {
    forall i, j :: 0 <= i < j < |t| && t[i].agent == t[j].agent && t[i].scheduledFor.Some? ==>
      t[i].scheduledFor != t[j].scheduledFor
  }

  /** Whatever the schedulers do, no occurrence has two rows. */
  lemma {:induction false} NoOccurrenceTwice(ops: seq<StoreOp>)
    ensures UniqueOccurrences(RunStore(ops))
  {
    if ops != [] {
      NoOccurrenceTwice(ops[..|ops| - 1]);
    }
  }

  /** Whatever the schedulers do, no run is claimed twice. */
  lemma {:induction false} NoRunClaimedTwice(ops: seq<StoreOp>, id: nat)
    requires forall k :: 0 <= k < |ops| ==> StoreOpOk(ops[k])
    ensures Claims(ops, id) <= 1
    ensures Claims(ops, id) == 1 ==> id < |RunStore(ops)| && RunStore(ops)[id].status != Queued
  {
    if ops != [] {
      var init, last := ops[..|ops| - 1], ops[|ops| - 1];
      assert StoreOpOk(last);
      NoRunClaimedTwice(init, id);
    }
  }

  // ---- how rows may evolve under one scheduler ---------------------------------------

  /** Queued, then running or final; running, then final; final for ever. */
  predicate Allowed(s: Status, t: Status) {
    s == t || s == Queued || (s == Running && Final(t))
  }

  predicate RowEvolves(r: Run, q: Run) {
    r.agent == q.agent && r.scheduledFor == q.scheduledFor && r.createdAt == q.createdAt && Allowed(r.status, q.status)
  }

  ghost predicate Evolves(t: Table, u: Table) {
    |t| <= |u| && forall i :: 0 <= i < |t| ==> RowEvolves(t[i], u[i])
  }

  lemma EvolvesTransitive(t: Table, u: Table, v: Table)
    requires Evolves(t, u) && Evolves(u, v)
    ensures Evolves(t, v)
  {
    forall i | 0 <= i < |t| ensures RowEvolves(t[i], v[i]) {
      assert RowEvolves(t[i], u[i]) && RowEvolves(u[i], v[i]);
    }
  }
}
