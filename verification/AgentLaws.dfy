/**
 Who may do what to an agent, said on roles, projects and names: for each approval mode who can approve, over
 whole runs who put live what is live, and which changes of status there are.
 */
module AgentLaws {
  import opened Agents
  import opened Util

  // ---- roles and projects --------------------------------------------------------------

  /** Acting in no project in particular, or in the agent's own. */
  predicate SameSide(u: User, a: Agent) {
    u.project == None || u.project == Some(a.project)
  }

  /** An admin, or the owner if a dev. */
  predicate AdminOrOwner(u: User, a: Agent) {
    u.rank >= 2 || (u.rank >= 1 && u.email == a.owner)
  }

  /** An agent is missing for those who may not see it, read-only for those who may only see it. */
  lemma AccessExactly(c: Config, rows: seq<Agent>, u: User, op: Op, now: real)
    requires !op.OpCreate?
    ensures Written(c, rows, u, op, now) == Err(NotFound) <==>
            op.id >= |rows| || !SameSide(u, rows[op.id])
            || !(AdminOrOwner(u, rows[op.id]) || (c.viewerReadonly && u.rank >= 0))
    ensures Written(c, rows, u, op, now).Ok? ==>
            op.id < |rows| && SameSide(u, rows[op.id]) && AdminOrOwner(u, rows[op.id])
  {
    if op.id < |rows| {
      RowAccess(c, rows[op.id], u, op, now);
    }
  }

  lemma RowAccess(c: Config, a: Agent, u: User, op: Op, now: real)
    ensures Need(c, u, a) == Some(NotFound) <==>
            !SameSide(u, a) || !(AdminOrOwner(u, a) || (c.viewerReadonly && u.rank >= 0))
    ensures Need(c, u, a) == None <==> SameSide(u, a) && AdminOrOwner(u, a)
  {
  }

  // ---- the alert gate ------------------------------------------------------------------

  /** An external alert would start the agent and let the write rule `r` run unasked. */
  ghost predicate AlertRunsWrite(c: Config, d: Definition, r: string) {
    "trigger" in d && d["trigger"] == Text("event") &&
    "event" in d && d["event"].Text? && "alert" <= d["event"].text &&
    "auto_approve" in d && d["auto_approve"].Items? && r in d["auto_approve"].items && c.isWrite(r)
  }

  /** The gate: no such rule, or each of them on the record already, or an admin overrides now. */
  ghost predicate GateOpen(c: Config, u: User, d: Definition, recorded: Option<Override>, override: bool) {
    (override && u.rank >= 2) ||
    forall r :: AlertRunsWrite(c, d, r) ==> recorded.Some? && r in recorded.value.rules
  }

  lemma RuleIsListed(c: Config, d: Definition, r: string)
    ensures r in AlertWriteRules(c, d) <==> AlertRunsWrite(c, d, r)
  {
  }

  lemma GateExactly(c: Config, u: User, d: Definition, recorded: Option<Override>, override: bool)
    ensures Gate(c, u, d, recorded, override).Ok? <==> GateOpen(c, u, d, recorded, override)
  {
    forall r ensures r in AlertWriteRules(c, d) <==> AlertRunsWrite(c, d, r) {
      RuleIsListed(c, d, r);
    }
    var rules := AlertWriteRules(c, d);
    if rules != [] && !Covers(recorded, rules) {
      assert rules[0] in rules;
      assert !(recorded.Some? && forall r :: r in rules ==> r in recorded.value.rules);
    }
  }

  /** No live agent of any reachable table runs a write unasked on an alert, unless an admin has put it on record. */
  lemma LiveAlertsAreCovered(c: Config, ops: seq<(User, Op, real)>, i: nat, r: string)
    requires i < |Run(c, ops)| && Live(Run(c, ops)[i].status) && AlertRunsWrite(c, Run(c, ops)[i].def, r)
    ensures var o := Run(c, ops)[i].override;
      o.Some? && r in o.value.rules && o.value.author.rank >= 2
  {
    ReachableAgentsOk(c, ops);
    assert AgentOk(c, Run(c, ops)[i]);
    RuleIsListed(c, Run(c, ops)[i].def, r);
  }

  /** Some write rule that an alert would let run is on no record. */
  ghost predicate Uncovered(c: Config, a: Agent) {
    exists r :: AlertRunsWrite(c, a.def, r) && !(a.override.Some? && r in a.override.value.rules)
  }

  /**
   What runs unasked in a run, and what is held back: on an alert, while one write rule is on no record, all of
   the write rules wait for a human; otherwise nothing does.
   */
  lemma HeldBackExactly(c: Config, a: Agent, byEvent: bool, r: string)
    ensures r in RunAutoApprove(c, a, byEvent).1 <==> byEvent && AlertRunsWrite(c, a.def, r) && Uncovered(c, a)
    ensures r in RunAutoApprove(c, a, byEvent).0 <==>
            "auto_approve" in a.def && a.def["auto_approve"].Items? && r in a.def["auto_approve"].items &&
            !(byEvent && AlertRunsWrite(c, a.def, r) && Uncovered(c, a))
  {
    forall h ensures h in AlertWriteRules(c, a.def) <==> AlertRunsWrite(c, a.def, h) {
      RuleIsListed(c, a.def, h);
    }
    CoveredExactly(c, a, AlertWriteRules(c, a.def));
  }

  lemma CoveredExactly(c: Config, a: Agent, rules: seq<string>)
    requires forall h :: h in rules <==> AlertRunsWrite(c, a.def, h)
    ensures Uncovered(c, a) <==> rules != [] && !Covers(a.override, rules)
  {
    if rules != [] && !Covers(a.override, rules) {
      assert rules[0] in rules;
      assert !(a.override.Some? && forall r :: r in rules ==> r in a.override.value.rules);
    }
  }

  // ---- who can approve -----------------------------------------------------------------

  /** A change waits, or the agent is a draft or a proposal. */
  predicate Awaits(a: Agent) {
    a.pending != map[] || a.status == Pending || a.status == Draft
  }

  /** The author on record of what waits; the owner when none is. */
  function Author(a: Agent): string {
    if a.pending != map[] then (if a.pendingBy != "" then a.pendingBy else a.owner)
    else if a.proposedBy != "" then a.proposedBy else a.owner
  }

  /** Owner mode: the owner, if a dev, or an admin, of the agent's project or of none. */
  lemma OwnerModeExactly(c: Config, u: User, a: Agent, override: bool, valid: bool, now: real)
    requires c.mode == OwnerApproves
    ensures Approve(c, u, a, override, valid, now).Ok? <==>
            Awaits(a) && valid && SameSide(u, a) && (u.rank >= 2 || (u.rank >= 1 && u.email == a.owner)) &&
            GateOpen(c, u, a.def + a.pending, a.override, override)
  {
    GateExactly(c, u, a.def + a.pending, a.override, override);
    RowAccess(c, a, u, OpReject(0), now);
  }

  /** Admin mode: an admin of the agent's project or of none, the agent's owner included if an admin. */
  lemma AdminModeExactly(c: Config, u: User, a: Agent, override: bool, valid: bool, now: real)
    requires c.mode == AdminApproves
    ensures Approve(c, u, a, override, valid, now).Ok? <==>
            Awaits(a) && valid && SameSide(u, a) && u.rank >= 2 &&
            GateOpen(c, u, a.def + a.pending, a.override, override)
  {
    GateExactly(c, u, a.def + a.pending, a.override, override);
    RowAccess(c, a, u, OpReject(0), now);
  }

  /** Four-eyes mode: an admin of the agent's project or of none, neither its owner nor the author on record. */
  lemma FourEyesModeExactly(c: Config, u: User, a: Agent, override: bool, valid: bool, now: real)
    requires c.mode == FourEyes
    ensures Approve(c, u, a, override, valid, now).Ok? <==>
            Awaits(a) && valid && SameSide(u, a) && u.rank >= 2 && u.email != a.owner && u.email != Author(a) &&
            GateOpen(c, u, a.def + a.pending, a.override, override)
  {
    GateExactly(c, u, a.def + a.pending, a.override, override);
    RowAccess(c, a, u, OpReject(0), now);
  }

  /** What an accepted approval leaves: what waited applied, or the draft or proposal active; nothing waits any more. */
  lemma ApprovedExactly(c: Config, u: User, a: Agent, override: bool, valid: bool, now: real)
    requires Approve(c, u, a, override, valid, now).Ok?
    ensures var b := Approve(c, u, a, override, valid, now).value;
      b.def == a.def + a.pending && b.pending == map[] && b.approvedBy == u.email && b.approvedAt == Some(now) &&
      b.status == (if a.pending != map[] then a.status else Active) &&
      (b.override == a.override || (override && b.override.Some? && b.override.value.author == u)) &&
      b.nextRun == (if b.status == Active then c.nextFire(b.def, now) else None)
  {
  }

  /** Who can reject, and what that leaves: the waiting change dropped, or else the proposal a draft again. */
  lemma RejectExactly(c: Config, u: User, a: Agent)
    ensures Reject(c, u, a).Ok? <==>
            SameSide(u, a) && AdminOrOwner(u, a) && (a.pending != map[] || a.status == Pending)
    ensures Reject(c, u, a).Ok? ==>
      var b := Reject(c, u, a).value;
      b.pending == map[] && b.def == a.def && b.override == a.override &&
      b.status == if a.pending == map[] then Draft else a.status
  {
    RowAccess(c, a, u, OpReject(0), 0.0);
  }

  // ---- over whole runs: who put live what is live --------------------------------------

  type Ops = seq<(User, Op, real)>

  /** Who may put an agent live in a mode, on role, project and name. (The project "" stands for "default".) */
  predicate Authorised(mode: Mode, u: User, a: Agent) {
    (u.project == None || u.project == Some(a.project) || (u.project == Some("") && a.project == "default")) &&
    match mode
    case AdminApproves => u.rank >= 2
    case OwnerApproves => u.rank >= 2 || (u.rank >= 1 && u.email == a.owner)
    case FourEyes => u.rank >= 2 && u.email != a.owner
  }

  /**
   An accepted operation on row `i`, after which it is live: an approval, or one that makes it, wakes a draft or
   a proposal, or changes what runs.
   */
  ghost predicate GoesLive(c: Config, rows: seq<Agent>, u: User, op: Op, now: real, i: nat) {
    Written(c, rows, u, op, now).Ok? && Live(Written(c, rows, u, op, now).value.status) &&
    if op.OpCreate? then i == |rows|
    else i == op.id < |rows| &&
         (op.OpApprove? || !Live(rows[i].status) || Written(c, rows, u, op, now).value.def != rows[i].def)
  }

  /** In every mode, every accepted approval, activation and direct edit of a live agent is by someone authorised. */
  lemma OnlyAuthorisedGoLive(c: Config, rows: seq<Agent>, u: User, op: Op, now: real, i: nat)
    requires GoesLive(c, rows, u, op, now, i)
    ensures Authorised(c.mode, u, Written(c, rows, u, op, now).value)
    ensures c.mode == FourEyes ==> op.OpApprove? && u.email != Author(rows[i])
  {
    match op {
      case OpCreate(_, _, _, _, _) =>
      case OpUpdate(_, v, fromSession, override, valid) =>
        DirectEditExactly(c, u, rows[i], v, fromSession, override, valid, now);
      case OpApprove(_, override, valid) =>
      case OpReject(_) =>
      case OpStatus(_, _, _) =>
    }
  }

  ghost predicate GoesLiveAt(c: Config, ops: Ops, i: nat, k: nat) {
    k < |ops| && GoesLive(c, Run(c, ops[..k]), ops[k].0, ops[k].1, ops[k].2, i)
  }

  /**
   Operation `k` put live the definition that agent `i` has, as `a`; its author was authorised, and with four eyes
   approved what somebody else is on record for.
   */
  ghost predicate PutLiveBy(c: Config, ops: Ops, i: nat, k: nat, a: Agent) {
    GoesLiveAt(c, ops, i, k) && Authorised(c.mode, ops[k].0, a) &&
    i < |Run(c, ops[..k + 1])| && Run(c, ops[..k + 1])[i].def == a.def &&
    (c.mode == FourEyes ==>
       ops[k].1.OpApprove? && i < |Run(c, ops[..k])| && ops[k].0.email != Author(Run(c, ops[..k])[i]))
  }

  lemma RowStep(c: Config, rows: seq<Agent>, u: User, op: Op, now: real, i: nat)
    requires i < |Apply(c, rows, u, op, now)| && Live(Apply(c, rows, u, op, now)[i].status)
    requires !GoesLive(c, rows, u, op, now, i)
    ensures var a := Apply(c, rows, u, op, now)[i];
      i < |rows| && Live(rows[i].status) && a.def == rows[i].def && a.owner == rows[i].owner && a.project == rows[i].project
  {
    if !op.OpCreate? && op.id == i && i < |rows| && Written(c, rows, u, op, now).Ok? {
      RowKeeps(c, rows, u, op, now);
    }
  }

  /** An agent keeps its owner and its project. */
  lemma RowKeeps(c: Config, rows: seq<Agent>, u: User, op: Op, now: real)
    requires !op.OpCreate? && op.id < |rows| && Written(c, rows, u, op, now).Ok?
    ensures Written(c, rows, u, op, now).value.owner == rows[op.id].owner
    ensures Written(c, rows, u, op, now).value.project == rows[op.id].project
  {
  }

  /**
   Whatever runs was put live by someone authorised: for every live agent of every reachable table there is an
   operation of the run that made its present definition live, by an admin of its project or of none; where owners
   approve, also by its owner as a dev; with four eyes, by an approval of somebody else than its owner and than the
   author on record.
   */
  lemma {:induction false} WhatRunsWasAuthorised(c: Config, ops: Ops, i: nat)
    requires i < |Run(c, ops)| && Live(Run(c, ops)[i].status)
    ensures exists k: nat :: PutLiveBy(c, ops, i, k, Run(c, ops)[i])
  {
    var init, last := ops[..|ops| - 1], ops[|ops| - 1];
    var rows := Run(c, init);
    assert ops[..|init|] == init && ops[..|init| + 1] == ops;
    if GoesLive(c, rows, last.0, last.1, last.2, i) {
      OnlyAuthorisedGoLive(c, rows, last.0, last.1, last.2, i);
      assert PutLiveBy(c, ops, i, |init|, Run(c, ops)[i]);
    } else {
      RowStep(c, rows, last.0, last.1, last.2, i);
      WhatRunsWasAuthorised(c, init, i);
      var k: nat :| PutLiveBy(c, init, i, k, rows[i]);
      PutLiveFurther(c, ops, init, i, k, rows[i], Run(c, ops)[i]);
    }
  }

  lemma PutLiveFurther(c: Config, ops: Ops, init: Ops, i: nat, k: nat, a: Agent, b: Agent)
    requires ops != [] && init == ops[..|ops| - 1] && PutLiveBy(c, init, i, k, a)
    requires b.def == a.def && b.owner == a.owner && b.project == a.project
    ensures PutLiveBy(c, ops, i, k, b)
  {
    assert init[..k] == ops[..k] && init[k] == ops[k] && init[..k + 1] == ops[..k + 1];
  }

  // ---- edits and creations -------------------------------------------------------------

  /** Without review: a person's own edit, where owners approve, or where admins do and the person is one. */
  predicate Unreviewed(c: Config, u: User, fromSession: bool) {
    !fromSession && (c.mode == OwnerApproves || (c.mode == AdminApproves && u.rank >= 2))
  }

  /** An accepted edit of a live agent applies at once exactly when it needs no review; otherwise all of it waits. */
  lemma DirectEditExactly(c: Config, u: User, a: Agent, v: Definition, fromSession: bool, override: bool, valid: bool,
                          now: real)
    requires Update(c, u, a, v, fromSession, override, valid, now).Ok?
    ensures SameSide(u, a) && AdminOrOwner(u, a) && a.status != Archived && v != map[] && valid
    ensures var b := Update(c, u, a, v, fromSession, override, valid, now).value;
      if Live(a.status) && !Unreviewed(c, u, fromSession) then
        b.def == a.def && b.status == a.status && b.pending == a.pending + v && b.pendingBy == u.email
      else
        b.def == a.def + v && b.pending == a.pending &&
        b.status == if a.status == Draft && fromSession then Pending else a.status
    ensures Live(a.status) && Unreviewed(c, u, fromSession) ==> GateOpen(c, u, a.def + v, a.override, override)
  {
    GateExactly(c, u, a.def + v, a.override, override);
    RowAccess(c, a, u, OpReject(0), now);
  }

  /** A new agent: of the person who asks, in the project they act in; live at once only without review. */
  lemma NewAgentExactly(c: Config, u: User, v: Definition, activate: bool, proposal: bool, override: bool, valid: bool,
                        now: real)
    ensures Create(c, u, v, activate, proposal, override, valid, now).Ok? <==>
            u.rank >= 1 && valid &&
            (activate && !proposal && Unreviewed(c, u, false) ==> GateOpen(c, u, v, None, override))
    ensures Create(c, u, v, activate, proposal, override, valid, now).Ok? ==>
      var a := Create(c, u, v, activate, proposal, override, valid, now).value;
      a.def == v && a.owner == u.email && a.proposedBy == u.email && a.pending == map[] &&
      a.project == (if u.project.None? || u.project.value == "" then "default" else u.project.value) &&
      (a.status == Active <==> activate && !proposal && Unreviewed(c, u, false)) &&
      (a.status == Pending <==> proposal || (activate && !Unreviewed(c, u, false))) &&
      (a.status == Draft <==> !proposal && !activate)
  {
    GateExactly(c, u, v, None, override);
  }

  // ---- changes of status ---------------------------------------------------------------

  /** Pausing, resuming and archiving: who, from where, and that nothing else of the agent changes but what they drop. */
  lemma StatusChangeExactly(c: Config, u: User, a: Agent, to: Status, fromSession: bool, now: real)
    ensures SetStatus(c, u, a, to, fromSession, now).Ok? <==>
            SameSide(u, a) && AdminOrOwner(u, a) &&
            ((to == Paused && a.status == Active) ||
             (to == Active && a.status == Paused && (a.approvedAt.Some? || !fromSession)) || to == Archived)
    ensures SetStatus(c, u, a, to, fromSession, now).Ok? ==>
      var b := SetStatus(c, u, a, to, fromSession, now).value;
      b.status == to && b.def == a.def && b.override == a.override && b.approvedBy == a.approvedBy &&
      (to != Archived ==> b.pending == a.pending)
  {
    RowAccess(c, a, u, OpReject(0), now);
  }

  /** Where an operation can take an agent of status `from`, besides leaving it there. */
  function Next(from: Status): set<Status> {
    match from
    case Draft => {Pending, Active, Archived}
    case Pending => {Draft, Active, Archived}
    case Active => {Paused, Archived}
    case Paused => {Active, Archived}
    case Archived => {}
  }

  /** No operation takes an agent anywhere else; and only an approval wakes a draft or a proposal. */
  lemma StatusMoves(c: Config, rows: seq<Agent>, u: User, op: Op, now: real, i: nat)
    requires i < |rows| && AgentOk(c, rows[i])
    ensures i < |Apply(c, rows, u, op, now)|
    ensures var s := Apply(c, rows, u, op, now)[i].status;
      (s == rows[i].status || s in Next(rows[i].status)) &&
      (Live(s) && !Live(rows[i].status) ==> op.OpApprove? && s == Active)
  {
    if !op.OpCreate? && op.id == i && Written(c, rows, u, op, now).Ok? {
      RowMoves(c, rows[i], u, op, now);
    }
  }

  lemma RowMoves(c: Config, a: Agent, u: User, op: Op, now: real)
    requires AgentOk(c, a)
    ensures op.OpUpdate? ==>
      var w := Update(c, u, a, op.v, op.fromSession, op.override, op.valid, now);
      w.Ok? ==> w.value.status == a.status || (a.status == Draft && w.value.status == Pending)
    ensures op.OpApprove? ==>
      var w := Approve(c, u, a, op.override, op.valid, now);
      w.Ok? ==> w.value.status == a.status || (!Live(a.status) && a.status != Archived && w.value.status == Active)
    ensures op.OpReject? ==>
      var w := Reject(c, u, a);
      w.Ok? ==> w.value.status == a.status || (a.status == Pending && w.value.status == Draft)
    ensures op.OpStatus? ==>
      var w := SetStatus(c, u, a, op.to, op.fromSession, now);
      w.Ok? ==> w.value.status == a.status || (w.value.status in Next(a.status) && (Live(w.value.status) ==> Live(a.status)))
  {
  }
}
