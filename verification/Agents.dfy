/**
 The agent lifecycle: proposals, approvals, direct and reviewed edits, pausing and archiving,
 and the gate that keeps an external alert from steering unasked writes.
 */
module Agents {
  import opened Util

  datatype Status = Draft | Pending | Active | Paused | Archived

  datatype Value = Text(text: string) | Items(items: seq<string>)

  /** The editable fields of an agent. An absent field reads as empty. */
  type Definition = map<string, Value>

  /** The write rules an admin lets run on an alert; the record keeps the e-mail, the rest of `author` is history. */
  datatype Override = Override(author: User, rules: seq<string>)

  /** What was last put live, by an approval, an activation or a direct edit; by whom, and whose proposal it was. */
  datatype Approval = Approval(def: Definition, author: User, proposer: string)

  /**
   An agent row. `pending` is empty when no change waits. `last` and `writers` (whose edits wait for
   an approval: none has accepted them, no rejection or archiving has dropped them) are history, kept
   to state properties.
   */
  datatype Agent = Agent(owner: string, project: string, status: Status, def: Definition, proposedBy: string,
                         pending: Definition, pendingBy: string, approvedBy: string, approvedAt: Option<real>,
                         override: Option<Override>, nextRun: Option<real>,
                         last: Option<Approval>, writers: set<string>)

  datatype User = User(email: string, rank: int, project: Option<string>)

  const VIEWER := 0
  const DEV := 1
  const ADMIN := 2

  datatype Mode = OwnerApproves | AdminApproves | FourEyes

  /**
   The instance: approval mode, whether viewers see the Crew, which auto-approve rules let a
   write through, and the next scheduled time of a definition after an instant.
   */
  datatype Config = Config(mode: Mode, viewerReadonly: bool, isWrite: string -> bool,
                           nextFire: (Definition, real) -> Option<real>)

  datatype Error = NotFound | Forbidden | Refused

  predicate Live(s: Status) {
    s == Active || s == Paused
  }

  function TextAt(d: Definition, k: string): string {
    if k in d && d[k].Text? then d[k].text else ""
  }

  function ItemsAt(d: Definition, k: string): seq<string> {
    if k in d && d[k].Items? then d[k].items else []
  }

  // ---- access ------------------------------------------------------------------------

  predicate OtherProject(u: User, a: Agent) {
    u.project.Some? && u.project.value != a.project
  }

  predicate CanManage(u: User, a: Agent) {
    !OtherProject(u, a) && (u.rank >= ADMIN || (u.rank >= DEV && a.owner == u.email))
  }

  predicate CanRead(c: Config, u: User, a: Agent) {
    !OtherProject(u, a) &&
    (u.rank >= ADMIN || (u.rank >= DEV && a.owner == u.email) || (c.viewerReadonly && u.rank >= VIEWER))
  }

  function Need(c: Config, u: User, a: Agent): Option<Error> {
    if !CanRead(c, u, a) then Some(NotFound) else if !CanManage(u, a) then Some(Forbidden) else None
  }

  /** The project a person acts in: an agent they create lives there. */
  function Home(u: User): (p: string)
    ensures p != ""
  {
    if u.project.None? || u.project.value == "" then "default" else u.project.value
  }

  predicate SelfActivationAllowed(c: Config, u: User) {
    c.mode == OwnerApproves || (c.mode == AdminApproves && u.rank >= ADMIN)
  }

  /** Whose proposal waits; an empty record stands for the owner. */
  function Proposer(a: Agent): string {
    var p := if a.pending != map[] then a.pendingBy else a.proposedBy;
    if p == "" then a.owner else p
  }

  predicate ApprovalCheck(c: Config, u: User, a: Agent) {
    CanRead(c, u, a) && CanManage(u, a) &&
    (c.mode == AdminApproves ==> u.rank >= ADMIN) &&
    (c.mode == FourEyes ==> u.email != a.owner && u.email != Proposer(a))
  }

  // ---- the alert gate ----------------------------------------------------------------

  predicate AlertTriggered(d: Definition) {
    TextAt(d, "trigger") == "event" && "alert" <= TextAt(d, "event")
  }

  function Only(rules: seq<string>, keep: string -> bool): (r: seq<string>)
    ensures forall x :: x in r <==> x in rules && keep(x)
  {
    if rules == [] then []
    else if keep(rules[0]) then [rules[0]] + Only(rules[1..], keep) else Only(rules[1..], keep)
  }

  function AlertWriteRules(c: Config, d: Definition): seq<string> {
    if AlertTriggered(d) then Only(ItemsAt(d, "auto_approve"), c.isWrite) else []
  }

  predicate Covers(o: Option<Override>, rules: seq<string>) {
    rules != [] && o.Some? && forall r :: r in rules ==> r in o.value.rules
  }

  /** `_check_alert_writes`: the override to record, None to leave what is recorded. */
  function Gate(c: Config, u: User, d: Definition, recorded: Option<Override>, override: bool): Result<Option<Override>, Error> {
    var rules := AlertWriteRules(c, d);
    if rules == [] || Covers(recorded, rules) then Ok(None)
    else if override then
      if u.rank < ADMIN then Err(Forbidden) else Ok(Some(Override(u, rules)))
    else Err(Refused)
  }

  function Kept(o: Option<Override>, recorded: Option<Override>): Option<Override> {
    if o.Some? then o else recorded
  }

  function NextFire(c: Config, s: Status, d: Definition, now: real): Option<real> {
    if s == Active then c.nextFire(d, now) else None
  }

  // ---- operations --------------------------------------------------------------------

  /** `create`; `valid` says whether the fields, the trigger and the name passed validation. */
  function Create(c: Config, u: User, v: Definition, activate: bool, proposal: bool, override: bool, valid: bool,
                  now: real): Result<Agent, Error>
  {
    if u.rank < DEV then Err(Forbidden)
    else if !valid then Err(Refused)
    else
      var proposed := proposal || (activate && !SelfActivationAllowed(c, u));
      var status := if proposed then Pending else if activate then Active else Draft;
      var plain := Agent(u.email, Home(u), status, v, u.email, map[], "", "", None, None,
                         NextFire(c, status, v, now), None, {u.email});
      if status != Active then Ok(plain)
      else
        match Gate(c, u, v, None, override)
        case Err(e) => Err(e)
        case Ok(o) => Ok(plain.(override := o, approvedBy := u.email, approvedAt := Some(now),
                                last := Some(Approval(v, u, u.email)), writers := {}))
  }

  /** `update`: a direct edit, or a change that waits for review when the agent is live. */
  function Update(c: Config, u: User, a: Agent, v: Definition, fromSession: bool, override: bool,
                  valid: bool, now: real): Result<Agent, Error>
  {
    if Need(c, u, a).Some? then Err(Need(c, u, a).value)
    else if a.status == Archived || v == map[] || !valid then Err(Refused)
    else
      var reviewed := fromSession || !SelfActivationAllowed(c, u);
      if reviewed && Live(a.status) then
        Ok(a.(pending := a.pending + v, pendingBy := u.email, writers := a.writers + {u.email}))
      else if a.status == Pending then
        Ok(a.(def := a.def + v, proposedBy := u.email, nextRun := None, writers := a.writers + {u.email}))
      else
        var status := if fromSession && a.status == Draft then Pending else a.status;
        var edited := a.(def := a.def + v, status := status, nextRun := NextFire(c, status, a.def + v, now),
                         writers := a.writers + {u.email});
        if !Live(status) then Ok(edited)
        else
          match Gate(c, u, a.def + v, a.override, override)
          case Err(e) => Err(e)
          case Ok(o) => Ok(edited.(override := Kept(o, a.override), last := Some(Approval(a.def + v, u, u.email))))
  }

  /** `approve`: applies a waiting change, or activates a draft or a proposal. */
  function Approve(c: Config, u: User, a: Agent, override: bool, valid: bool, now: real): Result<Agent, Error> {
    if Need(c, u, a).Some? then Err(Need(c, u, a).value)
    else if !ApprovalCheck(c, u, a) then Err(Forbidden)
    else if a.pending == map[] && a.status != Pending && a.status != Draft then Err(Refused)
    else if !valid then Err(Refused)
    else
      var def := a.def + a.pending;
      var status := if a.pending != map[] then a.status else Active;
      match Gate(c, u, def, a.override, override)
      case Err(e) => Err(e)
      case Ok(o) => Ok(a.(status := status, def := def, pending := map[],
                          pendingBy := if a.pending != map[] then "" else a.pendingBy,
                          override := Kept(o, a.override), approvedBy := u.email, approvedAt := Some(now),
                          nextRun := NextFire(c, status, def, now),
                          last := Some(Approval(def, u, Proposer(a))), writers := {}))
  }

  function Reject(c: Config, u: User, a: Agent): Result<Agent, Error> {
    if Need(c, u, a).Some? then Err(Need(c, u, a).value)
    else if a.pending != map[] then Ok(a.(pending := map[], pendingBy := "", writers := {}))
    else if a.status != Pending then Err(Refused)
    else Ok(a.(status := Draft))
  }

  /** `set_status`: pause, resume or archive. */
  function SetStatus(c: Config, u: User, a: Agent, to: Status, fromSession: bool, now: real): Result<Agent, Error> {
    if Need(c, u, a).Some? then Err(Need(c, u, a).value)
    else if to == Paused then
      if a.status != Active then Err(Refused) else Ok(a.(status := Paused, nextRun := None))
    else if to == Active then
      if a.status != Paused then Err(Refused)
      else if fromSession && a.approvedAt.None? then Err(Forbidden)
      else Ok(a.(status := Active, nextRun := NextFire(c, Active, a.def, now)))
    else if to == Archived then
      if a.status == Archived then Ok(a) else Ok(a.(status := Archived, nextRun := None, pending := map[], writers := {}))
    else Err(Refused)
  }

  // ---- the table ---------------------------------------------------------------------

  datatype Op =
    | OpCreate(v: Definition, activate: bool, proposal: bool, override: bool, valid: bool)
    | OpUpdate(id: nat, v: Definition, fromSession: bool, override: bool, valid: bool)
    | OpApprove(id: nat, override: bool, valid: bool)
    | OpReject(id: nat)
    | OpStatus(id: nat, to: Status, fromSession: bool)

  /** The row an operation writes; an unknown id is not found. */
  function Written(c: Config, rows: seq<Agent>, u: User, op: Op, now: real): Result<Agent, Error> {
    if op.OpCreate? then Create(c, u, op.v, op.activate, op.proposal, op.override, op.valid, now)
    else if op.id >= |rows| then Err(NotFound)
    else
      match op
      case OpUpdate(id, v, fromSession, override, valid) => Update(c, u, rows[id], v, fromSession, override, valid, now)
      case OpApprove(id, override, valid) => Approve(c, u, rows[id], override, valid, now)
      case OpReject(id) => Reject(c, u, rows[id])
      case OpStatus(id, to, fromSession) => SetStatus(c, u, rows[id], to, fromSession, now)
  }

  function Apply(c: Config, rows: seq<Agent>, u: User, op: Op, now: real): seq<Agent> {
    match Written(c, rows, u, op, now)
    case Err(_) => rows
    case Ok(a) => if op.OpCreate? then rows + [a] else rows[op.id := a]
  }

  /** A refusal changes nothing; otherwise row `i` is what is returned, and no other row has changed. */
  predicate Wrote(was: seq<Agent>, now: seq<Agent>, i: nat, r: Result<Agent, Error>) {
    match r
    case Err(_) => now == was
    case Ok(a) =>
      i <= |was| && |now| == (if i == |was| then |was| + 1 else |was|) && now[i] == a &&
      forall k :: 0 <= k < |was| && k != i ==> now[k] == was[k]
  }

  /** The `agents` table; an agent's id is its position. */
  class Crew {
    const config: Config
    var rows: seq<Agent>

    constructor (config: Config)
      ensures this.config == config && rows == []
    {
      this.config, rows := config, [];
    }

    /** The row `id`, a new one or one that exists. */
    method Put(id: nat, a: Agent)
      requires id <= |rows|
      modifies this
      ensures Wrote(old(rows), rows, id, Ok(a))
    {
      rows := if id == |rows| then rows + [a] else rows[id := a];
    }

    /** `create`. */
    method CreateAgent(u: User, v: Definition, activate: bool, proposal: bool, override: bool, valid: bool,
                       now: real) returns (r: Result<Agent, Error>)
      modifies this
      ensures r == Create(config, u, v, activate, proposal, override, valid, now)
      ensures Wrote(old(rows), rows, |old(rows)|, r)
    {
      if u.rank < DEV {
        return Err(Forbidden);
      }
      if !valid {
        return Err(Refused);
      }
      var proposed := proposal;
      if activate && !proposal && !SelfActivationAllowed(config, u) {
        proposed := true;
      }
      var status := if proposed then Pending else if activate then Active else Draft;
      var project := "default";
      if u.project.Some? && u.project.value != "" {
        project := u.project.value;
      }
      var a := Agent(u.email, project, status, v, u.email, map[], "", "", None, None, None, None, {u.email});
      if status == Active {
        match Gate(config, u, v, None, override) {
          case Err(e) => return Err(e);
          case Ok(o) => a := a.(override := o);
        }
        a := a.(approvedBy := u.email, approvedAt := Some(now), last := Some(Approval(v, u, u.email)), writers := {});
      }
      a := a.(nextRun := NextFire(config, status, v, now));
      Put(|rows|, a);
      return Ok(a);
    }

    /** `update`. */
    method UpdateAgent(u: User, id: nat, v: Definition, fromSession: bool, override: bool, valid: bool, now: real)
      returns (r: Result<Agent, Error>)
      modifies this
      ensures r == if id < |old(rows)| then Update(config, u, old(rows)[id], v, fromSession, override, valid, now)
                   else Err(NotFound)
      ensures Wrote(old(rows), rows, id, r)
    {
      if id >= |rows| {
        return Err(NotFound);
      }
      var a := rows[id];
      if Need(config, u, a).Some? {
        return Err(Need(config, u, a).value);
      }
      if a.status == Archived || v == map[] || !valid {
        return Err(Refused);
      }
      a := a.(writers := a.writers + {u.email});
      if (fromSession || !SelfActivationAllowed(config, u)) && (a.status == Active || a.status == Paused) {
        a := a.(pending := a.pending + v, pendingBy := u.email);
        Put(id, a);
        return Ok(a);
      }
      if a.status == Pending {
        a := a.(def := a.def + v, proposedBy := u.email, nextRun := None);
        Put(id, a);
        return Ok(a);
      }
      a := a.(def := a.def + v);
      if fromSession && a.status == Draft {
        a := a.(status := Pending);
      }
      if a.status == Active || a.status == Paused {
        match Gate(config, u, a.def, a.override, override) {
          case Err(e) => return Err(e);
          case Ok(o) =>
            if o.Some? {
              a := a.(override := o);
            }
        }
        a := a.(last := Some(Approval(a.def, u, u.email)));
      }
      a := a.(nextRun := NextFire(config, a.status, a.def, now));
      Put(id, a);
      return Ok(a);
    }

    /** `approve`. */
    method ApproveAgent(u: User, id: nat, override: bool, valid: bool, now: real) returns (r: Result<Agent, Error>)
      modifies this
      ensures r == if id < |old(rows)| then Approve(config, u, old(rows)[id], override, valid, now) else Err(NotFound)
      ensures Wrote(old(rows), rows, id, r)
    {
      if id >= |rows| {
        return Err(NotFound);
      }
      var a := rows[id];
      if Need(config, u, a).Some? {
        return Err(Need(config, u, a).value);
      }
      if !ApprovalCheck(config, u, a) {
        return Err(Forbidden);
      }
      var proposer := Proposer(a);
      if a.pending != map[] {
        a := a.(def := a.def + a.pending, pending := map[], pendingBy := "");
      } else if a.status == Pending || a.status == Draft {
        a := a.(status := Active);
        assert a.def + a.pending == a.def;
      } else {
        return Err(Refused);
      }
      if !valid {
        return Err(Refused);
      }
      match Gate(config, u, a.def, a.override, override) {
        case Err(e) => return Err(e);
        case Ok(o) =>
          if o.Some? {
            a := a.(override := o);
          }
      }
      a := a.(approvedBy := u.email, approvedAt := Some(now), nextRun := NextFire(config, a.status, a.def, now),
              last := Some(Approval(a.def, u, proposer)), writers := {});
      Put(id, a);
      return Ok(a);
    }

    /** `reject`. */
    method RejectAgent(u: User, id: nat) returns (r: Result<Agent, Error>)
      modifies this
      ensures r == if id < |old(rows)| then Reject(config, u, old(rows)[id]) else Err(NotFound)
      ensures Wrote(old(rows), rows, id, r)
    {
      if id >= |rows| {
        return Err(NotFound);
      }
      var a := rows[id];
      if Need(config, u, a).Some? {
        return Err(Need(config, u, a).value);
      }
      if a.pending != map[] {
        a := a.(pending := map[], pendingBy := "", writers := {});
      } else if a.status == Pending {
        a := a.(status := Draft);
      } else {
        return Err(Refused);
      }
      Put(id, a);
      return Ok(a);
    }

    /** `set_status`. */
    method ChangeStatus(u: User, id: nat, to: Status, fromSession: bool, now: real) returns (r: Result<Agent, Error>)
      modifies this
      ensures r == if id < |old(rows)| then SetStatus(config, u, old(rows)[id], to, fromSession, now) else Err(NotFound)
      ensures Wrote(old(rows), rows, id, r)
    {
      if id >= |rows| {
        return Err(NotFound);
      }
      var a := rows[id];
      if Need(config, u, a).Some? {
        return Err(Need(config, u, a).value);
      }
      match to {
        case Paused =>
          if a.status != Active {
            return Err(Refused);
          }
          a := a.(status := Paused, nextRun := None);
        case Active =>
          if a.status != Paused {
            return Err(Refused);
          }
          if fromSession && a.approvedAt.None? {
            return Err(Forbidden);
          }
          a := a.(status := Active, nextRun := NextFire(config, Active, a.def, now));
        case Archived =>
          if a.status == Archived {
            return Ok(a);
          }
          a := a.(status := Archived, nextRun := None, pending := map[], writers := {});
        case _ =>
          return Err(Refused);
      }
      Put(id, a);
      return Ok(a);
    }

    /** Any operation: what it writes, and that it writes one row at most. */
    method Perform(u: User, op: Op, now: real) returns (r: Result<Agent, Error>)
      modifies this
      ensures r == Written(config, old(rows), u, op, now)
      ensures rows == Apply(config, old(rows), u, op, now)
      ensures Wrote(old(rows), rows, if op.OpCreate? then |old(rows)| else op.id, r)
    {
      match op {
        case OpCreate(v, activate, proposal, override, valid) =>
          r := CreateAgent(u, v, activate, proposal, override, valid, now);
        case OpUpdate(id, v, fromSession, override, valid) =>
          r := UpdateAgent(u, id, v, fromSession, override, valid, now);
        case OpApprove(id, override, valid) =>
          r := ApproveAgent(u, id, override, valid, now);
        case OpReject(id) =>
          r := RejectAgent(u, id);
        case OpStatus(id, to, fromSession) =>
          r := ChangeStatus(u, id, to, fromSession, now);
      }
    }
  }

  // ---- what every reachable agent satisfies ------------------------------------------

  /** A live agent auto-approves no write on an alert unless its recorded override covers it. */
  predicate AlertsCovered(c: Config, a: Agent) {
    var rules := AlertWriteRules(c, a.def);
    rules == [] || Covers(a.override, rules)
  }

  predicate InProject(u: User, project: string) {
    u.project.None? || Home(u) == project
  }

  /** Who may put an agent live: an admin of its project or of none; where owners approve, its owner too. */
  predicate MayPutLive(mode: Mode, u: User, owner: string, project: string) {
    InProject(u, project) && (u.rank >= ADMIN || (mode == OwnerApproves && u.rank >= DEV && u.email == owner))
  }

  /**
   What is live was put live by someone who may; in four-eyes mode by the one on record, who is neither the
   owner nor the last proposer.
   */
  predicate PutLiveRightly(mode: Mode, a: Agent) {
    a.last.Some? && a.last.value.def == a.def && MayPutLive(mode, a.last.value.author, a.owner, a.project) &&
    (mode == FourEyes ==> a.last.value.author.email == a.approvedBy && a.approvedBy != a.owner &&
                          a.approvedBy != a.last.value.proposer)
  }

  predicate OverriddenByAdmin(a: Agent) {
    a.override.Some? ==> a.override.value.author.rank >= ADMIN && InProject(a.override.value.author, a.project)
  }

  predicate AgentOk(c: Config, a: Agent) {
    (Live(a.status) ==> a.approvedAt.Some? && AlertsCovered(c, a) && PutLiveRightly(c.mode, a)) &&
    OverriddenByAdmin(a) && a.project != "" &&
    (a.pending != map[] ==> Live(a.status)) &&
    (a.nextRun.Some? ==> a.status == Active)
  }

  lemma GateCovers(c: Config, u: User, d: Definition, recorded: Option<Override>, override: bool)
    requires Gate(c, u, d, recorded, override).Ok?
    ensures var o := Kept(Gate(c, u, d, recorded, override).value, recorded);
      AlertWriteRules(c, d) == [] || Covers(o, AlertWriteRules(c, d))
  {
  }

  lemma CreateOk(c: Config, u: User, v: Definition, activate: bool, proposal: bool, override: bool, valid: bool, now: real)
    ensures var r := Create(c, u, v, activate, proposal, override, valid, now);
      r.Ok? ==> AgentOk(c, r.value)
  {
    if Gate(c, u, v, None, override).Ok? {
      GateCovers(c, u, v, None, override);
    }
  }

  lemma UpdateOk(c: Config, u: User, a: Agent, v: Definition, fromSession: bool, override: bool, valid: bool, now: real)
    requires AgentOk(c, a)
    ensures var r := Update(c, u, a, v, fromSession, override, valid, now);
      r.Ok? ==> AgentOk(c, r.value)
  {
    var r := Update(c, u, a, v, fromSession, override, valid, now);
    if r.Ok? && r.value.def != a.def && Live(a.status) {
      DirectEditOk(c, u, a, a.def + v, override, r.value);
    }
  }

  /** A live agent keeps the invariants when its definition becomes `d`, past the gate, by someone who may. */
  lemma DirectEditOk(c: Config, u: User, a: Agent, d: Definition, override: bool, b: Agent)
    requires AgentOk(c, a) && Live(a.status) && CanManage(u, a) && SelfActivationAllowed(c, u)
    requires Gate(c, u, d, a.override, override).Ok?
    requires b == a.(def := d, nextRun := b.nextRun, writers := b.writers, last := Some(Approval(d, u, u.email)),
                     override := Kept(Gate(c, u, d, a.override, override).value, a.override))
    requires b.nextRun.Some? ==> b.status == Active
    ensures AgentOk(c, b)
  {
    GateCovers(c, u, d, a.override, override);
  }

  lemma ApproveOk(c: Config, u: User, a: Agent, override: bool, valid: bool, now: real)
    requires AgentOk(c, a)
    ensures var r := Approve(c, u, a, override, valid, now);
      r.Ok? ==> AgentOk(c, r.value) && r.value.last == Some(Approval(r.value.def, u, Proposer(a)))
  {
    if Gate(c, u, a.def + a.pending, a.override, override).Ok? {
      GateCovers(c, u, a.def + a.pending, a.override, override);
    }
  }

  lemma ApplyOk(c: Config, rows: seq<Agent>, u: User, op: Op, now: real)
    requires forall i :: 0 <= i < |rows| ==> AgentOk(c, rows[i])
    ensures forall i :: 0 <= i < |Apply(c, rows, u, op, now)| ==> AgentOk(c, Apply(c, rows, u, op, now)[i])
  {
    match op {
      case OpCreate(v, activate, proposal, override, valid) =>
        CreateOk(c, u, v, activate, proposal, override, valid, now);
      case OpUpdate(id, v, fromSession, override, valid) =>
        if id < |rows| {
          UpdateOk(c, u, rows[id], v, fromSession, override, valid, now);
        }
      case OpApprove(id, override, valid) =>
        if id < |rows| {
          ApproveOk(c, u, rows[id], override, valid, now);
        }
      case OpReject(id) =>
      case OpStatus(id, to, fromSession) =>
    }
  }

  /** The tables reached by a run: who does what, and when. */
  ghost function Run(c: Config, ops: seq<(User, Op, real)>): seq<Agent> {
    if ops == [] then []
    else
      var last := ops[|ops| - 1];
      Apply(c, Run(c, ops[..|ops| - 1]), last.0, last.1, last.2)
  }

  /** The lifecycle invariants hold of every agent of every reachable table, in every approval mode. */
  lemma {:induction false} ReachableAgentsOk(c: Config, ops: seq<(User, Op, real)>)
    ensures forall i :: 0 <= i < |Run(c, ops)| ==> AgentOk(c, Run(c, ops)[i])
  {
    if ops != [] {
      var last := ops[|ops| - 1];
      ReachableAgentsOk(c, ops[..|ops| - 1]);
      ApplyOk(c, Run(c, ops[..|ops| - 1]), last.0, last.1, last.2);
    }
  }

  /** Archived is terminal: no operation changes an archived row. */
  lemma ArchivedStays(c: Config, rows: seq<Agent>, u: User, op: Op, now: real, i: nat)
    requires i < |rows| && rows[i].status == Archived && AgentOk(c, rows[i])
    ensures i < |Apply(c, rows, u, op, now)| && Apply(c, rows, u, op, now)[i] == rows[i]
  {
    assert rows[i].pending == map[];
  }

  lemma {:induction false} ArchivedForever(c: Config, before: seq<(User, Op, real)>, after: seq<(User, Op, real)>, i: nat)
    requires i < |Run(c, before)| && Run(c, before)[i].status == Archived
    ensures i < |Run(c, before + after)| && Run(c, before + after)[i] == Run(c, before)[i]
  {
    if after == [] {
      assert before + after == before;
    } else {
      var init, last := after[..|after| - 1], after[|after| - 1];
      ArchivedForever(c, before, init, i);
      assert (before + after)[..|before + after| - 1] == before + init;
      ReachableAgentsOk(c, before + init);
      ArchivedStays(c, Run(c, before + init), last.0, last.1, last.2, i);
    }
  }

  // ---- changes that wait for review ---------------------------------------------------

  /** An edit of a live agent that needs review leaves what runs as it is: its definition, status and next run. */
  lemma ReviewedEditWaits(c: Config, u: User, a: Agent, v: Definition, fromSession: bool, override: bool,
                          valid: bool, now: real)
    requires Live(a.status) && (fromSession || !SelfActivationAllowed(c, u))
    requires Update(c, u, a, v, fromSession, override, valid, now).Ok?
    ensures var b := Update(c, u, a, v, fromSession, override, valid, now).value;
      b.def == a.def && b.status == a.status && b.nextRun == a.nextRun && b.override == a.override &&
      b.pending != map[] && forall k :: k in v ==> k in b.pending && b.pending[k] == v[k]
  {
    var b := Update(c, u, a, v, fromSession, override, valid, now).value;
    var k :| k in v;
    assert k in b.pending;
  }

  /** What an approval puts in the place of field `k`: the latest edit, else an earlier one that waits, else what runs. */
  function Expected(a: Agent, v: Definition, k: string): Option<Value> {
    if k in v then Some(v[k])
    else if k in a.pending then Some(a.pending[k])
    else if k in a.def then Some(a.def[k])
    else None
  }

  /** A reviewed edit that is then approved goes live field by field, and the agent is armed for the new definition. */
  lemma ApprovedEditGoesLive(c: Config, u: User, w: User, a: Agent, v: Definition, fromSession: bool, override: bool,
                             override': bool, valid: bool, now: real, then_: real, k: string)
    requires Live(a.status) && (fromSession || !SelfActivationAllowed(c, u))
    requires Update(c, u, a, v, fromSession, override, valid, now).Ok?
    requires Approve(c, w, Update(c, u, a, v, fromSession, override, valid, now).value, override', true, then_).Ok?
    ensures var e := Approve(c, w, Update(c, u, a, v, fromSession, override, valid, now).value, override', true, then_).value;
      (k in e.def <==> Expected(a, v, k).Some?) && (k in e.def ==> Some(e.def[k]) == Expected(a, v, k)) &&
      e.pending == map[] && e.status == a.status && e.nextRun == NextFire(c, e.status, e.def, then_)
  {
    ReviewedEditWaits(c, u, a, v, fromSession, override, valid, now);
  }

  /** A first reviewed edit that is then rejected leaves the agent as it was, history aside. */
  lemma RejectedEditLeavesNoTrace(c: Config, u: User, w: User, a: Agent, v: Definition, fromSession: bool, override: bool,
                                  valid: bool, now: real)
    requires Live(a.status) && (fromSession || !SelfActivationAllowed(c, u)) && a.pending == map[] && a.pendingBy == ""
    requires Update(c, u, a, v, fromSession, override, valid, now).Ok?
    requires CanRead(c, w, a) && CanManage(w, a)
    ensures var b := Update(c, u, a, v, fromSession, override, valid, now).value;
      Reject(c, w, b).Ok? && Reject(c, w, b).value.(writers := a.writers) == a
  {
    ReviewedEditWaits(c, u, a, v, fromSession, override, valid, now);
  }

  /** Whatever makes or keeps an agent active arms it for its definition, or leaves both as they were. */
  lemma ActiveIsArmedForItsDefinition(c: Config, rows: seq<Agent>, u: User, op: Op, now: real)
    requires Written(c, rows, u, op, now).Ok? && Written(c, rows, u, op, now).value.status == Active
    ensures var r := Written(c, rows, u, op, now).value;
      r.nextRun == c.nextFire(r.def, now) ||
      (!op.OpCreate? && op.id < |rows| && rows[op.id].status == Active && r.def == rows[op.id].def
       && r.nextRun == rows[op.id].nextRun)
  {
  }

  // ---- what four eyes does and does not promise --------------------------------------

  /**
   In four-eyes mode the check compares the approver with the owner and the last proposer only.
   It keeps everyone who wrote part of what waits from approving it exactly when there is no
   other writer.
   */
  lemma FourEyesExactly(c: Config, a: Agent)
    requires c.mode == FourEyes
    ensures (forall u :: ApprovalCheck(c, u, a) ==> u.email !in a.writers) <==> a.writers <= {a.owner, Proposer(a)}
  {
    if w :| w in a.writers && w != a.owner && w != Proposer(a) {
      assert ApprovalCheck(c, User(w, ADMIN, None), a);
    }
  }

  // ---- runs started by an alert ------------------------------------------------------

  /** `run_auto_approve`: the rules that run unasked, and the write rules held back. */
  function RunAutoApprove(c: Config, a: Agent, byEvent: bool): (seq<string>, seq<string>) {
    var rules := ItemsAt(a.def, "auto_approve");
    if !byEvent || !AlertTriggered(a.def) then (rules, [])
    else
      var held := AlertWriteRules(c, a.def);
      if held == [] || Covers(a.override, held) then (rules, [])
      else (Only(rules, r => r !in held), held)
  }

  /** On a reachable live agent nothing is held back. */
  lemma NothingHeldBack(c: Config, ops: seq<(User, Op, real)>, i: nat, byEvent: bool)
    requires i < |Run(c, ops)| && Live(Run(c, ops)[i].status)
    ensures RunAutoApprove(c, Run(c, ops)[i], byEvent) == (ItemsAt(Run(c, ops)[i].def, "auto_approve"), [])
  {
    ReachableAgentsOk(c, ops);
    assert AgentOk(c, Run(c, ops)[i]);
  }

  /** On any agent, a write rule that no override covers never runs unasked on an alert. */
  lemma UncoveredWritesAreHeld(c: Config, a: Agent, r: string)
    requires AlertTriggered(a.def) && r in RunAutoApprove(c, a, true).0 && c.isWrite(r)
    ensures a.override.Some? && r in a.override.value.rules
  {
  }
}
