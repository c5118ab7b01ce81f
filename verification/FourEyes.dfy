/**
 What four-eyes approval promises, over whole runs: when the person who approves can be one of those
 who wrote what is approved. The check knows the owner and one recorded proposer only.
 */
module FourEyes {
  import opened Util
  import opened Agents

  type Ops = seq<(User, Op, real)>

  // ---- what one operation is for an agent ----------------------------------------------

  /** Accepted, and about agent `i`: it made it, or named it. */
  predicate Concerns(c: Config, rows: seq<Agent>, u: User, op: Op, now: real, i: nat) {
    Written(c, rows, u, op, now).Ok? && if op.OpCreate? then i == |rows| else op.id == i
  }

  /** A creation that waits for an approval, or an edit. */
  predicate EditsAt(c: Config, rows: seq<Agent>, u: User, op: Op, now: real, i: nat) {
    Concerns(c, rows, u, op, now, i) &&
    (op.OpUpdate? || (op.OpCreate? && Written(c, rows, u, op, now).value.status != Active))
  }

  /** An approval; or a change rejected, or the agent archived: nothing written so far waits any more. */
  predicate SettlesAt(c: Config, rows: seq<Agent>, u: User, op: Op, now: real, i: nat) {
    Concerns(c, rows, u, op, now, i) && i < |rows| &&
    match op
    case OpApprove(_, _, _) => true
    case OpReject(_) => rows[i].pending != map[]
    case OpStatus(_, to, _) => to == Archived && rows[i].status != Archived
    case _ => false
  }

  /** The author is put down as the proposer: at creation, and by an edit of an agent that is no draft. */
  predicate RecordsAt(c: Config, rows: seq<Agent>, u: User, op: Op, now: real, i: nat) {
    Concerns(c, rows, u, op, now, i) && (op.OpCreate? || (op.OpUpdate? && i < |rows| && rows[i].status != Draft))
  }

  /** After an operation, those whose edits wait are those before, unless it settled them, and its author if it edits. */
  lemma WritersStep(c: Config, rows: seq<Agent>, u: User, op: Op, now: real, i: nat, who: string)
    requires i < |Apply(c, rows, u, op, now)|
    ensures who in Apply(c, rows, u, op, now)[i].writers <==>
            (i < |rows| && who in rows[i].writers && !SettlesAt(c, rows, u, op, now, i)) ||
            (EditsAt(c, rows, u, op, now, i) && u.email == who)
  {
    if Concerns(c, rows, u, op, now, i) && i < |rows| {
      RowWritersStep(c, rows[i], u, op, now, who);
    }
  }

  lemma RowWritersStep(c: Config, a: Agent, u: User, op: Op, now: real, who: string)
    ensures op.OpUpdate? ==>
      var w := Update(c, u, a, op.v, op.fromSession, op.override, op.valid, now);
      w.Ok? ==> w.value.writers == a.writers + {u.email}
    ensures op.OpApprove? ==>
      var w := Approve(c, u, a, op.override, op.valid, now);
      w.Ok? ==> w.value.writers == {}
    ensures op.OpReject? ==>
      var w := Reject(c, u, a);
      w.Ok? ==> w.value.writers == if a.pending != map[] then {} else a.writers
    ensures op.OpStatus? ==>
      var w := SetStatus(c, u, a, op.to, op.fromSession, now);
      w.Ok? ==> w.value.writers == if op.to == Archived && a.status != Archived then {} else a.writers
  {
  }

  /** Someone's approval is awaited. */
  predicate Waiting(a: Agent) {
    a.pending != map[] || a.status == Pending || a.status == Draft
  }

  lemma QuietStep(c: Config, rows: seq<Agent>, u: User, op: Op, now: real, i: nat)
    requires c.mode == FourEyes && i < |Apply(c, rows, u, op, now)|
    requires i < |rows| ==> AgentOk(c, rows[i]) && (!Waiting(rows[i]) ==> rows[i].writers == {})
    ensures var a := Apply(c, rows, u, op, now)[i]; !Waiting(a) ==> a.writers == {}
  {
    if Concerns(c, rows, u, op, now, i) && i < |rows| {
      RowQuietStep(c, rows[i], u, op, now);
    }
  }

  lemma RowQuietStep(c: Config, a: Agent, u: User, op: Op, now: real)
    requires c.mode == FourEyes && AgentOk(c, a) && (!Waiting(a) ==> a.writers == {})
    ensures op.OpUpdate? ==>
      var w := Update(c, u, a, op.v, op.fromSession, op.override, op.valid, now);
      w.Ok? ==> Waiting(w.value)
    ensures op.OpReject? ==>
      var w := Reject(c, u, a);
      w.Ok? ==> Waiting(w.value) || w.value.writers == {}
    ensures op.OpStatus? ==>
      var w := SetStatus(c, u, a, op.to, op.fromSession, now);
      w.Ok? ==> Waiting(w.value) || w.value.writers == {}
    ensures op.OpApprove? ==>
      var w := Approve(c, u, a, op.override, op.valid, now);
      w.Ok? ==> w.value.writers == {}
  {
    if op.OpUpdate? && Live(a.status) && Update(c, u, a, op.v, op.fromSession, op.override, op.valid, now).Ok? {
      ReviewedEditWaits(c, u, a, op.v, op.fromSession, op.override, op.valid, now);
    }
  }

  /** The name on record for what waits. */
  function OnRecord(a: Agent): string {
    if a.pending != map[] then a.pendingBy else a.proposedBy
  }

  /** While an agent waits, the name on record is that of the operation, if it records one, or the one before. */
  lemma RecordStep(c: Config, rows: seq<Agent>, u: User, op: Op, now: real, i: nat)
    requires c.mode == FourEyes && i < |Apply(c, rows, u, op, now)| && Waiting(Apply(c, rows, u, op, now)[i])
    requires i < |rows| ==> AgentOk(c, rows[i])
    ensures var a := Apply(c, rows, u, op, now)[i];
      if RecordsAt(c, rows, u, op, now, i) then OnRecord(a) == u.email
      else i < |rows| && Waiting(rows[i]) && OnRecord(a) == OnRecord(rows[i])
  {
    if Concerns(c, rows, u, op, now, i) && i < |rows| {
      if op.OpUpdate? {
        RowRecordUpdate(c, rows[i], u, op.v, op.fromSession, op.override, op.valid, now);
      } else {
        RowRecordStep(c, rows[i], u, op, now);
      }
    }
  }

  lemma RowRecordStep(c: Config, a: Agent, u: User, op: Op, now: real)
    requires c.mode == FourEyes && AgentOk(c, a) && !op.OpUpdate?
    ensures op.OpReject? ==>
      var w := Reject(c, u, a);
      w.Ok? && Waiting(w.value) ==> Waiting(a) && OnRecord(w.value) == OnRecord(a)
    ensures op.OpStatus? ==>
      var w := SetStatus(c, u, a, op.to, op.fromSession, now);
      w.Ok? && Waiting(w.value) ==> Waiting(a) && OnRecord(w.value) == OnRecord(a)
    ensures op.OpApprove? ==>
      var w := Approve(c, u, a, op.override, op.valid, now);
      w.Ok? ==> !Waiting(w.value)
  {
  }

  lemma RowRecordUpdate(c: Config, a: Agent, u: User, v: Definition, fromSession: bool, override: bool, valid: bool,
                        now: real)
    requires c.mode == FourEyes && AgentOk(c, a)
    ensures var w := Update(c, u, a, v, fromSession, override, valid, now);
      w.Ok? ==> OnRecord(w.value) == (if a.status != Draft then u.email else OnRecord(a)) && (a.status == Draft ==> Waiting(a))
  {
    if Live(a.status) && Update(c, u, a, v, fromSession, override, valid, now).Ok? {
      ReviewedEditWaits(c, u, a, v, fromSession, override, valid, now);
    }
  }

  // ---- what happened to an agent, read from the operations ----------------------------

  ghost predicate Edits(c: Config, ops: Ops, i: nat, k: nat) {
    k < |ops| && EditsAt(c, Run(c, ops[..k]), ops[k].0, ops[k].1, ops[k].2, i)
  }

  ghost predicate Settles(c: Config, ops: Ops, i: nat, k: nat) {
    k < |ops| && SettlesAt(c, Run(c, ops[..k]), ops[k].0, ops[k].1, ops[k].2, i)
  }

  ghost predicate Records(c: Config, ops: Ops, i: nat, k: nat) {
    k < |ops| && RecordsAt(c, Run(c, ops[..k]), ops[k].0, ops[k].1, ops[k].2, i)
  }

  /** What edit `k` wrote still waits for an approval at the end of the run. */
  ghost predicate Waits(c: Config, ops: Ops, i: nat, k: nat) {
    Edits(c, ops, i, k) && forall m :: k < m < |ops| ==> !Settles(c, ops, i, m)
  }

  ghost predicate LastRecord(c: Config, ops: Ops, i: nat, k: nat) {
    Records(c, ops, i, k) && forall m :: k < m < |ops| ==> !Records(c, ops, i, m)
  }

  ghost predicate WaitsBy(c: Config, ops: Ops, i: nat, who: string) {
    exists k: nat :: Waits(c, ops, i, k) && ops[k].0.email == who
  }

  // ---- one operation further -----------------------------------------------------------

  lemma SamePast(c: Config, ops: Ops, init: Ops, i: nat, k: nat)
    requires ops != [] && init == ops[..|ops| - 1] && k < |init|
    ensures Edits(c, ops, i, k) <==> Edits(c, init, i, k)
    ensures Settles(c, ops, i, k) <==> Settles(c, init, i, k)
    ensures Records(c, ops, i, k) <==> Records(c, init, i, k)
  {
    assert init[..k] == ops[..k] && init[k] == ops[k];
  }

  lemma WaitsFurther(c: Config, ops: Ops, init: Ops, i: nat, k: nat)
    requires ops != [] && init == ops[..|ops| - 1] && k < |init|
    ensures Waits(c, ops, i, k) <==> Waits(c, init, i, k) && !Settles(c, ops, i, |init|)
  {
    forall m | k <= m < |init|
      ensures Edits(c, ops, i, m) == Edits(c, init, i, m) && Settles(c, ops, i, m) == Settles(c, init, i, m)
    {
      SamePast(c, ops, init, i, m);
    }
  }

  lemma WaitsBefore(c: Config, ops: Ops, init: Ops, i: nat, k: nat, who: string)
    requires ops != [] && init == ops[..|ops| - 1] && Waits(c, ops, i, k) && ops[k].0.email == who
    ensures if k < |init| then WaitsBy(c, init, i, who) && !Settles(c, ops, i, |init|)
            else Edits(c, ops, i, |init|) && ops[|init|].0.email == who
  {
    if k < |init| {
      WaitsFurther(c, ops, init, i, k);
    }
  }

  lemma WaitsAfter(c: Config, ops: Ops, init: Ops, i: nat, k: nat, who: string)
    requires ops != [] && init == ops[..|ops| - 1]
    requires Waits(c, init, i, k) && init[k].0.email == who && !Settles(c, ops, i, |init|)
    ensures WaitsBy(c, ops, i, who)
  {
    WaitsFurther(c, ops, init, i, k);
  }

  lemma WaitsNow(c: Config, ops: Ops, i: nat, k: nat)
    requires k == |ops| - 1 && Edits(c, ops, i, k)
    ensures WaitsBy(c, ops, i, ops[k].0.email)
  {
    assert Waits(c, ops, i, k);
  }

  lemma WaitsStep(c: Config, ops: Ops, init: Ops, i: nat, who: string)
    requires ops != [] && init == ops[..|ops| - 1]
    ensures WaitsBy(c, ops, i, who) <==>
            (WaitsBy(c, init, i, who) && !Settles(c, ops, i, |init|)) ||
            (Edits(c, ops, i, |init|) && ops[|init|].0.email == who)
  {
    if WaitsBy(c, ops, i, who) {
      var k: nat :| Waits(c, ops, i, k) && ops[k].0.email == who;
      WaitsBefore(c, ops, init, i, k, who);
    } else if WaitsBy(c, init, i, who) && !Settles(c, ops, i, |init|) {
      var k: nat :| Waits(c, init, i, k) && init[k].0.email == who;
      WaitsAfter(c, ops, init, i, k, who);
    } else if Edits(c, ops, i, |init|) {
      WaitsNow(c, ops, i, |init|);
    }
  }

  lemma LastRecordStep(c: Config, ops: Ops, init: Ops, i: nat, k: nat)
    requires ops != [] && init == ops[..|ops| - 1] && LastRecord(c, init, i, k) && !Records(c, ops, i, |init|)
    ensures LastRecord(c, ops, i, k)
  {
    SamePast(c, ops, init, i, k);
    forall m | k < m < |ops| ensures !Records(c, ops, i, m) {
      if m < |init| {
        SamePast(c, ops, init, i, m);
      }
    }
  }

  // ---- the rows say what happened ------------------------------------------------------

  lemma RunStep(c: Config, ops: Ops, init: Ops, last: (User, Op, real))
    requires ops == init + [last]
    ensures Run(c, ops) == Apply(c, Run(c, init), last.0, last.1, last.2)
    ensures ops[..|init|] == init && ops[|init|] == last
  {
    assert ops[..|ops| - 1] == init;
  }

  /** `writers` is the set of those whose edits wait. */
  lemma {:induction false} WritersAreThoseWhoWait(c: Config, ops: Ops, i: nat, who: string)
    requires i < |Run(c, ops)|
    ensures who in Run(c, ops)[i].writers <==> WaitsBy(c, ops, i, who)
  {
    var init, last := ops[..|ops| - 1], ops[|ops| - 1];
    assert ops == init + [last];
    RunStep(c, ops, init, last);
    WaitsStep(c, ops, init, i, who);
    WritersStep(c, Run(c, init), last.0, last.1, last.2, i, who);
    if i < |Run(c, init)| {
      WritersAreThoseWhoWait(c, init, i, who);
    } else {
      NoneBefore(c, init, i, who);
    }
  }

  lemma NotYet(c: Config, rows: seq<Agent>, u: User, op: Op, now: real, i: nat)
    requires i >= |Apply(c, rows, u, op, now)|
    ensures !EditsAt(c, rows, u, op, now, i) && i >= |rows|
  {
  }

  /** Nothing has been written on an agent that does not exist yet. */
  lemma {:induction false} NoneBefore(c: Config, ops: Ops, i: nat, who: string)
    requires i >= |Run(c, ops)|
    ensures !WaitsBy(c, ops, i, who)
  {
    if ops != [] {
      var init, last := ops[..|ops| - 1], ops[|ops| - 1];
      assert ops == init + [last];
      RunStep(c, ops, init, last);
      NotYet(c, Run(c, init), last.0, last.1, last.2, i);
      NoneBefore(c, init, i, who);
      WaitsStep(c, ops, init, i, who);
    }
  }

  /** In four-eyes mode nobody's edits wait on an agent whose approval nobody awaits. */
  lemma {:induction false} NoWritersWhenNothingWaits(c: Config, ops: Ops, i: nat)
    requires c.mode == FourEyes && i < |Run(c, ops)|
    ensures !Waiting(Run(c, ops)[i]) ==> Run(c, ops)[i].writers == {}
  {
    var init, last := ops[..|ops| - 1], ops[|ops| - 1];
    assert ops == init + [last];
    RunStep(c, ops, init, last);
    ReachableAgentsOk(c, init);
    if i < |Run(c, init)| {
      NoWritersWhenNothingWaits(c, init, i);
    }
    QuietStep(c, Run(c, init), last.0, last.1, last.2, i);
  }

  /** `who` is the author of the last recorded edit. */
  ghost predicate ProposerIs(c: Config, ops: Ops, i: nat, who: string) {
    exists k: nat :: LastRecord(c, ops, i, k) && ops[k].0.email == who
  }

  /** In four-eyes mode, the name on record for what waits is that of the last recorded edit. */
  lemma {:induction false} RecordExists(c: Config, ops: Ops, i: nat)
    requires c.mode == FourEyes && i < |Run(c, ops)| && Waiting(Run(c, ops)[i])
    ensures ProposerIs(c, ops, i, OnRecord(Run(c, ops)[i]))
  {
    var init, last := ops[..|ops| - 1], ops[|ops| - 1];
    assert ops == init + [last];
    RunStep(c, ops, init, last);
    ReachableAgentsOk(c, init);
    RecordStep(c, Run(c, init), last.0, last.1, last.2, i);
    if Records(c, ops, i, |init|) {
      assert LastRecord(c, ops, i, |init|);
    } else {
      RecordExists(c, init, i);
      RecordStays(c, ops, init, i, OnRecord(Run(c, init)[i]));
    }
  }

  lemma RecordStays(c: Config, ops: Ops, init: Ops, i: nat, who: string)
    requires ops != [] && init == ops[..|ops| - 1] && !Records(c, ops, i, |init|)
    ensures ProposerIs(c, init, i, who) ==> ProposerIs(c, ops, i, who)
  {
    if ProposerIs(c, init, i, who) {
      var k: nat :| LastRecord(c, init, i, k) && init[k].0.email == who;
      LastRecordStep(c, ops, init, i, k);
    }
  }

  lemma OneProposer(c: Config, ops: Ops, i: nat, v: string, w: string)
    requires ProposerIs(c, ops, i, v) && ProposerIs(c, ops, i, w)
    ensures v == w
  {
    var j: nat :| LastRecord(c, ops, i, j) && ops[j].0.email == v;
    var k: nat :| LastRecord(c, ops, i, k) && ops[k].0.email == w;
    assert j == k;
  }

  // ---- when a writer can approve -------------------------------------------------------

  /** Someone who wrote part of what waits can have its approval accepted. */
  ghost predicate WriterCanApprove(c: Config, ops: Ops, i: nat)
    requires i < |Run(c, ops)|
  {
    exists u, override, now ::
      Approve(c, u, Run(c, ops)[i], override, true, now).Ok? && WaitsBy(c, ops, i, u.email)
  }

  /**
   An edit that waits has escaped the record: it is not the owner's, and another person's edit is the
   last one recorded. (An author without a name is recorded as the owner.)
   */
  ghost predicate Escaped(c: Config, ops: Ops, i: nat, k: nat)
    requires i < |Run(c, ops)|
  {
    Waits(c, ops, i, k) && ops[k].0.email != Run(c, ops)[i].owner &&
    exists m: nat :: LastRecord(c, ops, i, m) && (ops[m].0.email != ops[k].0.email || ops[m].0.email == "")
  }

  /** Whose approval of a row can be accepted, in four-eyes mode. */
  lemma WhoCanApprove(c: Config, a: Agent, who: string)
    requires c.mode == FourEyes
    ensures (exists u, override, now :: Approve(c, u, a, override, true, now).Ok? && u.email == who)
            <==> Waiting(a) && who != a.owner && (who != OnRecord(a) || who == "")
  {
    if Waiting(a) && who != a.owner && (who != OnRecord(a) || who == "") {
      assert Approve(c, User(who, ADMIN, None), a, true, true, 0.0).Ok?;
    }
  }

  /**
   In four-eyes mode one of those who wrote what waits can approve it exactly when, since the last
   approval, somebody other than the owner has edited the agent without being the last one recorded:
   a draft is edited without any record, and a recorded author is forgotten at the next edit.
   */
  lemma WriterCanApproveExactly(c: Config, ops: Ops, i: nat)
    requires c.mode == FourEyes && i < |Run(c, ops)|
    ensures WriterCanApprove(c, ops, i) <==> exists k: nat :: Escaped(c, ops, i, k)
  {
    if WriterCanApprove(c, ops, i) {
      WriterEscaped(c, ops, i, Run(c, ops)[i]);
    }
    if k: nat :| Escaped(c, ops, i, k) {
      EscapedCanApprove(c, ops, i, k, Run(c, ops)[i]);
    }
  }

  lemma WriterEscaped(c: Config, ops: Ops, i: nat, a: Agent)
    requires c.mode == FourEyes && i < |Run(c, ops)| && a == Run(c, ops)[i] && WriterCanApprove(c, ops, i)
    ensures exists k: nat :: Escaped(c, ops, i, k)
  {
    var u, override, now :| Approve(c, u, a, override, true, now).Ok? && WaitsBy(c, ops, i, u.email);
    WhoCanApprove(c, a, u.email);
    RecordExists(c, ops, i);
    var k: nat :| Waits(c, ops, i, k) && ops[k].0.email == u.email;
    var m: nat :| LastRecord(c, ops, i, m) && ops[m].0.email == OnRecord(a);
    assert Escaped(c, ops, i, k);
  }

  lemma EscapedCanApprove(c: Config, ops: Ops, i: nat, k: nat, a: Agent)
    requires c.mode == FourEyes && i < |Run(c, ops)| && a == Run(c, ops)[i] && Escaped(c, ops, i, k)
    ensures WriterCanApprove(c, ops, i)
  {
    var who := ops[k].0.email;
    assert WaitsBy(c, ops, i, who);
    WritersAreThoseWhoWait(c, ops, i, who);
    NoWritersWhenNothingWaits(c, ops, i);
    RecordExists(c, ops, i);
    var m: nat :| LastRecord(c, ops, i, m) && (ops[m].0.email != who || ops[m].0.email == "");
    OneProposer(c, ops, i, ops[m].0.email, OnRecord(a));
    WhoCanApprove(c, a, who);
    var u, override, now :| Approve(c, u, a, override, true, now).Ok? && u.email == who;
    assert WaitsBy(c, ops, i, u.email);
  }

  /** For a given agent row, the same in terms of its history: `FourEyesExactly` on a reachable agent. */
  lemma NoWriterCanApproveAlone(c: Config, ops: Ops, i: nat)
    requires c.mode == FourEyes && i < |Run(c, ops)|
    ensures (forall u :: ApprovalCheck(c, u, Run(c, ops)[i]) ==> !WaitsBy(c, ops, i, u.email))
            <==> forall who :: WaitsBy(c, ops, i, who) ==> who == Run(c, ops)[i].owner || who == Proposer(Run(c, ops)[i])
  {
    forall who ensures who in Run(c, ops)[i].writers <==> WaitsBy(c, ops, i, who) {
      WritersAreThoseWhoWait(c, ops, i, who);
    }
    FourEyesExactly(c, Run(c, ops)[i]);
  }

  // ---- two runs on which it happens ----------------------------------------------------

  function Purpose(text: string): Definition {
    map["purpose" := Text(text)]
  }

  const OWNER := User("o", DEV, None)
  const FIRST := User("b", ADMIN, None)
  const SECOND := User("d", ADMIN, None)

  /** A draft, edited and then approved by one person who is not its owner. */
  function DraftRun(): Ops {
    [(OWNER, OpCreate(Purpose("x"), false, false, false, true), 1.0),
     (SECOND, OpUpdate(0, Purpose("y"), false, false, true), 2.0),
     (SECOND, OpApprove(0, false, true), 3.0)]
  }

  lemma RunSteps(c: Config, ops: Ops, last: (User, Op, real))
    ensures Run(c, ops + [last]) == Apply(c, Run(c, ops), last.0, last.1, last.2)
  {
    assert (ops + [last])[..|ops|] == ops;
  }

  /**
   A single person can write and approve all that is live: in four-eyes mode the owner saves a draft,
   another admin rewrites it, and the same admin approves it.
   */
  lemma OneWriterApprovesAlone(c: Config)
    requires c.mode == FourEyes
    ensures |Run(c, DraftRun())| == 1
    ensures var a := Run(c, DraftRun())[0];
      a.status == Active && a.def == Purpose("y") && a.approvedBy == SECOND.email && WriterCanApprove(c, DraftRun()[..2], 0)
  {
    var ops := DraftRun();
    var one, two := ops[..1], ops[..2];
    assert one == [] + [ops[0]] && two == one + [ops[1]] && ops == two + [ops[2]];
    RunSteps(c, [], ops[0]);
    RunSteps(c, one, ops[1]);
    RunSteps(c, two, ops[2]);
    var draft := Run(c, one)[0];
    assert draft.status == Draft && draft.def == Purpose("x");
    assert Purpose("x") + Purpose("y") == Purpose("y");
    assert "purpose" in Purpose("y");
    var edited := Run(c, two)[0];
    assert edited.def == Purpose("y") && edited.proposedBy == OWNER.email;
    assert Purpose("y") + map[] == Purpose("y");
    WritersAreThoseWhoWait(c, two, 0, SECOND.email);
    assert edited.writers == draft.writers + {SECOND.email};
    assert Approve(c, SECOND, edited, false, true, 3.0).Ok? && WaitsBy(c, two, 0, SECOND.email);
  }

  /** A live agent, changed by one person and then by another: the first one approves the change. */
  function TwoWriters(): Ops {
    [(OWNER, OpCreate(Purpose("x"), false, false, false, true), 1.0),
     (FIRST, OpApprove(0, false, true), 2.0),
     (FIRST, OpUpdate(0, Purpose("y"), true, false, true), 3.0),
     (SECOND, OpUpdate(0, map["notes" := Text("z")], false, false, true), 4.0),
     (FIRST, OpApprove(0, false, true), 5.0)]
  }

  /** What the run below needs to know of the agent: live, plain, and of the owner "o". */
  predicate Plain(a: Agent) {
    a.status == Active && a.owner == OWNER.email && a.project == "default" && "trigger" !in a.def && "trigger" !in a.pending
  }

  lemma CreatedThenApproved(c: Config)
    requires c.mode == FourEyes
    ensures var rows := Run(c, TwoWriters()[..2]); |rows| == 1 && Plain(rows[0]) && rows[0].pending == map[]
  {
    var ops := TwoWriters();
    var one, two := ops[..1], ops[..2];
    assert one == [] + [ops[0]] && two == one + [ops[1]];
    RunSteps(c, [], ops[0]);
    RunSteps(c, one, ops[1]);
  }

  lemma PlainEdit(c: Config, a: Agent, u: User, v: Definition, k: string, fromSession: bool, now: real)
    requires c.mode == FourEyes && Plain(a) && u.rank >= ADMIN && u.project.None? && k in v && "trigger" !in v
    ensures var w := Update(c, u, a, v, fromSession, false, true, now);
      w.Ok? && Plain(w.value) && w.value.pending == a.pending + v && w.value.pendingBy == u.email && w.value.def == a.def
  {
  }

  lemma PlainApproval(c: Config, a: Agent, u: User, now: real)
    requires c.mode == FourEyes && Plain(a) && u.rank >= ADMIN && u.project.None? && a.pending != map[]
    requires u.email != a.owner && u.email != a.pendingBy && a.pendingBy != ""
    ensures var w := Approve(c, u, a, false, true, now);
      w.Ok? && w.value.status == Active && w.value.def == a.def + a.pending && w.value.approvedBy == u.email &&
      w.value.last == Some(Approval(a.def + a.pending, u, a.pendingBy))
  {
  }

  /** The first of two writers can approve what both wrote: the second edit replaces the proposer on record. */
  lemma FirstOfTwoWritersApproves(c: Config)
    requires c.mode == FourEyes
    ensures |Run(c, TwoWriters())| == 1
    ensures var a := Run(c, TwoWriters())[0];
      a.status == Active && TextAt(a.def, "purpose") == "y" && a.approvedBy == FIRST.email &&
      a.last.Some? && a.last.value.proposer == SECOND.email
  {
    var ops := TwoWriters();
    var two, three, four := ops[..2], ops[..3], ops[..4];
    assert three == two + [ops[2]] && four == three + [ops[3]] && ops == four + [ops[4]];
    CreatedThenApproved(c);
    var live := Run(c, two)[0];
    RunSteps(c, two, ops[2]);
    PlainEdit(c, live, FIRST, Purpose("y"), "purpose", true, 3.0);
    var changed := Run(c, three)[0];
    RunSteps(c, three, ops[3]);
    PlainEdit(c, changed, SECOND, map["notes" := Text("z")], "notes", false, 4.0);
    var both := Run(c, four)[0];
    assert "purpose" in both.pending && both.pending["purpose"] == Text("y");
    RunSteps(c, four, ops[4]);
    PlainApproval(c, both, FIRST, 5.0);
  }
}
