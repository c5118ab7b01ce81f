/**
 Helm's suggestions: each check reconciles what is detected with what is stored, a decided
 suggestion is snoozed, and nothing is ever applied without a manager.
 */
module Suggestions {
  import opened Util

  datatype Status = Open | Resolved | Ignored | Approved

  /** `project:kind:card:key`. */
  datatype Fingerprint = Fingerprint(project: string, kind: string, card: Option<int>, key: string)

  /** A stored suggestion; its id is its position. `decidedAt` is 0 until a manager decides. */
  datatype Row = Row(fp: Fingerprint, status: Status, createdAt: real, decidedAt: real)

  /** What a detector reports for a project. */
  datatype Found = Found(kind: string, card: Option<int>, key: string)

  function PrintOf(project: string, f: Found): Fingerprint {
    Fingerprint(project, f.kind, f.card, f.key)
  }

  predicate Decided(s: Status) {
    s == Ignored || s == Approved
  }

  /** `ORDER BY id DESC LIMIT 1`: the latest row of a fingerprint. */
  function Latest(rows: seq<Row>, fp: Fingerprint): (r: Option<nat>)
    ensures r.None? ==> forall i :: 0 <= i < |rows| ==> rows[i].fp != fp
    ensures r.Some? ==> r.value < |rows| && rows[r.value].fp == fp &&
                        forall i :: r.value < i < |rows| ==> rows[i].fp != fp
  {
    if rows == [] then None
    else if rows[|rows| - 1].fp == fp then Some(|rows| - 1)
    else Latest(rows[..|rows| - 1], fp)
  }

  /** The latest row of `fp` was decided inside the window. */
  predicate Snoozed(rows: seq<Row>, fp: Fingerprint, now: real, snooze: real) {
    var l := Latest(rows, fp);
    l.Some? && Decided(rows[l.value].status) && rows[l.value].decidedAt > now - snooze
  }

  ghost predicate IsOpen(rows: seq<Row>, fp: Fingerprint) {
    exists i :: 0 <= i < |rows| && rows[i].fp == fp && rows[i].status == Open
  }

  // ---- one check ---------------------------------------------------------------------

  function Observe(rows: seq<Row>, now: real, snooze: real, fp: Fingerprint): seq<Row> {
    var l := Latest(rows, fp);
    if l.Some? && rows[l.value].status == Open then rows
    else if Snoozed(rows, fp, now, snooze) then rows
    else rows + [Row(fp, Open, now, 0.0)]
  }

  function ObserveAll(rows: seq<Row>, now: real, snooze: real, fps: seq<Fingerprint>): seq<Row> {
    if fps == [] then rows
    else Observe(ObserveAll(rows, now, snooze, fps[..|fps| - 1]), now, snooze, fps[|fps| - 1])
  }

  function Settle(r: Row, stale: bool): Row {
    if stale && r.status == Open then r.(status := Resolved) else r
  }

  function ResolveStale(rows: seq<Row>, project: string, fps: seq<Fingerprint>): (r: seq<Row>)
    ensures |r| == |rows|
    ensures forall i :: 0 <= i < |rows| ==> r[i] == Settle(rows[i], rows[i].fp.project == project && rows[i].fp !in fps)
  {
    seq(|rows|, i requires 0 <= i < |rows| => Settle(rows[i], rows[i].fp.project == project && rows[i].fp !in fps))
  }

  function Prints(project: string, found: seq<Found>): (fps: seq<Fingerprint>)
    ensures |fps| == |found| && forall i :: 0 <= i < |found| ==> fps[i] == PrintOf(project, found[i])
  {
    seq(|found|, i requires 0 <= i < |found| => PrintOf(project, found[i]))
  }

  function Checked(rows: seq<Row>, project: string, now: real, snooze: real, found: seq<Found>): seq<Row> {
    var fps := Prints(project, found);
    ResolveStale(ObserveAll(rows, now, snooze, fps), project, fps)
  }

  /** The row is an open scope suggestion of the card. */
  predicate IsOpenScope(r: Row, card: int) {
    r.status == Open && r.fp.kind == "scope" && r.fp.card == Some(card)
  }

  class Store {
    var rows: seq<Row>
    const snooze: real

    constructor (snooze: real)
      ensures rows == [] && this.snooze == snooze
    {
      this.rows, this.snooze := [], snooze;
    }

    /** `suggest`, with what the detectors found as input. */
    method Suggest(project: string, now: real, found: seq<Found>)
      modifies this
      ensures rows == Checked(old(rows), project, now, snooze, found)
    {
      ghost var before, fps := rows, Prints(project, found);
      var seen: seq<Fingerprint> := [];
      for i := 0 to |found|
        invariant seen == fps[..i] && rows == ObserveAll(before, now, snooze, fps[..i])
      {
        var fp := PrintOf(project, found[i]);
        assert fps[..i + 1] == fps[..i] + [fp];
        seen := seen + [fp];
        var prev := Latest(rows, fp);
        if prev.Some? && rows[prev.value].status == Open {
          continue;
        }
        if prev.Some? && Decided(rows[prev.value].status) && rows[prev.value].decidedAt > now - snooze {
          continue;
        }
        rows := rows + [Row(fp, Open, now, 0.0)];
      }
      assert seen == fps && fps[..|found|] == fps;
      ghost var observed := rows;
      for i := 0 to |rows|
        invariant |rows| == |observed| && rows[i..] == observed[i..]
        invariant forall j :: 0 <= j < i ==> rows[j] == ResolveStale(observed, project, fps)[j]
      {
        var r := rows[i];
        assert r == rows[i..][0] == observed[i..][0] == observed[i];
        if r.fp.project == project && r.status == Open && r.fp !in seen {
          rows := rows[i := r.(status := Resolved)];
        }
      }
      assert rows == ResolveStale(observed, project, fps);
    }

    /** `approve` (once the reframe card exists) and `ignore`: refused unless the row is open. */
    method Decide(id: nat, status: Status, now: real) returns (ok: bool)
      requires Decided(status)
      modifies this
      ensures ok <==> id < |old(rows)| && old(rows)[id].status == Open
      ensures rows == if ok then old(rows)[id := old(rows)[id].(status := status, decidedAt := now)] else old(rows)
    {
      ok := id < |rows| && rows[id].status == Open;
      if ok {
        rows := rows[id := rows[id].(status := status, decidedAt := now)];
      }
    }

    /** `rebaseline`: the open scope suggestions of the card are answered. */
    method Rebaseline(card: int)
      modifies this
      ensures rows == Rebaselined(old(rows), card)
      ensures |rows| == |old(rows)|
      ensures forall i :: 0 <= i < |rows| ==>
                if IsOpenScope(old(rows)[i], card) then rows[i] == old(rows)[i].(status := Resolved)
                else rows[i] == old(rows)[i]
    {
      ghost var before := rows;
      for i := 0 to |rows|
        invariant |rows| == |before|
        invariant forall k :: 0 <= k < i ==>
          rows[k] == if IsOpenScope(before[k], card) then before[k].(status := Resolved) else before[k]
        invariant forall k :: i <= k < |before| ==> rows[k] == before[k]
      {
        if IsOpenScope(rows[i], card) {
          rows := rows[i := rows[i].(status := Resolved)];
        }
      }
      assert rows == Rebaselined(before, card);
    }
  }

  function Rebaselined(rows: seq<Row>, card: int): (r: seq<Row>)
    ensures |r| == |rows|
    ensures forall i :: 0 <= i < |rows| ==> r[i] == Settle(rows[i], rows[i].fp.card == Some(card) && rows[i].fp.kind == "scope")
  {
    seq(|rows|, i requires 0 <= i < |rows| => Settle(rows[i], rows[i].fp.card == Some(card) && rows[i].fp.kind == "scope"))
  }

  // ---- what every store keeps --------------------------------------------------------

  /** Only the latest row of a fingerprint can be open. */
  ghost predicate OneOpen(rows: seq<Row>) {
    forall i, j :: 0 <= i < j < |rows| && rows[i].fp == rows[j].fp ==> rows[i].status != Open
  }

  /** Up to `now`, a row was only added when every earlier decision on its fingerprint had left the window. */
  ghost predicate Clocked(rows: seq<Row>, now: real, snooze: real) {
    (forall i :: 0 <= i < |rows| ==> rows[i].createdAt <= now && rows[i].decidedAt <= now) &&
    (forall i, j :: 0 <= i < j < |rows| && rows[i].fp == rows[j].fp && Decided(rows[i].status) ==>
      rows[i].decidedAt <= rows[j].createdAt - snooze)
  }

  lemma OpenIsLatest(rows: seq<Row>, fp: Fingerprint)
    requires OneOpen(rows)
    ensures IsOpen(rows, fp) <==> Latest(rows, fp).Some? && rows[Latest(rows, fp).value].status == Open
  {
  }

  lemma AppendOther(rows: seq<Row>, row: Row, g: Fingerprint)
    requires row.fp != g
    ensures Latest(rows + [row], g) == Latest(rows, g)
    ensures IsOpen(rows + [row], g) <==> IsOpen(rows, g)
  {
    var r := rows + [row];
    assert r[..|r| - 1] == rows;
    if IsOpen(rows, g) {
      var i :| 0 <= i < |rows| && rows[i].fp == g && rows[i].status == Open;
      assert r[i] == rows[i];
    }
  }

  lemma ObserveKeeps(rows: seq<Row>, now: real, snooze: real, fp: Fingerprint, g: Fingerprint)
    requires OneOpen(rows)
    ensures var r := Observe(rows, now, snooze, fp);
      OneOpen(r) && (Snoozed(r, g, now, snooze) <==> Snoozed(rows, g, now, snooze)) &&
      (IsOpen(r, g) <==> if g == fp then !Snoozed(rows, fp, now, snooze) else IsOpen(rows, g))
  {
    OpenIsLatest(rows, fp);
    var r := Observe(rows, now, snooze, fp);
    if r != rows {
      assert r[|rows|].fp == fp && r[|rows|].status == Open;
      if g != fp {
        AppendOther(rows, r[|rows|], g);
      }
    }
  }

  lemma {:induction false} ObserveAllKeeps(rows: seq<Row>, now: real, snooze: real, fps: seq<Fingerprint>, g: Fingerprint)
    requires OneOpen(rows)
    ensures var r := ObserveAll(rows, now, snooze, fps);
      OneOpen(r) && (Snoozed(r, g, now, snooze) <==> Snoozed(rows, g, now, snooze)) &&
      (IsOpen(r, g) <==> if g in fps then !Snoozed(rows, g, now, snooze) else IsOpen(rows, g))
  {
    if fps != [] {
      var init, fp := fps[..|fps| - 1], fps[|fps| - 1];
      assert fps == init + [fp];
      ObserveAllKeeps(rows, now, snooze, init, g);
      ObserveKeeps(ObserveAll(rows, now, snooze, init), now, snooze, fp, g);
    }
  }

  lemma ResolveStaleKeeps(rows: seq<Row>, project: string, fps: seq<Fingerprint>, g: Fingerprint)
    requires OneOpen(rows)
    ensures var r := ResolveStale(rows, project, fps);
      OneOpen(r) && (IsOpen(r, g) <==> IsOpen(rows, g) && (g.project == project ==> g in fps))
  {
    var r := ResolveStale(rows, project, fps);
    if IsOpen(rows, g) {
      var i :| 0 <= i < |rows| && rows[i].fp == g && rows[i].status == Open;
      assert r[i] == Settle(rows[i], rows[i].fp.project == project && rows[i].fp !in fps);
    }
  }

  /**
   After a check the open suggestions of the project are exactly the detected ones that are not
   snoozed; those of other projects are untouched.
   */
  lemma CheckIsExact(rows: seq<Row>, project: string, now: real, snooze: real, found: seq<Found>, fp: Fingerprint)
    requires OneOpen(rows)
    ensures var r := Checked(rows, project, now, snooze, found);
      OneOpen(r) &&
      (fp.project == project ==> (IsOpen(r, fp) <==> fp in Prints(project, found) && !Snoozed(rows, fp, now, snooze))) &&
      (fp.project != project ==> (IsOpen(r, fp) <==> IsOpen(rows, fp)))
  {
    var fps := Prints(project, found);
    ObserveAllKeeps(rows, now, snooze, fps, fp);
    ResolveStaleKeeps(ObserveAll(rows, now, snooze, fps), project, fps, fp);
  }

  // ---- every reachable store ---------------------------------------------------------

  lemma ObserveClocked(rows: seq<Row>, now: real, snooze: real, fp: Fingerprint)
    requires OneOpen(rows) && Clocked(rows, now, snooze) && now >= 0.0
    ensures Clocked(Observe(rows, now, snooze, fp), now, snooze)
  {
    var r := Observe(rows, now, snooze, fp);
    if r != rows {
      forall i | 0 <= i < |rows| && rows[i].fp == fp && Decided(rows[i].status) ensures rows[i].decidedAt <= now - snooze {
        var l := Latest(rows, fp).value;
        assert i < l ==> rows[i].decidedAt <= rows[l].createdAt - snooze;
      }
    }
  }

  lemma {:induction false} ObserveAllClocked(rows: seq<Row>, now: real, snooze: real, fps: seq<Fingerprint>)
    requires OneOpen(rows) && Clocked(rows, now, snooze) && now >= 0.0
    ensures OneOpen(ObserveAll(rows, now, snooze, fps)) && Clocked(ObserveAll(rows, now, snooze, fps), now, snooze)
  {
    if fps != [] {
      var init, fp := fps[..|fps| - 1], fps[|fps| - 1];
      ObserveAllClocked(rows, now, snooze, init);
      ObserveKeeps(ObserveAll(rows, now, snooze, init), now, snooze, fp, fp);
      ObserveClocked(ObserveAll(rows, now, snooze, init), now, snooze, fp);
    }
  }

  datatype Op = Check(project: string, found: seq<Found>) | Decide(id: nat, status: Status) | Rebase(card: int)

  ghost function Apply(rows: seq<Row>, op: Op, now: real, snooze: real): seq<Row> {
    match op
    case Check(project, found) => Checked(rows, project, now, snooze, found)
    case Decide(id, status) =>
      if id < |rows| && rows[id].status == Open && Decided(status)
      then rows[id := rows[id].(status := status, decidedAt := now)] else rows
    case Rebase(card) => Rebaselined(rows, card)
  }

  lemma CheckKeeps(rows: seq<Row>, project: string, found: seq<Found>, now: real, snooze: real)
    requires OneOpen(rows) && Clocked(rows, now, snooze) && 0.0 <= now
    ensures OneOpen(Checked(rows, project, now, snooze, found))
    ensures Clocked(Checked(rows, project, now, snooze, found), now, snooze)
  {
    ObserveAllClocked(rows, now, snooze, Prints(project, found));
  }

  lemma DecideKeeps(rows: seq<Row>, id: nat, status: Status, now: real, snooze: real)
    requires OneOpen(rows) && Clocked(rows, now, snooze) && id < |rows| && rows[id].status == Open && Decided(status)
    ensures OneOpen(rows[id := rows[id].(status := status, decidedAt := now)])
    ensures Clocked(rows[id := rows[id].(status := status, decidedAt := now)], now, snooze)
  {
  }

  lemma RebaseKeeps(rows: seq<Row>, card: int, now: real, snooze: real)
    requires OneOpen(rows) && Clocked(rows, now, snooze)
    ensures OneOpen(Rebaselined(rows, card)) && Clocked(Rebaselined(rows, card), now, snooze)
  {
  }

  lemma ApplyKeeps(rows: seq<Row>, op: Op, before: real, now: real, snooze: real)
    requires OneOpen(rows) && Clocked(rows, before, snooze) && 0.0 <= before <= now
    ensures OneOpen(Apply(rows, op, now, snooze)) && Clocked(Apply(rows, op, now, snooze), now, snooze)
  {
    ClockedLater(rows, before, now, snooze);
    match op {
      case Check(project, found) =>
        CheckKeeps(rows, project, found, now, snooze);
      case Decide(id, status) =>
        if id < |rows| && rows[id].status == Open && Decided(status) {
          DecideKeeps(rows, id, status, now, snooze);
        }
      case Rebase(card) =>
        RebaseKeeps(rows, card, now, snooze);
    }
  }

  lemma ClockedLater(rows: seq<Row>, before: real, now: real, snooze: real)
    requires Clocked(rows, before, snooze) && before <= now
    ensures Clocked(rows, now, snooze)
  {
  }

  /** The stores reached by a run, each operation with the clock at which it happens. */
  ghost function Run(ops: seq<(real, Op)>, snooze: real): seq<Row> {
    if ops == [] then []
    else Apply(Run(ops[..|ops| - 1], snooze), ops[|ops| - 1].1, ops[|ops| - 1].0, snooze)
  }

  ghost predicate ClockNeverGoesBack(ops: seq<(real, Op)>) {
    forall i, j :: 0 <= i <= j < |ops| ==> 0.0 <= ops[i].0 <= ops[j].0
  }

  /** In every reachable store only the latest row of a fingerprint can be open. */
  lemma {:induction false} RunKeeps(ops: seq<(real, Op)>, snooze: real)
    requires ClockNeverGoesBack(ops)
    ensures OneOpen(Run(ops, snooze))
    ensures Clocked(Run(ops, snooze), if ops == [] then 0.0 else ops[|ops| - 1].0, snooze)
  {
    if ops != [] {
      var init := ops[..|ops| - 1];
      RunKeeps(init, snooze);
      ApplyKeeps(Run(init, snooze), ops[|ops| - 1].1, if init == [] then 0.0 else init[|init| - 1].0, ops[|ops| - 1].0, snooze);
    }
  }

  /** Being snoozed is decided by any decision inside the window, not just by the latest row. */
  lemma SnoozedByAnyDecision(rows: seq<Row>, before: real, now: real, snooze: real, fp: Fingerprint)
    requires Clocked(rows, before, snooze) && before <= now
    ensures Snoozed(rows, fp, now, snooze) <==>
      exists i :: 0 <= i < |rows| && rows[i].fp == fp && Decided(rows[i].status) && rows[i].decidedAt > now - snooze
  {
    if Latest(rows, fp).Some? {
      var l := Latest(rows, fp).value;
      forall i | 0 <= i < l && rows[i].fp == fp && Decided(rows[i].status) ensures rows[i].decidedAt <= now - snooze {
        assert rows[i].decidedAt <= rows[l].createdAt - snooze;
      }
    }
  }

  /** `fp` is the fingerprint of something found in the project. */
  ghost predicate Detected(project: string, found: seq<Found>, fp: Fingerprint) {
    exists i :: 0 <= i < |found| && fp == Fingerprint(project, found[i].kind, found[i].card, found[i].key)
  }

  /** A manager ignored or approved `fp` inside the window. */
  ghost predicate DecidedSince(rows: seq<Row>, fp: Fingerprint, since: real) {
    exists i :: 0 <= i < |rows| && rows[i].fp == fp && rows[i].decidedAt > since &&
                (rows[i].status == Ignored || rows[i].status == Approved)
  }

  lemma DetectedExactly(project: string, found: seq<Found>, fp: Fingerprint)
    ensures fp in Prints(project, found) <==> Detected(project, found, fp)
  {
    var fps := Prints(project, found);
    if i :| 0 <= i < |found| && fp == Fingerprint(project, found[i].kind, found[i].card, found[i].key) {
      assert fps[i] == fp;
    }
  }

  /** Over whole runs: a check opens exactly what is detected and was not decided inside the window. */
  lemma CheckAfterAnyRun(ops: seq<(real, Op)>, snooze: real, project: string, now: real, found: seq<Found>, fp: Fingerprint)
    requires ClockNeverGoesBack(ops + [(now, Check(project, found))]) && fp.project == project
    ensures var rows := Run(ops, snooze);
      IsOpen(Run(ops + [(now, Check(project, found))], snooze), fp) <==>
      Detected(project, found, fp) && !DecidedSince(rows, fp, now - snooze)
  {
    var all := ops + [(now, Check(project, found))];
    assert all[..|all| - 1] == ops && all[|all| - 1] == (now, Check(project, found));
    forall i, j | 0 <= i <= j < |ops| ensures 0.0 <= ops[i].0 <= ops[j].0 {
      assert all[i] == ops[i] && all[j] == ops[j];
    }
    assert ops != [] ==> all[|ops| - 1].0 <= all[|ops|].0;
    assert 0.0 <= all[|ops|].0;
    RunKeeps(ops, snooze);
    assert Run(all, snooze) == Checked(Run(ops, snooze), project, now, snooze, found);
    CheckIsExact(Run(ops, snooze), project, now, snooze, found, fp);
    SnoozedByAnyDecision(Run(ops, snooze), if ops == [] then 0.0 else ops[|ops| - 1].0, now, snooze, fp);
    DetectedExactly(project, found, fp);
  }

  /** Answering a card's scope resolves its open scope suggestions and touches nothing else. */
  lemma RebaseRowsExactly(rows: seq<Row>, card: int, now: real, snooze: real, i: nat)
    requires i < |rows|
    ensures var r := Apply(rows, Rebase(card), now, snooze);
      |r| == |rows| &&
      r[i] == if rows[i].status == Open && rows[i].fp.kind == "scope" && rows[i].fp.card == Some(card)
              then rows[i].(status := Resolved) else rows[i]
  {
  }

  /** A row of before: resolved if it was open in the project and is no longer detected, and else as it was. */
  ghost predicate Settled(r: Row, q: Row, project: string, found: seq<Found>) {
    q == if r.status == Open && r.fp.project == project && !Detected(project, found, r.fp) then r.(status := Resolved) else r
  }

  lemma {:induction false} ObserveAllAppends(rows: seq<Row>, now: real, snooze: real, fps: seq<Fingerprint>)
    ensures var r := ObserveAll(rows, now, snooze, fps);
      rows <= r && forall i :: |rows| <= i < |r| ==> r[i] == Row(r[i].fp, Open, now, 0.0) && r[i].fp in fps
  {
    if fps != [] {
      ObserveAllAppends(rows, now, snooze, fps[..|fps| - 1]);
      assert fps == fps[..|fps| - 1] + [fps[|fps| - 1]];
    }
  }

  /**
   A check loses no row and decides nothing: each earlier row is resolved or stays, and each new one is open,
   made now, undecided, and of something detected.
   */
  lemma CheckRowsExactly(rows: seq<Row>, project: string, now: real, snooze: real, found: seq<Found>)
    ensures var r := Apply(rows, Check(project, found), now, snooze);
      |rows| <= |r| && (forall i :: 0 <= i < |rows| ==> Settled(rows[i], r[i], project, found)) &&
      forall i :: |rows| <= i < |r| ==> r[i] == Row(r[i].fp, Open, now, 0.0) && Detected(project, found, r[i].fp)
  {
    var fps := Prints(project, found);
    var all := ObserveAll(rows, now, snooze, fps);
    ObserveAllAppends(rows, now, snooze, fps);
    forall i | 0 <= i < |all| ensures all[i].fp in fps <==> Detected(project, found, all[i].fp) {
      DetectedExactly(project, found, all[i].fp);
    }
    assert forall i :: 0 <= i < |rows| ==> rows[i] == all[i];
    assert forall i :: 0 <= i < |fps| ==> fps[i].project == project;
  }
}
