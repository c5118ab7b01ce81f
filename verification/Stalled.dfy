/**
 The scheduler stops when the search of one due agent finds nothing: no later agent is served and no
 run starts, tick after tick, until that agent is edited. A yearly schedule on a leap day does it.
 */
module Stalled {
  import opened Util
  import opened Cron
  import opened Runs
  import opened CatchUp
  import opened Scheduling
  import opened Safety
  import opened Progress

  // ---- once raised, always raised ----------------------------------------------------

  lemma {:induction false} LatestStaysNone(s: Sched, occ: real, now: real, later: real, n: nat)
    requires LatestFrom(s, occ, now, n).None? && now <= later
    ensures LatestFrom(s, occ, later, n).None?
    decreases n
  {
    if Next(s, occ).Some? {
      LatestStaysNone(s, Next(s, occ).value, now, later, n - 1);
    }
  }

  /** What decides whether an agent is due, and for when. */
  ghost predicate SameSchedule(a: Agent, b: Agent) {
    a.active == b.active && a.nextRun == b.nextRun && a.trigger == b.trigger && a.sched == b.sched
  }

  lemma RaisesLater(d: Tables, e: Tables, j: nat, now: real, later: real)
    requires Raises(d, j, now) && now <= later && j < |e.agents| && SameSchedule(d.agents[j], e.agents[j])
    ensures Raises(e, j, later)
  {
    LatestStaysNone(d.agents[j].sched.value, d.agents[j].nextRun.value, now, later, LOOKBACK);
  }

  /** Nothing is running in `u` that was not running in `t`. */
  ghost predicate NoneStarted(t: Table, u: Table) {
    forall k :: 0 <= k < |u| && u[k].status == Running ==> k < |t| && t[k].status == Running
  }

  /** The event neither edits nor pauses agent `j`. */
  predicate LeavesAlone(s: Sys, e: Event, j: nat) {
    match e
    case Edit(i, _) => i != j
    case Revoke(i) => i != j
    case Record(id, ending) => ending.OwnerLost? ==> id >= |s.d.runs| || s.d.runs[id].agent != j
    case _ => true
  }

  lemma StalledTick(c: Config, s: Sys, creds: bool, allowed: set<nat>, now: real, clock: real, j: nat)
    requires Inv(c, s, clock) && clock <= now && Raises(s.d, j, now)
    ensures var u := Ticked(c, s, creds, now, allowed);
      j < |u.d.agents| && u.d.agents[j] == s.d.agents[j] && NoneStarted(s.d.runs, u.d.runs)
  {
    var ids := DueAmong(s.d.agents, now, |s.d.agents|);
    DueAmongIsAllDue(s.d, now);
    TurnsStopAt(s.d, ids, now, c.misfire, !creds, j, j);
    TurnsKeep(s.d, ids, now, c.misfire, !creds, clock);
  }

  lemma StalledFrame(c: Config, s: Sys, e: Event, now: real, j: nat)
    requires j < |s.d.agents| && LeavesAlone(s, e, j) && !e.Tick?
    ensures var u := Step(c, s, e, now);
      j < |u.d.agents| && SameSchedule(s.d.agents[j], u.d.agents[j])
  {
  }

  lemma StalledStartsNone(c: Config, s: Sys, e: Event, now: real, clock: real)
    requires Inv(c, s, clock) && !e.Tick?
    ensures NoneStarted(s.d.runs, Step(c, s, e, now).d.runs)
  {
    if e.Record? && e.id in s.tasks && e.id !in s.recorded {
      EndedIsFinal(s, e.id, e.ending, now);
    }
  }

  lemma StalledStep(c: Config, s: Sys, e: Event, now: real, clock: real, j: nat)
    requires Inv(c, s, clock) && clock <= now && EventOk(e) && Raises(s.d, j, clock) && LeavesAlone(s, e, j)
    ensures Raises(Step(c, s, e, now).d, j, now) && NoneStarted(s.d.runs, Step(c, s, e, now).d.runs)
  {
    RaisesLater(s.d, s.d, j, clock, now);
    if e.Tick? {
      StalledTick(c, s, e.creds, e.allowed, now, clock, j);
    } else {
      StalledFrame(c, s, e, now, j);
      StalledStartsNone(c, s, e, now, clock);
    }
    RaisesLater(s.d, Step(c, s, e, now).d, j, clock, now);
  }

  // ---- over whole runs ---------------------------------------------------------------

  /** The events `m` to `n` of a run leave agent `j` alone. */
  ghost predicate Untouched(c: Config, es: seq<(real, Event)>, m: nat, n: nat, j: nat) {
    forall k :: m <= k < n <= |es| ==> LeavesAlone(Reached(c, es[..k]), es[k].1, j)
  }

  /** At the end of `run` the search of agent `j` raises, and nothing has been started since `before`. */
  ghost predicate Standstill(c: Config, before: seq<(real, Event)>, run: seq<(real, Event)>, j: nat) {
    Raises(Reached(c, run).d, j, ClockOf(run)) && NoneStarted(Reached(c, before).d.runs, Reached(c, run).d.runs)
  }

  lemma StandstillLasts(c: Config, before: seq<(real, Event)>, init: seq<(real, Event)>, last: (real, Event), j: nat)
    requires RunOk(init + [last]) && LeavesAlone(Reached(c, init), last.1, j) && Standstill(c, before, init, j)
    ensures Standstill(c, before, init + [last], j)
  {
    var all := init + [last];
    assert all[..|all| - 1] == init && all[|init|] == last;
    PrefixOk(all, |init|);
    ReachedIsSafe(c, init);
    StalledStep(c, Reached(c, init), last.1, last.0, ClockOf(init), j);
  }

  lemma StandstillAt(c: Config, es: seq<(real, Event)>, m: nat, n: nat, j: nat)
    requires RunOk(es) && m <= n < |es| && LeavesAlone(Reached(c, es[..n]), es[n].1, j)
    requires Standstill(c, es[..m], es[..n], j)
    ensures Standstill(c, es[..m], es[..n + 1], j)
  {
    PrefixOk(es, n + 1);
    assert es[..n + 1] == es[..n] + [es[n]];
    StandstillLasts(c, es[..m], es[..n], es[n], j);
  }

  /**
   While nobody edits or pauses the agent whose search raised, no run is started again, whatever else
   happens and however many ticks go by: from event `m` of a run on, up to any event `n`.
   */
  lemma {:induction false} StalledUntilEdited(c: Config, es: seq<(real, Event)>, m: nat, n: nat, j: nat)
    requires RunOk(es) && m <= n <= |es| && Untouched(c, es, m, n, j)
    requires Raises(Reached(c, es[..m]).d, j, ClockOf(es[..m]))
    ensures Standstill(c, es[..m], es[..n], j)
    decreases n
  {
    if m < n {
      UntouchedBefore(c, es, m, n, j);
      StalledUntilEdited(c, es, m, n - 1, j);
      StandstillAt(c, es, m, n - 1, j);
    } else {
      StandstillHere(c, es[..m], j);
    }
  }

  lemma StandstillHere(c: Config, run: seq<(real, Event)>, j: nat)
    requires Raises(Reached(c, run).d, j, ClockOf(run))
    ensures Standstill(c, run, run, j)
  {
  }

  lemma UntouchedBefore(c: Config, es: seq<(real, Event)>, m: nat, n: nat, j: nat)
    requires Untouched(c, es, m, n, j) && m < n <= |es|
    ensures Untouched(c, es, m, n - 1, j) && LeavesAlone(Reached(c, es[..n - 1]), es[n - 1].1, j)
  {
  }

  // ---- a leap day does it ------------------------------------------------------------

  /** Month and day of the `n`-th day of a year without a leap day, from 0. */
  function CommonDay(n: int, dow: int): Date
    requires 0 <= n < 365
  {
    if n < 31 then Date(1, n + 1, dow)
    else if n < 59 then Date(2, n - 30, dow)
    else if n < 90 then Date(3, n - 58, dow)
    else if n < 120 then Date(4, n - 89, dow)
    else if n < 151 then Date(5, n - 119, dow)
    else if n < 181 then Date(6, n - 150, dow)
    else if n < 212 then Date(7, n - 180, dow)
    else if n < 243 then Date(8, n - 211, dow)
    else if n < 273 then Date(9, n - 242, dow)
    else if n < 304 then Date(10, n - 272, dow)
    else if n < 334 then Date(11, n - 303, dow)
    else Date(12, n - 333, dow)
  }

  /** The calendar from 28 February 2096, day 0, to 28 February 2104: 2100 has no leap day. */
  function From2096(day: int): Date {
    if day == 1 then Date(2, 29, 3)
    else if day > 1 then CommonDay((day + 57) % 365, (day + 2) % 7)
    else CommonDay((day + 58) % 365, (day + 2) % 7)
  }

  const LEAP_DAY := Sched(Cron({0}, {0}, {29}, {2}, {0, 1, 2, 3, 4, 5, 6}, false, true), UTC, From2096)

  const DAILY := Sched(Cron({0}, {0}, set v | 1 <= v <= 31, set v | 1 <= v <= 12, {0, 1, 2, 3, 4, 5, 6}, true, true),
                       UTC, From2096)

  const MIDNIGHT: real := 86400.0

  lemma LeapDayFires(t: int)
    ensures Fires(LEAP_DAY, t) <==> t == 1440
  {
    if t == 1440 {
      assert t / 1440 == 1 && t / 60 % 24 == 0 && t % 60 == 0;
    }
    if Fires(LEAP_DAY, t) {
      assert t / 1440 == 1;
      assert t / 60 % 24 == 0 && t % 60 == 0;
    }
  }

  lemma DailyFires(t: int)
    ensures Fires(DAILY, t) <==> t % 1440 == 0
  {
    if Fires(DAILY, t) {
      assert t / 60 % 24 == 0 && t % 60 == 0;
    }
    if t % 1440 == 0 {
      assert t == t / 1440 * 1440;
      assert t / 60 % 24 == 0 && t % 60 == 0;
      assert From2096(t / 1440).month in DAILY.cron.months;
    }
  }

  /** Both schedules, asked on the eve, fire at midnight. */
  lemma NextMidnight(s: Sched)
    requires s == LEAP_DAY || s == DAILY
    ensures Next(s, 0.0) == Some(MIDNIGHT)
  {
    LeapDayFires(1440);
    DailyFires(1440);
    assert WallMinute(UTC, 0.0) == 0;
    assert Due(s, 1440, 0.0);
    ScanFindsFirst(s, 0.0, 1, WINDOW);
    var u := Scan(s, 0.0, 1, WINDOW).value;
    var v :| 1 <= v <= WINDOW && FirstDue(s, 0.0, 1, v) && u == UTC.utc(v);
    LeapDayFires(v);
    DailyFires(v);
    assert v <= 1440;
  }

  /** From the leap day of 2096 on, the search finds nothing: the next one is eight years later. */
  lemma NothingAfterLeapDay()
    ensures Next(LEAP_DAY, MIDNIGHT).None?
  {
    assert WallMinute(UTC, MIDNIGHT) == 1440;
    ScanFindsFirst(LEAP_DAY, MIDNIGHT, 1441, 1440 + WINDOW);
    if u :| Scan(LEAP_DAY, MIDNIGHT, 1441, 1440 + WINDOW) == Some(u) {
      var v :| 1441 <= v <= 1440 + WINDOW && FirstDue(LEAP_DAY, MIDNIGHT, 1441, v) && u == UTC.utc(v);
      LeapDayFires(v);
      assert false;
    }
  }

  function CronAgent(s: Sched): Agent {
    Agent(true, OnCron, Some(s), None, None, None)
  }

  /** Two agents made on the eve, a leap-day one and a daily one, then a tick at midnight. */
  function Eve(): seq<(real, Event)> {
    [(0.0, Edit(0, CronAgent(LEAP_DAY))), (0.0, Edit(1, CronAgent(DAILY)))]
  }

  lemma EveReached(c: Config)
    ensures RunOk(Eve())
    ensures Reached(c, Eve()) == FRESH.(d := Tables([], [CronAgent(LEAP_DAY).(nextRun := Some(MIDNIGHT)),
                                                        CronAgent(DAILY).(nextRun := Some(MIDNIGHT))]))
  {
    UtcIsZone();
    NextMidnight(LEAP_DAY);
    NextMidnight(DAILY);
    var one := Eve()[..1];
    assert one[..0] == [] && Reached(c, []) == FRESH;
    assert Reached(c, one) == Edited(FRESH, 0, CronAgent(LEAP_DAY), 0.0);
    assert Eve()[..|Eve()| - 1] == one;
    assert Reached(c, Eve()) == Edited(Reached(c, one), 1, CronAgent(DAILY), 0.0);
  }

  /**
   A reachable run on which an agent is due and gets no row: at midnight of 29 February 2096 the search
   of the leap-day agent finds nothing in its window, the tick ends there, and the daily agent is not
   served.
   */
  lemma LeapDayStalls(c: Config, creds: bool, allowed: set<nat>)
    ensures RunOk(Eve() + [(MIDNIGHT, Tick(creds, allowed))])
    ensures var s, u := Reached(c, Eve()), Reached(c, Eve() + [(MIDNIGHT, Tick(creds, allowed))]);
      |s.d.agents| == 2 && IsDue(s.d.agents[1], MIDNIGHT) && !Raises(s.d, 1, MIDNIGHT) && Raises(s.d, 0, MIDNIGHT) &&
      u == s.(d := u.d) && |u.d.agents| > 1 && u.d.agents[1] == s.d.agents[1] && NoNewRow(s.d.runs, u.d.runs, 1)
  {
    EveReached(c);
    var s := Reached(c, Eve());
    var run := Eve() + [(MIDNIGHT, Tick(creds, allowed))];
    assert run[..|run| - 1] == Eve();
    NothingAfterLeapDay();
    LeapDayRaises(s.d.agents[0]);
    DailyDoesNot(s.d.agents[1]);
    TickStopsAt(c, s, creds, MIDNIGHT, allowed, 0, 1);
  }

  lemma LeapDayRaises(a: Agent)
    requires a == CronAgent(LEAP_DAY).(nextRun := Some(MIDNIGHT))
    ensures IsDue(a, MIDNIGHT) && DueOccurrence(a, MIDNIGHT).Raised?
  {
    NothingAfterLeapDay();
  }

  lemma DailyDoesNot(a: Agent)
    requires a == CronAgent(DAILY).(nextRun := Some(MIDNIGHT))
    ensures IsDue(a, MIDNIGHT) && !DueOccurrence(a, MIDNIGHT).Raised?
  {
    DailyFires(2880);
    UtcIsZone();
    NextIsLeast(DAILY, MIDNIGHT);
    assert WallMinute(UTC, MIDNIGHT) == 1440;
    assert Due(DAILY, 2880, MIDNIGHT);
  }
}
