/**
 The 5-field cron evaluator: a wall-clock search with day, hour and minute skips, over a
 time zone whose clock jumps forward and back.
 */
module Cron {
  import opened Util

  /** A calendar day: month 1..12, day of month 1..31, weekday 0..6 with Sunday = 0. */
  datatype Date = Date(month: int, dom: int, dow: int)

  datatype Cron = Cron(minutes: set<int>, hours: set<int>, doms: set<int>, months: set<int>, dows: set<int>,
                       domStar: bool, dowStar: bool)

  predicate DayOk(c: Cron, d: Date) {
    if d.month !in c.months then false
    else
      var domOk := d.dom in c.doms;
      var dowOk := d.dow in c.dows;
      if c.domStar && c.dowStar then true
      else if c.domStar then dowOk
      else if c.dowStar then domOk
      else domOk || dowOk
  }

  /**
   A time zone. `local` maps a UTC instant in seconds to wall-clock seconds; `utc` maps a
   wall-clock minute to the instant of its first pass. Wall clocks are read on one time
   line: minute 0 is a midnight, and 1440 minutes make a day.
   */
  datatype Zone = Zone(local: real -> real, utc: int -> real)

  /** The wall-clock minute shown at instant `u`. */
  function WallMinute(z: Zone, u: real): int {
    (z.local(u) / 60.0).Floor
  }

  /** The wall-clock minute `t` is shown at some instant: its instant maps back to it. */
  predicate Exists(z: Zone, t: int) {
    z.local(z.utc(t)) == (60 * t) as real
  }

  /** What the zone database guarantees. */
  ghost predicate ZoneOk(z: Zone) {
    (forall t, v :: t < v && Exists(z, t) && Exists(z, v) ==> z.utc(t) < z.utc(v)) &&
    (forall t, u :: Exists(z, t) && z.utc(t) > u ==> t > WallMinute(z, u))
  }

  /** A schedule: a cron expression, its zone, and the calendar (`cal` dates the day number). */
  datatype Sched = Sched(cron: Cron, zone: Zone, cal: int -> Date)

  predicate Matches(s: Sched, t: int) {
    DayOk(s.cron, s.cal(t / 1440)) && t / 60 % 24 in s.cron.hours && t % 60 in s.cron.minutes
  }

  /** The wall-clock minute `t` is an occurrence. */
  predicate Fires(s: Sched, t: int) {
    Matches(s, t) && Exists(s.zone, t)
  }

  predicate Due(s: Sched, t: int, after: real) {
    Fires(s, t) && s.zone.utc(t) > after
  }

  const WINDOW := 366 * 5 * 1440

  // ---- the simple form: minute by minute ---------------------------------------------

  function Scan(s: Sched, after: real, t: int, limit: int): Option<real>
    decreases limit - t
  {
    if t > limit then None
    else if Due(s, t, after) then Some(s.zone.utc(t))
    else Scan(s, after, t + 1, limit)
  }

  /** First occurrence strictly after `after`; None when the code raises CronError. */
  function Next(s: Sched, after: real): Option<real> {
    var now := WallMinute(s.zone, after);
    Scan(s, after, now + 1, now + WINDOW)
  }

  lemma {:induction false} ScanSkips(s: Sched, after: real, t: int, u: int, limit: int)
    requires t <= u && forall v :: t <= v < u ==> !Due(s, v, after)
    ensures Scan(s, after, t, limit) == Scan(s, after, u, limit)
    decreases u - t
  {
    if t < u && t <= limit {
      ScanSkips(s, after, t + 1, u, limit);
    }
  }

  // ---- the fast form: `next_after` ---------------------------------------------------

  /** The day, hour and minute jumps skip no occurrence: the fast search is the simple one. */
  method NextAfter(s: Sched, after: real) returns (r: Option<real>)
    ensures r == Next(s, after)
  {
    var now := WallMinute(s.zone, after);
    var t := now + 1;
    var limit := now + WINDOW;
    while t <= limit
      invariant now < t
      invariant Scan(s, after, t, limit) == Next(s, after)
      decreases limit - t
    {
      if !DayOk(s.cron, s.cal(t / 1440)) {
        var midnight := (t + 1440) / 1440 * 1440;
        assert forall v :: t <= v < midnight ==> v / 1440 == t / 1440;
        ScanSkips(s, after, t, midnight, limit);
        t := midnight;
        continue;
      }
      if t / 60 % 24 !in s.cron.hours {
        var hour := (t + 60) / 60 * 60;
        assert forall v :: t <= v < hour ==> v / 60 == t / 60;
        ScanSkips(s, after, t, hour, limit);
        t := hour;
        continue;
      }
      if t % 60 !in s.cron.minutes {
        t := t + 1;
        continue;
      }
      var ts := s.zone.utc(t);
      var back := s.zone.local(ts);
      if back == (60 * t) as real && ts > after {
        return Some(ts);
      }
      t := t + 1;
    }
    r := None;
  }

  // ---- what the search returns -------------------------------------------------------

  /** `v` is the first minute from `t` on that is due. */
  ghost predicate FirstDue(s: Sched, after: real, t: int, v: int) {
    Due(s, v, after) && forall w :: t <= w < v ==> !Due(s, w, after)
  }

  lemma {:induction false} ScanFindsFirst(s: Sched, after: real, t: int, limit: int)
    ensures match Scan(s, after, t, limit)
      case Some(u) => exists v :: t <= v <= limit && FirstDue(s, after, t, v) && u == s.zone.utc(v)
      case None => forall v :: t <= v <= limit ==> !Due(s, v, after)
    decreases limit - t
  {
    if t <= limit && !Due(s, t, after) {
      ScanFindsFirst(s, after, t + 1, limit);
    }
  }

  ghost predicate IsOccurrence(s: Sched, u: real) {
    exists t :: Fires(s, t) && s.zone.utc(t) == u
  }

  /**
   The result is the least instant strictly after `after` whose wall-clock minute exists and
   matches, and the search fails exactly when its five-year window holds no such minute.
   */
  lemma NextIsLeast(s: Sched, after: real)
    requires ZoneOk(s.zone)
    ensures Next(s, after).Some? ==>
      var u := Next(s, after).value;
      u > after && IsOccurrence(s, u) && forall w :: IsOccurrence(s, w) && w > after ==> u <= w
    ensures Next(s, after).None? <==>
      forall t :: Due(s, t, after) ==> t > WallMinute(s.zone, after) + 5 * 366 * 24 * 60
  {
    var now := WallMinute(s.zone, after);
    ScanFindsFirst(s, after, now + 1, now + WINDOW);
    assert forall t :: Due(s, t, after) ==> t > now;
    if Next(s, after).Some? {
      var u := Next(s, after).value;
      var v :| now + 1 <= v <= now + WINDOW && FirstDue(s, after, now + 1, v) && u == s.zone.utc(v);
      forall w | IsOccurrence(s, w) && w > after ensures u <= w {
        var t :| Fires(s, t) && s.zone.utc(t) == w;
        assert Due(s, t, after) && t >= v;
        assert t == v || s.zone.utc(v) < s.zone.utc(t);
      }
    }
  }

  /** No occurrence is stepped over: between `after` and the result there is none. */
  lemma NothingBetween(s: Sched, after: real, u: real)
    requires ZoneOk(s.zone) && Next(s, after).Some? && after < u < Next(s, after).value
    ensures !IsOccurrence(s, u)
  {
    NextIsLeast(s, after);
  }

  // ---- days, hours and minutes -------------------------------------------------------

  /** The wall-clock minute `h`:`m` of a day. */
  function At(day: int, h: int, m: int): int {
    1440 * day + 60 * h + m
  }

  /** `h`:`m` of that day is a time of the schedule: it exists, and day, hour and minute are listed. */
  ghost predicate IsTime(s: Sched, day: int, h: int, m: int) {
    && 0 <= h < 24 && 0 <= m < 60
    && s.zone.local(s.zone.utc(At(day, h, m))) == (60 * At(day, h, m)) as real
    && Accepts(s.cron, s.cal(day))
    && h in s.cron.hours && m in s.cron.minutes
  }

  /** A day is accepted in its month if both day fields allow it, or, with neither starred, if one of them does. */
  predicate Accepts(c: Cron, d: Date) {
    && d.month in c.months
    && (((c.domStar || d.dom in c.doms) && (c.dowStar || d.dow in c.dows))
        || (!c.domStar && !c.dowStar && (d.dom in c.doms || d.dow in c.dows)))
  }

  lemma Clock(day: int, h: int, m: int)
    requires 0 <= h < 24 && 0 <= m < 60
    ensures At(day, h, m) / 1440 == day && At(day, h, m) / 60 % 24 == h && At(day, h, m) % 60 == m
  {
    assert At(day, h, m) / 60 == 24 * day + h;
  }

  /** Every wall-clock minute is one time of one day. */
  lemma ReadClock(t: int) returns (day: int, h: int, m: int)
    ensures 0 <= h < 24 && 0 <= m < 60 && t == At(day, h, m)
  {
    day, h, m := t / 1440, t / 60 % 24, t % 60;
    assert t / 60 == 24 * (t / 60 / 24) + t / 60 % 24;
    assert t / 60 / 24 == t / 1440;
  }

  /** A minute is an occurrence exactly when its day, its hour and its minute are those of the schedule. */
  lemma FiresExactly(s: Sched, day: int, h: int, m: int)
    requires 0 <= h < 24 && 0 <= m < 60
    ensures Fires(s, At(day, h, m)) <==> IsTime(s, day, h, m)
  {
    Clock(day, h, m);
  }

  /** A time of the schedule whose instant is after `after`. */
  ghost predicate TimeAfter(s: Sched, after: real, day: int, h: int, m: int) {
    IsTime(s, day, h, m) && s.zone.utc(At(day, h, m)) > after
  }

  lemma TimeIsDue(s: Sched, after: real, day: int, h: int, m: int)
    requires TimeAfter(s, after, day, h, m)
    ensures Due(s, At(day, h, m), after) && IsOccurrence(s, s.zone.utc(At(day, h, m)))
  {
    FiresExactly(s, day, h, m);
  }

  lemma DueIsTime(s: Sched, after: real, t: int) returns (day: int, h: int, m: int)
    requires Due(s, t, after)
    ensures t == At(day, h, m) && TimeAfter(s, after, day, h, m)
  {
    day, h, m := ReadClock(t);
    FiresExactly(s, day, h, m);
  }

  /**
   The next run is at a time of the schedule after `after`, and no other lies before it; there is none
   exactly when no time of the schedule after `after` is within five years.
   */
  lemma NextIsNextTime(s: Sched, after: real)
    requires ZoneOk(s.zone)
    ensures Next(s, after).Some? ==>
      var u := Next(s, after).value;
      && (exists day, h, m :: TimeAfter(s, after, day, h, m) && u == s.zone.utc(At(day, h, m)))
      && forall day, h, m :: TimeAfter(s, after, day, h, m) ==> u <= s.zone.utc(At(day, h, m))
    ensures Next(s, after).None? <==>
      forall day, h, m :: TimeAfter(s, after, day, h, m) ==> At(day, h, m) > WallMinute(s.zone, after) + 5 * 366 * 1440
  {
    NextIsLeast(s, after);
    forall day, h, m | TimeAfter(s, after, day, h, m)
      ensures Due(s, At(day, h, m), after) && IsOccurrence(s, s.zone.utc(At(day, h, m)))
    {
      TimeIsDue(s, after, day, h, m);
    }
    if Next(s, after).Some? {
      NextIsATime(s, after);
    } else {
      NoneMeansNoTime(s, after);
    }
  }

  lemma NextIsATime(s: Sched, after: real)
    requires ZoneOk(s.zone) && Next(s, after).Some?
    ensures exists day, h, m :: TimeAfter(s, after, day, h, m) && Next(s, after).value == s.zone.utc(At(day, h, m)) &&
              At(day, h, m) <= WallMinute(s.zone, after) + 5 * 366 * 1440
  {
    var now := WallMinute(s.zone, after);
    ScanFindsFirst(s, after, now + 1, now + WINDOW);
    var v :| now + 1 <= v <= now + WINDOW && FirstDue(s, after, now + 1, v) && Next(s, after).value == s.zone.utc(v);
    var day, h, m := DueIsTime(s, after, v);
  }

  lemma NoneMeansNoTime(s: Sched, after: real)
    requires ZoneOk(s.zone) && Next(s, after).None?
    ensures forall day, h, m :: TimeAfter(s, after, day, h, m) ==>
              At(day, h, m) > WallMinute(s.zone, after) + 5 * 366 * 1440
  {
    NextIsLeast(s, after);
    forall day, h, m | TimeAfter(s, after, day, h, m)
      ensures At(day, h, m) > WallMinute(s.zone, after) + 5 * 366 * 1440
    {
      TimeIsDue(s, after, day, h, m);
    }
  }

  /** Universal time: every minute exists once. */
  const UTC := Zone((u: real) => u, (t: int) => (60 * t) as real)

  lemma UtcIsZone()
    ensures ZoneOk(UTC)
  {
  }

  function Between(lo: int, hi: int): (r: set<int>)
    ensures forall v :: v in r <==> lo <= v <= hi
    decreases hi - lo
  {
    if lo > hi then {} else {lo} + Between(lo + 1, hi)
  }

  /** `m h * * *`. */
  function EveryDay(h: int, m: int): Cron {
    Cron({m}, {h}, Between(1, 31), Between(1, 12), Between(0, 6), true, true)
  }

  lemma EveryDayTimes(s: Sched, after: real, d: int, h: int, m: int)
    requires s.cron == EveryDay(9, 30) && s.zone == UTC
    ensures TimeAfter(s, after, d, h, m) ==> h == 9 && m == 30
    ensures IsDate(s.cal(d)) && (60 * At(d, 9, 30)) as real > after ==> TimeAfter(s, after, d, 9, 30)
  {
  }

  lemma SameDay(d: int, day: int)
    requires 86400 * day < 60 * At(d, 9, 30) <= 60 * At(day, 9, 30)
    ensures d == day
  {
  }

  /** `30 9 * * *`: from the midnight of any day, the next run is at half past nine of that day. */
  lemma HalfPastNine(cal: int -> Date, day: int)
    requires IsDate(cal(day))
    ensures Next(Sched(EveryDay(9, 30), UTC, cal), (86400 * day) as real)
            == Some((86400 * day + 9 * 3600 + 30 * 60) as real)
  {
    var s, after := Sched(EveryDay(9, 30), UTC, cal), (86400 * day) as real;
    UtcIsZone();
    EveryDayTimes(s, after, day, 9, 30);
    NextIsNextTime(s, after);
    MidnightMinute(day);
    var d, h, m :| TimeAfter(s, after, d, h, m) && Next(s, after).value == s.zone.utc(At(d, h, m));
    EveryDayTimes(s, after, d, h, m);
    SameDay(d, day);
  }

  lemma MidnightMinute(day: int)
    ensures WallMinute(UTC, (86400 * day) as real) == 1440 * day
  {
    assert (86400 * day) as real / 60.0 == (1440 * day) as real;
  }

  // ---- a zone with one summer --------------------------------------------------------

  /**
   One hour ahead of UTC, two hours between the instants `a` and `b`. In the gap
   `utc` applies the offset in force before the change, like `fold=0`.
   */
  function Summer(a: real, b: real): Zone {
    Zone(u => if a <= u < b then u + 7200.0 else u + 3600.0,
         t => var w := (60 * t) as real;
              if w < a + 7200.0 then w - 3600.0 else if w < b + 7200.0 then w - 7200.0 else w - 3600.0)
  }

  /** The assumptions on zones hold of a zone with a gap and a repeated hour. */
  lemma SummerIsZone(a: real, b: real)
    requires a + 3600.0 <= b
    ensures ZoneOk(Summer(a, b))
  {
    var z := Summer(a, b);
    forall t | Exists(z, t) ensures (60 * t) as real < a + 3600.0 || a + 7200.0 <= (60 * t) as real {
      SummerGap(a, b, t);
    }
    forall t, u | Exists(z, t) && z.utc(t) > u ensures t > WallMinute(z, u) {
      assert (60 * t) as real > z.local(u);
      assert t as real > z.local(u) / 60.0;
    }
  }

  /** A wall-clock minute of the spring gap does not exist; every other one does. */
  lemma SummerGap(a: real, b: real, t: int)
    requires a + 3600.0 <= b
    ensures Exists(Summer(a, b), t) <==> !(a + 3600.0 <= (60 * t) as real < a + 7200.0)
  {
  }

  /** The repeated hour fires on its first pass only, never in the hour after `b`. */
  lemma SummerRepeat(a: real, b: real, s: Sched, u: real)
    requires a + 3600.0 <= b && s.zone == Summer(a, b) && IsOccurrence(s, u)
    ensures !(b <= u < b + 3600.0)
  {
    var t :| Fires(s, t) && s.zone.utc(t) == u;
    SummerGap(a, b, t);
  }

  // ---- fields ------------------------------------------------------------------------

  /** One item of a comma-separated field; the step of `x/n`, 1 when there is none. */
  datatype Item = Empty | Star(step: nat) | Range(first: int, last: int, step: nat) | Single(only: int, step: nat)

  function First(i: Item, lo: int): int
    requires !i.Empty?
  {
    match i case Star(_) => lo case Range(a, _, _) => a case Single(a, _) => a
  }

  function Last(i: Item, hi: int): int
    requires !i.Empty?
  {
    match i case Star(_) => hi case Range(_, b, _) => b case Single(a, step) => if step > 1 then hi else a
  }

  predicate ItemOk(i: Item, lo: int, hi: int) {
    !i.Empty? && i.step != 0 && lo <= First(i, lo) <= Last(i, hi) <= hi
  }

  predicate InItem(i: Item, lo: int, hi: int, v: int)
    requires ItemOk(i, lo, hi)
  {
    First(i, lo) <= v <= Last(i, hi) && (v - First(i, lo)) % i.step == 0
  }

  /** `_field`: the values of a field, None when the code raises CronError. */
  method Field(items: seq<Item>, lo: int, hi: int) returns (out: Option<set<int>>)
    requires |items| > 0
    ensures out.None? <==> exists k :: 0 <= k < |items| && !ItemOk(items[k], lo, hi)
    ensures out.Some? ==> out.value != {} && forall v :: v in out.value <==>
      exists k :: 0 <= k < |items| && ItemOk(items[k], lo, hi) && InItem(items[k], lo, hi, v)
  {
    var values: set<int> := {};
    for k := 0 to |items|
      invariant forall j :: 0 <= j < k ==> ItemOk(items[j], lo, hi)
      invariant k > 0 ==> First(items[0], lo) in values
      invariant forall v :: v in values <==> exists j :: 0 <= j < k && InItem(items[j], lo, hi, v)
    {
      var i := items[k];
      if !ItemOk(i, lo, hi) {
        return None;
      }
      assert InItem(i, lo, hi, First(i, lo));
      values := values + set v | First(i, lo) <= v <= Last(i, hi) && InItem(i, lo, hi, v);
    }
    out := Some(values);
  }

  /** What the items of a field list. */
  lemma ItemsList(v: int)
    ensures InItem(Star(1), 0, 23, v) <==> 0 <= v <= 23
    ensures InItem(Range(9, 17, 1), 0, 23, v) <==> 9 <= v <= 17
    ensures InItem(Single(7, 1), 0, 59, v) <==> v == 7
    ensures !ItemOk(Empty, 0, 59) && !ItemOk(Star(0), 0, 59) && !ItemOk(Single(60, 1), 0, 59)
    ensures !ItemOk(Range(17, 9, 1), 0, 23) && !ItemOk(Range(0, 9, 1), 1, 31)
  {
  }

  lemma StarStep(v: int)
    ensures InItem(Star(15), 0, 59, v) <==> v in {0, 15, 30, 45}
  {
  }

  lemma RangeStep(v: int)
    ensures InItem(Range(9, 17, 4), 0, 23, v) <==> v in {9, 13, 17}
  {
  }

  lemma SingleStep(v: int)
    ensures InItem(Single(40, 10), 0, 59, v) <==> v in {40, 50}
  {
  }

  // ---- the day rule against its documentation ----------------------------------------

  /** Vixie cron: a starred day field restricts nothing by itself, otherwise either day field is enough. */
  predicate Vixie(c: Cron, d: Date) {
    d.month in c.months &&
    if c.domStar || c.dowStar then d.dom in c.doms && d.dow in c.dows
    else d.dom in c.doms || d.dow in c.dows
  }

  ghost predicate Full(s: set<int>, lo: int, hi: int) {
    forall v :: lo <= v <= hi ==> v in s
  }

  predicate IsDate(d: Date) {
    1 <= d.month <= 12 && 1 <= d.dom <= 31 && 0 <= d.dow <= 6
  }

  /**
   The documented rule holds of the code exactly when every starred day field is complete, as a
   plain `*` is and a stepped star is not.
   */
  lemma VixieWhenStarsAreFull(c: Cron, someDay: Date)
    requires IsDate(someDay) && someDay.month in c.months && someDay.dom in c.doms && someDay.dow in c.dows
    ensures (forall d :: IsDate(d) ==> (DayOk(c, d) <==> Vixie(c, d))) <==>
            (c.domStar ==> Full(c.doms, 1, 31)) && (c.dowStar ==> Full(c.dows, 0, 6))
  {
    if c.domStar && !Full(c.doms, 1, 31) {
      var v :| 1 <= v <= 31 && v !in c.doms;
      var d := someDay.(dom := v);
      assert IsDate(d) && DayOk(c, d) && !Vixie(c, d);
    }
    if c.dowStar && !Full(c.dows, 0, 6) {
      var v :| 0 <= v <= 6 && v !in c.dows;
      var d := someDay.(dow := v);
      assert IsDate(d) && DayOk(c, d) && !Vixie(c, d);
    }
  }

  /** A stepped star in the day-of-month field and `*` in the weekday field: the code fires on the 2nd. */
  lemma SteppedStarIsUnrestricted()
    ensures var c := Cron({0}, {2}, set v | 1 <= v <= 31 && v % 2 == 1, {1}, {0, 1, 2, 3, 4, 5, 6}, true, true);
      DayOk(c, Date(1, 2, 0)) && !Vixie(c, Date(1, 2, 0))
  {
  }
}
