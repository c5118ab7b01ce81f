/**
 Metering of one run: usage records of the same API message are merged by componentwise
 maximum, and the run stops before the next call would cross its budget.
 */
module Metering {
  import opened Util

  datatype Tokens = Tokens(input: nat, output: nat, cacheRead: nat, cacheWrite: nat)

  const ZERO := Tokens(0, 0, 0, 0)

  function Larger(x: nat, y: nat): nat {
    if x >= y then x else y
  }

  function Join(a: Tokens, b: Tokens): Tokens {
    Tokens(Larger(a.input, b.input), Larger(a.output, b.output),
           Larger(a.cacheRead, b.cacheRead), Larger(a.cacheWrite, b.cacheWrite))
  }

  function Plus(a: Tokens, b: Tokens): Tokens {
    Tokens(a.input + b.input, a.output + b.output, a.cacheRead + b.cacheRead, a.cacheWrite + b.cacheWrite)
  }

  function Count(t: Tokens): nat {
    t.input + t.output + t.cacheRead + t.cacheWrite
  }

  /** Prices per million tokens, and the exchange rate to US dollars (1 for a price in dollars). */
  datatype Price = Price(input: real, output: real, cacheRead: real, cacheWrite: real, fx: real)

  predicate PriceOk(p: Price) {
    p.input >= 0.0 && p.output >= 0.0 && p.cacheRead >= 0.0 && p.cacheWrite >= 0.0 && p.fx >= 0.0
  }

  /** `_cost_of`; an unknown price costs nothing. */
  function Cost(price: Option<Price>, t: Tokens): real {
    match price
    case None => 0.0
    case Some(p) => Native(p, t) / 1000000.0 * p.fx
  }

  function Native(p: Price, t: Tokens): real {
    t.input as real * p.input + t.output as real * p.output + t.cacheRead as real * p.cacheRead
    + t.cacheWrite as real * p.cacheWrite
  }

  /** `a` has at most the tokens of `b`, kind by kind. */
  predicate Leq(a: Tokens, b: Tokens) {
    a.input <= b.input && a.output <= b.output && a.cacheRead <= b.cacheRead && a.cacheWrite <= b.cacheWrite
  }

  lemma CostOfPlus(price: Option<Price>, a: Tokens, b: Tokens)
    ensures Cost(price, Plus(a, b)) == Cost(price, a) + Cost(price, b)
  {
    if price.Some? {
      assert Native(price.value, Plus(a, b)) == Native(price.value, a) + Native(price.value, b);
      Distribute(Native(price.value, a), Native(price.value, b), price.value.fx);
    }
  }

  lemma Distribute(x: real, y: real, fx: real)
    ensures (x + y) / 1000000.0 * fx == x / 1000000.0 * fx + y / 1000000.0 * fx
  {
  }

  lemma Times(x: real, y: real, p: real)
    requires x <= y && p >= 0.0
    ensures x * p <= y * p
  {
  }

  lemma NativeGrows(p: Price, a: Tokens, b: Tokens)
    requires PriceOk(p) && Leq(a, b)
    ensures Native(p, a) <= Native(p, b)
  {
    Times(a.input as real, b.input as real, p.input);
    Times(a.output as real, b.output as real, p.output);
    Times(a.cacheRead as real, b.cacheRead as real, p.cacheRead);
    Times(a.cacheWrite as real, b.cacheWrite as real, p.cacheWrite);
    AddUp(a.input as real * p.input, a.output as real * p.output, a.cacheRead as real * p.cacheRead,
          a.cacheWrite as real * p.cacheWrite, b.input as real * p.input, b.output as real * p.output,
          b.cacheRead as real * p.cacheRead, b.cacheWrite as real * p.cacheWrite);
  }

  lemma AddUp(a: real, b: real, c: real, d: real, w: real, x: real, y: real, z: real)
    requires a <= w && b <= x && c <= y && d <= z
    ensures a + b + c + d <= w + x + y + z
  {
  }

  lemma CostGrows(price: Option<Price>, a: Tokens, b: Tokens)
    requires (price.Some? ==> PriceOk(price.value)) && Leq(a, b)
    ensures Cost(price, a) <= Cost(price, b)
  {
    if price.Some? {
      NativeGrows(price.value, a, b);
      var x, y := Native(price.value, a), Native(price.value, b);
      Times(x / 1000000.0, y / 1000000.0, price.value.fx);
    }
  }

  lemma CostOfZero(price: Option<Price>)
    ensures Cost(price, ZERO) == 0.0
  {
    if price.Some? {
      var p := price.value;
      assert 0 as real * p.input == 0.0 && 0 as real * p.output == 0.0;
      assert 0 as real * p.cacheRead == 0.0 && 0 as real * p.cacheWrite == 0.0;
      assert Native(p, ZERO) == 0.0;
    }
  }

  // ---- sums over the values of a map -------------------------------------------------

  ghost function Total<K(!new)>(m: map<K, real>): real {
    if m == map[] then 0.0
    else
      var k := Pick(m.Keys);
      m[k] + Total(m - {k})
  }

  ghost function TokenTotal<K(!new)>(m: map<K, Tokens>): Tokens {
    if m == map[] then ZERO
    else
      var k := Pick(m.Keys);
      Plus(m[k], TokenTotal(m - {k}))
  }

  lemma {:induction false} TotalWithout<K(!new)>(m: map<K, real>, k: K)
    requires k in m
    ensures Total(m) == m[k] + Total(m - {k})
    decreases |m|
  {
    var j := Pick(m.Keys);
    if j != k {
      TotalWithout(m - {j}, k);
      TotalWithout(m - {k}, j);
      assert m - {j} - {k} == m - {k} - {j};
    }
  }

  lemma {:induction false} TokenTotalWithout<K(!new)>(m: map<K, Tokens>, k: K)
    requires k in m
    ensures TokenTotal(m) == Plus(m[k], TokenTotal(m - {k}))
    decreases |m|
  {
    var j := Pick(m.Keys);
    if j != k {
      TokenTotalWithout(m - {j}, k);
      TokenTotalWithout(m - {k}, j);
      assert m - {j} - {k} == m - {k} - {j};
    }
  }

  lemma TotalAfterUpdate<K(!new)>(m: map<K, real>, k: K, v: real)
    ensures Total(m[k := v]) == Total(m) - (if k in m then m[k] else 0.0) + v
  {
    TotalWithout(m[k := v], k);
    assert m[k := v] - {k} == m - {k};
    if k in m {
      TotalWithout(m, k);
    } else {
      assert m - {k} == m;
    }
  }

  ghost function Costs<K>(price: Option<Price>, m: map<K, Tokens>): map<K, real> {
    map k | k in m :: Cost(price, m[k])
  }

  /** Pricing the summed tokens is summing the priced messages. */
  lemma {:induction false} CostOfTotal<K(!new)>(price: Option<Price>, m: map<K, Tokens>)
    ensures Cost(price, TokenTotal(m)) == Total(Costs(price, m))
    decreases |m|
  {
    if m == map[] {
      CostOfZero(price);
    } else {
      var k := Pick(m.Keys);
      CostOfTotal(price, m - {k});
      CostOfPlus(price, m[k], TokenTotal(m - {k}));
      TotalWithout(Costs(price, m), k);
      assert Costs(price, m) - {k} == Costs(price, m - {k});
    }
  }

  // ---- costs per message, and the dearest one ----------------------------------------

  /** A message with an id, or the n-th record that came without one. */
  datatype Key = Msg(id: string) | Loose(n: nat)

  datatype Purse = Purse(costs: map<Key, real>, max: real)

  /** `max` is the maximum of the costs, 0 when there is none. */
  ghost predicate PurseOk(p: Purse) {
    0.0 <= p.max &&
    (forall k :: k in p.costs ==> 0.0 <= p.costs[k] <= p.max) &&
    (p.max == 0.0 || exists k :: k in p.costs && p.costs[k] == p.max)
  }

  function CostAt(p: Purse, k: Key): real {
    if k in p.costs then p.costs[k] else 0.0
  }

  function Put(p: Purse, k: Key, c: real): Purse {
    Purse(p.costs[k := c], Max(p.max, c))
  }

  lemma PutKeeps(p: Purse, k: Key, c: real)
    requires PurseOk(p) && 0.0 <= c && CostAt(p, k) <= c
    ensures PurseOk(Put(p, k, c))
    ensures Total(Put(p, k, c).costs) == Total(p.costs) + c - CostAt(p, k)
    ensures 0.0 <= c - CostAt(p, k) <= Put(p, k, c).max
  {
    var q := Put(p, k, c);
    TotalAfterUpdate(p.costs, k, c);
    if q.max > 0.0 {
      if c >= p.max {
        assert q.costs[k] == q.max;
      } else {
        var j :| j in p.costs && p.costs[j] == p.max;
        assert j != k;
        assert q.costs[j] == q.max;
      }
    }
  }

  lemma {:induction false} TotalOfZeros<K(!new)>(m: map<K, real>)
    requires forall k :: k in m ==> m[k] == 0.0
    ensures Total(m) == 0.0
    decreases |m|
  {
    if m != map[] {
      TotalOfZeros(m - {Pick(m.Keys)});
    }
  }

  /** The stop rule lets the next call start. */
  ghost predicate RoomForNext(p: Purse, budget: real) {
    p.max == 0.0 || Total(p.costs) + p.max <= budget
  }

  /**
   Overshoot: when the rule let the call start, the cost after it exceeds the budget by no more
   than the growth of the dearest message.
   */
  lemma Overshoot(p: Purse, k: Key, c: real, budget: real)
    requires PurseOk(p) && 0.0 <= c && CostAt(p, k) <= c && budget >= 0.0 && RoomForNext(p, budget)
    ensures var q := Put(p, k, c);
      Total(q.costs) <= budget - p.max + (Total(q.costs) - Total(p.costs)) &&
      Total(q.costs) <= budget + (q.max - p.max)
  {
    PutKeeps(p, k, c);
    if p.max == 0.0 {
      TotalOfZeros(p.costs);
    }
  }

  // ---- the token count ---------------------------------------------------------------

  /** Tokens per message; a record without an id is a message of its own. */
  datatype Ledger = Ledger(entries: map<Key, Tokens>, loose: nat, max: real)

  datatype Usage = Usage(tokens: Tokens, id: Option<string>)

  function KeyOf(l: Ledger, u: Usage): Key {
    match u.id case Some(id) => Msg(id) case None => Loose(l.loose)
  }

  function EntryAt(l: Ledger, k: Key): Tokens {
    if k in l.entries then l.entries[k] else ZERO
  }

  /** `add`. */
  function Record(l: Ledger, price: Option<Price>, u: Usage): Ledger {
    var k := KeyOf(l, u);
    var t := Join(u.tokens, EntryAt(l, k));
    Ledger(l.entries[k := t], if u.id.None? then l.loose + 1 else l.loose, Max(l.max, Cost(price, t)))
  }

  ghost function PurseOf(l: Ledger, price: Option<Price>): Purse {
    Purse(Costs(price, l.entries), l.max)
  }

  ghost predicate LedgerOk(l: Ledger, price: Option<Price>) {
    (price.Some? ==> PriceOk(price.value)) &&
    (forall n: nat :: Loose(n) in l.entries ==> n < l.loose) &&
    PurseOk(PurseOf(l, price))
  }

  /** `cost_usd`: the price of the summed tokens. */
  ghost function Spent(l: Ledger, price: Option<Price>): real {
    Cost(price, TokenTotal(l.entries))
  }

  /** Recording is putting the message's new cost into the purse. */
  lemma RecordIsPut(l: Ledger, price: Option<Price>, u: Usage)
    requires LedgerOk(l, price)
    ensures var k := KeyOf(l, u);
      var c := Cost(price, Join(u.tokens, EntryAt(l, k)));
      PurseOf(Record(l, price, u), price) == Put(PurseOf(l, price), k, c) &&
      0.0 <= c && CostAt(PurseOf(l, price), k) <= c
  {
    var k := KeyOf(l, u);
    var t := Join(u.tokens, EntryAt(l, k));
    CostGrows(price, EntryAt(l, k), t);
    CostGrows(price, ZERO, t);
    CostOfZero(price);
    assert Costs(price, Record(l, price, u).entries) == Costs(price, l.entries)[k := Cost(price, t)];
  }

  /** The cost is the sum of the messages' costs, `max` their maximum, and both stay so. */
  lemma RecordKeeps(l: Ledger, price: Option<Price>, u: Usage)
    requires LedgerOk(l, price)
    ensures LedgerOk(Record(l, price, u), price)
    ensures Spent(Record(l, price, u), price) == Total(Costs(price, Record(l, price, u).entries))
    ensures Spent(l, price) <= Spent(Record(l, price, u), price)
  {
    var k := KeyOf(l, u);
    RecordIsPut(l, price, u);
    PutKeeps(PurseOf(l, price), k, Cost(price, Join(u.tokens, EntryAt(l, k))));
    CostOfTotal(price, l.entries);
    CostOfTotal(price, Record(l, price, u).entries);
  }

  // ---- the stop rule -----------------------------------------------------------------

  datatype Verdict = Go | TokenCap | BudgetReached | NextCallTooDear

  /** `over` of a run that SOKKAN prices itself. */
  ghost function Over(l: Ledger, price: Option<Price>, budget: real, cap: nat): Verdict {
    Judge(Count(TokenTotal(l.entries)), cap, price.Some?, budget, Spent(l, price), l.max)
  }

  function Judge(tokens: nat, cap: nat, priced: bool, budget: real, spent: real, max: real): Verdict {
    if tokens >= cap then TokenCap
    else if priced && budget != 0.0 && spent >= budget then BudgetReached
    else if priced && budget != 0.0 && max != 0.0 && spent + max > budget then NextCallTooDear
    else Go
  }

  /** A million tokens of one kind cost the price of that kind; with `CostOfPlus` that is the cost of any count. */
  lemma UnitPrices(p: Price)
    ensures Cost(Some(p), Tokens(1000000, 0, 0, 0)) == p.input * p.fx
    ensures Cost(Some(p), Tokens(0, 1000000, 0, 0)) == p.output * p.fx
    ensures Cost(Some(p), Tokens(0, 0, 1000000, 0)) == p.cacheRead * p.fx
    ensures Cost(Some(p), Tokens(0, 0, 0, 1000000)) == p.cacheWrite * p.fx
  {
    assert 1000000 as real == 1000000.0 && 0 as real == 0.0;
    Million(p.input);
    Million(p.output);
    Million(p.cacheRead);
    Million(p.cacheWrite);
    assert Native(p, Tokens(1000000, 0, 0, 0)) == 1000000.0 * p.input;
    assert Native(p, Tokens(0, 1000000, 0, 0)) == 1000000.0 * p.output;
    assert Native(p, Tokens(0, 0, 1000000, 0)) == 1000000.0 * p.cacheRead;
    assert Native(p, Tokens(0, 0, 0, 1000000)) == 1000000.0 * p.cacheWrite;
  }

  lemma Million(x: real)
    ensures 1000000.0 * x / 1000000.0 == x && 0.0 * x == 0.0
  {
  }

  /** Every token counts once against the cap, whatever its kind. */
  lemma UnitCounts(a: Tokens, b: Tokens)
    ensures Count(Tokens(1, 0, 0, 0)) == 1 && Count(Tokens(0, 1, 0, 0)) == 1
    ensures Count(Tokens(0, 0, 1, 0)) == 1 && Count(Tokens(0, 0, 0, 1)) == 1
    ensures Count(Plus(a, b)) == Count(a) + Count(b)
  {
  }

  /** The dearest message, and with it the next one if as dear, still fits the budget. */
  ghost predicate OneMoreFits(l: Ledger, price: Option<Price>, budget: real) {
    forall k :: k in l.entries ==> Spent(l, price) + Cost(price, l.entries[k]) <= budget
  }

  /**
   The run goes on exactly while its tokens are below the cap and, when it has a price and a budget, it has
   spent less than the budget and a call as dear as any so far would not take it past.
   */
  lemma GoExactly(l: Ledger, price: Option<Price>, budget: real, cap: nat)
    requires LedgerOk(l, price)
    ensures Over(l, price, budget, cap) == Go <==>
            Count(TokenTotal(l.entries)) < cap &&
            (price.None? || budget == 0.0 || (Spent(l, price) < budget && OneMoreFits(l, price, budget)))
    ensures Over(l, price, budget, cap) == TokenCap <==> Count(TokenTotal(l.entries)) >= cap
    ensures Over(l, price, budget, cap) == BudgetReached <==>
            Count(TokenTotal(l.entries)) < cap && price.Some? && budget != 0.0 && Spent(l, price) >= budget
  {
    var tokens, spent := Count(TokenTotal(l.entries)), Spent(l, price);
    if spent < budget {
      MessagesFit(l, price, budget, spent, PurseOf(l, price));
    }
    JudgeExactly(tokens, cap, price.Some?, budget, spent, l.max, OneMoreFits(l, price, budget));
  }

  lemma JudgeExactly(tokens: nat, cap: nat, priced: bool, budget: real, spent: real, max: real, fits: bool)
    requires spent < budget ==> (fits <==> (max == 0.0 || spent + max <= budget))
    ensures var v := Judge(tokens, cap, priced, budget, spent, max);
      (v == Go <==> tokens < cap && (!priced || budget == 0.0 || (spent < budget && fits))) &&
      (v == TokenCap <==> tokens >= cap) &&
      (v == BudgetReached <==> tokens < cap && priced && budget != 0.0 && spent >= budget)
  {
  }

  lemma DearestFits(p: Purse, spent: real, budget: real)
    requires PurseOk(p) && spent < budget
    ensures (p.max == 0.0 || spent + p.max <= budget) <==> forall k :: k in p.costs ==> spent + p.costs[k] <= budget
  {
  }

  lemma MessagesFit(l: Ledger, price: Option<Price>, budget: real, spent: real, p: Purse)
    requires PurseOk(p) && p == PurseOf(l, price) && spent == Spent(l, price) && spent < budget
    ensures OneMoreFits(l, price, budget) <==> (l.max == 0.0 || spent + l.max <= budget)
  {
    DearestFits(p, spent, budget);
    if l.max == 0.0 || spent + l.max <= budget {
      forall k | k in l.entries ensures Spent(l, price) + Cost(price, l.entries[k]) <= budget {
        assert k in p.costs && p.costs[k] == Cost(price, l.entries[k]);
      }
    } else {
      var k :| k in p.costs && spent + p.costs[k] > budget;
      assert p.costs[k] == Cost(price, l.entries[k]);
    }
  }

  /** What one more record can cost once `over` said go. */
  lemma OneCallPastTheBudget(l: Ledger, price: Option<Price>, budget: real, cap: nat, u: Usage)
    requires LedgerOk(l, price) && price.Some? && budget > 0.0 && Over(l, price, budget, cap) == Go
    ensures var l' := Record(l, price, u);
      Spent(l', price) <= budget - l.max + (Spent(l', price) - Spent(l, price)) &&
      Spent(l', price) <= budget + (l'.max - l.max)
  {
    var k := KeyOf(l, u);
    RecordIsPut(l, price, u);
    CostOfTotal(price, l.entries);
    CostOfTotal(price, Record(l, price, u).entries);
    Overshoot(PurseOf(l, price), k, Cost(price, Join(u.tokens, EntryAt(l, k))), budget);
  }

  const EMPTY := Ledger(map[], 0, 0.0)

  ghost function RecordAll(us: seq<Usage>, price: Option<Price>): Ledger {
    if us == [] then EMPTY else Record(RecordAll(us[..|us| - 1], price), price, us[|us| - 1])
  }

  lemma {:induction false} RecordAllKeeps(us: seq<Usage>, price: Option<Price>)
    requires price.Some? ==> PriceOk(price.value)
    ensures LedgerOk(RecordAll(us, price), price)
  {
    if us != [] {
      RecordAllKeeps(us[..|us| - 1], price);
      RecordKeeps(RecordAll(us[..|us| - 1], price), price, us[|us| - 1]);
    }
  }

  /** A run that obeys `over` before every record costs at most its budget plus its dearest message. */
  lemma RunStaysNearBudget(us: seq<Usage>, price: Option<Price>, budget: real, cap: nat)
    requires price.Some? && PriceOk(price.value) && budget > 0.0 && us != []
    requires Over(RecordAll(us[..|us| - 1], price), price, budget, cap) == Go
    ensures Spent(RecordAll(us, price), price) <= budget + RecordAll(us, price).max
  {
    RecordAllKeeps(us[..|us| - 1], price);
    OneCallPastTheBudget(RecordAll(us[..|us| - 1], price), price, budget, cap, us[|us| - 1]);
  }

  // ---- order and duplication do not matter -------------------------------------------

  /** `t` is the least count that has at least the tokens of every record of message `id`. */
  ghost predicate LeastAbove(us: seq<Usage>, id: string, t: Tokens) {
    (forall u :: u in us && u.id == Some(id) ==> Leq(u.tokens, t)) &&
    (forall b :: (forall u :: u in us && u.id == Some(id) ==> Leq(u.tokens, b)) ==> Leq(t, b))
  }

  lemma {:induction false} EntriesAreLeast(us: seq<Usage>, price: Option<Price>, id: string)
    ensures var l := RecordAll(us, price);
      (Msg(id) in l.entries <==> exists u :: u in us && u.id == Some(id)) &&
      LeastAbove(us, id, EntryAt(l, Msg(id)))
  {
    if us != [] {
      var init, last := us[..|us| - 1], us[|us| - 1];
      assert us == init + [last];
      EntriesAreLeast(init, price, id);
      assert last in us && forall u :: u in us <==> u in init || u == last;
      JoinIsLeast(init, last, us, id, EntryAt(RecordAll(init, price), Msg(id)));
    }
  }

  lemma JoinIsLeast(init: seq<Usage>, last: Usage, us: seq<Usage>, id: string, t: Tokens)
    requires LeastAbove(init, id, t) && forall u :: u in us <==> u in init || u == last
    ensures last.id == Some(id) ==> LeastAbove(us, id, Join(last.tokens, t))
    ensures last.id != Some(id) ==> LeastAbove(us, id, t)
  {
    forall b | forall u :: u in us && u.id == Some(id) ==> Leq(u.tokens, b)
      ensures Leq(t, b) && (last.id == Some(id) ==> Leq(Join(last.tokens, t), b))
    {
      assert last in us;
    }
  }

  /** Two runs with the same records, in any order and any number of copies, count the same tokens per message. */
  lemma SameRecordsSameCount(us: seq<Usage>, vs: seq<Usage>, price: Option<Price>, id: string)
    requires forall u :: u in us <==> u in vs
    ensures var l, m := RecordAll(us, price), RecordAll(vs, price);
      (Msg(id) in l.entries <==> Msg(id) in m.entries) && EntryAt(l, Msg(id)) == EntryAt(m, Msg(id))
  {
    EntriesAreLeast(us, price, id);
    EntriesAreLeast(vs, price, id);
    var a, b := EntryAt(RecordAll(us, price), Msg(id)), EntryAt(RecordAll(vs, price), Msg(id));
    assert Leq(a, b) && Leq(b, a);
  }

  /** When every record carries an id, only messages are counted. */
  lemma {:induction false} OnlyMessages(us: seq<Usage>, price: Option<Price>)
    requires forall u :: u in us ==> u.id.Some?
    ensures forall k :: k in RecordAll(us, price).entries ==> k.Msg?
  {
    if us != [] {
      var init, last := us[..|us| - 1], us[|us| - 1];
      assert last in us && forall u :: u in init ==> u in us;
      OnlyMessages(init, price);
    }
  }

  /** The maximum of a purse is decided by its costs. */
  lemma OneMaximum(p: Purse, q: Purse)
    requires PurseOk(p) && PurseOk(q) && p.costs == q.costs
    ensures p.max == q.max
  {
  }

  /** Nor then do the cost and the dearest message depend on the order of the records or their number of copies. */
  lemma SameRecordsSameCost(us: seq<Usage>, vs: seq<Usage>, price: Option<Price>)
    requires price.Some? ==> PriceOk(price.value)
    requires (forall u :: u in us <==> u in vs) && forall u :: u in us ==> u.id.Some?
    ensures var l, m := RecordAll(us, price), RecordAll(vs, price);
      l.entries == m.entries && Spent(l, price) == Spent(m, price) && l.max == m.max
  {
    var l, m := RecordAll(us, price), RecordAll(vs, price);
    OnlyMessages(us, price);
    OnlyMessages(vs, price);
    forall k | k in l.entries || k in m.entries ensures k in l.entries && k in m.entries && l.entries[k] == m.entries[k] {
      SameRecordsSameCount(us, vs, price, k.id);
    }
    assert l.entries == m.entries;
    RecordAllKeeps(us, price);
    RecordAllKeeps(vs, price);
    OneMaximum(PurseOf(l, price), PurseOf(m, price));
  }

  // ---- the meter itself --------------------------------------------------------------

  /** `Meter` of a run that SOKKAN prices. */
  class Meter {
    const price: Option<Price>
    const budget: real
    const cap: nat
    var byMsg: map<string, Tokens>
    var loose: seq<Tokens>
    var maxMsg: real

    constructor (price: Option<Price>, budget: real, cap: nat)
      ensures this.price == price && this.budget == budget && this.cap == cap && Contents() == EMPTY
    {
      this.price, this.budget, this.cap := price, budget, cap;
      byMsg, loose, maxMsg := map[], [], 0.0;
      EntriesUnique(map[], [], map[]);
    }

    ghost function Contents(): Ledger
      reads this
    {
      Ledger(Entries(byMsg, loose), |loose|, maxMsg)
    }

    method Add(u: Usage)
      modifies this
      ensures Contents() == Record(old(Contents()), price, u)
    {
      match u.id {
        case Some(id) =>
          var prev := if id in byMsg then byMsg[id] else ZERO;
          var t := Join(u.tokens, prev);
          EntriesWithMessage(byMsg, loose, id, t);
          byMsg := byMsg[id := t];
          maxMsg := Max(maxMsg, Cost(price, t));
        case None =>
          EntriesWithLoose(byMsg, loose, u.tokens);
          loose := loose + [u.tokens];
          maxMsg := Max(maxMsg, Cost(price, u.tokens));
      }
    }

    /** `_sum`: over the messages, then over the loose records. */
    method Sum() returns (tot: Tokens)
      ensures tot == TokenTotal(Contents().entries)
    {
      tot := SumMessages();
      tot := SumLoose(tot, TokenTotal(Entries(byMsg, loose)));
    }

    method SumLoose(messages: Tokens, ghost all: Tokens) returns (tot: Tokens)
      requires Plus(messages, TokenTotal(Entries(map[], loose))) == all
      ensures tot == all
    {
      tot := messages;
      assert loose[..|loose|] == loose;
      for n := |loose| downto 0
        invariant Plus(tot, TokenTotal(Entries(map[], loose[..n]))) == all
      {
        TakeLoose(loose, n, tot);
        tot := Plus(tot, loose[n]);
      }
      EntriesUnique(map[], loose[..0], map[]);
    }

    method SumMessages() returns (tot: Tokens)
      ensures Sums(tot, map[], loose, byMsg)
    {
      tot := ZERO;
      var rest := byMsg;
      SumsStart(loose, byMsg);
      while rest.Keys != {}
        invariant Sums(tot, rest, loose, byMsg)
        decreases rest.Keys
      {
        var id :| id in rest.Keys;
        TakeMessage(rest, loose, id, tot, byMsg);
        tot, rest := Plus(tot, rest[id]), rest - {id};
      }
      NoKeys(rest);
    }

    /** `over`. */
    method Stop() returns (v: Verdict)
      ensures v == Over(Contents(), price, budget, cap)
    {
      var tot := Sum();
      var cost := Cost(price, tot);
      if Count(tot) >= cap {
        return TokenCap;
      }
      if price.Some? && budget != 0.0 && cost >= budget {
        return BudgetReached;
      }
      if price.Some? && budget != 0.0 && maxMsg != 0.0 && cost + maxMsg > budget {
        return NextCallTooDear;
      }
      v := Go;
    }
  }

  /** `entries` holds the dictionary under message keys and the list under its positions. */
  ghost predicate Holds(byMsg: map<string, Tokens>, loose: seq<Tokens>, entries: map<Key, Tokens>) {
    forall k :: (k in entries <==> Stored(byMsg, loose, k)) && (k in entries ==> entries[k] == ValueOf(byMsg, loose, k))
  }

  predicate Stored(byMsg: map<string, Tokens>, loose: seq<Tokens>, k: Key) {
    match k case Msg(id) => id in byMsg case Loose(n) => n < |loose|
  }

  function ValueOf(byMsg: map<string, Tokens>, loose: seq<Tokens>, k: Key): Tokens
    requires Stored(byMsg, loose, k)
  {
    match k case Msg(id) => byMsg[id] case Loose(n) => loose[n]
  }

  ghost function Entries(byMsg: map<string, Tokens>, loose: seq<Tokens>): (entries: map<Key, Tokens>)
    ensures Holds(byMsg, loose, entries)
  {
    EntriesExist(byMsg, loose);
    var entries :| Holds(byMsg, loose, entries);
    entries
  }

  lemma EntriesExist(byMsg: map<string, Tokens>, loose: seq<Tokens>)
    ensures exists entries :: Holds(byMsg, loose, entries)
  {
    var keys := (set id | id in byMsg :: Msg(id)) + (set n: nat | 0 <= n < |loose| :: Loose(n));
    var entries := map k | k in keys && Stored(byMsg, loose, k) :: ValueOf(byMsg, loose, k);
    forall k ensures k in entries <==> Stored(byMsg, loose, k) {
      match k {
        case Msg(id) =>
        case Loose(n) =>
      }
    }
    assert Holds(byMsg, loose, entries);
  }

  lemma EntriesUnique(byMsg: map<string, Tokens>, loose: seq<Tokens>, a: map<Key, Tokens>)
    requires Holds(byMsg, loose, a)
    ensures a == Entries(byMsg, loose)
  {
  }

  lemma EntriesWithMessage(byMsg: map<string, Tokens>, loose: seq<Tokens>, id: string, t: Tokens)
    ensures Entries(byMsg[id := t], loose) == Entries(byMsg, loose)[Msg(id) := t]
  {
    EntriesUnique(byMsg[id := t], loose, Entries(byMsg, loose)[Msg(id) := t]);
  }

  lemma EntriesWithLoose(byMsg: map<string, Tokens>, loose: seq<Tokens>, t: Tokens)
    ensures Entries(byMsg, loose + [t]) == Entries(byMsg, loose)[Loose(|loose|) := t]
    ensures Loose(|loose|) !in Entries(byMsg, loose) && Join(t, ZERO) == t
  {
    EntriesUnique(byMsg, loose + [t], Entries(byMsg, loose)[Loose(|loose|) := t]);
  }

  /** `tot` and the tokens of `rest` and `loose` make up the tokens of `all` and `loose`. */
  ghost predicate Sums(tot: Tokens, rest: map<string, Tokens>, loose: seq<Tokens>, all: map<string, Tokens>) {
    Plus(tot, TokenTotal(Entries(rest, loose))) == TokenTotal(Entries(all, loose))
  }

  lemma SumsStart(loose: seq<Tokens>, all: map<string, Tokens>)
    ensures Sums(ZERO, all, loose, all)
  {
    PlusZero(TokenTotal(Entries(all, loose)));
  }

  lemma PlusZero(t: Tokens)
    ensures Plus(ZERO, t) == t
  {
  }

  lemma NoKeys(m: map<string, Tokens>)
    requires m.Keys == {}
    ensures m == map[]
  {
  }

  lemma TakeMessage(rest: map<string, Tokens>, loose: seq<Tokens>, id: string, tot: Tokens, all: map<string, Tokens>)
    requires id in rest && Sums(tot, rest, loose, all)
    ensures Sums(Plus(tot, rest[id]), rest - {id}, loose, all)
  {
    TokenTotalWithout(Entries(rest, loose), Msg(id));
    EntriesUnique(rest - {id}, loose, Entries(rest, loose) - {Msg(id)});
  }

  lemma TakeLoose(loose: seq<Tokens>, n: nat, tot: Tokens)
    requires n < |loose|
    ensures Plus(tot, TokenTotal(Entries(map[], loose[..n + 1])))
         == Plus(Plus(tot, loose[n]), TokenTotal(Entries(map[], loose[..n])))
  {
    var more := Entries(map[], loose[..n + 1]);
    TokenTotalWithout(more, Loose(n));
    EntriesUnique(map[], loose[..n], more - {Loose(n)});
  }

  /** `Meter` of a Claude run priced by the SDK: it only keeps a cost per message. */
  class SdkGuard {
    const budget: real
    var purse: Purse

    constructor (budget: real)
      ensures this.budget == budget && purse == Purse(map[], 0.0) && Valid()
    {
      this.budget, purse := budget, Purse(map[], 0.0);
    }

    /** The n-th record without an id is stored under the number of messages seen so far. */
    ghost predicate Valid()
      reads this
    {
      PurseOk(purse) && forall n: nat :: Loose(n) in purse.costs ==> n < |purse.costs|
    }

    /** `add_sdk`; no price for a record leaves the meter as it is. */
    method AddSdk(cost: Option<real>, id: Option<string>)
      requires Valid() && (cost.Some? ==> cost.value >= 0.0)
      modifies this
      ensures Valid()
      ensures cost.None? ==> purse == old(purse)
      ensures cost.Some? ==>
        var k := if id.Some? then Msg(id.value) else Loose(|old(purse).costs|);
        purse == Put(old(purse), k, Max(CostAt(old(purse), k), cost.value))
      ensures cost.Some? && id.None? ==> Loose(|old(purse).costs|) !in old(purse).costs
      ensures budget >= 0.0 && RoomForNext(old(purse), budget) ==>
        Total(purse.costs) <= budget + (purse.max - old(purse).max)
    {
      if cost.None? {
        if purse.max == 0.0 {
          TotalOfZeros(purse.costs);
        }
        return;
      }
      var k := if id.Some? then Msg(id.value) else Loose(|purse.costs|);
      var c := Max(CostAt(purse, k), cost.value);
      PutKeeps(purse, k, c);
      if budget >= 0.0 && RoomForNext(purse, budget) {
        Overshoot(purse, k, c, budget);
      }
      KeysGrow(purse.costs, k, c);
      purse := Put(purse, k, c);
    }

    /** `sdk_cost_usd`. */
    method Spend() returns (sum: real)
      ensures sum == Total(purse.costs)
    {
      sum := 0.0;
      var rest := purse.costs;
      while rest.Keys != {}
        invariant sum + Total(rest) == Total(purse.costs)
        decreases rest.Keys
      {
        var k :| k in rest.Keys;
        TotalWithout(rest, k);
        sum, rest := sum + rest[k], rest - {k};
      }
      assert rest == map[];
    }

    /** `over` of a guarded run: stop when the next call, as dear as the dearest, would cross a budget that is set. */
    method Stop() returns (stop: bool)
      ensures stop <==> budget > 0.0 && !RoomForNext(purse, budget)
    {
      if budget <= 0.0 {
        return false;
      }
      var spent := Spend();
      stop := purse.max != 0.0 && spent + purse.max > budget;
    }
  }

  lemma KeysGrow<K>(m: map<K, real>, k: K, c: real)
    ensures |m[k := c]| == |m| + (if k in m then 0 else 1)
  {
    assert (m[k := c]).Keys == m.Keys + {k};
  }
}
