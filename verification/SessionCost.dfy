/**
 Cost of a session whose CLI process reports cumulative totals: a relaunched process counts
 from zero again, and the session adds up what each process spent.
 */
module SessionCost {
  import opened Util

  datatype Event = Relaunch | Result(total: Option<real>)

  /** `cost_usd` and `_cli_cost_seen`. */
  datatype Account = Account(cost: real, seen: real)

  /** A missing or zero total changes nothing; a total below the last one is a process that restarted. */
  function Step(a: Account, e: Event): Account {
    match e
    case Relaunch => a.(seen := 0.0)
    case Result(total) =>
      if total.None? || total.value == 0.0 then a
      else
        var delta := if total.value >= a.seen then total.value - a.seen else total.value;
        Account(a.cost + delta, total.value)
  }

  function Steps(a: Account, es: seq<Event>): Account {
    if es == [] then a else Step(Steps(a, es[..|es| - 1]), es[|es| - 1])
  }

  class Session {
    var cost: real
    var seen: real

    ghost function State(): Account
      reads this
    {
      Account(cost, seen)
    }

    constructor ()
      ensures State() == Account(0.0, 0.0)
    {
      cost, seen := 0.0, 0.0;
    }

    /** The accounting of `ensure_started`. */
    method EnsureStarted()
      modifies this
      ensures State() == Step(old(State()), Relaunch)
    {
      seen := 0.0;
    }

    /** The accounting of `_translate` on a result that the CLI priced. */
    method OnResult(total: Option<real>)
      modifies this
      ensures State() == Step(old(State()), Result(total))
    {
      if total.Some? && total.value != 0.0 {
        var delta := if total.value >= seen then total.value - seen else total.value;
        seen := total.value;
        cost := cost + delta;
      }
    }
  }

  // ---- sums over processes -----------------------------------------------------------

  /** The totals one process reports: non-negative and never falling. */
  ghost predicate Growing(totals: seq<real>) {
    forall i, j :: 0 <= i <= j < |totals| ==> 0.0 <= totals[i] <= totals[j]
  }

  function LastOf(totals: seq<real>): real {
    if totals == [] then 0.0 else totals[|totals| - 1]
  }

  function Results(totals: seq<real>): (es: seq<Event>)
    ensures |es| == |totals|
  {
    seq(|totals|, i requires 0 <= i < |totals| => Result(Some(totals[i])))
  }

  /** The events of processes started one after the other through `ensure_started`. */
  function Events(processes: seq<seq<real>>): seq<Event> {
    if processes == [] then []
    else Events(processes[..|processes| - 1]) + ([Relaunch] + Results(processes[|processes| - 1]))
  }

  function SumOfLast(processes: seq<seq<real>>): real {
    if processes == [] then 0.0
    else SumOfLast(processes[..|processes| - 1]) + LastOf(processes[|processes| - 1])
  }

  lemma {:induction false} StepsConcat(a: Account, es: seq<Event>, fs: seq<Event>)
    ensures Steps(a, es + fs) == Steps(Steps(a, es), fs)
  {
    if fs == [] {
      assert es + fs == es;
    } else {
      StepsConcat(a, es, fs[..|fs| - 1]);
      assert (es + fs)[..|es + fs| - 1] == es + fs[..|fs| - 1];
    }
  }

  lemma {:induction false} OneProcess(cost: real, totals: seq<real>)
    requires Growing(totals)
    ensures Steps(Account(cost, 0.0), Results(totals)) == Account(cost + LastOf(totals), LastOf(totals))
  {
    if totals != [] {
      var init := totals[..|totals| - 1];
      OneProcess(cost, init);
      assert Results(totals)[..|totals| - 1] == Results(init);
      assert Results(totals)[|totals| - 1] == Result(Some(LastOf(totals)));
      if init != [] {
        assert totals[|totals| - 2] <= totals[|totals| - 1];
        assert LastOf(init) == totals[|totals| - 2];
      }
    }
  }

  /** A result without a total, or with a total of zero, may come at any time and changes nothing. */
  lemma IdleResultsDoNotCount(a: Account, es: seq<Event>, idle: Event, fs: seq<Event>)
    requires idle == Result(None) || idle == Result(Some(0.0))
    ensures Steps(a, es + [idle] + fs) == Steps(a, es + fs)
  {
    StepsConcat(a, es + [idle], fs);
    StepsConcat(a, es, [idle]);
    StepsConcat(a, es, fs);
    assert [idle][..0] == [];
    assert Steps(Steps(a, es), [idle]) == Step(Steps(a, es), idle);
  }

  /**
   A process whose start was not announced is recognised by its first total: the session counts all it spent
   exactly when that total is below the last one seen, or nothing was seen; otherwise it misses what was seen.
   */
  lemma UnannouncedProcess(cost: real, seen: real, totals: seq<real>)
    requires Growing(totals) && totals != [] && totals[0] > 0.0 && seen >= 0.0
    ensures Steps(Account(cost, seen), Results(totals)).cost
         == cost + LastOf(totals) - if totals[0] >= seen then seen else 0.0
    ensures Steps(Account(cost, seen), Results(totals)).cost == cost + LastOf(totals) <==> totals[0] < seen || seen == 0.0
  {
    var first, rest := totals[0], totals[1..];
    assert totals == [first] + rest;
    assert Results(totals) == [Result(Some(first))] + Results(rest);
    StepsConcat(Account(cost, seen), [Result(Some(first))], Results(rest));
    FirstTotal(cost, seen, first);
    GrowingFrom(cost + first - (if first >= seen then seen else 0.0), first, rest);
    assert LastOf(totals) == if rest == [] then first else LastOf(rest);
  }

  lemma FirstTotal(cost: real, seen: real, first: real)
    requires first > 0.0
    ensures Steps(Account(cost, seen), [Result(Some(first))])
         == Account(cost + first - (if first >= seen then seen else 0.0), first)
  {
    assert [Result(Some(first))][..0] == [];
  }

  /** From a last total on, a process that keeps growing adds what it grows by. */
  lemma {:induction false} GrowingFrom(cost: real, seen: real, totals: seq<real>)
    requires Growing(totals) && seen > 0.0 && forall i :: 0 <= i < |totals| ==> seen <= totals[i]
    ensures var last := if totals == [] then seen else LastOf(totals);
      Steps(Account(cost, seen), Results(totals)) == Account(cost + last - seen, last)
  {
    if totals != [] {
      var init := totals[..|totals| - 1];
      GrowingFrom(cost, seen, init);
      assert Results(totals)[..|totals| - 1] == Results(init);
      assert Results(totals)[|totals| - 1] == Result(Some(LastOf(totals)));
      if init != [] {
        assert totals[|totals| - 2] <= totals[|totals| - 1];
        assert LastOf(init) == totals[|totals| - 2];
      }
    }
  }

  /** The session's cost is the sum of each process's last cumulative total. */
  lemma {:induction false} CostIsSumOfProcesses(processes: seq<seq<real>>)
    requires forall i :: 0 <= i < |processes| ==> Growing(processes[i])
    ensures Steps(Account(0.0, 0.0), Events(processes)).cost == SumOfLast(processes)
  {
    if processes != [] {
      var init, last := processes[..|processes| - 1], processes[|processes| - 1];
      CostIsSumOfProcesses(init);
      var a := Steps(Account(0.0, 0.0), Events(init));
      StepsConcat(Account(0.0, 0.0), Events(init), [Relaunch] + Results(last));
      StepsConcat(a, [Relaunch], Results(last));
      assert [Relaunch][..0] == [];
      assert Steps(a, [Relaunch]) == Account(a.cost, 0.0);
      OneProcess(a.cost, last);
    }
  }
}
