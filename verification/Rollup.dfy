/**
 The roll-up: the state, counts and progress of a card, gathered from everything alive below it.
 Specified on the set of cards below; computed by a breadth-first walk and two passes.
 */
module Rollup {
  import opened Util
  import opened Forest
  import opened Walks

  datatype State = Todo | InProgress | Waiting | Blocked | Done

  /** What is going on around one card: its own links only. */
  datatype Signals = Signals(incidents: nat, runsFailed: nat, runsWaiting: nat, agentsPending: nat,
                             sessionsWorking: nat, runsActive: nat)

  /** The signals of a card, by its number and its session. */
  type Feed = (int, string) -> Signals

  datatype Counts = Counts(todo: nat, inProgress: nat, waiting: nat, blocked: nat, done: nat)
  {
    function Total(): nat {
      todo + inProgress + waiting + blocked + done
    }

    function In(s: State): nat {
      match s
      case Todo => todo
      case InProgress => inProgress
      case Waiting => waiting
      case Blocked => blocked
      case Done => done
    }
  }

  datatype Roll = Roll(state: State, counts: Counts, progress: real)

  /** `leaf_state`: from the column and the signals. */
  function LeafState(card: Card, sig: Signals): State {
    if card.bucket == "Done" then Done
    else if sig.incidents > 0 || sig.runsFailed > 0 then Blocked
    else if card.bucket == "Review" || sig.runsWaiting > 0 || sig.agentsPending > 0 then Waiting
    else if card.bucket == "Doing" || sig.sessionsWorking > 0 || sig.runsActive > 0 then InProgress
    else Todo
  }

  function SignalsOf(feed: Feed, cards: Cards, d: int): Signals
    requires d in cards
  {
    feed(d, cards[d].session)
  }

  function StateOf(feed: Feed, cards: Cards, d: int): State
    requires d in cards
  {
    LeafState(cards[d], SignalsOf(feed, cards, d))
  }

  /* ---- the meaning ---- */

  ghost function Tree(cards: Cards, c: int): set<int> {
    {c} + Below(cards, true, c)
  }

  /** The cards whose own state counts for `c`: those below with nothing alive under them, or `c` itself. */
  ghost function Leaves(cards: Cards, c: int): set<int> {
    if Below(cards, true, c) == {} then
      {c}
    else
      set d | d in Below(cards, true, c) && Kids(cards, true, d) == {}
  }

  ghost function LeavesIn(feed: Feed, cards: Cards, c: int, s: State): set<int> {
    set d | d in Leaves(cards, c) && d in cards && StateOf(feed, cards, d) == s
  }

  ghost function CountsOf(feed: Feed, cards: Cards, c: int): Counts {
    Counts(|LeavesIn(feed, cards, c, Todo)|, |LeavesIn(feed, cards, c, InProgress)|, |LeavesIn(feed, cards, c, Waiting)|,
           |LeavesIn(feed, cards, c, Blocked)|, |LeavesIn(feed, cards, c, Done)|)
  }

  /** An incident on the card, or a failed run on a card that is not done. */
  predicate Alarming(feed: Feed, cards: Cards, d: int) {
    d in cards && (
      SignalsOf(feed, cards, d).incidents > 0
      || (cards[d].bucket != "Done" && SignalsOf(feed, cards, d).runsFailed > 0))
  }

  predicate Busy(feed: Feed, cards: Cards, d: int) {
    d in cards && (SignalsOf(feed, cards, d).sessionsWorking > 0 || SignalsOf(feed, cards, d).runsActive > 0)
  }

  ghost predicate AnyAlarm(feed: Feed, cards: Cards, c: int) {
    exists d :: d in Tree(cards, c) && Alarming(feed, cards, d)
  }

  ghost predicate AnyBusy(feed: Feed, cards: Cards, c: int) {
    exists d :: d in Tree(cards, c) && Busy(feed, cards, d)
  }

  /** The state of a card with something alive below it. */
  function Decide(counts: Counts, alarm: bool, busy: bool): State {
    if counts.Total() > 0 && counts.done == counts.Total() then Done
    else if counts.blocked > 0 || alarm then Blocked
    else if counts.waiting > 0 then Waiting
    else if counts.inProgress > 0 || counts.done > 0 || busy then InProgress
    else Todo
  }

  function Progress(counts: Counts, state: State): real {
    if counts.Total() > 0 then counts.done as real / counts.Total() as real
    else if state == Done then 1.0
    else 0.0
  }

  ghost function RollState(feed: Feed, cards: Cards, c: int): State
    requires c in cards
  {
    if Below(cards, true, c) == {} then
      StateOf(feed, cards, c)
    else
      Decide(CountsOf(feed, cards, c), AnyAlarm(feed, cards, c), AnyBusy(feed, cards, c))
  }

  ghost function RollOf(feed: Feed, cards: Cards, c: int): Roll
    requires c in cards
  {
    var state := RollState(feed, cards, c);
    Roll(state, CountsOf(feed, cards, c), Progress(CountsOf(feed, cards, c), state))
  }

  /* ---- its computation ---- */

  function Bump(counts: Counts, s: State): Counts {
    match s
    case Todo => counts.(todo := counts.todo + 1)
    case InProgress => counts.(inProgress := counts.inProgress + 1)
    case Waiting => counts.(waiting := counts.waiting + 1)
    case Blocked => counts.(blocked := counts.blocked + 1)
    case Done => counts.(done := counts.done + 1)
  }

  ghost function Among(ids: seq<int>, states: map<int, State>, s: State): set<int> {
    set d | d in ids && d in states && states[d] == s
  }

  ghost function With(states: map<int, State>, s: State): set<int> {
    set d | d in states && states[d] == s
  }

  ghost predicate Counted(counts: Counts, ids: seq<int>, states: map<int, State>) {
    && counts.todo == |Among(ids, states, Todo)|
    && counts.inProgress == |Among(ids, states, InProgress)|
    && counts.waiting == |Among(ids, states, Waiting)|
    && counts.blocked == |Among(ids, states, Blocked)|
    && counts.done == |Among(ids, states, Done)|
  }

  lemma AmongGrows(ids: seq<int>, id: int, states: map<int, State>, s: State)
    requires id !in ids && id in states
    ensures |Among(ids + [id], states, s)| == |Among(ids, states, s)| + if states[id] == s then 1 else 0
  {
    if states[id] == s {
      assert Among(ids + [id], states, s) == Among(ids, states, s) + {id};
    } else {
      assert Among(ids + [id], states, s) == Among(ids, states, s);
    }
  }

  lemma CountedGrows(counts: Counts, ids: seq<int>, id: int, states: map<int, State>)
    requires Counted(counts, ids, states) && id !in ids && id in states
    ensures Counted(Bump(counts, states[id]), ids + [id], states)
  {
    AmongGrows(ids, id, states, Todo);
    AmongGrows(ids, id, states, InProgress);
    AmongGrows(ids, id, states, Waiting);
    AmongGrows(ids, id, states, Blocked);
    AmongGrows(ids, id, states, Done);
  }

  method Count(states: map<int, State>) returns (counts: Counts)
    ensures forall s :: counts.In(s) == |With(states, s)|
  {
    counts := Counts(0, 0, 0, 0, 0);
    var ids := InSomeOrder(states.Keys);
    for i := 0 to |ids|
      invariant Counted(counts, ids[..i], states)
    {
      CountedGrows(counts, ids[..i], ids[i], states);
      assert ids[..i + 1] == ids[..i] + [ids[i]];
      counts := Bump(counts, states[ids[i]]);
    }
    assert ids[..|ids|] == ids;
    forall s
      ensures counts.In(s) == |With(states, s)|
    {
      assert With(states, s) == Among(ids, states, s);
    }
  }

  /** Below `card`, the cards that are someone's mother there are those with a live child. */
  lemma WithKidsExact(cards: Cards, card: int, d: int)
    requires d in Below(cards, true, card)
    ensures (exists e :: e in Below(cards, true, card) && cards[e].parent == Some(d)) <==> Kids(cards, true, d) != {}
  {
    if e :| e in Below(cards, true, card) && cards[e].parent == Some(d) {
      assert IsKid(cards, true, e, d);
      assert e in Kids(cards, true, d);
    }
    if e :| e in Kids(cards, true, d) {
      var n: nat :| n >= 1 && Up(cards, true, d, n) == Some(card);
      assert Up(cards, true, e, n + 1) == Some(card);
      assert e in Below(cards, true, card);
    }
  }

  /** What the first pass has gathered once it has seen `all[..i]`. */
  ghost predicate Gathered(feed: Feed, cards: Cards, all: seq<int>, i: nat, alarm: bool, busy: bool)
    requires i <= |all|
  {
    && (alarm <==> exists d :: d in all[..i] && Alarming(feed, cards, d))
    && (busy <==> exists d :: d in all[..i] && Busy(feed, cards, d))
  }

  lemma GatherOne(feed: Feed, cards: Cards, all: seq<int>, i: nat, alarm: bool, busy: bool)
    requires i < |all| && Gathered(feed, cards, all, i, alarm, busy)
    ensures Gathered(feed, cards, all, i + 1, alarm || Alarming(feed, cards, all[i]), busy || Busy(feed, cards, all[i]))
  {
    assert all[..i + 1] == all[..i] + [all[i]];
    assert all[i] in all[..i + 1];
  }

  predicate CountsAsLeaf(cards: Cards, card: int, desc: seq<int>, withKids: set<int>, d: int) {
    if d == card then desc == [] else d !in withKids
  }

  /** `rollup`. */
  method Rollup(feed: Feed, cards: Cards, card: int) returns (r: Option<Roll>)
    ensures card !in cards ==> r == None
    ensures IsForest(cards) && card in cards ==> r == Some(RollOf(feed, cards, card))
  {
    if card !in cards {
      return None;
    }
    var desc := Descendants(cards, card, true);
    var withKids := set d | d in desc && d in cards && cards[d].parent.Some? :: cards[d].parent.value;
    var working, active, failed, incidents := 0, 0, 0, 0;
    var perCard: map<int, State> := map[];
    var all := [card] + desc;
    for i := 0 to |all|
      invariant Gathered(feed, cards, all, i, incidents > 0 || failed > 0, working > 0 || active > 0)
      invariant working >= 0 && active >= 0 && failed >= 0 && incidents >= 0
      invariant forall d :: d in perCard <==> d in all[..i] && d in cards && CountsAsLeaf(cards, card, desc, withKids, d)
      invariant forall d :: d in perCard ==> d in cards && perCard[d] == StateOf(feed, cards, d)
    {
      var c := all[i];
      GatherOne(feed, cards, all, i, incidents > 0 || failed > 0, working > 0 || active > 0);
      assert all[..i + 1] == all[..i] + [c];
      if c in cards {
        var sig := SignalsOf(feed, cards, c);
        working, active := working + sig.sessionsWorking, active + sig.runsActive;
        if cards[c].bucket != "Done" {
          failed := failed + sig.runsFailed;
        }
        incidents := incidents + sig.incidents;
        if CountsAsLeaf(cards, card, desc, withKids, c) {
          perCard := perCard[c := LeafState(cards[c], sig)];
        }
      }
    }
    assert all[..|all|] == all;
    var counts := Count(perCard);
    var alarm, busy := incidents > 0 || failed > 0, working > 0 || active > 0;
    var state := if desc == [] && card in perCard then perCard[card] else Decide(counts, alarm, busy);
    r := Some(Roll(state, counts, Progress(counts, state)));
    if IsForest(cards) {
      PerCardIsLeaves(cards, card, desc, withKids, perCard);
      CountsExact(feed, cards, card, perCard, counts);
      FlagsExact(feed, cards, card, desc, alarm, busy);
      DecidedExact(feed, cards, card, desc, perCard, counts, alarm, busy);
    }
  }

  lemma LeafTestExact(cards: Cards, card: int, desc: seq<int>, withKids: set<int>, d: int)
    requires card in cards && Shallow(cards) && Listed(desc, Below(cards, true, card)) && d in [card] + desc
    requires withKids == set e | e in desc && e in cards && cards[e].parent.Some? :: cards[e].parent.value
    ensures CountsAsLeaf(cards, card, desc, withKids, d) <==> d in Leaves(cards, card)
  {
    NotBelowItself(cards, card);
    if d != card {
      assert d in desc;
      WithKidsExact(cards, card, d);
      assert d in withKids <==> exists e :: e in Below(cards, true, card) && cards[e].parent == Some(d);
    } else {
      assert desc == [] <==> Below(cards, true, card) == {} by {
        if desc != [] {
          assert desc[0] in Below(cards, true, card);
        }
      }
    }
  }

  lemma NotBelowItself(cards: Cards, c: int)
    requires Shallow(cards)
    ensures c !in Below(cards, true, c)
  {
    if n: nat :| n >= 1 && Up(cards, true, c, n) == Some(c) {
      LiveIsUp(cards, c, n);
      NoCycle(cards, c, n);
    }
  }

  lemma CountsAre(feed: Feed, cards: Cards, card: int, counts: Counts)
    requires forall s :: counts.In(s) == |LeavesIn(feed, cards, card, s)|
    ensures CountsOf(feed, cards, card) == counts
  {
    assert counts.In(Todo) == |LeavesIn(feed, cards, card, Todo)|;
    assert counts.In(InProgress) == |LeavesIn(feed, cards, card, InProgress)|;
    assert counts.In(Waiting) == |LeavesIn(feed, cards, card, Waiting)|;
    assert counts.In(Blocked) == |LeavesIn(feed, cards, card, Blocked)|;
    assert counts.In(Done) == |LeavesIn(feed, cards, card, Done)|;
  }

  lemma CountsExact(feed: Feed, cards: Cards, card: int, perCard: map<int, State>, counts: Counts)
    requires perCard.Keys == Leaves(cards, card)
    requires forall d :: d in perCard ==> d in cards && perCard[d] == StateOf(feed, cards, d)
    requires forall s :: counts.In(s) == |With(perCard, s)|
    ensures CountsOf(feed, cards, card) == counts
  {
    forall s
      ensures counts.In(s) == |LeavesIn(feed, cards, card, s)|
    {
      assert With(perCard, s) == LeavesIn(feed, cards, card, s);
    }
    CountsAre(feed, cards, card, counts);
  }

  lemma FlagsExact(feed: Feed, cards: Cards, card: int, desc: seq<int>, alarm: bool, busy: bool)
    requires Listed(desc, Below(cards, true, card))
    requires alarm <==> exists d :: d in [card] + desc && Alarming(feed, cards, d)
    requires busy <==> exists d :: d in [card] + desc && Busy(feed, cards, d)
    ensures alarm == AnyAlarm(feed, cards, card) && busy == AnyBusy(feed, cards, card)
    ensures desc == [] <==> Below(cards, true, card) == {}
  {
    assert forall d :: d in [card] + desc <==> d in Tree(cards, card);
    if desc != [] {
      assert desc[0] in Below(cards, true, card);
    }
  }

  lemma DecidedExact(feed: Feed, cards: Cards, card: int, desc: seq<int>, perCard: map<int, State>,
                     counts: Counts, alarm: bool, busy: bool)
    requires card in cards && perCard.Keys == Leaves(cards, card) && CountsOf(feed, cards, card) == counts
    requires forall d :: d in perCard ==> d in cards && perCard[d] == StateOf(feed, cards, d)
    requires alarm == AnyAlarm(feed, cards, card) && busy == AnyBusy(feed, cards, card)
    requires desc == [] <==> Below(cards, true, card) == {}
    ensures RollState(feed, cards, card)
            == if desc == [] && card in perCard then perCard[card] else Decide(counts, alarm, busy)
  {
  }

  lemma PerCardIsLeaves(cards: Cards, card: int, desc: seq<int>, withKids: set<int>, perCard: map<int, State>)
    requires Shallow(cards) && card in cards && Listed(desc, Below(cards, true, card))
    requires withKids == set d | d in desc && d in cards && cards[d].parent.Some? :: cards[d].parent.value
    requires forall d :: d in perCard <==> d in [card] + desc && d in cards && CountsAsLeaf(cards, card, desc, withKids, d)
    ensures perCard.Keys == Leaves(cards, card)
  {
    forall d
      ensures d in perCard <==> d in Leaves(cards, card)
    {
      if d in [card] + desc {
        LeafTestExact(cards, card, desc, withKids, d);
      }
    }
  }
}
