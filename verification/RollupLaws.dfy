/**
 What the flat roll-up means level by level: the counts of a card are the sum of its children's,
 it is done when they all are, and it is never in better shape than one of them that is not done.
 */
module RollupLaws {
  import opened Util
  import opened Forest
  import opened Walks
  import opened Rollup

  /* ---- the leaves, level by level ---- */

  lemma BelowIsEmpty(cards: Cards, c: int)
    requires c in cards
    ensures Below(cards, true, c) == {} <==> Kids(cards, true, c) == {}
  {
    if k :| k in Kids(cards, true, c) {
      BelowIsKidsAndBelow(cards, true, k, c);
      assert k in Below(cards, true, c);
    }
    if d :| d in Below(cards, true, c) {
      BelowIsKidsAndBelow(cards, true, d, c);
      var k :| IsKid(cards, true, k, c);
      assert k in Kids(cards, true, c);
    }
  }

  lemma BelowSplits(cards: Cards, c: int, d: int)
    requires c in cards
    ensures d in Below(cards, true, c) <==> exists k :: k in Kids(cards, true, c) && d in Tree(cards, k)
  {
    BelowIsKidsAndBelow(cards, true, d, c);
    if Under(cards, true, d, c) {
      var k :| IsKid(cards, true, k, c) && (d == k || Under(cards, true, d, k));
      assert k in Kids(cards, true, c) && d in Tree(cards, k);
    }
    if k :| k in Kids(cards, true, c) && d in Tree(cards, k) {
      assert IsKid(cards, true, k, c) && (d == k || Under(cards, true, d, k));
    }
  }

  lemma LeafOf(cards: Cards, c: int, d: int)
    requires c in cards
    ensures d in Leaves(cards, c) <==> d in Tree(cards, c) && Kids(cards, true, d) == {}
  {
    BelowIsEmpty(cards, c);
  }

  lemma LeavesSplit(cards: Cards, c: int, d: int)
    requires c in cards && Kids(cards, true, c) != {}
    ensures d in Leaves(cards, c) <==> exists k :: k in Kids(cards, true, c) && d in Leaves(cards, k)
  {
    LeafOf(cards, c, d);
    BelowSplits(cards, c, d);
    if k :| k in Kids(cards, true, c) && d in Tree(cards, k) && Kids(cards, true, d) == {} {
      LeafOf(cards, k, d);
    }
    if k :| k in Kids(cards, true, c) && d in Leaves(cards, k) {
      LeafOf(cards, k, d);
    }
  }

  lemma TreeIsUp(cards: Cards, k: int, d: int) returns (n: nat)
    requires k in cards && d in Tree(cards, k)
    ensures Up(cards, true, d, n) == Some(k)
  {
    if d == k {
      n := 0;
    } else {
      n :| n >= 1 && Up(cards, true, d, n) == Some(k);
    }
  }

  lemma TreesApart(cards: Cards, c: int, j: int, k: int, d: int)
    requires Shallow(cards) && c in cards && j in Kids(cards, true, c) && k in Kids(cards, true, c)
    requires d in Tree(cards, j) && d in Tree(cards, k)
    ensures j == k
  {
    var m := TreeIsUp(cards, j, d);
    var n := TreeIsUp(cards, k, d);
    UpOne(cards, true, d, m, c);
    UpOne(cards, true, d, n, c);
    LiveIsUp(cards, d, m + 1);
    LiveIsUp(cards, d, n + 1);
    if m < n {
      MetTwiceIsNoForest(cards, d, m + 1, n + 1);
    } else if n < m {
      MetTwiceIsNoForest(cards, d, n + 1, m + 1);
    }
  }

  /** The counts of a card are the sums of its live children's counts. */
  lemma CountsAdd(feed: Feed, cards: Cards, c: int, s: State)
    requires IsForest(cards) && c in cards && Kids(cards, true, c) != {}
    ensures CountsOf(feed, cards, c).In(s) == SizeSum(Kids(cards, true, c), k => LeavesIn(feed, cards, k, s))
  {
    var g := (k: int) => LeavesIn(feed, cards, k, s);
    var ks, u := Kids(cards, true, c), LeavesIn(feed, cards, c, s);
    forall x
      ensures x in u <==> exists k :: k in ks && x in g(k)
    {
      LeavesSplit(cards, c, x);
    }
    forall j, k, x | j in ks && k in ks && x in g(j) && x in g(k)
      ensures j == k
    {
      LeafOf(cards, j, x);
      LeafOf(cards, k, x);
      TreesApart(cards, c, j, k, x);
    }
    UnionSize(ks, u, g);
  }

  /** The alarm and the activity of a card are its own and its live children's. */
  lemma FlagsAdd(feed: Feed, cards: Cards, c: int)
    requires c in cards
    ensures AnyAlarm(feed, cards, c) <==>
            Alarming(feed, cards, c) || exists k :: k in Kids(cards, true, c) && AnyAlarm(feed, cards, k)
    ensures AnyBusy(feed, cards, c) <==>
            Busy(feed, cards, c) || exists k :: k in Kids(cards, true, c) && AnyBusy(feed, cards, k)
  {
    forall d
      ensures d in Tree(cards, c) <==> d == c || exists k :: k in Kids(cards, true, c) && d in Tree(cards, k)
    {
      BelowSplits(cards, c, d);
    }
    assert c in Tree(cards, c);
    if AnyAlarm(feed, cards, c) {
      var d :| d in Tree(cards, c) && Alarming(feed, cards, d);
      if d != c {
        var k :| k in Kids(cards, true, c) && d in Tree(cards, k);
        assert AnyAlarm(feed, cards, k);
      }
    }
    if AnyBusy(feed, cards, c) {
      var d :| d in Tree(cards, c) && Busy(feed, cards, d);
      if d != c {
        var k :| k in Kids(cards, true, c) && d in Tree(cards, k);
        assert AnyBusy(feed, cards, k);
      }
    }
  }

  /* ---- done, and how bad ---- */

  lemma {:induction false} SomeLeaf(cards: Cards, c: int, room: nat)
    requires IsForest(cards) && c in cards && !SomeoneAt(cards, c, room)
    ensures Leaves(cards, c) != {}
    decreases room
  {
    BelowIsEmpty(cards, c);
    if k :| k in Kids(cards, true, c) {
      assert Up(cards, false, c, 0) == Some(c);
      assert room > 0;
      if SomeoneAt(cards, k, room - 1) {
        var d :| Up(cards, false, d, room - 1) == Some(k);
        UpOne(cards, false, d, room - 1, c);
        assert false;
      }
      SomeLeaf(cards, k, room - 1);
      var d :| d in Leaves(cards, k);
      LeavesSplit(cards, c, d);
    } else {
      assert c in Leaves(cards, c);
    }
  }

  lemma HasLeaf(cards: Cards, c: int)
    requires IsForest(cards) && c in cards
    ensures Leaves(cards, c) != {}
  {
    if d :| Up(cards, false, d, MAX_DEPTH) == Some(c) {
      UpIsShort(cards, d, MAX_DEPTH);
    }
    SomeLeaf(cards, c, MAX_DEPTH);
  }

  lemma LeavesAreCards(cards: Cards, c: int, d: int)
    requires c in cards && d in Leaves(cards, c)
    ensures d in cards
  {
  }

  /** At least one leaf of the state `s`. */
  ghost predicate SomeIn(feed: Feed, cards: Cards, c: int, s: State) {
    exists d :: d in LeavesIn(feed, cards, c, s)
  }

  lemma CountIsSome(feed: Feed, cards: Cards, c: int, s: State)
    ensures CountsOf(feed, cards, c).In(s) > 0 <==> SomeIn(feed, cards, c, s)
  {
    var u := LeavesIn(feed, cards, c, s);
    assert |u| > 0 <==> u != {};
  }

  lemma LeavesInAre(feed: Feed, cards: Cards, c: int, a: set<int>, b: set<int>, p: set<int>, q: set<int>, r: set<int>)
    requires c in cards
    requires a == LeavesIn(feed, cards, c, Todo) && b == LeavesIn(feed, cards, c, InProgress)
    requires p == LeavesIn(feed, cards, c, Waiting) && q == LeavesIn(feed, cards, c, Blocked)
    requires r == LeavesIn(feed, cards, c, Done)
    ensures a !! b !! p !! q !! r
    ensures Leaves(cards, c) == a + b + p + q + r
  {
    forall d
      ensures d in Leaves(cards, c) <==> d in a + b + p + q + r
    {
      if d in Leaves(cards, c) {
        LeavesAreCards(cards, c, d);
      }
    }
  }

  /** Every leaf is counted once: the total is the number of leaves. */
  lemma TotalIsLeaves(feed: Feed, cards: Cards, c: int)
    requires c in cards
    ensures CountsOf(feed, cards, c).Total() == |Leaves(cards, c)|
  {
    var a, b, p, q, r := LeavesIn(feed, cards, c, Todo), LeavesIn(feed, cards, c, InProgress),
      LeavesIn(feed, cards, c, Waiting), LeavesIn(feed, cards, c, Blocked), LeavesIn(feed, cards, c, Done);
    LeavesInAre(feed, cards, c, a, b, p, q, r);
    FiveParts(a, b, p, q, r);
  }

  ghost predicate AllDone(feed: Feed, cards: Cards, c: int) {
    forall d :: d in Leaves(cards, c) && d in cards ==> StateOf(feed, cards, d) == Done
  }

  lemma AllDoneIsNoOther(feed: Feed, cards: Cards, c: int)
    requires c in cards
    ensures AllDone(feed, cards, c) <==>
            !SomeIn(feed, cards, c, Todo) && !SomeIn(feed, cards, c, InProgress) && !SomeIn(feed, cards, c, Waiting)
            && !SomeIn(feed, cards, c, Blocked)
  {
    if !AllDone(feed, cards, c) {
      var d :| d in Leaves(cards, c) && d in cards && StateOf(feed, cards, d) != Done;
      assert d in LeavesIn(feed, cards, c, StateOf(feed, cards, d));
    }
  }

  lemma DoneMeansAllLeaves(feed: Feed, cards: Cards, c: int)
    requires IsForest(cards) && c in cards
    ensures RollState(feed, cards, c) == Done <==> AllDone(feed, cards, c)
  {
    if Below(cards, true, c) != {} {
      AllDoneIsNoOther(feed, cards, c);
      CountIsSome(feed, cards, c, Todo);
      CountIsSome(feed, cards, c, InProgress);
      CountIsSome(feed, cards, c, Waiting);
      CountIsSome(feed, cards, c, Blocked);
      TotalIsLeaves(feed, cards, c);
      HasLeaf(cards, c);
    }
  }

  /** A card with live children is done exactly when each of them is. */
  lemma DoneIffChildrenDone(feed: Feed, cards: Cards, c: int)
    requires IsForest(cards) && c in cards && Kids(cards, true, c) != {}
    ensures RollState(feed, cards, c) == Done <==>
            forall k :: k in Kids(cards, true, c) ==> RollState(feed, cards, k) == Done
  {
    DoneMeansAllLeaves(feed, cards, c);
    forall k | k in Kids(cards, true, c)
      ensures RollState(feed, cards, k) == Done <==> AllDone(feed, cards, k)
    {
      DoneMeansAllLeaves(feed, cards, k);
    }
    forall d
      ensures d in Leaves(cards, c) <==> exists k :: k in Kids(cards, true, c) && d in Leaves(cards, k)
    {
      LeavesSplit(cards, c, d);
    }
  }

  function Severity(s: State): nat {
    match s
    case Done => 0
    case Todo => 0
    case InProgress => 1
    case Waiting => 2
    case Blocked => 3
  }

  /** Why a card is in its state, in terms of its leaves and flags. */
  lemma WhyState(feed: Feed, cards: Cards, k: int)
    requires k in cards
    ensures RollState(feed, cards, k) == Blocked ==> SomeIn(feed, cards, k, Blocked) || AnyAlarm(feed, cards, k)
    ensures RollState(feed, cards, k) == Waiting ==> SomeIn(feed, cards, k, Waiting)
    ensures RollState(feed, cards, k) == InProgress ==>
            SomeIn(feed, cards, k, InProgress) || SomeIn(feed, cards, k, Done) || AnyBusy(feed, cards, k)
  {
    if Below(cards, true, k) == {} {
      assert k in LeavesIn(feed, cards, k, StateOf(feed, cards, k));
    } else {
      CountIsSome(feed, cards, k, Blocked);
      CountIsSome(feed, cards, k, Waiting);
      CountIsSome(feed, cards, k, InProgress);
      CountIsSome(feed, cards, k, Done);
    }
  }

  lemma SomeInRises(feed: Feed, cards: Cards, c: int, k: int, s: State)
    requires c in cards && k in Kids(cards, true, c) && SomeIn(feed, cards, k, s)
    ensures CountsOf(feed, cards, c).In(s) > 0
  {
    var d :| d in LeavesIn(feed, cards, k, s);
    LeavesSplit(cards, c, d);
    assert d in LeavesIn(feed, cards, c, s);
    CountIsSome(feed, cards, c, s);
  }

  /** A card that is not done is at least as badly off as each live child that is not done. */
  lemma NoBetterThanChild(feed: Feed, cards: Cards, c: int, k: int)
    requires c in cards && k in Kids(cards, true, c)
    requires RollState(feed, cards, c) != Done && RollState(feed, cards, k) != Done
    ensures Severity(RollState(feed, cards, k)) <= Severity(RollState(feed, cards, c))
  {
    BelowIsEmpty(cards, c);
    FlagsAdd(feed, cards, c);
    WhyState(feed, cards, k);
    forall s | SomeIn(feed, cards, k, s)
      ensures CountsOf(feed, cards, c).In(s) > 0
    {
      SomeInRises(feed, cards, c, k, s);
    }
    assert RollState(feed, cards, c)
        == Decide(CountsOf(feed, cards, c), AnyAlarm(feed, cards, c), AnyBusy(feed, cards, c));
    Decided(CountsOf(feed, cards, c), AnyAlarm(feed, cards, c), AnyBusy(feed, cards, c));
  }

  lemma Decided(counts: Counts, alarm: bool, busy: bool)
    requires Decide(counts, alarm, busy) != Done
    ensures counts.In(Blocked) > 0 || alarm ==> Decide(counts, alarm, busy) == Blocked
    ensures counts.In(Waiting) > 0 ==> Severity(Decide(counts, alarm, busy)) >= 2
    ensures counts.In(InProgress) > 0 || counts.In(Done) > 0 || busy ==> Severity(Decide(counts, alarm, busy)) >= 1
  {
  }

  /* ---- the state of each card, read from columns and signals ---- */

  /** A card with no live child: its state follows its column and its own signals, gravest first. */
  lemma LeafStateExactly(feed: Feed, cards: Cards, c: int)
    requires c in cards && Kids(cards, true, c) == {}
    ensures
      var state, column, sig := RollOf(feed, cards, c).state, cards[c].bucket, feed(c, cards[c].session);
      var trouble := sig.incidents > 0 || sig.runsFailed > 0;
      var held := column == "Review" || sig.runsWaiting > 0 || sig.agentsPending > 0;
      var moving := column == "Doing" || sig.sessionsWorking > 0 || sig.runsActive > 0;
      && (state == Done <==> column == "Done")
      && (state == Blocked <==> column != "Done" && trouble)
      && (state == Waiting <==> column != "Done" && !trouble && held)
      && (state == InProgress <==> column != "Done" && !trouble && !held && moving)
      && (state == Todo <==> column != "Done" && !trouble && !held && !moving)
  {
    BelowIsEmpty(cards, c);
  }

  /** A leaf of the tree has the state its own roll-up shows. */
  lemma LeafShowsItsState(feed: Feed, cards: Cards, c: int, d: int, s: State)
    requires c in cards
    ensures d in LeavesIn(feed, cards, c, s) <==>
            d in cards && d in Leaves(cards, c) && Kids(cards, true, d) == {} && RollState(feed, cards, d) == s
  {
    LeafOf(cards, c, d);
    if d in cards {
      BelowIsEmpty(cards, d);
    }
  }

  /** Some card without live children, below `c`, shows the state `s`. */
  ghost predicate Shows(feed: Feed, cards: Cards, c: int, s: State) {
    exists d :: d in cards && d in Below(cards, true, c) && Kids(cards, true, d) == {} && RollState(feed, cards, d) == s
  }

  lemma ShowsIsCount(feed: Feed, cards: Cards, c: int, s: State)
    requires c in cards && Kids(cards, true, c) != {}
    ensures CountsOf(feed, cards, c).In(s) > 0 <==> Shows(feed, cards, c, s)
  {
    BelowIsEmpty(cards, c);
    CountIsSome(feed, cards, c, s);
    forall d
      ensures d in LeavesIn(feed, cards, c, s) <==>
              d in cards && d in Below(cards, true, c) && Kids(cards, true, d) == {} && RollState(feed, cards, d) == s
    {
      LeafShowsItsState(feed, cards, c, d, s);
    }
  }

  /** An incident, or a failed run on a card that is not done, on the card or alive below it. */
  ghost predicate Trouble(feed: Feed, cards: Cards, c: int) {
    exists d :: d in cards && (d == c || d in Below(cards, true, c)) &&
      (feed(d, cards[d].session).incidents > 0
       || (cards[d].bucket != "Done" && feed(d, cards[d].session).runsFailed > 0))
  }

  /** A session or a run at work, on the card or alive below it. */
  ghost predicate AtWork(feed: Feed, cards: Cards, c: int) {
    exists d :: d in cards && (d == c || d in Below(cards, true, c)) &&
      (feed(d, cards[d].session).sessionsWorking > 0 || feed(d, cards[d].session).runsActive > 0)
  }

  lemma FlagsExactly(feed: Feed, cards: Cards, c: int)
    ensures AnyAlarm(feed, cards, c) <==> Trouble(feed, cards, c)
    ensures AnyBusy(feed, cards, c) <==> AtWork(feed, cards, c)
  {
    if AnyAlarm(feed, cards, c) {
      var d :| d in Tree(cards, c) && Alarming(feed, cards, d);
      assert d in cards && (d == c || d in Below(cards, true, c));
    }
    if Trouble(feed, cards, c) {
      var d :| d in cards && (d == c || d in Below(cards, true, c)) &&
        (feed(d, cards[d].session).incidents > 0
         || (cards[d].bucket != "Done" && feed(d, cards[d].session).runsFailed > 0));
      assert d in Tree(cards, c) && Alarming(feed, cards, d);
    }
    if AnyBusy(feed, cards, c) {
      var d :| d in Tree(cards, c) && Busy(feed, cards, d);
      assert d in cards && (d == c || d in Below(cards, true, c));
    }
    if AtWork(feed, cards, c) {
      var d :| d in cards && (d == c || d in Below(cards, true, c)) &&
        (feed(d, cards[d].session).sessionsWorking > 0 || feed(d, cards[d].session).runsActive > 0);
      assert d in Tree(cards, c) && Busy(feed, cards, d);
    }
  }

  lemma DecideExactly(n: Counts, alarm: bool, busy: bool)
    requires n.Total() > 0
    ensures var s := Decide(n, alarm, busy);
      var open := n.In(Todo) > 0 || n.In(InProgress) > 0 || n.In(Waiting) > 0 || n.In(Blocked) > 0;
      var trouble := n.In(Blocked) > 0 || alarm;
      var moving := n.In(InProgress) > 0 || n.In(Done) > 0 || busy;
      && (s == Done <==> !open)
      && (s == Blocked <==> open && trouble)
      && (s == Waiting <==> open && !trouble && n.In(Waiting) > 0)
      && (s == InProgress <==> open && !trouble && n.In(Waiting) == 0 && moving)
      && (s == Todo <==> open && !trouble && n.In(Waiting) == 0 && !moving)
  {
  }

  /** A card with live children: its own column counts for nothing, the leaves and the signals below decide. */
  lemma ParentStateExactly(feed: Feed, cards: Cards, c: int)
    requires IsForest(cards) && c in cards && Kids(cards, true, c) != {}
    ensures
      var state := RollOf(feed, cards, c).state;
      var open := Shows(feed, cards, c, Todo) || Shows(feed, cards, c, InProgress) || Shows(feed, cards, c, Waiting)
                  || Shows(feed, cards, c, Blocked);
      var trouble := Shows(feed, cards, c, Blocked) || Trouble(feed, cards, c);
      var held := Shows(feed, cards, c, Waiting);
      var moving := Shows(feed, cards, c, InProgress) || Shows(feed, cards, c, Done) || AtWork(feed, cards, c);
      && (state == Done <==> !open)
      && (state == Blocked <==> open && trouble)
      && (state == Waiting <==> open && !trouble && held)
      && (state == InProgress <==> open && !trouble && !held && moving)
      && (state == Todo <==> open && !trouble && !held && !moving)
  {
    BelowIsEmpty(cards, c);
    ShowsIsCount(feed, cards, c, Todo);
    ShowsIsCount(feed, cards, c, InProgress);
    ShowsIsCount(feed, cards, c, Waiting);
    ShowsIsCount(feed, cards, c, Blocked);
    ShowsIsCount(feed, cards, c, Done);
    FlagsExactly(feed, cards, c);
    HasLeaf(cards, c);
    TotalIsLeaves(feed, cards, c);
    DecideExactly(CountsOf(feed, cards, c), AnyAlarm(feed, cards, c), AnyBusy(feed, cards, c));
  }

  /** The progress of a card is the share of its leaves that are done. */
  lemma ProgressIsShare(feed: Feed, cards: Cards, c: int)
    requires IsForest(cards) && c in cards
    ensures |Leaves(cards, c)| > 0
    ensures RollOf(feed, cards, c).progress == |LeavesIn(feed, cards, c, Done)| as real / |Leaves(cards, c)| as real
  {
    HasLeaf(cards, c);
    TotalIsLeaves(feed, cards, c);
  }
}
