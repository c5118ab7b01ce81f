/**
 The repaired table is the recomputed table: after every operation and its listener, on every run
 from the empty board, each stored roll-up is the one a full recomputation would give.
 */
module HelmLaws {
  import opened Util
  import opened Forest
  import opened Hanging
  import opened Rollup
  import opened Helm
  import Board
  import BoardLaws

  /** Every card with a live child has its own recomputed roll-up in the table. */
  ghost predicate UpToDate(feed: Feed, cards: Cards, rolls: Rolls) {
    forall x :: x in cards && Kids(cards, true, x) != {} ==> x in rolls && rolls[x] == RollOf(feed, cards, x)
  }

  /** `x` is a touched card or lies above one. */
  ghost predicate Reached(cards: Cards, touched: seq<int>, x: int) {
    exists t :: t in touched && t in cards && x in ChainOf(cards, t)
  }

  /* ---- what the listener does to the table ---- */

  ghost predicate SameCards(v: World, w: World) {
    v.board.cards == w.board.cards && v.board.nextId == w.board.nextId
  }

  /** The table of `v` is that of `w`, recomputed at `id` if it has a live child. */
  ghost predicate RecomputedAt(feed: Feed, w: World, v: World, x: int) {
    x in w.board.cards && Kids(w.board.cards, true, x) != {} ==>
      x in v.rolls && v.rolls[x] == RollOf(feed, w.board.cards, x)
  }

  ghost predicate SameEntry(w: World, v: World, x: int) {
    Stored(w.rolls, x) == Stored(v.rolls, x)
  }

  /** A chain of refreshes recomputes the cards of the chain and leaves the other entries alone. */
  lemma {:induction false} RefreshedAllIs(feed: Feed, w: World, ids: seq<int>, x: int)
    ensures SameCards(RefreshedAll(feed, w, ids), w)
    ensures x in ids ==> RecomputedAt(feed, w, RefreshedAll(feed, w, ids), x)
    ensures x !in ids ==> SameEntry(w, RefreshedAll(feed, w, ids), x)
  {
    if ids != [] {
      RefreshedAllIs(feed, w, ids[..|ids| - 1], x);
    }
  }

  lemma {:induction false} HookedIs(feed: Feed, w: World, touched: seq<int>, x: int)
    ensures SameCards(Hooked(feed, w, touched), w)
    ensures Reached(w.board.cards, touched, x) ==> RecomputedAt(feed, w, Hooked(feed, w, touched), x)
    ensures !Reached(w.board.cards, touched, x) ==> SameEntry(w, Hooked(feed, w, touched), x)
  {
    if touched != [] {
      var rest, id := touched[..|touched| - 1], touched[|touched| - 1];
      HookedIs(feed, w, rest, x);
      var v := Hooked(feed, w, rest);
      if id in v.board.cards {
        RefreshedAllIs(feed, v, ChainOf(v.board.cards, id), x);
      }
      assert touched == rest + [id];
      assert Reached(w.board.cards, touched, x) <==>
             Reached(w.board.cards, rest, x) || (id in w.board.cards && x in ChainOf(w.board.cards, id));
    }
  }

  /* ---- and to the journals ---- */

  lemma NotedTells(cards: Cards, logs: Board.Logs, id: int, was: Option<Roll>, roll: Roll)
    requires Board.Told(cards, logs) && id in cards
    ensures Board.Told(cards, Noted(logs, id, was, roll))
  {
    var state := if was.Some? then Some(was.value.state) else None;
    BoardLaws.ToldIdle(cards, logs, id,
                       Board.Progress(state, roll.state, roll.counts.done, roll.counts.Total()));
  }

  lemma {:induction false} RefreshedAllTells(feed: Feed, w: World, ids: seq<int>)
    requires Board.Told(w.board.cards, w.board.logs)
    ensures Board.Told(RefreshedAll(feed, w, ids).board.cards, RefreshedAll(feed, w, ids).board.logs)
  {
    if ids != [] {
      RefreshedAllTells(feed, w, ids[..|ids| - 1]);
      var v, id := RefreshedAll(feed, w, ids[..|ids| - 1]), ids[|ids| - 1];
      if id in v.board.cards {
        NotedTells(v.board.cards, v.board.logs, id, Stored(v.rolls, id), RollOf(feed, v.board.cards, id));
      }
    }
  }

  lemma {:induction false} HookedTells(feed: Feed, w: World, touched: seq<int>)
    requires Board.Told(w.board.cards, w.board.logs)
    ensures Board.Told(Hooked(feed, w, touched).board.cards, Hooked(feed, w, touched).board.logs)
  {
    if touched != [] {
      HookedTells(feed, w, touched[..|touched| - 1]);
      var v, id := Hooked(feed, w, touched[..|touched| - 1]), touched[|touched| - 1];
      if id in v.board.cards {
        RefreshedAllTells(feed, v, ChainOf(v.board.cards, id));
      }
    }
  }

  lemma HookedIsSound(feed: Feed, w: World, touched: seq<int>)
    requires Board.Sound(w.board)
    ensures Board.Sound(Hooked(feed, w, touched).board)
  {
    HookedIs(feed, w, touched, 0);
    HookedTells(feed, w, touched);
  }

  /* ---- what a roll-up depends on ---- */

  predicate SameOwn(c: Card, d: Card) {
    c.bucket == d.bucket && c.session == d.session
  }

  predicate SameFace(c: Card, d: Card) {
    SameOwn(c, d) && c.parent == d.parent && c.archived == d.archived
  }

  /** `x` shows the same, and every card below it is the same, on the two boards. */
  ghost predicate SameBelow(a: Cards, b: Cards, x: int) {
    && x in a && x in b && SameOwn(a[x], b[x])
    && forall d :: Under(a, false, d, x) || Under(b, false, d, x) ==> d in a && d in b && SameFace(a[d], b[d])
  }

  lemma {:induction false} SameUp(a: Cards, b: Cards, x: int, d: int, n: nat)
    requires SameBelow(a, b, x) && Up(a, true, d, n) == Some(x)
    ensures Up(b, true, d, n) == Some(x)
    decreases n
  {
    if n > 0 {
      LiveIsUp(a, d, n);
      assert Under(a, false, d, x);
      SameUp(a, b, x, a[d].parent.value, n - 1);
    }
  }

  lemma SameSetBelow(a: Cards, b: Cards, x: int)
    requires SameBelow(a, b, x)
    ensures Below(a, true, x) == Below(b, true, x)
  {
    forall d
      ensures d in Below(a, true, x) <==> d in Below(b, true, x)
    {
      if n: nat :| n >= 1 && Up(a, true, d, n) == Some(x) {
        SameUp(a, b, x, d, n);
      }
      if n: nat :| n >= 1 && Up(b, true, d, n) == Some(x) {
        SameUp(b, a, x, d, n);
      }
    }
  }

  lemma LiveUnder(cards: Cards, d: int, x: int)
    requires d in Below(cards, true, x)
    ensures d in cards && Under(cards, false, d, x)
  {
    var n: nat :| n >= 1 && Up(cards, true, d, n) == Some(x);
    LiveIsUp(cards, d, n);
  }

  /** A child of a card of the tree is below the root of the tree. */
  lemma KidUnder(cards: Cards, x: int, d: int, k: int)
    requires x in cards && (d == x || Under(cards, false, d, x)) && IsKid(cards, true, k, d)
    ensures Under(cards, false, k, x)
  {
    var n: nat :| Up(cards, false, d, n) == Some(x) by {
      if d == x {
        assert Up(cards, false, d, 0) == Some(x);
      }
    }
    assert Up(cards, false, k, n + 1) == Some(x);
  }

  lemma SameKids(a: Cards, b: Cards, x: int, d: int)
    requires SameBelow(a, b, x)
    requires d == x || (Under(a, false, d, x) && Under(b, false, d, x))
    ensures Kids(a, true, d) == Kids(b, true, d)
  {
    forall k
      ensures k in Kids(a, true, d) <==> k in Kids(b, true, d)
    {
      if IsKid(a, true, k, d) {
        KidUnder(a, x, d, k);
      }
      if IsKid(b, true, k, d) {
        KidUnder(b, x, d, k);
      }
    }
  }

  lemma SameLeaves(a: Cards, b: Cards, x: int)
    requires SameBelow(a, b, x)
    ensures Leaves(a, x) == Leaves(b, x)
  {
    SameSetBelow(a, b, x);
    forall d | d in Below(a, true, x)
      ensures Kids(a, true, d) == Kids(b, true, d)
    {
      LiveUnder(a, d, x);
      LiveUnder(b, d, x);
      SameKids(a, b, x, d);
    }
  }

  /** A card of the tree looks the same. */
  lemma SameLook(feed: Feed, a: Cards, b: Cards, x: int, d: int)
    requires SameBelow(a, b, x) && d in Tree(a, x)
    ensures d in a && d in b && StateOf(feed, a, d) == StateOf(feed, b, d)
    ensures Alarming(feed, a, d) == Alarming(feed, b, d) && Busy(feed, a, d) == Busy(feed, b, d)
  {
    if d != x {
      LiveUnder(a, d, x);
    }
  }

  lemma SameLeavesIn(feed: Feed, a: Cards, b: Cards, x: int, s: State)
    requires SameBelow(a, b, x)
    ensures LeavesIn(feed, a, x, s) == LeavesIn(feed, b, x, s)
  {
    SameLeaves(a, b, x);
    forall d | d in Leaves(a, x)
      ensures d in a && d in b && StateOf(feed, a, d) == StateOf(feed, b, d)
    {
      SameLook(feed, a, b, x, d);
    }
  }

  lemma SameFlags(feed: Feed, a: Cards, b: Cards, x: int)
    requires SameBelow(a, b, x)
    ensures AnyAlarm(feed, a, x) == AnyAlarm(feed, b, x) && AnyBusy(feed, a, x) == AnyBusy(feed, b, x)
  {
    SameSetBelow(a, b, x);
    forall d | d in Tree(a, x)
      ensures Alarming(feed, a, d) == Alarming(feed, b, d) && Busy(feed, a, d) == Busy(feed, b, d)
    {
      SameLook(feed, a, b, x, d);
    }
  }

  /** A roll-up depends on nothing else. */
  lemma SameRoll(feed: Feed, a: Cards, b: Cards, x: int)
    requires SameBelow(a, b, x)
    ensures RollOf(feed, a, x) == RollOf(feed, b, x) && Kids(a, true, x) == Kids(b, true, x)
  {
    SameSetBelow(a, b, x);
    SameKids(a, b, x, x);
    SameLook(feed, a, b, x, x);
    SameFlags(feed, a, b, x);
    SameLeavesIn(feed, a, b, x, Todo);
    SameLeavesIn(feed, a, b, x, InProgress);
    SameLeavesIn(feed, a, b, x, Waiting);
    SameLeavesIn(feed, a, b, x, Blocked);
    SameLeavesIn(feed, a, b, x, Done);
    assert CountsOf(feed, a, x) == CountsOf(feed, b, x);
  }

  /* ---- each operation leaves everything else the same ---- */

  lemma InChain(cards: Cards, c: int, x: int)
    requires Shallow(cards) && c in cards
    ensures x in ChainOf(cards, c) <==> x == c || Under(cards, false, c, x)
  {
    AboveIsComplete(cards, c, x);
  }

  lemma UnreachedIsApart(cards: Cards, touched: seq<int>, t: int, x: int)
    requires Shallow(cards) && t in touched && t in cards && !Reached(cards, touched, x)
    ensures x != t && !Under(cards, false, t, x)
  {
    InChain(cards, t, x);
  }

  /** One card rewritten, its mother kept. */
  lemma RewriteElsewhere(a: Cards, b: Cards, c: int, x: int)
    requires a.Keys == b.Keys && c in a && x in b && a[c].parent == b[c].parent
    requires forall d :: d in a && d != c ==> a[d] == b[d]
    requires x != c && !Under(b, false, c, x)
    ensures SameBelow(a, b, x)
  {
    if n: nat :| n >= 1 && Up(a, false, c, n) == Some(x) {
      BoardLaws.LinksDecide(a, b, c, n);
      assert Under(b, false, c, x);
    }
  }

  lemma BirthElsewhere(a: Cards, id: int, card: Card, x: int)
    requires id !in a && x in a && !Under(a[id := card], false, id, x)
    ensures SameBelow(a, a[id := card], x)
  {
  }

  /** What is above `c` is its mother or above its mother, also once `c` has moved. */
  lemma OldMotherBelow(a: Cards, c: int, to: Option<int>, x: int)
    requires IsForest(a) && c in a && Under(a, false, c, x)
    ensures a[c].parent.Some?
    ensures x == a[c].parent.value || Under(Hung(a, c, to), false, a[c].parent.value, x)
  {
    var n: nat :| n >= 1 && Up(a, false, c, n) == Some(x);
    var q := a[c].parent.value;
    MotherIsAbove(a, c, q);
    SameAbove(a, Hung(a, c, to), c, q, n - 1);
    UpMeans(Hung(a, c, to), q, n - 1, x);
  }

  lemma UpMeans(cards: Cards, d: int, n: nat, x: int)
    requires Up(cards, false, d, n) == Some(x)
    ensures d == x || Under(cards, false, d, x)
  {
  }

  lemma MoveElsewhere(a: Cards, c: int, to: Option<int>, x: int)
    requires IsForest(a) && c in a && x in a
    requires x != c && !Under(Hung(a, c, to), false, c, x)
    requires a[c].parent.Some? ==>
               x != a[c].parent.value && !Under(Hung(a, c, to), false, a[c].parent.value, x)
    ensures SameBelow(a, Hung(a, c, to), x)
  {
    if Under(a, false, c, x) {
      OldMotherBelow(a, c, to, x);
    }
  }

  lemma MotherIsAbove(cards: Cards, c: int, q: int)
    requires IsForest(cards) && c in cards && cards[c].parent == Some(q)
    ensures q != c && !Under(cards, false, q, c)
  {
    OwnMother(cards, c);
    if n: nat :| n >= 1 && Up(cards, false, q, n) == Some(c) {
      assert Up(cards, false, c, n + 1) == Some(c);
      NoCycle(cards, c, n + 1);
    }
  }

  /** Whoever has `p` for mother is below what `p` is, or is below. */
  lemma ThroughMother(cards: Cards, d: int, p: int, n: nat, x: int)
    requires d in cards && cards[d].parent == Some(p) && Up(cards, false, p, n) == Some(x)
    ensures Under(cards, false, d, x)
  {
    assert Up(cards, false, d, n + 1) == Some(x);
  }

  lemma MotherAside(cards: Cards, e: int, p: int, c: int)
    requires c in cards && e in cards && cards[e].parent == Some(p) && !Under(cards, false, e, c)
    ensures p != c && !Under(cards, false, p, c)
  {
    if p == c {
      ThroughMother(cards, e, p, 0, c);
    } else if Under(cards, false, p, c) {
      var m: nat :| m >= 1 && Up(cards, false, p, m) == Some(c);
      ThroughMother(cards, e, p, m, c);
    }
  }

  lemma {:induction false} SplicedAbove(a: Cards, c: int, e: int, n: nat)
    requires c in a && e != c && !Under(a, false, e, c)
    ensures Up(Spliced(a, c), false, e, n) == Up(a, false, e, n)
    decreases n
  {
    if n > 0 && e in a && a[e].parent.Some? {
      MotherAside(a, e, a[e].parent.value, c);
      SplicedAbove(a, c, a[e].parent.value, n - 1);
    }
  }

  lemma DeletedBelow(a: Cards, c: int, x: int)
    requires IsForest(a) && c in a && Under(a, false, c, x)
    ensures a[c].parent.Some?
    ensures x == a[c].parent.value || Under(Spliced(a, c), false, a[c].parent.value, x)
  {
    var n: nat :| n >= 1 && Up(a, false, c, n) == Some(x);
    var q := a[c].parent.value;
    MotherIsAbove(a, c, q);
    SplicedAbove(a, c, q, n - 1);
    UpMeans(Spliced(a, c), q, n - 1, x);
  }

  lemma OrphanBelow(a: Cards, c: int, d: int, x: int)
    requires c in a && x != c && d in a && a[d].parent == Some(c)
    ensures Under(a, false, d, x) ==> Under(a, false, c, x)
    ensures Under(Spliced(a, c), false, d, x) ==>
              a[c].parent.Some? && (x == a[c].parent.value || Under(Spliced(a, c), false, a[c].parent.value, x))
  {
    var b := Spliced(a, c);
    if n: nat :| n >= 1 && Up(a, false, d, n) == Some(x) {
      UpMeans(a, c, n - 1, x);
    }
    if n: nat :| n >= 1 && Up(b, false, d, n) == Some(x) {
      UpMeans(b, a[c].parent.value, n - 1, x);
    }
  }

  lemma UnderIsCard(cards: Cards, d: int, x: int)
    requires Under(cards, false, d, x)
    ensures d in cards
  {
  }

  lemma DeleteElsewhere(a: Cards, c: int, x: int)
    requires IsForest(a) && c in a && x in a && x != c
    requires a[c].parent.Some? ==> x != a[c].parent.value && !Under(Spliced(a, c), false, a[c].parent.value, x)
    ensures SameBelow(a, Spliced(a, c), x)
  {
    var b := Spliced(a, c);
    forall d | Under(a, false, d, x) || Under(b, false, d, x)
      ensures d in a && d in b && SameFace(a[d], b[d])
    {
      if Under(a, false, c, x) {
        DeletedBelow(a, c, x);
      }
      if Under(b, false, d, x) {
        UnderIsCard(b, d, x);
      }
      if d in a && a[d].parent == Some(c) {
        OrphanBelow(a, c, d, x);
      }
    }
  }

  /** `x` is in the outcome, and not above a touched card. */
  ghost predicate Spared(o: Board.Outcome, x: int) {
    x in o.after.cards && !Reached(o.after.cards, o.touched, x)
  }

  lemma SparedApart(o: Board.Outcome, t: int, x: int)
    requires Shallow(o.after.cards) && Spared(o, x) && t in o.touched && t in o.after.cards
    ensures x != t && !Under(o.after.cards, false, t, x)
  {
    UnreachedIsApart(o.after.cards, o.touched, t, x);
  }

  lemma AddElsewhere(tidy: string -> string, b: Board.State, n: Board.NewCard, now: real, x: int)
    requires Board.Sound(b) && Spared(Board.Added(tidy, b, n, now), x)
    ensures SameBelow(b.cards, Board.Added(tidy, b, n, now).after.cards, x)
  {
    var o := Board.Added(tidy, b, n, now);
    if o.touched != [] {
      BoardLaws.AddKeeps(tidy, b, n, now);
      assert o.touched[0] == b.nextId;
      SparedApart(o, b.nextId, x);
      BirthElsewhere(b.cards, b.nextId, o.after.cards[b.nextId], x);
    }
  }

  /** An outcome that rewrote the card `c` and announced it. */
  lemma OneCardElsewhere(b: Board.State, o: Board.Outcome, c: int, card: Card, x: int)
    requires Board.Sound(b) && Shallow(o.after.cards) && Spared(o, x) && c in b.cards && c in o.touched
    requires o.after.cards == b.cards[c := card] && card.parent == b.cards[c].parent
    ensures SameBelow(b.cards, o.after.cards, x)
  {
    SparedApart(o, c, x);
    RewriteElsewhere(b.cards, o.after.cards, c, x);
  }

  lemma UpdateElsewhere(tidy: string -> string, b: Board.State, id: int, f: Board.Fields, now: real, x: int)
    requires Board.Sound(b) && Spared(Board.Updated(tidy, b, id, f, now), x)
    ensures SameBelow(b.cards, Board.Updated(tidy, b, id, f, now).after.cards, x)
  {
    var o := Board.Updated(tidy, b, id, f, now);
    if o.touched != [] {
      BoardLaws.UpdateKeeps(tidy, b, id, f, now);
      assert o.touched[0] == id;
      OneCardElsewhere(b, o, id, Board.Edit(b.cards[id], f, tidy, now), x);
    }
  }

  lemma CloseElsewhere(b: Board.State, id: int, now: real, x: int)
    requires Board.Sound(b) && Spared(Board.ClosedOne(b, id, now), x)
    ensures SameBelow(b.cards, Board.ClosedOne(b, id, now).after.cards, x)
  {
    var o := Board.ClosedOne(b, id, now);
    if o.touched != [] {
      BoardLaws.CloseKeeps(b, id, now);
      assert o.touched[0] == id;
      OneCardElsewhere(b, o, id, o.after.cards[id], x);
    }
  }

  lemma ReopenElsewhere(b: Board.State, id: int, bucket: string, x: int)
    requires Board.Sound(b) && Spared(Board.ReopenedOne(b, id, bucket), x)
    ensures SameBelow(b.cards, Board.ReopenedOne(b, id, bucket).after.cards, x)
  {
    var o := Board.ReopenedOne(b, id, bucket);
    if o.touched != [] {
      BoardLaws.ReopenKeeps(b, id, bucket);
      assert o.touched[0] == id;
      OneCardElsewhere(b, o, id, o.after.cards[id], x);
    }
  }

  lemma ArchiveElsewhere(b: Board.State, id: int, x: int)
    requires Board.Sound(b) && Spared(Board.ArchivedOne(b, id), x)
    ensures SameBelow(b.cards, Board.ArchivedOne(b, id).after.cards, x)
  {
    var o := Board.ArchivedOne(b, id);
    if o.touched != [] {
      BoardLaws.ArchiveKeeps(b, id);
      assert o.touched[0] == id;
      OneCardElsewhere(b, o, id, o.after.cards[id], x);
    }
  }

  lemma SetParentElsewhere(b: Board.State, id: int, to: Option<int>, x: int)
    requires Board.Sound(b) && Spared(Board.Rehung(b, id, to), x)
    ensures SameBelow(b.cards, Board.Rehung(b, id, to).after.cards, x)
  {
    var o := Board.Rehung(b, id, to);
    if o.touched != [] {
      BoardLaws.SetParentKeeps(b, id, to);
      assert o.touched[0] == id;
      SparedApart(o, id, x);
      if b.cards[id].parent.Some? {
        assert o.touched[1] == b.cards[id].parent.value;
        SparedApart(o, b.cards[id].parent.value, x);
      }
      MoveElsewhere(b.cards, id, to, x);
    }
  }

  lemma DeleteSpares(b: Board.State, id: int, x: int)
    requires Board.Sound(b) && Spared(Board.Deleted(b, id), x)
    ensures SameBelow(b.cards, Board.Deleted(b, id).after.cards, x)
  {
    var o := Board.Deleted(b, id);
    if id in b.cards {
      BoardLaws.DeleteKeeps(b, id);
      if b.cards[id].parent.Some? {
        var q := b.cards[id].parent.value;
        MotherIsAbove(b.cards, id, q);
        assert o.touched[0] == q;
        SparedApart(o, q, x);
      }
      DeleteElsewhere(b.cards, id, x);
    }
  }

  /** What an operation does not announce, it does not change. */
  lemma ElsewhereSame(tidy: string -> string, b: Board.State, op: Board.Op, now: real, x: int)
    requires Board.Sound(b) && Spared(Board.Did(tidy, b, op, now), x)
    ensures SameBelow(b.cards, Board.Did(tidy, b, op, now).after.cards, x)
  {
    match op
    case Add(n) => AddElsewhere(tidy, b, n, now, x);
    case Update(id, f) => UpdateElsewhere(tidy, b, id, f, now, x);
    case Close(id) => CloseElsewhere(b, id, now, x);
    case Reopen(id, bucket) => ReopenElsewhere(b, id, bucket, x);
    case Archive(id) => ArchiveElsewhere(b, id, x);
    case SetParent(id, to) => SetParentElsewhere(b, id, to, x);
    case Delete(id) => DeleteSpares(b, id, x);
  }

  /* ---- the main results ---- */

  /** A step changes the table only above what it touched, before or after. */
  lemma OnlyChainsChange(tidy: string -> string, feed: Feed, w: World, op: Board.Op, now: real, x: int)
    requires !Reached(Board.Did(tidy, w.board, op, now).after.cards, Board.Did(tidy, w.board, op, now).touched, x)
    ensures Stored(Step(tidy, feed, w, op, now).rolls, x) == Stored(w.rolls, x)
  {
    var o := Board.Did(tidy, w.board, op, now);
    HookedIs(feed, World(o.after, w.rolls), o.touched, x);
  }

  ghost predicate Inv(feed: Feed, w: World) {
    Board.Sound(w.board) && UpToDate(feed, w.board.cards, w.rolls)
  }

  /** Incremental equals full: one step. */
  lemma StepIsFullRecompute(tidy: string -> string, feed: Feed, w: World, op: Board.Op, now: real)
    requires Inv(feed, w)
    ensures Inv(feed, Step(tidy, feed, w, op, now))
  {
    var o := Board.Did(tidy, w.board, op, now);
    var mid, after := World(o.after, w.rolls), Step(tidy, feed, w, op, now);
    BoardLaws.StepKeeps(tidy, w.board, op, now);
    HookedIsSound(feed, mid, o.touched);
    HookedIs(feed, mid, o.touched, 0);
    forall x | x in after.board.cards && Kids(after.board.cards, true, x) != {}
      ensures x in after.rolls && after.rolls[x] == RollOf(feed, after.board.cards, x)
    {
      HookedIs(feed, mid, o.touched, x);
      if !Reached(o.after.cards, o.touched, x) {
        ElsewhereSame(tidy, w.board, op, now, x);
        SameRoll(feed, w.board.cards, o.after.cards, x);
      }
    }
  }

  datatype Input = Input(op: Board.Op, now: real)

  /** The world after a run from the empty board. */
  ghost function After(tidy: string -> string, feed: Feed, run: seq<Input>): World {
    if run == [] then
      World(Board.EMPTY, map[])
    else
      var i := run[|run| - 1];
      Step(tidy, feed, After(tidy, feed, run[..|run| - 1]), i.op, i.now)
  }

  /** Incremental equals full, and the board sound, on every run. */
  lemma {:induction false} EveryRunIsUpToDate(tidy: string -> string, feed: Feed, run: seq<Input>)
    ensures Inv(feed, After(tidy, feed, run))
  {
    if run != [] {
      var i := run[|run| - 1];
      EveryRunIsUpToDate(tidy, feed, run[..|run| - 1]);
      StepIsFullRecompute(tidy, feed, After(tidy, feed, run[..|run| - 1]), i.op, i.now);
    }
  }

  /** On every run the journal of a card replays into the card, and the last column means closed. */
  lemma EveryJournalTells(tidy: string -> string, feed: Feed, run: seq<Input>, c: int)
    requires c in After(tidy, feed, run).board.cards
    ensures
      var b := After(tidy, feed, run).board;
      && c in b.logs && Board.Fold(b.logs[c]) == Some(Board.Seen(b.cards[c]))
      && (b.cards[c].bucket == "Done" <==> b.cards[c].closedAt.Some?)
  {
    EveryRunIsUpToDate(tidy, feed, run);
  }

  /** On every run the mothers exist, in the same project, no card is above itself, and no chain is too long. */
  lemma EveryBoardIsForest(tidy: string -> string, feed: Feed, run: seq<Input>, s: seq<int>)
    requires Chain(After(tidy, feed, run).board.cards, s)
    ensures
      var cards := After(tidy, feed, run).board.cards;
      && |s| <= 6
      && (forall i, j :: 0 <= i < j < |s| ==> s[i] != s[j])
      && Linked(cards)
  {
    EveryRunIsUpToDate(tidy, feed, run);
    ChainIsShort(After(tidy, feed, run).board.cards, s);
  }

  lemma ChainIsShort(cards: Cards, s: seq<int>)
    requires IsForest(cards) && Chain(cards, s)
    ensures |s| <= MAX_DEPTH && forall i, j :: 0 <= i < j < |s| ==> s[i] != s[j]
  {
    ShallowMeansShortChains(cards);
    forall i, j | 0 <= i < j < |s|
      ensures s[i] != s[j]
    {
      ChainApart(cards, s, i, j);
    }
  }

  lemma ChainApart(cards: Cards, s: seq<int>, i: nat, j: nat)
    requires Shallow(cards) && Chain(cards, s) && i < j < |s|
    ensures s[i] != s[j]
  {
    var t := s[i..j + 1];
    forall k | 0 <= k < |t| - 1
      ensures cards[t[k]].parent == Some(t[k + 1])
    {
      var m := i + k;
      assert cards[s[m]].parent == Some(s[m + 1]);
    }
    ChainIsUp(cards, t);
    NoCycle(cards, s[i], j - i);
  }
}
