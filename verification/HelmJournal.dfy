/**
 The journal of a card and Helm's table agree: on every run, the lines on progress in a card's journal form
 one chain of states, and the last of them is the state in the table.
 */
module HelmJournal {
  import opened Util
  import opened Forest
  import opened Rollup
  import opened Helm
  import opened HelmLaws
  import Board
  import BoardLaws

  type Log = seq<Board.Event>

  /** The state of the last line on progress. */
  function LastState(log: Log): Option<State> {
    if log == [] then None
    else
      var e := log[|log| - 1];
      if e.Progress? then Some(e.state) else LastState(log[..|log| - 1])
  }

  /** Each line on progress starts from the state of the one before, and changes it. */
  predicate Chained(log: Log) {
    forall k :: 0 <= k < |log| && log[k].Progress? ==> log[k].was == LastState(log[..k]) && log[k].was != Some(log[k].state)
  }

  ghost predicate Silent(es: Log) {
    forall e :: e in es ==> !e.Progress?
  }

  lemma {:induction false} SilentEnd(log: Log, es: Log)
    requires Silent(es)
    ensures LastState(log + es) == LastState(log) && (Chained(log) ==> Chained(log + es))
  {
    if es == [] {
      assert log + es == log;
    } else {
      var init, last := es[..|es| - 1], es[|es| - 1];
      assert last in es && log + es == (log + init) + [last];
      SilentEnd(log, init);
      OneMoreLine(log + init, last);
    }
  }

  lemma OneMoreLine(log: Log, e: Board.Event)
    requires e.Progress? ==> e.was == LastState(log) && e.was != Some(e.state)
    ensures LastState(log + [e]) == if e.Progress? then Some(e.state) else LastState(log)
    ensures Chained(log) ==> Chained(log + [e])
  {
    var more := log + [e];
    assert more[..|log|] == log;
    forall k | 0 <= k < |more| && Chained(log) && more[k].Progress?
      ensures more[k].was == LastState(more[..k]) && more[k].was != Some(more[k].state)
    {
      if k < |log| {
        assert more[..k] == log[..k] && more[k] == log[k];
      }
    }
  }

  // ---- the board is silent about progress ----------------------------------------------

  /** From `a` to `b`, journals have only grown, and by nothing on progress. */
  ghost predicate Quiet(a: Board.Logs, b: Board.Logs) {
    forall c :: c in b ==> QuietAt(if c in a then a[c] else [], b[c])
  }

  ghost predicate QuietAt(log: Log, more: Log) {
    log <= more && Silent(more[|log|..])
  }

  lemma QuietThen(a: Board.Logs, b: Board.Logs, d: Board.Logs)
    requires Quiet(a, b) && Quiet(b, d) && a.Keys <= b.Keys
    ensures Quiet(a, d)
  {
    forall c | c in d ensures QuietAt(if c in a then a[c] else [], d[c]) {
      var x, y, z := if c in a then a[c] else [], if c in b then b[c] else [], d[c];
      assert QuietAt(y, z);
      if c in b {
        assert QuietAt(x, y);
        assert z[|x|..] == y[|x|..] + z[|y|..];
      }
    }
  }

  lemma LoggedIsQuiet(a: Board.Logs, id: int, es: Log)
    requires Silent(es)
    ensures Quiet(a, Board.Logged(a, id, es)) && a.Keys <= Board.Logged(a, id, es).Keys
  {
    var b := Board.Logged(a, id, es);
    forall c | c in b ensures QuietAt(if c in a then a[c] else [], b[c]) {
      var log := if c in a then a[c] else [];
      if c == id {
        assert (log + es)[|log|..] == es;
      } else {
        assert b[c][|log|..] == [];
      }
    }
  }

  lemma {:induction false} DecisionsAreSilent(now: seq<string>, was: seq<string>)
    ensures Silent(Board.Recordings(now, was)) && Silent(Board.Withdrawals(now, was))
  {
    if now != [] {
      DecisionsAreSilent(now[..|now| - 1], was);
    }
  }

  lemma SameIsQuiet(a: Board.Logs)
    ensures Quiet(a, a)
  {
    forall c | c in a ensures QuietAt(a[c], a[c]) {
      assert a[c][|a[c]|..] == [];
    }
  }

  lemma AddIsQuiet(tidy: string -> string, b: Board.State, n: Board.NewCard, now: real)
    ensures Quiet(b.logs, Board.Inserted(tidy, b, n, now).logs)
  {
    var id, card := b.nextId, Board.Born(n, tidy, now);
    DecisionsAreSilent(card.decisions, []);
    var es := [Board.Created(card.bucket, card.parent)] + Board.Recordings(card.decisions, []);
    LoggedIsQuiet(b.logs, id, es);
    var own := Board.Logged(b.logs, id, es);
    if n.parent.Some? {
      LoggedIsQuiet(own, n.parent.value, [Board.ChildAdded(id)]);
      QuietThen(b.logs, own, Board.Inserted(tidy, b, n, now).logs);
    }
  }

  lemma UpdateIsQuiet(logs: Board.Logs, id: int, c: Card, d: Card)
    ensures Quiet(logs, Board.Logged(logs, id, Board.EditEvents(c, d)))
  {
    DecisionsAreSilent(d.decisions, c.decisions);
    DecisionsAreSilent(c.decisions, d.decisions);
    LoggedIsQuiet(logs, id, Board.EditEvents(c, d));
  }

  lemma MoveIsQuiet(logs: Board.Logs, id: int, from: Option<int>, to: Option<int>)
    ensures Quiet(logs, Board.MovedLogs(logs, id, from, to))
  {
    LoggedIsQuiet(logs, id, [Board.ParentChanged(from, to)]);
    var own := Board.Logged(logs, id, [Board.ParentChanged(from, to)]);
    if to.Some? {
      LoggedIsQuiet(own, to.value, [Board.ChildAdded(id)]);
    } else {
      SameIsQuiet(own);
    }
    var gained := if to.Some? then Board.Logged(own, to.value, [Board.ChildAdded(id)]) else own;
    QuietThen(logs, own, gained);
    if from.Some? {
      LoggedIsQuiet(gained, from.value, [Board.ChildRemoved(id)]);
      QuietThen(logs, gained, Board.MovedLogs(logs, id, from, to));
    }
  }

  lemma DeleteIsQuiet(b: Board.State, id: int)
    ensures Quiet(b.logs, Board.Deleted(b, id).after.logs)
  {
    var logs := Board.Deleted(b, id).after.logs;
    forall c | c in logs ensures QuietAt(if c in b.logs then b.logs[c] else [], logs[c]) {
      assert logs[c][|b.logs[c]|..] == [] || logs[c][|b.logs[c]|..] == [logs[c][|b.logs[c]|]];
    }
  }

  lemma StepIsQuiet(tidy: string -> string, b: Board.State, op: Board.Op, now: real)
    ensures Quiet(b.logs, Board.Did(tidy, b, op, now).after.logs)
  {
    SameIsQuiet(b.logs);
    match op {
      case Add(n) => AddIsQuiet(tidy, b, n, now);
      case Update(id, f) =>
        if id in b.cards {
          UpdateIsQuiet(b.logs, id, b.cards[id], Board.Edit(b.cards[id], f, tidy, now));
        }
      case Close(id) =>
        if id in b.cards {
          LoggedIsQuiet(b.logs, id, [Board.Closed(b.cards[id].bucket)]);
        }
      case Reopen(id, bucket) =>
        if id in b.cards {
          LoggedIsQuiet(b.logs, id, [Board.Reopened(b.cards[id].bucket, bucket)]);
        }
      case Archive(id) => LoggedIsQuiet(b.logs, id, [Board.Archived]);
      case SetParent(id, to) =>
        if id in b.cards {
          MoveIsQuiet(b.logs, id, b.cards[id].parent, to);
        }
      case Delete(id) => DeleteIsQuiet(b, id);
    }
  }

  // ---- the table and the journals ------------------------------------------------------

  function StateIn(rolls: Rolls, c: int): Option<State> {
    if c in rolls then Some(rolls[c].state) else None
  }

  /** The journal of `c` is a chain of states that ends on the one in the table. */
  ghost predicate AgreesAt(w: World, c: int) {
    c in w.board.logs ==> Chained(w.board.logs[c]) && LastState(w.board.logs[c]) == StateIn(w.rolls, c)
  }

  /** Journals and table agree on every card, and nobody has an entry who has no number yet. */
  ghost predicate Agree(w: World) {
    w.board.logs.Keys == w.board.cards.Keys && Board.Numbered(w.board.cards, w.board.nextId) &&
    (forall c :: c in w.rolls ==> c < w.board.nextId) &&
    forall c :: AgreesAt(w, c)
  }

  /** Somebody alive hangs under the card. */
  ghost predicate HasLiveChild(cards: Cards, id: int) {
    exists k :: k in cards && cards[k].parent == Some(id) && !cards[k].archived
  }

  /**
   A refresh leaves a card without live child alone. On any other it stores the roll-up, and writes a line exactly
   when the state is another one: from which to which, and how many leaves are done of how many.
   */
  lemma RefreshWritesExactly(feed: Feed, w: World, id: int, roll: Roll)
    requires id in w.board.cards && id in w.board.logs && roll == RollOf(feed, w.board.cards, id)
    ensures !HasLiveChild(w.board.cards, id) ==> RefreshedOne(feed, w, id) == w
    ensures HasLiveChild(w.board.cards, id) ==>
      var v, log := RefreshedOne(feed, w, id), w.board.logs[id];
      id in v.rolls && v.rolls[id] == roll && id in v.board.logs &&
      v.board.logs[id] ==
        if StateIn(w.rolls, id) == Some(roll.state) then log
        else log + [Board.Progress(StateIn(w.rolls, id), roll.state, roll.counts.done, roll.counts.Total())]
  {
    assert HasLiveChild(w.board.cards, id) <==> Kids(w.board.cards, true, id) != {} by {
      if k :| k in w.board.cards && w.board.cards[k].parent == Some(id) && !w.board.cards[k].archived {
        assert k in Kids(w.board.cards, true, id);
      }
    }
  }

  /** The refreshed card itself. */
  lemma RefreshedAgrees(feed: Feed, w: World, id: int)
    requires AgreesAt(w, id) && id in w.board.cards && id in w.board.logs && Kids(w.board.cards, true, id) != {}
    ensures AgreesAt(RefreshedOne(feed, w, id), id)
  {
    var roll := RollOf(feed, w.board.cards, id);
    RefreshWritesExactly(feed, w, id, roll);
    var k :| k in Kids(w.board.cards, true, id);
    assert HasLiveChild(w.board.cards, id);
    if StateIn(w.rolls, id) != Some(roll.state) {
      OneMoreLine(w.board.logs[id],
                  Board.Progress(StateIn(w.rolls, id), roll.state, roll.counts.done, roll.counts.Total()));
    }
  }

  lemma OthersUnrefreshed(feed: Feed, w: World, id: int, c: int)
    requires AgreesAt(w, c) && c != id
    ensures AgreesAt(RefreshedOne(feed, w, id), c)
  {
  }

  lemma RefreshAgrees(feed: Feed, w: World, id: int)
    requires Agree(w)
    ensures Agree(RefreshedOne(feed, w, id))
  {
    forall c ensures AgreesAt(RefreshedOne(feed, w, id), c) {
      assert AgreesAt(w, c);
      if c != id {
        OthersUnrefreshed(feed, w, id, c);
      } else if id in w.board.cards && Kids(w.board.cards, true, id) != {} {
        RefreshedAgrees(feed, w, id);
      }
    }
  }

  lemma {:induction false} RefreshAllAgree(feed: Feed, w: World, ids: seq<int>)
    requires Agree(w)
    ensures Agree(RefreshedAll(feed, w, ids))
  {
    if ids != [] {
      RefreshAllAgree(feed, w, ids[..|ids| - 1]);
      RefreshAgrees(feed, RefreshedAll(feed, w, ids[..|ids| - 1]), ids[|ids| - 1]);
    }
  }

  lemma {:induction false} HookAgrees(feed: Feed, w: World, touched: seq<int>)
    requires Agree(w)
    ensures Agree(Hooked(feed, w, touched))
  {
    if touched != [] {
      HookAgrees(feed, w, touched[..|touched| - 1]);
      var v, id := Hooked(feed, w, touched[..|touched| - 1]), touched[|touched| - 1];
      if id in v.board.cards {
        RefreshAllAgree(feed, v, ChainOf(v.board.cards, id));
      }
    }
  }

  /** A card that is new after an operation has the next number. */
  lemma NewCardIsNext(tidy: string -> string, b: Board.State, op: Board.Op, now: real, c: int)
    requires c in Board.Did(tidy, b, op, now).after.cards && c !in b.cards
    ensures c == b.nextId
    ensures Board.Did(tidy, b, op, now).after.nextId > b.nextId
  {
  }

  lemma NumbersGrow(tidy: string -> string, b: Board.State, op: Board.Op, now: real)
    ensures Board.Did(tidy, b, op, now).after.nextId >= b.nextId
  {
  }

  /** The operation itself, before its listener. */
  lemma OperationAgrees(tidy: string -> string, w: World, op: Board.Op, now: real)
    requires Agree(w) && Board.Sound(w.board)
    ensures Agree(World(Board.Did(tidy, w.board, op, now).after, w.rolls))
  {
    var v := World(Board.Did(tidy, w.board, op, now).after, w.rolls);
    BoardLaws.StepKeeps(tidy, w.board, op, now);
    NumbersGrow(tidy, w.board, op, now);
    StepIsQuiet(tidy, w.board, op, now);
    forall c ensures AgreesAt(v, c) {
      if c in v.board.logs {
        if c !in w.board.logs {
          NewCardIsNext(tidy, w.board, op, now, c);
        }
        assert AgreesAt(w, c);
        GrownAgrees(if c in w.board.logs then w.board.logs[c] else [], v.board.logs[c]);
      }
    }
  }

  lemma GrownAgrees(log: Log, more: Log)
    requires QuietAt(log, more) && Chained(log)
    ensures Chained(more) && LastState(more) == LastState(log)
  {
    assert more == log + more[|log|..];
    SilentEnd(log, more[|log|..]);
  }

  /**
   On every run from the empty board, Helm's lines in a card's journal are a chain of changes of state, each
   from the one before, and the last is the state in the table: none is missing, none is written twice.
   */
  lemma {:induction false} EveryChangeIsWritten(tidy: string -> string, feed: Feed, run: seq<Input>)
    ensures Agree(After(tidy, feed, run))
  {
    if run != [] {
      var init, i := run[..|run| - 1], run[|run| - 1];
      EveryChangeIsWritten(tidy, feed, init);
      EveryRunIsUpToDate(tidy, feed, init);
      var w := After(tidy, feed, init);
      OperationAgrees(tidy, w, i.op, i.now);
      var o := Board.Did(tidy, w.board, i.op, i.now);
      HookAgrees(feed, World(o.after, w.rolls), o.touched);
    }
  }
}
