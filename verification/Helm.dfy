/**
 Helm's table of roll-ups, and its repair: after a change of the board, only the chain from each
 touched card up to its root is computed again, and each change of state is written in the journal.
 */
module Helm {
  import opened Util
  import opened Forest
  import opened Walks
  import opened Rollup
  import Board

  type Rolls = map<int, Roll>

  datatype World = World(board: Board.State, rolls: Rolls)

  function Stored(rolls: Rolls, id: int): Option<Roll> {
    if id in rolls then Some(rolls[id]) else None
  }

  /** The journals, once a roll-up has been stored over another: a change of state is written down. */
  function Noted(logs: Board.Logs, id: int, was: Option<Roll>, roll: Roll): Board.Logs {
    var state := if was.Some? then Some(was.value.state) else None;
    if state == Some(roll.state) then
      logs
    else
      Board.Logged(logs, id, [Board.Progress(state, roll.state, roll.counts.done, roll.counts.Total())])
  }

  /** One card: its roll-up is stored when it has a live child, and left alone otherwise. */
  ghost function RefreshedOne(feed: Feed, w: World, id: int): World {
    if id !in w.board.cards || Kids(w.board.cards, true, id) == {} then
      w
    else
      var roll := RollOf(feed, w.board.cards, id);
      World(w.board.(logs := Noted(w.board.logs, id, Stored(w.rolls, id), roll)), w.rolls[id := roll])
  }

  ghost function RefreshedAll(feed: Feed, w: World, ids: seq<int>): World {
    if ids == [] then w else RefreshedOne(feed, RefreshedAll(feed, w, ids[..|ids| - 1]), ids[|ids| - 1])
  }

  /** A card, its mother, and so on up to the root. */
  ghost function ChainOf(cards: Cards, id: int): seq<int> {
    [id] + Above(cards, id, MAX_DEPTH)
  }

  ghost function Refreshed(feed: Feed, w: World, id: int): World {
    RefreshedAll(feed, w, ChainOf(w.board.cards, id))
  }

  /** The listener: each touched card that still exists. */
  ghost function Hooked(feed: Feed, w: World, touched: seq<int>): World {
    if touched == [] then
      w
    else
      var v, id := Hooked(feed, w, touched[..|touched| - 1]), touched[|touched| - 1];
      if id in v.board.cards then Refreshed(feed, v, id) else v
  }

  /** One operation of the board, then its listener. */
  ghost function Step(tidy: string -> string, feed: Feed, w: World, op: Board.Op, now: real): World {
    var o := Board.Did(tidy, w.board, op, now);
    Hooked(feed, World(o.after, w.rolls), o.touched)
  }

  /** The table object, beside the board it listens to. */
  class Helm {
    const feed: Feed
    const board: Board.Board
    var rolls: Rolls

    ghost function Contents(): World
      reads this, board
    {
      World(board.Contents(), rolls)
    }

    constructor (feed: Feed, board: Board.Board)
      ensures this.feed == feed && this.board == board && rolls == map[]
    {
      this.feed, this.board, rolls := feed, board, map[];
    }

    method RefreshOne(id: int)
      requires IsForest(board.cards)
      modifies this, board
      ensures Contents() == RefreshedOne(feed, old(Contents()), id)
      ensures board.cards == old(board.cards)
    {
      var r := Rollup.Rollup(feed, board.cards, id);
      if r.None? {
        return;
      }
      var kids := Children(board.cards, id, true);
      if kids == [] {
        assert Kids(board.cards, true, id) == {};
        return;
      }
      assert kids[0] in Kids(board.cards, true, id);
      var was := if id in rolls then Some(rolls[id].state) else None;
      var roll := r.value;
      if was != Some(roll.state) {
        board.Log(id, Board.Progress(was, roll.state, roll.counts.done, roll.counts.Total()));
      }
      rolls := rolls[id := roll];
    }

    method RefreshAll(ids: seq<int>)
      requires IsForest(board.cards)
      modifies this, board
      ensures Contents() == RefreshedAll(feed, old(Contents()), ids)
      ensures board.cards == old(board.cards)
    {
      for i := 0 to |ids|
        invariant board.cards == old(board.cards)
        invariant Contents() == RefreshedAll(feed, old(Contents()), ids[..i])
      {
        assert ids[..i + 1][..i] == ids[..i];
        RefreshOne(ids[i]);
      }
      assert ids[..|ids|] == ids;
    }

    /** `refresh`. */
    method Refresh(id: int)
      requires IsForest(board.cards)
      modifies this, board
      ensures Contents() == Refreshed(feed, old(Contents()), id)
      ensures board.cards == old(board.cards)
    {
      var up := Ancestors(board.cards, id);
      ReversedTwice(Above(board.cards, id, MAX_DEPTH));
      RefreshAll([id] + Reversed(up));
    }

    /** `_on_board_change`; `on` says whether the feature is. */
    method OnBoardChange(on: bool, touched: seq<int>)
      requires IsForest(board.cards)
      modifies this, board
      ensures Contents() == if on then Hooked(feed, old(Contents()), touched) else old(Contents())
    {
      if !on {
        return;
      }
      for i := 0 to |touched|
        invariant board.cards == old(board.cards)
        invariant Contents() == Hooked(feed, old(Contents()), touched[..i])
      {
        assert touched[..i + 1][..i] == touched[..i];
        if touched[i] in board.cards {
          Refresh(touched[i]);
        }
      }
      assert touched[..|touched|] == touched;
    }
  }
}
