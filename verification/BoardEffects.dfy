/**
 What each operation of the board does to the card it names and what it writes in its journal, said on
 what was asked.
 */
module BoardEffects {
  import opened Util
  import opened Forest
  import opened Hanging
  import opened Board
  import opened BoardLaws

  /** Everything else of the board is as it was. */
  ghost predicate OthersAside(b: State, a: State, id: int) {
    a.nextId == b.nextId && a.cards.Keys == b.cards.Keys &&
    forall c :: c in b.cards && c != id ==> a.cards[c] == b.cards[c]
  }

  // ---- update --------------------------------------------------------------------------

  /** `d` is what the field asked for, or what was there. */
  ghost predicate Asked<T>(asked: Option<T>, was: T, d: T) {
    d == if asked.Some? then asked.value else was
  }

  /**
   An update is accepted exactly on a card that exists, of a kind there is; it takes each field given and
   keeps each other one, the card's place and project among them. The closing time follows the column: set
   on entering the last one, unless set already, dropped on entering another, kept when the column stays.
   */
  lemma UpdateIsWhatWasAsked(tidy: string -> string, b: State, id: int, f: Fields, now: real)
    ensures var o := Did(tidy, b, Op.Update(id, f), now);
      (o.reply == Got(id) <==>
        id in b.cards && (f.kind.None? || f.kind.value == "task" || f.kind.value == "project" || f.kind.value == "reframe")) &&
      (o.reply != Got(id) ==> o.after == b && o.touched == []) &&
      (o.reply == Got(id) ==> id in o.after.cards && OthersAside(b, o.after, id) &&
                              UpdatedCard(b.cards[id], o.after.cards[id], f, now) &&
                              (f.decisions.Some? ==> o.after.cards[id].decisions == Clean(f.decisions.value, tidy)))
  {
    assert f.kind.Some? ==> (f.kind.value in KINDS <==> f.kind.value in ["task", "project", "reframe"]);
  }

  ghost predicate UpdatedCard(c: Card, d: Card, f: Fields, now: real) {
    Asked(f.bucket, c.bucket, d.bucket) && Asked(f.archived, c.archived, d.archived) && Asked(f.kind, c.kind, d.kind) &&
    Asked(f.title, c.title, d.title) && Asked(f.session, c.session, d.session) &&
    (f.decisions.None? ==> d.decisions == c.decisions) && d.project == c.project && d.parent == c.parent &&
    (d.bucket == c.bucket ==> d.closedAt == c.closedAt) &&
    (d.bucket != c.bucket && d.bucket != "Done" ==> d.closedAt == None) &&
    (d.bucket != c.bucket && d.bucket == "Done" ==> d.closedAt == if c.closedAt == None then Some(now) else c.closedAt)
  }

  lemma IfHolds(when: bool, e: Event, x: Event)
    ensures x in If(when, e) <==> when && x == e
  {
  }

  lemma {:induction false} RecordingsHold(now: seq<string>, was: seq<string>, x: Event)
    ensures x in Recordings(now, was) <==> x.DecisionRecorded? && x.text in now && x.text !in was
  {
    if now != [] {
      var w, d := now[..|now| - 1], now[|now| - 1];
      assert now == w + [d];
      RecordingsHold(w, was, x);
      IfHolds(d !in was, DecisionRecorded(d), x);
    }
  }

  lemma {:induction false} WithdrawalsHold(was: seq<string>, now: seq<string>, x: Event)
    ensures x in Withdrawals(was, now) <==> x.DecisionWithdrawn? && x.text in was && x.text !in now
  {
    if was != [] {
      var w, d := was[..|was| - 1], was[|was| - 1];
      assert was == w + [d];
      WithdrawalsHold(w, now, x);
      IfHolds(d !in now, DecisionWithdrawn(d), x);
    }
  }

  /** What an update writes: one line for each thing that changed, telling from what to what, and no other. */
  lemma UpdateTellsExactly(tidy: string -> string, b: State, id: int, f: Fields, now: real, x: Event, es: seq<Event>)
    requires id in b.cards && id in b.logs && Did(tidy, b, Op.Update(id, f), now).reply == Got(id)
    requires Did(tidy, b, Op.Update(id, f), now).after.logs == Logged(b.logs, id, es)
    ensures var c, d := b.cards[id], Did(tidy, b, Op.Update(id, f), now).after.cards[id];
      x in es <==>
      match x
      case Moved(from, to) => from == c.bucket && to == d.bucket && from != to
      case Archived => d.archived && !c.archived
      case Restored => c.archived && !d.archived
      case DecisionRecorded(t) => t in d.decisions && t !in c.decisions
      case DecisionWithdrawn(t) => t in c.decisions && t !in d.decisions
      case Edited(field) => (field == "kind" && d.kind != c.kind) || (field == "title" && d.title != c.title)
      case _ => false
  {
    var o := Did(tidy, b, Op.Update(id, f), now);
    var c, d := b.cards[id], o.after.cards[id];
    LinesOf(b.logs, o.after.logs, id, es, EditEvents(c, d), f == Fields(None, None, None, None, None, None));
    NothingToTell(c);
    EditTells(c, d, x);
  }

  lemma LinesOf(logs: Logs, after: Logs, id: int, es: seq<Event>, fs: seq<Event>, idle: bool)
    requires id in logs && after == Logged(logs, id, es)
    requires after == if idle then logs else Logged(logs, id, fs)
    ensures es == if idle then [] else fs
  {
    var log := logs[id];
    assert after[id] == log + es;
    assert es == (log + es)[|log|..];
    assert fs == (log + fs)[|log|..];
    assert [] == log[|log|..];
  }

  lemma HasHead(es: seq<Event>)
    ensures es == [] || es[0] in es
  {
  }

  lemma NothingToTell(c: Card)
    ensures EditEvents(c, c) == []
  {
    forall x ensures x !in EditEvents(c, c) {
      EditTells(c, c, x);
    }
    HasHead(EditEvents(c, c));
  }

  lemma EditTells(c: Card, d: Card, x: Event)
    ensures x in EditEvents(c, d) <==>
      match x
      case Moved(from, to) => from == c.bucket && to == d.bucket && from != to
      case Archived => d.archived && !c.archived
      case Restored => c.archived && !d.archived
      case DecisionRecorded(t) => t in d.decisions && t !in c.decisions
      case DecisionWithdrawn(t) => t in c.decisions && t !in d.decisions
      case Edited(field) => (field == "kind" && d.kind != c.kind) || (field == "title" && d.title != c.title)
      case _ => false
  {
    IfHolds(d.bucket != c.bucket, Moved(c.bucket, d.bucket), x);
    IfHolds(d.archived != c.archived, if d.archived then Archived else Restored, x);
    RecordingsHold(d.decisions, c.decisions, x);
    WithdrawalsHold(c.decisions, d.decisions, x);
    IfHolds(d.kind != c.kind, Edited("kind"), x);
    IfHolds(d.title != c.title, Edited("title"), x);
  }

  // ---- a new card ----------------------------------------------------------------------

  predicate IsColumn(s: string) {
    s == "Backlog" || s == "Doing" || s == "Review" || s == "Done"
  }

  lemma ColumnsAre(s: string)
    ensures s in BUCKETS <==> IsColumn(s)
  {
    assert s in BUCKETS <==> s in ["Backlog", "Doing", "Review", "Done"];
  }

  /** A new card is as asked, in the first column when there is no such column, closed exactly when born in the last. */
  lemma AddIsWhatWasAsked(tidy: string -> string, b: State, n: NewCard, now: real)
    requires Did(tidy, b, Op.Add(n), now).reply.Got?
    ensures var o := Did(tidy, b, Op.Add(n), now);
      o.reply == Got(b.nextId) && o.after.nextId == b.nextId + 1 && b.nextId in o.after.cards &&
      (forall c :: c != b.nextId ==> (c in o.after.cards <==> c in b.cards)) &&
      (forall c :: c in b.cards && c != b.nextId ==> o.after.cards[c] == b.cards[c]) &&
      var d := o.after.cards[b.nextId];
      d.title == n.title && d.kind == n.kind && d.parent == n.parent && d.decisions == Clean(n.decisions, tidy) &&
      d.project == (if n.project == "" then "default" else n.project) && !d.archived && d.session == "" &&
      d.bucket == (if IsColumn(n.bucket) then n.bucket else "Backlog") &&
      d.closedAt == if d.bucket == "Done" then Some(now) else None
  {
    ColumnsAre(n.bucket);
  }

  /** A card is refused for its kind exactly when there is no such kind, whatever its mother. */
  lemma BadKindExactly(tidy: string -> string, b: State, n: NewCard, now: real)
    ensures Did(tidy, b, Op.Add(n), now).reply == Refused(BadKind) <==>
            n.kind != "task" && n.kind != "project" && n.kind != "reframe"
  {
    assert n.kind in KINDS <==> n.kind in ["task", "project", "reframe"];
  }

  // ---- closing, reopening, archiving ---------------------------------------------------

  /** Closing moves the card to the last column and notes the time, unless it is closed there already. */
  lemma CloseExactly(tidy: string -> string, b: State, id: int, now: real)
    ensures var o := Did(tidy, b, Op.Close(id), now);
      (o.reply == Got(id) <==> id in b.cards) && (o.reply != Got(id) ==> o.after == b) &&
      (id in b.cards ==>
        var c := b.cards[id];
        OthersAside(b, o.after, id) && id in o.after.cards &&
        if c.bucket == "Done" && c.closedAt.Some? then o.after == b && o.touched == []
        else o.after.cards[id] == c.(bucket := "Done", closedAt := Some(now)) &&
             o.after.logs == Logged(b.logs, id, [Closed(c.bucket)]))
  {
  }

  /** Reopening: only into a column before the last; whatever was closed, archived or done comes back open there. */
  lemma ReopenExactly(tidy: string -> string, b: State, id: int, bucket: string, now: real)
    ensures var o := Did(tidy, b, Op.Reopen(id, bucket), now);
      (o.reply == Refused(BadBucket) <==> bucket != "Backlog" && bucket != "Doing" && bucket != "Review") &&
      (o.reply == Got(id) <==> id in b.cards && (bucket == "Backlog" || bucket == "Doing" || bucket == "Review")) &&
      (o.reply != Got(id) ==> o.after == b) &&
      (o.reply == Got(id) ==>
        var c := b.cards[id];
        OthersAside(b, o.after, id) && id in o.after.cards &&
        if c.bucket == "Done" || c.archived || c.closedAt.Some?
        then o.after.cards[id] == c.(bucket := bucket, closedAt := None, archived := false) &&
             o.after.logs == Logged(b.logs, id, [Reopened(c.bucket, bucket)])
        else o.after == b && o.touched == [])
  {
    ColumnsAre(bucket);
  }

  /** Archiving sets the flag and nothing else. */
  lemma ArchiveExactly(tidy: string -> string, b: State, id: int, now: real)
    ensures var o := Did(tidy, b, Op.Archive(id), now);
      (o.reply == Got(id) <==> id in b.cards) && (o.reply != Got(id) ==> o.after == b) &&
      (id in b.cards ==>
        OthersAside(b, o.after, id) && id in o.after.cards && o.after.cards[id] == b.cards[id].(archived := true) &&
        o.after.logs == if b.cards[id].archived then b.logs else Logged(b.logs, id, [Event.Archived]))
  {
  }

  // ---- the journals of a birth, a move and a deletion ----------------------------------

  /** The journal of `c`, empty when there is none. */
  function Journal(logs: Logs, c: int): seq<Event> {
    if c in logs then logs[c] else []
  }

  lemma {:induction false} RecordingsOfNew(now: seq<string>)
    requires forall i, j :: 0 <= i < j < |now| ==> now[i] != now[j]
    ensures |Recordings(now, [])| == |now|
    ensures forall j :: 0 <= j < |now| ==> Recordings(now, [])[j] == DecisionRecorded(now[j])
  {
    if now != [] {
      RecordingsOfNew(now[..|now| - 1]);
    }
  }

  /** A birth: the card's journal opens with its column and mother, then each decision; its mother's gains a line. */
  lemma AddTellsExactly(tidy: string -> string, b: State, n: NewCard, now: real, c: int)
    requires Sound(b) && Did(tidy, b, Op.Add(n), now).reply.Got?
    ensures var o := Did(tidy, b, Op.Add(n), now);
      var d, log := o.after.cards[b.nextId], Journal(o.after.logs, b.nextId);
      |log| == 1 + |d.decisions| && log[0] == Created(d.bucket, d.parent) &&
      (forall j :: 0 <= j < |d.decisions| ==> log[1 + j] == DecisionRecorded(d.decisions[j])) &&
      (c != b.nextId ==>
        Journal(o.after.logs, c) == Journal(b.logs, c) + if n.parent == Some(c) then [ChildAdded(b.nextId)] else [])
  {
    CleanIsExact(n.decisions, tidy);
    RecordingsOfNew(Clean(n.decisions, tidy));
    assert [] + Journal(b.logs, c) == Journal(b.logs, c);
  }

  /** A move: the card tells from where to where, the mother it leaves and the one it joins tell the card. */
  lemma MoveTellsExactly(tidy: string -> string, b: State, id: int, to: Option<int>, now: real, c: int)
    requires Sound(b) && id in b.cards && Did(tidy, b, Op.SetParent(id, to), now).reply == Got(id)
    ensures var o, from := Did(tidy, b, Op.SetParent(id, to), now), b.cards[id].parent;
      if from == to then o.after == b
      else
        o.after.cards == b.cards[id := b.cards[id].(parent := to)] && o.after.nextId == b.nextId &&
        Journal(o.after.logs, c) == Journal(b.logs, c) +
          if c == id then [ParentChanged(from, to)]
          else if to == Some(c) then [ChildAdded(id)]
          else if from == Some(c) then [ChildRemoved(id)]
          else []
  {
    if to.Some? && b.cards[id].parent != to {
      MoveIsExact(b.cards, id, to.value);
      NotItsOwnMother(b.cards, id);
      NotItsOwnMother(Hung(b.cards, id, to), id);
    }
    NotItsOwnMother(b.cards, id);
    assert Journal(b.logs, c) + [] == Journal(b.logs, c);
  }

  lemma NotItsOwnMother(cards: Cards, id: int)
    requires IsForest(cards) && id in cards
    ensures cards[id].parent != Some(id)
  {
    NoCycle(cards, id, 1);
  }

  /** A deletion: each child tells that it hangs under its grandmother now, and nobody else tells anything. */
  lemma DeleteTellsExactly(tidy: string -> string, b: State, id: int, now: real, c: int)
    requires Sound(b) && id in b.cards && c in b.cards && c != id
    ensures var o, q := Did(tidy, b, Op.Delete(id), now), b.cards[id].parent;
      id !in o.after.cards && id !in o.after.logs && c in o.after.cards && c in o.after.logs &&
      o.after.cards[c] == (if b.cards[c].parent == Some(id) then b.cards[c].(parent := q) else b.cards[c]) &&
      o.after.logs[c] == b.logs[c] + if b.cards[c].parent == Some(id) then [ParentChanged(Some(id), q)] else []
  {
    assert b.logs[c] + [] == b.logs[c];
  }

  // ---- the order of the decisions ------------------------------------------------------

  /** What came before line `i` is kept among the first `k`. */
  ghost predicate SaidBefore(v: seq<string>, tidy: string -> string, out: seq<string>, i: int, k: int)
    requires 0 <= i <= |v| && 0 <= k <= |out|
  {
    forall j :: 0 <= j < i && tidy(v[j]) != "" ==> tidy(v[j]) in out[..k]
  }

  /** Decision `k` is the clean-up of a line before which nothing was said that is not kept before it. */
  ghost predicate InOrderAt(v: seq<string>, tidy: string -> string, out: seq<string>, k: int)
    requires 0 <= k < |out|
  {
    exists i :: 0 <= i < |v| && tidy(v[i]) == out[k] && SaidBefore(v, tidy, out, i, k)
  }

  lemma AllSaid(v: seq<string>, tidy: string -> string)
    ensures SaidBefore(v, tidy, CleanAll(v, tidy), |v|, |CleanAll(v, tidy)|)
  {
    if v != [] {
      var w, out := v[..|v| - 1], CleanAll(v[..|v| - 1], tidy);
      AllSaid(w, tidy);
      forall j | 0 <= j < |v| && tidy(v[j]) != "" ensures tidy(v[j]) in CleanAll(v, tidy) {
        if j < |w| {
          assert tidy(w[j]) in out[..|out|];
        }
      }
    }
  }

  lemma {:induction false} AllInOrder(v: seq<string>, tidy: string -> string, k: int)
    requires 0 <= k < |CleanAll(v, tidy)|
    ensures InOrderAt(v, tidy, CleanAll(v, tidy), k)
  {
    var w, all := v[..|v| - 1], CleanAll(v, tidy);
    var out := CleanAll(w, tidy);
    if k < |out| {
      AllInOrder(w, tidy, k);
      var i :| 0 <= i < |w| && tidy(w[i]) == out[k] && SaidBefore(w, tidy, out, i, k);
      OrderFurther(v, w, tidy, all, out, i, k);
    } else {
      AllSaid(w, tidy);
      OrderFurther(v, w, tidy, all, out, |w|, k);
    }
  }

  lemma OrderFurther(v: seq<string>, w: seq<string>, tidy: string -> string, all: seq<string>, out: seq<string>, i: int, k: int)
    requires w <= v && out <= all && 0 <= i <= |w| && 0 <= k <= |out| && SaidBefore(w, tidy, out, i, k)
    ensures SaidBefore(v, tidy, all, i, k)
  {
    forall j | 0 <= j < i && tidy(v[j]) != "" ensures tidy(v[j]) in all[..k] {
      assert v[j] == w[j] && all[..k] == out[..k];
    }
  }

  /** The decisions kept are the first said, in the order in which they were first said. */
  lemma CleanKeepsOrder(v: seq<string>, tidy: string -> string, k: int)
    requires 0 <= k < |Clean(v, tidy)|
    ensures InOrderAt(v, tidy, Clean(v, tidy), k)
  {
    var all, out := CleanAll(v, tidy), Clean(v, tidy);
    AllInOrder(v, tidy, k);
    var i :| 0 <= i < |v| && tidy(v[i]) == all[k] && SaidBefore(v, tidy, all, i, k);
    assert all[..k] == out[..k];
    assert SaidBefore(v, tidy, out, i, k);
  }
}
