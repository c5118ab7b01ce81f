/**
 What every operation of the board keeps: the cards are a forest of bounded depth, the journals tell
 the cards, a card is closed exactly when it is in the last column.
 */
module BoardLaws {
  import opened Util
  import opened Forest
  import opened Hanging
  import opened Board

  /* ---- decisions ---- */

  ghost predicate NoTwice(s: seq<string>) {
    forall i, j :: 0 <= i < j < |s| ==> s[i] != s[j]
  }

  lemma {:induction false} CleanAllIsExact(v: seq<string>, tidy: string -> string)
    ensures NoTwice(CleanAll(v, tidy))
    ensures forall t :: t in CleanAll(v, tidy) <==> t != "" && exists i :: 0 <= i < |v| && tidy(v[i]) == t
  {
    if v != [] {
      var w := v[..|v| - 1];
      CleanAllIsExact(w, tidy);
      forall t
        ensures t in CleanAll(v, tidy) <==> t != "" && exists i :: 0 <= i < |v| && tidy(v[i]) == t
      {
        if t != "" && exists i :: 0 <= i < |v| && tidy(v[i]) == t {
          var i :| 0 <= i < |v| && tidy(v[i]) == t;
          if i < |w| {
            assert tidy(w[i]) == t;
          }
        }
        if t in CleanAll(w, tidy) {
          var i :| 0 <= i < |w| && tidy(w[i]) == t;
          assert tidy(v[i]) == t;
        }
      }
    }
  }

  /** Cleaned decisions: no blank, no repeat, at most fifty, and when no more than that were given, all of them. */
  lemma CleanIsExact(v: seq<string>, tidy: string -> string)
    ensures NoTwice(Clean(v, tidy)) && |Clean(v, tidy)| <= 50
    ensures forall t :: t in Clean(v, tidy) ==> t != "" && exists i :: 0 <= i < |v| && tidy(v[i]) == t
    ensures |Clean(v, tidy)| < 50 ==>
              forall i :: 0 <= i < |v| && tidy(v[i]) != "" ==> tidy(v[i]) in Clean(v, tidy)
  {
    CleanAllIsExact(v, tidy);
    assert forall t :: t in Clean(v, tidy) ==> t in CleanAll(v, tidy);
  }

  /* ---- replaying journals ---- */

  function ReplayAll(s: Shown, es: seq<Event>): Shown {
    if es == [] then s else Replay(ReplayAll(s, es[..|es| - 1]), es[|es| - 1])
  }

  lemma {:induction false} ReplayJoin(s: Shown, es: seq<Event>, fs: seq<Event>)
    ensures ReplayAll(s, es + fs) == ReplayAll(ReplayAll(s, es), fs)
  {
    if fs == [] {
      assert es + fs == es;
    } else {
      ReplayJoin(s, es, fs[..|fs| - 1]);
      assert (es + fs)[..|es + fs| - 1] == es + fs[..|fs| - 1];
    }
  }

  ghost predicate NoBirth(es: seq<Event>) {
    forall e :: e in es ==> !e.Created?
  }

  lemma {:induction false} FoldMore(log: seq<Event>, es: seq<Event>)
    requires Fold(log).Some? && NoBirth(es)
    ensures Fold(log + es) == Some(ReplayAll(Fold(log).value, es))
  {
    if es == [] {
      assert log + es == log;
    } else {
      assert es[|es| - 1] in es;
      FoldMore(log, es[..|es| - 1]);
      assert (log + es)[..|log + es| - 1] == log + es[..|es| - 1];
    }
  }

  lemma {:induction false} NoBirthAmong(now: seq<string>, was: seq<string>)
    ensures NoBirth(Recordings(now, was)) && NoBirth(Withdrawals(now, was))
  {
    if now != [] {
      NoBirthAmong(now[..|now| - 1], was);
    }
  }

  function Without(now: seq<string>, was: seq<string>): set<string> {
    set d | d in now && d !in was
  }

  lemma WithoutLast(now: seq<string>, was: seq<string>)
    requires now != []
    ensures Without(now, was)
            == Without(now[..|now| - 1], was) + if now[|now| - 1] !in was then {now[|now| - 1]} else {}
  {
    var w, d := now[..|now| - 1], now[|now| - 1];
    assert now == w + [d];
  }

  lemma {:induction false} RecordingsReplay(s: Shown, now: seq<string>, was: seq<string>)
    ensures ReplayAll(s, Recordings(now, was)) == s.(decisions := s.decisions + Without(now, was))
  {
    if now != [] {
      var w, d := now[..|now| - 1], now[|now| - 1];
      RecordingsReplay(s, w, was);
      ReplayJoin(s, Recordings(w, was), If(d !in was, DecisionRecorded(d)));
      ReplayIf(ReplayAll(s, Recordings(w, was)), d !in was, DecisionRecorded(d));
      WithoutLast(now, was);
    }
  }

  lemma ReplayIf(s: Shown, when: bool, e: Event)
    ensures ReplayAll(s, If(when, e)) == if when then Replay(s, e) else s
  {
    if when {
      assert [e][..0] == [];
      assert ReplayAll(s, []) == s;
    }
  }

  lemma WithdrawLast(s: Shown, t: Shown, was: seq<string>, now: seq<string>)
    requires was != [] && t == s.(decisions := s.decisions - Without(was[..|was| - 1], now))
    ensures ReplayAll(t, If(was[|was| - 1] !in now, DecisionWithdrawn(was[|was| - 1])))
            == s.(decisions := s.decisions - Without(was, now))
  {
    var d := was[|was| - 1];
    ReplayIf(t, d !in now, DecisionWithdrawn(d));
    WithoutLast(was, now);
    assert s.decisions - Without(was, now) == t.decisions - if d !in now then {d} else {};
  }

  lemma {:induction false} WithdrawalsReplay(s: Shown, was: seq<string>, now: seq<string>)
    ensures ReplayAll(s, Withdrawals(was, now)) == s.(decisions := s.decisions - Without(was, now))
  {
    if was != [] {
      var w, d := was[..|was| - 1], was[|was| - 1];
      WithdrawalsReplay(s, w, now);
      WithdrawLast(s, ReplayAll(s, Withdrawals(w, now)), was, now);
      ReplayJoin(s, Withdrawals(w, now), If(d !in now, DecisionWithdrawn(d)));
    }
  }

  lemma DecisionsReplay(s: Shown, was: seq<string>, now: seq<string>)
    requires s.decisions == set d | d in was
    ensures ReplayAll(s, Recordings(now, was) + Withdrawals(was, now)) == s.(decisions := set d | d in now)
  {
    RecordingsReplay(s, now, was);
    ReplayJoin(s, Recordings(now, was), Withdrawals(was, now));
    var t := ReplayAll(s, Recordings(now, was));
    WithdrawalsReplay(t, was, now);
    assert t.decisions - Without(was, now) == set d | d in now;
  }

  lemma ReplayThree(s: Shown, a: seq<Event>, t: Shown, b: seq<Event>, u: Shown, e: seq<Event>, v: Shown)
    requires ReplayAll(s, a) == t && ReplayAll(t, b) == u && ReplayAll(u, e) == v
    ensures ReplayAll(s, a + b + e) == v
  {
    ReplayJoin(s, a, b);
    ReplayJoin(s, a + b, e);
  }

  lemma ReplayFlags(c: Card, d: Card)
    ensures ReplayAll(Seen(c), If(d.bucket != c.bucket, Moved(c.bucket, d.bucket)))
            == Seen(c).(bucket := d.bucket)
    ensures ReplayAll(Seen(c).(bucket := d.bucket),
                      If(d.archived != c.archived, if d.archived then Archived else Restored))
            == Seen(c).(bucket := d.bucket, archived := d.archived)
  {
    ReplayIf(Seen(c), d.bucket != c.bucket, Moved(c.bucket, d.bucket));
    ReplayIf(Seen(c).(bucket := d.bucket), d.archived != c.archived, if d.archived then Archived else Restored);
  }

  lemma ReplayTexts(d: Card, kind: bool, title: bool)
    ensures ReplayAll(Seen(d), If(kind, Edited("kind"))) == Seen(d)
    ensures ReplayAll(Seen(d), If(title, Edited("title"))) == Seen(d)
  {
    ReplayIf(Seen(d), kind, Edited("kind"));
    ReplayIf(Seen(d), title, Edited("title"));
  }

  /** The journal of an update replays into the updated card. */
  lemma EditReplay(c: Card, d: Card)
    requires d.parent == c.parent
    ensures ReplayAll(Seen(c), EditEvents(c, d)) == Seen(d)
  {
    var a, b := If(d.bucket != c.bucket, Moved(c.bucket, d.bucket)),
                If(d.archived != c.archived, if d.archived then Archived else Restored);
    var e := Recordings(d.decisions, c.decisions) + Withdrawals(c.decisions, d.decisions);
    ReplayFlags(c, d);
    DecisionsReplay(Seen(c).(bucket := d.bucket, archived := d.archived), c.decisions, d.decisions);
    ReplayThree(Seen(c), a, Seen(c).(bucket := d.bucket), b, Seen(c).(bucket := d.bucket, archived := d.archived), e,
                Seen(d));
    ReplayTexts(d, d.kind != c.kind, d.title != c.title);
    ReplayThree(Seen(c), a + b + e, Seen(d), If(d.kind != c.kind, Edited("kind")), Seen(d),
                If(d.title != c.title, Edited("title")), Seen(d));
  }

  lemma EditIsNoBirth(c: Card, d: Card)
    ensures NoBirth(EditEvents(c, d))
  {
    NoBirthAmong(d.decisions, c.decisions);
    NoBirthAmong(c.decisions, d.decisions);
  }

  /* ---- journals and cards together ---- */

  lemma ToldOne(cards: Cards, logs: Logs, id: int, card: Card, es: seq<Event>)
    requires Told(cards, logs) && id in cards && NoBirth(es) && ReplayAll(Seen(cards[id]), es) == Seen(card)
    ensures Told(cards[id := card], Logged(logs, id, es))
  {
    FoldMore(logs[id], es);
  }

  lemma ReplayOne(s: Shown, e: Event)
    ensures ReplayAll(s, [e]) == Replay(s, e)
  {
    ReplayIf(s, true, e);
    assert If(true, e) == [e];
  }

  /** An event that changes nothing, on a card that exists. */
  lemma ToldIdle(cards: Cards, logs: Logs, id: int, e: Event)
    requires Told(cards, logs) && id in cards && !e.Created? && Replay(Seen(cards[id]), e) == Seen(cards[id])
    ensures Told(cards, Logged(logs, id, [e]))
  {
    ReplayOne(Seen(cards[id]), e);
    ToldOne(cards, logs, id, cards[id], [e]);
    assert cards[id := cards[id]] == cards;
  }

  lemma ToldBirth(cards: Cards, logs: Logs, id: int, card: Card)
    requires Told(cards, logs) && id !in cards && !card.archived
    ensures Told(cards[id := card], Logged(logs, id, [Created(card.bucket, card.parent)] + Recordings(card.decisions, [])))
  {
    var e := Created(card.bucket, card.parent);
    var es := Recordings(card.decisions, []);
    var s := Shown(card.bucket, card.parent, false, {});
    BirthFold(e, es, s, card.decisions);
    assert {} + Without(card.decisions, []) == set d | d in card.decisions;
    assert [] + ([e] + es) == [e] + es;
  }

  lemma BirthFold(e: Event, es: seq<Event>, s: Shown, decisions: seq<string>)
    requires e.Created? && s == Shown(e.bucket, e.parent, false, {}) && es == Recordings(decisions, [])
    ensures Fold([e] + es) == Some(s.(decisions := {} + Without(decisions, [])))
  {
    RecordingsReplay(s, decisions, []);
    NoBirthAmong(decisions, []);
    assert Fold([e]) == Some(s);
    FoldMore([e], es);
  }

  lemma {:induction false} LinksDecide(a: Cards, b: Cards, d: int, n: nat)
    requires a.Keys == b.Keys && forall d :: d in a ==> a[d].parent == b[d].parent
    ensures Up(a, false, d, n) == Up(b, false, d, n)
    decreases n
  {
    if n > 0 && d in a && a[d].parent.Some? {
      LinksDecide(a, b, a[d].parent.value, n - 1);
    }
  }

  lemma LinksDecideForest(a: Cards, b: Cards)
    requires IsForest(a) && a.Keys == b.Keys
    requires forall d :: d in a ==> a[d].parent == b[d].parent && a[d].project == b[d].project
    ensures IsForest(b)
  {
    forall d | d in b
      ensures Up(b, false, d, MAX_DEPTH) == None
    {
      LinksDecide(a, b, d, MAX_DEPTH);
    }
  }

  /* ---- each operation ---- */

  /** Rewriting one card, its links aside. */
  lemma RewriteKeeps(b: State, id: int, card: Card, es: seq<Event>)
    requires Sound(b) && id in b.cards && card.parent == b.cards[id].parent && card.project == b.cards[id].project
    requires NoBirth(es) && ReplayAll(Seen(b.cards[id]), es) == Seen(card)
    requires card.bucket == "Done" <==> card.closedAt.Some?
    ensures Sound(b.(cards := b.cards[id := card], logs := Logged(b.logs, id, es)))
  {
    LinksDecideForest(b.cards, b.cards[id := card]);
    ToldOne(b.cards, b.logs, id, card, es);
  }

  lemma AddKeeps(tidy: string -> string, b: State, n: NewCard, now: real)
    requires Sound(b)
    ensures Sound(Added(tidy, b, n, now).after)
  {
    var id, card := b.nextId, Born(n, tidy, now);
    if Added(tidy, b, n, now).after != b {
      if n.parent.Some? {
        assert Verdict(b.cards, None, n.parent.value, card.project) == None;
        BirthIsExact(b.cards, id, card);
      } else {
        RootBirthKeepsForest(b.cards, id, card);
      }
      ToldBirth(b.cards, b.logs, id, card);
      if n.parent.Some? {
        var own := Logged(b.logs, id, [Created(card.bucket, card.parent)] + Recordings(card.decisions, []));
        ToldIdle(b.cards[id := card], own, n.parent.value, ChildAdded(id));
      }
    }
  }

  lemma UpdateKeeps(tidy: string -> string, b: State, id: int, f: Fields, now: real)
    requires Sound(b)
    ensures Sound(Updated(tidy, b, id, f, now).after)
  {
    if Updated(tidy, b, id, f, now).after != b {
      var c := b.cards[id];
      var d := Edit(c, f, tidy, now);
      EditReplay(c, d);
      EditIsNoBirth(c, d);
      RewriteKeeps(b, id, d, EditEvents(c, d));
    }
  }

  lemma CloseKeeps(b: State, id: int, now: real)
    requires Sound(b)
    ensures Sound(ClosedOne(b, id, now).after)
  {
    if ClosedOne(b, id, now).after != b {
      var c := b.cards[id];
      ReplayOne(Seen(c), Closed(c.bucket));
      RewriteKeeps(b, id, c.(bucket := "Done", closedAt := Some(now)), [Closed(c.bucket)]);
    }
  }

  lemma ReopenKeeps(b: State, id: int, bucket: string)
    requires Sound(b)
    ensures Sound(ReopenedOne(b, id, bucket).after)
  {
    if ReopenedOne(b, id, bucket).after != b {
      var c := b.cards[id];
      ReplayOne(Seen(c), Reopened(c.bucket, bucket));
      RewriteKeeps(b, id, c.(bucket := bucket, closedAt := None, archived := false), [Reopened(c.bucket, bucket)]);
    }
  }

  lemma ArchiveKeeps(b: State, id: int)
    requires Sound(b)
    ensures Sound(ArchivedOne(b, id).after)
  {
    if ArchivedOne(b, id).after != b {
      var c := b.cards[id];
      ReplayOne(Seen(c), Archived);
      RewriteKeeps(b, id, c.(archived := true), [Archived]);
    }
  }

  lemma MovedLogsTell(b: State, id: int, to: Option<int>)
    requires Sound(b) && id in b.cards && IsForest(Hung(b.cards, id, to))
    ensures Told(Hung(b.cards, id, to), MovedLogs(b.logs, id, b.cards[id].parent, to))
  {
    var c, cards := b.cards[id], Hung(b.cards, id, to);
    ReplayOne(Seen(c), ParentChanged(c.parent, to));
    ToldOne(b.cards, b.logs, id, c.(parent := to), [ParentChanged(c.parent, to)]);
    var own := Logged(b.logs, id, [ParentChanged(c.parent, to)]);
    var gained := if to.Some? then Logged(own, to.value, [ChildAdded(id)]) else own;
    if to.Some? {
      assert cards[id].parent == to;
      ToldIdle(cards, own, to.value, ChildAdded(id));
    }
    if c.parent.Some? {
      ToldIdle(cards, gained, c.parent.value, ChildRemoved(id));
    }
  }

  lemma SetParentKeeps(b: State, id: int, to: Option<int>)
    requires Sound(b)
    ensures Sound(Rehung(b, id, to).after)
  {
    if Rehung(b, id, to).after != b {
      if to.Some? {
        MoveIsExact(b.cards, id, to.value);
      } else {
        RootKeepsForest(b.cards, id);
      }
      MovedLogsTell(b, id, to);
    }
  }

  lemma DeleteKeeps(b: State, id: int)
    requires Sound(b)
    ensures Sound(Deleted(b, id).after)
  {
    SpliceKeepsForest(b.cards, id);
    var q := if id in b.cards then b.cards[id].parent else None;
    var after := Deleted(b, id).after;
    forall d | d in after.cards
      ensures Fold(after.logs[d]) == Some(Seen(after.cards[d]))
    {
      if IsKid(b.cards, false, d, id) {
        ReplayOne(Seen(b.cards[d]), ParentChanged(Some(id), q));
        FoldMore(b.logs[d], [ParentChanged(Some(id), q)]);
      }
    }
  }

  /** Every operation, whatever it answers, keeps the board sound. */
  lemma StepKeeps(tidy: string -> string, b: State, op: Op, now: real)
    requires Sound(b)
    ensures Sound(Did(tidy, b, op, now).after)
  {
    match op
    case Add(n) => AddKeeps(tidy, b, n, now);
    case Update(id, f) => UpdateKeeps(tidy, b, id, f, now);
    case Close(id) => CloseKeeps(b, id, now);
    case Reopen(id, bucket) => ReopenKeeps(b, id, bucket);
    case Archive(id) => ArchiveKeeps(b, id);
    case SetParent(id, to) => SetParentKeeps(b, id, to);
    case Delete(id) => DeleteKeeps(b, id);
  }

  /* ---- what one operation undoes ---- */

  /** Closing then reopening where it was gives the card back. */
  lemma CloseThenReopen(b: State, id: int, now: real)
    requires Sound(b) && id in b.cards && !b.cards[id].archived
    requires b.cards[id].bucket in BUCKETS && b.cards[id].bucket != "Done"
    ensures ReopenedOne(ClosedOne(b, id, now).after, id, b.cards[id].bucket).after.cards == b.cards
  {
    var c := b.cards[id];
    assert c.closedAt == None;
    assert c == c.(bucket := c.bucket, closedAt := None, archived := false);
  }

  /** Restoring an archived card gives it back. */
  lemma ArchiveThenRestore(tidy: string -> string, b: State, id: int, now: real)
    requires id in b.cards && !b.cards[id].archived
    ensures Updated(tidy, ArchivedOne(b, id).after, id, Fields(None, Some(false), None, None, None, None), now).after.cards
            == b.cards
  {
    var c := b.cards[id];
    assert c == c.(archived := false);
  }

  /** A move that is accepted can be taken back. */
  lemma MoveThenBack(b: State, id: int, to: Option<int>)
    requires Sound(b) && id in b.cards && Rehung(b, id, to).reply == Got(id)
    ensures Rehung(Rehung(b, id, to).after, id, b.cards[id].parent).after.cards == b.cards
    ensures Rehung(Rehung(b, id, to).after, id, b.cards[id].parent).reply == Got(id)
  {
    SetParentKeeps(b, id, to);
    assert Rehung(b, id, to).after.cards == Hung(b.cards, id, to);
    BackIsAllowed(b.cards, id, to);
  }

  lemma BackIsAllowed(cards: Cards, id: int, to: Option<int>)
    requires IsForest(cards) && id in cards && IsForest(Hung(cards, id, to))
    ensures Hung(Hung(cards, id, to), id, cards[id].parent) == cards
    ensures cards[id].parent.Some? ==>
              Verdict(Hung(cards, id, to), Some(id), cards[id].parent.value, cards[id].project) == None
  {
    assert Hung(Hung(cards, id, to), id, cards[id].parent) == cards;
    if cards[id].parent.Some? {
      MoveIsExact(Hung(cards, id, to), id, cards[id].parent.value);
    }
  }

  /** Deleting a card just added gives the cards back. */
  lemma AddThenDelete(tidy: string -> string, b: State, n: NewCard, now: real)
    requires Sound(b) && Added(tidy, b, n, now).reply.Got?
    ensures Deleted(Added(tidy, b, n, now).after, Added(tidy, b, n, now).reply.id).after.cards == b.cards
  {
    var id := b.nextId;
    forall d | d in b.cards
      ensures d != id && b.cards[d].parent != Some(id)
    {
      if b.cards[d].parent.Some? {
        assert b.cards[d].parent.value in b.cards;
      }
    }
  }
}
