/**
 The operations of the board: the cards, the journal of each card, and what every operation does to
 both. A journal can be replayed into the card's column, mother, archived flag and decisions.
 */
module Board {
  import opened Util
  import opened Forest
  import opened Hanging
  import Rollup

  const BUCKETS := ["Backlog", "Doing", "Review", "Done"]
  const KINDS := ["task", "project", "reframe"]
  const DECISIONS_MAX := 50

  datatype Event =
    | Created(bucket: string, parent: Option<int>)
    | DecisionRecorded(text: string)
    | DecisionWithdrawn(text: string)
    | Moved(from: string, to: string)
    | Archived
    | Restored
    | ParentChanged(old_: Option<int>, new_: Option<int>)
    | Closed(from: string)
    | Reopened(from: string, to: string)
    | ChildAdded(child: int)
    | ChildRemoved(child: int)
    | Edited(field: string)
    | Progress(was: Option<Rollup.State>, state: Rollup.State, done: nat, total: nat)

  type Logs = map<int, seq<Event>>

  datatype State = State(cards: Cards, logs: Logs, nextId: int)

  const EMPTY := State(map[], map[], 1)

  /* ---- what a journal tells ---- */

  datatype Shown = Shown(bucket: string, parent: Option<int>, archived: bool, decisions: set<string>)

  function Replay(s: Shown, e: Event): Shown {
    match e
    case Moved(_, to) => s.(bucket := to)
    case Archived => s.(archived := true)
    case Restored => s.(archived := false)
    case DecisionRecorded(d) => s.(decisions := s.decisions + {d})
    case DecisionWithdrawn(d) => s.(decisions := s.decisions - {d})
    case ParentChanged(_, to) => s.(parent := to)
    case Closed(_) => s.(bucket := "Done")
    case Reopened(_, to) => s.(bucket := to, archived := false)
    case _ => s
  }

  /** The card a journal describes, oldest event first; nothing before its creation. */
  function Fold(log: seq<Event>): Option<Shown> {
    if log == [] then
      None
    else
      var e := log[|log| - 1];
      if e.Created? then
        Some(Shown(e.bucket, e.parent, false, {}))
      else
        match Fold(log[..|log| - 1])
        case None => None
        case Some(s) => Some(Replay(s, e))
  }

  function Seen(card: Card): Shown {
    Shown(card.bucket, card.parent, card.archived, set d | d in card.decisions)
  }

  /** The journals once `es` has been written on the card `id`. */
  function Logged(logs: Logs, id: int, es: seq<Event>): Logs {
    logs[id := (if id in logs then logs[id] else []) + es]
  }

  lemma LoggedTwice(logs: Logs, id: int, es: seq<Event>, fs: seq<Event>)
    ensures Logged(Logged(logs, id, es), id, fs) == Logged(logs, id, es + fs)
  {
    var log := if id in logs then logs[id] else [];
    assert log + es + fs == log + (es + fs);
  }

  lemma LoggedNothing(logs: Logs, id: int)
    requires id in logs
    ensures Logged(logs, id, []) == logs
  {
    assert logs[id] + [] == logs[id];
  }

  /* ---- decisions ---- */

  function CleanAll(v: seq<string>, tidy: string -> string): seq<string> {
    if v == [] then
      []
    else
      var out := CleanAll(v[..|v| - 1], tidy);
      var t := tidy(v[|v| - 1]);
      if t != "" && t !in out then out + [t] else out
  }

  function Clean(v: seq<string>, tidy: string -> string): seq<string> {
    var out := CleanAll(v, tidy);
    if |out| <= DECISIONS_MAX then out else out[..DECISIONS_MAX]
  }

  /** `clean_decisions`, with `tidy` for the clean-up of one line. */
  method CleanDecisions(v: seq<string>, tidy: string -> string) returns (out: seq<string>)
    ensures out == Clean(v, tidy)
  {
    out := [];
    for i := 0 to |v|
      invariant out == CleanAll(v[..i], tidy)
    {
      assert v[..i + 1][..i] == v[..i];
      var t := tidy(v[i]);
      if t != "" && t !in out {
        out := out + [t];
      }
    }
    assert v[..|v|] == v;
    if |out| > DECISIONS_MAX {
      out := out[..DECISIONS_MAX];
    }
  }

  function If(when: bool, e: Event): seq<Event> {
    if when then [e] else []
  }

  function Recordings(now: seq<string>, was: seq<string>): seq<Event> {
    if now == [] then
      []
    else
      var d := now[|now| - 1];
      Recordings(now[..|now| - 1], was) + If(d !in was, DecisionRecorded(d))
  }

  function Withdrawals(was: seq<string>, now: seq<string>): seq<Event> {
    if was == [] then
      []
    else
      var d := was[|was| - 1];
      Withdrawals(was[..|was| - 1], now) + If(d !in now, DecisionWithdrawn(d))
  }

  /* ---- the operations ---- */

  datatype NewCard = NewCard(title: string, bucket: string, project: string, parent: Option<int>, kind: string,
                             decisions: seq<string>)

  datatype Fields = Fields(bucket: Option<string>, archived: Option<bool>, decisions: Option<seq<string>>,
                           kind: Option<string>, title: Option<string>, session: Option<string>)

  datatype Error = BadKind | BadBucket | BadParent(why: Refusal)

  datatype Reply = Got(id: int) | Nothing | Refused(error: Error)

  /** The board afterwards, the answer, and the cards whose listeners are told, in order. */
  datatype Outcome = Outcome(after: State, reply: Reply, touched: seq<int>)

  function Touched(card: Option<int>, mother: Option<int>): seq<int> {
    (if card.Some? then [card.value] else []) + (if mother.Some? then [mother.value] else [])
  }

  function BornIn(bucket: string): string {
    if bucket in BUCKETS then bucket else "Backlog"
  }

  function Born(n: NewCard, tidy: string -> string, now: real): Card {
    var bucket := BornIn(n.bucket);
    Card(Project(n.project), n.parent, bucket, if bucket == "Done" then Some(now) else None, false,
                Clean(n.decisions, tidy), "", n.kind, n.title)
  }

  function Inserted(tidy: string -> string, b: State, n: NewCard, now: real): State {
    var id, card := b.nextId, Born(n, tidy, now);
    var own := Logged(b.logs, id, [Created(card.bucket, card.parent)] + Recordings(card.decisions, []));
    State(b.cards[id := card], if n.parent.Some? then Logged(own, n.parent.value, [ChildAdded(id)]) else own, id + 1)
  }

  ghost function Added(tidy: string -> string, b: State, n: NewCard, now: real): Outcome {
    if n.kind !in KINDS then
      Outcome(b, Refused(BadKind), [])
    else if n.parent.Some? && Verdict(b.cards, None, n.parent.value, n.project).Some? then
      Outcome(b, Refused(BadParent(Verdict(b.cards, None, n.parent.value, n.project).value)), [])
    else
      Outcome(Inserted(tidy, b, n, now), Got(b.nextId), Touched(Some(b.nextId), n.parent))
  }

  function Or<T>(o: Option<T>, t: T): T {
    if o.Some? then o.value else t
  }

  /** The card after an update: what closes it follows its column. */
  function Edit(c: Card, f: Fields, tidy: string -> string, now: real): Card {
    var bucket := Or(f.bucket, c.bucket);
    c.(bucket := bucket,
       closedAt := if bucket == c.bucket then c.closedAt
                   else if bucket != "Done" then None
                   else if c.closedAt.Some? then c.closedAt
                   else Some(now),
       archived := Or(f.archived, c.archived),
       decisions := if f.decisions.Some? then Clean(f.decisions.value, tidy) else c.decisions,
       kind := Or(f.kind, c.kind),
       title := Or(f.title, c.title),
       session := Or(f.session, c.session))
  }

  function EditEvents(c: Card, d: Card): seq<Event> {
    If(d.bucket != c.bucket, Moved(c.bucket, d.bucket))
    + If(d.archived != c.archived, if d.archived then Archived else Restored)
    + (Recordings(d.decisions, c.decisions) + Withdrawals(c.decisions, d.decisions))
    + If(d.kind != c.kind, Edited("kind"))
    + If(d.title != c.title, Edited("title"))
  }

  function Updated(tidy: string -> string, b: State, id: int, f: Fields, now: real): Outcome {
    if f == Fields(None, None, None, None, None, None) then
      Outcome(b, if id in b.cards then Got(id) else Nothing, [])
    else if id !in b.cards then
      Outcome(b, Nothing, [])
    else if f.kind.Some? && f.kind.value !in KINDS then
      Outcome(b, Refused(BadKind), [])
    else
      var c := b.cards[id];
      var d := Edit(c, f, tidy, now);
      Outcome(b.(cards := b.cards[id := d], logs := Logged(b.logs, id, EditEvents(c, d))), Got(id),
              Touched(Some(id), c.parent))
  }

  function ClosedOne(b: State, id: int, now: real): Outcome {
    if id !in b.cards then
      Outcome(b, Nothing, [])
    else if b.cards[id].bucket == "Done" && b.cards[id].closedAt.Some? then
      Outcome(b, Got(id), [])
    else
      var c := b.cards[id];
      Outcome(b.(cards := b.cards[id := c.(bucket := "Done", closedAt := Some(now))],
                 logs := Logged(b.logs, id, [Closed(c.bucket)])), Got(id), Touched(Some(id), c.parent))
  }

  function ReopenedOne(b: State, id: int, bucket: string): Outcome {
    if bucket !in BUCKETS || bucket == "Done" then
      Outcome(b, Refused(BadBucket), [])
    else if id !in b.cards then
      Outcome(b, Nothing, [])
    else if b.cards[id].bucket != "Done" && !b.cards[id].archived && b.cards[id].closedAt.None? then
      Outcome(b, Got(id), [])
    else
      var c := b.cards[id];
      Outcome(b.(cards := b.cards[id := c.(bucket := bucket, closedAt := None, archived := false)],
                 logs := Logged(b.logs, id, [Reopened(c.bucket, bucket)])), Got(id), Touched(Some(id), c.parent))
  }

  function ArchivedOne(b: State, id: int): Outcome {
    if id !in b.cards then
      Outcome(b, Nothing, [])
    else if b.cards[id].archived then
      Outcome(b, Got(id), [])
    else
      var c := b.cards[id];
      Outcome(b.(cards := b.cards[id := c.(archived := true)], logs := Logged(b.logs, id, [Archived])), Got(id),
              Touched(Some(id), c.parent))
  }

  function MovedLogs(logs: Logs, id: int, from: Option<int>, to: Option<int>): Logs {
    var own := Logged(logs, id, [ParentChanged(from, to)]);
    var gained := if to.Some? then Logged(own, to.value, [ChildAdded(id)]) else own;
    if from.Some? then Logged(gained, from.value, [ChildRemoved(id)]) else gained
  }

  ghost function Rehung(b: State, id: int, to: Option<int>): Outcome {
    if id !in b.cards then
      Outcome(b, Nothing, [])
    else
      var c := b.cards[id];
      if to.Some? && Verdict(b.cards, Some(id), to.value, c.project).Some? then
        Outcome(b, Refused(BadParent(Verdict(b.cards, Some(id), to.value, c.project).value)), [])
      else if c.parent == to then
        Outcome(b, Got(id), [])
      else
        Outcome(b.(cards := Hung(b.cards, id, to), logs := MovedLogs(b.logs, id, c.parent, to)), Got(id),
                Touched(Some(id), c.parent))
  }

  function Deleted(b: State, id: int): Outcome {
    var q := if id in b.cards then b.cards[id].parent else None;
    var logs := map d | d in b.logs && d != id ::
      if IsKid(b.cards, false, d, id) then b.logs[d] + [ParentChanged(Some(id), q)] else b.logs[d];
    Outcome(b.(cards := Spliced(b.cards, id), logs := logs), Nothing, Touched(None, q))
  }

  datatype Op =
    | Add(card: NewCard)
    | Update(id: int, fields: Fields)
    | Close(id: int)
    | Reopen(id: int, bucket: string)
    | Archive(id: int)
    | SetParent(id: int, to: Option<int>)
    | Delete(id: int)

  ghost function Did(tidy: string -> string, b: State, op: Op, now: real): Outcome {
    match op
    case Add(n) => Added(tidy, b, n, now)
    case Update(id, f) => Updated(tidy, b, id, f, now)
    case Close(id) => ClosedOne(b, id, now)
    case Reopen(id, bucket) => ReopenedOne(b, id, bucket)
    case Archive(id) => ArchivedOne(b, id)
    case SetParent(id, to) => Rehung(b, id, to)
    case Delete(id) => Deleted(b, id)
  }

  /* ---- the invariant ---- */

  ghost predicate Told(cards: Cards, logs: Logs) {
    && logs.Keys == cards.Keys
    && forall c :: c in cards ==> Fold(logs[c]) == Some(Seen(cards[c]))
  }

  ghost predicate ClosedWhenDone(cards: Cards) {
    forall c :: c in cards ==> (cards[c].bucket == "Done" <==> cards[c].closedAt.Some?)
  }

  ghost predicate Numbered(cards: Cards, nextId: int) {
    nextId >= 1 && forall c :: c in cards ==> 1 <= c < nextId
  }

  ghost predicate Sound(b: State) {
    IsForest(b.cards) && Told(b.cards, b.logs) && ClosedWhenDone(b.cards) && Numbered(b.cards, b.nextId)
  }

  /* ---- deleting, one child at a time ---- */

  ghost predicate PartSpliced(was: Cards, now: Cards, kids: seq<int>, q: Option<int>) {
    && now.Keys == was.Keys
    && forall d :: d in was ==> now[d] == if d in kids then was[d].(parent := q) else was[d]
  }

  ghost predicate PartLogged(was: Logs, now: Logs, kids: seq<int>, e: Event) {
    && now.Keys == was.Keys
    && forall d :: d in was ==> now[d] == if d in kids then was[d] + [e] else was[d]
  }

  lemma SpliceOne(was: Cards, now: Cards, kids: seq<int>, k: int, q: Option<int>)
    requires PartSpliced(was, now, kids, q) && k in was && k !in kids
    ensures PartSpliced(was, now[k := now[k].(parent := q)], kids + [k], q)
  {
  }

  lemma LogOne(was: Logs, now: Logs, kids: seq<int>, k: int, e: Event)
    requires PartLogged(was, now, kids, e) && k in was && k !in kids
    ensures PartLogged(was, Logged(now, k, [e]), kids + [k], e)
  {
  }

  lemma AllSpliced(was: State, now: State, kids: seq<int>, id: int, q: Option<int>)
    requires Sound(was) && now.nextId == was.nextId && Listed(kids, Kids(was.cards, false, id))
    requires q == if id in was.cards then was.cards[id].parent else None
    requires PartSpliced(was.cards, now.cards, kids, q)
    requires PartLogged(was.logs, now.logs, kids, ParentChanged(Some(id), q))
    ensures State(now.cards - {id}, now.logs - {id}, now.nextId) == Deleted(was, id).after
  {
    assert forall d :: d in kids <==> IsKid(was.cards, false, d, id);
    assert now.cards - {id} == Spliced(was.cards, id);
    assert now.logs - {id} == Deleted(was, id).after.logs;
  }

  /** The board object: each method changes the rows step by step. */
  class Board {
    const tidy: string -> string
    var cards: Cards
    var logs: Logs
    var nextId: int

    ghost function Contents(): State
      reads this
    {
      State(cards, logs, nextId)
    }

    constructor (tidy: string -> string)
      ensures this.tidy == tidy && Contents() == EMPTY
    {
      this.tidy := tidy;
      cards, logs, nextId := map[], map[], 1;
    }

    method Log(id: int, e: Event)
      modifies `logs
      ensures logs == Logged(old(logs), id, [e])
    {
      logs := logs[id := (if id in logs then logs[id] else []) + [e]];
    }

    method LogIf(id: int, when: bool, e: Event)
      requires id in logs
      modifies `logs
      ensures logs == Logged(old(logs), id, If(when, e))
    {
      LoggedNothing(logs, id);
      if when {
        Log(id, e);
      }
    }

    method LogRecordings(id: int, was: seq<string>, now: seq<string>)
      requires id in logs
      modifies `logs
      ensures logs == Logged(old(logs), id, Recordings(now, was))
    {
      LoggedNothing(logs, id);
      for i := 0 to |now|
        invariant logs == Logged(old(logs), id, Recordings(now[..i], was))
      {
        assert now[..i + 1][..i] == now[..i];
        LoggedTwice(old(logs), id, Recordings(now[..i], was), If(now[i] !in was, DecisionRecorded(now[i])));
        LogIf(id, now[i] !in was, DecisionRecorded(now[i]));
      }
      assert now[..|now|] == now;
    }

    method LogWithdrawals(id: int, was: seq<string>, now: seq<string>)
      requires id in logs
      modifies `logs
      ensures logs == Logged(old(logs), id, Withdrawals(was, now))
    {
      LoggedNothing(logs, id);
      for i := 0 to |was|
        invariant logs == Logged(old(logs), id, Withdrawals(was[..i], now))
      {
        assert was[..i + 1][..i] == was[..i];
        LoggedTwice(old(logs), id, Withdrawals(was[..i], now), If(was[i] !in now, DecisionWithdrawn(was[i])));
        LogIf(id, was[i] !in now, DecisionWithdrawn(was[i]));
      }
      assert was[..|was|] == was;
    }

    /** `add_card`. */
    method Add(n: NewCard, now: real) returns (reply: Reply, touched: seq<int>)
      requires Sound(Contents())
      modifies this
      ensures Outcome(Contents(), reply, touched) == Added(tidy, old(Contents()), n, now)
    {
      if n.kind !in KINDS {
        return Refused(BadKind), [];
      }
      if n.parent.Some? {
        var why := CheckParent(cards, None, n.parent.value, n.project);
        if why.Some? {
          return Refused(BadParent(why.value)), [];
        }
      }
      var id := Insert(n, now);
      return Got(id), Touched(Some(id), n.parent);
    }

    /** The rows that a new card adds: itself, its journal, a line in its mother's. */
    method Insert(n: NewCard, now: real) returns (id: int)
      modifies this
      ensures id == old(nextId) && Contents() == Inserted(tidy, old(Contents()), n, now)
    {
      var bucket := if n.bucket in BUCKETS then n.bucket else "Backlog";
      var decisions := CleanDecisions(n.decisions, tidy);
      id := nextId;
      var closedAt := if bucket == "Done" then Some(now) else None;
      cards := cards[id := Card(Project(n.project), n.parent, bucket, closedAt, false, decisions, "", n.kind, n.title)];
      nextId := nextId + 1;
      Log(id, Created(bucket, n.parent));
      LogRecordings(id, [], decisions);
      LoggedTwice(old(logs), id, [Created(bucket, n.parent)], Recordings(decisions, []));
      if n.parent.Some? {
        Log(n.parent.value, ChildAdded(id));
      }
    }

    /** `update_card`. */
    method Update(id: int, f: Fields, now: real) returns (reply: Reply, touched: seq<int>)
      requires Sound(Contents())
      modifies this
      ensures Outcome(Contents(), reply, touched) == Updated(tidy, old(Contents()), id, f, now)
    {
      if f == Fields(None, None, None, None, None, None) {
        return if id in cards then Got(id) else Nothing, [];
      }
      if id !in cards {
        return Nothing, [];
      }
      if f.kind.Some? && f.kind.value !in KINDS {
        return Refused(BadKind), [];
      }
      var c := cards[id];
      var d := c.(archived := Or(f.archived, c.archived), kind := Or(f.kind, c.kind), title := Or(f.title, c.title),
                  session := Or(f.session, c.session));
      if f.decisions.Some? {
        var clean := CleanDecisions(f.decisions.value, tidy);
        d := d.(decisions := clean);
      }
      if f.bucket.Some? && f.bucket.value != c.bucket {
        d := d.(bucket := f.bucket.value);
        if f.bucket.value == "Done" && c.closedAt.None? {
          d := d.(closedAt := Some(now));
        } else if f.bucket.value != "Done" {
          d := d.(closedAt := None);
        }
      }
      assert d == Edit(c, f, tidy, now);
      cards := cards[id := d];
      LogEdit(id, c, d);
      return Got(id), Touched(Some(id), c.parent);
    }

    method LogEdit(id: int, c: Card, d: Card)
      requires id in logs
      modifies `logs
      ensures logs == Logged(old(logs), id, EditEvents(c, d))
    {
      ghost var a, b := If(d.bucket != c.bucket, Moved(c.bucket, d.bucket)),
                        If(d.archived != c.archived, if d.archived then Archived else Restored);
      ghost var e := Recordings(d.decisions, c.decisions) + Withdrawals(c.decisions, d.decisions);
      ghost var f, g := If(d.kind != c.kind, Edited("kind")), If(d.title != c.title, Edited("title"));
      LogIf(id, d.bucket != c.bucket, Moved(c.bucket, d.bucket));
      LogIf(id, d.archived != c.archived, if d.archived then Archived else Restored);
      LoggedTwice(old(logs), id, a, b);
      label Flagged:
      LogRecordings(id, c.decisions, d.decisions);
      LogWithdrawals(id, c.decisions, d.decisions);
      LoggedTwice(old@Flagged(logs), id, Recordings(d.decisions, c.decisions), Withdrawals(c.decisions, d.decisions));
      LoggedTwice(old(logs), id, a + b, e);
      LogIf(id, d.kind != c.kind, Edited("kind"));
      LoggedTwice(old(logs), id, a + b + e, f);
      LogIf(id, d.title != c.title, Edited("title"));
      LoggedTwice(old(logs), id, a + b + e + f, g);
    }

    /** `close_card`. */
    method Close(id: int, now: real) returns (reply: Reply, touched: seq<int>)
      modifies this
      ensures Outcome(Contents(), reply, touched) == ClosedOne(old(Contents()), id, now)
    {
      if id !in cards {
        return Nothing, [];
      }
      var c := cards[id];
      if c.bucket == "Done" && c.closedAt.Some? {
        return Got(id), [];
      }
      cards := cards[id := c.(bucket := "Done", closedAt := Some(now))];
      Log(id, Closed(c.bucket));
      return Got(id), Touched(Some(id), c.parent);
    }

    /** `reopen_card`. */
    method Reopen(id: int, bucket: string) returns (reply: Reply, touched: seq<int>)
      modifies this
      ensures Outcome(Contents(), reply, touched) == ReopenedOne(old(Contents()), id, bucket)
    {
      if bucket !in BUCKETS || bucket == "Done" {
        return Refused(BadBucket), [];
      }
      if id !in cards {
        return Nothing, [];
      }
      var c := cards[id];
      if c.bucket != "Done" && !c.archived && c.closedAt.None? {
        return Got(id), [];
      }
      cards := cards[id := c.(bucket := bucket, closedAt := None, archived := false)];
      Log(id, Reopened(c.bucket, bucket));
      return Got(id), Touched(Some(id), c.parent);
    }

    /** `archive_card`. */
    method Archive(id: int) returns (reply: Reply, touched: seq<int>)
      modifies this
      ensures Outcome(Contents(), reply, touched) == ArchivedOne(old(Contents()), id)
    {
      if id !in cards {
        return Nothing, [];
      }
      var c := cards[id];
      if c.archived {
        return Got(id), [];
      }
      cards := cards[id := c.(archived := true)];
      Log(id, Event.Archived);
      return Got(id), Touched(Some(id), c.parent);
    }

    /** `set_parent`. */
    method SetParent(id: int, to: Option<int>) returns (reply: Reply, touched: seq<int>)
      requires Sound(Contents())
      modifies this
      ensures Outcome(Contents(), reply, touched) == Rehung(old(Contents()), id, to)
    {
      if id !in cards {
        return Nothing, [];
      }
      var c := cards[id];
      if to.Some? {
        var why := CheckParent(cards, Some(id), to.value, c.project);
        if why.Some? {
          return Refused(BadParent(why.value)), [];
        }
      }
      if c.parent == to {
        return Got(id), [];
      }
      cards := cards[id := c.(parent := to)];
      Log(id, ParentChanged(c.parent, to));
      if to.Some? {
        Log(to.value, ChildAdded(id));
      }
      if c.parent.Some? {
        Log(c.parent.value, ChildRemoved(id));
      }
      return Got(id), Touched(Some(id), c.parent);
    }

    /** `delete_card`. */
    method Delete(id: int) returns (reply: Reply, touched: seq<int>)
      requires Sound(Contents())
      modifies this
      ensures Outcome(Contents(), reply, touched) == Deleted(old(Contents()), id)
    {
      var q := if id in cards then cards[id].parent else None;
      var kids := InSomeOrder(Kids(cards, false, id));
      for i := 0 to |kids|
        invariant nextId == old(nextId)
        invariant PartSpliced(old(cards), cards, kids[..i], q)
        invariant PartLogged(old(logs), logs, kids[..i], ParentChanged(Some(id), q))
      {
        assert kids[..i + 1] == kids[..i] + [kids[i]];
        assert kids[i] in kids && kids[i] in Kids(old(cards), false, id);
        SpliceOne(old(cards), cards, kids[..i], kids[i], q);
        LogOne(old(logs), logs, kids[..i], kids[i], ParentChanged(Some(id), q));
        cards := cards[kids[i] := cards[kids[i]].(parent := q)];
        Log(kids[i], ParentChanged(Some(id), q));
      }
      assert kids[..|kids|] == kids;
      AllSpliced(old(Contents()), State(cards, logs, nextId), kids, id, q);
      cards := cards - {id};
      logs := logs - {id};
      return Nothing, Touched(None, q);
    }
  }
}
