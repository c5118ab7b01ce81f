/**
 When a card may hang under another. The check made with the bounded walks accepts a card exactly
 when the cards are still a forest afterwards; deleting a card splices its children upward.
 */
module Hanging {
  import opened Util
  import opened Forest
  import opened Walks

  datatype Refusal = NoSuchParent | OwnParent | CycleBelow | TooDeep

  /** `a` cards above the mother and `h` below the card are there to be stacked. */
  ghost predicate Stacks(cards: Cards, card: Option<int>, p: int, a: nat, h: nat) {
    && Up(cards, false, p, a).Some?
    && match card
       case None => h == 0
       case Some(c) => SomeoneAt(cards, c, h)
  }

  /** No chain through the new link would have more than `MAX_DEPTH` cards. */
  ghost predicate Fits(cards: Cards, card: Option<int>, p: int) {
    forall a: nat, h: nat :: Stacks(cards, card, p, a, h) ==> a + 1 + 1 + h <= MAX_DEPTH
  }

  ghost function Verdict(cards: Cards, card: Option<int>, p: int, project: string): Option<Refusal> {
    if p !in cards || Project(cards[p].project) != Project(project) then
      Some(NoSuchParent)
    else if card == Some(p) then
      Some(OwnParent)
    else if card.Some? && Under(cards, false, p, card.value) then
      Some(CycleBelow)
    else if !Fits(cards, card, p) then
      Some(TooDeep)
    else
      None
  }

  lemma AboveCounts(cards: Cards, p: int, a: nat)
    requires Shallow(cards) && p in cards
    ensures Up(cards, false, p, a).Some? <==> a <= |Above(cards, p, MAX_DEPTH)|
  {
    var n := |Above(cards, p, MAX_DEPTH)|;
    TopOfAbove(cards, p, n);
    if Up(cards, false, p, a).Some? && a > n {
      UpPrefix(cards, false, p, n + 1, a);
    }
    if a <= n {
      UpPrefix(cards, false, p, a, n);
    }
  }

  lemma FitsCounts(cards: Cards, card: Option<int>, p: int, h: nat)
    requires Shallow(cards) && p in cards
    requires match card case None => h == 0 case Some(c) => IsHeight(cards, c, h)
    ensures Fits(cards, card, p) <==> |Above(cards, p, MAX_DEPTH)| + 2 + h <= MAX_DEPTH
  {
    var n := |Above(cards, p, MAX_DEPTH)|;
    AboveCounts(cards, p, n);
    if card.Some? {
      assert SomeoneAt(cards, card.value, h);
    }
    assert Stacks(cards, card, p, n, h);
    if n + 2 + h <= MAX_DEPTH {
      forall a: nat, g: nat | Stacks(cards, card, p, a, g)
        ensures a + 1 + 1 + g <= MAX_DEPTH
      {
        AboveCounts(cards, p, a);
        if card.Some? {
          assert SomeoneAt(cards, card.value, g);
        }
      }
    }
  }

  /** `check_parent`. */
  method CheckParent(cards: Cards, card: Option<int>, p: int, project: string) returns (r: Option<Refusal>)
    ensures IsForest(cards) && (card.Some? ==> card.value in cards) ==> r == Verdict(cards, card, p, project)
  {
    if p !in cards || Project(cards[p].project) != Project(project) {
      return Some(NoSuchParent);
    }
    if card.Some? {
      if p == card.value {
        return Some(OwnParent);
      }
      var desc := Descendants(cards, card.value, false);
      if p in desc {
        return Some(CycleBelow);
      }
    }
    var up := Ancestors(cards, p);
    var depth := |up| + 2;
    var sub := 0;
    if card.Some? {
      sub := SubtreeHeight(cards, card.value);
    }
    if IsForest(cards) && (card.Some? ==> card.value in cards) {
      FitsCounts(cards, card, p, sub);
    }
    r := if depth + sub > MAX_DEPTH then Some(TooDeep) else None;
  }

  /* ---- a new link ---- */

  ghost predicate SameLinksBut(a: Cards, b: Cards, c: int) {
    && a.Keys == b.Keys
    && c in a
    && forall d :: d in a && d != c ==> a[d].parent == b[d].parent && a[d].project == b[d].project
  }

  ghost predicate BothReach(a: Cards, b: Cards, c: int, d: int, j: nat) {
    Up(a, false, d, j) == Some(c) && Up(b, false, d, j) == Some(c)
  }

  lemma {:induction false} SameUntil(a: Cards, b: Cards, c: int, d: int, n: nat)
    requires SameLinksBut(a, b, c)
    ensures Up(a, false, d, n) == Up(b, false, d, n) || exists j: nat :: j < n && BothReach(a, b, c, d, j)
    decreases n
  {
    if d == c && n > 0 {
      assert BothReach(a, b, c, d, 0);
    } else if n > 0 && d in a && a[d].parent.Some? {
      var p := a[d].parent.value;
      SameUntil(a, b, c, p, n - 1);
      if j: nat :| j < n - 1 && BothReach(a, b, c, p, j) {
        assert BothReach(a, b, c, d, j + 1);
      }
    }
  }

  /** A card that is not below `c`, nor `c`, has the same cards above it in both. */
  lemma SameAbove(a: Cards, b: Cards, c: int, p: int, n: nat)
    requires SameLinksBut(a, b, c) && p != c && !Under(a, false, p, c)
    ensures Up(a, false, p, n) == Up(b, false, p, n)
  {
    SameUntil(a, b, c, p, n);
    if j: nat :| j < n && BothReach(a, b, c, p, j) {
      assert j == 0;
    }
  }

  lemma FirstTime(a: Cards, b: Cards, c: int, d: int, n: nat) returns (j: nat)
    requires SameLinksBut(a, b, c) && Up(a, false, d, n) == Some(c)
    ensures j <= n && BothReach(a, b, c, d, j)
  {
    SameUntil(a, b, c, d, n);
    if Up(a, false, d, n) == Up(b, false, d, n) {
      j := n;
    } else {
      j :| j < n && BothReach(a, b, c, d, j);
    }
  }

  /** The cards after `c` has been hung under `p`. */
  function Hung(cards: Cards, c: int, p: Option<int>): Cards
    requires c in cards
  {
    cards[c := cards[c].(parent := p)]
  }

  lemma HungDeep(cards: Cards, c: int, p: int, d: int)
    requires IsForest(cards) && c in cards && p != c && !Under(cards, false, p, c) && p in cards
    requires d in cards && Up(Hung(cards, c, Some(p)), false, d, MAX_DEPTH).Some?
    ensures !Fits(cards, Some(c), p)
  {
    var b := Hung(cards, c, Some(p));
    SameUntil(cards, b, c, d, MAX_DEPTH);
    UpPrefixNone(cards, d);
    var h: nat :| h < MAX_DEPTH && BothReach(cards, b, c, d, h);
    var a: nat := MAX_DEPTH - h - 1;
    UpAdds(b, false, d, h, a + 1);
    assert Up(b, false, c, a + 1) == Up(b, false, p, a);
    SameAbove(cards, b, c, p, a);
    assert Stacks(cards, Some(c), p, a, h);
  }

  lemma UpPrefixNone(cards: Cards, d: int)
    requires Shallow(cards)
    ensures Up(cards, false, d, MAX_DEPTH) == None
  {
    if d in cards {
      assert Up(cards, false, d, MAX_DEPTH) == None;
    }
  }

  lemma HungNotDeep(cards: Cards, c: int, p: int, a: nat, h: nat)
    requires IsForest(cards) && c in cards && p != c && !Under(cards, false, p, c) && p in cards
    requires Shallow(Hung(cards, c, Some(p))) && Stacks(cards, Some(c), p, a, h)
    ensures a + 1 + 1 + h <= MAX_DEPTH
  {
    var b := Hung(cards, c, Some(p));
    var d :| Up(cards, false, d, h) == Some(c);
    var j := FirstTime(cards, b, c, d, h);
    if j < h {
      MetTwiceIsNoForest(cards, d, j, h);
    }
    SameAbove(cards, b, c, p, a);
    assert Up(b, false, c, a + 1) == Up(b, false, p, a);
    UpAdds(b, false, d, h, a + 1);
    UpIsShort(b, d, h + (a + 1));
  }

  lemma HungCycle(cards: Cards, c: int, p: int)
    requires c in cards && (p == c || Under(cards, false, p, c))
    ensures !Shallow(Hung(cards, c, Some(p)))
  {
    var b := Hung(cards, c, Some(p));
    var n: nat :| Up(cards, false, p, n) == Some(c) by {
      if p == c {
        assert Up(cards, false, p, 0) == Some(c);
      }
    }
    var j := FirstTime(cards, b, c, p, n);
    assert Up(b, false, c, j + 1) == Some(c);
    if Shallow(b) {
      NoCycle(b, c, j + 1);
    }
  }

  /** `check_parent` of a card that exists accepts exactly the mothers under which the forest stays a forest. */
  lemma MoveIsExact(cards: Cards, c: int, p: int)
    requires IsForest(cards) && c in cards
    ensures Verdict(cards, Some(c), p, cards[c].project) == None <==> IsForest(Hung(cards, c, Some(p)))
  {
    var b := Hung(cards, c, Some(p));
    if Verdict(cards, Some(c), p, cards[c].project) == None {
      forall d | d in b
        ensures Up(b, false, d, MAX_DEPTH) == None
      {
        if Up(b, false, d, MAX_DEPTH).Some? {
          HungDeep(cards, c, p, d);
        }
      }
    }
    if IsForest(b) {
      assert b[c].parent == Some(p);
      if p == c || Under(cards, false, p, c) {
        HungCycle(cards, c, p);
      } else {
        forall a: nat, h: nat | Stacks(cards, Some(c), p, a, h)
          ensures a + 1 + 1 + h <= MAX_DEPTH
        {
          HungNotDeep(cards, c, p, a, h);
        }
      }
    }
  }

  /** A card made a root. */
  lemma RootKeepsForest(cards: Cards, c: int)
    requires IsForest(cards) && c in cards
    ensures IsForest(Hung(cards, c, None))
  {
    var b := Hung(cards, c, None);
    forall d | d in b
      ensures Up(b, false, d, MAX_DEPTH) == None
    {
      SameUntil(cards, b, c, d, MAX_DEPTH);
      UpPrefixNone(cards, d);
      if j: nat :| j < MAX_DEPTH && BothReach(cards, b, c, d, j) {
        UpAdds(b, false, d, j, MAX_DEPTH - j);
        assert Up(b, false, c, MAX_DEPTH - j) == None;
      }
    }
  }

  /* ---- a new card ---- */

  lemma {:induction false} NewIsAside(cards: Cards, id: int, card: Card, d: int, n: nat)
    requires Linked(cards) && id !in cards && d != id
    ensures Up(cards[id := card], false, d, n) == Up(cards, false, d, n)
    decreases n
  {
    if n > 0 && d in cards && cards[d].parent.Some? {
      assert cards[d].parent.value in cards;
      NewIsAside(cards, id, card, cards[d].parent.value, n - 1);
    }
  }

  /** Which refusal it is: for want of such a mother in the project, itself, a card below itself, or else a chain too long. */
  lemma RefusalExactly(cards: Cards, c: int, p: int)
    requires IsForest(cards) && c in cards
    ensures var v := Verdict(cards, Some(c), p, cards[c].project);
      var known := p in cards && Project(cards[p].project) == Project(cards[c].project);
      (v == Some(NoSuchParent) <==> !known) &&
      (v == Some(OwnParent) <==> known && p == c) &&
      (v == Some(CycleBelow) <==> known && p != c && p in Below(cards, false, c)) &&
      (v == Some(TooDeep) <==> known && p != c && p !in Below(cards, false, c) && !IsForest(Hung(cards, c, Some(p))))
  {
    MoveIsExact(cards, c, p);
  }

  /** `check_parent` of a card not yet there accepts exactly the mothers it can be born under. */
  lemma BirthIsExact(cards: Cards, id: int, card: Card)
    requires IsForest(cards) && id !in cards && card.parent.Some? && card.parent != Some(id)
    ensures Verdict(cards, None, card.parent.value, card.project) == None <==> IsForest(cards[id := card])
  {
    var b, p := cards[id := card], card.parent.value;
    if p in cards {
      forall n: nat
        ensures Up(b, false, id, n + 1) == Up(cards, false, p, n)
      {
        NewIsAside(cards, id, card, p, n);
      }
    }
    if Verdict(cards, None, p, card.project) == None {
      forall d | d in b
        ensures Up(b, false, d, MAX_DEPTH) == None
      {
        if d == id {
          assert Up(b, false, id, MAX_DEPTH - 1 + 1) == Up(cards, false, p, MAX_DEPTH - 1);
          assert !Stacks(cards, None, p, MAX_DEPTH - 1, 0);
        } else {
          NewIsAside(cards, id, card, d, MAX_DEPTH);
        }
      }
    }
    if IsForest(b) {
      assert b[id].parent == Some(p);
      forall a: nat, h: nat | Stacks(cards, None, p, a, h)
        ensures a + 1 + 1 + h <= MAX_DEPTH
      {
        assert Up(b, false, id, a + 1).Some?;
        UpIsShort(b, id, a + 1);
      }
    }
  }

  lemma RootBirthKeepsForest(cards: Cards, id: int, card: Card)
    requires IsForest(cards) && id !in cards && card.parent == None
    ensures IsForest(cards[id := card])
  {
    forall d | d in cards
      ensures Up(cards[id := card], false, d, MAX_DEPTH) == None
    {
      NewIsAside(cards, id, card, d, MAX_DEPTH);
    }
  }

  /* ---- a deleted card ---- */

  /** The cards after `c` has gone, its children hung under its own mother. */
  function Spliced(cards: Cards, c: int): Cards {
    var q := if c in cards then cards[c].parent else None;
    map d | d in cards && d != c :: if cards[d].parent == Some(c) then cards[d].(parent := q) else cards[d]
  }

  lemma {:induction false} SplicedIsNoDeeper(cards: Cards, c: int, d: int, n: nat)
    requires c in cards && cards[c].parent != Some(c)
    requires Up(Spliced(cards, c), false, d, n).Some?
    ensures Up(cards, false, d, n).Some?
    decreases n
  {
    var b := Spliced(cards, c);
    if n > 0 {
      var p := b[d].parent.value;
      SplicedIsNoDeeper(cards, c, p, n - 1);
      if cards[d].parent == Some(c) {
        assert Up(cards, false, c, n) == Up(cards, false, p, n - 1);
        UpPrefix(cards, false, c, n - 1, n);
      }
    }
  }

  lemma SpliceKeepsForest(cards: Cards, c: int)
    requires IsForest(cards)
    ensures IsForest(Spliced(cards, c))
  {
    var b := Spliced(cards, c);
    if c !in cards {
      assert b == cards;
    } else {
      OwnMother(cards, c);
      forall d | d in b
        ensures Up(b, false, d, MAX_DEPTH) == None
      {
        if Up(b, false, d, MAX_DEPTH).Some? {
          SplicedIsNoDeeper(cards, c, d, MAX_DEPTH);
        }
      }
    }
  }

  lemma OwnMother(cards: Cards, c: int)
    requires Shallow(cards) && c in cards
    ensures cards[c].parent != Some(c)
  {
    if cards[c].parent == Some(c) {
      assert Up(cards, false, c, 0) == Some(c);
      NoCycle(cards, c, 1);
    }
  }

  lemma {:induction false} SplicedUp(cards: Cards, c: int, d: int, n: nat, x: int) returns (m: nat)
    requires c in cards && Up(Spliced(cards, c), false, d, n) == Some(x)
    ensures m >= n && Up(cards, false, d, m) == Some(x)
    decreases n
  {
    m := n;
    if n > 0 {
      var p := Spliced(cards, c)[d].parent.value;
      m := SplicedUp(cards, c, p, n - 1, x);
      if cards[d].parent == Some(c) {
        assert Up(cards, false, c, m + 1) == Some(x);
        m := m + 1;
      }
      m := m + 1;
    }
  }

  lemma {:induction false} UpSpliced(cards: Cards, c: int, d: int, n: nat, x: int) returns (m: nat)
    requires c in cards && cards[c].parent != Some(c) && d != c && x != c && Up(cards, false, d, n) == Some(x)
    ensures (n >= 1 ==> m >= 1) && Up(Spliced(cards, c), false, d, m) == Some(x)
    decreases n
  {
    m := 0;
    if n > 0 {
      var p := cards[d].parent.value;
      if p == c {
        assert Up(cards, false, c, n - 1) == Some(x);
        m := UpSpliced(cards, c, cards[c].parent.value, n - 2, x);
      } else {
        m := UpSpliced(cards, c, p, n - 1, x);
      }
      m := m + 1;
    }
  }

  /** Deleting a card leaves every other card below the same other cards. */
  lemma SpliceKeepsOrder(cards: Cards, c: int, d: int, x: int)
    requires IsForest(cards) && c in cards && d != c && x != c
    ensures Under(Spliced(cards, c), false, d, x) <==> Under(cards, false, d, x)
  {
    OwnMother(cards, c);
    if Under(Spliced(cards, c), false, d, x) {
      var n: nat :| n >= 1 && Up(Spliced(cards, c), false, d, n) == Some(x);
      var m := SplicedUp(cards, c, d, n, x);
    }
    if Under(cards, false, d, x) {
      var n: nat :| n >= 1 && Up(cards, false, d, n) == Some(x);
      var m := UpSpliced(cards, c, d, n, x);
    }
  }
}
