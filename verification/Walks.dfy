/**
 The bounded walks over the board. Each stops on any table of cards, cycles included; on a forest
 each finds exactly what it looks for, and its guards never fire.
 */
module Walks {
  import opened Util
  import opened Forest

  function Reversed(s: seq<int>): (r: seq<int>)
    ensures |r| == |s| && forall i :: 0 <= i < |s| ==> r[i] == s[|s| - 1 - i]
  {
    if s == [] then [] else Reversed(s[1..]) + [s[0]]
  }

  lemma ReversedTwice(s: seq<int>)
    ensures Reversed(Reversed(s)) == s
  {
  }

  method Children(cards: Cards, card: int, live: bool) returns (out: seq<int>)
    ensures Listed(out, Kids(cards, live, card))
  {
    out := InSomeOrder(Kids(cards, live, card));
  }

  /* ---- upward ---- */

  lemma MetTwiceIsNoForest(cards: Cards, d: int, j: nat, n: nat)
    requires j < n && Up(cards, false, d, n).Some? && Up(cards, false, d, j) == Up(cards, false, d, n)
    ensures !Shallow(cards)
  {
    if Shallow(cards) {
      UpAdds(cards, false, d, j, n - j);
      NoCycle(cards, Up(cards, false, d, n).value, n - j);
    }
  }

  /** The walk has reached `c`, and `up` is what it found on the way. */
  ghost predicate Climbed(cards: Cards, card: int, c: int, up: seq<int>, all: seq<int>) {
    && |up| <= MAX_DEPTH
    && c in cards
    && Up(cards, false, card, |up|) == Some(c)
    && up + Above(cards, c, MAX_DEPTH - |up|) == all
  }

  lemma ClimbIsNew(cards: Cards, card: int, c: int, up: seq<int>, pid: int, all: seq<int>)
    requires Shallow(cards) && Climbed(cards, card, c, up, all) && all == Above(cards, card, MAX_DEPTH)
    requires Up(cards, false, card, |up| + 1) == Some(pid)
    ensures pid != card && pid !in up
  {
    NoCycle(cards, card, |up| + 1);
    if pid in up {
      AboveIsUp(cards, card, MAX_DEPTH);
      var i :| 0 <= i < |up| && up[i] == pid;
      assert all[i] == pid;
      MetTwiceIsNoForest(cards, card, i + 1, |up| + 1);
    }
  }

  lemma MoveOver(cards: Cards, c: int, pid: int, up: seq<int>, k: nat)
    requires k > 0 && c in cards && cards[c].parent == Some(pid) && Up(cards, false, c, 1) == Some(pid)
    ensures up + Above(cards, c, k) == (up + [pid]) + Above(cards, pid, k - 1)
  {
    assert up + ([pid] + Above(cards, pid, k - 1)) == (up + [pid]) + Above(cards, pid, k - 1);
  }

  lemma ClimbOn(cards: Cards, card: int, c: int, up: seq<int>, pid: int, all: seq<int>)
    requires IsForest(cards) && Climbed(cards, card, c, up, all) && cards[c].parent == Some(pid)
    ensures pid in cards && Up(cards, false, card, |up| + 1) == Some(pid)
    ensures Climbed(cards, card, pid, up + [pid], all)
  {
    UpAdds(cards, false, card, |up|, 1);
    assert Up(cards, false, pid, 0) == Some(pid) && Up(cards, false, c, 1) == Some(pid);
    UpIsShort(cards, card, |up| + 1);
    MoveOver(cards, c, pid, up, MAX_DEPTH - |up|);
  }

  /** `ancestors`: from the root down to the mother. */
  method Ancestors(cards: Cards, card: int) returns (out: seq<int>)
    ensures IsForest(cards) ==> out == Reversed(Above(cards, card, MAX_DEPTH))
  {
    var up: seq<int> := [];
    var seen := {card};
    ghost var all := Above(cards, card, MAX_DEPTH);
    var c := if card in cards then Some(card) else None;
    while c.Some? && cards[c.value].parent.Some? && |up| < MAX_DEPTH + 1
      invariant c.Some? ==> c.value in cards
      invariant card !in cards ==> c.None? && up == []
      invariant IsForest(cards) && card in cards ==> c.Some? && Climbed(cards, card, c.value, up, all)
      invariant |up| <= MAX_DEPTH + 1
      invariant c.Some? ==> forall x :: x in seen ==> x == card || x in up
      decreases MAX_DEPTH + 1 - |up|, c.Some?
    {
      var pid := cards[c.value].parent.value;
      if IsForest(cards) {
        ClimbOn(cards, card, c.value, up, pid, all);
        ClimbIsNew(cards, card, c.value, up, pid, all);
      }
      if pid in seen {
        break;
      }
      seen := seen + {pid};
      c := if pid in cards then Some(pid) else None;
      if c.Some? {
        up := up + [pid];
      }
    }
    if IsForest(cards) && card in cards {
      assert up + [] == up;
    }
    out := Reversed(up);
  }

  /* ---- downward ---- */

  predicate HangsUnder(cards: Cards, live: bool, x: int, frontier: seq<int>) {
    x in cards && cards[x].parent.Some? && cards[x].parent.value in frontier && (live ==> !cards[x].archived)
  }

  /** One round of the breadth-first walk: the children of the frontier that were not met yet. */
  method NextLevel(cards: Cards, frontier: seq<int>, met: set<int>, live: bool) returns (nxt: seq<int>)
    ensures forall x :: x in nxt <==> x !in met && HangsUnder(cards, live, x, frontier)
    ensures forall i, j :: 0 <= i < j < |nxt| ==> nxt[i] != nxt[j]
  {
    nxt := [];
    var seen := met;
    for i := 0 to |frontier|
      invariant seen == met + set x | x in nxt
      invariant forall x :: x in nxt <==> x !in met && HangsUnder(cards, live, x, frontier[..i])
      invariant forall i, j :: 0 <= i < j < |nxt| ==> nxt[i] != nxt[j]
    {
      var kids := Children(cards, frontier[i], live);
      var before := nxt;
      for j := 0 to |kids|
        invariant seen == met + set x | x in nxt
        invariant forall x :: x in nxt <==> x in before || (x in kids[..j] && x !in met)
        invariant forall i, j :: 0 <= i < j < |nxt| ==> nxt[i] != nxt[j]
      {
        if kids[j] !in seen {
          seen := seen + {kids[j]};
          nxt := nxt + [kids[j]];
        }
      }
      assert kids[..|kids|] == kids && frontier[..i + 1] == frontier[..i] + [frontier[i]];
      assert forall x :: HangsUnder(cards, live, x, frontier[..i + 1])
                    <==> HangsUnder(cards, live, x, frontier[..i]) || IsKid(cards, live, x, frontier[i]);
    }
    assert frontier[..|frontier|] == frontier;
  }

  ghost predicate AtLevel(cards: Cards, live: bool, card: int, n: nat, frontier: seq<int>) {
    forall x :: x in frontier <==> Up(cards, live, x, n) == Some(card)
  }

  ghost predicate Within(cards: Cards, live: bool, card: int, n: nat, x: int) {
    exists m: nat :: 1 <= m <= n && Up(cards, live, x, m) == Some(card)
  }

  ghost predicate AllWithin(cards: Cards, live: bool, card: int, n: nat, out: seq<int>) {
    forall x :: x in out <==> Within(cards, live, card, n, x)
  }

  lemma LevelIsUnseen(cards: Cards, live: bool, card: int, n: nat, x: int)
    requires Shallow(cards) && Up(cards, live, x, n + 1) == Some(card)
    ensures x != card && !Within(cards, live, card, n, x)
  {
    UpEither(cards, live, x, n + 1);
    NoCycle(cards, card, n + 1);
    if m: nat :| 1 <= m <= n && Up(cards, live, x, m) == Some(card) {
      UpEither(cards, live, x, m);
      MetTwiceIsNoForest(cards, x, m, n + 1);
      assert false;
    }
  }

  lemma LevelDown(cards: Cards, live: bool, card: int, n: nat, frontier: seq<int>, out: seq<int>, met: set<int>,
                  nxt: seq<int>)
    requires Shallow(cards) && AtLevel(cards, live, card, n, frontier) && AllWithin(cards, live, card, n, out)
    requires forall x :: x in met <==> x == card || x in out
    requires forall x :: x in nxt <==> x !in met && HangsUnder(cards, live, x, frontier)
    ensures AtLevel(cards, live, card, n + 1, nxt) && AllWithin(cards, live, card, n + 1, out + nxt)
  {
    forall x
      ensures x in nxt <==> Up(cards, live, x, n + 1) == Some(card)
    {
      if Up(cards, live, x, n + 1) == Some(card) {
        LevelIsUnseen(cards, live, card, n, x);
      }
    }
    forall x
      ensures Within(cards, live, card, n + 1, x) <==> Within(cards, live, card, n, x) || x in nxt
    {
    }
  }

  /** Once a level is empty, or the depth bound is passed, everything below has been met. */
  lemma WalkIsComplete(cards: Cards, live: bool, card: int, n: nat, frontier: seq<int>, x: int)
    requires Shallow(cards) && AtLevel(cards, live, card, n, frontier) && (frontier == [] || n > MAX_DEPTH)
    requires Under(cards, live, x, card)
    ensures Within(cards, live, card, n, x)
  {
    var m: nat :| m >= 1 && Up(cards, live, x, m) == Some(card);
    UpEither(cards, live, x, m);
    UpIsShort(cards, x, m);
    if m > n {
      UpAdds(cards, live, x, m - n, n);
    }
  }

  lemma Apart(a: seq<int>, b: seq<int>)
    requires forall i, j :: 0 <= i < j < |a| ==> a[i] != a[j]
    requires forall i, j :: 0 <= i < j < |b| ==> b[i] != b[j]
    requires forall x :: x in b ==> x !in a
    ensures forall i, j :: 0 <= i < j < |a + b| ==> (a + b)[i] != (a + b)[j]
  {
    forall i, j | 0 <= i < j < |a + b|
      ensures (a + b)[i] != (a + b)[j]
    {
      if i < |a| <= j {
        assert b[j - |a|] in b && a[i] in a;
      }
    }
  }

  /** `descendants`: breadth first, each card once. */
  method Descendants(cards: Cards, card: int, live: bool) returns (out: seq<int>)
    ensures forall i, j :: 0 <= i < j < |out| ==> out[i] != out[j]
    ensures IsForest(cards) && card in cards ==> Listed(out, Below(cards, live, card))
  {
    out := [];
    var seen := {card};
    var frontier := [card];
    var depth := 0;
    while frontier != [] && depth <= MAX_DEPTH
      invariant depth <= MAX_DEPTH + 1
      invariant forall x :: x in seen <==> x == card || x in out
      invariant forall i, j :: 0 <= i < j < |out| ==> out[i] != out[j]
      invariant IsForest(cards) && card in cards ==> AtLevel(cards, live, card, depth, frontier)
      invariant IsForest(cards) && card in cards ==> AllWithin(cards, live, card, depth, out)
      decreases MAX_DEPTH + 1 - depth
    {
      var nxt := NextLevel(cards, frontier, seen, live);
      if IsForest(cards) && card in cards {
        LevelDown(cards, live, card, depth, frontier, out, seen, nxt);
      }
      Apart(out, nxt);
      seen := seen + set x | x in nxt;
      out := out + nxt;
      frontier, depth := nxt, depth + 1;
    }
    if IsForest(cards) && card in cards {
      forall x
        ensures x in out <==> x in Below(cards, live, card)
      {
        if Under(cards, live, x, card) {
          WalkIsComplete(cards, live, card, depth, frontier, x);
        }
      }
    }
  }

  ghost predicate SomeoneAt(cards: Cards, card: int, n: nat) {
    exists d :: Up(cards, false, d, n) == Some(card)
  }

  /** The longest way down from `card` has `h` steps. */
  ghost predicate IsHeight(cards: Cards, card: int, h: nat) {
    forall n: nat :: SomeoneAt(cards, card, n) <==> n <= h
  }

  lemma LowestIsHeight(cards: Cards, card: int, h: nat, d: int)
    requires Up(cards, false, d, h) == Some(card)
    requires !SomeoneAt(cards, card, h + 1)
    ensures IsHeight(cards, card, h)
  {
    forall n: nat
      ensures SomeoneAt(cards, card, n) <==> n <= h
    {
      if n <= h {
        UpAdds(cards, false, d, h - n, n);
      }
      if x :| n > h && Up(cards, false, x, n) == Some(card) {
        UpAdds(cards, false, x, n - h - 1, h + 1);
      }
    }
  }

  method SubtreeHeight(cards: Cards, card: int) returns (h: nat)
    ensures h <= MAX_DEPTH + 1
    ensures IsForest(cards) && card in cards ==> IsHeight(cards, card, h)
  {
    h := 0;
    var frontier, seen := [card], {card};
    ghost var out: seq<int>, lowest := [], card;
    while frontier != [] && h <= MAX_DEPTH
      invariant h <= MAX_DEPTH + 1
      invariant forall x :: x in seen <==> x == card || x in out
      invariant IsForest(cards) && card in cards ==> Up(cards, false, lowest, h) == Some(card)
      invariant IsForest(cards) && card in cards ==>
        AtLevel(cards, false, card, if frontier == [] then h + 1 else h, frontier)
      invariant IsForest(cards) && card in cards ==>
        AllWithin(cards, false, card, if frontier == [] then h + 1 else h, out)
      decreases MAX_DEPTH + 2 - h + if frontier == [] then 0 else 1
    {
      var nxt := NextLevel(cards, frontier, seen, false);
      if IsForest(cards) && card in cards {
        LevelDown(cards, false, card, h, frontier, out, seen, nxt);
      }
      seen := seen + set x | x in nxt;
      out := out + nxt;
      if nxt != [] {
        h := h + 1;
        lowest := nxt[0];
      }
      frontier := nxt;
    }
    if IsForest(cards) && card in cards {
      UpIsShort(cards, lowest, h);
      LowestIsHeight(cards, card, h, lowest);
    }
  }
}
