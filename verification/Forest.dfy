/**
 The cards of the board as a forest: mother links, what lies above and below a card, and what a
 forest of bounded depth is.
 */
module Forest {
  import opened Util

  const MAX_DEPTH := 6

  datatype Card = Card(project: string, parent: Option<int>, bucket: string, closedAt: Option<real>,
                       archived: bool, decisions: seq<string>, session: string, kind: string, title: string)

  type Cards = map<int, Card>

  /** The card `n` steps above `d`; with `live`, no card on the way up from `d` (the last excepted) is archived. */
  ghost function Up(cards: Cards, live: bool, d: int, n: nat): Option<int>
    decreases n
  {
    if d !in cards then
      None
    else if n == 0 then
      Some(d)
    else if live && cards[d].archived then
      None
    else
      match cards[d].parent
      case None => None
      case Some(p) => Up(cards, live, p, n - 1)
  }

  /** `d` lies strictly below `c`. */
  ghost predicate Under(cards: Cards, live: bool, d: int, c: int) {
    exists n: nat :: n >= 1 && Up(cards, live, d, n) == Some(c)
  }

  ghost function Below(cards: Cards, live: bool, c: int): set<int> {
    set d | d in cards && Under(cards, live, d, c)
  }

  predicate IsKid(cards: Cards, live: bool, k: int, c: int) {
    k in cards && cards[k].parent == Some(c) && (live ==> !cards[k].archived)
  }

  function Kids(cards: Cards, live: bool, c: int): set<int> {
    set k | k in cards && IsKid(cards, live, k, c)
  }

  function Project(name: string): string {
    if name == "" then "default" else name
  }

  ghost predicate Linked(cards: Cards) {
    forall d :: d in cards && cards[d].parent.Some? ==>
      && cards[d].parent.value in cards
      && Project(cards[cards[d].parent.value].project) == Project(cards[d].project)
  }

  ghost predicate Shallow(cards: Cards) {
    forall d :: d in cards ==> Up(cards, false, d, MAX_DEPTH) == None
  }

  /** Every mother exists and is of the same project, and no card is `MAX_DEPTH` steps below another. */
  ghost predicate IsForest(cards: Cards) {
    Linked(cards) && Shallow(cards)
  }

  /* ---- the same forest, seen as chains of cards ---- */

  /** Cards each of which hangs under the next. */
  ghost predicate Chain(cards: Cards, s: seq<int>) {
    && (forall i :: 0 <= i < |s| ==> s[i] in cards)
    && forall i :: 0 <= i < |s| - 1 ==> cards[s[i]].parent == Some(s[i + 1])
  }

  lemma {:induction false} ChainIsUp(cards: Cards, s: seq<int>)
    requires Chain(cards, s) && |s| >= 1
    ensures Up(cards, false, s[0], |s| - 1) == Some(s[|s| - 1])
  {
    if |s| > 1 {
      assert cards[s[0]].parent == Some(s[0 + 1]);
      assert Chain(cards, s[1..]) by {
        forall i | 0 <= i < |s[1..]| - 1 ensures cards[s[1..][i]].parent == Some(s[1..][i + 1]) {
          assert cards[s[i + 1]].parent == Some(s[i + 1 + 1]);
        }
      }
      ChainIsUp(cards, s[1..]);
    }
  }

  lemma {:induction false} UpIsChain(cards: Cards, d: int, n: nat) returns (s: seq<int>)
    requires Up(cards, false, d, n).Some?
    ensures Chain(cards, s) && |s| == n + 1 && s[0] == d && s[n] == Up(cards, false, d, n).value
    decreases n
  {
    if n == 0 {
      s := [d];
    } else {
      var rest := UpIsChain(cards, cards[d].parent.value, n - 1);
      s := [d] + rest;
    }
  }

  /** Being shallow says exactly that no chain is longer than six cards. */
  lemma ShallowMeansShortChains(cards: Cards)
    ensures Shallow(cards) <==> forall s: seq<int> :: Chain(cards, s) ==> |s| <= 6
  {
    if Shallow(cards) {
      forall s: seq<int> | Chain(cards, s)
        ensures |s| <= MAX_DEPTH
      {
        if |s| > MAX_DEPTH {
          assert Chain(cards, s[..MAX_DEPTH + 1]);
          ChainIsUp(cards, s[..MAX_DEPTH + 1]);
        }
      }
    } else {
      var d :| d in cards && Up(cards, false, d, MAX_DEPTH) != None;
      var s := UpIsChain(cards, d, MAX_DEPTH);
    }
  }

  /* ---- climbing ---- */

  lemma {:induction false} UpAdds(cards: Cards, live: bool, d: int, m: nat, n: nat)
    ensures Up(cards, live, d, m + n)
            == (match Up(cards, live, d, m) case None => None case Some(e) => Up(cards, live, e, n))
    decreases m
  {
    if m > 0 && d in cards && !(live && cards[d].archived) && cards[d].parent.Some? {
      UpAdds(cards, live, cards[d].parent.value, m - 1, n);
    }
  }

  /** Whoever is `n` steps up, someone is at each step before. */
  lemma UpPrefix(cards: Cards, live: bool, d: int, m: nat, n: nat)
    requires m <= n && Up(cards, live, d, n).Some?
    ensures Up(cards, live, d, m).Some?
  {
    UpAdds(cards, live, d, m, n - m);
  }

  /** In a forest no card is more than five steps up. */
  lemma UpIsShort(cards: Cards, d: int, n: nat)
    requires Shallow(cards) && Up(cards, false, d, n).Some?
    ensures n < MAX_DEPTH
  {
    if n >= MAX_DEPTH {
      UpPrefix(cards, false, d, MAX_DEPTH, n);
    }
  }

  lemma {:induction false} AroundAgain(cards: Cards, c: int, m: nat, rounds: nat)
    requires Up(cards, false, c, m) == Some(c)
    ensures Up(cards, false, c, m * rounds) == Some(c)
    decreases rounds
  {
    if rounds > 0 {
      AroundAgain(cards, c, m, rounds - 1);
      assert m * rounds == m + m * (rounds - 1);
      UpAdds(cards, false, c, m, m * (rounds - 1));
    }
  }

  lemma NoCycle(cards: Cards, c: int, m: nat)
    requires Shallow(cards) && m >= 1
    ensures Up(cards, false, c, m) != Some(c)
  {
    if Up(cards, false, c, m) == Some(c) {
      AroundAgain(cards, c, m, MAX_DEPTH);
      UpIsShort(cards, c, m * MAX_DEPTH);
    }
  }

  lemma {:induction false} LiveIsUp(cards: Cards, d: int, n: nat)
    ensures Up(cards, true, d, n).Some? ==> Up(cards, true, d, n) == Up(cards, false, d, n)
    decreases n
  {
    if n > 0 && d in cards && cards[d].parent.Some? {
      LiveIsUp(cards, cards[d].parent.value, n - 1);
    }
  }

  /** The same, whichever way the links are followed. */
  lemma UpEither(cards: Cards, live: bool, d: int, n: nat)
    ensures Up(cards, live, d, n).Some? ==> Up(cards, live, d, n) == Up(cards, false, d, n)
  {
    LiveIsUp(cards, d, n);
  }

  lemma UpLast(cards: Cards, live: bool, d: int, n: nat, c: int)
    requires Up(cards, live, d, n + 1) == Some(c)
    ensures Up(cards, live, d, n).Some? && IsKid(cards, live, Up(cards, live, d, n).value, c)
  {
    UpAdds(cards, live, d, n, 1);
    var k := Up(cards, live, d, n).value;
    UpInside(cards, live, d, n);
    assert Up(cards, live, cards[k].parent.value, 0) == Some(c);
  }

  lemma {:induction false} UpInside(cards: Cards, live: bool, d: int, n: nat)
    ensures Up(cards, live, d, n).Some? ==> Up(cards, live, d, n).value in cards
    decreases n
  {
    if n > 0 && d in cards && cards[d].parent.Some? {
      UpInside(cards, live, cards[d].parent.value, n - 1);
    }
  }

  lemma UpOne(cards: Cards, live: bool, d: int, n: nat, c: int)
    requires c in cards && Up(cards, live, d, n).Some? && IsKid(cards, live, Up(cards, live, d, n).value, c)
    ensures Up(cards, live, d, n + 1) == Some(c)
  {
    UpAdds(cards, live, d, n, 1);
    var k := Up(cards, live, d, n).value;
    assert Up(cards, live, c, 0) == Some(c);
    assert Up(cards, live, k, 1) == Some(c);
  }

  /** What lies below a card: its children, and what lies below them. */
  lemma BelowIsKidsAndBelow(cards: Cards, live: bool, d: int, c: int)
    requires c in cards
    ensures Under(cards, live, d, c) <==>
            exists k :: IsKid(cards, live, k, c) && (d == k || Under(cards, live, d, k))
  {
    if Under(cards, live, d, c) {
      var n: nat :| n >= 1 && Up(cards, live, d, n) == Some(c);
      UpLast(cards, live, d, n - 1, c);
      var k := Up(cards, live, d, n - 1).value;
      assert IsKid(cards, live, k, c) && (d == k || Under(cards, live, d, k));
    }
    if k :| IsKid(cards, live, k, c) && (d == k || Under(cards, live, d, k)) {
      var n: nat :| Up(cards, live, d, n) == Some(k) by {
        if d == k {
          assert Up(cards, live, d, 0) == Some(k);
        }
      }
      UpOne(cards, live, d, n, c);
    }
  }

  /* ---- the ancestors, mother first ---- */

  ghost function Above(cards: Cards, d: int, k: nat): seq<int>
    decreases k
  {
    if k == 0 || Up(cards, false, d, 1) == None then
      []
    else
      var p := cards[d].parent.value;
      [p] + Above(cards, p, k - 1)
  }

  lemma {:induction false} AboveIsUp(cards: Cards, d: int, k: nat)
    ensures |Above(cards, d, k)| <= k
    ensures forall i :: 0 <= i < |Above(cards, d, k)| ==> Up(cards, false, d, i + 1) == Some(Above(cards, d, k)[i])
    ensures d in cards && |Above(cards, d, k)| < k ==> Up(cards, false, d, |Above(cards, d, k)| + 1) == None
    decreases k
  {
    if k > 0 && Up(cards, false, d, 1) != None {
      var p := cards[d].parent.value;
      AboveIsUp(cards, p, k - 1);
      forall i | 0 <= i < |Above(cards, d, k)|
        ensures Up(cards, false, d, i + 1) == Some(Above(cards, d, k)[i])
      {
        if i == 0 {
          assert Up(cards, false, p, 0) == Some(p);
        } else {
          assert Up(cards, false, p, i - 1 + 1) == Some(Above(cards, p, k - 1)[i - 1]);
        }
      }
    }
  }

  lemma TopOfAbove(cards: Cards, d: int, n: nat)
    requires d in cards && n == |Above(cards, d, MAX_DEPTH)|
    ensures Up(cards, false, d, n).Some?
    ensures Shallow(cards) ==> n < MAX_DEPTH && Up(cards, false, d, n + 1) == None
  {
    AboveIsUp(cards, d, MAX_DEPTH);
    if n > 0 {
      assert Up(cards, false, d, n - 1 + 1) == Some(Above(cards, d, MAX_DEPTH)[n - 1]);
    }
    if Shallow(cards) {
      UpIsShort(cards, d, n);
    }
  }

  /** The ancestors of a card of a forest: everything above it, and nothing else. */
  lemma AboveIsComplete(cards: Cards, d: int, a: int)
    requires Shallow(cards) && d in cards
    ensures a in Above(cards, d, MAX_DEPTH) <==> Under(cards, false, d, a)
  {
    AboveIsUp(cards, d, MAX_DEPTH);
    var s := Above(cards, d, MAX_DEPTH);
    if a in s {
      var i :| 0 <= i < |s| && s[i] == a;
      assert Up(cards, false, d, i + 1) == Some(a);
    }
    if Under(cards, false, d, a) {
      var n: nat :| n >= 1 && Up(cards, false, d, n) == Some(a);
      UpIsShort(cards, d, n);
      if n > |s| {
        UpPrefix(cards, false, d, |s| + 1, n);
        assert false;
      }
      assert Up(cards, false, d, n - 1 + 1) == Some(s[n - 1]);
    }
  }
}
