/**
 Merging of text spans: sorted by start, longest first, overlapping or touching spans become
 one cut, and every cut of the text is replaced by a marker.
 */
module Spans {

  /** The half-open interval [st, en) found because of secret number `who`. */
  datatype Span = Span(st: int, en: int, who: nat)

  predicate Before(a: Span, b: Span) {
    a.st < b.st || (a.st == b.st && a.en >= b.en)
  }

  predicate Sorted(s: seq<Span>) {
    forall i, j :: 0 <= i < j < |s| ==> Before(s[i], s[j])
  }

  /** Stable insertion. */
  function Insert(s: seq<Span>, x: Span): (r: seq<Span>)
    requires Sorted(s)
    ensures Sorted(r) && |r| == |s| + 1
    ensures forall y :: y in r <==> y in s || y == x
  {
    if |s| > 0 && !Before(s[|s| - 1], x) then
      var init, last := s[..|s| - 1], s[|s| - 1];
      assert s == init + [last];
      var r := Insert(init, x);
      AppendLast(init, x, r, last);
      r + [last]
    else s + [x]
  }

  lemma AppendLast(init: seq<Span>, x: Span, r: seq<Span>, last: Span)
    requires Sorted(init + [last]) && Before(x, last) && Sorted(r)
    requires forall y :: y in r <==> y in init || y == x
    ensures Sorted(r + [last])
  {
    forall i | 0 <= i < |r| ensures Before(r[i], last) {
      if r[i] != x {
        assert r[i] in init;
        var k :| 0 <= k < |init| && init[k] == r[i];
        assert Before((init + [last])[k], (init + [last])[|init|]);
      }
    }
  }

  method Sort(spans: seq<Span>) returns (sorted: seq<Span>)
    ensures Sorted(sorted) && |sorted| == |spans|
    ensures forall y :: y in sorted <==> y in spans
  {
    sorted := [];
    for i := 0 to |spans|
      invariant Sorted(sorted) && |sorted| == i
      invariant forall y :: y in sorted <==> y in spans[..i]
    {
      sorted := Insert(sorted, spans[i]);
    }
  }

  // ---- cuts: the merged intervals ----------------------------------------------------

  ghost predicate InBounds(text: string, spans: seq<Span>) {
    forall i :: 0 <= i < |spans| ==> 0 <= spans[i].st <= spans[i].en <= |text|
  }

  /** In order, inside the text, and never touching each other. */
  ghost predicate Apart(text: string, cuts: seq<Span>) {
    InBounds(text, cuts) &&
    (forall i, j :: 0 <= i < j < |cuts| ==> cuts[i].en < cuts[j].st)
  }

  ghost predicate Inside(spans: seq<Span>, x: int) {
    exists k :: 0 <= k < |spans| && spans[k].st <= x < spans[k].en
  }

  /** Nothing that starts where `sp` does reaches further. */
  ghost predicate LongestAt(spans: seq<Span>, sp: Span) {
    forall j :: 0 <= j < |spans| && spans[j].st == sp.st ==> spans[j].en <= sp.en
  }

  /** The cut is named after a longest span at its start. */
  ghost predicate StartsOne(spans: seq<Span>, cut: Span) {
    exists k :: 0 <= k < |spans| && spans[k].st == cut.st && spans[k].who == cut.who && LongestAt(spans, spans[k])
  }

  /** `cuts` are the connected pieces of the union of `spans`, each named after a longest span at its start. */
  ghost predicate Merged(text: string, spans: seq<Span>, cuts: seq<Span>) {
    Apart(text, cuts) &&
    (forall x :: Inside(cuts, x) <==> Inside(spans, x)) &&
    (forall k :: 0 <= k < |cuts| ==> StartsOne(spans, cuts[k]))
  }

  lemma InsideSnoc(spans: seq<Span>, sp: Span, x: int)
    ensures Inside(spans + [sp], x) <==> Inside(spans, x) || sp.st <= x < sp.en
  {
    var more := spans + [sp];
    if Inside(spans, x) {
      var k :| 0 <= k < |spans| && spans[k].st <= x < spans[k].en;
      assert more[k] == spans[k];
    }
    if sp.st <= x < sp.en {
      assert more[|spans|] == sp;
    }
  }

  lemma StartsOneSnoc(spans: seq<Span>, sp: Span, cut: Span)
    requires StartsOne(spans, cut) && forall j :: 0 <= j < |spans| ==> Before(spans[j], sp)
    ensures StartsOne(spans + [sp], cut)
  {
    var k :| 0 <= k < |spans| && spans[k].st == cut.st && spans[k].who == cut.who && LongestAt(spans, spans[k]);
    assert (spans + [sp])[k] == spans[k];
  }

  /** A span that starts no later than the end of the last cut only lengthens that cut. */
  lemma ExtendStep(text: string, spans: seq<Span>, sp: Span, done: seq<Span>, cur: Span)
    requires Merged(text, spans, done + [cur]) && InBounds(text, [sp])
    requires cur.st <= sp.st <= cur.en && forall j :: 0 <= j < |spans| ==> Before(spans[j], sp)
    ensures Merged(text, spans + [sp], done + [cur.(en := if cur.en >= sp.en then cur.en else sp.en)])
  {
    var cur' := cur.(en := if cur.en >= sp.en then cur.en else sp.en);
    var cuts, cuts' := done + [cur], done + [cur'];
    assert [sp][0] == sp && cuts[|done|] == cur;
    assert forall i :: 0 <= i < |done| ==> cuts'[i] == cuts[i];
    forall x ensures Inside(cuts', x) <==> Inside(spans + [sp], x) {
      InsideSnoc(spans, sp, x);
      InsideSnoc(done, cur, x);
      InsideSnoc(done, cur', x);
    }
    forall k | 0 <= k < |cuts'| ensures StartsOne(spans + [sp], cuts'[k]) {
      StartsOneSnoc(spans, sp, cuts[k]);
    }
  }

  /** A span that starts after the end of the last cut opens a new one. */
  lemma OpenStep(text: string, spans: seq<Span>, sp: Span, cuts: seq<Span>)
    requires Merged(text, spans, cuts) && InBounds(text, [sp])
    requires forall i :: 0 <= i < |cuts| ==> cuts[i].en < sp.st
    requires forall j :: 0 <= j < |spans| ==> Before(spans[j], sp)
    ensures Merged(text, spans + [sp], cuts + [sp])
  {
    assert [sp][0] == sp;
    forall x ensures Inside(cuts + [sp], x) <==> Inside(spans + [sp], x) {
      InsideSnoc(spans, sp, x);
      InsideSnoc(cuts, sp, x);
    }
    forall k | 0 <= k < |cuts + [sp]| ensures StartsOne(spans + [sp], (cuts + [sp])[k]) {
      if k < |cuts| {
        StartsOneSnoc(spans, sp, cuts[k]);
      } else {
        OpensLongest(text, spans, sp, cuts);
        assert (spans + [sp])[|spans|] == sp;
      }
    }
  }

  /** A span that opens a cut is a longest one at its start: whatever started there before is empty. */
  lemma OpensLongest(text: string, spans: seq<Span>, sp: Span, cuts: seq<Span>)
    requires Merged(text, spans, cuts) && InBounds(text, [sp])
    requires forall i :: 0 <= i < |cuts| ==> cuts[i].en < sp.st
    ensures LongestAt(spans + [sp], sp)
  {
    assert [sp][0] == sp;
    forall j | 0 <= j < |spans| && spans[j].st == sp.st ensures spans[j].en <= sp.en {
      assert !Inside(cuts, sp.st);
      assert !Inside(spans, sp.st);
    }
  }

  // ---- rendering ---------------------------------------------------------------------

  function End(cuts: seq<Span>): int {
    if cuts == [] then 0 else cuts[|cuts| - 1].en
  }

  ghost predicate Named<T>(marks: seq<T>, cuts: seq<Span>) {
    forall k :: 0 <= k < |cuts| ==> cuts[k].who < |marks|
  }

  /** The text up to the end of the last cut, each cut replaced by the mark of its secret. */
  ghost function RenderPrefix(text: string, marks: seq<string>, cuts: seq<Span>): string
    requires Apart(text, cuts) && Named(marks, cuts)
  {
    if cuts == [] then ""
    else
      var init, last := cuts[..|cuts| - 1], cuts[|cuts| - 1];
      RenderPrefix(text, marks, init) + text[End(init)..last.st] + marks[last.who]
  }

  ghost function Render(text: string, marks: seq<string>, cuts: seq<Span>): string
    requires Apart(text, cuts) && Named(marks, cuts)
  {
    RenderPrefix(text, marks, cuts) + text[End(cuts)..]
  }

  lemma RenderSnoc(text: string, marks: seq<string>, done: seq<Span>, cur: Span)
    requires Apart(text, done + [cur]) && Named(marks, done + [cur])
    ensures Apart(text, done) && Named(marks, done) && cur.who < |marks|
    ensures 0 <= End(done) <= cur.st <= cur.en <= |text| && End(done + [cur]) == cur.en
    ensures RenderPrefix(text, marks, done + [cur])
         == RenderPrefix(text, marks, done) + text[End(done)..cur.st] + marks[cur.who]
  {
    var cuts := done + [cur];
    assert cuts[|done|] == cur && cuts[..|cuts| - 1] == done;
    assert forall i :: 0 <= i < |done| ==> cuts[i] == done[i];
    if done != [] {
      assert cuts[|done| - 1].en < cuts[|done|].st;
    }
  }

  /** State of the merging loop after `n` spans: `done` is written out, `cur` is being built. */
  ghost predicate Merging(text: string, marks: seq<string>, spans: seq<Span>, n: int,
                          done: seq<Span>, cur: Span, pos: int, out: string)
  {
    1 <= n <= |spans| &&
    Merged(text, spans[..n], done + [cur]) && Named(marks, done + [cur]) &&
    (forall j :: n <= j < |spans| ==> cur.st <= spans[j].st) &&
    Apart(text, done) && Named(marks, done) &&
    out == RenderPrefix(text, marks, done) && pos == End(done)
  }

  lemma OneSpanMerged(text: string, sp: Span)
    requires 0 <= sp.st <= sp.en <= |text|
    ensures Merged(text, [sp], [sp])
  {
    assert [sp][0] == sp;
  }

  lemma MergingStarts(text: string, marks: seq<string>, spans: seq<Span>)
    requires |spans| > 0 && Sorted(spans) && InBounds(text, spans) && Named(marks, spans)
    ensures Merging(text, marks, spans, 1, [], spans[0], 0, "")
  {
    var none: seq<Span> := [];
    OneSpanMerged(text, spans[0]);
    assert none + [spans[0]] == [spans[0]] == spans[..1];
    assert forall j :: 1 <= j < |spans| ==> Before(spans[0], spans[j]);
  }

  lemma MergingExtends(text: string, marks: seq<string>, spans: seq<Span>, n: int,
                       done: seq<Span>, cur: Span, pos: int, out: string)
    requires Sorted(spans) && InBounds(text, spans) && Named(marks, spans)
    requires Merging(text, marks, spans, n, done, cur, pos, out) && n < |spans| && spans[n].st <= cur.en
    ensures Merging(text, marks, spans, n + 1, done,
                    cur.(en := if cur.en >= spans[n].en then cur.en else spans[n].en), pos, out)
  {
    assert spans[..n + 1] == spans[..n] + [spans[n]];
    ExtendStep(text, spans[..n], spans[n], done, cur);
    assert (done + [cur])[|done|] == cur;
    assert forall k :: 0 <= k < |done| ==> (done + [cur])[k] == done[k];
  }

  lemma MergingFlushes(text: string, marks: seq<string>, spans: seq<Span>, n: int,
                       done: seq<Span>, cur: Span, pos: int, out: string)
    requires Sorted(spans) && InBounds(text, spans) && Named(marks, spans)
    requires Merging(text, marks, spans, n, done, cur, pos, out) && n < |spans| && cur.en < spans[n].st
    ensures 0 <= pos <= cur.st <= |text| && cur.who < |marks|
    ensures Merging(text, marks, spans, n + 1, done + [cur], spans[n], cur.en,
                    out + text[pos..cur.st] + marks[cur.who])
  {
    var cuts := done + [cur];
    RenderSnoc(text, marks, done, cur);
    assert spans[..n + 1] == spans[..n] + [spans[n]];
    assert cuts[|done|] == cur;
    assert forall i :: 0 <= i < |done| ==> cuts[i].en < cuts[|done|].st;
    OpenStep(text, spans[..n], spans[n], cuts);
  }

  lemma MergingEnds(text: string, marks: seq<string>, spans: seq<Span>,
                    done: seq<Span>, cur: Span, pos: int, out: string)
    requires Merging(text, marks, spans, |spans|, done, cur, pos, out)
    ensures 0 <= pos <= cur.st <= cur.en <= |text| && cur.who < |marks|
    ensures Merged(text, spans, done + [cur]) && Named(marks, done + [cur])
    ensures out + text[pos..cur.st] + marks[cur.who] + text[cur.en..] == Render(text, marks, done + [cur])
  {
    assert spans[..|spans|] == spans;
    RenderSnoc(text, marks, done, cur);
  }

  /** The merging loop: `cur` is the cut being built, `pos` the end of the last one written. */
  method Merge(text: string, marks: seq<string>, spans: seq<Span>) returns (out: string)
    requires |spans| > 0 && Sorted(spans) && InBounds(text, spans) && Named(marks, spans)
    ensures exists cuts :: Merged(text, spans, cuts) && Named(marks, cuts) && out == Render(text, marks, cuts)
  {
    var pos, cur := 0, spans[0];
    ghost var done: seq<Span> := [];
    out := "";
    MergingStarts(text, marks, spans);
    for n := 1 to |spans|
      invariant Merging(text, marks, spans, n, done, cur, pos, out)
    {
      var sp := spans[n];
      if sp.st <= cur.en {
        MergingExtends(text, marks, spans, n, done, cur, pos, out);
        cur := cur.(en := if cur.en >= sp.en then cur.en else sp.en);
      } else {
        MergingFlushes(text, marks, spans, n, done, cur, pos, out);
        out := out + text[pos..cur.st] + marks[cur.who];
        pos := cur.en;
        done := done + [cur];
        cur := sp;
      }
    }
    MergingEnds(text, marks, spans, done, cur, pos, out);
    out := out + text[pos..cur.st] + marks[cur.who] + text[cur.en..];
  }

  // ---- what the cuts of a text are ---------------------------------------------------

  /** A stretch of text that lies inside cuts lies inside one cut. */
  lemma {:induction false} RunInOneCut(text: string, cuts: seq<Span>, a: int, b: int) returns (k: int)
    requires Apart(text, cuts) && a < b
    requires forall x :: a <= x < b ==> Inside(cuts, x)
    ensures 0 <= k < |cuts| && cuts[k].st <= a && b <= cuts[k].en
    decreases b - a
  {
    assert Inside(cuts, b - 1);
    if a + 1 == b {
      k :| 0 <= k < |cuts| && cuts[k].st <= a < cuts[k].en;
    } else {
      k := RunInOneCut(text, cuts, a, b - 1);
      var m :| 0 <= m < |cuts| && cuts[m].st <= b - 1 < cuts[m].en;
    }
  }

  /** The union decides the cuts: two lists of cuts of the same union are the same intervals. */
  lemma CutsOfUnion(text: string, a: seq<Span>, b: seq<Span>, k: int)
    requires Apart(text, a) && Apart(text, b)
    requires forall x :: Inside(a, x) <==> Inside(b, x)
    requires 0 <= k < |a| && a[k].st < a[k].en
    ensures exists m :: 0 <= m < |b| && b[m].st == a[k].st && b[m].en == a[k].en
  {
    var m := RunInOneCut(text, b, a[k].st, a[k].en);
    var l := RunInOneCut(text, a, b[m].st, b[m].en);
    assert l == k;
  }

  /** The characters of `text[..n]` outside `spans`, in order. */
  ghost function Survivors(text: string, spans: seq<Span>, n: nat): string
    requires n <= |text|
  {
    if n == 0 then ""
    else Survivors(text, spans, n - 1) + (if Inside(spans, n - 1) then "" else [text[n - 1]])
  }

  lemma {:induction false} SurvivorsOutside(text: string, spans: seq<Span>, a: nat, b: nat)
    requires a <= b <= |text| && forall x :: a <= x < b ==> !Inside(spans, x)
    ensures Survivors(text, spans, b) == Survivors(text, spans, a) + text[a..b]
  {
    if a < b {
      SurvivorsOutside(text, spans, a, b - 1);
      assert text[a..b] == text[a..b - 1] + [text[b - 1]];
    }
  }

  lemma {:induction false} SurvivorsInside(text: string, spans: seq<Span>, a: nat, b: nat)
    requires a <= b <= |text| && forall x :: a <= x < b ==> Inside(spans, x)
    ensures Survivors(text, spans, b) == Survivors(text, spans, a)
  {
    if a < b {
      SurvivorsInside(text, spans, a, b - 1);
    }
  }

  lemma {:induction false} SurvivorsAgree(text: string, s: seq<Span>, t: seq<Span>, n: nat)
    requires n <= |text| && forall x :: 0 <= x < n ==> (Inside(s, x) <==> Inside(t, x))
    ensures Survivors(text, s, n) == Survivors(text, t, n)
  {
    if n > 0 {
      SurvivorsAgree(text, s, t, n - 1);
    }
  }

  ghost predicate Blank(marks: seq<string>) {
    forall i :: 0 <= i < |marks| ==> marks[i] == ""
  }

  lemma {:induction false} BlankPrefix(text: string, marks: seq<string>, cuts: seq<Span>)
    requires Apart(text, cuts) && Named(marks, cuts) && Blank(marks)
    ensures 0 <= End(cuts) <= |text|
    ensures RenderPrefix(text, marks, cuts) == Survivors(text, cuts, End(cuts))
  {
    if cuts != [] {
      var init, last := cuts[..|cuts| - 1], cuts[|cuts| - 1];
      assert cuts == init + [last];
      RenderSnoc(text, marks, init, last);
      BlankPrefix(text, marks, init);
      forall x | 0 <= x < last.st ensures Inside(cuts, x) <==> Inside(init, x) {
        InsideSnoc(init, last, x);
      }
      SurvivorsAgree(text, init, cuts, End(init));
      forall x | End(init) <= x < last.st ensures !Inside(cuts, x) {
        PastTheEnd(text, init, x);
      }
      SurvivorsOutside(text, cuts, End(init), last.st);
      assert cuts[|init|] == last;
      SurvivorsInside(text, cuts, last.st, last.en);
    }
  }

  lemma PastTheEnd(text: string, cuts: seq<Span>, x: int)
    requires Apart(text, cuts) && End(cuts) <= x
    ensures !Inside(cuts, x)
  {
  }

  /** With its marks erased, a rendered text is the original without the characters of the cuts. */
  lemma BlankRenderIsSurvivors(text: string, marks: seq<string>, cuts: seq<Span>)
    requires Apart(text, cuts) && Named(marks, cuts) && Blank(marks)
    ensures Render(text, marks, cuts) == Survivors(text, cuts, |text|)
  {
    BlankPrefix(text, marks, cuts);
    forall x | End(cuts) <= x < |text| ensures !Inside(cuts, x) {
      PastTheEnd(text, cuts, x);
    }
    SurvivorsOutside(text, cuts, End(cuts), |text|);
  }

  // ---- the rendered text, character by character -------------------------------------

  ghost predicate Starts(cuts: seq<Span>, k: int, x: int) {
    0 <= k < |cuts| && cuts[k].st == x
  }

  /** The mark of the cut that starts at `x`, if one does. */
  ghost function MarkAt(marks: seq<string>, cuts: seq<Span>, x: int): string
    requires Named(marks, cuts)
  {
    if exists k :: Starts(cuts, k, x) then
      var k :| Starts(cuts, k, x);
      marks[cuts[k].who]
    else
      ""
  }

  /** Reading `text[..n]`: at the start of a cut its mark, outside the cuts the characters themselves. */
  ghost function Marked(text: string, marks: seq<string>, cuts: seq<Span>, n: nat): string
    requires n <= |text| && Named(marks, cuts)
  {
    if n == 0 then ""
    else
      Marked(text, marks, cuts, n - 1) + MarkAt(marks, cuts, n - 1)
      + (if Inside(cuts, n - 1) then "" else [text[n - 1]])
  }

  ghost predicate NonEmpty(cuts: seq<Span>) {
    forall k :: 0 <= k < |cuts| ==> cuts[k].st < cuts[k].en
  }

  /** No other cut starts where a cut is. */
  lemma StartIsOwn(text: string, cuts: seq<Span>, k: int, j: int)
    requires Apart(text, cuts) && NonEmpty(cuts) && 0 <= k < |cuts| && 0 <= j < |cuts|
    ensures cuts[k].st <= cuts[j].st < cuts[k].en ==> j == k
  {
    if j < k {
      assert cuts[j].en < cuts[k].st;
    } else if k < j {
      assert cuts[k].en < cuts[j].st;
    }
  }

  lemma MarkAtStart(text: string, marks: seq<string>, cuts: seq<Span>, k: int)
    requires Apart(text, cuts) && NonEmpty(cuts) && Named(marks, cuts) && 0 <= k < |cuts|
    ensures MarkAt(marks, cuts, cuts[k].st) == marks[cuts[k].who]
  {
    assert Starts(cuts, k, cuts[k].st);
    forall j | Starts(cuts, j, cuts[k].st) ensures j == k {
      StartIsOwn(text, cuts, k, j);
    }
  }

  lemma NoMarkInside(text: string, marks: seq<string>, cuts: seq<Span>, k: int, x: int)
    requires Apart(text, cuts) && NonEmpty(cuts) && Named(marks, cuts) && 0 <= k < |cuts|
    requires cuts[k].st < x < cuts[k].en
    ensures MarkAt(marks, cuts, x) == ""
  {
    forall j | 0 <= j < |cuts| ensures cuts[j].st != x {
      StartIsOwn(text, cuts, k, j);
    }
  }

  lemma NoMarkOutside(marks: seq<string>, cuts: seq<Span>, x: int)
    requires NonEmpty(cuts) && Named(marks, cuts) && !Inside(cuts, x)
    ensures MarkAt(marks, cuts, x) == ""
  {
  }

  lemma {:induction false} MarkedOutside(text: string, marks: seq<string>, cuts: seq<Span>, a: nat, b: nat)
    requires a <= b <= |text| && Named(marks, cuts) && NonEmpty(cuts)
    requires forall x :: a <= x < b ==> !Inside(cuts, x)
    ensures Marked(text, marks, cuts, b) == Marked(text, marks, cuts, a) + text[a..b]
  {
    if a < b {
      MarkedOutside(text, marks, cuts, a, b - 1);
      NoMarkOutside(marks, cuts, b - 1);
      assert text[a..b] == text[a..b - 1] + [text[b - 1]];
    }
  }

  lemma {:induction false} MarkedInside(text: string, marks: seq<string>, cuts: seq<Span>, k: int, b: nat)
    requires Apart(text, cuts) && NonEmpty(cuts) && Named(marks, cuts) && 0 <= k < |cuts|
    requires cuts[k].st < b <= cuts[k].en <= |text|
    ensures Marked(text, marks, cuts, b) == Marked(text, marks, cuts, cuts[k].st) + marks[cuts[k].who]
    decreases b
  {
    assert Inside(cuts, b - 1);
    if b - 1 == cuts[k].st {
      MarkAtStart(text, marks, cuts, k);
    } else {
      MarkedInside(text, marks, cuts, k, b - 1);
      NoMarkInside(text, marks, cuts, k, b - 1);
    }
  }

  /** The text before a later cut reads the same without that cut. */
  lemma {:induction false} MarkedBefore(text: string, marks: seq<string>, init: seq<Span>, last: Span, n: nat)
    requires Apart(text, init + [last]) && NonEmpty(init + [last]) && Named(marks, init + [last])
    requires Apart(text, init) && Named(marks, init) && n <= last.st <= |text|
    ensures Marked(text, marks, init + [last], n) == Marked(text, marks, init, n)
  {
    if n > 0 {
      MarkedBefore(text, marks, init, last, n - 1);
      InsideSnoc(init, last, n - 1);
      MarkAtBefore(text, marks, init, last, n - 1);
    }
  }

  lemma MarkAtBefore(text: string, marks: seq<string>, init: seq<Span>, last: Span, x: int)
    requires Apart(text, init + [last]) && NonEmpty(init + [last]) && Named(marks, init + [last])
    requires Apart(text, init) && Named(marks, init) && x < last.st
    ensures MarkAt(marks, init + [last], x) == MarkAt(marks, init, x)
  {
    var cuts := init + [last];
    assert forall k :: 0 <= k < |init| ==> cuts[k] == init[k];
    assert cuts[|init|] == last;
    if k :| Starts(cuts, k, x) {
      assert k < |init| && Starts(init, k, x);
      assert NonEmpty(init);
      MarkAtStart(text, marks, cuts, k);
      MarkAtStart(text, marks, init, k);
    } else {
      forall k ensures !Starts(init, k, x) {
        assert !Starts(cuts, k, x);
      }
    }
  }

  lemma {:induction false} PrefixIsMarked(text: string, marks: seq<string>, cuts: seq<Span>)
    requires Apart(text, cuts) && NonEmpty(cuts) && Named(marks, cuts)
    ensures 0 <= End(cuts) <= |text|
    ensures RenderPrefix(text, marks, cuts) == Marked(text, marks, cuts, End(cuts))
  {
    if cuts != [] {
      var init, last := cuts[..|cuts| - 1], cuts[|cuts| - 1];
      assert cuts == init + [last];
      RenderSnoc(text, marks, init, last);
      PrefixIsMarked(text, marks, init);
      MarkedBefore(text, marks, init, last, End(init));
      forall x | End(init) <= x < last.st ensures !Inside(cuts, x) {
        PastTheEnd(text, init, x);
        InsideSnoc(init, last, x);
      }
      MarkedOutside(text, marks, cuts, End(init), last.st);
      MarkedInside(text, marks, cuts, |init|, last.en);
    }
  }

  /** A rendered text, read from left to right: each cut is its mark, everything else stays in place. */
  lemma RenderIsMarked(text: string, marks: seq<string>, cuts: seq<Span>)
    requires Apart(text, cuts) && NonEmpty(cuts) && Named(marks, cuts)
    ensures Render(text, marks, cuts) == Marked(text, marks, cuts, |text|)
  {
    PrefixIsMarked(text, marks, cuts);
    forall x | End(cuts) <= x < |text| ensures !Inside(cuts, x) {
      PastTheEnd(text, cuts, x);
    }
    MarkedOutside(text, marks, cuts, End(cuts), |text|);
  }
}
