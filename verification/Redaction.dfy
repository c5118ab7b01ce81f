/**
 Secret redaction: every hit of every form of every secret is found, and the merged hits are
 replaced by one marker each.
 */
module Redaction {
  import opened Base64
  import opened Encodings
  import opened Spans

  const REDACT_MIN := 4
  const GRAM := 12
  const LONG := 16

  /** A vault secret. */
  datatype Secret = Secret(name: string, value: string)

  /** Every form of a secret that must not survive in stored text. */
  ghost function Forms(sec: Secret): (forms: set<string>)
    ensures forall f :: f in forms ==> |f| >= REDACT_MIN
  {
    if |sec.value| < REDACT_MIN then {}
    else if |sec.value| < VARIANT_MIN then {sec.value}
    else
      var raw := Utf8(sec.value);
      var all := {sec.value} + Cores(raw, false) + Cores(raw, true) + Quoted(raw)
                 + {Hex(raw, false), Hex(raw, true)};
      set f | f in all && |f| >= REDACT_MIN
  }

  method FormsOf(sec: Secret) returns (forms: set<string>)
    ensures forms == Forms(sec)
  {
    if |sec.value| < REDACT_MIN {
      return {};
    }
    forms := {sec.value};
    if |sec.value| >= VARIANT_MIN {
      var raw := Utf8(sec.value);
      var std := CoresOf(raw, false);
      var url := CoresOf(raw, true);
      forms := forms + std + url + Quoted(raw) + {Hex(raw, false), Hex(raw, true)};
    }
    forms := set f | f in forms && |f| >= REDACT_MIN;
  }

  predicate Varied(w: string) {
    |set c | c in w| >= 5
  }

  function Piece(value: string, i: int): (g: string)
    requires 0 <= i <= |value| - GRAM
    ensures |g| == GRAM
  {
    value[i..i + GRAM]
  }

  /** The 12-character pieces of a long secret, low-variety pieces skipped. */
  function Grams(value: string): (grams: set<string>)
    ensures forall g :: g in grams ==> |g| == GRAM
  {
    if |value| < LONG then {}
    else set i | 0 <= i <= |value| - GRAM && Varied(Piece(value, i)) :: Piece(value, i)
  }

  /** Everything looked for because of one secret. */
  ghost function Needles(sec: Secret): (needles: set<string>)
    ensures forall f :: f in needles ==> |f| >= REDACT_MIN
  {
    Forms(sec) + Grams(sec.value)
  }

  ghost function AllNeedles(secrets: seq<Secret>): (all: seq<set<string>>)
    ensures |all| == |secrets|
  {
    seq(|secrets|, i requires 0 <= i < |secrets| => Needles(secrets[i]))
  }

  /** `text[st..en]` must not survive. */
  ghost predicate Hit(text: string, needles: set<string>, st: int, en: int) {
    0 <= st <= en <= |text| && text[st..en] in needles
  }

  ghost predicate Covered(text: string, all: seq<set<string>>, x: int) {
    exists n, st, en :: 0 <= n < |all| && Hit(text, all[n], st, en) && st <= x < en
  }

  // ---- finding the hits --------------------------------------------------------------

  predicate At(text: string, form: string, i: int) {
    0 <= i && i + |form| <= |text| && text[i..i + |form|] == form
  }

  /** `text.find(form, start)`. */
  method Find(text: string, form: string, start: nat) returns (i: int)
    ensures i == -1 || (start <= i && At(text, form, i))
    ensures forall j :: start <= j && (i == -1 || j < i) ==> !At(text, form, j)
  {
    i := start;
    while i + |form| <= |text|
      invariant start <= i
      invariant forall j :: start <= j < i ==> !At(text, form, j)
    {
      if text[i..i + |form|] == form {
        return;
      }
      i := i + 1;
    }
    i := -1;
  }

  method FindAll(text: string, form: string, who: nat, spans: seq<Span>) returns (out: seq<Span>)
    ensures forall sp :: sp in out <==>
      sp in spans || (sp.who == who && sp.en == sp.st + |form| && At(text, form, sp.st))
  {
    out := spans;
    var i := Find(text, form, 0);
    ghost var done := 0;
    while i != -1
      invariant i == -1 || (done <= i && At(text, form, i))
      invariant forall j :: done <= j && (i == -1 || j < i) ==> !At(text, form, j)
      invariant 0 <= done <= |text| + 1
      invariant forall sp :: sp in out <==>
        sp in spans || (sp.who == who && sp.en == sp.st + |form| && At(text, form, sp.st) && sp.st < done)
      decreases if i == -1 then 0 else |text| + 2 - i
    {
      out := out + [Span(i, i + |form|, who)];
      done := i + 1;
      i := Find(text, form, i + 1);
    }
  }

  method FindGrams(text: string, grams: set<string>, who: nat, spans: seq<Span>) returns (out: seq<Span>)
    requires forall g :: g in grams ==> |g| == GRAM
    ensures forall sp :: sp in out <==> sp in spans || (sp.who == who && Hit(text, grams, sp.st, sp.en))
  {
    out := spans;
    if grams == {} || |text| < GRAM {
      return;
    }
    for i := 0 to |text| - GRAM + 1
      invariant forall sp :: sp in out <==>
        sp in spans || (sp.who == who && 0 <= sp.st < i && sp.en == sp.st + GRAM && text[sp.st..sp.en] in grams)
    {
      if text[i..i + GRAM] in grams {
        out := out + [Span(i, i + GRAM, who)];
      }
    }
  }

  method SpansOf(text: string, sec: Secret, who: nat, spans: seq<Span>) returns (out: seq<Span>)
    ensures forall sp :: sp in out <==> sp in spans || (sp.who == who && Hit(text, Needles(sec), sp.st, sp.en))
  {
    out := spans;
    if |sec.value| < REDACT_MIN {
      return;
    }
    var forms := FormsOf(sec);
    out := FindForms(text, forms, who, out);
    var grams := Grams(sec.value);
    out := FindGrams(text, grams, who, out);
  }

  method FindForms(text: string, forms: set<string>, who: nat, spans: seq<Span>) returns (out: seq<Span>)
    ensures forall sp :: sp in out <==> sp in spans || (sp.who == who && Hit(text, forms, sp.st, sp.en))
  {
    out := spans;
    var rest := forms;
    while rest != {}
      invariant rest <= forms
      invariant forall sp :: sp in out <==>
        sp in spans || (sp.who == who && Hit(text, forms - rest, sp.st, sp.en))
      decreases rest
    {
      var form :| form in rest;
      out := FindAll(text, form, who, out);
      rest := rest - {form};
    }
  }

  // ---- redact ------------------------------------------------------------------------

  function Marks(secrets: seq<Secret>): (marks: seq<string>)
    ensures |marks| == |secrets|
  {
    seq(|secrets|, i requires 0 <= i < |secrets| => "[secret:" + secrets[i].name + "]")
  }

  /** `cuts` are the connected pieces of the union of all hits, each marked for a longest hit at its start. */
  ghost predicate Exact(text: string, all: seq<set<string>>, cuts: seq<Span>) {
    Apart(text, cuts) && Named(all, cuts) &&
    (forall x :: Inside(cuts, x) <==> Covered(text, all, x)) &&
    (forall k :: 0 <= k < |cuts| ==> StartsHit(text, all, cuts[k].st, cuts[k].who))
  }

  ghost predicate StartsHit(text: string, all: seq<set<string>>, st: int, who: nat) {
    who < |all| && exists en :: Hit(text, all[who], st, en) && NoLongerHit(text, all, st, en)
  }

  ghost predicate NoLongerHit(text: string, all: seq<set<string>>, st: int, en: int) {
    forall n, e :: 0 <= n < |all| && Hit(text, all[n], st, e) ==> e <= en
  }

  ghost predicate AllHits(text: string, all: seq<set<string>>, spans: seq<Span>) {
    forall sp :: sp in spans <==> sp.who < |all| && Hit(text, all[sp.who], sp.st, sp.en)
  }

  method Redact(text: string, secrets: seq<Secret>) returns (out: string)
    ensures exists cuts :: Exact(text, AllNeedles(secrets), cuts) && out == Render(text, Marks(secrets), cuts)
  {
    ghost var all := AllNeedles(secrets);
    var spans: seq<Span> := [];
    for n := 0 to |secrets|
      invariant forall sp :: sp in spans <==> sp.who < n && Hit(text, all[sp.who], sp.st, sp.en)
    {
      spans := SpansOf(text, secrets[n], n, spans);
    }
    assert AllHits(text, all, spans);
    if spans == [] {
      NoSpans(text, all, Marks(secrets));
      return text;
    }
    var first := spans[0];
    assert first in spans;
    spans := Sort(spans);
    HitsInBounds(text, all, spans);
    out := Merge(text, Marks(secrets), spans);
    ghost var cuts :| Merged(text, spans, cuts) && Named(Marks(secrets), cuts) && out == Render(text, Marks(secrets), cuts);
    MergedHitsAreExact(text, all, spans, cuts);
  }

  lemma NoSpans(text: string, all: seq<set<string>>, marks: seq<string>)
    requires AllHits(text, all, [])
    ensures Exact(text, all, []) && Render(text, marks, []) == text
  {
    var none: seq<Span> := [];
    forall x ensures !Covered(text, all, x) {
      HitsInside(text, all, none, x);
    }
    assert text[0..] == text;
  }

  lemma HitsInBounds(text: string, all: seq<set<string>>, spans: seq<Span>)
    requires AllHits(text, all, spans)
    ensures InBounds(text, spans) && Named(all, spans)
  {
    forall i | 0 <= i < |spans| ensures spans[i].who < |all| && 0 <= spans[i].st <= spans[i].en <= |text| {
      assert spans[i] in spans;
    }
  }

  lemma MergedHitsAreExact(text: string, all: seq<set<string>>, spans: seq<Span>, cuts: seq<Span>)
    requires AllHits(text, all, spans)
    requires Merged(text, spans, cuts) && Named(all, cuts)
    ensures Exact(text, all, cuts)
  {
    forall x ensures Inside(spans, x) <==> Covered(text, all, x) {
      HitsInside(text, all, spans, x);
    }
    forall k | 0 <= k < |cuts| ensures StartsHit(text, all, cuts[k].st, cuts[k].who) {
      assert StartsOne(spans, cuts[k]);
      var j :| 0 <= j < |spans| && spans[j].st == cuts[k].st && spans[j].who == cuts[k].who && LongestAt(spans, spans[j]);
      assert spans[j] in spans;
      forall n, e | 0 <= n < |all| && Hit(text, all[n], cuts[k].st, e) ensures e <= spans[j].en {
        var sp := Span(cuts[k].st, e, n);
        assert sp.who == n && sp in spans;
      }
    }
  }

  lemma HitsInside(text: string, all: seq<set<string>>, spans: seq<Span>, x: int)
    requires AllHits(text, all, spans)
    ensures Inside(spans, x) <==> Covered(text, all, x)
  {
    if Inside(spans, x) {
      var j :| 0 <= j < |spans| && spans[j].st <= x < spans[j].en;
      assert spans[j] in spans;
    }
    if Covered(text, all, x) {
      var n, st, en :| 0 <= n < |all| && Hit(text, all[n], st, en) && st <= x < en;
      var sp := Span(st, en, n);
      assert sp.who == n && sp in spans;
    }
  }

  // ---- what redaction guarantees -----------------------------------------------------

  /** The characters of `text[..n]` that no hit covers, in order. */
  ghost function Uncovered(text: string, all: seq<set<string>>, n: nat): string
    requires n <= |text|
  {
    if n == 0 then ""
    else Uncovered(text, all, n - 1) + (if Covered(text, all, n - 1) then "" else [text[n - 1]])
  }

  /** With its markers erased, the output is the text minus the union of all hits, in order. */
  lemma KeptIsTextMinusHits(text: string, all: seq<set<string>>, cuts: seq<Span>, blanks: seq<string>)
    requires Exact(text, all, cuts) && |blanks| == |all| && Blank(blanks)
    ensures Render(text, blanks, cuts) == Uncovered(text, all, |text|)
  {
    BlankRenderIsSurvivors(text, blanks, cuts);
    SurvivorsUncovered(text, all, cuts, |text|);
  }

  lemma {:induction false} SurvivorsUncovered(text: string, all: seq<set<string>>, cuts: seq<Span>, n: nat)
    requires Exact(text, all, cuts) && n <= |text|
    ensures Survivors(text, cuts, n) == Uncovered(text, all, n)
  {
    if n > 0 {
      SurvivorsUncovered(text, all, cuts, n - 1);
    }
  }

  /** The hits decide the cuts: any two exact cuttings of a text are the same intervals. */
  lemma CutsAreUnique(text: string, all: seq<set<string>>, a: seq<Span>, b: seq<Span>, k: int)
    requires Exact(text, all, a) && Exact(text, all, b) && 0 <= k < |a|
    requires a[k].st < a[k].en
    ensures exists m :: 0 <= m < |b| && b[m].st == a[k].st && b[m].en == a[k].en
  {
    CutsOfUnion(text, a, b, k);
  }

  /** Every hit lies inside one cut. */
  lemma HitInsideOneCut(text: string, all: seq<set<string>>, cuts: seq<Span>, n: int, st: int, en: int)
    returns (k: int)
    requires Exact(text, all, cuts) && 0 <= n < |all| && Hit(text, all[n], st, en) && st < en
    ensures 0 <= k < |cuts| && cuts[k].st <= st && en <= cuts[k].en
  {
    forall x | st <= x < en ensures Inside(cuts, x) {
      assert Covered(text, all, x);
    }
    k := RunInOneCut(text, cuts, st, en);
  }

  lemma HitIsCut(text: string, all: seq<set<string>>, cuts: seq<Span>, n: int, st: int, en: int)
    requires Exact(text, all, cuts) && 0 <= n < |all| && Hit(text, all[n], st, en) && st < en
    ensures Inside(cuts, st)
  {
    assert Covered(text, all, st);
  }

  lemma OccurrenceIsHit(text: string, needles: set<string>, form: string, st: int)
    requires form in needles && At(text, form, st)
    ensures Hit(text, needles, st, st + |form|)
  {
  }

  /** What the needles of a secret contain: its forms, its pieces, and its base64 cores. */
  lemma NeedlesOfSecret(sec: Secret)
    ensures Forms(sec) <= Needles(sec) && Grams(sec.value) <= Needles(sec)
    ensures |sec.value| >= VARIANT_MIN ==>
              Cores(Utf8(sec.value), false) <= Needles(sec) && Cores(Utf8(sec.value), true) <= Needles(sec)
  {
  }

  lemma KeptHoldsNoNeedle(text: string, all: seq<set<string>>, cuts: seq<Span>, a: int, b: int, n: int, form: string)
    requires Exact(text, all, cuts) && 0 <= a <= b <= |text|
    requires forall x :: a <= x < b ==> !Inside(cuts, x)
    requires 0 <= n < |all| && form in all[n] && form != ""
    ensures forall i :: !At(text[a..b], form, i)
  {
    forall i ensures !At(text[a..b], form, i) {
      if At(text[a..b], form, i) {
        SliceOfSlice(text, a, b, i, i + |form|);
        OccurrenceIsHit(text, all[n], form, a + i);
        HitIsCut(text, all, cuts, n, a + i, a + i + |form|);
        assert false;
      }
    }
  }

  /** A kept stretch of a redacted text contains no form and no piece of any secret. */
  lemma KeptHoldsNoForm(text: string, secrets: seq<Secret>, cuts: seq<Span>, a: int, b: int, n: int, form: string)
    requires Exact(text, AllNeedles(secrets), cuts) && 0 <= a <= b <= |text|
    requires forall x :: a <= x < b ==> !Inside(cuts, x)
    requires 0 <= n < |secrets| && (form in Forms(secrets[n]) || form in Grams(secrets[n].value))
    ensures forall i :: !At(text[a..b], form, i)
  {
    NeedlesOfSecret(secrets[n]);
    KeptHoldsNoNeedle(text, AllNeedles(secrets), cuts, a, b, n, form);
  }

  lemma SliceOfSlice(s: string, a: int, b: int, i: int, j: int)
    requires 0 <= a <= b <= |s| && 0 <= i <= j <= b - a
    ensures s[a..b][i..j] == s[a + i..a + j]
  {
    assert forall k :: 0 <= k < j - i ==> s[a..b][i..j][k] == s[a + i..a + j][k];
  }

  /** Every window of 12 characters has at least 5 distinct ones. */
  ghost predicate AllVaried(piece: string) {
    forall i :: 0 <= i <= |piece| - 12 ==> |set c | c in Piece(piece, i)| >= 5
  }

  lemma PieceVanishes(text: string, all: seq<set<string>>, cuts: seq<Span>, n: int,
                          value: string, from: int, len: int, at: int) returns (k: int)
    requires Exact(text, all, cuts) && 0 <= n < |all| && Grams(value) <= all[n]
    requires |value| >= LONG && len >= GRAM && 0 <= from && from + len <= |value|
    requires AllVaried(value[from..from + len]) && At(text, value[from..from + len], at)
    ensures 0 <= k < |cuts| && cuts[k].st <= at && at + len <= cuts[k].en
  {
    forall x | at <= x < at + len ensures Inside(cuts, x) {
      var w := if x - at <= len - GRAM then x - at else len - GRAM;
      WindowIsHit(text, all[n], value, from, len, at, w);
      assert Covered(text, all, x);
    }
    k := RunInOneCut(text, cuts, at, at + len);
  }

  /** Any varied piece of 12 characters or more of a long secret disappears into one cut of a redacted text. */
  lemma LongPieceVanishes(text: string, secrets: seq<Secret>, cuts: seq<Span>, n: int, from: int, len: int, at: int)
    returns (k: int)
    requires Exact(text, AllNeedles(secrets), cuts) && 0 <= n < |secrets|
    requires |secrets[n].value| >= 16 && len >= 12 && 0 <= from && from + len <= |secrets[n].value|
    requires AllVaried(secrets[n].value[from..from + len]) && At(text, secrets[n].value[from..from + len], at)
    ensures 0 <= k < |cuts| && cuts[k].st <= at && at + len <= cuts[k].en
  {
    NeedlesOfSecret(secrets[n]);
    k := PieceVanishes(text, AllNeedles(secrets), cuts, n, secrets[n].value, from, len, at);
  }

  lemma WindowIsHit(text: string, needles: set<string>, value: string, from: int, len: int, at: int, w: int)
    requires Grams(value) <= needles
    requires |value| >= LONG && len >= GRAM && 0 <= from && from + len <= |value|
    requires AllVaried(value[from..from + len]) && At(text, value[from..from + len], at)
    requires 0 <= w <= len - GRAM
    ensures Hit(text, needles, at + w, at + w + GRAM)
  {
    var piece := value[from..from + len];
    SliceOfSlice(value, from, from + len, w, w + GRAM);
    SliceOfSlice(text, at, at + len, w, w + GRAM);
    assert Varied(Piece(piece, w)) && Piece(piece, w) == Piece(value, from + w);
    assert Piece(value, from + w) in Grams(value);
  }

  lemma CoreVanishes(text: string, all: seq<set<string>>, cuts: seq<Span>, n: int,
                     p: seq<byte>, raw: seq<byte>, s: seq<byte>, url: bool, at: int)
    returns (k: int, st: int, en: int)
    requires Exact(text, all, cuts) && 0 <= n < |all| && Cores(raw, url) <= all[n]
    requires |raw| >= 8 && At(text, Encode(p + raw + s, url), at)
    ensures st == at + |p| / 3 * 4 + FirstChar(|p| % 3)
    ensures en == at + |p| / 3 * 4 + EndChar(|p| % 3, |raw|)
    ensures 0 <= k < |cuts| && cuts[k].st <= st && en <= cuts[k].en
  {
    var core;
    core, st := CoreInText(text, p, raw, s, url, at);
    en := st + |core|;
    OccurrenceIsHit(text, all[n], core, st);
    k := HitInsideOneCut(text, all, cuts, n, st, en);
  }

  /**
   A secret of at least 8 characters, encoded inside a larger blob: whatever bytes surround it, the
   part of the base64 text that depends on the secret disappears into one cut of the redacted text.
   */
  lemma EncodedSecretVanishes(text: string, secrets: seq<Secret>, cuts: seq<Span>, n: int,
                              p: seq<byte>, s: seq<byte>, url: bool, at: int)
    returns (k: int, st: int, en: int)
    requires Exact(text, AllNeedles(secrets), cuts) && 0 <= n < |secrets| && |secrets[n].value| >= 8
    requires At(text, Encode(p + Utf8(secrets[n].value) + s, url), at)
    ensures st == at + |p| / 3 * 4 + FirstChar(|p| % 3)
    ensures en == at + |p| / 3 * 4 + EndChar(|p| % 3, |Utf8(secrets[n].value)|)
    ensures 0 <= k < |cuts| && cuts[k].st <= st && en <= cuts[k].en
  {
    NeedlesOfSecret(secrets[n]);
    k, st, en := CoreVanishes(text, AllNeedles(secrets), cuts, n, p, Utf8(secrets[n].value), s, url, at);
  }

  lemma CoreInText(text: string, p: seq<byte>, raw: seq<byte>, s: seq<byte>, url: bool, at: int)
    returns (core: string, st: int)
    requires |raw| >= 8 && At(text, Encode(p + raw + s, url), at)
    ensures core in Cores(raw, url) && |core| >= VARIANT_MIN && At(text, core, st)
    ensures st == at + |p| / 3 * 4 + FirstChar(|p| % 3)
    ensures st + |core| == at + |p| / 3 * 4 + EndChar(|p| % 3, |raw|)
  {
    core := CoreInAnyEncoding(p, raw, s, url);
    var off := FirstChar(|p| % 3) + |p| / 3 * 4;
    InnerOccurrence(text, Encode(p + raw + s, url), core, at, off);
    st := at + off;
  }

  lemma InnerOccurrence(text: string, big: string, small: string, at: int, off: nat)
    requires At(text, big, at) && Occurs(small, big, off)
    ensures At(text, small, at + off)
  {
    SliceOfSlice(text, at, at + |big|, off, off + |small|);
  }

  // ---- what is looked for, on the secret itself ---------------------------------------

  /** The text from `st` to `en` disappears into a single cut. */
  ghost predicate InOneCut(cuts: seq<Span>, st: int, en: int) {
    exists k :: 0 <= k < |cuts| && cuts[k].st <= st && en <= cuts[k].en
  }

  lemma HitVanishes(text: string, all: seq<set<string>>, cuts: seq<Span>, n: int, f: string, at: int)
    requires Exact(text, all, cuts) && 0 <= n < |all| && f in all[n] && f != "" && At(text, f, at)
    ensures InOneCut(cuts, at, at + |f|)
  {
    var k := HitInsideOneCut(text, all, cuts, n, at, at + |f|);
  }

  lemma NeedleVanishes(text: string, secrets: seq<Secret>, cuts: seq<Span>, n: int, f: string, at: int)
    requires Exact(text, AllNeedles(secrets), cuts) && 0 <= n < |secrets|
    requires f in Needles(secrets[n]) && At(text, f, at)
    ensures InOneCut(cuts, at, at + |f|)
  {
    assert |f| >= REDACT_MIN;
    HitVanishes(text, AllNeedles(secrets), cuts, n, f, at);
  }

  /** Wherever a secret of at least four characters occurs, it disappears into one cut. */
  lemma ValueVanishes(text: string, secrets: seq<Secret>, cuts: seq<Span>, n: int, at: int)
    requires Exact(text, AllNeedles(secrets), cuts) && 0 <= n < |secrets|
    requires |secrets[n].value| >= 4 && At(text, secrets[n].value, at)
    ensures InOneCut(cuts, at, at + |secrets[n].value|)
  {
    NeedleVanishes(text, secrets, cuts, n, secrets[n].value, at);
  }

  /** So does every way of writing a secret of at least eight characters: hexadecimal of either case, */
  lemma HexVanishes(text: string, secrets: seq<Secret>, cuts: seq<Span>, n: int, upper: bool, f: string, at: int)
    requires Exact(text, AllNeedles(secrets), cuts) && 0 <= n < |secrets| && |secrets[n].value| >= 8
    requires f == Hex(Utf8(secrets[n].value), upper) && At(text, f, at)
    ensures InOneCut(cuts, at, at + |f|)
  {
    HexLength(Utf8(secrets[n].value), upper);
    assert f in {Hex(Utf8(secrets[n].value), false), Hex(Utf8(secrets[n].value), true)};
    NeedleVanishes(text, secrets, cuts, n, f, at);
  }

  /** quoted for a URL in three ways: no character safe, the slash safe, or with a plus for a space, */
  lemma QuoteVanishes(text: string, secrets: seq<Secret>, cuts: seq<Span>, n: int, slash: bool, plus: bool,
                      f: string, at: int)
    requires Exact(text, AllNeedles(secrets), cuts) && 0 <= n < |secrets| && |secrets[n].value| >= 8
    requires f == Quote(Utf8(secrets[n].value), slash, plus) && !(slash && plus) && At(text, f, at)
    ensures InOneCut(cuts, at, at + |f|)
  {
    QuoteLength(Utf8(secrets[n].value), slash, plus);
    assert f in Quoted(Utf8(secrets[n].value));
    NeedleVanishes(text, secrets, cuts, n, f, at);
  }

  /** and its own base64, in either alphabet, with its padding or without. */
  lemma Base64Vanishes(text: string, secrets: seq<Secret>, cuts: seq<Span>, n: int, url: bool, bare: bool,
                       f: string, at: int)
    requires Exact(text, AllNeedles(secrets), cuts) && 0 <= n < |secrets| && |secrets[n].value| >= 8
    requires f == (if bare then StripPad(Encode(Utf8(secrets[n].value), url)) else Encode(Utf8(secrets[n].value), url))
    requires At(text, f, at)
    ensures InOneCut(cuts, at, at + |f|)
  {
    WholeIsCore(Utf8(secrets[n].value), url);
    NeedlesOfSecret(secrets[n]);
    NeedleVanishes(text, secrets, cuts, n, f, at);
  }

  lemma {:induction false} HexLength(raw: seq<byte>, upper: bool)
    ensures |Hex(raw, upper)| == 2 * |raw|
  {
    if raw != [] {
      HexLength(raw[1..], upper);
    }
  }

  lemma {:induction false} QuoteLength(raw: seq<byte>, slash: bool, plus: bool)
    ensures |Quote(raw, slash, plus)| >= |raw|
  {
    if raw != [] {
      QuoteLength(raw[1..], slash, plus);
    }
  }

  lemma WholeIsCore(raw: seq<byte>, url: bool)
    requires |raw| >= 8
    ensures Encode(raw, url) in Cores(raw, url) && StripPad(Encode(raw, url)) in Cores(raw, url)
  {
    GroupsAreSextets(raw);
    StripPadOfEncode(raw, false);
    StripPadOfEncode(raw, url);
    UrlEncodeIsReplaced(raw);
    if url {
      UrlLetters(Groups(raw));
    }
  }

  lemma UrlLetters(g: seq<int>)
    requires forall j :: 0 <= j < |g| ==> 0 <= g[j] < 64
    ensures Letters(g, true) == UrlSafe(Letters(g, false))
  {
    forall j | 0 <= j < |g| ensures Letters(g, true)[j] == UrlChar(Letters(g, false)[j]) {
      UrlLetter(g[j]);
    }
  }

  /** `f` is a window of twelve characters of the secret, at least five of them different. */
  ghost predicate VariedWindow(value: string, f: string) {
    |set c | c in f| >= 5 && exists i: nat :: i + 12 <= |value| && Occurs(f, value, i) && |f| == 12
  }

  /** `f` is a stretch of the secret's base64, behind at most two zero bytes, that starts with the secret. */
  ghost predicate Base64Piece(raw: seq<byte>, f: string) {
    exists k: nat, i: nat, url :: k < 3 && 6 * i >= 8 * k && Occurs(f, Encode(Zeros(k) + raw, url), i)
  }

  /** `f` reads back to the bytes `raw`. */
  ghost predicate ReadsBack(raw: seq<byte>, f: string) {
    Unhex(f) == raw || Unquote(f, false) == raw || Unquote(f, true) == raw
  }

  /**
   Nothing else is looked for: short secrets not at all, the others as they are, from eight characters
   on in base64, hexadecimal and URL quoting, from sixteen on by their varied windows.
   */
  lemma NothingElseIsLookedFor(sec: Secret, f: string)
    requires f in Needles(sec)
    ensures |sec.value| >= 4 && |f| >= 4
    ensures f == sec.value ||
            (|sec.value| >= 8 && (ReadsBack(Utf8(sec.value), f) || (|f| >= 8 && Base64Piece(Utf8(sec.value), f)))) ||
            (|sec.value| >= 16 && VariedWindow(sec.value, f))
  {
    if f in Grams(sec.value) {
      GramIsWindow(sec.value, f);
    } else if f != sec.value {
      FormIsWritten(sec, f);
    }
  }

  lemma GramIsWindow(value: string, f: string)
    requires f in Grams(value)
    ensures |value| >= 16 && VariedWindow(value, f)
  {
    var i :| 0 <= i <= |value| - GRAM && Varied(Piece(value, i)) && f == Piece(value, i);
    assert |set c | c in f| >= 5;
    assert Occurs(f, value, i);
  }

  lemma FormCases(sec: Secret, raw: seq<byte>, f: string)
    requires f in Forms(sec) && f != sec.value && raw == Utf8(sec.value)
    ensures |sec.value| >= 8
    ensures f in Cores(raw, false) || f in Cores(raw, true) || f in Quoted(raw) || f in {Hex(raw, false), Hex(raw, true)}
  {
    var all := {sec.value} + Cores(raw, false) + Cores(raw, true) + Quoted(raw) + {Hex(raw, false), Hex(raw, true)};
    assert f in all;
    InSomePart(sec.value, Cores(raw, false), Cores(raw, true), Quoted(raw), {Hex(raw, false), Hex(raw, true)}, f);
  }

  lemma InSomePart(value: string, a: set<string>, b: set<string>, c: set<string>, d: set<string>, f: string)
    requires f in {value} + a + b + c + d
    ensures f == value || f in a || f in b || f in c || f in d
  {
  }

  lemma FormIsWritten(sec: Secret, f: string)
    requires f in Forms(sec) && f != sec.value
    ensures |sec.value| >= 8 && (ReadsBack(Utf8(sec.value), f) || (|f| >= 8 && Base64Piece(Utf8(sec.value), f)))
  {
    var raw := Utf8(sec.value);
    FormCases(sec, raw, f);
    if f in Cores(raw, false) {
      CoreIsPiece(raw, false, f);
    } else if f in Cores(raw, true) {
      CoreIsPiece(raw, true, f);
    } else {
      WrittenReadsBack(raw, f);
    }
  }

  lemma WrittenReadsBack(raw: seq<byte>, f: string)
    requires f in Quoted(raw) || f in {Hex(raw, false), Hex(raw, true)}
    ensures ReadsBack(raw, f)
  {
    HexReadsBack(raw, false);
    HexReadsBack(raw, true);
    QuoteReadsBack(raw, false, false);
    QuoteReadsBack(raw, true, false);
    QuoteReadsBack(raw, false, true);
  }

  lemma CoreIsPiece(raw: seq<byte>, url: bool, f: string)
    requires f in Cores(raw, url)
    ensures |f| >= 8 && Base64Piece(raw, f)
  {
    var k, i := CoresArePieces(raw, url, f);
  }

  // ---- what the redacted text looks like ----------------------------------------------

  /** Every cut holds a character at least. */
  lemma CutsAreNonEmpty(text: string, secrets: seq<Secret>, cuts: seq<Span>)
    requires Exact(text, AllNeedles(secrets), cuts)
    ensures NonEmpty(cuts)
  {
    forall k | 0 <= k < |cuts| ensures cuts[k].st < cuts[k].en {
      CutStartsInside(text, secrets, cuts, k);
      var j :| 0 <= j < |cuts| && cuts[j].st <= cuts[k].st < cuts[j].en;
      assert j == k;
    }
  }

  lemma CutStartsInside(text: string, secrets: seq<Secret>, cuts: seq<Span>, k: int)
    requires Exact(text, AllNeedles(secrets), cuts) && 0 <= k < |cuts|
    ensures Inside(cuts, cuts[k].st)
  {
    var all, st := AllNeedles(secrets), cuts[k].st;
    assert StartsHit(text, all, st, cuts[k].who);
    var en :| Hit(text, all[cuts[k].who], st, en) && NoLongerHit(text, all, st, en);
    assert text[st..en] in Needles(secrets[cuts[k].who]);
    HitIsCut(text, all, cuts, cuts[k].who, st, en);
  }

  /**
   A redacted text read from left to right: where a cut starts stands the mark of a secret with a longest
   hit there, what a cut covers is gone, and everything else is as it was.
   */
  lemma RedactedTextIsMarked(text: string, secrets: seq<Secret>, cuts: seq<Span>, marks: seq<string>)
    requires Exact(text, AllNeedles(secrets), cuts) && |marks| == |secrets|
    requires forall n :: 0 <= n < |secrets| ==> marks[n] == "[secret:" + secrets[n].name + "]"
    ensures NonEmpty(cuts) && Render(text, Marks(secrets), cuts) == Marked(text, marks, cuts, |text|)
  {
    assert Marks(secrets) == marks;
    CutsAreNonEmpty(text, secrets, cuts);
    RenderIsMarked(text, marks, cuts);
  }
}
