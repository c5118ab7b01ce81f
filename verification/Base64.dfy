/**
 Base64 (sections 4 and 5 of RFC 4648) and the pieces of an encoding that depend on a
 secret only, whatever surrounds the secret inside a larger encoded blob.
 */
module Base64 {

  type byte = b: int | 0 <= b < 256

  /** The alphabets of section 4 and, with `url`, of section 5. */
  function Letter(v: int, url: bool): (c: char)
    requires 0 <= v < 64
    ensures c != '='
  {
    if v < 26 then 'A' + v as char
    else if v < 52 then 'a' + (v - 26) as char
    else if v < 62 then '0' + (v - 52) as char
    else if v == 62 then (if url then '-' else '+')
    else (if url then '_' else '/')
  }

  /** The 6-bit groups of one quantum of section 4: 24, 16 or 8 bits, zero bits added on the right. */
  function Quantum(b: seq<byte>): (s: seq<int>)
    requires 1 <= |b| <= 3
    ensures |s| == |b| + 1
    ensures forall j :: 0 <= j < |s| ==> 0 <= s[j] < 64
  {
    if |b| == 1 then [b[0] / 4, b[0] % 4 * 16]
    else if |b| == 2 then [b[0] / 4, b[0] % 4 * 16 + b[1] / 16, b[1] % 16 * 4]
    else [b[0] / 4, b[0] % 4 * 16 + b[1] / 16, b[1] % 16 * 4 + b[2] / 64, b[2] % 64]
  }

  function Groups(b: seq<byte>): (s: seq<int>)
    ensures forall j :: 0 <= j < |s| ==> 0 <= s[j] < 64
  {
    if |b| == 0 then []
    else if |b| <= 3 then Quantum(b)
    else Quantum(b[..3]) + Groups(b[3..])
  }

  function Letters(g: seq<int>, url: bool): (s: string)
    requires forall j :: 0 <= j < |g| ==> 0 <= g[j] < 64
    ensures |s| == |g|
    ensures forall j :: 0 <= j < |g| ==> s[j] == Letter(g[j], url)
  {
    seq(|g|, j requires 0 <= j < |g| => Letter(g[j], url))
  }

  /** Pads a final quantum of one or two bytes to four characters. */
  function Padding(n: nat): string {
    match n % 3 case 0 => "" case 1 => "==" case _ => "="
  }

  function Encode(b: seq<byte>, url: bool): string {
    Letters(Groups(b), url) + Padding(|b|)
  }

  /** `rstrip("=")`. */
  function StripPad(s: string): string {
    if |s| > 0 && s[|s| - 1] == '=' then StripPad(s[..|s| - 1]) else s
  }

  /** `replace("+", "-").replace("/", "_")`. */
  function UrlSafe(s: string): (r: string)
    ensures |r| == |s|
    ensures forall i :: 0 <= i < |s| ==> r[i] == UrlChar(s[i])
  {
    seq(|s|, i requires 0 <= i < |s| => UrlChar(s[i]))
  }

  function UrlChar(c: char): char {
    if c == '+' then '-' else if c == '/' then '_' else c
  }

  // ---- the encoding, character by character ------------------------------------------

  /** How many characters carry data in the encoding of `n` bytes. */
  function DataChars(n: nat): nat {
    (8 * n + 5) / 6
  }

  function ByteAt(b: seq<byte>, i: nat): byte {
    if i < |b| then b[i] else 0
  }

  /** Bits 6j .. 6j+5 of `b`, zero bits after its end. */
  function Sextet(b: seq<byte>, j: nat): (v: int)
    ensures 0 <= v < 64
  {
    var i := j / 4 * 3;
    match j % 4
    case 0 => ByteAt(b, i) / 4
    case 1 => ByteAt(b, i) % 4 * 16 + ByteAt(b, i + 1) / 16
    case 2 => ByteAt(b, i + 1) % 16 * 4 + ByteAt(b, i + 2) / 64
    case _ => ByteAt(b, i + 2) % 64
  }

  lemma QuantumIsSextets(b: seq<byte>, m: nat, j: nat)
    requires 1 <= m <= 3 && m <= |b| && (m == 3 || m == |b|) && j <= m
    ensures Quantum(b[..m])[j] == Sextet(b, j)
  {
    assert j / 4 * 3 == 0 && j % 4 == j;
    assert j == 0 || j == 1 || j == 2 || j == 3;
  }

  lemma {:induction false} GroupsAreSextets(b: seq<byte>)
    ensures |Groups(b)| == DataChars(|b|)
    ensures forall j :: 0 <= j < |Groups(b)| ==> Groups(b)[j] == Sextet(b, j)
  {
    if |b| > 3 {
      var rest := b[3..];
      GroupsAreSextets(rest);
      forall j | 0 <= j < |Groups(b)| ensures Groups(b)[j] == Sextet(b, j) {
        if j >= 4 {
          SextetOfTail(b, j);
        } else {
          QuantumIsSextets(b, 3, j);
        }
      }
    } else if |b| > 0 {
      assert b[..|b|] == b;
      forall j | 0 <= j < |Groups(b)| ensures Groups(b)[j] == Sextet(b, j) {
        QuantumIsSextets(b, |b|, j);
      }
    }
  }

  lemma SextetOfTail(b: seq<byte>, j: nat)
    requires |b| > 3 && j >= 4
    ensures Sextet(b, j) == Sextet(b[3..], j - 4)
  {
    assert j / 4 * 3 == (j - 4) / 4 * 3 + 3 && j % 4 == (j - 4) % 4;
    assert forall m :: m >= 3 ==> ByteAt(b, m) == ByteAt(b[3..], m - 3);
  }

  lemma {:induction false} StripPadKeepsPrefix(s: string, n: nat)
    requires n <= |s|
    requires forall j :: n <= j < |s| ==> s[j] == '='
    requires n == 0 || s[n - 1] != '='
    ensures StripPad(s) == s[..n]
  {
    if |s| == n {
      assert s[..n] == s;
    } else {
      StripPadKeepsPrefix(s[..|s| - 1], n);
      assert s[..|s| - 1][..n] == s[..n];
    }
  }

  /** `rstrip("=")` of an encoding leaves exactly its data characters. */
  lemma StripPadOfEncode(b: seq<byte>, url: bool)
    ensures StripPad(Encode(b, url)) == Letters(Groups(b), url)
  {
    var data := Letters(Groups(b), url);
    StripPadKeepsPrefix(Encode(b, url), |data|);
    assert Encode(b, url)[..|data|] == data;
  }

  // ---- cores -------------------------------------------------------------------------

  /** Python's `enc[first:last]` for 0 <= first. */
  function Slice(s: string, first: nat, last: int): string {
    var hi := if last > |s| then |s| else last;
    if first < hi then s[first..hi] else ""
  }

  /** First character made of `raw` bits only, when `raw` starts at byte `k`. */
  function FirstChar(k: nat): (i: nat)
    ensures i == (8 * k + 5) / 6
  {
    -(-8 * k / 6)
  }

  /** One past the last character made of `raw` bits only. */
  function EndChar(k: nat, n: nat): (i: nat)
    ensures i == 8 * (k + n) / 6
  {
    (8 * (k + n) - 6) / 6 + 1
  }

  function Zeros(k: nat): (z: seq<byte>)
    ensures |z| == k
  {
    seq(k, _ => 0)
  }

  function Core(raw: seq<byte>, k: nat): string {
    Slice(StripPad(Encode(Zeros(k) + raw, false)), FirstChar(k), EndChar(k, |raw|))
  }

  const VARIANT_MIN := 8

  /** Every base64 form looked for; `CoresOf` below computes this set. */
  ghost function Cores(raw: seq<byte>, url: bool): set<string> {
    Replaced(Standard(raw), url)
  }

  /** The three cores, and the whole encoding with and without its padding. */
  ghost function Standard(raw: seq<byte>): set<string> {
    var full := Encode(raw, false);
    {Core(raw, 0), Core(raw, 1), Core(raw, 2), full, StripPad(full)}
  }

  /** The long enough strings of `std`, in the alphabet asked for. */
  function Replaced(std: set<string>, url: bool): set<string> {
    if url then set x | x in std && |x| >= VARIANT_MIN :: UrlSafe(x)
    else set x | x in std && |x| >= VARIANT_MIN
  }

  ghost function LongCores(raw: seq<byte>, k: nat): set<string> {
    if k == 0 then {}
    else LongCores(raw, k - 1) + (if |Core(raw, k - 1)| >= VARIANT_MIN then {Core(raw, k - 1)} else {})
  }

  method CoresOf(raw: seq<byte>, url: bool) returns (out: set<string>)
    ensures out == Cores(raw, url)
  {
    out := {};
    for k := 0 to 3
      invariant out == LongCores(raw, k)
    {
      var enc := StripPad(Encode(Zeros(k) + raw, false));
      var first, end := FirstChar(k), EndChar(k, |raw|);
      var core := Slice(enc, first, end);
      if |core| >= VARIANT_MIN {
        out := out + {core};
      }
    }
    var full := Encode(raw, false);
    CoresFromLoop(raw, url, full, StripPad(full));
    out := Replaced(out + {full, StripPad(full)}, url);
  }

  lemma CoresFromLoop(raw: seq<byte>, url: bool, full: string, bare: string)
    ensures Replaced(LongCores(raw, 3) + {full, bare}, url)
         == Replaced({Core(raw, 0), Core(raw, 1), Core(raw, 2), full, bare}, url)
  {
    assert LongCores(raw, 3) == LongCores(raw, 2) + (if |Core(raw, 2)| >= VARIANT_MIN then {Core(raw, 2)} else {});
    assert LongCores(raw, 2) == LongCores(raw, 1) + (if |Core(raw, 1)| >= VARIANT_MIN then {Core(raw, 1)} else {});
    assert LongCores(raw, 1) == if |Core(raw, 0)| >= VARIANT_MIN then {Core(raw, 0)} else {};
    SameLongStrings(LongCores(raw, 3) + {full, bare},
                    {Core(raw, 0), Core(raw, 1), Core(raw, 2), full, bare}, url);
  }

  lemma SameLongStrings(a: set<string>, b: set<string>, url: bool)
    requires forall x :: |x| >= VARIANT_MIN ==> (x in a <==> x in b)
    ensures Replaced(a, url) == Replaced(b, url)
  {
    assert (set x | x in a && |x| >= VARIANT_MIN) == (set x | x in b && |x| >= VARIANT_MIN);
    assert (set x | x in a && |x| >= VARIANT_MIN :: UrlSafe(x)) == (set x | x in b && |x| >= VARIANT_MIN :: UrlSafe(x));
  }

  ghost predicate Occurs(small: string, big: string, at: nat) {
    at + |small| <= |big| && big[at..at + |small|] == small
  }

  /** A data character whose six bits lie in `raw` is the same after `p` as after `k` zero bytes. */
  lemma SextetShift(p: seq<byte>, raw: seq<byte>, s: seq<byte>, j: nat)
    requires FirstChar(|p| % 3) <= j < EndChar(|p| % 3, |raw|)
    ensures Sextet(p + raw + s, j + |p| / 3 * 4) == Sextet(Zeros(|p| % 3) + raw, j)
  {
    var q, k, n := |p| / 3, |p| % 3, |raw|;
    var big, small := p + raw + s, Zeros(k) + raw;
    assert |p| == 3 * q + k;
    assert (j + q * 4) / 4 * 3 == j / 4 * 3 + 3 * q && (j + q * 4) % 4 == j % 4;
    var i := j / 4 * 3;
    assert forall m :: k <= m < k + n ==> ByteAt(big, m + 3 * q) == ByteAt(small, m);
    assert 8 * k <= 6 * j && 6 * j + 6 <= 8 * (k + n);
    match j % 4
    case 0 => assert k <= i < k + n;
    case 1 => assert k <= i && i + 1 < k + n;
    case 2 => assert k <= i + 1 && i + 2 < k + n;
    case _ => assert k <= i + 2 < k + n;
  }

  lemma CoreShape(raw: seq<byte>, k: nat)
    requires |raw| >= 8 && k < 3
    ensures FirstChar(k) < EndChar(k, |raw|) <= DataChars(k + |raw|)
    ensures |Core(raw, k)| == EndChar(k, |raw|) - FirstChar(k) >= VARIANT_MIN
    ensures forall j :: 0 <= j < |Core(raw, k)| ==>
      Core(raw, k)[j] == Letter(Sextet(Zeros(k) + raw, FirstChar(k) + j), false)
  {
    var b := Zeros(k) + raw;
    GroupsAreSextets(b);
    StripPadOfEncode(b, false);
    assert k == 0 || k == 1 || k == 2;
    assert Core(raw, k) == Letters(Groups(b), false)[FirstChar(k)..EndChar(k, |raw|)];
  }

  /** For at least 8 bytes each of the three cores exists and is one of the forms looked for. */
  lemma CoreExists(raw: seq<byte>, k: nat)
    requires |raw| >= 8 && k < 3
    ensures Core(raw, k) in Cores(raw, false) && UrlSafe(Core(raw, k)) in Cores(raw, true)
  {
    CoreShape(raw, k);
    assert k == 0 || k == 1 || k == 2;
  }

  lemma UrlLetter(v: int)
    requires 0 <= v < 64
    ensures Letter(v, true) == UrlChar(Letter(v, false))
  {
  }

  /** Section 5 of RFC 4648 differs from section 4 by the two replaced letters only. */
  lemma UrlEncodeIsReplaced(b: seq<byte>)
    ensures Encode(b, true) == UrlSafe(Encode(b, false))
  {
    var g := Groups(b);
    forall j | 0 <= j < |g| ensures Letters(g, true)[j] == UrlChar(Letters(g, false)[j]) {
      UrlLetter(g[j]);
    }
  }

  lemma ShiftedEnd(p: nat, n: nat, s: nat)
    ensures EndChar(p % 3, n) + p / 3 * 4 <= DataChars(p + n + s)
  {
    var q, k := p / 3, p % 3;
    assert 8 * (p + n + s) == 24 * q + 8 * (k + n) + 8 * s;
    assert 8 * (k + n) / 6 + 4 * q <= (24 * q + 8 * (k + n) + 8 * s + 5) / 6;
  }

  lemma GroupAt(b: seq<byte>, j: nat)
    requires j < |Groups(b)|
    ensures Groups(b)[j] == Sextet(b, j)
  {
    GroupsAreSextets(b);
  }

  lemma CoreAt(raw: seq<byte>, k: nat, j: nat)
    requires |raw| >= 8 && k < 3 && j < |Core(raw, k)|
    ensures FirstChar(k) + j < EndChar(k, |raw|)
    ensures Core(raw, k)[j] == Letter(Sextet(Zeros(k) + raw, FirstChar(k) + j), false)
  {
    CoreShape(raw, k);
  }

  lemma CoreCharInEncoding(p: seq<byte>, raw: seq<byte>, s: seq<byte>, j: nat)
    requires |raw| >= 8 && j < |Core(raw, |p| % 3)|
    requires FirstChar(|p| % 3) + |p| / 3 * 4 + j < |Groups(p + raw + s)|
    ensures Letter(Groups(p + raw + s)[FirstChar(|p| % 3) + |p| / 3 * 4 + j], false) == Core(raw, |p| % 3)[j]
  {
    CoreAt(raw, |p| % 3, j);
    GroupAt(p + raw + s, FirstChar(|p| % 3) + |p| / 3 * 4 + j);
    SextetShift(p, raw, s, FirstChar(|p| % 3) + j);
  }

  lemma OccursByChars(small: string, big: string, tail: string, at: nat)
    requires at + |small| <= |big|
    requires forall j :: 0 <= j < |small| ==> big[at + j] == small[j]
    ensures Occurs(small, big + tail, at)
  {
    assert (big + tail)[at..at + |small|] == small;
  }

  /**
   Alignment: however a secret is embedded before encoding, the encoded text contains the
   core computed for the alignment of the secret's first byte.
   */
  lemma CoreInsideEncoding(p: seq<byte>, raw: seq<byte>, s: seq<byte>)
    requires |raw| >= 8
    ensures Occurs(Core(raw, |p| % 3), Encode(p + raw + s, false), FirstChar(|p| % 3) + |p| / 3 * 4)
  {
    var core, at := Core(raw, |p| % 3), FirstChar(|p| % 3) + |p| / 3 * 4;
    var g := Groups(p + raw + s);
    CoreFits(p, raw, s);
    forall j | 0 <= j < |core| ensures Letters(g, false)[at + j] == core[j] {
      CoreCharInEncoding(p, raw, s, j);
    }
    OccursByChars(core, Letters(g, false), Padding(|p + raw + s|), at);
  }

  lemma CoreFits(p: seq<byte>, raw: seq<byte>, s: seq<byte>)
    requires |raw| >= 8
    ensures FirstChar(|p| % 3) + |p| / 3 * 4 + |Core(raw, |p| % 3)| <= |Groups(p + raw + s)|
  {
    CoreShape(raw, |p| % 3);
    GroupsAreSextets(p + raw + s);
    ShiftedEnd(|p|, |raw|, |s|);
  }

  lemma UrlCoreInsideEncoding(p: seq<byte>, raw: seq<byte>, s: seq<byte>)
    requires |raw| >= 8
    ensures Occurs(UrlSafe(Core(raw, |p| % 3)), Encode(p + raw + s, true), FirstChar(|p| % 3) + |p| / 3 * 4)
  {
    var core, at := Core(raw, |p| % 3), FirstChar(|p| % 3) + |p| / 3 * 4;
    CoreInsideEncoding(p, raw, s);
    UrlEncodeIsReplaced(p + raw + s);
    assert UrlSafe(Encode(p + raw + s, false))[at..at + |core|] == UrlSafe(core);
  }

  /** The two facts together: the core is one of the forms looked for, and it occurs. */
  lemma CoreInAnyEncoding(p: seq<byte>, raw: seq<byte>, s: seq<byte>, url: bool) returns (core: string)
    requires |raw| >= 8
    ensures core in Cores(raw, url) && |core| >= VARIANT_MIN
    ensures |core| == EndChar(|p| % 3, |raw|) - FirstChar(|p| % 3)
    ensures Occurs(core, Encode(p + raw + s, url), FirstChar(|p| % 3) + |p| / 3 * 4)
  {
    core := if url then UrlSafe(Core(raw, |p| % 3)) else Core(raw, |p| % 3);
    CoreShape(raw, |p| % 3);
    CoreExists(raw, |p| % 3);
    CoreInsideEncoding(p, raw, s);
    UrlCoreInsideEncoding(p, raw, s);
  }

  // ---- known encodings ---------------------------------------------------------------

  /** The alphabets of tables 1 and 2 of RFC 4648: 26 capitals, 26 small letters, 10 digits, two marks. */
  lemma Alphabets(v: int, url: bool)
    requires 0 <= v < 64
    ensures v < 26 ==> Letter(v, url) == "ABCDEFGHIJKLMNOPQRSTUVWXYZ"[v]
    ensures 26 <= v < 52 ==> Letter(v, url) == "abcdefghijklmnopqrstuvwxyz"[v - 26]
    ensures 52 <= v < 62 ==> Letter(v, url) == "0123456789"[v - 52]
    ensures Letter(62, url) == (if url then '-' else '+') && Letter(63, url) == (if url then '_' else '/')
  {
  }

  /** Test vectors of section 10 of RFC 4648: "f", "fo", "foo". */
  lemma TestVectors()
    ensures Encode([0x66], false) == "Zg==" && Encode([0x66, 0x6F], false) == "Zm8="
    ensures Encode([0x66, 0x6F, 0x6F], false) == "Zm9v"
  {
    assert Groups([0x66]) == [25, 32];
    assert Groups([0x66, 0x6F]) == [25, 38, 60];
    assert Groups([0x66, 0x6F, 0x6F]) == [25, 38, 61, 47];
  }

  /** A core starts at the first character and stops after the last that are made of the secret's bits only. */
  lemma CoreIsWhole(k: nat, n: nat)
    requires k < 3 && n >= 8
    ensures 6 * (FirstChar(k) - 1) < 8 * k <= 6 * FirstChar(k)
    ensures 6 * EndChar(k, n) <= 8 * (k + n) < 6 * (EndChar(k, n) + 1)
  {
  }

  lemma StripPadIsPrefix(s: string)
    ensures Occurs(StripPad(s), s, 0)
  {
    if |s| > 0 && s[|s| - 1] == '=' {
      StripPadIsPrefix(s[..|s| - 1]);
    }
  }

  lemma ReplacedFrom(std: set<string>, url: bool, f: string) returns (x: string)
    requires f in Replaced(std, url)
    ensures x in std && |x| >= VARIANT_MIN && f == if url then UrlSafe(x) else x
  {
    if url {
      x :| x in std && |x| >= VARIANT_MIN && f == UrlSafe(x);
    } else {
      x := f;
    }
  }

  lemma CoresArePlaced(raw: seq<byte>, x: string) returns (k: nat, i: nat)
    requires x in Standard(raw) && |x| >= VARIANT_MIN
    ensures k < 3 && 6 * i >= 8 * k && Occurs(x, Encode(Zeros(k) + raw, false), i)
  {
    var full := Encode(raw, false);
    assert Zeros(0) + raw == raw;
    if x == full {
      k, i := 0, 0;
    } else if x == StripPad(full) {
      k, i := 0, 0;
      StripPadIsPrefix(full);
    } else {
      k := if x == Core(raw, 0) then 0 else if x == Core(raw, 1) then 1 else 2;
      i := FirstChar(k);
      CoreIsSlice(raw, k);
    }
  }

  /** Every form looked for is part of the encoding of the secret alone, behind at most two bytes. */
  lemma CoresArePieces(raw: seq<byte>, url: bool, f: string) returns (k: nat, i: nat)
    requires f in Cores(raw, url)
    ensures |f| >= VARIANT_MIN && k < 3 && 6 * i >= 8 * k && Occurs(f, Encode(Zeros(k) + raw, url), i)
  {
    var x := ReplacedFrom(Standard(raw), url, f);
    k, i := CoresArePlaced(raw, x);
    PieceInAlphabet(x, Zeros(k) + raw, i, url);
  }

  lemma CoreIsSlice(raw: seq<byte>, k: nat)
    requires |Core(raw, k)| >= VARIANT_MIN
    ensures Occurs(Core(raw, k), Encode(Zeros(k) + raw, false), FirstChar(k))
  {
    var enc := Encode(Zeros(k) + raw, false);
    StripPadIsPrefix(enc);
  }

  lemma PieceInAlphabet(x: string, b: seq<byte>, i: nat, url: bool)
    requires Occurs(x, Encode(b, false), i)
    ensures Occurs(if url then UrlSafe(x) else x, Encode(b, url), i)
  {
    if url {
      UrlEncodeIsReplaced(b);
    }
  }
}
