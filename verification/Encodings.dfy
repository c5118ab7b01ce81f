/**
 The ways a secret is written besides base64: UTF-8 bytes, hexadecimal, URL quoting. Each of them
 can be read back.
 */
module Encodings {
  import opened Base64

  // ---- UTF-8 (RFC 3629, section 3) ---------------------------------------------------

  /** `value.encode()`. */
  function Utf8(value: string): (raw: seq<byte>)
    ensures |raw| >= |value|
  {
    if value == "" then [] else Utf8Char(value[0]) + Utf8(value[1..])
  }

  /** One character: the first byte tells how many follow, each of which carries six bits. */
  function Utf8Char(c: char): (raw: seq<byte>)
    ensures |raw| >= 1
  {
    var u := c as int;
    if u < 0x80 then [u]
    else if u < 0x800 then [0xC0 + u / 0x40] + Follow(u)
    else if u < 0x1_0000 then [0xE0 + u / 0x40 / 0x40] + Follow(u / 0x40) + Follow(u)
    else [0xF0 + u / 0x40 / 0x40 / 0x40] + Follow(u / 0x40 / 0x40) + Follow(u / 0x40) + Follow(u)
  }

  function Follow(u: nat): (raw: seq<byte>)
    ensures |raw| == 1 && raw[0] == 0x80 + u % 0x40
  {
    [0x80 + u % 0x40]
  }

  /** Six more bits of a code point, from a byte that follows. */
  function More(u: int, b: int): int {
    u * 0x40 + (b - 0x80)
  }

  /** The code point and the number of bytes of the first character of well-formed UTF-8. */
  function FirstPoint(raw: seq<int>): (int, nat)
    requires raw != []
  {
    if raw[0] < 0xC0 || |raw| < 2 then (raw[0], 1)
    else if raw[0] < 0xE0 || |raw| < 3 then (More(raw[0] - 0xC0, raw[1]), 2)
    else if raw[0] < 0xF0 || |raw| < 4 then (More(More(raw[0] - 0xE0, raw[1]), raw[2]), 3)
    else (More(More(More(raw[0] - 0xF0, raw[1]), raw[2]), raw[3]), 4)
  }

  function Points(raw: seq<int>): seq<int> {
    if raw == [] then []
    else
      var (u, n) := FirstPoint(raw);
      if n > |raw| then [u] else [u] + Points(raw[n..])
  }

  lemma MoreOf(u: nat)
    ensures More(u / 0x40, 0x80 + u % 0x40) == u
  {
  }

  lemma FirstPointOf(c: char, rest: seq<int>)
    ensures FirstPoint(Utf8Char(c) + rest) == (c as int, |Utf8Char(c)|)
  {
    var u := c as int;
    MoreOf(u);
    MoreOf(u / 0x40);
    MoreOf(u / 0x40 / 0x40);
    LeadByte(u);
    var raw: seq<int> := Utf8Char(c);
    assert (raw + rest)[0] == raw[0];
  }

  lemma LeadByte(u: nat)
    requires u < 0x11_0000
    ensures u < 0x800 ==> u / 0x40 < 0x20
    ensures u < 0x1_0000 ==> u / 0x40 / 0x40 < 0x10
    ensures u / 0x40 / 0x40 / 0x40 < 0x08
  {
  }

  /** UTF-8 can be read back: no two secrets share their bytes. */
  lemma {:induction false} Utf8ReadsBack(value: string)
    ensures Points(Utf8(value)) == seq(|value|, i requires 0 <= i < |value| => value[i] as int)
  {
    if value != "" {
      var head, rest := Utf8Char(value[0]), Utf8(value[1..]);
      FirstPointOf(value[0], rest);
      assert (head + rest)[|head|..] == rest;
      Utf8ReadsBack(value[1..]);
    }
  }

  // ---- hexadecimal -------------------------------------------------------------------

  const DIGITS: string := "0123456789abcdef"
  const UPPER_DIGITS: string := "0123456789ABCDEF"

  function Hex(raw: seq<byte>, upper: bool): string {
    if raw == [] then "" else HexByte(raw[0], upper) + Hex(raw[1..], upper)
  }

  function HexByte(b: byte, upper: bool): (s: string)
    ensures |s| == 2
  {
    var digits := if upper then UPPER_DIGITS else DIGITS;
    [digits[b / 16], digits[b % 16]]
  }

  /** The value of a hexadecimal digit of either case. */
  function DigitValue(c: char): int {
    if '0' <= c <= '9' then c as int - '0' as int
    else if 'a' <= c <= 'f' then c as int - 'a' as int + 10
    else if 'A' <= c <= 'F' then c as int - 'A' as int + 10
    else 0
  }

  lemma HexByteReadsBack(b: byte, upper: bool)
    ensures DigitValue(HexByte(b, upper)[0]) * 16 + DigitValue(HexByte(b, upper)[1]) == b
  {
    DigitReadsBack(b / 16, upper);
    DigitReadsBack(b % 16, upper);
  }

  lemma DigitReadsBack(d: int, upper: bool)
    requires 0 <= d < 16
    ensures DigitValue((if upper then UPPER_DIGITS else DIGITS)[d]) == d
  {
  }

  // ---- URL quoting -------------------------------------------------------------------

  /** The bytes that are never quoted: letters, digits, and four marks (section 2.3 of RFC 3986). */
  predicate Unreserved(b: byte) {
    'a' as int <= b <= 'z' as int || 'A' as int <= b <= 'Z' as int || '0' as int <= b <= '9' as int
    || b == '_' as int || b == '.' as int || b == '-' as int || b == '~' as int
  }

  /** `quote` with the slash safe or not, and `quote_plus`, which writes a space as a plus. */
  function Quote(raw: seq<byte>, slash: bool, plus: bool): string {
    if raw == [] then "" else QuoteByte(raw[0], slash, plus) + Quote(raw[1..], slash, plus)
  }

  function QuoteByte(b: byte, slash: bool, plus: bool): string {
    if Unreserved(b) || (slash && b == '/' as int) then [b as char]
    else if plus && b == ' ' as int then "+"
    else "%" + HexByte(b, true)
  }

  /** The three URL forms looked for. */
  function Quoted(raw: seq<byte>): set<string> {
    {Quote(raw, false, false), Quote(raw, true, false), Quote(raw, false, true)}
  }

  function Unquote(s: string, plus: bool): seq<int> {
    if s == "" then []
    else if s[0] == '%' && |s| >= 3 then [DigitValue(s[1]) * 16 + DigitValue(s[2])] + Unquote(s[3..], plus)
    else if plus && s[0] == '+' then [' ' as int] + Unquote(s[1..], plus)
    else [s[0] as int] + Unquote(s[1..], plus)
  }

  lemma UnquoteByte(b: byte, slash: bool, plus: bool, rest: string)
    ensures Unquote(QuoteByte(b, slash, plus) + rest, plus) == [b] + Unquote(rest, plus)
  {
    var q := QuoteByte(b, slash, plus);
    if |q| == 3 {
      HexByteReadsBack(b, true);
      assert (q + rest)[3..] == rest;
    } else {
      assert (q + rest)[1..] == rest;
    }
  }

  /** URL quoting can be read back. */
  lemma {:induction false} QuoteReadsBack(raw: seq<byte>, slash: bool, plus: bool)
    ensures Unquote(Quote(raw, slash, plus), plus) == raw
  {
    if raw != [] {
      UnquoteByte(raw[0], slash, plus, Quote(raw[1..], slash, plus));
      QuoteReadsBack(raw[1..], slash, plus);
    }
  }

  /** What is never quoted, by code. */
  lemma UnreservedExactly(b: byte)
    ensures Unreserved(b) <==>
            0x30 <= b <= 0x39 || 0x41 <= b <= 0x5A || 0x61 <= b <= 0x7A || b in {0x2D, 0x2E, 0x5F, 0x7E}
  {
  }

  /** `quote(v, safe="")`, `quote(v)` and `quote_plus(v)` of one byte. */
  lemma QuotesExactly(b: byte, slash: bool, plus: bool)
    ensures QuoteByte(b, slash, plus) ==
            if Unreserved(b) || (slash && b == 0x2F) then [b as char]
            else if plus && b == 0x20 then "+"
            else ['%', UPPER_DIGITS[b / 16], UPPER_DIGITS[b % 16]]
  {
  }

  // ---- known encodings ---------------------------------------------------------------

  /** The bytes of characters of one, two, three and four bytes (RFC 3629, sections 3 and 7). */
  lemma Utf8Examples()
    ensures Utf8Char('A') == [0x41] && Utf8Char('\U{E9}') == [0xC3, 0xA9]
    ensures Utf8Char('\U{20AC}') == [0xE2, 0x82, 0xAC] && Utf8Char('\U{233B4}') == [0xF0, 0xA3, 0x8E, 0xB4]
  {
  }

  lemma HexExamples()
    ensures HexByte(0xAB, false) == "ab" && HexByte(0xAB, true) == "AB" && HexByte(0x05, false) == "05"
  {
  }

  /** The value of a string of hexadecimal digits, pair by pair. */
  function Unhex(s: string): seq<int> {
    if |s| < 2 then [] else [DigitValue(s[0]) * 16 + DigitValue(s[1])] + Unhex(s[2..])
  }

  /** Hexadecimal can be read back. */
  lemma {:induction false} HexReadsBack(raw: seq<byte>, upper: bool)
    ensures Unhex(Hex(raw, upper)) == raw
  {
    if raw != [] {
      var head, rest := HexByte(raw[0], upper), Hex(raw[1..], upper);
      HexByteReadsBack(raw[0], upper);
      assert (head + rest)[2..] == rest;
      HexReadsBack(raw[1..], upper);
    }
  }
}
