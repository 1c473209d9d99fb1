/** The parts of Rust's text handling the program relies on: UTF-8, trimming, splitting, decimals. */
module Text {
  import opened Common

  // --- UTF-8 (RFC 3629) ---

  predicate IsScalar(v: int) { 0 <= v < 0xD800 || 0xE000 <= v < 0x110000 }

  function Utf8Char(c: char): (r: bytes)
    ensures 1 <= |r| <= 4
  {
    var v := c as int;
    if v < 0x80 then [v]
    else if v < 0x800 then [0xC0 + v / 64, 0x80 + v % 64]
    else if v < 0x10000 then [0xE0 + v / 4096, 0x80 + v / 64 % 64, 0x80 + v % 64]
    else [0xF0 + v / 262144, 0x80 + v / 4096 % 64, 0x80 + v / 64 % 64, 0x80 + v % 64]
  }

  function Utf8(s: string): bytes {
    if s == [] then [] else Utf8Char(s[0]) + Utf8(s[1..])
  }

  /** `str::len`. */
  function Utf8Len(s: string): nat {
    if s == [] then 0 else |Utf8Char(s[0])| + Utf8Len(s[1..])
  }

  predicate IsContinuation(b: byte) { 0x80 <= b < 0xC0 }

  /** The first scalar of a byte string and its length in bytes, refusing overlong forms and surrogates. */
  function FirstScalar(b: bytes): Option<(int, nat)>
    requires b != []
  {
    var b0: int := b[0];
    var b1: int := if |b| > 1 then b[1] else 0;
    var b2: int := if |b| > 2 then b[2] else 0;
    if b0 < 0x80 then Some((b0, 1))
    else if 0xC2 <= b0 < 0xE0 && |b| >= 2 && IsContinuation(b[1]) then Some(((b0 - 0xC0) * 64 + (b1 - 0x80), 2))
    else if 0xE0 <= b0 < 0xF0 && |b| >= 3 && IsContinuation(b[1]) && IsContinuation(b[2]) then
      var v := (b0 - 0xE0) * 4096 + (b1 - 0x80) * 64 + (b2 - 0x80);
      if v >= 0x800 && IsScalar(v) then Some((v, 3)) else None
    else if 0xF0 <= b0 < 0xF5 && |b| >= 4 && IsContinuation(b[1]) && IsContinuation(b[2]) && IsContinuation(b[3]) then
      var v := (b0 - 0xF0) * 262144 + (b1 - 0x80) * 4096 + (b2 - 0x80) * 64 + (b[3] - 0x80);
      if v >= 0x10000 && IsScalar(v) then Some((v, 4)) else None
    else None
  }

  function DecodeUtf8(b: bytes): Option<string> {
    if b == [] then Some([])
    else
      match FirstScalar(b)
      case None => None
      case Some((v, n)) =>
        if !IsScalar(v) || n == 0 || n > |b| then None
        else
          match DecodeUtf8(b[n..])
          case None => None
          case Some(rest) => Some([v as char] + rest)
  }

  /** One byte for ASCII, itself; otherwise a lead byte that tells the length, then continuation bytes. */
  lemma Utf8Shape(c: char)
    ensures var r, v := Utf8Char(c), c as int;
            && (v < 0x80 ==> r == [v])
            && (0x80 <= v < 0x800 ==> |r| == 2 && 0xC2 <= r[0] < 0xE0 && IsContinuation(r[1]))
            && (0x800 <= v < 0x1_0000 ==>
                  |r| == 3 && 0xE0 <= r[0] < 0xF0 && IsContinuation(r[1]) && IsContinuation(r[2]))
            && (0x1_0000 <= v ==>
                  |r| == 4 && 0xF0 <= r[0] < 0xF5 && IsContinuation(r[1]) && IsContinuation(r[2])
                    && IsContinuation(r[3]))
  {
  }

  lemma CharDecodes(c: char, rest: bytes)
    ensures FirstScalar(Utf8Char(c) + rest) == Some((c as int, |Utf8Char(c)|))
  {
    if c as int >= 0x10000 { FourByteCharDecodes(c, rest); }
    else if c as int >= 0x800 { ThreeByteCharDecodes(c, rest); }
  }

  lemma ThreeByteCharDecodes(c: char, rest: bytes)
    requires 0x800 <= c as int < 0x10000
    ensures FirstScalar(Utf8Char(c) + rest) == Some((c as int, 3))
  {
    var v := c as int;
    assert IsScalar(v);
    assert v == v / 4096 * 4096 + v / 64 % 64 * 64 + v % 64;
    var b := Utf8Char(c) + rest;
    assert b[0] == 0xE0 + v / 4096 && b[1] == 0x80 + v / 64 % 64 && b[2] == 0x80 + v % 64;
  }

  lemma FourByteCharDecodes(c: char, rest: bytes)
    requires 0x10000 <= c as int
    ensures FirstScalar(Utf8Char(c) + rest) == Some((c as int, 4))
  {
    var v := c as int;
    assert IsScalar(v);
    assert v == v / 262144 * 262144 + v / 4096 % 64 * 4096 + v / 64 % 64 * 64 + v % 64;
    var b := Utf8Char(c) + rest;
    assert b[0] == 0xF0 + v / 262144 && b[1] == 0x80 + v / 4096 % 64;
    assert b[2] == 0x80 + v / 64 % 64 && b[3] == 0x80 + v % 64;
  }

  lemma {:induction false} Utf8RoundTrip(s: string)
    ensures DecodeUtf8(Utf8(s)) == Some(s)
  {
    if s != [] {
      CharDecodes(s[0], Utf8(s[1..]));
      assert Utf8(s)[|Utf8Char(s[0])|..] == Utf8(s[1..]);
      Utf8RoundTrip(s[1..]);
      assert (s[0] as int) as char == s[0];
      assert s == [s[0]] + s[1..];
    }
  }

  lemma {:induction false} Utf8Concat(s: string, t: string)
    ensures Utf8(s + t) == Utf8(s) + Utf8(t)
  {
    if s == [] {
      assert s + t == t;
    } else {
      assert (s + t)[1..] == s[1..] + t;
      Utf8Concat(s[1..], t);
    }
  }

  lemma {:induction false} Utf8LenIsLength(s: string)
    ensures |Utf8(s)| == Utf8Len(s)
  {
    if s != [] { Utf8LenIsLength(s[1..]); }
  }

  // --- Character classes ---

  /** `char::is_whitespace`. */
  predicate IsWhitespace(c: char) {
    var v := c as int;
    0x09 <= v <= 0x0D || v == 0x20 || v == 0x85 || v == 0xA0 || v == 0x1680 || 0x2000 <= v <= 0x200A
    || v == 0x2028 || v == 0x2029 || v == 0x202F || v == 0x205F || v == 0x3000
  }

  /** The twenty-five White_Space characters of Unicode. */
  lemma WhitespaceCharacters(c: char)
    ensures IsWhitespace(c) <==>
              c as int in {0x09, 0x0A, 0x0B, 0x0C, 0x0D, 0x20, 0x85, 0xA0, 0x1680, 0x2000, 0x2001, 0x2002, 0x2003,
                0x2004,
                           0x2005, 0x2006, 0x2007, 0x2008, 0x2009, 0x200A, 0x2028, 0x2029, 0x202F, 0x205F, 0x3000}
  {
  }

  predicate IsAscii(s: string) { forall c :: c in s ==> c as int < 0x80 }

  predicate IsAsciiDigit(c: char) { '0' <= c <= '9' }

  predicate IsAsciiAlphanumeric(c: char) { IsAsciiDigit(c) || 'A' <= c <= 'Z' || 'a' <= c <= 'z' }

  // --- trim, split_once, split ---

  function TrimStart(s: string): (r: string)
    ensures |r| <= |s|
  {
    if s != [] && IsWhitespace(s[0]) then TrimStart(s[1..]) else s
  }

  function TrimEnd(s: string): (r: string)
    ensures |r| <= |s|
  {
    if s != [] && IsWhitespace(s[|s| - 1]) then TrimEnd(s[..|s| - 1]) else s
  }

  function Trim(s: string): string { TrimEnd(TrimStart(s)) }

  /** Nonempty, and neither end is whitespace. */
  predicate Untrimmable(s: string) { s != [] && !IsWhitespace(s[0]) && !IsWhitespace(s[|s| - 1]) }

  lemma TrimIsIdentity(s: string)
    requires Untrimmable(s)
    ensures Trim(s) == s
  {
  }

  lemma {:induction false} TrimStartLeaves(s: string)
    ensures TrimStart(s) == [] || !IsWhitespace(TrimStart(s)[0])
  {
    if s != [] && IsWhitespace(s[0]) { TrimStartLeaves(s[1..]); }
  }

  lemma {:induction false} TrimEndLeaves(s: string)
    ensures TrimEnd(s) <= s && (TrimEnd(s) == [] || !IsWhitespace(TrimEnd(s)[|TrimEnd(s)| - 1]))
  {
    if s != [] && IsWhitespace(s[|s| - 1]) { TrimEndLeaves(s[..|s| - 1]); }
  }

  /** Trimming leaves nothing, or something it would not trim again. */
  lemma TrimmedIsUntrimmable(s: string)
    ensures Trim(s) == [] || Untrimmable(Trim(s))
  {
    TrimStartLeaves(s);
    TrimEndLeaves(TrimStart(s));
  }

  predicate AllWhitespace(s: string) { forall c :: c in s ==> IsWhitespace(c) }

  lemma {:induction false} TrimStartRemoves(s: string) returns (cut: string)
    ensures s == cut + TrimStart(s) && AllWhitespace(cut)
  {
    if s != [] && IsWhitespace(s[0]) {
      cut := TrimStartRemoves(s[1..]);
      cut := [s[0]] + cut;
    } else {
      cut := [];
    }
  }

  lemma {:induction false} TrimEndRemoves(s: string) returns (cut: string)
    ensures s == TrimEnd(s) + cut && AllWhitespace(cut)
  {
    if s != [] && IsWhitespace(s[|s| - 1]) {
      var rest := s[..|s| - 1];
      cut := TrimEndRemoves(rest);
      assert s == rest + [s[|s| - 1]];
      cut := cut + [s[|s| - 1]];
    } else {
      cut := [];
    }
  }

  /** Trimming removes whitespace only. */
  lemma TrimRemovesWhitespace(s: string) returns (before: string, after: string)
    ensures s == before + Trim(s) + after && AllWhitespace(before) && AllWhitespace(after)
  {
    before := TrimStartRemoves(s);
    after := TrimEndRemoves(TrimStart(s));
  }

  /** Position of the first `c`, or the length. */
  function IndexOf(s: string, c: char): (i: nat)
    ensures i <= |s| && (i < |s| ==> s[i] == c) && c !in s[..i]
  {
    if s == [] || s[0] == c then 0
    else
      var i := 1 + IndexOf(s[1..], c);
      assert s[..i] == [s[0]] + s[1..][..i - 1];
      i
  }

  lemma {:induction false} FirstIndex(before: string, c: char, after: string)
    requires c !in before
    ensures IndexOf(before + [c] + after, c) == |before|
  {
    if before != [] {
      assert (before + [c] + after)[1..] == before[1..] + [c] + after;
      FirstIndex(before[1..], c, after);
    }
  }

  lemma NoIndex(s: string, c: char)
    requires c !in s
    ensures IndexOf(s, c) == |s|
  {
  }

  lemma Cut(s: string, i: nat)
    requires i < |s|
    ensures s == s[..i] + [s[i]] + s[i + 1..]
  {
  }

  lemma Present(s: string, c: char)
    requires c in s
    ensures IndexOf(s, c) < |s|
  {
    assert s[..|s|] == s;
  }

  lemma SplitAtFirst(s: string, c: char)
    requires c in s
    ensures var i := IndexOf(s, c); i < |s| && s == s[..i] + [c] + s[i + 1..]
  {
    Present(s, c);
    Cut(s, IndexOf(s, c));
  }

  /** `split` on one character. */
  function Split(s: string, c: char): (parts: seq<string>)
    ensures parts != []
    decreases |s|
  {
    var i := IndexOf(s, c);
    if i == |s| then [s] else [s[..i]] + Split(s[i + 1..], c)
  }

  function Join(parts: seq<string>, c: char): string
    requires parts != []
  {
    if |parts| == 1 then parts[0] else parts[0] + [c] + Join(parts[1..], c)
  }

  lemma {:induction false} SplitInvertsJoin(parts: seq<string>, c: char)
    requires parts != [] && forall p :: p in parts ==> c !in p
    ensures Split(Join(parts, c), c) == parts
  {
    var s := Join(parts, c);
    if |parts| == 1 {
      NoIndex(s, c);
      assert parts == [parts[0]];
    } else {
      FirstIndex(parts[0], c, Join(parts[1..], c));
      assert s[..|parts[0]|] == parts[0] && s[|parts[0]| + 1..] == Join(parts[1..], c);
      SplitInvertsJoin(parts[1..], c);
      assert parts == [parts[0]] + parts[1..];
    }
  }

  // --- Decimal numbers ---

  function Digit(d: nat): char
    requires d < 10
  {
    ('0' as int + d) as char
  }

  function DigitValue(c: char): nat
    requires IsAsciiDigit(c)
  {
    c as int - '0' as int
  }

  /** `to_string` of an unsigned integer. */
  function ToDecimal(n: nat): (s: string)
    ensures s != []
  {
    if n < 10 then [Digit(n)] else ToDecimal(n / 10) + [Digit(n % 10)]
  }

  predicate AllDigits(s: string) { forall c :: c in s ==> IsAsciiDigit(c) }

  function FromDecimal(s: string): nat
    requires AllDigits(s)
  {
    if s == [] then 0 else FromDecimal(s[..|s| - 1]) * 10 + DigitValue(s[|s| - 1])
  }

  /** `parse` of an unsigned integer below `limit`: an optional '+', then at least one digit. */
  function ParseUint(s: string, limit: nat): Option<nat> {
    var digits := if s != [] && s[0] == '+' then s[1..] else s;
    if digits == [] || !AllDigits(digits) || FromDecimal(digits) >= limit then None
    else Some(FromDecimal(digits))
  }

  lemma {:induction false} DecimalRoundTrip(n: nat)
    ensures AllDigits(ToDecimal(n)) && FromDecimal(ToDecimal(n)) == n
  {
    if n >= 10 {
      DecimalRoundTrip(n / 10);
      assert ToDecimal(n)[..|ToDecimal(n)| - 1] == ToDecimal(n / 10);
    }
  }

  lemma ParseInvertsPrint(n: nat, limit: nat)
    requires n < limit
    ensures ParseUint(ToDecimal(n), limit) == Some(n)
  {
    DecimalRoundTrip(n);
    assert ToDecimal(n)[0] in ToDecimal(n);
  }

  /** One sign may stand in front; leading zeros do not matter; anything else is refused, as is a number out of range.
      */
  lemma ParseRules(s: string, limit: nat)
    ensures s != "" && s[0] != '+' ==> ParseUint("+" + s, limit) == ParseUint(s, limit)
    ensures s != "" && AllDigits(s) ==> ParseUint("0" + s, limit) == ParseUint(s, limit)
    ensures s == "" || (s[0] != '+' && !AllDigits(s)) ==> ParseUint(s, limit) == None
    ensures s != "" && AllDigits(s) ==> (ParseUint(s, limit).Some? <==> FromDecimal(s) < limit)
  {
    assert ("+" + s)[1..] == s;
    if s != "" && AllDigits(s) {
      assert s[0] in s;
      LeadingZero(s);
      forall c | c in "0" + s ensures IsAsciiDigit(c) {}
    }
  }

  lemma {:induction false} LeadingZero(s: string)
    requires AllDigits(s)
    ensures AllDigits("0" + s) && FromDecimal("0" + s) == FromDecimal(s)
  {
    forall c | c in "0" + s ensures IsAsciiDigit(c) {}
    if s == "" {
      assert "0" + s == "0" && "0"[..0] == "";
    } else {
      var front := s[..|s| - 1];
      forall c | c in front ensures IsAsciiDigit(c) {}
      LeadingZero(front);
      assert ("0" + s)[..|s|] == "0" + front;
    }
  }

  lemma DecimalExamples()
    ensures ToDecimal(6) == "6" && ToDecimal(30) == "30" && ToDecimal(120) == "120"
  {
    assert ToDecimal(12) == "12";
  }

  // --- Percent-encoding (RFC 3986, section 2.1) of everything but ASCII letters and digits ---

  function Hex(d: nat): char
    requires d < 16
  {
    if d < 10 then ('0' as int + d) as char else ('A' as int + (d - 10)) as char
  }

  function HexValue(c: char): Option<nat> {
    if IsAsciiDigit(c) then Some(c as int - '0' as int)
    else if 'A' <= c <= 'F' then Some(c as int - 'A' as int + 10)
    else if 'a' <= c <= 'f' then Some(c as int - 'a' as int + 10)
    else None
  }

  predicate Unescaped(b: byte) { b < 0x80 && IsAsciiAlphanumeric(b as char) }

  function EscapeByte(b: byte): string {
    if Unescaped(b) then [b as char] else ['%', Hex(b / 16), Hex(b % 16)]
  }

  function EscapeBytes(b: bytes): string {
    if b == [] then [] else EscapeByte(b[0]) + EscapeBytes(b[1..])
  }

  /** `utf8_percent_encode` with NON_ALPHANUMERIC. */
  function PercentEncode(s: string): string { EscapeBytes(Utf8(s)) }

  /** `percent_decode_str`: a '%' not followed by two hex digits stands for itself. */
  function PercentBytes(s: string): bytes {
    if s == [] then []
    else if s[0] == '%' && |s| >= 3 && HexValue(s[1]).Some? && HexValue(s[2]).Some? then
      [HexValue(s[1]).value * 16 + HexValue(s[2]).value] + PercentBytes(s[3..])
    else Utf8Char(s[0]) + PercentBytes(s[1..])
  }

  function PercentDecode(s: string): Option<string> { DecodeUtf8(PercentBytes(s)) }

  lemma {:induction false} EscapedBytesDecode(b: bytes)
    ensures PercentBytes(EscapeBytes(b)) == b
  {
    if b != [] {
      EscapedBytesDecode(b[1..]);
      var e, rest := EscapeByte(b[0]), EscapeBytes(b[1..]);
      assert (e + rest)[|e|..] == rest;
      assert b == [b[0]] + b[1..];
      if Unescaped(b[0]) { assert Utf8Char(e[0]) == [b[0]]; }
    }
  }

  lemma PercentRoundTrip(s: string)
    ensures PercentDecode(PercentEncode(s)) == Some(s)
  {
    EscapedBytesDecode(Utf8(s));
    Utf8RoundTrip(s);
  }

  /** Letters and digits stand for themselves, every other byte for '%' and two upper-case hexadecimal digits. */
  lemma {:induction false} PlainTextStays(s: string)
    requires forall c :: c in s ==> IsAsciiAlphanumeric(c)
    ensures PercentEncode(s) == s
  {
    if s != [] {
      assert s[0] in s && forall c :: c in s[1..] ==> c in s;
      PlainTextStays(s[1..]);
      assert Utf8(s) == [s[0] as int] + Utf8(s[1..]);
      assert EscapeBytes(Utf8(s)) == EscapeByte(s[0] as int) + EscapeBytes(Utf8(s[1..]));
      assert s == [s[0]] + s[1..];
    }
  }

  /** Hexadecimal digits are read in either case. */
  lemma HexDigits(d: nat)
    requires d < 16
    ensures HexValue(Hex(d)) == Some(d)
    ensures d >= 10 ==> HexValue((Hex(d) as int + 32) as char) == Some(d)
  {
  }

  lemma EscapeExamples()
    ensures EscapeByte(0x3A) == "%3A" && EscapeByte(0x20) == "%20" && EscapeByte(0xC3) == "%C3"
            && EscapeByte(0x7E) == "%7E"
  {
  }

  predicate IsEscapedChar(c: char) { IsAsciiAlphanumeric(c) || c == '%' }

  lemma {:induction false} EscapedAlphabet(b: bytes)
    ensures forall c :: c in EscapeBytes(b) ==> IsEscapedChar(c)
    ensures b != [] ==> EscapeBytes(b) != []
  {
    if b != [] { EscapedAlphabet(b[1..]); }
  }
}
