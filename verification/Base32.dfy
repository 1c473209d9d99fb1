/** Base32 secrets: the export form and the strict decoder's length arithmetic (RFC 4648, section 6). */
module Base32 {
  import opened Common
  import opened Text
  import opened Entries

  const MAX_SECRET_B32_LEN: nat := 1024
  const MIN_SECRET_RAW_LEN: nat := 16

  datatype TotpError = InvalidParams | InvalidSecret | CryptoFailure

  predicate IsSeparator(c: char) { IsWhitespace(c) || c == '-' }

  function Upper(c: char): char { if 'a' <= c <= 'z' then (c as int - 32) as char else c }

  function KeptChar(c: char): (r: string)
    ensures |r| <= 1
  {
    if IsSeparator(c) then "" else [Upper(c)]
  }

  /** Separators removed, letters in upper case. */
  function Compact(s: string): (r: string)
    ensures |r| <= |s|
  {
    if s == "" then "" else KeptChar(s[0]) + Compact(s[1..])
  }

  lemma CompactStep(s: string, i: nat)
    requires i < |s|
    ensures Compact(s[i..]) == KeptChar(s[i]) + Compact(s[i + 1..])
  {
    assert s[i..][1..] == s[i + 1..];
  }

  function StripPadding(s: string): (r: string)
    ensures r <= s
  {
    if s != "" && s[|s| - 1] == '=' then StripPadding(s[..|s| - 1]) else s
  }

  function Canonicalize(s: string): Result<string, TotpError> {
    if s == "" || Utf8Len(s) > MAX_SECRET_B32_LEN || !IsAscii(s) then Err(InvalidSecret)
    else
      var r := StripPadding(Compact(s));
      if r == "" then Err(InvalidSecret) else Ok(r)
  }

  method KeepAndRaise(secret: string) returns (s: string)
    ensures s == Compact(secret)
  {
    s := "";
    for i := 0 to |secret|
      invariant s + Compact(secret[i..]) == Compact(secret)
    {
      CompactStep(secret, i);
      Regroup(s, KeptChar(secret[i]), Compact(secret[i + 1..]));
      s := s + KeptChar(secret[i]);
    }
  }

  method PopPadding(text: string) returns (s: string)
    ensures s == StripPadding(text)
  {
    s := text;
    while s != "" && s[|s| - 1] == '='
      invariant StripPadding(s) == StripPadding(text)
      decreases |s|
    {
      s := s[..|s| - 1];
    }
  }

  method CanonicalizeBase32ForExport(secret: string) returns (r: Result<string, TotpError>)
    ensures r == Canonicalize(secret)
  {
    if secret == "" || Utf8Len(secret) > MAX_SECRET_B32_LEN { return Err(InvalidSecret); }
    if !IsAscii(secret) { return Err(InvalidSecret); }
    var s := KeepAndRaise(secret);
    s := PopPadding(s);
    if s == "" { return Err(InvalidSecret); }
    return Ok(s);
  }

  /** A character the export form may contain. */
  predicate IsCompactChar(c: char) { !IsSeparator(c) && !('a' <= c <= 'z') && c as int < 0x80 }

  lemma {:induction false} CompactAlphabet(s: string)
    requires IsAscii(s)
    ensures forall c :: c in Compact(s) ==> IsCompactChar(c)
  {
    if s != "" {
      assert s[0] in s && forall c :: c in s[1..] ==> c in s;
      CompactAlphabet(s[1..]);
      assert IsCompactChar(s[0]) || IsSeparator(s[0]) || IsCompactChar(Upper(s[0]));
    }
  }

  lemma {:induction false} CompactKeeps(s: string)
    requires forall c :: c in s ==> IsCompactChar(c)
    ensures Compact(s) == s
  {
    if s != "" {
      assert s[0] in s && forall c :: c in s[1..] ==> c in s;
      CompactKeeps(s[1..]);
      assert s == [s[0]] + s[1..];
    }
  }

  lemma {:induction false} StripLeavesNoPadding(s: string)
    ensures StripPadding(s) == "" || StripPadding(s)[|StripPadding(s)| - 1] != '='
    ensures StripPadding(StripPadding(s)) == StripPadding(s)
  {
    if s != "" && s[|s| - 1] == '=' { StripLeavesNoPadding(s[..|s| - 1]); }
  }

  lemma {:induction false} AsciiLen(s: string)
    requires IsAscii(s)
    ensures Utf8Len(s) == |s|
  {
    if s != "" {
      assert s[0] in s && forall c :: c in s[1..] ==> c in s;
      AsciiLen(s[1..]);
    }
  }

  /** The export form holds no separator, lower case or trailing padding, and is its own export form. */
  lemma CanonicalForm(s: string)
    requires Canonicalize(s).Ok?
    ensures var r := Canonicalize(s).value;
            && r != "" && r[|r| - 1] != '='
            && (forall c :: c in r ==> !IsWhitespace(c) && c != '-' && !('a' <= c <= 'z'))
            && Canonicalize(r) == Ok(r)
  {
    var r := Canonicalize(s).value;
    CompactAlphabet(s);
    assert forall c :: c in r ==> c in Compact(s);
    CompactKeeps(r);
    StripLeavesNoPadding(Compact(s));
    AsciiLen(s);
    AsciiLen(r);
  }

  /** Whitespace and hyphens vanish wherever they stand. */
  lemma SeparatorsVanish(a: string, c: char, b: string)
    requires c == '-' || c == ' ' || 0x09 <= c as int <= 0x0D
    ensures Compact(a + [c] + b) == Compact(a + b)
  {
    CompactInside(a, c, b);
    CompactConcat(a, b);
    Nothing(Compact(a));
  }

  lemma Nothing(s: string)
    ensures s + "" == s
  {
  }

  /** A lower-case letter counts as its upper-case one. */
  lemma LowerCaseCounts(a: string, c: char, b: string)
    requires 'a' <= c <= 'z'
    ensures Compact(a + [c] + b) == Compact(a + [(c as int - 32) as char] + b)
  {
    CompactInside(a, c, b);
    CompactInside(a, (c as int - 32) as char, b);
  }

  /** Every other ASCII character stays in its place. */
  lemma OthersStay(a: string, c: char, b: string)
    requires 0x20 < c as int < 0x80 && c != '-' && !('a' <= c <= 'z')
    ensures Compact(a + [c] + b) == Compact(a) + [c] + Compact(b)
  {
    CompactInside(a, c, b);
  }

  lemma CompactInside(a: string, c: char, b: string)
    ensures Compact(a + [c] + b) == Compact(a) + KeptChar(c) + Compact(b)
  {
    CompactConcat(a + [c], b);
    CompactConcat(a, [c]);
    assert [c][1..] == "";
    assert Compact([c]) == KeptChar(c);
  }

  lemma {:induction false} CompactConcat(a: string, b: string)
    ensures Compact(a + b) == Compact(a) + Compact(b)
  {
    if a == "" {
      assert a + b == b;
    } else {
      assert (a + b)[1..] == a[1..] + b;
      CompactConcat(a[1..], b);
    }
  }

  function Padding(k: nat): string { seq(k, _ => '=') }

  /** What is stripped is padding, all of it. */
  lemma {:induction false} StripsPadding(s: string)
    ensures s == StripPadding(s) + Padding(|s| - |StripPadding(s)|)
  {
    if s != "" && s[|s| - 1] == '=' {
      StripsPadding(s[..|s| - 1]);
      assert s == s[..|s| - 1] + ['='];
    }
  }

  /** The export form exists exactly for nonempty ASCII of at most 1024 characters that holds more than separators and
      final padding. */
  lemma CanonicalizeSucceedsIff(s: string)
    ensures Canonicalize(s).Ok? <==>
              s != "" && Utf8Len(s) <= 1024 && IsAscii(s) && StripPadding(Compact(s)) != ""
    ensures Canonicalize(s).Ok? ==> Canonicalize(s).value == StripPadding(Compact(s))
    ensures Canonicalize(s).Err? ==> Canonicalize(s).error == InvalidSecret
  {
  }

  /** A secret that is valid for a TOTP entry stays valid; only its padding goes. */
  lemma CanonicalSecretIsValid(t: TotpSecret)
    requires t.Validate().Ok?
    ensures Canonicalize(t.secretB32) ==
              if StripPadding(t.secretB32) == "" then Err(InvalidSecret) else Ok(StripPadding(t.secretB32))
    ensures Canonicalize(t.secretB32).Ok? ==> t.(secretB32 := Canonicalize(t.secretB32).value).Validate().Ok?
  {
    var s := t.secretB32;
    CompactKeeps(s) by {
      forall c | c in s ensures IsCompactChar(c) { assert IsBase32(c); }
    }
    var r := StripPadding(s);
    forall c | c in r ensures c in s && IsBase32(c) && c as int < 0x80 {}
    AsciiLen(s);
    AsciiLen(r);
  }

  // --- Strict decoding ---

  predicate AcceptedLength(n: nat) { n % 8 in {0, 2, 4, 5, 7} }

  /** Characters of the unpadded encoding of `raw` bytes: eight fifths, rounded up. */
  function EncodedLen(raw: nat): nat { (8 * raw + 4) / 5 }

  /** The decoder's output buffer for `n` characters: five eighths, rounded up. */
  function BufferLen(n: nat): nat { (n * 5 + 7) / 8 }

  /** `base32` decodes unpadded or padded text of an accepted length to five eighths as many bytes. */
  datatype Decoder = Decoder(unpadded: string -> Option<bytes>, padded: string -> Option<bytes>) {
    ghost predicate Lawful() {
      && (forall s :: unpadded(s).Some? ==> |unpadded(s).value| == |s| * 5 / 8)
      && (forall s :: padded(s).Some? ==> |padded(s).value| == |StripPadding(s)| * 5 / 8)
    }
  }

  function DecodeStrict(decoder: Decoder, s: string): Result<bytes, TotpError> {
    var trimmed := StripPadding(s);
    if s == "" || Utf8Len(s) > MAX_SECRET_B32_LEN || !IsAscii(s) || (exists c :: c in s && !IsBase32(c)) then
      Err(InvalidSecret)
    else if trimmed == "" || '=' in trimmed || !AcceptedLength(|trimmed|) then Err(InvalidSecret)
    else
      match if |trimmed| == |s| then decoder.unpadded(trimmed) else decoder.padded(s)
      case None => Err(InvalidSecret)
      case Some(raw) => if |raw| < MIN_SECRET_RAW_LEN then Err(InvalidSecret) else Ok(raw)
  }

  /** What strict decoding accepts: up to 1024 characters of base32, padded at the end only, of an encoding's length,
      that
      the decoder turns into at least sixteen bytes. */
  lemma StrictSucceedsIff(decoder: Decoder, s: string)
    ensures var text := StripPadding(s);
            var raw := if text == s then decoder.unpadded(s) else decoder.padded(s);
            && (DecodeStrict(decoder, s).Ok? <==>
                  && |s| <= 1024 && text != "" && |text| % 8 != 1 && |text| % 8 != 3 && |text| % 8 != 6
                  && (forall c :: c in text ==> 'A' <= c <= 'Z' || '2' <= c <= '7')
                  && raw.Some? && |raw.value| >= 16)
            && (DecodeStrict(decoder, s).Ok? ==> DecodeStrict(decoder, s).value == raw.value)
            && (DecodeStrict(decoder, s).Err? ==> DecodeStrict(decoder, s).error == InvalidSecret)
  {
    var text := StripPadding(s);
    StripsPadding(s);
    if forall c :: c in text ==> 'A' <= c <= 'Z' || '2' <= c <= '7' {
      forall c | c in s ensures IsBase32(c) && c as int < 0x80 { assert c in text || c == '='; }
      assert '=' !in text;
    } else if '=' !in text {
      var c :| c in text && !('A' <= c <= 'Z' || '2' <= c <= '7');
      assert c in s && !IsBase32(c);
    }
    if IsAscii(s) { AsciiLen(s); }
  }

  /** The accepted lengths are exactly those of unpadded encodings of whole bytes. */
  lemma AcceptedLengthsAreEncodings(n: nat)
    ensures AcceptedLength(n) <==> exists raw: nat :: n == EncodedLen(raw)
  {
    if AcceptedLength(n) { assert n == EncodedLen(n * 5 / 8); }
  }

  /** An accepted secret fits the output buffer, and the 16-byte floor means 26 characters without padding. */
  lemma {:induction false} StrictSecretsAreLongEnough(decoder: Decoder, s: string)
    requires decoder.Lawful() && DecodeStrict(decoder, s).Ok?
    ensures var n := |StripPadding(s)|;
            && |DecodeStrict(decoder, s).value| <= BufferLen(n)
            && n >= 26
            && EncodedLen(|DecodeStrict(decoder, s).value|) == n
  {
    var n := |StripPadding(s)|;
    AcceptedLengthsAreEncodings(n);
    var raw: nat :| n == EncodedLen(raw);
    assert n * 5 / 8 == raw;
  }

  lemma FloorIsTwentySixCharacters(n: nat)
    requires AcceptedLength(n)
    ensures n * 5 / 8 >= MIN_SECRET_RAW_LEN <==> n >= 26
  {
  }
}
