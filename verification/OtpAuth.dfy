/** `otpauth://totp/...` URIs: the exporter, the parser, and the round trip between them. */
module OtpAuth {
  import opened Common
  import opened Text
  import opened Entries
  import B32 = Base32
  import P = Policy

  const MAX_OTP_AUTH_URI_LEN: nat := 4096
  const MAX_QUERY_PAIRS: nat := 64

  datatype OtpAuthError = InvalidUri | InvalidParams

  type Pair = (string, string)

  /** What the program reads from a parsed URL: `scheme`, `host_str`, `path` and `query_pairs`. */
  datatype Url = Url(scheme: string, host: Option<string>, path: string, pairs: seq<Pair>)

  type UrlParser = string -> Option<Url>

  // ------------------------------------------------------------------------------------------
  // URLs of the form otpauth://totp/<segment>?<query>, in the alphabet of RFC 3986
  // ------------------------------------------------------------------------------------------

  const PREFIX: string := "otpauth://totp/"

  /** `pchar` of RFC 3986, section 3.3. */
  predicate IsPathChar(c: char) {
    // '&' to '.' are & ' ( ) * + , - .
    IsAsciiAlphanumeric(c) || '&' <= c <= '.' || c == '%' || c == '_' || c == '~' || c == '!' || c == '$' || c == ';'
    || c == '=' || c == ':' || c == '@'
  }

  /** RFC 3986, section 3.4. */
  predicate IsQueryChar(c: char) { IsPathChar(c) || c == '/' || c == '?' }

  /** Length of a leading dot, plain or escaped. */
  function DotAt(s: string): (n: nat)
    ensures n <= |s|
  {
    if s != "" && s[0] == '.' then 1
    else if |s| >= 3 && s[0] == '%' && s[1] == '2' && (s[2] == 'E' || s[2] == 'e') then 3
    else 0
  }

  /** A "." or ".." segment, which a URL parser resolves away. */
  predicate IsDotSegment(s: string) {
    var n := DotAt(s);
    n > 0 && (n == |s| || (DotAt(s[n..]) > 0 && n + DotAt(s[n..]) == |s|))
  }

  function PlusToSpace(s: string): (r: string)
    ensures |r| == |s| && forall i :: 0 <= i < |s| ==> r[i] == if s[i] == '+' then ' ' else s[i]
  {
    seq(|s|, i requires 0 <= i < |s| => if s[i] == '+' then ' ' else s[i])
  }

  function DecodeComponent(s: string): Option<string> { PercentDecode(PlusToSpace(s)) }

  function DecodePair(piece: string): Option<Pair> {
    var i := IndexOf(piece, '=');
    var k, v := DecodeComponent(piece[..i]), DecodeComponent(if i < |piece| then piece[i + 1..] else "");
    if k.Some? && v.Some? then Some((k.value, v.value)) else None
  }

  /** The pairs of an `application/x-www-form-urlencoded` query; empty pieces are skipped. */
  function DecodePairs(pieces: seq<string>): Option<seq<Pair>> {
    if pieces == [] then Some([])
    else
      var rest := DecodePairs(pieces[1..]);
      if pieces[0] == "" || rest.None? then rest
      else
        var p := DecodePair(pieces[0]);
        if p.None? then None else Some([p.value] + rest.value)
  }

  /** How a URL parser reads a URI of this form; None where this model says nothing. */
  function SplitUri(uri: string): Option<Url> {
    if !(PREFIX <= uri) then None
    else
      var rest := uri[|PREFIX|..];
      var i := IndexOf(rest, '?');
      var segment, query := rest[..i], if i < |rest| then rest[i + 1..] else "";
      var pairs := DecodePairs(Split(query, '&'));
      if pairs.None? || (exists c :: c in segment && !IsPathChar(c)) || (exists c :: c in query && !IsQueryChar(c)) then
        None
      else Some(Url("otpauth", Some("totp"), if IsDotSegment(segment) then "/" else "/" + segment, pairs.value))
  }

  /** A URL parser that reads every URI of the form above as RFC 3986 says; others are left open. */
  ghost predicate Faithful(parser: UrlParser) {
    forall uri :: SplitUri(uri).Some? ==> parser(uri) == SplitUri(uri)
  }

  // ------------------------------------------------------------------------------------------
  // The parser
  // ------------------------------------------------------------------------------------------

  function TrimSlashes(s: string): string {
    if s != "" && s[0] == '/' then TrimSlashes(s[1..]) else s
  }

  function NonEmpty(s: string): Option<string> { if s == "" then None else Some(s) }

  datatype Label = Label(issuer: Option<string>, account: Option<string>, title: string)

  function SplitLabel(caption: string): Label {
    var l := Trim(caption);
    var i := IndexOf(l, ':');
    if i < |l| then
      var issuer := NonEmpty(Trim(l[..i]));
      Label(issuer, NonEmpty(Trim(l[i + 1..])), if issuer.Some? then issuer.value else l)
    else Label(None, None, l)
  }

  predicate IsCyrillic(c: char) { 0x0400 <= c as int <= 0x052F }

  predicate IsGreek(c: char) { 0x0370 <= c as int <= 0x03FF }

  /** ASCII letters or digits beside Cyrillic or Greek ones. */
  predicate MixesScripts(s: string) {
    (exists c :: c in s && IsAsciiAlphanumeric(c)) && exists c :: c in s && (IsCyrillic(c) || IsGreek(c))
  }

  method RejectScriptMixing(s: string) returns (r: Checked)
    ensures r == if MixesScripts(s) then Err(SuspiciousUnicode) else Ok(())
  {
    var hasAsciiAlnum, hasCyrillic, hasGreek := false, false, false;
    for i := 0 to |s|
      invariant hasAsciiAlnum <==> exists c :: c in s[..i] && IsAsciiAlphanumeric(c)
      invariant hasCyrillic <==> exists c :: c in s[..i] && IsCyrillic(c)
      invariant hasGreek <==> exists c :: c in s[..i] && IsGreek(c)
    {
      assert s[..i + 1] == s[..i] + [s[i]];
      if IsAsciiAlphanumeric(s[i]) {
        hasAsciiAlnum := true;
      } else {
        if IsCyrillic(s[i]) { hasCyrillic := true; }
        if IsGreek(s[i]) { hasGreek := true; }
      }
    }
    assert s[..|s|] == s;
    if hasAsciiAlnum && (hasCyrillic || hasGreek) { return Err(SuspiciousUnicode); }
    return Ok(());
  }

  function ParseAlgorithm(s: string): Option<TotpAlgorithm> {
    if s == "SHA1" then Some(Sha1)
    else if s == "SHA256" then Some(Sha256)
    else if s == "SHA512" then Some(Sha512)
    else None
  }

  /** A value the parser accepts under this key. */
  predicate PairOk(p: Pair) {
    && (p.0 == "algorithm" ==> ParseAlgorithm(p.1).Some?)
    && (p.0 == "digits" ==> ParseUint(p.1, 256).Some?)
    && (p.0 == "period" ==> ParseUint(p.1, U32_LIMIT).Some?)
  }

  /** The value of the last pair with key `k`. */
  function LastValue(pairs: seq<Pair>, k: string): Option<string> {
    if pairs == [] then None
    else if pairs[|pairs| - 1].0 == k then Some(pairs[|pairs| - 1].1)
    else LastValue(pairs[..|pairs| - 1], k)
  }

  datatype Params = Params(secret: Option<string>, issuer: Option<string>, algorithm: TotpAlgorithm, digits: u8,
                           period: u32)

  lemma {:induction false} LastValueIsOk(pairs: seq<Pair>, k: string)
    requires forall p :: p in pairs ==> PairOk(p)
    ensures LastValue(pairs, k).Some? ==> PairOk((k, LastValue(pairs, k).value))
  {
    if pairs != [] {
      assert pairs[|pairs| - 1] in pairs && forall p :: p in pairs[..|pairs| - 1] ==> p in pairs;
      LastValueIsOk(pairs[..|pairs| - 1], k);
    }
  }

  /** The parameters a query means: for each key its last value, or its default. */
  function Meaning(pairs: seq<Pair>): Params
    requires forall p :: p in pairs ==> PairOk(p)
  {
    var algorithm, digits := LastValue(pairs, "algorithm"), LastValue(pairs, "digits");
    var period := LastValue(pairs, "period");
    LastValueIsOk(pairs, "algorithm");
    LastValueIsOk(pairs, "digits");
    LastValueIsOk(pairs, "period");
    Params(LastValue(pairs, "secret"), LastValue(pairs, "issuer"),
           if algorithm.Some? then ParseAlgorithm(algorithm.value).value else Sha1,
           if digits.Some? then ParseUint(digits.value, 256).value else 6,
           if period.Some? then ParseUint(period.value, U32_LIMIT).value else 30)
  }

  /** The effect of one more pair. */
  function Step(q: Params, p: Pair): Params
    requires PairOk(p)
  {
    if p.0 == "secret" then q.(secret := Some(p.1))
    else if p.0 == "issuer" then q.(issuer := Some(p.1))
    else if p.0 == "algorithm" then q.(algorithm := ParseAlgorithm(p.1).value)
    else if p.0 == "digits" then q.(digits := ParseUint(p.1, 256).value)
    else if p.0 == "period" then q.(period := ParseUint(p.1, U32_LIMIT).value)
    else q
  }

  lemma LastValueOfMore(pairs: seq<Pair>, p: Pair, k: string)
    ensures LastValue(pairs + [p], k) == if p.0 == k then Some(p.1) else LastValue(pairs, k)
  {
    assert (pairs + [p])[..|pairs|] == pairs;
  }

  lemma MeaningOfMore(pairs: seq<Pair>, p: Pair)
    requires PairOk(p) && forall x :: x in pairs ==> PairOk(x)
    ensures forall x :: x in pairs + [p] ==> PairOk(x)
    ensures Meaning(pairs + [p]) == Step(Meaning(pairs), p)
  {
    LastValueOfMore(pairs, p, "secret");
    LastValueOfMore(pairs, p, "issuer");
    LastValueOfMore(pairs, p, "algorithm");
    LastValueOfMore(pairs, p, "digits");
    LastValueOfMore(pairs, p, "period");
  }

  function ReadQuery(pairs: seq<Pair>): Option<Params> {
    if |pairs| > MAX_QUERY_PAIRS || exists p :: p in pairs && !PairOk(p) then None else Some(Meaning(pairs))
  }

  /** Title, text and secret checks, then the secret itself. */
  function Finish(caption: Label, q: Params): Result<(string, TotpSecret), OtpAuthError> {
    var issuer := if q.issuer.Some? then q.issuer else caption.issuer;
    if q.secret.None? then Err(InvalidParams)
    else
      var totp := TotpSecret(issuer, caption.account, q.secret.value, q.digits, q.period, q.algorithm);
      if DisplayOk(caption.title, issuer, caption.account) && totp.Validate().Ok? then Ok((caption.title, totp))
      else Err(InvalidParams)
  }

  /** Every text shown to the user passes its validator and mixes no scripts. */
  predicate DisplayOk(title: string, issuer: Option<string>, account: Option<string>) {
    && ValidateTitle(title).Ok? && !MixesScripts(title)
    && (account.Some? ==> ValidateUsername(account.value).Ok? && !MixesScripts(account.value))
    && (issuer.Some? ==> ValidateTitle(issuer.value).Ok? && !MixesScripts(issuer.value))
  }

  function Parse(policy: P.PolicyContext, parser: UrlParser, uri: string): Result<(string, TotpSecret), OtpAuthError> {
    if !policy.AllowExposure() then Err(InvalidParams)
    else if uri == "" || Utf8Len(uri) > MAX_OTP_AUTH_URI_LEN then Err(InvalidUri)
    else
      match parser(uri)
      case None => Err(InvalidUri)
      case Some(url) =>
        if url.scheme != "otpauth" || url.host != Some("totp") || TrimSlashes(url.path) == "" then Err(InvalidUri)
        else
          match PercentDecode(TrimSlashes(url.path))
          case None => Err(InvalidUri)
          case Some(caption) =>
            match ReadQuery(url.pairs)
            case None => Err(InvalidParams)
            case Some(q) => Finish(SplitLabel(caption), q)
  }

  method ReadQueryPairs(pairs: seq<Pair>) returns (r: Option<Params>)
    ensures r == ReadQuery(pairs)
  {
    var q := Params(None, None, Sha1, 6, 30);
    var pairsSeen := 0;
    for i := 0 to |pairs|
      invariant pairsSeen == i <= MAX_QUERY_PAIRS
      invariant forall p :: p in pairs[..i] ==> PairOk(p)
      invariant q == Meaning(pairs[..i])
    {
      var (k, v) := pairs[i];
      assert pairs[..i + 1] == pairs[..i] + [pairs[i]];
      if PairOk(pairs[i]) { MeaningOfMore(pairs[..i], pairs[i]); }
      pairsSeen := pairsSeen + 1;
      if pairsSeen > MAX_QUERY_PAIRS { return None; }
      if k == "secret" {
        q := q.(secret := Some(v));
      } else if k == "issuer" {
        q := q.(issuer := Some(v));
      } else if k == "algorithm" {
        if ParseAlgorithm(v).None? { return None; }
        q := q.(algorithm := ParseAlgorithm(v).value);
      } else if k == "digits" {
        if ParseUint(v, 256).None? { return None; }
        q := q.(digits := ParseUint(v, 256).value);
      } else if k == "period" {
        if ParseUint(v, U32_LIMIT).None? { return None; }
        q := q.(period := ParseUint(v, U32_LIMIT).value);
      }
    }
    assert pairs[..|pairs|] == pairs;
    return Some(q);
  }

  method CheckText(s: string, valid: Checked) returns (ok: bool)
    ensures ok <==> valid.Ok? && !MixesScripts(s)
  {
    if valid.Err? { return false; }
    var mixing := RejectScriptMixing(s);
    return mixing.Ok?;
  }

  method ParseTotpOtpauthUri(policy: P.PolicyContext, parser: UrlParser, uri: string)
    returns (r: Result<(string, TotpSecret), OtpAuthError>)
    ensures r == Parse(policy, parser, uri)
  {
    if !policy.AllowExposure() { return Err(InvalidParams); }
    if uri == "" || Utf8Len(uri) > MAX_OTP_AUTH_URI_LEN { return Err(InvalidUri); }
    var parsed := parser(uri);
    if parsed.None? { return Err(InvalidUri); }
    var url := parsed.value;
    if url.scheme != "otpauth" { return Err(InvalidUri); }
    if url.host != Some("totp") { return Err(InvalidUri); }
    var rawPath := TrimSlashes(url.path);
    if rawPath == "" { return Err(InvalidUri); }
    var decoded := PercentDecode(rawPath);
    if decoded.None? { return Err(InvalidUri); }
    var caption := SplitLabel(decoded.value);

    var query := ReadQueryPairs(url.pairs);
    if query.None? { return Err(InvalidParams); }
    var q := query.value;
    if q.secret.None? { return Err(InvalidParams); }
    var issuer := if q.issuer.Some? then q.issuer else caption.issuer;

    var ok := CheckText(caption.title, ValidateTitle(caption.title));
    if !ok { return Err(InvalidParams); }
    if caption.account.Some? {
      ok := CheckText(caption.account.value, ValidateUsername(caption.account.value));
      if !ok { return Err(InvalidParams); }
    }
    if issuer.Some? {
      ok := CheckText(issuer.value, ValidateTitle(issuer.value));
      if !ok { return Err(InvalidParams); }
    }
    var totp := TotpSecret(issuer, caption.account, q.secret.value, q.digits, q.period, q.algorithm);
    if totp.Validate().Err? { return Err(InvalidParams); }
    return Ok((caption.title, totp));
  }

  // ------------------------------------------------------------------------------------------
  // The exporter
  // ------------------------------------------------------------------------------------------

  function AlgorithmName(a: TotpAlgorithm): string {
    match a case Sha1 => "SHA1" case Sha256 => "SHA256" case Sha512 => "SHA512"
  }

  function EncodePair(p: Pair): string { PercentEncode(p.0) + "=" + PercentEncode(p.1) }

  function EncodePairs(pairs: seq<Pair>): (r: seq<string>)
    ensures |r| == |pairs|
  {
    if pairs == [] then [] else [EncodePair(pairs[0])] + EncodePairs(pairs[1..])
  }

  /** `Issuer:Account` if both are there, the title otherwise. */
  function LabelText(title: string, totp: TotpSecret): string {
    if totp.issuer.Some? && totp.accountName.Some? then totp.issuer.value + ":" + totp.accountName.value else title
  }

  function QueryOf(totp: TotpSecret, secret: string): seq<Pair> {
    [("secret", secret), ("algorithm", AlgorithmName(totp.algorithm)), ("digits", ToDecimal(totp.digits)),
     ("period", ToDecimal(totp.periodSecs))]
    + if totp.issuer.Some? then [("issuer", totp.issuer.value)] else []
  }

  /** The secret as the exporter prints it. */
  function Canonical(totp: TotpSecret): TotpSecret
    requires B32.Canonicalize(totp.secretB32).Ok?
  {
    totp.(secretB32 := B32.Canonicalize(totp.secretB32).value)
  }

  function UriOf(text: string, pairs: seq<Pair>): string
    requires pairs != []
  {
    PREFIX + PercentEncode(text) + "?" + Join(EncodePairs(pairs), '&')
  }

  function Export(title: string, totp: TotpSecret): Result<string, OtpAuthError> {
    if totp.Validate().Err? then Err(InvalidParams)
    else
      match B32.Canonicalize(totp.secretB32)
      case Err(_) => Err(InvalidParams)
      case Ok(secret) =>
        Ok(UriOf(LabelText(title, totp), QueryOf(totp, secret)))
  }

  // ------------------------------------------------------------------------------------------
  // Reading an exported URI
  // ------------------------------------------------------------------------------------------

  predicate AllEscaped(s: string) { forall c :: c in s ==> IsEscapedChar(c) }

  lemma ComponentDecodes(s: string)
    ensures AllEscaped(PercentEncode(s)) && DecodeComponent(PercentEncode(s)) == Some(s)
  {
    EscapedAlphabet(Utf8(s));
    var e := PercentEncode(s);
    assert forall i :: 0 <= i < |e| ==> e[i] in e;
    assert PlusToSpace(e) == e;
    PercentRoundTrip(s);
  }

  lemma PairDecodes(p: Pair)
    ensures DecodePair(EncodePair(p)) == Some(p) && EncodePair(p) != ""
    ensures PairAlphabet(EncodePair(p))
  {
    ComponentDecodes(p.0);
    ComponentDecodes(p.1);
    var k, v := PercentEncode(p.0), PercentEncode(p.1);
    assert '=' !in k;
    FirstIndex(k, '=', v);
    assert EncodePair(p) == k + ['='] + v;
    assert EncodePair(p)[..|k|] == k && EncodePair(p)[|k| + 1..] == v;
  }

  lemma {:induction false} PairsDecode(pairs: seq<Pair>)
    ensures DecodePairs(EncodePairs(pairs)) == Some(pairs)
  {
    if pairs != [] {
      PairDecodes(pairs[0]);
      PairsDecode(pairs[1..]);
      assert pairs == [pairs[0]] + pairs[1..];
    }
  }

  predicate PairAlphabet(e: string) { forall c :: c in e ==> IsEscapedChar(c) || c == '=' }

  lemma {:induction false} PairsAlphabet(pairs: seq<Pair>)
    ensures forall e :: e in EncodePairs(pairs) ==> PairAlphabet(e)
  {
    if pairs != [] {
      PairDecodes(pairs[0]);
      PairsAlphabet(pairs[1..]);
    }
  }

  lemma {:induction false} JoinAlphabet(parts: seq<string>)
    requires parts != [] && forall e :: e in parts ==> PairAlphabet(e)
    ensures forall c :: c in Join(parts, '&') ==> IsEscapedChar(c) || c == '=' || c == '&'
  {
    assert parts[0] in parts;
    if |parts| > 1 {
      assert forall e :: e in parts[1..] ==> e in parts;
      JoinAlphabet(parts[1..]);
    }
  }

  /** Splitting the printed query gives back its pairs. */
  lemma {:induction false} QueryRoundTrip(pairs: seq<Pair>)
    requires pairs != []
    ensures var q := Join(EncodePairs(pairs), '&');
            DecodePairs(Split(q, '&')) == Some(pairs)
  {
    PairsDecode(pairs);
    PairsAlphabet(pairs);
    var parts := EncodePairs(pairs);
    forall e | e in parts ensures '&' !in e { assert PairAlphabet(e); }
    SplitInvertsJoin(parts, '&');
  }

  lemma EscapedDot(b: bytes)
    requires b != []
    ensures DotAt(EscapeBytes(b)) == if b[0] == 0x2E then 3 else 0
    ensures b[0] == 0x2E ==> EscapeBytes(b)[3..] == EscapeBytes(b[1..])
  {
    var e, rest := EscapeByte(b[0]), EscapeBytes(b[1..]);
    assert EscapeBytes(b) == e + rest;
    if b[0] == 0x2E {
      assert e == "%2E";
    } else if !Unescaped(b[0]) {
      assert e[0] == '%' && (e[1] != '2' || e[2] != 'E');
    }
  }

  /** An escaped text is a dot segment exactly when the text is "." or "..". */
  lemma EscapedDotSegment(s: string)
    ensures IsDotSegment(PercentEncode(s)) <==> s == "." || s == ".."
  {
    var b := Utf8(s);
    assert Utf8(".") == [0x2E] && Utf8("..") == [0x2E, 0x2E] by {
      assert Utf8(".") == Utf8Char('.') + Utf8("");
      assert ".."[1..] == ".";
    }
    if b != [] {
      EscapedDot(b);
      if b[0] == 0x2E {
        EscapedAlphabet(b[1..]);
        if b[1..] != [] {
          EscapedDot(b[1..]);
          if |b| > 2 { EscapedAlphabet(b[2..]); assert b[1..][1..] == b[2..]; }
        }
        assert IsDotSegment(PercentEncode(s)) <==> b == [0x2E] || b == [0x2E, 0x2E];
      }
    }
    Utf8RoundTrip(s);
    Utf8RoundTrip(".");
    Utf8RoundTrip("..");
  }

  lemma SplitUriOf(segment: string, query: string, pairs: seq<Pair>)
    requires AllEscaped(segment) && DecodePairs(Split(query, '&')) == Some(pairs)
    requires forall c :: c in query ==> IsQueryChar(c)
    ensures SplitUri(PREFIX + segment + "?" + query) ==
              Some(Url("otpauth", Some("totp"), if IsDotSegment(segment) then "/" else "/" + segment, pairs))
  {
    var uri, rest := PREFIX + segment + "?" + query, segment + ['?'] + query;
    assert '?' !in segment;
    FirstIndex(segment, '?', query);
    assert uri == PREFIX + rest;
    assert uri[|PREFIX|..] == rest;
    assert rest[..|segment|] == segment && rest[|segment| + 1..] == query;
    assert forall c :: c in segment ==> IsPathChar(c);
  }

  /** What any faithful URL parser makes of an exported URI. */
  lemma {:induction false} ExportedUrl(parser: UrlParser, title: string, totp: TotpSecret)
    requires Faithful(parser) && Export(title, totp).Ok?
    ensures var text := LabelText(title, totp);
            parser(Export(title, totp).value) ==
              Some(Url("otpauth", Some("totp"), if text == "." || text == ".." then "/" else "/" + PercentEncode(text),
                       QueryOf(totp, B32.Canonicalize(totp.secretB32).value)))
  {
    var text, pairs := LabelText(title, totp), QueryOf(totp, B32.Canonicalize(totp.secretB32).value);
    ComponentDecodes(text);
    QueryRoundTrip(pairs);
    QueryAlphabet(pairs);
    EscapedDotSegment(text);
    SplitUriOf(PercentEncode(text), Join(EncodePairs(pairs), '&'), pairs);
  }

  lemma AsciiConcat(a: string, b: string, c: string, d: string)
    requires IsAscii(a) && IsAscii(b) && IsAscii(c) && IsAscii(d)
    ensures Utf8Len(a + b + c + d) == |a + b + c + d|
  {
    assert forall x :: x in a + b + c + d ==> x in a || x in b || x in c || x in d;
    B32.AsciiLen(a + b + c + d);
  }

  lemma QueryAlphabet(pairs: seq<Pair>)
    requires pairs != []
    ensures forall c :: c in Join(EncodePairs(pairs), '&') ==> IsQueryChar(c)
  {
    PairsAlphabet(pairs);
    JoinAlphabet(EncodePairs(pairs));
  }

  lemma PartsAreAscii(text: string, pairs: seq<Pair>)
    requires pairs != []
    ensures IsAscii(PercentEncode(text)) && IsAscii(Join(EncodePairs(pairs), '&'))
  {
    EscapedAlphabet(Utf8(text));
    QueryAlphabet(pairs);
    var q := Join(EncodePairs(pairs), '&');
    forall c | c in q ensures c as int < 0x80 { assert IsQueryChar(c); }
  }

  lemma UriIsAscii(text: string, pairs: seq<Pair>)
    requires pairs != []
    ensures Utf8Len(UriOf(text, pairs)) == |UriOf(text, pairs)|
  {
    PartsAreAscii(text, pairs);
    assert IsAscii(PREFIX);
    AsciiConcat(PREFIX, PercentEncode(text), "?", Join(EncodePairs(pairs), '&'));
  }

  function ParamsOf(totp: TotpSecret): Params {
    Params(Some(totp.secretB32), totp.issuer, totp.algorithm, totp.digits, totp.periodSecs)
  }

  lemma ReadsBackParams(totp: TotpSecret)
    ensures ReadQuery(QueryOf(totp, totp.secretB32)) == Some(ParamsOf(totp))
  {
    ParseInvertsPrint(totp.digits, 256);
    ParseInvertsPrint(totp.periodSecs, U32_LIMIT);
    var p0, p1: Pair := ("secret", totp.secretB32), ("algorithm", AlgorithmName(totp.algorithm));
    var p2, p3: Pair := ("digits", ToDecimal(totp.digits)), ("period", ToDecimal(totp.periodSecs));
    MeaningOfMore([], p0);
    MeaningOfMore([] + [p0], p1);
    MeaningOfMore([] + [p0] + [p1], p2);
    MeaningOfMore([] + [p0] + [p1] + [p2], p3);
    var q := [] + [p0] + [p1] + [p2] + [p3];
    assert Meaning(q) == ParamsOf(totp.(issuer := None));
    if totp.issuer.Some? {
      MeaningOfMore(q, ("issuer", totp.issuer.value));
      assert QueryOf(totp, totp.secretB32) == q + [("issuer", totp.issuer.value)];
    } else {
      assert QueryOf(totp, totp.secretB32) == q;
    }
  }

  lemma EscapedSegment(text: string)
    ensures TrimSlashes("/" + PercentEncode(text)) == PercentEncode(text) && TrimSlashes("/") == ""
    ensures PercentEncode(text) == "" <==> text == ""
    ensures PercentDecode(PercentEncode(text)) == Some(text)
  {
    var e := PercentEncode(text);
    EscapedAlphabet(Utf8(text));
    assert e != "" ==> e[0] in e;
    assert ("/" + e)[1..] == e && "/"[1..] == "";
    PercentRoundTrip(text);
  }

  /** Parsing an exported URI amounts to splitting the label text and checking the result. */
  lemma {:induction false} ParseOfExport(policy: P.PolicyContext, parser: UrlParser, title: string, totp: TotpSecret)
    requires Faithful(parser) && policy.AllowExposure() && Export(title, totp).Ok?
    ensures var text, uri := LabelText(title, totp), Export(title, totp).value;
            Parse(policy, parser, uri) ==
              if |uri| > MAX_OTP_AUTH_URI_LEN || text == "" || text == "." || text == ".." then Err(InvalidUri)
              else Finish(SplitLabel(text), ParamsOf(Canonical(totp)))
  {
    var uri := Export(title, totp).value;
    ExportedUrl(parser, title, totp);
    UriIsAscii(LabelText(title, totp), QueryOf(totp, Canonical(totp).secretB32));
    ReadsBackParams(Canonical(totp));
    EscapedSegment(LabelText(title, totp));
    assert uri != "" && parser(uri).value.pairs == QueryOf(Canonical(totp), Canonical(totp).secretB32);
  }

  lemma FinishReturns(l: Label, title: string, totp: TotpSecret)
    requires totp.Validate().Ok?
    ensures Finish(l, ParamsOf(totp)) == Ok((title, totp)) <==>
              && l.title == title && l.account == totp.accountName && (totp.issuer.None? ==> l.issuer == None)
              && DisplayOk(title, totp.issuer, totp.accountName)
  {
  }

  // ------------------------------------------------------------------------------------------
  // Labels
  // ------------------------------------------------------------------------------------------

  lemma {:induction false} TrimStartBeforeColon(b: string, e: string)
    ensures TrimStart(b + ":" + e) == TrimStart(b) + ":" + e
  {
    if b != "" && IsWhitespace(b[0]) {
      assert (b + ":" + e)[1..] == b[1..] + ":" + e;
      TrimStartBeforeColon(b[1..], e);
    }
  }

  lemma {:induction false} TrimEndAfterColon(b: string, e: string)
    ensures TrimEnd(b + ":" + e) == b + ":" + TrimEnd(e)
  {
    var s := b + ":" + e;
    if e != "" && IsWhitespace(e[|e| - 1]) {
      assert s[..|s| - 1] == b + ":" + e[..|e| - 1];
      TrimEndAfterColon(b, e[..|e| - 1]);
    }
  }

  lemma {:induction false} TrimStartIsSuffix(s: string, c: char)
    requires c !in s
    ensures c !in TrimStart(s)
  {
    if s != "" && IsWhitespace(s[0]) { TrimStartIsSuffix(s[1..], c); }
  }

  /** A label is cut at its first colon, and each side is trimmed. */
  lemma LabelParts(b: string, e: string)
    requires ':' !in b
    ensures var issuer := Trim(b);
            SplitLabel(b + ":" + e) ==
              Label(NonEmpty(issuer), NonEmpty(Trim(TrimEnd(e))), if issuer == "" then ":" + TrimEnd(e) else issuer)
  {
    TrimAroundColon(b, e);
    TrimStartIsSuffix(b, ':');
    SplitTrimmed(b + ":" + e, TrimStart(b), TrimEnd(e));
    TrimTwice(b);
    if Trim(b) == "" { NoHead(TrimEnd(e)); }
  }

  lemma NoHead(e: string)
    ensures "" + ":" + e == ":" + e
  {
  }

  lemma TrimAroundColon(b: string, e: string)
    ensures Trim(b + ":" + e) == TrimStart(b) + ":" + TrimEnd(e)
  {
    TrimStartBeforeColon(b, e);
    TrimEndAfterColon(TrimStart(b), e);
  }

  lemma SplitTrimmed(text: string, b: string, e: string)
    requires Trim(text) == b + ":" + e && ':' !in b
    ensures SplitLabel(text) ==
              Label(NonEmpty(Trim(b)), NonEmpty(Trim(e)), if Trim(b) == "" then b + ":" + e else Trim(b))
  {
    CutAtColon(b, e);
  }

  lemma CutAtColon(b: string, e: string)
    requires ':' !in b
    ensures var l := b + ":" + e; IndexOf(l, ':') == |b| && l[..|b|] == b && l[|b| + 1..] == e
  {
    FirstIndex(b, ':', e);
  }

  lemma TrimTwice(b: string)
    ensures Trim(TrimStart(b)) == Trim(b) && (Trim(b) == "" <==> TrimStart(b) == "")
  {
    TrimStartLeaves(b);
    KeepsNonWhitespace(TrimStart(b));
  }

  lemma {:induction false} KeepsNonWhitespace(s: string)
    requires s != "" ==> !IsWhitespace(s[0])
    ensures TrimEnd(s) == "" <==> s == ""
  {
    if s != "" && IsWhitespace(s[|s| - 1]) { KeepsNonWhitespace(s[..|s| - 1]); }
  }

  lemma SplitAtColon(s: string)
    requires ':' in s
    ensures var i := IndexOf(s, ':'); i < |s| && s == s[..i] + ":" + s[i + 1..] && ':' !in s[..i]
  {
    SplitAtFirst(s, ':');
  }

  lemma PlainIssuerLabel(iss: string, acc: string)
    requires ':' !in iss
    ensures var l := SplitLabel(iss + ":" + acc);
            (l.title == iss && l.account == Some(acc)) <==> (Untrimmable(iss) && Untrimmable(acc))
    ensures Untrimmable(iss) && Untrimmable(acc) ==> SplitLabel(iss + ":" + acc) == Label(Some(iss), Some(acc), iss)
  {
    LabelParts(iss, acc);
    TrimmedIsUntrimmable(iss);
    TrimmedIsUntrimmable(TrimEnd(acc));
    if Untrimmable(iss) { TrimIsIdentity(iss); }
    if Untrimmable(acc) { TrimIsIdentity(acc); }
  }

  /** A colon inside the issuer moves the cut, and the issuer is lost. */
  lemma ColonIssuerLabel(b: string, r: string, acc: string)
    requires ':' !in b
    ensures SplitLabel(b + ":" + (r + ":" + acc)).title != b + ":" + r
  {
    LabelParts(b, r + ":" + acc);
    TrimTwice(b);
    TrimEndAfterColon(r, acc);
    var title, iss := ":" + (r + ":" + TrimEnd(acc)), b + ":" + r;
    assert title[0] == ':' && |title| == |r| + 2 + |TrimEnd(acc)|;
    assert b != "" ==> iss[0] == b[0] && b[0] in b;
  }

  /** `Issuer:Account` splits back into issuer and account exactly when both are trimmed and the issuer has no colon. */
  lemma IssuerAccountLabel(iss: string, acc: string)
    ensures var l := SplitLabel(iss + ":" + acc);
            (l.title == iss && l.account == Some(acc)) <==> (Untrimmable(iss) && Untrimmable(acc) && ':' !in iss)
    ensures Untrimmable(iss) && Untrimmable(acc) && ':' !in iss ==>
              SplitLabel(iss + ":" + acc) == Label(Some(iss), Some(acc), iss)
  {
    if ':' !in iss {
      PlainIssuerLabel(iss, acc);
    } else {
      ColonInIssuer(iss, acc);
    }
  }

  lemma ColonInIssuer(iss: string, acc: string)
    requires ':' in iss
    ensures SplitLabel(iss + ":" + acc).title != iss
  {
    SplitAtColon(iss);
    var i := IndexOf(iss, ':');
    var b, r := iss[..i], iss[i + 1..];
    Regroup(b + ":" + r, ":", acc);
    Regroup(b + ":", r, ":" + acc);
    Regroup(r, ":", acc);
    ColonIssuerLabel(b, r, acc);
  }

  /** The title and account a label keeps when it is the whole title. */
  predicate TitleCarries(title: string, account: Option<string>) {
    && Trim(title) == title
    && if ':' in title then title[0] == ':' && account == NonEmpty(Trim(title[1..])) else account == None
  }

  lemma TitleLabel(title: string, account: Option<string>)
    ensures var l := SplitLabel(title); (l.title == title && l.account == account) <==> TitleCarries(title, account)
    ensures TitleCarries(title, account) ==> SplitLabel(title).issuer == None
  {
    if ':' in title {
      SplitAtColon(title);
      var i := IndexOf(title, ':');
      var b, e := title[..i], title[i + 1..];
      LabelParts(b, e);
      TrimStartBeforeColon(b, e);
      TrimEndAfterColon(TrimStart(b), e);
      TrimEndLeaves(e);
      TrimStartLeaves(b);
      TrimEndLeaves(TrimStart(b));
    } else {
      TrimKeepsAbsence(title, ':');
      NoIndex(Trim(title), ':');
    }
  }

  lemma TrimKeepsAbsence(s: string, c: char)
    requires c !in s
    ensures c !in Trim(s)
  {
    TrimStartIsSuffix(s, c);
    TrimEndLeaves(TrimStart(s));
  }

  // ------------------------------------------------------------------------------------------
  // The round trip
  // ------------------------------------------------------------------------------------------

  /** With issuer and account, everything comes back, under the issuer as title, exactly when the URI fits, both
      texts are trimmed and valid, and the issuer holds no colon. */
  lemma {:induction false} RoundTripWithAccount(policy: P.PolicyContext, parser: UrlParser, title: string,
                                                totp: TotpSecret)
    requires Faithful(parser) && policy.AllowExposure() && Export(title, totp).Ok?
    requires totp.issuer.Some? && totp.accountName.Some?
    ensures var iss, acc, uri := totp.issuer.value, totp.accountName.value, Export(title, totp).value;
            Parse(policy, parser, uri) == Ok((iss, Canonical(totp))) <==>
              && |uri| <= MAX_OTP_AUTH_URI_LEN
              && Untrimmable(iss) && Untrimmable(acc) && ':' !in iss
              && DisplayOk(iss, Some(iss), Some(acc))
  {
    var iss, acc := totp.issuer.value, totp.accountName.value;
    ParseOfExport(policy, parser, title, totp);
    IssuerAccountLabel(iss, acc);
    B32.CanonicalSecretIsValid(totp);
    LabelIsNoDotSegment(iss, acc);
    FinishReturns(SplitLabel(iss + ":" + acc), iss, Canonical(totp));
  }

  lemma LabelIsNoDotSegment(iss: string, acc: string)
    ensures var text := iss + ":" + acc; text != "" && text != "." && text != ".."
  {
    assert (iss + ":" + acc)[|iss|] == ':';
  }

  /** Without one of them the label is the title, and the whole secret comes back under the same title exactly when
      the URI fits, the title is not a dot segment, and it carries the account. */
  lemma {:induction false} RoundTripByTitle(policy: P.PolicyContext, parser: UrlParser, title: string, totp: TotpSecret)
    requires Faithful(parser) && policy.AllowExposure() && Export(title, totp).Ok?
    requires totp.issuer.None? || totp.accountName.None?
    ensures var uri := Export(title, totp).value;
            Parse(policy, parser, uri) == Ok((title, Canonical(totp))) <==>
              && |uri| <= MAX_OTP_AUTH_URI_LEN
              && title != "" && title != "." && title != ".." && TitleCarries(title, totp.accountName)
              && DisplayOk(title, totp.issuer, totp.accountName)
  {
    ParseOfExport(policy, parser, title, totp);
    TitleLabel(title, totp.accountName);
    B32.CanonicalSecretIsValid(totp);
    FinishReturns(SplitLabel(title), title, Canonical(totp));
  }

  /** A secret without an account keeps a trimmed title that has no colon and is no dot segment. */
  lemma {:induction false} TitleSurvivesWithoutAccount(policy: P.PolicyContext, parser: UrlParser, title: string,
                                                       totp: TotpSecret)
    requires Faithful(parser) && policy.AllowExposure() && Export(title, totp).Ok? && totp.accountName == None
    requires |Export(title, totp).value| <= MAX_OTP_AUTH_URI_LEN
    requires Untrimmable(title) && ':' !in title && title != "." && title != ".."
    requires DisplayOk(title, totp.issuer, None)
    ensures Parse(policy, parser, Export(title, totp).value) == Ok((title, Canonical(totp)))
  {
    TrimIsIdentity(title);
    RoundTripByTitle(policy, parser, title, totp);
  }

  /** An account without an issuer is lost, whatever the title, unless the title starts with a colon. */
  lemma {:induction false} AccountWithoutIssuerIsLost(policy: P.PolicyContext, parser: UrlParser, title: string,
                                                      totp: TotpSecret)
    requires Faithful(parser) && policy.AllowExposure() && Export(title, totp).Ok?
    requires totp.issuer.None? && totp.accountName.Some? && (title == "" || title[0] != ':')
    ensures Parse(policy, parser, Export(title, totp).value) != Ok((title, Canonical(totp)))
  {
    RoundTripByTitle(policy, parser, title, totp);
  }

  /** The exporter fails only on an invalid secret, or one that is all padding. */
  lemma ExportSucceeds(title: string, totp: TotpSecret)
    ensures Export(title, totp).Ok? <==> totp.Validate().Ok? && B32.StripPadding(totp.secretB32) != ""
  {
    if totp.Validate().Ok? { B32.CanonicalSecretIsValid(totp); }
  }

  lemma UriIsUntrimmable(text: string, pairs: seq<Pair>)
    requires pairs != []
    ensures Untrimmable(UriOf(text, pairs))
  {
    QueryEnd(pairs);
    var head, q := PREFIX + PercentEncode(text) + "?", Join(EncodePairs(pairs), '&');
    UntrimmableConcat(head, q);
  }

  lemma UntrimmableConcat(head: string, tail: string)
    requires head != "" && !IsWhitespace(head[0]) && tail != "" && !IsWhitespace(tail[|tail| - 1])
    ensures Untrimmable(head + tail)
  {
  }

  lemma NoWhitespaceAtEnd(q: string)
    requires q != "" && forall c :: c in q ==> IsQueryChar(c)
    ensures !IsWhitespace(q[|q| - 1])
  {
    assert q[|q| - 1] in q;
  }

  lemma QueryEnd(pairs: seq<Pair>)
    requires pairs != []
    ensures var q := Join(EncodePairs(pairs), '&'); q != "" && !IsWhitespace(q[|q| - 1])
  {
    QueryAlphabet(pairs);
    var parts := EncodePairs(pairs);
    assert parts[0] != "" by { PairDecodes(pairs[0]); }
    NoWhitespaceAtEnd(Join(parts, '&'));
  }

  /** An exported URI has nothing to trim. */
  lemma ExportIsUntrimmable(title: string, totp: TotpSecret)
    requires Export(title, totp).Ok?
    ensures Untrimmable(Export(title, totp).value)
  {
    UriIsUntrimmable(LabelText(title, totp), QueryOf(totp, Canonical(totp).secretB32));
  }

  /** Whatever the URI, an accepted one gives a valid title and secret. */
  lemma {:induction false} ParsedSecretsAreValid(policy: P.PolicyContext, parser: UrlParser, uri: string)
    requires Parse(policy, parser, uri).Ok?
    ensures var (title, totp) := Parse(policy, parser, uri).value;
            totp.Validate().Ok? && DisplayOk(title, totp.issuer, totp.accountName)
    ensures uri != "" && Utf8Len(uri) <= MAX_OTP_AUTH_URI_LEN
  {
  }

  // ------------------------------------------------------------------------------------------
  // The text on both sides
  // ------------------------------------------------------------------------------------------

  predicate Plain(s: string) { forall c :: c in s ==> IsAsciiAlphanumeric(c) }

  lemma {:induction false} PieceOfPair(pairs: seq<Pair>, i: nat)
    requires i < |pairs|
    ensures EncodePairs(pairs)[i] == EncodePair(pairs[i])
  {
    if i > 0 { PieceOfPair(pairs[1..], i - 1); }
  }

  /** A piece whose key is plain is `key=value`, the value escaped unless it is plain as well. */
  lemma PieceText(pairs: seq<Pair>, i: nat)
    requires i < |pairs| && Plain(pairs[i].0)
    ensures EncodePairs(pairs)[i] ==
              pairs[i].0 + "=" + if Plain(pairs[i].1) then pairs[i].1 else PercentEncode(pairs[i].1)
  {
    PieceOfPair(pairs, i);
    PlainTextStays(pairs[i].0);
    if Plain(pairs[i].1) { PlainTextStays(pairs[i].1); }
  }

  lemma DecimalIsPlain(n: nat)
    ensures Plain(ToDecimal(n))
  {
    DecimalRoundTrip(n);
  }

  /** The query's pairs in the order printed; keys, algorithm and numbers print as they stand. */
  lemma QueryText(totp: TotpSecret, secret: string)
    ensures var pairs := QueryOf(totp, secret);
            && |pairs| == (if totp.issuer.Some? then 5 else 4)
            && pairs[0] == ("secret", secret)
            && pairs[1].0 == "algorithm"
            && (totp.algorithm.Sha1? ==> pairs[1].1 == "SHA1") && (totp.algorithm.Sha256? ==> pairs[1].1 == "SHA256")
            && (totp.algorithm.Sha512? ==> pairs[1].1 == "SHA512")
            && pairs[2] == ("digits", ToDecimal(totp.digits)) && pairs[3] == ("period", ToDecimal(totp.periodSecs))
            && (totp.issuer.Some? ==> pairs[4] == ("issuer", totp.issuer.value))
            && (forall p :: p in pairs ==> Plain(p.0)) && Plain(pairs[1].1) && Plain(pairs[2].1) && Plain(pairs[3].1)
  {
    DecimalIsPlain(totp.digits);
    DecimalIsPlain(totp.periodSecs);
  }

  /** An exported URI is the prefix, the escaped label, and `key=value` pieces joined by ampersands. */
  lemma ExportText(title: string, totp: TotpSecret, i: nat)
    requires Export(title, totp).Ok? && i < |QueryOf(totp, Canonical(totp).secretB32)|
    ensures var pairs := QueryOf(totp, Canonical(totp).secretB32);
            && Export(title, totp).value ==
                 "otpauth://totp/" + PercentEncode(LabelText(title, totp)) + "?" + Join(EncodePairs(pairs), '&')
            && EncodePairs(pairs)[i] ==
                 pairs[i].0 + "=" + if Plain(pairs[i].1) then pairs[i].1 else PercentEncode(pairs[i].1)
  {
    QueryText(totp, Canonical(totp).secretB32);
    assert QueryOf(totp, Canonical(totp).secretB32)[i] in QueryOf(totp, Canonical(totp).secretB32);
    PieceText(QueryOf(totp, Canonical(totp).secretB32), i);
  }

  /** The value of a key is that of its last occurrence. */
  lemma {:induction false} LastOccurrenceCounts(pairs: seq<Pair>, k: string, i: nat)
    requires i < |pairs| && pairs[i].0 == k && forall j :: i < j < |pairs| ==> pairs[j].0 != k
    ensures LastValue(pairs, k) == Some(pairs[i].1)
  {
    if i < |pairs| - 1 { LastOccurrenceCounts(pairs[..|pairs| - 1], k, i); }
  }

  lemma {:induction false} NoOccurrence(pairs: seq<Pair>, k: string)
    requires forall j :: 0 <= j < |pairs| ==> pairs[j].0 != k
    ensures LastValue(pairs, k) == None
  {
    if pairs != [] { NoOccurrence(pairs[..|pairs| - 1], k); }
  }

  /** A query is read exactly when it has at most 64 pairs whose algorithms, digits and periods all parse; a key that
      does
      not occur has its default: SHA1, six digits, thirty seconds. */
  lemma QueryMeaning(pairs: seq<Pair>)
    ensures ReadQuery(pairs).Some? <==>
              && |pairs| <= 64
              && forall p :: p in pairs ==>
                   && (p.0 == "algorithm" ==> p.1 == "SHA1" || p.1 == "SHA256" || p.1 == "SHA512")
                   && (p.0 == "digits" ==> ParseUint(p.1, 256).Some?)
                   && (p.0 == "period" ==> ParseUint(p.1, 0x1_0000_0000).Some?)
    ensures ReadQuery(pairs).Some? ==>
              var q := ReadQuery(pairs).value;
              && q.secret == LastValue(pairs, "secret") && q.issuer == LastValue(pairs, "issuer")
              && (LastValue(pairs, "algorithm") == None ==> q.algorithm == Sha1)
              && (LastValue(pairs, "algorithm").Some? ==>
                    q.algorithm.Sha1? == (LastValue(pairs, "algorithm").value == "SHA1")
                    && q.algorithm.Sha256? == (LastValue(pairs, "algorithm").value == "SHA256"))
              && (LastValue(pairs, "digits") == None ==> q.digits == 6)
              && (LastValue(pairs, "digits").Some? ==>
                  Some(q.digits) == ParseUint(LastValue(pairs, "digits").value, 256))
              && (LastValue(pairs, "period") == None ==> q.period == 30)
              && (LastValue(pairs, "period").Some? ==>
                    Some(q.period) == ParseUint(LastValue(pairs, "period").value, 0x1_0000_0000))
  {
    assert forall p :: p in pairs ==> (PairOk(p) <==>
                   && (p.0 == "algorithm" ==> p.1 == "SHA1" || p.1 == "SHA256" || p.1 == "SHA512")
                   && (p.0 == "digits" ==> ParseUint(p.1, 256).Some?)
                   && (p.0 == "period" ==> ParseUint(p.1, 0x1_0000_0000).Some?));
    if ReadQuery(pairs).Some? {
      LastValueIsOk(pairs, "algorithm");
      LastValueIsOk(pairs, "digits");
      LastValueIsOk(pairs, "period");
    }
  }

  /** What is refused before any parameter is read. */
  lemma ParseRefusals(policy: P.PolicyContext, parser: UrlParser, uri: string)
    ensures policy.outcome.Decoy? || !policy.runtime.NotDebugged? ==> Parse(policy, parser, uri) == Err(InvalidParams)
    ensures policy.AllowExposure() && (uri == "" || Utf8Len(uri) > 4096) ==>
            Parse(policy, parser, uri) == Err(InvalidUri)
    ensures policy.AllowExposure()
            && (parser(uri).None? || parser(uri).value.scheme != "otpauth"
                || parser(uri).value.host != Some("totp")) ==>
              Parse(policy, parser, uri) == Err(InvalidUri)
  {
  }

  /** An exported URI is made of printable characters other than spaces. */
  lemma ExportAlphabet(title: string, totp: TotpSecret)
    requires Export(title, totp).Ok?
    ensures forall c :: c in Export(title, totp).value ==> 0x20 < c as int < 0x7F
  {
    UriAlphabet(LabelText(title, totp), QueryOf(totp, Canonical(totp).secretB32));
  }

  predicate Printable(s: string) { forall c :: c in s ==> 0x20 < c as int < 0x7F }

  lemma PrintableConcat(a: string, b: string, c: string, d: string)
    requires Printable(a) && Printable(b) && Printable(c) && Printable(d)
    ensures Printable(a + b + c + d)
  {
    assert forall x :: x in a + b + c + d ==> x in a || x in b || x in c || x in d;
  }

  lemma UriAlphabet(text: string, pairs: seq<Pair>)
    requires pairs != []
    ensures Printable(UriOf(text, pairs))
  {
    EscapedAlphabet(Utf8(text));
    QueryAlphabet(pairs);
    var q := Join(EncodePairs(pairs), '&');
    forall c | c in q ensures 0x20 < c as int < 0x7F { assert IsQueryChar(c); }
    PrintableConcat(PREFIX, PercentEncode(text), "?", q);
  }

  /** Empty pieces of a query are skipped; a piece without '=' has an empty value; '+' is read as a space. */
  lemma QueryRules(rest: seq<string>, key: string)
    requires Plain(key)
    ensures DecodePairs([""] + rest) == DecodePairs(rest)
    ensures DecodePair(key) == Some((key, ""))
    ensures PlusToSpace("a+b") == "a b"
  {
    assert ([""] + rest)[1..] == rest;
    assert '=' !in key;
    NoIndex(key, '=');
    assert key[..|key|] == key;
    PlainTextStays(key);
    ComponentDecodes(key);
    ComponentDecodes("");
    PlainTextStays("");
  }

  /** ASCII letters or digits may not stand beside Cyrillic (0400 to 052F) or Greek (0370 to 03FF) characters. */
  lemma ScriptsThatMix(s: string)
    ensures MixesScripts(s) <==>
              && (exists c :: c in s && ('0' <= c <= '9' || 'A' <= c <= 'Z' || 'a' <= c <= 'z'))
              && exists c :: c in s && (0x0400 <= c as int <= 0x052F || 0x0370 <= c as int <= 0x03FF)
  {
    if MixesScripts(s) {
      var a :| a in s && IsAsciiAlphanumeric(a);
      var b :| b in s && (IsCyrillic(b) || IsGreek(b));
      assert '0' <= a <= '9' || 'A' <= a <= 'Z' || 'a' <= a <= 'z';
    }
    if a, b :| a in s && b in s && ('0' <= a <= '9' || 'A' <= a <= 'Z' || 'a' <= a <= 'z')
               && (0x0400 <= b as int <= 0x052F || 0x0370 <= b as int <= 0x03FF) {
      assert IsAsciiAlphanumeric(a) && (IsCyrillic(b) || IsGreek(b));
    }
  }

  /** A label and query are accepted exactly when there is a secret, the parameters are valid, and title, account and
      issuer
      pass their validators without mixing scripts; the query's issuer goes before the label's. */
  lemma AcceptedMeans(l: Label, q: Params)
    ensures var issuer := if q.issuer.Some? then q.issuer else l.issuer;
            && (Finish(l, q).Ok? <==>
                  && q.secret.Some?
                  && TotpSecret(issuer, l.account, q.secret.value, q.digits, q.period, q.algorithm).Validate().Ok?
                  && TextError(l.title, 256) == None && !MixesScripts(l.title)
                  && (l.account.Some? ==> TextError(l.account.value, 320) == None && !MixesScripts(l.account.value))
                  && (issuer.Some? ==> TextError(issuer.value, 256) == None && !MixesScripts(issuer.value)))
            && (Finish(l, q).Ok? ==>
                  Finish(l, q).value ==
                    (l.title, TotpSecret(issuer, l.account, q.secret.value, q.digits, q.period, q.algorithm)))
            && (Finish(l, q).Err? ==> Finish(l, q).error == InvalidParams)
  {
    ValidTexts(l.title);
    if l.account.Some? { ValidTexts(l.account.value); }
    if q.issuer.Some? { ValidTexts(q.issuer.value); }
    if l.issuer.Some? { ValidTexts(l.issuer.value); }
  }
}
