/** TOTP codes: truncation (RFC 4226, section 5.3), time windows (RFC 6238, section 4.2) and printing. */
module TotpEngine {
  import opened Common
  import opened Text
  import opened Base32
  import E = Entries

  const MIN_PERIOD_SECS: nat := 10
  const MAX_PERIOD_SECS: nat := 120
  const MIN_DIGITS: nat := 6
  const MAX_DIGITS: nat := 8

  // ------------------------------------------------------------------------------------------
  // Bit operations on unsigned integers
  // ------------------------------------------------------------------------------------------

  function Pow(b: nat, k: nat): (r: nat)
    ensures b > 0 ==> r > 0
  {
    if k == 0 then 1 else b * Pow(b, k - 1)
  }

  function And(a: nat, b: nat): nat {
    if a == 0 || b == 0 then 0 else 2 * And(a / 2, b / 2) + (if a % 2 == 1 && b % 2 == 1 then 1 else 0)
  }

  function Or(a: nat, b: nat): nat {
    if a == 0 then b
    else if b == 0 then a
    else 2 * Or(a / 2, b / 2) + (if a % 2 == 1 || b % 2 == 1 then 1 else 0)
  }

  /** Left shift of a 32-bit value. */
  function Shl32(a: nat, k: nat): nat { a * Pow(2, k) % U32_LIMIT }

  lemma AndOdd(a: nat, m: nat)
    ensures And(a, 2 * m + 1) == 2 * And(a / 2, m) + a % 2
  {
    assert (2 * m + 1) / 2 == m && (2 * m + 1) % 2 == 1;
  }

  /** Masking with the k low bits is the remainder by 2^k. */
  lemma {:induction false} MaskIsRemainder(a: nat, k: nat)
    ensures And(a, Pow(2, k) - 1) == a % Pow(2, k)
  {
    if k > 0 {
      var p := Pow(2, k - 1);
      MaskIsRemainder(a / 2, k - 1);
      AndOdd(a, p - 1);
      HalfRemainder(a, p);
    }
  }

  lemma HalfRemainder(a: nat, p: nat)
    requires p > 0
    ensures a % (2 * p) == 2 * (a / 2 % p) + a % 2
  {
    var q, r := a / 2 / p, a / 2 % p;
    assert a == 2 * (q * p + r) + a % 2 == q * (2 * p) + (2 * r + a % 2);
    RemainderIs(a, 2 * p, q, 2 * r + a % 2);
  }

  lemma Multiples(d: int, m: int)
    requires m > 0
    ensures d >= 1 ==> d * m >= m
    ensures d <= -1 ==> d * m <= -m
  {
    if d >= 1 { assert (d - 1) * m >= 0; }
    if d <= -1 { assert (d + 1) * m <= 0; }
  }

  lemma RemainderIs(a: nat, m: nat, q: nat, r: nat)
    requires m > 0 && a == q * m + r && r < m
    ensures a % m == r && a / m == q
  {
    var d := a / m - q;
    assert a == a / m * m + a % m;
    assert d * m == r - a % m;
    Multiples(d, m);
  }

  /** Or-ing in low bits below all set bits is addition. */
  lemma {:induction false} OrIsSum(q: nat, k: nat, b: nat)
    requires b < Pow(2, k)
    ensures Or(q * Pow(2, k), b) == q * Pow(2, k) + b
  {
    if k > 0 && q > 0 && b > 0 {
      var p := Pow(2, k - 1);
      var a := q * (2 * p);
      assert a == 2 * (q * p);
      OrIsSum(q, k - 1, b / 2);
    } else {
      assert k == 0 ==> b == 0;
    }
  }

  // ------------------------------------------------------------------------------------------
  // Dynamic truncation
  // ------------------------------------------------------------------------------------------

  function DynamicTruncate(mac: bytes, digits: nat): Result<nat, TotpError> {
    if |mac| < 20 then Err(CryptoFailure)
    else
      var offset := And(mac[|mac| - 1], 0x0f);
      if offset + 4 > |mac| then Err(CryptoFailure)
      else
        var binCode := Or(Or(Or(Shl32(And(mac[offset], 0x7f), 24), Shl32(mac[offset + 1], 16)),
                             Shl32(mac[offset + 2], 8)), mac[offset + 3]);
        if Pow(10, digits) >= U32_LIMIT then Err(InvalidParams) else Ok(binCode % Pow(10, digits))
  }

  /** The value of bytes, most significant first. */
  function BigEndian(s: bytes): nat {
    if s == [] then 0 else BigEndian(s[..|s| - 1]) * 256 + s[|s| - 1]
  }

  lemma FourBytes(s: bytes, a: nat, b: nat, c: nat, d: nat)
    requires |s| == 4 && a == s[0] && b == s[1] && c == s[2] && d == s[3]
    ensures BigEndian(s) == a * 0x1000000 + b * 0x10000 + c * 0x100 + d
  {
    var s3, s2, s1 := s[..3], s[..2], s[..1];
    assert s3[..2] == s2 && s2[..1] == s1 && s1[..0] == [];
    assert BigEndian([]) == 0;
    assert BigEndian(s1) == BigEndian([]) * 256 + a;
    assert BigEndian(s2) == BigEndian(s1) * 256 + b;
    assert BigEndian(s3) == BigEndian(s2) * 256 + c;
    assert BigEndian(s) == BigEndian(s3) * 256 + d;
  }

  lemma Powers()
    ensures Pow(2, 4) == 0x10 && Pow(2, 7) == 0x80 && Pow(2, 8) == 0x100
    ensures Pow(2, 16) == 0x10000 && Pow(2, 24) == 0x1000000
    ensures Pow(10, 6) == 1_000_000 && Pow(10, 7) == 10_000_000 && Pow(10, 8) == 100_000_000
  {
    PowAdds(2, 4, 4);
    PowAdds(2, 8, 8);
    PowAdds(2, 16, 8);
    PowAdds(10, 3, 3);
    assert Pow(2, 4) == 16 && Pow(10, 3) == 1000;
    assert Pow(2, 7) == 2 * Pow(2, 6) && Pow(2, 6) == 2 * Pow(2, 5) && Pow(2, 5) == 2 * Pow(2, 4);
    assert Pow(10, 7) == 10 * Pow(10, 6) && Pow(10, 8) == 10 * Pow(10, 7);
  }

  lemma MultiplyAssociates(a: nat, b: nat, c: nat)
    ensures a * (b * c) == (a * b) * c
  {
  }

  lemma {:induction false} PowAdds(b: nat, j: nat, k: nat)
    ensures Pow(b, j + k) == Pow(b, j) * Pow(b, k)
  {
    if j > 0 {
      PowAdds(b, j - 1, k);
      MultiplyAssociates(b, Pow(b, j - 1), Pow(b, k));
    }
  }

  lemma ShlOfByte(a: nat, k: nat, p: nat)
    requires p == Pow(2, k) && a < 256 && 256 * p <= U32_LIMIT
    ensures Shl32(a, k) == a * p
  {
    assert (255 - a) * p >= 0;
    RemainderIs(a * p, U32_LIMIT, 0, a * p);
  }

  /** Four bytes or-ed together at their places add up. */
  lemma OrOfBytes(h: nat, b: nat, c: nat, d: nat)
    requires h < 256 && b < 256 && c < 256 && d < 256
    ensures Or(Or(Or(h * 0x1000000, b * 0x10000), c * 0x100), d) == h * 0x1000000 + b * 0x10000 + c * 0x100 + d
  {
    Powers();
    OrIsSum(h, 24, b * 0x10000);
    OrIsSum(h * 0x100 + b, 16, c * 0x100);
    OrIsSum(h * 0x10000 + b * 0x100 + c, 8, d);
  }

  /** The shift-and-or of four bytes is their big-endian value without its top bit. */
  lemma {:induction false} ShiftOrIsBigEndian(s: bytes)
    requires |s| == 4
    ensures Or(Or(Or(Shl32(And(s[0], 0x7f), 24), Shl32(s[1], 16)), Shl32(s[2], 8)), s[3]) == BigEndian(s) % 0x8000_0000
  {
    var a: nat, b: nat, c: nat, d: nat := s[0], s[1], s[2], s[3];
    Powers();
    FourBytes(s, a, b, c, d);
    MaskIsRemainder(a, 7);
    var h := a % 0x80;
    ShlOfByte(h, 24, 0x1000000);
    ShlOfByte(b, 16, 0x10000);
    ShlOfByte(c, 8, 0x100);
    OrOfBytes(h, b, c, d);
    RemainderIs(BigEndian(s), 0x8000_0000, a / 0x80, h * 0x1000000 + b * 0x10000 + c * 0x100 + d);
  }

  /** For the three MAC lengths no check fires, and the code is the 31-bit integer at the low-nibble offset. */
  lemma TruncationIsExact(mac: bytes, digits: nat)
    requires |mac| == 20 || |mac| == 32 || |mac| == 64
    requires MIN_DIGITS <= digits <= MAX_DIGITS
    ensures var offset := mac[|mac| - 1] % 16;
            && offset + 4 <= |mac|
            && DynamicTruncate(mac, digits) == Ok(BigEndian(mac[offset..offset + 4]) % 0x8000_0000 % Pow(10, digits))
  {
    Powers();
    MaskIsRemainder(mac[|mac| - 1], 4);
    var offset := mac[|mac| - 1] % 16;
    ShiftOrIsBigEndian(mac[offset..offset + 4]);
  }

  // ------------------------------------------------------------------------------------------
  // Codes
  // ------------------------------------------------------------------------------------------

  /** HMAC (key, message) for each hash. */
  datatype Hmac = Hmac(sha1: (bytes, bytes) -> bytes, sha256: (bytes, bytes) -> bytes,
                       sha512: (bytes, bytes) -> bytes) {
    function Mac(a: E.TotpAlgorithm, key: bytes, msg: bytes): bytes {
      match a case Sha1 => sha1(key, msg) case Sha256 => sha256(key, msg) case Sha512 => sha512(key, msg)
    }

    ghost predicate Lawful() {
      && (forall k, m :: |sha1(k, m)| == 20)
      && (forall k, m :: |sha256(k, m)| == 32)
      && (forall k, m :: |sha512(k, m)| == 64)
    }
  }

  /** `to_be_bytes` of a counter. */
  function ToBe(n: nat, width: nat): bytes {
    if width == 0 then [] else ToBe(n / 256, width - 1) + [n % 256]
  }

  predicate ParamsOk(period: nat, digits: nat) {
    MIN_PERIOD_SECS <= period <= MAX_PERIOD_SECS && MIN_DIGITS <= digits <= MAX_DIGITS
  }

  /** The code of one counter value, for a key, an algorithm and a number of digits. */
  type CodeFn = (bytes, E.TotpAlgorithm, nat, nat) -> Result<nat, TotpError>

  function HmacCodes(hmac: Hmac): CodeFn {
    (key, a, digits, counter) => DynamicTruncate(hmac.Mac(a, key, ToBe(counter, 8)), digits)
  }

  /** Every valid number of digits gives a code of at most so many digits. */
  ghost predicate Proper(codes: CodeFn) {
    forall key, a, digits, c :: MIN_DIGITS <= digits <= MAX_DIGITS ==>
      codes(key, a, digits, c).Ok? && codes(key, a, digits, c).value < Pow(10, digits)
  }

  lemma HmacCodesAreProper(hmac: Hmac)
    requires hmac.Lawful()
    ensures Proper(HmacCodes(hmac))
  {
    forall key, a, digits: nat, c: nat | MIN_DIGITS <= digits <= MAX_DIGITS
      ensures HmacCodes(hmac)(key, a, digits, c).Ok? && HmacCodes(hmac)(key, a, digits, c).value < Pow(10, digits)
    {
      TruncationIsExact(hmac.Mac(a, key, ToBe(c, 8)), digits);
    }
  }

  /** The message is the counter in big-endian order. */
  lemma {:induction false} MessageIsBigEndian(n: nat, width: nat)
    requires n < Pow(256, width)
    ensures |ToBe(n, width)| == width && BigEndian(ToBe(n, width)) == n
  {
    if width > 0 {
      MessageIsBigEndian(n / 256, width - 1);
      assert ToBe(n, width)[..width - 1] == ToBe(n / 256, width - 1);
    }
  }

  lemma EightBytes()
    ensures Pow(256, 8) == U64_LIMIT
  {
    assert Pow(256, 2) == 0x1_0000;
    PowAdds(256, 2, 2);
    PowAdds(256, 4, 4);
  }

  function Counter(time: u64, period: nat): u64
    requires period > 0
  {
    QuotientFits(time, period);
    time / period
  }

  lemma ProductAtLeast(q: nat, p: nat)
    requires p > 0
    ensures q * p >= q
  {
    assert q * (p - 1) == q * p - q;
    assert q * (p - 1) >= 0;
  }

  lemma QuotientFits(t: nat, p: nat)
    requires p > 0
    ensures 0 <= t / p <= t
  {
    ProductAtLeast(t / p, p);
  }

  function GenerateRaw(codes: CodeFn, key: bytes, time: u64, period: nat, digits: nat, a: E.TotpAlgorithm)
    : Result<nat, TotpError>
  {
    if !ParamsOk(period, digits) then Err(InvalidParams) else codes(key, a, digits, Counter(time, period))
  }

  function GenerateFromSecret(codes: CodeFn, decoder: Decoder, totp: E.TotpSecret, time: u64): Result<nat, TotpError> {
    if totp.Validate().Err? || !ParamsOk(totp.periodSecs, totp.digits) then Err(InvalidParams)
    else
      match DecodeStrict(decoder, totp.secretB32)
      case Err(e) => Err(e)
      case Ok(key) => GenerateRaw(codes, key, time, totp.periodSecs, totp.digits, totp.algorithm)
  }

  /** Generation succeeds exactly on a valid secret that the strict decoder takes. */
  lemma GenerationSucceeds(codes: CodeFn, decoder: Decoder, totp: E.TotpSecret, time: u64)
    requires Proper(codes)
    ensures var r := GenerateFromSecret(codes, decoder, totp, time);
            && (r.Ok? <==> totp.Validate().Ok? && DecodeStrict(decoder, totp.secretB32).Ok?)
            && (r.Ok? ==> r.value < Pow(10, totp.digits))
  {
  }

  /** The MAC of a secret's own hash. */
  function MacOf(hmac: Hmac, a: E.TotpAlgorithm, key: bytes, msg: bytes): bytes {
    if a.Sha1? then hmac.sha1(key, msg) else if a.Sha256? then hmac.sha256(key, msg) else hmac.sha512(key, msg)
  }

  /** From secret to code: the 31-bit big-endian integer at the MAC's low-nibble offset, modulo 10^digits, where the MAC
      is taken over the eight bytes whose big-endian value is the number of whole periods. */
  lemma CodeOfSecret(hmac: Hmac, decoder: Decoder, totp: E.TotpSecret, time: u64) returns (msg: bytes)
    requires hmac.Lawful() && totp.Validate().Ok? && DecodeStrict(decoder, totp.secretB32).Ok?
    ensures |msg| == 8 && BigEndian(msg) == time / totp.periodSecs
    ensures var mac := MacOf(hmac, totp.algorithm, DecodeStrict(decoder, totp.secretB32).value, msg);
            && |mac| == (if totp.algorithm.Sha1? then 20 else if totp.algorithm.Sha256? then 32 else 64)
            && var offset := mac[|mac| - 1] % 16;
              && offset + 4 <= |mac|
              && GenerateFromSecret(HmacCodes(hmac), decoder, totp, time) ==
                   Ok(BigEndian(mac[offset..offset + 4]) % 0x8000_0000 % Pow(10, totp.digits))
  {
    var c := Counter(time, totp.periodSecs);
    EightBytes();
    MessageIsBigEndian(c, 8);
    msg := ToBe(c, 8);
    var key := DecodeStrict(decoder, totp.secretB32).value;
    TruncationIsExact(hmac.Mac(totp.algorithm, key, msg), totp.digits);
    GeneratedCode(hmac, decoder, totp, time);
  }

  lemma GeneratedCode(hmac: Hmac, decoder: Decoder, totp: E.TotpSecret, time: u64)
    requires totp.Validate().Ok? && DecodeStrict(decoder, totp.secretB32).Ok?
    ensures GenerateFromSecret(HmacCodes(hmac), decoder, totp, time) ==
              DynamicTruncate(hmac.Mac(totp.algorithm, DecodeStrict(decoder, totp.secretB32).value,
                                       ToBe(Counter(time, totp.periodSecs), 8)), totp.digits)
  {
  }

  /** A raw key gives a code exactly for periods of 10 to 120 seconds and 6 to 8 digits. */
  lemma RawGenerationSucceedsIff(codes: CodeFn, key: bytes, time: u64, period: nat, digits: nat, a: E.TotpAlgorithm)
    requires Proper(codes)
    ensures GenerateRaw(codes, key, time, period, digits, a).Ok? <==> 10 <= period <= 120 && 6 <= digits <= 8
    ensures GenerateRaw(codes, key, time, period, digits, a).Ok? ==>
              GenerateRaw(codes, key, time, period, digits, a) == codes(key, a, digits, time / period)
    ensures GenerateRaw(codes, key, time, period, digits, a).Err? ==>
              GenerateRaw(codes, key, time, period, digits, a) == Err(InvalidParams)
  {
  }

  // ------------------------------------------------------------------------------------------
  // The verification window
  // ------------------------------------------------------------------------------------------

  /** The code of a secret at a counter value. */
  function CodeOf(codes: CodeFn, key: bytes, totp: E.TotpSecret, c: nat): Result<nat, TotpError> {
    codes(key, totp.algorithm, totp.digits, c)
  }

  /** The counters at most `w` from `b`, within 64 bits. */
  predicate Near(b: nat, w: nat, c: nat) { Max(0, b - w) <= c <= Min(U64_LIMIT - 1, b + w) }

  /** Some counter in the window around `b` has this code. */
  predicate InWindow(codes: CodeFn, key: bytes, totp: E.TotpSecret, b: nat, w: nat, code: nat) {
    exists c: nat :: c <= b + w && Near(b, w, c) && CodeOf(codes, key, totp, c) == Ok(code)
  }

  predicate WindowFails(codes: CodeFn, key: bytes, totp: E.TotpSecret, b: nat, w: nat) {
    exists c: nat :: c <= b + w && Near(b, w, c) && CodeOf(codes, key, totp, c).Err?
  }

  /** The counter of pass `i`: saturating at both ends of the 64-bit range. */
  function CounterOf(b: nat, w: nat, i: nat): nat {
    var offset := i - w;
    if offset < 0 then Max(0, b + offset) else Min(U64_LIMIT - 1, b + offset)
  }

  /** Pass `i` visits a counter of the window. */
  lemma PassIsNear(b: u64, w: nat, i: nat)
    requires i <= 2 * w
    ensures Near(b, w, CounterOf(b, w, i))
  {
  }

  /** Some pass visits each counter of the window. */
  lemma NearIsPassed(b: u64, w: nat, c: nat)
    requires Near(b, w, c)
    ensures 0 <= c - b + w <= 2 * w && CounterOf(b, w, c - b + w) == c
  {
  }

  /** One of the first `n` passes has this code. */
  predicate SomePass(codes: CodeFn, key: bytes, totp: E.TotpSecret, b: nat, w: nat, code: nat, n: nat) {
    exists j: nat :: j < n && CodeOf(codes, key, totp, CounterOf(b, w, j)) == Ok(code)
  }

  lemma PassesAreWindow(codes: CodeFn, key: bytes, totp: E.TotpSecret, b: u64, w: nat, code: nat)
    ensures SomePass(codes, key, totp, b, w, code, 2 * w + 1) <==> InWindow(codes, key, totp, b, w, code)
    ensures WindowFails(codes, key, totp, b, w) <==>
              exists j: nat :: j < 2 * w + 1 && CodeOf(codes, key, totp, CounterOf(b, w, j)).Err?
  {
    forall c: nat | Near(b, w, c) ensures 0 <= c - b + w <= 2 * w && CounterOf(b, w, c - b + w) == c {
      NearIsPassed(b, w, c);
    }
    forall i: nat | i <= 2 * w ensures Near(b, w, CounterOf(b, w, i)) {
      PassIsNear(b, w, i);
    }
  }

  ghost predicate OnlyCryptoErrors(codes: CodeFn) {
    forall key, a, digits, c :: MIN_DIGITS <= digits <= MAX_DIGITS && codes(key, a, digits, c).Err? ==>
      codes(key, a, digits, c) == Err(CryptoFailure)
  }

  lemma HmacErrors(hmac: Hmac)
    ensures OnlyCryptoErrors(HmacCodes(hmac))
  {
    Powers();
  }

  method MatchWindow(codes: CodeFn, key: bytes, totp: E.TotpSecret, b: u64, code: u32, window: u8)
    returns (r: Result<bool, TotpError>)
    requires totp.Validate().Ok? && OnlyCryptoErrors(codes)
    ensures r == if WindowFails(codes, key, totp, b, window) then Err(CryptoFailure)
                 else Ok(InWindow(codes, key, totp, b, window, code))
  {
    var anyMatch := false;
    for i := 0 to 2 * window as int + 1
      invariant forall j: nat :: j < i ==> CodeOf(codes, key, totp, CounterOf(b, window, j)).Ok?
      invariant anyMatch <==> SomePass(codes, key, totp, b, window, code, i)
    {
      var counter := CounterOf(b, window, i);
      var expected := CodeOf(codes, key, totp, counter);
      if expected.Err? {
        PassIsNear(b, window, i);
        return Err(expected.error);
      }
      anyMatch := anyMatch || expected.value == code;
    }
    PassesAreWindow(codes, key, totp, b, window, code);
    return Ok(anyMatch);
  }

  method TotpVerify(hmac: Hmac, decoder: Decoder, totp: E.TotpSecret, time: u64, code: u32, window: u8)
    returns (r: Result<bool, TotpError>)
    ensures totp.Validate().Err? || window > 10 ==> r == Err(InvalidParams)
    ensures totp.Validate().Ok? && window <= 10 ==>
              var key, b := DecodeStrict(decoder, totp.secretB32), Counter(time, totp.periodSecs);
              r == if key.Err? then Err(key.error)
                   else if WindowFails(HmacCodes(hmac), key.value, totp, b, window) then Err(CryptoFailure)
                   else Ok(InWindow(HmacCodes(hmac), key.value, totp, b, window, code))
  {
    if totp.Validate().Err? || !ParamsOk(totp.periodSecs, totp.digits) { return Err(InvalidParams); }
    if window > 10 { return Err(InvalidParams); }
    var key := DecodeStrict(decoder, totp.secretB32);
    if key.Err? { return Err(key.error); }
    HmacErrors(hmac);
    r := MatchWindow(HmacCodes(hmac), key.value, totp, Counter(time, totp.periodSecs), code, window);
  }

  /** With a correct HMAC the window never fails. */
  lemma WindowsNeverFail(codes: CodeFn, key: bytes, totp: E.TotpSecret, b: u64, w: nat)
    requires Proper(codes) && totp.Validate().Ok?
    ensures !WindowFails(codes, key, totp, b, w)
  {
  }

  /** The two times are at most `n` periods apart. */
  predicate Within(t: nat, u: nat, n: nat, p: nat) { t <= u + n * p && u <= t + n * p }

  lemma {:induction false} CountersOfTimes(t: nat, u: nat, p: nat, w: nat)
    requires p > 0
    ensures t <= u + w * p ==> t / p <= u / p + w
    ensures t / p <= u / p + w ==> t < u + (w + 1) * p
  {
    var q, s := t / p, u / p;
    assert q * p <= t < q * p + p && s * p <= u < s * p + p;
    Multiples(q - s - w, p);
    assert (q - s - w) * p == q * p - s * p - w * p;
    assert (w + 1) * p == w * p + p;
    Multiples(q - s - w - 1, p);
    assert (q - s - w - 1) * p == q * p - s * p - w * p - p;
  }

  /** Times at most `w` periods apart have counters at most `w` apart; such counters mean less than `w + 1` periods. */
  lemma {:induction false} NearTimes(t: u64, u: u64, p: nat, w: nat)
    requires p > 0
    ensures Within(t, u, w, p) ==> Near(Counter(u, p), w, Counter(t, p))
    ensures Near(Counter(u, p), w, Counter(t, p)) ==> t < u + (w + 1) * p && u < t + (w + 1) * p
  {
    CountersOfTimes(t, u, p, w);
    CountersOfTimes(u, t, p, w);
  }

  /** A code generated at `t` verifies at every time within `w` periods of `t`. */
  lemma CodesVerifyNearby(codes: CodeFn, decoder: Decoder, totp: E.TotpSecret, t: u64, u: u64, w: nat)
    requires GenerateFromSecret(codes, decoder, totp, t).Ok? && Within(t, u, w, totp.periodSecs)
    ensures var key := DecodeStrict(decoder, totp.secretB32).value;
            InWindow(codes, key, totp, Counter(u, totp.periodSecs), w,
                     GenerateFromSecret(codes, decoder, totp, t).value)
  {
    NearTimes(t, u, totp.periodSecs, w);
    var key := DecodeStrict(decoder, totp.secretB32).value;
    assert CodeOf(codes, key, totp, Counter(t, totp.periodSecs)) == GenerateFromSecret(codes, decoder, totp, t);
  }

  /** No other counter in the window around `b` has the code of `c`. */
  ghost predicate OnlyCode(codes: CodeFn, key: bytes, totp: E.TotpSecret, b: nat, w: nat, c: nat) {
    forall d: nat :: Near(b, w, d) && CodeOf(codes, key, totp, d) == CodeOf(codes, key, totp, c) ==> d == c
  }

  /** If no other counter in the window of `u` has the code, it verifies at `u` exactly when the counters are at
      most `w` apart, and so never `w + 1` periods or more away. */
  lemma CodesVerifyOnlyNearby(codes: CodeFn, decoder: Decoder, totp: E.TotpSecret, t: u64, u: u64, w: nat)
    requires GenerateFromSecret(codes, decoder, totp, t).Ok?
    requires OnlyCode(codes, DecodeStrict(decoder, totp.secretB32).value, totp, Counter(u, totp.periodSecs), w,
                      Counter(t, totp.periodSecs))
    ensures var key, p := DecodeStrict(decoder, totp.secretB32).value, totp.periodSecs;
            var verifies := InWindow(codes, key, totp, Counter(u, p), w,
                                     GenerateFromSecret(codes, decoder, totp, t).value);
            && (verifies <==> Near(Counter(u, p), w, Counter(t, p)))
            && (verifies ==> t < u + (w + 1) * p && u < t + (w + 1) * p)
  {
    NearTimes(t, u, totp.periodSecs, w);
    var key := DecodeStrict(decoder, totp.secretB32).value;
    assert CodeOf(codes, key, totp, Counter(t, totp.periodSecs)) == GenerateFromSecret(codes, decoder, totp, t);
  }

  // ------------------------------------------------------------------------------------------
  // Printing
  // ------------------------------------------------------------------------------------------

  /** Zeros on the left up to the width. */
  function PadLeft(s: string, width: nat): string
    decreases width - |s|
  {
    if |s| >= width then s else PadLeft("0" + s, width)
  }

  function FormatCode(code: nat, digits: nat): Result<string, TotpError> {
    if !(6 <= digits <= 8) || Pow(10, digits) >= U32_LIMIT then Err(InvalidParams)
    else Ok(PadLeft(ToDecimal(code % Pow(10, digits)), digits))
  }

  /** The last `width` decimal digits of a number. */
  function FixedDigits(n: nat, width: nat): (s: string)
    ensures |s| == width && AllDigits(s)
  {
    if width == 0 then [] else FixedDigits(n / 10, width - 1) + [Digit(n % 10)]
  }

  lemma {:induction false} PadAppend(s: string, c: char, width: nat)
    requires width > 0
    ensures PadLeft(s + [c], width) == PadLeft(s, width - 1) + [c]
    decreases width - |s|
  {
    if |s| + 1 < width {
      assert "0" + (s + [c]) == ("0" + s) + [c];
      PadAppend("0" + s, c, width);
    }
  }

  lemma {:induction false} ZeroPadded(width: nat)
    ensures PadLeft("", width) == FixedDigits(0, width)
  {
    if width > 0 {
      ZeroPadded(width - 1);
      PadAppend("", '0', width);
      assert PadLeft("", width) == PadLeft("0", width) by { assert "0" + "" == "0"; }
      assert "" + ['0'] == "0";
    }
  }

  lemma {:induction false} PaddedDigits(n: nat, width: nat)
    requires n < Pow(10, width) && width > 0
    ensures PadLeft(ToDecimal(n), width) == FixedDigits(n, width)
  {
    if n < 10 {
      PadAppend("", Digit(n), width);
      ZeroPadded(width - 1);
      assert "" + [Digit(n)] == [Digit(n)];
    } else {
      assert width > 1;
      PadAppend(ToDecimal(n / 10), Digit(n % 10), width);
      PaddedDigits(n / 10, width - 1);
    }
  }

  lemma {:induction false} FixedDigitsValue(n: nat, width: nat)
    requires n < Pow(10, width)
    ensures FromDecimal(FixedDigits(n, width)) == n
  {
    if width > 0 {
      FixedDigitsValue(n / 10, width - 1);
      assert FixedDigits(n, width)[..width - 1] == FixedDigits(n / 10, width - 1);
    }
  }

  lemma PaddedReadsBack(n: nat, digits: nat)
    requires n < Pow(10, digits) && 0 < digits
    ensures var s := PadLeft(ToDecimal(n), digits);
            && |s| == digits && AllDigits(s) && FromDecimal(s) == n
            && (n < U32_LIMIT ==> ParseUint(s, U32_LIMIT) == Some(n))
  {
    PaddedDigits(n, digits);
    FixedDigitsValue(n, digits);
    var s := FixedDigits(n, digits);
    assert s[0] in s && IsAsciiDigit(s[0]);
  }

  lemma DigitLimits(digits: nat)
    requires MIN_DIGITS <= digits <= MAX_DIGITS
    ensures Pow(10, digits) < U32_LIMIT
  {
    Powers();
  }

  /** Only six to eight digits are printed. */
  lemma PrintingSucceedsIff(code: nat, digits: nat)
    ensures FormatCode(code, digits) == Err(InvalidParams) <==> digits < 6 || digits > 8
    ensures FormatCode(code, digits).Err? ==> FormatCode(code, digits).error == InvalidParams
  {
    if MIN_DIGITS <= digits <= MAX_DIGITS { DigitLimits(digits); }
  }

  /** Exactly `digits` decimal characters, which read back as the code modulo 10^digits. */
  lemma PrintedCodesReadBack(code: nat, digits: nat)
    requires MIN_DIGITS <= digits <= MAX_DIGITS
    ensures FormatCode(code, digits).Ok?
    ensures var s, n := FormatCode(code, digits).value, code % Pow(10, digits);
            |s| == digits && AllDigits(s) && FromDecimal(s) == n && ParseUint(s, U32_LIMIT) == Some(n)
  {
    DigitLimits(digits);
    PaddedReadsBack(code % Pow(10, digits), digits);
  }

  lemma PrintedCodeIsTyped(code: nat, digits: nat)
    requires MIN_DIGITS <= digits <= MAX_DIGITS && code < Pow(10, digits)
    ensures FormatCode(code, digits).Ok? && ParseUint(FormatCode(code, digits).value, U32_LIMIT) == Some(code)
  {
    PrintedCodesReadBack(code, digits);
    RemainderIs(code, Pow(10, digits), 0, code);
  }

  function GenerateFormatted(codes: CodeFn, decoder: Decoder, totp: E.TotpSecret, time: u64)
    : Result<string, TotpError>
  {
    match GenerateFromSecret(codes, decoder, totp, time)
    case Err(e) => Err(e)
    case Ok(code) => FormatCode(code, totp.digits)
  }

  /** A displayed code, typed back in, verifies at any time within `w` periods. */
  lemma {:induction false} DisplayedCodesVerify(codes: CodeFn, decoder: Decoder, totp: E.TotpSecret, t: u64, u: u64,
                                                w: nat)
    requires Proper(codes) && GenerateFormatted(codes, decoder, totp, t).Ok? && Within(t, u, w, totp.periodSecs)
    ensures var key, typed := DecodeStrict(decoder, totp.secretB32).value,
                              ParseUint(GenerateFormatted(codes, decoder, totp, t).value, U32_LIMIT);
            typed.Some? && InWindow(codes, key, totp, Counter(u, totp.periodSecs), w, typed.value)
  {
    GenerationSucceeds(codes, decoder, totp, t);
    PrintedCodeIsTyped(GenerateFromSecret(codes, decoder, totp, t).value, totp.digits);
    CodesVerifyNearby(codes, decoder, totp, t, u, w);
  }
}
