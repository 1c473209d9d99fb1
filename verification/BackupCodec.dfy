/** The signed backup container: a signed, length-prefixed printer and its parser. */
module BackupCodec {
  import opened Common
  import opened LittleEndian
  import V = VaultTypes
  import opened Policy

  const BACKUP_MAGIC: bytes := [0x56, 0x56, 0x42, 0x41, 0x4B, 0x55, 0x50, 0x31] // "VVBAKUP1"
  const BACKUP_VERSION: u16 := 1
  const MAX_BACKUP_PAYLOAD_LEN: nat := 64 * 1024 * 1024
  const SIGNATURE_LEN: nat := 64

  datatype BackupHeader = BackupHeader(version: u16, kdf: V.KdfParams, salt: bytes)

  datatype BackupError = PolicyDenied | PayloadTooLarge | InvalidFormat | UnsupportedVersion | Deserialize | AuthFailed

  /** An Ed25519 seed. */
  type Key = b: bytes | |b| == 32 witness seq(32, _ => 0)

  /** Key derivation from the password and header, signing and verification. */
  datatype Signing = Signing(derive: (V.Password, BackupHeader) -> Option<Key>, sign: (Key, bytes) -> bytes,
                             verify: (Key, bytes, bytes) -> bool)
  {
    ghost predicate Correct() {
      forall k, m {:trigger sign(k, m)} :: |sign(k, m)| == SIGNATURE_LEN && verify(k, m, sign(k, m))
    }

    /** Ideal signatures: what verifies under a key was issued under that key, and what was issued verifies. */
    ghost predicate Issues(issued: iset<(Key, bytes)>) {
      && (forall k, m, s {:trigger verify(k, m, s)} :: verify(k, m, s) ==> (k, m) in issued)
      && (forall k, m {:trigger sign(k, m)} :: (k, m) in issued ==>
            |sign(k, m)| == SIGNATURE_LEN && verify(k, m, sign(k, m)))
    }
  }

  /** Whatever has been issued, and however keys are derived, some scheme satisfies the law. */
  lemma SigningLawIsSatisfiable(derive: (V.Password, BackupHeader) -> Option<Key>, issued: iset<(Key, bytes)>)
    returns (signing: Signing)
    ensures signing.Issues(issued) && signing.derive == derive
  {
    var zeros: bytes := seq(SIGNATURE_LEN, _ => 0);
    signing := Signing(derive, (k: Key, m) => zeros, (k: Key, m, s) => (k, m) in issued);
  }

  /** Everything the signature covers: all bytes before the signature's length. */
  function Signed(headerJson: bytes, payload: bytes): bytes {
    BACKUP_MAGIC + ToLe(BACKUP_VERSION, 2) + ToLe(|headerJson|, 4) + headerJson + ToLe(|payload|, 8) + payload
  }

  function WithSignature(signed: bytes, signature: bytes): bytes { signed + ToLe(SIGNATURE_LEN, 2) + signature }

  function Encode(policy: PolicyContext, signing: Signing, json: V.Json<BackupHeader>, password: V.Password,
                  container: bytes, kdf: V.KdfParams, salt: bytes): Result<bytes, BackupError>
  {
    var header := BackupHeader(BACKUP_VERSION, kdf, salt);
    if !policy.AllowExposure() then Err(PolicyDenied)
    else if |container| > MAX_BACKUP_PAYLOAD_LEN then Err(PayloadTooLarge)
    else if |json.enc(header)| >= U32_LIMIT then Err(InvalidFormat)
    else
      var signed := Signed(json.enc(header), container);
      match signing.derive(password, header)
      case None => Err(AuthFailed)
      case Some(key) => Ok(WithSignature(signed, signing.sign(key, signed)))
  }

  method EncodeSignedBackup(policy: PolicyContext, signing: Signing, json: V.Json<BackupHeader>, password: V.Password,
                            container: bytes, kdf: V.KdfParams, salt: bytes) returns (r: Result<bytes, BackupError>)
    ensures r == Encode(policy, signing, json, password, container, kdf, salt)
  {
    if !policy.AllowExposure() { return Err(PolicyDenied); }
    if |container| > MAX_BACKUP_PAYLOAD_LEN { return Err(PayloadTooLarge); }

    var header := BackupHeader(BACKUP_VERSION, kdf, salt);
    var headerJson := json.enc(header);
    if |headerJson| >= U32_LIMIT { return Err(InvalidFormat); }

    var out := BACKUP_MAGIC;
    out := out + ToLe(BACKUP_VERSION, 2);
    out := out + ToLe(|headerJson|, 4);
    out := out + headerJson;
    out := out + ToLe(|container|, 8);
    out := out + container;

    var key := signing.derive(password, header);
    if key.None? { return Err(AuthFailed); }
    var signature := signing.sign(key.value, out);
    out := out + ToLe(SIGNATURE_LEN, 2);
    out := out + signature;
    return Ok(out);
  }

  /** Read `n` bytes at the cursor and advance it. */
  method ReadSlice(input: bytes, cursor: nat, n: nat) returns (r: Result<bytes, BackupError>, next: nat)
    requires cursor <= |input|
    ensures next <= |input|
    ensures r.Ok? <==> cursor + n <= |input|
    ensures r.Ok? ==> next == cursor + n && r.value == input[cursor..next]
    ensures r.Err? ==> r.error == InvalidFormat
  {
    var end := cursor + n;
    if end > |input| { return Err(InvalidFormat), cursor; }
    return Ok(input[cursor..end]), end;
  }

  /** What a backup is made of. */
  datatype Parts = Parts(header: BackupHeader, headerJson: bytes, payload: bytes, signature: bytes)

  /** The decoder without its policy check and signature check. */
  function Parse(json: V.Json<BackupHeader>, input: bytes): Result<Parts, BackupError> {
    if |input| < 8 || input[..8] != BACKUP_MAGIC then Err(InvalidFormat)
    else if |input| < 10 then Err(InvalidFormat)
    else if FromLe(input[8..10]) != BACKUP_VERSION then Err(UnsupportedVersion)
    else if |input| < 14 then Err(InvalidFormat)
    else
      var headerLen := FromLe(input[10..14]);
      if headerLen == 0 || |input| < 14 + headerLen then Err(InvalidFormat)
      else
        var headerJson := input[14..14 + headerLen];
        match json.dec(headerJson)
        case None => Err(Deserialize)
        case Some(header) =>
          if header.version != BACKUP_VERSION then Err(UnsupportedVersion)
          else ParseTail(header, headerJson, input[14 + headerLen..])
  }

  function ParseTail(header: BackupHeader, headerJson: bytes, tail: bytes): Result<Parts, BackupError> {
    if |tail| < 8 then Err(InvalidFormat)
    else
      var payloadLen := FromLe(tail[..8]);
      if payloadLen > MAX_BACKUP_PAYLOAD_LEN then Err(PayloadTooLarge)
      else if |tail| < 8 + payloadLen + 2 then Err(InvalidFormat)
      else if FromLe(tail[8 + payloadLen..8 + payloadLen + 2]) != SIGNATURE_LEN then Err(InvalidFormat)
      else if |tail| != 8 + payloadLen + 2 + SIGNATURE_LEN then Err(InvalidFormat)
      else Ok(Parts(header, headerJson, tail[8..8 + payloadLen], tail[8 + payloadLen + 2..]))
  }

  function Decode(policy: PolicyContext, signing: Signing, json: V.Json<BackupHeader>, password: V.Password,
                  input: bytes)
    : Result<bytes, BackupError>
  {
    if !policy.AllowExposure() then Err(PolicyDenied)
    else
      match Parse(json, input)
      case Err(e) => Err(e)
      case Ok(parts) =>
        if |input| < 2 + SIGNATURE_LEN then Err(InvalidFormat)
        else
          match signing.derive(password, parts.header)
          case None => Err(AuthFailed)
          case Some(key) =>
            if signing.verify(key, input[..|input| - (2 + SIGNATURE_LEN)], parts.signature)
            then Ok(parts.payload) else Err(AuthFailed)
  }

  method DecodeSignedBackup(policy: PolicyContext, signing: Signing, json: V.Json<BackupHeader>, password: V.Password,
                            input: bytes) returns (r: Result<bytes, BackupError>)
    ensures r == Decode(policy, signing, json, password, input)
  {
    if !policy.AllowExposure() { return Err(PolicyDenied); }

    var parts := ParseBackup(json, input);
    if parts.Err? { return Err(parts.error); }

    if |input| < 2 + SIGNATURE_LEN { return Err(InvalidFormat); }
    var signedLen := |input| - (2 + SIGNATURE_LEN);
    var key := signing.derive(password, parts.value.header);
    if key.None? || !signing.verify(key.value, input[..signedLen], parts.value.signature) { return Err(AuthFailed); }
    return Ok(parts.value.payload);
  }

  /** The cursor walk of the decoder. */
  method ParseBackup(json: V.Json<BackupHeader>, input: bytes) returns (r: Result<Parts, BackupError>)
    ensures r == Parse(json, input)
  {
    var magic, c0 := ReadSlice(input, 0, 8);
    if magic.Err? { return Err(magic.error); }
    if magic.value != BACKUP_MAGIC { return Err(InvalidFormat); }
    var version, c1 := ReadSlice(input, c0, 2);
    if version.Err? { return Err(version.error); }
    if FromLe(version.value) != BACKUP_VERSION { return Err(UnsupportedVersion); }
    var headerLenBytes, c2 := ReadSlice(input, c1, 4);
    if headerLenBytes.Err? { return Err(headerLenBytes.error); }
    var headerLen := FromLe(headerLenBytes.value);
    if headerLen == 0 { return Err(InvalidFormat); }
    var headerJson, c3 := ReadSlice(input, c2, headerLen);
    if headerJson.Err? { return Err(headerJson.error); }
    var header := json.dec(headerJson.value);
    if header.None? { return Err(Deserialize); }
    if header.value.version != BACKUP_VERSION { return Err(UnsupportedVersion); }

    r := ParseBackupTail(header.value, headerJson.value, input, c3);
  }

  method ParseBackupTail(header: BackupHeader, headerJson: bytes, input: bytes, cursor: nat)
    returns (r: Result<Parts, BackupError>)
    requires cursor <= |input|
    ensures r == ParseTail(header, headerJson, input[cursor..])
  {
    ghost var tail := input[cursor..];
    var payloadLenBytes, c0 := ReadSlice(input, cursor, 8);
    if payloadLenBytes.Err? { return Err(payloadLenBytes.error); }
    assert payloadLenBytes.value == tail[..8];
    var payloadLen := FromLe(payloadLenBytes.value);
    if payloadLen > MAX_BACKUP_PAYLOAD_LEN { return Err(PayloadTooLarge); }
    var payload, c1 := ReadSlice(input, c0, payloadLen);
    if payload.Err? { return Err(payload.error); }
    var sigLen, c2 := ReadSlice(input, c1, 2);
    if sigLen.Err? { return Err(sigLen.error); }
    assert sigLen.value == tail[8 + payloadLen..8 + payloadLen + 2];
    if FromLe(sigLen.value) != SIGNATURE_LEN { return Err(InvalidFormat); }
    var signature, c3 := ReadSlice(input, c2, SIGNATURE_LEN);
    if signature.Err? { return Err(signature.error); }
    if c3 != |input| { return Err(InvalidFormat); }
    assert payload.value == tail[8..8 + payloadLen] && signature.value == tail[8 + payloadLen + 2..];
    return Ok(Parts(header, headerJson, payload.value, signature.value));
  }

  // ------------------------------------------------------------------------------------------
  // Exactness
  // ------------------------------------------------------------------------------------------

  predicate WellFormed(json: V.Json<BackupHeader>, o: Parts) {
    && 0 < |o.headerJson| < U32_LIMIT && json.dec(o.headerJson) == Some(o.header)
    && o.header.version == BACKUP_VERSION
    && |o.payload| <= MAX_BACKUP_PAYLOAD_LEN && |o.signature| == SIGNATURE_LEN
  }

  function Tail(payload: bytes, signature: bytes): bytes {
    ToLe(|payload|, 8) + payload + ToLe(SIGNATURE_LEN, 2) + signature
  }

  lemma TailSplits(header: BackupHeader, o: Parts)
    requires |o.payload| <= MAX_BACKUP_PAYLOAD_LEN && |o.signature| == SIGNATURE_LEN
    ensures ParseTail(header, o.headerJson, Tail(o.payload, o.signature)) == Ok(o.(header := header))
  {
    Widths();
    FromToLe(|o.payload|, 8);
    FromToLe(SIGNATURE_LEN, 2);
    TailBytes(o.payload, o.signature);
  }

  lemma TailBytes(payload: bytes, signature: bytes)
    ensures var tail, n := Tail(payload, signature), |payload|;
            && |tail| == 8 + n + 2 + |signature| && tail[..8] == ToLe(n, 8) && tail[8..8 + n] == payload
            && tail[8 + n..8 + n + 2] == ToLe(SIGNATURE_LEN, 2) && tail[8 + n + 2..] == signature
  {
    var len, sigLen := ToLe(|payload|, 8), ToLe(SIGNATURE_LEN, 2);
    Regroup(len + payload, sigLen, signature);
    Middle(len, payload, sigLen + signature);
    Middle(len + payload, sigLen, signature);
  }

  lemma TailParses(json: V.Json<BackupHeader>, o: Parts)
    requires WellFormed(json, o)
    ensures ParseTail(o.header, o.headerJson, Tail(o.payload, o.signature)) == Ok(o)
  {
    TailSplits(o.header, o);
  }

  lemma ParsedTail(header: BackupHeader, headerJson: bytes, tail: bytes)
    requires ParseTail(header, headerJson, tail).Ok?
    ensures var o := ParseTail(header, headerJson, tail).value;
            && o.header == header && o.headerJson == headerJson && tail == Tail(o.payload, o.signature)
            && |o.payload| <= MAX_BACKUP_PAYLOAD_LEN && |o.signature| == SIGNATURE_LEN
  {
    var o := ParseTail(header, headerJson, tail).value;
    var n := |o.payload|;
    ToFromLe(tail[..8]);
    ToFromLe(tail[8 + n..8 + n + 2]);
    assert tail == tail[..8] + tail[8..8 + n] + tail[8 + n..8 + n + 2] + tail[8 + n + 2..];
  }

  /** A backup is its signed bytes, then the signature; the rest of the parse is forced. */
  lemma BackupShape(o: Parts)
    ensures WithSignature(Signed(o.headerJson, o.payload), o.signature)
            == BACKUP_MAGIC + ToLe(BACKUP_VERSION, 2) + ToLe(|o.headerJson|, 4) + o.headerJson
               + Tail(o.payload, o.signature)
  {
  }

  lemma WellFormedParses(json: V.Json<BackupHeader>, o: Parts)
    requires WellFormed(json, o)
    ensures Parse(json, WithSignature(Signed(o.headerJson, o.payload), o.signature)) == Ok(o)
  {
    BackupShape(o);
    Widths();
    FromToLe(BACKUP_VERSION, 2);
    FromToLe(|o.headerJson|, 4);
    TailParses(json, o);
    var input := WithSignature(Signed(o.headerJson, o.payload), o.signature);
    assert input[..8] == BACKUP_MAGIC && input[8..10] == ToLe(BACKUP_VERSION, 2);
    assert input[10..14] == ToLe(|o.headerJson|, 4) && input[14..14 + |o.headerJson|] == o.headerJson;
    assert input[14 + |o.headerJson|..] == Tail(o.payload, o.signature);
  }

  lemma Head(input: bytes, n: nat)
    requires 14 + n <= |input| && input[..8] == BACKUP_MAGIC
    requires FromLe(input[8..10]) == BACKUP_VERSION && FromLe(input[10..14]) == n
    ensures n < U32_LIMIT
    ensures input == BACKUP_MAGIC + ToLe(BACKUP_VERSION, 2) + ToLe(n, 4) + input[14..14 + n] + input[14 + n..]
  {
    ToFromLe(input[8..10]);
    ToFromLe(input[10..14]);
    Widths();
    assert input == input[..8] + input[8..10] + input[10..14] + input[14..14 + n] + input[14 + n..];
  }

  lemma ParsedIsWellFormed(json: V.Json<BackupHeader>, input: bytes)
    requires Parse(json, input).Ok?
    ensures var o := Parse(json, input).value;
            WellFormed(json, o) && input == WithSignature(Signed(o.headerJson, o.payload), o.signature)
  {
    var n := FromLe(input[10..14]);
    Head(input, n);
    var o := Parse(json, input).value;
    ParsedTail(o.header, o.headerJson, input[14 + n..]);
    BackupShape(o);
  }

  lemma SignedSlice(signed: bytes, signature: bytes)
    requires |signature| == SIGNATURE_LEN
    ensures var backup := WithSignature(signed, signature);
            |backup| >= 2 + SIGNATURE_LEN && backup[..|backup| - (2 + SIGNATURE_LEN)] == signed
  {
  }

  lemma AcceptedIsAuthentic(policy: PolicyContext, signing: Signing, json: V.Json<BackupHeader>, password: V.Password,
                            input: bytes) returns (o: Parts)
    requires Decode(policy, signing, json, password, input).Ok?
    ensures policy.AllowExposure() && Authentic(signing, json, password, input, o)
    ensures Decode(policy, signing, json, password, input) == Ok(o.payload)
  {
    ParsedIsWellFormed(json, input);
    o := Parse(json, input).value;
    SignedSlice(Signed(o.headerJson, o.payload), o.signature);
  }

  lemma AuthenticIsAccepted(policy: PolicyContext, signing: Signing, json: V.Json<BackupHeader>, password: V.Password,
                            input: bytes, o: Parts)
    requires policy.AllowExposure() && Authentic(signing, json, password, input, o)
    ensures Decode(policy, signing, json, password, input) == Ok(o.payload)
  {
    WellFormedParses(json, o);
    SignedSlice(Signed(o.headerJson, o.payload), o.signature);
  }

  /** Acceptance needs a derived key whose signature check covers every byte before `sig_len`. */
  lemma DecodeIsExact(policy: PolicyContext, signing: Signing, json: V.Json<BackupHeader>, password: V.Password,
                      input: bytes, payload: bytes)
    ensures Decode(policy, signing, json, password, input) == Ok(payload) <==>
              policy.AllowExposure() && exists o :: Authentic(signing, json, password, input, o) && o.payload == payload
  {
    if Decode(policy, signing, json, password, input) == Ok(payload) {
      var o := AcceptedIsAuthentic(policy, signing, json, password, input);
    }
    if policy.AllowExposure() && exists o :: Authentic(signing, json, password, input, o) && o.payload == payload {
      var o :| Authentic(signing, json, password, input, o) && o.payload == payload;
      AuthenticIsAccepted(policy, signing, json, password, input, o);
    }
  }

  ghost predicate Authentic(signing: Signing, json: V.Json<BackupHeader>, password: V.Password, input: bytes,
                            o: Parts) {
    && WellFormed(json, o)
    && input == WithSignature(Signed(o.headerJson, o.payload), o.signature)
    && signing.derive(password, o.header).Some?
    && signing.verify(signing.derive(password, o.header).value, Signed(o.headerJson, o.payload), o.signature)
  }

  /** Decoding inverts encoding for any signature scheme that verifies its own signatures. */
  lemma DecodeInvertsEncode(policy: PolicyContext, signing: Signing, json: V.Json<BackupHeader>, password: V.Password,
                            container: bytes, kdf: V.KdfParams, salt: bytes)
    requires json.RoundTrips() && signing.Correct()
    requires Encode(policy, signing, json, password, container, kdf, salt).Ok?
    ensures Decode(policy, signing, json, password, Encode(policy, signing, json, password, container, kdf, salt).value)
            == Ok(container)
  {
    var header := BackupHeader(BACKUP_VERSION, kdf, salt);
    var signed, key := Signed(json.enc(header), container), signing.derive(password, header).value;
    var o := Parts(header, json.enc(header), container, signing.sign(key, signed));
    AuthenticIsAccepted(policy, signing, json, password, WithSignature(signed, o.signature), o);
  }

  /** The signed bytes determine header text and payload. */
  lemma SignedIsInjective(a: bytes, p: bytes, b: bytes, q: bytes)
    requires |a| < U32_LIMIT && |b| < U32_LIMIT && Signed(a, p) == Signed(b, q)
    ensures a == b && p == q
  {
    SignedBytes(a, p);
    SignedBytes(b, q);
    Widths();
    FromToLe(|a|, 4);
    FromToLe(|b|, 4);
  }

  lemma HeadBytes(headerJson: bytes)
    ensures var head := BACKUP_MAGIC + ToLe(BACKUP_VERSION, 2) + ToLe(|headerJson|, 4) + headerJson;
            && |head| == 14 + |headerJson| && head[..8] == BACKUP_MAGIC && head[8..10] == ToLe(BACKUP_VERSION, 2)
            && head[10..14] == ToLe(|headerJson|, 4) && head[14..] == headerJson
  {
    var version, len := ToLe(BACKUP_VERSION, 2), ToLe(|headerJson|, 4);
    Regroup(BACKUP_MAGIC + version, len, headerJson);
    Middle(BACKUP_MAGIC, version, len + headerJson);
    Middle(BACKUP_MAGIC + version, len, headerJson);
  }

  lemma SignedBytes(headerJson: bytes, payload: bytes)
    ensures var out, h := Signed(headerJson, payload), |headerJson|;
            && |out| == 22 + h + |payload| && out[..8] == BACKUP_MAGIC && out[8..10] == ToLe(BACKUP_VERSION, 2)
            && out[10..14] == ToLe(h, 4) && out[14..14 + h] == headerJson
            && out[14 + h..22 + h] == ToLe(|payload|, 8) && out[22 + h..] == payload
  {
    var head := BACKUP_MAGIC + ToLe(BACKUP_VERSION, 2) + ToLe(|headerJson|, 4) + headerJson;
    var rest, h := ToLe(|payload|, 8) + payload, |headerJson|;
    HeadBytes(headerJson);
    Middle(head, ToLe(|payload|, 8), payload);
    Regroup(head, ToLe(|payload|, 8), payload);
    SliceOfFirst(head, rest, 0, 8);
    SliceOfFirst(head, rest, 8, 10);
    SliceOfFirst(head, rest, 10, 14);
    SliceOfFirst(head, rest, 14, 14 + h);
    assert head[0..8] == head[..8] && head[14..14 + h] == head[14..];
  }

  /** A backup whose signed bytes were issued under one key only opens for exactly the passwords that derive it. */
  lemma BackupOpensForItsKey(policy: PolicyContext, signing: Signing, json: V.Json<BackupHeader>, password: V.Password,
                             container: bytes, kdf: V.KdfParams, salt: bytes, policy': PolicyContext,
                             password': V.Password,
                             issued: iset<(Key, bytes)>)
    requires json.RoundTrips() && signing.Issues(issued)
    requires Encode(policy, signing, json, password, container, kdf, salt).Ok?
    requires var header := BackupHeader(BACKUP_VERSION, kdf, salt);
             forall k :: (k, Signed(json.enc(header), container)) in issued <==>
               signing.derive(password, header) == Some(k)
    ensures var backup := Encode(policy, signing, json, password, container, kdf, salt).value;
            var header := BackupHeader(BACKUP_VERSION, kdf, salt);
            Decode(policy', signing, json, password', backup) ==
              if !policy'.AllowExposure() then Err(PolicyDenied)
              else if signing.derive(password', header) == signing.derive(password, header) then Ok(container)
              else Err(AuthFailed)
  {
    var header := BackupHeader(BACKUP_VERSION, kdf, salt);
    var signed, key := Signed(json.enc(header), container), signing.derive(password, header).value;
    assert (key, signed) in issued;
    var o := Parts(header, json.enc(header), container, signing.sign(key, signed));
    WellFormedParses(json, o);
    if policy'.AllowExposure() { DecodeGoesOn(policy', signing, json, password', signed, o.signature); }
  }

  /** The key and the bytes a backup of `container` under this header is signed with. */
  ghost predicate IssuedFor(signing: Signing, json: V.Json<BackupHeader>, password: V.Password, header: BackupHeader,
                            container: bytes, issued: iset<(Key, bytes)>)
  {
    && signing.derive(password, header).Some?
    && (signing.derive(password, header).value, Signed(json.enc(header), container)) in issued
  }

  /** Only whole backups are ever signed. */
  ghost predicate OnlyBackups(json: V.Json<BackupHeader>, issued: iset<(Key, bytes)>) {
    forall k, m :: (k, m) in issued ==> IsBackupText(json, m)
  }

  ghost predicate IsBackupText(json: V.Json<BackupHeader>, m: bytes) {
    exists h: BackupHeader, c: bytes :: |json.enc(h)| < U32_LIMIT && m == Signed(json.enc(h), c)
  }

  /** An accepted input is, up to its signature, a backup that was issued: every byte before the signature length was
      signed with the key this password derives from the header it carries, and the payload returned is the payload
      of that backup. */
  lemma AcceptedBackupWasIssued(policy: PolicyContext, signing: Signing, json: V.Json<BackupHeader>,
                                password: V.Password,
                                input: bytes, issued: iset<(Key, bytes)>) returns (header: BackupHeader)
    requires json.RoundTrips() && signing.Issues(issued) && OnlyBackups(json, issued)
    requires Decode(policy, signing, json, password, input).Ok?
    ensures var container := Decode(policy, signing, json, password, input).value;
            && IssuedFor(signing, json, password, header, container, issued)
            && |json.enc(header)| < U32_LIMIT && |input| >= 2 + SIGNATURE_LEN
            && input[..|input| - (2 + SIGNATURE_LEN)] == Signed(json.enc(header), container)
  {
    var o := AcceptedIsAuthentic(policy, signing, json, password, input);
    var key, signed := signing.derive(password, o.header).value, Signed(o.headerJson, o.payload);
    assert (key, signed) in issued && IsBackupText(json, signed);
    var c: bytes;
    header, c :| |json.enc(header)| < U32_LIMIT && signed == Signed(json.enc(header), c);
    SignedIsInjective(o.headerJson, o.payload, json.enc(header), c);
    assert json.dec(json.enc(header)) == Some(header);
    SignedSlice(signed, o.signature);
  }

  /** A payload that no backup under the header's own key was issued for is refused, whatever the signature. */
  lemma SubstitutedPayloadIsRefused(policy: PolicyContext, signing: Signing, json: V.Json<BackupHeader>,
                                    password: V.Password, header: BackupHeader, container: bytes, signature: bytes,
                                    issued: iset<(Key, bytes)>)
    requires json.RoundTrips() && signing.Issues(issued) && OnlyBackups(json, issued)
    requires |json.enc(header)| < U32_LIMIT && |signature| == SIGNATURE_LEN
    requires !IssuedFor(signing, json, password, header, container, issued)
    ensures Decode(policy, signing, json, password, WithSignature(Signed(json.enc(header), container), signature)).Err?
  {
    var input := WithSignature(Signed(json.enc(header), container), signature);
    if Decode(policy, signing, json, password, input).Ok? {
      var h := AcceptedBackupWasIssued(policy, signing, json, password, input, issued);
      var c := Decode(policy, signing, json, password, input).value;
      SignedSlice(Signed(json.enc(header), container), signature);
      SameBackupText(json, header, container, h, c);
    }
  }

  lemma SameBackupText(json: V.Json<BackupHeader>, a: BackupHeader, p: bytes, b: BackupHeader, q: bytes)
    requires json.RoundTrips() && |json.enc(a)| < U32_LIMIT && |json.enc(b)| < U32_LIMIT
    requires Signed(json.enc(a), p) == Signed(json.enc(b), q)
    ensures a == b && p == q
  {
    SignedIsInjective(json.enc(a), p, json.enc(b), q);
    assert json.dec(json.enc(a)) == Some(a) && json.dec(json.enc(b)) == Some(b);
  }

  // ------------------------------------------------------------------------------------------
  // The bytes of a backup, and every refusal
  // ------------------------------------------------------------------------------------------

  /** Byte by byte: "VVBAKUP1", version 1, header length, header, payload length, payload, signature length,
      signature. */
  lemma BackupBytes(o: Parts)
    requires |o.headerJson| < U32_LIMIT && |o.payload| < U64_LIMIT && |o.signature| == 64
    ensures var out, h, n := WithSignature(Signed(o.headerJson, o.payload), o.signature), |o.headerJson|, |o.payload|;
            && |out| == 14 + h + 8 + n + 2 + 64
            && out[..8] == [0x56, 0x56, 0x42, 0x41, 0x4B, 0x55, 0x50, 0x31] && FromLe(out[8..10]) == 1
            && FromLe(out[10..14]) == h && out[14..14 + h] == o.headerJson
            && FromLe(out[14 + h..22 + h]) == n && out[22 + h..22 + h + n] == o.payload
            && FromLe(out[22 + h + n..24 + h + n]) == 64 && out[24 + h + n..] == o.signature
  {
    var signed, h, n := Signed(o.headerJson, o.payload), |o.headerJson|, |o.payload|;
    var rest := ToLe(SIGNATURE_LEN, 2) + o.signature;
    Widths();
    FromToLe(BACKUP_VERSION, 2);
    FromToLe(h, 4);
    FromToLe(n, 8);
    FromToLe(SIGNATURE_LEN, 2);
    SignedBytes(o.headerJson, o.payload);
    Middle(signed, ToLe(SIGNATURE_LEN, 2), o.signature);
    Regroup(signed, ToLe(SIGNATURE_LEN, 2), o.signature);
    SliceOfFirst(signed, rest, 0, 8);
    SliceOfFirst(signed, rest, 8, 10);
    SliceOfFirst(signed, rest, 10, 14);
    SliceOfFirst(signed, rest, 14, 14 + h);
    SliceOfFirst(signed, rest, 14 + h, 22 + h);
    SliceOfFirst(signed, rest, 22 + h, 22 + h + n);
    assert signed[0..8] == signed[..8] && signed[22 + h..22 + h + n] == signed[22 + h..];
  }

  /** What the parser answers to anything of a backup's shape. */
  lemma ShapedBackupParses(json: V.Json<BackupHeader>, o: Parts)
    requires |o.headerJson| < U32_LIMIT && |o.payload| < U64_LIMIT && |o.signature| == SIGNATURE_LEN
    ensures Parse(json, WithSignature(Signed(o.headerJson, o.payload), o.signature)) ==
              if o.headerJson == [] then Err(InvalidFormat)
              else if json.dec(o.headerJson).None? then Err(Deserialize)
              else if json.dec(o.headerJson).value.version != 1 then Err(UnsupportedVersion)
              else if |o.payload| > 64 * 1024 * 1024 then Err(PayloadTooLarge)
              else Ok(o.(header := json.dec(o.headerJson).value))
  {
    BackupShape(o);
    BackupBytes(o);
    var input, h := WithSignature(Signed(o.headerJson, o.payload), o.signature), |o.headerJson|;
    var tail := Tail(o.payload, o.signature);
    assert input[14 + h..] == tail;
    assert tail[..8] == input[14 + h..22 + h];
    if h > 0 && json.dec(o.headerJson).Some? && |o.payload| <= MAX_BACKUP_PAYLOAD_LEN {
      TailSplits(json.dec(o.headerJson).value, o);
    }
  }

  /** What the decoder answers to anything of a backup's shape. */
  lemma ShapedBackupAnswers(policy: PolicyContext, signing: Signing, json: V.Json<BackupHeader>, password: V.Password,
                            o: Parts)
    requires |o.headerJson| < U32_LIMIT && |o.payload| < U64_LIMIT && |o.signature| == SIGNATURE_LEN
    ensures var parsed := Parse(json, WithSignature(Signed(o.headerJson, o.payload), o.signature));
            Decode(policy, signing, json, password, WithSignature(Signed(o.headerJson, o.payload), o.signature)) ==
              if !policy.AllowExposure() then Err(PolicyDenied)
              else if parsed.Err? then Err(parsed.error)
              else if signing.derive(password, parsed.value.header).Some?
                      && signing.verify(signing.derive(password, parsed.value.header).value,
                                        Signed(o.headerJson, o.payload), o.signature)
                   then Ok(o.payload) else Err(AuthFailed)
  {
    ShapedBackupParses(json, o);
    if policy.AllowExposure() {
      DecodeGoesOn(policy, signing, json, password, Signed(o.headerJson, o.payload), o.signature);
    }
  }

  /** After a successful parse the decoder checks the signature over everything before its length. */
  lemma DecodeGoesOn(policy: PolicyContext, signing: Signing, json: V.Json<BackupHeader>, password: V.Password,
                     signed: bytes, signature: bytes)
    requires |signature| == SIGNATURE_LEN && policy.AllowExposure()
    ensures var parsed := Parse(json, WithSignature(signed, signature));
            Decode(policy, signing, json, password, WithSignature(signed, signature)) ==
              if parsed.Err? then Err(parsed.error)
              else if signing.derive(password, parsed.value.header).Some?
                      && signing.verify(signing.derive(password, parsed.value.header).value, signed,
                                        parsed.value.signature)
                   then Ok(parsed.value.payload) else Err(AuthFailed)
  {
    SignedSlice(signed, signature);
  }

  /** Cutting an accepted backup anywhere, or appending to it, breaks its format. */
  lemma CutOrExtendedBackupIsRefused(policy: PolicyContext, signing: Signing, json: V.Json<BackupHeader>,
                                     password: V.Password, input: bytes, k: nat, extra: bytes)
    requires Decode(policy, signing, json, password, input).Ok?
    ensures k < |input| ==> Decode(policy, signing, json, password, input[..k]) == Err(InvalidFormat)
    ensures extra != [] ==> Decode(policy, signing, json, password, input + extra) == Err(InvalidFormat)
  {
    if k < |input| { CutBackup(json, input, k); }
    if extra != [] { ExtendedBackup(json, input, extra); }
  }

  lemma CutBackup(json: V.Json<BackupHeader>, input: bytes, k: nat)
    requires Parse(json, input).Ok? && k < |input|
    ensures Parse(json, input[..k]) == Err(InvalidFormat)
  {
    var cut := input[..k];
    if k >= 14 {
      assert cut[..8] == input[..8] && cut[8..10] == input[8..10] && cut[10..14] == input[10..14];
      var h := FromLe(input[10..14]);
      if k >= 14 + h {
        assert cut[14..14 + h] == input[14..14 + h];
        var tail, less := input[14 + h..], cut[14 + h..];
        assert less == tail[..k - 14 - h];
        if |less| >= 8 {
          assert less[..8] == tail[..8];
          var n := FromLe(tail[..8]);
          if |less| >= 8 + n + 2 { assert less[8 + n..8 + n + 2] == tail[8 + n..8 + n + 2]; }
        }
      }
    } else if k >= 10 {
      assert cut[..8] == input[..8] && cut[8..10] == input[8..10];
    } else if k >= 8 {
      assert cut[..8] == input[..8];
    }
  }

  lemma ExtendedBackup(json: V.Json<BackupHeader>, input: bytes, extra: bytes)
    requires Parse(json, input).Ok? && extra != []
    ensures Parse(json, input + extra) == Err(InvalidFormat)
  {
    var long, h := input + extra, FromLe(input[10..14]);
    SliceOfFirst(input, extra, 0, 8);
    SliceOfFirst(input, extra, 8, 10);
    SliceOfFirst(input, extra, 10, 14);
    SliceOfFirst(input, extra, 14, 14 + h);
    SliceOfFirst(input, extra, 14 + h, |input|);
    assert long[0..8] == long[..8] && input[0..8] == input[..8];
    var tail := input[14 + h..];
    ExtendedTail(json.dec(input[14..14 + h]).value, input[14..14 + h], tail, extra);
    assert long[14 + h..] == tail + extra;
  }

  lemma ExtendedTail(header: BackupHeader, headerJson: bytes, tail: bytes, extra: bytes)
    requires ParseTail(header, headerJson, tail).Ok? && extra != []
    ensures ParseTail(header, headerJson, tail + extra) == Err(InvalidFormat)
  {
    var n := FromLe(tail[..8]);
    SliceOfFirst(tail, extra, 0, 8);
    SliceOfFirst(tail, extra, 8 + n, 8 + n + 2);
    assert (tail + extra)[0..8] == (tail + extra)[..8] && tail[0..8] == tail[..8];
  }

  /** Another magic number breaks the format; another version field is not supported. */
  lemma ForeignBackupsAreRefused(json: V.Json<BackupHeader>, input: bytes)
    ensures |input| < 8 || input[..8] != [0x56, 0x56, 0x42, 0x41, 0x4B, 0x55, 0x50, 0x31] ==>
              Parse(json, input) == Err(InvalidFormat)
    ensures |input| >= 10 && input[..8] == BACKUP_MAGIC && FromLe(input[8..10]) != 1 ==>
              Parse(json, input) == Err(UnsupportedVersion)
  {
  }

  /** A backup is made exactly when policy, size and key derivation allow it. */
  lemma EncodeAnswers(policy: PolicyContext, signing: Signing, json: V.Json<BackupHeader>, password: V.Password,
                      container: bytes, kdf: V.KdfParams, salt: bytes)
    requires |json.enc(BackupHeader(1, kdf, salt))| < U32_LIMIT
    ensures var r := Encode(policy, signing, json, password, container, kdf, salt);
            && (r == Err(PolicyDenied) <==> policy.outcome.Decoy? || !policy.runtime.NotDebugged?)
            && (policy.AllowExposure() ==> (r == Err(PayloadTooLarge) <==> |container| > 64 * 1024 * 1024))
            && (policy.AllowExposure() && |container| <= 64 * 1024 * 1024 ==>
                  if signing.derive(password, BackupHeader(1, kdf, salt)).Some? then r.Ok? else r == Err(AuthFailed))
  {
  }
}
