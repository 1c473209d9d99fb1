/** The vault container codec: a length-prefixed printer and its parser. */
module VaultCodec {
  import opened Common
  import opened LittleEndian
  import opened VaultTypes

  function ModeByte(mode: StorageMode): byte { if mode.Encrypted? then 1 else 2 }

  function Body(headerBytes: bytes, payload: bytes): bytes {
    ToLe(|headerBytes|, 4) + headerBytes + ToLe(|payload|, 8) + payload
  }

  /** The byte layout of a container; the header length keeps its low 32 bits only. */
  function Layout(version: u16, mode: StorageMode, headerBytes: bytes, payload: bytes): bytes {
    MAGIC + ToLe(version, 2) + [ModeByte(mode)] + Body(headerBytes, payload)
  }

  /** `exportAllowed` is the runtime policy's answer for plaintext. */
  function Encode(json: Json<VaultHeader>, header: VaultHeader, storage: VaultStorage, version: u16,
                  exportAllowed: bool): Result<bytes, VaultParseError>
  {
    if version == 0 then Err(UnsupportedVersion)
    else if header.duress.Some? && storage.PlaintextStorage? then Err(PlaintextNotAllowed)
    else if storage.PlaintextStorage? && !exportAllowed then Err(PlaintextNotAllowed)
    else if |json.enc(header)| % U32_LIMIT > MAX_HEADER_LEN then Err(HeaderTooLarge) // `len() as u32`
    else Ok(Layout(version, storage.Mode(), json.enc(header), storage.Payload()))
  }

  method EncodeVaultStorage(json: Json<VaultHeader>, header: VaultHeader, storage: VaultStorage, version: u16,
                            exportAllowed: bool) returns (r: Result<bytes, VaultParseError>)
    ensures r == Encode(json, header, storage, version, exportAllowed)
  {
    if version == 0 { return Err(UnsupportedVersion); }
    if header.duress.Some? && storage.PlaintextStorage? { return Err(PlaintextNotAllowed); }
    if storage.PlaintextStorage? && !exportAllowed { return Err(PlaintextNotAllowed); }

    var mode, payload;
    match storage {
      case EncryptedStorage(ciphertext) => mode, payload := Encrypted, ciphertext;
      case PlaintextStorage(text) => mode, payload := PlaintextJson, text;
    }

    var headerBytes := json.enc(header);
    if |headerBytes| % U32_LIMIT > MAX_HEADER_LEN { return Err(HeaderTooLarge); }

    var out := MAGIC;
    out := out + ToLe(version, 2);
    out := out + [ModeByte(mode)];
    out := out + ToLe(|headerBytes|, 4);
    out := out + headerBytes;
    out := out + ToLe(|payload|, 8);
    out := out + payload;
    assert out == Layout(version, mode, headerBytes, payload);
    return Ok(out);
  }

  /** What the caller of the decoder allows. */
  datatype Limits = Limits(expected: Option<u16>, maxPayload: u64, allowPlaintext: bool, exportAllowed: bool) {
    predicate AcceptsVersion(v: u16) { v != 0 && (expected.Some? ==> v == expected.value) }
    predicate AcceptsMode(mode: StorageMode) { mode.PlaintextJson? ==> allowPlaintext && exportAllowed }
  }

  /** The decoder's decisions in the order it takes them. */
  function Decode(json: Json<VaultHeader>, input: bytes, limits: Limits): Result<ParsedVaultFile, VaultParseError> {
    if |input| < 4 then Err(Io)
    else if input[..4] != MAGIC then Err(InvalidMagic)
    else if |input| < 6 then Err(Io)
    else
      var version := FromLe2(input[4..6]);
      if !limits.AcceptsVersion(version) then Err(UnsupportedVersion)
      else if |input| < 7 then Err(Io)
      else if input[6] == 2 && !limits.AcceptsMode(PlaintextJson) then Err(PlaintextNotAllowed)
      else if input[6] != 1 && input[6] != 2 then Err(UnsupportedStorageMode)
      else DecodeBody(json, input[7..], limits, version, if input[6] == 1 then Encrypted else PlaintextJson)
  }

  function FromLe2(b: bytes): u16
    requires |b| == 2
  {
    ToFromLe(b);
    Widths();
    FromLe(b)
  }

  function DecodeBody(json: Json<VaultHeader>, body: bytes, limits: Limits, version: u16, mode: StorageMode)
    : Result<ParsedVaultFile, VaultParseError>
  {
    if |body| < 4 then Err(Io)
    else
      var headerLen := FromLe(body[..4]);
      if headerLen > MAX_HEADER_LEN then Err(HeaderTooLarge)
      else if |body| < 4 + headerLen then Err(Io)
      else
        var headerBytes := body[4..4 + headerLen];
        match json.dec(headerBytes)
        case None => Err(Deserialize)
        case Some(header) =>
          if header.duress.Some? && mode.PlaintextJson? then Err(PlaintextNotAllowed)
          else
            match DecodePayload(body[4 + headerLen..], limits)
            case Err(e) => Err(e)
            case Ok(payload) => Ok(ParsedVaultFile(version, header, headerBytes, mode, payload))
  }

  function DecodePayload(tail: bytes, limits: Limits): Result<bytes, VaultParseError> {
    if |tail| < 8 then Err(Io)
    else
      var payloadLen := FromLe(tail[..8]);
      if payloadLen > limits.maxPayload then Err(PayloadTooLarge)
      else if |tail| < 8 + payloadLen then Err(Io)
      else if |tail| > 8 + payloadLen then Err(TrailingBytes)
      else Ok(tail[8..])
  }

  /** A byte source that is consumed as it is read. */
  class Reader {
    var rest: bytes

    constructor (input: bytes)
      ensures rest == input
    {
      rest := input;
    }

    method ReadExact(n: nat) returns (r: Result<bytes, VaultParseError>)
      modifies this
      ensures r.Ok? <==> n <= |old(rest)|
      ensures r.Ok? ==> r.value == old(rest)[..n] && rest == old(rest)[n..]
      ensures r.Err? ==> r.error == Io
    {
      if |rest| < n { return Err(Io); }
      r := Ok(rest[..n]);
      rest := rest[n..];
    }
  }

  method DecodeVaultFile(json: Json<VaultHeader>, input: Reader, limits: Limits)
    returns (r: Result<ParsedVaultFile, VaultParseError>)
    modifies input
    ensures r == Decode(json, old(input.rest), limits)
  {
    ghost var whole := input.rest;
    var magic := input.ReadExact(4);
    if magic.Err? { return Err(magic.error); }
    if magic.value != MAGIC { return Err(InvalidMagic); }

    var versionBytes := input.ReadExact(2);
    if versionBytes.Err? { return Err(versionBytes.error); }
    assert versionBytes.value == whole[4..6];
    var version := FromLe2(versionBytes.value);
    if version == 0 { return Err(UnsupportedVersion); }
    if limits.expected.Some? && version != limits.expected.value { return Err(UnsupportedVersion); }

    var modeByte := input.ReadExact(1);
    if modeByte.Err? { return Err(modeByte.error); }
    assert modeByte.value[0] == whole[6];
    var mode := Encrypted;
    if modeByte.value[0] == 2 {
      if !limits.allowPlaintext || !limits.exportAllowed { return Err(PlaintextNotAllowed); }
      mode := PlaintextJson;
    } else if modeByte.value[0] != 1 {
      return Err(UnsupportedStorageMode);
    }

    assert input.rest == whole[7..];
    r := DecodeRest(json, input, limits, version, mode);
  }

  /** The part of the decoder after the storage mode. */
  method DecodeRest(json: Json<VaultHeader>, input: Reader, limits: Limits, version: u16, mode: StorageMode)
    returns (r: Result<ParsedVaultFile, VaultParseError>)
    modifies input
    ensures r == DecodeBody(json, old(input.rest), limits, version, mode)
  {
    ghost var body := input.rest;
    var headerLenBytes := input.ReadExact(4);
    if headerLenBytes.Err? { return Err(headerLenBytes.error); }
    var headerLen := FromLe(headerLenBytes.value);
    if headerLen > MAX_HEADER_LEN { return Err(HeaderTooLarge); }

    var headerBytes := input.ReadExact(headerLen);
    if headerBytes.Err? { return Err(headerBytes.error); }
    assert headerBytes.value == body[4..4 + headerLen];
    var header := json.dec(headerBytes.value);
    if header.None? { return Err(Deserialize); }
    if header.value.duress.Some? && mode.PlaintextJson? { return Err(PlaintextNotAllowed); }

    ghost var tail := input.rest;
    assert tail == body[4 + headerLen..];
    var payloadLenBytes := input.ReadExact(8);
    if payloadLenBytes.Err? { return Err(payloadLenBytes.error); }
    var payloadLen := FromLe(payloadLenBytes.value);
    if payloadLen > limits.maxPayload { return Err(PayloadTooLarge); }

    var payload := input.ReadExact(payloadLen);
    if payload.Err? { return Err(payload.error); }
    if input.rest != [] { return Err(TrailingBytes); }
    assert payload.value == tail[8..];
    return Ok(ParsedVaultFile(version, header.value, headerBytes.value, mode, payload.value));
  }

  // ------------------------------------------------------------------------------------------
  // Decoding is exact
  // ------------------------------------------------------------------------------------------

  function Container(p: ParsedVaultFile): bytes { Layout(p.formatVersion, p.mode, p.headerBytes, p.payload) }

  /** What a container must satisfy besides its layout. */
  predicate Acceptable(json: Json<VaultHeader>, limits: Limits, p: ParsedVaultFile) {
    && limits.AcceptsVersion(p.formatVersion)
    && limits.AcceptsMode(p.mode)
    && |p.headerBytes| <= MAX_HEADER_LEN
    && json.dec(p.headerBytes) == Some(p.header)
    && !(p.header.duress.Some? && p.mode.PlaintextJson?)
    && |p.payload| <= limits.maxPayload
  }

  lemma LayoutParts(version: u16, mode: StorageMode, headerBytes: bytes, payload: bytes)
    ensures var input := Layout(version, mode, headerBytes, payload);
            && |input| >= 7 && input[..4] == MAGIC && input[4..6] == ToLe(version, 2)
            && input[6] == ModeByte(mode) && input[7..] == Body(headerBytes, payload)
  {
  }

  lemma PayloadDecodes(payload: bytes, limits: Limits)
    requires |payload| <= limits.maxPayload
    ensures DecodePayload(ToLe(|payload|, 8) + payload, limits) == Ok(payload)
  {
    Widths();
    FromToLe(|payload|, 8);
    var tail := ToLe(|payload|, 8) + payload;
    assert tail[..8] == ToLe(|payload|, 8) && tail[8..] == payload;
  }

  lemma DecodedPayload(tail: bytes, limits: Limits)
    requires DecodePayload(tail, limits).Ok?
    ensures var payload := DecodePayload(tail, limits).value;
            tail == ToLe(|payload|, 8) + payload && |payload| <= limits.maxPayload
  {
    ToFromLe(tail[..8]);
    assert tail == tail[..8] + tail[8..];
  }

  lemma BodyDecodes(json: Json<VaultHeader>, limits: Limits, p: ParsedVaultFile)
    requires Acceptable(json, limits, p)
    ensures DecodeBody(json, Body(p.headerBytes, p.payload), limits, p.formatVersion, p.mode) == Ok(p)
  {
    Widths();
    FromToLe(|p.headerBytes|, 4);
    PayloadDecodes(p.payload, limits);
    var body := Body(p.headerBytes, p.payload);
    assert body[..4] == ToLe(|p.headerBytes|, 4);
    assert body[4..4 + |p.headerBytes|] == p.headerBytes;
    assert body[4 + |p.headerBytes|..] == ToLe(|p.payload|, 8) + p.payload;
  }

  lemma DecodedBody(json: Json<VaultHeader>, body: bytes, limits: Limits, version: u16, mode: StorageMode)
    requires DecodeBody(json, body, limits, version, mode).Ok?
    ensures var p := DecodeBody(json, body, limits, version, mode).value;
            && p.formatVersion == version && p.mode == mode && body == Body(p.headerBytes, p.payload)
            && |p.headerBytes| <= MAX_HEADER_LEN && |p.payload| <= limits.maxPayload
            && json.dec(p.headerBytes) == Some(p.header) && !(p.header.duress.Some? && mode.PlaintextJson?)
  {
    var p := DecodeBody(json, body, limits, version, mode).value;
    ToFromLe(body[..4]);
    DecodedPayload(body[4 + |p.headerBytes|..], limits);
    assert body == body[..4] + p.headerBytes + body[4 + |p.headerBytes|..];
  }

  lemma ContainerDecodes(json: Json<VaultHeader>, limits: Limits, p: ParsedVaultFile)
    requires Acceptable(json, limits, p)
    ensures Decode(json, Container(p), limits) == Ok(p)
  {
    LayoutParts(p.formatVersion, p.mode, p.headerBytes, p.payload);
    Widths();
    FromToLe(p.formatVersion, 2);
    BodyDecodes(json, limits, p);
  }

  lemma DecodedContainer(json: Json<VaultHeader>, input: bytes, limits: Limits)
    requires Decode(json, input, limits).Ok?
    ensures var p := Decode(json, input, limits).value;
            input == Container(p) && Acceptable(json, limits, p)
  {
    var p := Decode(json, input, limits).value;
    ToFromLe(input[4..6]);
    DecodedBody(json, input[7..], limits, p.formatVersion, p.mode);
    assert input == input[..4] + input[4..6] + [input[6]] + input[7..];
  }

  /** The decoder accepts exactly the layout of the file it returns, within the caller's limits. */
  lemma DecodeIsExact(json: Json<VaultHeader>, input: bytes, limits: Limits, p: ParsedVaultFile)
    ensures Decode(json, input, limits) == Ok(p) <==> input == Container(p) && Acceptable(json, limits, p)
  {
    if input == Container(p) && Acceptable(json, limits, p) { ContainerDecodes(json, limits, p); }
    if Decode(json, input, limits) == Ok(p) { DecodedContainer(json, input, limits); }
  }

  lemma DecodeIsInjective(json: Json<VaultHeader>, a: bytes, b: bytes, limits: Limits)
    requires Decode(json, a, limits).Ok? && Decode(json, a, limits) == Decode(json, b, limits)
    ensures a == b
  {
    DecodeIsExact(json, a, limits, Decode(json, a, limits).value);
    DecodeIsExact(json, b, limits, Decode(json, a, limits).value);
  }

  lemma BodyPrefixRunsOut(json: Json<VaultHeader>, body: bytes, limits: Limits, version: u16, mode: StorageMode, k: nat)
    requires DecodeBody(json, body, limits, version, mode).Ok? && k < |body|
    ensures DecodeBody(json, body[..k], limits, version, mode) == Err(Io)
  {
    var headerLen := FromLe(body[..4]);
    if k >= 4 {
      assert body[..k][..4] == body[..4];
      if k >= 4 + headerLen {
        assert body[..k][4..4 + headerLen] == body[4..4 + headerLen];
        var tail, cut := body[4 + headerLen..], body[..k][4 + headerLen..];
        if |cut| >= 8 { assert cut[..8] == tail[..8]; }
      }
    }
  }

  /** Cutting an accepted container anywhere makes the reader run out of input. */
  lemma EveryPrefixIsRejected(json: Json<VaultHeader>, input: bytes, limits: Limits, k: nat)
    requires Decode(json, input, limits).Ok? && k < |input|
    ensures Decode(json, input[..k], limits) == Err(Io)
  {
    var cut := input[..k];
    if k >= 4 {
      assert cut[..4] == input[..4];
      if k >= 6 {
        assert cut[4..6] == input[4..6];
        if k >= 7 {
          var p := Decode(json, input, limits).value;
          assert cut[7..] == input[7..][..k - 7];
          DecodedBody(json, input[7..], limits, FromLe2(input[4..6]),
                      if input[6] == 1 then Encrypted else PlaintextJson);
          BodyPrefixRunsOut(json, input[7..], limits, p.formatVersion, p.mode, k - 7);
        }
      }
    }
  }

  /** Any byte after an accepted container is refused as trailing. */
  lemma EveryExtensionIsRejected(json: Json<VaultHeader>, input: bytes, limits: Limits, extra: bytes)
    requires Decode(json, input, limits).Ok? && extra != []
    ensures Decode(json, input + extra, limits) == Err(TrailingBytes)
  {
    var longer := input + extra;
    assert longer[..4] == input[..4] && longer[4..6] == input[4..6];
    var body, more := input[7..], longer[7..];
    assert more == body + extra && more[..4] == body[..4];
    var headerLen := FromLe(body[..4]);
    assert more[4..4 + headerLen] == body[4..4 + headerLen];
    var tail, moreTail := body[4 + headerLen..], more[4 + headerLen..];
    assert moreTail == tail + extra && moreTail[..8] == tail[..8];
  }

  /**
   Decoding inverts encoding exactly when the header text is shorter than 2^32 bytes (its length is
   cast to 32 bits before it is checked and written) and the decoder's own limits admit the file.
  */
  lemma DecodeInvertsEncode(json: Json<VaultHeader>, header: VaultHeader, storage: VaultStorage, version: u16,
                            exportAllowed: bool, limits: Limits)
    requires json.RoundTrips()
    requires Encode(json, header, storage, version, exportAllowed).Ok?
    ensures var out := Encode(json, header, storage, version, exportAllowed).value;
            Decode(json, out, limits)
              == Ok(ParsedVaultFile(version, header, json.enc(header), storage.Mode(), storage.Payload()))
            <==> |json.enc(header)| < U32_LIMIT && |storage.Payload()| <= limits.maxPayload
                 && (limits.expected.Some? ==> limits.expected.value == version) && limits.AcceptsMode(storage.Mode())
  {
    var p := ParsedVaultFile(version, header, json.enc(header), storage.Mode(), storage.Payload());
    DecodeIsExact(json, Encode(json, header, storage, version, exportAllowed).value, limits, p);
  }

  // ------------------------------------------------------------------------------------------
  // The bytes on disk, and every refusal
  // ------------------------------------------------------------------------------------------

  /** Byte by byte: "VLT1", version, mode (1 encrypted, 2 plaintext), header length, header, payload length, payload. */
  lemma ContainerBytes(p: ParsedVaultFile)
    requires |p.headerBytes| < U32_LIMIT && |p.payload| < U64_LIMIT
    ensures var out, h := Container(p), |p.headerBytes|;
            && |out| == 11 + h + 8 + |p.payload|
            && out[..4] == [0x56, 0x4C, 0x54, 0x31]
            && FromLe(out[4..6]) == p.formatVersion
            && out[6] == (if p.mode.Encrypted? then 1 else 2)
            && FromLe(out[7..11]) == h && out[11..11 + h] == p.headerBytes
            && FromLe(out[11 + h..19 + h]) == |p.payload| && out[19 + h..] == p.payload
  {
    var body, h := Body(p.headerBytes, p.payload), |p.headerBytes|;
    Widths();
    FromToLe(p.formatVersion, 2);
    FromToLe(h, 4);
    FromToLe(|p.payload|, 8);
    LayoutParts(p.formatVersion, p.mode, p.headerBytes, p.payload);
    BodyParts(p.headerBytes, p.payload);
    PayloadParts(p.payload);
    SliceOfLast(Container(p), body, 7, 0, 4);
    SliceOfLast(Container(p), body, 7, 4, 4 + h);
    SliceOfLast(Container(p), body, 7, 4 + h, 12 + h);
    SliceOfLast(body, ToLe(|p.payload|, 8) + p.payload, 4 + h, 0, 8);
    SliceOfLast(body, ToLe(|p.payload|, 8) + p.payload, 4 + h, 8, 8 + |p.payload|);
    SliceOfLast(Container(p), body, 7, 12 + h, |body|);
  }

  lemma PayloadParts(payload: bytes)
    ensures var tail := ToLe(|payload|, 8) + payload;
            tail[0..8] == ToLe(|payload|, 8) && tail[8..8 + |payload|] == payload
  {
  }

  lemma SliceOfLast(s: bytes, last: bytes, at: nat, i: nat, j: nat)
    requires at <= |s| && s[at..] == last && i <= j <= |last|
    ensures s[at + i..at + j] == last[i..j]
    ensures j == |last| ==> s[at + i..] == last[i..]
  {
    assert forall k :: i <= k < j ==> s[at + k] == last[k];
  }

  /** What the decoder answers to anything of a container's shape. */
  lemma ShapedContainerAnswers(json: Json<VaultHeader>, limits: Limits, p: ParsedVaultFile)
    requires |p.headerBytes| < U32_LIMIT && |p.payload| < U64_LIMIT
    ensures Decode(json, Container(p), limits) ==
              if p.formatVersion == 0 || (limits.expected.Some? && limits.expected.value != p.formatVersion) then
                Err(UnsupportedVersion)
              else if p.mode.PlaintextJson? && (!limits.allowPlaintext || !limits.exportAllowed) then
                Err(PlaintextNotAllowed)
              else if |p.headerBytes| > 4096 then Err(HeaderTooLarge)
              else if json.dec(p.headerBytes).None? then Err(Deserialize)
              else if json.dec(p.headerBytes).value.duress.Some? && p.mode.PlaintextJson? then Err(PlaintextNotAllowed)
              else if |p.payload| > limits.maxPayload then Err(PayloadTooLarge)
              else Ok(p.(header := json.dec(p.headerBytes).value))
  {
    LayoutParts(p.formatVersion, p.mode, p.headerBytes, p.payload);
    Widths();
    FromToLe(p.formatVersion, 2);
    ShapedBodyAnswers(json, limits, p);
  }

  lemma ShapedBodyAnswers(json: Json<VaultHeader>, limits: Limits, p: ParsedVaultFile)
    requires |p.headerBytes| < U32_LIMIT && |p.payload| < U64_LIMIT
    ensures DecodeBody(json, Body(p.headerBytes, p.payload), limits, p.formatVersion, p.mode) ==
              if |p.headerBytes| > 4096 then Err(HeaderTooLarge)
              else if json.dec(p.headerBytes).None? then Err(Deserialize)
              else if json.dec(p.headerBytes).value.duress.Some? && p.mode.PlaintextJson? then Err(PlaintextNotAllowed)
              else if |p.payload| > limits.maxPayload then Err(PayloadTooLarge)
              else Ok(p.(header := json.dec(p.headerBytes).value))
  {
    Widths();
    FromToLe(|p.headerBytes|, 4);
    BodyParts(p.headerBytes, p.payload);
    ShapedPayloadAnswers(p.payload, limits);
  }

  lemma BodyParts(headerBytes: bytes, payload: bytes)
    ensures var body, h := Body(headerBytes, payload), |headerBytes|;
            && |body| >= 4 + h && body[..4] == ToLe(h, 4) && body[4..4 + h] == headerBytes
            && body[4 + h..] == ToLe(|payload|, 8) + payload
  {
  }

  lemma ShapedPayloadAnswers(payload: bytes, limits: Limits)
    requires |payload| < U64_LIMIT
    ensures DecodePayload(ToLe(|payload|, 8) + payload, limits) ==
              if |payload| > limits.maxPayload then Err(PayloadTooLarge) else Ok(payload)
  {
    Widths();
    FromToLe(|payload|, 8);
    var tail := ToLe(|payload|, 8) + payload;
    assert tail[..8] == ToLe(|payload|, 8) && tail[8..] == payload;
  }

  /** Another magic number, or a mode byte other than 1 and 2, is refused as such. */
  lemma ForeignFilesAreRefused(json: Json<VaultHeader>, limits: Limits, input: bytes)
    ensures |input| >= 4 && input[..4] != [0x56, 0x4C, 0x54, 0x31] ==> Decode(json, input, limits) == Err(InvalidMagic)
    ensures |input| >= 7 && input[..4] == MAGIC && limits.AcceptsVersion(FromLe2(input[4..6]))
            && input[6] != 1 && input[6] != 2 ==>
              Decode(json, input, limits) == Err(UnsupportedStorageMode)
  {
  }

  /** The encoder refuses version 0, plaintext that policy or duress forbids, and a header it thinks too long. */
  lemma EncodeAnswers(json: Json<VaultHeader>, header: VaultHeader, storage: VaultStorage, version: u16,
                      exportAllowed: bool)
    ensures var r := Encode(json, header, storage, version, exportAllowed);
            var forbidden := storage.PlaintextStorage? && (!exportAllowed || header.duress.Some?);
            && (r == Err(UnsupportedVersion) <==> version == 0)
            && (r == Err(PlaintextNotAllowed) <==> version != 0 && forbidden)
            && (r == Err(HeaderTooLarge) <==>
                  version != 0 && !forbidden && |json.enc(header)| % 0x1_0000_0000 > 4096)
            && (r.Err? ==> r.error.UnsupportedVersion? || r.error.PlaintextNotAllowed? || r.error.HeaderTooLarge?)
  {
  }
}
