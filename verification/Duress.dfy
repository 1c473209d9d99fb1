/**
 Unlocking, duress envelopes, vault creation and the migration to a dual envelope.

 The key derivation, the AEAD and the random salts and nonces are parameters; `Crypto.Ideal`
 states what the theorems assume of them.
*/
module Duress {
  import opened Common
  import opened VaultTypes
  import opened Policy
  import VaultCodec
  import Text
  import Crud

  type MasterKey = bytes

  datatype Envelope = Envelope(primaryCt: bytes, decoyCt: bytes)

  /** Argon2id's policy bounds. */
  predicate ValidKdf(p: KdfParams) {
    64 * 1024 <= p.memKib <= 512 * 1024 && 3 <= p.timeCost <= 5 && p.lanes == 1
  }

  datatype Crypto = Crypto(argon2: (Password, bytes, KdfParams) -> Option<MasterKey>,
                           seal: (MasterKey, bytes, bytes, bytes) -> Option<bytes>,
                           open: (MasterKey, bytes, bytes, bytes) -> Option<bytes>)
  {
    /** Key derivation first checks the parameters. */
    function Derive(password: Password, ch: CryptoHeader): Option<MasterKey> {
      if ValidKdf(ch.kdf) then argon2(password, ch.salt, ch.kdf) else None
    }

    /** A sealed text opens under its own key, nonce and associated data, and under nothing else. */
    ghost predicate Ideal() {
      && (forall k, n, pt, aad, k', n', aad'
            {:trigger seal(k, n, pt, aad), open(k', n', seal(k, n, pt, aad).value, aad')} ::
            seal(k, n, pt, aad).Some? ==>
              open(k', n', seal(k, n, pt, aad).value, aad') == if (k', n', aad') == (k, n, aad) then Some(pt) else None)
      && (forall p, q, salt, kdf {:trigger argon2(p, salt, kdf), argon2(q, salt, kdf)} ::
            argon2(p, salt, kdf).Some? && argon2(p, salt, kdf) == argon2(q, salt, kdf) ==> p == q)
    }
  }

  // The ideal laws can be met: framing key, nonce and associated data in front of the plaintext does it.

  function Frame(b: bytes): bytes { if b == [] then [0] else [1, b[0]] + Frame(b[1..]) }

  lemma {:induction false} FramesAreSelfDelimiting(a: bytes, b: bytes, x: bytes, y: bytes)
    requires Frame(a) + x == Frame(b) + y
    ensures a == b && x == y
  {
    var l, r := Frame(a) + x, Frame(b) + y;
    assert (a == [] <==> l[0] == 0) && (b == [] <==> r[0] == 0);
    if a == [] {
      assert x == l[1..] && y == r[1..];
    } else {
      assert l[1] == a[0] && r[1] == b[0];
      assert l[2..] == Frame(a[1..]) + x && r[2..] == Frame(b[1..]) + y;
      FramesAreSelfDelimiting(a[1..], b[1..], x, y);
      assert a == [a[0]] + a[1..] && b == [b[0]] + b[1..];
    }
  }

  function FramedSeal(k: bytes, n: bytes, pt: bytes, aad: bytes): bytes { Frame(k) + (Frame(n) + (Frame(aad) + pt)) }

  ghost function FramedOpen(k: bytes, n: bytes, ct: bytes, aad: bytes): Option<bytes> {
    if exists pt :: ct == FramedSeal(k, n, pt, aad) then
      var pt :| ct == FramedSeal(k, n, pt, aad);
      Some(pt)
    else None
  }

  lemma CryptoLawsAreSatisfiable() returns (c: Crypto)
    ensures c.Ideal()
  {
    c := Crypto((p, salt, kdf) => Some(Text.Utf8(p)), (k, n, pt, aad) => Some(FramedSeal(k, n, pt, aad)), FramedOpen);
    forall k, n, pt, aad, k', n', aad'
      ensures FramedOpen(k', n', FramedSeal(k, n, pt, aad), aad')
              == if (k', n', aad') == (k, n, aad) then Some(pt) else None
    {
      var ct := FramedSeal(k, n, pt, aad);
      forall pt' | ct == FramedSeal(k', n', pt', aad') ensures (k', n', aad', pt') == (k, n, aad, pt) {
        FramesAreSelfDelimiting(k, k', Frame(n) + (Frame(aad) + pt), Frame(n') + (Frame(aad') + pt'));
        FramesAreSelfDelimiting(n, n', Frame(aad) + pt, Frame(aad') + pt');
        FramesAreSelfDelimiting(aad, aad', pt, pt');
      }
    }
    forall p, q, salt, kdf | c.argon2(p, salt, kdf) == c.argon2(q, salt, kdf) ensures p == q {
      Text.Utf8RoundTrip(p);
      Text.Utf8RoundTrip(q);
    }
  }

  /** The three JSON formats involved. */
  datatype Formats = Formats(header: Json<VaultHeader>, envelope: Json<Envelope>, payload: Crud.PayloadJson) {
    ghost predicate Lawful() { header.RoundTrips() && envelope.RoundTrips() && payload.Lawful() }
  }

  // --- duress.rs ---

  function DecryptWith(c: Crypto, headerBytes: bytes, ch: CryptoHeader, ct: bytes, password: Password): Option<bytes> {
    match c.Derive(password, ch)
    case None => None
    case Some(key) => c.open(key, ch.nonce, ct, headerBytes)
  }

  function EncryptWith(c: Crypto, headerBytes: bytes, ch: CryptoHeader, pt: bytes, password: Password)
    : Result<bytes, VaultParseError>
  {
    match c.Derive(password, ch)
    case None => Err(AuthFailed)
    case Some(key) =>
      match c.seal(key, ch.nonce, pt, headerBytes)
      case None => Err(AuthFailed)
      case Some(ct) => Ok(ct)
  }

  /** Tries the primary branch, then the decoy branch. */
  function UnlockEnvelope(c: Crypto, f: Formats, headerBytes: bytes, dual: DualVaultHeader, envelope: Envelope,
                          password: Password): Result<(UnlockOutcome, bytes), VaultParseError>
  {
    match DecryptWith(c, headerBytes, dual.primary, envelope.primaryCt, password)
    case Some(pt) => if f.payload.dec(pt).None? then Err(InvalidPayload) else Ok((Primary, pt))
    case None =>
      match DecryptWith(c, headerBytes, dual.decoy, envelope.decoyCt, password)
      case Some(pt) => if f.payload.dec(pt).None? then Err(InvalidPayload) else Ok((Decoy, pt))
      case None => Err(AuthFailed)
  }

  function EncryptEnvelope(c: Crypto, f: Formats, headerBytes: bytes, dual: DualVaultHeader, primaryPassword: Password,
                           decoyPassword: Password, primaryPt: bytes, decoyPt: bytes): Result<Envelope, VaultParseError>
  {
    if f.payload.dec(primaryPt).None? || f.payload.dec(decoyPt).None? then Err(InvalidPayload)
    else
      match EncryptWith(c, headerBytes, dual.primary, primaryPt, primaryPassword)
      case Err(e) => Err(e)
      case Ok(primaryCt) =>
        match EncryptWith(c, headerBytes, dual.decoy, decoyPt, decoyPassword)
        case Err(e) => Err(e)
        case Ok(decoyCt) => Ok(Envelope(primaryCt, decoyCt))
  }

  // --- unlock.rs ---

  datatype UnlockError = KdfFailed | UnlockAuthFailed | PayloadDecode

  function UnlockVault(c: Crypto, f: Formats, parsed: ParsedVaultFile, password: Password)
    : Result<(UnlockOutcome, bytes), UnlockError>
  {
    if parsed.mode != Encrypted then Err(UnlockAuthFailed)
    else if parsed.header.duress.Some? then
      match f.envelope.dec(parsed.payload)
      case None => Err(PayloadDecode)
      case Some(envelope) =>
        match UnlockEnvelope(c, f, parsed.headerBytes, parsed.header.duress.value, envelope, password)
        case Err(_) => Err(UnlockAuthFailed)
        case Ok(branch) => Ok(branch)
    else
      match c.Derive(password, parsed.header.crypto)
      case None => Err(KdfFailed)
      case Some(key) =>
        match c.open(key, parsed.header.crypto.nonce, parsed.payload, parsed.headerBytes)
        case None => Err(UnlockAuthFailed)
        case Some(pt) => Ok((Primary, pt))
  }

  // --- migrate.rs ---

  /** The fresh salts and nonces of a dual envelope. */
  datatype Fresh = Fresh(salt1: bytes, nonce1: bytes, salt2: bytes, nonce2: bytes)

  function DualHeader(schemaVersion: u16, vaultId: nat, kdf: KdfParams, rnd: Fresh): VaultHeader {
    var primary, decoy := CryptoHeader(kdf, rnd.salt1, rnd.nonce1), CryptoHeader(kdf, rnd.salt2, rnd.nonce2);
    VaultHeader(schemaVersion, vaultId, primary, Some(DualVaultHeader(primary, decoy)))
  }

  function EnableDuress(c: Crypto, f: Formats, vault: VaultFile, primaryPassword: Password, decoyPassword: Password,
                        decoyPayload: Crud.Payload, kdf: KdfParams, rnd: Fresh): Result<VaultFile, VaultParseError>
  {
    if vault.storage.PlaintextStorage? || vault.header.duress.Some? then Err(InvalidHeader)
    else
      match DecryptWith(c, f.header.enc(vault.header), vault.header.crypto, vault.storage.ciphertext, primaryPassword)
      case None => Err(AuthFailed)
      case Some(primaryPt) =>
        if f.payload.dec(primaryPt).None? then Err(InvalidPayload)
        else
          var header := DualHeader(vault.header.schemaVersion, vault.header.vaultId, kdf, rnd);
          match EncryptEnvelope(c, f, f.header.enc(header), header.duress.value, primaryPassword, decoyPassword,
                                primaryPt, f.payload.enc(decoyPayload))
          case Err(e) => Err(e)
          case Ok(envelope) => Ok(VaultFile(header, EncryptedStorage(f.envelope.enc(envelope))))
  }

  // --- create.rs ---

  function CreateEncrypted(c: Crypto, f: Formats, password: Password, payload: Crud.Payload, schemaVersion: u16,
                           vaultId: nat, kdf: KdfParams, salt: bytes, nonce: bytes): Result<VaultFile, VaultParseError>
  {
    var ch := CryptoHeader(kdf, salt, nonce);
    var header := VaultHeader(schemaVersion, vaultId, ch, None);
    match c.Derive(password, ch)
    case None => Err(InvalidHeader)
    case Some(key) =>
      match c.seal(key, nonce, f.payload.enc(payload), f.header.enc(header))
      case None => Err(Serialize)
      case Some(ct) => Ok(VaultFile(header, EncryptedStorage(ct)))
  }

  function CreateDuress(c: Crypto, f: Formats, primaryPassword: Password, decoyPassword: Password,
                        primaryPayload: Crud.Payload, decoyPayload: Crud.Payload, schemaVersion: u16, vaultId: nat,
                        kdf: KdfParams, rnd: Fresh): Result<VaultFile, VaultParseError>
  {
    var header := DualHeader(schemaVersion, vaultId, kdf, rnd);
    match EncryptEnvelope(c, f, f.header.enc(header), header.duress.value, primaryPassword, decoyPassword,
                          f.payload.enc(primaryPayload), f.payload.enc(decoyPayload))
    case Err(e) => Err(e)
    case Ok(envelope) => Ok(VaultFile(header, EncryptedStorage(f.envelope.enc(envelope))))
  }

  // ------------------------------------------------------------------------------------------
  // What each password opens
  // ------------------------------------------------------------------------------------------

  /** What every password opens in a dual vault: the primary password first, then the decoy's. */
  function DualMeaning(q: Password, primaryPassword: Password, decoyPassword: Password, primaryPt: bytes,
                       decoyPt: bytes)
    : Result<(UnlockOutcome, bytes), UnlockError>
  {
    if q == primaryPassword then Ok((Primary, primaryPt))
    else if q == decoyPassword then Ok((Decoy, decoyPt))
    else Err(UnlockAuthFailed)
  }

  /** Both branches use the parameters asked for, each its own fresh salt and nonce. */
  predicate IsDualHeader(header: VaultHeader, kdf: KdfParams, rnd: Fresh) {
    header.duress == Some(DualVaultHeader(CryptoHeader(kdf, rnd.salt1, rnd.nonce1),
                                          CryptoHeader(kdf, rnd.salt2, rnd.nonce2)))
  }

  /** The file as the decoder returns it after the encoder wrote it. */
  function Reparsed(f: Formats, vault: VaultFile, version: u16): ParsedVaultFile {
    ParsedVaultFile(version, vault.header, f.header.enc(vault.header), vault.storage.Mode(), vault.storage.Payload())
  }

  /** An encrypted vault within the decoder's caps survives the container. */
  lemma ContainerKeepsVault(f: Formats, vault: VaultFile, version: u16, limits: VaultCodec.Limits)
    requires f.Lawful() && vault.storage.EncryptedStorage? && limits.AcceptsVersion(version)
    requires |f.header.enc(vault.header)| <= MAX_HEADER_LEN && |vault.storage.ciphertext| <= limits.maxPayload
    ensures VaultCodec.Encode(f.header, vault.header, vault.storage, version, false).Ok?
    ensures VaultCodec.Decode(f.header, VaultCodec.Encode(f.header, vault.header, vault.storage, version, false).value,
                              limits)
            == Ok(Reparsed(f, vault, version))
  {
    VaultCodec.DecodeInvertsEncode(f.header, vault.header, vault.storage, version, false, limits);
  }

  /** The key of `q` under `ch'` and the nonce of `ch'` are those that `password` sealed with under `ch`. */
  predicate SameSeal(c: Crypto, ch: CryptoHeader, password: Password, ch': CryptoHeader, q: Password) {
    c.Derive(q, ch').Some? && c.Derive(q, ch') == c.Derive(password, ch) && ch'.nonce == ch.nonce
  }

  /** A sealed text opens exactly under its own key, nonce and header bytes. */
  lemma SealedOpensOnlyUnderItsHeader(c: Crypto, aad: bytes, ch: CryptoHeader, pt: bytes, password: Password,
                                      aad': bytes, ch': CryptoHeader, q: Password)
    requires c.Ideal() && EncryptWith(c, aad, ch, pt, password).Ok?
    ensures DecryptWith(c, aad', ch', EncryptWith(c, aad, ch, pt, password).value, q)
            == if SameSeal(c, ch, password, ch', q) && aad' == aad then Some(pt) else None
  {
    var key := c.Derive(password, ch).value;
    var ct := c.seal(key, ch.nonce, pt, aad).value;
    if c.Derive(q, ch').Some? {
      var key' := c.Derive(q, ch').value;
      assert c.open(key', ch'.nonce, ct, aad')
             == if (key', ch'.nonce, aad') == (key, ch.nonce, aad) then Some(pt) else None;
    }
  }

  lemma SameSealIsSamePassword(c: Crypto, ch: CryptoHeader, password: Password, q: Password)
    requires c.Ideal() && c.Derive(password, ch).Some?
    ensures SameSeal(c, ch, password, ch, q) <==> q == password
  {
  }

  lemma SealedOpensOnlyForItsPassword(c: Crypto, aad: bytes, ch: CryptoHeader, pt: bytes, password: Password,
                                      q: Password)
    requires c.Ideal() && EncryptWith(c, aad, ch, pt, password).Ok?
    ensures DecryptWith(c, aad, ch, EncryptWith(c, aad, ch, pt, password).value, q)
            == if q == password then Some(pt) else None
  {
    SealedOpensOnlyUnderItsHeader(c, aad, ch, pt, password, aad, ch, q);
    SameSealIsSamePassword(c, ch, password, q);
  }

  /** What an unlock answers, failure by failure. */
  lemma UnlockAnswers(c: Crypto, f: Formats, parsed: ParsedVaultFile, q: Password)
    ensures var r := UnlockVault(c, f, parsed, q);
            && (r == Err(KdfFailed) <==>
                  parsed.mode.Encrypted? && parsed.header.duress.None? && c.Derive(q, parsed.header.crypto).None?)
            && (r == Err(PayloadDecode) <==>
                  parsed.mode.Encrypted? && parsed.header.duress.Some? && f.envelope.dec(parsed.payload).None?)
            && (r.Ok? <==>
                  && parsed.mode.Encrypted?
                  && if parsed.header.duress.None? then
                       DecryptWith(c, parsed.headerBytes, parsed.header.crypto, parsed.payload, q).Some?
                     else
                       && f.envelope.dec(parsed.payload).Some?
                       && OpensBranch(c, f, parsed.headerBytes, parsed.header.duress.value,
                                      f.envelope.dec(parsed.payload).value, q))
            && (r.Err? ==> r.error.KdfFailed? || r.error.PayloadDecode? || r.error.UnlockAuthFailed?)
  {
  }

  /** The password decrypts a branch, the primary one first, to a readable payload. */
  predicate OpensBranch(c: Crypto, f: Formats, aad: bytes, dual: DualVaultHeader, envelope: Envelope, q: Password) {
    var primary := DecryptWith(c, aad, dual.primary, envelope.primaryCt, q);
    var decoy := DecryptWith(c, aad, dual.decoy, envelope.decoyCt, q);
    if primary.Some? then f.payload.dec(primary.value).Some? else decoy.Some? && f.payload.dec(decoy.value).Some?
  }

  /** What an envelope opens to under any header and header bytes: each branch opens under its own salt, nonce and
      parameters, and neither when a byte of the header was changed. */
  lemma EnvelopeOpensUnder(c: Crypto, f: Formats, aad: bytes, dual: DualVaultHeader, p: Password, d: Password,
                           primaryPt: bytes, decoyPt: bytes, aad': bytes, dual': DualVaultHeader, q: Password)
    requires c.Ideal() && EncryptEnvelope(c, f, aad, dual, p, d, primaryPt, decoyPt).Ok?
    ensures UnlockEnvelope(c, f, aad', dual', EncryptEnvelope(c, f, aad, dual, p, d, primaryPt, decoyPt).value, q) ==
              if aad' == aad && SameSeal(c, dual.primary, p, dual'.primary, q) then Ok((Primary, primaryPt))
              else if aad' == aad && SameSeal(c, dual.decoy, d, dual'.decoy, q) then Ok((Decoy, decoyPt))
              else Err(AuthFailed)
  {
    SealedOpensOnlyUnderItsHeader(c, aad, dual.primary, primaryPt, p, aad', dual'.primary, q);
    SealedOpensOnlyUnderItsHeader(c, aad, dual.decoy, decoyPt, d, aad', dual'.decoy, q);
  }

  lemma EnvelopeMeaning(c: Crypto, f: Formats, header: VaultHeader, version: u16, p: Password, d: Password,
                        primaryPt: bytes, decoyPt: bytes, q: Password)
    requires c.Ideal() && f.Lawful() && header.duress.Some?
    requires EncryptEnvelope(c, f, f.header.enc(header), header.duress.value, p, d, primaryPt, decoyPt).Ok?
    ensures var envelope := EncryptEnvelope(c, f, f.header.enc(header), header.duress.value, p, d, primaryPt,
                                            decoyPt).value;
            UnlockVault(c, f, ParsedVaultFile(version, header, f.header.enc(header), Encrypted,
                                              f.envelope.enc(envelope)), q)
            == DualMeaning(q, p, d, primaryPt, decoyPt)
  {
    var dual, aad := header.duress.value, f.header.enc(header);
    EnvelopeOpensUnder(c, f, aad, dual, p, d, primaryPt, decoyPt, aad, dual, q);
    SameSealIsSamePassword(c, dual.primary, p, q);
    SameSealIsSamePassword(c, dual.decoy, d, q);
  }

  /** Migration succeeds exactly on an encrypted single vault that the primary password opens to a payload. */
  lemma MigrationSucceedsIff(c: Crypto, f: Formats, vault: VaultFile, p: Password, d: Password,
                             decoyPayload: Crud.Payload, kdf: KdfParams, rnd: Fresh, version: u16)
    requires f.Lawful() && version != 0
    requires forall k, n, pt, aad :: c.seal(k, n, pt, aad).Some?
    requires forall q, salt, params :: c.argon2(q, salt, params).Some?
    ensures EnableDuress(c, f, vault, p, d, decoyPayload, kdf, rnd).Ok? <==>
              && vault.storage.EncryptedStorage? && vault.header.duress.None? && ValidKdf(kdf)
              && Crud.AllReadable(decoyPayload)
              && UnlockVault(c, f, Reparsed(f, vault, version), p).Ok?
              && f.payload.dec(UnlockVault(c, f, Reparsed(f, vault, version), p).value.1).Some?
  {
  }

  /**
   Migration preserves meaning. Read back from its container, the migrated vault gives the primary
   password the very bytes the old vault gave it, the decoy password the serialised decoy
   payload, and everyone else AuthFailed; identity and schema version stay.
  */
  lemma MigrationPreservesMeaning(c: Crypto, f: Formats, vault: VaultFile, p: Password, d: Password,
                                  decoyPayload: Crud.Payload, kdf: KdfParams, rnd: Fresh,
                                  version: u16, limits: VaultCodec.Limits, q: Password)
    requires c.Ideal() && f.Lawful() && limits.AcceptsVersion(version)
    requires EnableDuress(c, f, vault, p, d, decoyPayload, kdf, rnd).Ok?
    requires var migrated := EnableDuress(c, f, vault, p, d, decoyPayload, kdf, rnd).value;
             && |f.header.enc(vault.header)| <= MAX_HEADER_LEN && |vault.storage.Payload()| <= limits.maxPayload
             && |f.header.enc(migrated.header)| <= MAX_HEADER_LEN && |migrated.storage.Payload()| <= limits.maxPayload
    ensures var migrated := EnableDuress(c, f, vault, p, d, decoyPayload, kdf, rnd).value;
            var before' := VaultCodec.Encode(f.header, vault.header, vault.storage, version, false);
            var after' := VaultCodec.Encode(f.header, migrated.header, migrated.storage, version, false);
            && before'.Ok? && VaultCodec.Decode(f.header, before'.value, limits).Ok?
            && after'.Ok? && VaultCodec.Decode(f.header, after'.value, limits).Ok?
            && migrated.header.vaultId == vault.header.vaultId
            && migrated.header.schemaVersion == vault.header.schemaVersion
            && IsDualHeader(migrated.header, kdf, rnd)
            && var before := UnlockVault(c, f, VaultCodec.Decode(f.header, before'.value, limits).value, p);
              && before.Ok? && before.value.0 == Primary
              && UnlockVault(c, f, VaultCodec.Decode(f.header, after'.value, limits).value, q)
                 == DualMeaning(q, p, d, before.value.1, f.payload.enc(decoyPayload))
  {
    var migrated := EnableDuress(c, f, vault, p, d, decoyPayload, kdf, rnd).value;
    ContainerKeepsVault(f, vault, version, limits);
    ContainerKeepsVault(f, migrated, version, limits);
    var primaryPt := DecryptWith(c, f.header.enc(vault.header), vault.header.crypto, vault.storage.ciphertext, p).value;
    EnvelopeMeaning(c, f, migrated.header, version, p, d, primaryPt, f.payload.enc(decoyPayload), q);
  }

  /** Why a migration is refused. */
  lemma MigrationRefusals(c: Crypto, f: Formats, vault: VaultFile, p: Password, d: Password,
                          decoyPayload: Crud.Payload, kdf: KdfParams, rnd: Fresh, version: u16)
    requires f.Lawful()
    ensures var r := EnableDuress(c, f, vault, p, d, decoyPayload, kdf, rnd);
            var before := UnlockVault(c, f, Reparsed(f, vault, version), p);
            && (r == Err(InvalidHeader) <==> vault.storage.PlaintextStorage? || vault.header.duress.Some?)
            && (vault.storage.EncryptedStorage? && vault.header.duress.None? && before.Err? ==> r == Err(AuthFailed))
            && (vault.storage.EncryptedStorage? && vault.header.duress.None? && before.Ok?
                && (f.payload.dec(before.value.1).None? || !Crud.AllReadable(decoyPayload)) ==>
                  r == Err(InvalidPayload))
  {
  }

  /** A new duress vault opens for its two passwords, a new single vault for its one; anyone else, and anyone whose file
      has a changed header byte, fails authentication. */
  lemma CreatedVaultsOpen(c: Crypto, f: Formats, p: Password, d: Password, primary: Crud.Payload, decoy: Crud.Payload,
                          schemaVersion: u16, vaultId: nat, kdf: KdfParams, rnd: Fresh, version: u16, q: Password,
                          headerBytes: bytes)
    requires c.Ideal() && f.Lawful()
    ensures var dual := CreateDuress(c, f, p, d, primary, decoy, schemaVersion, vaultId, kdf, rnd);
            dual.Ok? ==>
              && dual.value.header.schemaVersion == schemaVersion && dual.value.header.vaultId == vaultId
              && IsDualHeader(dual.value.header, kdf, rnd)
              && UnlockVault(c, f, Reparsed(f, dual.value, version).(headerBytes := headerBytes), q)
                 == if headerBytes == f.header.enc(dual.value.header)
                    then DualMeaning(q, p, d, f.payload.enc(primary), f.payload.enc(decoy))
                    else Err(UnlockAuthFailed)
    ensures var single := CreateEncrypted(c, f, p, primary, schemaVersion, vaultId, kdf, rnd.salt1, rnd.nonce1);
            single.Ok? ==>
              && single.value.header ==
                   VaultHeader(schemaVersion, vaultId, CryptoHeader(kdf, rnd.salt1, rnd.nonce1), None)
              && UnlockVault(c, f, Reparsed(f, single.value, version).(headerBytes := headerBytes), q)
                 == if q == p && headerBytes == f.header.enc(single.value.header)
                    then Ok((Primary, f.payload.enc(primary)))
                    else if c.Derive(q, single.value.header.crypto).Some? then Err(UnlockAuthFailed)
                    else Err(KdfFailed)
  {
    CreatedDualOpens(c, f, p, d, primary, decoy, schemaVersion, vaultId, kdf, rnd, version, q, headerBytes);
    var single := CreateEncrypted(c, f, p, primary, schemaVersion, vaultId, kdf, rnd.salt1, rnd.nonce1);
    if single.Ok? {
      var header := single.value.header;
      SealedOpensOnlyUnderItsHeader(c, f.header.enc(header), header.crypto, f.payload.enc(primary), p,
                                    headerBytes, header.crypto, q);
      SameSealIsSamePassword(c, header.crypto, p, q);
    }
  }

  lemma CreatedDualOpens(c: Crypto, f: Formats, p: Password, d: Password, primary: Crud.Payload, decoy: Crud.Payload,
                         schemaVersion: u16, vaultId: nat, kdf: KdfParams, rnd: Fresh, version: u16, q: Password,
                         headerBytes: bytes)
    requires c.Ideal() && f.Lawful()
    ensures var dual := CreateDuress(c, f, p, d, primary, decoy, schemaVersion, vaultId, kdf, rnd);
            dual.Ok? ==>
              && IsDualHeader(dual.value.header, kdf, rnd)
              && UnlockVault(c, f, Reparsed(f, dual.value, version).(headerBytes := headerBytes), q)
                 == if headerBytes == f.header.enc(dual.value.header)
                    then DualMeaning(q, p, d, f.payload.enc(primary), f.payload.enc(decoy))
                    else Err(UnlockAuthFailed)
  {
    var header := DualHeader(schemaVersion, vaultId, kdf, rnd);
    if CreateDuress(c, f, p, d, primary, decoy, schemaVersion, vaultId, kdf, rnd).Ok? {
      var dual, aad := header.duress.value, f.header.enc(header);
      EnvelopeOpensUnder(c, f, aad, dual, p, d, f.payload.enc(primary), f.payload.enc(decoy), headerBytes, dual, q);
      SameSealIsSamePassword(c, dual.primary, p, q);
      SameSealIsSamePassword(c, dual.decoy, d, q);
    }
  }

  /** When the primitives do not fail, creation succeeds exactly on parameters in range and, for a duress vault, on
      payloads that can be read back. */
  lemma CreationSucceedsIff(c: Crypto, f: Formats, p: Password, d: Password, primary: Crud.Payload, decoy: Crud.Payload,
                            schemaVersion: u16, vaultId: nat, kdf: KdfParams, rnd: Fresh)
    requires f.Lawful()
    requires forall k, n, pt, aad :: c.seal(k, n, pt, aad).Some?
    requires forall q, salt, params :: c.argon2(q, salt, params).Some?
    ensures CreateEncrypted(c, f, p, primary, schemaVersion, vaultId, kdf, rnd.salt1, rnd.nonce1).Ok? <==> InRange(kdf)
    ensures CreateDuress(c, f, p, d, primary, decoy, schemaVersion, vaultId, kdf, rnd).Ok? <==>
              InRange(kdf) && Crud.AllReadable(primary) && Crud.AllReadable(decoy)
  {
  }

  /** 64 to 512 MiB of memory, 3 to 5 passes, one lane. */
  predicate InRange(kdf: KdfParams) {
    65_536 <= kdf.memKib <= 524_288 && 3 <= kdf.timeCost && kdf.timeCost <= 5 && kdf.lanes == 1
  }
}
