/** Import of a vault container from a signed backup: the two containers composed. */
module SignedImport {
  import opened Common
  import opened VaultTypes
  import opened Policy
  import opened BackupCodec
  import VaultCodec

  datatype ImportError = ImportPolicyDenied | ImportAuthFailed | ImportPayloadTooLarge | ImportInvalidFormat

  function MapVaultParse(e: VaultParseError): ImportError {
    match e
    case AuthFailed => ImportAuthFailed
    case PayloadTooLarge => ImportPayloadTooLarge
    case _ => ImportInvalidFormat
  }

  const IMPORT_LIMITS := VaultCodec.Limits(None, MAX_VAULT_CONTAINER_PAYLOAD_LEN, false, false)

  function ImportSigned(policy: PolicyContext, signing: Signing, json: Json<BackupHeader>, vaultJson: Json<VaultHeader>,
                        password: Password, input: bytes): Result<ParsedVaultFile, ImportError>
  {
    if policy.IsDecoy() then Err(ImportPolicyDenied)
    else
      match BackupCodec.Decode(policy, signing, json, password, input)
      case Err(_) => Err(ImportAuthFailed)
      case Ok(container) =>
        match VaultCodec.Decode(vaultJson, container, IMPORT_LIMITS)
        case Err(e) => Err(MapVaultParse(e))
        case Ok(parsed) => if parsed.mode.PlaintextJson? then Err(ImportInvalidFormat) else Ok(parsed)
  }

  /** Every encrypted vault within the container's caps fits a backup and is recovered field for field. */
  lemma SignedImportRecoversVault(policy: PolicyContext, signing: Signing, json: Json<BackupHeader>,
                                  vaultJson: Json<VaultHeader>, password: Password, kdf: KdfParams, salt: bytes,
                                  header: VaultHeader, ciphertext: bytes, version: u16, exportAllowed: bool)
    requires json.RoundTrips() && vaultJson.RoundTrips() && signing.Correct()
    requires policy.AllowExposure()
    requires signing.derive(password, BackupHeader(BACKUP_VERSION, kdf, salt)).Some?
    requires |json.enc(BackupHeader(BACKUP_VERSION, kdf, salt))| < U32_LIMIT
    requires |ciphertext| <= MAX_VAULT_CONTAINER_PAYLOAD_LEN && |vaultJson.enc(header)| <= MAX_HEADER_LEN
            && version != 0
    ensures VaultCodec.Encode(vaultJson, header, EncryptedStorage(ciphertext), version, exportAllowed).Ok?
    ensures var container := VaultCodec.Encode(vaultJson, header, EncryptedStorage(ciphertext), version,
                                               exportAllowed).value;
            var backup := BackupCodec.Encode(policy, signing, json, password, container, kdf, salt);
            && backup.Ok?
            && ImportSigned(policy, signing, json, vaultJson, password, backup.value)
               == Ok(ParsedVaultFile(version, header, vaultJson.enc(header), Encrypted, ciphertext))
  {
    var storage := EncryptedStorage(ciphertext);
    var container := VaultCodec.Encode(vaultJson, header, storage, version, exportAllowed).value;
    assert |container| <= 4 + 2 + 1 + 4 + MAX_HEADER_LEN + 8 + MAX_VAULT_CONTAINER_PAYLOAD_LEN;
    BackupCodec.DecodeInvertsEncode(policy, signing, json, password, container, kdf, salt);
    VaultCodec.DecodeInvertsEncode(vaultJson, header, storage, version, exportAllowed, IMPORT_LIMITS);
  }

  /** What the import answers: denied to a decoy session, any failure of the backup as failed authentication, a
      plaintext
      or malformed container as an invalid format. */
  lemma ImportAnswers(policy: PolicyContext, signing: Signing, json: Json<BackupHeader>, vaultJson: Json<VaultHeader>,
                      password: Password, input: bytes)
    ensures var r := ImportSigned(policy, signing, json, vaultJson, password, input);
            var backup := BackupCodec.Decode(policy, signing, json, password, input);
            && (r == Err(ImportPolicyDenied) <==> policy.outcome.Decoy?)
            && (policy.outcome.Primary? && backup.Err? ==> r == Err(ImportAuthFailed))
            && (policy.outcome.Primary? && backup.Ok? ==>
                  var vault := VaultCodec.Decode(vaultJson, backup.value, IMPORT_LIMITS);
                  && (vault.Ok? ==> vault.value.mode.Encrypted? && r == Ok(vault.value))
                  && (vault == Err(VaultParseError.PayloadTooLarge) ==> r == Err(ImportPayloadTooLarge))
                  && (vault.Err? && !vault.error.PayloadTooLarge? && !vault.error.AuthFailed? ==>
                        r == Err(ImportInvalidFormat)))
  {
    if BackupCodec.Decode(policy, signing, json, password, input).Ok? {
      var container := BackupCodec.Decode(policy, signing, json, password, input).value;
      var vault := VaultCodec.Decode(vaultJson, container, IMPORT_LIMITS);
      if vault.Ok? { VaultCodec.DecodeIsExact(vaultJson, container, IMPORT_LIMITS, vault.value); }
    }
  }
}
