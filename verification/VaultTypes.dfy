/** The vault container's data types, and JSON as an abstract encode/decode pair. */
module VaultTypes {
  import opened Common

  const MAGIC: bytes := [0x56, 0x4C, 0x54, 0x31] // "VLT1"
  const MAX_HEADER_LEN: nat := 4096
  const MAX_VAULT_CONTAINER_PAYLOAD_LEN: nat := 16 * 1024 * 1024

  type Password = string

  /** A serde_json encoder and decoder for one type. */
  datatype Json<!T(!new)> = Json(enc: T -> bytes, dec: bytes -> Option<T>) {
    /** What is written can be read back; JSON text is never empty. */
    ghost predicate RoundTrips() { forall t :: dec(enc(t)) == Some(t) && enc(t) != [] }
  }

  datatype KdfParams = Argon2id(memKib: u32, timeCost: u32, lanes: u32)

  datatype CryptoHeader = CryptoHeader(kdf: KdfParams, salt: bytes, nonce: bytes)

  datatype DualVaultHeader = DualVaultHeader(primary: CryptoHeader, decoy: CryptoHeader)

  datatype VaultHeader = VaultHeader(schemaVersion: u16, vaultId: nat, crypto: CryptoHeader,
                                     duress: Option<DualVaultHeader>)

  datatype StorageMode = Encrypted | PlaintextJson

  datatype VaultStorage = EncryptedStorage(ciphertext: bytes) | PlaintextStorage(json: bytes) {
    function Mode(): StorageMode { if EncryptedStorage? then Encrypted else PlaintextJson }
    function Payload(): bytes { if EncryptedStorage? then ciphertext else json }
  }

  datatype VaultFile = VaultFile(header: VaultHeader, storage: VaultStorage)

  datatype ParsedVaultFile = ParsedVaultFile(formatVersion: u16, header: VaultHeader, headerBytes: bytes,
                                             mode: StorageMode, payload: bytes)

  datatype VaultParseError =
    | InvalidMagic
    | UnsupportedVersion
    | PlaintextNotAllowed
    | UnsupportedStorageMode
    | HeaderTooLarge
    | PayloadTooLarge
    | TrailingBytes
    | InvalidHeader
    | InvalidPayload
    | AuthFailed
    | Io
    | Serialize
    | Deserialize
}
