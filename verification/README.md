# ViperVault core, verified

A Dafny model of ViperVault's Rust core, with proofs of what its components promise together.

- **Auto-lock** (`AutoLock`): the session manager as a step machine. Every atomic access to shared state is one
  action, and any number of unlock, lock, activity, mutation and timer tasks interleave. The generation counter
  is unbounded.
- **Sessions and entries** (`Policy`, `LockManager`, `Entries`, `Crud`): the manager's session as a class over its
  event history, its authorization as a condition on that history, in-place entry updates, and the entry operations
  over the re-serialised plaintext buffer as a refinement of an insertion-ordered map.
- **Storage** (`Storage`, `StorageProtocol`): one write against a small file system with failing steps, and the
  protocol of readers and writers under the sidecar lock with crashes and power loss.
- **Containers and re-encryption** (`LittleEndian`, `VaultTypes`, `VaultCodec`, `BackupCodec`, `SignedImport`,
  `Duress`): the two byte formats, their composition, and vault creation, unlocking and the migration to a dual
  envelope.
- **OTPAuth and import** (`Text`, `Base32`, `OtpAuth`, `FirstOccurrence`, `Interop`): the URI printer and parser
  down to UTF-8 and percent-encoding, and the deduplicating list import.
- **TOTP and throttling** (`Totp.dfy`, module `TotpEngine`; `Throttle`): truncation on bits, time windows, printed
  codes, and the backoff counter behind the authentication gate.

Cryptography, JSON, the clock, random numbers and fresh identifiers are parameters. Their laws are predicates
(`Crypto.Ideal`, `Signing.Correct`, `Signing.Issues`, `Json.RoundTrips`, `PayloadJson.Lawful`,
`Hmac.Lawful`, `Decoder.Lawful`, `UrlParser` with `Faithful`), and the two strongest are shown satisfiable
(`Duress.CryptoLawsAreSatisfiable`, `BackupCodec.SigningLawIsSatisfiable`).

Where the code does less than its documentation suggests, a concrete run or the exact condition is proved:

- Overlapping unlocks can leave an unlocked vault without a live timer of the current generation
  (`OverlapLosesCoverage`, a run; `LiveTimerIff`, the condition). `CoverageIff` is the condition for such a timer that
  also hears activity, and calls that do not overlap always meet it (`TimerCoverage`).
- Authorization reads the state twice, so a session opened in between can be authorized under the policy of the one
  before it (`AuthorizationCanMixSessions`, a run; `AuthorizedIff`, the condition).
- A failed SetSecret, or SetTotp(None), on a TOTP entry changes the entry, and because the buffer is re-encoded
  anyway it can leave a vault that answers VaultLocked while unlocked (`FailedUpdateChanges`,
  `SpoiledVaultAnswersLocked`; `RemovingTotpSticks`, a run).
- An account without an issuer does not survive an OTPAuth round trip unless the title starts with a colon, nor do
  titles with colons in most places or the titles "." and ".." (`RoundTripByTitle`, `AccountWithoutIssuerIsLost`).

Check everything with `dafny verify dfyconfig.toml`.

## Model

| member | source | states |
|---|---|---|
| AutoLock.StepKeepsInv | core/crates/vipervault-core/src/core/lock_state.rs:179-205 | Every atomic step of any interleaving of unlock, lock, activity, mutation and timer tasks keeps the invariant: generations never run ahead, notify handles are never shared by two timers or pending spawns, the mutex has one holder, a timer that has decided to lock is at least as new as the stored state |
| AutoLock.RunKeepsInv | core/crates/vipervault-core/src/core/lock_state.rs:100-205 | Every run from a new manager satisfies that invariant |
| AutoLock.StaleTimerSafety | core/crates/vipervault-core/src/core/lock_state.rs:518-534 | An unlocked state becomes locked only through a `lock` call's store, or through a timer whose generation is at least that of the unlock that wrote the state |
| AutoLock.DeadlineFollowsLastActivity | core/crates/vipervault-core/src/core/lock_state.rs:521-543 | A waiting timer's deadline is the instant of its last start or renewal in the run plus the timeout its call was made with |
| AutoLock.DeadlineMovesAreOwed | core/crates/vipervault-core/src/core/lock_state.rs:535-542 | A deadline moves at most as often as notifications were sent through that timer's own handle |
| AutoLock.StaleActivityIsHarmless | core/crates/vipervault-core/src/core/lock_state.rs:481-487 | A notification sent through a handle cloned before the timer's handle was created changes no timer and enables neither its wake-up nor its renewal |
| AutoLock.RunKeepsLineage | core/crates/vipervault-core/src/core/lock_state.rs:179-205 | In every run the invariant holds and the owner of each timer, of the current generation, of the current handle and of the stored task are the calls the run says; a current timer that ended under an unlocked vault has lost its handle or is about to |
| AutoLock.RunKeepsCancelLine | core/crates/vipervault-core/src/core/lock_state.rs:465-494 | In every run the aborted timers are exactly those whose call a cancellation met in the task slot |
| AutoLock.RunIsRecorded | core/crates/vipervault-core/src/core/lock_state.rs:115-205 | In every run each call carries the timeout and content it was begun with and the generation it drew, each timer its call's timeout and generation, and the open session the generation of the unlock that stored it and the content last stored or mutated |
| AutoLock.TimersLockOnTime | core/crates/vipervault-core/src/core/lock_state.rs:525-534 | A timer locks an unlocked vault only when its call drew its generation no earlier than the call that stored the session, and no sooner than that call's timeout after the timer's last start or renewal |
| AutoLock.StaleTimersEndWhenWoken | core/crates/vipervault-core/src/core/lock_state.rs:535-542 | A woken timer renews its deadline if and only if its call is the last to have drawn a generation; otherwise it ends |
| AutoLock.SessionHoldsLastContent | core/crates/vipervault-core/src/core/lock_state.rs:192-202 | The open session holds what the last unlock to store, or a mutation after it, put there |
| AutoLock.ActivityRenews | core/crates/vipervault-core/src/core/lock_state.rs:481-487 | On a covered vault a notification reaches the waiting timer and pushes its deadline to now plus its call's timeout |
| AutoLock.CoverageIff | core/crates/vipervault-core/src/core/lock_state.rs:489-548 | Between calls, in every run, an unlocked vault has exactly one timer of the current generation, live and on the current handle, if and only if the last generation drawn and the last handle rotation belong to one call whose task no cancellation has met |
| AutoLock.LiveTimerIff | core/crates/vipervault-core/src/core/lock_state.rs:518-545 | At any moment of any run some live timer carries the current generation, on whatever handle, if and only if the call that last drew a generation has spawned a timer that no cancellation met and that has not run its last step |
| AutoLock.HeldIff | core/crates/vipervault-core/src/core/lock_state.rs:489-548 | Between calls the covering timer of an unlocked vault is also the stored task, which a later call would abort, if and only if the last generation, rotation and installation, with no cancellation after it, belong to one call |
| AutoLock.SerialRunKeepsInv | core/crates/vipervault-core/src/core/lock_state.rs:465-548 | When unlock and lock calls do not overlap, every step keeps that one call behind generation, handle and stored task, by the program counter of the call in progress |
| AutoLock.TimerCoverage | core/crates/vipervault-core/src/core/lock_state.rs:506-548 | With calls that do not overlap, whenever none is in progress and the vault is unlocked, exactly one timer carries the current generation; it is live, on the current handle, and stored |
| AutoLock.CoveredQuietPeriodEndsLocked | core/crates/vipervault-core/src/core/lock_state.rs:524-545 | Under the condition of CoverageIff, once no timer can take a step an unlocked vault's timer was started or renewed less than the timeout its call was made with ago |
| AutoLock.QuietPeriodEndsLocked | core/crates/vipervault-core/src/core/lock_state.rs:524-545 | With calls that do not overlap a quiet period always ends locked |
| AutoLock.TimerStepsEnd | core/crates/vipervault-core/src/core/lock_state.rs:524-545 | Every timer step lowers the measure of what timers can still do |
| AutoLock.OtherStepsKeepWork | core/crates/vipervault-core/src/core/lock_state.rs:524-545 | No other step raises it, but a notification or the spawn of a timer |
| AutoLock.TimersComeToRest | core/crates/vipervault-core/src/core/lock_state.rs:524-545 | A run without notifications and spawns takes no more timer steps than the measure at its start |
| AutoLock.OverlapLosesCoverage | core/crates/vipervault-core/src/core/lock_state.rs:189-204 | A concrete run of two overlapping unlocks that returns with the vault unlocked and no live timer of the current generation |
| LockManager.VaultLockManager.UnlockWithContext | core/crates/vipervault-core/src/core/lock_state.rs:179-205 | The session stored by an unlock is the one its event stands for in the history |
| LockManager.VaultLockManager.LockNow | core/crates/vipervault-core/src/core/lock_state.rs:465-474 | A lock, asked for or forced, ends the session |
| LockManager.VaultLockManager.SetRuntimePolicyState | core/crates/vipervault-core/src/core/lock_state.rs:320-339 | The recorded runtime state joins the history, and the state stays what the history says; refused exactly when locked |
| LockManager.VaultLockManager.MarkStrongReauthRequired | core/crates/vipervault-core/src/core/lock_state.rs:359-370 | The mark joins the history and reports whether a session is open |
| LockManager.VaultLockManager.ClearStrongReauthRequirement | core/crates/vipervault-core/src/core/lock_state.rs:378-389 | The clear joins the history and reports whether a session is open |
| LockManager.VaultLockManager.HandleRuntimeSecurityEvent | core/crates/vipervault-core/src/core/lock_state.rs:449-458 | The event joins the history: locked, marked or ignored as it demands |
| LockManager.VaultLockManager.RequiresStrongReauthFor | core/crates/vipervault-core/src/core/lock_state.rs:394-408 | The answer to whether an operation needs re-authentication, None exactly when locked |
| LockManager.VaultLockManager.AuthorizeSensitiveOperation | core/crates/vipervault-core/src/core/lock_state.rs:423-440 | With any events between the two reads of the state: Ok if and only if the history up to the first read makes the session exposable (primary, last recorded runtime state NotDebugged) and the history up to the second leaves it re-authenticated; with none in between, if and only if the history entitles to it |
| LockManager.OpenSessionReads | core/crates/vipervault-core/src/core/lock_state.rs:291-389 | Strength, outcome, last recorded runtime state and the re-authentication flag of an open session all read off the event history |
| LockManager.AuthorizedIff | core/crates/vipervault-core/src/core/lock_state.rs:423-440 | The same condition on histories: whatever happens between the reads |
| LockManager.AuthorizationAnswers | core/crates/vipervault-core/src/core/lock_state.rs:423-440 | Every answer of an authorization by the two histories: locked, denied, re-authentication required, or the context of a primary session in which nothing was detected |
| LockManager.AuthorizedIffEntitled | core/crates/vipervault-core/src/core/lock_state.rs:423-440 | With nothing in between, authorization succeeds if and only if the open session was unlocked Strong and Primary, the last recorded runtime state is NotDebugged, and every demand for re-authentication since the unlock was followed by a clear |
| LockManager.AuthorizationCanMixSessions | core/crates/vipervault-core/src/core/lock_state.rs:423-440 | A concrete run in which the second read meets a decoy session opened in between and the call is authorized all the same |
| LockManager.RewritesDoNotMatter | core/crates/vipervault-core/src/core/lock_state.rs:557-577 | Entry operations between events change no authorization |
| LockManager.ExpiryNeverAuthorizes | core/crates/vipervault-core/src/core/lock_state.rs:423-440 | If the timer fires between the two reads the answer is never Ok |
| LockManager.ClearsDoNotStrengthen | core/crates/vipervault-core/src/core/lock_state.rs:378-408 | No number of clears authorizes anything in a session unlocked without strong authentication |
| Storage.DerivedNamesDiffer | core/crates/vipervault-core/src/vault/storage.rs:148-160 | The lock, temporary and target names never coincide, and distinct suffixes give distinct temporary names |
| Storage.PreparedKeepsOthers | core/crates/vipervault-core/src/vault/storage.rs:267-279 | Creating, writing and syncing the temporary file touches no other name |
| Storage.RenameReplaces | core/crates/vipervault-core/src/vault/storage.rs:234-236 | The rename puts exactly the synced bytes under the target, removes the temporary name and leaves every other name |
| Storage.StorageBackend.WriteVaultAtomicWithBackend | core/crates/vipervault-core/src/vault/storage.rs:259-290 | The result names the first failing step; the target holds the new bytes after success or a failed directory sync and the old bytes after any earlier failure; success is durable; the temporary file is gone unless its removal fails; other names are unchanged |
| StorageProtocol.StepKeepsInv | core/crates/vipervault-core/src/vault/storage.rs:91-120 | Every step of any number of readers and writers, with failures, crashes and power loss, keeps the protocol invariant |
| StorageProtocol.VaultIsAlwaysWhole | core/crates/vipervault-core/src/vault/storage.rs:113-120 | In every run the target holds its initial bytes or the complete bytes of one write |
| StorageProtocol.LockedReadSeesLastRename | core/crates/vipervault-core/src/vault/storage.rs:91-104 | A locked read returns exactly the bytes of the most recent rename, also after chunked reading |
| StorageProtocol.ReturnedWriteTellsTheBytes | core/crates/vipervault-core/src/vault/storage.rs:259-290 | A returning write that failed up to and including the rename leaves what it found; a failed directory sync and success leave the new bytes |
| StorageProtocol.OkMeansDurable | core/crates/vipervault-core/src/vault/storage.rs:259-315 | A write is about to return Ok only with its bytes in place and durable |
| StorageProtocol.DurableUntilRename | core/crates/vipervault-core/src/vault/storage.rs:303-315 | Durable bytes stay durable under every step but a rename, power loss included |
| StorageProtocol.SuccessfulWriteSurvives | core/crates/vipervault-core/src/vault/storage.rs:303-315 | Bytes of a write whose directory sync succeeded are what is found after any further steps, power loss included, until a later rename |
| VaultCodec.EncodeVaultStorage | core/crates/vipervault-core/src/vault/codec.rs:26-76 | The field-by-field encoder, with its refusals and its 32-bit header length, equals the container layout |
| VaultCodec.DecodeVaultFile | core/crates/vipervault-core/src/vault/codec.rs:81-164 | The reader-consuming decoder equals the decision list, error by error |
| VaultCodec.DecodeIsExact | core/crates/vipervault-core/src/vault/codec.rs:81-164 | The decoder returns a file if and only if the input is that file's layout and the file meets the caller's limits |
| VaultCodec.DecodeIsInjective | core/crates/vipervault-core/src/vault/codec.rs:81-164 | Two accepted inputs with the same result are the same bytes |
| VaultCodec.EveryPrefixIsRejected | core/crates/vipervault-core/src/vault/codec.rs:198-223 | Every strict prefix of an accepted container fails with an I/O error |
| VaultCodec.EveryExtensionIsRejected | core/crates/vipervault-core/src/vault/codec.rs:140-164 | Every extension of an accepted container fails with TrailingBytes |
| VaultCodec.DecodeInvertsEncode | core/crates/vipervault-core/src/vault/codec.rs:26-66 | Decoding gives back what was encoded if and only if the header text is shorter than 2^32 bytes and the decoder's limits admit version, mode and payload |
| VaultCodec.ContainerBytes | core/crates/vipervault-core/src/vault/codec.rs:56-63 | Byte by byte: magic "VLT1", version, mode byte, header length, header, payload length, payload |
| VaultCodec.ShapedContainerAnswers | core/crates/vipervault-core/src/vault/codec.rs:81-164 | What the decoder answers to any input of a container's shape, error by error in order |
| VaultCodec.ForeignFilesAreRefused | core/crates/vipervault-core/src/vault/codec.rs:87-118 | Another magic number, or a mode byte other than 1 and 2, is refused as such |
| VaultCodec.EncodeAnswers | core/crates/vipervault-core/src/vault/codec.rs:26-54 | The encoder refuses exactly version 0, plaintext that policy or duress forbids, and a header it takes for too long |
| LittleEndian.FromToLe | core/crates/vipervault-core/src/vault/codec.rs:198-217 | Reading a written integer that fits its width gives it back |
| LittleEndian.ToFromLe | core/crates/vipervault-core/src/vault/codec.rs:198-217 | Writing a read integer gives the same bytes back |
| LittleEndian.LittleEndianValues | core/crates/vipervault-core/src/vault/codec.rs:198-217 | Two, four and eight bytes are read with the first byte counting least |
| BackupCodec.EncodeSignedBackup | core/crates/vipervault-core/src/backup/codec.rs:53-105 | The encoder that extends one buffer and signs it equals signed bytes, signature length, signature |
| BackupCodec.ReadSlice | core/crates/vipervault-core/src/backup/codec.rs:257-272 | A cursor read returns the next bytes and advances past them, or fails at the end of the input |
| BackupCodec.ParseBackup | core/crates/vipervault-core/src/backup/codec.rs:113-182 | The cursor walk equals the decoder's decision list |
| BackupCodec.DecodeSignedBackup | core/crates/vipervault-core/src/backup/codec.rs:113-190 | The decoder with policy, walk and signature check over every byte before the signature length |
| BackupCodec.DecodeIsExact | core/crates/vipervault-core/src/backup/codec.rs:113-190 | Accepted if and only if the input is magic, version, header, payload and a 64-byte signature that the password's key verifies over exactly the bytes before the signature length |
| BackupCodec.DecodeInvertsEncode | core/crates/vipervault-core/src/backup/codec.rs:53-182 | Decoding inverts encoding whenever signatures verify |
| BackupCodec.BackupOpensForItsKey | core/crates/vipervault-core/src/backup/codec.rs:192-224 | With ideal signatures, a backup whose signed bytes were issued under one key only opens for exactly the passwords that derive that key, else AuthFailed |
| BackupCodec.SignedIsInjective | core/crates/vipervault-core/src/backup/codec.rs:89-94 | The signed bytes determine header text and payload |
| BackupCodec.AcceptedBackupWasIssued | core/crates/vipervault-core/src/backup/codec.rs:113-190 | With ideal signatures every byte of an accepted input before the signature length was signed with the key its password derives from the header it carries, and the payload returned is the payload of that backup |
| BackupCodec.SubstitutedPayloadIsRefused | core/crates/vipervault-core/src/backup/codec.rs:113-190 | A header and payload never issued together under the header's key are refused whatever the signature |
| BackupCodec.BackupBytes | core/crates/vipervault-core/src/backup/codec.rs:89-103 | Byte by byte: magic "VVBAKUP1", version 1, header length, header, payload length, payload, signature length 64, signature |
| BackupCodec.ShapedBackupParses | core/crates/vipervault-core/src/backup/codec.rs:113-182 | What the parser answers to any input of a backup's shape, error by error in order |
| BackupCodec.ShapedBackupAnswers | core/crates/vipervault-core/src/backup/codec.rs:113-190 | Then policy first, and last the signature under the key the password derives from the header |
| BackupCodec.CutOrExtendedBackupIsRefused | core/crates/vipervault-core/src/backup/codec.rs:240-272 | Every strict prefix and every extension of an accepted backup is an invalid format |
| BackupCodec.ForeignBackupsAreRefused | core/crates/vipervault-core/src/backup/codec.rs:118-135 | Another magic number is an invalid format, another version unsupported |
| BackupCodec.EncodeAnswers | core/crates/vipervault-core/src/backup/codec.rs:53-105 | A backup is made exactly when policy, the 64 MiB cap and key derivation allow it, with the error of the first that does not |
| SignedImport.SignedImportRecoversVault | core/crates/vipervault-core/src/import/signed.rs:27-54 | Any encrypted vault within the container caps fits a backup and is recovered field for field by the signed import |
| SignedImport.ImportAnswers | core/crates/vipervault-core/src/import/signed.rs:27-63 | Denied to a decoy session; any backup failure is a failed authentication; an encrypted container comes back as decoded; a plaintext or malformed one is an invalid format |
| Duress.EnvelopeMeaning | core/crates/vipervault-core/src/vault/duress.rs:40-67 | In a dual envelope the primary password opens the primary plaintext, another decoy password the decoy plaintext, and every other password fails authentication |
| Duress.SealedOpensOnlyUnderItsHeader | core/crates/vipervault-core/src/vault/duress.rs:147-193 | A sealed text opens exactly under its own key, nonce and header bytes |
| Duress.EnvelopeOpensUnder | core/crates/vipervault-core/src/vault/duress.rs:40-67 | What an envelope opens to under any header and header bytes: each branch under its own salt, nonce and parameters, neither when a header byte was changed |
| Duress.UnlockAnswers | core/crates/vipervault-core/src/core/unlock.rs:126-175 | When an unlock succeeds and when it answers KdfFailed, PayloadDecode or AuthFailed, for any file and password |
| Duress.MigrationPreservesMeaning | core/crates/vipervault-core/src/vault/migrate.rs:41-168 | Read back from its container, the migrated vault gives the primary password the byte-identical legacy plaintext, the decoy password the serialised decoy payload, everyone else AuthFailed; identity and schema version are unchanged, and each branch has the parameters asked for with its own salt and nonce |
| Duress.MigrationSucceedsIff | core/crates/vipervault-core/src/vault/migrate.rs:41-168 | When the primitives do not fail, migration succeeds if and only if the vault is encrypted and single, the parameters are in range, the decoy payload is readable, and the primary password opens a readable payload |
| Duress.MigrationRefusals | core/crates/vipervault-core/src/vault/migrate.rs:41-168 | Plaintext and dual vaults are invalid headers, a password that does not open the vault fails authentication, an unreadable payload on either side is invalid |
| Duress.CreatedVaultsOpen | core/crates/vipervault-core/src/vault/create.rs:51-179 | A created vault has the identity, schema version and parameters given and opens for its password or passwords with the right outcome; everyone else whose key derives, and anyone whose file has a changed header byte, gets AuthFailed |
| Duress.CreationSucceedsIff | core/crates/vipervault-core/src/vault/create.rs:51-179 | When the primitives do not fail, creation succeeds if and only if the parameters are in range and, for a duress vault, both payloads can be read back |
| Duress.ContainerKeepsVault | core/crates/vipervault-core/src/vault/codec.rs:26-164 | An encrypted vault within the caps is decoded as it was encoded, with its raw header bytes |
| Entries.ConstructorsAreGood | core/crates/vipervault-core/src/entries/types.rs:312-413 | Constructed entries satisfy their type invariant and every field promise; a TOTP entry is built exactly when title, note and secret are valid |
| Entries.ValidTexts | core/crates/vipervault-core/src/entries/validate.rs:24-106 | What each text validator answers: length caps 256, 320, 8192 and 1024 bytes, and the first of empty, too large, control and invisible characters |
| Entries.ValidTotp | core/crates/vipervault-core/src/entries/types.rs:91-131 | A TOTP block is valid exactly with 6 to 8 digits, a period of 10 to 120 seconds and up to 1024 characters of padded base32 |
| Entries.ConstructorsStore | core/crates/vipervault-core/src/entries/types.rs:312-413 | Constructors succeed exactly on valid fields and store them as given, a note or TOTP secret also as the primary secret |
| Entries.UpdateWrites | core/crates/vipervault-core/src/entries/types.rs:452-507 | Field by field, what a successful single update writes, and that every other field keeps its value |
| Entries.UpdateAnswers | core/crates/vipervault-core/src/entries/types.rs:452-507 | What a single update answers: the validator's verdict on the new value, and that TOTP blocks go to TOTP entries only, which must keep one |
| Entries.ReplaceWrites | core/crates/vipervault-core/src/entries/types.rs:509-547 | Field by field, what a successful `Replace` writes: each given field has its value, absent fields stay, and where secret and TOTP block meet the block decides |
| Entries.VaultEntry.ApplyUpdate | core/crates/vipervault-core/src/entries/types.rs:452-552 | The in-place update leaves the entry and returns the result of the update function, failures included |
| Entries.VaultEntry.ReplaceFields | core/crates/vipervault-core/src/entries/types.rs:514-546 | The in-place `Replace` leaves what its fields, taken in order until the first error, leave |
| Entries.ReplaceIsComposition | core/crates/vipervault-core/src/entries/types.rs:452-552 | `Replace` equals SetTitle, SetNote, SetUsername, SetSecret, SetExtra, SetTotp in that order stopped at the first error, in result and final entry |
| Entries.SuccessfulUpdatesStayGood | core/crates/vipervault-core/src/entries/types.rs:452-570 | Any sequence of successful updates keeps identity and type, valid texts, a valid TOTP block exactly on TOTP entries, and secret equal to the block's secret |
| Entries.FailedUpdateChanges | core/crates/vipervault-core/src/entries/types.rs:452-552 | A failed single-field update changes the entry if and only if it is SetSecret or SetTotp(None) on a TOTP entry, and then how |
| Entries.EntryStaysReadable | core/crates/vipervault-core/src/entries/types.rs:555-570 | After any single-field update the entry can be read back if and only if the update does not drop or spoil a TOTP block |
| Entries.UpdateStaysReadable | core/crates/vipervault-core/src/entries/types.rs:452-570 | The same for every update: no reached step may spoil the block |
| Entries.UpdatesNeverReportLocked | core/crates/vipervault-core/src/entries/types.rs:452-552 | No update reports VaultLocked, so that answer always means the state |
| Crud.FindById | core/crates/vipervault-core/src/core/entries.rs:34-60 | The search loop finds the first entry with the id |
| Crud.RetainOthers | core/crates/vipervault-core/src/core/entries.rs:99-118 | The retain loop keeps exactly the other entries, in order |
| Crud.AddEntry | core/crates/vipervault-core/src/core/entries.rs:29-43 | Decode, append unless the id is there, re-encode |
| Crud.UpdateEntry | core/crates/vipervault-core/src/core/entries.rs:46-66 | Decode, overwrite the entry with the id, re-encode |
| Crud.UpdateEntryFields | core/crates/vipervault-core/src/core/entries.rs:75-94 | Decode, update in place, re-encode even when the update failed |
| Crud.DeleteEntry | core/crates/vipervault-core/src/core/entries.rs:99-118 | Decode, retain the others, re-encode |
| Crud.ListEntries | core/crates/vipervault-core/src/core/entries.rs:120-131 | Summaries in insertion order, None when locked or undecodable |
| Crud.GetEntry | core/crates/vipervault-core/src/core/entries.rs:136-150 | The entry with the id, or not found, or locked |
| Crud.OperationRefines | core/crates/vipervault-core/src/core/entries.rs:29-118 | Each operation on a payload with distinct ids gives the answer and the result of an insertion-ordered map |
| Crud.UpdatedEntryReadsBack | core/crates/vipervault-core/src/core/entries.rs:75-150 | After a successful field update the entry reads back as updated, and every other entry as before |
| Crud.StepRefines | core/crates/vipervault-core/src/core/entries.rs:29-150 | Every step, reads and locking included, matches the map and keeps the buffer decodable |
| Crud.RunsRefineOrderedMap | core/crates/vipervault-core/src/core/entries.rs:29-150 | Over whole runs of fit operations, reads, locks and unlocks with any buffer that decodes to distinct ids, every answer is the map's, and the run ends locked with the map or with a buffer that decodes to entries of distinct ids, which are the map's in its order |
| Crud.RunsSayLockedIffLocked | core/crates/vipervault-core/src/core/entries.rs:29-150 | Over whole runs of fit operations a step that asks is answered VaultLocked if and only if the vault is locked at that moment |
| Crud.AnswersLockedIffLocked | core/crates/vipervault-core/src/core/entries.rs:29-150 | On a buffer that decodes to distinct readable entries every operation and read answers VaultLocked if and only if the vault is locked |
| Crud.BufferDecodesIffReadable | core/crates/vipervault-core/src/core/lock_state.rs:557-577 | After any operation on a related buffer the buffer decodes if and only if the operation wrote no entry that violates its type invariant |
| Crud.StuckIffSpoiled | core/crates/vipervault-core/src/core/lock_state.rs:557-577 | A field update leaves an unlocked buffer that does not decode if and only if one of its steps spoils the TOTP block, and then it fails |
| Crud.StuckVaultStaysStuck | core/crates/vipervault-core/src/core/lock_state.rs:557-596 | No run of operations and reads changes such a vault, and every answer is VaultLocked |
| Crud.SpoiledVaultAnswersLocked | core/crates/vipervault-core/src/core/lock_state.rs:557-596 | After any field update the unlocked vault answers VaultLocked if and only if one of the update's steps spoiled the entry, and then to every later run of operations and reads |
| Crud.RemovingTotpSticks | core/crates/vipervault-core/src/core/entries.rs:75-94 | A concrete vault: taking the TOTP block from its one TOTP entry fails, and the unlocked vault no longer lists anything |
| TotpEngine.MaskIsRemainder | core/crates/vipervault-core/src/totp/engine.rs:175-182 | Masking with low ones is the remainder by the power of two |
| TotpEngine.OrIsSum | core/crates/vipervault-core/src/totp/engine.rs:180-183 | Or-ing bits below all set bits adds them |
| TotpEngine.ShiftOrIsBigEndian | core/crates/vipervault-core/src/totp/engine.rs:180-183 | The shift-and-or of four bytes is their big-endian value modulo 2^31 |
| TotpEngine.TruncationIsExact | core/crates/vipervault-core/src/totp/engine.rs:170-189 | For MACs of 20, 32 or 64 bytes no length check fires and the code is the 31-bit big-endian integer at the low-nibble offset modulo 10^digits |
| TotpEngine.MessageIsBigEndian | core/crates/vipervault-core/src/totp/engine.rs:41-42 | The HMAC message is the counter in big-endian order |
| TotpEngine.CodeOfSecret | core/crates/vipervault-core/src/totp/engine.rs:62-82 | From secret to code: the 31-bit big-endian integer at the MAC's low-nibble offset modulo 10^digits, the MAC being that of the secret's own hash over the eight bytes whose big-endian value is the number of whole periods |
| TotpEngine.RawGenerationSucceedsIff | core/crates/vipervault-core/src/totp/engine.rs:31-60 | A raw key gives a code exactly for periods of 10 to 120 seconds and 6 to 8 digits |
| TotpEngine.HmacCodesAreProper | core/crates/vipervault-core/src/totp/engine.rs:31-60 | Every valid parameter choice yields a code below 10^digits |
| TotpEngine.GenerationSucceeds | core/crates/vipervault-core/src/totp/engine.rs:62-76 | Generation succeeds if and only if the secret is valid and decodes strictly |
| TotpEngine.MatchWindow | core/crates/vipervault-core/src/totp/engine.rs:104-131 | The accumulating loop is true if and only if some counter in the saturated window has the code |
| TotpEngine.TotpVerify | core/crates/vipervault-core/src/totp/engine.rs:84-134 | Invalid parameters, a window above 10 and an undecodable secret are refused; otherwise the answer is whether the code is in the window |
| TotpEngine.PassesAreWindow | core/crates/vipervault-core/src/totp/engine.rs:107-114 | The passes visit exactly the counters from max(0, b - w) to min(2^64 - 1, b + w) |
| TotpEngine.WindowsNeverFail | core/crates/vipervault-core/src/totp/engine.rs:112-128 | With codes for all valid parameters no pass of the window fails |
| TotpEngine.NearTimes | core/crates/vipervault-core/src/totp/engine.rs:102-114 | Times within w periods have counters within w, and counters within w mean less than w + 1 periods |
| TotpEngine.CodesVerifyNearby | core/crates/vipervault-core/src/totp/engine.rs:84-134 | A code generated at t verifies at every time within w periods, near zero and the top of the range included |
| TotpEngine.CodesVerifyOnlyNearby | core/crates/vipervault-core/src/totp/engine.rs:84-134 | If no other counter in the window has the code it verifies if and only if the counters are within w, never w + 1 periods away |
| TotpEngine.PrintedCodesReadBack | core/crates/vipervault-core/src/totp/format.rs:22-38 | A printed code has exactly `digits` decimal characters and parses back to the code modulo 10^digits |
| TotpEngine.PrintingSucceedsIff | core/crates/vipervault-core/src/totp/format.rs:22-27 | Only 6 to 8 digits are printed |
| TotpEngine.DisplayedCodesVerify | core/crates/vipervault-core/src/totp/engine.rs:195-201 | A displayed code, typed in, verifies at any time within w periods |
| Base32.CanonicalizeBase32ForExport | core/crates/vipervault-core/src/totp/decode.rs:91-115 | The filter, uppercase and pop loops equal the recursive export form |
| Base32.CanonicalForm | core/crates/vipervault-core/src/totp/decode.rs:91-115 | The export form is nonempty, holds no whitespace, hyphen, lower case or trailing padding, and is its own export form |
| Base32.SeparatorsVanish | core/crates/vipervault-core/src/totp/decode.rs:100-104 | Whitespace and hyphens vanish wherever they stand |
| Base32.LowerCaseCounts | core/crates/vipervault-core/src/totp/decode.rs:100-104 | A lower-case letter counts as its upper-case one wherever it stands |
| Base32.OthersStay | core/crates/vipervault-core/src/totp/decode.rs:100-104 | Every other ASCII character stays in its place |
| Base32.StripsPadding | core/crates/vipervault-core/src/totp/decode.rs:106-108 | What is stripped at the end is padding only |
| Base32.CanonicalizeSucceedsIff | core/crates/vipervault-core/src/totp/decode.rs:91-115 | The export form exists exactly for nonempty ASCII of at most 1024 characters that holds more than separators and final padding |
| Base32.CanonicalSecretIsValid | core/crates/vipervault-core/src/totp/decode.rs:91-115 | The export form of a valid secret is the secret without its padding and is valid again |
| Base32.AcceptedLengthsAreEncodings | core/crates/vipervault-core/src/totp/decode.rs:54-57 | The accepted residues are exactly the lengths ceil(8n/5) of unpadded encodings |
| Base32.StrictSucceedsIff | core/crates/vipervault-core/src/totp/decode.rs:29-83 | Strict decoding succeeds exactly on up to 1024 characters of base32, padded at the end only, of an encoding's length, that decode to at least 16 bytes |
| Base32.StrictSecretsAreLongEnough | core/crates/vipervault-core/src/totp/decode.rs:29-83 | An accepted secret fits the ceil(5L/8) buffer, has at least 26 characters and is as long as its encoding |
| Base32.FloorIsTwentySixCharacters | core/crates/vipervault-core/src/totp/decode.rs:78-80 | Among accepted lengths the 16-byte floor holds if and only if L >= 26 |
| OtpAuth.RejectScriptMixing | core/crates/vipervault-core/src/otpauth/totp.rs:184-211 | The flag loop rejects exactly the texts with both ASCII alphanumerics and Cyrillic or Greek characters |
| OtpAuth.ScriptsThatMix | core/crates/vipervault-core/src/otpauth/totp.rs:184-211 | ASCII letters or digits may not stand beside Cyrillic or Greek characters |
| OtpAuth.ReadQueryPairs | core/crates/vipervault-core/src/otpauth/totp.rs:79-109 | The pair loop succeeds if and only if there are at most 64 pairs with valid values, and gives each key its last value or default |
| OtpAuth.MeaningOfMore | core/crates/vipervault-core/src/otpauth/totp.rs:85-108 | One more pair changes exactly its own field |
| OtpAuth.LastOccurrenceCounts | core/crates/vipervault-core/src/otpauth/totp.rs:85-87 | The value of a key is that of its last occurrence |
| OtpAuth.QueryMeaning | core/crates/vipervault-core/src/otpauth/totp.rs:74-112 | A query is read exactly when it has at most 64 pairs whose algorithms, digits and periods parse; absent keys mean SHA1, six digits and thirty seconds |
| OtpAuth.ParseRefusals | core/crates/vipervault-core/src/otpauth/totp.rs:48-63 | What is refused before any parameter is read, and how |
| OtpAuth.AcceptedMeans | core/crates/vipervault-core/src/otpauth/totp.rs:112-151 | A label and query are accepted exactly when there is a secret, the parameters are valid, and title, account and issuer pass their validators without mixing scripts; the query's issuer goes before the label's |
| OtpAuth.QueryRules | core/crates/vipervault-core/src/otpauth/totp.rs:80-85 | Empty pieces of a query are skipped, a piece without "=" has an empty value, "+" is a space |
| OtpAuth.ParseTotpOtpauthUri | core/crates/vipervault-core/src/otpauth/totp.rs:44-152 | The parser equals its specification, error by error |
| OtpAuth.LabelParts | core/crates/vipervault-core/src/otpauth/totp.rs:162-177 | A label is cut at its first colon and each side is trimmed |
| OtpAuth.IssuerAccountLabel | core/crates/vipervault-core/src/otpauth/totp.rs:162-177 | `Issuer:Account` splits back if and only if both are trimmed and nonempty and the issuer has no colon |
| OtpAuth.TitleLabel | core/crates/vipervault-core/src/otpauth/totp.rs:162-177 | A title split as a label gives back title and account under an exact condition on colons and trimming |
| OtpAuth.EscapedDotSegment | core/crates/vipervault-core/src/otpauth/totp.rs:64-68 | A percent-encoded text is a dot segment, which the URL parser drops, if and only if it is "." or ".." |
| OtpAuth.QueryRoundTrip | core/crates/vipervault-core/src/otpauth/export.rs:66-76 | Splitting and decoding the printed query gives back its pairs |
| OtpAuth.QueryText | core/crates/vipervault-core/src/otpauth/export.rs:49-64 | The query's pairs in the order printed, with their names; algorithm and numbers print as they stand |
| OtpAuth.ExportText | core/crates/vipervault-core/src/otpauth/export.rs:66-78 | An exported URI is the prefix, the escaped label and the `key=value` pieces joined by ampersands |
| OtpAuth.ExportAlphabet | core/crates/vipervault-core/src/otpauth/export.rs:27-79 | An exported URI has only printable characters and no space |
| OtpAuth.ExportedUrl | core/crates/vipervault-core/src/otpauth/export.rs:27-79 | What a faithful URL parser reads from an exported URI |
| OtpAuth.ParseOfExport | core/crates/vipervault-core/src/otpauth/totp.rs:44-152 | Parsing an exported URI is splitting the label text and checking the result, or InvalidUri for too long a URI and for an empty or dot-segment label |
| OtpAuth.RoundTripWithAccount | core/crates/vipervault-core/src/otpauth/export.rs:27-79 | With issuer and account everything comes back, titled by the issuer, with the canonical secret, if and only if the URI fits 4096 bytes, both texts are trimmed and valid and the issuer has no colon |
| OtpAuth.RoundTripByTitle | core/crates/vipervault-core/src/otpauth/export.rs:41-47 | Without issuer or account, title and secret come back if and only if the URI fits, the title is not empty, "." or "..", carries the account, and the texts are valid |
| OtpAuth.TitleSurvivesWithoutAccount | core/crates/vipervault-core/src/otpauth/export.rs:41-47 | Without an account a trimmed, colon-free title other than "." and ".." survives |
| OtpAuth.AccountWithoutIssuerIsLost | core/crates/vipervault-core/src/otpauth/export.rs:41-47 | An account without an issuer never comes back under a title that does not start with a colon |
| OtpAuth.ExportSucceeds | core/crates/vipervault-core/src/otpauth/export.rs:27-60 | The exporter succeeds if and only if the secret is valid and not all padding |
| OtpAuth.ParsedSecretsAreValid | core/crates/vipervault-core/src/otpauth/totp.rs:118-151 | Whatever the URI, an accepted one has a valid secret and displayable texts |
| Text.PercentRoundTrip | core/crates/vipervault-core/src/otpauth/export.rs:30-46 | Percent-decoding inverts percent-encoding of any text |
| Text.PlainTextStays | core/crates/vipervault-core/src/otpauth/export.rs:30-46 | Percent-encoding leaves letters and digits alone |
| Text.Utf8RoundTrip | core/crates/vipervault-core/src/otpauth/totp.rs:70-72 | UTF-8 decoding inverts encoding |
| Text.Utf8Shape | core/crates/vipervault-core/src/otpauth/totp.rs:70-72 | The bytes of a character: ASCII itself, otherwise a lead byte that tells the length and continuation bytes |
| Text.TrimRemovesWhitespace | core/crates/vipervault-core/src/otpauth/totp.rs:163-168 | Trimming removes whitespace at the ends only |
| Text.WhitespaceCharacters | core/crates/vipervault-core/src/otpauth/totp.rs:163-168 | The twenty-five characters trimming removes |
| Text.ParseRules | core/crates/vipervault-core/src/otpauth/totp.rs:101-106 | Which texts parse as numbers: one plus sign and leading zeros are allowed, anything else and anything out of range is refused |
| Text.SplitInvertsJoin | core/crates/vipervault-core/src/otpauth/export.rs:66-76 | Splitting inverts joining of pieces without the separator |
| Interop.ParseOtpauthTotpList | core/crates/vipervault-core/src/import/interop.rs:166-263 | The import loop equals the left fold of its pass, error by error |
| Interop.InsertMeans | core/crates/vipervault-core/src/import/interop.rs:235-259 | A valid record with a known key changes nothing; one with a new key adds its entry and its key, and never fails |
| Interop.PassMeans | core/crates/vipervault-core/src/import/interop.rs:178-260 | One pass of the loop over a line is one pass of the keep-first run over that line's cell: refused by the same conditions, with the same entries, keys and text total |
| Interop.ReadableMeans | core/crates/vipervault-core/src/import/interop.rs:178-233 | A line is readable exactly when it is short, and blank or a URI whose secret has an export form that decodes strictly; its record carries that form |
| Interop.PassRefusals | core/crates/vipervault-core/src/import/interop.rs:178-260 | Why a pass refuses its line: too many lines, too long a line or too much text is a payload too large, everything else an invalid format |
| Interop.TotalIsText | core/crates/vipervault-core/src/import/interop.rs:202-218 | What the cap counts is the UTF-8 length of titles, issuers and accounts |
| Interop.LinesOfJoin | core/crates/vipervault-core/src/import/interop.rs:177 | Text is cut at newlines, less one carriage return before each; what follows the last newline is a line as it stands, unless empty |
| Interop.LinesReadBack | core/crates/vipervault-core/src/import/interop.rs:177 | Lines written with newlines, with or without the final one, or with carriage returns as well, read back |
| Interop.FoldIsRun | core/crates/vipervault-core/src/import/interop.rs:166-263 | The loop agrees with the abstract keep-first run on the cells of its lines |
| FirstOccurrence.RunMeans | core/crates/vipervault-core/src/import/interop.rs:166-263 | A keep-first run accepts exactly the lists within its caps without a bad cell, and ends with the first entries, the key set and the total |
| FirstOccurrence.EntriesAtFirstPositions | core/crates/vipervault-core/src/import/interop.rs:244-259 | The j-th entry is the one at the j-th position where a key occurs first; those positions are strictly increasing and complete |
| FirstOccurrence.OneEntryPerKey | core/crates/vipervault-core/src/import/interop.rs:244-247 | As many entries as distinct keys |
| FirstOccurrence.PermutedRunsAgree | core/crates/vipervault-core/src/import/interop.rs:166-263 | Acceptance, key set and number of entries do not depend on the order |
| FirstOccurrence.RunningAgain | core/crates/vipervault-core/src/import/interop.rs:166-263 | Running through the same cells again changes nothing but the weight |
| Interop.AcceptedListKeepsFirstOccurrences | core/crates/vipervault-core/src/import/interop.rs:166-263 | A list is accepted if and only if it has at most 100 000 lines, all readable, with at most 2 MiB of text; then it yields one entry per distinct key, from the first line with that key, in line order |
| Interop.KeysAreTriples | core/crates/vipervault-core/src/import/interop.rs:149-157 | With a collision-free hash two records share a key if and only if issuer, account and canonical secret agree |
| Interop.PermutedListsAgree | core/crates/vipervault-core/src/import/interop.rs:166-263 | Permuting the lines changes neither acceptance nor the key set |
| Interop.DoubledListAddsNothing | core/crates/vipervault-core/src/import/interop.rs:244-247 | A doubled list is accepted if and only if it fits the caps, and then yields the same entries |
| Interop.ValidatePayloadInvariants | core/crates/vipervault-core/src/import/interop.rs:266-288 | The check accepts exactly payloads within the cap whose entries are sound TOTP entries |
| Interop.LoopOutputIsNeverRejected | core/crates/vipervault-core/src/import/interop.rs:266-288 | What the loop accepts always passes that check |
| Interop.ProgramIsSound | core/crates/vipervault-core/src/import/interop.rs:194-233 | The OTPAuth parser and the strict export form satisfy what the loop theorems assume of them |
| Interop.ImportInteropQuarantine | core/crates/vipervault-core/src/import/interop.rs:96-122 | Policy, size, format and UTF-8 checks, then the list, then the payload check |
| Interop.QuarantineRefusals | core/crates/vipervault-core/src/import/interop.rs:96-120 | What a whole import is refused for before its lines are read |
| Interop.Payload.Commit | core/crates/vipervault-core/src/import/interop.rs:129-146 | Appends if and only if allowed and within 100 000 entries in total; otherwise leaves the payload |
| Interop.ExportedLineReads | core/crates/vipervault-core/src/import/interop.rs:166-233 | A line the exporter wrote for an entry with issuer and account imports as that entry with its canonical secret |
| Interop.DifferentRecordsAllImport | core/crates/vipervault-core/src/import/interop.rs:166-263 | A list of pairwise different records is accepted if and only if it fits the caps, and then every record becomes an entry, in order |
| Interop.ExportedListImports | core/crates/vipervault-core/src/otpauth/export.rs:27-79 | Importing the exported URIs of entries with issuer and account gives back every secret in order, in export form and titled by its issuer, whenever the list fits the caps |
| Interop.ExportedFileImports | core/crates/vipervault-core/src/import/interop.rs:96-122 | Importing the UTF-8 file of an export gives back every secret in order, in export form and titled by its issuer, if and only if file and list fit the caps |
| Throttle.UnlockRateLimiter.OnFailureDelay | core/crates/vipervault-core/src/core/rate_limit.rs:68-86 | Halves after a quiet period, counts with saturation, remembers the time and returns the capped schedule plus jitter |
| Throttle.AuthGate.Run | core/crates/vipervault-core/src/core/auth_gate.rs:47-81 | The operation's result passes through; the limiter resets, counts or stays, and the delay is slept, by classification |
| Throttle.UnlockPlaintextJsonGated | core/crates/vipervault-core/src/core/unlock.rs:76-94 | The gated unlock returns the vault's answer, resets only on Primary, counts only authentication failures |
| Throttle.UnlocksAndTheStreak | core/crates/vipervault-core/src/core/unlock.rs:76-94 | A primary unlock clears the streak; a decoy unlock and every failure but a failed authentication leave it alone |
| Throttle.UnthrottledFailures | core/crates/vipervault-core/src/core/unlock.rs:76-94 | The failures the gate lets pass are exactly a refused key derivation on a single vault and an envelope that does not decode; every other failure counts |
| Throttle.WrongPasswordsCount | core/crates/vipervault-core/src/core/unlock.rs:76-94 | A password whose key does not open an encrypted single vault is answered AuthFailed and counted |
| Throttle.DelayBounds | core/crates/vipervault-core/src/core/rate_limit.rs:79-125 | Every delay lies between the capped schedule and that plus the jitter bound; no base delay up to two failures |
| Throttle.ScheduleValues | core/crates/vipervault-core/src/core/rate_limit.rs:99-110 | The schedule: free up to two failures, then 1, 5, 10, 15 and 30 seconds for two failures each, 60 for three, 300 from the sixteenth on |
| Throttle.CapApplies | core/crates/vipervault-core/src/core/rate_limit.rs:82-84 | The policy caps the schedule |
| Throttle.JitterCoversItsRange | core/crates/vipervault-core/src/core/rate_limit.rs:113-125 | Every whole number of milliseconds up to the bound can be drawn |
| Throttle.StreakCountsFailuresSinceReset | core/crates/vipervault-core/src/core/unlock.rs:76-94 | Over any run of gated unlocks the streak is that of the authentication failures since the last primary unlock: decoy unlocks and other errors leave it alone |
| Throttle.QuickFailuresCount | core/crates/vipervault-core/src/core/rate_limit.rs:68-80 | After a reset n failures closer than the quiet period count n, up to the counter's width |
| Throttle.QuickFailuresNeverGetCheaper | core/crates/vipervault-core/src/core/rate_limit.rs:99-110 | Along such a streak the base delay never drops |
| Throttle.SlowFailuresHalve | core/crates/vipervault-core/src/core/rate_limit.rs:71-80 | n failures at least a quiet period apart leave exactly 2 plus what exceeds 2 halved n times, or 1 from a counter below 2 |
| Throttle.SlowFailuresForgive | core/crates/vipervault-core/src/core/rate_limit.rs:71-110 | Thirty-two or more such failures bring any 32-bit counter to at most 2 and the base delay to zero |

## Left out

- Argon2id, XChaCha20-Poly1305, Ed25519, HKDF, SHA-256, HMAC and the random generators: parameters with the laws above; zeroization, secrecy wrappers and constant-time concerns are not visible in the model.
- JSON text: an encode/decode pair; reading a payload back fails exactly when an entry violates its type invariant.
- The `url` crate: required to agree with RFC 3986 on `otpauth://totp/<segment>?<query>` in that standard's alphabet whose query decodes as UTF-8; on every other string it is unconstrained, so nothing is claimed about fragments, other hosts or lossy query text beyond `ParsedSecretsAreValid`.
- The base32 decoder: parameters with the length of their output; which texts they reject among the accepted lengths is open.
- Fixed-size salts, nonces and identifiers: the model's are unbounded, so `VaultCodec.DecodeInvertsEncode` carries a bound on the header length that every header the program can build meets.
- Async cancellation of callers, poisoned mutexes, wrap-around of the generation counter, non-UTF-8 file names, and several vaults with colliding names.
- Interleaving inside the manager's setters: each holds the mutex once and is one event; only authorization, which reads twice, is split, with any events between its reads.
- Concurrent gated unlocks: the limiter is behind a mutex, and the runs count attempts in the order they reach it.
- Cached session copies, entry reveal and copy operations, clipboard, biometrics and runtime probing: the runtime state is an input.
- Timestamps of entries and the non-Unix directory sync, which is a no-op: durability is stated for Unix.
- Duress.MigrationSucceedsIff: assumes key derivation and sealing never fail on parameters in range, because their internal failures are not modelled.
- Throttle.UnlockRateLimiter.OnFailureDelay: requires that the jitter bound in milliseconds, narrowed to 64 bits, is not the largest 64-bit value, because the program's increment overflows there.
- Interop.ParseOtpauthTotpList: the running text total is unbounded where the program's saturates; the cap is reached long before.
- TotpEngine.TotpVerify: the error of a failing MAC key is not modelled, because HMAC accepts keys of any length.
- StorageProtocol.LockedReadSeesLastRename: the platform lock is a shared/exclusive lock that a crash releases; blocking and fairness are not modelled.
