/** Session enumerations and the operation policy. */
module Policy {

  datatype UnlockOutcome = Primary | Decoy

  datatype RuntimeState = NotDebugged | Debugged | Unknown | TamperSuspected {
    predicate IsRestrictive() { !NotDebugged? }
  }

  datatype Strength = Strong | Biometric | QuickUnlock

  datatype Operation = Export | SignedBackupTransfer | RevealSecret | CopySecret | CopyTotp | ChangeSecuritySettings {
    predicate RequiresStrongReauth() { true }
  }

  datatype RuntimeEvent =
    | AppBackgrounded
    | DeviceLocked
    | BiometricSetChanged
    | QuickUnlockInvalidated
    | RuntimeBecameRestrictive
  {
    predicate ForcesLock() { !AppBackgrounded? }
    predicate RequiresStrongReauth() { AppBackgrounded? }
  }

  datatype PolicyContext = PolicyContext(outcome: UnlockOutcome, runtime: RuntimeState) {
    predicate IsDecoy() { outcome.Decoy? }

    /** Export, import, transfer, reveal and copy all share this rule. */
    predicate AllowExposure() { !IsDecoy() && runtime.NotDebugged? }

    predicate AllowOperation(op: Operation) {
      match op
      case ChangeSecuritySettings => !IsDecoy() && !runtime.IsRestrictive()
      case _ => AllowExposure()
    }
  }
}
