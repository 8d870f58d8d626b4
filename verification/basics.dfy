/** Outcome types shared by the models of the row protocols. */
module Basics {
  datatype Option<+T> = None | Some(value: T)

  /** The error classes the backend distinguishes (its sentinel errors). */
  datatype Error =
    | InvalidState
    | Conflict
    | NotFound
    | StorageFailure
    | LeaseHeld
    | LeaseFenceLost
    | LeaseDeadlineExceeded
    | KeyLost
    | KeyUnavailable
    | KeyRotationProhibited
    | PendingLoginInvalid
    | RecoveryCodeInvalid
    | RecoveryCodeSessionInvalid
    | RecoveryCodeConflict
    | SecurityConflict
    | TotpAlreadyEnabled
    | TotpDisabled
    | TotpCodeInvalid
    | TotpEnrollmentRequired
    | TotpEnrollmentConflict
    | TotpEnrollmentExpired
    | RecoveryEnrollmentInvalid
    | WrongPassword
    | LastAdmin

  datatype Result<+T> = Ok(value: T) | Err(error: Error)

  /** Durations are in nanoseconds. */
  const SECOND := 1_000_000_000

  function Min(a: int, b: int): int { if a <= b then a else b }
}

/** The life of an alert, shared by everything that raises and resolves alerts. */
module AlertStates {
  datatype AlertStatus = Open | Acked | Resolved

  /** An alert only moves forward. */
  predicate Forward(a: AlertStatus, b: AlertStatus) {
    a == b || b == Resolved || (a == Open && b == Acked)
  }
}
