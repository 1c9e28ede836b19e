/** Result types: the errors of the on-chain program and an option. */
module Results {

  datatype Option<+T> = None | Some(value: T)

  /** The program's own errors, followed by the two kinds of failure raised on its
      behalf by the account constraints and by the token program. */
  datatype Error =
    | Paused
    | CapExceeded
    | VenueMismatch
    | BadAttestIx
    | BadAttestor
    | AttestationStale
    | InsufficientBalance
    | ConstraintViolated
    | TokenError

  datatype Result = Ok | Err(error: Error)
}
