/** The CTAP status codes the modelled commands end with (`src/ctap/status_code.rs`). */
module CtapStatus {
  datatype Status =
    | PinInvalid | PinBlocked | PinAuthBlocked | PinAuthInvalid | PinPolicyViolation | PinNotSet
    | PuatRequired | MissingParameter | InvalidParameter | InvalidSubcommand | OperationDenied
    | KeyStoreFull | VendorInternal | StorageFailure | BadPeerKey | InvalidCbor | UnexpectedType
}
