/**
 * Vocabulary shared by every token contract of the model: account
 * addresses, access-control roles, the reasons a call reverts, and the
 * result types through which a reverting call reports its reason.
 */
module Common {

  /** An account or contract address; 0 is the zero address. */
  type Address = nat

  const Zero: Address := 0

  /** The access-control roles granted on the role-gated token types. */
  datatype Role = Admin | Minter | Reveal | Royalty

  /** Why a call reverts. Every revert undoes every effect of the call. */
  datatype Error =
    // ERC-721 ledger
    | NonexistentToken            // "ERC721: invalid token ID"
    | NotOwnerNorApproved         // "ERC721: caller is not token owner or approved"
    | IncorrectOwner              // "ERC721: transfer from incorrect owner"
    | TransferToZero              // "ERC721: transfer to the zero address"
    | MintToZero                  // "ERC721: mint to the zero address"
    | ApprovalToCurrentOwner      // "ERC721: approval to current owner"
    | ApproveNotOwnerNorOperator  // "ERC721: approve caller is not token owner or approved for all"
    | ApproveToCaller             // "ERC721: approve to caller"
    // access control
    | MissingRole(role: Role)     // "...: must have ... role to ..."
    | NotContractOwner            // "Ownable: caller is not the owner"
    | NewOwnerZero                // "Ownable: new owner is the zero address"
    // royalties
    | RoyaltyReceiverZero         // "ERC721Resale: new receiver is the zero address"
    | RoyaltyBipsTooHigh          // "ERC721Resale: royalty percent BIPS must be <= 10000"
    // crate sale
    | ExceedsPurchaseLimit        // "IMSpaceLootCrateToken: amount exceeds purchase limit"
    | InsufficientSupply          // "IMSpaceLootCrateToken: insufficient supply"
    | InsufficientPayment         // "IMSpaceLootCrateToken: insufficient payment"
    // payment token (ERC-20)
    | InsufficientAllowance       // "ERC20: insufficient allowance"
    | InsufficientBalance         // "ERC20: transfer amount exceeds balance"
    // crate reveal
    | RevealNotOwnerNorApproved   // "IMSpaceLootCrateToken: reveal caller is not owner nor approved"
    | RevealFromIncorrectOwner    // "IMSpaceLootCrateToken: reveal from incorrect owner"
    | RevealToZero                // "IMSpaceLootCrateToken: reveal to the zero address"
    // views
    | IndexOutOfRange             // out-of-bounds array read
    // fair-reveal index
    | StartingIndexAlreadySet     // "IMSpaceMissionToken: starting index is already set"
    | StartingIndexBlockNotSet    // "IMSpaceMissionToken: starting index block must be set"
    | DivisionByZero              // arithmetic panic on "mod 0"

  /** The outcome of a view or of a pure rule: a value, or the reason for the revert. */
  datatype Result<T> = Ok(value: T) | Err(error: Error)

  /** The outcome of a state-changing call. */
  datatype Outcome = Pass | Fail(error: Error)
}
