/** The claims of a Cognito token as both handlers see them, shared by the
    trigger that writes them and the booking handler that reads them. */
module TokenClaims {

  /** Claim name to claim value (`userAttributes`, `claimsToAddOrOverride`,
      the authorizer's `claims`). */
  type Claims = map<string, string>

  /** The claim that carries the caller's comma-joined permissions. */
  const PermissionsClaim := "permissions"
}
