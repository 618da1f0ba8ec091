/** The identity store as a concurrent system.  A service call is several steps - separate reads, then
    one transaction - and the steps of all calls interleave freely.  A login or refresh in progress is
    explicit state; the user service's calls end in one transaction whose arguments do not depend on
    what they read before, so that transaction may happen at any time. */
module IdentitySystem {
  import opened Prelude
  import opened IdentityTables

  /** A service call between two of its store accesses. */
  datatype Call =
    | LoggingIn(userId: int, version: int)             // Login has read a verified account
    | RefreshFound(token: Jwt)                         // Refresh has validated the token and found its row
    | RefreshChecked(token: Jwt)                       // Refresh has compared the account with the claims

  /** `minted` holds every token ever signed. */
  datatype System = System(t: Tables, clock: int, minted: set<Jwt>, calls: map<nat, Call>)

  datatype Step =
    | Tick(to: int)
    | Register(username: string, email: string, password: string, link: VerificationRow, delivered: bool)
    | CreateUser(username: string, email: string, password: string)
    | UpdateProfile(id: int, username: string, email: string)
    | ChangePassword(id: int, password: string, now: int)
    | ChangeRole(actor: int, target: int, role: Role, now: int)
    | DeleteUser(id: int)
    | LoginRead(call: nat, id: int)
    | LoginStore(call: nat, access: Jwt, token: Jwt)
    | RefreshLookup(call: nat, token: Jwt, now: int)
    | RefreshRead(call: nat)
    | RefreshRotate(call: nat, access: Jwt, replacement: Jwt, now: int)
    | Logout(token: Jwt, now: int)
    | SendVerification(id: int, link: VerificationRow)
    | VerifyEmail(id: int, secret: string, now: int, bootstrap: string)
    | Purge(before: int)

  const INITIAL: System := System(Tables(map[], map[], map[], 1), 0, {}, map[])

  /** The claims pass ValidateRefreshToken at a clock reading: right kind, not expired. */
  predicate ValidRefresh(token: Jwt, now: int) { token.refresh && now / SECOND < token.expiresAt / SECOND }

  /** What the middleware asks of an access token's account and Refresh of a refresh token's: the user
      exists, is verified and still has the version the token was minted for. */
  predicate AccountMatches(t: Tables, token: Jwt) {
    token.userId in t.users && t.users[token.userId].version == token.version && t.users[token.userId].Verified()
  }

  /** A freshly signed pair of tokens for a user at a version. */
  predicate FreshPair(s: System, access: Jwt, token: Jwt, userId: int, version: int) {
    && access !in s.minted && token !in s.minted && access != token
    && !access.refresh && token.refresh
    && access.userId == userId && token.userId == userId
    && access.version == version && token.version == version
  }

  /** When a step may happen.  Addresses have been normalised and validated, so they are not empty; the
      user service refuses to change one's own role; token identifiers are fresh; a token presented to
      the service was minted by it. */
  predicate Enabled(s: System, e: Step) {
    match e
    case Tick(to) => s.clock <= to
    case Register(_, email, _, _, _) => email != ""
    case CreateUser(_, email, _) => email != ""
    case UpdateProfile(_, _, email) => email != ""
    case ChangePassword(_, _, now) => now <= s.clock
    case ChangeRole(actor, target, _, now) => actor != target && now <= s.clock
    case DeleteUser(_) => true
    case LoginRead(call, id) => call !in s.calls && id in s.t.users && s.t.users[id].Verified()
    case LoginStore(call, access, token) =>
      && call in s.calls && s.calls[call].LoggingIn?
      && FreshPair(s, access, token, s.calls[call].userId, s.calls[call].version)
    case RefreshLookup(call, token, now) => call !in s.calls && token in s.minted && now <= s.clock
    case RefreshRead(call) => call in s.calls && s.calls[call].RefreshFound?
    case RefreshRotate(call, access, replacement, now) =>
      && call in s.calls && s.calls[call].RefreshChecked? && now <= s.clock
      && FreshPair(s, access, replacement, s.calls[call].token.userId, s.calls[call].token.version)
    case Logout(_, now) => now <= s.clock
    case SendVerification(_, _) => true
    case VerifyEmail(id, secret, now, _) => now <= s.clock && Redeemable(s.t, id, secret, now)
    case Purge(_) => true
  }

  /** The lookup of Refresh succeeds. */
  predicate LookupSucceeds(s: System, token: Jwt, now: int) {
    ValidRefresh(token, now) && Active(s.t.refresh, token, now) && s.t.refresh[token].userId == token.userId
  }

  function RotateOutcome(s: System, e: Step): Result<Tables, Error>
    requires e.RefreshRotate? && e.call in s.calls && s.calls[e.call].RefreshChecked?
  {
    var token := s.calls[e.call].token;
    RotateTx(s.t, token, e.replacement, token.userId, e.replacement.expiresAt, e.now)
  }

  function Apply(s: System, e: Step): System
    requires Enabled(s, e)
  {
    match e
    case Tick(to) => s.(clock := to)
    case Register(username, email, password, link, delivered) =>
      s.(t := Commit(s.t, RegisterTx(s.t, username, email, password, link, delivered)))
    case CreateUser(username, email, password) => s.(t := Commit(s.t, CreateUserTx(s.t, username, email, password)))
    case UpdateProfile(id, username, email) => s.(t := Commit(s.t, UpdateProfileTx(s.t, id, username, email)))
    case ChangePassword(id, password, now) => s.(t := Commit(s.t, ChangePasswordTx(s.t, id, password, now)))
    case ChangeRole(actor, target, role, now) => s.(t := Commit(s.t, ChangeRoleTx(s.t, actor, target, role, now)))
    case DeleteUser(id) => s.(t := Commit(s.t, DeleteUserTx(s.t, id)))
    case LoginRead(call, id) => s.(calls := s.calls[call := LoggingIn(id, s.t.users[id].version)])
    case LoginStore(call, access, token) =>
      s.(t := Commit(s.t, CreateRefreshTx(s.t, token, token.userId, token.expiresAt)),
         minted := s.minted + {access, token}, calls := s.calls - {call})
    case RefreshLookup(call, token, now) =>
      if LookupSucceeds(s, token, now) then s.(calls := s.calls[call := RefreshFound(token)]) else s
    case RefreshRead(call) =>
      if AccountMatches(s.t, s.calls[call].token) then s.(calls := s.calls[call := RefreshChecked(s.calls[call].token)])
      else s.(calls := s.calls - {call})
    case RefreshRotate(call, access, replacement, now) =>
      s.(t := Commit(s.t, RotateOutcome(s, e)), minted := s.minted + {access, replacement}, calls := s.calls - {call})
    case Logout(token, now) => s.(t := Commit(s.t, RevokeRefreshTx(s.t, token, now)))
    case SendVerification(id, link) => s.(t := Commit(s.t, ReplaceVerificationTx(s.t, id, link)))
    case VerifyEmail(id, secret, now, bootstrap) => s.(t := Commit(s.t, VerifyEmailTx(s.t, id, now, bootstrap)))
    case Purge(before) => s.(t := PurgeTx(s.t, before))
  }

  datatype Run = Run(states: seq<System>, steps: seq<Step>)
  {
    ghost predicate Follows(k: nat)
      requires |states| == |steps| + 1 && k < |steps|
    {
      Enabled(states[k], steps[k]) && states[k + 1] == Apply(states[k], steps[k])
    }

    ghost predicate Valid() {
      && |states| == |steps| + 1
      && states[0] == INITIAL
      && forall k: nat :: k < |steps| ==> Follows(k)
    }
  }
}
