/** Accounts over whole runs: which call may change which column and to what, when each call is granted, and
    the life of a verification link and of a refresh token. */
module IdentityAccounts {
  import opened Prelude
  import opened IdentityTables
  import opened IdentitySystem
  import opened IdentityInvariant
  import opened IdentitySessions
  import opened IdentityAdmins

  // ------------------------------------------------------------- columns of an account

  /** No column of an account changes but by the call it belongs to, on this account, and to what that call
      was given; a version moves by one with each password change, role change and verification. */
  lemma ColumnsHaveOwners(s: System, e: Step, id: int)
    requires Inv(s) && Enabled(s, e) && id in s.t.users && id in Apply(s, e).t.users
    ensures var user, user' := s.t.users[id], Apply(s, e).t.users[id];
            && (user'.username != user.username ==> e.UpdateProfile? && e.id == id && user'.username == e.username)
            && (user'.password != user.password ==> e.ChangePassword? && e.id == id && user'.password == e.password)
            && (user'.email != user.email ==> e.VerifyEmail? && e.id == id && user'.email == user.pending)
            && (user'.verifiedAt != user.verifiedAt ==> e.VerifyEmail? && e.id == id && user'.verifiedAt == Some(e.now))
            && (user'.pending != user.pending ==>
                  || (e.VerifyEmail? && e.id == id && user'.pending == "")
                  || (e.UpdateProfile? && e.id == id
                      && user'.pending == (if e.email == user.email then "" else e.email)))
            && (user'.role != user.role ==>
                  || (e.ChangeRole? && e.target == id && user'.role == e.role)
                  || (Bootstraps(s, e) && e.id == id && user'.role == Admin))
            && user'.version == user.version + (if Bumps(s, e, id) then 1 else 0)
  {
    hide ClaimsDisjoint, CallsSound, RevokeAll, AdminIds, EmailTaken, NameTaken, PendingBySome, ClaimedByOther;
    assert id < s.t.nextId;
  }

  /** A committed call leaves the column it is about as it was asked to. */
  lemma CommittedCallsTakeEffect(s: System, e: Step)
    requires Inv(s) && Enabled(s, e)
    ensures e.ChangePassword? && ChangePasswordTx(s.t, e.id, e.password, e.now).Ok? ==>
              e.id in Apply(s, e).t.users && Apply(s, e).t.users[e.id].password == e.password
    ensures e.ChangeRole? && ChangeRoleTx(s.t, e.actor, e.target, e.role, e.now).Ok? ==>
              e.target in Apply(s, e).t.users && Apply(s, e).t.users[e.target].role == e.role
    ensures e.UpdateProfile? && UpdateProfileTx(s.t, e.id, e.username, e.email).Ok? ==>
              && e.id in Apply(s, e).t.users && Apply(s, e).t.users[e.id].username == e.username
              && Apply(s, e).t.users[e.id].email == s.t.users[e.id].email
              && Apply(s, e).t.users[e.id].pending == (if e.email == s.t.users[e.id].email then "" else e.email)
    ensures e.DeleteUser? && DeleteUserTx(s.t, e.id).Ok? ==>
              && e.id !in Apply(s, e).t.users && e.id !in Apply(s, e).t.verifications
              && forall token :: token in Apply(s, e).t.refresh ==> token.userId != e.id
  {
    hide ClaimsDisjoint, CallsSound, RevokeAll, AdminIds, NameTaken, ClaimedByOther;
  }

  /** The step stores this password hash for this user: at creation or by a committed change. */
  ghost predicate StoresPassword(s: System, e: Step, id: int, hash: string) {
    || (e.Register? && id == s.t.nextId && hash == e.password
        && RegisterTx(s.t, e.username, e.email, e.password, e.link, e.delivered).Ok?)
    || (e.CreateUser? && id == s.t.nextId && hash == e.password
        && CreateUserTx(s.t, e.username, e.email, e.password).Ok?)
    || (e.ChangePassword? && id == e.id && hash == e.password
        && ChangePasswordTx(s.t, e.id, e.password, e.now).Ok?)
  }

  ghost predicate StoresSomePassword(s: System, e: Step, id: int) { exists hash :: StoresPassword(s, e, id, hash) }

  lemma PasswordStep(s: System, e: Step, id: int)
    requires Inv(s) && Enabled(s, e) && id in Apply(s, e).t.users
    ensures StoresSomePassword(s, e, id) ==> StoresPassword(s, e, id, Apply(s, e).t.users[id].password)
    ensures !StoresSomePassword(s, e, id) ==>
              id in s.t.users && Apply(s, e).t.users[id].password == s.t.users[id].password
  {
    hide ClaimsDisjoint, CallsSound, RevokeAll, AdminIds, EmailTaken, NameTaken, PendingBySome, ClaimedByOther;
    if id !in s.t.users {
      assert StoresPassword(s, e, id, Apply(s, e).t.users[id].password);
    } else if e.ChangePassword? && e.id == id {
      assert StoresPassword(s, e, id, e.password);
    }
  }

  /** The hash a login is compared with is the one of the latest committed password change, or of the
      creation if there was none. */
  lemma {:induction false} PasswordIsTheLatest(run: Run, k: nat, id: int) returns (m: nat)
    requires run.Valid() && k < |run.states| && id in run.states[k].t.users
    ensures m < k && StoresPassword(run.states[m], run.steps[m], id, run.states[k].t.users[id].password)
    ensures forall n :: m < n < k ==> !StoresSomePassword(run.states[n], run.steps[n], id)
  {
    hide Apply, Enabled, Inv, StoresPassword, StoresSomePassword;
    assert k > 0;
    assert run.Follows(k - 1);
    ReachableInv(run, k - 1);
    PasswordStep(run.states[k - 1], run.steps[k - 1], id);
    if StoresSomePassword(run.states[k - 1], run.steps[k - 1], id) {
      m := k - 1;
    } else {
      m := PasswordIsTheLatest(run, k - 1, id);
    }
  }

  // ------------------------------------------------------------- when calls are granted

  /** Nobody else uses the name, and nobody else claims the address. */
  ghost predicate FreeFor(users: map<int, UserRow>, id: int, username: string, email: string) {
    forall other :: other in users && other != id ==> users[other].username != username && !Claims(users[other], email)
  }

  /** Why a name or an address is refused. */
  ghost predicate Explains(error: Error, users: map<int, UserRow>, id: int, username: string, email: string) {
    || (error == DuplicateUsername
        && exists other :: other in users && other != id && users[other].username == username)
    || (error == DuplicateEmail && exists other :: other in users && other != id && Claims(users[other], email))
  }

  /** A user is created exactly when name and address are free, registered exactly when moreover the message
      with the link is on its way; the error names what was taken. */
  lemma CreationGranted(t: Tables, username: string, email: string, password: string, link: VerificationRow,
                        delivered: bool)
    requires email != "" && t.nextId !in t.users
    ensures CreateUserTx(t, username, email, password).Ok? <==> FreeFor(t.users, t.nextId, username, email)
    ensures CreateUserTx(t, username, email, password).Err? ==>
              Explains(CreateUserTx(t, username, email, password).error, t.users, t.nextId, username, email)
    ensures RegisterTx(t, username, email, password, link, delivered).Ok?
            <==> delivered && FreeFor(t.users, t.nextId, username, email)
    ensures RegisterTx(t, username, email, password, link, delivered).Err? ==>
              var error := RegisterTx(t, username, email, password, link, delivered).error;
              (error == DispatchFailed && !delivered) || Explains(error, t.users, t.nextId, username, email)
  {
    assert CreateUserTx(t, username, email, password).Err? ==>
      PendingBySome(t.users, email) || NameTaken(t.users, t.nextId, username) || EmailTaken(t.users, t.nextId, email);
  }

  /** In reachable states a profile change commits exactly when the user exists and name and address are free
      of other users - the service's earlier read does not matter. */
  lemma ProfileChangeGranted(s: System, id: int, username: string, email: string)
    requires Inv(s) && email != ""
    ensures UpdateProfileTx(s.t, id, username, email).Ok?
            <==> id in s.t.users && FreeFor(s.t.users, id, username, email)
    ensures UpdateProfileTx(s.t, id, username, email).Err? ==>
              var error := UpdateProfileTx(s.t, id, username, email).error;
              (error == NotFound && id !in s.t.users) || Explains(error, s.t.users, id, username, email)
  {
    hide ReferencesSound, CallsSound;
    if id in s.t.users && email == s.t.users[id].email {
      assert Claims(s.t.users[id], email);
    }
  }

  /** Another user is an admin. */
  ghost predicate OtherAdmin(users: map<int, UserRow>, id: int) {
    exists other :: other in users && other != id && users[other].role == Admin
  }

  lemma OtherAdminIsSecond(users: map<int, UserRow>, id: int)
    requires id in users && users[id].role == Admin
    ensures 1 < |AdminIds(users)| <==> OtherAdmin(users, id)
  {
    var others := AdminIds(users) - {id};
    assert id in AdminIds(users);
    assert |others| == |AdminIds(users)| - 1;
    if OtherAdmin(users, id) {
      var other :| other in users && other != id && users[other].role == Admin;
      assert other in others;
    }
    forall other | other in others ensures OtherAdmin(users, id) {
      assert other in users && other != id && users[other].role == Admin;
    }
    if !OtherAdmin(users, id) { assert others == {}; }
  }

  /** A role change commits exactly when an admin asks for an existing target, a new admin is verified and a
      demoted one is not the only admin. */
  lemma RoleChangeGranted(t: Tables, actor: int, target: int, role: Role, now: int)
    ensures ChangeRoleTx(t, actor, target, role, now).Ok?
            <==> && actor in t.users && t.users[actor].role == Admin
                 && target in t.users
                 && (role == Admin ==> t.users[target].verifiedAt.Some?)
                 && (role == Member && t.users[target].role == Admin ==> OtherAdmin(t.users, target))
    ensures var outcome := ChangeRoleTx(t, actor, target, role, now);
            && (outcome == Err(NotFound) ==> actor !in t.users || target !in t.users)
            && (outcome == Err(Forbidden) ==>
                  actor in t.users
                  && (t.users[actor].role == Member || (target in t.users && t.users[target].verifiedAt.None?)))
            && (outcome == Err(LastAdmin) ==> target in t.users && t.users[target].role == Admin && role == Member)
            && (outcome.Err? ==> outcome.error == NotFound || outcome.error == Forbidden || outcome.error == LastAdmin)
  {
    if target in t.users && t.users[target].role == Admin { OtherAdminIsSecond(t.users, target); }
    hide AdminIds, OtherAdmin;
  }

  /** A deletion commits exactly when the user exists and is not the only admin. */
  lemma DeletionGranted(t: Tables, id: int)
    ensures DeleteUserTx(t, id).Ok?
            <==> id in t.users && (t.users[id].role == Admin ==> OtherAdmin(t.users, id))
    ensures DeleteUserTx(t, id).Err? ==> DeleteUserTx(t, id).error == if id in t.users then LastAdmin else NotFound
  {
    if id in t.users && t.users[id].role == Admin { OtherAdminIsSecond(t.users, id); }
    hide AdminIds, OtherAdmin;
  }

  // ------------------------------------------------------------- links and tokens

  /** Registering and redeeming the link gives an account with what was asked for: a member, unverified until
      the link is redeemed, verified under the registered address afterwards. */
  lemma RegisterThenVerify(s: System, e: Step, now: int, bootstrap: string)
    requires Inv(s) && Enabled(s, e) && e.Register?
    requires RegisterTx(s.t, e.username, e.email, e.password, e.link, e.delivered).Ok?
    ensures var id, t := s.t.nextId, Apply(s, e).t;
            && id !in s.t.users && id in t.users && t.nextId == id + 1
            && t.users[id].username == e.username && t.users[id].email == e.email && t.users[id].pending == ""
            && t.users[id].password == e.password && t.users[id].role == Member && t.users[id].version == 1
            && t.users[id].verifiedAt.None?
            && (forall secret, instant :: Redeemable(t, id, secret, instant)
                                          <==> secret == e.link.secret && instant < e.link.expiresAt)
            && VerifyEmailTx(t, id, now, bootstrap).Ok?
            && var user := VerifyEmailTx(t, id, now, bootstrap).value.users[id];
               user.email == e.email && user.verifiedAt == Some(now) && user.username == e.username
  {
    hide CallsSound, ClaimsDisjoint, RevokeAll, AdminIds, Enabled;
    var t := Apply(s, e).t;
    assert s.t.nextId !in s.t.users;
    assert ClaimsDisjoint(t.users) && RowsSound(t.users) by { StepKeepsInv(s, e); }
    PromotionNeverCollides(t.users, s.t.nextId, now, |AdminIds(t.users)|, bootstrap);
  }

  /** A link works once: after the verification no secret redeems anything for that user. */
  lemma LinkIsSingleUse(s: System, e: Step, secret: string, now: int)
    requires Inv(s) && Enabled(s, e) && e.VerifyEmail?
    ensures !Redeemable(Apply(s, e).t, e.id, secret, now)
  {
    hide ClaimsDisjoint, CallsSound, RevokeAll, AdminIds;
    PromotionNeverCollides(s.t.users, e.id, e.now, |AdminIds(s.t.users)|, e.bootstrap);
  }

  /** A new link for a known user retires the older one and touches nobody else's. */
  lemma NewLinkReplacesOld(s: System, e: Step, id: int, secret: string, now: int)
    requires Enabled(s, e) && e.SendVerification?
    ensures e.id in s.t.users && id == e.id ==>
              (Redeemable(Apply(s, e).t, id, secret, now) <==> secret == e.link.secret && now < e.link.expiresAt)
    ensures e.id !in s.t.users || id != e.id ==>
              Redeemable(Apply(s, e).t, id, secret, now) == Redeemable(s.t, id, secret, now)
  {}

  /** A login's refresh token is found until it expires. */
  lemma LoginTokenIsActive(s: System, e: Step, now: int)
    requires Inv(s) && Enabled(s, e) && e.LoginStore? && s.calls[e.call].userId in s.t.users
    ensures Active(Apply(s, e).t.refresh, e.token, now) <==> now < e.token.expiresAt
    ensures e.token in Apply(s, e).t.refresh && Apply(s, e).t.refresh[e.token].userId == s.calls[e.call].userId
  {}

  /** A rotation commits exactly when the presented row is unrevoked and unexpired, the replacement is new and
      the user exists; it blames the presented token only for the former. */
  lemma RotationGranted(t: Tables, current: Jwt, replacement: Jwt, userId: int, expiresAt: int, now: int)
    ensures var alive := current in t.refresh && t.refresh[current].revokedAt.None?
                         && now < t.refresh[current].expiresAt;
            var outcome := RotateTx(t, current, replacement, userId, expiresAt, now);
            && (outcome.Ok? <==> alive && replacement !in t.refresh && userId in t.users)
            && (outcome.Err? ==> outcome.error == if alive then StoreFailed else Unauthorized)
  {}

  /** After a rotation its replacement is found until it expires, and the presented token never again. */
  lemma RotationSwapsTokens(s: System, e: Step, now: int)
    requires Inv(s) && Enabled(s, e) && Rotates(s, e)
    ensures Active(Apply(s, e).t.refresh, e.replacement, now) <==> now < e.replacement.expiresAt
    ensures !Active(Apply(s, e).t.refresh, Presented(s, e), now)
  {
    assert CallSound(s, s.calls[e.call]);
  }

  /** After a logout the presented token is not found, every other one as before. */
  lemma LogoutEndsOneToken(s: System, e: Step, token: Jwt, now: int)
    requires Enabled(s, e) && e.Logout?
    ensures Active(Apply(s, e).t.refresh, token, now) <==> token != e.token && Active(s.t.refresh, token, now)
  {}

  /** The reading a revoking step takes. */
  function RevokedBy(e: Step): Option<int> {
    match e
    case ChangePassword(_, _, now) => Some(now)
    case ChangeRole(_, _, _, now) => Some(now)
    case VerifyEmail(_, _, now, _) => Some(now)
    case RefreshRotate(_, _, _, now) => Some(now)
    case Logout(_, now) => Some(now)
    case _ => None
  }

  /** A stored refresh row changes in one way only: once, from unrevoked to revoked at the reading of the step
      that revokes it; what it says of its user and expiry never changes. */
  lemma RowsAreRevokedOnce(s: System, e: Step, token: Jwt)
    requires Inv(s) && Enabled(s, e) && token in s.t.refresh && token in Apply(s, e).t.refresh
    ensures var row, row' := s.t.refresh[token], Apply(s, e).t.refresh[token];
            && row'.userId == row.userId && row'.expiresAt == row.expiresAt
            && (row'.revokedAt != row.revokedAt ==>
                  row.revokedAt.None? && RevokedBy(e).Some? && row'.revokedAt == RevokedBy(e))
  {
    hide ClaimsDisjoint, RowsSound, CallsSound, ReferencesSound, AdminIds, PolicyRole;
    hide EmailTaken, NameTaken, PendingBySome, ClaimedByOther;
    if !e.ChangePassword? && !e.ChangeRole? && !e.VerifyEmail? { hide RevokeAll; }
  }

  /** Only an unexpired refresh token is ever rotated. */
  lemma RotatedTokenIsAlive(run: Run, k: nat)
    requires run.Valid() && k < |run.steps| && Rotates(run.states[k], run.steps[k])
    ensures var token := Presented(run.states[k], run.steps[k]); token.refresh && run.steps[k].now < token.expiresAt
  {
    ReachableInv(run, k);
    assert run.Follows(k);
    assert CallSound(run.states[k], run.states[k].calls[run.steps[k].call]);
  }

  /** A lookup answers only for a refresh token that is valid at the reading, in its own user's name. */
  lemma LookupIsStrict(s: System, token: Jwt, now: int)
    requires Inv(s)
    ensures LookupSucceeds(s, token, now)
            <==> && token.refresh && now / SECOND < token.expiresAt / SECOND
                 && token in s.t.refresh && s.t.refresh[token].revokedAt.None?
  {
    if token in s.t.refresh { assert s.t.refresh[token].userId == token.userId; }
  }

  /** The purge removes exactly the rows that expired or were revoked before its instant. */
  lemma PurgeIsExact(s: System, e: Step, token: Jwt)
    requires Enabled(s, e) && e.Purge?
    ensures token in Apply(s, e).t.refresh
            <==> && token in s.t.refresh && e.before <= s.t.refresh[token].expiresAt
                 && (s.t.refresh[token].revokedAt.Some? ==> e.before <= s.t.refresh[token].revokedAt.value)
    ensures token in Apply(s, e).t.refresh ==> Apply(s, e).t.refresh[token] == s.t.refresh[token]
  {}
}
