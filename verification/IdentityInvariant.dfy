/** The invariant of the identity store, kept by every interleaving of service calls. */
module IdentityInvariant {
  import opened Prelude
  import opened IdentityTables
  import opened IdentitySystem

  /** A non-empty address belongs to this user: as email or as the pending one. */
  predicate Claims(row: UserRow, address: string) {
    address != "" && (row.email == address || row.pending == address)
  }

  /** Distinct users claim distinct addresses. */
  ghost predicate ClaimsDisjoint(users: map<int, UserRow>) {
    forall a, b, address :: a in users && b in users && a != b && Claims(users[a], address) ==>
      !Claims(users[b], address)
  }

  /** Emails are not empty and every admin is verified. */
  ghost predicate RowsSound(users: map<int, UserRow>) {
    forall id :: id in users ==> users[id].email != "" && (users[id].role == Admin ==> users[id].Verified())
  }

  /** References hold, ids are below the counter, and every stored token was minted for its user. */
  ghost predicate ReferencesSound(s: System) {
    && (forall id :: id in s.t.users ==> id < s.t.nextId)
    && s.t.verifications.Keys <= s.t.users.Keys
    && (forall token :: token in s.t.refresh ==>
          token in s.minted && token.refresh
          && s.t.refresh[token].userId == token.userId && token.userId in s.t.users
          && s.t.refresh[token].expiresAt == token.expiresAt)
  }

  /** A refresh that compared its account with the claims is still right about it for as long as its
      token's row is unrevoked. */
  ghost predicate CallSound(s: System, call: Call) {
    match call
    case LoggingIn(userId, version) =>
      userId < s.t.nextId && (userId in s.t.users ==> version <= s.t.users[userId].version)
    case RefreshFound(token) => token in s.minted && token.refresh
    case RefreshChecked(token) =>
      && token in s.minted && token.refresh
      && (token in s.t.refresh && s.t.refresh[token].revokedAt.None? ==> AccountMatches(s.t, token))
  }

  ghost predicate CallsSound(s: System) { forall call :: call in s.calls ==> CallSound(s, s.calls[call]) }

  ghost predicate Inv(s: System) {
    ClaimsDisjoint(s.t.users) && RowsSound(s.t.users) && ReferencesSound(s) && CallsSound(s)
  }

  // --------------------------------------------------------------- user addresses

  lemma NewUserKeepsClaims(t: Tables, username: string, email: string, password: string)
    requires ClaimsDisjoint(t.users) && email != ""
    requires t.nextId !in t.users && CreateUserTx(t, username, email, password).Ok?
    ensures ClaimsDisjoint(CreateUserTx(t, username, email, password).value.users)
  {
    forall id | id in t.users ensures t.users[id].email != email && t.users[id].pending != email {
      assert !PendingBySome(t.users, email) && !EmailTaken(t.users, t.nextId, email);
    }
  }

  lemma ProfileKeepsClaims(t: Tables, id: int, username: string, email: string)
    requires ClaimsDisjoint(t.users) && RowsSound(t.users) && UpdateProfileTx(t, id, username, email).Ok?
    ensures ClaimsDisjoint(UpdateProfileTx(t, id, username, email).value.users)
  {
    var users' := UpdateProfileTx(t, id, username, email).value.users;
    forall a, b, address | a in users' && b in users' && a != b && Claims(users'[a], address)
      ensures !Claims(users'[b], address)
    {
      if email != t.users[id].email { assert !ClaimedByOther(t.users, id, email); }
      if a != id { assert Claims(t.users[a], address); }
    }
  }

  /** Promoting a pending address can never hit the unique constraint on email: no other user holds it. */
  lemma PromotionNeverCollides(users: map<int, UserRow>, id: int, now: int, admins: nat, bootstrap: string)
    requires ClaimsDisjoint(users) && RowsSound(users) && id in users
    ensures !EmailTaken(users, id, VerifiedRow(users[id], now, admins, bootstrap).email)
  {
    var email := VerifiedRow(users[id], now, admins, bootstrap).email;
    assert Claims(users[id], email);
    forall other | other in users && other != id ensures users[other].email != email {
      assert !Claims(users[other], email);
    }
  }

  lemma PromotionKeepsClaims(users: map<int, UserRow>, id: int, now: int, admins: nat, bootstrap: string)
    requires ClaimsDisjoint(users) && RowsSound(users) && id in users
    ensures ClaimsDisjoint(users[id := VerifiedRow(users[id], now, admins, bootstrap)])
  {
    var users' := users[id := VerifiedRow(users[id], now, admins, bootstrap)];
    forall a, b, address | a in users' && b in users' && a != b && Claims(users'[a], address)
      ensures !Claims(users'[b], address)
    {
      assert Claims(users[a], address);
      assert !Claims(users[b], address);
    }
  }

  lemma SameAddressesKeepClaims(users: map<int, UserRow>, users': map<int, UserRow>)
    requires ClaimsDisjoint(users) && users'.Keys <= users.Keys
    requires forall id :: id in users' ==>
               users'[id].email == users[id].email && users'[id].pending == users[id].pending
    ensures ClaimsDisjoint(users')
  {
    forall a, b, address | a in users' && b in users' && a != b && Claims(users'[a], address)
      ensures !Claims(users'[b], address)
    {
      assert Claims(users[a], address) && !Claims(users[b], address);
    }
  }

  lemma StepKeepsClaims(s: System, e: Step)
    requires Inv(s) && Enabled(s, e)
    ensures ClaimsDisjoint(Apply(s, e).t.users)
  {
    hide ClaimsDisjoint, EmailTaken, NameTaken, PendingBySome, ClaimedByOther, RevokeAll;
    match e
    case Register(username, email, password, _, _) =>
      if CreateUserTx(s.t, username, email, password).Ok? { NewUserKeepsClaims(s.t, username, email, password); }
    case CreateUser(username, email, password) =>
      if CreateUserTx(s.t, username, email, password).Ok? { NewUserKeepsClaims(s.t, username, email, password); }
    case UpdateProfile(id, username, email) =>
      if UpdateProfileTx(s.t, id, username, email).Ok? { ProfileKeepsClaims(s.t, id, username, email); }
    case VerifyEmail(id, _, now, bootstrap) =>
      if id in s.t.users { PromotionKeepsClaims(s.t.users, id, now, |AdminIds(s.t.users)|, bootstrap); }
    case _ => SameAddressesKeepClaims(s.t.users, Apply(s, e).t.users);
  }

  // -------------------------------------------------------- rows, references, calls

  lemma StepKeepsRows(s: System, e: Step)
    requires Inv(s) && Enabled(s, e)
    ensures RowsSound(Apply(s, e).t.users)
  {
    hide ClaimsDisjoint, CallsSound, EmailTaken, NameTaken, PendingBySome, ClaimedByOther;
    hide RevokeAll, AdminIds, ReferencesSound;
  }

  lemma InsertKeepsReferences(s: System, e: Step)
    requires Inv(s) && Enabled(s, e) && (e.LoginStore? || e.RefreshRotate?)
    ensures ReferencesSound(Apply(s, e))
  {
    hide ClaimsDisjoint, RowsSound;
    assert CallSound(s, s.calls[e.call]);
  }

  lemma RevocationKeepsReferences(s: System, e: Step)
    requires Inv(s) && Enabled(s, e) && (e.ChangePassword? || e.ChangeRole? || e.VerifyEmail?)
    ensures ReferencesSound(Apply(s, e))
  {
    hide ClaimsDisjoint, RowsSound, CallsSound, EmailTaken, PolicyRole, AdminIds;
  }

  lemma OtherStepKeepsReferences(s: System, e: Step)
    requires Inv(s) && Enabled(s, e) && !e.LoginStore? && !e.RefreshRotate?
    requires !e.ChangePassword? && !e.ChangeRole? && !e.VerifyEmail?
    ensures ReferencesSound(Apply(s, e))
  {
    hide ClaimsDisjoint, RowsSound, CallsSound, EmailTaken, NameTaken, PendingBySome, ClaimedByOther, AdminIds;
  }

  lemma StepKeepsReferences(s: System, e: Step)
    requires Inv(s) && Enabled(s, e)
    ensures ReferencesSound(Apply(s, e))
  {
    hide Apply, Enabled, Inv, ReferencesSound;
    if e.LoginStore? || e.RefreshRotate? {
      InsertKeepsReferences(s, e);
    } else if e.ChangePassword? || e.ChangeRole? || e.VerifyEmail? {
      RevocationKeepsReferences(s, e);
    } else {
      OtherStepKeepsReferences(s, e);
    }
  }

  /** Every bump of a user's version revokes that user's unrevoked rows in the same transaction. */
  lemma BumpRevokes(s: System, e: Step, token: Jwt)
    requires Inv(s) && Enabled(s, e)
    requires token in s.t.refresh && AccountMatches(s.t, token)
    requires token in Apply(s, e).t.refresh && Apply(s, e).t.refresh[token].revokedAt.None?
    ensures AccountMatches(Apply(s, e).t, token)
  {
    hide ClaimsDisjoint, CallsSound, EmailTaken, NameTaken, PendingBySome, ClaimedByOther, PolicyRole, AdminIds;
    if !e.ChangePassword? && !e.ChangeRole? && !e.VerifyEmail? { hide RevokeAll; }
  }

  /** A minted token is never inserted again, and a revoked row never becomes unrevoked. */
  lemma NoRevival(s: System, e: Step, token: Jwt)
    requires Enabled(s, e) && token in s.minted
    requires token in Apply(s, e).t.refresh && Apply(s, e).t.refresh[token].revokedAt.None?
    ensures token in s.t.refresh && s.t.refresh[token].revokedAt.None?
    ensures Apply(s, e).t.refresh[token] == s.t.refresh[token]
  {
    hide EmailTaken, NameTaken, PendingBySome, ClaimedByOther, PolicyRole, AdminIds;
    if e.ChangePassword? || e.ChangeRole? || e.VerifyEmail? {
    } else {
      hide RevokeAll;
    }
  }

  /** Versions never fall, ids are never used twice. */
  ghost predicate Advances(t: Tables, t': Tables) {
    && t.nextId <= t'.nextId
    && forall id :: id in t'.users && id < t.nextId ==> id in t.users && t.users[id].version <= t'.users[id].version
  }

  lemma StepAdvances(s: System, e: Step)
    requires Inv(s) && Enabled(s, e)
    ensures Advances(s.t, Apply(s, e).t)
  {
    hide ClaimsDisjoint, CallsSound, EmailTaken, NameTaken, PendingBySome, ClaimedByOther, PolicyRole, AdminIds;
    hide RevokeAll, RowsSound;
  }

  lemma SoundCallStays(s: System, e: Step, call: Call)
    requires Inv(s) && Enabled(s, e) && CallSound(s, call)
    ensures CallSound(Apply(s, e), call)
  {
    hide ClaimsDisjoint, CallsSound, EmailTaken, NameTaken, PendingBySome, ClaimedByOther, PolicyRole, AdminIds;
    var s' := Apply(s, e);
    assert s.minted <= s'.minted;
    match call
    case LoggingIn(_, _) => StepAdvances(s, e);
    case RefreshFound(_) =>
    case RefreshChecked(token) =>
      if token in s'.t.refresh && s'.t.refresh[token].revokedAt.None? {
        NoRevival(s, e, token);
        BumpRevokes(s, e, token);
      }
  }

  lemma NewCallIsSound(s: System, e: Step, call: nat)
    requires Inv(s) && Enabled(s, e) && call in Apply(s, e).calls
    requires call in s.calls ==> s.calls[call] != Apply(s, e).calls[call]
    ensures CallSound(s, Apply(s, e).calls[call])
  {
    hide ClaimsDisjoint, EmailTaken, NameTaken, PendingBySome, ClaimedByOther, PolicyRole, AdminIds;
    if call in s.calls { assert CallSound(s, s.calls[call]); }
  }

  lemma StepKeepsInv(s: System, e: Step)
    requires Inv(s) && Enabled(s, e)
    ensures Inv(Apply(s, e))
  {
    StepKeepsClaims(s, e);
    StepKeepsRows(s, e);
    StepKeepsReferences(s, e);
    hide Apply, CallSound, ClaimsDisjoint, RowsSound, ReferencesSound;
    forall call | call in Apply(s, e).calls ensures CallSound(Apply(s, e), Apply(s, e).calls[call]) {
      if call in s.calls && s.calls[call] == Apply(s, e).calls[call] {
        assert CallSound(s, s.calls[call]);
      } else {
        NewCallIsSound(s, e, call);
      }
      SoundCallStays(s, e, Apply(s, e).calls[call]);
    }
  }

  /** Every reachable state of every interleaving satisfies the invariant. */
  lemma {:induction false} ReachableInv(run: Run, k: nat)
    requires run.Valid() && k < |run.states|
    ensures Inv(run.states[k])
  {
    if k == 0 {
      assert run.states[0] == INITIAL;
    } else {
      ReachableInv(run, k - 1);
      assert run.Follows(k - 1);
      StepKeepsInv(run.states[k - 1], run.steps[k - 1]);
    }
  }

  // ------------------------------------------------------- what it says about addresses

  /** In every reachable state the addresses of distinct users are disjoint, so a lookup of a non-empty
      address among emails and pending emails has at most one match. */
  lemma AddressHasOneOwner(run: Run, k: nat, a: int, b: int, address: string)
    requires run.Valid() && k < |run.states|
    requires a in run.states[k].t.users && b in run.states[k].t.users
    requires Claims(run.states[k].t.users[a], address) && Claims(run.states[k].t.users[b], address)
    ensures a == b
  {
    ReachableInv(run, k);
  }

  /** A redeemable verification token is always honoured: the promotion commits, the user's address is
      the one that was pending, and the token is gone. */
  lemma RedeemableTokenVerifies(run: Run, k: nat)
    requires run.Valid() && k < |run.steps| && run.steps[k].VerifyEmail?
    ensures var e, t, t' := run.steps[k], run.states[k].t, run.states[k + 1].t;
            && e.id in t.users && e.id in t'.users
            && VerifyEmailTx(t, e.id, e.now, e.bootstrap).Ok?
            && t'.users[e.id].verifiedAt == Some(e.now)
            && t'.users[e.id].email
               == (if t.users[e.id].pending != "" then t.users[e.id].pending else t.users[e.id].email)
            && t'.users[e.id].pending == ""
            && t'.users[e.id].version == t.users[e.id].version + 1
            && e.id !in t'.verifications
  {
    ReachableInv(run, k);
    assert run.Follows(k);
    var e, t := run.steps[k], run.states[k].t;
    PromotionNeverCollides(t.users, e.id, e.now, |AdminIds(t.users)|, e.bootstrap);
  }
}
