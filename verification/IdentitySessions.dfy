/** Sessions over whole runs: stale versions are never accepted, refresh tokens are rotated once, and
    purging dead rows cannot be observed. */
module IdentitySessions {
  import opened Prelude
  import opened IdentityTables
  import opened IdentitySystem
  import opened IdentityInvariant

  /** The final transaction of a refresh commits. */
  predicate Rotates(s: System, e: Step) {
    e.RefreshRotate? && e.call in s.calls && s.calls[e.call].RefreshChecked? && RotateOutcome(s, e).Ok?
  }

  /** The token a refresh call is about. */
  function Presented(s: System, e: Step): Jwt
    requires e.RefreshRotate? && e.call in s.calls && s.calls[e.call].RefreshChecked?
  {
    s.calls[e.call].token
  }

  lemma RotationFindsCurrentAccount(s: System, e: Step)
    requires Inv(s) && Enabled(s, e) && Rotates(s, e)
    ensures AccountMatches(s.t, Presented(s, e))
    ensures AccountMatches(Apply(s, e).t, e.replacement) && AccountMatches(Apply(s, e).t, e.access)
    ensures Active(s.t.refresh, Presented(s, e), e.now)
  {
    assert CallSound(s, s.calls[e.call]);
  }

  /** If the rotation of a refresh succeeds, the account still exists, verified, with the version the
      call compared earlier, whatever happened in between; so both tokens it hands out are current. */
  lemma SuccessfulRefreshIsCurrent(run: Run, k: nat)
    requires run.Valid() && k < |run.steps| && Rotates(run.states[k], run.steps[k])
    ensures var token, users := Presented(run.states[k], run.steps[k]), run.states[k].t.users;
            token.userId in users && users[token.userId].version == token.version
            && users[token.userId].verifiedAt.Some?
    ensures AccountMatches(run.states[k].t, Presented(run.states[k], run.steps[k]))
    ensures AccountMatches(run.states[k + 1].t, run.steps[k].replacement)
    ensures AccountMatches(run.states[k + 1].t, run.steps[k].access)
  {
    ReachableInv(run, k);
    assert run.Follows(k);
    RotationFindsCurrentAccount(run.states[k], run.steps[k]);
  }

  lemma {:induction false} RunAdvances(run: Run, i: nat, j: nat)
    requires run.Valid() && i <= j < |run.states|
    ensures Advances(run.states[i].t, run.states[j].t)
    decreases j
  {
    if i < j {
      RunAdvances(run, i, j - 1);
      ReachableInv(run, j - 1);
      assert run.Follows(j - 1);
      StepAdvances(run.states[j - 1], run.steps[j - 1]);
    }
  }

  /** The token's user has moved past the token's version, or is gone for good. */
  ghost predicate Outdated(t: Tables, token: Jwt) {
    token.userId < t.nextId && (token.userId in t.users ==> token.version < t.users[token.userId].version)
  }

  lemma OutdatedStays(t: Tables, t': Tables, token: Jwt)
    requires Outdated(t, token) && Advances(t, t')
    ensures Outdated(t', token) && !AccountMatches(t', token)
  {}

  /** No access token is honoured, no refresh passes its account check and no rotation succeeds with a
      token of an outdated version, at any later point - though a login that read the account before the
      bump may still insert such a token's row. */
  lemma OutdatedTokenIsNeverAccepted(run: Run, i: nat, j: nat, token: Jwt)
    requires run.Valid() && i <= j < |run.states|
    requires Outdated(run.states[i].t, token)
    ensures !AccountMatches(run.states[j].t, token)
    ensures j < |run.steps| && Rotates(run.states[j], run.steps[j]) ==> Presented(run.states[j], run.steps[j]) != token
  {
    RunAdvances(run, i, j);
    OutdatedStays(run.states[i].t, run.states[j].t, token);
    if j < |run.steps| && Rotates(run.states[j], run.steps[j]) { SuccessfulRefreshIsCurrent(run, j); }
  }

  /** A password change, a role change and a verification that commit bump the version of their user. */
  predicate Bumps(s: System, e: Step, id: int) {
    || (e.ChangePassword? && e.id == id && ChangePasswordTx(s.t, id, e.password, e.now).Ok?)
    || (e.ChangeRole? && e.target == id && ChangeRoleTx(s.t, e.actor, id, e.role, e.now).Ok?)
    || (e.VerifyEmail? && e.id == id && VerifyEmailTx(s.t, id, e.now, e.bootstrap).Ok?)
    || (e.DeleteUser? && e.id == id && DeleteUserTx(s.t, id).Ok?)
  }

  /** Such a bump, or the user's removal, outdates every token of the version it found or an earlier
      one, and leaves the user no unrevoked row. */
  lemma BumpOutdates(s: System, e: Step, id: int, token: Jwt)
    requires Inv(s) && Enabled(s, e) && Bumps(s, e, id)
    requires id in s.t.users && token.userId == id && token.version <= s.t.users[id].version
    ensures Outdated(Apply(s, e).t, token)
    ensures forall other :: other in Apply(s, e).t.refresh && Apply(s, e).t.refresh[other].userId == id ==>
              Apply(s, e).t.refresh[other].revokedAt.Some?
  {
    hide ClaimsDisjoint, CallsSound, EmailTaken, PolicyRole, AdminIds;
  }

  /** So a password change, role change, verification or deletion ends every session of its user for
      good: no token minted for the version it found, or an earlier one, is ever accepted again. */
  lemma BumpEndsSessions(run: Run, i: nat, j: nat, id: int, token: Jwt)
    requires run.Valid() && i < j < |run.states|
    requires Bumps(run.states[i], run.steps[i], id)
    requires id in run.states[i].t.users && token.userId == id && token.version <= run.states[i].t.users[id].version
    ensures !AccountMatches(run.states[j].t, token)
    ensures j < |run.steps| && Rotates(run.states[j], run.steps[j]) ==> Presented(run.states[j], run.steps[j]) != token
  {
    ReachableInv(run, i);
    assert run.Follows(i);
    BumpOutdates(run.states[i], run.steps[i], id, token);
    hide Bumps, Rotates, AccountMatches, Outdated;
    OutdatedTokenIsNeverAccepted(run, i + 1, j, token);
  }

  // ------------------------------------------------------------ rotation families

  /** Follow the login each stored refresh token descends from. */
  function NextRoots(s: System, e: Step, roots: map<Jwt, Jwt>): map<Jwt, Jwt> {
    match e
    case LoginStore(_, _, token) => roots[token := token]
    case RefreshRotate(call, _, replacement, _) =>
      if Rotates(s, e) && Presented(s, e) in roots then roots[replacement := roots[Presented(s, e)]] else roots
    case _ => roots
  }

  function Roots(run: Run, k: nat): map<Jwt, Jwt>
    requires k <= |run.steps| && |run.states| == |run.steps| + 1
  {
    if k == 0 then map[] else NextRoots(run.states[k - 1], run.steps[k - 1], Roots(run, k - 1))
  }

  predicate Unrevoked(t: Tables, token: Jwt) { token in t.refresh && t.refresh[token].revokedAt.None? }

  /** Each family has at most one unrevoked member. */
  ghost predicate FamiliesSingle(s: System, roots: map<Jwt, Jwt>) {
    && s.t.refresh.Keys <= roots.Keys
    && roots.Keys <= s.minted && roots.Values <= s.minted
    && forall a, b :: Unrevoked(s.t, a) && Unrevoked(s.t, b) && roots[a] == roots[b] ==> a == b
  }

  lemma LoginStartsFamily(s: System, e: Step, roots: map<Jwt, Jwt>)
    requires Inv(s) && Enabled(s, e) && e.LoginStore? && FamiliesSingle(s, roots)
    ensures FamiliesSingle(Apply(s, e), NextRoots(s, e, roots))
  {
    hide ClaimsDisjoint, CallsSound;
    var s', roots' := Apply(s, e), NextRoots(s, e, roots);
    forall a, b | Unrevoked(s'.t, a) && Unrevoked(s'.t, b) && roots'[a] == roots'[b] ensures a == b {
      if a != e.token { assert Unrevoked(s.t, a) && roots[a] in roots.Values; }
      if b != e.token { assert Unrevoked(s.t, b) && roots[b] in roots.Values; }
    }
  }

  lemma RotationContinuesFamily(s: System, e: Step, roots: map<Jwt, Jwt>)
    requires Inv(s) && Enabled(s, e) && e.RefreshRotate? && FamiliesSingle(s, roots)
    ensures FamiliesSingle(Apply(s, e), NextRoots(s, e, roots))
  {
    hide ClaimsDisjoint, CallsSound;
    var s', roots' := Apply(s, e), NextRoots(s, e, roots);
    if Rotates(s, e) {
      var current := Presented(s, e);
      assert Unrevoked(s.t, current) && roots[current] in roots.Values;
      forall a, b | Unrevoked(s'.t, a) && Unrevoked(s'.t, b) && roots'[a] == roots'[b] ensures a == b {
        if a != e.replacement { assert Unrevoked(s.t, a) && a != current; }
        if b != e.replacement { assert Unrevoked(s.t, b) && b != current; }
      }
    }
  }

  lemma OtherStepKeepsFamilies(s: System, e: Step, roots: map<Jwt, Jwt>)
    requires Inv(s) && Enabled(s, e) && !e.LoginStore? && !e.RefreshRotate? && FamiliesSingle(s, roots)
    ensures FamiliesSingle(Apply(s, e), NextRoots(s, e, roots))
  {
    var s' := Apply(s, e);
    forall a | a in s'.t.refresh ensures a in s.t.refresh && (Unrevoked(s'.t, a) ==> Unrevoked(s.t, a)) {
      RefreshRowsOnlyDie(s, e, a);
    }
    hide Apply, ClaimsDisjoint, CallsSound;
    assert s.minted <= s'.minted by { MintedGrows(s, e); }
  }

  lemma MintedGrows(s: System, e: Step)
    requires Enabled(s, e)
    ensures s.minted <= Apply(s, e).minted
  {}

  lemma RefreshRowsOnlyDie(s: System, e: Step, token: Jwt)
    requires Enabled(s, e) && !e.LoginStore? && !e.RefreshRotate?
    requires token in Apply(s, e).t.refresh
    ensures token in s.t.refresh && (Unrevoked(Apply(s, e).t, token) ==> Unrevoked(s.t, token))
  {
    hide EmailTaken, NameTaken, PendingBySome, ClaimedByOther, PolicyRole, AdminIds;
  }

  /** Along any interleaving of logins, refreshes, logouts and bulk revocations, each family of rotated
      refresh tokens has at most one unrevoked member. */
  lemma {:induction false} AtMostOneUnrevokedPerFamily(run: Run, k: nat)
    requires run.Valid() && k < |run.states|
    ensures FamiliesSingle(run.states[k], Roots(run, k))
  {
    hide Apply, Enabled, FamiliesSingle, NextRoots, Inv;
    if k > 0 {
      AtMostOneUnrevokedPerFamily(run, k - 1);
      ReachableInv(run, k - 1);
      assert run.Follows(k - 1);
      var s, e, roots := run.states[k - 1], run.steps[k - 1], Roots(run, k - 1);
      if e.LoginStore? {
        LoginStartsFamily(s, e, roots);
      } else if e.RefreshRotate? {
        RotationContinuesFamily(s, e, roots);
      } else {
        OtherStepKeepsFamilies(s, e, roots);
      }
    } else {
      InitialFamilies();
    }
  }

  lemma InitialFamilies()
    ensures FamiliesSingle(INITIAL, map[])
  {}

  /** A spent token stays spent. */
  lemma {:induction false} SpentStays(run: Run, i: nat, j: nat, token: Jwt)
    requires run.Valid() && i <= j < |run.states|
    requires token in run.states[i].minted && !Unrevoked(run.states[i].t, token)
    ensures token in run.states[j].minted && !Unrevoked(run.states[j].t, token)
    decreases j
  {
    hide Apply, Enabled, Inv;
    if i < j {
      SpentStays(run, i, j - 1, token);
      ReachableInv(run, j - 1);
      assert run.Follows(j - 1);
      var s, e := run.states[j - 1], run.steps[j - 1];
      MintedGrows(s, e);
      if Unrevoked(run.states[j].t, token) { NoRevival(s, e, token); }
    }
  }

  lemma RotationSpends(s: System, e: Step)
    requires Inv(s) && Enabled(s, e) && Rotates(s, e)
    ensures Presented(s, e) in Apply(s, e).minted && !Unrevoked(Apply(s, e).t, Presented(s, e))
    ensures Unrevoked(s.t, Presented(s, e)) && Unrevoked(Apply(s, e).t, e.replacement)
  {
    assert CallSound(s, s.calls[e.call]);
  }

  /** Each refresh token is rotated at most once in a whole run. */
  lemma RotatedAtMostOnce(run: Run, i: nat, j: nat)
    requires run.Valid() && i < j < |run.steps|
    requires Rotates(run.states[i], run.steps[i]) && Rotates(run.states[j], run.steps[j])
    ensures Presented(run.states[i], run.steps[i]) != Presented(run.states[j], run.steps[j])
  {
    ReachableInv(run, i);
    ReachableInv(run, j);
    assert run.Follows(i) && run.Follows(j);
    RotationSpends(run.states[i], run.steps[i]);
    RotationSpends(run.states[j], run.steps[j]);
    hide Rotates, Presented, Enabled, Apply;
    SpentStays(run, i + 1, j, Presented(run.states[i], run.steps[i]));
  }

  // ------------------------------------------------------------------ purging

  /** The rows some lookup at a reading of `before` or later can still find. */
  function Live(refresh: map<Jwt, RefreshRow>, before: int): map<Jwt, RefreshRow> {
    map token | token in refresh && refresh[token].revokedAt.None? && before < refresh[token].expiresAt
      :: refresh[token]
  }

  /** Two systems that differ at most in dead rows. */
  ghost predicate Alike(a: System, b: System, before: int) {
    && a.t.users == b.t.users && a.t.verifications == b.t.verifications && a.t.nextId == b.t.nextId
    && a.clock == b.clock && a.minted == b.minted && a.calls == b.calls
    && Live(a.t.refresh, before) == Live(b.t.refresh, before)
    && a.t.refresh.Keys <= a.minted && b.t.refresh.Keys <= b.minted
  }

  /** Every token lookup of the step takes a reading of at least `before`. */
  predicate ReadsFrom(e: Step, before: int) {
    match e
    case RefreshLookup(_, _, now) => before <= now
    case RefreshRotate(_, _, _, now) => before <= now
    case _ => true
  }

  lemma PurgeLeavesAlike(s: System, before: int)
    requires Inv(s)
    ensures Alike(s, s.(t := PurgeTx(s.t, before)), before)
  {
    hide ClaimsDisjoint, CallsSound, RowsSound;
  }

  lemma ActiveInBoth(a: System, b: System, before: int, token: Jwt, now: int)
    requires Alike(a, b, before) && before <= now
    ensures Active(a.t.refresh, token, now) == Active(b.t.refresh, token, now)
    ensures Active(a.t.refresh, token, now) ==> a.t.refresh[token] == b.t.refresh[token]
  {
    assert token in Live(a.t.refresh, before) <==> token in Live(b.t.refresh, before);
    if Active(a.t.refresh, token, now) { assert Live(a.t.refresh, before)[token] == Live(b.t.refresh, before)[token]; }
  }

  function Without(live: map<Jwt, RefreshRow>, id: int): map<Jwt, RefreshRow> {
    map token | token in live && live[token].userId != id :: live[token]
  }

  lemma LiveAfterRevokeAll(refresh: map<Jwt, RefreshRow>, before: int, id: int, now: int)
    ensures Live(RevokeAll(refresh, id, now), before) == Without(Live(refresh, before), id)
  {}

  lemma LiveAfterCascade(refresh: map<Jwt, RefreshRow>, before: int, id: int)
    ensures Live(map token | token in refresh && refresh[token].userId != id :: refresh[token], before)
            == Without(Live(refresh, before), id)
  {}

  lemma LiveAfterRevoke(refresh: map<Jwt, RefreshRow>, before: int, token: Jwt, now: int)
    ensures token in refresh ==>
              Live(refresh[token := refresh[token].(revokedAt := Some(now))], before) == Live(refresh, before) - {token}
    ensures token !in refresh || refresh[token].revokedAt.Some? ==>
              Live(refresh, before) == Live(refresh, before) - {token}
  {}

  lemma LiveAfterInsert(refresh: map<Jwt, RefreshRow>, before: int, token: Jwt, row: RefreshRow)
    requires token !in refresh && row.revokedAt.None?
    ensures Live(refresh[token := row], before)
            == if before < row.expiresAt then Live(refresh, before)[token := row] else Live(refresh, before)
  {}

  lemma LiveAfterPurge(t: Tables, before: int, purge: int)
    ensures Live(PurgeTx(t, purge).refresh, before)
            == map token | token in Live(t.refresh, before) && purge <= Live(t.refresh, before)[token].expiresAt
                 :: Live(t.refresh, before)[token]
  {}

  lemma RotationAlike(a: System, b: System, e: Step, before: int)
    requires Alike(a, b, before) && e.RefreshRotate? && Enabled(a, e) && Enabled(b, e) && before <= e.now
    ensures RotateOutcome(a, e).Ok? == RotateOutcome(b, e).Ok?
    ensures Alike(Apply(a, e), Apply(b, e), before)
  {
    var current := a.calls[e.call].token;
    ActiveInBoth(a, b, before, current, e.now);
    if Active(a.t.refresh, current, e.now) {
      hide Live;
      var row := RefreshRow(current.userId, e.replacement.expiresAt, None);
      var left := a.t.refresh[current := a.t.refresh[current].(revokedAt := Some(e.now))];
      var right := b.t.refresh[current := b.t.refresh[current].(revokedAt := Some(e.now))];
      LiveAfterRevoke(a.t.refresh, before, current, e.now);
      LiveAfterRevoke(b.t.refresh, before, current, e.now);
      LiveAfterInsert(left, before, e.replacement, row);
      LiveAfterInsert(right, before, e.replacement, row);
    }
  }

  lemma BulkRevocationAlike(a: System, b: System, e: Step, before: int, id: int)
    requires Alike(a, b, before) && Enabled(a, e) && Enabled(b, e)
    requires (e.ChangePassword? && e.id == id) || (e.ChangeRole? && e.target == id) || (e.VerifyEmail? && e.id == id)
    ensures Alike(Apply(a, e), Apply(b, e), before)
  {
    hide EmailTaken, PolicyRole, AdminIds, RevokeAll, Live;
    LiveAfterRevokeAll(a.t.refresh, before, id, e.now);
    LiveAfterRevokeAll(b.t.refresh, before, id, e.now);
    RevokeAllKeys(a.t.refresh, id, e.now);
    RevokeAllKeys(b.t.refresh, id, e.now);
  }

  lemma RevokeAllKeys(refresh: map<Jwt, RefreshRow>, id: int, now: int)
    ensures RevokeAll(refresh, id, now).Keys == refresh.Keys
  {}

  lemma DeletionAlike(a: System, b: System, e: Step, before: int)
    requires Alike(a, b, before) && Enabled(a, e) && Enabled(b, e) && e.DeleteUser?
    ensures Alike(Apply(a, e), Apply(b, e), before)
  {
    hide AdminIds, Live;
    LiveAfterCascade(a.t.refresh, before, e.id);
    LiveAfterCascade(b.t.refresh, before, e.id);
  }

  lemma LoginAlike(a: System, b: System, e: Step, before: int)
    requires Alike(a, b, before) && Enabled(a, e) && Enabled(b, e) && e.LoginStore?
    ensures Alike(Apply(a, e), Apply(b, e), before)
  {
    hide Live;
    var row := RefreshRow(e.token.userId, e.token.expiresAt, None);
    LiveAfterInsert(a.t.refresh, before, e.token, row);
    LiveAfterInsert(b.t.refresh, before, e.token, row);
  }

  lemma LogoutAlike(a: System, b: System, e: Step, before: int)
    requires Alike(a, b, before) && Enabled(a, e) && Enabled(b, e) && e.Logout?
    ensures Alike(Apply(a, e), Apply(b, e), before)
  {
    hide Live;
    LiveAfterRevoke(a.t.refresh, before, e.token, e.now);
    LiveAfterRevoke(b.t.refresh, before, e.token, e.now);
  }

  lemma PurgeAlike(a: System, b: System, e: Step, before: int)
    requires Alike(a, b, before) && Enabled(a, e) && Enabled(b, e) && e.Purge?
    ensures Alike(Apply(a, e), Apply(b, e), before)
  {
    hide Live;
    LiveAfterPurge(a.t, before, e.before);
    LiveAfterPurge(b.t, before, e.before);
  }

  lemma LookupAlike(a: System, b: System, e: Step, before: int)
    requires Alike(a, b, before) && Enabled(a, e) && Enabled(b, e) && e.RefreshLookup? && before <= e.now
    ensures LookupSucceeds(a, e.token, e.now) == LookupSucceeds(b, e.token, e.now)
    ensures Alike(Apply(a, e), Apply(b, e), before)
  {
    ActiveInBoth(a, b, before, e.token, e.now);
  }

  lemma OtherStepAlike(a: System, b: System, e: Step, before: int)
    requires Alike(a, b, before) && Enabled(a, e) && Enabled(b, e)
    requires e.Tick? || e.Register? || e.CreateUser? || e.UpdateProfile? || e.LoginRead? || e.RefreshRead?
             || e.SendVerification?
    ensures Alike(Apply(a, e), Apply(b, e), before)
  {
    hide EmailTaken, NameTaken, PendingBySome, ClaimedByOther, Live, NewUser;
    match e
    case Register(_, _, _, _, _) =>
    case CreateUser(_, _, _) =>
    case UpdateProfile(_, _, _) =>
    case _ =>
  }

  lemma EnabledAlike(a: System, b: System, e: Step, before: int)
    requires Alike(a, b, before)
    ensures Enabled(a, e) == Enabled(b, e)
  {}

  /** Systems that differ only in dead rows take the same steps, with the same outcomes, to systems that
      differ only in dead rows. */
  lemma StepAlike(a: System, b: System, e: Step, before: int)
    requires Alike(a, b, before) && Enabled(a, e) && ReadsFrom(e, before)
    ensures Enabled(b, e) && Alike(Apply(a, e), Apply(b, e), before)
    ensures e.RefreshLookup? ==> LookupSucceeds(a, e.token, e.now) == LookupSucceeds(b, e.token, e.now)
    ensures e.RefreshRotate? ==> Rotates(a, e) == Rotates(b, e)
  {
    EnabledAlike(a, b, e, before);
    hide Alike, Enabled, Apply, LookupSucceeds, RotateOutcome;
    match e
    case RefreshRotate(_, _, _, _) => RotationAlike(a, b, e, before); RotatesAlike(a, b, e, before);
    case ChangePassword(id, _, _) => BulkRevocationAlike(a, b, e, before, id);
    case ChangeRole(_, target, _, _) => BulkRevocationAlike(a, b, e, before, target);
    case VerifyEmail(id, _, _, _) => BulkRevocationAlike(a, b, e, before, id);
    case DeleteUser(_) => DeletionAlike(a, b, e, before);
    case LoginStore(_, _, _) => LoginAlike(a, b, e, before);
    case Logout(_, _) => LogoutAlike(a, b, e, before);
    case Purge(_) => PurgeAlike(a, b, e, before);
    case RefreshLookup(_, _, _) => LookupAlike(a, b, e, before);
    case _ => OtherStepAlike(a, b, e, before);
  }

  lemma RotatesAlike(a: System, b: System, e: Step, before: int)
    requires Alike(a, b, before) && e.RefreshRotate? && Enabled(a, e) && Enabled(b, e) && before <= e.now
    ensures Rotates(a, e) == Rotates(b, e)
  {
    RotationAlike(a, b, e, before);
  }

  /** The steps all enabled one after the other from a state. */
  ghost predicate Playable(s: System, steps: seq<Step>)
    decreases |steps|
  {
    steps != [] ==> Enabled(s, steps[0]) && Playable(Apply(s, steps[0]), steps[1..])
  }

  ghost function Play(s: System, steps: seq<Step>): System
    requires Playable(s, steps)
    decreases |steps|
  {
    if steps == [] then s else Play(Apply(s, steps[0]), steps[1..])
  }

  lemma {:induction false} PlayAlike(a: System, b: System, steps: seq<Step>, before: int)
    requires Alike(a, b, before) && Playable(a, steps)
    requires forall k :: 0 <= k < |steps| ==> ReadsFrom(steps[k], before)
    ensures Playable(b, steps) && Alike(Play(a, steps), Play(b, steps), before)
    decreases |steps|
  {
    hide Alike, Enabled, Apply, ReadsFrom;
    if steps != [] {
      StepAlike(a, b, steps[0], before);
      PlayAlike(Apply(a, steps[0]), Apply(b, steps[0]), steps[1..], before);
    }
  }

  /** Deleting expired and revoked refresh tokens is invisible: whatever follows in a run, as long as
      lookups read `before` or later, happens the same with and without it - every lookup and rotation
      has the same outcome and both ends differ only in rows no such lookup can find. */
  lemma PurgeIsInvisible(run: Run, k: nat, before: int, steps: seq<Step>)
    requires run.Valid() && k < |run.states|
    requires Playable(run.states[k], steps)
    requires forall m :: 0 <= m < |steps| ==> ReadsFrom(steps[m], before)
    ensures var purged := run.states[k].(t := PurgeTx(run.states[k].t, before));
            Playable(purged, steps) && Alike(Play(run.states[k], steps), Play(purged, steps), before)
  {
    ReachableInv(run, k);
    PurgeLeavesAlike(run.states[k], before);
    hide Alike;
    PlayAlike(run.states[k], run.states[k].(t := PurgeTx(run.states[k].t, before)), steps, before);
  }
}
