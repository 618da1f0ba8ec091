/** Admin authority over whole runs: one bootstrap at most, every other admin granted by an admin, and
    never again nobody once there was one. */
module IdentityAdmins {
  import opened IdentityTables
  import opened IdentitySystem
  import opened IdentityInvariant

  datatype Grant = Grant(actor: int, target: int)

  /** Who was promoted by verification, in order, and who was made admin by whom. */
  datatype Lineage = Lineage(bootstrapped: seq<int>, grants: seq<Grant>)

  /** The verification makes an admin of the user who owns the configured address afterwards. */
  ghost predicate PromotesOwner(s: System, e: Step, s': System) {
    && e.VerifyEmail? && e.bootstrap != "" && AdminIds(s.t.users) == {}
    && e.id in s'.t.users && s'.t.users[e.id].email == e.bootstrap && s'.t.users[e.id].role == Admin
  }

  /** A verification that commits and makes an admin of a user who was none. */
  predicate Bootstraps(s: System, e: Step) {
    && e.VerifyEmail? && VerifyEmailTx(s.t, e.id, e.now, e.bootstrap).Ok?
    && s.t.users[e.id].role != Admin
    && VerifiedRow(s.t.users[e.id], e.now, |AdminIds(s.t.users)|, e.bootstrap).role == Admin
  }

  /** A role change that commits and gives the admin role. */
  predicate Grants(s: System, e: Step) {
    e.ChangeRole? && e.role == Admin && ChangeRoleTx(s.t, e.actor, e.target, e.role, e.now).Ok?
  }

  ghost function NextLineage(s: System, e: Step, l: Lineage): Lineage {
    if Bootstraps(s, e) then l.(bootstrapped := l.bootstrapped + [e.id])
    else if Grants(s, e) then l.(grants := l.grants + [Grant(e.actor, e.target)])
    else l
  }

  ghost function LineageAt(run: Run, k: nat): Lineage
    requires k <= |run.steps| && |run.states| == |run.steps| + 1
  {
    if k == 0 then Lineage([], []) else NextLineage(run.states[k - 1], run.steps[k - 1], LineageAt(run, k - 1))
  }

  /** A chain of grants, each by someone already reached when it was given, leads from the root to the user. */
  ghost predicate Descends(grants: seq<Grant>, root: int, id: int)
    decreases |grants|
  {
    id == root
    || exists i :: 0 <= i < |grants| && grants[i].target == id && Descends(grants[..i], root, grants[i].actor)
  }

  lemma DescendsLater(grants: seq<Grant>, more: seq<Grant>, root: int, id: int)
    requires Descends(grants, root, id)
    ensures Descends(grants + more, root, id)
  {
    if id != root {
      var i :| 0 <= i < |grants| && grants[i].target == id && Descends(grants[..i], root, grants[i].actor);
      assert (grants + more)[..i] == grants[..i] && (grants + more)[i] == grants[i];
    }
  }

  lemma GrantedDescends(grants: seq<Grant>, root: int, actor: int, target: int)
    requires Descends(grants, root, actor)
    ensures Descends(grants + [Grant(actor, target)], root, target)
  {
    var all := grants + [Grant(actor, target)];
    assert all[..|grants|] == grants && all[|grants|] == Grant(actor, target);
  }

  ghost predicate LineageSound(s: System, l: Lineage) {
    && |l.bootstrapped| <= 1
    && (l.bootstrapped == [] ==> AdminIds(s.t.users) == {})
    && (l.bootstrapped != [] ==> AdminIds(s.t.users) != {})
    && (forall id :: id in AdminIds(s.t.users) ==> l.bootstrapped != [] && Descends(l.grants, l.bootstrapped[0], id))
  }

  lemma NotTheLast(users: map<int, UserRow>, id: int)
    requires 1 < |AdminIds(users)|
    ensures AdminIds(users) - {id} != {}
  {
    if AdminIds(users) - {id} == {} {
      assert AdminIds(users) <= {id};
      SizeOfSubset(AdminIds(users), {id});
    }
  }

  lemma SizeOfSubset(a: set<int>, b: set<int>)
    requires a <= b
    ensures |a| <= |b|
  {
    assert |b - a| == |b| - |a|;
  }

  /** How each step changes the set of admins. */
  lemma AdminsAfter(s: System, e: Step)
    requires Inv(s) && Enabled(s, e)
    ensures var before, after := AdminIds(s.t.users), AdminIds(Apply(s, e).t.users);
            && (Bootstraps(s, e) ==> before == {} && after == {e.id})
            && (Grants(s, e) ==> e.actor in before && after == before + {e.target})
            && (!Bootstraps(s, e) && !Grants(s, e) ==> after <= before)
            && (before != {} ==> after != {})
            && (e.ChangeRole? && ChangeRoleTx(s.t, e.actor, e.target, e.role, e.now).Ok? && e.role == Member ==>
                  after == before - {e.target})
  {
    match e
    case VerifyEmail(_, _, _, _) => VerificationAdmins(s, e);
    case ChangeRole(_, target, _, _) =>
      if 1 < |AdminIds(s.t.users)| { NotTheLast(s.t.users, target); }
      RoleChangeAdmins(s, e);
    case DeleteUser(id) =>
      if 1 < |AdminIds(s.t.users)| { NotTheLast(s.t.users, id); }
      DeletionAdmins(s, e);
    case _ => OtherAdmins(s, e);
  }

  lemma VerificationAdmins(s: System, e: Step)
    requires Inv(s) && Enabled(s, e) && e.VerifyEmail?
    ensures var before, after := AdminIds(s.t.users), AdminIds(Apply(s, e).t.users);
            && (Bootstraps(s, e) ==> before == {} && after == {e.id})
            && (!Bootstraps(s, e) ==> after == before)
  {
    hide ClaimsDisjoint, CallsSound, EmailTaken, ReferencesSound;
    var users, users' := s.t.users, Apply(s, e).t.users;
    assert users'.Keys == users.Keys;
    if Bootstraps(s, e) {
      assert |AdminIds(users)| == 0;
      assert AdminIds(users) == {};
      assert AdminIds(users') == {e.id};
    } else {
      assert AdminIds(users') == AdminIds(users);
    }
  }

  lemma RoleChangeAdmins(s: System, e: Step)
    requires Inv(s) && Enabled(s, e) && e.ChangeRole?
    requires 1 < |AdminIds(s.t.users)| ==> AdminIds(s.t.users) - {e.target} != {}
    ensures var before, after := AdminIds(s.t.users), AdminIds(Apply(s, e).t.users);
            && (Grants(s, e) ==> e.actor in before && after == before + {e.target})
            && (!Grants(s, e) ==> after <= before)
            && (before != {} ==> after != {})
            && (ChangeRoleTx(s.t, e.actor, e.target, e.role, e.now).Ok? && e.role == Member ==>
                  after == before - {e.target})
  {
    hide ClaimsDisjoint, CallsSound, ReferencesSound;
    var users, users' := s.t.users, Apply(s, e).t.users;
    if ChangeRoleTx(s.t, e.actor, e.target, e.role, e.now).Ok? {
      if e.role == Admin {
        assert AdminIds(users') == AdminIds(users) + {e.target};
      } else {
        assert AdminIds(users') == AdminIds(users) - {e.target};
        if e.target !in AdminIds(users) { assert AdminIds(users') == AdminIds(users); }
      }
    }
  }

  lemma DeletionAdmins(s: System, e: Step)
    requires Inv(s) && Enabled(s, e) && e.DeleteUser?
    requires 1 < |AdminIds(s.t.users)| ==> AdminIds(s.t.users) - {e.id} != {}
    ensures var before, after := AdminIds(s.t.users), AdminIds(Apply(s, e).t.users);
            after <= before && (before != {} ==> after != {})
  {
    hide ClaimsDisjoint, CallsSound, ReferencesSound;
    if DeleteUserTx(s.t, e.id).Ok? {
      assert AdminIds(Apply(s, e).t.users) == AdminIds(s.t.users) - {e.id};
      if e.id !in AdminIds(s.t.users) { assert AdminIds(Apply(s, e).t.users) == AdminIds(s.t.users); }
    }
  }

  lemma OtherAdmins(s: System, e: Step)
    requires Inv(s) && Enabled(s, e) && !e.VerifyEmail? && !e.ChangeRole? && !e.DeleteUser?
    ensures AdminIds(Apply(s, e).t.users) == AdminIds(s.t.users)
  {
    hide ClaimsDisjoint, CallsSound, EmailTaken, NameTaken, PendingBySome, ClaimedByOther;
    var users, users' := s.t.users, Apply(s, e).t.users;
    assert s.t.nextId !in users;
    forall id ensures id in AdminIds(users') <==> id in AdminIds(users) {}
  }

  lemma StepKeepsLineage(s: System, e: Step, l: Lineage)
    requires Inv(s) && Enabled(s, e) && LineageSound(s, l)
    ensures LineageSound(Apply(s, e), NextLineage(s, e, l))
  {
    AdminsAfter(s, e);
    hide Inv, Enabled, Apply, Bootstraps, Grants, AdminIds, Descends;
    var after := AdminIds(Apply(s, e).t.users);
    if Bootstraps(s, e) {
      assert l.bootstrapped == [];
      RootDescends(l.grants, e.id);
    } else if Grants(s, e) {
      forall id | id in after ensures Descends(NextLineage(s, e, l).grants, l.bootstrapped[0], id) {
        if id == e.target {
          GrantedDescends(l.grants, l.bootstrapped[0], e.actor, e.target);
        } else {
          DescendsLater(l.grants, [Grant(e.actor, e.target)], l.bootstrapped[0], id);
        }
      }
    }
  }

  lemma RootDescends(grants: seq<Grant>, root: int)
    ensures Descends(grants, root, root)
  {}

  /** In every reachable state every admin is verified and reached by grants from the one user ever
      promoted by verification. */
  lemma {:induction false} AdminLineage(run: Run, k: nat)
    requires run.Valid() && k < |run.states|
    ensures LineageSound(run.states[k], LineageAt(run, k))
    ensures forall id :: id in AdminIds(run.states[k].t.users) ==> run.states[k].t.users[id].Verified()
  {
    ReachableInv(run, k);
    if k > 0 {
      AdminLineage(run, k - 1);
      ReachableInv(run, k - 1);
      assert run.Follows(k - 1);
      StepKeepsLineage(run.states[k - 1], run.steps[k - 1], LineageAt(run, k - 1));
    }
  }

  lemma NoAdminsCount(users: map<int, UserRow>)
    ensures |AdminIds(users)| == 0 <==> AdminIds(users) == {}
  {}

  /** A verification promotes exactly the owner of the configured address, and only while there is no admin. */
  lemma BootstrapsIffOwner(s: System, e: Step)
    requires Inv(s) && Enabled(s, e) && e.VerifyEmail?
    ensures Bootstraps(s, e)
            <==> && e.bootstrap != "" && AdminIds(s.t.users) == {}
                 && e.id in s.t.users
                 && e.bootstrap == (if s.t.users[e.id].pending != "" then s.t.users[e.id].pending
                                    else s.t.users[e.id].email)
    ensures Bootstraps(s, e) ==> PromotesOwner(s, e, Apply(s, e))
  {
    hide ClaimsDisjoint, CallsSound, RevokeAll;
    NoAdminsCount(s.t.users);
    assert e.id in s.t.users ==> (s.t.users[e.id].role == Admin ==> e.id in AdminIds(s.t.users));
    if e.id in s.t.users {
      assert ClaimsDisjoint(s.t.users) by { assert Inv(s); }
      PromotionNeverCollides(s.t.users, e.id, e.now, |AdminIds(s.t.users)|, e.bootstrap);
    }
  }

  /** So the root of the lineage owned the configured, non-empty address when it was promoted, and there was
      no admin then: whoever is an admin descends by grants from the owner of that address. */
  lemma {:induction false} RootOwnedTheAddress(run: Run, k: nat) returns (m: nat)
    requires run.Valid() && k < |run.states| && AdminIds(run.states[k].t.users) != {}
    ensures m < k && Bootstraps(run.states[m], run.steps[m])
    ensures PromotesOwner(run.states[m], run.steps[m], run.states[m + 1])
    ensures LineageAt(run, k).bootstrapped == [run.steps[m].id]
    ensures forall id :: id in AdminIds(run.states[k].t.users) ==>
              Descends(LineageAt(run, k).grants, run.steps[m].id, id)
  {
    AdminLineage(run, k);
    m := BootstrapStep(run, k);
    ReachableInv(run, m);
    assert run.Follows(m);
    hide Bootstraps, PromotesOwner, Enabled, Apply, AdminIds, Descends;
    BootstrapIsVerification(run.states[m], run.steps[m]);
    BootstrapsIffOwner(run.states[m], run.steps[m]);
  }

  lemma BootstrapIsVerification(s: System, e: Step)
    requires Bootstraps(s, e)
    ensures e.VerifyEmail?
  {}

  lemma {:induction false} BootstrapStep(run: Run, k: nat) returns (m: nat)
    requires run.Valid() && k < |run.states| && LineageAt(run, k).bootstrapped != []
    ensures m < k && Bootstraps(run.states[m], run.steps[m]) && run.steps[m].VerifyEmail?
    ensures run.steps[m].id == LineageAt(run, k).bootstrapped[0]
  {
    if Bootstraps(run.states[k - 1], run.steps[k - 1]) && LineageAt(run, k - 1).bootstrapped == [] {
      m := k - 1;
    } else {
      m := BootstrapStep(run, k - 1);
    }
  }

  /** Bootstrap promotion happens at most once in a whole run. */
  lemma BootstrapAtMostOnce(run: Run, i: nat, j: nat)
    requires run.Valid() && i < j < |run.steps| && Bootstraps(run.states[i], run.steps[i])
    ensures !Bootstraps(run.states[j], run.steps[j])
  {
    ReachableInv(run, i);
    ReachableInv(run, j);
    assert run.Follows(i) && run.Follows(j);
    AdminsAfter(run.states[i], run.steps[i]);
    AdminsAfter(run.states[j], run.steps[j]);
    hide Bootstraps, AdminIds, Enabled, Apply;
    AdminsNeverVanish(run, i + 1, j);
  }

  /** Once there is an admin there always is one, whatever the services read before they acted. */
  lemma {:induction false} AdminsNeverVanish(run: Run, i: nat, j: nat)
    requires run.Valid() && i <= j < |run.states|
    requires AdminIds(run.states[i].t.users) != {}
    ensures AdminIds(run.states[j].t.users) != {}
    decreases j
  {
    hide AdminIds;
    if i < j {
      AdminsNeverVanish(run, i, j - 1);
      ReachableInv(run, j - 1);
      assert run.Follows(j - 1);
      AdminsAfter(run.states[j - 1], run.steps[j - 1]);
    }
  }
}
