/** The identity objects: the account entity, the repository over the tables, and the user and auth
    services on top of it, statement by statement.  A method's contract speaks of a call nobody
    interferes with; IdentitySystem interleaves the accesses. */
module IdentityStore {
  import opened Prelude
  import opened Clocks
  import opened IdentityTables
  import IdentitySystem

  /** What NormalizeAndValidate makes of a requested name and address. */
  datatype Profile = Profile(username: string, email: string)

  // -------------------------------------------------------------------- entity

  class Account {
    var username: string
    var email: string
    var password: string
    var role: Role
    var verifiedAt: Option<int>
    var pending: string
    var version: int

    constructor (row: UserRow)
      ensures Row() == row
    {
      username, email, password, role := row.username, row.email, row.password, row.role;
      verifiedAt, pending, version := row.verifiedAt, row.pending, row.version;
    }

    function Row(): UserRow
      reads this
    {
      UserRow(username, email, password, role, verifiedAt, pending, version)
    }

    /** `candidate` is None when the request does not pass validation. */
    method UpdateProfile(candidate: Option<Profile>) returns (ok: bool)
      modifies this
      ensures ok <==> candidate.Some?
      ensures !ok ==> Row() == old(Row())
      ensures ok ==> Row() == old(Row()).(
        username := candidate.value.username,
        pending := if candidate.value.email == old(email) then "" else candidate.value.email)
    {
      if candidate.None? {
        return false;
      }
      username := candidate.value.username;
      if candidate.value.email == email {
        pending := "";
      } else {
        pending := candidate.value.email;
      }
      return true;
    }

    method AssignRole(newRole: Role) returns (ok: bool)
      modifies this`role
      ensures ok <==> !(newRole == Admin && verifiedAt.None?)
      ensures Row() == if ok then old(Row()).(role := newRole) else old(Row())
    {
      if newRole == Admin && verifiedAt.None? {
        return false;
      }
      role := newRole;
      return true;
    }

    method VerifyEmail(at: int) returns (first: bool)
      modifies this
      ensures first <==> old(verifiedAt).None?
      ensures Row() == old(Row()).(
        email := if old(pending) != "" then old(pending) else old(email),
        pending := "", verifiedAt := Some(at), version := old(version) + 1)
    {
      first := verifiedAt.None?;
      if pending != "" {
        email := pending;
        pending := "";
      }
      verifiedAt := Some(at);
      version := version + 1;
    }

    method ChangePasswordHash(hash: string)
      modifies this
      ensures Row() == old(Row()).(password := hash, version := old(version) + 1)
    {
      password := hash;
      version := version + 1;
    }
  }

  // ---------------------------------------------------------------- repository

  class UserRepository {
    var users: map<int, UserRow>
    var refresh: map<Jwt, RefreshRow>
    var verifications: map<int, VerificationRow>
    var nextId: int

    constructor ()
      ensures View() == Tables(map[], map[], map[], 1)
    {
      users, refresh, verifications, nextId := map[], map[], map[], 1;
    }

    function View(): Tables
      reads this
    {
      Tables(users, refresh, verifications, nextId)
    }

    method Create(username: string, email: string, password: string) returns (result: Result<int, Error>)
      modifies this
      ensures var outcome := CreateUserTx(old(View()), username, email, password);
              && View() == Commit(old(View()), outcome)
              && result == if outcome.Ok? then Ok(old(nextId)) else Err(outcome.error)
    {
      if PendingBySome(users, email) {
        return Err(DuplicateEmail);
      }
      if NameTaken(users, nextId, username) {
        return Err(DuplicateUsername);
      }
      if EmailTaken(users, nextId, email) {
        return Err(DuplicateEmail);
      }
      users := users[nextId := UserRow(username, email, password, Member, None, "", 1)];
      nextId := nextId + 1;
      return Ok(nextId - 1);
    }

    /** The transaction of a registration: when the message cannot be dispatched, user and token go again. */
    method RegisterUser(username: string, email: string, password: string, token: VerificationRow, delivered: bool)
      returns (result: Result<int, Error>)
      modifies this
      ensures var outcome := RegisterTx(old(View()), username, email, password, token, delivered);
              && View() == Commit(old(View()), outcome)
              && result == if outcome.Ok? then Ok(old(nextId)) else Err(outcome.error)
    {
      var before := View();
      result := Create(username, email, password);
      if result.Err? {
        return;
      }
      verifications := verifications[result.value := token];
      if !delivered {
        users, verifications, nextId := before.users, before.verifications, before.nextId;
        return Err(DispatchFailed);
      }
    }

    method GetUserByID(id: int) returns (row: Option<UserRow>)
      ensures row == if id in users then Some(users[id]) else None
    {
      if id in users {
        return Some(users[id]);
      }
      return None;
    }

    method GetUserByEmail(email: string) returns (id: Option<int>)
      ensures id.Some? ==> id.value in users && users[id.value].email == email
      ensures id.None? ==> forall other :: other in users ==> users[other].email != email
    {
      if id :| id in users && users[id].email == email {
        return Some(id);
      }
      return None;
    }

    method CountAdmins() returns (count: nat)
      ensures count == |AdminIds(users)|
    {
      count := |AdminIds(users)|;
    }

    method UpdateProfile(id: int, username: string, email: string) returns (error: Option<Error>)
      modifies this`users
      ensures var outcome := UpdateProfileTx(old(View()), id, username, email);
              && View() == Commit(old(View()), outcome)
              && error == if outcome.Ok? then None else Some(outcome.error)
    {
      if id !in users {
        return Some(NotFound);
      }
      var record := users[id];
      var pending := "";
      if email != record.email {
        if ClaimedByOther(users, id, email) {
          return Some(DuplicateEmail);
        }
        pending := email;
      }
      if NameTaken(users, id, username) {
        return Some(DuplicateUsername);
      }
      users := users[id := record.(username := username, pending := pending)];
      return None;
    }

    method RevokeUserTokens(id: int, now: int)
      modifies this`refresh
      ensures refresh == RevokeAll(old(refresh), id, now)
    {
      refresh := map token | token in refresh ::
        if refresh[token].userId == id && refresh[token].revokedAt.None?
        then refresh[token].(revokedAt := Some(now)) else refresh[token];
    }

    method ChangePassword(id: int, hash: string, now: int) returns (error: Option<Error>)
      modifies this
      ensures var outcome := ChangePasswordTx(old(View()), id, hash, now);
              && View() == Commit(old(View()), outcome)
              && error == if outcome.Ok? then None else Some(outcome.error)
    {
      if id !in users {
        return Some(NotFound);
      }
      users := users[id := users[id].(password := hash, version := users[id].version + 1)];
      RevokeUserTokens(id, now);
      return None;
    }

    method ChangeRole(actor: int, target: int, role: Role, now: int) returns (error: Option<Error>)
      modifies this
      ensures var outcome := ChangeRoleTx(old(View()), actor, target, role, now);
              && View() == Commit(old(View()), outcome)
              && error == if outcome.Ok? then None else Some(outcome.error)
    {
      if actor !in users {
        return Some(NotFound);
      }
      if users[actor].role != Admin {
        return Some(Forbidden);
      }
      if target !in users {
        return Some(NotFound);
      }
      if role == Admin && users[target].verifiedAt.None? {
        return Some(Forbidden);
      }
      if users[target].role == Admin && role != Admin {
        var admins := AdminIds(users);
        if |admins| <= 1 {
          return Some(LastAdmin);
        }
      }
      users := users[target := users[target].(role := role, version := users[target].version + 1)];
      RevokeUserTokens(target, now);
      return None;
    }

    method Delete(id: int) returns (error: Option<Error>)
      modifies this
      ensures var outcome := DeleteUserTx(old(View()), id);
              && View() == Commit(old(View()), outcome)
              && error == if outcome.Ok? then None else Some(outcome.error)
    {
      if id !in users {
        return Some(NotFound);
      }
      if users[id].role == Admin {
        var admins := AdminIds(users);
        if |admins| <= 1 {
          return Some(LastAdmin);
        }
      }
      users := users - {id};
      refresh := map token | token in refresh && refresh[token].userId != id :: refresh[token];
      verifications := verifications - {id};
      return None;
    }

    method CreateRefreshToken(token: Jwt, userId: int, expiresAt: int) returns (ok: bool)
      modifies this`refresh
      ensures var outcome := CreateRefreshTx(old(View()), token, userId, expiresAt);
              View() == Commit(old(View()), outcome) && ok == outcome.Ok?
    {
      if token in refresh || userId !in users {
        return false;
      }
      refresh := refresh[token := RefreshRow(userId, expiresAt, None)];
      return true;
    }

    method GetActiveRefreshTokenByHash(token: Jwt, now: int) returns (row: Option<RefreshRow>)
      ensures row == if Active(refresh, token, now) then Some(refresh[token]) else None
    {
      if token in refresh && refresh[token].revokedAt.None? && now < refresh[token].expiresAt {
        return Some(refresh[token]);
      }
      return None;
    }

    method RevokeRefreshTokenByHash(token: Jwt, now: int) returns (found: bool)
      modifies this`refresh
      ensures var outcome := RevokeRefreshTx(old(View()), token, now);
              View() == Commit(old(View()), outcome) && found == outcome.Ok?
    {
      if token !in refresh || refresh[token].revokedAt.Some? {
        return false;
      }
      refresh := refresh[token := refresh[token].(revokedAt := Some(now))];
      return true;
    }

    method RotateRefreshToken(current: Jwt, replacement: Jwt, userId: int, expiresAt: int, now: int)
      returns (error: Option<Error>)
      modifies this`refresh
      ensures var outcome := RotateTx(old(View()), current, replacement, userId, expiresAt, now);
              && View() == Commit(old(View()), outcome)
              && error == if outcome.Ok? then None else Some(outcome.error)
    {
      var before := refresh;
      var affected := 0;
      if current in refresh && refresh[current].revokedAt.None? && now < refresh[current].expiresAt {
        refresh := refresh[current := refresh[current].(revokedAt := Some(now))];
        affected := 1;
      }
      if affected != 1 {
        return Some(Unauthorized);
      }
      var ok := CreateRefreshToken(replacement, userId, expiresAt);
      if !ok {
        refresh := before;
        return Some(StoreFailed);
      }
      return None;
    }

    method ReplaceEmailVerificationToken(id: int, token: VerificationRow) returns (ok: bool)
      modifies this`verifications
      ensures var outcome := ReplaceVerificationTx(old(View()), id, token);
              View() == Commit(old(View()), outcome) && ok == outcome.Ok?
    {
      var before := verifications;
      verifications := verifications - {id};
      if id !in users {
        verifications := before;
        return false;
      }
      verifications := verifications[id := token];
      return true;
    }

    method FindVerification(secret: string, now: int) returns (id: Option<int>)
      ensures id.Some? ==> Redeemable(View(), id.value, secret, now)
      ensures id.None? ==> forall other :: !Redeemable(View(), other, secret, now)
    {
      if id :| id in verifications && verifications[id].secret == secret && now < verifications[id].expiresAt {
        return Some(id);
      }
      return None;
    }

    /** VerifyEmail under the role policy of the auth service with this bootstrap address. */
    method VerifyEmail(secret: string, now: int, bootstrap: string)
      returns (result: Result<bool, Error>, ghost id: int)
      modifies this
      ensures (forall other :: !Redeemable(old(View()), other, secret, now))
              ==> result == Err(Error.InvalidToken) && View() == old(View())
      ensures (exists other :: Redeemable(old(View()), other, secret, now)) ==>
              && Redeemable(old(View()), id, secret, now)
              && View() == Commit(old(View()), VerifyEmailTx(old(View()), id, now, bootstrap))
              && (result.Ok? <==> VerifyEmailTx(old(View()), id, now, bootstrap).Ok?)
              && (result.Ok? ==> id in old(users) && (result.value <==> old(users)[id].verifiedAt.None?))
    {
      id := 0;
      var found := FindVerification(secret, now);
      if found.None? {
        return Err(Error.InvalidToken), id;
      }
      var userId := found.value;
      id := userId;
      if userId !in users {
        return Err(NotFound), id;
      }
      var account := new Account(users[userId]);
      var first := account.VerifyEmail(now);
      var admins := |AdminIds(users)|;
      var role := account.role;
      if bootstrap != "" && account.email == bootstrap && admins == 0 {
        role := Admin;
      }
      var permitted := account.AssignRole(role);
      if !permitted {
        return Err(Forbidden), id;
      }
      if EmailTaken(users, userId, account.email) {
        return Err(DuplicateEmail), id;
      }
      users := users[userId := users[userId].(email := account.email, pending := account.pending,
        verifiedAt := account.verifiedAt, role := account.role, version := account.version)];
      verifications := verifications - {userId};
      RevokeUserTokens(userId, now);
      return Ok(first), id;
    }

    method DeleteExpiredOrRevokedRefreshTokens(before: int) returns (deleted: nat)
      modifies this`refresh
      ensures View() == PurgeTx(old(View()), before)
      ensures deleted == |old(refresh)| - |refresh|
    {
      var doomed := set token | token in refresh
        && (refresh[token].expiresAt < before
            || (refresh[token].revokedAt.Some? && refresh[token].revokedAt.value < before));
      deleted := |doomed|;
      assert refresh.Keys - doomed == (refresh - doomed).Keys;
      assert |refresh.Keys - doomed| == |refresh.Keys| - |doomed|;
      refresh := refresh - doomed;
      assert |refresh.Keys| == |refresh|;
    }
  }

  // ------------------------------------------------------------- user service

  class UserService {
    const repo: UserRepository

    constructor (repo: UserRepository)
      ensures this.repo == repo
    {
      this.repo := repo;
    }

    /** What UpdateProfile forwards, worked out from an account that may have been read long ago: always
        the requested name and address, whatever that account held. */
    method Forward(stale: UserRow, candidate: Profile) returns (username: string, email: string)
      requires candidate.email != ""
      ensures username == candidate.username && email == candidate.email
    {
      var account := new Account(stale);
      var ok := account.UpdateProfile(Some(candidate));
      var nextEmail := account.email;
      if account.pending != "" {
        nextEmail := account.pending;
      }
      return account.username, nextEmail;
    }

    method UpdateProfile(id: int, candidate: Option<Profile>) returns (error: Option<Error>)
      requires candidate.Some? ==> candidate.value.email != ""
      modifies repo
      ensures id !in old(repo.users) ==> error == Some(NotFound)
      ensures id in old(repo.users) && candidate.None? ==> error == Some(InvalidInput)
      ensures id !in old(repo.users) || candidate.None? ==> repo.View() == old(repo.View())
      ensures id in old(repo.users) && candidate.Some? ==>
        var outcome := UpdateProfileTx(old(repo.View()), id, candidate.value.username, candidate.value.email);
        repo.View() == Commit(old(repo.View()), outcome) && error == if outcome.Ok? then None else Some(outcome.error)
    {
      var row := repo.GetUserByID(id);
      if row.None? {
        return Some(NotFound);
      }
      if candidate.None? {
        return Some(InvalidInput);
      }
      var username, email := Forward(row.value, candidate.value);
      error := repo.UpdateProfile(id, username, email);
    }

    /** Changing a role: the checks on what was read, then the transaction.  `name` is the requested role,
        trimmed and in lower case. */
    method ChangeRole(actor: int, target: int, name: string, now: int) returns (error: Option<Error>)
      modifies repo
      ensures name != "user" && name != "admin" ==> error == Some(InvalidRole) && repo.View() == old(repo.View())
      ensures (name == "user" || name == "admin") && actor == target ==>
        error == Some(Forbidden) && repo.View() == old(repo.View())
      ensures (name == "user" || name == "admin") && actor != target ==>
        var outcome := ChangeRoleTx(old(repo.View()), actor, target, if name == "admin" then Admin else Member, now);
        && repo.View() == Commit(old(repo.View()), outcome)
        && (error.None? <==> outcome.Ok?)
        && (outcome.Err? ==> error == Some(if actor !in old(repo.users) then Forbidden else outcome.error))
    {
      var parsed := ParseRole(name);
      if parsed.None? {
        return Some(InvalidRole);
      }
      var role := parsed.value;
      if actor == target {
        return Some(Forbidden);
      }
      var actorRow := repo.GetUserByID(actor);
      if actorRow.None? || actorRow.value.role != Admin {
        return Some(Forbidden);
      }
      var targetRow := repo.GetUserByID(target);
      if targetRow.None? {
        return Some(NotFound);
      }
      if role == Admin && targetRow.value.verifiedAt.None? {
        return Some(Forbidden);
      }
      if targetRow.value.role == Admin && role != Admin {
        var count := repo.CountAdmins();
        if count <= 1 {
          return Some(LastAdmin);
        }
      }
      var account := new Account(targetRow.value);
      var ok := account.AssignRole(role);
      error := repo.ChangeRole(actor, target, role, now);
    }

    method Delete(actor: int, target: int) returns (error: Option<Error>)
      modifies repo
      ensures actor == target || actor !in old(repo.users) || old(repo.users)[actor].role != Admin ==>
                error == Some(Forbidden) && repo.View() == old(repo.View())
      ensures actor != target && actor in old(repo.users) && old(repo.users)[actor].role == Admin ==>
        var outcome := DeleteUserTx(old(repo.View()), target);
        repo.View() == Commit(old(repo.View()), outcome) && error == if outcome.Ok? then None else Some(outcome.error)
    {
      if actor == target {
        return Some(Forbidden);
      }
      var actorRow := repo.GetUserByID(actor);
      if actorRow.None? || actorRow.value.role != Admin {
        return Some(Forbidden);
      }
      var targetRow := repo.GetUserByID(target);
      if targetRow.None? {
        return Some(NotFound);
      }
      if targetRow.value.role == Admin {
        var count := repo.CountAdmins();
        if count <= 1 {
          return Some(LastAdmin);
        }
      }
      error := repo.Delete(target);
    }

    /** ChangePassword; `length` is the new password's in bytes, `matches` the verdict of the comparison of the
        current one against the stored hash, `hash` the new one's. */
    method ChangePassword(id: int, length: nat, matches: bool, hash: string, now: int) returns (error: Option<Error>)
      modifies repo
      ensures !(12 <= length <= 72) ==> error == Some(InvalidInput)
      ensures 12 <= length <= 72 && id in old(repo.users) && !matches ==> error == Some(InvalidPassword)
      ensures !(12 <= length <= 72) || (id in old(repo.users) && !matches) ==> repo.View() == old(repo.View())
      ensures 12 <= length <= 72 && (id !in old(repo.users) || matches) ==>
        var outcome := ChangePasswordTx(old(repo.View()), id, hash, now);
        repo.View() == Commit(old(repo.View()), outcome) && error == if outcome.Ok? then None else Some(outcome.error)
    {
      if length < 12 || length > 72 {
        return Some(InvalidInput);
      }
      var row := repo.GetUserByID(id);
      if row.None? {
        return Some(NotFound);
      }
      if !matches {
        return Some(InvalidPassword);
      }
      var account := new Account(row.value);
      account.ChangePasswordHash(hash);
      error := repo.ChangePassword(id, account.password, now);
    }

    /** DeleteSelf; the last admin cannot go even by its own hand. */
    method DeleteSelf(id: int, matches: bool) returns (error: Option<Error>)
      modifies repo
      ensures id in old(repo.users) && !matches ==> error == Some(InvalidPassword) && repo.View() == old(repo.View())
      ensures id !in old(repo.users) || matches ==>
        var outcome := DeleteUserTx(old(repo.View()), id);
        repo.View() == Commit(old(repo.View()), outcome) && error == if outcome.Ok? then None else Some(outcome.error)
    {
      var row := repo.GetUserByID(id);
      if row.None? {
        return Some(NotFound);
      }
      if !matches {
        return Some(InvalidPassword);
      }
      error := repo.Delete(id);
    }
  }

  // ------------------------------------------------------------- auth service

  datatype AuthError = InvalidCredentials | EmailUnverified | InvalidToken | NotAuthorized | Failed

  datatype Tokens = Tokens(access: Jwt, refresh: Jwt)

  class AuthService {
    const repo: UserRepository
    const clock: Clock
    const accessTtl: int
    const refreshTtl: int
    const verificationTtl: int
    const bootstrapEmail: string

    constructor (repo: UserRepository, clock: Clock, accessTtl: int, refreshTtl: int, verificationTtl: int,
                 bootstrapEmail: string)
      ensures this.repo == repo && this.clock == clock
      ensures this.accessTtl == accessTtl && this.refreshTtl == refreshTtl
      ensures this.verificationTtl == verificationTtl && this.bootstrapEmail == bootstrapEmail
    {
      this.repo, this.clock, this.accessTtl, this.refreshTtl := repo, clock, accessTtl, refreshTtl;
      this.verificationTtl, this.bootstrapEmail := verificationTtl, bootstrapEmail;
    }

    /** An access and a refresh token for the user at the version, with the configured lifetimes, signed one
        after the other between two instants. */
    ghost predicate Minted(tokens: Tokens, userId: int, version: int, accessId: string, refreshId: string,
                           from: int, upto: int)
    {
      && tokens.access.userId == userId && tokens.refresh.userId == userId
      && tokens.access.version == version && tokens.refresh.version == version
      && !tokens.access.refresh && tokens.refresh.refresh
      && tokens.access.jti == accessId && tokens.refresh.jti == refreshId
      && tokens.access.expiresAt == tokens.access.issuedAt + accessTtl
      && tokens.refresh.expiresAt == tokens.refresh.issuedAt + refreshTtl
      && from <= tokens.access.issuedAt <= tokens.refresh.issuedAt <= upto
    }

    /** Register: user and verification link together, or neither.  `candidate` is None when the request does
        not pass validation, `hash` is the hashed password, `secret` comes from the random source. */
    method Register(candidate: Option<Profile>, hash: string, secret: string, delivered: bool)
      returns (error: Option<Error>, ghost link: VerificationRow)
      modifies repo, clock
      ensures candidate.None? ==> error == Some(InvalidInput) && repo.View() == old(repo.View())
      ensures candidate.Some? ==>
        var outcome :=
          RegisterTx(old(repo.View()), candidate.value.username, candidate.value.email, hash, link, delivered);
        && link.secret == secret
        && old(clock.now) + verificationTtl <= link.expiresAt <= clock.now + verificationTtl
        && repo.View() == Commit(old(repo.View()), outcome)
        && error == if outcome.Ok? then None else Some(outcome.error)
    {
      link := VerificationRow(secret, 0, 0);
      if candidate.None? {
        return Some(InvalidInput), link;
      }
      var now := clock.Now();
      var token := VerificationRow(secret, now + verificationTtl, now);
      link := token;
      var result := repo.RegisterUser(candidate.value.username, candidate.value.email, hash, token, delivered);
      error := if result.Ok? then None else Some(result.error);
    }

    /** VerifyEmail: an empty secret is refused unseen, any other is redeemed at one reading. */
    method VerifyEmail(secret: string) returns (error: Option<Error>, ghost id: int, ghost now: int)
      modifies repo, clock
      ensures old(clock.now) <= now <= clock.now
      ensures secret == "" || (forall other :: !Redeemable(old(repo.View()), other, secret, now))
              ==> error == Some(Error.InvalidToken) && repo.View() == old(repo.View())
      ensures secret != "" && (exists other :: Redeemable(old(repo.View()), other, secret, now)) ==>
        && Redeemable(old(repo.View()), id, secret, now)
        && repo.View() == Commit(old(repo.View()), VerifyEmailTx(old(repo.View()), id, now, bootstrapEmail))
        && (error.None? <==> VerifyEmailTx(old(repo.View()), id, now, bootstrapEmail).Ok?)
    {
      id, now := 0, clock.now;
      if secret == "" {
        return Some(Error.InvalidToken), id, now;
      }
      var reading := clock.Now();
      now := reading;
      var result, found := repo.VerifyEmail(secret, reading, bootstrapEmail);
      id := found;
      error := if result.Ok? then None else Some(result.error);
    }

    /** Sign a pair of tokens for a user at a version; the identifiers come from the random source. */
    method Mint(userId: int, version: int, accessId: string, refreshId: string) returns (tokens: Tokens)
      modifies clock
      ensures Minted(tokens, userId, version, accessId, refreshId, old(clock.now), clock.now)
    {
      var now := clock.Now();
      var access := Jwt(userId, version, false, accessId, now, now + accessTtl);
      now := clock.Now();
      var refresh := Jwt(userId, version, true, refreshId, now, now + refreshTtl);
      return Tokens(access, refresh);
    }

    /** Login; `matches` is the verdict of the password comparison. */
    method Login(email: string, matches: bool, accessId: string, refreshId: string)
      returns (result: Result<Tokens, AuthError>, ghost id: int)
      modifies repo`refresh, clock
      ensures result.Err? ==> repo.View() == old(repo.View())
      ensures result == Err(InvalidCredentials) ==>
        !matches || forall other :: other in repo.users ==> repo.users[other].email != email
      ensures result == Err(EmailUnverified) ==>
        id in repo.users && repo.users[id].email == email && matches && repo.users[id].verifiedAt.None?
      ensures result.Err? && result.error != InvalidCredentials && result.error != EmailUnverified ==>
        && result == Err(Failed) && matches
        && id in repo.users && repo.users[id].email == email && repo.users[id].verifiedAt.Some?
        && exists other :: other in repo.refresh && other.userId == id && other.jti == refreshId
      ensures result.Ok? ==>
        && matches && id in repo.users && repo.users[id].email == email && repo.users[id].verifiedAt.Some?
        && Minted(result.value, id, repo.users[id].version, accessId, refreshId, old(clock.now), clock.now)
        && IdentitySystem.AccountMatches(repo.View(), result.value.access)
        && IdentitySystem.AccountMatches(repo.View(), result.value.refresh)
        && result.value.refresh.userId == id && result.value.refresh.refresh
        && repo.View() == Commit(old(repo.View()),
             CreateRefreshTx(old(repo.View()), result.value.refresh, id, result.value.refresh.expiresAt))
        && Active(repo.refresh, result.value.refresh, result.value.refresh.expiresAt - 1)
    {
      id := 0;
      var found := repo.GetUserByEmail(email);
      if found.None? {
        return Err(InvalidCredentials), id;
      }
      id := found.value;
      if !matches {
        return Err(InvalidCredentials), id;
      }
      var account := repo.users[found.value];
      if account.verifiedAt.None? {
        return Err(EmailUnverified), id;
      }
      var tokens := Mint(found.value, account.version, accessId, refreshId);
      var ok := repo.CreateRefreshToken(tokens.refresh, found.value, tokens.refresh.expiresAt);
      if !ok {
        return Err(Failed), id;
      }
      return Ok(tokens), id;
    }

    /** Refresh without interference: succeeds exactly when the token validates, its row is active and
        its user's, and the account still matches - and then trades the row for the replacement's. */
    method Refresh(token: Jwt, accessId: string, refreshId: string)
      returns (result: Result<Tokens, AuthError>, ghost validated: int, ghost looked: int, ghost rotated: int)
      modifies repo`refresh, clock
      ensures old(clock.now) <= validated <= looked <= rotated <= clock.now
      ensures result.Err? ==> repo.View() == old(repo.View())
      ensures result == Err(AuthError.InvalidToken) <==> !token.refresh
      ensures token.refresh && token.expiresAt / SECOND <= validated / SECOND ==> result == Err(NotAuthorized)
      ensures result.Ok? ==>
        && IdentitySystem.ValidRefresh(token, validated)
        && Active(old(repo.refresh), token, looked) && Active(old(repo.refresh), token, rotated)
        && old(repo.refresh)[token].userId == token.userId
        && IdentitySystem.AccountMatches(old(repo.View()), token)
        && token.refresh && token.userId in old(repo.users) && old(repo.users)[token.userId].verifiedAt.Some?
        && old(repo.users)[token.userId].version == token.version
        && Minted(result.value, token.userId, token.version, accessId, refreshId, old(clock.now), clock.now)
        && var issued := result.value.refresh;
           var outcome := RotateTx(old(repo.View()), token, issued, token.userId, issued.expiresAt, rotated);
           outcome.Ok? && repo.View() == outcome.value
      ensures result == Err(Failed) ==>
        !Active(old(repo.refresh), token, rotated)
        || exists other :: other in old(repo.refresh) && other.jti == refreshId
      ensures result.Err? && result.error != Failed ==>
        || !IdentitySystem.ValidRefresh(token, validated)
        || !Active(old(repo.refresh), token, looked)
        || old(repo.refresh)[token].userId != token.userId
        || !IdentitySystem.AccountMatches(old(repo.View()), token)
    {
      validated := clock.now;
      looked, rotated := clock.now, clock.now;
      var now := clock.Now();
      validated, looked, rotated := now, now, now;
      if !token.refresh {
        return Err(AuthError.InvalidToken), validated, looked, rotated;
      }
      if now / SECOND >= token.expiresAt / SECOND {
        return Err(NotAuthorized), validated, looked, rotated;
      }
      now := clock.Now();
      looked, rotated := now, now;
      var stored := repo.GetActiveRefreshTokenByHash(token, now);
      if stored.None? || stored.value.userId != token.userId {
        return Err(NotAuthorized), validated, looked, rotated;
      }
      var account := repo.GetUserByID(token.userId);
      if account.None? || account.value.version != token.version || account.value.verifiedAt.None? {
        return Err(NotAuthorized), validated, looked, rotated;
      }
      var tokens := Mint(token.userId, account.value.version, accessId, refreshId);
      now := clock.Now();
      rotated := now;
      var error := repo.RotateRefreshToken(token, tokens.refresh, token.userId, tokens.refresh.expiresAt, now);
      if error.Some? {
        return Err(Failed), validated, looked, rotated;
      }
      return Ok(tokens), validated, looked, rotated;
    }

    /** Logout always succeeds: an unknown or revoked token is as good as a revoked one. */
    method Logout(token: Option<Jwt>) returns (ghost now: int)
      modifies repo`refresh, clock
      ensures token.None? ==> repo.View() == old(repo.View())
      ensures token.Some? ==>
        repo.View() == Commit(old(repo.View()), RevokeRefreshTx(old(repo.View()), token.value, now))
      ensures token.Some? ==> !(token.value in repo.refresh && repo.refresh[token.value].revokedAt.None?)
    {
      now := clock.now;
      if token.None? {
        return;
      }
      var reading := clock.Now();
      now := reading;
      var found := repo.RevokeRefreshTokenByHash(token.value, reading);
    }
  }
}
