/** The users, refresh_tokens and email_verification_tokens tables and their transactions, each as one
    function to the tables it commits or the error it rolls back with. */
module IdentityTables {
  import opened Prelude

  datatype Role = Member | Admin

  datatype UserRow = UserRow(
    username: string,
    email: string,
    password: string,
    role: Role,
    verifiedAt: Option<int>,
    pending: string,
    version: int)
  {
    predicate Verified() { verifiedAt.Some? }
  }

  /** A signed token is what it says: user, token version, kind, unique identifier and lifetime.  The
      hash a refresh token is stored under is taken to be injective, so the token is its own key. */
  datatype Jwt = Jwt(userId: int, version: int, refresh: bool, jti: string, issuedAt: int, expiresAt: int)

  datatype RefreshRow = RefreshRow(userId: int, expiresAt: int, revokedAt: Option<int>)

  datatype VerificationRow = VerificationRow(secret: string, expiresAt: int, createdAt: int)

  /** `verifications` has at most one row a user: user_id is unique there. */
  datatype Tables = Tables(
    users: map<int, UserRow>,
    refresh: map<Jwt, RefreshRow>,
    verifications: map<int, VerificationRow>,
    nextId: int)

  datatype Error =
    | NotFound | DuplicateEmail | DuplicateUsername | Forbidden | LastAdmin | Unauthorized
    | InvalidToken | InvalidInput | InvalidRole | InvalidPassword | DispatchFailed | StoreFailed

  /** ParseRole of a role name that is trimmed and in lower case. */
  function ParseRole(name: string): Option<Role> {
    if name == "user" then Some(Member) else if name == "admin" then Some(Admin) else None
  }

  /** What stays in the tables: the committed ones, or after a rollback those from before. */
  function Commit(t: Tables, outcome: Result<Tables, Error>): Tables {
    if outcome.Ok? then outcome.value else t
  }

  // --------------------------------------------------------------------- users

  /** Some other user holds the address, as email or as pending email. */
  predicate ClaimedByOther(users: map<int, UserRow>, id: int, address: string) {
    exists other :: other in users && other != id && (users[other].email == address || users[other].pending == address)
  }

  predicate NameTaken(users: map<int, UserRow>, id: int, username: string) {
    exists other :: other in users && other != id && users[other].username == username
  }

  predicate EmailTaken(users: map<int, UserRow>, id: int, email: string) {
    exists other :: other in users && other != id && users[other].email == email
  }

  predicate PendingBySome(users: map<int, UserRow>, email: string) {
    exists other :: other in users && users[other].pending == email
  }

  function NewUser(username: string, email: string, password: string): UserRow {
    UserRow(username, email, password, Member, None, "", 1)
  }

  function CreateUserTx(t: Tables, username: string, email: string, password: string): Result<Tables, Error> {
    if PendingBySome(t.users, email) then Err(DuplicateEmail)
    else if NameTaken(t.users, t.nextId, username) then Err(DuplicateUsername)
    else if EmailTaken(t.users, t.nextId, email) then Err(DuplicateEmail)
    else Ok(t.(users := t.users[t.nextId := NewUser(username, email, password)], nextId := t.nextId + 1))
  }

  /** Registration also inserts the verification token and rolls everything back when the message cannot
      be dispatched. */
  function RegisterTx(t: Tables, username: string, email: string, password: string, token: VerificationRow,
                      delivered: bool)
    : Result<Tables, Error>
  {
    var created := CreateUserTx(t, username, email, password);
    if created.Err? then created
    else if !delivered then Err(DispatchFailed)
    else Ok(created.value.(verifications := t.verifications[t.nextId := token]))
  }

  function UpdateProfileTx(t: Tables, id: int, username: string, email: string): Result<Tables, Error> {
    if id !in t.users then Err(NotFound)
    else if email != t.users[id].email && ClaimedByOther(t.users, id, email) then Err(DuplicateEmail)
    else if NameTaken(t.users, id, username) then Err(DuplicateUsername)
    else
      var pending := if email == t.users[id].email then "" else email;
      Ok(t.(users := t.users[id := t.users[id].(username := username, pending := pending)]))
  }

  function RevokeAll(refresh: map<Jwt, RefreshRow>, id: int, now: int): map<Jwt, RefreshRow> {
    map token | token in refresh ::
      if refresh[token].userId == id && refresh[token].revokedAt.None?
      then refresh[token].(revokedAt := Some(now)) else refresh[token]
  }

  function ChangePasswordTx(t: Tables, id: int, password: string, now: int): Result<Tables, Error> {
    if id !in t.users then Err(NotFound)
    else
      var row := t.users[id].(password := password, version := t.users[id].version + 1);
      Ok(t.(users := t.users[id := row], refresh := RevokeAll(t.refresh, id, now)))
  }

  function AdminIds(users: map<int, UserRow>): set<int> {
    set id | id in users && users[id].role == Admin
  }

  function ChangeRoleTx(t: Tables, actor: int, target: int, role: Role, now: int): Result<Tables, Error> {
    if actor !in t.users then Err(NotFound)
    else if t.users[actor].role != Admin then Err(Forbidden)
    else if target !in t.users then Err(NotFound)
    else if role == Admin && !t.users[target].Verified() then Err(Forbidden)
    else if t.users[target].role == Admin && role != Admin && |AdminIds(t.users)| <= 1 then Err(LastAdmin)
    else
      var row := t.users[target].(role := role, version := t.users[target].version + 1);
      Ok(t.(users := t.users[target := row], refresh := RevokeAll(t.refresh, target, now)))
  }

  /** Deleting a user cascades to its refresh and verification tokens. */
  function DeleteUserTx(t: Tables, id: int): Result<Tables, Error> {
    if id !in t.users then Err(NotFound)
    else if t.users[id].role == Admin && |AdminIds(t.users)| <= 1 then Err(LastAdmin)
    else
      Ok(t.(users := t.users - {id},
            refresh := map token | token in t.refresh && t.refresh[token].userId != id :: t.refresh[token],
            verifications := t.verifications - {id}))
  }

  // ------------------------------------------------------------ refresh tokens

  predicate Active(refresh: map<Jwt, RefreshRow>, token: Jwt, now: int) {
    token in refresh && refresh[token].revokedAt.None? && now < refresh[token].expiresAt
  }

  /** An insert fails on a duplicate hash and on an unknown user. */
  function CreateRefreshTx(t: Tables, token: Jwt, userId: int, expiresAt: int): Result<Tables, Error> {
    if token in t.refresh || userId !in t.users then Err(StoreFailed)
    else Ok(t.(refresh := t.refresh[token := RefreshRow(userId, expiresAt, None)]))
  }

  function RevokeRefreshTx(t: Tables, token: Jwt, now: int): Result<Tables, Error> {
    if token !in t.refresh || t.refresh[token].revokedAt.Some? then Err(NotFound)
    else Ok(t.(refresh := t.refresh[token := t.refresh[token].(revokedAt := Some(now))]))
  }

  function RotateTx(t: Tables, current: Jwt, replacement: Jwt, userId: int, expiresAt: int, now: int)
    : Result<Tables, Error>
  {
    if !Active(t.refresh, current, now) then Err(Unauthorized)
    else
      CreateRefreshTx(t.(refresh := t.refresh[current := t.refresh[current].(revokedAt := Some(now))]),
                      replacement, userId, expiresAt)
  }

  function PurgeTx(t: Tables, before: int): Tables {
    t.(refresh := map token | token in t.refresh
         && !(t.refresh[token].expiresAt < before
              || (t.refresh[token].revokedAt.Some? && t.refresh[token].revokedAt.value < before))
         :: t.refresh[token])
  }

  // -------------------------------------------------------- email verification

  function ReplaceVerificationTx(t: Tables, id: int, token: VerificationRow): Result<Tables, Error> {
    if id !in t.users then Err(StoreFailed)
    else Ok(t.(verifications := t.verifications[id := token]))
  }

  /** The user's verification token is this one and has not expired. */
  predicate Redeemable(t: Tables, id: int, secret: string, now: int) {
    id in t.verifications && t.verifications[id].secret == secret && now < t.verifications[id].expiresAt
  }

  /** The role policy of verification: the bootstrap address becomes admin while there is none. */
  function PolicyRole(email: string, role: Role, admins: nat, bootstrap: string): Role {
    if bootstrap != "" && email == bootstrap && admins == 0 then Admin else role
  }

  function VerifiedRow(row: UserRow, now: int, admins: nat, bootstrap: string): UserRow {
    var email := if row.pending != "" then row.pending else row.email;
    row.(email := email, pending := "", verifiedAt := Some(now), version := row.version + 1,
         role := PolicyRole(email, row.role, admins, bootstrap))
  }

  function VerifyEmailTx(t: Tables, id: int, now: int, bootstrap: string): Result<Tables, Error> {
    if id !in t.users then Err(NotFound)
    else
      var row := VerifiedRow(t.users[id], now, |AdminIds(t.users)|, bootstrap);
      if EmailTaken(t.users, id, row.email) then Err(DuplicateEmail)
      else
        Ok(t.(users := t.users[id := row],
              refresh := RevokeAll(t.refresh, id, now),
              verifications := t.verifications - {id}))
  }
}
