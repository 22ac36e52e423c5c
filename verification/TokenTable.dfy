/**
 * The refresh-token and user tables behind `AuthService`, and what one service call
 * does to them.  A call is one transaction; the clock, the uuids and the raw tokens
 * it draws are arguments of the call.
 */
module TokenTable {
  import opened Wrappers

  type Jti = string
  type UserId = string
  type FamilyId = string

  /** The clock, in microseconds. */
  type Time = int

  /** What a DATETIME column holds: whole seconds. */
  type Second = int

  const SECOND := 1000000
  const HALF_SECOND := 500000

  const DEFAULT_USER_ROLE := "user"

  /** `hash_token`, kept symbolic: different raw tokens have different hashes. */
  datatype TokenHash = Sha256(raw: string)

  datatype TokenRow = TokenRow(
    userId: UserId,
    tokenHash: TokenHash,
    familyId: FamilyId,
    expiresAt: Second,
    createdAt: Second,
    revokedAt: Option<Second>,
    replacedBy: Option<Jti>)

  /** The refresh-token table, keyed by its primary key. */
  type Rows = map<Jti, TokenRow>

  datatype User = User(email: string, role: string)

  datatype Db = Db(users: map<UserId, User>, tokens: Rows)

  /** What `create_refresh_token` draws. */
  datatype Minted = Minted(raw: string, jti: Jti)

  datatype Call =
    | Register(email: string, newUser: UserId, newFamily: FamilyId, minted: Minted, now: Time)
    | Login(email: string, passwordOk: bool, newFamily: FamilyId, minted: Minted, now: Time)
    | Refresh(raw: string, minted: Minted, now: Time)
    | Logout(raw: string, now: Time)
    | LogoutAll(userId: UserId, now: Time)
    | RemoveUser(userId: UserId)

  datatype Error = EmailTaken | BadCredentials | InvalidRefreshToken

  datatype Outcome =
    | Issued(userId: UserId, role: string, refreshToken: string)
    | Done
    | Rejected(error: Error)

  datatype Reply = Reply(db: Db, outcome: Outcome)

  /** A time stored in its column is rounded to the nearest second, half a second up. */
  function ToSecond(t: Time): Second {
    (t + HALF_SECOND) / SECOND
  }

  /** A stored time as it is compared with the clock. */
  function Instant(s: Second): Time {
    s * SECOND
  }

  predicate Live(row: TokenRow) {
    row.revokedAt.None?
  }

  ghost predicate Holds(tokens: Rows, raw: string, jti: Jti) {
    jti in tokens && tokens[jti].tokenHash == Sha256(raw)
  }

  /** `_get_refresh_token`: the row with the hash of `raw`. */
  ghost function Find(tokens: Rows, raw: string): (found: Option<Jti>)
    ensures found.Some? ==> Holds(tokens, raw, found.value)
    ensures found.None? ==> forall j :: !Holds(tokens, raw, j)
  {
    if exists j :: Holds(tokens, raw, j) then
      var j :| Holds(tokens, raw, j);
      Some(j)
    else
      None
  }

  ghost predicate HasEmail(users: map<UserId, User>, email: string, u: UserId) {
    u in users && users[u].email == email
  }

  ghost function FindUser(users: map<UserId, User>, email: string): (found: Option<UserId>)
    ensures found.Some? ==> HasEmail(users, email, found.value)
    ensures found.None? ==> forall u :: !HasEmail(users, email, u)
  {
    if exists u :: HasEmail(users, email, u) then
      var u :| HasEmail(users, email, u);
      Some(u)
    else
      None
  }

  /** Set `revoked_at` where it is still null. */
  function RevokeRow(row: TokenRow, now: Time): TokenRow {
    if Live(row) then row.(revokedAt := Some(ToSecond(now))) else row
  }

  /** The bulk update of `_revoke_family`. */
  function RevokeFamily(tokens: Rows, familyId: FamilyId, now: Time): Rows {
    map j | j in tokens :: if tokens[j].familyId == familyId then RevokeRow(tokens[j], now) else tokens[j]
  }

  /** The bulk update of `logout_all`. */
  function RevokeUser(tokens: Rows, userId: UserId, now: Time): Rows {
    map j | j in tokens :: if tokens[j].userId == userId then RevokeRow(tokens[j], now) else tokens[j]
  }

  /** `life` is in seconds: a number of days in the settings. */
  function NewRow(userId: UserId, minted: Minted, familyId: FamilyId, now: Time, life: int): TokenRow {
    TokenRow(userId, Sha256(minted.raw), familyId, ToSecond(now + life * SECOND), ToSecond(now), None, None)
  }

  /** `_issue_tokens`: the first token of a new family. */
  function Issue(db: Db, userId: UserId, familyId: FamilyId, minted: Minted, now: Time, life: int): Reply
    requires userId in db.users
  {
    Reply(db.(tokens := db.tokens[minted.jti := NewRow(userId, minted, familyId, now, life)]),
          Issued(userId, RoleOf(db.users[userId]), minted.raw))
  }

  /** The role claim: `user.role or DEFAULT_USER_ROLE`. */
  function RoleOf(user: User): (role: string)
    ensures user.role != "" ==> role == user.role
    ensures user.role == "" ==> role == "user"
  {
    if user.role == "" then DEFAULT_USER_ROLE else user.role
  }

  /** The successful branch of `refresh`: close the old row, point it at its successor, add the successor. */
  function Rotate(tokens: Rows, jti: Jti, minted: Minted, now: Time, life: int): Rows
    requires jti in tokens
  {
    var token := tokens[jti];
    tokens[jti := token.(revokedAt := Some(ToSecond(now)), replacedBy := Some(minted.jti))]
          [minted.jti := NewRow(token.userId, minted, token.familyId, now, life)]
  }

  ghost function RefreshReply(db: Db, raw: string, minted: Minted, now: Time, life: int): Reply {
    var found := Find(db.tokens, raw);
    if found.None? then
      Reply(db, Rejected(InvalidRefreshToken))
    else
      var jti := found.value;
      var token := db.tokens[jti];
      if token.revokedAt.Some? then
        Reply(db.(tokens := RevokeFamily(db.tokens, token.familyId, now)), Rejected(InvalidRefreshToken))
      else if Instant(token.expiresAt) <= now || token.userId !in db.users then
        Reply(db.(tokens := db.tokens[jti := RevokeRow(token, now)]), Rejected(InvalidRefreshToken))
      else
        Reply(db.(tokens := Rotate(db.tokens, jti, minted, now, life)),
              Issued(token.userId, RoleOf(db.users[token.userId]), minted.raw))
  }

  ghost function LogoutReply(db: Db, raw: string, now: Time): Reply {
    var found := Find(db.tokens, raw);
    if found.None? then
      Reply(db, Rejected(InvalidRefreshToken))
    else
      Reply(db.(tokens := db.tokens[found.value := RevokeRow(db.tokens[found.value], now)]), Done)
  }

  /** One service call, or the removal of a user by an administrator. */
  ghost function Next(db: Db, call: Call, life: int): Reply {
    match call
    case Register(email, newUser, newFamily, minted, now) =>
      if FindUser(db.users, email).Some? then
        Reply(db, Rejected(EmailTaken))
      else
        Issue(db.(users := db.users[newUser := User(email, DEFAULT_USER_ROLE)]), newUser, newFamily, minted, now, life)
    case Login(email, passwordOk, newFamily, minted, now) =>
      var found := FindUser(db.users, email);
      if found.None? || !passwordOk then
        Reply(db, Rejected(BadCredentials))
      else
        Issue(db, found.value, newFamily, minted, now, life)
    case Refresh(raw, minted, now) => RefreshReply(db, raw, minted, now, life)
    case Logout(raw, now) => LogoutReply(db, raw, now)
    case LogoutAll(userId, now) => Reply(db.(tokens := RevokeUser(db.tokens, userId, now)), Done)
    case RemoveUser(userId) => Reply(db.(users := db.users - {userId}), Done)
  }

  ghost predicate FreshToken(tokens: Rows, minted: Minted) {
    minted.jti !in tokens && forall j :: j in tokens ==> tokens[j].tokenHash != Sha256(minted.raw)
  }

  ghost predicate FreshFamily(tokens: Rows, familyId: FamilyId) {
    forall j :: j in tokens ==> tokens[j].familyId != familyId
  }

  /** The uuids and raw tokens a call draws have not been drawn before. */
  ghost predicate Fresh(db: Db, call: Call) {
    match call
    case Register(_, newUser, newFamily, minted, _) =>
      FreshToken(db.tokens, minted) && FreshFamily(db.tokens, newFamily) && newUser !in db.users
    case Login(_, _, newFamily, minted, _) =>
      FreshToken(db.tokens, minted) && FreshFamily(db.tokens, newFamily)
    case Refresh(_, minted, _) => FreshToken(db.tokens, minted)
    case _ => true
  }

  /** The rows of one family. */
  ghost function RowsOf(tokens: Rows, familyId: FamilyId): Rows {
    map j | j in tokens && tokens[j].familyId == familyId :: tokens[j]
  }

  ghost function LiveRows(tokens: Rows): set<Jti> {
    set j | j in tokens && Live(tokens[j])
  }
}
