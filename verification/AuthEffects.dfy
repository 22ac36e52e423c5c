/** What each call of the service does to the two tables, column by column. */
module AuthEffects {
  import opened Wrappers
  import opened TokenTable
  import opened TokenFamilies
  import opened TokenRuns
  import opened TokenHistory

  ghost predicate HasHash(tokens: Rows, raw: string, j: Jti) {
    j in tokens && tokens[j].tokenHash == Sha256(raw)
  }

  /** The token is unknown: nothing changes. */
  lemma UnknownEffect(db: Db, raw: string, minted: Minted, now: Time, life: int)
    requires forall j :: !HasHash(db.tokens, raw, j)
    ensures Next(db, Refresh(raw, minted, now), life) == Reply(db, Rejected(InvalidRefreshToken))
    ensures Next(db, Logout(raw, now), life) == Reply(db, Rejected(InvalidRefreshToken))
  {
    assert forall j :: Holds(db.tokens, raw, j) ==> HasHash(db.tokens, raw, j);
  }

  /** The token is revoked: every row of its family that was not gets the second of the call. */
  lemma ReuseEffect(db: Db, raw: string, minted: Minted, now: Time, life: int, j: Jti)
    requires UniqueHashes(db.tokens) && HasHash(db.tokens, raw, j) && db.tokens[j].revokedAt.Some?
    ensures var r := Next(db, Refresh(raw, minted, now), life);
            && r.outcome == Rejected(InvalidRefreshToken) && r.db.users == db.users
            && r.db.tokens.Keys == db.tokens.Keys
            && forall i :: i in db.tokens ==>
                 r.db.tokens[i] ==
                   if db.tokens[i].familyId == db.tokens[j].familyId && db.tokens[i].revokedAt.None? then
                     db.tokens[i].(revokedAt := Some(ToSecond(now)))
                   else db.tokens[i]
  {
    FindUnique(db.tokens, raw, j);
  }

  /** The token has expired on the clock, or its user is gone: it alone is revoked, at the second of the call. */
  lemma RefusalEffect(db: Db, raw: string, minted: Minted, now: Time, life: int, j: Jti)
    requires UniqueHashes(db.tokens) && HasHash(db.tokens, raw, j) && db.tokens[j].revokedAt.None?
    requires 1000000 * db.tokens[j].expiresAt <= now || db.tokens[j].userId !in db.users
    ensures Next(db, Refresh(raw, minted, now), life)
         == Reply(Db(db.users, db.tokens[j := db.tokens[j].(revokedAt := Some(ToSecond(now)))]), Rejected(InvalidRefreshToken))
  {
    FindUnique(db.tokens, raw, j);
  }

  /** The token is good: it is revoked and linked, and its successor carries user and family on for a full lifetime. */
  lemma RotationEffect(db: Db, raw: string, minted: Minted, now: Time, life: int, j: Jti)
    requires UniqueHashes(db.tokens) && HasHash(db.tokens, raw, j) && db.tokens[j].revokedAt.None?
    requires now < 1000000 * db.tokens[j].expiresAt && db.tokens[j].userId in db.users && minted.jti !in db.tokens
    ensures var r, spent := Next(db, Refresh(raw, minted, now), life), db.tokens[j];
            && r.db.users == db.users && r.db.tokens.Keys == db.tokens.Keys + {minted.jti}
            && (forall i :: i in db.tokens && i != j ==> r.db.tokens[i] == db.tokens[i])
            && r.db.tokens[j] == TokenRow(spent.userId, spent.tokenHash, spent.familyId, spent.expiresAt, spent.createdAt,
                                          Some(ToSecond(now)), Some(minted.jti))
            && r.db.tokens[minted.jti] == TokenRow(spent.userId, Sha256(minted.raw), spent.familyId,
                                                   ToSecond(now) + life, ToSecond(now), None, None)
            && r.outcome.Issued? && r.outcome.userId == spent.userId && r.outcome.refreshToken == minted.raw
            && r.outcome.role == if db.users[spent.userId].role == "" then "user" else db.users[spent.userId].role
  {
    FindUnique(db.tokens, raw, j);
    StoredLifetime(now, life);
  }

  lemma LogoutEffect(db: Db, raw: string, now: Time, life: int, j: Jti)
    requires UniqueHashes(db.tokens) && HasHash(db.tokens, raw, j)
    ensures var row, r := db.tokens[j], Next(db, Logout(raw, now), life);
            && r.outcome == Done && r.db.users == db.users
            && r.db.tokens == if row.revokedAt.None? then db.tokens[j := row.(revokedAt := Some(ToSecond(now)))] else db.tokens
  {
    FindUnique(db.tokens, raw, j);
    if db.tokens[j].revokedAt.Some? {
      assert db.tokens[j := db.tokens[j]] == db.tokens;
    }
  }

  /** A new address gets a user and the first token of a family; a known one changes nothing. */
  lemma RegisterEffect(db: Db, email: string, newUser: UserId, newFamily: FamilyId, minted: Minted, now: Time, life: int)
    ensures var r := Next(db, Register(email, newUser, newFamily, minted, now), life);
            if exists u :: u in db.users && db.users[u].email == email then
              r == Reply(db, Rejected(EmailTaken))
            else
              && r.outcome == Issued(newUser, "user", minted.raw)
              && r.db.users == db.users[newUser := User(email, "user")]
              && r.db.tokens == db.tokens[minted.jti := TokenRow(newUser, Sha256(minted.raw), newFamily,
                                                                 ToSecond(now) + life, ToSecond(now), None, None)]
  {
    StoredLifetime(now, life);
    if u :| u in db.users && db.users[u].email == email {
      assert HasEmail(db.users, email, u);
    }
  }

  lemma LoginEffect(db: Db, u: UserId, passwordOk: bool, newFamily: FamilyId, minted: Minted, now: Time, life: int)
    requires u in db.users && forall v :: v in db.users && db.users[v].email == db.users[u].email ==> v == u
    ensures var r := Next(db, Login(db.users[u].email, passwordOk, newFamily, minted, now), life);
            if !passwordOk then
              r == Reply(db, Rejected(BadCredentials))
            else
              && r.outcome == Issued(u, if db.users[u].role == "" then "user" else db.users[u].role, minted.raw)
              && r.db.users == db.users
              && r.db.tokens == db.tokens[minted.jti := TokenRow(u, Sha256(minted.raw), newFamily,
                                                                 ToSecond(now) + life, ToSecond(now), None, None)]
  {
    StoredLifetime(now, life);
    assert HasEmail(db.users, db.users[u].email, u);
  }

  lemma UnknownEmailEffect(db: Db, email: string, passwordOk: bool, newFamily: FamilyId, minted: Minted, now: Time, life: int)
    requires forall u :: u in db.users ==> db.users[u].email != email
    ensures Next(db, Login(email, passwordOk, newFamily, minted, now), life) == Reply(db, Rejected(BadCredentials))
  {
    assert forall u :: HasEmail(db.users, email, u) ==> u in db.users && db.users[u].email == email;
  }

  /** Removing a user leaves the tokens, which stop refreshing. */
  lemma RemovalEffect(db: Db, u: UserId, raw: string, minted: Minted, now: Time, life: int, j: Jti)
    requires UniqueHashes(db.tokens) && HasHash(db.tokens, raw, j) && db.tokens[j].userId == u
    ensures var r := Next(db, RemoveUser(u), life);
            && r.db.tokens == db.tokens && r.db.users.Keys == db.users.Keys - {u}
            && (forall v :: v in db.users && v != u ==> r.db.users[v] == db.users[v])
            && Next(r.db, Refresh(raw, minted, now), life).outcome == Rejected(InvalidRefreshToken)
  {
    FindUnique(db.tokens, raw, j);
  }

  // ---------------------------------------------------------------- dates of revocation

  /** The clock of a call, where it reads one. */
  function Clock(call: Call): Option<Time> {
    match call
    case RemoveUser(_) => None
    case _ => Some(call.now)
  }

  /** A row that a call leaves revoked was so already, unchanged, or is revoked at the second of the call. */
  lemma StepDates(db: Db, call: Call, life: int, j: Jti)
    requires Fresh(db, call) && j in Next(db, call, life).db.tokens
    requires Next(db, call, life).db.tokens[j].revokedAt.Some?
    ensures j in db.tokens
    ensures db.tokens[j].revokedAt.Some? ==> Next(db, call, life).db.tokens[j] == db.tokens[j]
    ensures db.tokens[j].revokedAt.None? ==>
              Clock(call).Some? && Next(db, call, life).db.tokens[j].revokedAt == Some(ToSecond(Clock(call).value))
  {
  }

  /** Call `i` of the run found row `j` live and revoked it, at its own second. */
  ghost predicate RevokedBy(calls: seq<Call>, life: int, j: Jti, at: Second, i: nat) {
    && i < |calls| && Clock(calls[i]).Some? && at == ToSecond(Clock(calls[i]).value)
    && j in After(EMPTY, calls[..i], life).tokens && After(EMPTY, calls[..i], life).tokens[j].revokedAt.None?
  }

  /** Every `revoked_at` of a reachable table is the second of the call of the run that set it. */
  lemma {:induction false} RevocationDated(calls: seq<Call>, life: int, j: Jti) returns (i: nat)
    requires Admissible(EMPTY, calls, life) && j in After(EMPTY, calls, life).tokens
    requires After(EMPTY, calls, life).tokens[j].revokedAt.Some?
    ensures RevokedBy(calls, life, j, After(EMPTY, calls, life).tokens[j].revokedAt.value, i)
    decreases |calls|
  {
    hide Next, Fresh;
    var n := |calls| - 1;
    var mid := After(EMPTY, calls[..n], life);
    LastCall(EMPTY, calls, life);
    StepDates(mid, calls[n], life, j);
    if mid.tokens[j].revokedAt.Some? {
      i := RevocationDated(calls[..n], life, j);
      assert calls[..n][..i] == calls[..i];
    } else {
      i := n;
    }
  }
}
