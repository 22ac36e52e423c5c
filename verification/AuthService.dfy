/**
 * `AuthService` over its two tables, statement by statement.  Each method is proved to
 * do what `TokenTable.Next` says of its call, and to keep the chain shape of families.
 */
module AuthService {
  import opened Wrappers
  import opened TokenTable
  import opened TokenFamilies

  class AuthService {
    /** In seconds. */
    const life: int
    var users: map<UserId, User>
    var tokens: Rows

    ghost predicate Valid()
      reads this
    {
      Inv(tokens, life)
    }

    ghost function State(): Db
      reads this
    {
      Db(users, tokens)
    }

    constructor (life: int)
      ensures Valid() && State() == Db(map[], map[]) && this.life == life
    {
      this.life := life;
      users := map[];
      tokens := map[];
    }

    method GetRefreshToken(raw: string) returns (found: Option<Jti>)
      requires Valid()
      ensures found == Find(tokens, raw)
    {
      if j :| j in tokens && tokens[j].tokenHash == Sha256(raw) {
        assert Holds(tokens, raw, j);
        assert Holds(tokens, raw, Find(tokens, raw).value);
        found := Some(j);
      } else {
        found := None;
      }
    }

    method SelectUser(email: string) returns (found: Option<UserId>)
      requires UniqueEmails()
      ensures found == FindUser(users, email)
    {
      if u :| u in users && users[u].email == email {
        assert HasEmail(users, email, u);
        assert HasEmail(users, email, FindUser(users, email).value);
        found := Some(u);
      } else {
        found := None;
      }
    }

    method IssueTokens(userId: UserId, newFamily: FamilyId, minted: Minted, now: Time) returns (out: Outcome)
      requires Valid() && userId in users
      requires FreshToken(tokens, minted) && FreshFamily(tokens, newFamily)
      modifies this`tokens
      ensures Valid() && Reply(State(), out) == Issue(old(State()), userId, newFamily, minted, now, life)
    {
      IssueKeepsInv(tokens, minted, NewRow(userId, minted, newFamily, now, life), life);
      tokens := tokens[minted.jti := TokenRow(userId, Sha256(minted.raw), newFamily,
                                              ToSecond(now + life * SECOND), ToSecond(now), None, None)];
      out := Issued(userId, RoleOf(users[userId]), minted.raw);
    }

    method Register(email: string, newUser: UserId, newFamily: FamilyId, minted: Minted, now: Time) returns (out: Outcome)
      requires Valid() && UniqueEmails() && Fresh(State(), Call.Register(email, newUser, newFamily, minted, now))
      modifies this`users, this`tokens
      ensures Valid() && UniqueEmails()
      ensures Reply(State(), out) == Next(old(State()), Call.Register(email, newUser, newFamily, minted, now), life)
    {
      var existing := SelectUser(email);
      if existing.Some? {
        return Rejected(EmailTaken);
      }
      forall u | u in users
        ensures users[u].email != email
      {
        assert !HasEmail(users, email, u);
      }
      users := users[newUser := User(email, DEFAULT_USER_ROLE)];
      out := IssueTokens(newUser, newFamily, minted, now);
    }

    method Login(email: string, passwordOk: bool, newFamily: FamilyId, minted: Minted, now: Time) returns (out: Outcome)
      requires Valid() && UniqueEmails() && Fresh(State(), Call.Login(email, passwordOk, newFamily, minted, now))
      modifies this`tokens
      ensures Valid()
      ensures Reply(State(), out) == Next(old(State()), Call.Login(email, passwordOk, newFamily, minted, now), life)
    {
      var user := SelectUser(email);
      if user.None? || !passwordOk {
        return Rejected(BadCredentials);
      }
      out := IssueTokens(user.value, newFamily, minted, now);
    }

    method RevokeTokensOf(familyId: FamilyId, now: Time)
      modifies this`tokens
      ensures tokens == RevokeFamily(old(tokens), familyId, now)
      ensures tokens.Keys == old(tokens).Keys
      ensures forall j :: j in tokens ==>
                tokens[j] == if old(tokens)[j].familyId == familyId && old(tokens)[j].revokedAt.None? then
                               old(tokens)[j].(revokedAt := Some(ToSecond(now)))
                             else old(tokens)[j]
    {
      tokens := map j | j in tokens ::
        if tokens[j].familyId == familyId && tokens[j].revokedAt.None? then tokens[j].(revokedAt := Some(ToSecond(now)))
        else tokens[j];
    }

    method RotateToken(jti: Jti, minted: Minted, now: Time)
      requires jti in tokens
      modifies this`tokens
      ensures tokens == Rotate(old(tokens), jti, minted, now, life)
    {
      var token := tokens[jti];
      tokens := tokens[jti := token.(revokedAt := Some(ToSecond(now)))];
      tokens := tokens[jti := tokens[jti].(replacedBy := Some(minted.jti))];
      assert tokens == old(tokens)[jti := token.(revokedAt := Some(ToSecond(now)), replacedBy := Some(minted.jti))];
      var successor := TokenRow(token.userId, Sha256(minted.raw), token.familyId,
                                ToSecond(now + life * SECOND), ToSecond(now), None, None);
      tokens := tokens[minted.jti := successor];
    }

    method Refresh(raw: string, minted: Minted, now: Time) returns (out: Outcome)
      requires Valid() && FreshToken(tokens, minted)
      modifies this`tokens
      ensures Valid()
      ensures Reply(State(), out) == Next(old(State()), Call.Refresh(raw, minted, now), life)
    {
      NextKeepsInv(State(), Call.Refresh(raw, minted, now), life);
      hide Inv, Chain;
      var found := GetRefreshToken(raw);
      if found.None? {
        return Rejected(InvalidRefreshToken);
      }
      var jti := found.value;
      var token := tokens[jti];
      if token.revokedAt.Some? {
        RevokeTokensOf(token.familyId, now);
        return Rejected(InvalidRefreshToken);
      }
      if Instant(token.expiresAt) <= now {
        tokens := tokens[jti := token.(revokedAt := Some(ToSecond(now)))];
        return Rejected(InvalidRefreshToken);
      }
      if token.userId !in users {
        tokens := tokens[jti := token.(revokedAt := Some(ToSecond(now)))];
        return Rejected(InvalidRefreshToken);
      }
      RotateToken(jti, minted, now);
      out := Issued(token.userId, RoleOf(users[token.userId]), minted.raw);
    }

    method Logout(raw: string, now: Time) returns (out: Outcome)
      requires Valid()
      modifies this`tokens
      ensures Valid()
      ensures Reply(State(), out) == Next(old(State()), Call.Logout(raw, now), life)
    {
      NextKeepsInv(State(), Call.Logout(raw, now), life);
      hide Inv, Chain, Linear;
      var found := GetRefreshToken(raw);
      if found.None? {
        return Rejected(InvalidRefreshToken);
      }
      var jti := found.value;
      if tokens[jti].revokedAt.None? {
        tokens := tokens[jti := tokens[jti].(revokedAt := Some(ToSecond(now)))];
      } else {
        assert tokens[jti := tokens[jti]] == tokens;
      }
      out := Done;
    }

    method LogoutAll(userId: UserId, now: Time) returns (out: Outcome)
      requires Valid()
      modifies this`tokens
      ensures Valid()
      ensures Reply(State(), out) == Next(old(State()), Call.LogoutAll(userId, now), life)
    {
      NextKeepsInv(State(), Call.LogoutAll(userId, now), life);
      hide Inv, Chain;
      RevokeTokensFor(userId, now);
      out := Done;
    }

    method RevokeTokensFor(userId: UserId, now: Time)
      modifies this`tokens
      ensures tokens == RevokeUser(old(tokens), userId, now)
      ensures tokens.Keys == old(tokens).Keys
      ensures forall j :: j in tokens ==>
                tokens[j] == if old(tokens)[j].userId == userId && old(tokens)[j].revokedAt.None? then
                               old(tokens)[j].(revokedAt := Some(ToSecond(now)))
                             else old(tokens)[j]
    {
      tokens := map j | j in tokens ::
        if tokens[j].userId == userId && tokens[j].revokedAt.None? then tokens[j].(revokedAt := Some(ToSecond(now)))
        else tokens[j];
    }

    /** The unique index on `user.email`. */
    ghost predicate UniqueEmails()
      reads this
    {
      forall u, v :: u in users && v in users && users[u].email == users[v].email ==> u == v
    }
  }
}
