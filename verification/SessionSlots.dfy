/**
 * The simple reading of refresh-token rotation: a session has one slot, holding the
 * one token that is good now.  The token table refines this machine call by call.
 */
module SessionSlots {
  import opened Wrappers
  import opened TokenTable
  import opened TokenFamilies
  import opened TokenRuns

  datatype Slot = Slot(tokenHash: TokenHash, expiresAt: Second)

  /** `known` holds the hashes of all tokens the session was ever issued. */
  datatype Session = Session(userId: UserId, slot: Option<Slot>, known: set<TokenHash>)

  datatype Book = Book(users: map<UserId, User>, sessions: map<FamilyId, Session>)

  datatype BookReply = BookReply(book: Book, outcome: Outcome)

  ghost predicate Knows(book: Book, raw: string, f: FamilyId) {
    f in book.sessions && Sha256(raw) in book.sessions[f].known
  }

  ghost predicate Good(book: Book, f: FamilyId, raw: string, now: Time)
    requires f in book.sessions
  {
    var s := book.sessions[f];
    s.slot.Some? && s.slot.value.tokenHash == Sha256(raw) && now < Instant(s.slot.value.expiresAt) && s.userId in book.users
  }

  ghost function Emptied(book: Book, f: FamilyId): Book
    requires f in book.sessions
  {
    book.(sessions := book.sessions[f := book.sessions[f].(slot := None)])
  }

  ghost function Opened(book: Book, u: UserId, f: FamilyId, minted: Minted, now: Time, life: int): BookReply
    requires u in book.users
  {
    var h := Sha256(minted.raw);
    BookReply(book.(sessions := book.sessions[f := Session(u, Some(Slot(h, ToSecond(now + life * SECOND))), {h})]),
              Issued(u, RoleOf(book.users[u]), minted.raw))
  }

  ghost function Swapped(s: Session, minted: Minted, now: Time, life: int): Session {
    var h := Sha256(minted.raw);
    Session(s.userId, Some(Slot(h, ToSecond(now + life * SECOND))), s.known + {h})
  }

  /** The good token swaps the slot; any other known token empties it; an unknown one does nothing. */
  ghost function BookRefresh(book: Book, raw: string, minted: Minted, now: Time, life: int): BookReply {
    if exists f :: Knows(book, raw, f) then
      var f :| Knows(book, raw, f);
      if Good(book, f, raw, now) then
        var s := book.sessions[f];
        BookReply(book.(sessions := book.sessions[f := Swapped(s, minted, now, life)]),
                  Issued(s.userId, RoleOf(book.users[s.userId]), minted.raw))
      else
        BookReply(Emptied(book, f), Rejected(InvalidRefreshToken))
    else
      BookReply(book, Rejected(InvalidRefreshToken))
  }

  /** Logging out with the token in the slot empties it; a stale token leaves it alone. */
  ghost function BookLogout(book: Book, raw: string): BookReply {
    if exists f :: Knows(book, raw, f) then
      var f :| Knows(book, raw, f);
      var s := book.sessions[f];
      BookReply(if s.slot.Some? && s.slot.value.tokenHash == Sha256(raw) then Emptied(book, f) else book, Done)
    else
      BookReply(book, Rejected(InvalidRefreshToken))
  }

  ghost function BookLogoutAll(book: Book, u: UserId): Book {
    book.(sessions := map f | f in book.sessions ::
      if book.sessions[f].userId == u then book.sessions[f].(slot := None) else book.sessions[f])
  }

  ghost function BookNext(book: Book, call: Call, life: int): BookReply {
    match call
    case Register(email, newUser, newFamily, minted, now) =>
      if FindUser(book.users, email).Some? then
        BookReply(book, Rejected(EmailTaken))
      else
        Opened(book.(users := book.users[newUser := User(email, DEFAULT_USER_ROLE)]), newUser, newFamily, minted, now, life)
    case Login(email, passwordOk, newFamily, minted, now) =>
      if FindUser(book.users, email).None? || !passwordOk then
        BookReply(book, Rejected(BadCredentials))
      else
        Opened(book, FindUser(book.users, email).value, newFamily, minted, now, life)
    case Refresh(raw, minted, now) => BookRefresh(book, raw, minted, now, life)
    case Logout(raw, now) => BookLogout(book, raw)
    case LogoutAll(userId, now) => BookReply(BookLogoutAll(book, userId), Done)
    case RemoveUser(userId) => BookReply(book.(users := book.users - {userId}), Done)
  }

  ghost function BookAfter(book: Book, calls: seq<Call>, life: int): Book
    decreases |calls|
  {
    if calls == [] then book else BookAfter(BookNext(book, calls[0], life).book, calls[1..], life)
  }

  ghost function BookOutcomes(book: Book, calls: seq<Call>, life: int): (out: seq<Outcome>)
    ensures |out| == |calls|
    decreases |calls|
  {
    if calls == [] then [] else
      var r := BookNext(book, calls[0], life);
      [r.outcome] + BookOutcomes(r.book, calls[1..], life)
  }

  // ---------------------------------------------------------------- abstraction

  ghost function Families(tokens: Rows): set<FamilyId> {
    set j | j in tokens :: tokens[j].familyId
  }

  ghost function Hashes(rows: Rows): set<TokenHash> {
    set j | j in rows :: rows[j].tokenHash
  }

  ghost function LiveSlot(rows: Rows): Option<Slot> {
    if exists j :: j in rows && Live(rows[j]) then
      var j :| j in rows && Live(rows[j]);
      Some(Slot(rows[j].tokenHash, rows[j].expiresAt))
    else
      None
  }

  /** What the rows of a family say about its session. */
  ghost function Summary(rows: Rows): Session
    requires rows != map[]
  {
    var j :| j in rows;
    Session(rows[j].userId, LiveSlot(rows), Hashes(rows))
  }

  lemma FamilyNonEmpty(tokens: Rows, f: FamilyId)
    ensures f in Families(tokens) <==> RowsOf(tokens, f) != map[]
  {
    if f in Families(tokens) {
      var j :| j in tokens && tokens[j].familyId == f;
      assert j in RowsOf(tokens, f);
    }
    if RowsOf(tokens, f) != map[] {
      var j :| j in RowsOf(tokens, f);
    }
  }

  ghost function SessionOf(tokens: Rows, f: FamilyId): Session
    requires f in Families(tokens)
  {
    FamilyNonEmpty(tokens, f);
    Summary(RowsOf(tokens, f))
  }

  ghost function Abstract(db: Db): Book {
    Book(db.users, map f | f in Families(db.tokens) :: SessionOf(db.tokens, f))
  }

  /** The session a tail row describes. */
  ghost function TailSession(tail: TokenRow, known: set<TokenHash>): Session {
    Session(tail.userId, if Live(tail) then Some(Slot(tail.tokenHash, tail.expiresAt)) else None, known)
  }

  lemma SummaryIsTail(rows: Rows, c: seq<Jti>)
    requires Chain(rows, c)
    ensures rows != map[] && Summary(rows) == TailSession(rows[Last(c)], Hashes(rows))
  {
    assert Last(c) in rows;
    forall j | j in rows
      ensures rows[j].userId == rows[Last(c)].userId
      ensures Live(rows[j]) ==> j == Last(c)
    {
      FamilyUser(rows, c, j);
      OnlyTailLive(rows, c, j);
    }
  }

  // ---------------------------------------------------------------- refinement

  lemma FamilyOf(tokens: Rows, j: Jti) returns (c: seq<Jti>)
    requires LinearFamilies(tokens) && j in tokens
    ensures Chain(RowsOf(tokens, tokens[j].familyId), c)
    ensures tokens[j].familyId in Families(tokens)
    ensures SessionOf(tokens, tokens[j].familyId)
         == TailSession(tokens[Last(c)], Hashes(RowsOf(tokens, tokens[j].familyId)))
  {
    var rows := RowsOf(tokens, tokens[j].familyId);
    assert Linear(rows);
    c :| Chain(rows, c);
    SummaryIsTail(rows, c);
    assert Last(c) in rows;
  }

  lemma KnownExactly(db: Db, raw: string)
    requires UniqueHashes(db.tokens) && LinearFamilies(db.tokens)
    ensures Find(db.tokens, raw).None? ==> forall f :: !Knows(Abstract(db), raw, f)
    ensures Find(db.tokens, raw).Some? ==>
              forall f :: Knows(Abstract(db), raw, f) <==> f == db.tokens[Find(db.tokens, raw).value].familyId
  {
    forall f | Knows(Abstract(db), raw, f)
      ensures Find(db.tokens, raw).Some? && f == db.tokens[Find(db.tokens, raw).value].familyId
    {
      assert Sha256(raw) in Hashes(RowsOf(db.tokens, f));
      var j :| j in RowsOf(db.tokens, f) && RowsOf(db.tokens, f)[j].tokenHash == Sha256(raw);
      assert Holds(db.tokens, raw, j);
      FindUnique(db.tokens, raw, j);
    }
    var found := Find(db.tokens, raw);
    if found.Some? {
      var f := db.tokens[found.value].familyId;
      var c := FamilyOf(db.tokens, found.value);
      assert found.value in RowsOf(db.tokens, f);
      assert Sha256(raw) in Hashes(RowsOf(db.tokens, f));
    }
  }

  lemma SameRowsSameSession(tokens: Rows, tokens': Rows, f: FamilyId)
    requires RowsOf(tokens', f) == RowsOf(tokens, f)
    ensures f in Families(tokens') <==> f in Families(tokens)
    ensures f in Families(tokens) ==> SessionOf(tokens', f) == SessionOf(tokens, f)
  {
    FamilyNonEmpty(tokens, f);
    FamilyNonEmpty(tokens', f);
  }

  /** Two books agree when they have the same users and the same session in every family. */
  lemma BooksAgree(a: Book, b: Book)
    requires a.users == b.users
    requires forall f :: f in a.sessions <==> f in b.sessions
    requires forall f :: f in a.sessions ==> a.sessions[f] == b.sessions[f]
    ensures a == b
  {
    assert a.sessions == b.sessions;
  }

  /** Revoking the live row of a family empties its slot. */
  lemma EmptiedSession(tokens: Rows, tokens': Rows, f: FamilyId)
    requires OnlyRevokes(tokens, tokens') && LinearFamilies(tokens) && f in Families(tokens)
    requires forall j :: j in tokens' && tokens'[j].familyId == f ==> !Live(tokens'[j])
    ensures f in Families(tokens')
    ensures SessionOf(tokens', f) == SessionOf(tokens, f).(slot := None)
  {
    hide Chain, Hashes, LinearFamilies, Linear;
    var w :| w in tokens && tokens[w].familyId == f;
    var c := FamilyOf(tokens, w);
    var rows, rows' := RowsOf(tokens, f), RowsOf(tokens', f);
    RevocationPerFamily(tokens, tokens', f);
    ChainSurvivesRevocation(rows, rows', c);
    SummaryIsTail(rows', c);
    FamilyNonEmpty(tokens', f);
    HashesAfterRevocation(rows, rows');
    TailInFamily(rows', c);
    assert RowRevoked(rows[Last(c)], rows'[Last(c)]);
  }

  lemma TailInFamily(rows: Rows, c: seq<Jti>)
    requires Chain(rows, c)
    ensures |c| > 0 && Last(c) in rows
  {
  }

  lemma HashesAfterRevocation(rows: Rows, rows': Rows)
    requires OnlyRevokes(rows, rows')
    ensures Hashes(rows') == Hashes(rows)
  {
    forall j | j in rows
      ensures rows'[j].tokenHash == rows[j].tokenHash
    {
      assert RowRevoked(rows[j], rows'[j]);
    }
    forall h | h in Hashes(rows)
      ensures h in Hashes(rows')
    {
      var j :| j in rows && rows[j].tokenHash == h;
      assert j in rows' && rows'[j].tokenHash == h;
    }
  }

  lemma FamiliesAfterRevocation(tokens: Rows, tokens': Rows, f: FamilyId)
    requires OnlyRevokes(tokens, tokens')
    ensures f in Families(tokens') <==> f in Families(tokens)
  {
    RevocationPerFamily(tokens, tokens', f);
    FamilyNonEmpty(tokens, f);
    FamilyNonEmpty(tokens', f);
    assert RowsOf(tokens, f).Keys == RowsOf(tokens', f).Keys;
    assert RowsOf(tokens, f) == map[] <==> RowsOf(tokens, f).Keys == {};
    assert RowsOf(tokens', f) == map[] <==> RowsOf(tokens', f).Keys == {};
  }

  /** Revoking within one family `f` empties its slot if no live row is left, and changes no other session. */
  lemma RevokeInFamily(db: Db, tokens': Rows, f: FamilyId)
    requires LinearFamilies(db.tokens) && OnlyRevokes(db.tokens, tokens') && f in Families(db.tokens)
    requires forall j :: j in db.tokens && db.tokens[j].familyId != f ==> tokens'[j] == db.tokens[j]
    requires forall j :: j in tokens' && tokens'[j].familyId == f ==> !Live(tokens'[j])
    ensures Abstract(db.(tokens := tokens')) == Emptied(Abstract(db), f)
  {
    hide SessionOf, RowsOf, Families;
    var a, b := Abstract(db.(tokens := tokens')), Emptied(Abstract(db), f);
    forall g
      ensures g in a.sessions <==> g in b.sessions
      ensures g in a.sessions ==> a.sessions[g] == b.sessions[g]
    {
      FamiliesAfterRevocation(db.tokens, tokens', g);
      if g in Families(db.tokens) {
        if g == f {
          EmptiedSession(db.tokens, tokens', g);
        } else {
          OtherRowsSame(db.tokens, tokens', f, g);
          SameRowsSameSession(db.tokens, tokens', g);
        }
      }
    }
    BooksAgree(a, b);
  }

  lemma OtherRowsSame(tokens: Rows, tokens': Rows, f: FamilyId, g: FamilyId)
    requires f != g && OnlyRevokes(tokens, tokens')
    requires forall j :: j in tokens && tokens[j].familyId != f ==> tokens'[j] == tokens[j]
    ensures RowsOf(tokens', g) == RowsOf(tokens, g)
  {
    forall j | j in tokens
      ensures tokens'[j].familyId == tokens[j].familyId
    {
      assert RowRevoked(tokens[j], tokens'[j]);
    }
  }

  lemma IssuedSession(tokens: Rows, u: UserId, f: FamilyId, minted: Minted, now: Time, life: int)
    requires FreshToken(tokens, minted) && FreshFamily(tokens, f)
    ensures var tokens' := tokens[minted.jti := NewRow(u, minted, f, now, life)];
            var h := Sha256(minted.raw);
            f in Families(tokens') && SessionOf(tokens', f) == Session(u, Some(Slot(h, ToSecond(now + life * SECOND))), {h})
  {
    var row := NewRow(u, minted, f, now, life);
    var tokens' := tokens[minted.jti := row];
    RowsOfIssue(tokens, minted.jti, row, f);
    FamilyNonEmpty(tokens', f);
    assert RowsOf(tokens', f) == map[minted.jti := row];
    SingletonChain(minted.jti, row);
    SummaryIsTail(RowsOf(tokens', f), [minted.jti]);
    assert Hashes(RowsOf(tokens', f)) == {Sha256(minted.raw)};
  }

  lemma IssueRefines(db: Db, u: UserId, f: FamilyId, minted: Minted, now: Time, life: int)
    requires u in db.users && FreshToken(db.tokens, minted) && FreshFamily(db.tokens, f)
    ensures Abstract(Issue(db, u, f, minted, now, life).db) == Opened(Abstract(db), u, f, minted, now, life).book
  {
    hide SessionOf, RowsOf, Families;
    var row := NewRow(u, minted, f, now, life);
    var tokens' := db.tokens[minted.jti := row];
    var a, b := Abstract(db.(tokens := tokens')), Opened(Abstract(db), u, f, minted, now, life).book;
    forall g
      ensures g in a.sessions <==> g in b.sessions
      ensures g in a.sessions ==> a.sessions[g] == b.sessions[g]
    {
      if g == f {
        IssuedSession(db.tokens, u, f, minted, now, life);
      } else {
        RowsOfIssue(db.tokens, minted.jti, row, g);
        SameRowsSameSession(db.tokens, tokens', g);
      }
    }
    BooksAgree(a, b);
  }

  lemma RotatedHashes(rows: Rows, jti: Jti, minted: Minted, now: Time, life: int)
    requires jti in rows && minted.jti !in rows
    ensures Hashes(Rotate(rows, jti, minted, now, life)) == Hashes(rows) + {Sha256(minted.raw)}
  {
    var rows' := Rotate(rows, jti, minted, now, life);
    forall h | h in Hashes(rows) + {Sha256(minted.raw)}
      ensures h in Hashes(rows')
    {
      if h == Sha256(minted.raw) {
        assert rows'[minted.jti].tokenHash == h;
      } else {
        var j :| j in rows && rows[j].tokenHash == h;
        assert rows'[j].tokenHash == h;
      }
    }
  }

  lemma RotatedSession(tokens: Rows, jti: Jti, minted: Minted, now: Time, life: int)
    requires LinearFamilies(tokens) && minted.jti !in tokens
    requires jti in tokens && Live(tokens[jti]) && now < Instant(tokens[jti].expiresAt)
    ensures var f := tokens[jti].familyId;
            var tokens' := Rotate(tokens, jti, minted, now, life);
            && f in Families(tokens) && f in Families(tokens')
            && SessionOf(tokens', f) == Swapped(SessionOf(tokens, f), minted, now, life)
  {
    hide Chain, Hashes, LinearFamilies, Linear;
    var f := tokens[jti].familyId;
    var rows := RowsOf(tokens, f);
    var c := FamilyOf(tokens, jti);
    OnlyTailLive(rows, c, jti);
    TailInFamily(rows, c);
    ChainGrows(rows, c, minted, now, life);
    RowsOfRotate(tokens, jti, minted, now, life, f);
    SummaryIsTail(Rotate(rows, jti, minted, now, life), c + [minted.jti]);
    RotatedHashes(rows, jti, minted, now, life);
    FamilyNonEmpty(Rotate(tokens, jti, minted, now, life), f);
  }

  lemma RotationRefines(db: Db, jti: Jti, minted: Minted, now: Time, life: int)
    requires LinearFamilies(db.tokens) && minted.jti !in db.tokens
    requires jti in db.tokens && Live(db.tokens[jti]) && now < Instant(db.tokens[jti].expiresAt)
    ensures var f := db.tokens[jti].familyId;
            && f in Abstract(db).sessions
            && Abstract(db.(tokens := Rotate(db.tokens, jti, minted, now, life)))
            == Abstract(db).(sessions := Abstract(db).sessions[f := Swapped(Abstract(db).sessions[f], minted, now, life)])
  {
    hide SessionOf, RowsOf, Families;
    var f := db.tokens[jti].familyId;
    var tokens' := Rotate(db.tokens, jti, minted, now, life);
    RotatedSession(db.tokens, jti, minted, now, life);
    var a := Abstract(db.(tokens := tokens'));
    var b := Abstract(db).(sessions := Abstract(db).sessions[f := Swapped(Abstract(db).sessions[f], minted, now, life)]);
    forall g
      ensures g in a.sessions <==> g in b.sessions
      ensures g in a.sessions ==> a.sessions[g] == b.sessions[g]
    {
      if g != f {
        RowsOfRotate(db.tokens, jti, minted, now, life, g);
        SameRowsSameSession(db.tokens, tokens', g);
      }
    }
    BooksAgree(a, b);
  }

  /** A known token is good in the book exactly when its row passes the three checks of `refresh`. */
  lemma GoodExactly(db: Db, raw: string, now: Time, j: Jti)
    requires UniqueHashes(db.tokens) && LinearFamilies(db.tokens) && Holds(db.tokens, raw, j)
    ensures var f := db.tokens[j].familyId;
            && f in Abstract(db).sessions
            && Abstract(db).sessions[f].userId == db.tokens[j].userId
            && (Live(db.tokens[j]) <==> Abstract(db).sessions[f].slot == Some(Slot(Sha256(raw), db.tokens[j].expiresAt)))
            && (Live(db.tokens[j]) <==> Abstract(db).sessions[f].slot.Some?
                                        && Abstract(db).sessions[f].slot.value.tokenHash == Sha256(raw))
            && (Good(Abstract(db), f, raw, now) <==>
                  Live(db.tokens[j]) && now < Instant(db.tokens[j].expiresAt) && db.tokens[j].userId in db.users)
  {
    var f := db.tokens[j].familyId;
    var rows := RowsOf(db.tokens, f);
    var c := FamilyOf(db.tokens, j);
    FamilyUser(rows, c, j);
    OnlyTailLive(rows, c, j);
    assert Last(c) in rows;
  }

  lemma RefreshRefines(db: Db, raw: string, minted: Minted, now: Time, life: int)
    requires Inv(db.tokens, life) && FreshToken(db.tokens, minted)
    ensures var r := RefreshReply(db, raw, minted, now, life);
            BookRefresh(Abstract(db), raw, minted, now, life) == BookReply(Abstract(r.db), r.outcome)
  {
    hide SessionOf, RowsOf, Families;
    KnownExactly(db, raw);
    var found := Find(db.tokens, raw);
    if found.Some? {
      var j := found.value;
      var f := db.tokens[j].familyId;
      assert Knows(Abstract(db), raw, f);
      GoodExactly(db, raw, now, j);
      if Good(Abstract(db), f, raw, now) {
        RotationRefines(db, j, minted, now, life);
      } else {
        RejectedRefreshEmpties(db, raw, minted, now, life, j);
      }
    }
  }

  /** Revoking a token that is live, or the family of one that is not, leaves no live row in the family. */
  lemma RejectionSilencesFamily(tokens: Rows, j: Jti, now: Time, i: Jti)
    requires LinearFamilies(tokens) && j in tokens && i in tokens && tokens[i].familyId == tokens[j].familyId
    ensures Live(tokens[j]) ==> !Live(tokens[j := RevokeRow(tokens[j], now)][i])
    ensures !Live(RevokeFamily(tokens, tokens[j].familyId, now)[i])
  {
    hide SessionOf;
    var rows := RowsOf(tokens, tokens[j].familyId);
    var c := FamilyOf(tokens, j);
    OnlyTailLive(rows, c, i);
    OnlyTailLive(rows, c, j);
  }

  lemma RejectedRefreshEmpties(db: Db, raw: string, minted: Minted, now: Time, life: int, j: Jti)
    requires Inv(db.tokens, life) && Find(db.tokens, raw) == Some(j)
    requires !(Live(db.tokens[j]) && now < Instant(db.tokens[j].expiresAt) && db.tokens[j].userId in db.users)
    ensures var r := RefreshReply(db, raw, minted, now, life);
            var f := db.tokens[j].familyId;
            && f in Abstract(db).sessions
            && r == Reply(r.db, Rejected(InvalidRefreshToken)) && Abstract(r.db) == Emptied(Abstract(db), f)
  {
    hide SessionOf, Linear;
    var f := db.tokens[j].familyId;
    var tokens' := RefreshReply(db, raw, minted, now, life).db.tokens;
    assert f in Families(db.tokens);
    forall i | i in db.tokens && tokens'[i].familyId == f
      ensures !Live(tokens'[i])
    {
      RejectionSilencesFamily(db.tokens, j, now, i);
    }
    RevokeInFamily(db, tokens', f);
  }

  lemma LogoutRefines(db: Db, raw: string, now: Time, life: int)
    requires Inv(db.tokens, life)
    ensures var r := LogoutReply(db, raw, now);
            BookLogout(Abstract(db), raw) == BookReply(Abstract(r.db), r.outcome)
  {
    hide SessionOf, RowsOf, Families;
    KnownExactly(db, raw);
    var found := Find(db.tokens, raw);
    if found.Some? {
      var j := found.value;
      var f := db.tokens[j].familyId;
      assert Knows(Abstract(db), raw, f);
      GoodExactly(db, raw, now, j);
      if Live(db.tokens[j]) {
        LogoutEmpties(db, now, j);
      } else {
        assert db.tokens[j := db.tokens[j]] == db.tokens;
      }
    }
  }

  lemma LogoutEmpties(db: Db, now: Time, j: Jti)
    requires LinearFamilies(db.tokens) && j in db.tokens && Live(db.tokens[j])
    ensures var f := db.tokens[j].familyId;
            && f in Abstract(db).sessions
            && Abstract(db.(tokens := db.tokens[j := RevokeRow(db.tokens[j], now)])) == Emptied(Abstract(db), f)
  {
    hide SessionOf, Linear;
    var tokens' := db.tokens[j := RevokeRow(db.tokens[j], now)];
    assert db.tokens[j].familyId in Families(db.tokens);
    forall i | i in tokens' && tokens'[i].familyId == db.tokens[j].familyId
      ensures !Live(tokens'[i])
    {
      RejectionSilencesFamily(db.tokens, j, now, i);
    }
    RevokeInFamily(db, tokens', db.tokens[j].familyId);
  }

  lemma LogoutAllRefines(db: Db, u: UserId, now: Time)
    requires LinearFamilies(db.tokens)
    ensures Abstract(db.(tokens := RevokeUser(db.tokens, u, now))) == BookLogoutAll(Abstract(db), u)
  {
    hide SessionOf, RowsOf, Families;
    var tokens' := RevokeUser(db.tokens, u, now);
    var a, b := Abstract(db.(tokens := tokens')), BookLogoutAll(Abstract(db), u);
    forall g
      ensures g in a.sessions <==> g in b.sessions
      ensures g in a.sessions ==> a.sessions[g] == b.sessions[g]
    {
      FamiliesAfterRevocation(db.tokens, tokens', g);
      if g in Families(db.tokens) {
        LogoutAllSession(db.tokens, u, now, g);
      }
    }
    BooksAgree(a, b);
  }

  lemma LogoutAllSession(tokens: Rows, u: UserId, now: Time, g: FamilyId)
    requires LinearFamilies(tokens) && g in Families(tokens)
    ensures var tokens' := RevokeUser(tokens, u, now);
            var s := SessionOf(tokens, g);
            g in Families(tokens') && SessionOf(tokens', g) == if s.userId == u then s.(slot := None) else s
  {
    hide SessionOf, Chain;
    var tokens' := RevokeUser(tokens, u, now);
    var w :| w in tokens && tokens[w].familyId == g;
    var c := FamilyOf(tokens, w);
    var rows := RowsOf(tokens, g);
    forall j | j in rows
      ensures rows[j].userId == SessionOf(tokens, g).userId
    {
      FamilyUser(rows, c, j);
    }
    if SessionOf(tokens, g).userId == u {
      forall j | j in tokens' && tokens'[j].familyId == g
        ensures !Live(tokens'[j])
      {
        assert j in rows;
      }
      EmptiedSession(tokens, tokens', g);
    } else {
      assert RowsOf(tokens', g) == rows;
      SameRowsSameSession(tokens, tokens', g);
    }
  }

  /** Every call does to the table what the slot machine does to the book, with the same answer. */
  lemma CallRefines(db: Db, call: Call, life: int)
    requires Inv(db.tokens, life) && Fresh(db, call)
    ensures var r := Next(db, call, life);
            BookNext(Abstract(db), call, life) == BookReply(Abstract(r.db), r.outcome)
  {
    match call
    case Register(email, newUser, newFamily, minted, now) =>
      if FindUser(db.users, email).None? {
        var db1 := db.(users := db.users[newUser := User(email, DEFAULT_USER_ROLE)]);
        IssueRefines(db1, newUser, newFamily, minted, now, life);
      }
    case Login(email, passwordOk, newFamily, minted, now) =>
      if FindUser(db.users, email).Some? && passwordOk {
        IssueRefines(db, FindUser(db.users, email).value, newFamily, minted, now, life);
      }
    case Refresh(raw, minted, now) => RefreshRefines(db, raw, minted, now, life);
    case Logout(raw, now) => LogoutRefines(db, raw, now, life);
    case LogoutAll(userId, now) => LogoutAllRefines(db, userId, now);
    case RemoveUser(userId) =>
  }

  /** Every run of the service is a run of the slot machine with the same outcomes. */
  lemma {:induction false} RunRefines(db: Db, calls: seq<Call>, life: int)
    requires Inv(db.tokens, life) && Admissible(db, calls, life)
    ensures BookAfter(Abstract(db), calls, life) == Abstract(After(db, calls, life))
    ensures BookOutcomes(Abstract(db), calls, life) == Outcomes(db, calls, life)
    decreases |calls|
  {
    if calls != [] {
      CallRefines(db, calls[0], life);
      NextKeepsInv(db, calls[0], life);
      RunRefines(Next(db, calls[0], life).db, calls[1..], life);
    }
  }
}
