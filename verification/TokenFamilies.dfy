/**
 * The shape of a token family: in every reachable state its rows form one chain,
 * linked by `replaced_by_jti`, in which only the last row can be live.
 */
module TokenFamilies {
  import opened Wrappers
  import opened TokenTable

  ghost predicate Distinct(c: seq<Jti>) {
    forall i, k :: 0 <= i < k < |c| ==> c[i] != c[k]
  }

  /** Row `a` was rotated into row `b`, no later than `a` expired on the columns' clock and at the moment `b` was created. */
  ghost predicate Linked(rows: Rows, a: Jti, b: Jti) {
    && a in rows && b in rows
    && rows[a].replacedBy == Some(b)
    && rows[a].revokedAt == Some(rows[b].createdAt)
    && rows[b].createdAt <= rows[a].expiresAt
    && rows[b].userId == rows[a].userId
  }

  ghost predicate LinkedAt(rows: Rows, c: seq<Jti>, i: nat)
    requires i + 1 < |c|
  {
    Linked(rows, c[i], c[i + 1])
  }

  /** `c` lists all of `rows` once, oldest first, each row linked to the next. */
  ghost predicate Chain(rows: Rows, c: seq<Jti>) {
    && |c| > 0
    && (forall j :: j in rows <==> j in c)
    && Distinct(c)
    && (forall i: nat :: i + 1 < |c| ==> LinkedAt(rows, c, i))
    && rows[c[|c| - 1]].replacedBy.None?
  }

  ghost predicate Linear(rows: Rows) {
    exists c :: Chain(rows, c)
  }

  ghost predicate UniqueHashes(tokens: Rows) {
    forall i, j :: i in tokens && j in tokens && tokens[i].tokenHash == tokens[j].tokenHash ==> i == j
  }

  ghost predicate Lifetimes(tokens: Rows, life: int) {
    forall j :: j in tokens ==> tokens[j].expiresAt == tokens[j].createdAt + life
  }

  ghost predicate LinearFamilies(tokens: Rows) {
    forall j :: j in tokens ==> Linear(RowsOf(tokens, tokens[j].familyId))
  }

  /** What every call keeps. */
  ghost predicate Inv(tokens: Rows, life: int) {
    UniqueHashes(tokens) && Lifetimes(tokens, life) && LinearFamilies(tokens)
  }

  ghost function Last(c: seq<Jti>): Jti
    requires |c| > 0
  {
    c[|c| - 1]
  }

  /** Exactly the last row has no successor. */
  lemma TailIsUnreplaced(rows: Rows, c: seq<Jti>, i: nat)
    requires Chain(rows, c) && i < |c|
    ensures c[i] in rows && (rows[c[i]].replacedBy.None? <==> i == |c| - 1)
  {
    if i + 1 < |c| {
      assert LinkedAt(rows, c, i);
    }
  }

  lemma HeadHasNoPredecessor(rows: Rows, c: seq<Jti>, j: Jti)
    requires Chain(rows, c) && j in rows
    ensures rows[j].replacedBy != Some(c[0])
  {
    var k :| 0 <= k < |c| && c[k] == j;
    if k + 1 < |c| {
      assert LinkedAt(rows, c, k);
    }
  }

  /** A chain is determined by its rows: there is one head and one order. */
  lemma ChainUnique(rows: Rows, c: seq<Jti>, d: seq<Jti>)
    requires Chain(rows, c) && Chain(rows, d)
    ensures c == d
  {
    SameHead(rows, c, d);
    var k := if |c| < |d| then |c| else |d|;
    SamePrefix(rows, c, d, k);
    assert c[k - 1] == c[..k][k - 1] == d[..k][k - 1] == d[k - 1];
    TailIsUnreplaced(rows, c, k - 1);
    TailIsUnreplaced(rows, d, k - 1);
    assert |c| == |d| == k;
  }

  lemma SameHead(rows: Rows, c: seq<Jti>, d: seq<Jti>)
    requires Chain(rows, c) && Chain(rows, d)
    ensures c[0] == d[0]
  {
    assert d[0] in c;
    var i :| 0 <= i < |c| && c[i] == d[0];
    if i > 0 {
      assert LinkedAt(rows, c, i - 1);
      HeadHasNoPredecessor(rows, d, c[i - 1]);
    }
  }

  lemma {:induction false} SamePrefix(rows: Rows, c: seq<Jti>, d: seq<Jti>, k: nat)
    requires Chain(rows, c) && Chain(rows, d) && c[0] == d[0]
    requires k <= |c| && k <= |d|
    ensures c[..k] == d[..k]
  {
    if k > 1 {
      SamePrefix(rows, c, d, k - 1);
      assert c[k - 2] == c[..k - 1][k - 2] == d[..k - 1][k - 2] == d[k - 2];
      assert LinkedAt(rows, c, k - 2) && LinkedAt(rows, d, k - 2);
      assert c[..k] == c[..k - 1] + [c[k - 1]];
      assert d[..k] == d[..k - 1] + [d[k - 1]];
    }
  }

  /** Every row but the last is revoked and replaced; so at most one row of a family is live. */
  lemma OnlyTailLive(rows: Rows, c: seq<Jti>, j: Jti)
    requires Chain(rows, c) && j in rows
    ensures Live(rows[j]) || rows[j].replacedBy.None? ==> j == Last(c)
  {
    var i :| 0 <= i < |c| && c[i] == j;
    if i + 1 < |c| {
      assert LinkedAt(rows, c, i);
    }
  }

  /** A family has one user. */
  lemma {:induction false} ChainUser(rows: Rows, c: seq<Jti>, i: nat)
    requires Chain(rows, c) && i < |c|
    ensures c[i] in rows && rows[c[i]].userId == rows[c[0]].userId
  {
    if i > 0 {
      ChainUser(rows, c, i - 1);
      assert LinkedAt(rows, c, i - 1);
    }
  }

  lemma FamilyUser(rows: Rows, c: seq<Jti>, j: Jti)
    requires Chain(rows, c) && j in rows
    ensures rows[j].userId == rows[Last(c)].userId
  {
    var i :| 0 <= i < |c| && c[i] == j;
    ChainUser(rows, c, i);
    ChainUser(rows, c, |c| - 1);
  }

  /** A stored second is the nearest one to the clock's microsecond, the later of two equally near. */
  lemma NearestSecond(t: Time, s: Second)
    ensures Instant(s) == 1000000 * s
    ensures -1000000 < 2 * (1000000 * ToSecond(t) - t) <= 1000000
    ensures -1000000 < 2 * (1000000 * s - t) <= 1000000 <==> s == ToSecond(t)
  {
  }

  /** Of a token that has not expired on the clock, the column shows an earlier second up to half a second before expiry. */
  lemma StoredBefore(now: Time, expiry: Second)
    requires now < 1000000 * expiry
    ensures ToSecond(now) <= expiry
    ensures ToSecond(now) < expiry <==> now < 1000000 * expiry - 500000
  {
  }

  /** A lifetime is whole seconds, so rounding moves a row's two times together, by at most half a second. */
  lemma StoredLifetime(now: Time, life: int)
    ensures ToSecond(now + life * 1000000) == ToSecond(now) + life
    ensures -500000 < 1000000 * ToSecond(now + life * 1000000) - (now + life * 1000000) <= 500000
  {
  }

  /** The i-th rotation was stored at an earlier second than the one its predecessor expired at. */
  ghost predicate StoredEarly(rows: Rows, c: seq<Jti>, i: int) {
    1 <= i < |c| && c[i] in rows && c[i - 1] in rows && rows[c[i]].createdAt < rows[c[i - 1]].expiresAt
  }

  /**
   * The k-th rotation of a family is stored no later than its first issue plus k lifetimes, and
   * earlier exactly when one of the first k rotations was stored early.
   */
  lemma {:induction false} RotationDeadline(rows: Rows, c: seq<Jti>, life: int, k: nat)
    requires Chain(rows, c) && Lifetimes(rows, life)
    requires k < |c|
    ensures c[0] in rows && c[k] in rows
    ensures rows[c[k]].createdAt <= rows[c[0]].createdAt + k * life
    ensures rows[c[k]].createdAt < rows[c[0]].createdAt + k * life <==> exists i :: i <= k && StoredEarly(rows, c, i)
  {
    if k > 0 {
      assert LinkedAt(rows, c, k - 1);
      RotationDeadline(rows, c, life, k - 1);
      assert k * life == (k - 1) * life + life;
      assert StoredEarly(rows, c, k) <==> rows[c[k]].createdAt < rows[c[k - 1]].expiresAt;
      assert (exists i :: i <= k && StoredEarly(rows, c, i))
        <==> (exists i :: i <= k - 1 && StoredEarly(rows, c, i)) || StoredEarly(rows, c, k);
    }
  }

  ghost predicate RowRevoked(r: TokenRow, r': TokenRow) {
    r' == r || (Live(r) && r'.revokedAt.Some? && r' == r.(revokedAt := r'.revokedAt))
  }

  /** `tokens'` differs from `tokens` only in live rows that became revoked. */
  ghost predicate OnlyRevokes(tokens: Rows, tokens': Rows) {
    && tokens'.Keys == tokens.Keys
    && forall j :: j in tokens ==> RowRevoked(tokens[j], tokens'[j])
  }

  lemma ChainSurvivesRevocation(rows: Rows, rows': Rows, c: seq<Jti>)
    requires Chain(rows, c) && OnlyRevokes(rows, rows')
    ensures Chain(rows', c)
  {
    forall i: nat | i + 1 < |c|
      ensures LinkedAt(rows', c, i)
    {
      assert LinkedAt(rows, c, i);
    }
    assert Last(c) in rows;
  }

  lemma RevocationPerFamily(tokens: Rows, tokens': Rows, f: FamilyId)
    requires OnlyRevokes(tokens, tokens')
    ensures OnlyRevokes(RowsOf(tokens, f), RowsOf(tokens', f))
  {
    var a, b := RowsOf(tokens, f), RowsOf(tokens', f);
    forall j
      ensures j in a <==> j in b
    {
      assert j in tokens <==> j in tokens';
    }
  }

  lemma RevocationKeepsColumns(tokens: Rows, tokens': Rows, life: int)
    requires UniqueHashes(tokens) && Lifetimes(tokens, life) && OnlyRevokes(tokens, tokens')
    ensures UniqueHashes(tokens') && Lifetimes(tokens', life)
  {
    forall i, j | i in tokens' && j in tokens' && tokens'[i].tokenHash == tokens'[j].tokenHash
      ensures i == j
    {
      assert RowRevoked(tokens[i], tokens'[i]) && RowRevoked(tokens[j], tokens'[j]);
    }
    forall j | j in tokens'
      ensures tokens'[j].expiresAt == tokens'[j].createdAt + life
    {
      assert RowRevoked(tokens[j], tokens'[j]);
    }
  }

  lemma RevocationKeepsLinear(tokens: Rows, tokens': Rows, f: FamilyId)
    requires OnlyRevokes(tokens, tokens') && Linear(RowsOf(tokens, f))
    ensures Linear(RowsOf(tokens', f))
  {
    var c :| Chain(RowsOf(tokens, f), c);
    RevocationPerFamily(tokens, tokens', f);
    ChainSurvivesRevocation(RowsOf(tokens, f), RowsOf(tokens', f), c);
  }

  lemma RevocationKeepsInv(tokens: Rows, tokens': Rows, life: int)
    requires Inv(tokens, life) && OnlyRevokes(tokens, tokens')
    ensures Inv(tokens', life)
  {
    RevocationKeepsColumns(tokens, tokens', life);
    forall j | j in tokens'
      ensures Linear(RowsOf(tokens', tokens'[j].familyId))
    {
      assert RowRevoked(tokens[j], tokens'[j]);
      RevocationKeepsLinear(tokens, tokens', tokens[j].familyId);
    }
  }

  /** The chain of a family that rotates its live tail grows by the successor. */
  lemma ChainGrows(rows: Rows, c: seq<Jti>, minted: Minted, now: Time, life: int)
    requires Chain(rows, c) && minted.jti !in rows
    requires Live(rows[Last(c)]) && now < Instant(rows[Last(c)].expiresAt)
    ensures Chain(Rotate(rows, Last(c), minted, now, life), c + [minted.jti])
  {
    var rows' := Rotate(rows, Last(c), minted, now, life);
    var d := c + [minted.jti];
    forall i: nat | i + 1 < |d|
      ensures LinkedAt(rows', d, i)
    {
      if i + 1 < |c| {
        assert LinkedAt(rows, c, i);
        assert c[i] != Last(c);
      } else {
        assert d[i] == Last(c) && d[i + 1] == minted.jti;
      }
    }
    forall j
      ensures j in rows' <==> j in d
    {
      assert j in d <==> j in c || j == minted.jti;
    }
  }

  lemma RowsOfRotate(tokens: Rows, jti: Jti, minted: Minted, now: Time, life: int, f: FamilyId)
    requires jti in tokens && minted.jti !in tokens
    ensures RowsOf(Rotate(tokens, jti, minted, now, life), f)
         == if f == tokens[jti].familyId then Rotate(RowsOf(tokens, f), jti, minted, now, life) else RowsOf(tokens, f)
  {
  }

  lemma RowsOfIssue(tokens: Rows, jti: Jti, row: TokenRow, f: FamilyId)
    requires jti !in tokens
    ensures RowsOf(tokens[jti := row], f)
         == if f == row.familyId then RowsOf(tokens, f)[jti := row] else RowsOf(tokens, f)
  {
  }

  lemma SingletonChain(jti: Jti, row: TokenRow)
    requires row.replacedBy.None?
    ensures Chain(map[jti := row], [jti])
  {
  }

  lemma RotationKeepsLinear(tokens: Rows, jti: Jti, minted: Minted, now: Time, life: int, f: FamilyId)
    requires minted.jti !in tokens && Linear(RowsOf(tokens, f))
    requires jti in tokens && Live(tokens[jti]) && now < Instant(tokens[jti].expiresAt)
    ensures Linear(RowsOf(Rotate(tokens, jti, minted, now, life), f))
  {
    RowsOfRotate(tokens, jti, minted, now, life, f);
    if f == tokens[jti].familyId {
      var c :| Chain(RowsOf(tokens, f), c);
      OnlyTailLive(RowsOf(tokens, f), c, jti);
      ChainGrows(RowsOf(tokens, f), c, minted, now, life);
    }
  }

  lemma RotationKeepsColumns(tokens: Rows, jti: Jti, minted: Minted, now: Time, life: int)
    requires UniqueHashes(tokens) && Lifetimes(tokens, life) && FreshToken(tokens, minted) && jti in tokens
    ensures UniqueHashes(Rotate(tokens, jti, minted, now, life))
    ensures Lifetimes(Rotate(tokens, jti, minted, now, life), life)
  {
  }

  lemma RotationKeepsInv(tokens: Rows, jti: Jti, minted: Minted, now: Time, life: int)
    requires Inv(tokens, life) && FreshToken(tokens, minted)
    requires jti in tokens && Live(tokens[jti]) && now < Instant(tokens[jti].expiresAt)
    ensures Inv(Rotate(tokens, jti, minted, now, life), life)
  {
    var tokens' := Rotate(tokens, jti, minted, now, life);
    RotationKeepsColumns(tokens, jti, minted, now, life);
    forall j | j in tokens'
      ensures Linear(RowsOf(tokens', tokens'[j].familyId))
    {
      var i := if j == minted.jti then jti else j;
      assert i in tokens && tokens[i].familyId == tokens'[j].familyId;
      RotationKeepsLinear(tokens, jti, minted, now, life, tokens[i].familyId);
    }
  }

  lemma IssueKeepsInv(tokens: Rows, minted: Minted, row: TokenRow, life: int)
    requires Inv(tokens, life) && FreshToken(tokens, minted) && FreshFamily(tokens, row.familyId)
    requires row.tokenHash == Sha256(minted.raw) && row.expiresAt == row.createdAt + life && row.replacedBy.None?
    ensures Inv(tokens[minted.jti := row], life)
  {
    var tokens' := tokens[minted.jti := row];
    forall j | j in tokens'
      ensures Linear(RowsOf(tokens', tokens'[j].familyId))
    {
      var f := tokens'[j].familyId;
      RowsOfIssue(tokens, minted.jti, row, f);
      if f == row.familyId {
        assert RowsOf(tokens, f) == map[];
        SingletonChain(minted.jti, row);
        assert RowsOf(tokens', f) == map[minted.jti := row];
        assert Chain(RowsOf(tokens', f), [minted.jti]);
      } else {
        assert j in tokens && tokens[j].familyId == f;
      }
    }
  }

  /** How a call touches the token table: it revokes, rotates one live row, or issues one row. */
  ghost predicate Rotates(db: Db, call: Call, life: int, jti: Jti) {
    && call.Refresh?
    && Find(db.tokens, call.raw) == Some(jti)
    && jti in db.tokens && Live(db.tokens[jti]) && call.now < Instant(db.tokens[jti].expiresAt)
    && db.tokens[jti].userId in db.users
  }

  ghost predicate OpensFamily(db: Db, call: Call) {
    || (call.Register? && FindUser(db.users, call.email).None?)
    || (call.Login? && FindUser(db.users, call.email).Some? && call.passwordOk)
  }

  ghost function Opener(db: Db, call: Call): UserId
    requires OpensFamily(db, call)
  {
    if call.Register? then call.newUser else FindUser(db.users, call.email).value
  }

  lemma CallEffect(db: Db, call: Call, life: int)
    ensures var r := Next(db, call, life);
            if OpensFamily(db, call) then
              && r.outcome.Issued? && r.outcome.userId == Opener(db, call)
              && r.db.tokens == db.tokens[call.minted.jti :=
                   NewRow(Opener(db, call), call.minted, call.newFamily, call.now, life)]
            else if exists jti :: Rotates(db, call, life, jti) then
              exists jti :: && Rotates(db, call, life, jti)
                            && r.outcome.Issued? && r.outcome.userId == db.tokens[jti].userId
                            && r.outcome.refreshToken == call.minted.raw
                            && r.db == db.(tokens := Rotate(db.tokens, jti, call.minted, call.now, life))
            else
              !r.outcome.Issued? && OnlyRevokes(db.tokens, r.db.tokens)
  {
    if call.Refresh? {
      var found := Find(db.tokens, call.raw);
      if found.Some? && Live(db.tokens[found.value]) && call.now < Instant(db.tokens[found.value].expiresAt)
         && db.tokens[found.value].userId in db.users {
        assert Rotates(db, call, life, found.value);
      }
    }
  }

  /** The invariant is inductive. */
  lemma NextKeepsInv(db: Db, call: Call, life: int)
    requires Inv(db.tokens, life) && Fresh(db, call)
    ensures Inv(Next(db, call, life).db.tokens, life)
  {
    CallEffect(db, call, life);
    if OpensFamily(db, call) {
      IssueKeepsInv(db.tokens, call.minted, NewRow(Opener(db, call), call.minted, call.newFamily, call.now, life), life);
    } else if exists jti :: Rotates(db, call, life, jti) {
      var jti :| Rotates(db, call, life, jti);
      RotationKeepsInv(db.tokens, jti, call.minted, call.now, life);
    } else {
      RevocationKeepsInv(db.tokens, Next(db, call, life).db.tokens, life);
    }
  }

  /** What a call does to the chain of an existing family: a rotation in it appends, nothing else changes it. */
  lemma ChainStep(db: Db, call: Call, life: int, f: FamilyId, c: seq<Jti>)
    requires Inv(db.tokens, life) && Fresh(db, call) && Chain(RowsOf(db.tokens, f), c)
    ensures var tokens' := Next(db, call, life).db.tokens;
            var rotated := exists jti :: Rotates(db, call, life, jti) && db.tokens[jti].familyId == f;
            && Chain(RowsOf(tokens', f), if rotated then c + [call.minted.jti] else c)
            && (rotated ==> Rotates(db, call, life, Last(c)))
  {
    CallEffect(db, call, life);
    var tokens' := Next(db, call, life).db.tokens;
    assert Last(c) in RowsOf(db.tokens, f);
    if OpensFamily(db, call) {
      RowsOfIssue(db.tokens, call.minted.jti, tokens'[call.minted.jti], f);
    } else if exists jti :: Rotates(db, call, life, jti) {
      var jti :| Rotates(db, call, life, jti);
      RowsOfRotate(db.tokens, jti, call.minted, call.now, life, f);
      if db.tokens[jti].familyId == f {
        OnlyTailLive(RowsOf(db.tokens, f), c, jti);
        ChainGrows(RowsOf(db.tokens, f), c, call.minted, call.now, life);
      }
    } else {
      RevocationPerFamily(db.tokens, tokens', f);
      ChainSurvivesRevocation(RowsOf(db.tokens, f), RowsOf(tokens', f), c);
    }
  }

  /** A family starts as a single row, and only a register or a login starts one. */
  lemma FamilyStart(db: Db, call: Call, life: int, f: FamilyId)
    requires Inv(db.tokens, life) && Fresh(db, call) && RowsOf(db.tokens, f) == map[]
    ensures var rows' := RowsOf(Next(db, call, life).db.tokens, f);
            if OpensFamily(db, call) && call.newFamily == f then
              Chain(rows', [call.minted.jti]) && rows'[call.minted.jti].userId == Opener(db, call)
            else
              rows' == map[]
  {
    CallEffect(db, call, life);
    var tokens' := Next(db, call, life).db.tokens;
    forall j | j in db.tokens
      ensures db.tokens[j].familyId != f
    {
      assert j !in RowsOf(db.tokens, f);
    }
    if OpensFamily(db, call) {
      RowsOfIssue(db.tokens, call.minted.jti, tokens'[call.minted.jti], f);
      if call.newFamily == f {
        SingletonChain(call.minted.jti, tokens'[call.minted.jti]);
        assert RowsOf(tokens', f) == map[call.minted.jti := tokens'[call.minted.jti]];
      }
    } else if exists jti :: Rotates(db, call, life, jti) {
      var jti :| Rotates(db, call, life, jti);
      RowsOfRotate(db.tokens, jti, call.minted, call.now, life, f);
    } else {
      RevocationPerFamily(db.tokens, tokens', f);
    }
  }
}
