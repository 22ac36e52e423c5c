/** Serial runs of `AuthService` calls, and what holds over every one of them. */
module TokenRuns {
  import opened Wrappers
  import opened TokenTable
  import opened TokenFamilies

  const EMPTY := Db(map[], map[])

  /** The tables after a run. */
  ghost function After(db: Db, calls: seq<Call>, life: int): Db
    decreases |calls|
  {
    if calls == [] then db else After(Next(db, calls[0], life).db, calls[1..], life)
  }

  /** What the callers of a run were told. */
  ghost function Outcomes(db: Db, calls: seq<Call>, life: int): (out: seq<Outcome>)
    ensures |out| == |calls|
    decreases |calls|
  {
    if calls == [] then [] else
      var r := Next(db, calls[0], life);
      [r.outcome] + Outcomes(r.db, calls[1..], life)
  }

  /** No call of the run draws a uuid or a raw token twice. */
  ghost predicate Admissible(db: Db, calls: seq<Call>, life: int)
    decreases |calls|
  {
    calls != [] ==> Fresh(db, calls[0]) && Admissible(Next(db, calls[0], life).db, calls[1..], life)
  }

  lemma OutcomeTail(db: Db, calls: seq<Call>, life: int, i: nat)
    requires 0 < i < |calls|
    ensures calls[1..][i - 1] == calls[i]
    ensures Outcomes(Next(db, calls[0], life).db, calls[1..], life)[i - 1] == Outcomes(db, calls, life)[i]
  {
  }

  lemma {:induction false} RunKeepsInv(db: Db, calls: seq<Call>, life: int)
    requires Inv(db.tokens, life) && Admissible(db, calls, life)
    ensures Inv(After(db, calls, life).tokens, life)
    decreases |calls|
  {
    if calls != [] {
      NextKeepsInv(db, calls[0], life);
      RunKeepsInv(Next(db, calls[0], life).db, calls[1..], life);
    }
  }

  // ---------------------------------------------------------------- write-once columns

  /** A row keeps its identity columns, and nothing of it changes once it is revoked. */
  ghost predicate RowEvolves(r: TokenRow, r': TokenRow) {
    && r'.(revokedAt := r.revokedAt, replacedBy := r.replacedBy) == r
    && (r.revokedAt.Some? ==> r' == r)
  }

  /** No row disappears. */
  ghost predicate Evolves(tokens: Rows, tokens': Rows) {
    forall j :: j in tokens ==> j in tokens' && RowEvolves(tokens[j], tokens'[j])
  }

  lemma NextEvolves(db: Db, call: Call, life: int)
    requires Fresh(db, call)
    ensures Evolves(db.tokens, Next(db, call, life).db.tokens)
  {
    CallEffect(db, call, life);
    var tokens' := Next(db, call, life).db.tokens;
    if !OpensFamily(db, call) && !exists jti :: Rotates(db, call, life, jti) {
      forall j | j in db.tokens
        ensures j in tokens' && RowEvolves(db.tokens[j], tokens'[j])
      {
        assert RowRevoked(db.tokens[j], tokens'[j]);
      }
    }
  }

  lemma {:induction false} RunEvolves(db: Db, calls: seq<Call>, life: int)
    requires Admissible(db, calls, life)
    ensures Evolves(db.tokens, After(db, calls, life).tokens)
    decreases |calls|
  {
    if calls != [] {
      var db' := Next(db, calls[0], life).db;
      NextEvolves(db, calls[0], life);
      RunEvolves(db', calls[1..], life);
      forall j | j in db.tokens
        ensures RowEvolves(db.tokens[j], After(db, calls, life).tokens[j])
      {
        assert RowEvolves(db.tokens[j], db'.tokens[j]);
        assert RowEvolves(db'.tokens[j], After(db', calls[1..], life).tokens[j]);
      }
    }
  }

  /** `revoked_at` and `replaced_by_jti`, once set, keep their value for the rest of the run. */
  lemma WriteOnce(db: Db, calls: seq<Call>, life: int, j: Jti)
    requires Inv(db.tokens, life) && Admissible(db, calls, life) && j in db.tokens
    ensures var tokens' := After(db, calls, life).tokens;
            && j in tokens'
            && (db.tokens[j].revokedAt.Some? ==> tokens'[j].revokedAt == db.tokens[j].revokedAt)
            && (db.tokens[j].replacedBy.Some? ==> tokens'[j].replacedBy == db.tokens[j].replacedBy)
  {
    RunEvolves(db, calls, life);
    var rows := RowsOf(db.tokens, db.tokens[j].familyId);
    assert Linear(rows);
    var c :| Chain(rows, c);
    OnlyTailLive(rows, c, j);
    assert RowEvolves(db.tokens[j], After(db, calls, life).tokens[j]);
  }

  // ---------------------------------------------------------------- reuse detection

  ghost predicate Dead(tokens: Rows, f: FamilyId) {
    forall j :: j in tokens && tokens[j].familyId == f ==> !Live(tokens[j])
  }

  ghost predicate Known(tokens: Rows, f: FamilyId) {
    exists j :: j in tokens && tokens[j].familyId == f
  }

  lemma FindUnique(tokens: Rows, raw: string, j: Jti)
    requires UniqueHashes(tokens) && Holds(tokens, raw, j)
    ensures Find(tokens, raw) == Some(j)
  {
    assert Holds(tokens, raw, Find(tokens, raw).value);
  }

  /** Presenting a revoked token kills its family and nothing else. */
  lemma ReuseKillsFamily(db: Db, raw: string, minted: Minted, now: Time, life: int, j: Jti)
    requires UniqueHashes(db.tokens) && Holds(db.tokens, raw, j) && !Live(db.tokens[j])
    ensures var f := db.tokens[j].familyId;
            var r := Next(db, Refresh(raw, minted, now), life);
            && r.outcome == Rejected(InvalidRefreshToken)
            && Dead(r.db.tokens, f) && Known(r.db.tokens, f)
            && r.db.users == db.users
            && (forall g :: g != f ==> RowsOf(r.db.tokens, g) == RowsOf(db.tokens, g))
  {
    FindUnique(db.tokens, raw, j);
    var f := db.tokens[j].familyId;
    var r := Next(db, Refresh(raw, minted, now), life);
    assert r.db.tokens == RevokeFamily(db.tokens, f, now);
    assert j in r.db.tokens && r.db.tokens[j].familyId == f;
  }

  lemma DeadStep(db: Db, call: Call, life: int, f: FamilyId)
    requires Fresh(db, call) && Known(db.tokens, f) && Dead(db.tokens, f)
    ensures RowsOf(Next(db, call, life).db.tokens, f) == RowsOf(db.tokens, f)
    ensures Known(Next(db, call, life).db.tokens, f) && Dead(Next(db, call, life).db.tokens, f)
  {
    CallEffect(db, call, life);
    var tokens' := Next(db, call, life).db.tokens;
    var w :| w in db.tokens && db.tokens[w].familyId == f;
    NextEvolves(db, call, life);
    assert RowEvolves(db.tokens[w], tokens'[w]);
    if OpensFamily(db, call) {
      RowsOfIssue(db.tokens, call.minted.jti, tokens'[call.minted.jti], f);
    } else if exists jti :: Rotates(db, call, life, jti) {
      var jti :| Rotates(db, call, life, jti);
      RowsOfRotate(db.tokens, jti, call.minted, call.now, life, f);
    } else {
      RevocationPerFamily(db.tokens, tokens', f);
      forall j | j in RowsOf(db.tokens, f)
        ensures RowsOf(tokens', f)[j] == RowsOf(db.tokens, f)[j]
      {
        assert RowRevoked(db.tokens[j], tokens'[j]);
      }
    }
    forall j | j in tokens' && tokens'[j].familyId == f
      ensures !Live(tokens'[j])
    {
      assert j in RowsOf(tokens', f);
    }
  }

  /** The call presents a refresh token of the family. */
  ghost predicate Presents(call: Call, rows: Rows) {
    call.Refresh? && exists j :: Holds(rows, call.raw, j)
  }

  lemma DeadRefresh(db: Db, call: Call, life: int, f: FamilyId)
    requires Dead(db.tokens, f) && UniqueHashes(db.tokens)
    requires Presents(call, RowsOf(db.tokens, f))
    ensures Next(db, call, life).outcome == Rejected(InvalidRefreshToken)
  {
    var j :| Holds(RowsOf(db.tokens, f), call.raw, j);
    assert Holds(db.tokens, call.raw, j);
    FindUnique(db.tokens, call.raw, j);
  }

  /** A dead family is never changed again, and none of its tokens ever refreshes. */
  lemma {:induction false} DeadStaysDead(db: Db, calls: seq<Call>, life: int, f: FamilyId)
    requires Inv(db.tokens, life) && Admissible(db, calls, life)
    requires Known(db.tokens, f) && Dead(db.tokens, f)
    ensures RowsOf(After(db, calls, life).tokens, f) == RowsOf(db.tokens, f)
    ensures forall i :: 0 <= i < |calls| && Presents(calls[i], RowsOf(db.tokens, f))
                        ==> Outcomes(db, calls, life)[i] == Rejected(InvalidRefreshToken)
    decreases |calls|
  {
    if calls != [] {
      DeadStep(db, calls[0], life, f);
      NextKeepsInv(db, calls[0], life);
      DeadStaysDead(Next(db, calls[0], life).db, calls[1..], life, f);
      forall i | 0 <= i < |calls| && Presents(calls[i], RowsOf(db.tokens, f))
        ensures Outcomes(db, calls, life)[i] == Rejected(InvalidRefreshToken)
      {
        if i == 0 {
          DeadRefresh(db, calls[0], life, f);
        } else {
          OutcomeTail(db, calls, life, i);
        }
      }
    }
  }

  lemma RevokeFamilyRows(tokens: Rows, f: FamilyId, now: Time)
    ensures RowsOf(RevokeFamily(tokens, f, now), f).Keys == RowsOf(tokens, f).Keys
    ensures forall call: Call :: Presents(call, RowsOf(tokens, f)) ==> Presents(call, RowsOf(RevokeFamily(tokens, f, now), f))
  {
    var rows, rows' := RowsOf(tokens, f), RowsOf(RevokeFamily(tokens, f, now), f);
    assert rows.Keys == rows'.Keys;
    forall call: Call | Presents(call, rows)
      ensures Presents(call, rows')
    {
      var j :| Holds(rows, call.raw, j);
      assert Holds(rows', call.raw, j);
    }
  }

  lemma InvHashes(tokens: Rows, life: int)
    requires Inv(tokens, life)
    ensures UniqueHashes(tokens)
  {
  }

  /** After the reuse of a revoked token, in every continuation: no row joins the family, no token of it refreshes. */
  lemma ReuseIsFinal(db: Db, reuse: Call, calls: seq<Call>, life: int, j: Jti)
    requires Inv(db.tokens, life) && reuse.Refresh? && Fresh(db, reuse)
    requires Admissible(Next(db, reuse, life).db, calls, life)
    requires Holds(db.tokens, reuse.raw, j) && !Live(db.tokens[j])
    ensures var f := db.tokens[j].familyId;
            var db1 := Next(db, reuse, life).db;
            var rows, rows' := RowsOf(db.tokens, f), RowsOf(After(db1, calls, life).tokens, f);
            && Next(db, reuse, life).outcome == Rejected(InvalidRefreshToken)
            && rows'.Keys == rows.Keys
            && (forall k :: k in rows' ==> !Live(rows'[k]))
            && forall i :: 0 <= i < |calls| && Presents(calls[i], rows)
                           ==> Outcomes(db1, calls, life)[i] == Rejected(InvalidRefreshToken)
  {
    hide Inv, Chain;
    var f := db.tokens[j].familyId;
    var db1 := Next(db, reuse, life).db;
    InvHashes(db.tokens, life);
    FindUnique(db.tokens, reuse.raw, j);
    ReuseKillsFamily(db, reuse.raw, reuse.minted, reuse.now, life, j);
    RevokeFamilyRows(db.tokens, f, reuse.now);
    NextKeepsInv(db, reuse, life);
    DeadStaysDead(db1, calls, life, f);
  }

  // ---------------------------------------------------------------- at most one rotation per token

  lemma SpentStep(db: Db, call: Call, life: int, raw: string, j: Jti)
    requires UniqueHashes(db.tokens) && Fresh(db, call)
    requires Holds(db.tokens, raw, j) && !Live(db.tokens[j])
    ensures Holds(Next(db, call, life).db.tokens, raw, j) && !Live(Next(db, call, life).db.tokens[j])
    ensures call.Refresh? && call.raw == raw ==> !Next(db, call, life).outcome.Issued?
  {
    FindUnique(db.tokens, raw, j);
    NextEvolves(db, call, life);
    assert RowEvolves(db.tokens[j], Next(db, call, life).db.tokens[j]);
  }

  lemma {:induction false} SpentNeverRotates(db: Db, calls: seq<Call>, life: int, raw: string, j: Jti)
    requires Inv(db.tokens, life) && Admissible(db, calls, life)
    requires Holds(db.tokens, raw, j) && !Live(db.tokens[j])
    ensures forall i :: 0 <= i < |calls| && calls[i].Refresh? && calls[i].raw == raw
                        ==> !Outcomes(db, calls, life)[i].Issued?
    decreases |calls|
  {
    if calls != [] {
      var db' := Next(db, calls[0], life).db;
      SpentStep(db, calls[0], life, raw, j);
      NextKeepsInv(db, calls[0], life);
      SpentNeverRotates(db', calls[1..], life, raw, j);
      forall i | 0 <= i < |calls| && calls[i].Refresh? && calls[i].raw == raw
        ensures !Outcomes(db, calls, life)[i].Issued?
      {
        if i > 0 {
          OutcomeTail(db, calls, life, i);
        }
      }
    }
  }

  ghost predicate RotatedAt(db: Db, calls: seq<Call>, life: int, raw: string, i: nat)
    requires i < |calls|
  {
    calls[i].Refresh? && calls[i].raw == raw && Outcomes(db, calls, life)[i].Issued?
  }

  lemma {:induction false} NoSecondRotation(db: Db, calls: seq<Call>, life: int, raw: string, i: nat, k: nat)
    requires Inv(db.tokens, life) && Admissible(db, calls, life)
    requires i < k < |calls|
    requires RotatedAt(db, calls, life, raw, i)
    ensures !RotatedAt(db, calls, life, raw, k)
    decreases |calls|
  {
    var db' := Next(db, calls[0], life).db;
    NextKeepsInv(db, calls[0], life);
    OutcomeTail(db, calls, life, k);
    if i > 0 {
      OutcomeTail(db, calls, life, i);
      NoSecondRotation(db', calls[1..], life, raw, i - 1, k - 1);
    } else {
      var j := RotationSpends(db, calls[0], life);
      SpentNeverRotates(db', calls[1..], life, raw, j);
    }
  }

  lemma RotationSpends(db: Db, call: Call, life: int) returns (j: Jti)
    requires call.Refresh? && Next(db, call, life).outcome.Issued? && Fresh(db, call)
    ensures Holds(Next(db, call, life).db.tokens, call.raw, j) && !Live(Next(db, call, life).db.tokens[j])
  {
    CallEffect(db, call, life);
    j :| Rotates(db, call, life, j);
  }

  /** Over any run a raw refresh token rotates successfully at most once. */
  lemma RotatesAtMostOnce(db: Db, calls: seq<Call>, life: int, raw: string, i: nat, k: nat)
    requires Inv(db.tokens, life) && Admissible(db, calls, life)
    requires i < |calls| && k < |calls|
    requires RotatedAt(db, calls, life, raw, i) && RotatedAt(db, calls, life, raw, k)
    ensures i == k
  {
    if i < k {
      NoSecondRotation(db, calls, life, raw, i, k);
    } else if k < i {
      NoSecondRotation(db, calls, life, raw, k, i);
    }
  }

  // ---------------------------------------------------------------- row counts

  ghost function IssuedCount(out: seq<Outcome>): nat {
    if out == [] then 0 else (if out[0].Issued? then 1 else 0) + IssuedCount(out[1..])
  }

  /** Successful registers and logins. */
  ghost function OpenedCount(calls: seq<Call>, out: seq<Outcome>): nat
    requires |calls| == |out|
  {
    if calls == [] then 0 else
      (if out[0].Issued? && !calls[0].Refresh? then 1 else 0) + OpenedCount(calls[1..], out[1..])
  }

  lemma RevocationCounts(tokens: Rows, tokens': Rows)
    requires OnlyRevokes(tokens, tokens')
    ensures |tokens'| == |tokens| && |LiveRows(tokens')| <= |LiveRows(tokens)|
  {
    forall j | j in LiveRows(tokens')
      ensures j in LiveRows(tokens)
    {
      assert RowRevoked(tokens[j], tokens'[j]);
    }
    SubsetCount(LiveRows(tokens'), LiveRows(tokens));
    assert |tokens'| == |tokens'.Keys| == |tokens.Keys| == |tokens|;
  }

  lemma SubsetCount<T>(a: set<T>, b: set<T>)
    requires a <= b
    ensures |a| <= |b|
  {
    assert b == a + (b - a);
  }

  lemma IssueCounts(tokens: Rows, jti: Jti, row: TokenRow)
    requires jti !in tokens && Live(row)
    ensures |tokens[jti := row]| == |tokens| + 1
    ensures |LiveRows(tokens[jti := row])| == |LiveRows(tokens)| + 1
  {
    assert LiveRows(tokens[jti := row]) == LiveRows(tokens) + {jti};
  }

  lemma RotationCounts(tokens: Rows, jti: Jti, minted: Minted, now: Time, life: int)
    requires jti in tokens && Live(tokens[jti]) && minted.jti !in tokens
    ensures |Rotate(tokens, jti, minted, now, life)| == |tokens| + 1
    ensures |LiveRows(Rotate(tokens, jti, minted, now, life))| == |LiveRows(tokens)|
  {
    var mid := tokens[jti := tokens[jti].(revokedAt := Some(ToSecond(now)), replacedBy := Some(minted.jti))];
    assert LiveRows(mid) == LiveRows(tokens) - {jti};
    IssueCounts(mid, minted.jti, Rotate(tokens, jti, minted, now, life)[minted.jti]);
  }

  lemma StepCounts(db: Db, call: Call, life: int)
    requires Fresh(db, call)
    ensures var r := Next(db, call, life);
            && |r.db.tokens| == |db.tokens| + (if r.outcome.Issued? then 1 else 0)
            && |LiveRows(r.db.tokens)| <= |LiveRows(db.tokens)| + (if r.outcome.Issued? && !call.Refresh? then 1 else 0)
  {
    CallEffect(db, call, life);
    var r := Next(db, call, life);
    if OpensFamily(db, call) {
      IssueCounts(db.tokens, call.minted.jti, r.db.tokens[call.minted.jti]);
    } else if exists jti :: Rotates(db, call, life, jti) {
      var jti :| Rotates(db, call, life, jti);
      RotationCounts(db.tokens, jti, call.minted, call.now, life);
    } else {
      RevocationCounts(db.tokens, r.db.tokens);
    }
  }

  /** Rows are issued tokens; live rows never outnumber the sessions opened. */
  lemma {:induction false} RunCounts(db: Db, calls: seq<Call>, life: int)
    requires Admissible(db, calls, life)
    ensures var out := Outcomes(db, calls, life);
            && |After(db, calls, life).tokens| == |db.tokens| + IssuedCount(out)
            && |LiveRows(After(db, calls, life).tokens)| <= |LiveRows(db.tokens)| + OpenedCount(calls, out)
    decreases |calls|
  {
    if calls != [] {
      var r := Next(db, calls[0], life);
      StepCounts(db, calls[0], life);
      RunCounts(r.db, calls[1..], life);
      assert Outcomes(db, calls, life)[1..] == Outcomes(r.db, calls[1..], life);
    }
  }

  // ---------------------------------------------------------------- logout everywhere

  ghost predicate LoggedOut(tokens: Rows, u: UserId) {
    forall j :: j in tokens && tokens[j].userId == u ==> !Live(tokens[j])
  }

  /** `logout_all` revokes every live row of the user and touches no other row. */
  lemma LogoutAllEffect(db: Db, u: UserId, now: Time, life: int)
    ensures var r := Next(db, LogoutAll(u, now), life);
            && r.outcome == Done && LoggedOut(r.db.tokens, u) && r.db.users == db.users
            && r.db.tokens.Keys == db.tokens.Keys
            && (forall j :: j in db.tokens && (db.tokens[j].userId != u || !Live(db.tokens[j]))
                            ==> r.db.tokens[j] == db.tokens[j])
            && (forall j :: j in db.tokens && db.tokens[j].userId == u && Live(db.tokens[j])
                            ==> r.db.tokens[j] == db.tokens[j].(revokedAt := Some(ToSecond(now))))
  {
  }

  ghost predicate IssuedTo(out: Outcome, u: UserId) {
    out.Issued? && out.userId == u
  }

  lemma LoggedOutStep(db: Db, call: Call, life: int, u: UserId)
    requires Fresh(db, call) && LoggedOut(db.tokens, u)
    ensures var r := Next(db, call, life);
            if IssuedTo(r.outcome, u) then !call.Refresh? else LoggedOut(r.db.tokens, u)
  {
    CallEffect(db, call, life);
    var r := Next(db, call, life);
    if !OpensFamily(db, call) && !exists jti :: Rotates(db, call, life, jti) {
      forall j | j in r.db.tokens && r.db.tokens[j].userId == u
        ensures !Live(r.db.tokens[j])
      {
        assert RowRevoked(db.tokens[j], r.db.tokens[j]);
      }
    }
  }

  /** A user with no live token stays without one, and is issued nothing, until they log in again. */
  lemma {:induction false} LoggedOutUntilLogin(db: Db, calls: seq<Call>, life: int, u: UserId)
    requires Admissible(db, calls, life) && LoggedOut(db.tokens, u)
    requires forall i :: 0 <= i < |calls| && IssuedTo(Outcomes(db, calls, life)[i], u) ==> calls[i].Refresh?
    ensures LoggedOut(After(db, calls, life).tokens, u)
    ensures forall i :: 0 <= i < |calls| ==> !IssuedTo(Outcomes(db, calls, life)[i], u)
    decreases |calls|
  {
    if calls != [] {
      var r := Next(db, calls[0], life);
      LoggedOutStep(db, calls[0], life, u);
      assert Outcomes(db, calls, life)[0] == r.outcome;
      forall i | 0 <= i < |calls| - 1 && IssuedTo(Outcomes(r.db, calls[1..], life)[i], u)
        ensures calls[1..][i].Refresh?
      {
        OutcomeTail(db, calls, life, i + 1);
      }
      LoggedOutUntilLogin(r.db, calls[1..], life, u);
      forall i | 0 < i < |calls|
        ensures !IssuedTo(Outcomes(db, calls, life)[i], u)
      {
        OutcomeTail(db, calls, life, i);
      }
    }
  }

  /** After `logout_all(u)`, whatever else happens, u has no live token and gets none until u logs in. */
  lemma LogoutAllHolds(db: Db, u: UserId, now: Time, calls: seq<Call>, life: int)
    requires var db1 := Next(db, LogoutAll(u, now), life).db;
             && Admissible(db1, calls, life)
             && forall i :: 0 <= i < |calls| && IssuedTo(Outcomes(db1, calls, life)[i], u) ==> calls[i].Refresh?
    ensures var db1 := Next(db, LogoutAll(u, now), life).db;
            && LoggedOut(After(db1, calls, life).tokens, u)
            && (forall i :: 0 <= i < |calls| ==> !IssuedTo(Outcomes(db1, calls, life)[i], u))
            && (forall j :: j in db.tokens && db.tokens[j].userId != u ==> db1.tokens[j] == db.tokens[j])
  {
    LogoutAllEffect(db, u, now, life);
    LoggedOutUntilLogin(Next(db, LogoutAll(u, now), life).db, calls, life, u);
  }

  /** From empty tables: one row per successful register, login and refresh; no more live rows than sessions opened. */
  lemma ReachableCounts(calls: seq<Call>, life: int)
    requires Admissible(EMPTY, calls, life)
    ensures var tokens, out := After(EMPTY, calls, life).tokens, Outcomes(EMPTY, calls, life);
            |tokens| == IssuedCount(out) && |LiveRows(tokens)| <= OpenedCount(calls, out)
  {
    RunCounts(EMPTY, calls, life);
    assert LiveRows(EMPTY.tokens) == {};
  }
}
