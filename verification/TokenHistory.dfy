/** Which calls of a run a token family came from. */
module TokenHistory {
  import opened Wrappers
  import opened TokenTable
  import opened TokenFamilies
  import opened TokenRuns

  /** The token a call draws, whether or not it gets to issue it. */
  function Draw(call: Call): Option<Minted> {
    match call
    case Register(_, _, _, minted, _) => Some(minted)
    case Login(_, _, _, minted, _) => Some(minted)
    case Refresh(_, minted, _) => Some(minted)
    case _ => None
  }

  ghost predicate IssuedJti(calls: seq<Call>, out: seq<Outcome>, i: int, j: Jti) {
    0 <= i < |calls| && i < |out| && out[i].Issued? && Draw(calls[i]).Some? && Draw(calls[i]).value.jti == j
  }

  /** Call `i` presented the token that call `h` was answered with. */
  ghost predicate PresentsAnswer(calls: seq<Call>, out: seq<Outcome>, h: nat, i: nat) {
    h < |out| && i < |calls| && calls[i].Refresh? && out[h].Issued? && calls[i].raw == out[h].refreshToken
  }

  ghost predicate Ascending(turns: seq<nat>) {
    forall i, k :: 0 <= i < k < |turns| ==> turns[i] < turns[k]
  }

  ghost predicate IssuedInTurn(calls: seq<Call>, out: seq<Outcome>, c: seq<Jti>, turns: seq<nat>) {
    |turns| == |c| && Ascending(turns) && forall k :: 0 <= k < |c| ==> IssuedJti(calls, out, turns[k], c[k])
  }

  ghost predicate EachPresentsTheLast(calls: seq<Call>, out: seq<Outcome>, turns: seq<nat>) {
    forall k :: 0 < k < |turns| ==> PresentsAnswer(calls, out, turns[k - 1], turns[k])
  }

  ghost predicate NoOtherIssues(calls: seq<Call>, out: seq<Outcome>, c: seq<Jti>, turns: seq<nat>) {
    forall i, j :: j in c && IssuedJti(calls, out, i, j) ==> i in turns
  }

  /**
   * The calls `turns` of a run issued the rows `c` of family `f`, in order: a register or a login first,
   * then refreshes, each presenting the token the call before it was answered with.  No other call of
   * the run issued a row of `c`.
   */
  ghost predicate Conversation(calls: seq<Call>, out: seq<Outcome>, f: FamilyId, c: seq<Jti>, turns: seq<nat>) {
    && IssuedInTurn(calls, out, c, turns)
    && turns != [] && turns[0] < |calls| && Opens(calls[turns[0]], f)
    && EachPresentsTheLast(calls, out, turns)
    && NoOtherIssues(calls, out, c, turns)
  }

  ghost predicate Opens(call: Call, f: FamilyId) {
    (call.Register? && call.newFamily == f) || (call.Login? && call.newFamily == f)
  }

  /** A run without its last call. */
  lemma {:induction false} LastCall(db: Db, calls: seq<Call>, life: int)
    requires calls != []
    ensures var n := |calls| - 1;
            var mid := After(db, calls[..n], life);
            && After(db, calls, life) == Next(mid, calls[n], life).db
            && Outcomes(db, calls, life) == Outcomes(db, calls[..n], life) + [Next(mid, calls[n], life).outcome]
            && (Admissible(db, calls, life) ==> Admissible(db, calls[..n], life) && Fresh(mid, calls[n]))
    decreases |calls|
  {
    var n := |calls| - 1;
    hide Next, Fresh;
    if n == 0 {
      assert calls[..0] == [] && calls[1..] == [];
    } else {
      var db' := Next(db, calls[0], life).db;
      LastCall(db', calls[1..], life);
      assert calls[1..][..n - 1] == calls[..n][1..];
      assert calls[..n] != [] && calls[..n][0] == calls[0] && calls[1..][n - 1] == calls[n];
    }
  }

  /** Every token issued during a run has a row after it. */
  lemma {:induction false} IssuedIsRow(db: Db, calls: seq<Call>, life: int, i: nat, j: Jti)
    requires Admissible(db, calls, life) && IssuedJti(calls, Outcomes(db, calls, life), i, j)
    ensures j in After(db, calls, life).tokens
    decreases |calls|
  {
    hide Next, Fresh, RowEvolves;
    var n := |calls| - 1;
    var mid := After(db, calls[..n], life);
    LastCall(db, calls, life);
    NextEvolves(mid, calls[n], life);
    if i < n {
      IssuedIsRow(db, calls[..n], life, i, j);
    } else {
      AnswerHashed(mid, calls[n], life);
    }
  }

  /** A longer run keeps a conversation, or extends it by its last call. */
  lemma ConversationKept(calls: seq<Call>, out: seq<Outcome>, f: FamilyId, c: seq<Jti>, turns: seq<nat>)
    requires |calls| == |out| > 0
    requires Conversation(calls[..|calls| - 1], out[..|calls| - 1], f, c, turns)
    requires forall j :: j in c ==> !IssuedJti(calls, out, |calls| - 1, j)
    ensures Conversation(calls, out, f, c, turns)
  {
    var n := |calls| - 1;
    forall i, j | j in c && IssuedJti(calls, out, i, j)
      ensures i in turns
    {
      assert IssuedJti(calls[..n], out[..n], i, j);
    }
    forall k | 0 <= k < |c|
      ensures IssuedJti(calls, out, turns[k], c[k])
    {
      assert IssuedJti(calls[..n], out[..n], turns[k], c[k]);
    }
    forall k | 0 < k < |turns|
      ensures PresentsAnswer(calls, out, turns[k - 1], turns[k])
    {
      assert PresentsAnswer(calls[..n], out[..n], turns[k - 1], turns[k]);
    }
  }

  lemma ConversationGrows(calls: seq<Call>, out: seq<Outcome>, f: FamilyId, c: seq<Jti>, turns: seq<nat>, j: Jti)
    requires |calls| == |out| > 0
    requires Conversation(calls, out, f, c, turns) && turns[|turns| - 1] < |calls| - 1
    requires IssuedJti(calls, out, |calls| - 1, j) && PresentsAnswer(calls, out, turns[|turns| - 1], |calls| - 1)
    requires forall i :: IssuedJti(calls, out, i, j) ==> i == |calls| - 1
    ensures Conversation(calls, out, f, c + [j], turns + [|calls| - 1])
  {
    hide Opens;
    IssuedNext(calls, out, c, turns, j);
    PresentsNext(calls, out, turns);
    NoOtherNext(calls, out, c, turns, j);
    hide IssuedInTurn, EachPresentsTheLast, NoOtherIssues;
  }

  lemma IssuedNext(calls: seq<Call>, out: seq<Outcome>, c: seq<Jti>, turns: seq<nat>, j: Jti)
    requires IssuedInTurn(calls, out, c, turns) && turns != [] && turns[|turns| - 1] < |calls| - 1
    requires IssuedJti(calls, out, |calls| - 1, j)
    ensures IssuedInTurn(calls, out, c + [j], turns + [|calls| - 1])
  {
    hide IssuedJti;
    InTurn(turns, |calls| - 1);
  }

  lemma PresentsNext(calls: seq<Call>, out: seq<Outcome>, turns: seq<nat>)
    requires EachPresentsTheLast(calls, out, turns) && turns != [] && calls != []
    requires PresentsAnswer(calls, out, turns[|turns| - 1], |calls| - 1)
    ensures EachPresentsTheLast(calls, out, turns + [|calls| - 1])
  {
    hide PresentsAnswer;
    var turns' := turns + [|calls| - 1];
    forall k | 0 < k < |turns'|
      ensures PresentsAnswer(calls, out, turns'[k - 1], turns'[k])
    {
      assert k < |turns| ==> PresentsAnswer(calls, out, turns[k - 1], turns[k]);
    }
  }

  lemma NoOtherNext(calls: seq<Call>, out: seq<Outcome>, c: seq<Jti>, turns: seq<nat>, j: Jti)
    requires NoOtherIssues(calls, out, c, turns) && calls != []
    requires forall i :: IssuedJti(calls, out, i, j) ==> i == |calls| - 1
    ensures NoOtherIssues(calls, out, c + [j], turns + [|calls| - 1])
  {
    hide IssuedJti;
  }

  lemma InTurn(turns: seq<nat>, n: nat)
    requires Ascending(turns) && (turns != [] ==> turns[|turns| - 1] < n)
    ensures Ascending(turns + [n])
  {
    assert forall k :: 0 <= k < |turns| ==> turns[k] <= turns[|turns| - 1];
  }

  /** The clock of a call that draws a token. */
  function When(call: Call): Time
    requires Draw(call).Some?
  {
    call.now
  }

  /** The row carries the hash of what the call was answered with and the second the call was made. */
  ghost predicate Recorded(rows: Rows, calls: seq<Call>, out: seq<Outcome>, j: Jti, n: nat) {
    && n < |calls| && n < |out| && j in rows && Draw(calls[n]).Some?
    && out[n].Issued? && rows[j].tokenHash == Sha256(out[n].refreshToken)
    && rows[j].createdAt == ToSecond(When(calls[n]))
  }

  /** The call came before row `j` expired. */
  ghost predicate InTime(rows: Rows, calls: seq<Call>, j: Jti, n: nat) {
    n < |calls| && j in rows && Draw(calls[n]).Some? && When(calls[n]) < 1000000 * rows[j].expiresAt
  }

  /** Every row records its call, and every rotation came before the row it closed expired. */
  ghost predicate Answered(rows: Rows, calls: seq<Call>, out: seq<Outcome>, c: seq<Jti>, turns: seq<nat>) {
    && |turns| == |c|
    && (forall k :: 0 <= k < |c| ==> Recorded(rows, calls, out, c[k], turns[k]))
    && (forall k :: 0 < k < |c| ==> InTime(rows, calls, c[k - 1], turns[k]))
  }

  lemma AnswerHashed(db: Db, call: Call, life: int)
    requires Fresh(db, call) && Next(db, call, life).outcome.Issued?
    ensures var r := Next(db, call, life);
            && Draw(call).Some? && var j := Draw(call).value.jti;
            && j !in db.tokens && j in r.db.tokens
            && r.db.tokens[j].tokenHash == Sha256(r.outcome.refreshToken)
            && r.db.tokens[j].createdAt == ToSecond(When(call))
  {
  }

  /** What a family's rows look like after a run, and the calls they came from. */
  ghost predicate Told(tokens: Rows, calls: seq<Call>, out: seq<Outcome>, f: FamilyId, c: seq<Jti>, turns: seq<nat>) {
    Chain(RowsOf(tokens, f), c) && Conversation(calls, out, f, c, turns) && Answered(tokens, calls, out, c, turns)
  }

  /** Any family's rows after any run are one conversation of the run. */
  lemma {:induction false} FamilyHistory(calls: seq<Call>, life: int, f: FamilyId) returns (c: seq<Jti>, turns: seq<nat>)
    requires Admissible(EMPTY, calls, life)
    ensures var tokens, out := After(EMPTY, calls, life).tokens, Outcomes(EMPTY, calls, life);
            RowsOf(tokens, f) == map[] || Told(tokens, calls, out, f, c, turns)
    decreases |calls|
  {
    hide Told;
    if calls == [] {
      c, turns := [], [];
    } else {
      var n := |calls| - 1;
      var mid := After(EMPTY, calls[..n], life);
      LastCall(EMPTY, calls, life);
      RunKeepsInv(EMPTY, calls[..n], life);
      c, turns := FamilyHistory(calls[..n], life, f);
      if RowsOf(mid.tokens, f) == map[] {
        c, turns := HistoryStarts(calls, life, f);
      } else {
        c, turns := HistoryGoesOn(calls, life, f, c, turns);
      }
    }
  }

  lemma HistoryStarts(calls: seq<Call>, life: int, f: FamilyId) returns (c: seq<Jti>, turns: seq<nat>)
    requires calls != [] && Admissible(EMPTY, calls, life)
    requires RowsOf(After(EMPTY, calls[..|calls| - 1], life).tokens, f) == map[]
    ensures var tokens, out := After(EMPTY, calls, life).tokens, Outcomes(EMPTY, calls, life);
            RowsOf(tokens, f) == map[] || Told(tokens, calls, out, f, c, turns)
  {
    var n := |calls| - 1;
    var mid, call, out := After(EMPTY, calls[..n], life), calls[n], Outcomes(EMPTY, calls, life);
    LastCall(EMPTY, calls, life);
    RunKeepsInv(EMPTY, calls[..n], life);
    FamilyStart(mid, call, life, f);
    c, turns := [], [];
    if OpensFamily(mid, call) && call.newFamily == f {
      CallEffect(mid, call, life);
      AnswerHashed(mid, call, life);
      hide Next, After, Outcomes, Chain, Inv, Conversation, RowsOf;
      c, turns := [call.minted.jti], [n];
      FirstIssue(calls, life, call.minted.jti);
      ConversationStarts(calls, out, f, call.minted.jti);
    }
  }

  lemma ConversationStarts(calls: seq<Call>, out: seq<Outcome>, f: FamilyId, j: Jti)
    requires |calls| == |out| > 0
    requires Opens(calls[|calls| - 1], f) && IssuedJti(calls, out, |calls| - 1, j)
    requires forall i :: IssuedJti(calls, out, i, j) ==> i == |calls| - 1
    ensures Conversation(calls, out, f, [j], [|calls| - 1])
  {
  }

  /** The row a run's last call issues was not issued before. */
  lemma FirstIssue(calls: seq<Call>, life: int, j: Jti)
    requires calls != [] && Admissible(EMPTY, calls, life)
    requires j !in After(EMPTY, calls[..|calls| - 1], life).tokens
    ensures forall i :: IssuedJti(calls, Outcomes(EMPTY, calls, life), i, j) ==> i == |calls| - 1
  {
    var n := |calls| - 1;
    LastCall(EMPTY, calls, life);
    forall i | 0 <= i < n
      ensures !IssuedJti(calls, Outcomes(EMPTY, calls, life), i, j)
    {
      if IssuedJti(calls, Outcomes(EMPTY, calls, life), i, j) {
        IssuedIsRow(EMPTY, calls[..n], life, i, j);
      }
    }
  }

  lemma TurnsBelow(calls: seq<Call>, out: seq<Outcome>, f: FamilyId, c: seq<Jti>, turns: seq<nat>)
    requires Conversation(calls, out, f, c, turns)
    ensures |turns| == |c| > 0 && forall k :: 0 <= k < |turns| ==> turns[k] < |calls| && turns[k] < |out|
  {
    forall k | 0 <= k < |turns|
      ensures turns[k] < |calls| && turns[k] < |out|
    {
      assert IssuedJti(calls, out, turns[k], c[k]);
    }
  }

  lemma AnswersKept(db: Db, calls: seq<Call>, life: int, out: seq<Outcome>, c: seq<Jti>, turns: seq<nat>)
    requires |calls| == |out| > 0 && Fresh(db, calls[|calls| - 1])
    requires Answered(db.tokens, calls[..|calls| - 1], out[..|calls| - 1], c, turns)
    ensures Answered(Next(db, calls[|calls| - 1], life).db.tokens, calls, out, c, turns)
  {
    var n := |calls| - 1;
    NextEvolves(db, calls[n], life);
    hide Next, Fresh;
    var tokens' := Next(db, calls[n], life).db.tokens;
    forall k | 0 <= k < |c|
      ensures Recorded(tokens', calls, out, c[k], turns[k])
    {
      assert Recorded(db.tokens, calls[..n], out[..n], c[k], turns[k]);
      assert RowEvolves(db.tokens[c[k]], tokens'[c[k]]);
    }
    forall k | 0 < k < |c|
      ensures InTime(tokens', calls, c[k - 1], turns[k])
    {
      assert InTime(db.tokens, calls[..n], c[k - 1], turns[k]);
      assert RowEvolves(db.tokens[c[k - 1]], tokens'[c[k - 1]]);
    }
  }

  lemma NothingOld(db: Db, call: Call, life: int, f: FamilyId, c: seq<Jti>)
    requires Fresh(db, call) && Chain(RowsOf(db.tokens, f), c)
    ensures Next(db, call, life).outcome.Issued? ==> Draw(call).Some? && Draw(call).value.jti !in c
  {
    if Next(db, call, life).outcome.Issued? {
      AnswerHashed(db, call, life);
      assert forall j :: j in c ==> j in RowsOf(db.tokens, f);
    }
  }

  /** A refresh that rotates the tail presents what the tail's call was answered with. */
  lemma TailPresented(db: Db, call: Call, life: int, calls: seq<Call>, out: seq<Outcome>, c: seq<Jti>, turns: seq<nat>)
    requires |c| > 0 && Answered(db.tokens, calls, out, c, turns)
    requires Rotates(db, call, life, Last(c))
    ensures turns[|c| - 1] < |out|
    ensures call.Refresh? && out[turns[|c| - 1]].Issued? && call.raw == out[turns[|c| - 1]].refreshToken
    ensures Last(c) in db.tokens && call.now < Instant(db.tokens[Last(c)].expiresAt)
    ensures Next(db, call, life).outcome.Issued?
  {
    assert Recorded(db.tokens, calls, out, c[|c| - 1], turns[|c| - 1]);
    assert Holds(db.tokens, call.raw, Last(c));
  }

  lemma HistoryGoesOn(calls: seq<Call>, life: int, f: FamilyId, c0: seq<Jti>, turns0: seq<nat>)
    returns (c: seq<Jti>, turns: seq<nat>)
    requires calls != [] && Admissible(EMPTY, calls, life)
    requires var before := calls[..|calls| - 1];
             Told(After(EMPTY, before, life).tokens, before, Outcomes(EMPTY, before, life), f, c0, turns0)
    ensures Told(After(EMPTY, calls, life).tokens, calls, Outcomes(EMPTY, calls, life), f, c, turns)
  {
    hide Next, After, Outcomes, Chain, Inv, Conversation, Find, RowsOf, Fresh, Admissible, Answered;
    var n := |calls| - 1;
    var mid, call := After(EMPTY, calls[..n], life), calls[n];
    var before, out := Outcomes(EMPTY, calls[..n], life), Outcomes(EMPTY, calls, life);
    c, turns := c0, turns0;
    LastCall(EMPTY, calls, life);
    EmptyKeepsInv(calls[..n], life);
    TurnsBelow(calls[..n], before, f, c, turns);
    ChainStep(mid, call, life, f, c);
    assert out[..n] == before && out[n] == Next(mid, call, life).outcome;
    AnswersKept(mid, calls, life, out, c, turns);
    NothingOld(mid, call, life, f, c);
    ConversationKept(calls, out, f, c, turns);
    if exists jti :: Rotates(mid, call, life, jti) && mid.tokens[jti].familyId == f {
      TailPresented(mid, call, life, calls[..n], before, c, turns);
      AnswerHashed(mid, call, life);
      TailEvolves(mid, call, life, Last(c));
      FirstIssue(calls, life, call.minted.jti);
      ConversationGrows(calls, out, f, c, turns, call.minted.jti);
      AnswersGrow(After(EMPTY, calls, life).tokens, calls, out, c, turns, call.minted.jti, n);
      c, turns := c + [call.minted.jti], turns + [n];
    }
  }

  lemma TailEvolves(db: Db, call: Call, life: int, j: Jti)
    requires Fresh(db, call) && j in db.tokens
    ensures j in Next(db, call, life).db.tokens
    ensures Next(db, call, life).db.tokens[j].expiresAt == db.tokens[j].expiresAt
  {
    NextEvolves(db, call, life);
    hide Next, Fresh;
    assert RowEvolves(db.tokens[j], Next(db, call, life).db.tokens[j]);
  }

  lemma AnswersGrow(rows: Rows, calls: seq<Call>, out: seq<Outcome>, c: seq<Jti>, turns: seq<nat>, j: Jti, n: nat)
    requires |c| > 0 && Answered(rows, calls, out, c, turns)
    requires Recorded(rows, calls, out, j, n) && InTime(rows, calls, Last(c), n)
    ensures Answered(rows, calls, out, c + [j], turns + [n])
  {
    hide Recorded, InTime;
    var c', turns' := c + [j], turns + [n];
    forall k | 0 < k < |c'|
      ensures InTime(rows, calls, c'[k - 1], turns'[k])
    {
      assert k < |c| ==> InTime(rows, calls, c[k - 1], turns[k]);
    }
  }

  lemma EmptyKeepsInv(calls: seq<Call>, life: int)
    requires Admissible(EMPTY, calls, life)
    ensures Inv(After(EMPTY, calls, life).tokens, life)
  {
    RunKeepsInv(EMPTY, calls, life);
  }

  // ---------------------------------------------------------------- deadlines

  /** The i-th rotation came more than half a second before the row it closed expired. */
  ghost predicate Early(rows: Rows, calls: seq<Call>, c: seq<Jti>, turns: seq<nat>, i: int) {
    && 1 <= i < |c| && i < |turns| && turns[i] < |calls| && c[i - 1] in rows && Draw(calls[turns[i]]).Some?
    && When(calls[turns[i]]) < 1000000 * rows[c[i - 1]].expiresAt - 500000
  }

  /** The column tells an early rotation from one in the last half second, and nothing finer. */
  lemma EarlyIsStoredEarly(rows: Rows, calls: seq<Call>, out: seq<Outcome>, c: seq<Jti>, turns: seq<nat>, i: int)
    requires Answered(rows, calls, out, c, turns)
    ensures Early(rows, calls, c, turns, i) <==> StoredEarly(rows, c, i)
  {
    if 1 <= i < |c| {
      assert Recorded(rows, calls, out, c[i], turns[i]);
      assert Recorded(rows, calls, out, c[i - 1], turns[i - 1]);
      assert InTime(rows, calls, c[i - 1], turns[i]);
      StoredBefore(When(calls[turns[i]]), rows[c[i - 1]].expiresAt);
    }
  }

  /**
   * On the clock the k-th rotation comes strictly before k lifetimes after the family's first stored
   * second.  In the columns it may meet that deadline: it is below it exactly when one of the first k
   * rotations came more than half a second before its own deadline.
   */
  ghost predicate MeetsDeadline(rows: Rows, calls: seq<Call>, c: seq<Jti>, turns: seq<nat>, life: int, k: int) {
    && 1 <= k < |c| && k < |turns| && turns[k] < |calls| && Draw(calls[turns[k]]).Some? && c[0] in rows && c[k] in rows
    && When(calls[turns[k]]) < 1000000 * (rows[c[0]].createdAt + k * life)
    && rows[c[k]].createdAt <= rows[c[0]].createdAt + k * life
    && (rows[c[k]].createdAt < rows[c[0]].createdAt + k * life <==> exists i :: i <= k && Early(rows, calls, c, turns, i))
  }

  lemma DeadlineMet(rows: Rows, calls: seq<Call>, out: seq<Outcome>, c: seq<Jti>, turns: seq<nat>, life: int, k: int)
    requires Chain(rows, c) && Lifetimes(rows, life) && Answered(rows, calls, out, c, turns)
    requires 1 <= k < |c|
    ensures MeetsDeadline(rows, calls, c, turns, life, k)
  {
    hide Chain, Linked;
    RotationDeadline(rows, c, life, k);
    RotationDeadline(rows, c, life, k - 1);
    hide Answered;
    AnsweredAt(rows, calls, out, c, turns, k);
    InTimeOnTheClock(rows, calls, c[k - 1], turns[k], rows[c[0]].createdAt, life, k);
    forall i
      ensures Early(rows, calls, c, turns, i) <==> StoredEarly(rows, c, i)
    {
      EarlyIsStoredEarly(rows, calls, out, c, turns, i);
    }
    hide StoredEarly, Early, InTime, When, Draw;
  }

  lemma InTimeOnTheClock(rows: Rows, calls: seq<Call>, j: Jti, n: nat, first: Second, life: int, k: int)
    requires InTime(rows, calls, j, n) && Lifetimes(rows, life) && rows[j].createdAt <= first + (k - 1) * life
    ensures When(calls[n]) < 1000000 * (first + k * life)
  {
    assert k * life == (k - 1) * life + life;
  }

  lemma AnsweredAt(rows: Rows, calls: seq<Call>, out: seq<Outcome>, c: seq<Jti>, turns: seq<nat>, k: int)
    requires Answered(rows, calls, out, c, turns) && 1 <= k < |c|
    ensures |turns| == |c| && InTime(rows, calls, c[k - 1], turns[k])
  {
  }

  /** The rows of a family record the calls the whole table does. */
  lemma AnsweredInFamily(tokens: Rows, f: FamilyId, calls: seq<Call>, out: seq<Outcome>, c: seq<Jti>, turns: seq<nat>)
    requires Answered(tokens, calls, out, c, turns) && forall j :: j in c ==> j in RowsOf(tokens, f)
    ensures Answered(RowsOf(tokens, f), calls, out, c, turns)
  {
    var rows := RowsOf(tokens, f);
    forall k | 0 <= k < |c|
      ensures Recorded(rows, calls, out, c[k], turns[k])
    {
      assert Recorded(tokens, calls, out, c[k], turns[k]);
    }
    forall k | 0 < k < |c|
      ensures InTime(rows, calls, c[k - 1], turns[k])
    {
      assert InTime(tokens, calls, c[k - 1], turns[k]);
    }
  }

  /** A refresh a microsecond before expiry is answered, and stored at the second of the expiry. */
  lemma LastMicrosecond(life: int)
    requires life > 0
    ensures var calls := [Register("e", "u", "f", Minted("r0", "j0"), 0),
                          Refresh("r0", Minted("r1", "j1"), life * 1000000 - 1)];
            var tokens := After(EMPTY, calls, life).tokens;
            && Admissible(EMPTY, calls, life) && Outcomes(EMPTY, calls, life)[1].Issued?
            && RowsOf(tokens, "f") == tokens && Chain(tokens, ["j0", "j1"])
            && tokens["j1"].createdAt == tokens["j0"].expiresAt == tokens["j0"].createdAt + life
  {
    var first := Register("e", "u", "f", Minted("r0", "j0"), 0);
    var second := Refresh("r0", Minted("r1", "j1"), life * SECOND - 1);
    var calls := [first, second];
    var db1, db2 := Next(EMPTY, first, life).db, After(EMPTY, calls, life);
    var row := NewRow("u", Minted("r0", "j0"), "f", 0, life);
    assert db1.tokens == map["j0" := row];
    FindUnique(db1.tokens, "r0", "j0");
    assert calls[1..] == [second] && [second][1..] == [];
    assert After(EMPTY, calls, life) == After(db1, [second], life) == Next(db1, second, life).db;
    assert Outcomes(EMPTY, calls, life)[1] == Outcomes(db1, [second], life)[0];
    assert Admissible(db1, [second], life);
    SingletonChain("j0", row);
    StoredLifetime(0, life);
    ChainGrows(db1.tokens, ["j0"], Minted("r1", "j1"), life * SECOND - 1, life);
    assert ["j0"] + ["j1"] == ["j0", "j1"];
  }

  /**
   * In every reachable state every family is one chain, every rotation met its deadline, and the chain
   * is the conversation of calls that issued it.
   */
  lemma ReachableFamily(calls: seq<Call>, life: int, j: Jti) returns (c: seq<Jti>, turns: seq<nat>)
    requires Admissible(EMPTY, calls, life)
    requires j in After(EMPTY, calls, life).tokens
    ensures var tokens := After(EMPTY, calls, life).tokens;
            var rows := RowsOf(tokens, tokens[j].familyId);
            && Chain(rows, c) && j in c
            && (forall d :: Chain(rows, d) ==> d == c)
            && (forall i :: i in rows && Live(rows[i]) ==> i == Last(c))
            && (forall i :: i in rows ==> rows[i].userId == tokens[j].userId)
            && (forall k :: 1 <= k < |c| ==> MeetsDeadline(rows, calls, c, turns, life, k))
            && Conversation(calls, Outcomes(EMPTY, calls, life), tokens[j].familyId, c, turns)
  {
    hide Conversation, Next, After, Outcomes, Answered, MeetsDeadline;
    RunKeepsInv(EMPTY, calls, life);
    var tokens := After(EMPTY, calls, life).tokens;
    var rows := RowsOf(tokens, tokens[j].familyId);
    assert j in rows;
    c, turns := FamilyHistory(calls, life, tokens[j].familyId);
    forall d | Chain(rows, d)
      ensures d == c
    {
      ChainUnique(rows, c, d);
    }
    forall i | i in rows
      ensures Live(rows[i]) ==> i == Last(c)
      ensures rows[i].userId == tokens[j].userId
    {
      OnlyTailLive(rows, c, i);
      FamilyUser(rows, c, i);
      FamilyUser(rows, c, j);
    }
    forall k | 1 <= k < |c|
      ensures MeetsDeadline(rows, calls, c, turns, life, k)
    {
      AnsweredInFamily(tokens, tokens[j].familyId, calls, Outcomes(EMPTY, calls, life), c, turns);
      DeadlineMet(rows, calls, Outcomes(EMPTY, calls, life), c, turns, life, k);
    }
  }
}
