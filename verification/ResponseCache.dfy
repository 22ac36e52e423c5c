/**
 * The Redis response cache in front of the owner-scoped parcel reads.  Requests, database
 * writes, cache expiry and evictions interleave; a missed request is a lookup, a database read
 * and a store that happen at different times.
 */
module ResponseCache {
  import opened Wrappers
  import opened Parcels
  import PS = ParcelService

  type Time = int

  datatype Query = ListQuery(filters: PS.Filters, limit: nat, offset: nat) | DetailQuery(id: ParcelId)

  /** A parcel as the API returns it. */
  datatype Item = Item(id: ParcelId, name: string, weight: nat, declared: nat, typeId: string, cost: Option<nat>)

  datatype Answer =
    | PageAnswer(items: seq<Item>, total: nat, limit: nat, offset: nat)
    | ItemAnswer(item: Item)
    | NotFound
    | Forbidden

  function ItemOf(id: ParcelId, p: Parcel): Item {
    Item(id, p.name, p.weight, p.declared, p.typeId, p.cost)
  }

  function ItemsOf(t: Table, ids: seq<ParcelId>): (items: seq<Item>)
    requires forall id :: id in ids ==> id in t
  {
    seq(|ids|, i requires 0 <= i < |ids| => ItemOf(ids[i], t[ids[i]]))
  }

  function DetailAnswer(id: ParcelId, r: PS.Lookup): Answer {
    match r
    case Found(p) => ItemAnswer(ItemOf(id, p))
    case NotFound => NotFound
    case NotOwned => Forbidden
  }

  /** The uncached handlers `list_parcels` and `get_parcel`. */
  ghost function Handle(t: Table, mode: PS.Mode, owner: string, q: Query): Answer {
    match q
    case ListQuery(filters, limit, offset) =>
      var page := PS.List(t, mode, owner, filters, limit, offset);
      PageAnswer(ItemsOf(t, page.ids), page.total, limit, offset)
    case DetailQuery(id) => DetailAnswer(id, PS.Get(t, mode, owner, id))
  }

  /** The item shows the row's columns. */
  ghost predicate Shows(item: Item, id: ParcelId, p: Parcel) {
    && item.id == id && item.name == p.name && item.weight == p.weight && item.declared == p.declared
    && item.typeId == p.typeId && item.cost == p.cost
  }

  function IdsOf(items: seq<Item>): seq<ParcelId> {
    seq(|items|, i requires 0 <= i < |items| => items[i].id)
  }

  /** What the table's columns say the answer to a query is. */
  ghost predicate Answers(t: Table, mode: PS.Mode, owner: string, q: Query, a: Answer) {
    match q
    case ListQuery(filters, limit, offset) =>
      && a.PageAnswer? && a.limit == limit && a.offset == offset
      && PS.IsPage(t, mode, owner, filters, limit, offset, PS.Page(a.total, IdsOf(a.items)))
      && forall i :: 0 <= i < |a.items| ==> a.items[i].id in t && Shows(a.items[i], a.items[i].id, t[a.items[i].id])
    case DetailQuery(id) =>
      if id !in t then a.NotFound?
      else if (if mode.Jwt? then t[id].userId == Some(owner) else t[id].sessionId == owner) then
        a.ItemAnswer? && Shows(a.item, id, t[id])
      else a.Forbidden?
  }

  /** The handlers answer what the columns say, and nothing else does. */
  lemma HandleExactly(t: Table, mode: PS.Mode, owner: string, q: Query, a: Answer)
    ensures a == Handle(t, mode, owner, q) <==> Answers(t, mode, owner, q, a)
  {
    if q.ListQuery? {
      ListAnswered(t, mode, owner, q);
      if Answers(t, mode, owner, q, a) {
        OnePage(t, mode, owner, q, a, Handle(t, mode, owner, q));
      }
    }
  }

  lemma ListAnswered(t: Table, mode: PS.Mode, owner: string, q: Query)
    requires q.ListQuery?
    ensures Answers(t, mode, owner, q, Handle(t, mode, owner, q))
  {
    var page := PS.List(t, mode, owner, q.filters, q.limit, q.offset);
    PS.ListExactly(t, mode, owner, q.filters, q.limit, q.offset, page);
    ItemsShow(t, page.ids);
    hide PS.List, PS.IsPage, Shows, ItemsOf, IdsOf;
  }

  lemma ItemsShow(t: Table, ids: seq<ParcelId>)
    requires forall id :: id in ids ==> id in t
    ensures var items := ItemsOf(t, ids);
            && IdsOf(items) == ids
            && forall i :: 0 <= i < |items| ==> items[i].id in t && Shows(items[i], items[i].id, t[items[i].id])
  {
    var items := ItemsOf(t, ids);
    forall i | 0 <= i < |items|
      ensures items[i].id == ids[i] && items[i].id in t && Shows(items[i], items[i].id, t[items[i].id])
    {
      assert ids[i] in ids;
    }
    assert IdsOf(items) == ids;
  }

  lemma OnePage(t: Table, mode: PS.Mode, owner: string, q: Query, a: Answer, b: Answer)
    requires q.ListQuery? && Answers(t, mode, owner, q, a) && Answers(t, mode, owner, q, b)
    ensures a == b
  {
    PS.ListExactly(t, mode, owner, q.filters, q.limit, q.offset, PS.Page(a.total, IdsOf(a.items)));
    PS.ListExactly(t, mode, owner, q.filters, q.limit, q.offset, PS.Page(b.total, IdsOf(b.items)));
    hide PS.List, PS.IsPage;
    assert |IdsOf(a.items)| == |IdsOf(b.items)|;
    forall i | 0 <= i < |a.items|
      ensures a.items[i] == b.items[i]
    {
      assert IdsOf(a.items)[i] == IdsOf(b.items)[i];
      assert a.items[i].id == b.items[i].id;
    }
  }

  /** Handler exceptions pass through the wrapper uncached. */
  predicate Cacheable(a: Answer) {
    a.PageAnswer? || a.ItemAnswer?
  }

  function EmptyPage(q: Query): Answer
    requires q.ListQuery?
  {
    PageAnswer([], 0, q.limit, q.offset)
  }

  ghost predicate OwnsNothing(t: Table, mode: PS.Mode, owner: string) {
    forall id :: id in t ==> !PS.Owns(t[id], mode, owner)
  }

  /** For an owner of nothing, a list is the empty page and a detail read fails. */
  lemma NothingToSee(t: Table, mode: PS.Mode, owner: string, q: Query)
    requires OwnsNothing(t, mode, owner)
    ensures if q.ListQuery? then Handle(t, mode, owner, q) == EmptyPage(q) else !Cacheable(Handle(t, mode, owner, q))
  {
    if q.ListQuery? {
      assert PS.Selected(t, mode, owner, q.filters) == {};
    }
  }

  // ---------------------------------------------------------------- requests

  /** `isUuid` is what `UUID(...)` accepts, `subject` the `sub` claim of a valid bearer header. */
  datatype Config = Config(
    mode: PS.Mode,
    ttl: nat,
    gap: nat,
    isUuid: string -> bool,
    subject: string -> string,
    route: string -> Query)

  datatype Request = Request(authorization: Option<string>, session: Option<string>, target: string)

  /** The identity part of a cache key; hashing it is taken to be injective. */
  datatype Identity = Bearer(header: string) | SessionHeader(header: string)

  datatype Key = Key(identity: Identity, target: string)

  function HeaderOr(h: Option<string>): string {
    if h.Some? then h.value else "anon"
  }

  function MakeKey(cfg: Config, req: Request): Key {
    Key(if cfg.mode.Jwt? then Bearer(HeaderOr(req.authorization)) else SessionHeader(HeaderOr(req.session)), req.target)
  }

  /** Whether the middleware gives the request a new session id. */
  predicate Generates(cfg: Config, req: Request) {
    cfg.mode.Legacy? && (req.session.None? || req.session.value == "" || !cfg.isUuid(req.session.value))
  }

  function OwnerOf(cfg: Config, req: Request, generated: string): string {
    if cfg.mode.Jwt? then cfg.subject(HeaderOr(req.authorization))
    else if Generates(cfg, req) then generated
    else HeaderOr(req.session)
  }

  /** `assign_session_id`: the session the request ends up with. */
  method AssignSessionId(cfg: Config, req: Request, generated: string) returns (session: string)
    requires cfg.mode.Legacy? && cfg.isUuid(generated) && generated != ""
    ensures session == OwnerOf(cfg, req, generated)
    ensures session == match req.session
                       case Some(h) => if h != "" && cfg.isUuid(h) then h else generated
                       case None => generated
    ensures cfg.isUuid(session) && session != ""
  {
    session := if req.session.Some? then req.session.value else "";
    if session == "" {
      session := generated;
    } else if !cfg.isUuid(session) {
      session := generated;
    }
  }

  /** Who a request is made for: the subject of its bearer header, or its session id where that is a uuid. */
  lemma OwnerExactly(cfg: Config, req: Request, generated: string)
    ensures cfg.mode.Jwt? && req.authorization.Some? ==>
              !Generates(cfg, req) && OwnerOf(cfg, req, generated) == cfg.subject(req.authorization.value)
    ensures cfg.mode.Legacy? && req.session.Some? && req.session.value != "" && cfg.isUuid(req.session.value) ==>
              !Generates(cfg, req) && OwnerOf(cfg, req, generated) == req.session.value
    ensures cfg.mode.Legacy? && (req.session.None? || req.session.value == "" || !cfg.isUuid(req.session.value)) ==>
              Generates(cfg, req) && OwnerOf(cfg, req, generated) == generated
  {
  }

  /** The owner a key stands for, if it stands for one. */
  function KeyOwner(cfg: Config, key: Key): Option<string> {
    match key.identity
    case Bearer(h) => Some(cfg.subject(h))
    case SessionHeader(h) => if h != "" && cfg.isUuid(h) then Some(h) else None
  }

  /** The cache identity names the owner exactly when the owner was not made up for this request. */
  lemma KeyNamesOwner(cfg: Config, req: Request, generated: string)
    requires !cfg.isUuid("anon")
    ensures KeyOwner(cfg, MakeKey(cfg, req)) == if Generates(cfg, req) then None else Some(OwnerOf(cfg, req, generated))
  {
  }

  /** The headers give the same identity: they are equal, or one is absent and the other spells its stand-in. */
  predicate SameHeader(a: Option<string>, b: Option<string>) {
    a == b || (a.None? && b == Some("anon")) || (b.None? && a == Some("anon"))
  }

  /** Two requests share a cache entry exactly when target and identity header agree; no other header matters. */
  lemma KeysCollide(cfg: Config, a: Request, b: Request)
    ensures MakeKey(cfg, a) == MakeKey(cfg, b)
        <==> a.target == b.target
             && (if cfg.mode.Jwt? then SameHeader(a.authorization, b.authorization) else SameHeader(a.session, b.session))
  {
  }

  // ---------------------------------------------------------------- the system

  /** The table from one commit to the next. */
  datatype Version = Version(since: Time, table: Table)

  datatype Entry = Entry(answer: Answer, expires: Time)

  datatype Pending =
    | Missed(req: Request, owner: string)
    | Loaded(req: Request, owner: string, answer: Answer, readAt: Time)

  datatype Response = Response(req: Request, owner: string, at: Time, answer: Answer)

  datatype World = World(
    now: Time,
    versions: seq<Version>,
    cache: map<Key, Entry>,
    pending: map<nat, Pending>,
    responses: seq<Response>)

  datatype Step =
    | Tick(to: Time)
    | Write(table: Table)
    | Arrive(rid: nat, req: Request, generated: string)
    | Read(rid: nat)
    | Store(rid: nat)
    | Evict(key: Key)
    | Abandon(rid: nat)

  function Current(w: World): Table
    requires w.versions != []
  {
    w.versions[|w.versions| - 1].table
  }

  predicate Hit(cfg: Config, w: World, key: Key) {
    key in w.cache && w.now < w.cache[key].expires
  }

  /**
   * A generated session id owns nothing, and nobody can write under it before the response reveals it.
   * A request that got as far as the handler in JWT mode carried a valid bearer header.
   */
  ghost predicate Enabled(cfg: Config, w: World, step: Step)
    requires w.versions != []
  {
    match step
    case Tick(to) => w.now <= to
    case Write(table) =>
      forall rid :: rid in w.pending && Generates(cfg, w.pending[rid].req) ==>
        OwnsNothing(table, cfg.mode, w.pending[rid].owner)
    case Arrive(rid, req, generated) =>
      && rid !in w.pending
      && (cfg.mode.Jwt? ==> req.authorization.Some?)
      && (Generates(cfg, req) ==> OwnsNothing(Current(w), cfg.mode, generated))
    case Read(rid) => rid in w.pending && w.pending[rid].Missed?
    case Store(rid) => rid in w.pending && w.pending[rid].Loaded? && w.now <= w.pending[rid].readAt + cfg.gap
    case Evict(key) => true
    case Abandon(rid) => rid in w.pending
  }

  ghost function Respond(w: World, req: Request, owner: string, answer: Answer): World {
    w.(responses := w.responses + [Response(req, owner, w.now, answer)])
  }

  ghost function Do(cfg: Config, w: World, step: Step): (w': World)
    requires w.versions != [] && Enabled(cfg, w, step)
    ensures w'.versions != []
  {
    match step
    case Tick(to) => w.(now := to)
    case Write(table) => w.(versions := w.versions + [Version(w.now, table)])
    case Arrive(rid, req, generated) =>
      var key, owner := MakeKey(cfg, req), OwnerOf(cfg, req, generated);
      if Hit(cfg, w, key) then Respond(w, req, owner, w.cache[key].answer)
      else w.(pending := w.pending[rid := Missed(req, owner)])
    case Read(rid) =>
      var p := w.pending[rid];
      var answer := Handle(Current(w), cfg.mode, p.owner, cfg.route(p.req.target));
      if Cacheable(answer) then w.(pending := w.pending[rid := Loaded(p.req, p.owner, answer, w.now)])
      else Respond(w.(pending := w.pending - {rid}), p.req, p.owner, answer)
    case Store(rid) =>
      var p := w.pending[rid];
      Respond(w.(cache := w.cache[MakeKey(cfg, p.req) := Entry(p.answer, w.now + cfg.ttl)], pending := w.pending - {rid}),
              p.req, p.owner, p.answer)
    case Evict(key) => w.(cache := w.cache - {key})
    case Abandon(rid) => w.(pending := w.pending - {rid})
  }

  ghost predicate Legal(cfg: Config, w: World, steps: seq<Step>)
    requires w.versions != []
    decreases |steps|
  {
    steps != [] ==> Enabled(cfg, w, steps[0]) && Legal(cfg, Do(cfg, w, steps[0]), steps[1..])
  }

  ghost function After(cfg: Config, w: World, steps: seq<Step>): World
    requires w.versions != [] && Legal(cfg, w, steps)
    decreases |steps|
  {
    if steps == [] then w else After(cfg, Do(cfg, w, steps[0]), steps[1..])
  }

  function Start(now: Time, table: Table): World {
    World(now, [Version(now, table)], map[], map[], [])
  }

  /** The clock and the table after a trace, told from its steps. */
  function LastTick(now: Time, steps: seq<Step>): Time
    decreases |steps|
  {
    if steps == [] then now else LastTick(if steps[0].Tick? then steps[0].to else now, steps[1..])
  }

  function LastWrite(table: Table, steps: seq<Step>): Table
    decreases |steps|
  {
    if steps == [] then table else LastWrite(if steps[0].Write? then steps[0].table else table, steps[1..])
  }

  lemma {:induction false} TraceState(cfg: Config, w: World, steps: seq<Step>)
    requires w.versions != [] && Legal(cfg, w, steps)
    ensures var w' := After(cfg, w, steps);
            w'.versions != [] && w'.now == LastTick(w.now, steps) && Current(w') == LastWrite(Current(w), steps)
    decreases |steps|
  {
    if steps != [] {
      hide Handle, Do, Enabled, Current;
      StepState(cfg, w, steps[0]);
      TraceState(cfg, Do(cfg, w, steps[0]), steps[1..]);
    }
  }

  lemma StepState(cfg: Config, w: World, step: Step)
    requires w.versions != [] && Enabled(cfg, w, step)
    ensures var w' := Do(cfg, w, step);
            && w'.now == (if step.Tick? then step.to else w.now)
            && Current(w') == if step.Write? then step.table else Current(w)
  {
    hide Handle, OwnsNothing;
  }

  /** Whatever is going on, time can pass and entries can be lost; with bearer headers anything can be written and asked. */
  lemma Unhindered(cfg: Config, w: World, to: Time, key: Key, table: Table, rid: nat, req: Request, generated: string)
    requires w.versions != []
    ensures w.now <= to ==> Enabled(cfg, w, Tick(to))
    ensures Enabled(cfg, w, Evict(key)) && (rid in w.pending ==> Enabled(cfg, w, Abandon(rid)))
    ensures cfg.mode.Jwt? ==> Enabled(cfg, w, Write(table))
    ensures cfg.mode.Jwt? && rid !in w.pending && req.authorization.Some? ==> Enabled(cfg, w, Arrive(rid, req, generated))
  {
  }

  /** Giving up a request or losing an entry changes nothing else. */
  lemma Forgotten(cfg: Config, w: World, rid: nat, key: Key)
    requires w.versions != []
    ensures var w1 := Do(cfg, w, Evict(key));
            && key !in w1.cache && (forall k :: k in w.cache && k != key ==> k in w1.cache && w1.cache[k] == w.cache[k])
            && w1.cache.Keys <= w.cache.Keys && w1.(cache := w.cache) == w
    ensures rid in w.pending ==>
              var w2 := Do(cfg, w, Abandon(rid));
              && rid !in w2.pending && (forall r :: r in w.pending && r != rid ==> r in w2.pending && w2.pending[r] == w.pending[r])
              && w2.pending.Keys <= w.pending.Keys && w2.(pending := w.pending) == w
  {
  }

  // ---------------------------------------------------------------- staleness

  /** Version `i` was the database at time `r`. */
  ghost predicate WasCurrent(w: World, i: nat, r: Time) {
    && i < |w.versions| && w.versions[i].since <= r <= w.now
    && (i + 1 < |w.versions| ==> r <= w.versions[i + 1].since)
  }

  /** The uncached handler would have given this answer at time `r`. */
  ghost predicate TrueAt(cfg: Config, w: World, owner: string, target: string, answer: Answer, i: nat, r: Time) {
    WasCurrent(w, i, r) && answer == Handle(w.versions[i].table, cfg.mode, owner, cfg.route(target))
  }

  ghost predicate TrueSince(cfg: Config, w: World, owner: string, target: string, answer: Answer, lo: Time, hi: Time) {
    exists i: nat, r: Time :: lo <= r <= hi && TrueAt(cfg, w, owner, target, answer, i, r)
  }

  /** An entry under an owner's key is a recent answer for the owner; under any other key it is an empty page. */
  ghost predicate GoodEntry(cfg: Config, w: World, key: Key, e: Entry) {
    match KeyOwner(cfg, key)
    case Some(owner) => TrueSince(cfg, w, owner, key.target, e.answer, e.expires - cfg.ttl - cfg.gap, w.now)
    case None => cfg.route(key.target).ListQuery? && e.answer == EmptyPage(cfg.route(key.target))
  }

  ghost predicate GoodPending(cfg: Config, w: World, p: Pending)
    requires w.versions != []
  {
    && (if Generates(cfg, p.req) then OwnsNothing(Current(w), cfg.mode, p.owner)
        else KeyOwner(cfg, MakeKey(cfg, p.req)) == Some(p.owner))
    && (p.Loaded? ==>
          && Cacheable(p.answer)
          && TrueSince(cfg, w, p.owner, p.req.target, p.answer, p.readAt, p.readAt)
          && (Generates(cfg, p.req) ==>
                cfg.route(p.req.target).ListQuery? && p.answer == EmptyPage(cfg.route(p.req.target))))
  }

  /** At most `ttl + gap` old; not old at all for a request that brought no usable session id. */
  ghost predicate GoodResponse(cfg: Config, w: World, s: Response) {
    TrueSince(cfg, w, s.owner, s.req.target, s.answer,
              if Generates(cfg, s.req) then s.at else s.at - cfg.ttl - cfg.gap, s.at)
  }

  ghost predicate Inv(cfg: Config, w: World) {
    && !cfg.isUuid("anon")
    && w.versions != [] && w.versions[|w.versions| - 1].since <= w.now
    && (forall key :: key in w.cache ==> GoodEntry(cfg, w, key, w.cache[key]))
    && (forall rid :: rid in w.pending ==> GoodPending(cfg, w, w.pending[rid]))
    && (forall i :: 0 <= i < |w.responses| ==> GoodResponse(cfg, w, w.responses[i]))
  }

  /** Later states have the same past. */
  ghost predicate Later(w: World, w': World) {
    && w.versions != [] && |w.versions| <= |w'.versions| && w'.versions[..|w.versions|] == w.versions
    && w.now <= w'.now
    && (|w.versions| < |w'.versions| ==> w.now <= w'.versions[|w.versions|].since)
  }

  lemma StillTrue(cfg: Config, w: World, w': World, owner: string, target: string, answer: Answer, lo: Time, hi: Time)
    requires Later(w, w') && TrueSince(cfg, w, owner, target, answer, lo, hi)
    ensures TrueSince(cfg, w', owner, target, answer, lo, hi)
  {
    hide Handle;
    var i: nat, r: Time :| lo <= r <= hi && TrueAt(cfg, w, owner, target, answer, i, r);
    assert w'.versions[i] == w'.versions[..|w.versions|][i] == w.versions[i];
    assert i + 1 < |w.versions| ==> w'.versions[i + 1] == w'.versions[..|w.versions|][i + 1] == w.versions[i + 1];
    assert TrueAt(cfg, w', owner, target, answer, i, r);
  }

  lemma Widen(cfg: Config, w: World, owner: string, target: string, answer: Answer, lo: Time, hi: Time, lo': Time, hi': Time)
    requires TrueSince(cfg, w, owner, target, answer, lo, hi) && lo' <= lo && hi <= hi'
    ensures TrueSince(cfg, w, owner, target, answer, lo', hi')
  {
    hide TrueAt;
    var i: nat, r: Time :| lo <= r <= hi && TrueAt(cfg, w, owner, target, answer, i, r);
    assert lo' <= r <= hi' && TrueAt(cfg, w, owner, target, answer, i, r);
  }

  lemma TrueNow(cfg: Config, w: World, owner: string, target: string)
    requires w.versions != [] && w.versions[|w.versions| - 1].since <= w.now
    ensures TrueSince(cfg, w, owner, target, Handle(Current(w), cfg.mode, owner, cfg.route(target)), w.now, w.now)
  {
    hide Handle;
    assert TrueAt(cfg, w, owner, target, Handle(Current(w), cfg.mode, owner, cfg.route(target)), |w.versions| - 1, w.now);
  }

  lemma EntryStaysGood(cfg: Config, w: World, w': World, key: Key, e: Entry)
    requires Later(w, w') && GoodEntry(cfg, w, key, e)
    ensures GoodEntry(cfg, w', key, e)
  {
    hide TrueSince, Later;
    var o := KeyOwner(cfg, key);
    if o.Some? {
      StillTrue(cfg, w, w', o.value, key.target, e.answer, e.expires - cfg.ttl - cfg.gap, w.now);
      LaterNow(w, w');
      Widen(cfg, w', o.value, key.target, e.answer, e.expires - cfg.ttl - cfg.gap, w.now,
            e.expires - cfg.ttl - cfg.gap, w'.now);
    }
  }

  lemma LaterNow(w: World, w': World)
    requires Later(w, w')
    ensures w.now <= w'.now
  {
  }

  lemma ResponseStaysGood(cfg: Config, w: World, w': World, s: Response)
    requires Later(w, w') && GoodResponse(cfg, w, s)
    ensures GoodResponse(cfg, w', s)
  {
    hide TrueSince, Later;
    StillTrue(cfg, w, w', s.owner, s.req.target, s.answer,
              if Generates(cfg, s.req) then s.at else s.at - cfg.ttl - cfg.gap, s.at);
  }

  lemma PendingStaysGood(cfg: Config, w: World, w': World, p: Pending)
    requires Later(w, w') && w'.versions != [] && GoodPending(cfg, w, p)
    requires Generates(cfg, p.req) ==> OwnsNothing(Current(w'), cfg.mode, p.owner)
    ensures GoodPending(cfg, w', p)
  {
    hide TrueSince, Later, OwnsNothing;
    if p.Loaded? {
      StillTrue(cfg, w, w', p.owner, p.req.target, p.answer, p.readAt, p.readAt);
    }
  }

  lemma StepIsLater(cfg: Config, w: World, step: Step)
    requires w.versions != [] && Enabled(cfg, w, step)
    ensures Later(w, Do(cfg, w, step))
  {
    hide Handle;
    var w' := Do(cfg, w, step);
    assert w.versions[..|w.versions|] == w.versions;
  }

  /** A cache hit answers as the handler did at most `ttl + gap` ago, or as it does right now. */
  lemma HitIsGood(cfg: Config, w: World, req: Request, generated: string)
    requires Inv(cfg, w) && Hit(cfg, w, MakeKey(cfg, req))
    requires Generates(cfg, req) ==> OwnsNothing(Current(w), cfg.mode, generated)
    ensures GoodResponse(cfg, w, Response(req, OwnerOf(cfg, req, generated), w.now, w.cache[MakeKey(cfg, req)].answer))
  {
    hide TrueSince, Handle, OwnsNothing;
    var key := MakeKey(cfg, req);
    var e, owner := w.cache[key], OwnerOf(cfg, req, generated);
    KeyNamesOwner(cfg, req, generated);
    assert GoodEntry(cfg, w, key, e);
    if Generates(cfg, req) {
      NothingToSee(Current(w), cfg.mode, owner, cfg.route(req.target));
      TrueNow(cfg, w, owner, req.target);
    } else {
      Widen(cfg, w, owner, req.target, e.answer, e.expires - cfg.ttl - cfg.gap, w.now, w.now - cfg.ttl - cfg.gap, w.now);
    }
  }

  lemma ReadIsGood(cfg: Config, w: World, p: Pending)
    requires Inv(cfg, w) && GoodPending(cfg, w, p)
    ensures var answer := Handle(Current(w), cfg.mode, p.owner, cfg.route(p.req.target));
            && (Cacheable(answer) ==> GoodPending(cfg, w, Loaded(p.req, p.owner, answer, w.now)))
            && GoodResponse(cfg, w, Response(p.req, p.owner, w.now, answer))
  {
    hide TrueSince, Handle, OwnsNothing;
    var answer := Handle(Current(w), cfg.mode, p.owner, cfg.route(p.req.target));
    TrueNow(cfg, w, p.owner, p.req.target);
    Widen(cfg, w, p.owner, p.req.target, answer, w.now, w.now, w.now - cfg.ttl - cfg.gap, w.now);
    if Generates(cfg, p.req) {
      NothingToSee(Current(w), cfg.mode, p.owner, cfg.route(p.req.target));
    }
  }

  lemma StoreIsGood(cfg: Config, w: World, p: Pending)
    requires Inv(cfg, w) && GoodPending(cfg, w, p) && p.Loaded? && p.readAt <= w.now <= p.readAt + cfg.gap
    ensures GoodEntry(cfg, w, MakeKey(cfg, p.req), Entry(p.answer, w.now + cfg.ttl))
    ensures GoodResponse(cfg, w, Response(p.req, p.owner, w.now, p.answer))
  {
    hide TrueSince, Handle, OwnsNothing;
    KeyNamesOwner(cfg, p.req, p.owner);
    if Generates(cfg, p.req) {
      NothingToSee(Current(w), cfg.mode, p.owner, cfg.route(p.req.target));
      TrueNow(cfg, w, p.owner, p.req.target);
    } else {
      Widen(cfg, w, p.owner, p.req.target, p.answer, p.readAt, p.readAt, w.now - cfg.gap, w.now);
      Widen(cfg, w, p.owner, p.req.target, p.answer, p.readAt, p.readAt, w.now - cfg.ttl - cfg.gap, w.now);
    }
  }

  lemma ReadInPast(cfg: Config, w: World, p: Pending)
    requires w.versions != [] && GoodPending(cfg, w, p) && p.Loaded?
    ensures p.readAt <= w.now
  {
    hide Handle, OwnsNothing;
  }

  lemma CacheKept(cfg: Config, w: World, step: Step, key: Key)
    requires Inv(cfg, w) && Enabled(cfg, w, step) && key in Do(cfg, w, step).cache
    ensures GoodEntry(cfg, Do(cfg, w, step), key, Do(cfg, w, step).cache[key])
  {
    hide Handle, GoodEntry, GoodResponse, Later, OwnsNothing;
    var w' := Do(cfg, w, step);
    StepIsLater(cfg, w, step);
    if step.Store? && key == MakeKey(cfg, w.pending[step.rid].req) {
      ReadInPast(cfg, w, w.pending[step.rid]);
      StoreIsGood(cfg, w, w.pending[step.rid]);
    } else {
      assert key in w.cache && w'.cache[key] == w.cache[key];
    }
    EntryStaysGood(cfg, w, w', key, w'.cache[key]);
  }

  lemma PendingKept(cfg: Config, w: World, step: Step, rid: nat)
    requires Inv(cfg, w) && Enabled(cfg, w, step) && rid in Do(cfg, w, step).pending
    ensures Do(cfg, w, step).versions != [] && GoodPending(cfg, Do(cfg, w, step), Do(cfg, w, step).pending[rid])
  {
    hide Handle, GoodEntry, GoodResponse, Later, OwnsNothing, TrueSince;
    var w' := Do(cfg, w, step);
    StepIsLater(cfg, w, step);
    if step.Read? && rid == step.rid {
      ReadIsGood(cfg, w, w.pending[rid]);
    } else if step.Arrive? && rid == step.rid {
      KeyNamesOwner(cfg, step.req, step.generated);
    } else {
      assert rid in w.pending && w'.pending[rid] == w.pending[rid];
    }
    PendingStaysGood(cfg, w, w', w'.pending[rid]);
  }

  lemma ResponsesKept(cfg: Config, w: World, step: Step, i: nat)
    requires Inv(cfg, w) && Enabled(cfg, w, step) && i < |Do(cfg, w, step).responses|
    ensures GoodResponse(cfg, Do(cfg, w, step), Do(cfg, w, step).responses[i])
  {
    hide Handle, GoodEntry, GoodResponse, Later, OwnsNothing, TrueSince;
    var w' := Do(cfg, w, step);
    StepIsLater(cfg, w, step);
    if i < |w.responses| {
      assert w'.responses[i] == w.responses[i];
    } else if step.Arrive? {
      HitIsGood(cfg, w, step.req, step.generated);
    } else if step.Read? {
      ReadIsGood(cfg, w, w.pending[step.rid]);
    } else {
      ReadInPast(cfg, w, w.pending[step.rid]);
      StoreIsGood(cfg, w, w.pending[step.rid]);
    }
    ResponseStaysGood(cfg, w, w', w'.responses[i]);
  }

  lemma StepKeepsInv(cfg: Config, w: World, step: Step)
    requires Inv(cfg, w) && Enabled(cfg, w, step)
    ensures Inv(cfg, Do(cfg, w, step))
  {
    hide Handle, GoodEntry, GoodPending, GoodResponse, OwnsNothing;
    var w' := Do(cfg, w, step);
    forall key | key in w'.cache
      ensures GoodEntry(cfg, w', key, w'.cache[key])
    {
      CacheKept(cfg, w, step, key);
    }
    forall rid | rid in w'.pending
      ensures GoodPending(cfg, w', w'.pending[rid])
    {
      PendingKept(cfg, w, step, rid);
    }
    forall i | 0 <= i < |w'.responses|
      ensures GoodResponse(cfg, w', w'.responses[i])
    {
      ResponsesKept(cfg, w, step, i);
    }
  }

  lemma {:induction false} RunKeepsInv(cfg: Config, w: World, steps: seq<Step>)
    requires Inv(cfg, w) && Legal(cfg, w, steps)
    ensures Inv(cfg, After(cfg, w, steps))
    decreases |steps|
  {
    if steps != [] {
      StepKeepsInv(cfg, w, steps[0]);
      RunKeepsInv(cfg, Do(cfg, w, steps[0]), steps[1..]);
    }
  }

  /**
   * Over every interleaving, every response is what the table's columns say for the requesting owner, on a
   * database state that was current within the last `ttl + gap`; for a request without a usable session
   * id, on the state current when it was served.
   */
  lemma BoundedStaleness(cfg: Config, now: Time, table: Table, steps: seq<Step>, n: nat)
    requires !cfg.isUuid("anon") && Legal(cfg, Start(now, table), steps)
    requires n < |After(cfg, Start(now, table), steps).responses|
    ensures var w := After(cfg, Start(now, table), steps);
            var s := w.responses[n];
            exists i: nat, r: Time ::
              && s.at - cfg.ttl - cfg.gap <= r <= s.at && (Generates(cfg, s.req) ==> r == s.at)
              && WasCurrent(w, i, r)
              && Answers(w.versions[i].table, cfg.mode, s.owner, cfg.route(s.req.target), s.answer)
  {
    hide Handle, Enabled, Do, Answers;
    RunKeepsInv(cfg, Start(now, table), steps);
    var w := After(cfg, Start(now, table), steps);
    var s := w.responses[n];
    assert GoodResponse(cfg, w, s);
    var lo := if Generates(cfg, s.req) then s.at else s.at - cfg.ttl - cfg.gap;
    var i: nat, r: Time :| lo <= r <= s.at && TrueAt(cfg, w, s.owner, s.req.target, s.answer, i, r);
    assert WasCurrent(w, i, r);
    HandleExactly(w.versions[i].table, cfg.mode, s.owner, cfg.route(s.req.target), s.answer);
  }

  function ItemsIn(a: Answer): seq<Item> {
    match a
    case PageAnswer(items, _, _, _) => items
    case ItemAnswer(item) => [item]
    case _ => []
  }

  ghost predicate ShowsOwned(t: Table, mode: PS.Mode, owner: string, item: Item) {
    item.id in t && PS.Owns(t[item.id], mode, owner) && item == ItemOf(item.id, t[item.id])
  }

  lemma HandlerShowsOwned(t: Table, mode: PS.Mode, owner: string, q: Query)
    ensures forall item :: item in ItemsIn(Handle(t, mode, owner, q)) ==> ShowsOwned(t, mode, owner, item)
  {
    if q.ListQuery? {
      var ids := PS.List(t, mode, owner, q.filters, q.limit, q.offset).ids;
      forall item | item in ItemsIn(Handle(t, mode, owner, q))
        ensures ShowsOwned(t, mode, owner, item)
      {
        var k :| 0 <= k < |ids| && item == ItemOf(ids[k], t[ids[k]]);
        assert ids[k] in ids;
      }
    }
  }

  /** Whoever filled the cache, a response shows only parcels of the requesting owner, as they recently were. */
  lemma OnlyOwnParcels(cfg: Config, now: Time, table: Table, steps: seq<Step>, n: nat)
    requires !cfg.isUuid("anon") && Legal(cfg, Start(now, table), steps)
    requires n < |After(cfg, Start(now, table), steps).responses|
    ensures var w := After(cfg, Start(now, table), steps);
            var s := w.responses[n];
            exists i: nat, r: Time ::
              && s.at - cfg.ttl - cfg.gap <= r <= s.at && WasCurrent(w, i, r)
              && forall item :: item in ItemsIn(s.answer) ==> ShowsOwned(w.versions[i].table, cfg.mode, s.owner, item)
  {
    BoundedStaleness(cfg, now, table, steps, n);
    hide Handle, Enabled, Do, ShowsOwned, Answers;
    var w := After(cfg, Start(now, table), steps);
    var s := w.responses[n];
    var i: nat, r: Time :|
      && s.at - cfg.ttl - cfg.gap <= r <= s.at && WasCurrent(w, i, r)
      && Answers(w.versions[i].table, cfg.mode, s.owner, cfg.route(s.req.target), s.answer);
    assert WasCurrent(w, i, r);
    HandleExactly(w.versions[i].table, cfg.mode, s.owner, cfg.route(s.req.target), s.answer);
    HandlerShowsOwned(w.versions[i].table, cfg.mode, s.owner, cfg.route(s.req.target));
  }

  /** In legacy mode an entry shared by callers without a usable session id is always the empty page. */
  lemma SharedEntriesAreEmpty(cfg: Config, now: Time, table: Table, steps: seq<Step>, key: Key)
    requires !cfg.isUuid("anon") && Legal(cfg, Start(now, table), steps)
    requires key in After(cfg, Start(now, table), steps).cache && KeyOwner(cfg, key).None?
    ensures cfg.route(key.target).ListQuery?
    ensures After(cfg, Start(now, table), steps).cache[key].answer == EmptyPage(cfg.route(key.target))
  {
    hide Handle, Enabled, Do;
    RunKeepsInv(cfg, Start(now, table), steps);
    var w := After(cfg, Start(now, table), steps);
    assert GoodEntry(cfg, w, key, w.cache[key]);
  }

  datatype CacheReply = CacheReply(answer: Answer, entries: map<Key, Entry>)

  /** What the wrapper answers and keeps, where `handled` is the handler's answer. */
  function Served(entries: map<Key, Entry>, key: Key, handled: Answer, now: Time, ttl: nat): CacheReply {
    if key in entries && now < entries[key].expires then CacheReply(entries[key].answer, entries)
    else CacheReply(handled, if Cacheable(handled) then entries[key := Entry(handled, now + ttl)] else entries)
  }

  /** The steps of a request that nothing interrupts. */
  ghost function Undisturbed(cfg: Config, w: World, rid: nat, req: Request, generated: string): seq<Step>
    requires w.versions != []
  {
    if Hit(cfg, w, MakeKey(cfg, req)) then [Arrive(rid, req, generated)]
    else if Cacheable(Handle(Current(w), cfg.mode, OwnerOf(cfg, req, generated), cfg.route(req.target))) then
      [Arrive(rid, req, generated), Read(rid), Store(rid)]
    else [Arrive(rid, req, generated), Read(rid)]
  }

  /** The world after a request was answered: one response more, and the answer cached if it came from a success. */
  ghost predicate Answered(cfg: Config, w: World, w': World, req: Request, owner: string, answer: Answer)
    requires w.versions != []
  {
    var key := MakeKey(cfg, req);
    var hit := key in w.cache && w.now < w.cache[key].expires;
    && (if hit then answer == w.cache[key].answer
        else Answers(w.versions[|w.versions| - 1].table, cfg.mode, owner, cfg.route(req.target), answer))
    && w' == w.(responses := w.responses + [Response(req, owner, w.now, answer)],
                cache := if !hit && (answer.PageAnswer? || answer.ItemAnswer?) then
                           w.cache[key := Entry(answer, w.now + cfg.ttl)]
                         else w.cache)
  }

  /**
   * A request that nothing interrupts is one call of the wrapper: a hit repeats the entry and changes
   * nothing, a miss answers what the current table says and caches exactly a success.
   */
  lemma UndisturbedCall(cfg: Config, w: World, rid: nat, req: Request, generated: string) returns (answer: Answer)
    requires w.versions != [] && Enabled(cfg, w, Arrive(rid, req, generated))
    ensures Legal(cfg, w, Undisturbed(cfg, w, rid, req, generated))
    ensures Answered(cfg, w, After(cfg, w, Undisturbed(cfg, w, rid, req, generated)), req, OwnerOf(cfg, req, generated), answer)
    ensures var handled := Handle(Current(w), cfg.mode, OwnerOf(cfg, req, generated), cfg.route(req.target));
            var w' := After(cfg, w, Undisturbed(cfg, w, rid, req, generated));
            CacheReply(answer, w'.cache) == Served(w.cache, MakeKey(cfg, req), handled, w.now, cfg.ttl)
  {
    hide Handle, Enabled, Do, Legal, After, Answers;
    var owner := OwnerOf(cfg, req, generated);
    answer := Handle(Current(w), cfg.mode, owner, cfg.route(req.target));
    if Hit(cfg, w, MakeKey(cfg, req)) {
      OneStep(cfg, w, Arrive(rid, req, generated));
      HitResponds(cfg, w, rid, req, generated);
      answer := w.cache[MakeKey(cfg, req)].answer;
    } else {
      MissRuns(cfg, w, rid, req, generated);
      HandleExactly(Current(w), cfg.mode, owner, cfg.route(req.target), answer);
    }
  }

  /** A later request with the same key repeats a cached success for the time to live, and reads the table again from then on. */
  lemma RepeatedFor(cfg: Config, w: World, w1: World, req: Request, owner: string, first: Answer,
                    to: Time, w2: World, again: Request, owner': string, second: Answer)
    requires w.versions != [] && Answered(cfg, w, w1, req, owner, first) && !Hit(cfg, w, MakeKey(cfg, req))
    requires first.PageAnswer? || first.ItemAnswer?
    requires MakeKey(cfg, again) == MakeKey(cfg, req) && w1.versions != []
    requires Enabled(cfg, w1, Tick(to)) && Answered(cfg, Do(cfg, w1, Tick(to)), w2, again, owner', second)
    ensures if to < w.now + cfg.ttl then second == first && w2.cache == w1.cache
            else Answers(w.versions[|w.versions| - 1].table, cfg.mode, owner', cfg.route(again.target), second)
  {
    hide Answers, Handle;
  }

  lemma HitResponds(cfg: Config, w: World, rid: nat, req: Request, generated: string)
    requires w.versions != [] && Enabled(cfg, w, Arrive(rid, req, generated)) && Hit(cfg, w, MakeKey(cfg, req))
    ensures Do(cfg, w, Arrive(rid, req, generated))
         == Respond(w, req, OwnerOf(cfg, req, generated), w.cache[MakeKey(cfg, req)].answer)
  {
    hide Handle;
  }

  lemma MissRuns(cfg: Config, w: World, rid: nat, req: Request, generated: string)
    requires w.versions != [] && Enabled(cfg, w, Arrive(rid, req, generated)) && !Hit(cfg, w, MakeKey(cfg, req))
    ensures var owner := OwnerOf(cfg, req, generated);
            var answer := Handle(Current(w), cfg.mode, owner, cfg.route(req.target));
            var key := MakeKey(cfg, req);
            && Legal(cfg, w, Undisturbed(cfg, w, rid, req, generated))
            && After(cfg, w, Undisturbed(cfg, w, rid, req, generated))
               == Respond(w, req, owner, answer).(cache :=
                    if Cacheable(answer) then w.cache[key := Entry(answer, w.now + cfg.ttl)] else w.cache)
  {
    hide Handle, OwnsNothing, Legal, After;
    var owner := OwnerOf(cfg, req, generated);
    var answer := Handle(Current(w), cfg.mode, owner, cfg.route(req.target));
    var w1 := Do(cfg, w, Arrive(rid, req, generated));
    assert w1 == w.(pending := w.pending[rid := Missed(req, owner)]);
    var w2 := Do(cfg, w1, Read(rid));
    if Cacheable(answer) {
      assert w2 == w.(pending := w.pending[rid := Loaded(req, owner, answer, w.now)]);
      var w3 := Do(cfg, w2, Store(rid));
      assert w3.pending == w.pending;
      ThreeSteps(cfg, w, Arrive(rid, req, generated), Read(rid), Store(rid));
    } else {
      assert w2.pending == w.pending;
      TwoSteps(cfg, w, Arrive(rid, req, generated), Read(rid));
    }
  }

  lemma TwoSteps(cfg: Config, w: World, a: Step, b: Step)
    requires w.versions != [] && Enabled(cfg, w, a) && Enabled(cfg, Do(cfg, w, a), b)
    ensures Legal(cfg, w, [a, b]) && After(cfg, w, [a, b]) == Do(cfg, Do(cfg, w, a), b)
  {
    hide Handle, Enabled, Do;
    var w1 := Do(cfg, w, a);
    OneStep(cfg, w1, b);
    assert [a, b][1..] == [b];
  }

  lemma OneStep(cfg: Config, w: World, a: Step)
    requires w.versions != [] && Enabled(cfg, w, a)
    ensures Legal(cfg, w, [a]) && After(cfg, w, [a]) == Do(cfg, w, a)
  {
    hide Handle, Enabled, Do;
    assert [a][1..] == [];
  }

  lemma ThreeSteps(cfg: Config, w: World, a: Step, b: Step, c: Step)
    requires w.versions != [] && Enabled(cfg, w, a) && Enabled(cfg, Do(cfg, w, a), b)
    requires Enabled(cfg, Do(cfg, Do(cfg, w, a), b), c)
    ensures Legal(cfg, w, [a, b, c]) && After(cfg, w, [a, b, c]) == Do(cfg, Do(cfg, Do(cfg, w, a), b), c)
  {
    hide Handle, Enabled, Do;
    TwoSteps(cfg, Do(cfg, w, a), b, c);
    assert [a, b, c][1..] == [b, c];
  }

  // ---------------------------------------------------------------- the decorator

  /** The wrapper `redis_cache` puts around a handler, as one undisturbed call. */
  class RedisCache {
    const ttl: nat
    var entries: map<Key, Entry>

    constructor (ttl: nat)
      ensures this.ttl == ttl && entries == map[]
    {
      this.ttl := ttl;
      entries := map[];
    }

    method Serve(svc: PS.ParcelService, key: Key, q: Query, owner: string, now: Time) returns (answer: Answer)
      modifies this`entries
      ensures CacheReply(answer, entries) == Served(old(entries), key, Handle(svc.parcels, svc.mode, owner, q), now, ttl)
      ensures key in old(entries) && now < old(entries)[key].expires ==>
                answer == old(entries)[key].answer && entries == old(entries)
      ensures !(key in old(entries) && now < old(entries)[key].expires) ==>
                && Answers(svc.parcels, svc.mode, owner, q, answer)
                && entries == if answer.PageAnswer? || answer.ItemAnswer? then old(entries)[key := Entry(answer, now + ttl)]
                              else old(entries)
    {
      hide Answers;
      if key in entries && now < entries[key].expires {
        return entries[key].answer;
      }
      match q {
        case ListQuery(filters, limit, offset) =>
          var page := svc.ListOwned(owner, filters, limit, offset);
          answer := PageAnswer(ItemsOf(svc.parcels, page.ids), page.total, limit, offset);
        case DetailQuery(id) =>
          var r := svc.GetOwned(id, owner);
          answer := DetailAnswer(id, r);
      }
      HandleExactly(svc.parcels, svc.mode, owner, q, answer);
      if Cacheable(answer) {
        entries := entries[key := Entry(answer, now + ttl)];
      }
    }
  }
}
