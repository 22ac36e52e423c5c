/** Owner-scoped reads and creation of parcels, in both ownership modes. */
module ParcelService {
  import opened Wrappers
  import opened Parcels
  import opened Decimals
  import opened Pricing
  import opened DeliveryTable

  /** `AUTH_REQUIRED` off and on. */
  datatype Mode = Legacy | Jwt

  datatype Filters = Filters(typeId: Option<string>, hasCost: Option<bool>)

  /** The SQL conditions `list_owned` collects. */
  datatype Condition = UserIs(owner: string) | SessionIs(owner: string) | TypeIs(typeId: string) | CostKnown | CostPending

  predicate Meets(p: Parcel, c: Condition) {
    match c
    case UserIs(owner) => p.userId == Some(owner)
    case SessionIs(owner) => p.sessionId == owner
    case TypeIs(typeId) => p.typeId == typeId
    case CostKnown => p.cost.Some?
    case CostPending => p.cost.None?
  }

  /** Who may see a parcel. */
  predicate Owns(p: Parcel, mode: Mode, owner: string) {
    match mode
    case Legacy => p.sessionId == owner
    case Jwt => p.userId == Some(owner)
  }

  predicate Passes(p: Parcel, filters: Filters) {
    && (filters.typeId.Some? ==> p.typeId == filters.typeId.value)
    && (filters.hasCost.Some? ==> p.cost.Some? == filters.hasCost.value)
  }

  function Selected(t: Table, mode: Mode, owner: string, filters: Filters): set<ParcelId> {
    set id | id in t && Owns(t[id], mode, owner) && Passes(t[id], filters)
  }

  const NO_FILTER := Filters(None, None)

  // ---------------------------------------------------------------- ORDER BY id

  ghost predicate IsLeast(s: set<ParcelId>, m: ParcelId) {
    m in s && forall x :: x in s ==> m <= x
  }

  lemma {:induction false} LeastExists(s: set<ParcelId>)
    requires s != {}
    ensures exists m :: IsLeast(s, m)
  {
    var x :| x in s;
    if s == {x} {
      assert IsLeast(s, x);
    } else {
      var rest := s - {x};
      assert rest != {};
      LeastExists(rest);
      var m :| IsLeast(rest, m);
      var least := if x <= m then x else m;
      forall y | y in s
        ensures least <= y
      {
        assert y == x || y in rest;
      }
      assert IsLeast(s, least);
    }
  }

  ghost function Least(s: set<ParcelId>): (m: ParcelId)
    requires s != {}
    ensures IsLeast(s, m)
  {
    LeastExists(s);
    var m :| IsLeast(s, m);
    m
  }

  ghost predicate Increasing(ids: seq<ParcelId>) {
    forall i, k :: 0 <= i < k < |ids| ==> ids[i] < ids[k]
  }

  lemma Prepended(m: ParcelId, rest: seq<ParcelId>, s: set<ParcelId>)
    requires IsLeast(s, m) && Increasing(rest) && |rest| == |s - {m}| && forall id :: id in rest <==> id in s - {m}
    ensures Increasing([m] + rest) && |[m] + rest| == |s| && forall id :: id in [m] + rest <==> id in s
  {
    var ids := [m] + rest;
    forall i, k | 0 <= i < k < |ids|
      ensures ids[i] < ids[k]
    {
      assert ids[k] == rest[k - 1] && rest[k - 1] in rest;
      assert i > 0 ==> ids[i] == rest[i - 1];
    }
    forall id
      ensures id in ids <==> id in s
    {
      assert id in ids <==> id == m || id in rest;
    }
  }

  lemma Appended(ids: seq<ParcelId>, m: ParcelId)
    requires Increasing(ids) && forall a :: a in ids ==> a < m
    ensures Increasing(ids + [m])
  {
    forall i, k | 0 <= i < k < |ids| + 1
      ensures (ids + [m])[i] < (ids + [m])[k]
    {
      assert ids[i] in ids;
    }
  }

  /** The ids in ascending order. */
  ghost function Sorted(s: set<ParcelId>): (ids: seq<ParcelId>)
    ensures forall id :: id in ids <==> id in s
    ensures Increasing(ids) && |ids| == |s|
  {
    if s == {} then [] else
      var rest := Sorted(s - {Least(s)});
      Prepended(Least(s), rest, s);
      [Least(s)] + rest
  }

  /** Two ascending lists of the same ids are equal. */
  lemma {:induction false} SortedUnique(a: seq<ParcelId>, b: seq<ParcelId>)
    requires Increasing(a) && Increasing(b) && forall id :: id in a <==> id in b
    ensures a == b
  {
    assert a != [] ==> a[0] in a;
    assert b != [] ==> b[0] in b;
    if a != [] {
      assert a[0] in b && b[0] in a;
      assert a[0] == b[0];
      forall id
        ensures id in a[1..] <==> id in b[1..]
      {
        assert id in a[1..] <==> id in a && id != a[0];
        assert id in b[1..] <==> id in b && id != b[0];
      }
      SortedUnique(a[1..], b[1..]);
    }
  }

  // ---------------------------------------------------------------- queries

  /** LIMIT and OFFSET. */
  function Slice<T>(rows: seq<T>, limit: nat, offset: nat): seq<T> {
    rows[Min(offset, |rows|)..Min(offset + limit, |rows|)]
  }

  datatype Page = Page(total: nat, ids: seq<ParcelId>)

  lemma SliceMembers<T>(rows: seq<T>, limit: nat, offset: nat)
    ensures forall x :: x in Slice(rows, limit, offset) ==> x in rows
    ensures |Slice(rows, limit, offset)| <= limit
  {
  }

  ghost function List(t: Table, mode: Mode, owner: string, filters: Filters, limit: nat, offset: nat): (page: Page)
    ensures forall id :: id in page.ids ==> id in t && Owns(t[id], mode, owner) && Passes(t[id], filters)
    ensures |page.ids| <= limit
  {
    hide Slice;
    var rows := Selected(t, mode, owner, filters);
    SliceMembers(Sorted(rows), limit, offset);
    Page(|rows|, Slice(Sorted(rows), limit, offset))
  }

  /** The page over the table's columns. */
  ghost predicate IsPage(t: Table, mode: Mode, owner: string, filters: Filters, limit: nat, offset: nat, page: Page) {
    IsSlice(Matching(t, mode, owner, filters), limit, offset, page)
  }

  ghost function Matching(t: Table, mode: Mode, owner: string, filters: Filters): set<ParcelId> {
    set id | id in t && Matches(t[id], mode, owner, filters)
  }

  /** The number of all rows, and at place k the one that (offset + k) of them come before. */
  ghost predicate IsSlice(rows: set<ParcelId>, limit: nat, offset: nat, page: Page) {
    && page.total == |rows|
    && |page.ids| == (if offset + limit <= page.total then limit else if offset <= page.total then page.total - offset else 0)
    && forall k :: 0 <= k < |page.ids| ==> page.ids[k] in rows && |Below(rows, page.ids[k])| == offset + k
  }

  ghost function Below(rows: set<ParcelId>, m: ParcelId): set<ParcelId> {
    set id | id in rows && id < m
  }

  /** The owner column of the mode, the type column and the nullness of the cost. */
  ghost predicate Matches(p: Parcel, mode: Mode, owner: string, filters: Filters) {
    && (if mode.Jwt? then p.userId == Some(owner) else p.sessionId == owner)
    && (filters.typeId.Some? ==> p.typeId == filters.typeId.value)
    && (filters.hasCost == Some(true) ==> p.cost.Some?)
    && (filters.hasCost == Some(false) ==> p.cost.None?)
  }

  /** The place of an id in an ascending list is the number of smaller ones. */
  lemma {:induction false} RankOf(ids: seq<ParcelId>, rows: set<ParcelId>, i: nat)
    requires Increasing(ids) && i < |ids| && forall id :: id in ids <==> id in rows
    ensures ids[i] in rows && |Below(rows, ids[i])| == i
  {
    if i == 0 {
      assert Below(rows, ids[0]) == {};
    } else {
      RankOf(ids, rows, i - 1);
      assert Below(rows, ids[i]) == Below(rows, ids[i - 1]) + {ids[i - 1]};
    }
  }

  /** Two pages of the same rows are equal. */
  lemma SliceUnique(rows: set<ParcelId>, limit: nat, offset: nat, a: Page, b: Page)
    requires IsSlice(rows, limit, offset, a) && IsSlice(rows, limit, offset, b)
    ensures a == b
  {
    hide Below;
    forall k | 0 <= k < |a.ids|
      ensures a.ids[k] == b.ids[k]
    {
      RankGrows(rows, a.ids[k], b.ids[k]);
      RankGrows(rows, b.ids[k], a.ids[k]);
    }
  }

  lemma RankGrows(rows: set<ParcelId>, a: ParcelId, b: ParcelId)
    requires a in rows
    ensures a < b ==> |Below(rows, a)| < |Below(rows, b)|
  {
    if a < b {
      var above := Below(rows, b);
      assert above == Below(rows, a) + {a} + (above - Below(rows, a) - {a});
    }
  }

  lemma SortedSlice(rows: set<ParcelId>, limit: nat, offset: nat)
    ensures IsSlice(rows, limit, offset, Page(|rows|, Slice(Sorted(rows), limit, offset)))
  {
    hide Below, Sorted;
    var ids := Slice(Sorted(rows), limit, offset);
    forall k | 0 <= k < |ids|
      ensures ids[k] in rows && |Below(rows, ids[k])| == offset + k
    {
      assert ids[k] == Sorted(rows)[offset + k];
      RankOf(Sorted(rows), rows, offset + k);
    }
  }

  /** What `List` selects, counts and orders, at every offset. */
  lemma ListExactly(t: Table, mode: Mode, owner: string, filters: Filters, limit: nat, offset: nat, page: Page)
    ensures page == List(t, mode, owner, filters, limit, offset) <==> IsPage(t, mode, owner, filters, limit, offset, page)
  {
    var rows := Matching(t, mode, owner, filters);
    assert Selected(t, mode, owner, filters) == rows;
    hide Matching, Selected, IsSlice, Sorted, Slice;
    SortedSlice(rows, limit, offset);
    if IsPage(t, mode, owner, filters, limit, offset, page) {
      SliceUnique(rows, limit, offset, page, List(t, mode, owner, filters, limit, offset));
    }
  }

  /** A read of one parcel: missing, the owner's with every column, or somebody else's. */
  lemma GetExactly(t: Table, mode: Mode, owner: string, id: ParcelId, r: Lookup)
    ensures r == Get(t, mode, owner, id) <==>
              if id !in t then r.NotFound?
              else if (if mode.Jwt? then t[id].userId == Some(owner) else t[id].sessionId == owner) then
                r.Found? && r.parcel == t[id]
              else r.NotOwned?
  {
  }

  datatype Lookup = Found(parcel: Parcel) | NotFound | NotOwned

  function Get(t: Table, mode: Mode, owner: string, id: ParcelId): Lookup {
    if id !in t then NotFound else if Owns(t[id], mode, owner) then Found(t[id]) else NotOwned
  }

  // ---------------------------------------------------------------- creation

  /** A validated request body: weight in thousandths of a kilogram, value in cents. */
  datatype Dto = Dto(name: string, weight: int, declared: nat, typeId: string)

  datatype CreateResult = Created(id: ParcelId) | UnknownType | WeightNotPositive | ColumnOverflow

  datatype Creation = Creation(table: Table, result: CreateResult)

  function NewParcel(dto: Dto, mode: Mode, owner: string): Parcel
    requires dto.weight > 0
  {
    Parcel(dto.name, dto.weight, dto.declared, dto.typeId,
           if mode.Legacy? then owner else "", if mode.Jwt? then Some(owner) else None, None)
  }

  function Create(t: Table, types: set<string>, mode: Mode, dto: Dto, owner: string, newId: ParcelId): Creation {
    if dto.typeId !in types || dto.typeId == "" then Creation(t, UnknownType)
    else if dto.weight <= 0 then Creation(t, WeightNotPositive)
    else if dto.weight >= WEIGHT_LIMIT || dto.declared >= MONEY_LIMIT then Creation(t, ColumnOverflow)
    else Creation(t[newId := NewParcel(dto, mode, owner)], Created(newId))
  }

  /** The row holds what the body said, for the owner of the mode. */
  ghost predicate BodyStored(p: Parcel, dto: Dto, mode: Mode, owner: string) {
    && p.name == dto.name && p.weight == dto.weight && p.declared == dto.declared && p.typeId == dto.typeId
    && (mode.Legacy? ==> p.sessionId == owner && p.userId.None?)
    && (mode.Jwt? ==> p.sessionId == "" && p.userId == Some(owner))
  }

  /** The answer to any body, and the row it leaves. */
  lemma CreateEffect(t: Table, types: set<string>, mode: Mode, dto: Dto, owner: string, newId: ParcelId)
    requires newId !in t
    ensures var r := Create(t, types, mode, dto, owner, newId);
            var known := dto.typeId in types && dto.typeId != "";
            && (r.result == UnknownType <==> !known)
            && (r.result == WeightNotPositive <==> known && dto.weight <= 0)
            && (r.result == ColumnOverflow <==>
                  known && (dto.weight >= 10000000000 || (dto.weight > 0 && dto.declared >= 1000000000000)))
            && (r.result.Created? <==> known && 0 < dto.weight < 10000000000 && dto.declared < 1000000000000)
            && (if r.result.Created? then
                  && r.result.id == newId && r.table.Keys == t.Keys + {newId}
                  && (forall id :: id in t ==> r.table[id] == t[id])
                  && BodyStored(r.table[newId], dto, mode, owner) && r.table[newId].cost.None?
                else r.table == t)
  {
  }

  /** What the request schema lets through: 10 digits of weight, 14 of value. */
  predicate SchemaValid(dto: Dto) {
    0 < dto.weight < 10000000000 && dto.declared < 100000000000000
  }

  /** A validated body is stored exactly when its type is known and its value fits the narrower column. */
  lemma CreatedExactly(t: Table, types: set<string>, mode: Mode, dto: Dto, owner: string, newId: ParcelId)
    requires SchemaValid(dto) && newId !in t
    ensures var r := Create(t, types, mode, dto, owner, newId);
            && (r.result.Created? <==> dto.typeId in types && dto.typeId != "" && dto.declared < MONEY_LIMIT)
            && (r.result == ColumnOverflow <==> dto.typeId in types && dto.typeId != "" && dto.declared >= MONEY_LIMIT)
            && (if r.result.Created? then
                  && r.table.Keys == t.Keys + {newId} && (forall id :: id in t ==> r.table[id] == t[id])
                  && FitsColumns(r.table[newId]) && BodyStored(r.table[newId], dto, mode, owner)
                  && Unpriced(r.table) == Unpriced(t) + {newId}
                else r.table == t)
  {
    var r := Create(t, types, mode, dto, owner, newId);
    if r.result.Created? {
      assert Unpriced(r.table) == Unpriced(t) + {newId};
    }
  }

  /** The least declared value that the schema admits and the column refuses. */
  lemma SchemaWiderThanColumn(t: Table, mode: Mode, owner: string, newId: ParcelId)
    ensures var dto := Dto("", 1, MONEY_LIMIT, "type");
            SchemaValid(dto) && Create(t, {"type"}, mode, dto, owner, newId) == Creation(t, ColumnOverflow)
  {
  }

  class ParcelService {
    const mode: Mode
    const types: set<string>
    var parcels: Table

    constructor (mode: Mode, types: set<string>, parcels: Table)
      ensures this.mode == mode && this.types == types && this.parcels == parcels
    {
      this.mode, this.types, this.parcels := mode, types, parcels;
    }

    method CreateFromDto(dto: Dto, owner: string, newId: ParcelId) returns (r: CreateResult)
      requires newId !in parcels
      modifies this`parcels
      ensures Creation(parcels, r) == Create(old(parcels), types, mode, dto, owner, newId)
      ensures if r.Created? then
                && parcels.Keys == old(parcels).Keys + {newId}
                && (forall id :: id in old(parcels) ==> parcels[id] == old(parcels)[id])
                && BodyStored(parcels[newId], dto, mode, owner) && parcels[newId].cost.None?
              else parcels == old(parcels)
      ensures (forall id :: id in old(parcels) ==> FitsColumns(old(parcels)[id]))
              ==> forall id :: id in parcels ==> FitsColumns(parcels[id])
    {
      var typeExists := dto.typeId in types && dto.typeId != "";
      if !typeExists {
        return UnknownType;
      }
      if dto.weight <= 0 {
        return WeightNotPositive;
      }
      var parcel := Parcel(dto.name, dto.weight, dto.declared, dto.typeId,
                           if mode != Jwt then owner else "", if mode == Jwt then Some(owner) else None, None);
      if parcel.weight >= WEIGHT_LIMIT || parcel.declared >= MONEY_LIMIT {
        return ColumnOverflow;
      }
      parcels := parcels[newId := parcel];
      r := Created(newId);
    }

    method GetOwned(id: ParcelId, owner: string) returns (r: Lookup)
      ensures r == Get(parcels, mode, owner, id)
      ensures r.NotFound? <==> id !in parcels
      ensures r.Found? ==> r.parcel == parcels[id]
      ensures r.Found? <==> id in Sorted(Selected(parcels, mode, owner, NO_FILTER))
    {
      if id !in parcels {
        return NotFound;
      }
      var parcel := parcels[id];
      var ownerMatch := if mode == Jwt then parcel.userId == Some(owner) else parcel.sessionId == owner;
      if !ownerMatch {
        return NotOwned;
      }
      r := Found(parcel);
    }

    /** The query of `list_owned`: collect conditions, count the rows that meet them all, return one ordered page. */
    method ListOwned(owner: string, filters: Filters, limit: nat, offset: nat) returns (page: Page)
      ensures page == List(parcels, mode, owner, filters, limit, offset)
      ensures IsPage(parcels, mode, owner, filters, limit, offset, page)
    {
      var conditions := if mode == Jwt then [UserIs(owner)] else [SessionIs(owner)];
      if filters.typeId.Some? {
        conditions := conditions + [TypeIs(filters.typeId.value)];
      }
      if filters.hasCost == Some(true) {
        conditions := conditions + [CostKnown];
      }
      if filters.hasCost == Some(false) {
        conditions := conditions + [CostPending];
      }
      var rows := set id | id in parcels && forall c :: c in conditions ==> Meets(parcels[id], c);
      forall id | id in parcels
        ensures (forall c :: c in conditions ==> Meets(parcels[id], c))
           <==> Owns(parcels[id], mode, owner) && Passes(parcels[id], filters)
      {
        assert mode == Jwt ==> UserIs(owner) in conditions;
        assert mode == Legacy ==> SessionIs(owner) in conditions;
        assert filters.typeId.Some? ==> TypeIs(filters.typeId.value) in conditions;
        assert filters.hasCost == Some(true) ==> CostKnown in conditions;
        assert filters.hasCost == Some(false) ==> CostPending in conditions;
      }
      assert rows == Selected(parcels, mode, owner, filters);
      var ids := InOrder(rows);
      SortedUnique(ids, Sorted(rows));
      page := Page(|rows|, Slice(ids, limit, offset));
      ListExactly(parcels, mode, owner, filters, limit, offset, page);
    }

    static method InOrder(s: set<ParcelId>) returns (ids: seq<ParcelId>)
      ensures Increasing(ids) && forall id :: id in ids <==> id in s
    {
      ids := [];
      var left := s;
      while left != {}
        invariant left <= s && Increasing(ids)
        invariant forall id :: id in ids <==> id in s - left
        invariant forall a, b :: a in ids && b in left ==> a < b
        decreases left
      {
        LeastExists(left);
        var m :| m in left && forall x :: x in left ==> m <= x;
        Appended(ids, m);
        ids := ids + [m];
        left := left - {m};
      }
    }
  }

  // ---------------------------------------------------------------- collation

  /** The rows `list_owned` selects when the database compares strings with `eq`. */
  function Listed(t: Table, mode: Mode, owner: string, eq: (string, string) -> bool): set<ParcelId> {
    set id | id in t && match mode
                        case Legacy => eq(t[id].sessionId, owner)
                        case Jwt => t[id].userId.Some? && eq(t[id].userId.value, owner)
  }

  /** Listing and fetching agree on who owns what, in either mode, exactly when SQL equality is exact. */
  lemma CollationExact(mode: Mode, eq: (string, string) -> bool)
    ensures (forall t, owner, id :: id in Listed(t, mode, owner, eq) <==> Get(t, mode, owner, id).Found?)
        <==> (forall a, b :: eq(a, b) <==> a == b)
  {
    if forall t, owner, id :: id in Listed(t, mode, owner, eq) <==> Get(t, mode, owner, id).Found? {
      forall a, b
        ensures eq(a, b) <==> a == b
      {
        var t: Table := map[0 := Parcel("", 1, 0, "", a, Some(a), None)];
        assert 0 in Listed(t, mode, b, eq) <==> Get(t, mode, b, 0).Found?;
      }
    }
  }

  /** The owner column of a row, null for a row that the mode does not ask about. */
  function StoredOwner(p: Parcel, mode: Mode): Option<string> {
    match mode
    case Legacy => Some(p.sessionId)
    case Jwt => p.userId
  }

  /** What `owner` can list is what `owner` can fetch. */
  ghost predicate Agree(t: Table, mode: Mode, owner: string, eq: (string, string) -> bool) {
    forall id :: id in Listed(t, mode, owner, eq) <==> Get(t, mode, owner, id).Found?
  }

  function LowerChar(c: char): char {
    if 'A' <= c <= 'Z' then c - 'A' + 'a' else c
  }

  function Lower(s: string): (l: string)
    ensures |l| == |s| && forall i :: 0 <= i < |s| ==> l[i] == LowerChar(s[i])
  {
    seq(|s|, i requires 0 <= i < |s| => LowerChar(s[i]))
  }

  /** The comparison of a collation that ignores case. */
  function CaseBlind(a: string, b: string): bool {
    Lower(a) == Lower(b)
  }

  /** `str(uuid4())` is canonical, as is the empty session id; a header need not be. */
  predicate Canonical(s: string) {
    Lower(s) == s
  }

  lemma LowerTwice(s: string)
    ensures Canonical(Lower(s))
  {
  }

  const LOWER_CASE := "0f8fad5b-d9cb-469f-a165-70867728950e"
  const UPPER_CASE := "0F8FAD5B-D9CB-469F-A165-70867728950E"

  lemma TwoSpellings()
    ensures Lower(UPPER_CASE) == LOWER_CASE && Canonical(LOWER_CASE) && UPPER_CASE != LOWER_CASE
  {
    assert LOWER_CASE[1] == 'f' && UPPER_CASE[1] == 'F';
    assert |UPPER_CASE| == |LOWER_CASE| == 36;
    forall i | 0 <= i < 36
      ensures LowerChar(UPPER_CASE[i]) == LOWER_CASE[i]
    {
    }
    LowerTwice(UPPER_CASE);
  }

  /** A parcel that its owner, spelling their session id in capitals, can list and not fetch. */
  lemma ListedNotFetched()
    ensures var t: Table := map[0 := Parcel("", 1, 0, "", LOWER_CASE, None, None)];
            && CaseBlind(LOWER_CASE, UPPER_CASE) && 0 in Listed(t, Legacy, UPPER_CASE, CaseBlind)
            && Get(t, Legacy, UPPER_CASE, 0) == NotOwned && !Agree(t, Legacy, UPPER_CASE, CaseBlind)
  {
    TwoSpellings();
    OtherSpelling(LOWER_CASE, UPPER_CASE);
  }

  lemma OtherSpelling(stored: string, caller: string)
    requires CaseBlind(stored, caller) && stored != caller
    ensures var t: Table := map[0 := Parcel("", 1, 0, "", stored, None, None)];
            && 0 in Listed(t, Legacy, caller, CaseBlind)
            && Get(t, Legacy, caller, 0) == NotOwned && !Agree(t, Legacy, caller, CaseBlind)
  {
    hide CaseBlind;
    var t: Table := map[0 := Parcel("", 1, 0, "", stored, None, None)];
    assert 0 in Listed(t, Legacy, caller, CaseBlind) && !Get(t, Legacy, caller, 0).Found?;
  }

  /**
   * Where every stored owner is canonical, case-blind listing agrees with fetching for exactly the
   * callers who spell their id so, or whose id owns nothing.
   */
  lemma AgreesForCanonical(t: Table, mode: Mode, owner: string)
    requires forall id :: id in t && StoredOwner(t[id], mode).Some? ==> Canonical(StoredOwner(t[id], mode).value)
    ensures Agree(t, mode, owner, CaseBlind)
        <==> Canonical(owner) || forall id :: id in t ==> !Owns(t[id], mode, Lower(owner))
  {
    LowerTwice(owner);
    if Agree(t, mode, owner, CaseBlind) && !Canonical(owner) {
      forall id | id in t
        ensures !Owns(t[id], mode, Lower(owner))
      {
        assert id in Listed(t, mode, owner, CaseBlind) <==> Get(t, mode, owner, id).Found?;
      }
    }
  }

  // ---------------------------------------------------------------- pagination

  /** The pages at offsets 0, limit, 2 * limit, ..., put end to end. */
  ghost function Pages(t: Table, mode: Mode, owner: string, filters: Filters, limit: nat, count: nat): seq<ParcelId> {
    if count == 0 then [] else
      Pages(t, mode, owner, filters, limit, count - 1) + List(t, mode, owner, filters, limit, (count - 1) * limit).ids
  }

  lemma SliceExtends<T>(rows: seq<T>, lo: nat, limit: nat)
    ensures rows[..Min(lo, |rows|)] + Slice(rows, limit, lo) == rows[..Min(lo + limit, |rows|)]
  {
  }

  lemma {:induction false} PagesArePrefix(t: Table, mode: Mode, owner: string, filters: Filters, limit: nat, count: nat)
    ensures var rows := Sorted(Selected(t, mode, owner, filters));
            Pages(t, mode, owner, filters, limit, count) == rows[..Min(count * limit, |rows|)]
  {
    hide Sorted, Selected;
    if count > 0 {
      PagesArePrefix(t, mode, owner, filters, limit, count - 1);
      SliceExtends(Sorted(Selected(t, mode, owner, filters)), (count - 1) * limit, limit);
      hide Slice;
      assert count * limit == (count - 1) * limit + limit;
    } else {
      assert 0 * limit == 0;
    }
  }

  /** Reading pages until `total` is covered gives every selected parcel once, in id order. */
  lemma Pagination(t: Table, mode: Mode, owner: string, filters: Filters, limit: nat, count: nat)
    requires count * limit >= List(t, mode, owner, filters, limit, 0).total
    ensures var all := Pages(t, mode, owner, filters, limit, count);
            && all == Sorted(Selected(t, mode, owner, filters))
            && |all| == List(t, mode, owner, filters, limit, 0).total
            && Increasing(all)
            && forall id :: id in all <==> id in t && Owns(t[id], mode, owner) && Passes(t[id], filters)
  {
    PagesArePrefix(t, mode, owner, filters, limit, count);
    var rows := Sorted(Selected(t, mode, owner, filters));
    assert rows[..|rows|] == rows;
  }

  /** `has_cost` true and false split the list with any other filter. */
  lemma CostFilterPartitions(t: Table, mode: Mode, owner: string, typeId: Option<string>)
    ensures var ready := Selected(t, mode, owner, Filters(typeId, Some(true)));
            var pending := Selected(t, mode, owner, Filters(typeId, Some(false)));
            var all := Selected(t, mode, owner, Filters(typeId, None));
            ready !! pending && ready + pending == all && |ready| + |pending| == |all|
  {
    var ready := Selected(t, mode, owner, Filters(typeId, Some(true)));
    var pending := Selected(t, mode, owner, Filters(typeId, Some(false)));
    assert ready + pending == Selected(t, mode, owner, Filters(typeId, None));
  }

  // ---------------------------------------------------------------- mixing the modes

  datatype Event =
    | Add(mode: Mode, owner: string, dto: Dto, newId: ParcelId)
    | Price(rows: set<ParcelId>, rate: Decimal)

  function Apply(t: Table, types: set<string>, e: Event): Table {
    match e
    case Add(mode, owner, dto, newId) => Create(t, types, mode, dto, owner, newId).table
    case Price(rows, rate) => Priced(t, rows, rate)
  }

  function History(t: Table, types: set<string>, events: seq<Event>): Table {
    if events == [] then t else Apply(History(t, types, events[..|events| - 1]), types, events[|events| - 1])
  }

  predicate FreshIds(t: Table, types: set<string>, events: seq<Event>) {
    events != [] ==>
      && FreshIds(t, types, events[..|events| - 1])
      && (events[|events| - 1].Add? ==> events[|events| - 1].newId !in History(t, types, events[..|events| - 1]))
  }

  /** Event `i` created the parcel. */
  predicate CreatedAt(t: Table, types: set<string>, events: seq<Event>, i: nat, id: ParcelId)
    requires i < |events|
  {
    var e := events[i];
    e.Add? && e.newId == id && Create(History(t, types, events[..i]), types, e.mode, e.dto, e.owner, e.newId).result.Created?
  }

  lemma {:induction false} OwnershipKept(t: Table, types: set<string>, events: seq<Event>, i: nat, id: ParcelId)
    requires FreshIds(t, types, events) && i < |events| && CreatedAt(t, types, events, i, id)
    ensures var t' := History(t, types, events);
            var p := NewParcel(events[i].dto, events[i].mode, events[i].owner);
            id in t' && t'[id].sessionId == p.sessionId && t'[id].userId == p.userId
    decreases |events|
  {
    var n := |events| - 1;
    var before := events[..n];
    if i < n {
      assert before[..i] == events[..i] && before[i] == events[i];
      OwnershipKept(t, types, before, i, id);
    }
  }

  /** Event `k` is the last one that priced the parcel. */
  ghost predicate LastPriced(events: seq<Event>, id: ParcelId, k: nat) {
    && k < |events| && events[k].Price? && id in events[k].rows
    && forall m :: k < m < |events| && events[m].Price? ==> id !in events[m].rows
  }

  /**
   * After any history a created parcel still holds what its body said.  It has no price until an event
   * prices it, and then the formula on the body's weight and value at the last such rate.
   */
  lemma {:induction false} HistoryKeepsBody(t: Table, types: set<string>, events: seq<Event>, i: nat, id: ParcelId)
    requires FreshIds(t, types, events) && i < |events| && CreatedAt(t, types, events, i, id)
    ensures var t', dto := History(t, types, events), events[i].dto;
            && id in t' && BodyStored(t'[id], dto, events[i].mode, events[i].owner)
            && (t'[id].cost.None? <==> forall k :: i < k < |events| && events[k].Price? ==> id !in events[k].rows)
            && forall k :: i < k && LastPriced(events, id, k) ==>
                 t'[id].cost == Some(StoreHundredths(Formula(Decimal(dto.weight, -3), Decimal(dto.declared, -2), events[k].rate)))
    decreases |events|
  {
    hide Formula, StoreHundredths, Apply, Create, LastPriced;
    var n := |events| - 1;
    var before := events[..n];
    if i == n {
      hide Formula, StoreHundredths;
      CreateEffect(History(t, types, before), types, events[n].mode, events[n].dto, events[n].owner, id);
      CreatedLast(t, types, events, id);
      NotPricedYet(events, id);
    } else {
      assert before[..i] == events[..i] && before[i] == events[i];
      HistoryKeepsBody(t, types, before, i, id);
      EventKeepsBody(History(t, types, before), types, events[n], events[i].dto, events[i].mode, events[i].owner, id);
      if events[n].Price? && id in events[n].rows {
        OnlyLastPriced(events, id);
      } else {
        PricedBefore(events, id);
      }
    }
  }

  lemma CreatedLast(t: Table, types: set<string>, events: seq<Event>, id: ParcelId)
    requires events != [] && CreatedAt(t, types, events, |events| - 1, id)
    ensures var e := events[|events| - 1];
            e.Add? && e.newId == id
            && History(t, types, events) == Create(History(t, types, events[..|events| - 1]), types, e.mode, e.dto, e.owner, id).table
  {
    hide Create;
  }

  lemma NotPricedYet(events: seq<Event>, id: ParcelId)
    ensures forall k: nat :: |events| - 1 < k ==> !LastPriced(events, id, k)
  {
  }

  lemma OnlyLastPriced(events: seq<Event>, id: ParcelId)
    requires events != [] && events[|events| - 1].Price? && id in events[|events| - 1].rows
    ensures forall k: nat :: LastPriced(events, id, k) ==> k == |events| - 1
  {
  }

  lemma PricedBefore(events: seq<Event>, id: ParcelId)
    requires events != [] && !(events[|events| - 1].Price? && id in events[|events| - 1].rows)
    ensures forall k: nat :: LastPriced(events, id, k) ==> k < |events| - 1 && LastPriced(events[..|events| - 1], id, k)
  {
    var before := events[..|events| - 1];
    forall k: nat | LastPriced(events, id, k)
      ensures k < |before| && LastPriced(before, id, k)
    {
      assert k != |before|;
      assert forall m :: k < m < |before| ==> before[m] == events[m];
    }
  }

  /** A later event leaves the body's columns and prices the row with the formula if it lists it. */
  lemma EventKeepsBody(t: Table, types: set<string>, e: Event, dto: Dto, mode: Mode, owner: string, id: ParcelId)
    requires id in t && BodyStored(t[id], dto, mode, owner) && (e.Add? ==> e.newId !in t)
    ensures var t' := Apply(t, types, e);
            && id in t' && BodyStored(t'[id], dto, mode, owner)
            && t'[id].cost == if e.Price? && id in e.rows then
                 Some(StoreHundredths(Formula(Decimal(dto.weight, -3), Decimal(dto.declared, -2), e.rate)))
               else t[id].cost
  {
    hide Formula, StoreHundredths;
  }

  /**
   * Over any history that mixes both modes, a parcel is visible to exactly its creator in the mode of
   * its creation; the one exception is the empty session id, which no legacy request carries.
   */
  lemma VisibleToCreator(t: Table, types: set<string>, events: seq<Event>, i: nat, id: ParcelId, mode: Mode, owner: string)
    requires FreshIds(t, types, events) && i < |events| && CreatedAt(t, types, events, i, id)
    ensures var t' := History(t, types, events);
            var e := events[i];
            && (Get(t', mode, owner, id).Found? <==> id in Sorted(Selected(t', mode, owner, NO_FILTER)))
            && (Get(t', mode, owner, id).Found? <==>
                  (mode == e.mode && owner == e.owner) || (mode == Legacy && e.mode == Jwt && owner == ""))
  {
    OwnershipKept(t, types, events, i, id);
  }

  predicate CanonicalOwners(t: Table) {
    forall id :: id in t ==>
      Canonical(t[id].sessionId) && (t[id].userId.Some? ==> Canonical(t[id].userId.value))
  }

  lemma {:induction false} HistoryStaysCanonical(t: Table, types: set<string>, events: seq<Event>)
    requires CanonicalOwners(t)
    requires forall i :: 0 <= i < |events| && events[i].Add? ==> Canonical(events[i].owner)
    ensures CanonicalOwners(History(t, types, events))
  {
    hide StoredCost, Canonical;
    if events != [] {
      var n := |events| - 1;
      HistoryStaysCanonical(t, types, events[..n]);
      EmptyIsCanonical();
    }
  }

  lemma EmptyIsCanonical()
    ensures Canonical("")
  {
  }

  /** The same after any history whose creators spelled their ids canonically. */
  lemma AgreementOverHistories(t: Table, types: set<string>, events: seq<Event>, mode: Mode, owner: string)
    requires CanonicalOwners(t)
    requires forall i :: 0 <= i < |events| && events[i].Add? ==> Canonical(events[i].owner)
    ensures var t' := History(t, types, events);
            Agree(t', mode, owner, CaseBlind)
            <==> Canonical(owner) || forall id :: id in t' ==> !Owns(t'[id], mode, Lower(owner))
  {
    HistoryStaysCanonical(t, types, events);
    hide Canonical;
    AgreesForCanonical(History(t, types, events), mode, owner);
  }
}
