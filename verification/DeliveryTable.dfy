/** Pricing a set of rows of the parcel table, and the one-pass job it adds up to. */
module DeliveryTable {
  import opened Wrappers
  import opened Parcels
  import opened Decimals
  import opened Pricing

  /** Rows with `delivery_cost_rub IS NULL`. */
  function Unpriced(t: Table): set<ParcelId> {
    set id | id in t && t[id].cost.None?
  }

  function PricedRow(p: Parcel, rate: Decimal): Parcel {
    p.(cost := Some(StoredCost(p, rate)))
  }

  /** The table with the given rows priced at one rate. */
  function Priced(t: Table, rows: set<ParcelId>, rate: Decimal): Table {
    map id | id in t :: if id in rows then PricedRow(t[id], rate) else t[id]
  }

  /** The simple job: price everything pending in one pass. */
  function PriceAll(t: Table, rate: Decimal): Table {
    Priced(t, Unpriced(t), rate)
  }

  predicate AllFit(t: Table, rows: set<ParcelId>, rate: Decimal) {
    forall id :: id in rows && id in t ==> PriceFits(t[id], rate)
  }

  function Min(a: nat, b: nat): nat {
    if a <= b then a else b
  }

  lemma UnpricedAfter(t: Table, rows: set<ParcelId>, rate: Decimal)
    ensures Unpriced(Priced(t, rows, rate)) == Unpriced(t) - rows
  {
    hide StoredCost;
  }

  /** Pricing one set of pending rows and then another is pricing both at once. */
  lemma PricedTwice(t: Table, a: set<ParcelId>, b: set<ParcelId>, rate: Decimal)
    requires a <= Unpriced(t) && b <= Unpriced(t) - a
    ensures Priced(Priced(t, a, rate), b, rate) == Priced(t, a + b, rate)
  {
    hide StoredCost;
  }
}
