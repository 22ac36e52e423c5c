/** Parcel rows, shared by the service, the delivery job and the response cache. */
module Parcels {
  import opened Wrappers

  /** A uuid as its 128-bit number: canonical uuid text sorts in the same order. */
  type ParcelId = nat

  /**
   * `weight` is in thousandths of a kilogram (NUMERIC(10,3)), `declared` in US cents and
   * `cost`, null while pending, in kopecks (both NUMERIC(12,2)).
   */
  datatype Parcel = Parcel(
    name: string,
    weight: nat,
    declared: nat,
    typeId: string,
    sessionId: string,
    userId: Option<string>,
    cost: Option<nat>)

  type Table = map<ParcelId, Parcel>

  const WEIGHT_LIMIT := 10000000000
  const MONEY_LIMIT := 1000000000000

  /** The row fits its columns and passes the table's check constraints. */
  predicate FitsColumns(p: Parcel) {
    && 0 < p.weight < WEIGHT_LIMIT
    && p.declared < MONEY_LIMIT
    && (p.cost.Some? ==> p.cost.value < MONEY_LIMIT)
  }
}
