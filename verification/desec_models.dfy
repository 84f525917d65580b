/** The deSEC resource record set, and the key that names one within a domain. */
module DesecModels {
  import opened Wrappers

  /**
   * A deSEC RRset: its subname, record type, records (`None` for a nil slice, which the API
   * reads as "leave unchanged", unlike an empty one) and TTL.
   */
  datatype RRset = RRset(subname: string, typ: string, records: Option<seq<string>>, ttl: int)

  /** `RRsetKey`: what names an RRset within a domain. */
  datatype RRsetKey = RRsetKey(subname: string, typ: string)

  /** `NewRRsetKey`: the key of an RRset. */
  function NewRRsetKey(rrset: RRset): (k: RRsetKey)
    ensures k.subname == rrset.subname && k.typ == rrset.typ
  {
    RRsetKey(rrset.subname, rrset.typ)
  }

  /**
   * `IsDeletionUpsertRRset`: an upsert that deletes, i.e. one with an empty but non-nil record
   * list; an RRset with nil records never is one.
   */
  predicate IsDeletionUpsertRRset(rrset: RRset): (b: bool)
    ensures rrset.records.None? ==> !b
    ensures b <==> rrset.records == Some([])
  {
    rrset.records.Some? && |rrset.records.value| == 0
  }

  /**
   * `AsDeletionUpsertRRset`: the upsert that deletes the keyed RRset. It is recognised as a
   * deletion, and its key is the key it was made from.
   */
  function AsDeletionUpsertRRset(k: RRsetKey): (r: RRset)
    ensures r.records == Some([]) && r.ttl == 0
    ensures IsDeletionUpsertRRset(r)
    ensures NewRRsetKey(r) == k
  {
    RRset(k.subname, k.typ, Some([]), 0)
  }
}
