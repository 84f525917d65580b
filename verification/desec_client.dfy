/**
 * Reading one RRset through the deSEC client: the cache is consulted first, and only a cache
 * miss spends a read from the client's rate limiter and asks the API.
 */
module DesecClient {
  import opened Wrappers
  import opened DesecModels
  import opened DesecCache
  import opened SlidingWindows
  import opened SlidingWindowsMulti

  /** The message of the read rate-limit error (its wait estimate in seconds is not modelled). */
  const ReadRateLimited := "too many read requests have been issued to the DeSEC API"

  /** What the API answers to a request for one RRset: an error, a 404, or the RRset. */
  datatype Retrieved = RetrieveFailed(err: string) | NotFound | Found(rrset: RRset)

  /**
   * The cache writes on a 404 for an RRset, as written: the domain is marked nonexistent as
   * well as the RRset.
   */
  function MissingRRsetWritesAsWritten(entries: map<string, Entry>, domainName: string, subname: string, rrsetType: string): (r: map<string, Entry>)
    ensures KeyRRsetByNameAndType(domainName, subname, rrsetType) in r
    ensures r[KeyRRsetByNameAndType(domainName, subname, rrsetType)] == Nonexistent
    ensures KeyDomainByName(domainName) in r && r[KeyDomainByName(domainName)] == Nonexistent
    ensures forall k :: k != KeyRRsetByNameAndType(domainName, subname, rrsetType) && k != KeyDomainByName(domainName) ==>
      (k in r <==> k in entries) && (k in r ==> r[k] == entries[k])
  {
    KeyDomainNotRRset(domainName, subname, rrsetType);
    entries[KeyDomainByName(domainName) := Nonexistent][KeyRRsetByNameAndType(domainName, subname, rrsetType) := Nonexistent]
  }

  /**
   * The domain's key is shorter than the key of any of its RRsets, so writing an RRset's
   * tombstone never touches the domain's entry.
   */
  lemma KeyDomainNotRRset(domainName: string, subname: string, rrsetType: string)
    ensures KeyDomainByName(domainName) != KeyRRsetByNameAndType(domainName, subname, rrsetType)
  {
    assert |KeyDomainByName(domainName)| < |KeyRRsetByNameAndType(domainName, subname, rrsetType)|;
  }

  /**
   * As written, a missing RRset makes the cache report the whole domain as nonexistent, even
   * when the domain itself was cached.
   */
  lemma MissingRRsetHidesDomain(entries: map<string, Entry>, domainName: string, subname: string, rrsetType: string, domain: string)
    requires KeyDomainByName(domainName) in entries && entries[KeyDomainByName(domainName)] == Present(DomainValue(domain))
    ensures GetDomainEntry(entries, KeyDomainByName(domainName)) == (true, Some(domain), None)
    ensures GetDomainEntry(MissingRRsetWritesAsWritten(entries, domainName, subname, rrsetType), KeyDomainByName(domainName)) ==
      (true, None, None)
  {
    KeyDomainNotRRset(domainName, subname, rrsetType);
  }

  /** The cache writes on a 404 for an RRset, corrected: only the RRset's tombstone. */
  function MissingRRsetWrites(entries: map<string, Entry>, domainName: string, subname: string, rrsetType: string): (r: map<string, Entry>)
    ensures KeyRRsetByNameAndType(domainName, subname, rrsetType) in r
    ensures r[KeyRRsetByNameAndType(domainName, subname, rrsetType)] == Nonexistent
    ensures forall k :: k != KeyRRsetByNameAndType(domainName, subname, rrsetType) ==>
      (k in r <==> k in entries) && (k in r ==> r[k] == entries[k])
    ensures GetDomainEntry(r, KeyDomainByName(domainName)) == GetDomainEntry(entries, KeyDomainByName(domainName))
  {
    KeyDomainNotRRset(domainName, subname, rrsetType);
    entries[KeyRRsetByNameAndType(domainName, subname, rrsetType) := Nonexistent]
  }

  class Client {
    /** The configured domain. */
    const domainName: string
    const cache: Cache
    const readLimiter: MultiLimiter

    constructor (domainName: string, cache: Cache, readLimiter: MultiLimiter)
      ensures this.domainName == domainName && this.cache == cache && this.readLimiter == readLimiter
    {
      this.domainName := domainName;
      this.cache := cache;
      this.readLimiter := readLimiter;
    }

    /** `getRRsetFromCache` reports a hit: the key exists and decodes (or is a tombstone). */
    predicate CacheHit(subname: string, recordType: string)
      reads this, cache
    {
      var (_, hit, err) := cache.GetRRsetByNameAndType(domainName, subname, recordType);
      err.None? && hit
    }

    /**
     * The rate-limit step of `GetRRset` at time `now`: `MaybeAllowed` for one read, then
     * `TryAdd` of it. A read is spent exactly when every limiter allowed it beforehand. A refused
     * read estimates the wait for the error, which advances every limiter.
     */
    method SpendRead(now: int) returns (added: bool)
      requires readLimiter.Valid()
      modifies readLimiter.Limiters()
      ensures added <==> forall i :: 0 <= i < |readLimiter.sortedKeys| ==> old(readLimiter.At(i).Allows(now, 1))
      ensures forall i :: 0 <= i < |readLimiter.sortedKeys| ==>
        readLimiter.At(i).Windows() == old(readLimiter.SpentWindows(now, 1, i))
    {
      ghost var before := ReadWindows();
      var maybe := readLimiter.MaybeAllowed(now, 1);
      added := false;
      if maybe {
        added := SpendAllowedRead(now, before);
      }
      if !added {
        EstimateRefusedRead(now, before);
      }
    }

    /** The read limiter's windows by sorted position. */
    function ReadWindows(): (ws: seq<(Window, Window)>)
      requires readLimiter.Valid()
      reads readLimiter.Limiters()
      ensures |ws| == |readLimiter.sortedKeys|
      ensures forall i :: 0 <= i < |ws| ==> ws[i] == readLimiter.At(i).Windows()
    {
      seq(|readLimiter.sortedKeys|, i requires 0 <= i < |readLimiter.sortedKeys| reads readLimiter.Limiters() =>
        readLimiter.At(i).Windows())
    }

    /**
     * `TryAdd` of one read once `MaybeAllowed` has advanced every limiter from `before` and each
     * allowed the read: it is spent in every limiter.
     */
    method SpendAllowedRead(now: int, ghost before: seq<(Window, Window)>) returns (added: bool)
      requires readLimiter.Valid() && |before| == |readLimiter.sortedKeys|
      requires forall i :: 0 <= i < |before| ==>
        var l := readLimiter.At(i);
        l.Windows() == Advanced(before[i].0, before[i].1, now, l.duration) &&
        Estimate(before[i].0, before[i].1, now, l.duration) + 1 <= l.capacity
      modifies readLimiter.Limiters()
      ensures added
      ensures forall i :: 0 <= i < |before| ==>
        var (c, p) := Advanced(before[i].0, before[i].1, now, readLimiter.At(i).duration);
        readLimiter.At(i).Windows() == (c.(count := c.count + 1), p)
    {
      forall i | 0 <= i < |before|
        ensures readLimiter.At(i).Allows(now, 1)
        ensures readLimiter.At(i).AdvancedTo(now) == readLimiter.At(i).Windows()
      {
        AdvancedFixed(before[i].0, before[i].1, now, readLimiter.At(i).duration);
      }
      added := readLimiter.TryAdd(now, 1);
    }

    /**
     * The wait estimate of a refused read, once `MaybeAllowed` has advanced some limiters from
     * `before` and left the rest: every limiter ends advanced from `before`.
     */
    method EstimateRefusedRead(now: int, ghost before: seq<(Window, Window)>)
      requires readLimiter.Valid() && |before| == |readLimiter.sortedKeys|
      requires forall i :: 0 <= i < |before| ==>
        var l := readLimiter.At(i);
        l.Windows() == before[i] || l.Windows() == Advanced(before[i].0, before[i].1, now, l.duration)
      modifies readLimiter.Limiters()
      ensures forall i :: 0 <= i < |before| ==>
        readLimiter.At(i).Windows() == Advanced(before[i].0, before[i].1, now, readLimiter.At(i).duration)
    {
      forall i | 0 <= i < |before|
        ensures readLimiter.At(i).AdvancedTo(now) == Advanced(before[i].0, before[i].1, now, readLimiter.At(i).duration)
      {
        AdvancedIdempotent(before[i].0, before[i].1, now, readLimiter.At(i).duration);
      }
      var wait := readLimiter.EstimateWaitDuration(now, 1);
    }

    /**
     * `GetRRset` at time `now`, with the API's answer `retrieved`. A cache hit (a tombstone being
     * a hit without RRset) is returned as is, and neither the cache nor the read limiter changes.
     * A miss, including an undecodable entry, must pass the read limiter's `MaybeAllowed` and
     * `TryAdd` for one read (a refusal estimates the wait, which advances every limiter); then a
     * 404 caches a tombstone and yields no RRset, and an RRset from the API is cached and returned.
     */
    method GetRRset(subname: string, recordType: string, now: int, retrieved: Retrieved) returns (r: Result<Option<RRset>>)
      requires readLimiter.Valid()
      modifies cache, readLimiter.Limiters()
      ensures old(CacheHit(subname, recordType)) ==>
        r == Ok(old(cache.GetRRsetByNameAndType(domainName, subname, recordType)).0) &&
        unchanged(cache) && unchanged(readLimiter.Limiters())
      ensures !old(CacheHit(subname, recordType)) ==>
        if forall i :: 0 <= i < |readLimiter.sortedKeys| ==> old(readLimiter.At(i).Allows(now, 1)) then
          match retrieved {
            case RetrieveFailed(e) => r == Err(e) && unchanged(cache)
            case NotFound => r == Ok(None) &&
              cache.entries == MissingRRsetWrites(old(cache.entries), domainName, subname, recordType)
            case Found(rrset) => r == Ok(Some(rrset)) &&
              cache.entries == old(cache.entries)[KeyRRsetByNameAndType(domainName, subname, recordType) := Present(RRsetValue(rrset))]
          }
        else
          r == Err(ReadRateLimited) && unchanged(cache)
      ensures !old(CacheHit(subname, recordType)) ==> forall i :: 0 <= i < |readLimiter.sortedKeys| ==>
        readLimiter.At(i).Windows() == old(readLimiter.SpentWindows(now, 1, i))
    {
      var (cached, hit, err) := cache.GetRRsetByNameAndType(domainName, subname, recordType);
      if err.None? && hit {
        return Ok(cached);
      }
      var added := SpendRead(now);
      if !added {
        return Err(ReadRateLimited);
      }
      match retrieved {
        case RetrieveFailed(e) =>
          r := Err(e);
        case NotFound =>
          cache.SetNonexistentRRsetByNameAndType(domainName, subname, recordType);
          r := Ok(None);
        case Found(rrset) =>
          var e := cache.SetRRsetByNameAndType(domainName, subname, recordType, rrset);
          r := Ok(Some(rrset));
      }
    }
  }
}
