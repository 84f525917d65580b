/**
 * The layout of the deSEC client's cache: one entry per domain, per domain's subname list and
 * per (domain, subname, record type), where a tombstone records that the RRset does not exist.
 * The cache is modelled as an ideal map that keeps everything written to it.
 */
module DesecCache {
  import opened Wrappers
  import opened GoStrings
  import opened GoErrors
  import opened DesecModels
  import opened DesecRRsets

  /** `keyDomainByName`. */
  function KeyDomainByName(name: string): string
  {
    "/dns/domains/n:[" + name + "]"
  }

  /** `keySubnames`. */
  function KeySubnames(domainName: string): string
  {
    "/dns/domains/n:[" + domainName + "]/subnames"
  }

  /** `keyRRsetByNameAndType`. */
  function KeyRRsetByNameAndType(domainName: string, subname: string, rrsetType: string): string
  {
    "/dns/domains/n:[" + domainName + "]/rrsets/sn:[" + subname + "]/t:[" + rrsetType + "]"
  }

  /** Within one domain and subname, distinct record types have distinct keys. */
  lemma KeyTypeInjective(domainName: string, subname: string, t1: string, t2: string)
    requires KeyRRsetByNameAndType(domainName, subname, t1) == KeyRRsetByNameAndType(domainName, subname, t2)
    ensures t1 == t2
  {
    var p := "/dns/domains/n:[" + domainName + "]/rrsets/sn:[" + subname + "]/t:[";
    var k1 := KeyRRsetByNameAndType(domainName, subname, t1);
    var k2 := KeyRRsetByNameAndType(domainName, subname, t2);
    assert k1 == p + t1 + "]" && k2 == p + t2 + "]";
    assert |t1| == |t2|;
    assert t1 == k1[|p|..|k1| - 1];
    assert t2 == k2[|p|..|k2| - 1];
  }

  /** A subname-list key never collides with an RRset key (one ends in 's', the other in ']'). */
  lemma KeySubnamesNotRRset(domainName: string, d: string, subname: string, rrsetType: string)
    ensures KeySubnames(domainName) != KeyRRsetByNameAndType(d, subname, rrsetType)
  {
    var k1 := KeySubnames(domainName);
    var k2 := KeyRRsetByNameAndType(d, subname, rrsetType);
    assert k1[|k1| - 1] == 's';
    assert k2[|k2| - 1] == ']';
  }

  /** A cached value: a domain (named), a subname list or an RRset. */
  datatype CacheValue = DomainValue(domain: string) | SubnamesValue(subnames: seq<string>) | RRsetValue(rrset: RRset)

  /** A cache entry: a value, or a tombstone saying that the object does not exist. */
  datatype Entry = Present(value: CacheValue) | Nonexistent

  /** The error of reading an entry into a value of another type. */
  const UnmarshalError := "couldn't unmarshal the cache entry"

  /** `GetEntry` into an RRset: whether the key exists, the value if there is one, and the decoding error. */
  function GetRRsetEntry(entries: map<string, Entry>, key: string): (r: (bool, Option<RRset>, Option<string>))
    ensures !r.0 <==> key !in entries
    ensures r.1.Some? ==> r.2.None? && key in entries && entries[key] == Present(RRsetValue(r.1.value))
    ensures r.2.Some? ==> r.0 && r.1.None? && entries[key].Present? && !entries[key].value.RRsetValue?
    ensures r.0 && r.1.None? && r.2.None? <==> key in entries && entries[key].Nonexistent?
  {
    if key !in entries then (false, None, None)
    else match entries[key] {
      case Nonexistent => (true, None, None)
      case Present(RRsetValue(v)) => (true, Some(v), None)
      case Present(_) => (true, None, Some(UnmarshalError))
    }
  }

  /** `GetEntry` into a subname list. */
  function GetSubnamesEntry(entries: map<string, Entry>, key: string): (r: (bool, Option<seq<string>>, Option<string>))
    ensures !r.0 <==> key !in entries
    ensures r.1.Some? ==> r.2.None? && key in entries && entries[key] == Present(SubnamesValue(r.1.value))
    ensures r.2.Some? ==> r.0 && r.1.None? && entries[key].Present? && !entries[key].value.SubnamesValue?
    ensures r.0 && r.1.None? && r.2.None? <==> key in entries && entries[key].Nonexistent?
  {
    if key !in entries then (false, None, None)
    else match entries[key] {
      case Nonexistent => (true, None, None)
      case Present(SubnamesValue(v)) => (true, Some(v), None)
      case Present(_) => (true, None, Some(UnmarshalError))
    }
  }

  /** `GetEntry` into a domain. */
  function GetDomainEntry(entries: map<string, Entry>, key: string): (r: (bool, Option<string>, Option<string>))
    ensures !r.0 <==> key !in entries
    ensures r.1.Some? ==> r.2.None? && key in entries && entries[key] == Present(DomainValue(r.1.value))
    ensures r.2.Some? ==> r.0 && r.1.None? && entries[key].Present? && !entries[key].value.DomainValue?
    ensures r.0 && r.1.None? && r.2.None? <==> key in entries && entries[key].Nonexistent?
  {
    if key !in entries then (false, None, None)
    else match entries[key] {
      case Nonexistent => (true, None, None)
      case Present(DomainValue(v)) => (true, Some(v), None)
      case Present(_) => (true, None, Some(UnmarshalError))
    }
  }

  /**
   * What `GetRRsetsByName` returns for the types `types`, visited in order: the first type whose
   * entry fails to decode is a wrapped error, else the first type without an entry is a cache
   * miss (`Ok(None)`); otherwise the present values in order, tombstones skipped.
   */
  function RRsetsByName(entries: map<string, Entry>, domainName: string, subname: string, types: seq<string>): Result<Option<seq<RRset>>>
    decreases |types|
  {
    if types == [] then Ok(Some([]))
    else
      var t := types[|types| - 1];
      match RRsetsByName(entries, domainName, subname, types[..|types| - 1]) {
        case Ok(Some(found)) =>
          var (keyExists, value, err) := GetRRsetEntry(entries, KeyRRsetByNameAndType(domainName, subname, t));
          if err.Some? then
            Err(Wrap(err, "couldn't get cache entry for the " + t + " RRset for " + subname + "." + domainName).value)
          else if !keyExists then Ok(None)
          else if value.Some? then Ok(Some(found + [value.value]))
          else Ok(Some(found))
        case other => other
      }
  }

  /** Once a prefix of the types ends in an error or a miss, so does every longer list. */
  lemma {:induction false} RRsetsByNameSettled(entries: map<string, Entry>, domainName: string, subname: string, types: seq<string>, i: nat)
    requires i <= |types|
    requires !RRsetsByName(entries, domainName, subname, types[..i]).Ok? || RRsetsByName(entries, domainName, subname, types[..i]).value.None?
    ensures RRsetsByName(entries, domainName, subname, types) == RRsetsByName(entries, domainName, subname, types[..i])
    decreases |types| - i
  {
    if i < |types| {
      var next := types[..i + 1];
      assert next[..i] == types[..i];
      RRsetsByNameSettled(entries, domainName, subname, types, i + 1);
    } else {
      assert types[..i] == types;
    }
  }

  /** Every listed type's entry is what `SetRRsetsByName` writes for the filtered RRsets `f`. */
  predicate Stored(entries: map<string, Entry>, domainName: string, subname: string, f: map<string, RRset>, types: seq<string>)
  {
    forall t :: t in types ==>
      KeyRRsetByNameAndType(domainName, subname, t) in entries &&
      entries[KeyRRsetByNameAndType(domainName, subname, t)] == (if t in f then Present(RRsetValue(f[t])) else Nonexistent)
  }

  /** Reading back what was stored yields the stored RRsets in type order: a hit, never an error. */
  lemma {:induction false} StoredReadsBack(entries: map<string, Entry>, domainName: string, subname: string, f: map<string, RRset>, types: seq<string>)
    requires Stored(entries, domainName, subname, f, types)
    ensures RRsetsByName(entries, domainName, subname, types) == Ok(Some(InTypeOrder(f, types)))
    decreases |types|
  {
    if types != [] {
      var init := types[..|types| - 1];
      assert Stored(entries, domainName, subname, f, init) by {
        forall t | t in init ensures t in types {
          var k :| 0 <= k < |init| && init[k] == t;
          assert types[k] == t;
        }
      }
      StoredReadsBack(entries, domainName, subname, f, init);
      var t := types[|types| - 1];
      assert t in types;
      var key := KeyRRsetByNameAndType(domainName, subname, t);
      if t in f {
        assert GetRRsetEntry(entries, key) == (true, Some(f[t]), None);
      } else {
        assert GetRRsetEntry(entries, key) == (true, None, None);
        assert InTypeOrder(f, types) == InTypeOrder(f, init) + [];
        assert InTypeOrder(f, init) + [] == InTypeOrder(f, init);
      }
    }
  }

  /** The keys `SetRRsetsByName` writes. */
  function RRsetKeys(domainName: string, subname: string, types: seq<string>): set<string>
  {
    set t | t in types :: KeyRRsetByNameAndType(domainName, subname, t)
  }

  class Cache {
    /** The record types cached per subname (`RecordTypes`). */
    const recordTypes: seq<string>
    /** The cache contents, by key. */
    var entries: map<string, Entry>

    constructor (recordTypes: seq<string>)
      ensures this.recordTypes == recordTypes && entries == map[]
    {
      this.recordTypes := recordTypes;
      entries := map[];
    }

    /** `GetDomainByName`: the domain, whether the key exists (a tombstone is a hit without value), and the decoding error. */
    function GetDomainByName(name: string): (r: (Option<string>, bool, Option<string>))
      reads this
      ensures r.0.Some? ==> r.1 && r.2.None?
      ensures r.1 && r.0.None? && r.2.None? <==>
        KeyDomainByName(name) in entries && entries[KeyDomainByName(name)].Nonexistent?
    {
      var (keyExists, value, err) := GetDomainEntry(entries, KeyDomainByName(name));
      (value, keyExists, err)
    }

    /** `GetSubnames`: the cached subname list, or nil when it is missing, a tombstone or undecodable. */
    function GetSubnames(domainName: string): (r: (Option<seq<string>>, Option<string>))
      reads this
      ensures r.0.Some? <==> (KeySubnames(domainName) in entries && entries[KeySubnames(domainName)].Present? &&
        entries[KeySubnames(domainName)].value.SubnamesValue?)
      ensures r.0.Some? ==> r.0.value == entries[KeySubnames(domainName)].value.subnames && r.1.None?
      ensures r.1.Some? ==> r.0.None?
    {
      var (_, value, err) := GetSubnamesEntry(entries, KeySubnames(domainName));
      (value, err)
    }

    /** `HasSubname`: false on a decoding error or without a cached list; else whether the list holds `subname`. */
    method HasSubname(domainName: string, subname: string) returns (has: bool)
      ensures has <==> GetSubnames(domainName).0.Some? && subname in GetSubnames(domainName).0.value
    {
      var (cached, err) := GetSubnames(domainName);
      if err.Some? {
        return false;
      }
      if cached.None? {
        return false;
      }
      var subnames := cached.value;
      for i := 0 to |subnames|
        invariant subname !in subnames[..i]
      {
        if subnames[i] == subname {
          return true;
        }
      }
      assert subnames[..|subnames|] == subnames;
      return false;
    }

    /** `SetRRsetByNameAndType`: stores the RRset under its key; nothing else changes. */
    method SetRRsetByNameAndType(domainName: string, subname: string, rrsetType: string, rrset: RRset) returns (err: Option<string>)
      modifies this
      ensures err.None?
      ensures entries == old(entries)[KeyRRsetByNameAndType(domainName, subname, rrsetType) := Present(RRsetValue(rrset))]
    {
      entries := entries[KeyRRsetByNameAndType(domainName, subname, rrsetType) := Present(RRsetValue(rrset))];
      err := None;
    }

    /** `SetNonexistentRRsetByNameAndType`: writes a tombstone under the RRset's key; nothing else changes. */
    method SetNonexistentRRsetByNameAndType(domainName: string, subname: string, rrsetType: string)
      modifies this
      ensures entries == old(entries)[KeyRRsetByNameAndType(domainName, subname, rrsetType) := Nonexistent]
    {
      entries := entries[KeyRRsetByNameAndType(domainName, subname, rrsetType) := Nonexistent];
    }

    /**
     * `SetRRsetsByName`: for every configured type, the filtered RRset of that type, or a
     * tombstone when the input has none. No other key changes.
     */
    method SetRRsetsByName(domainName: string, subname: string, rrsets: seq<RRset>) returns (err: Option<string>)
      modifies this
      ensures err.None?
      ensures Stored(entries, domainName, subname, Filtered(rrsets, recordTypes), recordTypes)
      ensures forall k :: k !in RRsetKeys(domainName, subname, recordTypes) ==>
        (k in entries <==> k in old(entries)) && (k in entries ==> entries[k] == old(entries)[k])
    {
      var cacheable := FilterRRsets(rrsets, recordTypes);
      for i := 0 to |recordTypes|
        invariant Stored(entries, domainName, subname, cacheable, recordTypes[..i])
        invariant forall k :: k !in RRsetKeys(domainName, subname, recordTypes[..i]) ==>
          (k in entries <==> k in old(entries)) && (k in entries ==> entries[k] == old(entries)[k])
      {
        var t := recordTypes[i];
        assert recordTypes[..i + 1] == recordTypes[..i] + [t];
        forall u | u in recordTypes[..i] && KeyRRsetByNameAndType(domainName, subname, u) == KeyRRsetByNameAndType(domainName, subname, t)
          ensures u == t
        {
          KeyTypeInjective(domainName, subname, u, t);
        }
        if t !in cacheable {
          SetNonexistentRRsetByNameAndType(domainName, subname, t);
          continue;
        }
        var e := SetRRsetByNameAndType(domainName, subname, t, cacheable[t]);
      }
      assert recordTypes[..|recordTypes|] == recordTypes;
      err := None;
    }

    /**
     * `GetRRsetsByName`: the configured types' RRsets in configured order, a cache miss when
     * some type has no entry, or the error of the first undecodable entry before any miss.
     */
    method GetRRsetsByName(domainName: string, subname: string) returns (r: Result<Option<seq<RRset>>>)
      ensures r == RRsetsByName(entries, domainName, subname, recordTypes)
    {
      var rrsets: seq<RRset> := [];
      for i := 0 to |recordTypes|
        invariant RRsetsByName(entries, domainName, subname, recordTypes[..i]) == Ok(Some(rrsets))
      {
        var t := recordTypes[i];
        ghost var next := RRsetsByName(entries, domainName, subname, recordTypes[..i + 1]);
        assert recordTypes[..i + 1][..i] == recordTypes[..i] && recordTypes[..i + 1][i] == t;
        var (keyExists, value, err) := GetRRsetEntry(entries, KeyRRsetByNameAndType(domainName, subname, t));
        assert next == if err.Some? then Err(Wrap(err, "couldn't get cache entry for the " + t + " RRset for " + subname + "." + domainName).value)
          else if !keyExists then Ok(None)
          else if value.Some? then Ok(Some(rrsets + [value.value]))
          else Ok(Some(rrsets));
        if err.Some? {
          r := Err(Wrap(err, "couldn't get cache entry for the " + t + " RRset for " + subname + "." + domainName).value);
          RRsetsByNameSettled(entries, domainName, subname, recordTypes, i + 1);
          return;
        }
        if !keyExists {
          RRsetsByNameSettled(entries, domainName, subname, recordTypes, i + 1);
          return Ok(None);
        }
        if value.Some? {
          rrsets := rrsets + [value.value];
        }
      }
      assert recordTypes[..|recordTypes|] == recordTypes;
      r := Ok(Some(rrsets));
    }

    /** `GetRRsetByNameAndType`: the RRset, whether the key exists (a tombstone is a hit without value), and the decoding error. */
    function GetRRsetByNameAndType(domainName: string, subname: string, rrsetType: string): (r: (Option<RRset>, bool, Option<string>))
      reads this
      ensures r.0.Some? ==> (r.1 && r.2.None? && KeyRRsetByNameAndType(domainName, subname, rrsetType) in entries &&
        entries[KeyRRsetByNameAndType(domainName, subname, rrsetType)] == Present(RRsetValue(r.0.value)))
      ensures r.1 && r.0.None? && r.2.None? <==>
        KeyRRsetByNameAndType(domainName, subname, rrsetType) in entries &&
        entries[KeyRRsetByNameAndType(domainName, subname, rrsetType)].Nonexistent?
      ensures !r.1 ==> r.0.None? && r.2.None?
    {
      var (keyExists, value, err) := GetRRsetEntry(entries, KeyRRsetByNameAndType(domainName, subname, rrsetType));
      (value, keyExists, err)
    }
  }

  /**
   * With the ideal cache, storing a subname's RRsets and reading them back gives what
   * `FilterAndSortRRsets` makes of them.
   */
  lemma SetThenGet(c: Cache, domainName: string, subname: string, rrsets: seq<RRset>)
    requires Stored(c.entries, domainName, subname, Filtered(rrsets, c.recordTypes), c.recordTypes)
    ensures RRsetsByName(c.entries, domainName, subname, c.recordTypes) ==
      Ok(Some(InTypeOrder(Filtered(rrsets, c.recordTypes), c.recordTypes)))
  {
    StoredReadsBack(c.entries, domainName, subname, Filtered(rrsets, c.recordTypes), c.recordTypes);
  }
}
