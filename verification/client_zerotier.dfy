/**
 * Planning the DNS records of ZeroTier network members: which subnames point at a member's
 * addresses, which AAAA and A records it should have, and the updates that would bring the
 * zone there.
 */
module ZerotierDNS {
  import opened Wrappers
  import opened GoStrings
  import opened GoErrors
  import opened SeqUtil
  import opened StringSets
  import opened DesecModels
  import opened Sargassum
  import opened Dns

  /** An IP address as `netip.ParseAddr` reads it: its family and its canonical text. */
  datatype ParsedAddr = IPv4(text: string) | IPv6(text: string)

  /** The canonical texts of the addresses in `raw` that parse as IPv4, in input order. */
  function V4Texts(parse: string -> Result<ParsedAddr>, raw: seq<string>): seq<string>
  {
    if raw == [] then []
    else (if parse(raw[0]).Ok? && parse(raw[0]).value.IPv4? then [parse(raw[0]).value.text] else []) + V4Texts(parse, raw[1..])
  }

  /** The canonical texts of the addresses in `raw` that parse as IPv6, in input order. */
  function V6Texts(parse: string -> Result<ParsedAddr>, raw: seq<string>): seq<string>
  {
    if raw == [] then []
    else (if parse(raw[0]).Ok? && parse(raw[0]).value.IPv6? then [parse(raw[0]).value.text] else []) + V6Texts(parse, raw[1..])
  }

  /** Filtering a list with one more address appends that address's text when it has the family. */
  lemma {:induction false} TextsSnoc(parse: string -> Result<ParsedAddr>, raw: seq<string>, x: string)
    ensures V4Texts(parse, raw + [x]) ==
      V4Texts(parse, raw) + (if parse(x).Ok? && parse(x).value.IPv4? then [parse(x).value.text] else [])
    ensures V6Texts(parse, raw + [x]) ==
      V6Texts(parse, raw) + (if parse(x).Ok? && parse(x).value.IPv6? then [parse(x).value.text] else [])
  {
    if raw != [] {
      assert (raw + [x])[1..] == raw[1..] + [x];
      TextsSnoc(parse, raw[1..], x);
    }
  }

  /** Every address of `raw` parses. */
  predicate AllParse(parse: string -> Result<ParsedAddr>, raw: seq<string>)
  {
    forall k :: 0 <= k < |raw| ==> parse(raw[k]).Ok?
  }

  /** When every address parses, each lands in exactly one of the two lists, by its family. */
  lemma {:induction false} TextsCover(parse: string -> Result<ParsedAddr>, raw: seq<string>)
    ensures AllParse(parse, raw) ==> |V4Texts(parse, raw)| + |V6Texts(parse, raw)| == |raw|
    ensures AllParse(parse, raw) ==> forall a :: a in V4Texts(parse, raw) ==> exists k :: 0 <= k < |raw| && parse(raw[k]) == Ok(IPv4(a))
    ensures AllParse(parse, raw) ==> forall a :: a in V6Texts(parse, raw) ==> exists k :: 0 <= k < |raw| && parse(raw[k]) == Ok(IPv6(a))
    ensures AllParse(parse, raw) ==> forall k :: 0 <= k < |raw| ==>
      (if parse(raw[k]).value.IPv4? then parse(raw[k]).value.text in V4Texts(parse, raw) else parse(raw[k]).value.text in V6Texts(parse, raw))
    decreases |raw|
  {
    if raw != [] && AllParse(parse, raw) {
      TextsCover(parse, raw[1..]);
      forall a | a in V4Texts(parse, raw)
        ensures exists k :: 0 <= k < |raw| && parse(raw[k]) == Ok(IPv4(a))
      {
        if a !in V4Texts(parse, raw[1..]) {
          assert parse(raw[0]) == Ok(IPv4(a));
        } else {
          var k :| 0 <= k < |raw[1..]| && parse(raw[1..][k]) == Ok(IPv4(a));
          assert parse(raw[k + 1]) == Ok(IPv4(a));
        }
      }
      forall a | a in V6Texts(parse, raw)
        ensures exists k :: 0 <= k < |raw| && parse(raw[k]) == Ok(IPv6(a))
      {
        if a !in V6Texts(parse, raw[1..]) {
          assert parse(raw[0]) == Ok(IPv6(a));
        } else {
          var k :| 0 <= k < |raw[1..]| && parse(raw[1..][k]) == Ok(IPv6(a));
          assert parse(raw[k + 1]) == Ok(IPv6(a));
        }
      }
      forall k | 0 <= k < |raw|
        ensures if parse(raw[k]).value.IPv4? then parse(raw[k]).value.text in V4Texts(parse, raw) else parse(raw[k]).value.text in V6Texts(parse, raw)
      {
        if k > 0 {
          assert raw[k] == raw[1..][k - 1];
        }
      }
    }
  }

  /**
   * `SplitIPAddresses`, with `netip.ParseAddr` given as `parse`: the canonical texts of the
   * IPv4 and of the IPv6 addresses, each in input order, or the error of the first address
   * that does not parse.
   */
  function SplitIPAddresses(parse: string -> Result<ParsedAddr>, raw: seq<string>): (r: Result<(seq<string>, seq<string>)>)
    ensures r.Ok? <==> AllParse(parse, raw)
    ensures r.Ok? ==> r.value.0 == V4Texts(parse, raw) && r.value.1 == V6Texts(parse, raw)
    decreases |raw|
  {
    if raw == [] then Ok(([], []))
    else
      var init := raw[..|raw| - 1];
      var last := raw[|raw| - 1];
      assert raw == init + [last];
      assert forall k :: 0 <= k < |init| ==> init[k] == raw[k];
      TextsSnoc(parse, init, last);
      match SplitIPAddresses(parse, init) {
        case Err(e) => Err(e)
        case Ok((v4, v6)) =>
          match parse(last) {
            case Err(e) => Err(Wrap(Some(e), "couldn't parse IP address " + last).value)
            case Ok(IPv4(a)) => Ok((v4 + [a], v6))
            case Ok(IPv6(a)) => Ok((v4, v6 + [a]))
          }
      }
  }

  /**
   * A successful split puts every address in exactly one list, by its family: the lists hold
   * as many texts as there are addresses, each text comes from an address of its family, and
   * each address's text is in the list of its family.
   */
  lemma SplitCovers(parse: string -> Result<ParsedAddr>, raw: seq<string>)
    ensures var r := SplitIPAddresses(parse, raw);
      r.Ok? ==>
        && |r.value.0| + |r.value.1| == |raw|
        && (forall a :: a in r.value.0 ==> exists k :: 0 <= k < |raw| && parse(raw[k]) == Ok(IPv4(a)))
        && (forall a :: a in r.value.1 ==> exists k :: 0 <= k < |raw| && parse(raw[k]) == Ok(IPv6(a)))
        && (forall k :: 0 <= k < |raw| ==>
          if parse(raw[k]).value.IPv4? then parse(raw[k]).value.text in r.value.0 else parse(raw[k]).value.text in r.value.1)
  {
    TextsCover(parse, raw);
  }

  /** `NewMemberNameRRsets`: an AAAA RRset of the member's IPv6 addresses, then an A RRset of its IPv4 ones. */
  function NewMemberNameRRsets(parse: string -> Result<ParsedAddr>, address: string, ipAssignments: seq<string>, memberSubname: string, dnsTTL: int): (r: Result<seq<RRset>>)
    ensures r.Ok? <==> SplitIPAddresses(parse, ipAssignments).Ok?
    ensures r.Ok? ==> (|r.value| == 2 &&
      r.value[0] == RRset(memberSubname, "AAAA", Some(SplitIPAddresses(parse, ipAssignments).value.1), dnsTTL) &&
      r.value[1] == RRset(memberSubname, "A", Some(SplitIPAddresses(parse, ipAssignments).value.0), dnsTTL))
    ensures r.Err? ==> HasPrefix(r.error, "found invalid IP address for network member " + address)
  {
    match SplitIPAddresses(parse, ipAssignments) {
      case Err(e) => Err(Wrap(Some(e), "found invalid IP address for network member " + address).value)
      case Ok((v4, v6)) =>
        Ok([RRset(memberSubname, "AAAA", Some(v6), dnsTTL), RRset(memberSubname, "A", Some(v4), dnsTTL)])
    }
  }

  /** The subname `records` maps to a list holding `ip`. */
  predicate Holds(records: map<string, seq<string>>, subname: string, ip: string)
  {
    subname in records && ip in records[subname]
  }

  /** `ip` is listed under `m[key]`. */
  predicate Listed(m: map<string, seq<string>>, key: string, x: string)
  {
    key in m && x in m[key]
  }

  /** Appending `subname` to the list of `ip` lists it there, and changes nothing else. */
  lemma ListedAppend(r: map<string, seq<string>>, ip: string, subname: string)
    ensures var list := if ip in r then r[ip] else [];
      forall ip', s :: Listed(r[ip := list + [subname]], ip', s) <==> Listed(r, ip', s) || (ip' == ip && s == subname)
  {
    var list := if ip in r then r[ip] else [];
    var r' := r[ip := list + [subname]];
    forall ip', s
      ensures Listed(r', ip', s) <==> Listed(r, ip', s) || (ip' == ip && s == subname)
    {
      if ip' == ip {
        assert s in list + [subname] <==> s in list || s == subname;
        assert Listed(r, ip', s) <==> s in list;
      }
    }
  }

  /** Appends `subname` to the list of each address in `records`. */
  method AppendSubname(m: map<string, seq<string>>, subname: string, records: seq<string>) returns (r: map<string, seq<string>>)
    ensures forall ip, s :: Listed(r, ip, s) <==> Listed(m, ip, s) || (s == subname && ip in records)
    ensures forall ip :: ip in r <==> ip in m || ip in records
    ensures forall ip :: ip in m && |m[ip]| > 0 ==> |r[ip]| > 0
    ensures forall ip :: ip in records ==> |r[ip]| > 0
  {
    r := m;
    for j := 0 to |records|
      invariant forall ip, s :: Listed(r, ip, s) <==> Listed(m, ip, s) || (s == subname && ip in records[..j])
      invariant forall ip :: ip in r <==> ip in m || ip in records[..j]
      invariant forall ip :: ip in m && |m[ip]| > 0 ==> |r[ip]| > 0
      invariant forall ip :: ip in records[..j] ==> |r[ip]| > 0
    {
      var ip := records[j];
      assert records[..j + 1] == records[..j] + [ip];
      var list := if ip in r then r[ip] else [];
      ListedAppend(r, ip, subname);
      r := r[ip := list + [subname]];
    }
    assert records[..|records|] == records;
  }

  /** Adds every subname's addresses of one record type, visiting the subnames in the map's order. */
  method AddRecordsOfType(m: map<string, seq<string>>, records: map<string, seq<string>>) returns (r: map<string, seq<string>>)
    requires forall ip :: ip in m ==> |m[ip]| > 0
    ensures forall ip, s :: Listed(r, ip, s) <==> Listed(m, ip, s) || Holds(records, s, ip)
    ensures forall ip :: ip in r ==> |r[ip]| > 0
  {
    r := m;
    var pending := records.Keys;
    while pending != {}
      invariant pending <= records.Keys
      invariant forall ip, s :: Listed(r, ip, s) <==> Listed(m, ip, s) || (Holds(records, s, ip) && s !in pending)
      invariant forall ip :: ip in r ==> |r[ip]| > 0
      decreases |pending|
    {
      var subname :| subname in pending;
      r := AppendSubname(r, subname, records[subname]);
      pending := pending - {subname};
    }
  }

  /**
   * `IdentifyAddressDomainNames`, given what `GetRecordsOfType` returns for AAAA and for A
   * (that function is not part of this model): each address maps to the subnames whose AAAA or
   * A records hold it, and only such addresses have an entry. An error of either lookup is
   * returned as is.
   */
  method IdentifyAddressDomainNames(aaaaRecords: Result<map<string, seq<string>>>, aRecords: Result<map<string, seq<string>>>)
    returns (r: Result<map<string, seq<string>>>)
    ensures aaaaRecords.Err? ==> r == Err(aaaaRecords.error)
    ensures aaaaRecords.Ok? && aRecords.Err? ==> r == Err(aRecords.error)
    ensures r.Ok? <==> aaaaRecords.Ok? && aRecords.Ok?
    ensures r.Ok? ==> forall ip, s :: Listed(r.value, ip, s) <==> Holds(aaaaRecords.value, s, ip) || Holds(aRecords.value, s, ip)
    ensures r.Ok? ==> forall ip :: ip in r.value ==> |r.value[ip]| > 0
  {
    if aaaaRecords.Err? {
      return Err(aaaaRecords.error);
    }
    if aRecords.Err? {
      return Err(aRecords.error);
    }
    var m := AddRecordsOfType(map[], aaaaRecords.value);
    m := AddRecordsOfType(m, aRecords.value);
    r := Ok(m);
  }

  /** The subnames listed for the assigned addresses, address by address, repeats kept. */
  function Candidates(ipAssignments: seq<string>, addressDomainNames: map<string, seq<string>>): seq<string>
    decreases |ipAssignments|
  {
    if ipAssignments == [] then []
    else
      var ip := ipAssignments[|ipAssignments| - 1];
      Candidates(ipAssignments[..|ipAssignments| - 1], addressDomainNames) +
        (if ip in addressDomainNames then addressDomainNames[ip] else [])
  }

  /** The domain name of a subname in a zone. */
  function DomainNameOf(zoneDomainName: string): string -> string
  {
    subname => subname + "." + zoneDomainName
  }

  /** One step of the inner loop of `IdentifyDomainNames`: `subname` is kept unless its domain name was added already. */
  method AddSubname(zoneDomainName: string, domainNames: seq<string>, subnames: seq<string>, added: set<string>,
                    ghost seen: seq<string>, subname: string)
    returns (domainNames': seq<string>, subnames': seq<string>, added': set<string>)
    requires subnames == DedupBy(seen, DomainNameOf(zoneDomainName))
    requires added == KeysOf(subnames, DomainNameOf(zoneDomainName))
    requires |domainNames| == |subnames| && forall k :: 0 <= k < |subnames| ==> domainNames[k] == subnames[k] + "." + zoneDomainName
    ensures subnames' == DedupBy(seen + [subname], DomainNameOf(zoneDomainName))
    ensures added' == KeysOf(subnames', DomainNameOf(zoneDomainName))
    ensures |domainNames'| == |subnames'| && forall k :: 0 <= k < |subnames'| ==> domainNames'[k] == subnames'[k] + "." + zoneDomainName
  {
    var key := DomainNameOf(zoneDomainName);
    var domainName := subname + "." + zoneDomainName;
    assert domainName == key(subname);
    DedupBySnoc(seen, subname, key);
    if domainName in added {
      domainNames', subnames', added' := domainNames, subnames, added;
    } else {
      KeysOfSnoc(subnames, subname, key);
      domainNames', subnames', added' := domainNames + [domainName], subnames + [subname], added + {domainName};
    }
  }

  /** The inner loop of `IdentifyDomainNames`: the subnames listed for one address, skipping domain names already added. */
  method AddListed(zoneDomainName: string, domainNames: seq<string>, subnames: seq<string>, added: set<string>,
                   ghost before: seq<string>, listed: seq<string>)
    returns (domainNames': seq<string>, subnames': seq<string>, added': set<string>)
    requires subnames == DedupBy(before, DomainNameOf(zoneDomainName))
    requires added == KeysOf(subnames, DomainNameOf(zoneDomainName))
    requires |domainNames| == |subnames| && forall k :: 0 <= k < |subnames| ==> domainNames[k] == subnames[k] + "." + zoneDomainName
    ensures subnames' == DedupBy(before + listed, DomainNameOf(zoneDomainName))
    ensures added' == KeysOf(subnames', DomainNameOf(zoneDomainName))
    ensures |domainNames'| == |subnames'| && forall k :: 0 <= k < |subnames'| ==> domainNames'[k] == subnames'[k] + "." + zoneDomainName
  {
    domainNames', subnames', added' := domainNames, subnames, added;
    assert before + listed[..0] == before;
    for j := 0 to |listed|
      invariant subnames' == DedupBy(before + listed[..j], DomainNameOf(zoneDomainName))
      invariant added' == KeysOf(subnames', DomainNameOf(zoneDomainName))
      invariant |domainNames'| == |subnames'| && forall k :: 0 <= k < |subnames'| ==> domainNames'[k] == subnames'[k] + "." + zoneDomainName
    {
      assert before + listed[..j + 1] == (before + listed[..j]) + [listed[j]];
      domainNames', subnames', added' := AddSubname(zoneDomainName, domainNames', subnames', added', before + listed[..j], listed[j]);
    }
    assert listed[..|listed|] == listed;
  }

  /**
   * `IdentifyDomainNames`: the candidate subnames of the member's addresses, each domain name
   * kept at its first occurrence only, with `domainNames[i]` the domain name of `subnames[i]`.
   */
  method IdentifyDomainNames(zoneDomainName: string, ipAssignments: seq<string>, addressDomainNames: map<string, seq<string>>)
    returns (domainNames: seq<string>, subnames: seq<string>)
    ensures subnames == DedupBy(Candidates(ipAssignments, addressDomainNames), DomainNameOf(zoneDomainName))
    ensures |domainNames| == |subnames| && forall i :: 0 <= i < |subnames| ==> domainNames[i] == subnames[i] + "." + zoneDomainName
  {
    domainNames, subnames := [], [];
    var added: set<string> := {};
    for i := 0 to |ipAssignments|
      invariant subnames == DedupBy(Candidates(ipAssignments[..i], addressDomainNames), DomainNameOf(zoneDomainName))
      invariant added == KeysOf(subnames, DomainNameOf(zoneDomainName))
      invariant |domainNames| == |subnames| && forall k :: 0 <= k < |subnames| ==> domainNames[k] == subnames[k] + "." + zoneDomainName
    {
      assert ipAssignments[..i + 1][..i] == ipAssignments[..i];
      var listed := if ipAssignments[i] in addressDomainNames then addressDomainNames[ipAssignments[i]] else [];
      assert Candidates(ipAssignments[..i + 1], addressDomainNames) == Candidates(ipAssignments[..i], addressDomainNames) + listed;
      domainNames, subnames, added :=
        AddListed(zoneDomainName, domainNames, subnames, added, Candidates(ipAssignments[..i], addressDomainNames), listed);
    }
    assert ipAssignments[..|ipAssignments|] == ipAssignments;
  }

  /** The domain names found are distinct, and every candidate subname's domain name is among them. */
  lemma IdentifiedDomainNames(zoneDomainName: string, ipAssignments: seq<string>, addressDomainNames: map<string, seq<string>>)
    ensures var subnames := DedupBy(Candidates(ipAssignments, addressDomainNames), DomainNameOf(zoneDomainName));
      (forall i, j :: 0 <= i < j < |subnames| ==> subnames[i] + "." + zoneDomainName != subnames[j] + "." + zoneDomainName) &&
      (forall s :: s in Candidates(ipAssignments, addressDomainNames) ==> s in subnames) &&
      (forall s :: s in subnames ==> s in Candidates(ipAssignments, addressDomainNames))
  {
    var key := DomainNameOf(zoneDomainName);
    var cands := Candidates(ipAssignments, addressDomainNames);
    var subnames := DedupBy(cands, key);
    DedupByProperties(cands, key);
    forall i, j | 0 <= i < j < |subnames| ensures subnames[i] + "." + zoneDomainName != subnames[j] + "." + zoneDomainName {
      assert key(subnames[i]) != key(subnames[j]);
    }
    forall s | s in cands ensures s in subnames {
      assert key(s) in KeysOf(cands, key);
      var t :| t in subnames && key(t) == key(s);
      assert (t + "." + zoneDomainName)[..|t|] == t;
      assert (s + "." + zoneDomainName)[..|s|] == s;
      assert |t| == |s|;
    }
  }

  /** A planned change to one record of a domain name. */
  datatype DNSUpdate = DNSUpdate(typ: string, operation: string, record: string)

  /** The elements of a list, as a set. */
  function ElementsOf(s: seq<string>): set<string>
  {
    set x | x in s
  }

  /** The records of the last RRset of the given type (matched exactly), as a set; nil without one. */
  function ActualRecords(rrsets: seq<RRset>, typ: string): StringSet
    decreases |rrsets|
  {
    if rrsets == [] then None
    else if rrsets[|rrsets| - 1].typ == typ then Some(ElementsOf(Records(rrsets[|rrsets| - 1])))
    else ActualRecords(rrsets[..|rrsets| - 1], typ)
  }

  /** What `Difference` leaves: the elements of `ss` not in `other`, where nil is empty. */
  function DifferenceOf(ss: StringSet, other: StringSet): set<string>
  {
    if ss.None? then {} else if other.None? then ss.value else ss.value - other.value
  }

  /** The updates of one type: removing the actual records not expected, adding the expected ones not present. */
  function TypeUpdates(typ: string, actual: StringSet, expected: StringSet): set<DNSUpdate>
  {
    (set x | x in DifferenceOf(actual, expected) :: DNSUpdate(typ, "remove", x)) +
    (set x | x in DifferenceOf(expected, actual) :: DNSUpdate(typ, "add", x))
  }

  /** The updates one subname needs, for AAAA against the IPv6 addresses and for A against the IPv4 ones. */
  function SubnameUpdates(rrsets: seq<RRset>, v4: seq<string>, v6: seq<string>): set<DNSUpdate>
  {
    TypeUpdates("AAAA", ActualRecords(rrsets, "AAAA"), Some(ElementsOf(v6))) +
    TypeUpdates("A", ActualRecords(rrsets, "A"), Some(ElementsOf(v4)))
  }

  /** The update is planned for the domain name. */
  predicate Planned(m: map<string, seq<DNSUpdate>>, domainName: string, u: DNSUpdate)
  {
    domainName in m && u in m[domainName]
  }

  /** Appends an update for each address, in the set's iteration order, to the domain name's list. */
  method AppendUpdates(m: map<string, seq<DNSUpdate>>, domainName: string, typ: string, operation: string, addresses: set<string>)
    returns (r: map<string, seq<DNSUpdate>>)
    ensures forall d, u :: Planned(r, d, u) <==>
      Planned(m, d, u) || (d == domainName && u.typ == typ && u.operation == operation && u.record in addresses)
    requires forall d :: d in m ==> |m[d]| > 0
    ensures forall d :: d in r <==> d in m || (d == domainName && addresses != {})
    ensures forall d :: d in r ==> |r[d]| > 0
  {
    r := m;
    var pending := addresses;
    while pending != {}
      invariant pending <= addresses
      invariant forall d, u :: Planned(r, d, u) <==>
        Planned(m, d, u) || (d == domainName && u.typ == typ && u.operation == operation && u.record in addresses - pending)
      invariant forall d :: d in r <==> d in m || (d == domainName && pending != addresses)
      invariant forall d :: d in r ==> |r[d]| > 0
      decreases |pending|
    {
      var address :| address in pending;
      var list := if domainName in r then r[domainName] else [];
      r := r[domainName := list + [DNSUpdate(typ, operation, address)]];
      pending := pending - {address};
    }
  }

  /** The actual records of one type among a subname's RRsets: the last RRset of that type wins. */
  method FindActual(rrsets: seq<RRset>) returns (aaaaActual: StringSet, aActual: StringSet)
    ensures aaaaActual == ActualRecords(rrsets, "AAAA") && aActual == ActualRecords(rrsets, "A")
  {
    aaaaActual, aActual := None, None;
    for k := 0 to |rrsets|
      invariant aaaaActual == ActualRecords(rrsets[..k], "AAAA") && aActual == ActualRecords(rrsets[..k], "A")
    {
      assert rrsets[..k + 1][..k] == rrsets[..k];
      if rrsets[k].typ == "AAAA" {
        aaaaActual := NewStringSet(Records(rrsets[k]));
        assert aaaaActual.value == ElementsOf(Records(rrsets[k]));
      }
      if rrsets[k].typ == "A" {
        aActual := NewStringSet(Records(rrsets[k]));
        assert aActual.value == ElementsOf(Records(rrsets[k]));
      }
    }
    assert rrsets[..|rrsets|] == rrsets;
  }

  /** Membership in the updates of one type, spelled out. */
  lemma TypeUpdatesMembers(typ: string, actual: StringSet, expected: StringSet)
    ensures forall u :: u in TypeUpdates(typ, actual, expected) <==> (u.typ == typ &&
      ((u.operation == "remove" && u.record in DifferenceOf(actual, expected)) ||
       (u.operation == "add" && u.record in DifferenceOf(expected, actual))))
    ensures TypeUpdates(typ, actual, expected) == {} <==> DifferenceOf(actual, expected) == {} && DifferenceOf(expected, actual) == {}
  {
    if DifferenceOf(actual, expected) != {} {
      var x :| x in DifferenceOf(actual, expected);
      assert DNSUpdate(typ, "remove", x) in TypeUpdates(typ, actual, expected);
    }
    if DifferenceOf(expected, actual) != {} {
      var x :| x in DifferenceOf(expected, actual);
      assert DNSUpdate(typ, "add", x) in TypeUpdates(typ, actual, expected);
    }
  }

  /** Plans the removals, then the additions, of one record type under a domain name. */
  method PlanType(m: map<string, seq<DNSUpdate>>, domainName: string, typ: string, actual: StringSet, expected: StringSet)
    returns (r: map<string, seq<DNSUpdate>>)
    requires forall d :: d in m ==> |m[d]| > 0
    ensures forall d, u :: Planned(r, d, u) <==> Planned(m, d, u) || (d == domainName && u in TypeUpdates(typ, actual, expected))
    ensures forall d :: d in r <==> d in m || (d == domainName && TypeUpdates(typ, actual, expected) != {})
    ensures forall d :: d in r ==> |r[d]| > 0
  {
    TypeUpdatesMembers(typ, actual, expected);
    var removed := Difference(actual, expected);
    var added := Difference(expected, actual);
    assert removed.value == DifferenceOf(actual, expected);
    assert added.value == DifferenceOf(expected, actual);
    r := AppendUpdates(m, domainName, typ, "remove", removed.value);
    r := AppendUpdates(r, domainName, typ, "add", added.value);
  }

  /** Plans one subname's updates under its domain name: AAAA first, then A. */
  method PlanSubname(m: map<string, seq<DNSUpdate>>, domainName: string, rrsets: seq<RRset>, v4: seq<string>, v6: seq<string>)
    returns (r: map<string, seq<DNSUpdate>>)
    requires forall d :: d in m ==> |m[d]| > 0
    ensures forall d, u :: Planned(r, d, u) <==> Planned(m, d, u) || (d == domainName && u in SubnameUpdates(rrsets, v4, v6))
    ensures forall d :: d in r ==> |r[d]| > 0
  {
    var aaaaExpected := NewStringSet(v6);
    var aExpected := NewStringSet(v4);
    assert aaaaExpected.value == ElementsOf(v6);
    assert aExpected.value == ElementsOf(v4);
    var aaaaActual, aActual := FindActual(rrsets);
    r := PlanType(m, domainName, "AAAA", aaaaActual, aaaaExpected);
    r := PlanType(r, domainName, "A", aActual, aExpected);
  }

  /** The RRsets of a subname; a subname without entry has none. */
  function RRsetsOf(subnameRRsets: map<string, seq<RRset>>, subname: string): seq<RRset>
  {
    if subname in subnameRRsets then subnameRRsets[subname] else []
  }

  /**
   * `planDNSUpdates`: an error when some assigned address does not parse; otherwise, for each
   * subname, the AAAA and A records to remove (present but not expected) and to add (expected
   * but absent) under its domain name. A domain name has an entry exactly when it has updates.
   */
  method PlanDNSUpdates(
    parse: string -> Result<ParsedAddr>, address: string, ipAssignments: seq<string>,
    subnames: seq<string>, domainNames: seq<string>, subnameRRsets: map<string, seq<RRset>>
  ) returns (r: Result<map<string, seq<DNSUpdate>>>)
    requires |subnames| <= |domainNames|
    ensures r.Err? <==> SplitIPAddresses(parse, ipAssignments).Err?
    ensures r.Err? ==> HasPrefix(r.error, "found invalid IP address for network member " + address)
    ensures r.Ok? ==> forall d, u :: Planned(r.value, d, u) <==>
      exists i :: 0 <= i < |subnames| && domainNames[i] == d &&
        u in SubnameUpdates(RRsetsOf(subnameRRsets, subnames[i]), SplitIPAddresses(parse, ipAssignments).value.0, SplitIPAddresses(parse, ipAssignments).value.1)
    ensures r.Ok? ==> forall d :: d in r.value ==> |r.value[d]| > 0
  {
    var split := SplitIPAddresses(parse, ipAssignments);
    if split.Err? {
      return Err(Wrap(Some(split.error), "found invalid IP address for network member " + address).value);
    }
    var (v4, v6) := split.value;
    var m: map<string, seq<DNSUpdate>> := map[];
    for i := 0 to |subnames|
      invariant forall d, u :: Planned(m, d, u) <==>
        exists k :: 0 <= k < i && domainNames[k] == d && u in SubnameUpdates(RRsetsOf(subnameRRsets, subnames[k]), v4, v6)
      invariant forall d :: d in m ==> |m[d]| > 0
    {
      m := PlanSubname(m, domainNames[i], RRsetsOf(subnameRRsets, subnames[i]), v4, v6);
    }
    r := Ok(m);
  }

  /**
   * `NetworkNamedByDNS`: the network name must end in "." and the domain, the rest must be a
   * subname with RRsets, and the first TXT RRset among them must carry the network's ID.
   */
  function NetworkNamedByDNS(networkID: string, networkName: string, domainName: string, subnameRRsets: map<string, seq<RRset>>): (r: bool)
    ensures !HasSuffix(networkName, "." + domainName) ==> !r
    ensures r <==> (HasSuffix(networkName, "." + domainName) &&
      TrimSuffix(networkName, "." + domainName) in subnameRRsets &&
      exists k :: 0 <= k < |subnameRRsets[TrimSuffix(networkName, "." + domainName)]| &&
        FirstTXT(subnameRRsets[TrimSuffix(networkName, "." + domainName)]) == Some(k) &&
        GetNetworkID(Records(subnameRRsets[TrimSuffix(networkName, "." + domainName)][k])) == (networkID, true))
  {
    var domainSuffix := "." + domainName;
    if !HasSuffix(networkName, domainSuffix) then false
    else
      var subname := TrimSuffix(networkName, domainSuffix);
      if subname !in subnameRRsets then false
      else
        match FirstTXT(subnameRRsets[subname]) {
          case None => false
          case Some(k) =>
            var (parsedID, txtHasNetworkID) := GetNetworkID(Records(subnameRRsets[subname][k]));
            txtHasNetworkID && parsedID == networkID
        }
  }

  /**
   * A network is named by DNS exactly when its name is a subname of the domain and the ID that
   * subname announces, as `GetNetworkIDs` collects it, is the network's ID.
   */
  lemma NetworkNamedByDNSAgrees(networkID: string, networkName: string, domainName: string, subnameRRsets: map<string, seq<RRset>>)
    ensures NetworkNamedByDNS(networkID, networkName, domainName, subnameRRsets) <==>
      HasSuffix(networkName, "." + domainName) &&
      var subname := TrimSuffix(networkName, "." + domainName);
      subname in subnameRRsets && NetworkIDOf(subnameRRsets[subname]) == Some(networkID)
  {
  }

  /**
   * Announcing a lower-case network ID in the first record of a subname's first TXT RRset names,
   * under that subname of the domain, that network and no other.
   */
  lemma {:induction false} NamedByIDRecord(networkID: string, subname: string, domainName: string, subnameRRsets: map<string, seq<RRset>>, k: nat)
    requires IsNetworkID(networkID) && forall i :: 0 <= i < 16 ==> IsLowerHexDigit(networkID[i])
    requires subname in subnameRRsets && FirstTXT(subnameRRsets[subname]) == Some(k)
    requires |Records(subnameRRsets[subname][k])| > 0 && Records(subnameRRsets[subname][k])[0] == MakeNetworkIDRecord(networkID)
    ensures NetworkNamedByDNS(networkID, subname + "." + domainName, domainName, subnameRRsets)
    ensures forall otherID :: NetworkNamedByDNS(otherID, subname + "." + domainName, domainName, subnameRRsets) ==> otherID == networkID
  {
    var name := subname + "." + domainName;
    var suffix := "." + domainName;
    assert name == subname + suffix;
    assert name[|name| - |suffix|..] == suffix;
    assert TrimSuffix(name, suffix) == subname;
    LowerRecordRoundTrip(networkID);
    var records := Records(subnameRRsets[subname][k]);
    assert records == [records[0]] + records[1..];
    assert GetNetworkID(records) == (networkID, true);
  }
}
