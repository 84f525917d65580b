/**
 * DNS helpers of the client: the labels of a domain name in reverse order, the network IDs
 * that subnames announce in TXT records, and the order in which subnames are listed.
 */
module Dns {
  import opened Wrappers
  import opened GoStrings
  import opened SeqUtil
  import opened DesecModels
  import opened DesecRRsets
  import opened Sargassum

  /** The labels of a domain name, last label first. */
  function ReverseLabels(domainName: string): seq<string>
  {
    Reversed(Split(domainName, '.'))
  }

  /**
   * `GetReverseDomainNameFragments`: splits on "." and reverses the pieces in place, swapping
   * from both ends towards the middle.
   */
  method GetReverseDomainNameFragments(domainName: string) returns (fragments: seq<string>)
    ensures fragments == ReverseLabels(domainName)
  {
    var parts := Split(domainName, '.');
    var a := new string[|parts|](k requires 0 <= k < |parts| => parts[k]);
    var i, j := 0, |parts| - 1;
    while i < j
      invariant 0 <= i <= |parts| && j == |parts| - 1 - i
      invariant forall k :: 0 <= k < |parts| && (k < i || j < k) ==> a[k] == parts[|parts| - 1 - k]
      invariant forall k :: i <= k <= j ==> a[k] == parts[k]
    {
      a[i], a[j] := a[j], a[i];
      i, j := i + 1, j - 1;
    }
    fragments := a[..];
  }

  /** Joining the reversed labels back in reverse order gives the domain name. */
  lemma ReverseLabelsRoundTrip(domainName: string)
    ensures Join(Reversed(ReverseLabels(domainName)), '.') == domainName
  {
    ReversedTwice(Split(domainName, '.'));
    JoinSplit(domainName, '.');
  }

  /** Different names have different reversed labels. */
  lemma ReverseLabelsInjective(x: string, y: string)
    requires ReverseLabels(x) == ReverseLabels(y)
    ensures x == y
  {
    ReverseLabelsRoundTrip(x);
    ReverseLabelsRoundTrip(y);
  }

  /** The first TXT RRset of a list (matched exactly on the type), if any. */
  function FirstTXT(rrsets: seq<RRset>): (r: Option<nat>)
    ensures r.Some? ==> (r.value < |rrsets| && rrsets[r.value].typ == "TXT" &&
      forall k :: 0 <= k < r.value ==> rrsets[k].typ != "TXT")
    ensures r.None? ==> forall k :: 0 <= k < |rrsets| ==> rrsets[k].typ != "TXT"
    decreases |rrsets|
  {
    if rrsets == [] then None
    else if rrsets[0].typ == "TXT" then Some(0)
    else
      match FirstTXT(rrsets[1..]) {
        case None => None
        case Some(k) => Some(k + 1)
      }
  }

  /** The records of an RRset, a nil list being empty. */
  function Records(rrset: RRset): seq<string>
  {
    if rrset.records.Some? then rrset.records.value else []
  }

  /** The network ID a subname's RRsets announce: the one in its first TXT RRset, if that has one. */
  function NetworkIDOf(rrsets: seq<RRset>): Option<string>
  {
    match FirstTXT(rrsets) {
      case None => None
      case Some(k) =>
        var (id, has) := GetNetworkID(Records(rrsets[k]));
        if has then Some(id) else None
    }
  }

  /** Once a TXT RRset has been seen, nothing after it matters to the announced ID. */
  lemma {:induction false} RRsetsAfterFirstTXTIgnored(before: seq<RRset>, txt: RRset, after: seq<RRset>)
    requires forall k :: 0 <= k < |before| ==> before[k].typ != "TXT"
    requires txt.typ == "TXT"
    ensures FirstTXT(before + [txt] + after) == Some(|before|)
    ensures NetworkIDOf(before + [txt] + after) == NetworkIDOf([txt])
    decreases |before|
  {
    var all := before + [txt] + after;
    if before == [] {
      assert all[0] == txt;
    } else {
      assert all[1..] == before[1..] + [txt] + after;
      RRsetsAfterFirstTXTIgnored(before[1..], txt, after);
    }
    assert all[|before|] == txt;
  }

  /**
   * `GetNetworkIDs`: for each subname whose first TXT RRset carries a network ID, that ID; other
   * subnames have no entry. The subnames are visited in the map's order.
   */
  method GetNetworkIDs(subnameRRsets: map<string, seq<RRset>>) returns (networkIDs: map<string, string>)
    ensures forall s :: s in networkIDs <==> s in subnameRRsets && NetworkIDOf(subnameRRsets[s]).Some?
    ensures forall s :: s in networkIDs ==> networkIDs[s] == NetworkIDOf(subnameRRsets[s]).value
  {
    networkIDs := map[];
    var pending := subnameRRsets.Keys;
    while pending != {}
      invariant pending <= subnameRRsets.Keys
      invariant forall s :: s in networkIDs <==>
        s in subnameRRsets && s !in pending && NetworkIDOf(subnameRRsets[s]).Some?
      invariant forall s :: s in networkIDs ==> networkIDs[s] == NetworkIDOf(subnameRRsets[s]).value
      decreases |pending|
    {
      var subname :| subname in pending;
      var rrsets := subnameRRsets[subname];
      var i := 0;
      while i < |rrsets|
        invariant 0 <= i <= |rrsets| && forall k :: 0 <= k < i ==> rrsets[k].typ != "TXT"
        invariant forall s :: s in networkIDs <==>
          s in subnameRRsets && s !in pending && NetworkIDOf(subnameRRsets[s]).Some?
        invariant forall s :: s in networkIDs ==> networkIDs[s] == NetworkIDOf(subnameRRsets[s]).value
      {
        if rrsets[i].typ == "TXT" {
          assert FirstTXT(rrsets) == Some(i);
          var (networkID, has) := GetNetworkID(Records(rrsets[i]));
          if has {
            networkIDs := networkIDs[subname := networkID];
          }
          break;
        }
        i := i + 1;
      }
      pending := pending - {subname};
    }
  }

  /**
   * The order of the subname sort: label by label from the last label on, by Go's string order,
   * a proper prefix coming first.
   */
  predicate LabelsLess(a: seq<string>, b: seq<string>)
    decreases |a|
  {
    if |a| == 0 then |b| > 0
    else if |b| == 0 then false
    else if Less(a[0], b[0]) then true
    else if Less(b[0], a[0]) then false
    else LabelsLess(a[1..], b[1..])
  }

  lemma {:induction false} LabelsLessIrreflexive(a: seq<string>)
    ensures !LabelsLess(a, a)
    decreases |a|
  {
    if |a| > 0 {
      LessIrreflexive(a[0]);
      LabelsLessIrreflexive(a[1..]);
    }
  }

  /** Labels that neither precedes the other are equal. */
  lemma {:induction false} LabelsLessEqual(a: seq<string>, b: seq<string>)
    requires |a| > 0 && |b| > 0 && !Less(a[0], b[0]) && !Less(b[0], a[0])
    ensures a[0] == b[0]
  {
    if a[0] != b[0] {
      LessTotal(a[0], b[0]);
    }
  }

  lemma {:induction false} LabelsLessTransitive(a: seq<string>, b: seq<string>, c: seq<string>)
    requires LabelsLess(a, b) && LabelsLess(b, c)
    ensures LabelsLess(a, c)
    decreases |a|
  {
    if |a| > 0 {
      if !Less(a[0], b[0]) {
        LabelsLessEqual(a, b);
      }
      if !Less(b[0], c[0]) {
        LabelsLessEqual(b, c);
      }
      if Less(a[0], b[0]) && Less(b[0], c[0]) {
        LessTransitive(a[0], b[0], c[0]);
      }
      if !Less(a[0], c[0]) {
        LessIrreflexive(a[0]);
        LabelsLessTransitive(a[1..], b[1..], c[1..]);
      }
    }
  }

  lemma {:induction false} LabelsLessTotal(a: seq<string>, b: seq<string>)
    requires a != b
    ensures LabelsLess(a, b) || LabelsLess(b, a)
    decreases |a|
  {
    if |a| > 0 && |b| > 0 && !Less(a[0], b[0]) && !Less(b[0], a[0]) {
      LabelsLessEqual(a, b);
      assert a == [a[0]] + a[1..] && b == [b[0]] + b[1..];
      LabelsLessTotal(a[1..], b[1..]);
    }
  }

  /** The comparator of `SortSubnameRRsets`, on subnames. */
  predicate SubnameLess(x: string, y: string)
  {
    LabelsLess(ReverseLabels(x), ReverseLabels(y))
  }

  /** The subname order is a strict total order. */
  lemma SubnameLessOrder(x: string, y: string, z: string)
    ensures !SubnameLess(x, x)
    ensures SubnameLess(x, y) && SubnameLess(y, z) ==> SubnameLess(x, z)
    ensures x != y ==> SubnameLess(x, y) || SubnameLess(y, x)
  {
    LabelsLessIrreflexive(ReverseLabels(x));
    if SubnameLess(x, y) && SubnameLess(y, z) {
      LabelsLessTransitive(ReverseLabels(x), ReverseLabels(y), ReverseLabels(z));
    }
    if x != y {
      if ReverseLabels(x) == ReverseLabels(y) {
        ReverseLabelsInjective(x, y);
      }
      LabelsLessTotal(ReverseLabels(x), ReverseLabels(y));
    }
  }

  /** The sort's comparator: walks both reversed label lists until a label differs. */
  method CompareSubnames(x: string, y: string) returns (less: bool)
    ensures less == SubnameLess(x, y)
  {
    var a := GetReverseDomainNameFragments(x);
    var b := GetReverseDomainNameFragments(y);
    var k := 0;
    while k < |a| && k < |b|
      invariant 0 <= k <= |a| && k <= |b|
      invariant LabelsLess(a, b) == LabelsLess(a[k..], b[k..])
    {
      if Less(a[k], b[k]) {
        return true;
      }
      if Less(b[k], a[k]) {
        return false;
      }
      assert a[k..][1..] == a[k + 1..] && b[k..][1..] == b[k + 1..];
      k := k + 1;
    }
    less := |a| < |b|;
  }

  /** Strictly increasing in the subname order. */
  predicate SortedSubnames(keys: seq<string>)
  {
    forall i, j :: 0 <= i < j < |keys| ==> SubnameLess(keys[i], keys[j])
  }

  /** Placing `key` after the subnames it follows and before the rest keeps the list sorted. */
  lemma InsertKeepsSorted(keys: seq<string>, key: string, p: nat)
    requires SortedSubnames(keys) && p <= |keys|
    requires forall k :: 0 <= k < p ==> SubnameLess(keys[k], key)
    requires p < |keys| ==> SubnameLess(key, keys[p])
    ensures SortedSubnames(keys[..p] + [key] + keys[p..])
  {
    var r := keys[..p] + [key] + keys[p..];
    forall k | p < k < |keys| ensures SubnameLess(key, keys[k]) {
      SubnameLessOrder(key, keys[p], keys[k]);
    }
    forall i, j | 0 <= i < j < |r| ensures SubnameLess(r[i], r[j]) {
      if j < p {
        assert r[i] == keys[i] && r[j] == keys[j];
      } else if j == p {
        assert r[i] == keys[i];
      } else if i < p {
        assert r[i] == keys[i] && r[j] == keys[j - 1];
        SubnameLessOrder(r[i], key, r[j]);
      } else if i == p {
        assert r[j] == keys[j - 1];
      } else {
        assert r[i] == keys[i - 1] && r[j] == keys[j - 1];
      }
    }
  }

  /** Puts `key` into a sorted list of other subnames, before the first one it precedes. */
  method InsertSubname(keys: seq<string>, key: string) returns (r: seq<string>)
    requires SortedSubnames(keys) && key !in keys
    ensures SortedSubnames(r) && |r| == |keys| + 1
    ensures forall s :: s in r <==> s in keys || s == key
  {
    var p := 0;
    var found := false;
    while p < |keys| && !found
      invariant 0 <= p <= |keys| && forall k :: 0 <= k < p ==> SubnameLess(keys[k], key)
      invariant found ==> p < |keys| && SubnameLess(key, keys[p])
      decreases |keys| - p, !found
    {
      found := CompareSubnames(key, keys[p]);
      if !found {
        SubnameLessOrder(key, keys[p], key);
        p := p + 1;
      }
    }
    InsertKeepsSorted(keys, key, p);
    r := keys[..p] + [key] + keys[p..];
    assert keys == keys[..p] + keys[p..];
  }

  /**
   * `SortSubnameRRsets`: the subnames in subname order, each exactly once, and beside each its
   * RRsets filtered and ordered by the configured record types.
   */
  method SortSubnameRRsets(rrsets: map<string, seq<RRset>>, recordTypes: seq<string>) returns (keys: seq<string>, sorted: seq<seq<RRset>>)
    ensures SortedSubnames(keys) && Distinct(keys)
    ensures forall s :: s in keys <==> s in rrsets
    ensures |sorted| == |keys|
    ensures forall i :: 0 <= i < |keys| ==> sorted[i] == InTypeOrder(Filtered(rrsets[keys[i]], recordTypes), recordTypes)
  {
    var pending := rrsets.Keys;
    keys := [];
    while pending != {}
      invariant pending <= rrsets.Keys && SortedSubnames(keys)
      invariant forall s :: s in keys <==> s in rrsets && s !in pending
      decreases |pending|
    {
      var key :| key in pending;
      keys := InsertSubname(keys, key);
      pending := pending - {key};
    }
    assert Distinct(keys) by {
      forall i, j | 0 <= i < j < |keys| ensures keys[i] != keys[j] {
        SubnameLessOrder(keys[i], keys[j], keys[j]);
      }
    }
    sorted := [];
    for i := 0 to |keys|
      invariant |sorted| == i
      invariant forall k :: 0 <= k < i ==> sorted[k] == InTypeOrder(Filtered(rrsets[keys[k]], recordTypes), recordTypes)
    {
      var filtered := FilterAndSortRRsets(rrsets[keys[i]], recordTypes);
      sorted := sorted + [filtered];
    }
  }
}
