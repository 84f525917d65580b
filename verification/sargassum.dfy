/**
 * The `zerotier-net-id` TXT record that ties a DNS subname to a ZeroTier network: building it,
 * and finding a network ID in a record with the pattern `"zerotier-net-id=([0-9a-fA-F]{16})"`.
 */
module Sargassum {
  import opened GoStrings

  /** The record text before the ID: a double quote and `zerotier-net-id=`. */
  const RecordHead := "\"zerotier-net-id="

  /** `MakeNetworkIDRecord`: the ID between the record head and a closing double quote. */
  function MakeNetworkIDRecord(networkID: string): (r: string)
    ensures |r| == |networkID| + 18
    ensures r[..17] == RecordHead && r[17..17 + |networkID|] == networkID && r[|r| - 1] == '"'
  {
    RecordHead + networkID + "\""
  }

  predicate IsHexDigit(c: char)
  {
    '0' <= c <= '9' || 'a' <= c <= 'f' || 'A' <= c <= 'F'
  }

  predicate IsLowerHexDigit(c: char)
  {
    '0' <= c <= '9' || 'a' <= c <= 'f'
  }

  /** Sixteen hex digits, of either case. */
  predicate IsNetworkID(s: string)
  {
    |s| == 16 && forall i :: 0 <= i < 16 ==> IsHexDigit(s[i])
  }

  /** The pattern matches `s` starting at index `i`. */
  predicate MatchesAt(s: string, i: int)
  {
    0 <= i && i + 34 <= |s| && s[i..i + 17] == RecordHead && IsNetworkID(s[i + 17..i + 33]) && s[i + 33] == '"'
  }

  /** The leftmost index from `from` on where the pattern matches, as Go's leftmost-first search finds it. */
  function FirstMatchFrom(s: string, from: nat): (r: int)
    ensures r == -1 || (from <= r && MatchesAt(s, r))
    ensures forall j :: from <= j && (r == -1 || j < r) ==> !MatchesAt(s, j)
    decreases |s| - from
  {
    if from + 34 > |s| then -1
    else if MatchesAt(s, from) then from
    else FirstMatchFrom(s, from + 1)
  }

  /**
   * `ParseNetworkIDRecord`: the lower-cased ID of the leftmost match, wherever it lies in the
   * record, or ("", false) when the pattern matches nowhere.
   */
  function ParseNetworkIDRecord(txtRecord: string): (r: (string, bool))
    ensures !r.1 ==> r.0 == "" && forall i :: !MatchesAt(txtRecord, i)
    ensures r.1 ==> exists i :: (MatchesAt(txtRecord, i) && r.0 == ToLower(txtRecord[i + 17..i + 33]) &&
      forall j :: 0 <= j < i ==> !MatchesAt(txtRecord, j))
    ensures r.1 ==> |r.0| == 16 && forall k :: 0 <= k < 16 ==> IsLowerHexDigit(r.0[k])
  {
    var i := FirstMatchFrom(txtRecord, 0);
    if i == -1 then ("", false)
    else
      var id := txtRecord[i + 17..i + 33];
      assert forall k :: 0 <= k < 16 ==> IsHexDigit(id[k]);
      (ToLower(id), true)
  }

  /** Parsing a record built from a valid ID gives the ID back, lower-cased. */
  lemma RecordRoundTrip(networkID: string)
    requires IsNetworkID(networkID)
    ensures ParseNetworkIDRecord(MakeNetworkIDRecord(networkID)) == (ToLower(networkID), true)
  {
    var r := MakeNetworkIDRecord(networkID);
    assert r[0..17] == RecordHead && r[17..33] == networkID;
    assert MatchesAt(r, 0);
  }

  /** A lower-case ID is returned exactly as it was written. */
  lemma LowerRecordRoundTrip(networkID: string)
    requires IsNetworkID(networkID) && forall k :: 0 <= k < 16 ==> IsLowerHexDigit(networkID[k])
    ensures ParseNetworkIDRecord(MakeNetworkIDRecord(networkID)) == (networkID, true)
  {
    RecordRoundTrip(networkID);
    assert ToLower(networkID) == networkID;
  }

  /** `GetNetworkID`: the ID of the first record that parses, or ("", false) when none does. */
  function GetNetworkID(txtRecords: seq<string>): (r: (string, bool))
    ensures !r.1 <==> r == ("", false) && forall k :: 0 <= k < |txtRecords| ==> !ParseNetworkIDRecord(txtRecords[k]).1
    ensures r.1 ==> exists k :: (0 <= k < |txtRecords| && ParseNetworkIDRecord(txtRecords[k]) == r &&
      forall j :: 0 <= j < k ==> !ParseNetworkIDRecord(txtRecords[j]).1)
    decreases |txtRecords|
  {
    if txtRecords == [] then ("", false)
    else
      var (id, hasID) := ParseNetworkIDRecord(txtRecords[0]);
      if hasID then (id, true)
      else
        var r := GetNetworkID(txtRecords[1..]);
        assert r.1 ==> exists k :: (1 <= k < |txtRecords| && ParseNetworkIDRecord(txtRecords[k]) == r &&
          forall j :: 0 <= j < k ==> !ParseNetworkIDRecord(txtRecords[j]).1) by {
          if r.1 {
            var k :| 0 <= k < |txtRecords[1..]| && ParseNetworkIDRecord(txtRecords[1..][k]) == r &&
              forall j :: 0 <= j < k ==> !ParseNetworkIDRecord(txtRecords[1..][j]).1;
            FirstRecordShift(txtRecords, r, k);
          }
        }
        r
  }

  /** A first parsing record of the tail, after a head that does not parse, is the first of the whole list. */
  lemma FirstRecordShift(txtRecords: seq<string>, r: (string, bool), k: nat)
    requires 0 < |txtRecords| && !ParseNetworkIDRecord(txtRecords[0]).1 && k < |txtRecords| - 1
    requires ParseNetworkIDRecord(txtRecords[1..][k]) == r && forall j :: 0 <= j < k ==> !ParseNetworkIDRecord(txtRecords[1..][j]).1
    ensures ParseNetworkIDRecord(txtRecords[k + 1]) == r && forall j :: 0 <= j < k + 1 ==> !ParseNetworkIDRecord(txtRecords[j]).1
  {
    forall j | 0 <= j < k + 1
      ensures !ParseNetworkIDRecord(txtRecords[j]).1
    {
      if j > 0 {
        assert txtRecords[j] == txtRecords[1..][j - 1];
      }
    }
  }
}
