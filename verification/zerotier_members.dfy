/**
 * The IP addresses of a ZeroTier network member: its NDP-emulated addresses (6plane and
 * RFC 4193), which the network's IPv6 assignment modes switch on, and its assigned addresses.
 * Go's nil slices are `None`, so that a nil result stays apart from an empty one.
 */
module ZerotierMembers {
  import opened Wrappers

  /**
   * `CalculateNDPAddresses`: nil when neither mode is on; otherwise the 6plane address (when
   * that mode is on) before the RFC 4193 address (when that one is on). `sixplaneAddress` and
   * `rfc4193Address` are what the two address generators return, consulted only for a mode
   * that is on; the first error met is returned.
   */
  function CalculateNDPAddresses(
    sixplane: bool, rfc4193: bool, sixplaneAddress: Result<string>, rfc4193Address: Result<string>
  ): (r: Result<Option<seq<string>>>)
    ensures !sixplane && !rfc4193 ==> r == Ok(None)
    ensures sixplane && sixplaneAddress.Err? ==> r == Err(sixplaneAddress.error)
    ensures !(sixplane && sixplaneAddress.Err?) && rfc4193 && rfc4193Address.Err? ==> r == Err(rfc4193Address.error)
    ensures r.Ok? && r.value.Some? ==> (
      (sixplane || rfc4193) &&
      |r.value.value| == (if sixplane then 1 else 0) + (if rfc4193 then 1 else 0) &&
      (sixplane ==> r.value.value[0] == sixplaneAddress.value) &&
      (rfc4193 ==> r.value.value[|r.value.value| - 1] == rfc4193Address.value))
    ensures r.Err? <==> (sixplane && sixplaneAddress.Err?) || (rfc4193 && rfc4193Address.Err?)
  {
    if !sixplane && !rfc4193 then Ok(None)
    else if sixplane && sixplaneAddress.Err? then Err(sixplaneAddress.error)
    else if rfc4193 && rfc4193Address.Err? then Err(rfc4193Address.error)
    else
      var withSixplane := if sixplane then [sixplaneAddress.value] else [];
      Ok(Some(withSixplane + if rfc4193 then [rfc4193Address.value] else []))
  }

  /** A mode is on only when its optional flag is present and true. */
  predicate ModeOn(flag: Option<bool>) {
    flag == Some(true)
  }

  /** Go's `append(s, xs...)` on a slice that may be nil: appending nothing keeps it nil. */
  function Append(s: Option<seq<string>>, xs: seq<string>): (r: Option<seq<string>>)
    ensures r.None? <==> s.None? && xs == []
    ensures r.Some? ==> r.value == (if s.Some? then s.value else []) + xs
  {
    if s.None? && xs == [] then None
    else Some((if s.Some? then s.value else []) + xs)
  }

  /**
   * `CalculateIPAddresses`: all the member's addresses and its NDP addresses. Without
   * assignments (a nil list) the NDP addresses come first and the second result is nil;
   * with assignments, all addresses are the NDP addresses followed by the assignments.
   */
  function CalculateIPAddresses(
    n6plane: Option<bool>, rfc4193Mode: Option<bool>, sixplaneAddress: Result<string>,
    rfc4193Address: Result<string>, ipAssignments: Option<seq<string>>
  ): (r: Result<(Option<seq<string>>, Option<seq<string>>)>)
    ensures var ndp := CalculateNDPAddresses(ModeOn(n6plane), ModeOn(rfc4193Mode), sixplaneAddress, rfc4193Address);
      && (r.Err? <==> ndp.Err?)
      && (r.Err? ==> r.error == ndp.error)
      && (r.Ok? && ipAssignments.None? ==> r.value == (ndp.value, None))
      && (r.Ok? && ipAssignments.Some? ==> (
        r.value.1 == ndp.value && r.value.0 == Append(ndp.value, ipAssignments.value)))
  {
    var ndp := CalculateNDPAddresses(ModeOn(n6plane), ModeOn(rfc4193Mode), sixplaneAddress, rfc4193Address);
    if ndp.Err? then Err(ndp.error)
    else if ipAssignments.None? then Ok((ndp.value, None))
    else Ok((Append(ndp.value, ipAssignments.value), ndp.value))
  }
}
