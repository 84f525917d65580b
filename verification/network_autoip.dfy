/**
 * The IP assignment pools of a ZeroTier network, as the network page lists them: the
 * directly routed prefixes of the network's managed routes (narrowed so that an IPv4 range
 * leaves out the network and broadcast addresses) merged with its auto-assignment ranges.
 * Address and prefix parsing, and the conversions between prefixes and ranges, are the
 * `netip` library's and enter as the functions of a `NetIP` value.
 */
module NetworkAutoIP {
  import opened Wrappers
  import opened SeqUtil

  type Octet = x: int | 0 <= x < 256

  /** An IP address: four octets, or the bytes of an IPv6 address (never inspected here). */
  datatype Addr = IPv4(a: Octet, b: Octet, c: Octet, d: Octet) | IPv6(bytes: seq<Octet>)

  /** An inclusive range of addresses. */
  datatype IPRange = IPRange(from: Addr, to: Addr)

  datatype Prefix = Prefix(addr: Addr, bits: int)

  datatype AssignmentPool = AssignmentPool(range: IPRange, enabled: bool, exactPrefix: bool, prefix: Prefix)

  /** A managed route: its target prefix and its gateway, either possibly absent. */
  datatype Route = Route(target: Option<string>, via: Option<string>)

  /** An auto-assignment range, as the first and last address written out. */
  datatype RawPool = RawPool(start: string, end: string)

  /**
   * The library functions used: prefix and address parsing, the range a prefix covers, and
   * the prefix a range equals (with whether it equals one exactly).
   */
  datatype NetIP = NetIP(
    parsePrefix: string -> Result<Prefix>, rangeOfPrefix: Prefix -> IPRange,
    parseAddr: string -> Result<Addr>, prefixOfRange: IPRange -> (Prefix, bool))

  const ErrNoTarget := "couldn't find target in zerotier managed route"
  const ErrRouteTarget := "couldn't parse zerotier managed route target"
  const ErrPoolStart := "couldn't parse zerotier ip assignment pool starting address"
  const ErrPoolEnd := "couldn't parse zerotier ip assignment pool ending address"

  /** An IPv4 address as a 32-bit number, which orders addresses as `netip` compares them. */
  function V4Number(x: Addr): nat
    requires x.IPv4?
  {
    ((x.a * 256 + x.b) * 256 + x.c) * 256 + x.d
  }

  /**
   * `sanitizeAssignmentPoolRange`: for an IPv4 range, a first address ending in .0 moves up to
   * .1 and a last address ending in .255 moves down to .254, unless the range would then be
   * empty, in which case (like any range that is not IPv4 at both ends) it is kept as it is.
   */
  function Sanitize(r: IPRange): (s: IPRange)
    ensures !(r.from.IPv4? && r.to.IPv4?) ==> s == r
    ensures s.from == r.from || (r.from.IPv4? && r.from.d == 0 && s.from == r.from.(d := 1))
    ensures s.to == r.to || (r.to.IPv4? && r.to.d == 255 && s.to == r.to.(d := 254))
    ensures s != r ==> s.from.IPv4? && s.to.IPv4? && V4Number(r.from) <= V4Number(s.from) <= V4Number(s.to) <= V4Number(r.to)
    ensures r.from.IPv4? && r.to.IPv4? && s == r && (r.from.d == 0 || r.to.d == 255) ==>
      V4Number(r.to) - V4Number(r.from) < (if r.from.d == 0 then 1 else 0) + (if r.to.d == 255 then 1 else 0)
  {
    if !r.from.IPv4? || !r.to.IPv4? then r
    else
      var from := if r.from.d == 0 then r.from.(d := r.from.d + 1) else r.from;
      var to := if r.to.d == 255 then r.to.(d := r.to.d - 1) else r.to;
      if V4Number(from) <= V4Number(to) then IPRange(from, to) else r
  }

  /** Sanitizing a sanitized range changes nothing more. */
  lemma SanitizeIdempotent(r: IPRange)
    ensures Sanitize(Sanitize(r)) == Sanitize(r)
  {
  }

  /** The error a route raises: no target, or a target that does not parse as a prefix. */
  function RouteError(route: Route, net: NetIP): Option<string>
  {
    match route.target
    case None => Some(ErrNoTarget)
    case Some(t) => if net.parsePrefix(t).Err? then Some(ErrRouteTarget) else None
  }

  /**
   * The pool a route contributes: none when it goes through a gateway, otherwise its prefix's
   * sanitized range, disabled and exactly equal to the prefix.
   */
  function RouteEntry(route: Route, net: NetIP): seq<AssignmentPool>
    requires RouteError(route, net).None?
  {
    if route.via.Some? && |route.via.value| > 0 then []
    else
      var prefix := net.parsePrefix(route.target.value).value;
      [AssignmentPool(Sanitize(net.rangeOfPrefix(prefix)), false, true, prefix)]
  }

  /** The pools the routes contribute, in order, or the first route's error. */
  function RoutesEntries(routes: seq<Route>, net: NetIP): (r: Result<seq<AssignmentPool>>)
    ensures r.Err? <==> exists i :: 0 <= i < |routes| && RouteError(routes[i], net).Some?
    ensures r.Err? ==> exists i :: (
      0 <= i < |routes| && RouteError(routes[i], net) == Some(r.error) &&
      forall j :: 0 <= j < i ==> RouteError(routes[j], net).None?)
    ensures r.Ok? ==> forall e :: e in r.value ==> !e.enabled && e.exactPrefix
    decreases |routes|
  {
    if routes == [] then Ok([])
    else
      var init := RoutesEntries(routes[..|routes| - 1], net);
      var last := routes[|routes| - 1];
      if init.Err? then init
      else if RouteError(last, net).Some? then Err(RouteError(last, net).value)
      else Ok(init.value + RouteEntry(last, net))
  }

  /** The error an auto-assignment range raises: its first, then its last address does not parse. */
  function PoolError(pool: RawPool, net: NetIP): Option<string>
  {
    if net.parseAddr(pool.start).Err? then Some(ErrPoolStart)
    else if net.parseAddr(pool.end).Err? then Some(ErrPoolEnd)
    else None
  }

  /** The pool an auto-assignment range contributes: enabled, with the prefix its range equals, if any. */
  function PoolEntry(pool: RawPool, net: NetIP): AssignmentPool
    requires PoolError(pool, net).None?
  {
    var range := IPRange(net.parseAddr(pool.start).value, net.parseAddr(pool.end).value);
    var (prefix, exact) := net.prefixOfRange(range);
    AssignmentPool(range, true, exact, prefix)
  }

  /** The pools the auto-assignment ranges contribute, in order, or the first range's error. */
  function PoolsEntries(pools: seq<RawPool>, net: NetIP): (r: Result<seq<AssignmentPool>>)
    ensures r.Err? <==> exists i :: 0 <= i < |pools| && PoolError(pools[i], net).Some?
    ensures r.Err? ==> exists i :: (
      0 <= i < |pools| && PoolError(pools[i], net) == Some(r.error) &&
      forall j :: 0 <= j < i ==> PoolError(pools[j], net).None?)
    ensures r.Ok? ==> |r.value| == |pools| && forall i :: 0 <= i < |pools| ==> r.value[i] == PoolEntry(pools[i], net)
    decreases |pools|
  {
    if pools == [] then Ok([])
    else
      var init := PoolsEntries(pools[..|pools| - 1], net);
      var last := pools[|pools| - 1];
      if init.Err? then init
      else if PoolError(last, net).Some? then Err(PoolError(last, net).value)
      else Ok(init.value + [PoolEntry(last, net)])
  }

  function RangeOf(p: AssignmentPool): IPRange {
    p.range
  }

  /** The ranges that some enabled pool among `entries` covers. */
  function EnabledRanges(entries: seq<AssignmentPool>): set<IPRange> {
    set e | e in entries && e.enabled :: e.range
  }

  /**
   * The merged pools: one per distinct range, in order of first appearance, recorded as the
   * first entry with that range recorded it, and enabled when any entry with that range is.
   */
  function Merged(entries: seq<AssignmentPool>): seq<AssignmentPool> {
    var firsts := DedupBy(entries, RangeOf);
    seq(|firsts|, i requires 0 <= i < |firsts| => firsts[i].(enabled := firsts[i].range in EnabledRanges(entries)))
  }

  /**
   * The merged pools list every range of the entries exactly once, take every other field from
   * an entry with the same range, and are enabled exactly when some entry with their range is.
   */
  lemma MergedProperties(entries: seq<AssignmentPool>)
    ensures forall i, j :: 0 <= i < j < |Merged(entries)| ==> Merged(entries)[i].range != Merged(entries)[j].range
    ensures KeysOf(Merged(entries), RangeOf) == KeysOf(entries, RangeOf)
    ensures forall p :: p in Merged(entries) ==> (
      (p.enabled <==> exists e :: e in entries && e.range == p.range && e.enabled) &&
      exists e :: e in entries && p == e.(enabled := p.enabled))
  {
    var firsts := DedupBy(entries, RangeOf);
    var m := Merged(entries);
    DedupByProperties(entries, RangeOf);
    assert forall i :: 0 <= i < |m| ==> m[i].range == firsts[i].range;
    assert KeysOf(m, RangeOf) == KeysOf(firsts, RangeOf) by {
      forall r | r in KeysOf(firsts, RangeOf) ensures r in KeysOf(m, RangeOf) {
        var i :| 0 <= i < |firsts| && firsts[i].range == r;
        assert m[i] in m;
      }
    }
    forall p | p in m
      ensures exists e :: e in entries && p == e.(enabled := p.enabled)
    {
      var i :| 0 <= i < |m| && m[i] == p;
      assert firsts[i] in firsts;
    }
  }

  /**
   * The state `parseAssignmentPools` keeps while it reads the entries `seen`: the ranges in
   * order of first insertion, and the pool recorded for each.
   */
  ghost predicate Tracks(keyed: map<IPRange, AssignmentPool>, poolRanges: seq<IPRange>, seen: seq<AssignmentPool>)
  {
    var firsts := DedupBy(seen, RangeOf);
    |poolRanges| == |firsts| && keyed.Keys == KeysOf(seen, RangeOf) &&
    forall k :: 0 <= k < |firsts| ==> (
      poolRanges[k] == firsts[k].range && firsts[k].range in keyed &&
      keyed[firsts[k].range] == firsts[k].(enabled := firsts[k].range in EnabledRanges(seen)))
  }

  /** Meeting a range already recorded: only an enabled entry changes the record, enabling it. */
  lemma TracksSeen(keyed: map<IPRange, AssignmentPool>, poolRanges: seq<IPRange>, seen: seq<AssignmentPool>, e: AssignmentPool)
    requires Tracks(keyed, poolRanges, seen) && e.range in keyed
    ensures Tracks(if e.enabled then keyed[e.range := keyed[e.range].(enabled := true)] else keyed, poolRanges, seen + [e])
  {
    DedupByAppendSeen(seen, e, RangeOf);
    assert KeysOf(seen + [e], RangeOf) == KeysOf(seen, RangeOf) + {e.range};
    assert EnabledRanges(seen + [e]) == EnabledRanges(seen) + (if e.enabled then {e.range} else {});
  }

  /** Meeting a new range: it is recorded as the entry has it, and appended to the ranges. */
  lemma TracksNew(keyed: map<IPRange, AssignmentPool>, poolRanges: seq<IPRange>, seen: seq<AssignmentPool>, e: AssignmentPool)
    requires Tracks(keyed, poolRanges, seen) && e.range !in keyed
    ensures Tracks(keyed[e.range := e], poolRanges + [e.range], seen + [e])
  {
    DedupByAppendNew(seen, e, RangeOf);
    DedupByProperties(seen, RangeOf);
    assert KeysOf(seen + [e], RangeOf) == KeysOf(seen, RangeOf) + {e.range};
    assert EnabledRanges(seen) <= KeysOf(seen, RangeOf);
    assert EnabledRanges(seen + [e]) == EnabledRanges(seen) + (if e.enabled then {e.range} else {});
  }

  /**
   * Records one pool entry: a range met before is only enabled, when the entry is enabled; a new
   * range is recorded as the entry has it and appended to the ranges.
   */
  method RecordPool(keyed: map<IPRange, AssignmentPool>, poolRanges: seq<IPRange>, ghost seen: seq<AssignmentPool>, pool: AssignmentPool)
    returns (keyed': map<IPRange, AssignmentPool>, poolRanges': seq<IPRange>)
    requires Tracks(keyed, poolRanges, seen)
    ensures Tracks(keyed', poolRanges', seen + [pool])
  {
    if pool.range in keyed {
      TracksSeen(keyed, poolRanges, seen, pool);
      if pool.enabled {
        var existing := keyed[pool.range];
        keyed' := keyed[pool.range := existing.(enabled := true)];
      } else {
        keyed' := keyed;
      }
      poolRanges' := poolRanges;
    } else {
      TracksNew(keyed, poolRanges, seen, pool);
      keyed' := keyed[pool.range := pool];
      poolRanges' := poolRanges + [pool.range];
    }
  }

  /**
   * One managed route: no target or an unparsable one is an error; a route through a gateway
   * adds nothing; otherwise its prefix's sanitized range is recorded as a disabled pool.
   */
  method AddRoutePool(
    rawRoute: Route, net: NetIP, keyed: map<IPRange, AssignmentPool>, poolRanges: seq<IPRange>,
    ghost seen: seq<AssignmentPool>
  ) returns (err: Option<string>, keyed': map<IPRange, AssignmentPool>, poolRanges': seq<IPRange>)
    requires Tracks(keyed, poolRanges, seen)
    ensures err == RouteError(rawRoute, net)
    ensures err.None? ==> Tracks(keyed', poolRanges', seen + RouteEntry(rawRoute, net))
  {
    keyed', poolRanges' := keyed, poolRanges;
    if rawRoute.target.None? {
      return Some(ErrNoTarget), keyed', poolRanges';
    }
    var prefix := net.parsePrefix(rawRoute.target.value);
    if prefix.Err? {
      return Some(ErrRouteTarget), keyed', poolRanges';
    }
    err := None;
    if rawRoute.via.Some? && |rawRoute.via.value| > 0 {
      assert seen + RouteEntry(rawRoute, net) == seen;
      return;
    }
    var poolRange := Sanitize(net.rangeOfPrefix(prefix.value));
    var pool := AssignmentPool(poolRange, false, true, prefix.value);
    keyed', poolRanges' := RecordPool(keyed, poolRanges, seen, pool);
  }

  /** The first route that fails, after routes that all parse, decides the error of them all. */
  lemma {:induction false} RoutesErrorAt(routes: seq<Route>, net: NetIP, i: nat)
    requires i < |routes| && RoutesEntries(routes[..i], net).Ok? && RouteError(routes[i], net).Some?
    ensures RoutesEntries(routes, net) == Err(RouteError(routes[i], net).value)
    decreases |routes|
  {
    if i < |routes| - 1 {
      var init := routes[..|routes| - 1];
      assert init[..i] == routes[..i] && init[i] == routes[i];
      RoutesErrorAt(init, net, i);
    } else {
      assert routes[..|routes| - 1] == routes[..i];
    }
  }

  /** The loop of `parseAssignmentPools` over the managed routes. */
  method AddRoutePools(rawRoutes: seq<Route>, net: NetIP)
    returns (err: Option<string>, keyedPools: map<IPRange, AssignmentPool>, poolRanges: seq<IPRange>)
    ensures err.Some? <==> RoutesEntries(rawRoutes, net).Err?
    ensures err.Some? ==> err.value == RoutesEntries(rawRoutes, net).error
    ensures err.None? ==> Tracks(keyedPools, poolRanges, RoutesEntries(rawRoutes, net).value)
  {
    keyedPools, poolRanges := map[], [];
    for i := 0 to |rawRoutes|
      invariant RoutesEntries(rawRoutes[..i], net).Ok?
      invariant Tracks(keyedPools, poolRanges, RoutesEntries(rawRoutes[..i], net).value)
    {
      ghost var seen := RoutesEntries(rawRoutes[..i], net).value;
      assert rawRoutes[..i + 1][..i] == rawRoutes[..i];
      err, keyedPools, poolRanges := AddRoutePool(rawRoutes[i], net, keyedPools, poolRanges, seen);
      if err.Some? {
        RoutesErrorAt(rawRoutes, net, i);
        return;
      }
    }
    assert rawRoutes[..|rawRoutes|] == rawRoutes;
    err := None;
  }

  /**
   * One auto-assignment range: an unparsable first or last address is an error; otherwise the
   * range is recorded as an enabled pool with the prefix it equals, if any.
   */
  method AddAssignmentPool(
    rawRange: RawPool, net: NetIP, keyed: map<IPRange, AssignmentPool>, poolRanges: seq<IPRange>,
    ghost seen: seq<AssignmentPool>
  ) returns (err: Option<string>, keyed': map<IPRange, AssignmentPool>, poolRanges': seq<IPRange>)
    requires Tracks(keyed, poolRanges, seen)
    ensures err == PoolError(rawRange, net)
    ensures err.None? ==> Tracks(keyed', poolRanges', seen + [PoolEntry(rawRange, net)])
  {
    keyed', poolRanges' := keyed, poolRanges;
    var rangeStart := net.parseAddr(rawRange.start);
    if rangeStart.Err? {
      return Some(ErrPoolStart), keyed', poolRanges';
    }
    var rangeEnd := net.parseAddr(rawRange.end);
    if rangeEnd.Err? {
      return Some(ErrPoolEnd), keyed', poolRanges';
    }
    err := None;
    var poolRange := IPRange(rangeStart.value, rangeEnd.value);
    var (prefix, exact) := net.prefixOfRange(poolRange);
    var pool := AssignmentPool(poolRange, true, exact, prefix);
    keyed', poolRanges' := RecordPool(keyed, poolRanges, seen, pool);
  }

  /** The first range that fails, after ranges that all parse, decides the error of them all. */
  lemma {:induction false} PoolsErrorAt(pools: seq<RawPool>, net: NetIP, i: nat)
    requires i < |pools| && PoolsEntries(pools[..i], net).Ok? && PoolError(pools[i], net).Some?
    ensures PoolsEntries(pools, net) == Err(PoolError(pools[i], net).value)
    decreases |pools|
  {
    if i < |pools| - 1 {
      var init := pools[..|pools| - 1];
      assert init[..i] == pools[..i] && init[i] == pools[i];
      PoolsErrorAt(init, net, i);
    } else {
      assert pools[..|pools| - 1] == pools[..i];
    }
  }

  /** The loop of `parseAssignmentPools` over the auto-assignment ranges, after the routes' entries `before`. */
  method AddAssignmentPools(
    rawPools: seq<RawPool>, net: NetIP, keyedPools: map<IPRange, AssignmentPool>, poolRanges: seq<IPRange>,
    ghost before: seq<AssignmentPool>
  ) returns (err: Option<string>, keyedPools': map<IPRange, AssignmentPool>, poolRanges': seq<IPRange>)
    requires Tracks(keyedPools, poolRanges, before)
    ensures err.Some? <==> PoolsEntries(rawPools, net).Err?
    ensures err.Some? ==> err.value == PoolsEntries(rawPools, net).error
    ensures err.None? ==> Tracks(keyedPools', poolRanges', before + PoolsEntries(rawPools, net).value)
  {
    keyedPools', poolRanges' := keyedPools, poolRanges;
    assert before + [] == before;
    for j := 0 to |rawPools|
      invariant PoolsEntries(rawPools[..j], net).Ok?
      invariant Tracks(keyedPools', poolRanges', before + PoolsEntries(rawPools[..j], net).value)
    {
      ghost var seen := before + PoolsEntries(rawPools[..j], net).value;
      assert rawPools[..j + 1][..j] == rawPools[..j];
      err, keyedPools', poolRanges' := AddAssignmentPool(rawPools[j], net, keyedPools', poolRanges', seen);
      if err.Some? {
        PoolsErrorAt(rawPools, net, j);
        return;
      }
      assert before + PoolsEntries(rawPools[..j + 1], net).value == seen + [PoolEntry(rawPools[j], net)];
    }
    assert rawPools[..|rawPools|] == rawPools;
    err := None;
  }

  /**
   * `parseAssignmentPools`: the first route error, else the first auto-assignment range
   * error, else the merged pools of the routes' entries followed by the ranges' entries.
   */
  method ParseAssignmentPools(rawRoutes: seq<Route>, rawPools: seq<RawPool>, net: NetIP)
    returns (r: Result<seq<AssignmentPool>>)
    ensures RoutesEntries(rawRoutes, net).Err? ==> r == RoutesEntries(rawRoutes, net)
    ensures RoutesEntries(rawRoutes, net).Ok? && PoolsEntries(rawPools, net).Err? ==> r == PoolsEntries(rawPools, net)
    ensures r.Ok? <==> RoutesEntries(rawRoutes, net).Ok? && PoolsEntries(rawPools, net).Ok?
    ensures r.Ok? ==> r.value == Merged(RoutesEntries(rawRoutes, net).value + PoolsEntries(rawPools, net).value)
  {
    var err, keyedPools, poolRanges := AddRoutePools(rawRoutes, net);
    if err.Some? {
      return Err(err.value);
    }
    ghost var routeEntries := RoutesEntries(rawRoutes, net).value;
    err, keyedPools, poolRanges := AddAssignmentPools(rawPools, net, keyedPools, poolRanges, routeEntries);
    if err.Some? {
      return Err(err.value);
    }
    ghost var seen := routeEntries + PoolsEntries(rawPools, net).value;
    var pools := [];
    for i := 0 to |poolRanges|
      invariant |pools| == i
      invariant forall k :: 0 <= k < i ==> pools[k] == keyedPools[poolRanges[k]]
    {
      pools := pools + [keyedPools[poolRanges[i]]];
    }
    r := Ok(pools);
  }
}
