/**
 * A limiter made of several sliding-window limiters at different timescales, each keyed by name.
 * The limiters are visited in order of increasing window duration.
 */
module SlidingWindowsMulti {
  import opened SlidingWindows
  import opened SeqUtil

  /** A configured rate: `amountPerTime` events per `time` nanoseconds. */
  datatype Rate = Rate(amountPerTime: int, time: int)

  datatype KeyTime = KeyTime(key: string, duration: int)

  predicate SortedByDuration(s: seq<KeyTime>)
  {
    forall i, j :: 0 <= i < j < |s| ==> s[i].duration <= s[j].duration
  }

  predicate KeysDistinct(s: seq<KeyTime>)
  {
    forall i, j :: 0 <= i < j < |s| ==> s[i].key != s[j].key
  }

  /** Inserts `x` into a duration-sorted sequence, before the first longer duration. */
  function Insert(s: seq<KeyTime>, x: KeyTime): (r: seq<KeyTime>)
    ensures |r| == |s| + 1
  {
    if s == [] then [x]
    else if x.duration < s[0].duration then [x] + s
    else [s[0]] + Insert(s[1..], x)
  }

  /** Insertion adds exactly `x` to the elements. */
  lemma {:induction false} InsertElements(s: seq<KeyTime>, x: KeyTime)
    ensures forall y :: y in Insert(s, x) <==> y in s || y == x
  {
    if s != [] && x.duration >= s[0].duration {
      InsertElements(s[1..], x);
      assert Insert(s, x) == [s[0]] + Insert(s[1..], x);
      assert s == [s[0]] + s[1..];
    }
  }

  /** Insertion keeps a duration-sorted sequence sorted. */
  lemma {:induction false} InsertSorted(s: seq<KeyTime>, x: KeyTime)
    requires SortedByDuration(s)
    ensures SortedByDuration(Insert(s, x))
  {
    if s != [] && x.duration >= s[0].duration {
      var rest := Insert(s[1..], x);
      InsertSorted(s[1..], x);
      InsertElements(s[1..], x);
      assert Insert(s, x) == [s[0]] + rest;
      assert forall y :: y in rest ==> s[0].duration <= y.duration;
    }
  }

  /** Inserting an element with a new key keeps the keys distinct. */
  lemma {:induction false} InsertDistinct(s: seq<KeyTime>, x: KeyTime)
    requires KeysDistinct(s) && forall y :: y in s ==> y.key != x.key
    ensures KeysDistinct(Insert(s, x))
  {
    if s != [] && x.duration >= s[0].duration {
      var rest := Insert(s[1..], x);
      assert forall y :: y in s[1..] ==> y in s;
      InsertDistinct(s[1..], x);
      InsertElements(s[1..], x);
      assert Insert(s, x) == [s[0]] + rest;
      assert forall y :: y in s[1..] ==> s[0].key != y.key;
    }
  }

  function Keys(s: seq<KeyTime>): (keys: seq<string>)
    ensures |keys| == |s| && forall i :: 0 <= i < |s| ==> keys[i] == s[i].key
  {
    if s == [] then [] else [s[0].key] + Keys(s[1..])
  }

  /** The keys of `limiters` ordered by non-decreasing limiter duration, each exactly once. */
  predicate SortedKeysOf(sorted: seq<string>, limiters: map<string, Limiter>)
  {
    Distinct(sorted) &&
    (forall k :: k in sorted ==> k in limiters) &&
    (forall k :: k in limiters ==> k in sorted) &&
    (forall i, j :: 0 <= i < j < |sorted| ==>
      sorted[i] in limiters && sorted[j] in limiters &&
      limiters[sorted[i]].duration <= limiters[sorted[j]].duration)
  }

  /**
   * `sortedKeys`: gathers (key, duration) pairs in the map's unspecified iteration order and
   * sorts them by duration; keys of equal duration come out in no promised order.
   */
  method SortedKeys(limiters: map<string, Limiter>) returns (sorted: seq<string>)
    ensures SortedKeysOf(sorted, limiters)
  {
    var remaining := limiters.Keys;
    var keyTimes: seq<KeyTime> := [];
    while remaining != {}
      invariant remaining <= limiters.Keys
      invariant SortedByDuration(keyTimes) && KeysDistinct(keyTimes)
      invariant forall kt :: kt in keyTimes ==>
        kt.key in limiters && kt.key !in remaining && kt.duration == limiters[kt.key].duration
      invariant forall k :: k in limiters && k !in remaining ==> KeyTime(k, limiters[k].duration) in keyTimes
      decreases remaining
    {
      var k :| k in remaining;
      InsertElements(keyTimes, KeyTime(k, limiters[k].duration));
      InsertSorted(keyTimes, KeyTime(k, limiters[k].duration));
      InsertDistinct(keyTimes, KeyTime(k, limiters[k].duration));
      keyTimes := Insert(keyTimes, KeyTime(k, limiters[k].duration));
      remaining := remaining - {k};
    }
    sorted := Keys(keyTimes);
    forall k | k in limiters
      ensures k in sorted
    {
      var i :| 0 <= i < |keyTimes| && keyTimes[i] == KeyTime(k, limiters[k].duration);
      assert sorted[i] == k;
    }
    forall k | k in sorted
      ensures k in limiters
    {
      var i :| 0 <= i < |sorted| && sorted[i] == k;
      assert keyTimes[i] in keyTimes;
    }
    forall i, j | 0 <= i < j < |sorted|
      ensures sorted[i] in limiters && sorted[j] in limiters
      ensures limiters[sorted[i]].duration <= limiters[sorted[j]].duration
    {
      assert keyTimes[i] in keyTimes && keyTimes[j] in keyTimes;
    }
  }

  class MultiLimiter {
    const limiters: map<string, Limiter>
    const rates: map<string, Rate>
    /** The limiter keys, sorted by the duration of the corresponding limiter. */
    const sortedKeys: seq<string>

    /** Each key names its own limiter, built from its rate, and `sortedKeys` orders all keys by duration. */
    predicate Valid()
    {
      limiters.Keys == rates.Keys &&
      (forall k :: k in limiters ==>
        limiters[k].duration == rates[k].time && rates[k].time > 0 &&
        limiters[k].capacity == rates[k].amountPerTime) &&
      (forall k1, k2 :: k1 in limiters && k2 in limiters && k1 != k2 ==> limiters[k1] != limiters[k2]) &&
      SortedKeysOf(sortedKeys, limiters)
    }

    function Limiters(): set<Limiter>
    {
      set k | k in limiters :: limiters[k]
    }

    /** The limiter at position `i` of `sortedKeys`. */
    function At(i: int): (l: Limiter)
      requires Valid() && 0 <= i < |sortedKeys|
      ensures l in Limiters() && l.duration > 0
    {
      limiters[sortedKeys[i]]
    }

    lemma AtInjective(i: int, j: int)
      requires Valid() && 0 <= i < |sortedKeys| && 0 <= j < |sortedKeys| && i != j
      ensures At(i) != At(j)
    {
      if i < j { assert sortedKeys[i] != sortedKeys[j]; } else { assert sortedKeys[j] != sortedKeys[i]; }
    }

    /** `NewMultiLimiter`: one limiter per configured rate, with fresh windows. */
    constructor (rates: map<string, Rate>)
      requires forall k :: k in rates ==> rates[k].time > 0
      ensures Valid() && this.rates == rates
      ensures forall l :: l in Limiters() ==> fresh(l) && l.curr == Window(0, 0) && l.prev == Window(0, 0)
    {
      var remaining := rates.Keys;
      var built: map<string, Limiter> := map[];
      while remaining != {}
        invariant remaining <= rates.Keys
        invariant built.Keys == rates.Keys - remaining
        invariant forall k :: k in built ==>
          fresh(built[k]) && built[k].duration == rates[k].time && built[k].capacity == rates[k].amountPerTime &&
          built[k].curr == Window(0, 0) && built[k].prev == Window(0, 0)
        invariant forall k1, k2 :: k1 in built && k2 in built && k1 != k2 ==> built[k1] != built[k2]
        decreases remaining
      {
        var k :| k in remaining;
        var limiter := new Limiter(rates[k].time, rates[k].amountPerTime);
        built := built[k := limiter];
        remaining := remaining - {k};
      }
      var sorted := SortedKeys(built);
      limiters := built;
      sortedKeys := sorted;
      this.rates := rates;
    }

    /** The position in `sortedKeys` of the first limiter, from `i` on, that would refuse `n` events at `now`, or `|sortedKeys|`. */
    function RefusalIndexFrom(now: int, n: int, i: nat): (r: nat)
      requires Valid() && i <= |sortedKeys|
      reads Limiters()
      ensures i <= r <= |sortedKeys|
      ensures forall j :: i <= j < r ==> At(j).Allows(now, n)
      ensures r < |sortedKeys| ==> !At(r).Allows(now, n)
      decreases |sortedKeys| - i
    {
      if i == |sortedKeys| then i
      else if !At(i).Allows(now, n) then i
      else RefusalIndexFrom(now, n, i + 1)
    }

    function RefusalIndex(now: int, n: int): nat
      requires Valid()
      reads Limiters()
    {
      RefusalIndexFrom(now, n, 0)
    }

    /**
     * The windows of the limiter at position `i` after trying to spend `n` events at `now` the way
     * rate-limited clients do: `MaybeAllowed` then `TryAdd`, and on a refusal `EstimateWaitDuration`
     * for the error. Every limiter ends advanced to `now`, with `n` more events exactly when every
     * limiter allowed them.
     */
    function SpentWindows(now: int, n: int, i: int): (Window, Window)
      requires Valid() && 0 <= i < |sortedKeys|
      reads Limiters()
    {
      var (c, p) := At(i).AdvancedTo(now);
      if RefusalIndex(now, n) == |sortedKeys| then (c.(count := c.count + n), p) else (c, p)
    }

    /**
     * True exactly when every limiter, visited in sorted order, may allow `n` events. It stops at
     * the first refusal, so the limiters up to and including that one are advanced, the rest are not.
     */
    method MaybeAllowed(now: int, n: int) returns (allowed: bool)
      requires Valid()
      modifies Limiters()
      ensures allowed <==> old(RefusalIndex(now, n)) == |sortedKeys|
      ensures allowed <==> forall i :: 0 <= i < |sortedKeys| ==> old(At(i).Allows(now, n))
      ensures forall i :: 0 <= i < |sortedKeys| ==>
        At(i).Windows() == if i <= old(RefusalIndex(now, n)) then old(At(i).AdvancedTo(now)) else old(At(i).Windows())
    {
      ghost var stop := RefusalIndex(now, n);
      var i := 0;
      while i < |sortedKeys|
        invariant 0 <= i <= |sortedKeys| && i <= stop
        invariant forall j :: 0 <= j < i ==> old(At(j).Allows(now, n))
        invariant forall j :: 0 <= j < |sortedKeys| ==>
          At(j).Windows() == if j < i then old(At(j).AdvancedTo(now)) else old(At(j).Windows())
      {
        var limiter := limiters[sortedKeys[i]];
        assert limiter == At(i);
        forall j | 0 <= j < |sortedKeys| && j != i
          ensures At(j) != limiter
        {
          AtInjective(i, j);
        }
        var ok := limiter.MaybeAllowed(now, n);
        if !ok {
          return false;
        }
        i := i + 1;
      }
      return true;
    }

    /**
     * All-or-nothing over every limiter: when some limiter would refuse, nothing is added and
     * false is returned; otherwise `n` events are added to every limiter and the conjunction of
     * their `TryAdd` results, which is then true, is returned.
     */
    method TryAdd(now: int, n: int) returns (allAdded: bool)
      requires Valid()
      modifies Limiters()
      ensures allAdded <==> forall i :: 0 <= i < |sortedKeys| ==> old(At(i).Allows(now, n))
      ensures allAdded ==> forall i :: 0 <= i < |sortedKeys| ==>
        var (c, p) := old(At(i).AdvancedTo(now));
        At(i).Windows() == (c.(count := c.count + n), p)
      ensures !allAdded ==> forall i :: 0 <= i < |sortedKeys| ==>
        At(i).Windows() == if i <= old(RefusalIndex(now, n)) then old(At(i).AdvancedTo(now)) else old(At(i).Windows())
    {
      var maybe := MaybeAllowed(now, n);
      if !maybe {
        return false;
      }
      forall i | 0 <= i < |sortedKeys|
        ensures At(i).Allows(now, n) && At(i).AdvancedTo(now) == At(i).Windows()
      {
        AdvancedFixed(old(At(i).curr), old(At(i).prev), now, At(i).duration);
      }
      allAdded := AddToEach(now, n);
    }

    /**
     * The adding loop of `TryAdd`, once every limiter is advanced and allows `n`: each one adds
     * `n` events, so the conjunction of their results is true.
     */
    method AddToEach(now: int, n: int) returns (allAdded: bool)
      requires Valid()
      requires forall i :: 0 <= i < |sortedKeys| ==> At(i).Allows(now, n) && At(i).AdvancedTo(now) == At(i).Windows()
      modifies Limiters()
      ensures allAdded
      ensures forall i :: 0 <= i < |sortedKeys| ==>
        var (c, p) := old(At(i).Windows());
        At(i).Windows() == (c.(count := c.count + n), p)
    {
      allAdded := true;
      var i := 0;
      while i < |sortedKeys|
        invariant 0 <= i <= |sortedKeys|
        invariant allAdded
        invariant forall j :: 0 <= j < |sortedKeys| ==>
          var (c, p) := old(At(j).Windows());
          At(j).Windows() == (if j < i then c.(count := c.count + n) else c, p)
      {
        var limiter := limiters[sortedKeys[i]];
        assert limiter == At(i);
        forall j | 0 <= j < |sortedKeys| && j != i
          ensures At(j) != limiter
        {
          AtInjective(i, j);
        }
        var added := limiter.TryAdd(now, n);
        allAdded := added && allAdded;
        i := i + 1;
      }
    }

    /**
     * The largest of the limiters' wait estimates, starting from 0; every limiter is advanced.
     */
    method EstimateWaitDuration(now: int, n: int) returns (maxWait: int)
      requires Valid()
      modifies Limiters()
      ensures maxWait >= 0
      ensures forall i :: 0 <= i < |sortedKeys| ==>
        maxWait >= WaitDuration(old(At(i).Available(now)), n, At(i).duration, At(i).capacity)
      ensures maxWait == 0 ||
        exists i :: 0 <= i < |sortedKeys| && maxWait == WaitDuration(old(At(i).Available(now)), n, At(i).duration, At(i).capacity)
      ensures forall i :: 0 <= i < |sortedKeys| ==> At(i).Windows() == old(At(i).AdvancedTo(now))
    {
      maxWait := 0;
      ghost var argMax := 0;
      var i := 0;
      while i < |sortedKeys|
        invariant 0 <= i <= |sortedKeys|
        invariant maxWait >= 0
        invariant forall j :: 0 <= j < i ==>
          maxWait >= WaitDuration(old(At(j).Available(now)), n, At(j).duration, At(j).capacity)
        invariant maxWait == 0 ||
          (0 <= argMax < i && maxWait == WaitDuration(old(At(argMax).Available(now)), n, At(argMax).duration, At(argMax).capacity))
        invariant forall j :: 0 <= j < |sortedKeys| ==> At(j).Windows() == if j < i then old(At(j).AdvancedTo(now)) else old(At(j).Windows())
      {
        var limiter := limiters[sortedKeys[i]];
        assert limiter == At(i);
        forall j | 0 <= j < |sortedKeys| && j != i
          ensures At(j) != limiter
        {
          AtInjective(i, j);
        }
        assert limiter.Windows() == old(At(i).Windows());
        assert limiter.Available(now) == old(At(i).Available(now));
        var wait := limiter.EstimateWaitDuration(now, n);
        if wait > maxWait {
          maxWait, argMax := wait, i;
        }
        i := i + 1;
      }
    }

    /**
     * The position of the limiter probably responsible for a throttle of `throttle` nanoseconds:
     * the first sorted key whose rate time is at least `throttle`, or else the last key.
     */
    function ResponsibleIndex(throttle: int): (r: nat)
      requires Valid() && |sortedKeys| > 0
      ensures r < |sortedKeys|
      ensures forall j :: 0 <= j < r ==> throttle > rates[sortedKeys[j]].time
      ensures throttle <= rates[sortedKeys[r]].time || r == |sortedKeys| - 1
    {
      ResponsibleIndexFrom(throttle, 0)
    }

    function ResponsibleIndexFrom(throttle: int, i: nat): (r: nat)
      requires Valid() && i < |sortedKeys|
      ensures i <= r < |sortedKeys|
      ensures forall j :: i <= j < r ==> throttle > rates[sortedKeys[j]].time
      ensures throttle <= rates[sortedKeys[r]].time || r == |sortedKeys| - 1
      decreases |sortedKeys| - i
    {
      if throttle <= rates[sortedKeys[i]].time || i == |sortedKeys| - 1 then i
      else ResponsibleIndexFrom(throttle, i + 1)
    }

    /** `estimateRateLimiter`: a search over the sorted keys; with no keys the source panics. */
    method EstimateRateLimiter(throttle: int) returns (index: int, limiter: Limiter)
      requires Valid() && |sortedKeys| > 0
      ensures index == ResponsibleIndex(throttle) && limiter == At(index)
    {
      var i := 0;
      while i < |sortedKeys|
        invariant 0 <= i <= |sortedKeys|
        invariant forall j :: 0 <= j < i ==> throttle > rates[sortedKeys[j]].time
      {
        if throttle <= rates[sortedKeys[i]].time {
          ResponsibleIndexIsFirst(throttle, i, 0);
          return i, limiters[sortedKeys[i]];
        }
        i := i + 1;
      }
      var lastIndex := |sortedKeys| - 1;
      ResponsibleIndexIsFirst(throttle, lastIndex, 0);
      return lastIndex, limiters[sortedKeys[lastIndex]];
    }

    lemma {:induction false} ResponsibleIndexIsFirst(throttle: int, i: nat, from: nat)
      requires Valid() && from <= i < |sortedKeys|
      requires forall j :: from <= j < i ==> throttle > rates[sortedKeys[j]].time
      requires throttle <= rates[sortedKeys[i]].time || i == |sortedKeys| - 1
      ensures ResponsibleIndexFrom(throttle, from) == i
      decreases i - from
    {
      if from < i {
        ResponsibleIndexIsFirst(throttle, i, from + 1);
      }
    }

    /**
     * `Throttled`, with the wait already converted to nanoseconds: the responsible limiter is
     * filled up to its capacity, and the room it had is added, best effort, to every limiter of
     * a longer timescale; the shorter-timescale limiters are left untouched.
     */
    method Throttled(now: int, waitDuration: int)
      requires Valid() && |sortedKeys| > 0
      modifies Limiters()
      ensures var r := ResponsibleIndex(waitDuration);
        forall i :: 0 <= i < |sortedKeys| ==>
          At(i).Windows() ==
            if i < r then old(At(i).Windows())
            else Filled(old(At(i).AdvancedTo(now)), if i == r then At(r).capacity else old(At(r).Available(now)), old(At(i).Available(now)))
    {
      var responsibleIndex, responsible := EstimateRateLimiter(waitDuration);
      forall j | 0 <= j < |sortedKeys| && j != responsibleIndex
        ensures At(j) != responsible
      {
        AtInjective(responsibleIndex, j);
      }
      var amountAdded := responsible.AddUpTo(now, responsible.capacity);
      var i := responsibleIndex + 1;
      while i < |sortedKeys|
        invariant responsibleIndex < i <= |sortedKeys|
        invariant amountAdded == old(At(responsibleIndex).Available(now))
        invariant forall j :: 0 <= j < |sortedKeys| ==>
          At(j).Windows() ==
            if j < responsibleIndex || i <= j then old(At(j).Windows())
            else Filled(old(At(j).AdvancedTo(now)), if j == responsibleIndex then At(j).capacity else amountAdded, old(At(j).Available(now)))
      {
        var limiter := limiters[sortedKeys[i]];
        assert limiter == At(i);
        forall j | 0 <= j < |sortedKeys| && j != i
          ensures At(j) != limiter
        {
          AtInjective(i, j);
        }
        var _ := limiter.AddUpTo(now, amountAdded);
        i := i + 1;
      }
    }
  }
}
