/**
 * A sliding-window rate limiter made of two fixed windows: the current one, which counts events
 * as they are added, and the previous one, whose count is weighted by how much of it the sliding
 * window still overlaps.
 *
 * Times and durations are integers (nanoseconds; a time counts from Go's zero time).
 */
module SlidingWindows {

  /** A fixed window: its start boundary and the number of events it accumulated. */
  datatype Window = Window(start: int, count: int)

  /** Go's integer division, which truncates toward zero. */
  function GoDiv(a: int, b: int): (q: int)
    requires b != 0
    ensures a >= 0 && b > 0 ==> q == a / b
    ensures a < 0 && b > 0 ==> q <= 0
  {
    if (a < 0) == (b < 0) then Abs(a) / Abs(b) else -(Abs(a) / Abs(b))
  }

  function Abs(a: int): nat { if a < 0 then -a else a }

  /** `time.Time.Truncate`: rounds `t` down to a multiple of `d`. */
  function Truncate(t: int, d: int): (r: int)
    requires d > 0
    ensures r <= t < r + d
    ensures r == d * (t / d) && r % d == 0
  {
    MultipleMod(t / d, d);
    t - t % d
  }

  /** A multiple of `d` leaves no remainder. */
  lemma MultipleMod(q: int, d: int)
    requires d > 0
    ensures (d * q) % d == 0
  {
    var k := (d * q) / d - q;
    assert d * k == -((d * q) % d) by {
      assert d * q == d * ((d * q) / d) + (d * q) % d;
    }
    if k >= 1 {
      ProductAtLeast(d, k);
    } else if k <= -1 {
      ProductAtLeast(d, -k);
    }
  }

  /** A positive multiple of `d` is at least `d`. */
  lemma {:induction false} ProductAtLeast(d: int, k: int)
    requires d > 0 && k >= 1
    ensures d * k >= d && d * -k <= -d
    decreases k
  {
    if k > 1 {
      ProductAtLeast(d, k - 1);
    }
  }

  /**
   * The (current, previous) windows after `advance(now)`: unchanged while the truncated `now`
   * is less than one window past the current window's start; otherwise the current window
   * restarts at the truncated `now` with count 0, and the previous window is the window just
   * before it, inheriting the old current count only when exactly one window has passed.
   */
  function Advanced(curr: Window, prev: Window, now: int, duration: int): (r: (Window, Window))
    requires duration > 0
    ensures Truncate(now, duration) - curr.start < duration ==> r == (curr, prev)
    ensures duration <= Truncate(now, duration) - curr.start < 2 * duration ==>
      r == (Window(Truncate(now, duration), 0), Window(Truncate(now, duration) - duration, curr.count))
    ensures 2 * duration <= Truncate(now, duration) - curr.start ==>
      r == (Window(Truncate(now, duration), 0), Window(Truncate(now, duration) - duration, 0))
  {
    var newCurrStart := Truncate(now, duration);
    var diffDuration := GoDiv(newCurrStart - curr.start, duration);
    if diffDuration < 1 then (curr, prev)
    else
      var newPrevCount := if diffDuration == 1 then curr.count else 0;
      (Window(newCurrStart, 0), Window(newCurrStart - duration, newPrevCount))
  }

  /** Advanced windows are a fixed point of advancing to the same instant, with the same estimate. */
  lemma AdvancedFixed(curr: Window, prev: Window, now: int, duration: int)
    requires duration > 0
    ensures var (c, p) := Advanced(curr, prev, now, duration);
      Advanced(c, p, now, duration) == (c, p) && Estimate(c, p, now, duration) == Estimate(curr, prev, now, duration)
  {
    AdvancedIdempotent(curr, prev, now, duration);
  }

  /** Advancing twice at the same instant is the same as advancing once. */
  lemma AdvancedIdempotent(curr: Window, prev: Window, now: int, duration: int)
    requires duration > 0
    ensures var (c, p) := Advanced(curr, prev, now, duration);
      Advanced(c, p, now, duration) == (c, p)
  {
  }

  /**
   * The share of the previous window's count that still falls in the sliding window:
   * `int64(weight * prevCount)` with `weight = (duration - elapsed) / duration`, computed here
   * exactly and truncated toward zero. It never exceeds the previous count while the elapsed
   * time lies within one window.
   */
  function PrevShare(elapsed: int, duration: int, prevCount: int): (share: int)
    requires duration > 0
    ensures 0 <= elapsed <= duration && 0 <= prevCount ==> 0 <= share <= prevCount
  {
    var share := GoDiv((duration - elapsed) * prevCount, duration);
    if 0 <= elapsed <= duration && 0 <= prevCount then
      ShareBound(duration - elapsed, duration, prevCount);
      share
    else share
  }

  lemma ShareBound(w: int, d: int, c: int)
    requires 0 <= w <= d && 0 < d && 0 <= c
    ensures 0 <= (w * c) / d <= c
  {
    MulNonneg(w, c);
    MulNonneg(d - w, c);
    MulCommut(d - w, c);
    MulCommut(w, c);
    MulDistrib(c, d, w);
    MulCommut(c, d);
    var x := w * c;
    var q := x / d;
    assert x == d * q + x % d;
    MulCancel(d, q, c);
  }

  lemma MulNonneg(a: int, b: int)
    requires 0 <= a && 0 <= b
    ensures 0 <= a * b
  {
  }

  lemma MulDistrib(a: int, b: int, c: int)
    ensures a * (b - c) == a * b - a * c
  {
  }

  lemma MulCommut(a: int, b: int)
    ensures a * b == b * a
  {
  }

  lemma MulCancel(d: int, q: int, c: int)
    requires 0 < d && d * q <= d * c
    ensures q <= c
  {
    if q > c {
      MulNonneg(d, q - c - 1);
      MulDistrib(d, q, c);
      MulDistrib(d, q - c, 1);
      assert false;
    }
  }

  /** The estimate `estimateCount(now)` reports: the current count plus the previous share, after advancing. */
  function Estimate(curr: Window, prev: Window, now: int, duration: int): (estimate: int)
    requires duration > 0
    ensures var (c, p) := Advanced(curr, prev, now, duration);
      0 <= now - c.start <= duration && 0 <= p.count ==> c.count <= estimate <= c.count + p.count
  {
    var (c, p) := Advanced(curr, prev, now, duration);
    PrevShare(now - c.start, duration, p.count) + c.count
  }

  /**
   * What converting an infinite float64 to a `time.Duration` gives on amd64: the smallest int64.
   * Go leaves that conversion implementation-defined.
   */
  const InfiniteQuotientDuration := -0x8000_0000_0000_0000

  /**
   * `time.Duration(float64(excess) * float64(duration) / float64(capacity))` when `excess` is
   * positive. With a zero capacity the quotient is +Inf, whose conversion is negative on amd64,
   * so such a limiter never raises a maximum of waits that starts at 0.
   */
  function WaitDuration(available: int, n: int, duration: int, capacity: int): (wait: int)
    requires duration > 0
    ensures n <= available ==> wait == 0
    ensures capacity > 0 ==> wait >= 0
    ensures capacity == 0 && n > available ==> wait < 0
  {
    var excess := n - available;
    if excess <= 0 then 0
    else if capacity == 0 then InfiniteQuotientDuration
    else
      MulNonneg(excess, duration);
      GoDiv(excess * duration, capacity)
  }

  /**
   * The windows after adding `n` events best effort to the advanced windows `s`, when
   * `available` is the room left: at most the room is added to the current window.
   */
  function Filled(s: (Window, Window), n: int, available: int): (Window, Window)
  {
    (s.0.(count := s.0.count + (if n > available then available else n)), s.1)
  }

  class Limiter {
    /** The number of events permitted during one window duration; read-only after construction. */
    const capacity: int
    /** The duration of one window; read-only after construction. */
    const duration: int
    var curr: Window
    var prev: Window

    /** The current and previous windows. */
    function Windows(): (Window, Window)
      reads this
    {
      (curr, prev)
    }

    /** The windows advanced to `now`; advancing them again at `now` changes nothing, the estimate included. */
    function AdvancedTo(now: int): (w: (Window, Window))
      requires duration > 0
      reads this
    {
      Advanced(curr, prev, now, duration)
    }

    /** The room left at `now`: the capacity minus the estimate. */
    function Available(now: int): int
      requires duration > 0
      reads this
    {
      capacity - Estimate(curr, prev, now, duration)
    }

    /** Whether `n` more events fit at `now`, judged from the state before advancing. */
    predicate Allows(now: int, n: int)
      requires duration > 0
      reads this
    {
      Estimate(curr, prev, now, duration) + n <= capacity
    }

    /** `NewLimiter` with local windows, which start at the zero time with count 0. */
    constructor (duration: int, capacity: int)
      requires duration > 0
      ensures this.duration == duration && this.capacity == capacity
      ensures curr == Window(0, 0) && prev == Window(0, 0)
    {
      this.duration := duration;
      this.capacity := capacity;
      curr := Window(0, 0);
      prev := Window(0, 0);
    }

    /** Updates the current and previous windows for the passage of time up to `now`. */
    method Advance(now: int)
      requires duration > 0
      modifies this
      ensures (curr, prev) == Advanced(old(curr), old(prev), now, duration)
    {
      var newCurrStart := now - now % duration;
      var diffDuration := GoDiv(newCurrStart - curr.start, duration);
      if diffDuration < 1 {
        return;
      }
      var newPrevCount := 0;
      if diffDuration == 1 {
        newPrevCount := curr.count;
      }
      prev := Window(newCurrStart - duration, newPrevCount);
      curr := Window(newCurrStart, 0);
    }

    /** `estimateCount`: advances the windows, then estimates the count over the sliding window. */
    method EstimateCount(now: int) returns (estimate: int)
      requires duration > 0
      modifies this
      ensures (curr, prev) == Advanced(old(curr), old(prev), now, duration)
      ensures estimate == Estimate(old(curr), old(prev), now, duration)
    {
      Advance(now);
      var elapsed := now - curr.start;
      estimate := PrevShare(elapsed, duration, prev.count) + curr.count;
    }

    /** Whether `n` more events could stay within capacity at `now`; it advances the windows. */
    method MaybeAllowed(now: int, n: int) returns (allowed: bool)
      requires duration > 0
      modifies this
      ensures Windows() == old(AdvancedTo(now))
      ensures allowed <==> old(Allows(now, n))
    {
      var estimate := EstimateCount(now);
      allowed := estimate + n <= capacity;
    }

    /** All-or-nothing: adds `n` events to the current window exactly when they fit, and reports whether they did. */
    method TryAdd(now: int, n: int) returns (allowed: bool)
      requires duration > 0
      modifies this
      ensures allowed <==> old(Allows(now, n))
      ensures var (c, p) := old(AdvancedTo(now));
        Windows() == (if allowed then c.(count := c.count + n) else c, p)
    {
      var estimate := EstimateCount(now);
      allowed := estimate + n <= capacity;
      if allowed {
        curr := curr.(count := curr.count + n);
      }
    }

    /**
     * Best effort: adds `n` events, or only the available room when `n` exceeds it, and returns
     * the available room (capacity minus the estimate), not the number added.
     */
    method AddUpTo(now: int, n: int) returns (available: int)
      requires duration > 0
      modifies this
      ensures available == old(Available(now))
      ensures Windows() == Filled(old(AdvancedTo(now)), n, available)
    {
      var estimate := EstimateCount(now);
      available := capacity - estimate;
      var added := n;
      if added > available {
        added := available;
      }
      curr := curr.(count := curr.count + added);
    }

    /** An upper bound on the time to wait before `n` events fit; 0 when they already fit. */
    method EstimateWaitDuration(now: int, n: int) returns (wait: int)
      requires duration > 0
      modifies this
      ensures Windows() == old(AdvancedTo(now))
      ensures wait == WaitDuration(old(Available(now)), n, duration, capacity)
    {
      var estimate := EstimateCount(now);
      var available := capacity - estimate;
      var excess := n - available;
      if excess <= 0 {
        return 0;
      }
      if capacity == 0 {
        return InfiniteQuotientDuration;
      }
      wait := GoDiv(excess * duration, capacity);
    }
  }
}
