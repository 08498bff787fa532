/** The playback clock: whole periods on a 32-bit microsecond counter, catch-up clamped to one lap per call. */
module FrameClock {
  import opened Bytes

  const MICROSECONDS: nat := 1_000_000

  /** frame_rate_hz_ and frame_count_ of a moving playback. */
  datatype Rate = Rate(hz: int, count: nat)

  /** last_advance_us_ and cur_frame_index_. */
  datatype Clock = Clock(last: u32, idx: nat)

  predicate Moving(r: Rate) {
    -0x8000 <= r.hz < 0x8000 && r.hz != 0 && 1 < r.count < 0x1_0000
  }

  function Period(r: Rate): (p: u32)
    requires Moving(r)
    ensures 0 < p <= MICROSECONDS
  {
    MICROSECONDS / (if r.hz < 0 then -r.hz else r.hz)
  }

  /** Unsigned difference, as the counter sees it. */
  function Since(now: u32, last: u32): u32 {
    (now as int - last as int) % TWO_TO_32
  }

  /** Whole periods elapsed, at most one lap of the pattern. */
  function Steps(now: u32, last: u32, p: nat, count: nat): nat
    requires p > 0
  {
    Min(Since(now, last) as int / p, count)
  }

  function Moved(r: Rate, idx: nat, steps: nat): nat
    requires r.count > 0
  {
    Wrap(if r.hz > 0 then idx + steps else idx as int - steps, r.count)
  }

  function Wrap(x: int, n: nat): (w: nat)
    requires n > 0
    ensures w < n
  {
    x % n
  }

  /** The clock moved on by `n` periods. */
  function Ahead(last: u32, n: nat, p: nat): u32 {
    (last as int + n * p) % TWO_TO_32
  }

  /** One call of serviceOpenLoop. */
  function Service(c: Clock, now: u32, r: Rate): Clock
    requires Moving(r)
  {
    var p := Period(r);
    var n := Steps(now, c.last, p, r.count);
    if n == 0 then c else Clock(Ahead(c.last, n, p), Moved(r, c.idx, n))
  }

  class Player {
    var last: u32
    var idx: nat

    method ServiceOpenLoop(now: u32, r: Rate)
      requires Moving(r) && idx < r.count
      modifies this
      ensures Clock(last, idx) == Service(Clock(old(last), old(idx)), now, r) && idx < r.count
    {
      hide Since, Caught, Steps, Wrap, Ahead, Period;
      var period := Period(r);
      if Since(now, last) < period {
        NoStep(now, last, period, r.count);
        return;
      }
      ghost var start := last;
      var steps := 0;
      CaughtStart(now, start, period, r.count);
      while Since(now, last) >= period && steps < r.count
        invariant steps <= r.count && Caught(now, start, last, period, steps, r.count) && idx == old(idx)
        decreases r.count - steps
      {
        CaughtStep(now, start, last, period, steps, r.count);
        last := (last as int + period as int) % TWO_TO_32;
        steps := steps + 1;
      }
      CaughtEnd(now, start, last, period, steps, r.count);
      SomeStep(now, start, period, r.count);
      idx := Wrap(if r.hz > 0 then idx + steps else idx as int - steps, r.count);
    }
  }

  /** The catch-up loop has moved the clock `steps` whole periods towards now. */
  predicate Caught(now: u32, start: u32, last: u32, p: u32, steps: nat, count: nat)
    requires p > 0
  {
    && steps <= count && steps * p as int <= Since(now, start) as int
    && last as int == (start as int + steps * p as int) % TWO_TO_32
    && Since(now, last) as int == Since(now, start) as int - steps * p as int
  }

  lemma NoStep(now: u32, last: u32, p: u32, count: nat)
    requires 0 < p && Since(now, last) < p
    ensures Steps(now, last, p, count) == 0
  {
  }

  lemma SomeStep(now: u32, last: u32, p: u32, count: nat)
    requires 0 < p && Since(now, last) >= p && count > 0
    ensures Steps(now, last, p, count) > 0
  {
    DivAtLeast(Since(now, last), p, 1);
  }

  lemma CaughtStart(now: u32, start: u32, p: u32, count: nat)
    requires 0 < p
    ensures Caught(now, start, start, p, 0, count)
  {
  }

  lemma CaughtStep(now: u32, start: u32, last: u32, p: u32, steps: nat, count: nat)
    requires 0 < p && Caught(now, start, last, p, steps, count) && Since(now, last) >= p && steps < count
    ensures Caught(now, start, (last as int + p as int) % TWO_TO_32, p, steps + 1, count)
  {
    var next := (last as int + p as int) % TWO_TO_32;
    assert (steps + 1) * p as int == steps * p as int + p as int;
    SinceNext(now, last, p);
    ModAdd(start as int + steps * p as int, p as int);
  }

  lemma ModAdd(a: int, b: int)
    ensures (a % TWO_TO_32 + b) % TWO_TO_32 == (a + b) % TWO_TO_32
  {
  }

  lemma SinceNext(now: u32, last: u32, p: u32)
    requires Since(now, last) >= p
    ensures Since(now, (last as int + p as int) % TWO_TO_32) as int == Since(now, last) as int - p as int
  {
  }

  lemma CaughtEnd(now: u32, start: u32, last: u32, p: u32, steps: nat, count: nat)
    requires 0 < p && Caught(now, start, last, p, steps, count) && (Since(now, last) < p || steps == count)
    ensures steps == Steps(now, start, p, count)
    ensures last == Ahead(start, steps, p)
  {
    var e := Since(now, start) as int;
    if Since(now, last) < p {
      DivIs(e, p as int, steps);
    } else {
      DivAtLeast(e, p as int, steps);
    }
  }

  lemma MulMono(a: int, b: int, p: int)
    requires a <= b && p >= 0
    ensures a * p <= b * p
  {
  }

  lemma MulNext(a: int, p: int)
    ensures (a + 1) * p == a * p + p
  {
  }

  lemma DivAtLeast(e: int, p: int, k: int)
    requires p > 0 && k * p <= e
    ensures e / p >= k
  {
    var q := e / p;
    assert e == q * p + e % p;
    MulNext(q, p);
    if q + 1 <= k {
      MulMono(q + 1, k, p);
      assert false;
    }
  }

  lemma DivIs(e: int, p: int, k: int)
    requires p > 0 && k * p <= e < k * p + p
    ensures e / p == k
  {
    var q := e / p;
    assert e == q * p + e % p;
    DivAtLeast(e, p, k);
    MulNext(k, p);
    if k + 1 <= q {
      MulMono(k + 1, q, p);
      assert false;
    }
  }

  // ----- against real time ------------------------------------------------

  function Run(c: Clock, times: seq<nat>, r: Rate): Clock
    requires Moving(r)
  {
    if times == [] then c else Service(Run(c, times[..|times| - 1], r), times[|times| - 1] % TWO_TO_32, r)
  }

  /** Whole periods in a lag, at most one lap. */
  function Whole(lag: int, p: nat, count: nat): nat
    requires p > 0
  {
    if lag <= 0 then 0 else Min(lag / p, count)
  }

  /** Periods the clock has advanced after these service times, in unbounded arithmetic. */
  function Advanced(start: nat, times: seq<nat>, r: Rate): nat
    requires Moving(r)
  {
    if times == [] then 0
    else
      var k, p: nat := Advanced(start, times[..|times| - 1], r), Period(r);
      k + Whole(times[|times| - 1] - (start + k * p), p, r.count)
  }

  /** The time of the last call, or when playback started. */
  function Latest(start: nat, times: seq<nat>): nat {
    if times == [] then start else times[|times| - 1]
  }

  /** Time never runs back, and no service is a full counter lap behind. */
  predicate Prompt(start: nat, times: seq<nat>, r: Rate)
    requires Moving(r)
    decreases |times|
  {
    times != [] ==>
      var n := |times| - 1;
      && Prompt(start, times[..n], r)
      && Latest(start, times[..n]) <= times[n] < start + Advanced(start, times[..n], r) * Period(r) as int + TWO_TO_32
  }

  lemma WholeFits(lag: nat, p: nat, count: nat)
    requires p > 0
    ensures Whole(lag, p, count) * p <= lag
  {
    ZeroLag(lag, p, count);
    var k := Whole(lag, p, count);
    assert lag == lag / p * p + lag % p;
    if k < lag / p {
      MulMono(k, lag / p, p);
    }
  }

  lemma OneNotAhead(start: nat, k: nat, t: nat, p: nat, count: nat)
    requires p > 0 && start + k * p <= t
    ensures start + (k + Whole(t - (start + k * p), p, count)) * p <= t
  {
    var n := Whole(t - (start + k * p), p, count);
    WholeFits(t - (start + k * p), p, count);
    hide Whole;
    Distributes(k, n, p);
  }

  lemma Distributes(a: int, b: int, p: int)
    ensures (a + b) * p == a * p + b * p
  {
  }

  /** The clock never runs ahead of the calls that drive it. */
  lemma {:induction false} NeverAhead(start: nat, times: seq<nat>, r: Rate)
    requires Moving(r) && Prompt(start, times, r)
    ensures start + Advanced(start, times, r) * Period(r) as int <= Latest(start, times)
  {
    hide Period, Whole;
    var p: nat := Period(r);
    if times == [] {
      assert Advanced(start, times, r) == 0;
    } else {
      var n := |times| - 1;
      NeverAhead(start, times[..n], r);
      OneNotAhead(start, Advanced(start, times[..n], r), times[n], p, r.count);
    }
  }

  lemma LagSeen(due: nat, t: nat)
    requires due <= t < due + TWO_TO_32
    ensures Since(t % TWO_TO_32, due % TWO_TO_32) as int == t - due
  {
  }

  lemma MovedTwice(r: Rate, idx: nat, a: nat, b: nat)
    requires r.count > 0
    ensures Moved(r, Moved(r, idx, a), b) == Moved(r, idx, a + b)
  {
    hide Wrap;
    if r.hz > 0 {
      ModPlus(idx + a, b, r.count);
    } else {
      ModPlus(idx as int - a, -(b as int), r.count);
    }
  }

  lemma ModPlus(x: int, y: int, n: nat)
    requires n > 0
    ensures Wrap(Wrap(x, n) + y, n) == Wrap(x + y, n)
  {
    var q := x / n;
    assert x == n * q + x % n;
    ModLap(x % n + y, q, n);
    assert x % n + y + q * n == x + y;
  }

  lemma {:induction false} ModLap(x: int, q: int, n: int)
    requires n > 0
    ensures (x + q * n) % n == x % n
    decreases if q < 0 then -q else q
  {
    if q > 0 {
      ModLap(x, q - 1, n);
      ModOne(x + (q - 1) * n, n);
      assert x + (q - 1) * n + n == x + q * n;
    } else if q < 0 {
      ModLap(x, q + 1, n);
      ModOne(x + q * n, n);
      assert x + q * n + n == x + (q + 1) * n;
    }
  }

  lemma ModOne(x: int, n: int)
    requires n > 0
    ensures (x + n) % n == x % n
  {
    var q := x / n;
    assert x == n * q + x % n;
    assert x + n == n * (q + 1) + x % n;
    QuotientUnique(x + n, n, q + 1, x % n);
  }

  lemma QuotientUnique(x: int, n: int, q: int, m: int)
    requires n > 0 && x == n * q + m && 0 <= m < n
    ensures x % n == m
  {
    assert q * n == n * q;
    DivIs(x, n, q);
  }

  /** Across any prompt run of service calls, forward or in reverse and through any number of counter wraps, the
      clock is its start plus a whole number of periods and the index has moved by exactly as many frames. */
  lemma {:induction false} ClockIsExact(start: nat, idx: nat, times: seq<nat>, r: Rate)
    requires Moving(r) && idx < r.count && Prompt(start, times, r)
    ensures var k := Advanced(start, times, r);
            Run(Clock(start % TWO_TO_32, idx), times, r)
            == Clock((start + k * Period(r) as int) % TWO_TO_32, Moved(r, idx, k))
  {
    hide Service, Moved, Period, Whole;
    if times == [] {
      NotMoved(r, idx);
      SmallStart(start, Period(r));
    } else {
      var n := |times| - 1;
      ClockIsExact(start, idx, times[..n], r);
      NeverAhead(start, times[..n], r);
      LastCall(start, times, r);
      hide Prompt;
      var k, p: nat := Advanced(start, times[..n], r), Period(r);
      OneServiceExact(start, idx, k, times[n], p, r);
    }
  }

  /** What promptness says of the last call. */
  lemma LastCall(start: nat, times: seq<nat>, r: Rate)
    requires Moving(r) && Prompt(start, times, r) && times != []
    ensures var n := |times| - 1;
            && Prompt(start, times[..n], r)
            && Latest(start, times[..n]) <= times[n] < start + Advanced(start, times[..n], r) * Period(r) as int + TWO_TO_32
  {
    hide Period, Advanced;
  }

  lemma SmallStart(start: nat, p: nat)
    ensures (start + 0 * p) % TWO_TO_32 == start % TWO_TO_32
  {
  }

  lemma NotMoved(r: Rate, idx: nat)
    requires idx < r.count
    ensures Moved(r, idx, 0) == idx
  {
  }

  lemma OneServiceExact(start: nat, idx: nat, k: nat, t: nat, p: nat, r: Rate)
    requires Moving(r) && idx < r.count && p == Period(r) && start + k * p <= t < start + k * p + TWO_TO_32
    ensures var m := k + Whole(t - (start + k * p), p, r.count);
            Service(Clock((start + k * p) % TWO_TO_32, Moved(r, idx, k)), t % TWO_TO_32, r)
            == Clock((start + m * p) % TWO_TO_32, Moved(r, idx, m))
  {
    hide Period, Moved, Since;
    var due := start + k * p;
    LagSeen(due, t);
    var n := Whole(t - due, p, r.count);
    ZeroLag(t - due, p, r.count);
    ModAdd(due, n * p);
    assert (k + n) * p == k * p + n * p;
    MovedTwice(r, idx, k, n);
  }

  lemma ZeroLag(lag: int, p: nat, count: nat)
    requires lag >= 0 && p > 0
    ensures Whole(lag, p, count) == Min(lag / p, count)
  {
  }

  /** After a call that was not clamped, no whole period is left: the frame shown is the one due. */
  lemma UnclampedIsDue(start: nat, times: seq<nat>, r: Rate)
    requires Moving(r) && times != [] && Prompt(start, times, r)
    ensures var n := |times| - 1;
            var before, k, p := Advanced(start, times[..n], r), Advanced(start, times, r), Period(r) as int;
            k < before + r.count ==> start + k * p <= times[n] < start + k * p + p
  {
    hide Period, Since;
    var n := |times| - 1;
    var before, p: nat := Advanced(start, times[..n], r), Period(r);
    var lag := times[n] - (start + before * p);
    NeverAhead(start, times[..n], r);
    ZeroLag(lag, p, r.count);
    if lag / p < r.count {
      DueArithmetic(before, lag, p);
    }
  }

  lemma DueArithmetic(before: nat, lag: nat, p: nat)
    requires p > 0
    ensures (before + lag / p) * p <= before * p + lag < (before + lag / p) * p + p
  {
    var q := lag / p;
    assert lag == q * p + lag % p;
    assert (before + q) * p == before * p + q * p;
  }
}
