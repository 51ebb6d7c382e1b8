/** The AVR demo's run-time statistics clock: a free-running tick timer is read
    together with the kernel's 16-bit tick count, and a tick that has happened
    but not been serviced yet is added by hand.

    Time is the number of CPU cycles since the timer started.  A tick happens
    every period cycles; the timer reads the cycles since the last one, and its
    interrupt is pending while some tick has not been serviced. */
module RunTimeCounter {

  // The tick count is 16 bits wide (0x1_0000 values), the result 32 (0x1_0000_0000).

  /** configCPU_CLOCK_HZ / configTICK_RATE_HZ. */
  function Period(cpuHz: nat, tickHz: nat): nat
    requires tickHz > 0
  {
    cpuHz / tickHz
  }

  /** The four moments of one call at which hardware or kernel state is read, in order. */
  datatype Call = Call(timer: nat, ticks: nat, pending: nat, timerAgain: nat)
  {
    predicate Ordered() { timer <= ticks <= pending <= timerAgain }
  }

  function TimerReads(now: nat, period: nat): nat
    requires period > 0
  {
    now % period
  }

  predicate TickPending(now: nat, period: nat, serviced: nat)
    requires period > 0
  {
    now / period > serviced
  }

  /** Ticks and timer put together, in 32-bit arithmetic. */
  function Combine(ticks: nat, counts: nat, period: nat): nat {
    (ticks * period % 0x1_0000_0000 + counts) % 0x1_0000_0000
  }

  /** The value returned, serviced ticks having been counted in by the kernel. */
  function Counter(c: Call, period: nat, serviced: nat): nat
    requires period > 0
  {
    var sysTickCounts, tickCount := TimerReads(c.timer, period), serviced % 0x1_0000;
    if TickPending(c.pending, period, serviced) then
      Combine((tickCount + 1) % 0x1_0000_0000, TimerReads(c.timerAgain, period), period)
    else
      Combine(tickCount, sysTickCounts, period)
  }

  /** The moment the result refers to: the last timer read that was used. */
  function Instant(c: Call, period: nat, serviced: nat): nat
    requires period > 0
  {
    if TickPending(c.pending, period, serviced) then c.timerAgain else c.timer
  }

  /** The call runs with the tick interrupt held off: no tick serviced so far is
      in the future, and at most one has not been serviced by its end. */
  predicate AtMostOneUnserviced(c: Call, period: nat, serviced: nat)
    requires period > 0
  {
    serviced <= c.timer / period && c.timerAgain / period <= serviced + 1
  }

  /** The 32-bit arithmetic cannot overflow at this period. */
  predicate Fits(period: nat) { 0x1_0000 * period + period <= 0x1_0000_0000 }

  // ---------- arithmetic ----------

  lemma MulMonotone(a: nat, b: nat, p: nat)
    requires a <= b
    ensures p * a <= p * b
  {}

  lemma Split(now: nat, p: nat)
    requires p > 0
    ensures now == now / p * p + now % p && now % p < p
  {}

  lemma QuotientUnique(a: nat, m: nat, q: nat, r: nat)
    requires m > 0 && a == m * q + r && r < m
    ensures a / m == q && a % m == r
  {
    Split(a, m);
    SameQuotient(m, q, r, a / m, a % m);
  }

  lemma SameQuotient(m: nat, q: nat, r: nat, q': nat, r': nat)
    requires r < m && r' < m && m * q + r == q' * m + r'
    ensures q == q' && r == r'
  {
    if q < q' { MulMonotone(q + 1, q', m); }
    if q' < q { MulMonotone(q' + 1, q, m); }
  }

  lemma DivMonotone(a: nat, b: nat, p: nat)
    requires a <= b && p > 0
    ensures a / p <= b / p
  {
    Split(a, p);
    Split(b, p);
    OrderedQuotients(p, a / p, a % p, b / p, b % p);
  }

  lemma OrderedQuotients(p: nat, q: nat, r: nat, q': nat, r': nat)
    requires r < p && r' < p && q * p + r <= q' * p + r'
    ensures q <= q'
  {
    if q' < q { MulMonotone(q' + 1, q, p); }
  }

  /** The ticks lost to the 16-bit tick count, in cycles. */
  function Wrapped(serviced: nat, period: nat): nat {
    serviced / 0x1_0000 * (0x1_0000 * period)
  }

  lemma UnwrapTicks(serviced: nat, period: nat, extra: nat)
    ensures (serviced % 0x1_0000 + extra) * period == (serviced + extra) * period - Wrapped(serviced, period)
  {
    var q := serviced / 0x1_0000;
    assert serviced == q * 0x1_0000 + serviced % 0x1_0000;
    Regroup(q, serviced % 0x1_0000 + extra, period);
  }

  lemma Regroup(q: nat, r: nat, period: nat)
    ensures (q * 0x1_0000 + r) * period == q * (0x1_0000 * period) + r * period
  {}

  lemma NoOverflow(ticks: nat, rest: nat, period: nat)
    requires ticks <= 0x1_0000 && rest < period && Fits(period)
    ensures Combine(ticks, rest, period) == ticks * period + rest
  {
    MulMonotone(ticks, 0x1_0000, period);
    assert ticks * period + rest < 0x1_0000_0000;
  }

  /** Putting together is exact modulo 2^32, and so exact if and only if the
      number fits 32 bits. */
  lemma CombineExactly(ticks: nat, counts: nat, period: nat)
    ensures Combine(ticks, counts, period) == (ticks * period + counts) % 0x1_0000_0000
    ensures Combine(ticks, counts, period) == ticks * period + counts <==> ticks * period + counts < 0x1_0000_0000
  {
    AddThenCut(ticks * period, counts);
  }

  lemma AddThenCut(a: nat, b: nat)
    ensures (a % 0x1_0000_0000 + b) % 0x1_0000_0000 == (a + b) % 0x1_0000_0000
  {}

  // ---------- what one call returns ----------

  /** Putting ticks and timer together again, extra being the tick added by hand. */
  lemma Assemble(now: nat, period: nat, serviced: nat, extra: nat)
    requires period > 0 && Fits(period) && extra <= 1 && now / period == serviced + extra
    ensures Combine(serviced % 0x1_0000 + extra, TimerReads(now, period), period) == now - Wrapped(serviced, period)
  {
    Split(now, period);
    UnwrapTicks(serviced, period, extra);
    NoOverflow(serviced % 0x1_0000 + extra, now % period, period);
  }

  /** The result is the true cycle count at an instant inside the call, less the
      whole cycles of the 16-bit tick count that have gone by. */
  lemma Linearizable(c: Call, period: nat, serviced: nat)
    requires period > 0 && Fits(period) && c.Ordered() && AtMostOneUnserviced(c, period, serviced)
    ensures Counter(c, period, serviced) == Instant(c, period, serviced) - Wrapped(serviced, period)
    ensures c.timer <= Instant(c, period, serviced) <= c.timerAgain
  {
    DivMonotone(c.timer, c.pending, period);
    DivMonotone(c.pending, c.timerAgain, period);
    if TickPending(c.pending, period, serviced) {
      assert (serviced % 0x1_0000 + 1) % 0x1_0000_0000 == serviced % 0x1_0000 + 1;
      Assemble(c.timerAgain, period, serviced, 1);
    } else {
      Assemble(c.timer, period, serviced, 0);
    }
  }

  /** So the result is congruent to that cycle count modulo 65536 ticks. */
  lemma CongruentToTime(c: Call, period: nat, serviced: nat)
    requires period > 0 && Fits(period) && c.Ordered() && AtMostOneUnserviced(c, period, serviced)
    ensures Counter(c, period, serviced) % (0x1_0000 * period) == Instant(c, period, serviced) % (0x1_0000 * period)
  {
    Linearizable(c, period, serviced);
    AddMultiple(Counter(c, period, serviced), serviced / 0x1_0000, 0x1_0000 * period);
  }

  lemma {:induction false} AddMultiple(a: nat, q: nat, m: nat)
    requires m > 0
    ensures (a + q * m) % m == a % m
    decreases q
  {
    if q > 0 {
      AddMultiple(a, q - 1, m);
      assert a + q * m == (a + (q - 1) * m) + m;
      AddOne(a + (q - 1) * m, m);
    }
  }

  lemma AddOne(a: nat, m: nat)
    requires m > 0
    ensures (a + m) % m == a % m
  {
    var q, r := a / m, a % m;
    assert a == m * q + r;
    assert a + m == m * (q + 1) + r;
    QuotientUnique(a + m, m, q + 1, r);
  }

  /** Between two calls the result grows by exactly the cycles that passed
      between their instants, as long as the 16-bit tick count does not wrap. */
  lemma MeasuresElapsedTime(c: Call, k: nat, d: Call, l: nat, period: nat)
    requires period > 0 && Fits(period) && c.Ordered() && d.Ordered() && c.timerAgain <= d.timer
    requires AtMostOneUnserviced(c, period, k) && AtMostOneUnserviced(d, period, l)
    requires k / 0x1_0000 == l / 0x1_0000
    ensures Counter(d, period, l) - Counter(c, period, k) == Instant(d, period, l) - Instant(c, period, k) >= 0
  {
    Linearizable(c, period, k);
    Linearizable(d, period, l);
  }

  /** Modulo 65536 ticks, only the tick count's low 16 bits matter. */
  lemma TicksModulo(ticks: nat, rest: nat, period: nat)
    requires rest < period
    ensures (ticks * period + rest) % (0x1_0000 * period) == ticks % 0x1_0000 * period + rest
  {
    var q, r := ticks / 0x1_0000, ticks % 0x1_0000;
    Regroup(q, r, period);
    MulMonotone(r + 1, 0x1_0000, period);
    QuotientUnique(ticks * period + rest, 0x1_0000 * period, q, r * period + rest);
  }

  lemma SameProduct(a: nat, b: nat, p: nat)
    requires p > 0
    ensures a * p == b * p <==> a == b
  {
    if a < b { MulMonotone(a + 1, b, p); }
    if b < a { MulMonotone(b + 1, a, p); }
  }

  lemma TicksAgree(k: nat, t: nat, rest: nat, period: nat)
    requires rest < period && k < t
    ensures ((k % 0x1_0000 + 1) * period + rest) % (0x1_0000 * period) == (t * period + rest) % (0x1_0000 * period)
            <==> (t - k - 1) % 0x1_0000 == 0
  {
    TicksModulo(k % 0x1_0000 + 1, rest, period);
    TicksModulo(t, rest, period);
    SameProduct((k % 0x1_0000 + 1) % 0x1_0000, t % 0x1_0000, period);
    SameTicks(k, t);
  }

  lemma SameTicks(k: nat, t: nat)
    requires k < t
    ensures (k % 0x1_0000 + 1) % 0x1_0000 == t % 0x1_0000 <==> (t - k - 1) % 0x1_0000 == 0
  {}

  /** What a call that sees a tick pending returns. */
  lemma PendingResult(c: Call, period: nat, serviced: nat)
    requires period > 0 && Fits(period) && TickPending(c.pending, period, serviced)
    ensures Counter(c, period, serviced) == (serviced % 0x1_0000 + 1) * period + c.timerAgain % period
  {
    assert (serviced % 0x1_0000 + 1) % 0x1_0000_0000 == serviced % 0x1_0000 + 1;
    NoOverflow(serviced % 0x1_0000 + 1, c.timerAgain % period, period);
  }

  /** If more ticks may go unserviced, a call that sees one pending is right,
      modulo 65536 ticks, exactly when one tick, or a multiple of 65536 more,
      is unserviced at its second timer read. */
  lemma OneCorrectionOnly(c: Call, period: nat, serviced: nat)
    requires period > 0 && Fits(period) && c.Ordered() && TickPending(c.pending, period, serviced)
    ensures var unserviced := c.timerAgain / period - serviced;
            Counter(c, period, serviced) % (0x1_0000 * period) == c.timerAgain % (0x1_0000 * period)
            <==> (unserviced - 1) % 0x1_0000 == 0
  {
    DivMonotone(c.pending, c.timerAgain, period);
    Split(c.timerAgain, period);
    PendingResult(c, period, serviced);
    TicksAgree(serviced, c.timerAgain / period, c.timerAgain % period, period);
  }

  /** A call that sees no tick pending is right. */
  lemma NoTickSeen(c: Call, period: nat, serviced: nat)
    requires period > 0 && Fits(period) && c.Ordered() && serviced <= c.timer / period
    requires !TickPending(c.pending, period, serviced)
    ensures Counter(c, period, serviced) % (0x1_0000 * period) == c.timer % (0x1_0000 * period)
  {
    DivMonotone(c.timer, c.pending, period);
    Assemble(c.timer, period, serviced, 0);
    AddMultiple(Counter(c, period, serviced), serviced / 0x1_0000, 0x1_0000 * period);
  }

  /** With any number of ticks unserviced, the result is the true cycle count at
      the timer read used, modulo 65536 ticks, if and only if no tick is seen
      pending, or one tick, or a multiple of 65536 more, is unserviced. */
  lemma RightExactly(c: Call, period: nat, serviced: nat)
    requires period > 0 && Fits(period) && c.Ordered() && serviced <= c.timer / period
    ensures Counter(c, period, serviced) % (0x1_0000 * period) == Instant(c, period, serviced) % (0x1_0000 * period)
            <==> !TickPending(c.pending, period, serviced) || (c.timerAgain / period - serviced - 1) % 0x1_0000 == 0
  {
    if TickPending(c.pending, period, serviced) {
      OneCorrectionOnly(c, period, serviced);
    } else {
      NoTickSeen(c, period, serviced);
    }
  }

  /** With two ticks unserviced the result is one tick short. */
  lemma TwoTicksPending()
    ensures var c := Call(40000, 40000, 40000, 40000);
            Counter(c, 20000, 0) == 20000 && Instant(c, 20000, 0) == 40000
  {}

  /** The cycles of a tick at each clock rate the configuration offers. */
  lemma ConfiguredPeriods()
    ensures Period(20000000, 1000) == 20000 && Period(10000000, 1000) == 10000
    ensures Period(5000000, 1000) == 5000 && Period(2000000, 1000) == 2000
  {}

  /** Every clock rate the configuration offers fits. */
  lemma ConfiguredRatesFit(cpuHz: nat)
    requires cpuHz in {20000000, 10000000, 5000000, 2000000}
    ensures Period(cpuHz, 1000) > 0 && Fits(Period(cpuHz, 1000))
  {}

  // ---------- the clock in operation ----------

  class Clock {
    const period: nat
    var now: nat            // true time
    var serviced: nat       // ticks the kernel has counted

    ghost predicate Valid()
      reads this
    {
      period > 0 && Fits(period) && serviced <= now / period <= serviced + 1
    }

    constructor (period: nat)
      requires period > 0 && Fits(period)
      ensures Valid() && this.period == period && now == 0
    {
      this.period, now, serviced := period, 0, 0;
    }

    /** ulMainGetRunTimeCounterValue.  waits are the cycles that pass between
        its readings; the tick interrupt is held off meanwhile. */
    method GetRunTimeCounterValue(waits: (nat, nat, nat)) returns (r: nat, ghost instant: nat)
      requires Valid() && (now + waits.0 + waits.1 + waits.2) / period <= serviced + 1
      modifies `now
      ensures Valid() && old(now) <= instant <= now == old(now) + waits.0 + waits.1 + waits.2
      ensures r == instant - Wrapped(serviced, period)
    {
      var t0 := now;
      var sysTickCounts := TimerReads(now, period);
      now := now + waits.0;
      var tickCount := serviced % 0x1_0000;
      now := now + waits.1;
      var again := TickPending(now, period, serviced);
      now := now + waits.2;
      if again {
        tickCount := (tickCount + 1) % 0x1_0000_0000;
        sysTickCounts := TimerReads(now, period);
      }
      r := tickCount * period % 0x1_0000_0000;
      r := (r + sysTickCounts) % 0x1_0000_0000;
      assert r == Combine(tickCount, sysTickCounts, period);

      ghost var c := Call(t0, t0 + waits.0, t0 + waits.0 + waits.1, now);
      Linearizable(c, period, serviced);
      instant := Instant(c, period, serviced);
      DivMonotone(t0, now, period);
    }

    /** The tick interrupt runs. */
    method ServiceTick()
      requires Valid() && TickPending(now, period, serviced)
      modifies `serviced
      ensures Valid() && serviced == old(serviced) + 1
    {
      serviced := serviced + 1;
    }
  }
}
