/** Retransmission timing: backoff arithmetic, and a measure that every timer wake-up decreases. */
module Retransmission {
  import opened SeqSpace
  import opened Wire
  import opened PendingSegments
  import opened State
  import opened Connections

  // ---------------------------------------------------------------------------------------------
  // Backoff

  const MILLISECOND: nat := 1_000_000
  const TCP_RTO_MIN: nat := 200 * MILLISECOND
  const TCP_RTO_MAX: nat := 120_000 * MILLISECOND

  lemma {:induction false} Pow2Grows(m: nat, n: nat)
    requires m <= n
    ensures Pow2(m) <= Pow2(n)
  {
    if m < n {
      Pow2Grows(m, n - 1);
    }
  }

  lemma Pow2Of32()
    ensures Pow2(32) == MODULUS
  {
    assert Pow2(8) == 0x100;
    assert Pow2(16) == 0x1_0000;
    assert Pow2(24) == 0x100_0000;
  }

  lemma ProductGrows(a: nat, x: nat, y: nat)
    requires x <= y
    ensures a * x <= a * y
  {
  }

  lemma ProductGrowsStrictly(a: nat, x: nat, y: nat)
    requires a > 0 && x < y
    ensures a * x < a * y
  {
  }

  /** The exponent saturates below 2^32, and that is invisible or hidden by the bounds. */
  predicate SaturationIsHidden(rto: RtoConfig, retries: u8) {
    || Pow2(retries) < MODULUS
    || rto.initial == 0
    || rto.min == rto.max
    || rto.initial * (MODULUS - 1) >= rto.max
    || rto.initial * Pow2(retries) <= rto.min
  }

  /** For every configuration and retry count, the saturating computation is the clamped power of two
      of unbounded arithmetic exactly when the exponent's saturation is hidden. */
  lemma BackoffIsExactIff(rto: RtoConfig, retries: u8)
    ensures Rto(rto, retries) == Clamp(rto.initial * Pow2(retries), rto.min, rto.max)
       <==> SaturationIsHidden(rto, retries)
  {
    if Pow2(retries) >= MODULUS && rto.initial > 0 {
      ProductGrowsStrictly(rto.initial, MODULUS - 1, Pow2(retries));
    }
  }

  /** With the server's bounds and a whole number of milliseconds it always is. */
  lemma BackoffIsExponential(rto: RtoConfig, millis: nat, retries: u8)
    requires rto == RtoConfigRaw(millis * MILLISECOND, TCP_RTO_MIN, TCP_RTO_MAX)
    ensures Rto(rto, retries) == Clamp(rto.initial * Pow2(retries), TCP_RTO_MIN, TCP_RTO_MAX)
  {
    if millis > 0 {
      assert rto.initial >= MILLISECOND;
      assert rto.initial * (MODULUS - 1) >= MILLISECOND * (MODULUS - 1) >= TCP_RTO_MAX;
    }
    BackoffIsExactIff(rto, retries);
  }

  /** Below a millisecond the exponent's saturation shows. */
  lemma BackoffBelowAMillisecond()
    ensures var rto := RtoConfigRaw(1, TCP_RTO_MIN, TCP_RTO_MAX);
      Rto(rto, 40) != Clamp(1 * Pow2(40), TCP_RTO_MIN, TCP_RTO_MAX)
  {
    Pow2Of32();
    assert Pow2(36) == 16 * MODULUS;
    assert Pow2(40) == 256 * MODULUS;
  }

  lemma BackoffIsMonotone(rto: RtoConfig, m: u8, n: u8)
    requires m <= n
    ensures Rto(rto, m) <= Rto(rto, n)
  {
    Pow2Grows(m, n);
    ProductGrows(rto.initial, SaturatingPow2(m), SaturatingPow2(n));
  }

  /** The timeouts of the transmissions before the `n`-th retry. */
  function SumRto(rto: RtoConfig, n: nat): nat
    requires n <= 0x100
  {
    if n == 0 then 0 else SumRto(rto, n - 1) + Rto(rto, n - 1)
  }

  // ---------------------------------------------------------------------------------------------
  // Retries still available

  function Left(maxRetries: u8, p: PendingSegment): nat {
    if p.retries < maxRetries then maxRetries - p.retries else 0
  }

  function Slack(maxRetries: u8, q: seq<PendingSegment>): nat {
    if q == [] then 0 else Slack(maxRetries, q[..|q| - 1]) + Left(maxRetries, q[|q| - 1])
  }

  function Ticked(p: PendingSegment, rto: RtoConfig, now: int): PendingSegment {
    if IsDue(p, rto, now) then Retransmitted(p, now) else p
  }

  lemma ResendTakesARetry(cfg: Config, p: PendingSegment, now: int)
    requires IsDue(p, cfg.rto, now) ==> !ExhaustedRetries(p, cfg.maxRetries)
    ensures Left(cfg.maxRetries, p)
         == Left(cfg.maxRetries, Ticked(p, cfg.rto, now)) + (if IsDue(p, cfg.rto, now) then 1 else 0)
  {
  }

  /** A tick that gives up on nothing trades each resend for one retry. */
  lemma {:induction false} TickSpendsSlack(cfg: Config, q: seq<PendingSegment>, now: int)
    requires !GivesUp(cfg, q, now)
    ensures |DueInfos(q, cfg.rto, now)| + Slack(cfg.maxRetries, Resent(q, cfg.rto, now)) == Slack(cfg.maxRetries, q)
  {
    if q != [] {
      var last := |q| - 1;
      var init, r := q[..last], Resent(q, cfg.rto, now);
      assert forall i :: 0 <= i < last ==> init[i] == q[i];
      TickSpendsSlack(cfg, init, now);
      assert r[..last] == Resent(init, cfg.rto, now);
      assert r[last] == Ticked(q[last], cfg.rto, now);
      ResendTakesARetry(cfg, q[last], now);
    }
  }

  // ---------------------------------------------------------------------------------------------
  // The whole table: with no input, waking up when something is due makes progress.

  function Weight(maxRetries: u8, c: Conn): nat {
    1 + Slack(maxRetries, c.pending)
  }

  ghost function Measure(maxRetries: u8, t: Table): nat {
    if t == map[] then 0
    else
      var k :| k in t;
      Weight(maxRetries, t[k]) + Measure(maxRetries, t - {k})
  }

  lemma {:induction false} MeasureSplits(m: u8, t: Table, k: ConnKey)
    requires k in t
    ensures Measure(m, t) == Weight(m, t[k]) + Measure(m, t - {k})
    decreases |t|
  {
    var j :| j in t && Measure(m, t) == Weight(m, t[j]) + Measure(m, t - {j});
    if j != k {
      MeasureSplits(m, t - {j}, k);
      MeasureSplits(m, t - {k}, j);
      assert t - {j} - {k} == t - {k} - {j};
    }
  }

  /** What a tick leaves of a connection's weight. */
  function WeightLeft(cfg: Config, c: Conn, now: int): nat {
    var e := OnTick(cfg, c, now).entry;
    if e.Some? then Weight(cfg.maxRetries, e.value) else 0
  }

  lemma TickLightens(cfg: Config, c: Conn, now: int)
    ensures WeightLeft(cfg, c, now) <= Weight(cfg.maxRetries, c)
    ensures AnyDue(c.pending, cfg.rto, now) ==> WeightLeft(cfg, c, now) < Weight(cfg.maxRetries, c)
  {
    if !GivesUp(cfg, c.pending, now) {
      TickSpendsSlack(cfg, c.pending, now);
      if AnyDue(c.pending, cfg.rto, now) {
        SomethingDue(c.pending, cfg.rto, now);
      }
    }
  }

  lemma {:induction false} SomethingDue(q: seq<PendingSegment>, rto: RtoConfig, now: int)
    requires AnyDue(q, rto, now)
    ensures DueInfos(q, rto, now) != []
  {
    var i :| 0 <= i < |q| && IsDue(q[i], rto, now);
    var last := |q| - 1;
    if i < last {
      assert q[..last][i] == q[i];
      SomethingDue(q[..last], rto, now);
    }
  }

  lemma {:induction false} TickNeverAdds(cfg: Config, t: Table, now: int)
    ensures Measure(cfg.maxRetries, TickTable(cfg, t, now)) <= Measure(cfg.maxRetries, t)
    decreases |t|
  {
    if t != map[] {
      var k :| k in t;
      TickNeverAdds(cfg, t - {k}, now);
      TickSplits(cfg, t, k, now);
      TickLightens(cfg, t[k], now);
    } else {
      assert TickTable(cfg, t, now) == map[];
    }
  }

  lemma TickSplits(cfg: Config, t: Table, k: ConnKey, now: int)
    requires k in t
    ensures Measure(cfg.maxRetries, TickTable(cfg, t, now))
         == WeightLeft(cfg, t[k], now) + Measure(cfg.maxRetries, TickTable(cfg, t - {k}, now))
    ensures Measure(cfg.maxRetries, t) == Weight(cfg.maxRetries, t[k]) + Measure(cfg.maxRetries, t - {k})
  {
    var ticked := TickTable(cfg, t, now);
    MeasureSplits(cfg.maxRetries, t, k);
    TickOfTheOthers(cfg, t, k, now);
    if k in ticked {
      MeasureSplits(cfg.maxRetries, ticked, k);
    } else {
      assert ticked == ticked - {k};
    }
  }

  lemma TickOfTheOthers(cfg: Config, t: Table, k: ConnKey, now: int)
    ensures TickTable(cfg, t, now) - {k} == TickTable(cfg, t - {k}, now)
  {
  }

  /** Some pending segment of the table is due. */
  ghost predicate SomeDue(cfg: Config, t: Table, now: int) {
    exists k :: k in t && AnyDue(t[k].pending, cfg.rto, now)
  }

  /** Waking up at or after the retransmit deadline strictly decreases the measure, for every retry
      limit and whatever the table holds. */
  lemma WakingMakesProgress(cfg: Config, t: Table, now: int)
    requires SomeDue(cfg, t, now)
    ensures Measure(cfg.maxRetries, TickTable(cfg, t, now)) < Measure(cfg.maxRetries, t)
  {
    var k :| k in t && AnyDue(t[k].pending, cfg.rto, now);
    TickSplits(cfg, t, k, now);
    TickNeverAdds(cfg, t - {k}, now);
    TickLightens(cfg, t[k], now);
  }

  function Ticks(cfg: Config, t: Table, nows: seq<int>): Table {
    if nows == [] then t else Ticks(cfg, TickTable(cfg, t, nows[0]), nows[1..])
  }

  /** Each wake-up of the run comes when something is due. */
  ghost predicate WakesWhenDue(cfg: Config, t: Table, nows: seq<int>) {
    nows == [] || (SomeDue(cfg, t, nows[0]) && WakesWhenDue(cfg, TickTable(cfg, t, nows[0]), nows[1..]))
  }

  /** With no input the timer stops by itself: there are at most `Measure` wake-ups. */
  lemma {:induction false} TimerTerminates(cfg: Config, t: Table, nows: seq<int>)
    requires WakesWhenDue(cfg, t, nows)
    ensures |nows| + Measure(cfg.maxRetries, Ticks(cfg, t, nows)) <= Measure(cfg.maxRetries, t)
    decreases nows
  {
    if nows != [] {
      WakingMakesProgress(cfg, t, nows[0]);
      TimerTerminates(cfg, TickTable(cfg, t, nows[0]), nows[1..]);
    }
  }

  /** A connection that survives a tick keeps everything but the timers of its queue. */
  lemma TickKeepsTheRest(cfg: Config, t: Table, now: int, k: ConnKey)
    requires k in TickTable(cfg, t, now)
    ensures k in t && var c, d := t[k], TickTable(cfg, t, now)[k];
      && d == c.(pending := d.pending) && |d.pending| == |c.pending|
      && forall i :: 0 <= i < |c.pending| ==>
           d.pending[i].info == c.pending[i].info && d.pending[i].endSeq == c.pending[i].endSeq
  {
  }
}
