/** When segments are resent: in every run, by the time of a segment's last copy on the wire and the number
    of its copies, and not by what the queue has noted down about them. */
module ResendTimes {
  import opened SeqSpace
  import opened Wire
  import opened PendingSegments
  import opened State
  import opened Engine
  import opened Connections
  import opened Lives
  import opened Moves
  import opened Conservation
  import opened Retransmission
  import opened Ledgers

  /** The timeout after `r` resends: the initial one doubled `r` times, by at most 2^32 - 1, within bounds. */
  function Timeout(rto: RtoConfig, r: nat): nat {
    var factor := if Pow2(r) <= 0xFFFF_FFFF then Pow2(r) else 0xFFFF_FFFF;
    if rto.initial * factor < rto.min then rto.min
    else if rto.initial * factor > rto.max then rto.max
    else rto.initial * factor
  }

  /** With the server's bounds and a whole number of milliseconds it doubles with every resend, from no less
      than 200 milliseconds to no more than two minutes. */
  lemma ServerTimeout(rto: RtoConfig, millis: nat, r: u8)
    requires rto == RtoConfigRaw(millis * 1_000_000, TCP_RTO_MIN, TCP_RTO_MAX)
    ensures var x := millis * 1_000_000 * Pow2(r);
      Timeout(rto, r) == if x < 200_000_000 then 200_000_000 else if x > 120_000_000_000 then 120_000_000_000 else x
  {
    BackoffIsExponential(rto, millis, r);
    assert Timeout(rto, r) == Rto(rto, r);
  }

  /** When the segment logged at `place` was last on the wire. */
  function LastSent(log: seq<Emission>, resent: seq<nat>, times: seq<int>, place: nat): int
    requires |times| == |resent| && place < |log|
  {
    if resent == [] then log[place].time
    else
      var last := |resent| - 1;
      if resent[last] == place then times[last] else LastSent(log, resent[..last], times[..last], place)
  }

  /** For each retransmission of a run, the time of the wake-up that sent it. */
  function TimesAfter(cfg: Config, b: Life, evs: seq<Event>): seq<int> {
    if evs == [] then []
    else
      var before, ev := evs[..|evs| - 1], evs[|evs| - 1];
      TimesAfter(cfg, b, before)
      + (if ev.Timer? then seq(|Sends(cfg, After(cfg, b, before), ev)|, _ => ev.now) else [])
  }

  ghost predicate Timed(log: seq<Emission>, q: seq<PendingSegment>, tags: seq<nat>, resent: seq<nat>, times: seq<int>) {
    && |tags| == |q| && |times| == |resent|
    && forall i :: 0 <= i < |q| ==> tags[i] < |log| && LastSent(log, resent, times, tags[i]) == q[i].lastSentAt
  }

  lemma {:induction false} LogExtends(log: seq<Emission>, more: seq<Emission>, resent: seq<nat>, times: seq<int>, place: nat)
    requires |times| == |resent| && place < |log| && log <= more
    ensures LastSent(more, resent, times, place) == LastSent(log, resent, times, place)
  {
    if resent != [] {
      LogExtends(log, more, resent[..|resent| - 1], times[..|resent| - 1], place);
    } else {
      assert more[place] == log[place];
    }
  }

  lemma {:induction false} NeverResent(log: seq<Emission>, resent: seq<nat>, times: seq<int>, place: nat)
    requires |times| == |resent| && place < |log| && place !in resent
    ensures LastSent(log, resent, times, place) == log[place].time
  {
    if resent != [] {
      NeverResent(log, resent[..|resent| - 1], times[..|resent| - 1], place);
    }
  }

  lemma {:induction false} ResentNow(log: seq<Emission>, resent: seq<nat>, times: seq<int>, due: seq<nat>, now: int, place: nat)
    requires |times| == |resent| && place < |log|
    ensures LastSent(log, resent + due, times + seq(|due|, _ => now), place)
         == if place in due then now else LastSent(log, resent, times, place)
  {
    if due == [] {
      assert resent + due == resent && times + seq(0, _ => now) == times;
    } else {
      var last := |due| - 1;
      var all, stamps := resent + due, times + seq(|due|, _ => now);
      assert all[..|all| - 1] == resent + due[..last] && stamps[..|all| - 1] == times + seq(last, _ => now);
      ResentNow(log, resent, times, due[..last], now, place);
    }
  }

  lemma {:induction false} InDueTagsIff(q: seq<PendingSegment>, tags: seq<nat>, rto: RtoConfig, now: int, i: nat)
    requires |tags| == |q| && Increasing(tags) && i < |q|
    ensures tags[i] in DueTags(q, tags, rto, now) <==> IsDue(q[i], rto, now)
  {
    var last := |q| - 1;
    if i < last {
      InDueTagsIff(q[..last], tags[..last], rto, now, i);
    } else {
      DueTagsAreTags(q[..last], tags[..last], rto, now);
    }
  }

  lemma TickIsTimed(cfg: Config, log: seq<Emission>, q: seq<PendingSegment>, tags: seq<nat>, resent: seq<nat>,
                    times: seq<int>, now: int)
    requires Timed(log, q, tags, resent, times) && Increasing(tags)
    ensures var due := DueTags(q, tags, cfg.rto, now);
      Timed(log, Resent(q, cfg.rto, now), tags, resent + due, times + seq(|due|, _ => now))
  {
    var due := DueTags(q, tags, cfg.rto, now);
    forall i | 0 <= i < |q|
      ensures LastSent(log, resent + due, times + seq(|due|, _ => now), tags[i]) == Resent(q, cfg.rto, now)[i].lastSentAt
    {
      ResentNow(log, resent, times, due, now, tags[i]);
      InDueTagsIff(q, tags, cfg.rto, now, i);
    }
  }

  lemma {:induction false} RetainIsTimed(log: seq<Emission>, q: seq<PendingSegment>, tags: seq<nat>, resent: seq<nat>,
                                         times: seq<int>, ack: u32)
    requires Timed(log, q, tags, resent, times)
    ensures Timed(log, Retain(q, ack), RetainTags(q, tags, ack), resent, times)
  {
    if q != [] {
      assert Timed(log, q[1..], tags[1..], resent, times);
      RetainIsTimed(log, q[1..], tags[1..], resent, times, ack);
    }
  }

  /** A reply, or none, after what an event leaves of the queue. */
  lemma QueueIsTimed(log: seq<Emission>, q: seq<PendingSegment>, tags: seq<nat>, resent: seq<nat>, times: seq<int>,
                     out: seq<SendInfo>, now: int)
    requires Timed(log, q, tags, resent, times) && |log| !in resent && |out| <= 1
    ensures var r := q + (if out != [] && Consumed(out[0]) > 0 then [NewPending(out[0], now)] else []);
      Timed(Logged(log, out, now), r, tags + NewTag(out, |log|), resent, times)
  {
    var more := Logged(log, out, now);
    if out != [] {
      assert out == [out[0]] && more[|log|] == Emission(out[0], now);
      NeverResent(more, resent, times, |log|);
    }
    forall i | 0 <= i < |q|
      ensures LastSent(more, resent, times, tags[i]) == q[i].lastSentAt
    {
      LogExtends(log, more, resent, times, tags[i]);
    }
  }

  ghost predicate TimedLife(l: Life, g: Ledger, times: seq<int>) {
    Timed(l.hist.log, l.conn.pending, g.origins, g.resent, times)
  }

  lemma NotResentYet(log: seq<Emission>, resent: seq<nat>, sent: seq<SendInfo>)
    requires Copies(log, resent, sent)
    ensures |log| !in resent
  {
  }

  lemma ArrivalIsTimed(cfg: Config, l: Life, g: Ledger, times: seq<int>, seg: TcpSegment, now: int)
    requires Sound(l.conn) && l.alive && TimedLife(l, g, times) && |l.hist.log| !in g.resent
    ensures TimedLife(Live(cfg, l, Arrive(seg, now)), Booked(cfg, l, g, Arrive(seg, now)), times)
  {
    SegmentQueue(l.conn, seg, now);
    RetainIsTimed(l.hist.log, l.conn.pending, g.origins, g.resent, times, seg.ackNum);
    QueueIsTimed(l.hist.log, KeptQueue(l.conn, seg), KeptTags(l.conn, seg, g.origins), g.resent, times,
                 Replied(OnSegment(l.conn, seg, now).result), now);
  }

  lemma CloseIsTimed(cfg: Config, l: Life, g: Ledger, times: seq<int>, now: int)
    requires l.alive && TimedLife(l, g, times) && |l.hist.log| !in g.resent
    ensures TimedLife(Live(cfg, l, CloseCall(now)), Booked(cfg, l, g, CloseCall(now)), times)
  {
    QueueIsTimed(l.hist.log, l.conn.pending, g.origins, g.resent, times, OnClose(l.conn, now).1, now);
    assert l.conn.pending + [] == l.conn.pending;
  }

  lemma WakeIsTimed(cfg: Config, l: Life, g: Ledger, sent: seq<SendInfo>, times: seq<int>, now: int)
    requires l.alive && TimedLife(l, g, times) && Kept(cfg, l, g, sent)
    ensures TimedLife(Live(cfg, l, Timer(now)), Booked(cfg, l, g, Timer(now)),
                      times + seq(|Sends(cfg, l, Timer(now))|, _ => now))
  {
    if GivesUp(cfg, l.conn.pending, now) {
      assert times + seq(0, _ => now) == times;
    } else {
      DueTagsCopy(cfg, l.hist.log, l.conn.pending, g.origins, now);
      TickIsTimed(cfg, l.hist.log, l.conn.pending, g.origins, g.resent, times, now);
    }
  }

  lemma StepIsTimed(cfg: Config, l: Life, g: Ledger, sent: seq<SendInfo>, times: seq<int>, ev: Event)
    requires Sound(l.conn) && TimedLife(l, g, times) && Kept(cfg, l, g, sent)
    ensures TimedLife(Live(cfg, l, ev), Booked(cfg, l, g, ev),
                      times + (if ev.Timer? then seq(|Sends(cfg, l, ev)|, _ => ev.now) else []))
  {
    NotResentYet(l.hist.log, g.resent, sent);
    assert times + [] == times;
    if !l.alive {
      assert Sends(cfg, l, ev) == [];
    } else {
      match ev
      case Arrive(seg, now) => ArrivalIsTimed(cfg, l, g, times, seg, now);
      case Timer(now) => WakeIsTimed(cfg, l, g, sent, times, now);
      case CloseCall(now) => CloseIsTimed(cfg, l, g, times, now);
    }
  }

  lemma {:induction false} RunsAreTimed(cfg: Config, syn: TcpSegment, isn: u32, now: int, evs: seq<Event>)
    ensures var b := Birth(syn, isn, now);
      TimedLife(After(cfg, b, evs), LedgerAfter(cfg, b, evs), TimesAfter(cfg, b, evs))
  {
    var b := Birth(syn, isn, now);
    if evs != [] {
      var before := evs[..|evs| - 1];
      RunsAreTimed(cfg, syn, isn, now, before);
      RunsAreKept(cfg, syn, isn, now, before);
      BirthIsBalanced(syn, isn, now);
      RunsBalance(cfg, b, before);
      StepIsTimed(cfg, After(cfg, b, before), LedgerAfter(cfg, b, before), TimerSent(cfg, b, before),
                  TimesAfter(cfg, b, before), evs[|evs| - 1]);
    }
  }

  // ---------------------------------------------------------------------------------------------

  /** The segment logged at `place` is overdue: its timeout since it was last on the wire has run out. */
  ghost predicate Overdue(cfg: Config, b: Life, evs: seq<Event>, place: nat, now: int)
    requires place < |After(cfg, b, evs).hist.log| && |TimesAfter(cfg, b, evs)| == |LedgerAfter(cfg, b, evs).resent|
  {
    var log, resent := After(cfg, b, evs).hist.log, LedgerAfter(cfg, b, evs).resent;
    now >= LastSent(log, resent, TimesAfter(cfg, b, evs), place) + Timeout(cfg.rto, Occurs(resent, place))
  }

  lemma OverdueIsDue(cfg: Config, syn: TcpSegment, isn: u32, start: int, evs: seq<Event>, now: int, i: nat)
    requires i < |After(cfg, Birth(syn, isn, start), evs).conn.pending|
    ensures var b := Birth(syn, isn, start);
      var q, g := After(cfg, b, evs).conn.pending, LedgerAfter(cfg, b, evs);
      && |g.origins| == |q| && g.origins[i] < |After(cfg, b, evs).hist.log|
      && |TimesAfter(cfg, b, evs)| == |g.resent| && Occurs(g.resent, g.origins[i]) == q[i].retries
      && (Overdue(cfg, b, evs, g.origins[i], now) <==> IsDue(q[i], cfg.rto, now))
  {
    RunsAreKept(cfg, syn, isn, start, evs);
    RunsAreTimed(cfg, syn, isn, start, evs);
    var b := Birth(syn, isn, start);
    assert Timeout(cfg.rto, After(cfg, b, evs).conn.pending[i].retries) == Rto(cfg.rto, After(cfg, b, evs).conn.pending[i].retries);
  }

  /** In every run, a wake-up that does not give the connection up resends an unacknowledged segment once if
      it is overdue and not at all otherwise. */
  lemma ResentWhenOverdue(cfg: Config, syn: TcpSegment, isn: u32, start: int, evs: seq<Event>, now: int, i: nat)
    requires var l := After(cfg, Birth(syn, isn, start), evs);
      l.alive && i < |l.conn.pending| && Live(cfg, l, Timer(now)).alive
    ensures var b := Birth(syn, isn, start);
      var g, h := LedgerAfter(cfg, b, evs), LedgerAfter(cfg, b, evs + [Timer(now)]);
      && |g.origins| == |After(cfg, b, evs).conn.pending| && g.origins[i] < |After(cfg, b, evs).hist.log|
      && |TimesAfter(cfg, b, evs)| == |g.resent|
      && Occurs(h.resent, g.origins[i])
         == Occurs(g.resent, g.origins[i]) + if Overdue(cfg, b, evs, g.origins[i], now) then 1 else 0
  {
    var b := Birth(syn, isn, start);
    var q, g := After(cfg, b, evs).conn.pending, LedgerAfter(cfg, b, evs);
    OverdueIsDue(cfg, syn, isn, start, evs, now, i);
    RunsAreKept(cfg, syn, isn, start, evs);
    assert (evs + [Timer(now)])[..|evs|] == evs;
    DueOnce(q, g.origins, cfg.rto, now, i);
    OccursConcat(g.resent, DueTags(q, g.origins, cfg.rto, now), g.origins[i]);
  }

  /** In every run, a wake-up gives the connection up if and only if an unacknowledged segment is overdue that
      has been resent as often as the limit allows. */
  lemma GivenUpIff(cfg: Config, syn: TcpSegment, isn: u32, start: int, evs: seq<Event>, now: int)
    requires After(cfg, Birth(syn, isn, start), evs).alive
    ensures var b := Birth(syn, isn, start);
      var l, g := After(cfg, b, evs), LedgerAfter(cfg, b, evs);
      && |TimesAfter(cfg, b, evs)| == |g.resent| && (forall p :: p in g.origins ==> p < |l.hist.log|)
      && (!Live(cfg, l, Timer(now)).alive <==>
            exists p :: p in g.origins && Occurs(g.resent, p) == cfg.maxRetries && Overdue(cfg, b, evs, p, now))
  {
    RunsAreKept(cfg, syn, isn, start, evs);
    RunsAreTimed(cfg, syn, isn, start, evs);
    var b := Birth(syn, isn, start);
    var l, g := After(cfg, b, evs), LedgerAfter(cfg, b, evs);
    var q := l.conn.pending;
    forall i | 0 <= i < |q|
      ensures Occurs(g.resent, g.origins[i]) == q[i].retries <= cfg.maxRetries
      ensures Overdue(cfg, b, evs, g.origins[i], now) <==> IsDue(q[i], cfg.rto, now)
    {
      OverdueIsDue(cfg, syn, isn, start, evs, now, i);
    }
    if GivesUp(cfg, q, now) {
      var i :| 0 <= i < |q| && IsDue(q[i], cfg.rto, now) && ExhaustedRetries(q[i], cfg.maxRetries);
      assert g.origins[i] in g.origins;
    }
  }
}
