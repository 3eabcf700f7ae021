/** Retransmissions and the peer's window: what may be resent ends inside the window exactly as long as
    no more than the window, and our FIN, is in flight. */
module ResendWindow {
  import opened SeqSpace
  import opened Wire
  import opened PendingSegments
  import opened State
  import opened Engine
  import opened Connections
  import opened Lives
  import opened Moves
  import opened Conservation
  import opened Lifecycle
  import opened Tiling

  /** It ends as far past its start as it consumes sequence numbers. */
  predicate Built(p: PendingSegment) {
    Span(p) == Consumed(p.info)
  }

  predicate DataOnly(q: seq<PendingSegment>) {
    forall p :: p in q ==> Built(p) && p.info.flags == Ack && p.info.payload != []
  }

  /** Our FIN is in the queue, and only at its end. */
  predicate EndsWithFin(q: seq<PendingSegment>) {
    && q != []
    && DataOnly(q[..|q| - 1])
    && Built(q[|q| - 1]) && q[|q| - 1].info.flags == FinAck
  }

  predicate Shaped(c: Conn) {
    && (c.tcpState.Established? ==> DataOnly(c.pending))
    && (FinSent(c.tcpState) ==> c.pending == [] || EndsWithFin(c.pending))
  }

  lemma SuffixEndsWithFin(q: seq<PendingSegment>, n: nat)
    requires EndsWithFin(q) && n < |q|
    ensures EndsWithFin(q[n..])
  {
    assert q[n..][..|q| - n - 1] == q[..|q| - 1][n..];
  }

  lemma NewIsBuilt(info: SendInfo, now: int)
    ensures Built(NewPending(info, now))
  {
  }

  /** The reply is data or nothing, or our FIN when `fin`. */
  predicate RepliesWith(result: Result<Option<SendInfo>>, fin: bool) {
    && (fin ==> Replied(result) != [])
    && (Replied(result) != [] ==>
          var info := Replied(result)[0];
          && (info.flags == FinAck <==> fin)
          && (info.flags == Ack || info.flags == FinAck || Consumed(info) == 0))
  }

  lemma QueueIsShaped(kept: seq<PendingSegment>, result: Result<Option<SendInfo>>, fin: bool, now: int)
    requires DataOnly(kept) && RepliesWith(result, fin)
    ensures var q := kept + Queued(result, now); if fin then EndsWithFin(q) else DataOnly(q)
  {
    var queued := Queued(result, now);
    if queued != [] {
      NewIsBuilt(result.value.value, now);
      assert (kept + queued)[..|kept|] == kept;
    }
  }

  /** Before our FIN, a segment that does not leave the connection in SYN-RECEIVED. */
  lemma OpenReply(c: Conn, seg: TcpSegment, o: Outcome)
    requires !FinSent(c.tcpState) && GoodOutcome(c, seg, o) && !o.conn.tcpState.SynReceived?
    requires c.tcpState.SynReceived? ==> Replied(o.result) == [] || Replied(o.result)[0].flags in {Ack, FinAck}
    ensures RepliesWith(o.result, FinSent(o.conn.tcpState))
  {
  }

  lemma KeptIsDataOnly(c: Conn, seg: TcpSegment)
    requires Shaped(c) && (c.tcpState.Established? || (c.tcpState.SynReceived? && TakesData(c, seg)))
    ensures DataOnly(KeptQueue(c, seg))
  {
  }

  lemma OpenIsShaped(c: Conn, seg: TcpSegment, now: int, o: Outcome)
    requires Shaped(c) && (c.tcpState.Established? || (c.tcpState.SynReceived? && TakesData(c, seg)))
    requires o.conn.pending == KeptQueue(c, seg) + Queued(o.result, now)
    requires RepliesWith(o.result, FinSent(o.conn.tcpState))
    ensures Shaped(o.conn)
  {
    KeptIsDataOnly(c, seg);
    QueueIsShaped(KeptQueue(c, seg), o.result, FinSent(o.conn.tcpState), now);
  }

  lemma HandshakeReply(c: Conn, seg: TcpSegment, now: int)
    requires Sound(c) && c.tcpState.SynReceived?
    ensures var o := OnSegment(c, seg, now);
      o.conn.tcpState.SynReceived? || (TakesData(c, seg) && (Replied(o.result) == [] || Replied(o.result)[0].flags in {Ack, FinAck}))
  {
    StaysInHandshake(c, seg, now);
    if TakesData(c, seg) {
      var h := Handshaken(c, seg);
      assert h.InFlight() == 0;
      if seg.flags == FinAck {
        PassiveCloseConserves(h, WindowOf(seg), seg, now);
      } else {
        EchoConserves(Buffered(h, seg.payload), WindowOf(seg), true, now);
      }
    }
  }

  lemma KeptIsSuffix(c: Conn, seg: TcpSegment)
    requires Tiled(c) && FinSent(c.tcpState) && !IsAntipodal(c, seg)
    ensures var kept := KeptQueue(c, seg); |kept| <= |c.pending| && kept == c.pending[|c.pending| - |kept|..]
  {
    if AcksNewData(c, seg) {
      AcceptanceIsLinear(c.sndUna, seg.ackNum, c.sndNxt);
      assert c.pending != [];
      assert Span(c.pending[0]) <= 0x1_0000;
      RetainTiles(c.pending, c.sndNxt, seg.ackNum);
    }
  }

  lemma ClosingIsShaped(c: Conn, seg: TcpSegment, o: Outcome)
    requires Tiled(c) && Shaped(c) && FinSent(c.tcpState) && !IsAntipodal(c, seg)
    requires o.conn.pending == KeptQueue(c, seg) && FinSent(o.conn.tcpState)
    ensures Shaped(o.conn)
  {
    KeptIsSuffix(c, seg);
    var kept := KeptQueue(c, seg);
    if kept != [] {
      SuffixEndsWithFin(c.pending, |c.pending| - |kept|);
    }
  }

  lemma BareIsNotQueued(c: Conn, seg: TcpSegment, now: int)
    requires Sound(c) && FinSent(c.tcpState)
    ensures var o := OnSegment(c, seg, now); o.conn.pending == KeptQueue(c, seg) && FinSent(o.conn.tcpState)
  {
    SegmentQueue(c, seg, now);
    RepliesBarely(c, seg, now);
    assert KeptQueue(c, seg) + [] == KeptQueue(c, seg);
  }

  lemma SegmentIsShaped(c: Conn, seg: TcpSegment, now: int)
    requires Sound(c) && Tiled(c) && Shaped(c) && !IsAntipodal(c, seg)
    ensures Shaped(OnSegment(c, seg, now).conn)
  {
    var o := OnSegment(c, seg, now);
    if FinSent(c.tcpState) {
      BareIsNotQueued(c, seg, now);
      ClosingIsShaped(c, seg, o);
    } else {
      SegmentQueue(c, seg, now);
      SegmentOutcome(c, seg, now);
      if c.tcpState.SynReceived? {
        HandshakeReply(c, seg, now);
      }
      if !o.conn.tcpState.SynReceived? {
        OpenReply(c, seg, o);
        OpenIsShaped(c, seg, now, o);
      }
    }
  }

  lemma SameShape(q: seq<PendingSegment>, r: seq<PendingSegment>)
    requires |q| == |r| && forall i :: 0 <= i < |q| ==> q[i].info == r[i].info && q[i].endSeq == r[i].endSeq
    ensures DataOnly(q) ==> DataOnly(r)
  {
    if DataOnly(q) {
      forall p | p in r
        ensures Built(p) && p.info.flags == Ack && p.info.payload != []
      {
        var i :| 0 <= i < |r| && r[i] == p;
        assert q[i] in q;
      }
    }
  }

  lemma TickIsShaped(c: Conn, rto: RtoConfig, now: int)
    requires Shaped(c)
    ensures Shaped(c.(pending := Resent(c.pending, rto, now)))
  {
    var q, r := c.pending, Resent(c.pending, rto, now);
    SameShape(q, r);
    if q != [] {
      SameShape(q[..|q| - 1], r[..|r| - 1]);
    }
  }

  lemma CloseIsShaped(c: Conn, now: int)
    requires Shaped(c)
    ensures Shaped(OnClose(c, now).0)
  {
    if c.tcpState.Established? {
      var info := SendInfo(c.sndNxt, c.rcvNxt, FinAck, []);
      NewIsBuilt(info, now);
      assert (c.pending + [NewPending(info, now)])[..|c.pending|] == c.pending;
    }
  }

  lemma StepIsShaped(cfg: Config, l: Life, ev: Event)
    requires Balanced(l) && Tiled(l.conn) && Shaped(l.conn)
    requires ev.Arrive? ==> !IsAntipodal(l.conn, ev.seg)
    ensures Shaped(Live(cfg, l, ev).conn)
  {
    if l.alive {
      match ev
      case Arrive(seg, now) => SegmentIsShaped(l.conn, seg, now);
      case Timer(now) => TickIsShaped(l.conn, cfg.rto, now);
      case CloseCall(now) => CloseIsShaped(l.conn, now);
    }
  }

  lemma {:induction false} RunsAreShaped(cfg: Config, l: Life, evs: seq<Event>)
    requires Balanced(l) && Tiled(l.conn) && Shaped(l.conn) && NoAntipode(cfg, l, evs)
    ensures Tiled(After(cfg, l, evs).conn) && Shaped(After(cfg, l, evs).conn)
  {
    if evs != [] {
      RunsAreShaped(cfg, l, evs[..|evs| - 1]);
      RunsBalance(cfg, l, evs[..|evs| - 1]);
      StepTiles(cfg, After(cfg, l, evs[..|evs| - 1]), evs[|evs| - 1]);
      StepIsShaped(cfg, After(cfg, l, evs[..|evs| - 1]), evs[|evs| - 1]);
    }
  }

  // ---------------------------------------------------------------------------------------------

  /** Where the data of a segment ends, counted from SND.UNA. */
  function DataEnd(c: Conn, info: SendInfo): u32 {
    WrappingSub(WrappingAdd(info.seqNum, |info.payload|), c.sndUna)
  }

  lemma {:induction false} EndOffset(q: seq<PendingSegment>, una: u32, nxt: u32, i: nat)
    requires Chain(q, nxt) && i < |q| && Total(q[1..]) < WrappingSub(nxt, una)
    ensures WrappingSub(q[i].endSeq, una) == WrappingSub(nxt, una) - Total(q[i + 1..])
  {
    if i == 0 {
      ChainOffset(q[1..], nxt);
    } else {
      assert q[1..][1..] == q[2..] && q[1..][i..] == q[i + 1..];
      EndOffset(q[1..], una, nxt, i - 1);
    }
  }

  lemma {:induction false} TotalIsPositive(q: seq<PendingSegment>)
    requires Spanning(q) && q != []
    ensures Total(q) >= 1
  {
    assert q[0] in q;
  }

  lemma DataEndOf(p: PendingSegment, una: u32)
    requires Built(p) && p.info.flags in {Ack, FinAck} && WrappingSub(p.endSeq, una) >= 1
    ensures WrappingSub(WrappingAdd(p.info.seqNum, |p.info.payload|), una)
         == WrappingSub(p.endSeq, una) - Bit(p.info.flags == FinAck)
  {
  }

  /** Pending data ends at most at SND.NXT, before our FIN. */
  lemma DataEndsBy(c: Conn, i: nat)
    requires Tiled(c) && Shaped(c) && !c.tcpState.SynReceived? && i < |c.pending|
    ensures c.pending[i].info.payload != [] ==> DataEnd(c, c.pending[i].info) <= c.InFlight() - Bit(FinSent(c.tcpState))
  {
    var q := c.pending;
    EndOffset(q, c.sndUna, c.sndNxt, i);
    TotalOfTail(q, i);
    DataEndOf(q[i], c.sndUna);
    if FinSent(c.tcpState) && i < |q| - 1 {
      assert q[i] in q[..|q| - 1];
      TotalIsPositive(q[i + 1..]);
    } else {
      assert q[i] in q;
    }
  }

  lemma {:induction false} TotalOfTail(q: seq<PendingSegment>, i: nat)
    requires i < |q|
    ensures Total(q[i + 1..]) <= Total(q[1..])
  {
    if i > 0 {
      TotalOfTail(q[1..], i - 1);
      assert q[1..][i..] == q[i + 1..] && q[1..][1..] == q[2..];
    }
  }

  /** The last segment with data: the last but one if our FIN is alone in the last. */
  function LastData(c: Conn): int {
    if FinSent(c.tcpState) && c.pending != [] && c.pending[|c.pending| - 1].info.payload == [] then |c.pending| - 2
    else |c.pending| - 1
  }

  lemma LastDataHasData(c: Conn)
    requires Tiled(c) && Shaped(c) && !c.tcpState.SynReceived? && c.InFlight() > Bit(FinSent(c.tcpState))
    ensures var i := LastData(c);
      && 0 <= i < |c.pending|
      && c.pending[i].info.payload != [] && Built(c.pending[i]) && c.pending[i].info.flags in {Ack, FinAck}
      && Total(c.pending[i + 1..]) + Bit(c.pending[i].info.flags == FinAck) == Bit(FinSent(c.tcpState))
  {
    var q, i := c.pending, LastData(c);
    var last := |q| - 1;
    assert q[last] in q && q[last + 1..] == [];
    if i < last {
      assert q[last..][1..] == [] && q[last..][0] == q[last];
      assert q[0..] == q;
      assert q[i] in q[..last];
    }
  }

  /** Some pending data ends exactly there, unless nothing or only our FIN is in flight. */
  lemma SomeDataEndsAt(c: Conn)
    requires Tiled(c) && Shaped(c) && !c.tcpState.SynReceived? && c.InFlight() > Bit(FinSent(c.tcpState))
    ensures var i := LastData(c);
      && 0 <= i < |c.pending| && c.pending[i].info.payload != []
      && DataEnd(c, c.pending[i].info) == c.InFlight() - Bit(FinSent(c.tcpState))
  {
    LastDataHasData(c);
    var i := LastData(c);
    EndOffset(c.pending, c.sndUna, c.sndNxt, i);
    DataEndOf(c.pending[i], c.sndUna);
  }

  /** All pending data ends inside the peer's window if and only if no more than that window, and our
      FIN, is in flight. */
  lemma PendingDataFitsIff(c: Conn)
    requires Tiled(c) && Shaped(c) && !c.tcpState.SynReceived?
    ensures (forall p :: p in c.pending ==> !PastTheWindow(c, p))
       <==> c.InFlight() <= c.tcpState.window.wnd + Bit(FinSent(c.tcpState))
  {
    if c.InFlight() <= c.tcpState.window.wnd + Bit(FinSent(c.tcpState)) {
      forall p | p in c.pending
        ensures !PastTheWindow(c, p)
      {
        var i :| 0 <= i < |c.pending| && c.pending[i] == p;
        DataEndsBy(c, i);
      }
    } else {
      SomeDataEndsAt(c);
      assert c.pending[LastData(c)] in c.pending;
    }
  }

  /** The data of `p` ends past the window in force. */
  predicate PastTheWindow(c: Conn, p: PendingSegment)
    requires !c.tcpState.SynReceived?
  {
    p.info.payload != [] && DataEnd(c, p.info) > c.tcpState.window.wnd
  }

  /** At whatever time the timer fires next, all the data it sends ends inside the window in force. */
  ghost predicate TimerStaysInside(cfg: Config, l: Life)
    requires !l.conn.tcpState.SynReceived?
  {
    forall now, info :: info in Sends(cfg, l, Timer(now)) && info.payload != []
                        ==> DataEnd(l.conn, info) <= l.conn.tcpState.window.wnd
  }

  /** By the time `p` is due, a segment of the queue without retries is due as well. */
  predicate GivenUpFirst(cfg: Config, q: seq<PendingSegment>, p: PendingSegment) {
    exists r :: r in q && ExhaustedRetries(r, cfg.maxRetries) && TimeDue(r, cfg.rto) <= TimeDue(p, cfg.rto)
  }

  lemma {:induction false} DueIsSent(q: seq<PendingSegment>, rto: RtoConfig, now: int, i: nat)
    requires i < |q| && IsDue(q[i], rto, now)
    ensures q[i].info in DueInfos(q, rto, now)
  {
    if i < |q| - 1 {
      DueIsSent(q[..|q| - 1], rto, now, i);
    }
  }

  lemma {:induction false} SentWasDue(q: seq<PendingSegment>, rto: RtoConfig, now: int, info: SendInfo)
    requires info in DueInfos(q, rto, now)
    ensures exists p :: p in q && p.info == info && IsDue(p, rto, now)
  {
    var last := |q| - 1;
    if info in DueInfos(q[..last], rto, now) {
      SentWasDue(q[..last], rto, now, info);
    } else {
      assert q[last].info == info && IsDue(q[last], rto, now);
    }
  }

  /** What is due when `p` is, and out of retries, makes the timer give up. */
  lemma GivesUpWhenDue(cfg: Config, q: seq<PendingSegment>, p: PendingSegment, now: int)
    requires GivenUpFirst(cfg, q, p) && IsDue(p, cfg.rto, now)
    ensures GivesUp(cfg, q, now)
  {
    var r :| r in q && ExhaustedRetries(r, cfg.maxRetries) && TimeDue(r, cfg.rto) <= TimeDue(p, cfg.rto);
    var i :| 0 <= i < |q| && q[i] == r;
    assert IsDue(q[i], cfg.rto, now);
  }

  lemma SentUnlessGivenUp(cfg: Config, l: Life, p: PendingSegment)
    requires l.alive && p in l.conn.pending && !GivenUpFirst(cfg, l.conn.pending, p)
    ensures p.info in Sends(cfg, l, Timer(TimeDue(p, cfg.rto)))
  {
    var q, now := l.conn.pending, TimeDue(p, cfg.rto);
    if GivesUp(cfg, q, now) {
      var j :| 0 <= j < |q| && IsDue(q[j], cfg.rto, now) && ExhaustedRetries(q[j], cfg.maxRetries);
      assert q[j] in q;
    }
    var i :| 0 <= i < |q| && q[i] == p;
    DueIsSent(q, cfg.rto, now, i);
  }

  lemma NotSentIfGivenUp(cfg: Config, l: Life, now: int, info: SendInfo)
    requires l.alive && info in Sends(cfg, l, Timer(now))
    ensures exists p :: p in l.conn.pending && p.info == info && !GivenUpFirst(cfg, l.conn.pending, p)
  {
    SentWasDue(l.conn.pending, cfg.rto, now, info);
    var p :| p in l.conn.pending && p.info == info && IsDue(p, cfg.rto, now);
    if GivenUpFirst(cfg, l.conn.pending, p) {
      GivesUpWhenDue(cfg, l.conn.pending, p, now);
    }
  }

  /** What the timer sends stays inside the window if and only if each pending segment with data past it
      comes due no earlier than one that is out of retries: for any connection in a synchronized state. */
  lemma TimerStaysInsideIff(cfg: Config, l: Life)
    requires l.alive && !l.conn.tcpState.SynReceived?
    ensures TimerStaysInside(cfg, l) <==>
      forall p :: p in l.conn.pending && PastTheWindow(l.conn, p) ==> GivenUpFirst(cfg, l.conn.pending, p)
  {
    if TimerStaysInside(cfg, l) {
      forall p | p in l.conn.pending && PastTheWindow(l.conn, p)
        ensures GivenUpFirst(cfg, l.conn.pending, p)
      {
        if !GivenUpFirst(cfg, l.conn.pending, p) {
          SentUnlessGivenUp(cfg, l, p);
        }
      }
    } else {
      var now, info :| info in Sends(cfg, l, Timer(now)) && info.payload != []
                       && DataEnd(l.conn, info) > l.conn.tcpState.window.wnd;
      NotSentIfGivenUp(cfg, l, now, info);
    }
  }

  /** In every run without an antipodal acknowledgment: no pending data ends past the window if and only if
      no more than the window, and our FIN, is in flight. The timer sends none past it if and only if that
      is so or the connection is always given up first; with retries left everywhere, if and only if it is so. */
  lemma ResendsStayInsideIff(cfg: Config, syn: TcpSegment, isn: u32, now: int, evs: seq<Event>)
    requires NoAntipode(cfg, Birth(syn, isn, now), evs)
    requires var l := After(cfg, Birth(syn, isn, now), evs); l.alive && !l.conn.tcpState.SynReceived?
    ensures var l := After(cfg, Birth(syn, isn, now), evs);
      var fits := l.conn.InFlight() <= l.conn.tcpState.window.wnd + Bit(FinSent(l.conn.tcpState));
      && ((forall p :: p in l.conn.pending ==> !PastTheWindow(l.conn, p)) <==> fits)
      && (TimerStaysInside(cfg, l) <==>
            || fits
            || forall p :: p in l.conn.pending && PastTheWindow(l.conn, p) ==> GivenUpFirst(cfg, l.conn.pending, p))
      && ((forall p :: p in l.conn.pending ==> !ExhaustedRetries(p, cfg.maxRetries)) ==>
            (TimerStaysInside(cfg, l) <==> fits))
  {
    var b := Birth(syn, isn, now);
    BirthIsBalanced(syn, isn, now);
    RunsAreShaped(cfg, b, evs);
    var l := After(cfg, b, evs);
    PendingDataFitsIff(l.conn);
    TimerStaysInsideIff(cfg, l);
  }
}
