/** Byte conservation, receive accounting and totality of the reply logic, for every run and with
    no assumption on the peer. */
module Conservation {
  import opened SeqSpace
  import opened Wire
  import opened State
  import opened Engine
  import opened Connections
  import opened Lives
  import opened Moves

  /** The books of a connection balance. */
  ghost predicate Balanced(l: Life) {
    var c, h := l.conn, l.hist;
    && Sound(c)
    && h.Fins() == Bit(FinSent(c.tcpState))
    && c.sndNxt == Point(h.isn, 1 + |h.Sent()| + h.Fins())
    && c.rcvNxt == Point(h.clientIsn, 1 + |h.received| + Bit(h.peerFin))
    && h.accepted == h.Sent() + c.sendBuffer
    && h.accepted <= h.received
    && (!FinSent(c.tcpState) ==> h.accepted == h.received)
    && (l.alive ==> (h.peerFin <==> IsPassive(c.tcpState)))
    && (c.tcpState.SynReceived? ==> c.sndUna == h.isn)
  }

  lemma BirthIsBalanced(syn: TcpSegment, isn: u32, now: int)
    ensures Balanced(Birth(syn, isn, now))
  {
    var l := Birth(syn, isn, now);
    LogOne([], l.hist.log[0]);
    assert [] + [l.hist.log[0]] == l.hist.log;
  }

  lemma LoggedOne(log: seq<Emission>, info: SendInfo, now: int)
    ensures Logged(log, [info], now) == log + [Emission(info, now)]
    ensures SentBytes(Logged(log, [info], now)) == SentBytes(log) + info.payload
    ensures FinCount(Logged(log, [info], now)) == FinCount(log) + Bit(info.flags == FinAck)
  {
    LogOne(log, Emission(info, now));
  }

  lemma LoggedNone(log: seq<Emission>, now: int)
    ensures Logged(log, [], now) == log
  {
  }

  /** The observer's history after a segment with outcome `o`. */
  function Later(l: Life, seg: TcpSegment, now: int, o: Outcome): Life {
    Life(o.conn, Observe(l.hist, l.conn, Arrive(seg, now), Replied(o.result)), !o.remove)
  }

  /** The observer's history and the connection's variables move together. */
  lemma HistoryFollows(l: Life, seg: TcpSegment, now: int, o: Outcome)
    ensures var m := Observed(l.conn, seg, o.result);
      var h, k := l.hist, Later(l, seg, now, o).hist;
      && k.Sent() == h.Sent() + m.sent
      && k.Fins() == h.Fins() + Bit(m.fin)
      && k.received == h.received + m.taken
      && k.accepted == h.accepted + (if m.echoed then m.taken else [])
      && k.peerFin == (h.peerFin || m.peerFin)
  {
    if o.result.Ok? && o.result.value.Some? {
      LoggedOne(l.hist.log, o.result.value.value, now);
    } else {
      LoggedNone(l.hist.log, now);
    }
  }

  lemma NumbersFollow(l: Life, seg: TcpSegment, now: int, o: Outcome)
    requires Balanced(l) && l.alive && GoodOutcome(l.conn, seg, o)
    ensures var k := Later(l, seg, now, o).hist;
      && k.Fins() == Bit(FinSent(o.conn.tcpState))
      && o.conn.sndNxt == Point(k.isn, 1 + |k.Sent()| + k.Fins())
      && o.conn.rcvNxt == Point(k.clientIsn, 1 + |k.received| + Bit(k.peerFin))
  {
    HistoryFollows(l, seg, now, o);
    var m, h := Observed(l.conn, seg, o.result), l.hist;
    PointAdd(h.isn, 1 + |h.Sent()| + h.Fins(), |m.sent| + Bit(m.fin));
    PointAdd(h.clientIsn, 1 + |h.received| + Bit(h.peerFin), |m.taken| + Bit(m.peerFin));
  }

  lemma BytesFollow(l: Life, seg: TcpSegment, now: int, o: Outcome)
    requires Balanced(l) && GoodOutcome(l.conn, seg, o)
    ensures var k := Later(l, seg, now, o).hist;
      && k.accepted == k.Sent() + o.conn.sendBuffer
      && k.accepted <= k.received
      && (!FinSent(o.conn.tcpState) ==> k.accepted == k.received)
  {
    HistoryFollows(l, seg, now, o);
    var m, h := Observed(l.conn, seg, o.result), l.hist;
    var echoed := if m.echoed then m.taken else [];
    assert h.accepted + echoed == h.Sent() + (l.conn.sendBuffer + echoed);
    assert h.Sent() + (m.sent + o.conn.sendBuffer) == h.Sent() + m.sent + o.conn.sendBuffer;
  }

  lemma OutcomeBalances(l: Life, seg: TcpSegment, now: int, o: Outcome)
    requires Balanced(l) && l.alive && GoodOutcome(l.conn, seg, o)
    ensures Balanced(Later(l, seg, now, o))
  {
    NumbersFollow(l, seg, now, o);
    BytesFollow(l, seg, now, o);
    HistoryFollows(l, seg, now, o);
  }

  lemma CloseBalances(cfg: Config, l: Life, now: int)
    requires Balanced(l) && l.alive
    ensures Balanced(Live(cfg, l, CloseCall(now)))
  {
    var c, h := l.conn, l.hist;
    if c.tcpState.Established? {
      LoggedOne(h.log, SendInfo(c.sndNxt, c.rcvNxt, FinAck, []), now);
      PointAdd(h.isn, 1 + |h.Sent()| + h.Fins(), 1);
    } else {
      LoggedNone(h.log, now);
    }
  }

  lemma StepBalances(cfg: Config, l: Life, ev: Event)
    requires Balanced(l)
    ensures Balanced(Live(cfg, l, ev))
  {
    if l.alive {
      match ev
      case Arrive(seg, now) =>
        SegmentOutcome(l.conn, seg, now);
        OutcomeBalances(l, seg, now, OnSegment(l.conn, seg, now));
      case CloseCall(now) => CloseBalances(cfg, l, now);
      case Timer(now) =>
    }
  }

  lemma {:induction false} RunsBalance(cfg: Config, l: Life, evs: seq<Event>)
    requires Balanced(l)
    ensures Balanced(After(cfg, l, evs))
  {
    if evs != [] {
      RunsBalance(cfg, l, evs[..|evs| - 1]);
      StepBalances(cfg, After(cfg, l, evs[..|evs| - 1]), evs[|evs| - 1]);
    }
  }

  /** Conservation over every run: whatever arrives, in whatever order and however often, the
      bytes accepted for echo are the bytes sent followed by the buffer, and SND.NXT and RCV.NXT
      count exactly what was sent and taken. */
  lemma AlwaysBalanced(cfg: Config, l: Life)
    requires Reachable(cfg, l)
    ensures Balanced(l)
  {
    var syn, isn, now, evs :| l == After(cfg, Birth(syn, isn, now), evs);
    BirthIsBalanced(syn, isn, now);
    RunsBalance(cfg, Birth(syn, isn, now), evs);
  }

  /** The reply logic is total: no reachable connection and no event makes it return an error. */
  lemma NeverFails(cfg: Config, l: Life, ev: Event)
    requires Reachable(cfg, l)
    ensures !Step(cfg, l.conn, ev).failed
  {
    AlwaysBalanced(cfg, l);
    if ev.Arrive? {
      SegmentOutcome(l.conn, ev.seg, ev.now);
    }
  }

  lemma FreshAcksRcvNxt(cfg: Config, c: Conn, ev: Event, info: SendInfo)
    requires Sound(c) && !ev.Timer?
    requires info in Step(cfg, c, ev).out && info.flags in {Ack, FinAck}
    ensures info.ackNum == Step(cfg, c, ev).conn.rcvNxt
  {
    if ev.Arrive? {
      SegmentOutcome(c, ev.seg, ev.now);
    }
  }

  /** Every freshly built ACK or FIN-ACK acknowledges exactly what has been taken so far. */
  lemma AcksExactlyWhatWasTaken(cfg: Config, l: Life, ev: Event, info: SendInfo)
    requires Reachable(cfg, l) && !ev.Timer?
    requires info in Sends(cfg, l, ev) && info.flags in {Ack, FinAck}
    ensures var h := Live(cfg, l, ev).hist;
      info.ackNum == Point(h.clientIsn, 1 + |h.received| + Bit(h.peerFin))
  {
    AlwaysBalanced(cfg, l);
    StepBalances(cfg, l, ev);
    FreshAcksRcvNxt(cfg, l.conn, ev, info);
  }

  lemma TakesAtRcvNxt(h: Hist, c: Conn, ev: Event, out: seq<SendInfo>)
    ensures var k := Observe(h, c, ev, out);
      && h.received <= k.received && h.clientIsn == k.clientIsn
      && (h.received != k.received ==>
            && ev.Arrive? && k.received == h.received + ev.seg.payload && ev.seg.seqNum == c.rcvNxt
            && !IsPassive(c.tcpState))
  {
  }

  lemma TakesWhereItLeftOff(l: Life, ev: Event, out: seq<SendInfo>)
    requires Balanced(l) && l.alive
    ensures var h, k := l.hist, Observe(l.hist, l.conn, ev, out);
      && h.received <= k.received
      && (h.received != k.received ==>
            && ev.Arrive? && k.received == h.received + ev.seg.payload
            && ev.seg.seqNum == Point(k.clientIsn, 1 + |h.received|))
  {
    TakesAtRcvNxt(l.hist, l.conn, ev, out);
  }

  /** No byte is taken twice: taken data starts exactly where the data taken before ended, and
      nothing taken is ever given back. */
  lemma TakenOnceInOrder(cfg: Config, l: Life, ev: Event)
    requires Reachable(cfg, l)
    ensures var h, k := l.hist, Live(cfg, l, ev).hist;
      && h.received <= k.received
      && (h.received != k.received ==>
            && ev.Arrive? && k.received == h.received + ev.seg.payload
            && ev.seg.seqNum == Point(k.clientIsn, 1 + |h.received|))
  {
    if l.alive {
      AlwaysBalanced(cfg, l);
      TakesWhereItLeftOff(l, ev, Step(cfg, l.conn, ev).out);
    }
  }
}
