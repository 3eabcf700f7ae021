/** What one incoming segment may do to a connection: which sequence variables move and by how
    much, which state follows which, and what the reply looks like. */
module Moves {
  import opened SeqSpace
  import opened Wire
  import opened PendingSegments
  import opened State
  import opened Engine
  import opened Lives

  function Bit(b: bool): u32 { if b then 1 else 0 }

  /** Facts about reachable connections that hold whatever the peer sends. */
  predicate Sound(c: Conn) {
    && (c.tcpState.SynReceived? ==> c.sndNxt == WrappingAdd(c.sndUna, 1) && c.sendBuffer == [])
    && (c.tcpState.SynReceived? || c.tcpState.Established? ==> c.InFlight() <= HALF)
  }

  /** Data sent (and our FIN), data taken (and the peer's FIN): the sequence variables and the
      buffer account for exactly these. */
  datatype Delta = Delta(sent: Payload, fin: bool, taken: Payload, echoed: bool, peerFin: bool)

  predicate MovesBy(c: Conn, d: Conn, m: Delta) {
    && d.sndNxt == WrappingAdd(c.sndNxt, |m.sent| + Bit(m.fin))
    && d.rcvNxt == WrappingAdd(c.rcvNxt, |m.taken| + Bit(m.peerFin))
    && m.sent + d.sendBuffer == c.sendBuffer + (if m.echoed then m.taken else [])
  }

  /** The delta an observer reads off the incoming segment and the reply. */
  function Observed(c: Conn, seg: TcpSegment, result: Result<Option<SendInfo>>): Delta {
    var sends := result.Ok? && result.value.Some?;
    Delta(if sends then result.value.value.payload else [],
          sends && result.value.value.flags == FinAck,
          if TakesData(c, seg) then seg.payload else [],
          !FinSent(c.tcpState),
          TakesData(c, seg) && seg.flags == FinAck)
  }

  /** The coded edges between states. */
  predicate Edge(s: TcpState, t: TcpState) {
    match s
    case SynReceived => t.SynReceived? || t.Established? || t.LastAck?
    case Established(_) => t.Established? || t.FinWait1? || t.LastAck?
    case FinWait1(_) => t.FinWait1? || t.FinWait2? || t.Closing?
    case FinWait2(_) => t.FinWait2?
    case Closing(_) => t.Closing?
    case LastAck(_) => t.LastAck?
  }

  /** A freshly built ACK or FIN-ACK starts at the old SND.NXT and acknowledges the new RCV.NXT;
      a SYN-ACK is only repeated in SYN-RECEIVED, from the ISN; everything else is a bare RST. */
  predicate WellBuilt(c: Conn, d: Conn, info: SendInfo) {
    match info.flags
    case Ack => info.seqNum == c.sndNxt && info.ackNum == d.rcvNxt
    case FinAck => info.seqNum == c.sndNxt && info.ackNum == d.rcvNxt && !FinSent(c.tcpState)
    case SynAck => c.tcpState.SynReceived? && info.seqNum == c.sndUna && info.payload == []
    case Rst => info.payload == [] && info.ackNum == 0
    case Syn => false
    case RstAck => false
  }

  /** Everything a single segment may do. */
  predicate GoodOutcome(c: Conn, seg: TcpSegment, o: Outcome) {
    && o.result.Ok?
    && MovesBy(c, o.conn, Observed(c, seg, o.result))
    && Edge(c.tcpState, o.conn.tcpState)
    && Sound(o.conn)
    && (o.conn.tcpState.SynReceived? ==> o.conn.sndUna == c.sndUna)
    && (FinSent(o.conn.tcpState) <==> FinSent(c.tcpState) || Observed(c, seg, o.result).fin)
    && (o.result.value.Some? ==> WellBuilt(c, o.conn, o.result.value.value))
    && (!o.remove ==> (IsPassive(o.conn.tcpState) <==> IsPassive(c.tcpState) || Observed(c, seg, o.result).peerFin))
  }

  /** The peer's FIN has been taken. */
  predicate IsPassive(s: TcpState) {
    s.Closing? || s.LastAck?
  }

  lemma AckKeepsBound(c: Conn, ack: u32)
    requires c.InFlight() <= HALF
    ensures AckedConn(c, ack).InFlight() <= HALF
  {
  }

  /** Draining and echoing conserves the buffer and keeps the bound on what is in flight. */
  predicate Echoes(c: Conn, o: Outcome) {
    && o.result.Ok? && !o.remove
    && o.conn.tcpState == c.tcpState && o.conn.rcvNxt == c.rcvNxt && o.conn.sndUna == c.sndUna
    && o.conn.InFlight() <= HALF
    && (o.result.value.None? ==> o.conn.sndNxt == c.sndNxt && o.conn.sendBuffer == c.sendBuffer)
    && (o.result.value.Some? ==>
          var info := o.result.value.value;
          && info.flags == Ack && info.seqNum == c.sndNxt && info.ackNum == c.rcvNxt
          && o.conn.sndNxt == WrappingAdd(c.sndNxt, |info.payload|)
          && info.payload + o.conn.sendBuffer == c.sendBuffer)
  }

  lemma EchoConserves(c: Conn, w: Window, ackIfIdle: bool, now: int)
    requires c.InFlight() <= HALF
    ensures Echoes(c, Echo(c, w, ackIfIdle, now))
  {
    var d := Drain(c, w);
    if Transmittable(c, w) == 0 {
      assert d.conn.sendBuffer == c.sendBuffer;
    }
  }

  /** An echo from `a` is a good outcome of `c`, when `a` is `c` with the data of `seg` taken. */
  lemma EchoIsGood(c: Conn, seg: TcpSegment, a: Conn, o: Outcome)
    requires Echoes(a, o) && seg.flags == Ack && !FinSent(c.tcpState)
    requires a.tcpState.Established? && a.sndNxt == c.sndNxt
    requires var taken := if TakesData(c, seg) then seg.payload else [];
      a.rcvNxt == WrappingAdd(c.rcvNxt, |taken|) && a.sendBuffer == c.sendBuffer + taken
    ensures GoodOutcome(c, seg, o)
  {
  }

  predicate ClosesPassively(c: Conn, payload: Payload, o: Outcome) {
    && o.result.Ok? && !o.remove
    && o.conn.tcpState.LastAck?
    && o.result.value.Some?
    && var info := o.result.value.value;
    && info.flags == FinAck && info.seqNum == c.sndNxt && info.ackNum == o.conn.rcvNxt
    && o.conn.sndNxt == WrappingAdd(c.sndNxt, |info.payload| + 1)
    && o.conn.rcvNxt == WrappingAdd(c.rcvNxt, |payload| + 1)
    && info.payload + o.conn.sendBuffer == c.sendBuffer + payload
  }

  lemma PassiveCloseConserves(c: Conn, w: Window, seg: TcpSegment, now: int)
    requires c.InFlight() <= HALF
    ensures ClosesPassively(c, seg.payload, PassiveClose(c, w, seg, now))
  {
    AckKeepsBound(BufferedFin(c, seg.payload), seg.ackNum);
  }

  lemma PassiveCloseIsGood(c: Conn, seg: TcpSegment, a: Conn, o: Outcome)
    requires ClosesPassively(a, seg.payload, o) && seg.flags == FinAck && TakesData(c, seg) && !FinSent(c.tcpState)
    requires a.sndNxt == c.sndNxt && a.rcvNxt == c.rcvNxt && a.sendBuffer == c.sendBuffer
    ensures GoodOutcome(c, seg, o)
  {
  }

  lemma SynReceivedOutcome(c: Conn, seg: TcpSegment, now: int)
    requires Sound(c) && c.tcpState.SynReceived?
    ensures GoodOutcome(c, seg, OnSynReceived(c, seg, now))
  {
    if seg.flags in {Ack, FinAck} && CompletesHandshake(c, seg) {
      var h := Handshaken(c, seg);
      assert h.InFlight() == 0;
      if seg.flags == FinAck {
        PassiveCloseConserves(h, WindowOf(seg), seg, now);
        PassiveCloseIsGood(c, seg, h, PassiveClose(h, WindowOf(seg), seg, now));
      } else if seg.payload != [] {
        var a := Buffered(h, seg.payload);
        EchoConserves(a, WindowOf(seg), true, now);
        EchoIsGood(c, seg, a, Echo(a, WindowOf(seg), true, now));
      }
    }
  }

  lemma EstablishedAckOutcome(c: Conn, w: Window, seg: TcpSegment, now: int)
    requires Sound(c) && c.tcpState == Established(w)
    requires seg.flags == Ack && !Precedes(c.sndNxt, seg.ackNum)
    ensures GoodOutcome(c, seg, OnEstablished(c, w, seg, now))
  {
    var window := AckedWindow(c, w, seg);
    var acked := AckedConn(c, seg.ackNum).(tcpState := Established(window));
    AckKeepsBound(c, seg.ackNum);
    if seg.payload == [] {
      EchoConserves(acked, window, false, now);
      EchoIsGood(c, seg, acked, Echo(acked, window, false, now));
    } else if seg.seqNum == c.rcvNxt {
      var a := Buffered(acked, seg.payload);
      EchoConserves(a, window, true, now);
      EchoIsGood(c, seg, a, Echo(a, window, true, now));
    }
  }

  lemma EstablishedFinOutcome(c: Conn, w: Window, seg: TcpSegment, now: int)
    requires Sound(c) && c.tcpState == Established(w)
    requires seg.flags == FinAck
    ensures GoodOutcome(c, seg, OnEstablished(c, w, seg, now))
  {
    AckKeepsBound(c, seg.ackNum);
    if seg.seqNum == c.rcvNxt {
      PassiveCloseConserves(c, w, seg, now);
      PassiveCloseIsGood(c, seg, c, PassiveClose(c, w, seg, now));
    }
  }

  lemma EstablishedOutcome(c: Conn, w: Window, seg: TcpSegment, now: int)
    requires Sound(c) && c.tcpState == Established(w) && seg.flags in {Ack, FinAck}
    ensures GoodOutcome(c, seg, OnEstablished(c, w, seg, now))
  {
    if seg.flags == FinAck {
      EstablishedFinOutcome(c, w, seg, now);
    } else if !Precedes(c.sndNxt, seg.ackNum) {
      EstablishedAckOutcome(c, w, seg, now);
    }
  }

  lemma ClosingOutcome(c: Conn, seg: TcpSegment, now: int)
    requires Sound(c) && FinSent(c.tcpState) && seg.flags in {Ack, FinAck}
    ensures GoodOutcome(c, seg, OnSegment(c, seg, now))
  {
  }

  /** No segment, in order or not, acceptable or not, takes a connection outside these bounds,
      and none makes the reply logic fail. */
  lemma SegmentOutcome(c: Conn, seg: TcpSegment, now: int)
    requires Sound(c)
    ensures GoodOutcome(c, seg, OnSegment(c, seg, now))
  {
    if seg.flags in {Ack, FinAck} || (c.tcpState.SynReceived? && seg.flags in {Syn, SynAck}) {
      match c.tcpState
      case SynReceived => SynReceivedOutcome(c, seg, now);
      case Established(w) => EstablishedOutcome(c, w, seg, now);
      case _ => ClosingOutcome(c, seg, now);
    }
  }

  // ---------------------------------------------------------------------------------------------

  /** The queue entry for a reply that consumes sequence numbers. */
  function Queued(result: Result<Option<SendInfo>>, now: int): seq<PendingSegment> {
    if result.Ok? && result.value.Some? && Consumed(result.value.value) > 0 then [NewPending(result.value.value, now)]
    else []
  }

  lemma EchoQueue(c: Conn, w: Window, ackIfIdle: bool, now: int)
    ensures var o := Echo(c, w, ackIfIdle, now); o.conn.pending == c.pending + Queued(o.result, now)
  {
  }

  lemma PassiveCloseQueue(c: Conn, w: Window, seg: TcpSegment, now: int)
    ensures var o := PassiveClose(c, w, seg, now);
      o.conn.pending == AckedConn(c, seg.ackNum).pending + Queued(o.result, now)
  {
  }

  lemma SynReceivedQueue(c: Conn, seg: TcpSegment, now: int)
    requires Sound(c) && c.tcpState.SynReceived?
    ensures var o := OnSynReceived(c, seg, now); o.conn.pending == KeptQueue(c, seg) + Queued(o.result, now)
  {
    if seg.flags in {Ack, FinAck} && CompletesHandshake(c, seg) {
      var h := Handshaken(c, seg);
      if seg.flags == FinAck {
        PassiveCloseQueue(h, WindowOf(seg), seg, now);
        assert Retain([], seg.ackNum) == [];
      } else {
        EchoQueue(Buffered(h, seg.payload), WindowOf(seg), true, now);
      }
    }
  }

  lemma EstablishedQueue(c: Conn, w: Window, seg: TcpSegment, now: int)
    requires c.tcpState == Established(w) && seg.flags in {Ack, FinAck}
    ensures var o := OnEstablished(c, w, seg, now); o.conn.pending == KeptQueue(c, seg) + Queued(o.result, now)
  {
    var window := AckedWindow(c, w, seg);
    var acked := AckedConn(c, seg.ackNum).(tcpState := Established(window));
    if seg.flags == FinAck && seg.seqNum == c.rcvNxt {
      PassiveCloseQueue(c, w, seg, now);
    } else if seg.flags == Ack && seg.payload == [] {
      EchoQueue(acked, window, false, now);
    } else if seg.flags == Ack && seg.seqNum == c.rcvNxt {
      EchoQueue(Buffered(acked, seg.payload), window, true, now);
    }
  }

  lemma ClosingQueue(c: Conn, seg: TcpSegment, now: int)
    requires FinSent(c.tcpState) && seg.flags in {Ack, FinAck}
    ensures var o := OnSegment(c, seg, now); o.conn.pending == KeptQueue(c, seg) + Queued(o.result, now)
  {
  }

  /** The queue is what the segment leaves in it, followed by the reply if it consumes sequence numbers. */
  lemma SegmentQueue(c: Conn, seg: TcpSegment, now: int)
    requires Sound(c)
    ensures var o := OnSegment(c, seg, now); o.conn.pending == KeptQueue(c, seg) + Queued(o.result, now)
  {
    if seg.flags in {Ack, FinAck} || (c.tcpState.SynReceived? && seg.flags in {Syn, SynAck}) {
      match c.tcpState
      case SynReceived => SynReceivedQueue(c, seg, now);
      case Established(w) => EstablishedQueue(c, w, seg, now);
      case _ => ClosingQueue(c, seg, now);
    }
  }
}
