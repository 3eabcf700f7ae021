/** How much a segment makes the server send, before it arrives: the space its window and
    acknowledgment leave, against the bytes waiting. With it, when everything accepted is sent. */
module DrainSizes {
  import opened SeqSpace
  import opened Wire
  import opened State
  import opened Engine
  import opened Connections
  import opened Lives
  import opened Moves
  import opened Conservation
  import opened Lifecycle
  import opened FlowControl

  /** The space for new data in the send window, once the window and the acknowledgment of `seg` count. */
  function Room(c: Conn, seg: TcpSegment): nat {
    if c.tcpState.SynReceived? then seg.window
    else SaturatingSub(AckedWindow(c, c.tcpState.window, seg).wnd, AckedConn(c, seg.ackNum).InFlight())
  }

  /** The bytes to be echoed, once the data of `seg` is taken. */
  function Waiting(c: Conn, seg: TcpSegment): nat {
    |c.sendBuffer| + (if TakesData(c, seg) then |seg.payload| else 0)
  }

  function DrainSize(c: Conn, seg: TcpSegment): nat {
    if !Drains(c, seg) then 0 else if Room(c, seg) <= Waiting(c, seg) then Room(c, seg) else Waiting(c, seg)
  }

  lemma EchoSize(c: Conn, w: Window, ackIfIdle: bool, now: int)
    requires c.InFlight() <= HALF
    ensures var o := Echo(c, w, ackIfIdle, now);
      o.result.Ok? && |NewData(o.result)| == Transmittable(c, w)
  {
  }

  lemma PassiveCloseSize(c: Conn, w: Window, seg: TcpSegment, now: int)
    requires c.InFlight() <= HALF
    ensures var o := PassiveClose(c, w, seg, now);
      && o.result.Ok?
      && |NewData(o.result)| == Transmittable(AckedConn(BufferedFin(c, seg.payload), seg.ackNum), AckedWindow(c, w, seg))
  {
    AckKeepsBound(BufferedFin(c, seg.payload), seg.ackNum);
  }

  /** The new data in a reply. */
  function NewData(result: Result<Option<SendInfo>>): Payload {
    if result.Ok? && result.value.Some? then result.value.value.payload else []
  }

  lemma SynReceivedSize(c: Conn, seg: TcpSegment, now: int)
    requires Sound(c) && c.tcpState.SynReceived? && Drains(c, seg)
    ensures |NewData(OnSynReceived(c, seg, now).result)| == DrainSize(c, seg)
  {
    var h := Handshaken(c, seg);
    assert h.InFlight() == 0;
    if seg.flags == FinAck {
      PassiveCloseSize(h, WindowOf(seg), seg, now);
    } else if seg.payload != [] {
      EchoSize(Buffered(h, seg.payload), WindowOf(seg), true, now);
    }
  }

  lemma EstablishedSize(c: Conn, w: Window, seg: TcpSegment, now: int)
    requires Sound(c) && c.tcpState == Established(w) && Drains(c, seg)
    ensures |NewData(OnEstablished(c, w, seg, now).result)| == DrainSize(c, seg)
  {
    var window := AckedWindow(c, w, seg);
    var acked := AckedConn(c, seg.ackNum).(tcpState := Established(window));
    AckKeepsBound(c, seg.ackNum);
    if seg.flags == FinAck {
      PassiveCloseSize(c, w, seg, now);
    } else if seg.payload == [] {
      EchoSize(acked, window, false, now);
    } else {
      EchoSize(Buffered(acked, seg.payload), window, true, now);
    }
  }

  /** The reply to any segment carries exactly the lesser of the space and the bytes waiting, or
      nothing if the segment drains nothing. */
  lemma ReplyCarriesTheDrain(c: Conn, seg: TcpSegment, now: int)
    requires Sound(c)
    ensures |NewData(OnSegment(c, seg, now).result)| == DrainSize(c, seg)
  {
    if Drains(c, seg) {
      if c.tcpState.SynReceived? {
        SynReceivedSize(c, seg, now);
      } else {
        EstablishedSize(c, c.tcpState.window, seg, now);
      }
    } else {
      SegmentFlow(c, seg, now);
    }
  }

  // ---------------------------------------------------------------------------------------------
  // What is still buffered when our FIN goes out

  /** The events that make the server send its FIN: a close call, or the peer's FIN in order. */
  predicate SendsFin(c: Conn, ev: Event) {
    match ev
    case Arrive(seg, _) => !FinSent(c.tcpState) && TakesData(c, seg) && seg.flags == FinAck
    case Timer(_) => false
    case CloseCall(_) => c.tcpState.Established?
  }

  /** All that waits goes out with the FIN or went before. */
  predicate NothingStays(c: Conn, ev: Event) {
    match ev
    case Arrive(seg, _) => Waiting(c, seg) <= Room(c, seg)
    case Timer(_) => true
    case CloseCall(_) => c.sendBuffer == []
  }

  lemma SynReceivedFin(c: Conn, seg: TcpSegment, now: int)
    requires Sound(c) && c.tcpState.SynReceived?
    ensures FinSent(OnSynReceived(c, seg, now).conn.tcpState) <==> TakesData(c, seg) && seg.flags == FinAck
  {
    if TakesData(c, seg) {
      var h := Handshaken(c, seg);
      assert h.InFlight() == 0;
      if seg.flags == FinAck {
        PassiveCloseConserves(h, WindowOf(seg), seg, now);
      } else {
        EchoConserves(Buffered(h, seg.payload), WindowOf(seg), true, now);
      }
    }
  }

  lemma EstablishedAckStays(c: Conn, w: Window, seg: TcpSegment, now: int)
    requires Sound(c) && c.tcpState == Established(w) && seg.flags == Ack
    ensures OnEstablished(c, w, seg, now).conn.tcpState.Established?
  {
    if !Precedes(c.sndNxt, seg.ackNum) {
      var window := AckedWindow(c, w, seg);
      var acked := AckedConn(c, seg.ackNum).(tcpState := Established(window));
      AckKeepsBound(c, seg.ackNum);
      if seg.payload == [] {
        EchoConserves(acked, window, false, now);
      } else if seg.seqNum == c.rcvNxt {
        EchoConserves(Buffered(acked, seg.payload), window, true, now);
      }
    }
  }

  lemma EstablishedFin(c: Conn, w: Window, seg: TcpSegment, now: int)
    requires Sound(c) && c.tcpState == Established(w) && seg.flags in {Ack, FinAck}
    ensures FinSent(OnEstablished(c, w, seg, now).conn.tcpState) <==> TakesData(c, seg) && seg.flags == FinAck
  {
    if seg.flags == Ack {
      EstablishedAckStays(c, w, seg, now);
    } else if seg.seqNum == c.rcvNxt {
      PassiveCloseConserves(c, w, seg, now);
    }
  }

  lemma FinIsSentIff(cfg: Config, c: Conn, ev: Event)
    requires Sound(c) && !FinSent(c.tcpState)
    ensures FinSent(Step(cfg, c, ev).conn.tcpState) <==> SendsFin(c, ev)
  {
    if ev.Arrive? && ev.seg.flags in {Ack, FinAck} {
      if c.tcpState.SynReceived? {
        SynReceivedFin(c, ev.seg, ev.now);
      } else {
        EstablishedFin(c, c.tcpState.window, ev.seg, ev.now);
      }
    }
  }

  lemma StaysIff(cfg: Config, c: Conn, ev: Event)
    requires Sound(c) && SendsFin(c, ev)
    ensures Step(cfg, c, ev).conn.sendBuffer == [] <==> NothingStays(c, ev)
  {
    if ev.Arrive? {
      var o := OnSegment(c, ev.seg, ev.now);
      SegmentOutcome(c, ev.seg, ev.now);
      ReplyCarriesTheDrain(c, ev.seg, ev.now);
      DrainLeaves(c, ev.seg, o);
    }
  }

  lemma DrainLeaves(c: Conn, seg: TcpSegment, o: Outcome)
    requires GoodOutcome(c, seg, o) && |NewData(o.result)| == DrainSize(c, seg) && !FinSent(c.tcpState)
    ensures |o.conn.sendBuffer| == Waiting(c, seg) - DrainSize(c, seg)
  {
    var m := Observed(c, seg, o.result);
    assert |m.sent + o.conn.sendBuffer| == |c.sendBuffer + m.taken|;
  }

  /** Once our FIN has gone out, and however the run goes on, all accepted bytes are among those sent
      if and only if, before the event that sent the FIN, nothing was buffered (close call) or all that
      was waiting fitted into the window (the peer's FIN). */
  lemma AllAcceptedIsSentIff(cfg: Config, l: Life, ev: Event, evs: seq<Event>)
    requires Reachable(cfg, l) && l.alive && SendsFin(l.conn, ev)
    ensures var k := After(cfg, Live(cfg, l, ev), evs);
      && FinSent(k.conn.tcpState)
      && (k.hist.Sent() == k.hist.accepted <==> NothingStays(l.conn, ev))
  {
    AlwaysBalanced(cfg, l);
    FinIsSentIff(cfg, l.conn, ev);
    StaysIff(cfg, l.conn, ev);
    StepIsReachable(cfg, l, ev);
    var f := Live(cfg, l, ev);
    assert f.conn == Step(cfg, l.conn, ev).conn;
    FrozenAfterFin(cfg, f, evs, ev);
    AlwaysBalanced(cfg, f);
    RunsBalance(cfg, f, evs);
  }
}
