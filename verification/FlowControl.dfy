/** Flow control: new data never passes the peer's window, and every drain sends all it may. */
module FlowControl {
  import opened SeqSpace
  import opened Wire
  import opened State
  import opened Engine
  import opened Connections
  import opened Lives
  import opened Moves
  import opened Conservation

  /** After a drain against the window `w`: data ends inside the window, and bytes stay buffered
      only when the window is full. `fin` is what our FIN adds to the flight. */
  predicate Drained(d: Conn, result: Result<Option<SendInfo>>, w: Window, fin: nat) {
    && (d.sendBuffer == [] || d.InFlight() >= w.wnd + fin)
    && (result.Ok? && result.value.Some? && result.value.value.payload != [] ==>
          |result.value.value.payload| + fin <= d.InFlight() <= w.wnd + fin)
  }

  lemma EchoDrains(c: Conn, w: Window, ackIfIdle: bool, now: int)
    requires c.InFlight() <= HALF
    ensures var o := Echo(c, w, ackIfIdle, now); Drained(o.conn, o.result, w, 0)
  {
  }

  lemma PassiveCloseDrains(c: Conn, w: Window, seg: TcpSegment, now: int)
    requires c.InFlight() <= HALF
    ensures var o := PassiveClose(c, w, seg, now);
      o.conn.tcpState.LastAck? && Drained(o.conn, o.result, o.conn.tcpState.window, 1)
  {
    AckKeepsBound(BufferedFin(c, seg.payload), seg.ackNum);
  }

  /** The segments on which the buffer is drained. */
  predicate Drains(c: Conn, seg: TcpSegment) {
    && seg.flags in {Ack, FinAck}
    && match c.tcpState
       case SynReceived => CompletesHandshake(c, seg)
       case Established(_) =>
         if seg.flags == FinAck then seg.seqNum == c.rcvNxt
         else !Precedes(c.sndNxt, seg.ackNum) && (seg.payload == [] || seg.seqNum == c.rcvNxt)
       case _ => false
  }

  /** What flow control promises of one step: if the buffer is drained, the drain is maximal for
      the window then in force; and a reply with data only comes from a drain. */
  predicate FlowControlled(c: Conn, seg: TcpSegment, o: Outcome) {
    && (Drains(c, seg) ==>
          && !o.conn.tcpState.SynReceived?
          && Drained(o.conn, o.result, o.conn.tcpState.window, Bit(FinSent(o.conn.tcpState))))
    && (!Drains(c, seg) && o.result.Ok? && o.result.value.Some? ==> o.result.value.value.payload == [])
  }

  lemma EchoIsFlowControlled(c: Conn, seg: TcpSegment, a: Conn, w: Window, o: Outcome)
    requires Echoes(a, o) && Drained(o.conn, o.result, w, 0) && a.tcpState == Established(w) && Drains(c, seg)
    ensures FlowControlled(c, seg, o)
  {
  }

  lemma SynReceivedFlow(c: Conn, seg: TcpSegment, now: int)
    requires Sound(c) && c.tcpState.SynReceived?
    ensures FlowControlled(c, seg, OnSynReceived(c, seg, now))
  {
    if seg.flags in {Ack, FinAck} && CompletesHandshake(c, seg) {
      var h := Handshaken(c, seg);
      assert h.InFlight() == 0;
      if seg.flags == FinAck {
        PassiveCloseDrains(h, WindowOf(seg), seg, now);
      } else if seg.payload != [] {
        var a := Buffered(h, seg.payload);
        EchoConserves(a, WindowOf(seg), true, now);
        EchoDrains(a, WindowOf(seg), true, now);
        EchoIsFlowControlled(c, seg, a, WindowOf(seg), Echo(a, WindowOf(seg), true, now));
      }
    }
  }

  lemma EstablishedFlow(c: Conn, w: Window, seg: TcpSegment, now: int)
    requires Sound(c) && c.tcpState == Established(w)
    ensures FlowControlled(c, seg, OnEstablished(c, w, seg, now))
  {
    if Drains(c, seg) {
      var window := AckedWindow(c, w, seg);
      var acked := AckedConn(c, seg.ackNum).(tcpState := Established(window));
      AckKeepsBound(c, seg.ackNum);
      if seg.flags == FinAck {
        PassiveCloseDrains(c, w, seg, now);
      } else {
        var a := if seg.payload == [] then acked else Buffered(acked, seg.payload);
        EchoConserves(a, window, seg.payload != [], now);
        EchoDrains(a, window, seg.payload != [], now);
        EchoIsFlowControlled(c, seg, a, window, Echo(a, window, seg.payload != [], now));
      }
    }
  }

  lemma SegmentFlow(c: Conn, seg: TcpSegment, now: int)
    requires Sound(c)
    ensures FlowControlled(c, seg, OnSegment(c, seg, now))
  {
    if seg.flags in {Ack, FinAck} {
      match c.tcpState
      case SynReceived => SynReceivedFlow(c, seg, now);
      case Established(w) => EstablishedFlow(c, w, seg, now);
      case _ =>
    } else if c.tcpState.SynReceived? && seg.flags in {Syn, SynAck} {
      SynReceivedFlow(c, seg, now);
    }
  }

  /** In every run, a first transmission of data never ends past SND.UNA + SND.WND. */
  lemma NeverPastTheWindow(cfg: Config, l: Life, ev: Event, info: SendInfo)
    requires Reachable(cfg, l) && !ev.Timer?
    requires info in Sends(cfg, l, ev) && info.payload != []
    ensures var d := Live(cfg, l, ev).conn;
      && !d.tcpState.SynReceived?
      && WrappingSub(WrappingAdd(info.seqNum, |info.payload|), d.sndUna) <= d.tcpState.window.wnd
  {
    AlwaysBalanced(cfg, l);
    if ev.Arrive? {
      var o := OnSegment(l.conn, ev.seg, ev.now);
      SegmentOutcome(l.conn, ev.seg, ev.now);
      SegmentFlow(l.conn, ev.seg, ev.now);
      DataEndsInWindow(l.conn, ev.seg, o);
    }
  }

  lemma DataEndsInWindow(c: Conn, seg: TcpSegment, o: Outcome)
    requires GoodOutcome(c, seg, o) && FlowControlled(c, seg, o)
    requires o.result.value.Some? && o.result.value.value.payload != []
    ensures var info := o.result.value.value;
      && !o.conn.tcpState.SynReceived?
      && WrappingSub(WrappingAdd(info.seqNum, |info.payload|), o.conn.sndUna) <= o.conn.tcpState.window.wnd
  {
  }

  /** In every run, each drain is maximal: afterwards the buffer is empty or the window is full. */
  lemma EveryDrainIsMaximal(cfg: Config, l: Life, seg: TcpSegment, now: int)
    requires Reachable(cfg, l) && l.alive && Drains(l.conn, seg)
    ensures var d := Live(cfg, l, Arrive(seg, now)).conn;
      && !d.tcpState.SynReceived?
      && (d.sendBuffer == [] || d.InFlight() >= d.tcpState.window.wnd + Bit(FinSent(d.tcpState)))
  {
    AlwaysBalanced(cfg, l);
    SegmentFlow(l.conn, seg, now);
  }
}
