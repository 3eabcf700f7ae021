/** State-graph safety: the order of states, one FIN and nothing after it, and why connections end. */
module Lifecycle {
  import opened SeqSpace
  import opened Wire
  import opened PendingSegments
  import opened State
  import opened Engine
  import opened Connections
  import opened Lives
  import opened Moves
  import opened Conservation

  function Rank(s: TcpState): nat {
    match s
    case SynReceived => 0
    case Established(_) => 1
    case FinWait1(_) => 2
    case FinWait2(_) => 3
    case Closing(_) => 3
    case LastAck(_) => 3
  }

  predicate SameKind(s: TcpState, t: TcpState) {
    Rank(s) == Rank(t) && (s.FinWait2? == t.FinWait2?) && (s.Closing? == t.Closing?)
  }

  lemma StepFollowsEdge(cfg: Config, l: Life, ev: Event)
    requires Balanced(l)
    ensures Edge(l.conn.tcpState, Live(cfg, l, ev).conn.tcpState)
  {
    if l.alive && ev.Arrive? {
      SegmentOutcome(l.conn, ev.seg, ev.now);
    }
  }

  /** A connection only moves forward: along any run its state stays of the same kind or its rank
      has grown. */
  lemma {:induction false} OnlyForward(cfg: Config, l: Life, evs: seq<Event>)
    requires Reachable(cfg, l)
    ensures var s, t := l.conn.tcpState, After(cfg, l, evs).conn.tcpState;
      SameKind(s, t) || Rank(s) < Rank(t)
  {
    if evs != [] {
      var k := After(cfg, l, evs[..|evs| - 1]);
      OnlyForward(cfg, l, evs[..|evs| - 1]);
      AlwaysBalanced(cfg, l);
      RunsBalance(cfg, l, evs[..|evs| - 1]);
      StepFollowsEdge(cfg, k, evs[|evs| - 1]);
    }
  }

  /** The circular test of the handshake accepts exactly one acknowledgment number. */
  lemma HandshakeAcceptsOneAck(c: Conn, seg: TcpSegment)
    requires Sound(c) && c.tcpState.SynReceived?
    ensures CompletesHandshake(c, seg) <==> seg.seqNum == c.rcvNxt && seg.ackNum == c.sndNxt
  {
  }

  /** SYN-RECEIVED is left exactly on that acknowledgment, by an ACK to ESTABLISHED and by a FIN-ACK
      to LAST-ACK. */
  lemma HandshakeCompletesIff(c: Conn, seg: TcpSegment, now: int)
    requires Sound(c) && c.tcpState.SynReceived?
    ensures var d, last := OnSegment(c, seg, now).conn, seg.seqNum == c.rcvNxt && seg.ackNum == c.sndNxt;
      && (d.tcpState.Established? <==> seg.flags == Ack && last)
      && (d.tcpState.LastAck? <==> seg.flags == FinAck && last)
  {
    HandshakeAcceptsOneAck(c, seg);
    SegmentOutcome(c, seg, now);
    StaysInHandshake(c, seg, now);
  }

  lemma StaysInHandshake(c: Conn, seg: TcpSegment, now: int)
    requires Sound(c) && c.tcpState.SynReceived?
    ensures OnSegment(c, seg, now).conn.tcpState.SynReceived? <==> !TakesData(c, seg)
  {
    if TakesData(c, seg) {
      var h := Handshaken(c, seg);
      assert h.InFlight() == 0;
      if seg.flags == FinAck {
        PassiveCloseConserves(h, WindowOf(seg), seg, now);
      } else {
        EchoConserves(Buffered(h, seg.payload), WindowOf(seg), true, now);
      }
    }
  }

  /** The whole of FIN-WAIT-1, acknowledgments and FINs: a bare ACK of everything leads to FIN-WAIT-2 in
      silence, and one of anything less is answered with a reset and changes nothing; data in order is
      taken and acknowledged and, even if it acknowledges our FIN, leaves the state as it is; a FIN in
      order is acknowledged and ends the connection or leads to CLOSING; the rest is reset. */
  lemma FinWait1Exits(c: Conn, seg: TcpSegment, now: int)
    requires c.tcpState.FinWait1? && seg.flags in {Ack, FinAck}
    ensures var o := OnSegment(c, seg, now);
      var bare, inOrder, all := seg.flags == Ack && seg.payload == [], seg.seqNum == c.rcvNxt, seg.ackNum == c.sndNxt;
      && (o.conn.tcpState.FinWait2? <==> bare && all)
      && (o.conn.tcpState.Closing? <==> seg.flags == FinAck && inOrder && !all)
      && (o.remove <==> seg.flags == FinAck && inOrder && all)
      && (o.result == Ok(None) <==> bare && all)
      && (bare && !all ==> o == Outcome(c, Ok(Some(Reset(seg))), false))
      && (!bare && !inOrder ==> o == Outcome(c, Ok(Some(Reset(seg))), false))
      && (!bare && inOrder ==>
            && o.conn.rcvNxt == WrappingAdd(c.rcvNxt, |seg.payload| + Bit(seg.flags == FinAck))
            && o.result == Ok(Some(PureAck(c.(rcvNxt := o.conn.rcvNxt)))))
      && (seg.flags == Ack && !bare && inOrder ==> o.conn.tcpState.FinWait1?)
  {
  }

  /** Nothing new leaves after our FIN: SND.NXT and the bytes sent stay as they are, and what a
      step sends is a pure ACK, a RST, or a verbatim copy of a pending segment. */
  predicate Muted(cfg: Config, l: Life, ev: Event) {
    var k := Live(cfg, l, ev);
    && FinSent(k.conn.tcpState)
    && k.conn.sndNxt == l.conn.sndNxt && k.conn.sendBuffer == l.conn.sendBuffer
    && forall info :: info in Sends(cfg, l, ev) ==>
        if ev.Timer? then exists p :: p in l.conn.pending && p.info == info
        else info.payload == [] && info.flags in {Ack, Rst}
  }

  lemma {:induction false} DueInfosArePending(pending: seq<PendingSegment>, rto: RtoConfig, now: int, info: SendInfo)
    requires info in DueInfos(pending, rto, now)
    ensures exists p :: p in pending && p.info == info
  {
    var last := |pending| - 1;
    if info in DueInfos(pending[..last], rto, now) {
      DueInfosArePending(pending[..last], rto, now, info);
    } else {
      assert pending[last].info == info;
    }
  }

  lemma StepIsMuted(cfg: Config, l: Life, ev: Event)
    requires Balanced(l) && FinSent(l.conn.tcpState)
    ensures Muted(cfg, l, ev)
  {
    if l.alive {
      match ev
      case Arrive(seg, now) =>
        RepliesBarely(l.conn, seg, now);
      case CloseCall(now) =>
      case Timer(now) =>
        forall info | info in Sends(cfg, l, ev)
          ensures exists p :: p in l.conn.pending && p.info == info
        {
          DueInfosArePending(l.conn.pending, cfg.rto, now, info);
        }
    }
  }

  lemma RepliesBarely(c: Conn, seg: TcpSegment, now: int)
    requires FinSent(c.tcpState)
    ensures var o := OnSegment(c, seg, now);
      && o.result.Ok? && FinSent(o.conn.tcpState)
      && o.conn.sndNxt == c.sndNxt && o.conn.sendBuffer == c.sendBuffer
      && (o.result.value.Some? ==> o.result.value.value.payload == [] && o.result.value.value.flags in {Ack, Rst})
  {
  }

  /** At most one FIN is ever sent, and after it SND.NXT is frozen, the bytes still buffered stay
      buffered, and no new data leaves, however the run goes on. */
  lemma {:induction false} FrozenAfterFin(cfg: Config, l: Life, evs: seq<Event>, ev: Event)
    requires Reachable(cfg, l) && FinSent(l.conn.tcpState)
    ensures var k := After(cfg, l, evs);
      && FinSent(k.conn.tcpState) && k.hist.Fins() == 1
      && k.conn.sndNxt == l.conn.sndNxt
      && k.conn.sendBuffer == l.conn.sendBuffer
      && Muted(cfg, k, ev)
  {
    AlwaysBalanced(cfg, l);
    RunsBalance(cfg, l, evs);
    if evs != [] {
      FrozenAfterFin(cfg, l, evs[..|evs| - 1], evs[|evs| - 1]);
    }
    StepIsMuted(cfg, After(cfg, l, evs), ev);
  }

  // ---------------------------------------------------------------------------------------------

  /** FIN-WAIT-2 is only entered on an acknowledgment of everything sent, FIN included. */
  predicate FinWait2IsAcked(l: Life) {
    l.conn.tcpState.FinWait2? ==> l.hist.finAcked
  }

  lemma StepKeepsFinWait2Acked(cfg: Config, l: Life, ev: Event)
    requires FinWait2IsAcked(l)
    ensures FinWait2IsAcked(Live(cfg, l, ev))
  {
    if l.alive && ev.Arrive? {
      FinWait2Entry(l.conn, ev.seg, ev.now, OnSegment(l.conn, ev.seg, ev.now));
    }
  }

  lemma FinWait2Entry(c: Conn, seg: TcpSegment, now: int, o: Outcome)
    requires o == OnSegment(c, seg, now)
    ensures o.conn.tcpState.FinWait2? ==> c.tcpState.FinWait2? || AcksFin(c, seg)
  {
    if !FinSent(c.tcpState) && seg.flags !in {Rst, RstAck} {
      OpenStays(c, seg, now);
    }
  }

  /** The connection is not removed and not in FIN-WAIT-2. */
  predicate StaysAsOpen(o: Outcome) {
    !o.remove && !o.conn.tcpState.FinWait2?
  }

  lemma EchoStays(c: Conn, w: Window, ackIfIdle: bool, now: int)
    requires c.tcpState.Established?
    ensures StaysAsOpen(Echo(c, w, ackIfIdle, now))
  {
  }

  lemma PassiveCloseStays(c: Conn, w: Window, seg: TcpSegment, now: int)
    requires c.tcpState.Established?
    ensures StaysAsOpen(PassiveClose(c, w, seg, now))
  {
  }

  lemma EstablishedStays(c: Conn, w: Window, seg: TcpSegment, now: int)
    requires c.tcpState == Established(w)
    ensures StaysAsOpen(OnEstablished(c, w, seg, now))
  {
    var window := AckedWindow(c, w, seg);
    var acked := AckedConn(c, seg.ackNum).(tcpState := Established(window));
    if seg.flags == FinAck {
      PassiveCloseStays(c, w, seg, now);
    } else if seg.payload == [] {
      EchoStays(acked, window, false, now);
    } else {
      EchoStays(Buffered(acked, seg.payload), window, true, now);
    }
  }

  lemma SynReceivedStays(c: Conn, seg: TcpSegment, now: int)
    requires c.tcpState.SynReceived?
    ensures StaysAsOpen(OnSynReceived(c, seg, now))
  {
    var h := Handshaken(c, seg);
    if seg.flags == FinAck {
      PassiveCloseStays(h, WindowOf(seg), seg, now);
    } else {
      EchoStays(Buffered(h, seg.payload), WindowOf(seg), true, now);
    }
  }

  /** Before our FIN no Ack or FIN-ACK removes the connection or reaches FIN-WAIT-2. */
  lemma OpenStays(c: Conn, seg: TcpSegment, now: int)
    requires !FinSent(c.tcpState) && seg.flags !in {Rst, RstAck}
    ensures StaysAsOpen(OnSegment(c, seg, now))
  {
    if c.tcpState.Established? {
      EstablishedStays(c, c.tcpState.window, seg, now);
    } else {
      SynReceivedStays(c, seg, now);
    }
  }

  lemma {:induction false} AlwaysFinWait2Acked(cfg: Config, l: Life, evs: seq<Event>)
    requires FinWait2IsAcked(l)
    ensures FinWait2IsAcked(After(cfg, l, evs))
  {
    if evs != [] {
      AlwaysFinWait2Acked(cfg, l, evs[..|evs| - 1]);
      StepKeepsFinWait2Acked(cfg, After(cfg, l, evs[..|evs| - 1]), evs[|evs| - 1]);
    }
  }

  /** A reset at exactly RCV.NXT. */
  predicate IsReset(c: Conn, ev: Event) {
    ev.Arrive? && ev.seg.flags in {Rst, RstAck} && ev.seg.seqNum == c.rcvNxt
  }

  /** A due segment has used up its retries. */
  predicate IsGivenUp(cfg: Config, c: Conn, ev: Event) {
    ev.Timer? && GivesUp(cfg, c.pending, ev.now)
  }

  /** The segment that ends the closing handshake: a FIN in order in FIN-WAIT-2, a FIN in order that
      acknowledges ours in FIN-WAIT-1, or the bare acknowledgment of ours in CLOSING or LAST-ACK. */
  predicate EndsHandshake(c: Conn, ev: Event) {
    && ev.Arrive?
    && match c.tcpState
       case FinWait1(_) => ev.seg.flags == FinAck && ev.seg.seqNum == c.rcvNxt && ev.seg.ackNum == c.sndNxt
       case FinWait2(_) => ev.seg.flags == FinAck && ev.seg.seqNum == c.rcvNxt
       case Closing(_) => ev.seg.flags == Ack && ev.seg.payload == [] && ev.seg.ackNum == c.sndNxt
       case LastAck(_) => ev.seg.flags == Ack && ev.seg.payload == [] && ev.seg.ackNum == c.sndNxt
       case _ => false
  }

  lemma RemovalCauses(cfg: Config, c: Conn, ev: Event)
    ensures Step(cfg, c, ev).removed <==> IsReset(c, ev) || IsGivenUp(cfg, c, ev) || EndsHandshake(c, ev)
  {
    if ev.Arrive? && ev.seg.flags !in {Rst, RstAck} && !FinSent(c.tcpState) {
      OpenStays(c, ev.seg, ev.now);
    }
  }

  /** A connection leaves the table exactly on one of the three causes, and when it is the closing
      handshake, the peer's FIN was taken in order and our own FIN was acknowledged. */
  lemma JustifiedRemoval(cfg: Config, l: Life, ev: Event)
    requires Reachable(cfg, l) && l.alive
    ensures !Live(cfg, l, ev).alive
       <==> IsReset(l.conn, ev) || IsGivenUp(cfg, l.conn, ev) || EndsHandshake(l.conn, ev)
    ensures EndsHandshake(l.conn, ev) ==> Live(cfg, l, ev).hist.peerFin && Live(cfg, l, ev).hist.finAcked
  {
    var syn, isn, now, evs :| l == After(cfg, Birth(syn, isn, now), evs);
    AlwaysFinWait2Acked(cfg, Birth(syn, isn, now), evs);
    AlwaysBalanced(cfg, l);
    RemovalCauses(cfg, l.conn, ev);
    if EndsHandshake(l.conn, ev) {
      HandshakeEndIsObserved(l, ev, Sends(cfg, l, ev));
    }
  }

  lemma HandshakeEndIsObserved(l: Life, ev: Event, out: seq<SendInfo>)
    requires Balanced(l) && l.alive && FinWait2IsAcked(l) && EndsHandshake(l.conn, ev)
    ensures var h := Observe(l.hist, l.conn, ev, out); h.peerFin && h.finAcked
  {
  }
}
