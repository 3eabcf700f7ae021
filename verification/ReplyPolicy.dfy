/** What the server answers: everything it takes is acknowledged at once, resets are obeyed only at
    exactly RCV.NXT, stray segments get a challenge and change nothing. */
module ReplyPolicy {
  import opened SeqSpace
  import opened Wire
  import opened State
  import opened Engine
  import opened Connections
  import opened Lives
  import opened Moves
  import opened Conservation
  import opened Lifecycle

  /** The reply is a single ACK or FIN-ACK of the new RCV.NXT. */
  predicate Acknowledges(o: Outcome) {
    && o.result.Ok? && o.result.value.Some?
    && o.result.value.value.flags in {Ack, FinAck}
    && o.result.value.value.ackNum == o.conn.rcvNxt
  }

  lemma EchoAcknowledges(c: Conn, w: Window, now: int)
    requires c.InFlight() <= HALF
    ensures Acknowledges(Echo(c, w, true, now))
  {
  }

  lemma OpenAcknowledges(c: Conn, seg: TcpSegment, now: int)
    requires Sound(c) && !FinSent(c.tcpState) && TakesData(c, seg) && (seg.payload != [] || seg.flags == FinAck)
    ensures Acknowledges(OnSegment(c, seg, now))
  {
    if c.tcpState.SynReceived? {
      var h := Handshaken(c, seg);
      assert h.InFlight() == 0;
      if seg.flags == FinAck {
        PassiveCloseConserves(h, WindowOf(seg), seg, now);
      } else {
        EchoAcknowledges(Buffered(h, seg.payload), WindowOf(seg), now);
      }
    } else {
      var w := c.tcpState.window;
      if seg.flags == FinAck {
        PassiveCloseConserves(c, w, seg, now);
      } else {
        var window := AckedWindow(c, w, seg);
        AckKeepsBound(c, seg.ackNum);
        EchoAcknowledges(Buffered(AckedConn(c, seg.ackNum).(tcpState := Established(window)), seg.payload), window, now);
      }
    }
  }

  /** In every run, data or a FIN that is taken is acknowledged by the reply of the same step, even
      by the last reply before the connection is removed. */
  lemma WhatIsTakenIsAcked(cfg: Config, l: Life, seg: TcpSegment, now: int)
    requires Reachable(cfg, l) && l.alive
    requires TakesData(l.conn, seg) && (seg.payload != [] || seg.flags == FinAck)
    ensures var k := Live(cfg, l, Arrive(seg, now)).hist;
      exists info :: Sends(cfg, l, Arrive(seg, now)) == [info] && info.flags in {Ack, FinAck}
                     && info.ackNum == Point(k.clientIsn, 1 + |k.received| + Bit(k.peerFin))
  {
    AlwaysBalanced(cfg, l);
    StepBalances(cfg, l, Arrive(seg, now));
    var o := OnSegment(l.conn, seg, now);
    if !FinSent(l.conn.tcpState) {
      OpenAcknowledges(l.conn, seg, now);
    }
    assert Acknowledges(o);
    assert Sends(cfg, l, Arrive(seg, now)) == [o.result.value.value];
  }

  /** Blind reset protection (section 3 of RFC 5961), as a distance from RCV.NXT: exactly there the
      connection goes without a reply; elsewhere in the window one challenge ACK is sent; outside
      nothing happens. A reset is never answered with a reset. */
  lemma ResetPolicy(c: Conn, seg: TcpSegment, now: int)
    requires seg.flags in {Rst, RstAck}
    ensures var o, d := OnSegment(c, seg, now), WrappingSub(seg.seqNum, c.rcvNxt);
      && o.conn == c
      && (o.remove <==> d == 0)
      && Replied(o.result) == if 0 < d < 65535 then [SendInfo(c.sndNxt, c.rcvNxt, Ack, [])] else []
  {
    ReceiveWindowIsLinear(c.rcvNxt, seg.seqNum);
  }

  lemma OutOfOrderReply(c: Conn, seg: TcpSegment, now: int)
    requires seg.flags in {Ack, FinAck} && seg.seqNum != c.rcvNxt && (seg.payload != [] || seg.flags == FinAck)
    ensures var o := OnSegment(c, seg, now);
      && !o.remove
      && o.conn.rcvNxt == c.rcvNxt && o.conn.sndNxt == c.sndNxt && o.conn.sendBuffer == c.sendBuffer
      && Replied(o.result) == [if FinSent(c.tcpState) then Reset(seg) else PureAck(c)]
  {
  }

  /** A segment that is neither in order nor a reset takes nothing: the peer is told again what is
      expected, or, after our FIN, gets a reset; RCV.NXT, SND.NXT and the buffer stay. */
  lemma OutOfOrderTakesNothing(cfg: Config, l: Life, seg: TcpSegment, now: int)
    requires Reachable(cfg, l) && l.alive
    requires seg.flags in {Ack, FinAck} && seg.seqNum != l.conn.rcvNxt && (seg.payload != [] || seg.flags == FinAck)
    ensures var k := Live(cfg, l, Arrive(seg, now));
      && k.alive
      && k.conn.rcvNxt == l.conn.rcvNxt && k.conn.sndNxt == l.conn.sndNxt && k.conn.sendBuffer == l.conn.sendBuffer
      && k.hist.received == l.hist.received
      && Sends(cfg, l, Arrive(seg, now)) == [if FinSent(l.conn.tcpState) then Reset(seg) else PureAck(l.conn)]
  {
    OutOfOrderReply(l.conn, seg, now);
  }

  /** A stray SYN or SYN-ACK on a synchronized connection draws a challenge ACK and changes nothing. */
  lemma StraySynChangesNothing(c: Conn, seg: TcpSegment, now: int)
    requires seg.flags in {Syn, SynAck} && !c.tcpState.SynReceived?
    ensures var o := OnSegment(c, seg, now); o.conn == c && !o.remove && Replied(o.result) == [PureAck(c)]
  {
  }

  /** What a sender can make up who does not know RCV.NXT: a SYN, a SYN-ACK, or a reset elsewhere. */
  predicate IsBlind(c: Conn, seg: TcpSegment) {
    && !c.tcpState.SynReceived?
    && (seg.flags in {Syn, SynAck} || (seg.flags in {Rst, RstAck} && seg.seqNum != c.rcvNxt))
  }

  /** What happens to a connection and what it sends depends on the connection only. */
  lemma {:induction false} SameFuture(cfg: Config, l: Life, k: Life, evs: seq<Event>)
    requires l.conn == k.conn && l.alive == k.alive
    ensures After(cfg, l, evs).conn == After(cfg, k, evs).conn && After(cfg, l, evs).alive == After(cfg, k, evs).alive
  {
    if evs != [] {
      SameFuture(cfg, l, k, evs[..|evs| - 1]);
    }
  }

  /** Blind segments are harmless: at most one challenge ACK is sent, and however the run goes on, the
      connection is where it would be without the segment and sends what it would have sent. */
  lemma BlindSegmentsChangeNothing(cfg: Config, l: Life, seg: TcpSegment, now: int, evs: seq<Event>, ev: Event)
    requires l.alive && IsBlind(l.conn, seg)
    ensures Sends(cfg, l, Arrive(seg, now)) in {[], [PureAck(l.conn)]}
    ensures var with, without := After(cfg, Live(cfg, l, Arrive(seg, now)), evs), After(cfg, l, evs);
      && with.conn == without.conn && with.alive == without.alive
      && Sends(cfg, with, ev) == Sends(cfg, without, ev)
  {
    if seg.flags in {Syn, SynAck} {
      StraySynChangesNothing(l.conn, seg, now);
    } else {
      ResetPolicy(l.conn, seg, now);
    }
    SameFuture(cfg, Live(cfg, l, Arrive(seg, now)), l, evs);
  }

  /** The peer's FIN in order is answered with one FIN-ACK at SND.NXT, in LAST-ACK. */
  lemma FinIsAnswered(c: Conn, seg: TcpSegment, now: int)
    requires Sound(c) && !FinSent(c.tcpState) && TakesData(c, seg) && seg.flags == FinAck
    ensures var o := OnSegment(c, seg, now);
      && o.conn.tcpState.LastAck? && !o.remove && o.result.Ok? && o.result.value.Some?
      && o.result.value.value.flags == FinAck && o.result.value.value.seqNum == c.sndNxt
  {
    if c.tcpState.SynReceived? {
      var h := Handshaken(c, seg);
      assert h.InFlight() == 0;
      PassiveCloseConserves(h, WindowOf(seg), seg, now);
    } else {
      PassiveCloseConserves(c, c.tcpState.window, seg, now);
    }
  }

  lemma LastAckResets(c: Conn, seg: TcpSegment, now: int)
    requires c.tcpState.LastAck? && seg.flags == FinAck
    ensures OnSegment(c, seg, now) == Outcome(c, Ok(Some(Reset(seg))), false)
  {
  }

  /** A living connection in LAST-ACK answers a FIN with a reset and stays as it is. */
  lemma LifeResetsFin(cfg: Config, k: Life, seg: TcpSegment, now: int)
    requires k.alive && k.conn.tcpState.LastAck? && seg.flags == FinAck
    ensures Sends(cfg, k, Arrive(seg, now)) == [Reset(seg)]
    ensures Live(cfg, k, Arrive(seg, now)).alive && Live(cfg, k, Arrive(seg, now)).conn == k.conn
  {
    LastAckResets(k.conn, seg, now);
  }

  lemma LifeAnswersFin(cfg: Config, l: Life, seg: TcpSegment, now: int)
    requires Reachable(cfg, l) && l.alive && !FinSent(l.conn.tcpState) && TakesData(l.conn, seg) && seg.flags == FinAck
    ensures var out := Sends(cfg, l, Arrive(seg, now));
      |out| == 1 && out[0].flags == FinAck && out[0].seqNum == l.conn.sndNxt
    ensures Live(cfg, l, Arrive(seg, now)).conn.tcpState.LastAck?
  {
    AlwaysBalanced(cfg, l);
    FinIsAnswered(l.conn, seg, now);
  }

  /** LAST-ACK is not left for another state. */
  lemma LastAckStays(cfg: Config, f: Life, evs: seq<Event>)
    requires Reachable(cfg, f) && f.conn.tcpState.LastAck?
    ensures After(cfg, f, evs).conn.tcpState.LastAck?
  {
    OnlyForward(cfg, f, evs);
  }

  /** A repeated FIN is answered with a reset, and with nothing else, as long as the connection lives: if
      our FIN-ACK was lost, and the peer had acknowledged all before it, that reset carries exactly the
      sequence number of the lost FIN-ACK, the one the peer expects next. */
  lemma RepeatedFinIsReset(cfg: Config, l: Life, seg: TcpSegment, now: int, evs: seq<Event>, later: int)
    requires Reachable(cfg, l) && l.alive && !FinSent(l.conn.tcpState) && TakesData(l.conn, seg) && seg.flags == FinAck
    requires After(cfg, Live(cfg, l, Arrive(seg, now)), evs).alive
    ensures var k, out := After(cfg, Live(cfg, l, Arrive(seg, now)), evs), Sends(cfg, l, Arrive(seg, now));
      && Sends(cfg, k, Arrive(seg, later)) == [Reset(seg)]
      && Live(cfg, k, Arrive(seg, later)).alive && Live(cfg, k, Arrive(seg, later)).conn == k.conn
      && |out| == 1 && out[0].flags == FinAck
      && (Reset(seg).seqNum == out[0].seqNum <==> seg.ackNum == l.conn.sndNxt)
  {
    LifeAnswersFin(cfg, l, seg, now);
    StepIsReachable(cfg, l, Arrive(seg, now));
    var f := Live(cfg, l, Arrive(seg, now));
    LastAckStays(cfg, f, evs);
    LifeResetsFin(cfg, After(cfg, f, evs), seg, later);
  }

  /** A repeated SYN gets the SYN-ACK with the ISN of the first one. What it acknowledges is RCV.NXT
      only if it repeats the first SYN's sequence number, and RCV.NXT does not follow it. */
  lemma RepeatedSyn(cfg: Config, l: Life, seg: TcpSegment, now: int)
    requires Reachable(cfg, l) && l.alive && l.conn.tcpState.SynReceived? && seg.flags == Syn
    ensures Live(cfg, l, Arrive(seg, now)).conn.rcvNxt == l.conn.rcvNxt
    ensures Sends(cfg, l, Arrive(seg, now)) == [SendInfo(l.hist.isn, WrappingAdd(seg.seqNum, 1), SynAck, [])]
    ensures WrappingAdd(seg.seqNum, 1) == l.conn.rcvNxt <==> seg.seqNum == l.hist.clientIsn
  {
    AlwaysBalanced(cfg, l);
    HandshakeTakesNothing(l);
    RepeatsSynAck(l.conn, seg, now);
    NextPoint(l.hist.clientIsn, seg.seqNum);
  }

  lemma NextPoint(p: u32, q: u32)
    ensures WrappingAdd(q, 1) == Point(p, 1) <==> q == p
  {
  }

  lemma RepeatsSynAck(c: Conn, seg: TcpSegment, now: int)
    requires c.tcpState.SynReceived? && seg.flags == Syn
    ensures var o := OnSegment(c, seg, now);
      && !o.remove && o.conn == c.(pending := o.conn.pending)
      && Replied(o.result) == [SendInfo(c.sndUna, WrappingAdd(seg.seqNum, 1), SynAck, [])]
  {
  }

  lemma HandshakeTakesNothing(l: Life)
    requires Balanced(l) && l.conn.tcpState.SynReceived? && l.alive
    ensures l.conn.rcvNxt == Point(l.hist.clientIsn, 1)
  {
    assert l.hist.received == l.hist.Sent();
  }
}
