/** Runs that show where the server does less than one might expect. They all start with a SYN of
    sequence number 0 that is answered with the ISN 0. */
module Runs {
  import opened SeqSpace
  import opened Wire
  import opened PendingSegments
  import opened State
  import opened Engine
  import opened Connections
  import opened Lives
  import opened Conservation
  import opened Lifecycle
  import opened Independence
  import opened PacketCodec
  import opened Encoding
  import opened ResendWindow
  import opened Stalls
  import opened ReplyPolicy

  /** A segment that acknowledges the SYN-ACK and has `payload` at `seqNum`. */
  predicate IsAck(seg: TcpSegment, seqNum: u32, ackNum: u32, window: u16, payload: Payload) {
    seg.flags == Ack && seg.seqNum == seqNum && seg.ackNum == ackNum && seg.window == window && seg.payload == payload
  }

  /** An ESTABLISHED connection that has sent nothing since the SYN-ACK. */
  function Quiet(window: u16, lastSeq: u32, rcvNxt: u32, buffer: Bytes): Conn {
    Conn(Established(Window(window, lastSeq, 1)), 1, rcvNxt, 1, [], buffer)
  }

  lemma HandshakeRun(cfg: Config, syn: TcpSegment, ack: TcpSegment)
    requires syn.seqNum == 0 && IsAck(ack, 1, 1, ack.window, [])
    ensures var l := After(cfg, Birth(syn, 0, 0), [Arrive(ack, 0)]);
      l.alive && l.conn == Quiet(ack.window, 1, 1, [])
  {
    var b := Birth(syn, 0, 0);
    AfterOne(cfg, b, [], Arrive(ack, 0));
    assert [] + [Arrive(ack, 0)] == [Arrive(ack, 0)];
  }

  /** With the window shut, data is only buffered. */
  lemma BuffersWhenShut(c: Conn, lastSeq: u32, seg: TcpSegment, now: int)
    requires c == Quiet(0, lastSeq, c.rcvNxt, c.sendBuffer) && IsAck(seg, c.rcvNxt, 1, 0, seg.payload)
    requires seg.payload != [] && (lastSeq == c.rcvNxt || Precedes(lastSeq, c.rcvNxt))
    ensures var o := OnSegment(c, seg, now);
      !o.remove && o.conn == Quiet(0, c.rcvNxt, WrappingAdd(c.rcvNxt, |seg.payload|), c.sendBuffer + seg.payload)
  {
    assert (c.sendBuffer + seg.payload)[0..] == c.sendBuffer + seg.payload;
  }

  lemma NextStep(cfg: Config, b: Life, evs: seq<Event>, ev: Event, c: Conn)
    requires After(cfg, b, evs).alive && After(cfg, b, evs).conn == c
    ensures var l := After(cfg, b, evs + [ev]); l.conn == Step(cfg, c, ev).conn && l.alive == !Step(cfg, c, ev).removed
  {
    AfterOne(cfg, b, evs, ev);
  }

  /** A byte is taken while the peer's window is shut, then the server closes: whatever happens later,
      that byte has been acknowledged and is never sent. */
  lemma BytesLeftBehind(cfg: Config, syn: TcpSegment, ack: TcpSegment, data: TcpSegment, evs: seq<Event>)
    requires syn.seqNum == 0 && IsAck(ack, 1, 1, 0, []) && IsAck(data, 1, 1, 0, [7])
    ensures var l := After(cfg, After(cfg, Birth(syn, 0, 0), [Arrive(ack, 0), Arrive(data, 0), CloseCall(0)]), evs);
      FinSent(l.conn.tcpState) && l.hist.accepted == l.hist.Sent() + [7]
  {
    var b := Birth(syn, 0, 0);
    HandshakeRun(cfg, syn, ack);
    BuffersWhenShut(Quiet(0, 1, 1, []), 1, data, 0);
    assert [] + [7] == [7];
    NextStep(cfg, b, [Arrive(ack, 0)], Arrive(data, 0), Quiet(0, 1, 1, []));
    assert [Arrive(ack, 0)] + [Arrive(data, 0)] == [Arrive(ack, 0), Arrive(data, 0)];
    NextStep(cfg, b, [Arrive(ack, 0), Arrive(data, 0)], CloseCall(0), Quiet(0, 1, 2, [7]));
    assert [Arrive(ack, 0), Arrive(data, 0)] + [CloseCall(0)] == [Arrive(ack, 0), Arrive(data, 0), CloseCall(0)];
    StaysBehind(cfg, After(cfg, b, [Arrive(ack, 0), Arrive(data, 0), CloseCall(0)]), evs);
  }

  lemma StaysBehind(cfg: Config, l: Life, evs: seq<Event>)
    requires Reachable(cfg, l) && FinSent(l.conn.tcpState)
    ensures var k := After(cfg, l, evs); FinSent(k.conn.tcpState) && k.hist.accepted == k.hist.Sent() + l.conn.sendBuffer
  {
    FrozenAfterFin(cfg, l, evs, Timer(0));
    AlwaysBalanced(cfg, l);
    RunsBalance(cfg, l, evs);
  }

  /** The run `evs` leads to a quiet connection whose window is shut. */
  predicate Shut(cfg: Config, b: Life, evs: seq<Event>, lastSeq: u32, rcvNxt: u32, buffer: Bytes) {
    var l := After(cfg, b, evs);
    l.alive && l.conn == Quiet(0, lastSeq, rcvNxt, buffer)
  }

  /** One more segment arrives while the window is shut. */
  lemma BuffersMore(cfg: Config, b: Life, evs: seq<Event>, lastSeq: u32, rcvNxt: u32, buffer: Bytes, seg: TcpSegment)
    requires Shut(cfg, b, evs, lastSeq, rcvNxt, buffer)
    requires IsAck(seg, rcvNxt, 1, 0, seg.payload) && seg.payload != [] && (lastSeq == rcvNxt || Precedes(lastSeq, rcvNxt))
    ensures Shut(cfg, b, evs + [Arrive(seg, 0)], rcvNxt, WrappingAdd(rcvNxt, |seg.payload|), buffer + seg.payload)
  {
    BuffersWhenShut(Quiet(0, lastSeq, rcvNxt, buffer), lastSeq, seg, 0);
    NextStep(cfg, b, evs, Arrive(seg, 0), Quiet(0, lastSeq, rcvNxt, buffer));
  }

  lemma BuffersTwo(cfg: Config, b: Life, evs: seq<Event>, full: TcpSegment, more: TcpSegment)
    requires Shut(cfg, b, evs, 1, 1, [])
    requires IsAck(full, 1, 1, 0, full.payload) && |full.payload| == 1460
    requires IsAck(more, 1461, 1, 0, more.payload) && |more.payload| == 1
    ensures Shut(cfg, b, evs + [Arrive(full, 0)] + [Arrive(more, 0)], 1461, 1462, full.payload + more.payload)
  {
    BuffersMore(cfg, b, evs, 1, 1, [], full);
    assert [] + full.payload == full.payload;
    BuffersMore(cfg, b, evs + [Arrive(full, 0)], 1, 1461, full.payload, more);
  }

  /** Ordinary segments make a reply of 1461 bytes: a full one and one byte more arrive while the window
      is shut, and then it opens. */
  lemma OversizedReply(cfg: Config, syn: TcpSegment, ack: TcpSegment, full: TcpSegment, more: TcpSegment, open: TcpSegment)
    requires syn.seqNum == 0 && IsAck(ack, 1, 1, 0, [])
    requires IsAck(full, 1, 1, 0, full.payload) && |full.payload| == 1460
    requires IsAck(more, 1461, 1, 0, more.payload) && |more.payload| == 1
    requires IsAck(open, 1462, 1, 0xFFFF, [])
    ensures var l := After(cfg, Birth(syn, 0, 0), [Arrive(ack, 0), Arrive(full, 0), Arrive(more, 0)]);
      && l.alive
      && Sends(cfg, l, Arrive(open, 0)) == [SendInfo(1, 1462, Ack, full.payload + more.payload)]
      && !FitsPacket(full.payload + more.payload)
  {
    var b := Birth(syn, 0, 0);
    HandshakeRun(cfg, syn, ack);
    BuffersTwo(cfg, b, [Arrive(ack, 0)], full, more);
    assert [Arrive(ack, 0)] + [Arrive(full, 0)] + [Arrive(more, 0)] == [Arrive(ack, 0), Arrive(full, 0), Arrive(more, 0)];
    SendsAllWhenOpened(Quiet(0, 1461, 1462, full.payload + more.payload), open);
  }

  /** So this run of the server, on a single connection, ends with an encoding error. */
  lemma OversizedRun(cfg: Config, syn: TcpSegment, ack: TcpSegment, full: TcpSegment, more: TcpSegment, open: TcpSegment)
    requires syn.seqNum == 0 && IsAck(ack, 1, 1, 0, [])
    requires IsAck(full, 1, 1, 0, full.payload) && |full.payload| == 1460
    requires IsAck(more, 1461, 1, 0, more.payload) && |more.payload| == 1
    requires IsAck(open, 1462, 1, 0xFFFF, [])
    requires syn.flags == Syn && KeyOf(ack) == KeyOf(full) == KeyOf(more) == KeyOf(open) == KeyOf(syn)
    ensures !SmallDrains(cfg, RunOf(syn, 0, 0, [Arrive(ack, 0), Arrive(full, 0), Arrive(more, 0)]) + [Incoming(open, None, 0)])
  {
    var evs := [Arrive(ack, 0), Arrive(full, 0), Arrive(more, 0)];
    OversizedReply(cfg, syn, ack, full, more, open);
    EveryLifeIsAnEntry(cfg, syn, 0, 0, evs);
    var t, ev := TableAfter(cfg, map[], RunOf(syn, 0, 0, evs)), Incoming(open, None, 0);
    StepOfEntry(cfg, t, ev, KeyOf(syn));
    assert !StepEncodes(cfg, t, ev);
    if SmallDrains(cfg, RunOf(syn, 0, 0, evs) + [ev]) {
      NextStepEncodes(cfg, RunOf(syn, 0, 0, evs), ev);
    }
  }

  lemma SendsAllWhenOpened(c: Conn, open: TcpSegment)
    requires c == Quiet(0, 1461, 1462, c.sendBuffer) && 0 < |c.sendBuffer| <= 0xFFFF && IsAck(open, 1462, 1, 0xFFFF, [])
    ensures Replied(OnSegment(c, open, 0).result) == [SendInfo(1, 1462, Ack, c.sendBuffer)]
  {
    assert c.sendBuffer[..|c.sendBuffer|] == c.sendBuffer;
  }

  /** Our FIN is acknowledged by a segment with data, and the connection stays in FIN-WAIT-1. */
  lemma FinAckedByData(cfg: Config, syn: TcpSegment, ack: TcpSegment, data: TcpSegment)
    requires syn.seqNum == 0 && IsAck(ack, 1, 1, 10, []) && IsAck(data, 1, 2, 10, [7])
    ensures var l := After(cfg, Birth(syn, 0, 0), [Arrive(ack, 0), CloseCall(0), Arrive(data, 0)]);
      && l.alive && l.conn.tcpState.FinWait1?
      && l.hist.finAcked && l.conn.sndUna == l.conn.sndNxt && l.conn.pending == []
  {
    var b := Birth(syn, 0, 0);
    HandshakeRun(cfg, syn, ack);
    NextStep(cfg, b, [Arrive(ack, 0)], CloseCall(0), Quiet(10, 1, 1, []));
    assert [Arrive(ack, 0)] + [CloseCall(0)] == [Arrive(ack, 0), CloseCall(0)];
    var fin := SendInfo(1, 1, FinAck, []);
    assert [] + [NewPending(fin, 0)] == [NewPending(fin, 0)];
    var c := Conn(FinWait1(Window(10, 1, 1)), 2, 1, 1, [NewPending(fin, 0)], []);
    assert After(cfg, b, [Arrive(ack, 0), CloseCall(0)]).conn == c;
    AfterOne(cfg, b, [Arrive(ack, 0), CloseCall(0)], Arrive(data, 0));
    assert [Arrive(ack, 0), CloseCall(0)] + [Arrive(data, 0)] == [Arrive(ack, 0), CloseCall(0), Arrive(data, 0)];
    DataAcksFin(c, data);
  }

  lemma DataAcksFin(c: Conn, data: TcpSegment)
    requires c == Conn(FinWait1(Window(10, 1, 1)), 2, 1, 1, [NewPending(SendInfo(1, 1, FinAck, []), 0)], [])
    requires IsAck(data, 1, 2, 10, [7])
    ensures var o := OnSegment(c, data, 0);
      !o.remove && o.conn.tcpState.FinWait1? && o.conn.sndUna == 2 && o.conn.sndNxt == 2 && o.conn.pending == []
  {
    assert Retain(c.pending[1..], 2) == [];
  }

  /** A byte is echoed into a window of ten, and then the window is closed. */
  lemma ShrunkWindowRun(cfg: Config, syn: TcpSegment, ack: TcpSegment, data: TcpSegment, shut: TcpSegment)
    requires syn.seqNum == 0 && IsAck(ack, 1, 1, 10, []) && IsAck(data, 1, 1, 10, [7]) && IsAck(shut, 2, 1, 0, [])
    ensures var l := After(cfg, Birth(syn, 0, 0), [Arrive(ack, 0), Arrive(data, 0), Arrive(shut, 0)]);
      l.alive && l.conn == Conn(Established(Window(0, 2, 1)), 2, 2, 1, [EchoedByte(0)], [])
  {
    var b := Birth(syn, 0, 0);
    HandshakeRun(cfg, syn, ack);
    EchoesOneByte(data, 0);
    NextStep(cfg, b, [Arrive(ack, 0)], Arrive(data, 0), Quiet(10, 1, 1, []));
    assert [Arrive(ack, 0)] + [Arrive(data, 0)] == [Arrive(ack, 0), Arrive(data, 0)];
    WindowShuts(shut, 0);
    NextStep(cfg, b, [Arrive(ack, 0), Arrive(data, 0)], Arrive(shut, 0), Conn(Established(Window(10, 1, 1)), 2, 2, 1, [EchoedByte(0)], []));
    assert [Arrive(ack, 0), Arrive(data, 0)] + [Arrive(shut, 0)] == [Arrive(ack, 0), Arrive(data, 0), Arrive(shut, 0)];
  }

  /** Then the timer resends the byte past the window, if there are retries at all; with a retry limit of
      zero it never sends anything past it, although more than the window is in flight. */
  lemma ResendPastAShrunkWindow(cfg: Config, syn: TcpSegment, ack: TcpSegment, data: TcpSegment, shut: TcpSegment)
    requires syn.seqNum == 0 && IsAck(ack, 1, 1, 10, []) && IsAck(data, 1, 1, 10, [7]) && IsAck(shut, 2, 1, 0, [])
    ensures var l := After(cfg, Birth(syn, 0, 0), [Arrive(ack, 0), Arrive(data, 0), Arrive(shut, 0)]);
      && l.alive && l.conn.tcpState == Established(Window(0, 2, 1)) && l.conn.InFlight() == 1
      && DataEnd(l.conn, SendInfo(1, 2, Ack, [7])) == 1
      && (cfg.maxRetries > 0 ==> Sends(cfg, l, Timer(Rto(cfg.rto, 0))) == [SendInfo(1, 2, Ack, [7])])
      && (TimerStaysInside(cfg, l) <==> cfg.maxRetries == 0)
  {
    ShrunkWindowRun(cfg, syn, ack, data, shut);
    var l := After(cfg, Birth(syn, 0, 0), [Arrive(ack, 0), Arrive(data, 0), Arrive(shut, 0)]);
    assert l.conn.pending[0] == EchoedByte(0);
    TimerStaysInsideIff(cfg, l);
    if cfg.maxRetries > 0 {
      ResentWhenDue(cfg, EchoedByte(0));
    }
  }

  /** The byte 7 echoed as the first byte after the ISN 0. */
  function EchoedByte(now: int): PendingSegment {
    NewPending(SendInfo(1, 2, Ack, [7]), now)
  }

  lemma EchoesOneByte(data: TcpSegment, now: int)
    requires data.flags == Ack && data.seqNum == 1 && data.ackNum == 1 && data.payload == [7] && data.window == 10
    ensures var o := OnSegment(Conn(Established(Window(10, 1, 1)), 1, 1, 1, [], []), data, now);
      !o.remove && o.conn == Conn(Established(Window(10, 1, 1)), 2, 2, 1, [EchoedByte(now)], [])
  {
    assert [] + [7] == [7] && [7][..1] == [7] && [7][1..] == [] && [] + [EchoedByte(now)] == [EchoedByte(now)];
  }

  lemma WindowShuts(shut: TcpSegment, now: int)
    requires shut.flags == Ack && shut.seqNum == 2 && shut.ackNum == 1 && shut.payload == [] && shut.window == 0
    ensures var o := OnSegment(Conn(Established(Window(10, 1, 1)), 2, 2, 1, [EchoedByte(now)], []), shut, now);
      !o.remove && o.conn == Conn(Established(Window(0, 2, 1)), 2, 2, 1, [EchoedByte(now)], [])
  {
  }

  lemma ResentWhenDue(cfg: Config, p: PendingSegment)
    requires p.retries == 0 < cfg.maxRetries && p.lastSentAt == 0
    ensures !GivesUp(cfg, [p], Rto(cfg.rto, 0)) && DueInfos([p], cfg.rto, Rto(cfg.rto, 0)) == [p.info]
  {
    assert [p][..0] == [];
  }

  lemma OpensOutOfOrder(ahead: TcpSegment)
    requires IsAck(ahead, 5, 1, 10, [8])
    ensures var o := OnSegment(Quiet(0, 1, 2, [7]), ahead, 0); !o.remove && o.conn == Quiet(10, 5, 2, [7])
  {
  }

  lemma StalledAtLast(cfg: Config, b: Life, evs: seq<Event>, ahead: TcpSegment)
    requires Shut(cfg, b, evs, 1, 2, [7]) && IsAck(ahead, 5, 1, 10, [8])
    ensures var l := After(cfg, b, evs + [Arrive(ahead, 0)]); l.alive && l.conn == Quiet(10, 5, 2, [7])
  {
    OpensOutOfOrder(ahead);
    NextStep(cfg, b, evs, Arrive(ahead, 0), Quiet(0, 1, 2, [7]));
  }

  lemma OneByteWaits(cfg: Config, syn: TcpSegment, ack: TcpSegment, data: TcpSegment)
    requires syn.seqNum == 0 && IsAck(ack, 1, 1, 0, []) && IsAck(data, 1, 1, 0, [7])
    ensures Shut(cfg, Birth(syn, 0, 0), [Arrive(ack, 0)] + [Arrive(data, 0)], 1, 2, [7])
  {
    HandshakeRun(cfg, syn, ack);
    BuffersMore(cfg, Birth(syn, 0, 0), [Arrive(ack, 0)], 1, 1, [], data);
    assert [] + [7] == [7];
  }

  /** A byte waits because the window is shut; data out of order then opens the window to ten, and the
      byte goes on waiting, with nothing in flight, through any number of timer wake-ups. */
  lemma StalledRun(cfg: Config, syn: TcpSegment, ack: TcpSegment, data: TcpSegment, ahead: TcpSegment, timers: seq<Event>)
    requires syn.seqNum == 0 && IsAck(ack, 1, 1, 0, []) && IsAck(data, 1, 1, 0, [7]) && IsAck(ahead, 5, 1, 10, [8])
    requires forall i :: 0 <= i < |timers| ==> timers[i].Timer?
    ensures var l := After(cfg, After(cfg, Birth(syn, 0, 0), [Arrive(ack, 0), Arrive(data, 0), Arrive(ahead, 0)]), timers);
      l.alive && l.conn == Quiet(10, 5, 2, [7]) && !Flowing(l.conn)
  {
    var b, evs := Birth(syn, 0, 0), [Arrive(ack, 0), Arrive(data, 0), Arrive(ahead, 0)];
    OneByteWaits(cfg, syn, ack, data);
    StalledAtLast(cfg, b, [Arrive(ack, 0)] + [Arrive(data, 0)], ahead);
    assert [Arrive(ack, 0)] + [Arrive(data, 0)] + [Arrive(ahead, 0)] == evs;
    TimerDoesNotHelp(cfg, After(cfg, b, evs), timers, 0);
  }

  /** The peer sends a byte with its FIN; the FIN-ACK that echoes it is lost; the peer repeats its segment,
      and gets a reset with the sequence number of what was lost. */
  lemma LostFinAck(cfg: Config, syn: TcpSegment, ack: TcpSegment, fin: TcpSegment)
    requires syn.seqNum == 0 && IsAck(ack, 1, 1, 10, [])
    requires fin.flags == FinAck && fin.seqNum == 1 && fin.ackNum == 1 && fin.window == 10 && fin.payload == [7]
    ensures var l := After(cfg, Birth(syn, 0, 0), [Arrive(ack, 0)]);
      && Sends(cfg, l, Arrive(fin, 0)) == [SendInfo(1, 3, FinAck, [7])]
      && Sends(cfg, Live(cfg, l, Arrive(fin, 0)), Arrive(fin, 1)) == [SendInfo(1, 0, Rst, [])]
  {
    HandshakeRun(cfg, syn, ack);
    EchoesWithFin(fin);
    var l := After(cfg, Birth(syn, 0, 0), [Arrive(ack, 0)]);
    assert Reachable(cfg, l);
    RepeatedFinIsReset(cfg, l, fin, 0, [], 1);
  }

  lemma EchoesWithFin(fin: TcpSegment)
    requires fin.flags == FinAck && fin.seqNum == 1 && fin.ackNum == 1 && fin.window == 10 && fin.payload == [7]
    ensures var o := OnSegment(Quiet(10, 1, 1, []), fin, 0);
      !o.remove && Replied(o.result) == [SendInfo(1, 3, FinAck, [7])]
  {
    assert [] + [7] == [7] && [7][..1] == [7];
  }
}
