/** The retransmission queue tiles the sequence numbers in flight: it is contiguous, ends at
    SND.NXT, and starts at or across SND.UNA, in every run without an antipodal acknowledgment. */
module Tiling {
  import opened SeqSpace
  import opened Wire
  import opened PendingSegments
  import opened State
  import opened Engine
  import opened Connections
  import opened Lives
  import opened Moves
  import opened Conservation

  function Span(p: PendingSegment): u32 {
    WrappingSub(p.endSeq, p.info.seqNum)
  }

  function Total(q: seq<PendingSegment>): nat {
    if q == [] then 0 else Span(q[0]) + Total(q[1..])
  }

  /** Where the queue starts; an empty queue starts at its end. */
  function Start(q: seq<PendingSegment>, nxt: u32): u32 {
    if q == [] then nxt else q[0].info.seqNum
  }

  /** Each segment ends where the next one starts, the last one at `nxt`. */
  predicate Chain(q: seq<PendingSegment>, nxt: u32) {
    q == [] || (q[0].endSeq == Start(q[1..], nxt) && Chain(q[1..], nxt))
  }

  predicate Spanning(q: seq<PendingSegment>) {
    forall p :: p in q ==> 1 <= Span(p) <= 0x1_0000
  }

  /** `una` lies in the first segment: at or after its start, before its end. */
  predicate Tiles(q: seq<PendingSegment>, una: u32, nxt: u32) {
    && Chain(q, nxt) && Spanning(q)
    && var flight := WrappingSub(nxt, una);
       if q == [] then flight == 0 else Total(q[1..]) < flight <= Total(q)
  }

  lemma {:induction false} ChainOffset(q: seq<PendingSegment>, nxt: u32)
    requires Chain(q, nxt) && Total(q) < MODULUS
    ensures WrappingSub(nxt, Start(q, nxt)) == Total(q)
  {
    if q != [] {
      ChainOffset(q[1..], nxt);
    }
  }

  lemma {:induction false} RetainsUncovered(q: seq<PendingSegment>, nxt: u32, ack: u32)
    requires Chain(q, nxt) && Total(q) < WrappingSub(nxt, ack) < HALF
    ensures Retain(q, ack) == q
  {
    if q != [] {
      ChainOffset(q[1..], nxt);
      RetainsUncovered(q[1..], nxt, ack);
    }
  }

  /** Dropping what `ack` covers leaves a suffix that tiles from `ack`. */
  lemma {:induction false} RetainTiles(q: seq<PendingSegment>, nxt: u32, ack: u32)
    requires Chain(q, nxt) && Spanning(q) && Total(q) < HALF
    requires WrappingSub(nxt, ack) <= Total(q)
    ensures Tiles(Retain(q, ack), ack, nxt)
    ensures Retain(q, ack) == q[|q| - |Retain(q, ack)|..]
  {
    if q != [] {
      ChainOffset(q[1..], nxt);
      if WrappingSub(nxt, ack) <= Total(q[1..]) {
        assert IsCoveredBy(q[0], ack);
        RetainTiles(q[1..], nxt, ack);
      } else {
        assert !IsCoveredBy(q[0], ack);
        RetainsUncovered(q[1..], nxt, ack);
        assert Retain(q, ack) == q;
      }
    }
  }

  lemma {:induction false} ChainAppend(q: seq<PendingSegment>, p: PendingSegment)
    requires Chain(q, p.info.seqNum)
    ensures Chain(q + [p], p.endSeq)
    ensures Total(q + [p]) == Total(q) + Span(p)
  {
    if q == [] {
      assert q + [p] == [p];
      assert [p][1..] == [];
    } else {
      assert (q + [p])[1..] == q[1..] + [p];
      ChainAppend(q[1..], p);
    }
  }

  lemma AppendTiles(q: seq<PendingSegment>, una: u32, p: PendingSegment)
    requires Tiles(q, una, p.info.seqNum) && 1 <= Span(p) <= 0x1_0000
    requires WrappingSub(p.info.seqNum, una) + Span(p) < MODULUS
    ensures Tiles(q + [p], una, p.endSeq)
  {
    ChainAppend(q, p);
    if q == [] {
      assert q + [p] == [p];
      assert [p][1..] == [];
    } else {
      ChainAppend(q[1..], p);
      assert (q + [p])[1..] == q[1..] + [p];
    }
    assert WrappingSub(p.endSeq, una) == WrappingSub(p.info.seqNum, una) + Span(p);
  }

  // ---------------------------------------------------------------------------------------------

  predicate TiledBy(c: Conn, limit: nat) {
    Tiles(c.pending, c.sndUna, c.sndNxt) && c.InFlight() <= limit
  }

  /** In SYN-RECEIVED the queue holds the SYN-ACK, once for each time it was asked for. */
  predicate SynAckQueued(c: Conn) {
    && c.pending != []
    && forall p :: p in c.pending ==> p.info.flags == SynAck && p.info.seqNum == c.sndUna && p.endSeq == c.sndNxt
  }

  /** At most a full window in flight, plus our FIN; nothing at all in FIN-WAIT-2. */
  predicate Tiled(c: Conn) {
    && (c.tcpState.SynReceived? ==> SynAckQueued(c))
    && (!c.tcpState.SynReceived? ==> TiledBy(c, 0xFFFF + Bit(FinSent(c.tcpState))))
    && (c.tcpState.FinWait2? ==> c.InFlight() == 0)
  }

  /** The one acknowledgment that circular comparison gets wrong. */
  predicate IsOddPoint(c: Conn, ack: u32) {
    c.sndUna == c.sndNxt && ack == WrappingAdd(c.sndNxt, HALF)
  }

  lemma AckTiles(c: Conn, ack: u32, limit: nat)
    requires TiledBy(c, limit) && limit <= 0x1_0000 && !IsOddPoint(c, ack)
    ensures TiledBy(AckedConn(c, ack), limit)
    ensures c.InFlight() == 0 ==> AckedConn(c, ack).InFlight() == 0
    ensures ack == c.sndNxt ==> AckedConn(c, ack).InFlight() == 0
  {
    if AckInFlight(c.sndUna, ack, c.sndNxt) && Precedes(c.sndUna, ack) {
      AcceptanceIsLinear(c.sndUna, ack, c.sndNxt);
      assert c.pending != [];
      assert Span(c.pending[0]) <= 0x1_0000;
      RetainTiles(c.pending, c.sndNxt, ack);
    }
  }

  /** At the odd point SND.UNA jumps half the circle away and nothing tiles any more. */
  lemma OddPointBreaks(c: Conn, ack: u32)
    requires IsOddPoint(c, ack)
    ensures AckedConn(c, ack).InFlight() == HALF
  {
  }

  lemma LaunchTiles(c: Conn, info: SendInfo, now: int, limit: nat)
    requires TiledBy(c, limit) && limit <= 0x2_0000
    requires info.seqNum == c.sndNxt && Consumed(info) > 0
    ensures TiledBy(Launched(c, info, now), limit + Consumed(info))
    ensures Launched(c, info, now).InFlight() == c.InFlight() + Consumed(info)
  {
    var p := NewPending(info, now);
    AppendTiles(c.pending, c.sndUna, p);
  }

  lemma EchoTiles(c: Conn, w: Window, ackIfIdle: bool, now: int)
    requires TiledBy(c, 0xFFFF)
    ensures TiledBy(Echo(c, w, ackIfIdle, now).conn, 0xFFFF)
  {
    var d := Drain(c, w);
    if d.result.Ok? && d.result.value != [] {
      LaunchTiles(d.conn, SendInfo(c.sndNxt, c.rcvNxt, Ack, d.result.value), now, 0xFFFF);
    }
  }

  lemma PassiveCloseTiles(c: Conn, w: Window, seg: TcpSegment, now: int)
    requires TiledBy(c, 0xFFFF) && !IsOddPoint(c, seg.ackNum)
    ensures TiledBy(PassiveClose(c, w, seg, now).conn, 0x1_0000)
  {
    var received := BufferedFin(c, seg.payload);
    var acked := AckedConn(received, seg.ackNum);
    AckTiles(received, seg.ackNum, 0xFFFF);
    var d := Drain(acked, AckedWindow(received, w, seg));
    if d.result.Ok? {
      LaunchTiles(d.conn, SendInfo(acked.sndNxt, acked.rcvNxt, FinAck, d.result.value), now, 0xFFFF);
    }
  }

  /** An acknowledgment at the odd point that the connection does look at. */
  predicate IsAntipodal(c: Conn, seg: TcpSegment) {
    ProcessesAck(c, seg) && IsOddPoint(c, seg.ackNum)
  }

  lemma SynReceivedTiles(c: Conn, seg: TcpSegment, now: int)
    requires Sound(c) && c.tcpState.SynReceived? && Tiled(c)
    ensures Tiled(OnSynReceived(c, seg, now).conn)
  {
    if seg.flags in {Ack, FinAck} && CompletesHandshake(c, seg) {
      var h := Handshaken(c, seg);
      assert TiledBy(h, 0);
      if seg.flags == FinAck {
        PassiveCloseConserves(h, WindowOf(seg), seg, now);
        PassiveCloseTiles(h, WindowOf(seg), seg, now);
      } else {
        EchoConserves(Buffered(h, seg.payload), WindowOf(seg), true, now);
        EchoTiles(Buffered(h, seg.payload), WindowOf(seg), true, now);
      }
    }
  }

  lemma EstablishedTiles(c: Conn, w: Window, seg: TcpSegment, now: int)
    requires Sound(c) && c.tcpState == Established(w) && seg.flags in {Ack, FinAck}
    requires Tiled(c) && !IsAntipodal(c, seg)
    ensures Tiled(OnEstablished(c, w, seg, now).conn)
  {
    if ProcessesAck(c, seg) {
      var window := AckedWindow(c, w, seg);
      var acked := AckedConn(c, seg.ackNum).(tcpState := Established(window));
      AckTiles(c, seg.ackNum, 0xFFFF);
      if seg.flags == Ack && seg.payload == [] {
        EchoConserves(acked, window, false, now);
        EchoTiles(acked, window, false, now);
      } else if seg.flags == Ack && seg.seqNum == c.rcvNxt {
        EchoConserves(Buffered(acked, seg.payload), window, true, now);
        EchoTiles(Buffered(acked, seg.payload), window, true, now);
      } else if seg.flags == FinAck && seg.seqNum == c.rcvNxt {
        PassiveCloseConserves(c, w, seg, now);
        PassiveCloseTiles(c, w, seg, now);
      }
    }
  }

  lemma ClosingTiles(c: Conn, seg: TcpSegment, now: int)
    requires FinSent(c.tcpState) && seg.flags in {Ack, FinAck}
    requires Tiled(c) && !IsAntipodal(c, seg)
    ensures Tiled(OnSegment(c, seg, now).conn)
  {
    if ProcessesAck(c, seg) {
      AckTiles(c, seg.ackNum, 0x1_0000);
      var a := Absorbed(c, seg.payload);
      AckTiles(a, seg.ackNum, 0x1_0000);
      var b := AbsorbedFin(c, seg.payload);
      AckTiles(b, seg.ackNum, 0x1_0000);
    }
  }

  lemma SegmentTiles(c: Conn, seg: TcpSegment, now: int)
    requires Sound(c) && Tiled(c) && !IsAntipodal(c, seg)
    ensures Tiled(OnSegment(c, seg, now).conn)
  {
    if seg.flags in {Ack, FinAck} || (c.tcpState.SynReceived? && seg.flags in {Syn, SynAck}) {
      match c.tcpState
      case SynReceived => SynReceivedTiles(c, seg, now);
      case Established(w) => EstablishedTiles(c, w, seg, now);
      case _ => ClosingTiles(c, seg, now);
    }
  }

  lemma AntipodeBreaksTiling(c: Conn, seg: TcpSegment, now: int)
    requires Sound(c) && IsAntipodal(c, seg)
    ensures OnSegment(c, seg, now).conn.InFlight() >= HALF
  {
    OddPointBreaks(c, seg.ackNum);
    if c.tcpState.Established? && seg.seqNum == c.rcvNxt {
      var received := BufferedFin(c, seg.payload);
      var acked := AckedConn(received, seg.ackNum);
      var w := AckedWindow(received, c.tcpState.window, seg);
      assert acked.InFlight() == HALF;
      assert Transmittable(acked, w) == 0;
    }
  }

  /** One step keeps the tiling exactly when its acknowledgment is not antipodal. */
  lemma TilingKeptIffNotAntipodal(c: Conn, seg: TcpSegment, now: int)
    requires Sound(c) && Tiled(c)
    ensures Tiled(OnSegment(c, seg, now).conn) <==> !IsAntipodal(c, seg)
  {
    if IsAntipodal(c, seg) {
      AntipodeBreaksTiling(c, seg, now);
      SegmentOutcome(c, seg, now);
    } else {
      SegmentTiles(c, seg, now);
    }
  }

  // ---------------------------------------------------------------------------------------------

  lemma {:induction false} SameShapeTiles(q: seq<PendingSegment>, r: seq<PendingSegment>, nxt: u32)
    requires |q| == |r| && forall i :: 0 <= i < |q| ==> q[i].info == r[i].info && q[i].endSeq == r[i].endSeq
    ensures Chain(q, nxt) == Chain(r, nxt) && Total(q) == Total(r) && Start(q, nxt) == Start(r, nxt)
  {
    if q != [] {
      SameShapeTiles(q[1..], r[1..], nxt);
    }
  }

  lemma TickTiles(c: Conn, rto: RtoConfig, now: int)
    requires Tiled(c)
    ensures Tiled(c.(pending := Resent(c.pending, rto, now)))
  {
    var r := Resent(c.pending, rto, now);
    SameShapeTiles(c.pending, r, c.sndNxt);
    if r != [] {
      SameShapeTiles(c.pending[1..], r[1..], c.sndNxt);
    }
    forall p | p in r
      ensures exists q :: q in c.pending && q.info == p.info && q.endSeq == p.endSeq
    {
      var i :| 0 <= i < |r| && r[i] == p;
      assert c.pending[i] in c.pending;
    }
  }

  lemma StepTiles(cfg: Config, l: Life, ev: Event)
    requires Balanced(l) && Tiled(l.conn)
    requires ev.Arrive? ==> !IsAntipodal(l.conn, ev.seg)
    ensures Tiled(Live(cfg, l, ev).conn)
  {
    if l.alive {
      match ev
      case Arrive(seg, now) => SegmentTiles(l.conn, seg, now);
      case Timer(now) => TickTiles(l.conn, cfg.rto, now);
      case CloseCall(now) =>
        if l.conn.tcpState.Established? {
          LaunchTiles(l.conn, SendInfo(l.conn.sndNxt, l.conn.rcvNxt, FinAck, []), now, 0xFFFF);
        }
    }
  }

  /** No segment of the run carries an antipodal acknowledgment. */
  predicate NoAntipode(cfg: Config, l: Life, evs: seq<Event>) {
    evs == [] ||
    (var ev := evs[|evs| - 1];
     && NoAntipode(cfg, l, evs[..|evs| - 1])
     && (ev.Arrive? ==> !IsAntipodal(After(cfg, l, evs[..|evs| - 1]).conn, ev.seg)))
  }

  lemma {:induction false} RunsTile(cfg: Config, l: Life, evs: seq<Event>)
    requires Balanced(l) && Tiled(l.conn) && NoAntipode(cfg, l, evs)
    ensures Tiled(After(cfg, l, evs).conn)
  {
    if evs != [] {
      RunsTile(cfg, l, evs[..|evs| - 1]);
      RunsBalance(cfg, l, evs[..|evs| - 1]);
      StepTiles(cfg, After(cfg, l, evs[..|evs| - 1]), evs[|evs| - 1]);
    }
  }

  /** In every run without an antipodal acknowledgment the queue tiles what is in flight, which
      never exceeds 65535, or 65536 with our FIN, even if the peer shrinks its window. */
  lemma QueueAlwaysTiles(cfg: Config, syn: TcpSegment, isn: u32, now: int, evs: seq<Event>)
    requires NoAntipode(cfg, Birth(syn, isn, now), evs)
    ensures Tiled(After(cfg, Birth(syn, isn, now), evs).conn)
  {
    BirthIsBalanced(syn, isn, now);
    RunsTile(cfg, Birth(syn, isn, now), evs);
  }

  lemma {:induction false} ChainCovers(q: seq<PendingSegment>, nxt: u32, x: u32)
    requires Chain(q, nxt) && Spanning(q) && Total(q) < MODULUS
    requires 1 <= WrappingSub(nxt, x) <= Total(q)
    ensures exists p :: p in q && WrappingSub(x, p.info.seqNum) < Span(p)
  {
    ChainOffset(q, nxt);
    ChainOffset(q[1..], nxt);
    if WrappingSub(nxt, x) <= Total(q[1..]) {
      ChainCovers(q[1..], nxt, x);
    } else {
      assert WrappingSub(x, q[0].info.seqNum) < Span(q[0]);
    }
  }

  /** Nothing unacknowledged is forgotten: every sequence number from SND.UNA up to SND.NXT, our
      SYN's and FIN's included, is held by a pending segment, and the queue is empty only when all is acked. */
  lemma NothingForgotten(c: Conn, x: u32)
    requires Sound(c) && Tiled(c)
    ensures c.pending == [] <==> c.sndUna == c.sndNxt
    ensures WrappingSub(x, c.sndUna) < c.InFlight() ==>
      exists p :: p in c.pending && WrappingSub(x, p.info.seqNum) < Span(p)
    ensures c.tcpState.FinWait2? ==> c.sndUna == c.sndNxt && c.pending == []
  {
    if c.tcpState.SynReceived? {
      assert c.pending[0] in c.pending;
    } else if WrappingSub(x, c.sndUna) < c.InFlight() {
      assert c.pending != [] && Span(c.pending[0]) <= 0x1_0000;
      ChainCovers(c.pending, c.sndNxt, x);
    }
  }

  /** So it is in every run without an antipodal acknowledgment. */
  lemma NothingIsEverForgotten(cfg: Config, syn: TcpSegment, isn: u32, now: int, evs: seq<Event>, x: u32)
    requires NoAntipode(cfg, Birth(syn, isn, now), evs)
    ensures var c := After(cfg, Birth(syn, isn, now), evs).conn;
      && (c.pending == [] <==> c.sndUna == c.sndNxt)
      && (WrappingSub(x, c.sndUna) < c.InFlight() ==>
            exists p :: p in c.pending && WrappingSub(x, p.info.seqNum) < Span(p))
      && (c.tcpState.FinWait2? ==> c.sndUna == c.sndNxt && c.pending == [])
  {
    BirthIsBalanced(syn, isn, now);
    RunsBalance(cfg, Birth(syn, isn, now), evs);
    QueueAlwaysTiles(cfg, syn, isn, now, evs);
    NothingForgotten(After(cfg, Birth(syn, isn, now), evs).conn, x);
  }

  /** The antipode does occur: handshake, then a FIN-ACK out of order acknowledging half the circle
      away, and the reachable connection no longer tiles. */
  lemma AntipodeIsReachable(cfg: Config, syn: TcpSegment, ack: TcpSegment, fin: TcpSegment)
    requires syn.seqNum == 0
    requires ack.flags == Ack && ack.seqNum == 1 && ack.ackNum == 1 && ack.payload == []
    requires fin.flags == FinAck && fin.seqNum == 2 && fin.ackNum == HALF + 1
    ensures !Tiled(After(cfg, Birth(syn, 0, 0), [Arrive(ack, 0), Arrive(fin, 0)]).conn)
  {
    var b := Birth(syn, 0, 0);
    AfterOne(cfg, b, [], Arrive(ack, 0));
    AfterOne(cfg, b, [Arrive(ack, 0)], Arrive(fin, 0));
    assert [] + [Arrive(ack, 0)] == [Arrive(ack, 0)];
    assert [Arrive(ack, 0)] + [Arrive(fin, 0)] == [Arrive(ack, 0), Arrive(fin, 0)];
    var l := Live(cfg, b, Arrive(ack, 0));
    assert l.alive && l.conn == Conn(Established(WindowOf(ack)), 1, 1, 1, [], []);
    AntipodeBreaksTiling(l.conn, fin, 0);
  }
}
