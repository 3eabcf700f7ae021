/** End-to-end echo: against one client stream, every data segment on the wire carries the bytes of
    the stream at the place its sequence number names, first transmission or not. */
module EchoStream {
  import opened SeqSpace
  import opened Wire
  import opened PendingSegments
  import opened State
  import opened Engine
  import opened Connections
  import opened Lives
  import opened Moves
  import opened Conservation
  import opened Lifecycle

  /** `data` starting at sequence number `at` is a piece of `stream`, whose first byte has the
      sequence number after `isn`. */
  predicate IsPiece(stream: Bytes, isn: u32, at: u32, data: Bytes) {
    data != [] ==>
      var k := WrappingSub(at, WrappingAdd(isn, 1));
      k + |data| <= |stream| && data == stream[k..k + |data|]
  }

  /** The incoming segment carries a piece of the client's stream, or no data. */
  predicate Agrees(stream: Bytes, clientIsn: u32, ev: Event) {
    ev.Arrive? && ev.seg.flags in {Ack, FinAck} ==> IsPiece(stream, clientIsn, ev.seg.seqNum, ev.seg.payload)
  }

  predicate Fits(stream: Bytes, isn: u32, info: SendInfo) {
    IsPiece(stream, isn, info.seqNum, info.payload)
  }

  ghost predicate Echoing(stream: Bytes, l: Life) {
    && Balanced(l)
    && l.hist.received <= stream
    && forall p :: p in l.conn.pending ==> Fits(stream, l.hist.isn, p.info)
  }

  lemma PieceAt(stream: Bytes, isn: u32, n: nat)
    requires n <= |stream| < MODULUS
    ensures WrappingSub(Point(isn, 1 + n), WrappingAdd(isn, 1)) == n
  {
    PointAdd(isn, 1, 0);
    PointSub(isn, 1 + n, 1);
    assert WrappingAdd(isn, 1) == Point(isn, 1);
  }

  /** Data taken in order extends the prefix of the stream received so far. */
  lemma TakesNextPiece(stream: Bytes, l: Life, ev: Event, out: seq<SendInfo>)
    requires Echoing(stream, l) && l.alive && |stream| < MODULUS && Agrees(stream, l.hist.clientIsn, ev)
    ensures Observe(l.hist, l.conn, ev, out).received <= stream
  {
    TakesAtRcvNxt(l.hist, l.conn, ev, out);
    if l.hist.received != Observe(l.hist, l.conn, ev, out).received {
      var n := |l.hist.received|;
      PieceAt(stream, l.hist.clientIsn, n);
      assert stream[..n] + stream[n..n + |ev.seg.payload|] == stream[..n + |ev.seg.payload|];
    }
  }

  lemma NewDataFits(stream: Bytes, l: Life, seg: TcpSegment, now: int, o: Outcome)
    requires Echoing(stream, l) && l.alive && |stream| < MODULUS
    requires GoodOutcome(l.conn, seg, o) && Balanced(Later(l, seg, now, o))
    requires Later(l, seg, now, o).hist.received <= stream
    requires o.result.value.Some? && (FinSent(l.conn.tcpState) ==> o.result.value.value.payload == [])
    ensures Fits(stream, l.hist.isn, o.result.value.value)
  {
    var info := o.result.value.value;
    if info.payload != [] {
      var h, k := l.hist, Later(l, seg, now, o).hist;
      HistoryFollows(l, seg, now, o);
      var n := |h.Sent()|;
      PieceAt(stream, h.isn, n);
      assert k.Sent() == h.Sent() + info.payload;
      assert k.Sent() <= k.accepted <= k.received <= stream;
      assert k.Sent()[n..] == info.payload;
      assert stream[n..n + |info.payload|] == info.payload;
    }
  }

  lemma ArrivalEchoes(stream: Bytes, l: Life, seg: TcpSegment, now: int)
    requires Echoing(stream, l) && l.alive && |stream| < MODULUS
    requires Agrees(stream, l.hist.clientIsn, Arrive(seg, now))
    ensures var o := OnSegment(l.conn, seg, now);
      && Echoing(stream, Later(l, seg, now, o))
      && forall info :: info in Replied(o.result) ==> Fits(stream, l.hist.isn, info)
  {
    var o := OnSegment(l.conn, seg, now);
    SegmentOutcome(l.conn, seg, now);
    OutcomeBalances(l, seg, now, o);
    TakesNextPiece(stream, l, Arrive(seg, now), Replied(o.result));
    if FinSent(l.conn.tcpState) {
      RepliesBarely(l.conn, seg, now);
    }
    if o.result.value.Some? {
      NewDataFits(stream, l, seg, now, o);
    }
    SegmentQueue(l.conn, seg, now);
    forall p | p in o.conn.pending
      ensures Fits(stream, l.hist.isn, p.info)
    {
      assert p in KeptQueue(l.conn, seg) || p in Queued(o.result, now);
    }
  }

  lemma TickFits(stream: Bytes, isn: u32, pending: seq<PendingSegment>, rto: RtoConfig, now: int)
    requires forall p :: p in pending ==> Fits(stream, isn, p.info)
    ensures forall p :: p in Resent(pending, rto, now) ==> Fits(stream, isn, p.info)
    ensures forall info :: info in DueInfos(pending, rto, now) ==> Fits(stream, isn, info)
  {
    var r := Resent(pending, rto, now);
    forall p | p in r
      ensures Fits(stream, isn, p.info)
    {
      var i :| 0 <= i < |r| && r[i] == p;
      assert pending[i] in pending && pending[i].info == p.info;
    }
    forall info | info in DueInfos(pending, rto, now)
      ensures Fits(stream, isn, info)
    {
      DueInfosArePending(pending, rto, now, info);
    }
  }

  lemma TickEchoes(stream: Bytes, cfg: Config, l: Life, now: int)
    requires Echoing(stream, l) && l.alive
    ensures Echoing(stream, Live(cfg, l, Timer(now)))
    ensures forall info :: info in Sends(cfg, l, Timer(now)) ==> Fits(stream, l.hist.isn, info)
  {
    TickFits(stream, l.hist.isn, l.conn.pending, cfg.rto, now);
    StepBalances(cfg, l, Timer(now));
  }

  lemma CloseEchoes(stream: Bytes, cfg: Config, l: Life, now: int)
    requires Echoing(stream, l) && l.alive
    ensures Echoing(stream, Live(cfg, l, CloseCall(now)))
    ensures forall info :: info in Sends(cfg, l, CloseCall(now)) ==> Fits(stream, l.hist.isn, info)
  {
    CloseBalances(cfg, l, now);
  }

  lemma StepEchoes(stream: Bytes, cfg: Config, l: Life, ev: Event)
    requires Echoing(stream, l) && |stream| < MODULUS && Agrees(stream, l.hist.clientIsn, ev)
    ensures Echoing(stream, Live(cfg, l, ev))
    ensures forall info :: info in Sends(cfg, l, ev) ==> Fits(stream, l.hist.isn, info)
  {
    if l.alive {
      match ev
      case Arrive(seg, now) => ArrivalEchoes(stream, l, seg, now);
      case CloseCall(now) => CloseEchoes(stream, cfg, l, now);
      case Timer(now) => TickEchoes(stream, cfg, l, now);
    }
  }

  lemma IsnsStay(cfg: Config, l: Life, ev: Event)
    ensures Live(cfg, l, ev).hist.clientIsn == l.hist.clientIsn && Live(cfg, l, ev).hist.isn == l.hist.isn
  {
  }

  lemma {:induction false} RunsEcho(stream: Bytes, cfg: Config, l: Life, evs: seq<Event>)
    requires Echoing(stream, l) && |stream| < MODULUS
    requires forall i :: 0 <= i < |evs| ==> Agrees(stream, l.hist.clientIsn, evs[i])
    ensures var k := After(cfg, l, evs);
      Echoing(stream, k) && k.hist.clientIsn == l.hist.clientIsn && k.hist.isn == l.hist.isn
  {
    if evs != [] {
      RunsEcho(stream, cfg, l, evs[..|evs| - 1]);
      StepEchoes(stream, cfg, After(cfg, l, evs[..|evs| - 1]), evs[|evs| - 1]);
      IsnsStay(cfg, After(cfg, l, evs[..|evs| - 1]), evs[|evs| - 1]);
    }
  }

  /** The echo theorem. Segments may be lost, repeated and reordered at will; if their data comes
      from one client stream shorter than 2^32 bytes, then whatever step the run takes next, each
      data segment it puts on the wire at ISN + 1 + k, new or retransmitted, carries the bytes of
      the stream from k on, and all bytes sent so far are a prefix of the stream. */
  lemma EchoesTheStream(stream: Bytes, cfg: Config, syn: TcpSegment, isn: u32, now: int, evs: seq<Event>, ev: Event)
    requires |stream| < MODULUS
    requires forall i :: 0 <= i < |evs| ==> Agrees(stream, syn.seqNum, evs[i])
    requires Agrees(stream, syn.seqNum, ev)
    ensures var l := After(cfg, Birth(syn, isn, now), evs);
      && l.hist.Sent() <= stream
      && forall info :: info in Sends(cfg, l, ev) ==> IsPiece(stream, isn, info.seqNum, info.payload)
  {
    var b := Birth(syn, isn, now);
    BirthIsBalanced(syn, isn, now);
    RunsEcho(stream, cfg, b, evs);
    var l := After(cfg, b, evs);
    StepEchoes(stream, cfg, l, ev);
    assert l.hist.Sent() <= l.hist.accepted <= l.hist.received <= stream;
    forall info | info in Sends(cfg, l, ev)
      ensures IsPiece(stream, isn, info.seqNum, info.payload)
    {
      assert Fits(stream, l.hist.isn, info);
    }
  }
}
