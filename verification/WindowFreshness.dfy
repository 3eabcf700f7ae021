/** Window freshness: the send window in force is the one of the newest acceptable segment, by
    sequence number and then acknowledgment number, however segments are reordered. */
module WindowFreshness {
  import opened SeqSpace
  import opened Wire
  import opened State
  import opened Engine
  import opened Connections
  import opened Lives
  import opened Moves
  import opened Conservation

  /** Half-open ranges of 2^31 sequence and acknowledgment numbers. */
  datatype Ranges = Ranges(seqBase: u32, ackBase: u32)

  predicate Within(r: Ranges, samples: seq<Window>) {
    forall i :: 0 <= i < |samples| ==>
      && WrappingSub(samples[i].wl1, r.seqBase) < HALF
      && WrappingSub(samples[i].wl2, r.ackBase) < HALF
  }

  /** Lexicographic order of (SEQ, ACK) as integers. */
  predicate NotNewer(r: Ranges, a: Window, b: Window) {
    var sa, sb := WrappingSub(a.wl1, r.seqBase), WrappingSub(b.wl1, r.seqBase);
    sa < sb || (sa == sb && WrappingSub(a.wl2, r.ackBase) <= WrappingSub(b.wl2, r.ackBase))
  }

  /** The latest of the lexicographically greatest samples. */
  predicate IsNewest(r: Ranges, samples: seq<Window>, i: nat) {
    && i < |samples|
    && forall j :: 0 <= j < |samples| ==>
         NotNewer(r, samples[j], samples[i]) && (i < j ==> !NotNewer(r, samples[i], samples[j]))
  }

  ghost predicate InForce(r: Ranges, c: Conn, samples: seq<Window>) {
    if c.tcpState.SynReceived? then samples == []
    else exists i: nat :: IsNewest(r, samples, i) && c.tcpState.window == samples[i]
  }

  lemma FreshIsNotOlder(r: Ranges, w: Window, seg: TcpSegment)
    requires Within(r, [w, WindowOf(seg)])
    ensures IsFresh(w, seg) <==> NotNewer(r, w, WindowOf(seg))
  {
    assert WindowOf(seg) == [w, WindowOf(seg)][1];
    assert w == [w, WindowOf(seg)][0];
  }

  lemma OneMoreSample(r: Ranges, samples: seq<Window>, i: nat, seg: TcpSegment)
    requires IsNewest(r, samples, i) && Within(r, samples + [WindowOf(seg)])
    ensures IsNewest(r, samples + [WindowOf(seg)], if IsFresh(samples[i], seg) then |samples| else i)
  {
    var more := samples + [WindowOf(seg)];
    assert more[|samples|] == WindowOf(seg) && more[i] == samples[i];
    FreshIsNotOlder(r, samples[i], seg);
    forall j | 0 <= j < |samples|
      ensures more[j] == samples[j] && NotNewer(r, more[j], samples[i])
    {
    }
  }

  /** How a segment may change the window in force. */
  predicate WindowStep(c: Conn, seg: TcpSegment, d: Conn) {
    if c.tcpState.SynReceived? then
      if OffersWindow(c, seg) then !d.tcpState.SynReceived? && d.tcpState.window == WindowOf(seg)
      else d.tcpState.SynReceived?
    else
      && !d.tcpState.SynReceived?
      && d.tcpState.window ==
         if OffersWindow(c, seg) && IsFresh(c.tcpState.window, seg) then WindowOf(seg) else c.tcpState.window
  }

  lemma EstablishedWindow(c: Conn, w: Window, seg: TcpSegment, now: int)
    requires Sound(c) && c.tcpState == Established(w) && seg.flags in {Ack, FinAck}
    ensures WindowStep(c, seg, OnEstablished(c, w, seg, now).conn)
  {
    var window := AckedWindow(c, w, seg);
    var acked := AckedConn(c, seg.ackNum).(tcpState := Established(window));
    AckKeepsBound(c, seg.ackNum);
    if seg.flags == Ack && seg.payload == [] {
      EchoConserves(acked, window, false, now);
    } else if seg.flags == Ack {
      EchoConserves(Buffered(acked, seg.payload), window, true, now);
    } else {
      PassiveCloseConserves(c, w, seg, now);
    }
  }

  lemma SynReceivedWindow(c: Conn, seg: TcpSegment, now: int)
    requires Sound(c) && c.tcpState.SynReceived?
    ensures WindowStep(c, seg, OnSynReceived(c, seg, now).conn)
  {
    if seg.flags in {Ack, FinAck} && CompletesHandshake(c, seg) {
      var h := Handshaken(c, seg);
      assert h.InFlight() == 0;
      if seg.flags == Ack {
        EchoConserves(Buffered(h, seg.payload), WindowOf(seg), true, now);
      } else {
        PassiveCloseConserves(h, WindowOf(seg), seg, now);
      }
    }
  }

  lemma SegmentWindow(c: Conn, seg: TcpSegment, now: int)
    requires Sound(c)
    ensures WindowStep(c, seg, OnSegment(c, seg, now).conn)
  {
    if seg.flags in {Ack, FinAck} || (c.tcpState.SynReceived? && seg.flags in {Syn, SynAck}) {
      match c.tcpState
      case SynReceived => SynReceivedWindow(c, seg, now);
      case Established(w) => EstablishedWindow(c, w, seg, now);
      case _ =>
    }
  }

  lemma WindowStepKeepsNewest(r: Ranges, c: Conn, samples: seq<Window>, seg: TcpSegment, d: Conn)
    requires InForce(r, c, samples) && WindowStep(c, seg, d)
    requires OffersWindow(c, seg) ==> Within(r, samples + [WindowOf(seg)])
    ensures InForce(r, d, if OffersWindow(c, seg) then samples + [WindowOf(seg)] else samples)
  {
    if OffersWindow(c, seg) {
      var more := samples + [WindowOf(seg)];
      if c.tcpState.SynReceived? {
        assert IsNewest(r, more, 0);
      } else {
        var i: nat :| IsNewest(r, samples, i) && c.tcpState.window == samples[i];
        OneMoreSample(r, samples, i, seg);
      }
    }
  }

  lemma StepKeepsNewest(cfg: Config, r: Ranges, l: Life, ev: Event)
    requires Balanced(l) && InForce(r, l.conn, l.hist.samples)
    requires Within(r, Live(cfg, l, ev).hist.samples)
    ensures InForce(r, Live(cfg, l, ev).conn, Live(cfg, l, ev).hist.samples)
  {
    if l.alive && ev.Arrive? {
      SegmentWindow(l.conn, ev.seg, ev.now);
      WindowStepKeepsNewest(r, l.conn, l.hist.samples, ev.seg, OnSegment(l.conn, ev.seg, ev.now).conn);
    }
  }

  lemma SamplesGrow(cfg: Config, l: Life, ev: Event)
    ensures l.hist.samples <= Live(cfg, l, ev).hist.samples
  {
  }

  lemma {:induction false} RunsKeepNewest(cfg: Config, r: Ranges, l: Life, evs: seq<Event>)
    requires Balanced(l) && InForce(r, l.conn, l.hist.samples)
    requires Within(r, After(cfg, l, evs).hist.samples)
    ensures InForce(r, After(cfg, l, evs).conn, After(cfg, l, evs).hist.samples)
  {
    if evs != [] {
      var k := After(cfg, l, evs[..|evs| - 1]);
      SamplesGrow(cfg, k, evs[|evs| - 1]);
      RunsKeepNewest(cfg, r, l, evs[..|evs| - 1]);
      RunsBalance(cfg, l, evs[..|evs| - 1]);
      StepKeepsNewest(cfg, r, k, evs[|evs| - 1]);
    }
  }

  /** In every run whose acceptable segments span less than 2^31 sequence numbers and less than
      2^31 acknowledgment numbers, SND.WND in force comes from the newest of them, latest on ties. */
  lemma WindowIsNewest(cfg: Config, r: Ranges, syn: TcpSegment, isn: u32, now: int, evs: seq<Event>)
    requires Within(r, After(cfg, Birth(syn, isn, now), evs).hist.samples)
    ensures var l := After(cfg, Birth(syn, isn, now), evs);
      if l.conn.tcpState.SynReceived? then l.hist.samples == []
      else exists i: nat :: IsNewest(r, l.hist.samples, i) && l.conn.tcpState.window == l.hist.samples[i]
  {
    BirthIsBalanced(syn, isn, now);
    RunsKeepNewest(cfg, r, Birth(syn, isn, now), evs);
  }
}
