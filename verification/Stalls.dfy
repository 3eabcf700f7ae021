/** When buffered bytes are left waiting although the window has room: an acknowledgment out of order
    opens the window but drains nothing. */
module Stalls {
  import opened SeqSpace
  import opened Wire
  import opened State
  import opened Engine
  import opened Connections
  import opened Lives
  import opened Moves
  import opened Conservation
  import opened Lifecycle
  import opened FlowControl
  import opened DrainSizes

  /** While the send side is open, nothing waits that the window has room for. */
  predicate Flowing(c: Conn) {
    c.tcpState.Established? ==> c.sendBuffer == [] || c.InFlight() >= c.tcpState.window.wnd
  }

  /** `seg` makes room for bytes that wait, but does not drain them. */
  predicate LeavesWaiting(c: Conn, seg: TcpSegment) {
    c.tcpState.Established? && ProcessesAck(c, seg) && !Drains(c, seg) && c.sendBuffer != [] && Room(c, seg) > 0
  }

  lemma DrainKeepsFlowing(c: Conn, seg: TcpSegment, now: int)
    requires Sound(c) && Drains(c, seg)
    ensures Flowing(OnSegment(c, seg, now).conn)
  {
    SegmentFlow(c, seg, now);
  }

  lemma OutOfOrderFlowsIff(c: Conn, seg: TcpSegment, now: int)
    requires Flowing(c) && c.tcpState.Established? && !Drains(c, seg)
    ensures Flowing(OnSegment(c, seg, now).conn) <==> !LeavesWaiting(c, seg)
  {
  }

  /** Any segment keeps the data flowing if and only if it does not open the window out of order, on a
      connection with bytes waiting. */
  lemma KeepsFlowingIff(c: Conn, seg: TcpSegment, now: int)
    requires Sound(c) && Flowing(c)
    ensures Flowing(OnSegment(c, seg, now).conn) <==> !LeavesWaiting(c, seg)
  {
    if Drains(c, seg) {
      DrainKeepsFlowing(c, seg, now);
    } else if c.tcpState.Established? {
      OutOfOrderFlowsIff(c, seg, now);
    } else if c.tcpState.SynReceived? {
      StaysInHandshake(c, seg, now);
    } else {
      RepliesBarely(c, seg, now);
    }
  }

  /** No segment of the run opens the window out of order on waiting bytes. */
  predicate NoneLeftWaiting(cfg: Config, l: Life, evs: seq<Event>) {
    evs == [] ||
    (var ev := evs[|evs| - 1];
     && NoneLeftWaiting(cfg, l, evs[..|evs| - 1])
     && (ev.Arrive? ==> !LeavesWaiting(After(cfg, l, evs[..|evs| - 1]).conn, ev.seg)))
  }

  lemma StepKeepsFlowing(cfg: Config, l: Life, ev: Event)
    requires Balanced(l) && Flowing(l.conn) && (ev.Arrive? ==> !LeavesWaiting(l.conn, ev.seg))
    ensures Flowing(Live(cfg, l, ev).conn)
  {
    if l.alive && ev.Arrive? {
      KeepsFlowingIff(l.conn, ev.seg, ev.now);
    }
  }

  lemma {:induction false} RunsKeepFlowing(cfg: Config, l: Life, evs: seq<Event>)
    requires Balanced(l) && Flowing(l.conn) && NoneLeftWaiting(cfg, l, evs)
    ensures Flowing(After(cfg, l, evs).conn)
  {
    if evs != [] {
      var before := evs[..|evs| - 1];
      RunsKeepFlowing(cfg, l, before);
      RunsBalance(cfg, l, before);
      StepKeepsFlowing(cfg, After(cfg, l, before), evs[|evs| - 1]);
    }
  }

  /** In every run without such a segment, bytes wait only while the window is full. */
  lemma BytesWaitOnlyForTheWindow(cfg: Config, syn: TcpSegment, isn: u32, now: int, evs: seq<Event>)
    requires NoneLeftWaiting(cfg, Birth(syn, isn, now), evs)
    ensures Flowing(After(cfg, Birth(syn, isn, now), evs).conn)
  {
    BirthIsBalanced(syn, isn, now);
    RunsKeepFlowing(cfg, Birth(syn, isn, now), evs);
  }

  /** With nothing pending, the timer never gets the bytes out either: they wait for the peer's next
      segment, however long that takes. */
  lemma {:induction false} TimerDoesNotHelp(cfg: Config, l: Life, evs: seq<Event>, now: int)
    requires l.conn.pending == [] && l.alive && forall i :: 0 <= i < |evs| ==> evs[i].Timer?
    ensures After(cfg, l, evs) == l && Sends(cfg, l, Timer(now)) == []
  {
    NothingDueNothingChanges(cfg, l.conn, now);
    if evs != [] {
      TimerDoesNotHelp(cfg, l, evs[..|evs| - 1], now);
      NothingDueNothingChanges(cfg, l.conn, evs[|evs| - 1].now);
    }
  }
}
