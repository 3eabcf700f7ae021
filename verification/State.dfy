/** Connection state, ACK processing and flow control (src/protocol/tcp/state.rs). */
module State {
  import opened SeqSpace
  import opened Wire
  import opened PendingSegments

  /** SND.WND, SND.WL1 and SND.WL2. */
  datatype Window = Window(wnd: u16, wl1: u32, wl2: u32)

  datatype TcpState =
    | SynReceived
    | Established(window: Window)
    | FinWait1(window: Window)
    | FinWait2(window: Window)
    | Closing(window: Window)
    | LastAck(window: Window)

  /** Mid-close: our FIN has been sent. */
  predicate FinSent(s: TcpState) {
    s.FinWait1? || s.FinWait2? || s.Closing? || s.LastAck?
  }

  /** The value of a `ConnState`. */
  datatype Conn = Conn(
    tcpState: TcpState,
    sndNxt: u32,
    rcvNxt: u32,
    sndUna: u32,
    pending: seq<PendingSegment>,
    sendBuffer: Bytes)
  {
    /** Sequence numbers sent and not yet acknowledged. */
    function InFlight(): u32 { WrappingSub(sndNxt, sndUna) }
  }

  /** The window a handshake-completing or acceptable segment carries. */
  function WindowOf(seg: TcpSegment): Window {
    Window(seg.window, seg.seqNum, seg.ackNum)
  }

  function FromSynAck(info: SendInfo, now: int): Result<Conn> {
    if info.flags == SynAck then
      Ok(Conn(SynReceived, WrappingAdd(info.seqNum, 1), info.ackNum, info.seqNum, [NewPending(info, now)], []))
    else
      Err(NotSynAck)
  }

  /** `Vec::retain` of the segments `ack` does not fully cover. */
  function Retain(pending: seq<PendingSegment>, ack: u32): (kept: seq<PendingSegment>)
    ensures |kept| <= |pending|
    ensures forall p :: p in kept <==> p in pending && !IsCoveredBy(p, ack)
  {
    if pending == [] then []
    else
      var rest := Retain(pending[1..], ack);
      if IsCoveredBy(pending[0], ack) then rest else [pending[0]] + rest
  }

  /** SND.UNA and the queue after an incoming acknowledgment. */
  function AckedConn(c: Conn, ack: u32): Conn {
    if AckInFlight(c.sndUna, ack, c.sndNxt) && Precedes(c.sndUna, ack) then
      c.(sndUna := ack, pending := Retain(c.pending, ack))
    else
      c
  }

  /** SND.WL1 < SEG.SEQ, or SND.WL1 == SEG.SEQ and SND.WL2 <= SEG.ACK. */
  predicate IsFresh(w: Window, seg: TcpSegment) {
    Precedes(w.wl1, seg.seqNum) || (w.wl1 == seg.seqNum && PrecedesOrEq(w.wl2, seg.ackNum))
  }

  /** The send window after an incoming acknowledgment on `c`. */
  function AckedWindow(c: Conn, w: Window, seg: TcpSegment): Window {
    if AckInFlight(c.sndUna, seg.ackNum, c.sndNxt) && IsFresh(w, seg) then WindowOf(seg) else w
  }

  /** How many buffered bytes the window allows right now. */
  function Transmittable(c: Conn, w: Window): (n: nat)
    ensures n <= |c.sendBuffer| && n <= w.wnd
    ensures n > 0 ==> c.InFlight() + n <= w.wnd
    ensures n == |c.sendBuffer| || c.InFlight() + n >= w.wnd
  {
    var space := SaturatingSub(w.wnd, c.InFlight());
    if space <= |c.sendBuffer| then space else |c.sendBuffer|
  }

  datatype DrainOutcome = DrainOutcome(conn: Conn, result: Result<Payload>)

  function Drain(c: Conn, w: Window): (d: DrainOutcome)
    ensures d.result.Ok? <==> c.InFlight() <= HALF
    ensures d.result.Ok? ==> d.result.value + d.conn.sendBuffer == c.sendBuffer
  {
    if !PrecedesOrEq(c.sndUna, c.sndNxt) then
      DrainOutcome(c, Err(UnaPastNxt))
    else
      var n := Transmittable(c, w);
      DrainOutcome(c.(sendBuffer := c.sendBuffer[n..]), TryPayload(c.sendBuffer[..n]))
  }

  /** The mutable connection record. */
  class ConnState {
    var tcpState: TcpState
    var sndNxt: u32
    var rcvNxt: u32
    var sndUna: u32
    var pending: seq<PendingSegment>
    var sendBuffer: Bytes

    ghost function View(): Conn
      reads this
    {
      Conn(tcpState, sndNxt, rcvNxt, sndUna, pending, sendBuffer)
    }

    /** `ConnState::from_syn_ack`, once the flags are known to be SYN-ACK. */
    constructor OfSynAck(info: SendInfo, now: int)
      requires info.flags == SynAck
      ensures FromSynAck(info, now) == Ok(View())
    {
      tcpState := SynReceived;
      sndNxt := WrappingAdd(info.seqNum, 1);
      rcvNxt := info.ackNum;
      sndUna := info.seqNum;
      pending := [NewPending(info, now)];
      sendBuffer := [];
    }
  }

  /** `ConnState::from_syn_ack`. */
  method OpenConnection(info: SendInfo, now: int) returns (r: Result<ConnState>)
    ensures r.Err? <==> FromSynAck(info, now).Err?
    ensures r.Err? ==> r.error == NotSynAck
    ensures r.Ok? ==> fresh(r.value) && FromSynAck(info, now) == Ok(r.value.View())
  {
    if info.flags != SynAck {
      return Err(NotSynAck);
    }
    var conn := new ConnState.OfSynAck(info, now);
    r := Ok(conn);
  }

  /** `SyncedState::incoming_ack_update`: changes `conn` in place, returns the new window. */
  method IncomingAckUpdate(window: Window, conn: ConnState, seg: TcpSegment) returns (updated: Window)
    modifies conn
    ensures conn.View() == AckedConn(old(conn.View()), seg.ackNum)
    ensures updated == AckedWindow(old(conn.View()), window, seg)
  {
    updated := window;
    if PrecedesOrEq(conn.sndUna, seg.ackNum) && PrecedesOrEq(seg.ackNum, conn.sndNxt) {
      if Precedes(conn.sndUna, seg.ackNum) {
        conn.sndUna := seg.ackNum;
        conn.pending := Retain(conn.pending, seg.ackNum);
      }
      if Precedes(window.wl1, seg.seqNum) || (window.wl1 == seg.seqNum && PrecedesOrEq(window.wl2, seg.ackNum)) {
        updated := WindowOf(seg);
      }
    }
  }

  /** `SyncedState::drain_transmittable`. */
  method DrainTransmittable(window: Window, conn: ConnState) returns (toSend: Result<Payload>)
    modifies conn
    ensures Drain(old(conn.View()), window) == DrainOutcome(conn.View(), toSend)
  {
    if !PrecedesOrEq(conn.sndUna, conn.sndNxt) {
      return Err(UnaPastNxt);
    }
    var sentButNotAcked := WrappingSub(conn.sndNxt, conn.sndUna);
    var space := SaturatingSub(window.wnd, sentButNotAcked);
    var n := if space <= |conn.sendBuffer| then space else |conn.sendBuffer|;
    toSend := TryPayload(conn.sendBuffer[..n]);
    conn.sendBuffer := conn.sendBuffer[n..];
  }
}
