/** Reply logic of a single connection (src/protocol/tcp/send_info.rs): first as a function of
    the connection's value, then as the methods that change a `ConnState` in place. */
module Engine {
  import opened SeqSpace
  import opened Wire
  import opened PendingSegments
  import opened State

  function PureAck(c: Conn): SendInfo {
    SendInfo(c.sndNxt, c.rcvNxt, Ack, [])
  }

  function Reset(seg: TcpSegment): SendInfo {
    SendInfo(seg.ackNum, 0, Rst, [])
  }

  /** What a handler leaves behind: the connection, the reply, and whether to drop the connection. */
  datatype Outcome = Outcome(conn: Conn, result: Result<Option<SendInfo>>, remove: bool)

  function Silent(c: Conn): Outcome { Outcome(c, Ok(None), false) }

  function Replies(c: Conn, info: SendInfo): Outcome { Outcome(c, Ok(Some(info)), false) }

  /** Takes the payload of `seg` into the echo buffer. */
  function Buffered(c: Conn, payload: Payload): Conn {
    c.(rcvNxt := WrappingAdd(c.rcvNxt, |payload|), sendBuffer := c.sendBuffer + payload)
  }

  /** Sends a segment that consumes sequence numbers: advances SND.NXT and queues it. */
  function Launched(c: Conn, info: SendInfo, now: int): Conn {
    c.(sndNxt := WrappingAdd(c.sndNxt, Consumed(info)), pending := c.pending + [NewPending(info, now)])
  }

  /** Drains what the window allows; with nothing to send, replies with a pure ACK if asked to. */
  function Echo(c: Conn, w: Window, ackIfIdle: bool, now: int): Outcome {
    var d := Drain(c, w);
    if d.result.Err? then
      Outcome(d.conn, Err(d.result.error), false)
    else if d.result.value == [] then
      if ackIfIdle then Replies(d.conn, PureAck(d.conn)) else Silent(d.conn)
    else
      var info := SendInfo(c.sndNxt, c.rcvNxt, Ack, d.result.value);
      Replies(Launched(d.conn, info, now), info)
  }

  /** Takes the payload of `seg` into the echo buffer, and its FIN. */
  function BufferedFin(c: Conn, payload: Payload): Conn {
    c.(rcvNxt := WrappingAdd(WrappingAdd(c.rcvNxt, |payload|), 1), sendBuffer := c.sendBuffer + payload)
  }

  /** ESTABLISHED straight to LAST-ACK, with as much data as the window allows on the FIN. */
  function PassiveClose(c: Conn, w: Window, seg: TcpSegment, now: int): Outcome {
    var received := BufferedFin(c, seg.payload);
    var acked := AckedConn(received, seg.ackNum);
    var window := AckedWindow(received, w, seg);
    var d := Drain(acked, window);
    if d.result.Err? then
      Outcome(d.conn, Err(d.result.error), false)
    else
      var info := SendInfo(acked.sndNxt, acked.rcvNxt, FinAck, d.result.value);
      Replies(Launched(d.conn.(tcpState := LastAck(window)), info, now), info)
  }

  /** SND.UNA < SEG.ACK <= SND.NXT and SEG.SEQ == RCV.NXT. */
  predicate CompletesHandshake(c: Conn, seg: TcpSegment) {
    && seg.seqNum == c.rcvNxt
    && Precedes(c.sndUna, seg.ackNum)
    && PrecedesOrEq(seg.ackNum, c.sndNxt)
  }

  function Handshaken(c: Conn, seg: TcpSegment): Conn {
    c.(tcpState := Established(WindowOf(seg)), rcvNxt := seg.seqNum, sndUna := seg.ackNum, pending := [])
  }

  function OnSynReceived(c: Conn, seg: TcpSegment, now: int): Outcome {
    if seg.flags == Syn then
      var info := SendInfo(c.sndUna, WrappingAdd(seg.seqNum, 1), SynAck, []);
      Replies(c.(pending := c.pending + [NewPending(info, now)]), info)
    else if seg.flags in {Ack, FinAck} && seg.seqNum != c.rcvNxt then
      Replies(c, PureAck(c))
    else if seg.flags == Ack && CompletesHandshake(c, seg) then
      var h := Handshaken(c, seg);
      if seg.payload == [] then Silent(h) else Echo(Buffered(h, seg.payload), WindowOf(seg), true, now)
    else if seg.flags == FinAck && CompletesHandshake(c, seg) then
      PassiveClose(Handshaken(c, seg), WindowOf(seg), seg, now)
    else
      Replies(c, Reset(seg))
  }

  function OnEstablished(c: Conn, w: Window, seg: TcpSegment, now: int): Outcome {
    var window := AckedWindow(c, w, seg);
    var acked := AckedConn(c, seg.ackNum).(tcpState := Established(window));
    if seg.flags == Ack && Precedes(c.sndNxt, seg.ackNum) then
      Replies(c, PureAck(c))
    else if seg.flags == Ack && seg.payload == [] then
      Echo(acked, window, false, now)
    else if seg.flags == Ack && seg.seqNum == c.rcvNxt then
      Echo(Buffered(acked, seg.payload), window, true, now)
    else if seg.flags in {Ack, FinAck} && seg.seqNum != c.rcvNxt then
      Replies(acked, PureAck(acked))
    else if seg.flags == FinAck then
      PassiveClose(c, w, seg, now)
    else
      Replies(c, Reset(seg))
  }

  /** Takes the payload of `seg` without echoing it. */
  function Absorbed(c: Conn, payload: Payload): Conn {
    c.(rcvNxt := WrappingAdd(c.rcvNxt, |payload|))
  }

  /** Takes the payload and the FIN of `seg` without echoing. */
  function AbsorbedFin(c: Conn, payload: Payload): Conn {
    c.(rcvNxt := WrappingAdd(WrappingAdd(c.rcvNxt, |payload|), 1))
  }

  function OnFinWait1(c: Conn, w: Window, seg: TcpSegment): Outcome {
    var window := AckedWindow(c, w, seg);
    if seg.flags == Ack && seg.payload != [] && seg.seqNum == c.rcvNxt then
      var a := Absorbed(c, seg.payload);
      Replies(AckedConn(a, seg.ackNum).(tcpState := FinWait1(window)), PureAck(a))
    else if seg.flags == Ack && seg.payload == [] && seg.ackNum == c.sndNxt then
      Silent(AckedConn(c, seg.ackNum).(tcpState := FinWait2(window)))
    else if seg.flags == FinAck && seg.seqNum == c.rcvNxt then
      var a := AbsorbedFin(c, seg.payload);
      if seg.ackNum == c.sndNxt then
        Outcome(a, Ok(Some(PureAck(a))), true)
      else
        Replies(AckedConn(a, seg.ackNum).(tcpState := Closing(window)), PureAck(a))
    else
      Replies(c, Reset(seg))
  }

  function OnFinWait2(c: Conn, w: Window, seg: TcpSegment): Outcome {
    if seg.flags == Ack && seg.payload != [] && seg.seqNum == c.rcvNxt then
      var a := Absorbed(c, seg.payload);
      Replies(AckedConn(a, seg.ackNum).(tcpState := FinWait2(AckedWindow(a, w, seg))), PureAck(a))
    else if seg.flags == FinAck && seg.seqNum == c.rcvNxt then
      var a := AbsorbedFin(c, seg.payload);
      Outcome(a, Ok(Some(PureAck(a))), true)
    else
      Replies(c, Reset(seg))
  }

  function OnClosing(c: Conn, seg: TcpSegment): Outcome {
    if seg.flags == Ack && seg.payload == [] && seg.ackNum == c.sndNxt then
      Outcome(c, Ok(None), true)
    else
      Replies(c, Reset(seg))
  }

  function OnLastAck(c: Conn, w: Window, seg: TcpSegment): Outcome {
    if seg.flags == Ack && seg.payload == [] then
      if seg.ackNum == c.sndNxt then
        Outcome(c, Ok(None), true)
      else
        Silent(AckedConn(c, seg.ackNum).(tcpState := LastAck(AckedWindow(c, w, seg))))
    else
      Replies(c, Reset(seg))
  }

  function OnReset(c: Conn, seg: TcpSegment): Outcome {
    if seg.seqNum == c.rcvNxt then
      Outcome(c, Ok(None), true)
    else if InReceiveWindow(c.rcvNxt, seg.seqNum) then
      Replies(c, PureAck(c))
    else
      Silent(c)
  }

  /** The reply to `seg` on a connection that is in the table. */
  function OnSegment(c: Conn, seg: TcpSegment, now: int): Outcome {
    if seg.flags in {Rst, RstAck} then
      OnReset(c, seg)
    else if seg.flags in {Syn, SynAck} && !c.tcpState.SynReceived? then
      Replies(c, PureAck(c))
    else
      match c.tcpState
      case SynReceived => OnSynReceived(c, seg, now)
      case Established(w) => OnEstablished(c, w, seg, now)
      case FinWait1(w) => OnFinWait1(c, w, seg)
      case FinWait2(w) => OnFinWait2(c, w, seg)
      case Closing(_) => OnClosing(c, seg)
      case LastAck(w) => OnLastAck(c, w, seg)
  }

  /** Active close of an ESTABLISHED connection; every other state ignores it. */
  function OnClose(c: Conn, now: int): (r: (Conn, seq<SendInfo>)) {
    if c.tcpState.Established? then
      var info := SendInfo(c.sndNxt, c.rcvNxt, FinAck, []);
      (Launched(c.(tcpState := FinWait1(c.tcpState.window)), info, now), [info])
    else
      (c, [])
  }

  // ---------------------------------------------------------------------------------------------
  // The methods, changing a `ConnState` in place.

  /** `complete_handshake`. */
  method CompleteHandshake(seg: TcpSegment, conn: ConnState) returns (established: Window)
    modifies conn
    ensures conn.View() == Handshaken(old(conn.View()), seg)
    ensures established == WindowOf(seg)
  {
    established := WindowOf(seg);
    conn.tcpState := Established(established);
    conn.rcvNxt := seg.seqNum;
    conn.sndUna := seg.ackNum;
    conn.pending := [];
  }

  /** `data_payload`. */
  method DataPayload(conn: ConnState, toSend: Payload, now: int) returns (info: SendInfo)
    modifies conn
    ensures info == SendInfo(old(conn.sndNxt), old(conn.rcvNxt), Ack, toSend)
    ensures conn.View() == Launched(old(conn.View()), info, now)
  {
    info := SendInfo(conn.sndNxt, conn.rcvNxt, Ack, toSend);
    conn.sndNxt := WrappingAdd(conn.sndNxt, |toSend|);
    conn.pending := conn.pending + [NewPending(info, now)];
  }

  /** The receive side of the passive close. */
  method TakeDataAndFin(seg: TcpSegment, conn: ConnState)
    modifies conn
    ensures conn.View() == BufferedFin(old(conn.View()), seg.payload)
  {
    if seg.payload != [] {
      conn.rcvNxt := WrappingAdd(conn.rcvNxt, |seg.payload|);
      conn.sendBuffer := conn.sendBuffer + seg.payload;
    }
    conn.rcvNxt := WrappingAdd(conn.rcvNxt, 1);
  }

  /** The send side of the passive close. */
  method SendFin(conn: ConnState, window: Window, toSend: Payload, now: int) returns (info: SendInfo)
    modifies conn
    ensures info == SendInfo(old(conn.sndNxt), old(conn.rcvNxt), FinAck, toSend)
    ensures conn.View() == Launched(old(conn.View()).(tcpState := LastAck(window)), info, now)
  {
    conn.tcpState := LastAck(window);
    info := SendInfo(conn.sndNxt, conn.rcvNxt, FinAck, toSend);
    conn.sndNxt := WrappingAdd(conn.sndNxt, |toSend|);
    conn.sndNxt := WrappingAdd(conn.sndNxt, 1);
    conn.pending := conn.pending + [NewPending(info, now)];
  }

  /** `begin_passive_close_without_close_wait`. */
  method BeginPassiveClose(seg: TcpSegment, conn: ConnState, established: Window, now: int)
    returns (reply: Result<Option<SendInfo>>)
    modifies conn
    ensures PassiveClose(old(conn.View()), established, seg, now) == Outcome(conn.View(), reply, false)
  {
    TakeDataAndFin(seg, conn);
    var window := IncomingAckUpdate(established, conn, seg);
    var drained := DrainTransmittable(window, conn);
    if drained.Err? {
      return Err(drained.error);
    }
    var info := SendFin(conn, window, drained.value, now);
    reply := Ok(Some(info));
  }

  /** The tail shared by the arms that drain the buffer and echo. */
  method DrainAndEcho(conn: ConnState, window: Window, ackIfIdle: bool, now: int)
    returns (reply: Result<Option<SendInfo>>)
    modifies conn
    ensures Echo(old(conn.View()), window, ackIfIdle, now) == Outcome(conn.View(), reply, false)
  {
    var drained := DrainTransmittable(window, conn);
    if drained.Err? {
      return Err(drained.error);
    }
    if drained.value != [] {
      var info := DataPayload(conn, drained.value, now);
      return Ok(Some(info));
    }
    reply := if ackIfIdle then Ok(Some(SendInfo(conn.sndNxt, conn.rcvNxt, Ack, []))) else Ok(None);
  }

  /** `handle_syn_rcv`. */
  method HandleSynRcv(seg: TcpSegment, conn: ConnState, now: int) returns (reply: Result<Option<SendInfo>>)
    modifies conn
    ensures OnSynReceived(old(conn.View()), seg, now) == Outcome(conn.View(), reply, false)
  {
    if seg.flags == Syn {
      var info := SendInfo(conn.sndUna, WrappingAdd(seg.seqNum, 1), SynAck, []);
      conn.pending := conn.pending + [NewPending(info, now)];
      return Ok(Some(info));
    } else if seg.flags in {Ack, FinAck} && seg.seqNum != conn.rcvNxt {
      return Ok(Some(SendInfo(conn.sndNxt, conn.rcvNxt, Ack, [])));
    } else if seg.flags == Ack && seg.seqNum == conn.rcvNxt
           && Precedes(conn.sndUna, seg.ackNum) && PrecedesOrEq(seg.ackNum, conn.sndNxt) {
      var established := CompleteHandshake(seg, conn);
      if seg.payload == [] {
        return Ok(None);
      }
      conn.rcvNxt := WrappingAdd(conn.rcvNxt, |seg.payload|);
      conn.sendBuffer := conn.sendBuffer + seg.payload;
      reply := DrainAndEcho(conn, established, true, now);
    } else if seg.flags == FinAck && seg.seqNum == conn.rcvNxt
           && Precedes(conn.sndUna, seg.ackNum) && PrecedesOrEq(seg.ackNum, conn.sndNxt) {
      var established := CompleteHandshake(seg, conn);
      reply := BeginPassiveClose(seg, conn, established, now);
    } else {
      reply := Ok(Some(Reset(seg)));
    }
  }

  /** `handle_established`. */
  method HandleEstablished(seg: TcpSegment, conn: ConnState, established: Window, now: int)
    returns (reply: Result<Option<SendInfo>>)
    requires conn.tcpState == Established(established)
    modifies conn
    ensures OnEstablished(old(conn.View()), established, seg, now) == Outcome(conn.View(), reply, false)
  {
    if seg.flags == Ack && Precedes(conn.sndNxt, seg.ackNum) {
      reply := Ok(Some(SendInfo(conn.sndNxt, conn.rcvNxt, Ack, [])));
    } else if seg.flags == Ack && seg.payload == [] {
      var updated := IncomingAckUpdate(established, conn, seg);
      conn.tcpState := Established(updated);
      reply := DrainAndEcho(conn, updated, false, now);
    } else if seg.flags == Ack && seg.seqNum == conn.rcvNxt {
      var updated := IncomingAckUpdate(established, conn, seg);
      conn.tcpState := Established(updated);
      conn.rcvNxt := WrappingAdd(conn.rcvNxt, |seg.payload|);
      conn.sendBuffer := conn.sendBuffer + seg.payload;
      reply := DrainAndEcho(conn, updated, true, now);
    } else if seg.flags in {Ack, FinAck} && seg.seqNum != conn.rcvNxt {
      var updated := IncomingAckUpdate(established, conn, seg);
      conn.tcpState := Established(updated);
      reply := Ok(Some(SendInfo(conn.sndNxt, conn.rcvNxt, Ack, [])));
    } else if seg.flags == FinAck && seg.seqNum == conn.rcvNxt {
      reply := BeginPassiveClose(seg, conn, established, now);
    } else {
      reply := Ok(Some(Reset(seg)));
    }
  }

  /** `handle_fin_wait_1`. */
  method HandleFinWait1(seg: TcpSegment, conn: ConnState, finWait1: Window)
    returns (reply: Option<SendInfo>, remove: bool)
    modifies conn
    ensures OnFinWait1(old(conn.View()), finWait1, seg) == Outcome(conn.View(), Ok(reply), remove)
  {
    if seg.flags == Ack && seg.payload != [] && seg.seqNum == conn.rcvNxt {
      conn.rcvNxt := WrappingAdd(conn.rcvNxt, |seg.payload|);
      reply, remove := Some(SendInfo(conn.sndNxt, conn.rcvNxt, Ack, [])), false;
      var updated := IncomingAckUpdate(finWait1, conn, seg);
      conn.tcpState := FinWait1(updated);
    } else if seg.flags == Ack && seg.payload == [] && seg.ackNum == conn.sndNxt {
      var updated := IncomingAckUpdate(finWait1, conn, seg);
      conn.tcpState := FinWait2(updated);
      reply, remove := None, false;
    } else if seg.flags == FinAck && seg.seqNum == conn.rcvNxt && seg.ackNum == conn.sndNxt {
      conn.rcvNxt := WrappingAdd(conn.rcvNxt, |seg.payload|);
      conn.rcvNxt := WrappingAdd(conn.rcvNxt, 1);
      reply, remove := Some(SendInfo(conn.sndNxt, conn.rcvNxt, Ack, [])), true;
    } else if seg.flags == FinAck && seg.seqNum == conn.rcvNxt && seg.ackNum != conn.sndNxt {
      conn.rcvNxt := WrappingAdd(conn.rcvNxt, |seg.payload|);
      conn.rcvNxt := WrappingAdd(conn.rcvNxt, 1);
      reply, remove := Some(SendInfo(conn.sndNxt, conn.rcvNxt, Ack, [])), false;
      var updated := IncomingAckUpdate(finWait1, conn, seg);
      conn.tcpState := Closing(updated);
    } else {
      reply, remove := Some(Reset(seg)), false;
    }
  }

  /** `handle_fin_wait_2`. */
  method HandleFinWait2(seg: TcpSegment, conn: ConnState, finWait2: Window)
    returns (reply: SendInfo, remove: bool)
    modifies conn
    ensures OnFinWait2(old(conn.View()), finWait2, seg) == Outcome(conn.View(), Ok(Some(reply)), remove)
  {
    if seg.flags == Ack && seg.payload != [] && seg.seqNum == conn.rcvNxt {
      conn.rcvNxt := WrappingAdd(conn.rcvNxt, |seg.payload|);
      reply, remove := SendInfo(conn.sndNxt, conn.rcvNxt, Ack, []), false;
      var updated := IncomingAckUpdate(finWait2, conn, seg);
      conn.tcpState := FinWait2(updated);
    } else if seg.flags == FinAck && seg.seqNum == conn.rcvNxt {
      conn.rcvNxt := WrappingAdd(conn.rcvNxt, |seg.payload|);
      conn.rcvNxt := WrappingAdd(conn.rcvNxt, 1);
      reply, remove := SendInfo(conn.sndNxt, conn.rcvNxt, Ack, []), true;
    } else {
      reply, remove := Reset(seg), false;
    }
  }

  /** `handle_closing`, which only reads the connection. */
  method HandleClosing(seg: TcpSegment, conn: ConnState) returns (reply: Option<SendInfo>, remove: bool)
    ensures OnClosing(conn.View(), seg) == Outcome(conn.View(), Ok(reply), remove)
  {
    if seg.flags == Ack && seg.payload == [] && seg.ackNum == conn.sndNxt {
      reply, remove := None, true;
    } else {
      reply, remove := Some(Reset(seg)), false;
    }
  }

  /** `handle_last_ack`. */
  method HandleLastAck(seg: TcpSegment, conn: ConnState, lastAck: Window)
    returns (reply: Option<SendInfo>, remove: bool)
    modifies conn
    ensures OnLastAck(old(conn.View()), lastAck, seg) == Outcome(conn.View(), Ok(reply), remove)
  {
    if seg.flags == Ack && seg.payload == [] && seg.ackNum != conn.sndNxt {
      var updated := IncomingAckUpdate(lastAck, conn, seg);
      conn.tcpState := LastAck(updated);
      reply, remove := None, false;
    } else if seg.flags == Ack && seg.payload == [] && seg.ackNum == conn.sndNxt {
      reply, remove := None, true;
    } else {
      reply, remove := Some(Reset(seg)), false;
    }
  }

  /** The arms of `decide_reply` for a connection that is in the table. */
  method HandleKnown(seg: TcpSegment, conn: ConnState, now: int)
    returns (reply: Result<Option<SendInfo>>, remove: bool)
    modifies conn
    ensures OnSegment(old(conn.View()), seg, now) == Outcome(conn.View(), reply, remove)
  {
    remove := false;
    if seg.flags in {Rst, RstAck} {
      if seg.seqNum == conn.rcvNxt {
        reply, remove := Ok(None), true;
      } else if PrecedesOrEq(conn.rcvNxt, seg.seqNum)
             && Precedes(seg.seqNum, WrappingAdd(conn.rcvNxt, RCV_WND)) {
        reply := Ok(Some(SendInfo(conn.sndNxt, conn.rcvNxt, Ack, [])));
      } else {
        reply := Ok(None);
      }
    } else if seg.flags in {Syn, SynAck} && !conn.tcpState.SynReceived? {
      reply := Ok(Some(SendInfo(conn.sndNxt, conn.rcvNxt, Ack, [])));
    } else {
      var maybe: Option<SendInfo>;
      match conn.tcpState
      case SynReceived =>
        reply := HandleSynRcv(seg, conn, now);
      case Established(w) =>
        reply := HandleEstablished(seg, conn, w, now);
      case FinWait1(w) =>
        maybe, remove := HandleFinWait1(seg, conn, w);
        reply := Ok(maybe);
      case FinWait2(w) =>
        var info: SendInfo;
        info, remove := HandleFinWait2(seg, conn, w);
        reply := Ok(Some(info));
      case Closing(_) =>
        maybe, remove := HandleClosing(seg, conn);
        reply := Ok(maybe);
      case LastAck(w) =>
        maybe, remove := HandleLastAck(seg, conn, w);
        reply := Ok(maybe);
    }
  }
}
