/** The whole answer of the server to any segment, told by what the segment is to the connection: when it
    stays silent, when it refuses with a reset, and what exactly it acknowledges and sends otherwise. */
module Answers {
  import opened SeqSpace
  import opened Wire
  import opened State
  import opened Engine
  import opened Connections
  import opened Lives
  import opened Moves
  import opened Conservation
  import opened Lifecycle
  import opened FlowControl
  import opened DrainSizes
  import opened Independence

  /** An acknowledgment and nothing else. */
  predicate IsBare(seg: TcpSegment) {
    seg.flags == Ack && seg.payload == []
  }

  predicate InOrder(c: Conn, seg: TcpSegment) {
    seg.seqNum == c.rcvNxt
  }

  /** Everything sent is acknowledged, our SYN or FIN included. */
  predicate AcksAll(c: Conn, seg: TcpSegment) {
    seg.ackNum == c.sndNxt
  }

  /** The segments that are refused with a reset. */
  predicate IsRefused(c: Conn, seg: TcpSegment) {
    if seg.flags == SynAck then c.tcpState.SynReceived?
    else
      && seg.flags in {Ack, FinAck}
      && match c.tcpState
         case SynReceived => InOrder(c, seg) && !AcksAll(c, seg)
         case Established(_) => false
         case FinWait1(_) => if IsBare(seg) then !AcksAll(c, seg) else !InOrder(c, seg)
         case FinWait2(_) => IsBare(seg) || !InOrder(c, seg)
         case Closing(_) => !(IsBare(seg) && AcksAll(c, seg))
         case LastAck(_) => !IsBare(seg)
  }

  /** The segments that are not answered at all. */
  predicate IsUnanswered(c: Conn, seg: TcpSegment) {
    if seg.flags in {Rst, RstAck} then
      var d := WrappingSub(seg.seqNum, c.rcvNxt);
      d == 0 || d >= 65535
    else
      && IsBare(seg)
      && match c.tcpState
         case SynReceived => InOrder(c, seg) && AcksAll(c, seg)
         case Established(_) => !Precedes(c.sndNxt, seg.ackNum) && DrainSize(c, seg) == 0
         case FinWait1(_) => AcksAll(c, seg)
         case FinWait2(_) => false
         case Closing(_) => AcksAll(c, seg)
         case LastAck(_) => true
  }

  /** The data that goes out with the answer: what the window has room for, of what waits. */
  function EchoNow(c: Conn, seg: TcpSegment): Payload {
    (c.sendBuffer + (if TakesData(c, seg) then seg.payload else []))[..DrainSize(c, seg)]
  }

  /** The sequence numbers of the peer that are taken. */
  function Taken(c: Conn, seg: TcpSegment): u32 {
    if TakesData(c, seg) then |seg.payload| + Bit(seg.flags == FinAck) else 0
  }

  /** The answer, in full. */
  function Answer(c: Conn, seg: TcpSegment): seq<SendInfo> {
    if IsRefused(c, seg) then [SendInfo(seg.ackNum, 0, Rst, [])]
    else if IsUnanswered(c, seg) then []
    else if c.tcpState.SynReceived? && seg.flags == Syn then
      [SendInfo(c.sndUna, WrappingAdd(seg.seqNum, 1), SynAck, [])]
    else
      var fin := !FinSent(c.tcpState) && TakesData(c, seg) && seg.flags == FinAck;
      [SendInfo(c.sndNxt, WrappingAdd(c.rcvNxt, Taken(c, seg)), if fin then FinAck else Ack, EchoNow(c, seg))]
  }

  // ---------------------------------------------------------------------------------------------

  lemma RefusedIsReset(c: Conn, seg: TcpSegment, now: int)
    requires Sound(c) && IsRefused(c, seg)
    ensures OnSegment(c, seg, now) == Outcome(c, Ok(Some(SendInfo(seg.ackNum, 0, Rst, []))), false)
  {
    if c.tcpState.SynReceived? {
      HandshakeAcceptsOneAck(c, seg);
    }
  }

  lemma EchoIsSilentIff(c: Conn, w: Window, now: int)
    requires c.InFlight() <= HALF
    ensures Replied(Echo(c, w, false, now).result) == [] <==> Transmittable(c, w) == 0
  {
  }

  lemma EstablishedUnansweredIff(c: Conn, w: Window, seg: TcpSegment, now: int)
    requires Sound(c) && c.tcpState == Established(w) && seg.flags in {Ack, FinAck}
    ensures Replied(OnEstablished(c, w, seg, now).result) == [] <==> IsUnanswered(c, seg)
  {
    var window := AckedWindow(c, w, seg);
    var acked := AckedConn(c, seg.ackNum).(tcpState := Established(window));
    AckKeepsBound(c, seg.ackNum);
    if seg.flags == FinAck {
      PassiveCloseConserves(c, w, seg, now);
    } else if seg.payload == [] {
      EchoIsSilentIff(acked, window, now);
    }
  }

  lemma SynReceivedUnansweredIff(c: Conn, seg: TcpSegment, now: int)
    requires Sound(c) && c.tcpState.SynReceived?
    ensures Replied(OnSynReceived(c, seg, now).result) == [] <==> IsUnanswered(c, seg) && seg.flags !in {Rst, RstAck}
  {
    HandshakeAcceptsOneAck(c, seg);
    if seg.flags in {Ack, FinAck} && CompletesHandshake(c, seg) {
      var h := Handshaken(c, seg);
      assert h.InFlight() == 0;
      if seg.flags == FinAck {
        PassiveCloseConserves(h, WindowOf(seg), seg, now);
      }
    }
  }

  /** The server is silent exactly on these segments. */
  lemma UnansweredIff(c: Conn, seg: TcpSegment, now: int)
    requires Sound(c)
    ensures Replied(OnSegment(c, seg, now).result) == [] <==> IsUnanswered(c, seg)
  {
    if seg.flags in {Rst, RstAck} {
      ReceiveWindowIsLinear(c.rcvNxt, seg.seqNum);
    } else if c.tcpState.SynReceived? {
      SynReceivedUnansweredIff(c, seg, now);
    } else if c.tcpState.Established? && seg.flags in {Ack, FinAck} {
      EstablishedUnansweredIff(c, c.tcpState.window, seg, now);
    }
  }

  /** The reply, if any, is an ACK or a FIN-ACK. */
  predicate OnlyAcknowledges(result: Result<Option<SendInfo>>) {
    result.Ok? && result.value.Some? ==> result.value.value.flags in {Ack, FinAck}
  }

  lemma HandshakeOnlyAcknowledges(c: Conn, seg: TcpSegment, now: int)
    requires Sound(c) && c.tcpState.SynReceived? && !IsRefused(c, seg) && seg.flags in {Ack, FinAck}
    ensures OnlyAcknowledges(OnSynReceived(c, seg, now).result)
  {
    HandshakeAcceptsOneAck(c, seg);
    if CompletesHandshake(c, seg) {
      var h := Handshaken(c, seg);
      assert h.InFlight() == 0;
      if seg.flags == FinAck {
        PassiveCloseConserves(h, WindowOf(seg), seg, now);
      } else {
        EchoConserves(Buffered(h, seg.payload), WindowOf(seg), true, now);
      }
    }
  }

  lemma EstablishedOnlyAcknowledges(c: Conn, w: Window, seg: TcpSegment, now: int)
    requires Sound(c) && c.tcpState == Established(w) && seg.flags in {Ack, FinAck}
    ensures OnlyAcknowledges(OnEstablished(c, w, seg, now).result)
  {
    if seg.flags == FinAck {
      if seg.seqNum == c.rcvNxt {
        PassiveCloseConserves(c, w, seg, now);
      }
    } else if !Precedes(c.sndNxt, seg.ackNum) {
      var window := AckedWindow(c, w, seg);
      var acked := AckedConn(c, seg.ackNum).(tcpState := Established(window));
      AckKeepsBound(c, seg.ackNum);
      if seg.payload == [] {
        EchoConserves(acked, window, false, now);
      } else if seg.seqNum == c.rcvNxt {
        EchoConserves(Buffered(acked, seg.payload), window, true, now);
      }
    }
  }

  /** What is not refused, and not a repeated SYN, is answered with an acknowledgment or not at all. */
  lemma AnswerAcknowledges(c: Conn, seg: TcpSegment, now: int)
    requires Sound(c) && !IsRefused(c, seg) && !(c.tcpState.SynReceived? && seg.flags == Syn)
    ensures OnlyAcknowledges(OnSegment(c, seg, now).result)
  {
    if seg.flags in {Ack, FinAck} {
      match c.tcpState
      case SynReceived => HandshakeOnlyAcknowledges(c, seg, now);
      case Established(w) => EstablishedOnlyAcknowledges(c, w, seg, now);
      case _ =>
    }
  }

  /** The fields of an answer that is neither a reset nor a SYN-ACK follow from what it sends and takes. */
  lemma AnswerFields(c: Conn, seg: TcpSegment, o: Outcome)
    requires GoodOutcome(c, seg, o) && o.result.value.Some? && o.result.value.value.flags in {Ack, FinAck}
    requires |NewData(o.result)| == DrainSize(c, seg)
    requires FinSent(c.tcpState) ==> !Drains(c, seg)
    ensures var info := o.result.value.value;
      && info.seqNum == c.sndNxt && info.ackNum == WrappingAdd(c.rcvNxt, Taken(c, seg)) && info.payload == EchoNow(c, seg)
  {
    var m, info := Observed(c, seg, o.result), o.result.value.value;
    if FinSent(c.tcpState) {
      assert info.payload == [];
    } else {
      assert c.sendBuffer + m.taken == info.payload + o.conn.sendBuffer;
      assert info.payload == (c.sendBuffer + m.taken)[..|info.payload|];
    }
  }

  lemma AnswerIsFin(c: Conn, seg: TcpSegment, now: int)
    requires Sound(c) && Replied(OnSegment(c, seg, now).result) != []
    ensures Replied(OnSegment(c, seg, now).result)[0].flags == FinAck
       <==> !FinSent(c.tcpState) && TakesData(c, seg) && seg.flags == FinAck
  {
    SegmentOutcome(c, seg, now);
    if !FinSent(c.tcpState) && seg.flags in {Ack, FinAck} {
      if c.tcpState.SynReceived? {
        SynReceivedFin(c, seg, now);
      } else {
        EstablishedFin(c, c.tcpState.window, seg, now);
      }
    }
  }

  /** Everything that is neither refused nor left unanswered is acknowledged. */
  lemma AcknowledgedIs(c: Conn, seg: TcpSegment, now: int)
    requires Sound(c) && !IsRefused(c, seg) && !IsUnanswered(c, seg) && !(c.tcpState.SynReceived? && seg.flags == Syn)
    ensures Replied(OnSegment(c, seg, now).result) == Answer(c, seg)
  {
    var o := OnSegment(c, seg, now);
    UnansweredIff(c, seg, now);
    AnswerAcknowledges(c, seg, now);
    SegmentOutcome(c, seg, now);
    ReplyCarriesTheDrain(c, seg, now);
    AnswerFields(c, seg, o);
    AnswerIsFin(c, seg, now);
  }

  /** The answer to any segment on any connection a run can lead to, in full: flags, numbers and data. */
  lemma AnswerIs(c: Conn, seg: TcpSegment, now: int)
    requires Sound(c)
    ensures Replied(OnSegment(c, seg, now).result) == Answer(c, seg)
  {
    if IsRefused(c, seg) {
      RefusedIsReset(c, seg, now);
    } else if IsUnanswered(c, seg) {
      UnansweredIff(c, seg, now);
    } else if !(c.tcpState.SynReceived? && seg.flags == Syn) {
      AcknowledgedIs(c, seg, now);
    }
  }

  // ---------------------------------------------------------------------------------------------
  // What becomes of SND.UNA and of the state

  /** SND.UNA moves exactly when the handshake completes or something new is acknowledged. */
  function NextUna(c: Conn, seg: TcpSegment): u32 {
    if (c.tcpState.SynReceived? && TakesData(c, seg)) || AcksNewData(c, seg) then seg.ackNum else c.sndUna
  }

  lemma EchoKeepsUna(c: Conn, w: Window, ackIfIdle: bool, now: int)
    ensures Echo(c, w, ackIfIdle, now).conn.sndUna == c.sndUna
  {
  }

  lemma PassiveCloseUna(c: Conn, w: Window, seg: TcpSegment, now: int)
    ensures PassiveClose(c, w, seg, now).conn.sndUna == AckedConn(c, seg.ackNum).sndUna
  {
  }

  lemma SynReceivedUna(c: Conn, seg: TcpSegment, now: int)
    requires Sound(c) && c.tcpState.SynReceived?
    ensures OnSynReceived(c, seg, now).conn.sndUna == NextUna(c, seg)
  {
    if TakesData(c, seg) {
      var h := Handshaken(c, seg);
      EchoKeepsUna(Buffered(h, seg.payload), WindowOf(seg), true, now);
      PassiveCloseUna(h, WindowOf(seg), seg, now);
    }
  }

  lemma EstablishedUna(c: Conn, w: Window, seg: TcpSegment, now: int)
    requires c.tcpState == Established(w) && seg.flags in {Ack, FinAck}
    ensures OnEstablished(c, w, seg, now).conn.sndUna == NextUna(c, seg)
  {
    var window := AckedWindow(c, w, seg);
    var acked := AckedConn(c, seg.ackNum).(tcpState := Established(window));
    EchoKeepsUna(acked, window, false, now);
    EchoKeepsUna(Buffered(acked, seg.payload), window, true, now);
    PassiveCloseUna(c, w, seg, now);
  }

  lemma UnaIs(c: Conn, seg: TcpSegment, now: int)
    requires Sound(c)
    ensures OnSegment(c, seg, now).conn.sndUna == NextUna(c, seg)
  {
    if seg.flags in {Ack, FinAck} || (c.tcpState.SynReceived? && seg.flags in {Syn, SynAck}) {
      match c.tcpState
      case SynReceived => SynReceivedUna(c, seg, now);
      case Established(w) => EstablishedUna(c, w, seg, now);
      case _ =>
    }
  }

  /** The state after any segment, its window aside. */
  function NextState(c: Conn, seg: TcpSegment, w: Window): TcpState {
    match c.tcpState
    case SynReceived => if !TakesData(c, seg) then SynReceived else if seg.flags == FinAck then LastAck(w) else Established(w)
    case Established(_) => if TakesData(c, seg) && seg.flags == FinAck then LastAck(w) else Established(w)
    case FinWait1(_) =>
      if IsBare(seg) && AcksAll(c, seg) then FinWait2(w)
      else if seg.flags == FinAck && InOrder(c, seg) && !AcksAll(c, seg) then Closing(w)
      else FinWait1(w)
    case FinWait2(_) => FinWait2(w)
    case Closing(_) => Closing(w)
    case LastAck(_) => LastAck(w)
  }

  lemma StateIs(c: Conn, seg: TcpSegment, now: int)
    requires Sound(c)
    ensures var d := OnSegment(c, seg, now).conn;
      d.tcpState == if d.tcpState.SynReceived? then SynReceived else NextState(c, seg, d.tcpState.window)
    ensures OnSegment(c, seg, now).conn.tcpState.SynReceived? <==> c.tcpState.SynReceived? && !TakesData(c, seg)
  {
    SegmentOutcome(c, seg, now);
    if c.tcpState.SynReceived? {
      StaysInHandshake(c, seg, now);
      HandshakeCompletesIff(c, seg, now);
      HandshakeAcceptsOneAck(c, seg);
    } else if c.tcpState.Established? && seg.flags in {Ack, FinAck} {
      EstablishedFin(c, c.tcpState.window, seg, now);
    }
  }

  // ---------------------------------------------------------------------------------------------
  // Over every run

  /** In every run the segments on the wire about an arriving one are exactly its answer. */
  lemma RunsAnswer(cfg: Config, l: Life, seg: TcpSegment, now: int)
    requires Reachable(cfg, l) && l.alive
    ensures Sends(cfg, l, Arrive(seg, now)) == Answer(l.conn, seg)
  {
    AlwaysBalanced(cfg, l);
    AnswerIs(l.conn, seg, now);
  }

  /** In every run, as long as our send side is open, an acknowledgment without data draws a segment without
      data if and only if it is not one on which the buffer is drained: so acceptable acknowledgments are
      answered with data or with nothing, and two such ends do not acknowledge each other for ever. */
  lemma BareAcksDrawOnlyData(cfg: Config, l: Life, seg: TcpSegment, now: int)
    requires Reachable(cfg, l) && l.alive && !FinSent(l.conn.tcpState) && IsBare(seg)
    ensures (exists info :: info in Sends(cfg, l, Arrive(seg, now)) && info.payload == []) <==> !Drains(l.conn, seg)
  {
    AlwaysBalanced(cfg, l);
    RunsAnswer(cfg, l, seg, now);
    if l.conn.tcpState.SynReceived? {
      HandshakeAcceptsOneAck(l.conn, seg);
    }
    if Answer(l.conn, seg) != [] {
      assert Answer(l.conn, seg)[0] in Answer(l.conn, seg);
    }
  }

  /** The answer to a segment that belongs to no connection: a SYN opens one, a reset is dropped, and
      anything else is reset at the number it acknowledges. */
  function UnknownAnswer(seg: TcpSegment, isn: Option<u32>): seq<SendInfo> {
    match seg.flags
    case Syn => if isn.Some? then [SendInfo(isn.value, WrappingAdd(seg.seqNum, 1), SynAck, [])] else []
    case Rst => []
    case RstAck => []
    case SynAck => [SendInfo(seg.ackNum, 0, Rst, [])]
    case Ack => [SendInfo(seg.ackNum, 0, Rst, [])]
    case FinAck => [SendInfo(seg.ackNum, 0, Rst, [])]
  }

  lemma UnknownIsAnswered(t: Table, seg: TcpSegment, isn: Option<u32>, now: int)
    requires KeyOf(seg) !in t
    ensures Replied(DecideReply(t, seg, isn, now).result) == UnknownAnswer(seg, isn)
    ensures DecideReply(t, seg, isn, now).table == t <==> seg.flags != Syn || isn.None?
    ensures var r := DecideReply(t, seg, isn, now).result;
      && (r.Err? <==> seg.flags == Syn && isn.None?)
      && (r.Err? ==> r.error == RandomUnavailable)
  {
  }

  lemma KnownIsAnswered(cfg: Config, evs: seq<ServerEvent>, seg: TcpSegment, isn: Option<u32>, now: int)
    requires InTable(cfg, evs, KeyOf(seg))
    ensures var t := TableAfter(cfg, map[], evs); Replied(DecideReply(t, seg, isn, now).result) == Answer(t[KeyOf(seg)], seg)
  {
    var t := TableAfter(cfg, map[], evs);
    EveryEntryIsLived(cfg, evs, KeyOf(seg));
    var l :| Reachable(cfg, l) && l.alive && l.conn == t[KeyOf(seg)];
    AlwaysBalanced(cfg, l);
    AnswerIs(t[KeyOf(seg)], seg, now);
  }

  /** What the whole server sends about an arriving segment, in every run, on every connection. */
  lemma ServerAnswers(cfg: Config, evs: seq<ServerEvent>, seg: TcpSegment, isn: Option<u32>, now: int, k: ConnKey)
    ensures var t := TableAfter(cfg, map[], evs);
      SentOn(ServerStep(cfg, t, Incoming(seg, isn, now)).sent, k) ==
        if k != KeyOf(seg) then [] else if k in t then Answer(t[k], seg) else UnknownAnswer(seg, isn)
  {
    if k == KeyOf(seg) {
      if InTable(cfg, evs, k) {
        KnownIsAnswered(cfg, evs, seg, isn, now);
      } else {
        UnknownIsAnswered(TableAfter(cfg, map[], evs), seg, isn, now);
      }
    }
  }

  /** In every run of the whole server no reset is answered with a reset: on no connection is anything
      but a challenge ACK sent about it. */
  lemma ResetsAreNotReset(cfg: Config, evs: seq<ServerEvent>, seg: TcpSegment, isn: Option<u32>, now: int, k: ConnKey)
    requires seg.flags in {Rst, RstAck}
    ensures forall info :: info in SentOn(ServerStep(cfg, TableAfter(cfg, map[], evs), Incoming(seg, isn, now)).sent, k) ==>
      info.flags == Ack && info.payload == []
  {
    ServerAnswers(cfg, evs, seg, isn, now, k);
  }
}
