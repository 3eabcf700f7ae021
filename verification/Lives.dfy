/** The life of one connection: its events, its steps, and a history kept by an observer who sees
    the segments on the wire and the connection's sequence variables, not what the handlers do. */
module Lives {
  import opened SeqSpace
  import opened Wire
  import opened PendingSegments
  import opened State
  import opened Engine
  import opened Connections

  datatype Event =
    | Arrive(seg: TcpSegment, now: int)
    | Timer(now: int)
    | CloseCall(now: int)

  datatype StepOut = StepOut(conn: Conn, removed: bool, failed: bool, out: seq<SendInfo>)

  /** The segments a reply puts on the wire. */
  function Replied(result: Result<Option<SendInfo>>): seq<SendInfo> {
    if result.Ok? && result.value.Some? then [result.value.value] else []
  }

  function Step(cfg: Config, c: Conn, ev: Event): StepOut {
    match ev
    case Arrive(seg, now) =>
      var o := OnSegment(c, seg, now);
      StepOut(o.conn, o.remove, o.result.Err?, Replied(o.result))
    case Timer(now) =>
      var o := OnTick(cfg, c, now);
      StepOut(if o.entry.Some? then o.entry.value else c, o.entry.None?, false, o.out)
    case CloseCall(now) =>
      var o := OnClose(c, now);
      StepOut(o.0, false, false, o.1)
  }

  /** A segment put on the wire for the first time. */
  datatype Emission = Emission(info: SendInfo, time: int)

  datatype Hist = Hist(
    isn: u32,
    clientIsn: u32,
    log: seq<Emission>,      // every first transmission, in order
    received: Bytes,         // every data byte taken in order
    accepted: Bytes,         // the part of `received` that is to be echoed
    peerFin: bool,           // the peer's FIN has been taken in order
    finAcked: bool,          // an acknowledgment equal to SND.NXT came after our FIN
    samples: seq<Window>)    // the handshake's and every later acceptable window, in order
  {
    function Sent(): Bytes { SentBytes(log) }
    function Fins(): nat { FinCount(log) }
  }

  function SentBytes(log: seq<Emission>): Bytes {
    if log == [] then [] else SentBytes(log[..|log| - 1]) + log[|log| - 1].info.payload
  }

  function FinCount(log: seq<Emission>): nat {
    if log == [] then 0 else FinCount(log[..|log| - 1]) + (if log[|log| - 1].info.flags == FinAck then 1 else 0)
  }

  lemma LogOne(log: seq<Emission>, e: Emission)
    ensures SentBytes(log + [e]) == SentBytes(log) + e.info.payload
    ensures FinCount(log + [e]) == FinCount(log) + (if e.info.flags == FinAck then 1 else 0)
  {
    assert (log + [e])[..|log|] == log;
  }

  /** The next expected data (and FIN) of `seg` may be taken: it is in order, and its
      acknowledgment completes the handshake or does not pass SND.NXT (a FIN-ACK is not checked). */
  predicate TakesData(c: Conn, seg: TcpSegment) {
    && seg.flags in {Ack, FinAck}
    && seg.seqNum == c.rcvNxt
    && match c.tcpState
       case SynReceived => CompletesHandshake(c, seg)
       case Established(_) => seg.flags == FinAck || !Precedes(c.sndNxt, seg.ackNum)
       case FinWait1(_) => true
       case FinWait2(_) => true
       case Closing(_) => false
       case LastAck(_) => false
  }

  /** The states and segments for which the acknowledgment field is looked at. */
  predicate ProcessesAck(c: Conn, seg: TcpSegment) {
    match c.tcpState
    case SynReceived => false
    case Established(_) => seg.flags == FinAck || (seg.flags == Ack && !Precedes(c.sndNxt, seg.ackNum))
    case FinWait1(_) =>
      || (seg.flags == Ack && (if seg.payload != [] then seg.seqNum == c.rcvNxt else seg.ackNum == c.sndNxt))
      || (seg.flags == FinAck && seg.seqNum == c.rcvNxt && seg.ackNum != c.sndNxt)
    case FinWait2(_) => seg.flags == Ack && seg.payload != [] && seg.seqNum == c.rcvNxt
    case Closing(_) => false
    case LastAck(_) => seg.flags == Ack && seg.payload == [] && seg.ackNum != c.sndNxt
  }

  /** What `seg` leaves in the queue: nothing once it completes the handshake, what it does not cover
      if it acknowledges something new, and otherwise everything. */
  function KeptQueue(c: Conn, seg: TcpSegment): (kept: seq<PendingSegment>)
    ensures forall p :: p in kept ==> p in c.pending
  {
    if c.tcpState.SynReceived? && TakesData(c, seg) then []
    else if AcksNewData(c, seg) then Retain(c.pending, seg.ackNum)
    else c.pending
  }

  /** SND.UNA < SEG.ACK <= SND.NXT, in a segment whose acknowledgment field is looked at. */
  predicate AcksNewData(c: Conn, seg: TcpSegment) {
    ProcessesAck(c, seg) && AckInFlight(c.sndUna, seg.ackNum, c.sndNxt) && Precedes(c.sndUna, seg.ackNum)
  }

  /** The window of `seg` is the handshake's, or belongs to an acceptable acknowledgment. */
  predicate OffersWindow(c: Conn, seg: TcpSegment) {
    if c.tcpState.SynReceived? then TakesData(c, seg)
    else ProcessesAck(c, seg) && AckInFlight(c.sndUna, seg.ackNum, c.sndNxt)
  }

  /** An acknowledgment of everything sent, our FIN included. */
  predicate AcksFin(c: Conn, seg: TcpSegment) {
    FinSent(c.tcpState) && seg.flags in {Ack, FinAck} && seg.ackNum == c.sndNxt
  }

  function Logged(log: seq<Emission>, out: seq<SendInfo>, now: int): seq<Emission> {
    log + seq(|out|, i requires 0 <= i < |out| => Emission(out[i], now))
  }

  /** What the observer adds when `ev` happens on `c` and `out` is sent. */
  function Observe(h: Hist, c: Conn, ev: Event, out: seq<SendInfo>): Hist {
    match ev
    case Arrive(seg, now) =>
      var takes := TakesData(c, seg);
      h.(log := Logged(h.log, out, now),
         received := if takes then h.received + seg.payload else h.received,
         accepted := if takes && !FinSent(c.tcpState) then h.accepted + seg.payload else h.accepted,
         peerFin := h.peerFin || (takes && seg.flags == FinAck),
         finAcked := h.finAcked || AcksFin(c, seg),
         samples := if OffersWindow(c, seg) then h.samples + [Window(seg.window, seg.seqNum, seg.ackNum)] else h.samples)
    case Timer(_) => h
    case CloseCall(now) => h.(log := Logged(h.log, out, now))
  }

  /** A connection with its history; `alive` until it leaves the table. */
  datatype Life = Life(conn: Conn, hist: Hist, alive: bool)

  /** The life a SYN starts. */
  function Birth(syn: TcpSegment, isn: u32, now: int): Life {
    var info := Opening(syn, isn);
    Life(FromSynAck(info, now).value,
         Hist(isn, syn.seqNum, [Emission(info, now)], [], [], false, false, []), true)
  }

  function Live(cfg: Config, l: Life, ev: Event): Life {
    if !l.alive then l
    else
      var s := Step(cfg, l.conn, ev);
      Life(s.conn, Observe(l.hist, l.conn, ev, s.out), !s.removed)
  }

  /** What the step `ev` puts on the wire. */
  function Sends(cfg: Config, l: Life, ev: Event): seq<SendInfo> {
    if l.alive then Step(cfg, l.conn, ev).out else []
  }

  /** The life after a run of events. */
  function After(cfg: Config, l: Life, evs: seq<Event>): Life {
    if evs == [] then l else Live(cfg, After(cfg, l, evs[..|evs| - 1]), evs[|evs| - 1])
  }

  /** `l` comes about by some run of events after some SYN. */
  ghost predicate Reachable(cfg: Config, l: Life) {
    exists syn, isn, now, evs :: l == After(cfg, Birth(syn, isn, now), evs)
  }

  lemma AfterOne(cfg: Config, l: Life, evs: seq<Event>, ev: Event)
    ensures After(cfg, l, evs + [ev]) == Live(cfg, After(cfg, l, evs), ev)
  {
    assert (evs + [ev])[..|evs|] == evs;
  }

  lemma StepIsReachable(cfg: Config, l: Life, ev: Event)
    requires Reachable(cfg, l)
    ensures Reachable(cfg, Live(cfg, l, ev))
  {
    var syn, isn, now, evs :| l == After(cfg, Birth(syn, isn, now), evs);
    AfterOne(cfg, Birth(syn, isn, now), evs, ev);
  }
}
