/** Which runs can be put on the wire: a segment encodes if its payload is at most 1460 bytes, and what
    the server sends encodes, retransmissions included, exactly as long as no drain is larger. */
module Encoding {
  import opened SeqSpace
  import opened Wire
  import opened PendingSegments
  import opened State
  import opened Engine
  import opened Connections
  import opened Lives
  import opened Moves
  import opened Lifecycle
  import opened DrainSizes
  import opened EchoStream
  import opened Independence
  import opened Conservation
  import opened PacketCodec
  import opened WireFormat

  /** The reply to any segment encodes if and only if what the segment drains does. */
  lemma ReplyEncodesIff(c: Conn, seg: TcpSegment, now: int)
    requires Sound(c)
    ensures (forall info :: info in Replied(OnSegment(c, seg, now).result) ==> FitsPacket(info.payload))
       <==> DrainSize(c, seg) <= MAX_PAYLOAD
  {
    ReplyCarriesTheDrain(c, seg, now);
    RepliedEncodes(OnSegment(c, seg, now).result);
  }

  lemma RepliedEncodes(result: Result<Option<SendInfo>>)
    ensures (forall info :: info in Replied(result) ==> FitsPacket(info.payload)) <==> |NewData(result)| <= MAX_PAYLOAD
  {
    if result.Ok? && result.value.Some? {
      assert result.value.value in Replied(result);
    }
  }

  // ---------------------------------------------------------------------------------------------
  // One event on the whole table

  /** Everything the event sends encodes. */
  ghost predicate StepEncodes(cfg: Config, t: Table, ev: ServerEvent) {
    forall k, info :: info in SentOn(ServerStep(cfg, t, ev).sent, k) ==> FitsPacket(info.payload)
  }

  /** The event does not drain more than encodes. */
  predicate SmallDrain(t: Table, ev: ServerEvent) {
    ev.Incoming? && KeyOf(ev.seg) in t ==> DrainSize(t[KeyOf(ev.seg)], ev.seg) <= MAX_PAYLOAD
  }

  predicate QueueEncodes(q: seq<PendingSegment>) {
    forall p :: p in q ==> FitsPacket(p.info.payload)
  }

  predicate Encodable(c: Conn) {
    Sound(c) && QueueEncodes(c.pending)
  }

  predicate AllEncodable(t: Table) {
    forall k :: k in t ==> Encodable(t[k])
  }

  lemma SegmentStaysEncodable(c: Conn, seg: TcpSegment, now: int)
    requires Encodable(c) && DrainSize(c, seg) <= MAX_PAYLOAD
    ensures Encodable(OnSegment(c, seg, now).conn)
  {
    var o := OnSegment(c, seg, now);
    SegmentOutcome(c, seg, now);
    SegmentQueue(c, seg, now);
    ReplyEncodesIff(c, seg, now);
    forall p | p in o.conn.pending
      ensures FitsPacket(p.info.payload)
    {
      if p in Queued(o.result, now) {
        assert p.info == Replied(o.result)[0];
      } else {
        assert p in KeptQueue(c, seg);
      }
    }
  }

  lemma TickStaysEncodable(cfg: Config, c: Conn, now: int)
    requires Encodable(c)
    ensures var o := OnTick(cfg, c, now);
      && (o.entry.Some? ==> Encodable(o.entry.value))
      && forall info :: info in o.out ==> FitsPacket(info.payload)
  {
    var r := Resent(c.pending, cfg.rto, now);
    forall p | p in r
      ensures FitsPacket(p.info.payload)
    {
      var i :| 0 <= i < |r| && r[i] == p;
      assert c.pending[i] in c.pending && c.pending[i].info == p.info;
    }
    forall info | info in DueInfos(c.pending, cfg.rto, now)
      ensures FitsPacket(info.payload)
    {
      DueInfosArePending(c.pending, cfg.rto, now, info);
    }
  }

  lemma CloseStaysEncodable(c: Conn, now: int)
    requires Encodable(c)
    ensures Encodable(OnClose(c, now).0) && forall info :: info in OnClose(c, now).1 ==> FitsPacket(info.payload)
  {
  }

  lemma IncomingEncodesIff(cfg: Config, t: Table, seg: TcpSegment, isn: Option<u32>, now: int)
    requires AllEncodable(t)
    ensures var ev := Incoming(seg, isn, now);
      && (StepEncodes(cfg, t, ev) <==> SmallDrain(t, ev))
      && (SmallDrain(t, ev) ==> AllEncodable(ServerStep(cfg, t, ev).table))
  {
    var k, ev := KeyOf(seg), Incoming(seg, isn, now);
    var o := ServerStep(cfg, t, ev);
    assert forall j :: j != k ==> SentOn(o.sent, j) == [];
    if k in t {
      var known := OnSegment(t[k], seg, now);
      assert SentOn(o.sent, k) == Replied(known.result);
      ReplyEncodesIff(t[k], seg, now);
      if SmallDrain(t, ev) {
        SegmentStaysEncodable(t[k], seg, now);
      }
    } else {
      assert SentOn(o.sent, k) == Replied(OnUnknown(seg, isn, now).result);
    }
  }

  lemma StepEncodesIff(cfg: Config, t: Table, ev: ServerEvent)
    requires AllEncodable(t)
    ensures StepEncodes(cfg, t, ev) <==> SmallDrain(t, ev)
    ensures SmallDrain(t, ev) ==> AllEncodable(ServerStep(cfg, t, ev).table)
  {
    match ev
    case Incoming(seg, isn, now) => IncomingEncodesIff(cfg, t, seg, isn, now);
    case Wake(now) =>
      forall k | k in t
        ensures var o := OnTick(cfg, t[k], now);
          && (o.entry.Some? ==> Encodable(o.entry.value))
          && forall info :: info in o.out ==> FitsPacket(info.payload)
      {
        TickStaysEncodable(cfg, t[k], now);
      }
    case Shutdown(now) =>
      forall k | k in t
        ensures Encodable(OnClose(t[k], now).0) && forall info :: info in OnClose(t[k], now).1 ==> FitsPacket(info.payload)
      {
        CloseStaysEncodable(t[k], now);
      }
  }

  // ---------------------------------------------------------------------------------------------
  // Runs

  /** Everything each event of the run sends encodes. */
  ghost predicate RunEncodes(cfg: Config, evs: seq<ServerEvent>) {
    evs == [] ||
    (var before := evs[..|evs| - 1];
     RunEncodes(cfg, before) && StepEncodes(cfg, TableAfter(cfg, map[], before), evs[|evs| - 1]))
  }

  /** No event of the run drains more than encodes. */
  ghost predicate SmallDrains(cfg: Config, evs: seq<ServerEvent>) {
    evs == [] ||
    (var before := evs[..|evs| - 1];
     SmallDrains(cfg, before) && SmallDrain(TableAfter(cfg, map[], before), evs[|evs| - 1]))
  }

  lemma {:induction false} ShorterRun(cfg: Config, evs: seq<ServerEvent>, n: nat)
    requires n <= |evs| && SmallDrains(cfg, evs)
    ensures SmallDrains(cfg, evs[..n])
  {
    if n == |evs| {
      assert evs[..n] == evs;
    } else {
      ShorterRun(cfg, evs[..|evs| - 1], n);
      assert evs[..|evs| - 1][..n] == evs[..n];
    }
  }

  lemma LongerRun(cfg: Config, evs: seq<ServerEvent>, ev: ServerEvent)
    ensures RunEncodes(cfg, evs + [ev]) <==> RunEncodes(cfg, evs) && StepEncodes(cfg, TableAfter(cfg, map[], evs), ev)
    ensures SmallDrains(cfg, evs + [ev]) <==> SmallDrains(cfg, evs) && SmallDrain(TableAfter(cfg, map[], evs), ev)
  {
    assert (evs + [ev])[..|evs|] == evs;
  }

  lemma OneMoreEncodesIff(cfg: Config, evs: seq<ServerEvent>, ev: ServerEvent, more: seq<ServerEvent>)
    requires more == evs + [ev]
    requires RunEncodes(cfg, evs) <==> SmallDrains(cfg, evs)
    requires SmallDrains(cfg, evs) ==> AllEncodable(TableAfter(cfg, map[], evs))
    ensures RunEncodes(cfg, more) <==> SmallDrains(cfg, more)
    ensures SmallDrains(cfg, more) ==> AllEncodable(TableAfter(cfg, map[], more))
  {
    LongerRun(cfg, evs, ev);
    if SmallDrains(cfg, evs) {
      StepEncodesIff(cfg, TableAfter(cfg, map[], evs), ev);
      TableOne(cfg, map[], evs, ev);
    }
  }

  /** In every run of the whole server, all that is sent, first transmissions and resends on all
      connections, encodes if and only if no segment of the run drains more than 1460 bytes. */
  lemma {:induction false} RunEncodesIff(cfg: Config, evs: seq<ServerEvent>)
    ensures RunEncodes(cfg, evs) <==> SmallDrains(cfg, evs)
    ensures SmallDrains(cfg, evs) ==> AllEncodable(TableAfter(cfg, map[], evs))
  {
    if evs != [] {
      var before, ev := evs[..|evs| - 1], evs[|evs| - 1];
      RunEncodesIff(cfg, before);
      OneMoreEncodesIff(cfg, before, ev, evs);
    }
  }

  lemma NextStepEncodes(cfg: Config, evs: seq<ServerEvent>, ev: ServerEvent)
    requires SmallDrains(cfg, evs + [ev])
    ensures StepEncodes(cfg, TableAfter(cfg, map[], evs), ev)
  {
    RunEncodesIff(cfg, evs + [ev]);
    LongerRun(cfg, evs, ev);
  }

  /** A packet on `k`, as its client reads it: from the server to the client, with the full window and a piece
      of the stream at its place in the server's sequence space. */
  predicate IsEcho(stream: Bytes, k: ConnKey, isn: u32, r: TcpSegment) {
    && r.ipPair == IpPair(k.serverIp, k.clientIp) && r.ports == PortPair(k.serverPort, k.clientPort)
    && r.window == 65535 && IsPiece(stream, isn, r.seqNum, r.payload)
  }

  /** The acknowledgment number covers the SYN, all data taken from the client so far, and its FIN. */
  predicate AcksTaken(h: Hist, flags: Flags, ackNum: u32) {
    flags in {Ack, FinAck} ==> ackNum == Point(h.clientIsn, 1 + |h.received| + Bit(h.peerFin))
  }

  lemma LifeGoesOn(cfg: Config, evs: seq<ServerEvent>, ev: ServerEvent, k: ConnKey, n: nat)
    requires Concerns(ev, k) && n < |evs| && Opens(evs[n], k)
    ensures LifeFrom(cfg, evs + [ev], k, n) == Live(cfg, LifeFrom(cfg, evs, k, n), LocalEvent(ev))
  {
    assert (evs + [ev])[n + 1..] == evs[n + 1..] + [ev];
    LifeOfOne(cfg, Birth(evs[n].seg, evs[n].isn.value, evs[n].now), evs[n + 1..], ev, k);
  }

  lemma EntrySends(cfg: Config, l: Life, t: Table, ev: ServerEvent, k: ConnKey)
    requires IsLifeOf(l, t, k) && Concerns(ev, k)
    ensures SentOn(ServerStep(cfg, t, ev).sent, k) == Sends(cfg, l, LocalEvent(ev))
  {
    StepOfEntry(cfg, t, ev, k);
  }

  lemma SendsAckTaken(cfg: Config, l: Life, ev: Event, sent: seq<SendInfo>)
    requires Reachable(cfg, l) && !ev.Timer? && sent == Sends(cfg, l, ev)
    ensures forall info :: info in sent ==> AcksTaken(Live(cfg, l, ev).hist, info.flags, info.ackNum)
  {
    forall info | info in sent && info.flags in {Ack, FinAck}
      ensures AcksTaken(Live(cfg, l, ev).hist, info.flags, info.ackNum)
    {
      AcksExactlyWhatWasTaken(cfg, l, ev, info);
    }
  }

  lemma LivesAreReachable(cfg: Config, evs: seq<ServerEvent>, k: ConnKey, n: nat)
    requires n < |evs| && Opens(evs[n], k)
    ensures Reachable(cfg, LifeFrom(cfg, evs, k, n))
  {
  }

  /** What an event other than a wake-up sends acknowledges all that the server has taken. */
  lemma FreshAcksTaken(cfg: Config, evs: seq<ServerEvent>, ev: ServerEvent, k: ConnKey, n: nat)
    requires Concerns(ev, k) && !ev.Wake? && OpenedAt(cfg, evs, k, n)
    ensures forall info :: info in SentOn(ServerStep(cfg, TableAfter(cfg, map[], evs), ev).sent, k) ==>
      AcksTaken(LifeFrom(cfg, evs + [ev], k, n).hist, info.flags, info.ackNum)
  {
    LivesSince(cfg, evs, k, n);
    LivesAreReachable(cfg, evs, k, n);
    LifeGoesOn(cfg, evs, ev, k, n);
    var l, t := LifeFrom(cfg, evs, k, n), TableAfter(cfg, map[], evs);
    EntrySends(cfg, l, t, ev, k);
    SendsAckTaken(cfg, l, LocalEvent(ev), SentOn(ServerStep(cfg, t, ev).sent, k));
  }

  /** Echo in bytes: in a run without larger drains, if what came on `k` since its SYN carries one client
      stream, then every packet the next event puts on the wire there parses back, for the client, to a
      segment on its own connection whose data is that piece of its stream and which acknowledges, unless it
      repeats an older one, what the server has taken of it. */
  lemma PacketsEchoTheStream(stream: Bytes, cfg: Config, evs: seq<ServerEvent>, ev: ServerEvent, k: ConnKey, n: nat)
    requires |stream| < MODULUS && Concerns(ev, k) && OpenedAt(cfg, evs, k, n)
    requires AllAgree(stream, evs[n].seg.seqNum, evs[n + 1..] + [ev], k)
    requires SmallDrains(cfg, evs + [ev])
    ensures forall info :: info in SentOn(ServerStep(cfg, TableAfter(cfg, map[], evs), ev).sent, k) ==>
      && FitsPacket(info.payload)
      && var r := ParsePacket(Packet(Outgoing(k, info)));
         && r.Ok? && IsEcho(stream, k, evs[n].isn.value, r.value)
         && (!ev.Wake? ==> AcksTaken(LifeFrom(cfg, evs + [ev], k, n).hist, r.value.flags, r.value.ackNum))
  {
    ServerEchoesTheStream(stream, cfg, evs, ev, k, n);
    NextStepEncodes(cfg, evs, ev);
    if !ev.Wake? {
      FreshAcksTaken(cfg, evs, ev, k, n);
    }
    forall info | info in SentOn(ServerStep(cfg, TableAfter(cfg, map[], evs), ev).sent, k)
      ensures FitsPacket(info.payload)
      ensures var r := ParsePacket(Packet(Outgoing(k, info)));
        && r.Ok? && IsEcho(stream, k, evs[n].isn.value, r.value)
        && (!ev.Wake? ==> AcksTaken(LifeFrom(cfg, evs + [ev], k, n).hist, r.value.flags, r.value.ackNum))
    {
      ClientReads(k, info);
    }
  }
}
