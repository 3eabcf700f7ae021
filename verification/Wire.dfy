/** Values that travel between the modules: flags, payloads, segments and connection keys
    (src/protocol/tcp.rs, flags.rs, payload.rs, connections.rs, addr_pairs.rs). */
module Wire {
  import opened SeqSpace

  datatype Option<+T> = None | Some(value: T)

  datatype Result<+T> = Ok(value: T) | Err(error: Error)

  datatype Error =
    | RandomUnavailable
    | InstantOverflow
    | NotSynAck
    | NotSynReceived
    | UnaPastNxt
    | PayloadTooLong
    | TooShort
    | BadVersion
    | BadChecksum
    | BadProtocol
    | BadFlags
    | ShorterThanIhl
    | DoesNotFit

  type Bytes = seq<u8>

  /** `Option<TcpPayload>`: a `TcpPayload` is never empty, so the empty string stands for `None`. */
  type Payload = s: seq<u8> | |s| <= 0xFFFF

  /** `TcpPayload::try_from_iter`. */
  function TryPayload(bytes: Bytes): (r: Result<Payload>)
    ensures r.Ok? <==> |bytes| <= 0xFFFF
    ensures r.Ok? ==> r.value == bytes
  {
    if |bytes| <= 0xFFFF then Ok(bytes) else Err(PayloadTooLong)
  }

  datatype Flags = Syn | SynAck | Ack | FinAck | Rst | RstAck

  /** The fields that differ between the segments the server sends. */
  datatype SendInfo = SendInfo(seqNum: u32, ackNum: u32, flags: Flags, payload: Payload)

  datatype Ipv4Addr = Ipv4Addr(a: u8, b: u8, c: u8, d: u8)

  datatype IpPair = IpPair(src: Ipv4Addr, dst: Ipv4Addr) {
    function Swapped(): IpPair { IpPair(dst, src) }
  }

  datatype PortPair = PortPair(src: u16, dst: u16) {
    function Swapped(): PortPair { PortPair(dst, src) }
  }

  datatype TcpSegment = TcpSegment(
    ipPair: IpPair,
    ports: PortPair,
    seqNum: u32,
    ackNum: u32,
    offsetBytes: u8,
    flags: Flags,
    window: u16,
    payload: Payload)

  datatype ConnKey = ConnKey(clientIp: Ipv4Addr, clientPort: u16, serverIp: Ipv4Addr, serverPort: u16)

  /** The key of the connection an incoming segment belongs to. */
  function KeyOf(seg: TcpSegment): ConnKey {
    ConnKey(seg.ipPair.src, seg.ports.src, seg.ipPair.dst, seg.ports.dst)
  }

  const TCP_HDR_MIN_LEN: u8 := 20

  /** `TcpSegment::from_pairs_and_info`. */
  function FromPairsAndInfo(ipPair: IpPair, ports: PortPair, info: SendInfo): TcpSegment {
    TcpSegment(ipPair, ports, info.seqNum, info.ackNum, TCP_HDR_MIN_LEN, info.flags, RCV_WND, info.payload)
  }

  /** A segment the server sends on the connection `key`. */
  function Outgoing(key: ConnKey, info: SendInfo): TcpSegment {
    FromPairsAndInfo(IpPair(key.serverIp, key.clientIp), PortPair(key.serverPort, key.clientPort), info)
  }

  /** A reply goes back on the connection the incoming segment named, from its destination to its source,
      with the numbers, flags and data decided on, no options and the full receive window. */
  lemma ReplyStaysOnConnection(seg: TcpSegment, info: SendInfo)
    ensures FromPairsAndInfo(seg.ipPair.Swapped(), seg.ports.Swapped(), info) == Outgoing(KeyOf(seg), info)
    ensures Outgoing(KeyOf(seg), info)
         == TcpSegment(IpPair(seg.ipPair.dst, seg.ipPair.src), PortPair(seg.ports.dst, seg.ports.src),
                       info.seqNum, info.ackNum, 20, info.flags, 65535, info.payload)
  {
  }

  /** Segments belong to the same connection exactly when all four of addresses and ports agree. */
  lemma SameConnectionIff(a: TcpSegment, b: TcpSegment)
    ensures KeyOf(a) == KeyOf(b) <==> a.ipPair == b.ipPair && a.ports == b.ports
  {
  }
}
