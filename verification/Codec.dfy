/** Writing byte ranges of a buffer in place (src/try_ops.rs, `copy_from_slice`). */
module Buffers {
  import opened SeqSpace
  import opened Wire
  import opened Checksum

  /** `s` with `bytes` in place of what was at `at`. */
  function Splice(s: Bytes, at: nat, bytes: Bytes): (r: Bytes)
    requires at + |bytes| <= |s|
    ensures |r| == |s|
    ensures forall i :: 0 <= i < |s| ==> r[i] == if at <= i < at + |bytes| then bytes[i - at] else s[i]
  {
    s[..at] + bytes + s[at + |bytes|..]
  }

  /** `buf.try_get_mut(at..at + len)?.copy_from_slice(bytes)`. */
  method TryPut(buf: array<u8>, at: nat, bytes: Bytes) returns (ok: bool)
    modifies buf
    ensures ok <==> at + |bytes| <= buf.Length
    ensures buf[..] == if ok then Splice(old(buf[..]), at, bytes) else old(buf[..])
  {
    if at + |bytes| > buf.Length {
      return false;
    }
    for i := 0 to |bytes|
      invariant forall j :: 0 <= j < buf.Length ==> buf[j] == if at <= j < at + i then bytes[j - at] else old(buf[j])
    {
      buf[at + i] := bytes[i];
    }
    assert buf[..] == Splice(old(buf[..]), at, bytes);
    ok := true;
  }

  /** `TryPut` at `at`, right after what has been written so far: `head` is left alone, `done` has
      been written after it, and the rest of the buffer still is as it `was`. */
  method PutNext(buf: array<u8>, at: nat, bytes: Bytes, ghost head: Bytes, ghost done: Bytes, ghost was: Bytes)
    returns (ok: bool)
    requires at == |head| + |done| <= |was| && buf[..] == head + done + was[at..]
    modifies buf
    ensures ok <==> at + |bytes| <= buf.Length
    ensures ok ==> buf[..] == head + (done + bytes) + was[at + |bytes|..]
    ensures buf[..|head|] == head
  {
    assert |buf[..]| == buf.Length;
    ok := TryPut(buf, at, bytes);
    if ok {
      SpliceNext(head, done, bytes, was);
    }
    HeadStays(head, done, was[at..]);
    HeadStays(head, done + bytes, if ok then was[at + |bytes|..] else []);
  }

  lemma SpliceNext(head: Bytes, done: Bytes, bytes: Bytes, was: Bytes)
    requires |head| + |done| + |bytes| <= |was|
    ensures var at := |head| + |done|;
      Splice(head + done + was[at..], at, bytes) == head + (done + bytes) + was[at + |bytes|..]
  {
  }

  lemma HeadStays(head: Bytes, done: Bytes, rest: Bytes)
    ensures (head + done + rest)[..|head|] == head
  {
  }

  /** The source and destination ports, which TCP and UDP headers start with. */
  method PutPorts(buf: array<u8>, base: nat, ports: PortPair, ghost head: Bytes, ghost was: Bytes) returns (ok: bool)
    requires base == |head| <= |was| && buf[..] == head + was[base..]
    modifies buf
    ensures ok <==> base + 4 <= buf.Length
    ensures ok ==> buf[..] == head + (Be16(ports.src) + Be16(ports.dst)) + was[base + 4..]
    ensures buf[..base] == head
  {
    assert head + [] + was[base..] == head + was[base..];
    ok := PutNext(buf, base, Be16(ports.src), head, [], was);
    if !ok { return; }
    assert [] + Be16(ports.src) == Be16(ports.src);
    ok := PutNext(buf, base + 2, Be16(ports.dst), head, Be16(ports.src), was);
  }

  /** A range that is left as it was counts as written. */
  lemma SkipAhead(head: Bytes, done: Bytes, was: Bytes, n: nat)
    requires |head| + |done| + n <= |was|
    ensures var at := |head| + |done|;
      head + done + was[at..] == head + (done + was[at..at + n]) + was[at + n..]
  {
  }

  /** Overwriting the middle of what was written. */
  lemma SpliceMiddle(head: Bytes, a: Bytes, mid: Bytes, b: Bytes, rest: Bytes, bytes: Bytes)
    requires |mid| == |bytes|
    ensures Splice(head + (a + mid + b) + rest, |head| + |a|, bytes) == head + (a + bytes + b) + rest
  {
  }

  /** `TryPut` over the middle of what was written. */
  method PutMiddle(buf: array<u8>, at: nat, bytes: Bytes,
                   ghost head: Bytes, ghost a: Bytes, ghost mid: Bytes, ghost b: Bytes, ghost rest: Bytes)
    requires at == |head| + |a| && |mid| == |bytes| && buf[..] == head + (a + mid + b) + rest
    modifies buf
    ensures buf[..] == head + (a + bytes + b) + rest
    ensures buf[..|head|] == head
  {
    assert |buf[..]| == buf.Length;
    var ok := TryPut(buf, at, bytes);
    SpliceMiddle(head, a, mid, b, rest, bytes);
    HeadStays(head, a + bytes + b, rest);
  }

  /** `u16::to_be_bytes`. */
  function Be16(w: u16): (b: Bytes)
    ensures |b| == 2
  {
    [w / 0x100, w % 0x100]
  }

  /** `u32::to_be_bytes`: the high half, then the low half. */
  function Be32(x: u32): (b: Bytes)
    ensures |b| == 4
  {
    Be16(x / 0x1_0000) + Be16(x % 0x1_0000)
  }

  /** `u32::from_be_bytes`. */
  function FromBe32(a: u8, b: u8, c: u8, d: u8): u32 {
    Word(a, b) * 0x1_0000 + Word(c, d)
  }

  lemma Be16RoundTrip(w: u16)
    ensures Word(Be16(w)[0], Be16(w)[1]) == w
  {
  }

  lemma Be32RoundTrip(x: u32)
    ensures var b := Be32(x); FromBe32(b[0], b[1], b[2], b[3]) == x
  {
    var hi, lo := x / 0x1_0000, x % 0x1_0000;
    Be16RoundTrip(hi);
    Be16RoundTrip(lo);
  }
}

/** The protocol byte and the pseudo-header checksum (src/protocol.rs). */
module ProtocolCodec {
  import opened SeqSpace
  import opened Wire
  import opened Buffers
  import opened Checksum
  import opened ChecksumProofs

  const ETHERNET_MTU: nat := 1500

  datatype Protocol = Icmp | Tcp | Udp

  function ProtocolByte(p: Protocol): u8 {
    match p
    case Icmp => 1
    case Tcp => 6
    case Udp => 17
  }

  function ProtocolOf(b: u8): (r: Result<Protocol>)
    ensures r.Ok? <==> exists p :: ProtocolByte(p) == b
    ensures forall p :: ProtocolByte(p) == b ==> r == Ok(p)
  {
    assert ProtocolByte(Icmp) == 1 && ProtocolByte(Tcp) == 6 && ProtocolByte(Udp) == 17;
    if b == 1 then Ok(Icmp) else if b == 6 then Ok(Tcp) else if b == 17 then Ok(Udp) else Err(BadProtocol)
  }

  function Octets(a: Ipv4Addr): (b: Bytes)
    ensures |b| == 4
  {
    [a.a, a.b, a.c, a.d]
  }

  function PseudoHeader(ipPair: IpPair, protocol: Protocol, len: u16): (b: Bytes)
    ensures |b| == 12
  {
    Octets(ipPair.src) + Octets(ipPair.dst) + [0, ProtocolByte(protocol)] + Be16(len)
  }

  /** The checksum of the pseudo-header and `data`, as RFC 1071 defines it. */
  function PseudoChecksum(data: Bytes, ipPair: IpPair, protocol: Protocol): u16
    requires |data| <= ETHERNET_MTU
  {
    InternetChecksum(PseudoHeader(ipPair, protocol, |data|) + data)
  }

  /** The first part of `pseudo_hdr_cksum`: fills in the pseudo-header. */
  method PutPseudoHeader(cksumData: array<u8>, ipPair: IpPair, protocol: Protocol, protoLen: u16)
    requires cksumData.Length == 12 + ETHERNET_MTU && forall i :: 0 <= i < 12 ==> cksumData[i] == 0
    modifies cksumData
    ensures cksumData[..12] == PseudoHeader(ipPair, protocol, protoLen)
  {
    var ok := TryPut(cksumData, 0, Octets(ipPair.src));
    ok := TryPut(cksumData, 4, Octets(ipPair.dst));
    cksumData[9] := ProtocolByte(protocol);
    ok := TryPut(cksumData, 10, Be16(protoLen));
  }

  /** `pseudo_hdr_cksum`: fails on data longer than its buffer, otherwise it is the Internet checksum
      of the pseudo-header and the data. */
  method PseudoHdrCksum(data: Bytes, ipPair: IpPair, protocol: Protocol) returns (r: Result<u16>)
    ensures r.Ok? <==> |data| <= ETHERNET_MTU
    ensures r.Ok? ==> r.value == PseudoChecksum(data, ipPair, protocol)
  {
    if |data| > 0xFFFF {
      return Err(DoesNotFit);
    }
    var protoLen: u16 := |data|;
    var cksumLen := 12 + protoLen;
    var cksumData := new u8[12 + ETHERNET_MTU](_ => 0);
    PutPseudoHeader(cksumData, ipPair, protocol, protoLen);
    var ok := TryPut(cksumData, 12, data);
    if !ok {
      return Err(DoesNotFit);
    }
    var covered := cksumData[..cksumLen];
    assert covered == PseudoHeader(ipPair, protocol, protoLen) + data;
    CalculateIsInternetChecksum(covered);
    r := Ok(Calculate(covered));
  }

  lemma SpliceWord(a: Bytes, rest: Bytes, p: nat, w: u16)
    requires p + 1 < |a|
    ensures Splice(a + rest, p, Be16(w)) == WithWord(a, p, w) + rest
  {
  }

  lemma StampInside(head: Bytes, bare: Bytes, rest: Bytes, p: nat, w: u16)
    requires p + 1 < |bare|
    ensures Splice(head + bare + rest, |head| + p, Be16(w)) == head + WithWord(bare, p, w) + rest
  {
  }

  /** The checksum as sent: UDP replaces zero by all ones. */
  function SentChecksum(c: u16, avoidZero: bool): u16 {
    if avoidZero && c == 0 then 0xFFFF else c
  }

  /** The last step of both writers: the checksum over the pseudo-header and the `len` bytes written
      at `base`, put into its field at `p`. */
  method WriteChecksum(buf: array<u8>, base: nat, len: u16, p: nat, avoidZero: bool, ipPair: IpPair, protocol: Protocol,
                       ghost head: Bytes, ghost bare: Bytes, ghost rest: Bytes) returns (ok: bool)
    requires base == |head| && |bare| == len && p + 1 < len && buf[..] == head + bare + rest
    modifies buf
    ensures ok <==> len <= ETHERNET_MTU
    ensures ok ==> buf[..] == head + WithWord(bare, p, SentChecksum(PseudoChecksum(bare, ipPair, protocol), avoidZero)) + rest
    ensures buf[..base] == head
  {
    assert buf[base..base + len] == bare;
    var cksum := PseudoHdrCksum(buf[base..base + len], ipPair, protocol);
    if cksum.Err? {
      return false;
    }
    ok := TryPut(buf, base + p, Be16(if avoidZero && cksum.value == 0 then 0xFFFF else cksum.value));
    StampInside(head, bare, rest, p, SentChecksum(cksum.value, avoidZero));
  }

  /** Writing the pseudo-header checksum into a zeroed aligned field makes the data verify. */
  lemma PseudoInsertVerifies(data: Bytes, ipPair: IpPair, protocol: Protocol, p: nat)
    requires |data| <= ETHERNET_MTU && p % 2 == 0 && p + 1 < |data| && data[p] == 0 && data[p + 1] == 0
    ensures PseudoChecksum(WithWord(data, p, PseudoChecksum(data, ipPair, protocol)), ipPair, protocol) == 0
    ensures PseudoChecksum(data, ipPair, protocol) == 0 ==>
      PseudoChecksum(WithWord(data, p, 0xFFFF), ipPair, protocol) == 0
  {
    var hdr := PseudoHeader(ipPair, protocol, |data|);
    var whole := hdr + data;
    assert whole[12 + p] == 0 && whole[12 + p + 1] == 0;
    InsertedChecksumVerifies(whole, 12 + p);
    var c := InternetChecksum(whole);
    assert hdr + WithWord(data, p, c) == WithWord(whole, 12 + p, c);
    if c == 0 {
      OnesForZeroVerifies(whole, 12 + p);
      assert hdr + WithWord(data, p, 0xFFFF) == WithWord(whole, 12 + p, 0xFFFF);
    }
  }
}

/** IPv4 headers without options (src/ipv4_header.rs). */
module Ipv4Codec {
  import opened SeqSpace
  import opened Wire
  import opened Buffers
  import opened Checksum
  import opened ChecksumProofs
  import opened ProtocolCodec

  const IPV4_HDR_MIN_LEN: nat := 20

  datatype Ipv4Header = Ipv4Header(totalLen: u16, protocol: Protocol, ipPair: IpPair)

  datatype Parsed = Parsed(header: Ipv4Header, payload: Bytes)

  /** `inner_parse`. */
  function ParseIpv4(data: Bytes): Result<Parsed> {
    if |data| < IPV4_HDR_MIN_LEN then Err(TooShort)
    else if data[0] / 16 != 4 then Err(BadVersion)
    else if Calculate(data[..IPV4_HDR_MIN_LEN]) != 0 then Err(BadChecksum)
    else
      var protocol := ProtocolOf(data[9]);
      var ihlBytes := data[0] % 16 * 4;
      if protocol.Err? then Err(protocol.error)
      else if ihlBytes > |data| then Err(ShorterThanIhl)
      else
        var pair := IpPair(Ipv4Addr(data[12], data[13], data[14], data[15]), Ipv4Addr(data[16], data[17], data[18], data[19]));
        Ok(Parsed(Ipv4Header(Word(data[2], data[3]), protocol.value, pair), data[ihlBytes..]))
  }

  /** `inner_try_new`. */
  function TryNew(protocol: Protocol, ipPair: IpPair, protoLen: u16): Result<Ipv4Header> {
    if IPV4_HDR_MIN_LEN + protoLen <= 0xFFFF then Ok(Ipv4Header(IPV4_HDR_MIN_LEN + protoLen, protocol, ipPair))
    else Err(DoesNotFit)
  }

  /** The header with its checksum field still zero. */
  function BareIpv4(h: Ipv4Header): (b: Bytes)
    ensures |b| == IPV4_HDR_MIN_LEN && b[10] == 0 && b[11] == 0
  {
    [0x45, 0] + Be16(h.totalLen) + [0, 0] + [0x40, 0] + [64, ProtocolByte(h.protocol)] + [0, 0]
    + Octets(h.ipPair.src) + Octets(h.ipPair.dst)
  }

  function Ipv4Bytes(h: Ipv4Header): (b: Bytes)
    ensures |b| == IPV4_HDR_MIN_LEN
  {
    WithWord(BareIpv4(h), 10, InternetChecksum(BareIpv4(h)))
  }

  /** The fields of the header, the checksum still zero. */
  method WriteIpv4Fields(h: Ipv4Header, buf: array<u8>)
    requires buf.Length == ETHERNET_MTU
    modifies buf
    ensures buf[..] == BareIpv4(h) + old(buf[IPV4_HDR_MIN_LEN..])
  {
    ghost var was := buf[..];
    var ok := PutNext(buf, 0, [0x40 + 5, 0], [], [], was);
    ghost var done := [0x45, 0];
    ok := PutNext(buf, 2, Be16(h.totalLen), [], done, was);
    done := done + Be16(h.totalLen);
    ok := PutNext(buf, 4, [0, 0], [], done, was);
    done := done + [0, 0];
    ok := PutNext(buf, 6, [0x40, 0], [], done, was);
    done := done + [0x40, 0];
    ok := PutNext(buf, 8, [64, ProtocolByte(h.protocol)], [], done, was);
    done := done + [64, ProtocolByte(h.protocol)];
    ok := PutNext(buf, 10, [0, 0], [], done, was);
    done := done + [0, 0];
    ok := PutNext(buf, 12, Octets(h.ipPair.src), [], done, was);
    done := done + Octets(h.ipPair.src);
    ok := PutNext(buf, 16, Octets(h.ipPair.dst), [], done, was);
  }

  /** The header checksum, over the first 20 bytes. */
  method WriteIpv4Checksum(buf: array<u8>)
    requires buf.Length == ETHERNET_MTU
    modifies buf
    ensures var bare := old(buf[..IPV4_HDR_MIN_LEN]);
      buf[..] == WithWord(bare, 10, InternetChecksum(bare)) + old(buf[IPV4_HDR_MIN_LEN..])
  {
    ghost var bare, rest := buf[..IPV4_HDR_MIN_LEN], buf[IPV4_HDR_MIN_LEN..];
    assert buf[..] == bare + rest;
    CalculateIsInternetChecksum(bare);
    var cksum := Calculate(buf[..IPV4_HDR_MIN_LEN]);
    var ok := TryPut(buf, 10, Be16(cksum));
    SpliceWord(bare, rest, 10, cksum);
  }

  /** `inner_write_into`. */
  method WriteIpv4(h: Ipv4Header, buf: array<u8>)
    requires buf.Length == ETHERNET_MTU
    modifies buf
    ensures buf[..] == Ipv4Bytes(h) + old(buf[IPV4_HDR_MIN_LEN..])
  {
    ghost var rest := buf[IPV4_HDR_MIN_LEN..];
    WriteIpv4Fields(h, buf);
    assert buf[..IPV4_HDR_MIN_LEN] == BareIpv4(h) && buf[IPV4_HDR_MIN_LEN..] == rest;
    WriteIpv4Checksum(buf);
  }

  /** The bytes of `b` hold the fields of `h`. */
  predicate HoldsIpv4(b: Bytes, h: Ipv4Header) {
    && |b| == IPV4_HDR_MIN_LEN && b[0] == 0x45
    && b[2] == h.totalLen / 0x100 && b[3] == h.totalLen % 0x100
    && b[9] == ProtocolByte(h.protocol)
    && b[12..16] == Octets(h.ipPair.src) && b[16..20] == Octets(h.ipPair.dst)
  }

  lemma BareHoldsIpv4(h: Ipv4Header)
    ensures HoldsIpv4(BareIpv4(h), h)
  {
  }

  lemma ParsesWhatItHolds(b: Bytes, h: Ipv4Header, payload: Bytes)
    requires HoldsIpv4(b, h) && InternetChecksum(b) == 0
    ensures ParseIpv4(b + payload) == Ok(Parsed(h, payload))
  {
    var data := b + payload;
    assert data[..IPV4_HDR_MIN_LEN] == b && data[IPV4_HDR_MIN_LEN..] == payload;
    CalculateIsInternetChecksum(b);
    assert forall i :: 0 <= i < 4 ==> data[12 + i] == b[12..16][i] && data[16 + i] == b[16..20][i];
    assert ProtocolOf(data[9]) == Ok(h.protocol);
  }

  /** A written header parses back to itself and hands on the payload. */
  lemma Ipv4RoundTrip(h: Ipv4Header, payload: Bytes)
    ensures ParseIpv4(Ipv4Bytes(h) + payload) == Ok(Parsed(h, payload))
  {
    InsertedChecksumVerifies(BareIpv4(h), 10);
    BareHoldsIpv4(h);
    StampKeepsIpv4(BareIpv4(h), h, InternetChecksum(BareIpv4(h)));
    ParsesWhatItHolds(Ipv4Bytes(h), h, payload);
  }

  lemma StampKeepsIpv4(b: Bytes, h: Ipv4Header, w: u16)
    requires HoldsIpv4(b, h)
    ensures HoldsIpv4(WithWord(b, 10, w), h)
  {
  }
}

/** TCP segments on the wire (src/protocol/tcp.rs, src/protocol/tcp/flags.rs). */
module TcpCodec {
  import opened SeqSpace
  import opened Wire
  import opened Buffers
  import opened Checksum
  import opened ChecksumProofs
  import opened ProtocolCodec

  const HDR: nat := 20

  function FlagsByte(f: Flags): u8 {
    match f
    case Syn => 0x02
    case SynAck => 0x12
    case Ack => 0x10
    case FinAck => 0x11
    case Rst => 0x04
    case RstAck => 0x14
  }

  /** The ACK, RST, SYN and FIN bits of a byte; the others are masked off. */
  function Masked(b: u8): u8 {
    b / 16 % 2 * 16 + b / 4 % 2 * 4 + b / 2 % 2 * 2 + b % 2
  }

  /** `TcpFlags::try_from`. */
  function FlagsOf(b: u8): (r: Result<Flags>)
    ensures r.Ok? <==> exists f :: FlagsByte(f) == Masked(b)
    ensures forall f :: FlagsByte(f) == Masked(b) ==> r == Ok(f)
  {
    var m := Masked(b);
    assert FlagsByte(Syn) == 2 && FlagsByte(SynAck) == 18 && FlagsByte(Ack) == 16;
    assert FlagsByte(FinAck) == 17 && FlagsByte(Rst) == 4 && FlagsByte(RstAck) == 20;
    if m == 2 then Ok(Syn) else if m == 16 then Ok(Ack) else if m == 4 then Ok(Rst)
    else if m == 18 then Ok(SynAck) else if m == 17 then Ok(FinAck) else if m == 20 then Ok(RstAck)
    else Err(BadFlags)
  }

  lemma FlagsRoundTrip(f: Flags)
    ensures FlagsOf(FlagsByte(f)) == Ok(f)
  {
    assert Masked(FlagsByte(f)) == FlagsByte(f);
  }

  /** `inner_parse`. */
  function ParseTcp(data: Bytes, ipPair: IpPair): Result<TcpSegment> {
    if |data| < HDR then Err(TooShort)
    else if |data| > ETHERNET_MTU then Err(DoesNotFit)
    else if Calculate(PseudoHeader(ipPair, Tcp, |data|) + data) != 0 then Err(BadChecksum)
    else
      var offsetBytes := data[12] / 16 * 4;
      var flags := FlagsOf(data[13]);
      if flags.Err? then Err(flags.error)
      else
        var payload := TryPayload(if offsetBytes <= |data| then data[offsetBytes..] else []);
        if payload.Err? then Err(payload.error)
        else
          Ok(TcpSegment(ipPair, PortPair(Word(data[0], data[1]), Word(data[2], data[3])),
                        FromBe32(data[4], data[5], data[6], data[7]),
                        FromBe32(data[8], data[9], data[10], data[11]),
                        offsetBytes, flags.value, Word(data[14], data[15]), payload.value))
  }

  /** Ports, sequence and acknowledgment numbers, offset, flags and window: bytes 0 to 15. */
  function Front(seg: TcpSegment): (b: Bytes)
    ensures |b| == 16
  {
    Be16(seg.ports.src) + Be16(seg.ports.dst) + Be32(seg.seqNum) + Be32(seg.ackNum)
    + [seg.offsetBytes / 4 * 16 % 0x100] + [FlagsByte(seg.flags)] + Be16(seg.window)
  }

  /** The segment with its checksum field still zero. */
  function BareTcp(seg: TcpSegment): (b: Bytes)
    ensures |b| == HDR + |seg.payload| && b[16] == 0 && b[17] == 0
  {
    Front(seg) + [0, 0] + [0, 0] + seg.payload
  }

  function TcpBytes(seg: TcpSegment): (b: Bytes)
    requires HDR + |seg.payload| <= ETHERNET_MTU
    ensures |b| == HDR + |seg.payload|
  {
    WithWord(BareTcp(seg), 16, PseudoChecksum(BareTcp(seg), seg.ipPair, Tcp))
  }

  // ---------------------------------------------------------------------------------------------

  /** The bytes of `b` hold the fields of `seg`, whose header has no options. */
  predicate HoldsTcp(b: Bytes, seg: TcpSegment) {
    && |b| == HDR + |seg.payload|
    && b[0] == seg.ports.src / 0x100 && b[1] == seg.ports.src % 0x100
    && b[2] == seg.ports.dst / 0x100 && b[3] == seg.ports.dst % 0x100
    && b[4..8] == Be32(seg.seqNum) && b[8..12] == Be32(seg.ackNum)
    && b[12] == 0x50 && b[13] == FlagsByte(seg.flags)
    && b[14] == seg.window / 0x100 && b[15] == seg.window % 0x100
    && b[HDR..] == seg.payload
  }

  lemma BareHoldsTcp(seg: TcpSegment)
    requires seg.offsetBytes == TCP_HDR_MIN_LEN
    ensures HoldsTcp(BareTcp(seg), seg)
  {
    FrontHolds(seg);
    var b, f := BareTcp(seg), Front(seg);
    assert b[..16] == f;
    assert b[4..8] == f[4..8] && b[8..12] == f[8..12];
  }

  lemma FrontHolds(seg: TcpSegment)
    ensures var f := Front(seg);
      && f[0] == seg.ports.src / 0x100 && f[1] == seg.ports.src % 0x100
      && f[2] == seg.ports.dst / 0x100 && f[3] == seg.ports.dst % 0x100
      && f[4..8] == Be32(seg.seqNum) && f[8..12] == Be32(seg.ackNum)
      && f[12] == seg.offsetBytes / 4 * 16 % 0x100 && f[13] == FlagsByte(seg.flags)
      && f[14] == seg.window / 0x100 && f[15] == seg.window % 0x100
  {
  }

  lemma StampKeepsTcp(b: Bytes, seg: TcpSegment, w: u16)
    requires HoldsTcp(b, seg)
    ensures HoldsTcp(WithWord(b, 16, w), seg)
  {
  }

  lemma NumbersReadBack(b: Bytes, seqNum: u32, ackNum: u32)
    requires |b| >= 12 && b[4..8] == Be32(seqNum) && b[8..12] == Be32(ackNum)
    ensures FromBe32(b[4], b[5], b[6], b[7]) == seqNum && FromBe32(b[8], b[9], b[10], b[11]) == ackNum
  {
    Be32RoundTrip(seqNum);
    Be32RoundTrip(ackNum);
    assert forall i :: 0 <= i < 4 ==> b[4 + i] == b[4..8][i] && b[8 + i] == b[8..12][i];
  }

  lemma ParsesWhatItHolds(b: Bytes, seg: TcpSegment)
    requires HoldsTcp(b, seg) && seg.offsetBytes == TCP_HDR_MIN_LEN && |b| <= ETHERNET_MTU
    requires PseudoChecksum(b, seg.ipPair, Tcp) == 0
    ensures ParseTcp(b, seg.ipPair) == Ok(seg)
  {
    CalculateIsInternetChecksum(PseudoHeader(seg.ipPair, Tcp, |b|) + b);
    FlagsRoundTrip(seg.flags);
    NumbersReadBack(b, seg.seqNum, seg.ackNum);
    assert b[12] / 16 * 4 == 20;
  }

  /** Every option-free segment that fits parses back to itself. */
  lemma TcpRoundTrip(seg: TcpSegment)
    requires seg.offsetBytes == TCP_HDR_MIN_LEN && HDR + |seg.payload| <= ETHERNET_MTU
    ensures ParseTcp(TcpBytes(seg), seg.ipPair) == Ok(seg)
  {
    var bare := BareTcp(seg);
    PseudoInsertVerifies(bare, seg.ipPair, Tcp, 16);
    BareHoldsTcp(seg);
    StampKeepsTcp(bare, seg, PseudoChecksum(bare, seg.ipPair, Tcp));
    ParsesWhatItHolds(TcpBytes(seg), seg);
  }

  // ---------------------------------------------------------------------------------------------
  // The writer, in place into the part of `buf` that starts at `base`

  /** Bytes 0 to 15. */
  method WriteFront(seg: TcpSegment, buf: array<u8>, base: nat) returns (ok: bool)
    requires base <= buf.Length
    modifies buf
    ensures ok <==> base + 16 <= buf.Length
    ensures ok ==> buf[..] == old(buf[..base]) + Front(seg) + old(buf[base + 16..])
    ensures buf[..base] == old(buf[..base])
  {
    ghost var was, head := buf[..], buf[..base];
    ok := PutPorts(buf, base, seg.ports, head, was);
    if !ok { return; }
    ghost var done := Be16(seg.ports.src) + Be16(seg.ports.dst);
    ok := PutNext(buf, base + 4, Be32(seg.seqNum), head, done, was);
    if !ok { return; }
    done := done + Be32(seg.seqNum);
    ok := PutNext(buf, base + 8, Be32(seg.ackNum), head, done, was);
    if !ok { return; }
    done := done + Be32(seg.ackNum);
    ok := PutNext(buf, base + 12, [seg.offsetBytes / 4 * 16 % 0x100], head, done, was);
    if !ok { return; }
    done := done + [seg.offsetBytes / 4 * 16 % 0x100];
    ok := PutNext(buf, base + 13, [FlagsByte(seg.flags)], head, done, was);
    if !ok { return; }
    done := done + [FlagsByte(seg.flags)];
    ok := PutNext(buf, base + 14, Be16(seg.window), head, done, was);
  }

  lemma Reassociate(a: Bytes, mid: Bytes, payload: Bytes)
    ensures a + mid + [0, 0] + payload == a + mid + ([0, 0] + payload)
  {
  }

  /** The urgent pointer, the payload and a zero checksum field. */
  method WriteBack(payload: Bytes, buf: array<u8>, base: nat, ghost head: Bytes, ghost front: Bytes, ghost was: Bytes)
    returns (ok: bool)
    requires base == |head| && |front| == 16 && base + 16 <= |was| && buf[..] == head + front + was[base + 16..]
    modifies buf
    ensures ok <==> base + HDR + |payload| <= buf.Length
    ensures ok ==> buf[..] == head + (front + [0, 0] + [0, 0] + payload) + was[base + HDR + |payload|..]
    ensures buf[..base] == head
  {
    assert |buf[..]| == buf.Length == |was|;
    if base + 18 > buf.Length {
      ok := TryPut(buf, base + 18, [0, 0]);
      return;
    }
    ghost var skipped := was[base + 16..base + 18];
    SkipAhead(head, front, was, 2);
    ok := PutNext(buf, base + 18, [0, 0], head, front + skipped, was);
    if !ok { return; }
    ok := PutNext(buf, base + HDR, payload, head, front + skipped + [0, 0], was);
    if !ok { return; }
    Reassociate(front, skipped, payload);
    PutMiddle(buf, base + 16, [0, 0], head, front, skipped, [0, 0] + payload, was[base + HDR + |payload|..]);
    Reassociate(front, [0, 0], payload);
  }

  /** `inner_write_into`: succeeds exactly when the segment fits, leaves what lies before it and
      behind it alone, and does not depend on what the buffer held. */
  method WriteTcp(seg: TcpSegment, buf: array<u8>, base: nat) returns (r: Result<u16>)
    requires base <= buf.Length
    modifies buf
    ensures r.Ok? <==> base + HDR + |seg.payload| <= buf.Length && HDR + |seg.payload| <= ETHERNET_MTU
    ensures r.Ok? ==>
      && r.value == HDR + |seg.payload|
      && buf[..] == old(buf[..base]) + TcpBytes(seg) + old(buf[base + r.value..])
    ensures buf[..base] == old(buf[..base])
  {
    ghost var was, head := buf[..], buf[..base];
    var ok := WriteFront(seg, buf, base);
    if !ok {
      return Err(DoesNotFit);
    }
    ok := WriteBack(seg.payload, buf, base, head, Front(seg), was);
    if !ok || HDR + |seg.payload| > 0xFFFF {
      return Err(DoesNotFit);
    }
    var segLen: u16 := HDR + |seg.payload|;
    ok := WriteChecksum(buf, base, segLen, 16, false, seg.ipPair, Tcp, head, BareTcp(seg), was[base + segLen..]);
    r := if ok then Ok(segLen) else Err(DoesNotFit);
  }
}

/** UDP datagrams (src/protocol/udp.rs). */
module UdpCodec {
  import opened SeqSpace
  import opened Wire
  import opened Buffers
  import opened Checksum
  import opened ChecksumProofs
  import opened ProtocolCodec

  const UDP_HDR_LEN: nat := 8

  datatype UdpDatagram = UdpDatagram(ipPair: IpPair, ports: PortPair, payload: Bytes)

  /** `parse`: a zero checksum field means the sender computed none. */
  function ParseUdp(data: Bytes, ipPair: IpPair): Result<UdpDatagram> {
    if |data| < UDP_HDR_LEN then Err(TooShort)
    else if Word(data[6], data[7]) != 0 && |data| > ETHERNET_MTU then Err(DoesNotFit)
    else if Word(data[6], data[7]) != 0 && Calculate(PseudoHeader(ipPair, Udp, |data|) + data) != 0 then Err(BadChecksum)
    else Ok(UdpDatagram(ipPair, PortPair(Word(data[0], data[1]), Word(data[2], data[3])), data[UDP_HDR_LEN..]))
  }

  /** `create_reply`. */
  function CreateReply(d: UdpDatagram): UdpDatagram {
    UdpDatagram(d.ipPair.Swapped(), d.ports.Swapped(), d.payload)
  }

  function BareUdp(d: UdpDatagram): (b: Bytes)
    requires UDP_HDR_LEN + |d.payload| <= 0xFFFF
    ensures |b| == UDP_HDR_LEN + |d.payload| && b[6] == 0 && b[7] == 0
  {
    Be16(d.ports.src) + Be16(d.ports.dst) + Be16(UDP_HDR_LEN + |d.payload|) + [0, 0] + d.payload
  }

  function UdpBytes(d: UdpDatagram): (b: Bytes)
    requires UDP_HDR_LEN + |d.payload| <= ETHERNET_MTU
    ensures |b| == UDP_HDR_LEN + |d.payload|
  {
    WithWord(BareUdp(d), 6, SentChecksum(PseudoChecksum(BareUdp(d), d.ipPair, Udp), true))
  }

  /** `write_into`. */
  method WriteUdp(d: UdpDatagram, buf: array<u8>, base: nat) returns (r: Result<u16>)
    requires base <= buf.Length
    modifies buf
    ensures r.Ok? <==> base + UDP_HDR_LEN + |d.payload| <= buf.Length && UDP_HDR_LEN + |d.payload| <= ETHERNET_MTU
    ensures r.Ok? ==>
      && r.value == UDP_HDR_LEN + |d.payload|
      && buf[..] == old(buf[..base]) + UdpBytes(d) + old(buf[base + r.value..])
  {
    ghost var was, head := buf[..], buf[..base];
    var ok := PutPorts(buf, base, d.ports, head, was);
    if !ok { return Err(DoesNotFit); }
    ghost var done := Be16(d.ports.src) + Be16(d.ports.dst);
    if UDP_HDR_LEN + |d.payload| > 0xFFFF {
      return Err(DoesNotFit);
    }
    var udpLen: u16 := UDP_HDR_LEN + |d.payload|;
    ok := PutNext(buf, base + 4, Be16(udpLen), head, done, was);
    if !ok { return Err(DoesNotFit); }
    done := done + Be16(udpLen);
    ok := WriteBody(d, buf, base, head, done, was);
    if !ok { return Err(DoesNotFit); }
    ok := WriteChecksum(buf, base, udpLen, 6, true, d.ipPair, Udp, head, BareUdp(d), was[base + udpLen..]);
    r := if ok then Ok(udpLen) else Err(DoesNotFit);
  }

  /** The payload and a zero checksum field. */
  method WriteBody(d: UdpDatagram, buf: array<u8>, base: nat, ghost head: Bytes, ghost done: Bytes, ghost was: Bytes)
    returns (ok: bool)
    requires base == |head| && |done| == 6 && base + 6 <= |was| && buf[..] == head + done + was[base + 6..]
    modifies buf
    ensures ok <==> base + UDP_HDR_LEN + |d.payload| <= buf.Length
    ensures ok ==> buf[..] == head + (done + [0, 0] + d.payload) + was[base + UDP_HDR_LEN + |d.payload|..]
  {
    assert |buf[..]| == buf.Length == |was|;
    if base + 8 > buf.Length {
      ok := TryPut(buf, base + 8, d.payload);
      return;
    }
    ghost var skipped := was[base + 6..base + 8];
    SkipAhead(head, done, was, 2);
    ok := PutNext(buf, base + UDP_HDR_LEN, d.payload, head, done + skipped, was);
    if !ok { return; }
    PutMiddle(buf, base + 6, [0, 0], head, done, skipped, d.payload, was[base + UDP_HDR_LEN + |d.payload|..]);
  }

  /** A datagram on the wire never carries a zero checksum, and parses back to itself. */
  lemma UdpRoundTrip(d: UdpDatagram)
    requires UDP_HDR_LEN + |d.payload| <= ETHERNET_MTU
    ensures ParseUdp(UdpBytes(d), d.ipPair) == Ok(d)
    ensures Word(UdpBytes(d)[6], UdpBytes(d)[7]) != 0
  {
    var bare, b := BareUdp(d), UdpBytes(d);
    PseudoInsertVerifies(bare, d.ipPair, Udp, 6);
    CalculateIsInternetChecksum(PseudoHeader(d.ipPair, Udp, |b|) + b);
    BareUdpFields(d);
    assert b[UDP_HDR_LEN..] == bare[UDP_HDR_LEN..];
  }

  lemma BareUdpFields(d: UdpDatagram)
    requires UDP_HDR_LEN + |d.payload| <= 0xFFFF
    ensures var b := BareUdp(d);
      && Word(b[0], b[1]) == d.ports.src && Word(b[2], b[3]) == d.ports.dst
      && b[UDP_HDR_LEN..] == d.payload
  {
  }

  /** The echo of a datagram, read by the client, is the datagram it sent with the ends swapped. */
  lemma UdpEchoes(d: UdpDatagram)
    requires UDP_HDR_LEN + |d.payload| <= ETHERNET_MTU
    ensures var back := IpPair(d.ipPair.dst, d.ipPair.src);
      ParseUdp(UdpBytes(CreateReply(d)), back) == Ok(UdpDatagram(back, PortPair(d.ports.dst, d.ports.src), d.payload))
    ensures CreateReply(CreateReply(d)) == d
  {
    UdpRoundTrip(CreateReply(d));
  }
}

/** Whole packets, as `send_pkt` writes them (src/server.rs). */
module PacketCodec {
  import opened SeqSpace
  import opened Wire
  import opened ProtocolCodec
  import opened Ipv4Codec
  import opened TcpCodec

  /** The longest payload that fits into a packet with its two headers. */
  const MAX_PAYLOAD: nat := ETHERNET_MTU - IPV4_HDR_MIN_LEN - HDR

  predicate FitsPacket(payload: Payload) {
    |payload| <= MAX_PAYLOAD
  }

  function Packet(seg: TcpSegment): Bytes
    requires HDR + |seg.payload| <= ETHERNET_MTU
  {
    Ipv4Bytes(Ipv4Header(IPV4_HDR_MIN_LEN + HDR + |seg.payload|, Tcp, seg.ipPair)) + TcpBytes(seg)
  }

  lemma FirstBytes(hdr: Bytes, rest: Bytes, body: Bytes)
    requires body <= rest
    ensures (hdr + rest)[..|hdr| + |body|] == hdr + body
  {
  }

  lemma BodyComesNext(buf: Bytes, at: nat, body: Bytes)
    requires at + |body| <= |buf| && buf == buf[..at] + body + buf[at + |body|..]
    ensures body <= buf[at..]
  {
    assert buf[at..] == body + buf[at + |body|..];
  }

  /** The encoding half of `send_pkt`: whatever the buffer held, the packet handed to the device is
      the encoding of the segment, and it fails exactly on payloads over 1460 bytes. */
  method EncodePacket(seg: TcpSegment, writeBuf: array<u8>) returns (r: Result<Bytes>)
    requires writeBuf.Length == ETHERNET_MTU
    modifies writeBuf
    ensures r.Ok? <==> FitsPacket(seg.payload)
    ensures r.Ok? <==> |seg.payload| <= 1460
    ensures r.Ok? ==> r.value == Packet(seg)
  {
    var protoLen := WriteTcp(seg, writeBuf, IPV4_HDR_MIN_LEN);
    if protoLen.Err? {
      return Err(protoLen.error);
    }
    ghost var body, before := TcpBytes(seg), writeBuf[..];
    ghost var rest := writeBuf[IPV4_HDR_MIN_LEN..];
    BodyComesNext(before, IPV4_HDR_MIN_LEN, body);
    var header := TryNew(Tcp, seg.ipPair, protoLen.value);
    WriteIpv4(header.value, writeBuf);
    FirstBytes(Ipv4Bytes(header.value), rest, body);
    r := Ok(writeBuf[..header.value.totalLen]);
  }

  /** A packet parsed as far as a TCP segment; any other protocol is not one. */
  function ParsePacket(data: Bytes): Result<TcpSegment> {
    var parsed := ParseIpv4(data);
    if parsed.Err? then Err(parsed.error)
    else if parsed.value.header.protocol != Tcp then Err(BadProtocol)
    else ParseTcp(parsed.value.payload, parsed.value.header.ipPair)
  }

  /** Codec round trip: parsing the packet of an option-free segment gives back the header, its length
      and every field of the segment. */
  lemma PacketRoundTrip(seg: TcpSegment)
    requires seg.offsetBytes == TCP_HDR_MIN_LEN && FitsPacket(seg.payload)
    ensures var parsed := ParseIpv4(Packet(seg));
      && parsed.Ok?
      && parsed.value.header == Ipv4Header(IPV4_HDR_MIN_LEN + HDR + |seg.payload|, Tcp, seg.ipPair)
      && parsed.value.header.totalLen == |Packet(seg)|
      && ParseTcp(parsed.value.payload, parsed.value.header.ipPair) == Ok(seg)
    ensures ParsePacket(Packet(seg)) == Ok(seg)
  {
    Ipv4RoundTrip(Ipv4Header(IPV4_HDR_MIN_LEN + HDR + |seg.payload|, Tcp, seg.ipPair), TcpBytes(seg));
    TcpRoundTrip(seg);
  }
}
