/** The wire formats, byte by byte: where each field of a written packet is, which bytes are accepted, and
    what is read from them, told with literal offsets and numbers and not by the codecs' own helpers. */
module WireFormat {
  import opened SeqSpace
  import opened Wire
  import opened Buffers
  import opened Checksum
  import opened ChecksumProofs
  import opened ProtocolCodec
  import opened Ipv4Codec
  import opened TcpCodec
  import opened UdpCodec
  import opened PacketCodec

  /** The number that bytes stand for, most significant byte first. */
  function BigEndian(b: Bytes): nat {
    if b == [] then 0 else BigEndian(b[..|b| - 1]) * 256 + b[|b| - 1]
  }

  lemma BigEndianOfTwo(b: Bytes)
    requires |b| == 2
    ensures BigEndian(b) == b[0] as int * 256 + b[1] as int
  {
    assert BigEndian(b[..1]) == b[0] by { assert b[..1][..0] == []; }
  }

  lemma BigEndianOfFour(b: Bytes)
    requires |b| == 4
    ensures BigEndian(b) == (b[0] as int * 256 + b[1] as int) * 65536 + (b[2] as int * 256 + b[3] as int)
  {
    BigEndianOfTwo(b[..2]);
    assert b[..3][..2] == b[..2];
    assert BigEndian(b[..3]) == BigEndian(b[..2]) * 256 + b[2];
  }

  lemma ReadsWord(data: Bytes, i: nat)
    requires i + 2 <= |data|
    ensures BigEndian(data[i..i + 2]) == Word(data[i], data[i + 1])
  {
    BigEndianOfTwo(data[i..i + 2]);
  }

  lemma ReadsLong(data: Bytes, i: nat)
    requires i + 4 <= |data|
    ensures BigEndian(data[i..i + 4]) == FromBe32(data[i], data[i + 1], data[i + 2], data[i + 3])
  {
    BigEndianOfFour(data[i..i + 4]);
  }

  // ---------------------------------------------------------------------------------------------
  // The pseudo-header

  /** The protocol numbers assigned by IANA. */
  function Number(p: Protocol): nat {
    match p
    case Icmp => 1
    case Tcp => 6
    case Udp => 17
  }

  function AddressWords(p: IpPair): nat {
    (p.src.a * 256 + p.src.b) + (p.src.c * 256 + p.src.d) + (p.dst.a * 256 + p.dst.b) + (p.dst.c * 256 + p.dst.d)
  }

  /** What the 16-bit words under a transport checksum add up to. */
  function Covered(data: Bytes, ipPair: IpPair, protocol: Protocol): nat {
    AddressWords(ipPair) + Number(protocol) + |data| + Total(data)
  }

  lemma PseudoHeaderTotal(ipPair: IpPair, protocol: Protocol, len: u16)
    ensures Total(PseudoHeader(ipPair, protocol, len)) == AddressWords(ipPair) + Number(protocol) + len
  {
    var addresses := Octets(ipPair.src) + Octets(ipPair.dst);
    var rest := [0, ProtocolByte(protocol)] + Be16(len);
    assert PseudoHeader(ipPair, protocol, len) == addresses + rest;
    TotalSplits(addresses, rest);
    TotalOfAtMostEight(addresses);
    TotalOfAtMostEight(rest);
    Be16RoundTrip(len);
  }

  /** The transport checksum is the complement of what the words of addresses, protocol number, length and
      data add up to. */
  lemma PseudoChecksumIs(data: Bytes, ipPair: IpPair, protocol: Protocol)
    requires |data| <= ETHERNET_MTU
    ensures PseudoChecksum(data, ipPair, protocol) == 0xFFFF - Canon(Covered(data, ipPair, protocol))
    ensures PseudoChecksum(data, ipPair, protocol) == 0 <==> Covered(data, ipPair, protocol) % 0xFFFF == 0
  {
    var hdr := PseudoHeader(ipPair, protocol, |data|);
    PseudoHeaderTotal(ipPair, protocol, |data|);
    TotalSplits(hdr, data);
    OnesSumIsCanon(hdr + data);
    VerifiesIff(hdr + data);
  }

  predicate Verifies(data: Bytes, ipPair: IpPair, protocol: Protocol) {
    Covered(data, ipPair, protocol) % 0xFFFF == 0
  }

  /** What the fast checksum of the parsers decides. */
  lemma ChecksumDecides(data: Bytes, ipPair: IpPair, protocol: Protocol)
    requires |data| <= ETHERNET_MTU
    ensures Calculate(PseudoHeader(ipPair, protocol, |data|) + data) == 0 <==> Verifies(data, ipPair, protocol)
  {
    PseudoChecksumIs(data, ipPair, protocol);
    CalculateIsInternetChecksum(PseudoHeader(ipPair, protocol, |data|) + data);
  }

  lemma StampVerifies(bare: Bytes, ipPair: IpPair, protocol: Protocol, p: nat)
    requires |bare| <= ETHERNET_MTU && p % 2 == 0 && p + 1 < |bare| && bare[p] == 0 && bare[p + 1] == 0
    ensures Verifies(WithWord(bare, p, PseudoChecksum(bare, ipPair, protocol)), ipPair, protocol)
  {
    PseudoInsertVerifies(bare, ipPair, protocol, p);
    PseudoChecksumIs(WithWord(bare, p, PseudoChecksum(bare, ipPair, protocol)), ipPair, protocol);
  }

  // ---------------------------------------------------------------------------------------------
  // Flags

  /** The bit of weight `w` is set. */
  predicate HasBit(b: u8, w: nat)
    requires w > 0
  {
    b / w % 2 == 1
  }

  /** The flags by the ACK, RST, SYN and FIN bits: six of the sixteen combinations are accepted. */
  function FlagsByBits(ack: bool, rst: bool, syn: bool, fin: bool): Option<Flags> {
    if rst then if syn || fin then None else if ack then Some(RstAck) else Some(Rst)
    else if syn then if fin then None else if ack then Some(SynAck) else Some(Syn)
    else if !ack then None else if fin then Some(FinAck) else Some(Ack)
  }

  function FlagsIn(b: u8): Option<Flags> {
    FlagsByBits(HasBit(b, 0x10), HasBit(b, 0x04), HasBit(b, 0x02), HasBit(b, 0x01))
  }

  lemma MaskedBits(b: u8)
    ensures Masked(b) == (if HasBit(b, 0x10) then 16 else 0) + (if HasBit(b, 0x04) then 4 else 0)
                       + (if HasBit(b, 0x02) then 2 else 0) + (if HasBit(b, 0x01) then 1 else 0)
  {
  }

  /** Which flags a byte gives depends on four of its bits, in this way. */
  lemma FlagsAre(b: u8)
    ensures FlagsOf(b) == if FlagsIn(b).Some? then Ok(FlagsIn(b).value) else Err(BadFlags)
  {
    MaskedBits(b);
  }

  lemma OtherBitsAreIgnored(a: u8, b: u8)
    requires HasBit(a, 0x10) == HasBit(b, 0x10) && HasBit(a, 0x04) == HasBit(b, 0x04)
    requires HasBit(a, 0x02) == HasBit(b, 0x02) && HasBit(a, 0x01) == HasBit(b, 0x01)
    ensures FlagsOf(a) == FlagsOf(b)
  {
    FlagsAre(a);
    FlagsAre(b);
  }

  // ---------------------------------------------------------------------------------------------
  // What the parsers accept, and what they read

  /** Where the data starts, in bytes. */
  function DataOffset(data: Bytes): nat
    requires |data| >= 20
  {
    4 * (data[12] / 16)
  }

  predicate IsTcp(data: Bytes, ipPair: IpPair) {
    && 20 <= |data| <= 1500
    && Verifies(data, ipPair, Tcp)
    && FlagsIn(data[13]).Some?
  }

  lemma ParsesIff(data: Bytes, ipPair: IpPair)
    ensures ParseTcp(data, ipPair).Ok? <==>
      20 <= |data| <= 1500 && Calculate(PseudoHeader(ipPair, Tcp, |data|) + data) == 0 && FlagsOf(data[13]).Ok?
  {
  }

  lemma TcpIsAcceptedIff(data: Bytes, ipPair: IpPair)
    ensures ParseTcp(data, ipPair).Ok? <==> IsTcp(data, ipPair)
  {
    ParsesIff(data, ipPair);
    if 20 <= |data| <= 1500 {
      ChecksumDecides(data, ipPair, Tcp);
      FlagsAre(data[13]);
    }
  }

  /** The error names the first thing that is wrong. */
  lemma TcpIsRejectedAs(data: Bytes, ipPair: IpPair)
    requires !IsTcp(data, ipPair)
    ensures ParseTcp(data, ipPair) == Err(if |data| < 20 then TooShort
                                          else if |data| > 1500 then DoesNotFit
                                          else if !Verifies(data, ipPair, Tcp) then BadChecksum
                                          else BadFlags)
  {
    if 20 <= |data| <= 1500 {
      ChecksumDecides(data, ipPair, Tcp);
      FlagsAre(data[13]);
    }
  }

  /** Every field of an accepted segment, and its data without the options. */
  lemma TcpIsRead(data: Bytes, ipPair: IpPair)
    requires ParseTcp(data, ipPair).Ok?
    ensures |data| >= 20
    ensures var r := ParseTcp(data, ipPair);
      && r.value.ipPair == ipPair
      && r.value.ports.src == BigEndian(data[0..2]) && r.value.ports.dst == BigEndian(data[2..4])
      && r.value.seqNum == BigEndian(data[4..8]) && r.value.ackNum == BigEndian(data[8..12])
      && r.value.offsetBytes == DataOffset(data) && Some(r.value.flags) == FlagsIn(data[13])
      && r.value.window == BigEndian(data[14..16])
      && r.value.payload == if DataOffset(data) <= |data| then data[DataOffset(data)..] else []
  {
    FlagsAre(data[13]);
    ReadsWord(data, 0);
    ReadsWord(data, 2);
    ReadsLong(data, 4);
    ReadsLong(data, 8);
    ReadsWord(data, 14);
  }

  /** Options are skipped: the data of an accepted segment is what comes after them. */
  lemma OptionsAreSkipped(hdr: Bytes, options: Bytes, payload: Bytes, ipPair: IpPair)
    requires |hdr| == 20 && 4 * (hdr[12] / 16) == 20 + |options| && ParseTcp(hdr + options + payload, ipPair).Ok?
    ensures ParseTcp(hdr + options + payload, ipPair).value.payload == payload
  {
    var data := hdr + options + payload;
    TcpIsRead(data, ipPair);
    assert data[20 + |options|..] == payload;
  }

  lemma DamageShows(data: Bytes, ipPair: IpPair, protocol: Protocol, p: nat, w: u16)
    requires Verifies(data, ipPair, protocol) && p % 2 == 0 && p + 1 < |data|
    ensures Verifies(WithWord(data, p, w), ipPair, protocol) <==> (w - Word(data[p], data[p + 1])) % 0xFFFF == 0
  {
    var damaged := WithWord(data, p, w);
    TotalWithWord(data, p, w);
    WordChange(Covered(data, ipPair, protocol), Word(data[p], data[p + 1]), Covered(damaged, ipPair, protocol), w);
  }

  /** Damage is noticed: from an accepted segment, changing one aligned word by anything but a multiple of
      65535 gives one that is rejected. */
  lemma DamagedTcpIsRejected(data: Bytes, ipPair: IpPair, p: nat, w: u16)
    requires ParseTcp(data, ipPair).Ok? && p % 2 == 0 && p + 1 < |data|
    requires (w - Word(data[p], data[p + 1])) % 0xFFFF != 0
    ensures ParseTcp(WithWord(data, p, w), ipPair).Err?
  {
    TcpIsAcceptedIff(data, ipPair);
    TcpIsAcceptedIff(WithWord(data, p, w), ipPair);
    DamageShows(data, ipPair, Tcp, p, w);
  }

  /** Two accepted segments that differ in the checksum field and in other bits of the flags only are read
      as the same. */
  lemma OtherFlagsAreIgnored(a: Bytes, b: Bytes, ipPair: IpPair)
    requires ParseTcp(a, ipPair).Ok? && ParseTcp(b, ipPair).Ok? && 20 <= |a| == |b| && FlagsIn(a[13]) == FlagsIn(b[13])
    requires a[..13] == b[..13] && a[14..16] == b[14..16] && a[18..] == b[18..]
    requires DataOffset(a) >= 18
    ensures ParseTcp(a, ipPair) == ParseTcp(b, ipPair)
  {
    TcpIsRead(a, ipPair);
    TcpIsRead(b, ipPair);
    SamePrefix(a, b, 13);
    var o := DataOffset(a);
    assert a[12] == a[..13][12] && b[12] == b[..13][12];
    if o <= |a| {
      assert a[o..] == a[18..][o - 18..] && b[o..] == b[18..][o - 18..];
    }
  }

  lemma SamePrefix(a: Bytes, b: Bytes, n: nat)
    requires n <= |a| && n <= |b| && a[..n] == b[..n]
    ensures forall i, j :: 0 <= i <= j <= n ==> a[i..j] == b[i..j]
  {
    assert forall i, j :: 0 <= i <= j <= n ==> a[i..j] == a[..n][i..j] && b[i..j] == b[..n][i..j];
  }

  predicate IsIpv4(data: Bytes) {
    && |data| >= 20
    && data[0] / 16 == 4
    && Total(data[..20]) % 0xFFFF == 0
    && data[9] in {1, 6, 17}
    && 4 * (data[0] % 16) <= |data|
  }

  lemma VersionCounts(data: Bytes)
    requires |data| == 20 && data[0] / 16 == 4
    ensures Total(data) > 0
  {
  }

  lemma Ipv4IsAcceptedIff(data: Bytes)
    ensures ParseIpv4(data).Ok? <==> IsIpv4(data)
  {
    if |data| >= 20 {
      CalculateIsInternetChecksum(data[..20]);
      VerifiesIff(data[..20]);
      if data[0] / 16 == 4 {
        VersionCounts(data[..20]);
      }
      assert ProtocolByte(Icmp) == 1 && ProtocolByte(Tcp) == 6 && ProtocolByte(Udp) == 17;
    }
  }

  lemma Ipv4IsRead(data: Bytes)
    requires ParseIpv4(data).Ok?
    ensures IsIpv4(data)
    ensures var r := ParseIpv4(data);
      && r.value.header.totalLen == BigEndian(data[2..4])
      && Number(r.value.header.protocol) == data[9]
      && r.value.header.ipPair.src == Ipv4Addr(data[12], data[13], data[14], data[15])
      && r.value.header.ipPair.dst == Ipv4Addr(data[16], data[17], data[18], data[19])
      && r.value.payload == data[4 * (data[0] % 16)..]
  {
    Ipv4IsAcceptedIff(data);
    ReadsWord(data, 2);
    assert ProtocolByte(Icmp) == 1 && ProtocolByte(Tcp) == 6 && ProtocolByte(Udp) == 17;
  }

  /** A zero checksum field means that there is none; otherwise it has to verify. */
  predicate IsUdp(data: Bytes, ipPair: IpPair) {
    && |data| >= 8
    && ((data[6] == 0 && data[7] == 0) || (|data| <= 1500 && Verifies(data, ipPair, Udp)))
  }

  lemma UdpIsAcceptedIff(data: Bytes, ipPair: IpPair)
    ensures ParseUdp(data, ipPair).Ok? <==> IsUdp(data, ipPair)
  {
    if 8 <= |data| <= 1500 {
      ChecksumDecides(data, ipPair, Udp);
    }
  }

  lemma UdpIsRead(data: Bytes, ipPair: IpPair)
    requires ParseUdp(data, ipPair).Ok?
    ensures |data| >= 8
    ensures var r := ParseUdp(data, ipPair);
      && r.value.ipPair == ipPair && r.value.payload == data[8..]
      && r.value.ports.src == BigEndian(data[0..2]) && r.value.ports.dst == BigEndian(data[2..4])
  {
    ReadsWord(data, 0);
    ReadsWord(data, 2);
  }

  // ---------------------------------------------------------------------------------------------
  // What the writers write

  lemma StampKeeps(b: Bytes, p: nat, w: u16, i: nat, j: nat)
    requires p + 1 < |b| && i <= j <= |b| && (j <= p || p + 2 <= i)
    ensures WithWord(b, p, w)[i..j] == b[i..j]
  {
  }

  lemma BareIpv4Layout(h: Ipv4Header)
    ensures var b := BareIpv4(h);
      && b[0..2] == [0x45, 0] && b[2..4] == Be16(h.totalLen)
      && b[4..10] == [0, 0, 0x40, 0, 64, ProtocolByte(h.protocol)]
      && b[12..16] == Octets(h.ipPair.src) && b[16..20] == Octets(h.ipPair.dst)
  {
  }

  /** Version 4, no options, the total length, no identification, do not fragment, a time to live of 64,
      the protocol number, a checksum that verifies, and the addresses. */
  lemma Ipv4Layout(h: Ipv4Header)
    ensures var b := Ipv4Bytes(h);
      && |b| == 20 && b[0..2] == [0x45, 0] && BigEndian(b[2..4]) == h.totalLen
      && b[4..9] == [0, 0, 0x40, 0, 64] && b[9] == Number(h.protocol)
      && Total(b) % 0xFFFF == 0
      && b[12..16] == [h.ipPair.src.a, h.ipPair.src.b, h.ipPair.src.c, h.ipPair.src.d]
      && b[16..20] == [h.ipPair.dst.a, h.ipPair.dst.b, h.ipPair.dst.c, h.ipPair.dst.d]
  {
    var bare, b, c := BareIpv4(h), Ipv4Bytes(h), InternetChecksum(BareIpv4(h));
    BareIpv4Layout(h);
    StampKeeps(bare, 10, c, 0, 2);
    StampKeeps(bare, 10, c, 2, 4);
    StampKeeps(bare, 10, c, 4, 10);
    StampKeeps(bare, 10, c, 12, 16);
    StampKeeps(bare, 10, c, 16, 20);
    assert b[4..9] == b[4..10][..5] && b[9] == b[4..10][5];
    InsertedChecksumVerifies(bare, 10);
    VerifiesIff(b);
    BigEndianOfTwo(b[2..4]);
    Be16RoundTrip(h.totalLen);
  }

  /** The byte that carries the flags. */
  function FlagBits(f: Flags): nat {
    match f
    case Syn => 0x02
    case SynAck => 0x12
    case Ack => 0x10
    case FinAck => 0x11
    case Rst => 0x04
    case RstAck => 0x14
  }

  lemma FrontLayout(seg: TcpSegment)
    requires seg.offsetBytes == TCP_HDR_MIN_LEN
    ensures var f := Front(seg);
      && f[0..2] == Be16(seg.ports.src) && f[2..4] == Be16(seg.ports.dst)
      && f[4..8] == Be32(seg.seqNum) && f[8..12] == Be32(seg.ackNum)
      && f[12..14] == [0x50, FlagsByte(seg.flags)] && f[14..16] == Be16(seg.window)
  {
  }

  lemma BareTcpLayout(seg: TcpSegment)
    requires seg.offsetBytes == TCP_HDR_MIN_LEN
    ensures var b := BareTcp(seg);
      && b[0..2] == Be16(seg.ports.src) && b[2..4] == Be16(seg.ports.dst)
      && b[4..8] == Be32(seg.seqNum) && b[8..12] == Be32(seg.ackNum)
      && b[12..14] == [0x50, FlagsByte(seg.flags)] && b[14..16] == Be16(seg.window)
      && b[18..20] == [0, 0] && b[20..|b|] == seg.payload
  {
    FrontLayout(seg);
    var b, f := BareTcp(seg), Front(seg);
    assert b[..16] == f;
    SamePrefix(b, f, 16);
  }

  lemma Be32IsBigEndian(x: u32)
    ensures BigEndian(Be32(x)) == x
  {
    BigEndianOfFour(Be32(x));
    Be32RoundTrip(x);
  }

  lemma Be16IsBigEndian(w: u16)
    ensures BigEndian(Be16(w)) == w
  {
    BigEndianOfTwo(Be16(w));
    Be16RoundTrip(w);
  }

  /** Ports, sequence and acknowledgment number, a header of five words, the flags, the window, no urgent
      data, the payload, and a checksum that verifies with the addresses, protocol 6 and the length. */
  lemma TcpLayout(seg: TcpSegment)
    requires seg.offsetBytes == 20 && 20 + |seg.payload| <= 1500
    ensures var b := TcpBytes(seg);
      && |b| == 20 + |seg.payload|
      && BigEndian(b[0..2]) == seg.ports.src && BigEndian(b[2..4]) == seg.ports.dst
      && BigEndian(b[4..8]) == seg.seqNum && BigEndian(b[8..12]) == seg.ackNum
      && b[12] == 0x50 && b[13] == FlagBits(seg.flags) && BigEndian(b[14..16]) == seg.window
      && b[18..20] == [0, 0] && b[20..] == seg.payload
      && Verifies(b, seg.ipPair, Tcp)
  {
    var bare, b := BareTcp(seg), TcpBytes(seg);
    var c := PseudoChecksum(bare, seg.ipPair, Tcp);
    BareTcpLayout(seg);
    StampKeeps(bare, 16, c, 0, 2);
    StampKeeps(bare, 16, c, 2, 4);
    StampKeeps(bare, 16, c, 4, 8);
    StampKeeps(bare, 16, c, 8, 12);
    StampKeeps(bare, 16, c, 12, 14);
    StampKeeps(bare, 16, c, 14, 16);
    StampKeeps(bare, 16, c, 18, 20);
    StampKeeps(bare, 16, c, 20, |bare|);
    assert b[12] == b[12..14][0] && b[13] == b[12..14][1];
    Be16IsBigEndian(seg.ports.src);
    Be16IsBigEndian(seg.ports.dst);
    Be32IsBigEndian(seg.seqNum);
    Be32IsBigEndian(seg.ackNum);
    Be16IsBigEndian(seg.window);
    StampVerifies(bare, seg.ipPair, Tcp, 16);
  }

  lemma BareUdpLayout(d: UdpDatagram)
    requires 8 + |d.payload| <= 1500
    ensures var b := BareUdp(d);
      && b[0..2] == Be16(d.ports.src) && b[2..4] == Be16(d.ports.dst)
      && b[4..6] == Be16(8 + |d.payload|) && b[8..|b|] == d.payload
  {
  }

  /** Ports, the length of header and data, the payload, and a checksum that is not zero and verifies with
      the addresses, protocol 17 and the length. */
  lemma UdpLayout(d: UdpDatagram)
    requires 8 + |d.payload| <= 1500
    ensures var b := UdpBytes(d);
      && |b| == 8 + |d.payload|
      && BigEndian(b[0..2]) == d.ports.src && BigEndian(b[2..4]) == d.ports.dst && BigEndian(b[4..6]) == |b|
      && BigEndian(b[6..8]) != 0 && b[8..] == d.payload
      && Verifies(b, d.ipPair, Udp)
  {
    var bare, b := BareUdp(d), UdpBytes(d);
    var c := PseudoChecksum(bare, d.ipPair, Udp);
    var w := SentChecksum(c, true);
    BareUdpLayout(d);
    StampKeeps(bare, 6, w, 0, 2);
    StampKeeps(bare, 6, w, 2, 4);
    StampKeeps(bare, 6, w, 4, 6);
    StampKeeps(bare, 6, w, 8, |bare|);
    Be16IsBigEndian(d.ports.src);
    Be16IsBigEndian(d.ports.dst);
    Be16IsBigEndian(8 + |d.payload|);
    UdpRoundTrip(d);
    ReadsWord(b, 6);
    PseudoInsertVerifies(bare, d.ipPair, Udp, 6);
    PseudoChecksumIs(b, d.ipPair, Udp);
  }

  // ---------------------------------------------------------------------------------------------
  // The server's packets, at the client

  /** The client reads from the packet of an outgoing segment exactly what the server decided to send, on
      its own connection, with the full window. */
  lemma ClientReads(k: ConnKey, info: SendInfo)
    requires FitsPacket(info.payload)
    ensures ParsePacket(Packet(Outgoing(k, info)))
         == Ok(TcpSegment(IpPair(k.serverIp, k.clientIp), PortPair(k.serverPort, k.clientPort),
                          info.seqNum, info.ackNum, 20, info.flags, 65535, info.payload))
  {
    PacketRoundTrip(Outgoing(k, info));
  }

  lemma HeaderThenBody(hdr: Bytes, body: Bytes)
    requires |hdr| == 20 && |body| >= 20
    ensures var b := hdr + body;
      && b[2..4] == hdr[2..4] && b[24..28] == body[4..8] && b[28..32] == body[8..12]
      && b[33] == body[13] && b[34..36] == body[14..16] && b[40..] == body[20..]
  {
  }

  /** Where sequence number, acknowledgment number, flags, window and data of an outgoing segment are. */
  lemma PacketLayout(k: ConnKey, info: SendInfo)
    requires FitsPacket(info.payload)
    ensures var b := Packet(Outgoing(k, info));
      && |b| == 40 + |info.payload| && BigEndian(b[2..4]) == |b|
      && BigEndian(b[24..28]) == info.seqNum && BigEndian(b[28..32]) == info.ackNum
      && b[33] == FlagBits(info.flags) && BigEndian(b[34..36]) == 65535 && b[40..] == info.payload
  {
    var seg := Outgoing(k, info);
    var h := Ipv4Header(IPV4_HDR_MIN_LEN + HDR + |seg.payload|, Tcp, seg.ipPair);
    var hdr, body, b := Ipv4Bytes(h), TcpBytes(seg), Packet(seg);
    TcpLayout(seg);
    Ipv4Layout(h);
    HeaderThenBody(hdr, body);
  }

  lemma PushedBytes(bare: Bytes, x: u8, w: u16, v: u16)
    requires |bare| >= 20
    ensures var a, b := WithWord(bare[13 := x], 16, w), WithWord(bare, 16, v);
      && |a| == |b| && a[13] == x && a[..13] == b[..13] && a[14..16] == b[14..16] && a[18..] == b[18..]
  {
  }

  lemma PushAddsNoFlag(f: Flags)
    ensures FlagsIn(FlagBits(f)) == FlagsIn(FlagBits(f) + 8) == Some(f)
  {
  }

  /** A segment with PSH set on top of its flags, as ordinary senders set it, is read without it. */
  lemma PushIsIgnored(seg: TcpSegment)
    requires seg.offsetBytes == 20 && 20 + |seg.payload| <= 1500
    ensures var pushed := BareTcp(seg)[13 := FlagBits(seg.flags) + 8];
      ParseTcp(WithWord(pushed, 16, PseudoChecksum(pushed, seg.ipPair, Tcp)), seg.ipPair) == Ok(seg)
  {
    var bare := BareTcp(seg);
    var pushed := bare[13 := FlagBits(seg.flags) + 8];
    var c := PseudoChecksum(pushed, seg.ipPair, Tcp);
    var a, b := WithWord(pushed, 16, c), TcpBytes(seg);
    PushAddsNoFlag(seg.flags);
    PushedBytes(bare, FlagBits(seg.flags) + 8, c, PseudoChecksum(bare, seg.ipPair, Tcp));
    StampVerifies(pushed, seg.ipPair, Tcp, 16);
    TcpIsAcceptedIff(a, seg.ipPair);
    TcpRoundTrip(seg);
    TcpLayout(seg);
    assert a[12] == a[..13][12] && b[12] == b[..13][12];
    OtherFlagsAreIgnored(a, b, seg.ipPair);
  }
}
