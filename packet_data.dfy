/**
 * The data model of a captured packet: one info record per protocol header,
 * the `PacketsData` union over them, and the three-layer packet record.
 *
 * Each `...InfoFrom` function is the `From` conversion that copies a header's
 * fields out of a buffer that a header constructor has accepted (so the
 * buffer is at least as long as the fixed header).  Each `...HeaderBytes`
 * function writes a record's fields back in the wire layout of the protocol's
 * standard; the round-trip lemmas below relate the two in both directions.
 * A payload is modelled as the bytes that follow the fixed header.
 */
module PacketData {
  import opened Wrappers
  import opened Bytes

  type MacAddr = s: seq<Byte> | |s| == 6 witness [0, 0, 0, 0, 0, 0]
  type Ipv4Addr = s: seq<Byte> | |s| == 4 witness [0, 0, 0, 0]
  type Ipv6Addr = s: seq<Byte> | |s| == 16 witness [0, 0, 0, 0, 0, 0, 0, 0, 0, 0, 0, 0, 0, 0, 0, 0]

  // Fixed header sizes: Ethernet II, ARP for Ethernet/IPv4 (RFC 826),
  // IPv4 without options (RFC 791 section 3.1), IPv6 (RFC 8200 section 3),
  // TCP without options (RFC 9293 section 3.1), UDP (RFC 768),
  // ICMP (RFC 792) and ICMPv6 (RFC 4443 section 2.1): type, code, checksum.
  const ETHERNET_HEADER_LEN := 14
  const ARP_PACKET_LEN := 28
  const IPV4_HEADER_LEN := 20
  const IPV6_HEADER_LEN := 40
  const TCP_HEADER_LEN := 20
  const UDP_HEADER_LEN := 8
  const ICMP_HEADER_LEN := 4
  const ICMPV6_HEADER_LEN := 4

  datatype TcpPacketInfo = TcpPacketInfo(
    source: U16, destination: U16, sequence: U32, acknowledgement: U32,
    dataOffset: U4, reserved: U4, flags: Byte, window: U16, checksum: U16,
    urgentPtr: U16, length: nat)

  datatype UdpPacketInfo = UdpPacketInfo(source: U16, destination: U16, length: U16, checksum: U16)

  datatype Icmpv6PacketInfo = Icmpv6PacketInfo(icmpv6Type: Byte, icmpv6Code: Byte, checksum: U16, length: nat)

  datatype IcmpPacketInfo = IcmpPacketInfo(icmpType: Byte, icmpCode: Byte, checksum: U16, length: nat)

  datatype EthernetPacketInfo = EthernetPacketInfo(
    destination: MacAddr, source: MacAddr, ethertype: U16, payload: seq<Byte>)

  datatype ArpPacketInfo = ArpPacketInfo(
    hardwareType: U16, protocolType: U16, hwAddrLen: Byte, protoAddrLen: Byte,
    operation: U16, senderHwAddr: MacAddr, senderProtoAddr: Ipv4Addr,
    targetHwAddr: MacAddr, targetProtoAddr: Ipv4Addr, length: nat)

  datatype Ipv6PacketInfo = Ipv6PacketInfo(
    version: U4, trafficClass: Byte, flowLabel: U20, payloadLength: U16,
    nextHeader: Byte, hopLimit: Byte, source: Ipv6Addr, destination: Ipv6Addr,
    length: nat)

  datatype Ipv4PacketInfo = Ipv4PacketInfo(
    version: U4, headerLength: U4, dscp: U6, ecn: U2, totalLength: U16,
    identification: U16, flags: U3, fragmentOffset: U13, ttl: Byte,
    nextLevelProtocol: Byte, checksum: U16, source: Ipv4Addr,
    destination: Ipv4Addr, length: nat)

  datatype PacketsData =
    | EthernetPacket(ethernet: EthernetPacketInfo)
    | ArpPacket(arp: ArpPacketInfo)
    | Ipv4Packet(ipv4: Ipv4PacketInfo)
    | Ipv6Packet(ipv6: Ipv6PacketInfo)
    | TcpPacket(tcp: TcpPacketInfo)
    | UdpPacket(udp: UdpPacketInfo)
    | IcmpPacket(icmp: IcmpPacketInfo)
    | Icmpv6Packet(icmpv6: Icmpv6PacketInfo)

  /**
   * The value of a `CompletePacket` once it has been moved into a
   * captured-packet event: from then on it is only read.
   */
  datatype CapturedPacket = CapturedPacket(
    id: nat, layer1: Option<PacketsData>, layer2: Option<PacketsData>, layer3: Option<PacketsData>)

  /** The layering the dissector guarantees (and the consumers rely on). */
  predicate WellLayered(p: CapturedPacket) {
    && (p.layer1.Some? ==> p.layer1.value.EthernetPacket?)
    && (p.layer2.Some? ==> p.layer1.Some?)
    && (p.layer2.Some? ==> p.layer2.value.ArpPacket? || p.layer2.value.Ipv4Packet? || p.layer2.value.Ipv6Packet?)
    && (p.layer3.Some? ==> p.layer2.Some? && (p.layer2.value.Ipv4Packet? || p.layer2.value.Ipv6Packet?))
    && (p.layer3.Some? ==>
          p.layer3.value.TcpPacket? || p.layer3.value.UdpPacket? ||
          p.layer3.value.IcmpPacket? || p.layer3.value.Icmpv6Packet?)
  }

  /** The packet record the dissector fills in, one layer setter at a time. */
  class CompletePacket {
    var id: nat
    var layer1: Option<PacketsData>
    var layer2: Option<PacketsData>
    var layer3: Option<PacketsData>

    function Snapshot(): CapturedPacket
      reads this
    {
      CapturedPacket(id, layer1, layer2, layer3)
    }

    /** `CompletePacket::new`: the given id and all three layers empty. */
    constructor (id: nat)
      ensures Snapshot() == CapturedPacket(id, None, None, None)
    {
      this.id := id;
      layer1, layer2, layer3 := None, None, None;
    }

    method SetLayer1Packet(packet: Option<PacketsData>)
      modifies this
      ensures layer1 == packet
      ensures id == old(id) && layer2 == old(layer2) && layer3 == old(layer3)
    {
      layer1 := packet;
    }

    method SetLayer2Packet(packet: Option<PacketsData>)
      modifies this
      ensures layer2 == packet
      ensures id == old(id) && layer1 == old(layer1) && layer3 == old(layer3)
    {
      layer2 := packet;
    }

    method SetLayer3Packet(packet: Option<PacketsData>)
      modifies this
      ensures layer3 == packet
      ensures id == old(id) && layer1 == old(layer1) && layer2 == old(layer2)
    {
      layer3 := packet;
    }
  }

  /**
   * Setting a layer twice with the same value is setting it once, and each
   * setter leaves the id and the other layers as they were.
   */
  method SettingTwiceIsSettingOnce(c: CompletePacket, x1: Option<PacketsData>, x2: Option<PacketsData>, x3: Option<PacketsData>)
    modifies c
    ensures c.Snapshot() == CapturedPacket(old(c.id), x1, x2, x3)
  {
    c.SetLayer1Packet(x1);
    c.SetLayer1Packet(x1);
    assert c.Snapshot() == old(c.Snapshot()).(layer1 := x1);
    c.SetLayer2Packet(x2);
    c.SetLayer2Packet(x2);
    assert c.Snapshot() == old(c.Snapshot()).(layer1 := x1, layer2 := x2);
    c.SetLayer3Packet(x3);
    c.SetLayer3Packet(x3);
  }

  // ---------------------------------------------------------------------------
  // `From` conversions

  function EthernetInfoFrom(b: seq<Byte>): EthernetPacketInfo
    requires |b| >= ETHERNET_HEADER_LEN
  {
    EthernetPacketInfo(b[0..6], b[6..12], Be16(b, 12), b[ETHERNET_HEADER_LEN..])
  }

  /**
   * The packet library's ARP view has a payload of length 0 whatever bytes
   * follow the 28-byte packet, so `length` is always 0.
   */
  function ArpInfoFrom(b: seq<Byte>): ArpPacketInfo
    requires |b| >= ARP_PACKET_LEN
  {
    ArpPacketInfo(Be16(b, 0), Be16(b, 2), b[4], b[5], Be16(b, 6),
                  b[8..14], b[14..18], b[18..24], b[24..28], 0)
  }

  function Ipv4InfoFrom(b: seq<Byte>): Ipv4PacketInfo
    requires |b| >= IPV4_HEADER_LEN
  {
    Ipv4PacketInfo(b[0] / 0x10, b[0] % 0x10, b[1] / 4, b[1] % 4, Be16(b, 2), Be16(b, 4),
                   b[6] / 0x20, (b[6] as int % 0x20) * 0x100 + b[7], b[8], b[9], Be16(b, 10),
                   b[12..16], b[16..20], |b| - IPV4_HEADER_LEN)
  }

  function Ipv6InfoFrom(b: seq<Byte>): Ipv6PacketInfo
    requires |b| >= IPV6_HEADER_LEN
  {
    Ipv6PacketInfo(b[0] / 0x10, (b[0] as int % 0x10) * 0x10 + b[1] / 0x10,
                   (b[1] as int % 0x10) * 0x1_0000 + b[2] as int * 0x100 + b[3], Be16(b, 4),
                   b[6], b[7], b[8..24], b[24..40], |b| - IPV6_HEADER_LEN)
  }

  function TcpInfoFrom(b: seq<Byte>): TcpPacketInfo
    requires |b| >= TCP_HEADER_LEN
  {
    TcpPacketInfo(Be16(b, 0), Be16(b, 2), Be32(b, 4), Be32(b, 8), b[12] / 0x10, b[12] % 0x10,
                  b[13], Be16(b, 14), Be16(b, 16), Be16(b, 18), |b| - TCP_HEADER_LEN)
  }

  function UdpInfoFrom(b: seq<Byte>): UdpPacketInfo
    requires |b| >= UDP_HEADER_LEN
  {
    UdpPacketInfo(Be16(b, 0), Be16(b, 2), Be16(b, 4), Be16(b, 6))
  }

  function IcmpInfoFrom(b: seq<Byte>): IcmpPacketInfo
    requires |b| >= ICMP_HEADER_LEN
  {
    IcmpPacketInfo(b[0], b[1], Be16(b, 2), |b| - ICMP_HEADER_LEN)
  }

  function Icmpv6InfoFrom(b: seq<Byte>): Icmpv6PacketInfo
    requires |b| >= ICMPV6_HEADER_LEN
  {
    Icmpv6PacketInfo(b[0], b[1], Be16(b, 2), |b| - ICMPV6_HEADER_LEN)
  }

  // ---------------------------------------------------------------------------
  // Wire layouts (the partners of the conversions)

  function EthernetBytes(e: EthernetPacketInfo): (r: seq<Byte>)
    ensures |r| == ETHERNET_HEADER_LEN + |e.payload|
  {
    e.destination + e.source + Be16Bytes(e.ethertype) + e.payload
  }

  function ArpHeaderBytes(a: ArpPacketInfo): (r: seq<Byte>)
    ensures |r| == ARP_PACKET_LEN
  {
    Be16Bytes(a.hardwareType) + Be16Bytes(a.protocolType) + [a.hwAddrLen, a.protoAddrLen]
    + Be16Bytes(a.operation) + a.senderHwAddr + a.senderProtoAddr + a.targetHwAddr + a.targetProtoAddr
  }

  function Ipv4HeaderBytes(h: Ipv4PacketInfo): (r: seq<Byte>)
    ensures |r| == IPV4_HEADER_LEN
  {
    [h.version * 0x10 + h.headerLength, h.dscp * 4 + h.ecn] + Be16Bytes(h.totalLength)
    + Be16Bytes(h.identification)
    + [h.flags * 0x20 + h.fragmentOffset / 0x100, h.fragmentOffset % 0x100, h.ttl, h.nextLevelProtocol]
    + Be16Bytes(h.checksum) + h.source + h.destination
  }

  function Ipv6HeaderBytes(h: Ipv6PacketInfo): (r: seq<Byte>)
    ensures |r| == IPV6_HEADER_LEN
  {
    [h.version * 0x10 + h.trafficClass / 0x10,
     (h.trafficClass % 0x10) * 0x10 + h.flowLabel / 0x1_0000,
     (h.flowLabel / 0x100) % 0x100, h.flowLabel % 0x100]
    + Be16Bytes(h.payloadLength) + [h.nextHeader, h.hopLimit] + h.source + h.destination
  }

  function TcpHeaderBytes(t: TcpPacketInfo): (r: seq<Byte>)
    ensures |r| == TCP_HEADER_LEN
  {
    Be16Bytes(t.source) + Be16Bytes(t.destination) + Be32Bytes(t.sequence)
    + Be32Bytes(t.acknowledgement) + [t.dataOffset * 0x10 + t.reserved, t.flags]
    + Be16Bytes(t.window) + Be16Bytes(t.checksum) + Be16Bytes(t.urgentPtr)
  }

  function UdpHeaderBytes(u: UdpPacketInfo): (r: seq<Byte>)
    ensures |r| == UDP_HEADER_LEN
  {
    Be16Bytes(u.source) + Be16Bytes(u.destination) + Be16Bytes(u.length) + Be16Bytes(u.checksum)
  }

  function IcmpHeaderBytes(i: IcmpPacketInfo): (r: seq<Byte>)
    ensures |r| == ICMP_HEADER_LEN
  {
    [i.icmpType, i.icmpCode] + Be16Bytes(i.checksum)
  }

  function Icmpv6HeaderBytes(i: Icmpv6PacketInfo): (r: seq<Byte>)
    ensures |r| == ICMPV6_HEADER_LEN
  {
    [i.icmpv6Type, i.icmpv6Code] + Be16Bytes(i.checksum)
  }

  // ---------------------------------------------------------------------------
  // Round trips: each conversion copies exactly the header fields of the wire
  // layout, and a buffer is determined by the record read from it.

  lemma {:induction false} EthernetRoundTrip(e: EthernetPacketInfo)
    ensures EthernetInfoFrom(EthernetBytes(e)) == e
  {
    var b := EthernetBytes(e);
    assert b[0..6] == e.destination;
    assert b[6..12] == e.source;
    Be16At(e.destination + e.source, e.ethertype, e.payload);
    assert b[ETHERNET_HEADER_LEN..] == e.payload;
  }

  lemma {:induction false} EthernetBytesOfInfo(b: seq<Byte>)
    requires |b| >= ETHERNET_HEADER_LEN
    ensures EthernetBytes(EthernetInfoFrom(b)) == b
  {
    var e := EthernetInfoFrom(b);
    assert Be16Bytes(e.ethertype) == b[12..14];
    assert b == b[0..6] + b[6..12] + b[12..14] + b[14..];
  }

  lemma {:induction false} ArpRoundTrip(a: ArpPacketInfo, payload: seq<Byte>)
    ensures ArpInfoFrom(ArpHeaderBytes(a) + payload) == a.(length := 0)
  {
    var h := ArpHeaderBytes(a);
    var b := h + payload;
    assert b[..ARP_PACKET_LEN] == h;
    Be16At([], a.hardwareType, h[2..] + payload);
    Be16At(h[..2], a.protocolType, h[4..] + payload);
    Be16At(h[..6], a.operation, h[8..] + payload);
    assert b[8..14] == a.senderHwAddr;
    assert b[14..18] == a.senderProtoAddr;
    assert b[18..24] == a.targetHwAddr;
    assert b[24..28] == a.targetProtoAddr;
  }

  lemma {:induction false} ArpBytesOfInfo(b: seq<Byte>)
    requires |b| >= ARP_PACKET_LEN
    ensures ArpHeaderBytes(ArpInfoFrom(b)) + b[ARP_PACKET_LEN..] == b
  {
    var a := ArpInfoFrom(b);
    assert Be16Bytes(a.hardwareType) == b[0..2];
    assert Be16Bytes(a.protocolType) == b[2..4];
    assert Be16Bytes(a.operation) == b[6..8];
    assert ArpHeaderBytes(a) == b[..ARP_PACKET_LEN];
  }

  lemma {:induction false} Ipv4RoundTrip(h: Ipv4PacketInfo, payload: seq<Byte>)
    ensures Ipv4InfoFrom(Ipv4HeaderBytes(h) + payload) == h.(length := |payload|)
  {
    var w := Ipv4HeaderBytes(h);
    var b := w + payload;
    assert b[..IPV4_HEADER_LEN] == w;
    Be16At(w[..2], h.totalLength, w[4..] + payload);
    Be16At(w[..4], h.identification, w[6..] + payload);
    Be16At(w[..10], h.checksum, w[12..] + payload);
    assert b[12..16] == h.source;
    assert b[16..20] == h.destination;
  }

  lemma {:induction false} Ipv4BytesOfInfo(b: seq<Byte>)
    requires |b| >= IPV4_HEADER_LEN
    ensures Ipv4HeaderBytes(Ipv4InfoFrom(b)) + b[IPV4_HEADER_LEN..] == b
  {
    var h := Ipv4InfoFrom(b);
    assert Be16Bytes(h.totalLength) == b[2..4];
    assert Be16Bytes(h.identification) == b[4..6];
    assert Be16Bytes(h.checksum) == b[10..12];
    assert Ipv4HeaderBytes(h) == b[..IPV4_HEADER_LEN];
  }

  lemma {:induction false} Ipv6RoundTrip(h: Ipv6PacketInfo, payload: seq<Byte>)
    ensures Ipv6InfoFrom(Ipv6HeaderBytes(h) + payload) == h.(length := |payload|)
  {
    var w := Ipv6HeaderBytes(h);
    var b := w + payload;
    assert b[..IPV6_HEADER_LEN] == w;
    Be16At(w[..4], h.payloadLength, w[6..] + payload);
    assert b[8..24] == h.source;
    assert b[24..40] == h.destination;
  }

  lemma {:induction false} Ipv6BytesOfInfo(b: seq<Byte>)
    requires |b| >= IPV6_HEADER_LEN
    ensures Ipv6HeaderBytes(Ipv6InfoFrom(b)) + b[IPV6_HEADER_LEN..] == b
  {
    var h := Ipv6InfoFrom(b);
    assert Be16Bytes(h.payloadLength) == b[4..6];
    assert Ipv6HeaderBytes(h) == b[..IPV6_HEADER_LEN];
  }

  lemma {:induction false} TcpRoundTrip(t: TcpPacketInfo, payload: seq<Byte>)
    ensures TcpInfoFrom(TcpHeaderBytes(t) + payload) == t.(length := |payload|)
  {
    var w := TcpHeaderBytes(t);
    var b := w + payload;
    assert b[..TCP_HEADER_LEN] == w;
    Be16At([], t.source, w[2..] + payload);
    Be16At(w[..2], t.destination, w[4..] + payload);
    Be32At(w[..4], t.sequence, w[8..] + payload);
    Be32At(w[..8], t.acknowledgement, w[12..] + payload);
    Be16At(w[..14], t.window, w[16..] + payload);
    Be16At(w[..16], t.checksum, w[18..] + payload);
    Be16At(w[..18], t.urgentPtr, payload);
  }

  lemma {:induction false} TcpBytesOfInfo(b: seq<Byte>)
    requires |b| >= TCP_HEADER_LEN
    ensures TcpHeaderBytes(TcpInfoFrom(b)) + b[TCP_HEADER_LEN..] == b
  {
    var t := TcpInfoFrom(b);
    assert Be16Bytes(t.source) == b[0..2];
    assert Be16Bytes(t.destination) == b[2..4];
    Be32Split(b, 4);
    Be32Split(b, 8);
    assert Be16Bytes(t.window) == b[14..16];
    assert Be16Bytes(t.checksum) == b[16..18];
    assert Be16Bytes(t.urgentPtr) == b[18..20];
    assert TcpHeaderBytes(t) == b[..TCP_HEADER_LEN];
  }

  /** The four bytes that a 32-bit field was read from are the bytes it writes. */
  lemma Be32Split(b: seq<Byte>, i: nat)
    requires i + 4 <= |b|
    ensures Be32Bytes(Be32(b, i)) == b[i..i + 4]
  {
    var x := Be32(b, i);
    assert x / 0x1_0000 == b[i] as int * 0x100 + b[i + 1];
    assert x % 0x1_0000 == b[i + 2] as int * 0x100 + b[i + 3];
  }

  lemma {:induction false} UdpRoundTrip(u: UdpPacketInfo, payload: seq<Byte>)
    ensures UdpInfoFrom(UdpHeaderBytes(u) + payload) == u
  {
    var w := UdpHeaderBytes(u);
    Be16At([], u.source, w[2..] + payload);
    Be16At(w[..2], u.destination, w[4..] + payload);
    Be16At(w[..4], u.length, w[6..] + payload);
    Be16At(w[..6], u.checksum, payload);
  }

  lemma {:induction false} UdpBytesOfInfo(b: seq<Byte>)
    requires |b| >= UDP_HEADER_LEN
    ensures UdpHeaderBytes(UdpInfoFrom(b)) + b[UDP_HEADER_LEN..] == b
  {
    var u := UdpInfoFrom(b);
    assert Be16Bytes(u.source) == b[0..2];
    assert Be16Bytes(u.destination) == b[2..4];
    assert Be16Bytes(u.length) == b[4..6];
    assert Be16Bytes(u.checksum) == b[6..8];
    assert UdpHeaderBytes(u) == b[..UDP_HEADER_LEN];
  }

  lemma {:induction false} IcmpRoundTrip(i: IcmpPacketInfo, payload: seq<Byte>)
    ensures IcmpInfoFrom(IcmpHeaderBytes(i) + payload) == i.(length := |payload|)
  {
    var w := IcmpHeaderBytes(i);
    Be16At(w[..2], i.checksum, payload);
  }

  lemma {:induction false} IcmpBytesOfInfo(b: seq<Byte>)
    requires |b| >= ICMP_HEADER_LEN
    ensures IcmpHeaderBytes(IcmpInfoFrom(b)) + b[ICMP_HEADER_LEN..] == b
  {
    assert Be16Bytes(IcmpInfoFrom(b).checksum) == b[2..4];
    assert IcmpHeaderBytes(IcmpInfoFrom(b)) == b[..ICMP_HEADER_LEN];
  }

  lemma {:induction false} Icmpv6RoundTrip(i: Icmpv6PacketInfo, payload: seq<Byte>)
    ensures Icmpv6InfoFrom(Icmpv6HeaderBytes(i) + payload) == i.(length := |payload|)
  {
    var w := Icmpv6HeaderBytes(i);
    Be16At(w[..2], i.checksum, payload);
  }

  lemma {:induction false} Icmpv6BytesOfInfo(b: seq<Byte>)
    requires |b| >= ICMPV6_HEADER_LEN
    ensures Icmpv6HeaderBytes(Icmpv6InfoFrom(b)) + b[ICMPV6_HEADER_LEN..] == b
  {
    assert Be16Bytes(Icmpv6InfoFrom(b).checksum) == b[2..4];
    assert Icmpv6HeaderBytes(Icmpv6InfoFrom(b)) == b[..ICMPV6_HEADER_LEN];
  }
}

