/**
 * The layered dissector: raw Ethernet II frame bytes to a packet record with
 * up to three decoded layers.
 *
 * The `Handle...` methods work as the original handlers do, filling in a
 * `CompletePacket` through its setters.  Each is proved against a pure
 * function of the same shape (`EthernetLayers`, `Ipv4Layers`, ...), and the
 * whole dissection of a frame is `Dissect`; the lemmas state the layer-shape
 * guarantees of `Dissect`.
 */
module Dissector {
  import opened Wrappers
  import opened Bytes
  import opened PacketData

  // EtherType values (IEEE 802 numbers) the dissector recognises.
  const ETHERTYPE_IPV4: U16 := 0x0800
  const ETHERTYPE_ARP: U16 := 0x0806
  const ETHERTYPE_IPV6: U16 := 0x86DD

  // IP protocol / next-header numbers (IANA) the dissector recognises.
  const IP_PROTOCOL_ICMP: Byte := 1
  const IP_PROTOCOL_TCP: Byte := 6
  const IP_PROTOCOL_UDP: Byte := 17
  const IP_PROTOCOL_ICMPV6: Byte := 58

  /**
   * A packet-view constructor of the packet library: it accepts a buffer
   * exactly when the buffer holds at least the fixed header.
   */
  function PacketNew(buffer: seq<Byte>, minimumSize: nat): (r: Option<seq<Byte>>)
    ensures r.Some? <==> |buffer| >= minimumSize
    ensures r.Some? ==> r.value == buffer
  {
    if |buffer| >= minimumSize then Some(buffer) else None
  }

  // ---------------------------------------------------------------------------
  // The dispatch as pure functions

  /** The transport header decoded from an IP payload, if any. */
  function Transport(segment: seq<Byte>, protocol: Byte): Option<PacketsData> {
    if protocol == IP_PROTOCOL_ICMP then
      if |segment| >= ICMP_HEADER_LEN then Some(IcmpPacket(IcmpInfoFrom(segment))) else None
    else if protocol == IP_PROTOCOL_ICMPV6 then
      if |segment| >= ICMPV6_HEADER_LEN then Some(Icmpv6Packet(Icmpv6InfoFrom(segment))) else None
    else if protocol == IP_PROTOCOL_TCP then
      if |segment| >= TCP_HEADER_LEN then Some(TcpPacket(TcpInfoFrom(segment))) else None
    else if protocol == IP_PROTOCOL_UDP then
      if |segment| >= UDP_HEADER_LEN then Some(UdpPacket(UdpInfoFrom(segment))) else None
    else
      None
  }

  /** `handle_ip_next_header_protocols`: sets layer 3 when a transport header decodes. */
  function NextHeaderLayers(p: CapturedPacket, segment: seq<Byte>, protocol: Byte): CapturedPacket {
    match Transport(segment, protocol)
    case Some(t) => p.(layer3 := Some(t))
    case None => p
  }

  /** The payload of an IP header: the bytes after its fixed part. */
  function Ipv4Payload(ip: seq<Byte>): seq<Byte>
    requires |ip| >= IPV4_HEADER_LEN
  {
    ip[IPV4_HEADER_LEN..]
  }

  function Ipv6Payload(ip: seq<Byte>): seq<Byte>
    requires |ip| >= IPV6_HEADER_LEN
  {
    ip[IPV6_HEADER_LEN..]
  }

  function Ipv4Layers(p: CapturedPacket, ip: seq<Byte>): CapturedPacket
    requires |ip| >= IPV4_HEADER_LEN
  {
    var info := Ipv4InfoFrom(ip);
    NextHeaderLayers(p.(layer2 := Some(Ipv4Packet(info))), Ipv4Payload(ip), info.nextLevelProtocol)
  }

  function Ipv6Layers(p: CapturedPacket, ip: seq<Byte>): CapturedPacket
    requires |ip| >= IPV6_HEADER_LEN
  {
    var info := Ipv6InfoFrom(ip);
    NextHeaderLayers(p.(layer2 := Some(Ipv6Packet(info))), Ipv6Payload(ip), info.nextHeader)
  }

  function ArpLayers(p: CapturedPacket, arp: seq<Byte>): CapturedPacket
    requires |arp| >= ARP_PACKET_LEN
  {
    p.(layer2 := Some(ArpPacket(ArpInfoFrom(arp))))
  }

  /** `handle_ethernet_packet`: layer 1, then dispatch on the EtherType. */
  function EthernetLayers(p: CapturedPacket, frame: seq<Byte>): CapturedPacket
    requires |frame| >= ETHERNET_HEADER_LEN
  {
    var info := EthernetInfoFrom(frame);
    var q := p.(layer1 := Some(EthernetPacket(info)));
    var payload := info.payload;
    if info.ethertype == ETHERTYPE_ARP then
      if |payload| >= ARP_PACKET_LEN then ArpLayers(q, payload) else q
    else if info.ethertype == ETHERTYPE_IPV4 then
      if |payload| >= IPV4_HEADER_LEN then Ipv4Layers(q, payload) else q
    else if info.ethertype == ETHERTYPE_IPV6 then
      if |payload| >= IPV6_HEADER_LEN then Ipv6Layers(q, payload) else q
    else
      q
  }

  /** The packet the capture loop emits for a frame it read under `id`. */
  function Dissect(id: nat, frame: seq<Byte>): CapturedPacket {
    var empty := CapturedPacket(id, None, None, None);
    if |frame| >= ETHERNET_HEADER_LEN then EthernetLayers(empty, frame) else empty
  }

  // ---------------------------------------------------------------------------
  // The handlers, filling in a CompletePacket in place

  method HandleIcmpPacket(icmp: seq<Byte>, completePacket: CompletePacket)
    requires |icmp| >= ICMP_HEADER_LEN
    modifies completePacket
    ensures completePacket.Snapshot() == old(completePacket.Snapshot()).(layer3 := Some(IcmpPacket(IcmpInfoFrom(icmp))))
  {
    completePacket.SetLayer3Packet(Some(IcmpPacket(IcmpInfoFrom(icmp))));
  }

  method HandleIcmpv6Packet(icmpv6: seq<Byte>, completePacket: CompletePacket)
    requires |icmpv6| >= ICMPV6_HEADER_LEN
    modifies completePacket
    ensures completePacket.Snapshot() == old(completePacket.Snapshot()).(layer3 := Some(Icmpv6Packet(Icmpv6InfoFrom(icmpv6))))
  {
    completePacket.SetLayer3Packet(Some(Icmpv6Packet(Icmpv6InfoFrom(icmpv6))));
  }

  method HandleTcpPacket(tcp: seq<Byte>, completePacket: CompletePacket)
    requires |tcp| >= TCP_HEADER_LEN
    modifies completePacket
    ensures completePacket.Snapshot() == old(completePacket.Snapshot()).(layer3 := Some(TcpPacket(TcpInfoFrom(tcp))))
  {
    completePacket.SetLayer3Packet(Some(TcpPacket(TcpInfoFrom(tcp))));
  }

  method HandleUdpPacket(udp: seq<Byte>, completePacket: CompletePacket)
    requires |udp| >= UDP_HEADER_LEN
    modifies completePacket
    ensures completePacket.Snapshot() == old(completePacket.Snapshot()).(layer3 := Some(UdpPacket(UdpInfoFrom(udp))))
  {
    completePacket.SetLayer3Packet(Some(UdpPacket(UdpInfoFrom(udp))));
  }

  method HandleIpNextHeaderProtocols(packet: seq<Byte>, protocol: Byte, completePacket: CompletePacket)
    modifies completePacket
    ensures completePacket.Snapshot() == NextHeaderLayers(old(completePacket.Snapshot()), packet, protocol)
  {
    if protocol == IP_PROTOCOL_ICMP {
      var icmp := PacketNew(packet, ICMP_HEADER_LEN);
      if icmp.Some? {
        HandleIcmpPacket(icmp.value, completePacket);
      }
    } else if protocol == IP_PROTOCOL_ICMPV6 {
      var icmpv6 := PacketNew(packet, ICMPV6_HEADER_LEN);
      if icmpv6.Some? {
        HandleIcmpv6Packet(icmpv6.value, completePacket);
      }
    } else if protocol == IP_PROTOCOL_TCP {
      var tcp := PacketNew(packet, TCP_HEADER_LEN);
      if tcp.Some? {
        HandleTcpPacket(tcp.value, completePacket);
      }
    } else if protocol == IP_PROTOCOL_UDP {
      var udp := PacketNew(packet, UDP_HEADER_LEN);
      if udp.Some? {
        HandleUdpPacket(udp.value, completePacket);
      }
    }
  }

  method HandleIpv6Packet(ipv6: seq<Byte>, completePacket: CompletePacket)
    requires |ipv6| >= IPV6_HEADER_LEN
    modifies completePacket
    ensures completePacket.Snapshot() == Ipv6Layers(old(completePacket.Snapshot()), ipv6)
  {
    var info := Ipv6InfoFrom(ipv6);
    completePacket.SetLayer2Packet(Some(Ipv6Packet(info)));
    HandleIpNextHeaderProtocols(Ipv6Payload(ipv6), info.nextHeader, completePacket);
  }

  method HandleIpv4Packet(ipv4: seq<Byte>, completePacket: CompletePacket)
    requires |ipv4| >= IPV4_HEADER_LEN
    modifies completePacket
    ensures completePacket.Snapshot() == Ipv4Layers(old(completePacket.Snapshot()), ipv4)
  {
    var info := Ipv4InfoFrom(ipv4);
    completePacket.SetLayer2Packet(Some(Ipv4Packet(info)));
    HandleIpNextHeaderProtocols(Ipv4Payload(ipv4), info.nextLevelProtocol, completePacket);
  }

  method HandleArpPacket(arp: seq<Byte>, completePacket: CompletePacket)
    requires |arp| >= ARP_PACKET_LEN
    modifies completePacket
    ensures completePacket.Snapshot() == ArpLayers(old(completePacket.Snapshot()), arp)
  {
    completePacket.SetLayer2Packet(Some(ArpPacket(ArpInfoFrom(arp))));
  }

  method HandleEthernetPacket(ethernet: seq<Byte>, completePacket: CompletePacket)
    requires |ethernet| >= ETHERNET_HEADER_LEN
    modifies completePacket
    ensures completePacket.Snapshot() == EthernetLayers(old(completePacket.Snapshot()), ethernet)
  {
    var info := EthernetInfoFrom(ethernet);
    completePacket.SetLayer1Packet(Some(EthernetPacket(info)));
    if info.ethertype == ETHERTYPE_ARP {
      var arp := PacketNew(info.payload, ARP_PACKET_LEN);
      if arp.Some? {
        HandleArpPacket(arp.value, completePacket);
      }
    } else if info.ethertype == ETHERTYPE_IPV4 {
      var ipv4 := PacketNew(info.payload, IPV4_HEADER_LEN);
      if ipv4.Some? {
        HandleIpv4Packet(ipv4.value, completePacket);
      }
    } else if info.ethertype == ETHERTYPE_IPV6 {
      var ipv6 := PacketNew(info.payload, IPV6_HEADER_LEN);
      if ipv6.Some? {
        HandleIpv6Packet(ipv6.value, completePacket);
      }
    }
  }

  // ---------------------------------------------------------------------------
  // Properties of the dissection

  /**
   * Every frame yields a packet under its id.  A frame shorter than an
   * Ethernet header has no layers; any other frame has the Ethernet record as
   * layer 1, whether or not the inner headers decode.
   */
  lemma DissectLayer1(id: nat, frame: seq<Byte>)
    ensures Dissect(id, frame).id == id
    ensures |frame| < ETHERNET_HEADER_LEN ==> Dissect(id, frame) == CapturedPacket(id, None, None, None)
    ensures |frame| >= ETHERNET_HEADER_LEN ==>
              Dissect(id, frame).layer1 == Some(EthernetPacket(EthernetInfoFrom(frame)))
  {
  }

  /** A transport header is decoded exactly for the four known protocols and a long enough payload. */
  lemma TransportDecodes(segment: seq<Byte>, protocol: Byte)
    ensures Transport(segment, protocol).Some? <==>
              || (protocol == IP_PROTOCOL_ICMP && |segment| >= ICMP_HEADER_LEN)
              || (protocol == IP_PROTOCOL_ICMPV6 && |segment| >= ICMPV6_HEADER_LEN)
              || (protocol == IP_PROTOCOL_TCP && |segment| >= TCP_HEADER_LEN)
              || (protocol == IP_PROTOCOL_UDP && |segment| >= UDP_HEADER_LEN)
    ensures Transport(segment, protocol).Some? ==>
              match Transport(segment, protocol).value
              case IcmpPacket(i) => protocol == IP_PROTOCOL_ICMP && i == IcmpInfoFrom(segment)
              case Icmpv6Packet(i) => protocol == IP_PROTOCOL_ICMPV6 && i == Icmpv6InfoFrom(segment)
              case TcpPacket(t) => protocol == IP_PROTOCOL_TCP && t == TcpInfoFrom(segment)
              case UdpPacket(u) => protocol == IP_PROTOCOL_UDP && u == UdpInfoFrom(segment)
              case _ => false
  {
  }

  /** An EtherType other than ARP, IPv4 and IPv6 leaves layers 2 and 3 empty. */
  lemma DissectUnknownEtherType(id: nat, frame: seq<Byte>)
    requires |frame| >= ETHERNET_HEADER_LEN
    requires EthernetInfoFrom(frame).ethertype !in {ETHERTYPE_ARP, ETHERTYPE_IPV4, ETHERTYPE_IPV6}
    ensures Dissect(id, frame).layer2 == None && Dissect(id, frame).layer3 == None
  {
  }

  /** An ARP frame gets the ARP record as layer 2 when it is long enough, and never a layer 3. */
  lemma DissectArp(id: nat, frame: seq<Byte>)
    requires |frame| >= ETHERNET_HEADER_LEN
    requires EthernetInfoFrom(frame).ethertype == ETHERTYPE_ARP
    ensures var payload := frame[ETHERNET_HEADER_LEN..];
            Dissect(id, frame).layer2 ==
              if |payload| >= ARP_PACKET_LEN then Some(ArpPacket(ArpInfoFrom(payload))) else None
    ensures Dissect(id, frame).layer3 == None
  {
  }

  /**
   * An IPv4 frame: layer 2 is set as soon as the IPv4 header decodes, and
   * layer 3 is whatever the shared transport dispatch makes of the payload and
   * the protocol field (so protocol 58 is taken as ICMPv6 here too).
   */
  lemma DissectIpv4(id: nat, frame: seq<Byte>)
    requires |frame| >= ETHERNET_HEADER_LEN
    requires EthernetInfoFrom(frame).ethertype == ETHERTYPE_IPV4
    ensures var payload := frame[ETHERNET_HEADER_LEN..];
            && Dissect(id, frame).layer2 ==
                 (if |payload| >= IPV4_HEADER_LEN then Some(Ipv4Packet(Ipv4InfoFrom(payload))) else None)
            && Dissect(id, frame).layer3 ==
                 (if |payload| >= IPV4_HEADER_LEN
                  then Transport(Ipv4Payload(payload), Ipv4InfoFrom(payload).nextLevelProtocol)
                  else None)
  {
  }

  /**
   * An IPv6 frame: as for IPv4, with the immediate next-header field; no
   * extension header is walked, so e.g. a hop-by-hop header (0) gives no layer 3.
   */
  lemma DissectIpv6(id: nat, frame: seq<Byte>)
    requires |frame| >= ETHERNET_HEADER_LEN
    requires EthernetInfoFrom(frame).ethertype == ETHERTYPE_IPV6
    ensures var payload := frame[ETHERNET_HEADER_LEN..];
            && Dissect(id, frame).layer2 ==
                 (if |payload| >= IPV6_HEADER_LEN then Some(Ipv6Packet(Ipv6InfoFrom(payload))) else None)
            && Dissect(id, frame).layer3 ==
                 (if |payload| >= IPV6_HEADER_LEN
                  then Transport(Ipv6Payload(payload), Ipv6InfoFrom(payload).nextHeader)
                  else None)
  {
  }

  /** Every dissected packet has the layering the consumers rely on. */
  lemma DissectWellLayered(id: nat, frame: seq<Byte>)
    ensures WellLayered(Dissect(id, frame))
  {
    if |frame| >= ETHERNET_HEADER_LEN {
      var payload := frame[ETHERNET_HEADER_LEN..];
      var et := EthernetInfoFrom(frame).ethertype;
      if et == ETHERTYPE_IPV4 && |payload| >= IPV4_HEADER_LEN {
        TransportDecodes(Ipv4Payload(payload), Ipv4InfoFrom(payload).nextLevelProtocol);
      } else if et == ETHERTYPE_IPV6 && |payload| >= IPV6_HEADER_LEN {
        TransportDecodes(Ipv6Payload(payload), Ipv6InfoFrom(payload).nextHeader);
      }
    }
  }

  /**
   * A well-formed Ethernet + IPv4 + TCP frame (IPv4 version 4 with a 5-word
   * header and a total length that covers exactly the segment, TCP with a
   * 5-word header) decodes into exactly the header fields it was built from,
   * with the TCP length being the payload length.
   */
  lemma {:induction false} DissectEthernetIpv4Tcp(
    id: nat, destination: MacAddr, source: MacAddr, ip: Ipv4PacketInfo, tcp: TcpPacketInfo, data: seq<Byte>)
    requires ip.nextLevelProtocol == IP_PROTOCOL_TCP
    requires ip.version == 4 && ip.headerLength == 5
    requires ip.totalLength == IPV4_HEADER_LEN + TCP_HEADER_LEN + |data|
    requires tcp.dataOffset == 5
    ensures var segment := TcpHeaderBytes(tcp) + data;
            var eth := EthernetPacketInfo(destination, source, ETHERTYPE_IPV4, Ipv4HeaderBytes(ip) + segment);
            Dissect(id, EthernetBytes(eth)) ==
              CapturedPacket(id, Some(EthernetPacket(eth)),
                             Some(Ipv4Packet(ip.(length := |segment|))),
                             Some(TcpPacket(tcp.(length := |data|))))
  {
    var segment := TcpHeaderBytes(tcp) + data;
    var eth := EthernetPacketInfo(destination, source, ETHERTYPE_IPV4, Ipv4HeaderBytes(ip) + segment);
    EthernetRoundTrip(eth);
    Ipv4RoundTrip(ip, segment);
    assert Ipv4Payload(eth.payload) == segment;
    TcpRoundTrip(tcp, data);
  }

  /**
   * The same for a well-formed Ethernet + IPv6 + UDP frame: IPv6 version 6
   * with a payload length that covers exactly the datagram.
   */
  lemma {:induction false} DissectEthernetIpv6Udp(
    id: nat, destination: MacAddr, source: MacAddr, ip: Ipv6PacketInfo, udp: UdpPacketInfo, data: seq<Byte>)
    requires ip.nextHeader == IP_PROTOCOL_UDP
    requires ip.version == 6
    requires ip.payloadLength == UDP_HEADER_LEN + |data|
    ensures var segment := UdpHeaderBytes(udp) + data;
            var eth := EthernetPacketInfo(destination, source, ETHERTYPE_IPV6, Ipv6HeaderBytes(ip) + segment);
            Dissect(id, EthernetBytes(eth)) ==
              CapturedPacket(id, Some(EthernetPacket(eth)),
                             Some(Ipv6Packet(ip.(length := |segment|))),
                             Some(UdpPacket(udp)))
  {
    var segment := UdpHeaderBytes(udp) + data;
    var eth := EthernetPacketInfo(destination, source, ETHERTYPE_IPV6, Ipv6HeaderBytes(ip) + segment);
    EthernetRoundTrip(eth);
    Ipv6RoundTrip(ip, segment);
    assert Ipv6Payload(eth.payload) == segment;
    UdpRoundTrip(udp, data);
  }

  /**
   * An ARP frame decodes into its sender and target addresses, a length of 0
   * and no layer 3, whatever bytes trail the ARP packet; without a trailer the
   * frame is the 42-byte minimal ARP frame.
   */
  lemma {:induction false} DissectArpFrame(
    id: nat, destination: MacAddr, source: MacAddr, arp: ArpPacketInfo, trailer: seq<Byte>)
    ensures var eth := EthernetPacketInfo(destination, source, ETHERTYPE_ARP, ArpHeaderBytes(arp) + trailer);
            && (trailer == [] ==> |EthernetBytes(eth)| == 42)
            && Dissect(id, EthernetBytes(eth)) ==
                 CapturedPacket(id, Some(EthernetPacket(eth)), Some(ArpPacket(arp.(length := 0))), None)
  {
    var eth := EthernetPacketInfo(destination, source, ETHERTYPE_ARP, ArpHeaderBytes(arp) + trailer);
    EthernetRoundTrip(eth);
    ArpRoundTrip(arp, trailer);
  }
}

