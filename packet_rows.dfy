/**
 * The five columns of a packet-list row (id, protocol, source, destination,
 * length), shared by the packet table widget and the application view.  The
 * address columns are kept as the values they are formatted from.
 */
module PacketRows {
  import opened Wrappers
  import opened Bytes
  import opened PacketData

  /** The network-layer address a row prints (empty text when layer 2 is not IP). */
  datatype Host = V4Host(v4: Ipv4Addr) | V6Host(v6: Ipv6Addr) | NoHost

  datatype Endpoint =
    | HostOnly(host: Host)                           // "addr"
    | HostPort(host: Host, port: U16)                // "addr:port"
    | ArpProtoHw(proto: Ipv4Addr, hw: MacAddr)       // "proto-addr (hw-addr)"
    | ArpHw(hw: MacAddr)                             // "hw-addr"

  datatype Row = Row(id: nat, protocol: string, source: Endpoint, destination: Endpoint, length: nat)

  /** How ARP rows show their two ends: the two views differ here. */
  datatype ArpColumns = ProtoAndHw | HwOnly

  function ArpEndpoint(proto: Ipv4Addr, hw: MacAddr, style: ArpColumns): Endpoint
  {
    match style
    case ProtoAndHw => ArpProtoHw(proto, hw)
    case HwOnly => ArpHw(hw)
  }

  function Hosts(layer2: PacketsData): (Host, Host)
  {
    match layer2
    case Ipv4Packet(ip) => (V4Host(ip.source), V4Host(ip.destination))
    case Ipv6Packet(ip) => (V6Host(ip.source), V6Host(ip.destination))
    case _ => (NoHost, NoHost)
  }

  /**
   * `generate_ref_array`: the row of a packet, if it has one.  An ARP packet
   * always has one; otherwise it takes a layer-3 part that is TCP, UDP, ICMP
   * or ICMPv6, shown with the addresses of layer 2.
   */
  function RefArray(p: CapturedPacket, style: ArpColumns): (r: Option<Row>)
    ensures p.layer2.None? ==> r.None?
    ensures p.layer2.Some? && p.layer2.value.ArpPacket? ==>
              var arp := p.layer2.value.arp;
              r == Some(Row(p.id, "ARP", ArpEndpoint(arp.senderProtoAddr, arp.senderHwAddr, style),
                            ArpEndpoint(arp.targetProtoAddr, arp.targetHwAddr, style), arp.length))
    ensures p.layer2.Some? && !p.layer2.value.ArpPacket? ==>
              (r.Some? <==> p.layer3.Some? && (p.layer3.value.TcpPacket? || p.layer3.value.UdpPacket?
                                                || p.layer3.value.IcmpPacket? || p.layer3.value.Icmpv6Packet?))
    ensures r.Some? ==> r.value.id == p.id && r.value.protocol in ["ARP", "TCP", "UDP", "ICMP", "ICMPv6"]
    ensures r.Some? && p.layer3.Some? && p.layer3.value.TcpPacket? && !p.layer2.value.ArpPacket? ==>
              var (src, dst) := Hosts(p.layer2.value);
              var tcp := p.layer3.value.tcp;
              r.value == Row(p.id, "TCP", HostPort(src, tcp.source), HostPort(dst, tcp.destination), tcp.length)
    ensures r.Some? && p.layer3.Some? && p.layer3.value.UdpPacket? && !p.layer2.value.ArpPacket? ==>
              var (src, dst) := Hosts(p.layer2.value);
              var udp := p.layer3.value.udp;
              r.value == Row(p.id, "UDP", HostPort(src, udp.source), HostPort(dst, udp.destination), udp.length)
    ensures r.Some? && p.layer3.Some? && p.layer3.value.IcmpPacket? && !p.layer2.value.ArpPacket? ==>
              var (src, dst) := Hosts(p.layer2.value);
              r.value == Row(p.id, "ICMP", HostOnly(src), HostOnly(dst), p.layer3.value.icmp.length)
    ensures r.Some? && p.layer3.Some? && p.layer3.value.Icmpv6Packet? && !p.layer2.value.ArpPacket? ==>
              var (src, dst) := Hosts(p.layer2.value);
              r.value == Row(p.id, "ICMPv6", HostOnly(src), HostOnly(dst), p.layer3.value.icmpv6.length)
  {
    match p.layer2
    case None => None
    case Some(layer2) =>
      if layer2.ArpPacket? then
        var arp := layer2.arp;
        Some(Row(p.id, "ARP", ArpEndpoint(arp.senderProtoAddr, arp.senderHwAddr, style),
                 ArpEndpoint(arp.targetProtoAddr, arp.targetHwAddr, style), arp.length))
      else
        var (src, dst) := Hosts(layer2);
        match p.layer3
        case None => None
        case Some(layer3) =>
          match layer3
          case TcpPacket(tcp) => Some(Row(p.id, "TCP", HostPort(src, tcp.source), HostPort(dst, tcp.destination), tcp.length))
          case UdpPacket(udp) => Some(Row(p.id, "UDP", HostPort(src, udp.source), HostPort(dst, udp.destination), udp.length))
          case IcmpPacket(icmp) => Some(Row(p.id, "ICMP", HostOnly(src), HostOnly(dst), icmp.length))
          case Icmpv6Packet(icmpv6) => Some(Row(p.id, "ICMPv6", HostOnly(src), HostOnly(dst), icmpv6.length))
          case _ => None
  }

  /** The table's rows: the packets that have a row, in list order. */
  function Rows(packets: seq<CapturedPacket>, style: ArpColumns): (r: seq<Row>)
    ensures |r| <= |packets|
  {
    if packets == [] then []
    else
      var rest := Rows(packets[1..], style);
      match RefArray(packets[0], style)
      case Some(row) => [row] + rest
      case None => rest
  }

  /** Every row is the row of one of the packets. */
  lemma {:induction false} RowsComeFromPackets(packets: seq<CapturedPacket>, style: ArpColumns, k: nat)
    requires k < |Rows(packets, style)|
    ensures exists i :: 0 <= i < |packets| && RefArray(packets[i], style) == Some(Rows(packets, style)[k])
  {
    var rest := Rows(packets[1..], style);
    match RefArray(packets[0], style)
    case Some(row) =>
      if k > 0 {
        RowsComeFromPackets(packets[1..], style, k - 1);
        var i :| 0 <= i < |packets[1..]| && RefArray(packets[1..][i], style) == Some(rest[k - 1]);
        assert RefArray(packets[i + 1], style) == Some(Rows(packets, style)[k]);
      } else {
        assert RefArray(packets[0], style) == Some(Rows(packets, style)[k]);
      }
    case None =>
      RowsComeFromPackets(packets[1..], style, k);
      var i :| 0 <= i < |packets[1..]| && RefArray(packets[1..][i], style) == Some(rest[k]);
      assert RefArray(packets[i + 1], style) == Some(Rows(packets, style)[k]);
  }

  /** A packet that has a row shows up among the rows. */
  lemma {:induction false} PacketsWithRowAreShown(packets: seq<CapturedPacket>, style: ArpColumns, i: nat)
    requires i < |packets| && RefArray(packets[i], style).Some?
    ensures RefArray(packets[i], style).value in Rows(packets, style)
  {
    if i > 0 {
      PacketsWithRowAreShown(packets[1..], style, i - 1);
      assert packets[1..][i - 1] == packets[i];
    }
  }
}
