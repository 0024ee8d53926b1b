# wirepenguin, modelled in Dafny

wirepenguin is a terminal packet sniffer. A capture thread reads raw frames
from a network interface and dissects each one into a packet record. The
record has up to three decoded layers:

- layer 1 is Ethernet II;
- layer 2 is ARP, IPv4 or IPv6;
- layer 3 is TCP, UDP, ICMP or ICMPv6.

The capture thread numbers the records 1, 2, 3, … and sends them over a
channel to a single consumer loop. Key presses and redraw ticks arrive on the
same channel. The consumer holds the packets newest first. It moves a
wrap-around cursor over them, shows one row per packet that has a row, and
draws a bar chart of how many packets each protocol has.

The repository holds two snapshots of the same design:

- `packet_sniffer.rs`, `enums.rs` and `app.rs`;
- `sniffer.rs`, `packet_data.rs` and `widgets/packet_table.rs`.

Each concept is modelled once and cited against both snapshots.

Modules, one per concept:

- `Bytes` (bytes.dfy): bytes, bit-field widths, big-endian 16- and 32-bit fields.
- `PacketData` (packet_data.dfy): the per-protocol info records.
  - `PacketsData`.
  - The `CompletePacket` class with its setters.
  - The immutable `CapturedPacket` value a record becomes once it is sent.
  - The `From` conversions, as `...InfoFrom` functions from header bytes.
  - The wire layouts of the fixed headers, with round trips proved both ways.
- `Dissector` (dissector.dfy): the `handle_*` functions.
  - These are methods that fill in a `CompletePacket` in place.
  - Each is proved against a pure function of the same shape.
  - `Dissect(id, frame)` is the whole dissection, and the layer-shape
    guarantees are lemmas about it.
- `Events` (event.dfy): the three-variant event type and the key events it carries.
- `PacketSniffer` (packet_sniffer.rs' `sniffer`, also `Sniffer::run` of sniffer.rs):
  - the capture loop runs over a given sequence of read outcomes;
  - it reads the stop flag at the top of each iteration, taken as a given
    sequence of values.
- `SnifferController` (sniffer.dfy): the `Sniffer` controller.
  - It is a class whose `Start`/`Stop` methods update the stop flag, the
    thread handle and the paused flag.
  - The stop flag is a shared object, and a thread handle is a token that
    records the flag its thread watches.
- `TableCursor` (table_cursor.dfy): the wrap-around `next_row`/`previous_row`
  index arithmetic that both views share.
- `PacketTable` (packet_table.dfy): the packet table widget's state class and its rendering of rows.
- `PacketRows` (packet_rows.dfy): `generate_ref_array`.
  - Both views use it.
  - It is parameterised by how ARP rows show their ends.
  - Address columns are the address values, not their text.
- `AppView` (app.dfy): the `App` consumer.
  - It is a class whose methods are proved against a pure step function over `AppState`.
  - It has lemmas about the loop: it stops at the first `q` press, and it
    holds the newest packet first.
- `Charts` (charts.dfy): the protocol chart.
  - It has the protocol name of a packet.
  - `count_protocols` is a loop that fills a map.
  - `build_chart_data` sorts the names and takes each count out of the map.
  - It proves the maximum used to scale the bars.
  - It proves that the table and the chart agree on dissected packets.

The two snapshots do not fit together as written:

- `app.rs:89` calls `sniffer` with two arguments.
- `packet_sniffer.rs:139-143` takes three, the third being the stop flag.

The model follows the three-argument `sniffer`, which is the loop both
snapshots' capture code implements.

## Model

| member | source | states |
|---|---|---|
| PacketData.CompletePacket.constructor | src/enums.rs:700-707 | a new record keeps its id and has all three layers empty (the same constructor is src/packet_data.rs:239-246) |
| PacketData.CompletePacket.SetLayer1Packet | src/enums.rs:708-710 | layer 1 becomes the given value; the id and layers 2 and 3 are unchanged (likewise src/packet_data.rs:247-249) |
| PacketData.CompletePacket.SetLayer2Packet | src/enums.rs:711-713 | layer 2 becomes the given value; the id and layers 1 and 3 are unchanged |
| PacketData.CompletePacket.SetLayer3Packet | src/enums.rs:714-716 | layer 3 becomes the given value; the id and layers 1 and 2 are unchanged |
| PacketData.SettingTwiceIsSettingOnce | src/packet_data.rs:247-255 | setting each layer twice with one value leaves exactly the record that setting it once does |
| PacketData.EthernetRoundTrip | src/enums.rs:340-349 | decoding an encoded Ethernet frame gives back destination, source, EtherType and payload verbatim |
| PacketData.EthernetBytesOfInfo | src/packet_data.rs:112-121 | re-encoding the decoded Ethernet info of any frame of at least 14 bytes gives the frame back |
| PacketData.ArpRoundTrip | src/enums.rs:413-428 | all nine ARP header fields decode back verbatim, and `length` is 0 whatever follows the 28-byte packet, since the packet library gives ARP an empty payload |
| PacketData.ArpBytesOfInfo | src/packet_data.rs:136-151 | any buffer of at least 28 bytes is its decoded ARP header followed by the bytes after it |
| PacketData.Ipv4RoundTrip | src/enums.rs:597-616 | every IPv4 fixed-header field, including the bit fields, decodes back verbatim; `length` is the payload length |
| PacketData.Ipv4BytesOfInfo | src/packet_data.rs:197-216 | any buffer of at least 20 bytes is its decoded IPv4 header followed by the payload |
| PacketData.Ipv6RoundTrip | src/enums.rs:503-517 | version, traffic class, flow label and the other IPv6 fields decode back verbatim; `length` is the payload length |
| PacketData.Ipv6BytesOfInfo | src/packet_data.rs:164-178 | any buffer of at least 40 bytes is its decoded IPv6 header followed by the payload |
| PacketData.TcpRoundTrip | src/enums.rs:40-57 | TCP ports, sequence and acknowledgement numbers, offset, flags, window, checksum and urgent pointer decode back; `length` is the payload length, not the segment's |
| PacketData.TcpBytesOfInfo | src/packet_data.rs:33-50 | any buffer of at least 20 bytes is its decoded TCP header followed by `length` payload bytes |
| PacketData.UdpRoundTrip | src/enums.rs:139-148 | source port, destination port, length and checksum are copied verbatim from the RFC 768 header |
| PacketData.UdpBytesOfInfo | src/packet_data.rs:59-68 | any buffer of at least 8 bytes is its decoded UDP header followed by the rest of the buffer |
| PacketData.IcmpRoundTrip | src/enums.rs:273-282 | ICMP type, code and checksum decode back; `length` is the payload length |
| PacketData.IcmpBytesOfInfo | src/packet_data.rs:94-103 | any buffer of at least 4 bytes is its decoded ICMP header followed by the payload |
| PacketData.Icmpv6RoundTrip | src/enums.rs:206-215 | ICMPv6 type, code and checksum decode back; `length` is the payload length |
| PacketData.Icmpv6BytesOfInfo | src/packet_data.rs:77-86 | any buffer of at least 4 bytes is its decoded ICMPv6 header followed by the payload |
| Dissector.PacketNew | src/packet_sniffer.rs:186-189 | the stand-in for the packet library's header constructors, not a proved property: a view exists exactly when the buffer holds the fixed header, and it views the buffer itself |
| Dissector.HandleIcmpPacket | src/packet_sniffer.rs:33-37 | sets layer 3 to the ICMP info and nothing else |
| Dissector.HandleIcmpv6Packet | src/packet_sniffer.rs:38-42 | sets layer 3 to the ICMPv6 info and nothing else |
| Dissector.HandleTcpPacket | src/packet_sniffer.rs:43-47 | sets layer 3 to the TCP info and nothing else |
| Dissector.HandleUdpPacket | src/packet_sniffer.rs:48-52 | sets layer 3 to the UDP info and nothing else |
| Dissector.HandleIpNextHeaderProtocols | src/packet_sniffer.rs:53-85 | the record afterwards is the pure transport dispatch applied to the record before (the second snapshot's copy is src/sniffer.rs:185-218) |
| Dissector.HandleIpv6Packet | src/packet_sniffer.rs:86-95 | the record afterwards is the IPv6 step: layer 2, then the immediate next header |
| Dissector.HandleIpv4Packet | src/packet_sniffer.rs:96-105 | the record afterwards is the IPv4 step: layer 2, then the protocol field |
| Dissector.HandleArpPacket | src/packet_sniffer.rs:106-110 | sets layer 2 to the ARP info and nothing else |
| Dissector.HandleEthernetPacket | src/packet_sniffer.rs:112-137 | the record afterwards is the pure Ethernet dissection of the frame applied to the record before (the second snapshot's copy is src/sniffer.rs:247-275) |
| Dissector.DissectLayer1 | src/packet_sniffer.rs:112-115 | every frame keeps its id; a frame under 14 bytes has no layers; any other has its Ethernet info as layer 1 whatever the inner headers do |
| Dissector.TransportDecodes | src/packet_sniffer.rs:53-85 | a transport header is decoded if and only if the protocol is 1, 6, 17 or 58 and the payload holds that header, and it is the matching variant |
| Dissector.DissectUnknownEtherType | src/packet_sniffer.rs:116-136 | an EtherType other than 0x0806, 0x0800 and 0x86DD leaves layers 2 and 3 empty (so too in src/sniffer.rs:247-275) |
| Dissector.DissectArp | src/packet_sniffer.rs:106-121 | an ARP frame gets its ARP info as layer 2 exactly when 28 bytes follow the Ethernet header, and never a layer 3 (so too in src/sniffer.rs:241-245) |
| Dissector.DissectIpv4 | src/packet_sniffer.rs:96-105 | layer 2 is set whenever the IPv4 header decodes; layer 3 is the transport dispatch on the payload, so a short payload or unknown protocol leaves it empty, and protocol 58 gives ICMPv6 |
| Dissector.DissectIpv6 | src/packet_sniffer.rs:86-95 | the same with the IPv6 next-header field, with no walk over extension headers |
| Dissector.DissectWellLayered | src/packet_sniffer.rs:53-137 | every dissected record is layered: layer 1 Ethernet, layer 2 only with layer 1 and one of ARP/IPv4/IPv6, layer 3 only over IPv4/IPv6 and one of the four transports |
| Dissector.DissectEthernetIpv4Tcp | src/packet_sniffer.rs:96-105 | a well-formed Ethernet+IPv4+TCP frame (IPv4 version 4, a 5-word header, a total length covering exactly the segment; TCP with a 5-word header) built from header values dissects into exactly those values; it says nothing about other frames |
| Dissector.DissectEthernetIpv6Udp | src/packet_sniffer.rs:86-95 | a well-formed Ethernet+IPv6+UDP frame (version 6, a payload length covering exactly the datagram) built from header values dissects into exactly those values; it says nothing about other frames |
| Dissector.DissectArpFrame | src/packet_sniffer.rs:117-121 | an ARP frame with any trailer dissects into its ARP info with length 0 and no layer 3; with no trailer it is the 42-byte frame |
| PacketSniffer.Sniffer | src/packet_sniffer.rs:139-198 | when the channel does not open nothing is emitted (the second snapshot's `run`, src/sniffer.rs:105-158, is the same loop); otherwise the i-th frame read before the stop flag is seen is emitted as its dissection under id i+1, and read errors emit nothing |
| PacketSniffer.FirstStop | src/packet_sniffer.rs:178-180 | the loop leaves at the first iteration that reads the flag set, and at no earlier one |
| PacketSniffer.FramesAppend | src/packet_sniffer.rs:182-196 | the frames of a run are the frames of its parts, in order |
| PacketSniffer.ReadErrorsEmitNothing | src/packet_sniffer.rs:192-196 | a timeout or other read error anywhere changes neither the frames emitted nor their ids, and does not end the loop |
| SnifferController.Sniffer.constructor | src/sniffer.rs:55-65 | paused, no handle, no channel, no interface, an unset fresh flag, empty list, row 0 selected |
| SnifferController.Sniffer.Stop | src/sniffer.rs:67-74 | the current flag is set, no handle is held, the controller is paused; nothing else changes |
| SnifferController.StopTwiceIsStopOnce | src/sniffer.rs:67-74 | stopping twice leaves the state one stop leaves |
| SnifferController.Sniffer.Start | src/sniffer.rs:76-91 | with a channel and an interface, a fresh unset flag and a handle watching it, not paused; otherwise nothing changes; a thread already running keeps its own unset flag |
| SnifferController.StartThenStop | src/sniffer.rs:67-91 | after a start and a stop the controller is paused and the started thread's flag is set |
| SnifferController.Sniffer.RegisterEventHandler | src/sniffer.rs:277-279 | sets the channel and touches no other field |
| SnifferController.Sniffer.NextRow | src/sniffer.rs:93-95 | moves the table cursor down over the current number of packets |
| SnifferController.Sniffer.PreviousRow | src/sniffer.rs:97-99 | moves the table cursor up over the current number of packets |
| SnifferController.Sniffer.SelectedPacketIndex | src/sniffer.rs:101-103 | the table's current selection |
| TableCursor.NextIndexInRange | src/widgets/packet_table.rs:25-38 | moving down lands below the length of a non-empty list, on 0 for an empty one, and on 0 with no selection |
| TableCursor.PreviousIndexInRange | src/widgets/packet_table.rs:40-57 | moving up from a row of the list stays in the list; with no selection it lands on 0 |
| TableCursor.MovesAreInverse | src/widgets/packet_table.rs:25-57 | on every row of the list, up undoes down and down undoes up |
| TableCursor.NextIterateAdvances | src/app.rs:147-160 | short of the last row, k moves down go k rows on |
| TableCursor.PreviousIterateRetreats | src/app.rs:162-179 | short of the first row, k moves up go k rows back |
| TableCursor.FullCycle | src/widgets/packet_table.rs:25-57 | as many moves as the list is long, in either direction, come back to the starting row |
| PacketTable.PacketTableState.constructor | src/widgets/packet_table.rs:18-23 | selection 0, scroll position 0 and content length 0 |
| PacketTable.PacketTableState.NextRow | src/widgets/packet_table.rs:25-38 | the selection becomes the next index and the scroll position follows it |
| PacketTable.PacketTableState.PreviousRow | src/widgets/packet_table.rs:40-57 | the selection becomes the previous index and the scroll position follows it |
| PacketTable.PacketTableState.Selected | src/widgets/packet_table.rs:59-61 | the current selection |
| PacketTable.GenerateRefArray | src/widgets/packet_table.rs:84-97 | ARP rows of this view show the sender and target hardware addresses only |
| PacketTable.Render | src/widgets/packet_table.rs:157-214 | the rows drawn are the packets' rows in order; the content length becomes the number of packets; the selection is untouched |
| PacketRows.RefArray | src/widgets/packet_table.rs:81-151 | no row without layer 2 (in both views; the other is src/app.rs:181-251); always an "ARP" row over ARP; over IP a row exactly for a transport layer 3, with "ip:port" ends for TCP and UDP and bare addresses for ICMP and ICMPv6; the id comes first |
| PacketRows.RowsComeFromPackets | src/widgets/packet_table.rs:163-174 | every row shown is the row of some packet |
| PacketRows.PacketsWithRowAreShown | src/widgets/packet_table.rs:163-174 | every packet that has a row is shown |
| AppView.App.constructor | src/app.rs:50-61 | not exiting, row 0 selected, an empty scrollbar and no packets |
| AppView.App.NextRow | src/app.rs:147-160 | the selection becomes the next index over the held packets and the scroll position follows |
| AppView.App.PreviousRow | src/app.rs:162-179 | the selection becomes the previous index over the held packets and the scroll position follows |
| AppView.App.HandleKeyEvent | src/app.rs:63-80 | only presses act: q sets exit, j or Down moves down, k or Up moves up |
| AppView.App.Run | src/app.rs:109-117 | the state after the loop and the number of events it took are those of the step function over the events |
| AppView.App.GenerateRefArray | src/app.rs:184-198 | ARP rows of this view show each end as its protocol address with its hardware address |
| AppView.RunStopsAtFirstQuit | src/app.rs:109-117 | the loop ends exactly when a q press arrives, right after the first one; without one it takes every event |
| AppView.RunHoldsNewestFirst | src/app.rs:111 | the list after the loop is the captured packets in reverse arrival order, in front of the old list |
| AppView.CaptureEventPrepends | src/app.rs:111 | a captured packet goes to index 0, the others move one on, and the list grows by one |
| AppView.NonPressKeysChangeNothing | src/app.rs:67 | a key event that is not a press changes nothing |
| AppView.ScrollFollowsSelection | src/app.rs:158-159 | after a cursor key the scroll position is the selected row, and packets and exit are unchanged |
| AppView.SelectionStaysOnList | src/app.rs:109-179 | once the selection is on a row of the list, every event keeps it on one |
| Charts.GetProtocolName | src/widgets/charts.rs:55-72 | a layer 3 alone decides the name: TCP gives "TCP", UDP "UDP", ICMP "ICMP", ICMPv6 "ICMPv6", any other none; without a layer 3 an ARP layer 2 gives "ARP" and anything else none |
| Charts.CountProtocols | src/widgets/charts.rs:43-53 | a name is in the map exactly when some packet carries it, with the number of packets that carry it |
| Charts.CountsAddUp | src/widgets/charts.rs:46-50 | the map names only known protocols and its counts add up to the number of named packets |
| Charts.SortNames | src/widgets/charts.rs:78-79 | the names, without loss or duplication, in strictly increasing byte order |
| Charts.BuildChartData | src/widgets/charts.rs:74-85 | one entry per key of the map, strictly sorted by name, each with its count |
| Charts.MaxCount | src/widgets/charts.rs:88-92 | the largest count, attained by some entry, or 0 when there are none |
| Charts.BuildBarchart | src/widgets/charts.rs:87-110 | the bars are the data and the scale is at least every count and attained |
| Charts.Render | src/widgets/charts.rs:19-30 | no chart for an empty list; otherwise sorted bars, one per protocol seen, each its packet count |
| Charts.RowExactlyWhenNamed | src/widgets/charts.rs:55-72 | for a dissected packet, the table has a row exactly when the chart names it, under the same protocol |
| Charts.RowsMatchChartTotal | src/widgets/charts.rs:43-53 | over dissected packets, the table's rows are as many as the chart's counts add up to |
| Charts.LexLessTransitive | src/widgets/charts.rs:79 | the order names are sorted in is transitive |
| Charts.LexLessTotal | src/widgets/charts.rs:79 | any two different names are ordered one way or the other |

## Left out

- Threads and channels are not modelled: `thread::spawn`, `join`, `mpsc`, and the atomic ordering of the stop flag.
  - The loop gets its flag reads and read outcomes as sequences.
  - A thread handle is a token.
  - A send is an append to the emitted events, and its `unwrap` abort on a closed channel is not modelled.
- Opening the datalink channel and its configuration are operating-system I/O. Only the three outcomes of opening it are kept.
- Frames that are never read are not modelled.
  - `PacketSniffer.Sniffer` requires that the flag is eventually read as set and that the interface answers every read before that.
  - It does not model a capture that runs forever.
- The packet library's parsing is reduced to minimum-length checks with the fixed header sizes: 14, 28, 20, 40, 20, 8, 4 and 4.
  - Payload extraction is "the bytes after the fixed header" for every protocol.
  - The model does not slice the IPv4 payload by header length and total length.
  - It does not slice the TCP payload by data offset, and does not parse TCP options.
  - It does not slice the IPv6 payload by payload length.
  - So every `length` field except ARP's (which is 0, as in the packet library), and the payloads passed down a layer, are those of the fixed-header view.
- `PacketData.TcpRoundTrip`: TCP options are not part of the record, so the round trip covers the 20-byte fixed header only.
- Integer widths are not modelled.
  - Ids and lengths are unbounded, so the id counter never overflows.
  - Chart counts are unbounded where the source uses 32-bit counters widened to 64 bits.
- The tick scheduler needs wall-clock time, and only the `Render` event it sends is kept.
  - Terminal drawing is not modelled, and neither is the error a failing draw makes `run` return with.
  - Input reading from the terminal is not modelled either.
- The text form of addresses is not modelled: the row columns hold the address values they are formatted from.
- The layout and widget construction inside the `render` and `draw` methods are not modelled, nor is the chart's empty-list placeholder. Only the rows, the scrollbar length and the bar data are kept.
- `Charts.SortNames`: the standard library's unstable sort is replaced by an insertion sort proved to give the same result on distinct names. That result is the unique strictly increasing order of the names.
- These files are not part of this model:
  - src/main.rs, which is terminal setup;
  - src/widgets/popup.rs, footer.rs, layout_helper.rs and interfaces.rs, which are UI construction.
- The ICMP types' debug names are not modelled.
