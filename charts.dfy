/**
 * The protocol bar chart: one bar per protocol name seen in the packet
 * list, in name order, each as tall as the number of packets of that
 * protocol, scaled to the tallest.
 */
module Charts {
  import opened Wrappers
  import opened PacketData
  import opened PacketRows

  /** Every name the chart can show, in byte order. */
  const PROTOCOL_NAMES: seq<string> := ["ARP", "ICMP", "ICMPv6", "TCP", "UDP"]

  /**
   * `get_protocol_name`: the transport protocol when layer 3 is set,
   * otherwise ARP when layer 2 is ARP, otherwise nothing.
   */
  function GetProtocolName(p: CapturedPacket): (r: Option<string>)
    ensures r.Some? ==> r.value in PROTOCOL_NAMES
    ensures p.layer3.Some? ==>
              (r.Some? <==> p.layer3.value.TcpPacket? || p.layer3.value.UdpPacket?
                            || p.layer3.value.IcmpPacket? || p.layer3.value.Icmpv6Packet?)
    ensures p.layer3.None? ==> (r.Some? <==> p.layer2.Some? && p.layer2.value.ArpPacket?)
    ensures r == Some("ARP") ==> p.layer3.None?
    ensures p.layer3.Some? && p.layer3.value.TcpPacket? ==> r == Some("TCP")
    ensures p.layer3.Some? && p.layer3.value.UdpPacket? ==> r == Some("UDP")
    ensures p.layer3.Some? && p.layer3.value.IcmpPacket? ==> r == Some("ICMP")
    ensures p.layer3.Some? && p.layer3.value.Icmpv6Packet? ==> r == Some("ICMPv6")
    ensures p.layer3.None? && p.layer2.Some? && p.layer2.value.ArpPacket? ==> r == Some("ARP")
  {
    match p.layer3
    case Some(layer3) =>
      (match layer3
       case TcpPacket(_) => Some("TCP")
       case UdpPacket(_) => Some("UDP")
       case IcmpPacket(_) => Some("ICMP")
       case Icmpv6Packet(_) => Some("ICMPv6")
       case _ => None)
    case None =>
      match p.layer2
      case Some(ArpPacket(_)) => Some("ARP")
      case _ => None
  }

  /** How many of the packets carry the protocol name `name`. */
  function NameCount(packets: seq<CapturedPacket>, name: string): nat
  {
    if packets == [] then 0
    else
      NameCount(packets[..|packets| - 1], name)
      + (if GetProtocolName(packets[|packets| - 1]) == Some(name) then 1 else 0)
  }

  /** How many of the packets carry some protocol name. */
  function NamedCount(packets: seq<CapturedPacket>): nat
  {
    if packets == [] then 0
    else NamedCount(packets[..|packets| - 1]) + (if GetProtocolName(packets[|packets| - 1]).Some? then 1 else 0)
  }

  /** `counts` holds, for exactly the names seen, how many packets carry each. */
  ghost predicate IsCountOf(counts: map<string, nat>, packets: seq<CapturedPacket>)
  {
    && (forall name :: name in counts <==> NameCount(packets, name) > 0)
    && (forall name :: name in counts ==> counts[name] == NameCount(packets, name))
  }

  /** `count_protocols`: a count per protocol name over the packet list. */
  method CountProtocols(packets: seq<CapturedPacket>) returns (protocolCounts: map<string, nat>)
    ensures IsCountOf(protocolCounts, packets)
  {
    protocolCounts := map[];
    for i := 0 to |packets|
      invariant IsCountOf(protocolCounts, packets[..i])
    {
      assert packets[..i + 1][..i] == packets[..i];
      var name := GetProtocolName(packets[i]);
      if name.Some? {
        var n := if name.value in protocolCounts then protocolCounts[name.value] else 0;
        protocolCounts := protocolCounts[name.value := n + 1];
      }
    }
    assert packets[..|packets|] == packets;
  }

  /** The counts of the listed names, added up. */
  function SumCounts(counts: map<string, nat>, names: seq<string>): nat
  {
    if names == [] then 0
    else (if names[0] in counts then counts[names[0]] else 0) + SumCounts(counts, names[1..])
  }

  function SumNameCounts(packets: seq<CapturedPacket>, names: seq<string>): nat
  {
    if names == [] then 0 else NameCount(packets, names[0]) + SumNameCounts(packets, names[1..])
  }

  predicate Distinct(names: seq<string>)
  {
    forall i, j :: 0 <= i < j < |names| ==> names[i] != names[j]
  }

  lemma {:induction false} SumNameCountsStep(packets: seq<CapturedPacket>, p: CapturedPacket, names: seq<string>)
    requires Distinct(names)
    ensures SumNameCounts(packets + [p], names) ==
            SumNameCounts(packets, names) + (if GetProtocolName(p).Some? && GetProtocolName(p).value in names then 1 else 0)
  {
    if names != [] {
      assert (packets + [p])[..|packets + [p]| - 1] == packets;
      assert Distinct(names[1..]) by {
        forall i, j | 0 <= i < j < |names[1..]|
          ensures names[1..][i] != names[1..][j]
        {
          assert names[1..][i] == names[i + 1] && names[1..][j] == names[j + 1];
        }
      }
      SumNameCountsStep(packets, p, names[1..]);
      if GetProtocolName(p) == Some(names[0]) {
        assert names[0] !in names[1..] by {
          forall k | 0 <= k < |names[1..]|
            ensures names[1..][k] != names[0]
          {
            assert names[1..][k] == names[k + 1];
          }
        }
      }
    }
  }

  lemma {:induction false} NoPacketsNoCounts(names: seq<string>)
    ensures SumNameCounts([], names) == 0
  {
    if names != [] {
      NoPacketsNoCounts(names[1..]);
    }
  }

  lemma {:induction false} SumNameCountsIsNamedCount(packets: seq<CapturedPacket>)
    ensures SumNameCounts(packets, PROTOCOL_NAMES) == NamedCount(packets)
    decreases |packets|
  {
    if packets == [] {
      NoPacketsNoCounts(PROTOCOL_NAMES);
    } else {
      var init := packets[..|packets| - 1];
      var last := packets[|packets| - 1];
      assert init + [last] == packets;
      SumNameCountsIsNamedCount(init);
      SumNameCountsStep(init, last, PROTOCOL_NAMES);
    }
  }

  lemma {:induction false} SumCountsOfCount(counts: map<string, nat>, packets: seq<CapturedPacket>, names: seq<string>)
    requires IsCountOf(counts, packets)
    ensures SumCounts(counts, names) == SumNameCounts(packets, names)
  {
    if names != [] {
      SumCountsOfCount(counts, packets, names[1..]);
    }
  }

  lemma {:induction false} NamesSeenAreKnown(packets: seq<CapturedPacket>, name: string)
    requires NameCount(packets, name) > 0
    ensures name in PROTOCOL_NAMES
  {
    if GetProtocolName(packets[|packets| - 1]) != Some(name) {
      NamesSeenAreKnown(packets[..|packets| - 1], name);
    }
  }

  /**
   * The counts name only protocols the chart knows, and they add up to the
   * number of packets that carry a protocol name.
   */
  lemma CountsAddUp(counts: map<string, nat>, packets: seq<CapturedPacket>)
    requires IsCountOf(counts, packets)
    ensures forall name :: name in counts ==> name in PROTOCOL_NAMES
    ensures SumCounts(counts, PROTOCOL_NAMES) == NamedCount(packets)
  {
    forall name | name in counts
      ensures name in PROTOCOL_NAMES
    {
      NamesSeenAreKnown(packets, name);
    }
    SumCountsOfCount(counts, packets, PROTOCOL_NAMES);
    SumNameCountsIsNamedCount(packets);
  }

  /** Byte-wise string order with a proper prefix first (the order of `str`). */
  predicate LexLess(a: string, b: string)
  {
    if a == [] then b != []
    else if b == [] then false
    else if a[0] != b[0] then a[0] < b[0]
    else LexLess(a[1..], b[1..])
  }

  lemma {:induction false} LexLessIrreflexive(a: string)
    ensures !LexLess(a, a)
  {
    if a != [] {
      LexLessIrreflexive(a[1..]);
    }
  }

  lemma {:induction false} LexLessTransitive(a: string, b: string, c: string)
    requires LexLess(a, b) && LexLess(b, c)
    ensures LexLess(a, c)
  {
    if a != [] && b != [] && c != [] && a[0] == b[0] && b[0] == c[0] {
      LexLessTransitive(a[1..], b[1..], c[1..]);
    }
  }

  lemma {:induction false} LexLessTotal(a: string, b: string)
    requires a != b
    ensures LexLess(a, b) || LexLess(b, a)
  {
    if a != [] && b != [] && a[0] == b[0] {
      assert a == [a[0]] + a[1..] && b == [b[0]] + b[1..];
      LexLessTotal(a[1..], b[1..]);
    }
  }

  predicate StrictlySorted(s: seq<string>)
  {
    forall i, j :: 0 <= i < j < |s| ==> LexLess(s[i], s[j])
  }

  function InsertSorted(x: string, s: seq<string>): (r: seq<string>)
    requires StrictlySorted(s) && x !in s
    ensures StrictlySorted(r)
    ensures |r| == |s| + 1
    ensures forall y :: y in r <==> y == x || y in s
  {
    if s == [] then [x]
    else if LexLess(x, s[0]) then
      assert forall j :: 0 < j < |s| ==> LexLess(x, s[j]) by {
        forall j | 0 < j < |s|
          ensures LexLess(x, s[j])
        {
          LexLessTransitive(x, s[0], s[j]);
        }
      }
      [x] + s
    else
      LexLessTotal(x, s[0]);
      assert StrictlySorted(s[1..]) by {
        forall i, j | 0 <= i < j < |s[1..]|
          ensures LexLess(s[1..][i], s[1..][j])
        {
          assert s[1..][i] == s[i + 1] && s[1..][j] == s[j + 1];
        }
      }
      var rest := InsertSorted(x, s[1..]);
      assert forall y :: y in rest ==> LexLess(s[0], y) by {
        forall y | y in rest
          ensures LexLess(s[0], y)
        {
          if y != x {
            var k :| 0 <= k < |s[1..]| && s[1..][k] == y;
            assert s[k + 1] == y;
          }
        }
      }
      assert forall k :: 0 <= k < |rest| ==> LexLess(s[0], rest[k]) by {
        forall k | 0 <= k < |rest|
          ensures LexLess(s[0], rest[k])
        {
          assert rest[k] in rest;
        }
      }
      assert s == [s[0]] + s[1..];
      [s[0]] + rest
  }

  /** `sort_unstable` on distinct names: the same names in strictly increasing order. */
  function SortNames(s: seq<string>): (r: seq<string>)
    requires Distinct(s)
    ensures StrictlySorted(r)
    ensures |r| == |s|
    ensures forall y :: y in r <==> y in s
  {
    if s == [] then []
    else
      assert Distinct(s[1..]) by {
        forall i, j | 0 <= i < j < |s[1..]|
          ensures s[1..][i] != s[1..][j]
        {
          assert s[1..][i] == s[i + 1] && s[1..][j] == s[j + 1];
        }
      }
      assert s[0] !in s[1..] by {
        forall k | 0 <= k < |s[1..]|
          ensures s[1..][k] != s[0]
        {
          assert s[1..][k] == s[k + 1];
        }
      }
      assert s == [s[0]] + s[1..];
      InsertSorted(s[0], SortNames(s[1..]))
  }

  function Names(data: seq<(string, nat)>): (r: seq<string>)
    ensures |r| == |data|
    ensures forall i :: 0 <= i < |data| ==> r[i] == data[i].0
  {
    if data == [] then [] else [data[0].0] + Names(data[1..])
  }

  /** The entries are the map's names, each once, in strictly increasing order, each with its count. */
  ghost predicate IsChartDataOf(chartData: seq<(string, nat)>, protocolCounts: map<string, nat>)
  {
    && |chartData| == |protocolCounts|
    && StrictlySorted(Names(chartData))
    && (forall i :: 0 <= i < |chartData| ==>
          chartData[i].0 in protocolCounts && chartData[i].1 == protocolCounts[chartData[i].0])
    && (forall name :: name in protocolCounts ==> name in Names(chartData))
  }

  /**
   * `build_chart_data`: one entry per name counted, in name order, each with
   * its count (taken out of the map as it goes).
   */
  method BuildChartData(protocolCounts: map<string, nat>) returns (chartData: seq<(string, nat)>)
    ensures IsChartDataOf(chartData, protocolCounts)
  {
    var keys: seq<string> := [];
    var left := protocolCounts.Keys;
    while left != {}
      invariant left <= protocolCounts.Keys
      invariant Distinct(keys)
      invariant forall k :: k in keys <==> k in protocolCounts && k !in left
      invariant |keys| + |left| == |protocolCounts.Keys|
      decreases |left|
    {
      var k :| k in left;
      keys := keys + [k];
      left := left - {k};
    }
    assert |protocolCounts.Keys| == |protocolCounts|;
    var sortedProtocols := SortNames(keys);
    var counts := protocolCounts;
    chartData := [];
    for i := 0 to |sortedProtocols|
      invariant |chartData| == i
      invariant forall j :: 0 <= j < i ==> chartData[j].0 == sortedProtocols[j]
      invariant forall j :: 0 <= j < i ==> chartData[j].1 == protocolCounts[sortedProtocols[j]]
      invariant forall j :: i <= j < |sortedProtocols| ==>
                  sortedProtocols[j] in counts && counts[sortedProtocols[j]] == protocolCounts[sortedProtocols[j]]
    {
      var name := sortedProtocols[i];
      var count := if name in counts then counts[name] else 0;
      forall j | i < j < |sortedProtocols|
        ensures sortedProtocols[j] != name
      {
        LexLessIrreflexive(name);
      }
      counts := counts - {name};
      chartData := chartData + [(name, count)];
    }
    assert Names(chartData) == sortedProtocols;
    assert forall name :: name in protocolCounts ==> name in sortedProtocols;
    assert |chartData| == |protocolCounts|;
  }

  /** The largest count in the data, 0 when there is none. */
  function MaxCount(chartData: seq<(string, nat)>): (r: nat)
    ensures forall i :: 0 <= i < |chartData| ==> chartData[i].1 <= r
    ensures chartData == [] ==> r == 0
    ensures chartData != [] ==> exists i :: 0 <= i < |chartData| && chartData[i].1 == r
  {
    if chartData == [] then 0
    else
      var rest := MaxCount(chartData[1..]);
      if chartData[0].1 >= rest then chartData[0].1
      else
        assert exists i :: 0 <= i < |chartData[1..]| && chartData[1..][i].1 == rest;
        var i :| 0 <= i < |chartData[1..]| && chartData[1..][i].1 == rest;
        assert chartData[i + 1].1 == rest;
        rest
  }

  datatype BarChart = BarChart(data: seq<(string, nat)>, max: nat)

  /** `build_barchart`: the bars, scaled so that the tallest fills the chart. */
  function BuildBarchart(chartData: seq<(string, nat)>): (r: BarChart)
    ensures r.data == chartData
    ensures forall i :: 0 <= i < |chartData| ==> chartData[i].1 <= r.max
    ensures chartData != [] ==> exists i :: 0 <= i < |chartData| && chartData[i].1 == r.max
  {
    BarChart(chartData, MaxCount(chartData))
  }

  /**
   * `render`: no chart for an empty list (a placeholder is drawn); otherwise
   * a bar per protocol seen, in name order, each the count of its protocol.
   */
  method Render(packets: seq<CapturedPacket>) returns (chart: Option<BarChart>)
    ensures packets == [] <==> chart.None?
    ensures chart.Some? ==>
              && StrictlySorted(Names(chart.value.data))
              && (forall i :: 0 <= i < |chart.value.data| ==>
                    chart.value.data[i].1 == NameCount(packets, chart.value.data[i].0) > 0)
              && (forall name :: NameCount(packets, name) > 0 ==> name in Names(chart.value.data))
              && (forall i :: 0 <= i < |chart.value.data| ==> chart.value.data[i].1 <= chart.value.max)
  {
    if packets == [] {
      return None;
    }
    var protocolCounts := CountProtocols(packets);
    var chartData := BuildChartData(protocolCounts);
    chart := Some(BuildBarchart(chartData));
  }

  /**
   * For packets laid out as the dissector builds them, the table shows a row
   * exactly when the chart counts the packet, under the same protocol name.
   */
  lemma RowExactlyWhenNamed(p: CapturedPacket, style: ArpColumns)
    requires WellLayered(p)
    ensures RefArray(p, style).Some? <==> GetProtocolName(p).Some?
    ensures RefArray(p, style).Some? ==> RefArray(p, style).value.protocol == GetProtocolName(p).value
  {
  }

  lemma {:induction false} NamedCountAppend(a: seq<CapturedPacket>, b: seq<CapturedPacket>)
    ensures NamedCount(a + b) == NamedCount(a) + NamedCount(b)
    decreases |b|
  {
    if b == [] {
      assert a + b == a;
    } else {
      assert (a + b)[..|a + b| - 1] == a + b[..|b| - 1];
      NamedCountAppend(a, b[..|b| - 1]);
    }
  }

  /** Over dissected packets, the table has as many rows as the chart's bars add up to. */
  lemma {:induction false} RowsMatchChartTotal(packets: seq<CapturedPacket>, style: ArpColumns)
    requires forall i :: 0 <= i < |packets| ==> WellLayered(packets[i])
    ensures |Rows(packets, style)| == NamedCount(packets)
  {
    if packets != [] {
      RowsMatchChartTotal(packets[1..], style);
      RowExactlyWhenNamed(packets[0], style);
      assert [packets[0]] + packets[1..] == packets;
      NamedCountAppend([packets[0]], packets[1..]);
      assert [packets[0]][..0] == [];
    }
  }
}
