/**
 * The consumer: one loop that receives captured packets, key presses and
 * redraw ticks from a single channel, keeps the newest packet first, and
 * moves a wrap-around cursor over the list.
 */
module AppView {
  import opened Wrappers
  import opened PacketData
  import opened Events
  import opened TableCursor
  import opened PacketRows

  /** The part of the application that events change. */
  datatype AppState = AppState(exit: bool, tableState: TableState, scrollState: ScrollbarState,
                               packets: seq<CapturedPacket>)

  const INITIAL_STATE := AppState(false, TableState(Some(0)), ScrollbarState(0, 0), [])

  function NextRowState(s: AppState): AppState
  {
    var i := NextIndex(s.tableState.selected, |s.packets|);
    s.(tableState := TableState(Some(i)), scrollState := s.scrollState.(position := i))
  }

  function PreviousRowState(s: AppState): AppState
  {
    var i := PreviousIndex(s.tableState.selected, |s.packets|);
    s.(tableState := TableState(Some(i)), scrollState := s.scrollState.(position := i))
  }

  /** `handle_key_event`: only presses act; q quits, j or Down moves down, k or Up moves up. */
  function KeyStep(s: AppState, key: KeyEvent): AppState
  {
    if key.kind != Press then s
    else
      match key.code
      case Char(c) =>
        if c == 'q' then s.(exit := true)
        else if c == 'j' then NextRowState(s)
        else if c == 'k' then PreviousRowState(s)
        else s
      case Down => NextRowState(s)
      case Up => PreviousRowState(s)
      case OtherKey => s
  }

  /** One event of the consumer loop (a redraw changes no state). */
  function Step(s: AppState, e: Event): AppState
  {
    match e
    case PacketCaptured(packet) => s.(packets := [packet] + s.packets)
    case Input(key) => KeyStep(s, key)
    case Render => s
  }

  /** The loop over the events received: the final state and how many events it took. */
  function RunSpec(s: AppState, events: seq<Event>): (AppState, nat)
    decreases |events|
  {
    if s.exit || events == [] then (s, 0)
    else
      var (t, n) := RunSpec(Step(s, events[0]), events[1..]);
      (t, n + 1)
  }

  predicate IsQuit(e: Event)
  {
    e.Input? && e.key == KeyEvent(Char('q'), Press)
  }

  /** The packets of the captured-packet events, in arrival order. */
  function Captured(events: seq<Event>): seq<CapturedPacket>
  {
    if events == [] then []
    else (if events[0].PacketCaptured? then [events[0].packet] else []) + Captured(events[1..])
  }

  function Reverse<T>(s: seq<T>): (r: seq<T>)
    ensures |r| == |s|
    ensures forall i :: 0 <= i < |s| ==> r[i] == s[|s| - 1 - i]
  {
    if s == [] then [] else Reverse(s[1..]) + [s[0]]
  }

  class App {
    var exit: bool
    var tableState: TableState
    var scrollState: ScrollbarState
    var packets: seq<CapturedPacket>
    var networkInterface: string

    function State(): AppState
      reads this
    {
      AppState(exit, tableState, scrollState, packets)
    }

    constructor (networkInterface: string)
      ensures State() == INITIAL_STATE
      ensures this.networkInterface == networkInterface
    {
      exit := false;
      tableState := TableState(Some(0));
      scrollState := ScrollbarState(0, 0);
      packets := [];
      this.networkInterface := networkInterface;
    }

    method NextRow()
      modifies this
      ensures State() == NextRowState(old(State()))
      ensures networkInterface == old(networkInterface)
    {
      var i := match tableState.selected {
        case Some(i) => if |packets| == 0 || i >= |packets| - 1 then 0 else i + 1
        case None => 0
      };
      tableState := tableState.(selected := Some(i));
      scrollState := scrollState.(position := i);
    }

    method PreviousRow()
      modifies this
      ensures State() == PreviousRowState(old(State()))
      ensures networkInterface == old(networkInterface)
    {
      var i := match tableState.selected {
        case Some(i) => if i == 0 then (if |packets| > 0 then |packets| - 1 else 0) else i - 1
        case None => 0
      };
      tableState := tableState.(selected := Some(i));
      scrollState := scrollState.(position := i);
    }

    method HandleKeyEvent(key: KeyEvent)
      modifies this
      ensures State() == KeyStep(old(State()), key)
      ensures networkInterface == old(networkInterface)
    {
      if key.kind == Press {
        match key.code {
          case Char(c) =>
            if c == 'q' {
              exit := true;
            } else if c == 'j' {
              NextRow();
            } else if c == 'k' {
              PreviousRow();
            }
          case Down => NextRow();
          case Up => PreviousRow();
          case OtherKey =>
        }
      }
    }

    /**
     * `run`'s loop over the events the channel delivers, until the exit flag
     * is set or the events run out; returns how many it took.
     */
    method Run(events: seq<Event>) returns (handled: nat)
      modifies this
      ensures (State(), handled) == RunSpec(old(State()), events)
      ensures networkInterface == old(networkInterface)
    {
      handled := 0;
      while !exit && handled < |events|
        invariant 0 <= handled <= |events|
        invariant networkInterface == old(networkInterface)
        invariant RunSpec(old(State()), events) ==
                    var (t, n) := RunSpec(State(), events[handled..]); (t, n + handled)
        decreases |events| - handled
      {
        assert events[handled..][1..] == events[handled + 1..];
        match events[handled] {
          case PacketCaptured(packet) => packets := [packet] + packets;
          case Input(key) => HandleKeyEvent(key);
          case Render =>
        }
        handled := handled + 1;
      }
    }

    /** This view's rows show ARP ends as protocol address with hardware address. */
    function GenerateRefArray(p: CapturedPacket): (r: Option<Row>)
      ensures p.layer2.Some? && p.layer2.value.ArpPacket? ==>
                var arp := p.layer2.value.arp;
                r.Some? && r.value.source == ArpProtoHw(arp.senderProtoAddr, arp.senderHwAddr)
                && r.value.destination == ArpProtoHw(arp.targetProtoAddr, arp.targetHwAddr)
    {
      RefArray(p, ProtoAndHw)
    }
  }

  /**
   * The loop stops right after the first press of q and never before: it
   * takes every event when there is none, and otherwise exactly the events
   * up to and including the first.
   */
  lemma {:induction false} RunStopsAtFirstQuit(s: AppState, events: seq<Event>)
    requires !s.exit
    ensures RunSpec(s, events).1 <= |events|
    ensures RunSpec(s, events).0.exit <==> exists i :: 0 <= i < |events| && IsQuit(events[i])
    ensures var (t, n) := RunSpec(s, events);
            t.exit ==> 0 < n && IsQuit(events[n - 1]) && forall j :: 0 <= j < n - 1 ==> !IsQuit(events[j])
    ensures !RunSpec(s, events).0.exit ==> RunSpec(s, events).1 == |events|
    decreases |events|
  {
    if events != [] {
      var s' := Step(s, events[0]);
      assert s'.exit <==> IsQuit(events[0]);
      if !s'.exit {
        RunStopsAtFirstQuit(s', events[1..]);
        var (t, n) := RunSpec(s', events[1..]);
        if exists i :: 0 <= i < |events[1..]| && IsQuit(events[1..][i]) {
          var i :| 0 <= i < |events[1..]| && IsQuit(events[1..][i]);
          assert IsQuit(events[i + 1]);
        }
        if exists i :: 0 <= i < |events| && IsQuit(events[i]) {
          var i :| 0 <= i < |events| && IsQuit(events[i]);
          assert i > 0 && IsQuit(events[1..][i - 1]);
        }
        if t.exit {
          forall j | 0 <= j < n
            ensures !IsQuit(events[j])
          {
            if j > 0 {
              assert events[j] == events[1..][j - 1];
            }
          }
        }
      }
    }
  }

  /**
   * Packets are held newest first: after the loop, the list is the packets
   * received, in reverse order of arrival, in front of those held before.
   */
  lemma {:induction false} RunHoldsNewestFirst(s: AppState, events: seq<Event>)
    ensures var (t, n) := RunSpec(s, events);
            n <= |events| && t.packets == Reverse(Captured(events[..n])) + s.packets
    decreases |events|
  {
    if s.exit || events == [] {
      assert events[..0] == [];
    } else {
      var s' := Step(s, events[0]);
      RunHoldsNewestFirst(s', events[1..]);
      var (t, n) := RunSpec(s', events[1..]);
      assert events[..n + 1] == [events[0]] + events[1..][..n];
      assert Captured(events[..n + 1]) ==
             (if events[0].PacketCaptured? then [events[0].packet] else []) + Captured(events[1..][..n]);
      ReverseAppend(if events[0].PacketCaptured? then [events[0].packet] else [], Captured(events[1..][..n]));
    }
  }

  lemma {:induction false} ReverseAppend<T>(a: seq<T>, b: seq<T>)
    ensures Reverse(a + b) == Reverse(b) + Reverse(a)
  {
    assert |Reverse(a + b)| == |Reverse(b) + Reverse(a)|;
    forall i | 0 <= i < |a + b|
      ensures Reverse(a + b)[i] == (Reverse(b) + Reverse(a))[i]
    {
      if i < |b| {
        assert (a + b)[|a + b| - 1 - i] == b[|b| - 1 - i];
      } else {
        assert (a + b)[|a + b| - 1 - i] == a[|a| - 1 - (i - |b|)];
      }
    }
  }

  /** A captured packet goes in front: index 0, the others one further on, nothing else changes. */
  lemma CaptureEventPrepends(s: AppState, p: CapturedPacket)
    ensures var t := Step(s, PacketCaptured(p));
            && |t.packets| == |s.packets| + 1 && t.packets[0] == p
            && (forall i :: 0 <= i < |s.packets| ==> t.packets[i + 1] == s.packets[i])
            && t.exit == s.exit && t.tableState == s.tableState && t.scrollState == s.scrollState
  {
  }

  /** Keys that are not presses change nothing. */
  lemma NonPressKeysChangeNothing(s: AppState, key: KeyEvent)
    requires key.kind != Press
    ensures Step(s, Input(key)) == s
  {
  }

  /** After any cursor key, the scrollbar position is the selected row. */
  lemma ScrollFollowsSelection(s: AppState, key: KeyEvent)
    requires key.kind == Press && key.code in {Up, Down, Char('j'), Char('k')}
    ensures var t := KeyStep(s, key);
            t.tableState.selected == Some(t.scrollState.position)
            && t.packets == s.packets && t.exit == s.exit
  {
  }

  /** A non-empty list keeps the selection on one of its rows through any event, once it is on one. */
  lemma SelectionStaysOnList(s: AppState, e: Event)
    requires s.tableState.selected.Some? && s.tableState.selected.value < |s.packets|
    ensures var t := Step(s, e);
            t.tableState.selected.Some? && t.tableState.selected.value < |t.packets|
  {
    NextIndexInRange(s.tableState.selected, |s.packets|);
    PreviousIndexInRange(s.tableState.selected, |s.packets|);
  }
}
