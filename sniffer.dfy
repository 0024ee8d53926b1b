/**
 * The controller that owns a capture session: it starts a capture thread on
 * the chosen interface, stops it through a shared flag, and moves a cursor
 * over the packets it holds.
 */
module SnifferController {
  import opened Wrappers
  import opened PacketData
  import opened TableCursor
  import opened PacketTable

  datatype NetworkInterface = NetworkInterface(name: string, index: nat)

  /** The sending end of the consumer's event channel. */
  datatype EventSender = EventSender(channel: nat)

  /** The stop flag shared between the controller and one capture thread. */
  class StopSignal {
    var value: bool

    constructor (value: bool)
      ensures this.value == value
    {
      this.value := value;
    }

    method Store(value: bool)
      modifies this
      ensures this.value == value
    {
      this.value := value;
    }
  }

  /** A running capture thread: the arguments it was started with. */
  datatype JoinHandle = JoinHandle(networkInterface: NetworkInterface, tx: EventSender, stopSignal: StopSignal)

  class Sniffer {
    var networkInterface: Option<NetworkInterface>
    var tx: Option<EventSender>
    var stopSignal: StopSignal
    var snifferPaused: bool
    var snifferHandle: Option<JoinHandle>
    var packetTableState: PacketTableState
    var packets: seq<CapturedPacket>

    /**
     * Paused exactly when no capture thread is held, and the thread held
     * watches the current stop flag, which is not yet set.
     */
    ghost predicate Valid()
      reads this, stopSignal
    {
      && (snifferPaused <==> snifferHandle.None?)
      && (snifferHandle.Some? ==> snifferHandle.value.stopSignal == stopSignal && !stopSignal.value)
    }

    /** A new controller: no interface, no channel, paused, an unset flag, an empty list. */
    constructor ()
      ensures Valid()
      ensures networkInterface == None && tx == None
      ensures snifferPaused && snifferHandle == None
      ensures fresh(stopSignal) && !stopSignal.value
      ensures fresh(packetTableState)
      ensures packetTableState.tableState == TableState(Some(0))
      ensures packetTableState.scrollState == ScrollbarState(0, 0)
      ensures packets == []
    {
      networkInterface := None;
      tx := None;
      stopSignal := new StopSignal(false);
      snifferPaused := true;
      snifferHandle := None;
      packetTableState := new PacketTableState();
      packets := [];
    }

    /**
     * `stop`: sets the current flag, takes the thread handle (joining the
     * thread, which exits once it reads the flag) and marks the controller
     * paused.  It is harmless when nothing runs.
     */
    method Stop()
      modifies this, stopSignal
      ensures Valid()
      ensures stopSignal == old(stopSignal) && stopSignal.value
      ensures snifferHandle == None && snifferPaused
      ensures networkInterface == old(networkInterface) && tx == old(tx)
      ensures packetTableState == old(packetTableState) && packets == old(packets)
    {
      stopSignal.Store(true);
      if snifferHandle.Some? {
        snifferHandle := None;
      }
      snifferPaused := true;
    }

    /**
     * `start`: with both a channel and an interface, installs a fresh unset
     * flag and a thread watching it, and marks the controller running;
     * otherwise does nothing.  A thread that was already running keeps its
     * own flag, which stays unset: no later `Stop` reaches it.
     */
    method Start()
      requires Valid()
      modifies this
      ensures Valid()
      ensures old(tx).Some? && old(networkInterface).Some? ==>
                && fresh(stopSignal) && !stopSignal.value
                && snifferHandle == Some(JoinHandle(old(networkInterface).value, old(tx).value, stopSignal))
                && !snifferPaused
      ensures old(tx).Some? && old(networkInterface).Some? && old(snifferHandle).Some? ==>
                old(snifferHandle).value.stopSignal != stopSignal && !old(snifferHandle).value.stopSignal.value
      ensures !(old(tx).Some? && old(networkInterface).Some?) ==>
                stopSignal == old(stopSignal) && snifferHandle == old(snifferHandle) && snifferPaused == old(snifferPaused)
      ensures networkInterface == old(networkInterface) && tx == old(tx)
      ensures packetTableState == old(packetTableState) && packets == old(packets)
    {
      if tx.Some? && networkInterface.Some? {
        var signal := new StopSignal(false);
        stopSignal := signal;
        snifferHandle := Some(JoinHandle(networkInterface.value, tx.value, signal));
        snifferPaused := false;
      }
    }

    /** `register_event_handler`: records the channel a later `Start` hands to the thread. */
    method RegisterEventHandler(tx: EventSender)
      requires Valid()
      modifies this
      ensures Valid()
      ensures this.tx == Some(tx)
      ensures networkInterface == old(networkInterface) && stopSignal == old(stopSignal)
      ensures snifferPaused == old(snifferPaused) && snifferHandle == old(snifferHandle)
      ensures packetTableState == old(packetTableState) && packets == old(packets)
    {
      this.tx := Some(tx);
    }

    /** One row down over the packets held. */
    method NextRow()
      modifies packetTableState
      ensures packetTableState.tableState == TableState(Some(NextIndex(old(packetTableState.tableState.selected), |packets|)))
      ensures packetTableState.scrollState ==
                old(packetTableState.scrollState).(position := NextIndex(old(packetTableState.tableState.selected), |packets|))
    {
      packetTableState.NextRow(|packets|);
    }

    /** One row up over the packets held. */
    method PreviousRow()
      modifies packetTableState
      ensures packetTableState.tableState == TableState(Some(PreviousIndex(old(packetTableState.tableState.selected), |packets|)))
      ensures packetTableState.scrollState ==
                old(packetTableState.scrollState).(position := PreviousIndex(old(packetTableState.tableState.selected), |packets|))
    {
      packetTableState.PreviousRow(|packets|);
    }

    function SelectedPacketIndex(): (r: Option<nat>)
      reads this, packetTableState
      ensures r == packetTableState.tableState.selected
    {
      packetTableState.Selected()
    }
  }

  /**
   * Start, then stop: the controller is paused, holds no thread, and the flag
   * the started thread watches is set, so that thread leaves its loop.
   */
  method StartThenStop(s: Sniffer)
    requires s.Valid() && s.tx.Some? && s.networkInterface.Some?
    modifies s, s.stopSignal
    ensures s.Valid() && s.snifferPaused && s.snifferHandle == None
    ensures fresh(s.stopSignal) && s.stopSignal.value
  {
    s.Start();
    s.Stop();
  }

  /** A second `stop` leaves the controller as one `stop` does. */
  method StopTwiceIsStopOnce(s: Sniffer)
    modifies s, s.stopSignal
    ensures s.Valid() && s.snifferPaused && s.snifferHandle == None
    ensures s.stopSignal == old(s.stopSignal) && s.stopSignal.value
    ensures s.networkInterface == old(s.networkInterface) && s.tx == old(s.tx)
    ensures s.packetTableState == old(s.packetTableState) && s.packets == old(s.packets)
  {
    s.Stop();
    s.Stop();
  }
}
