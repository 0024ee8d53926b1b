/** The packet table widget and the cursor state it keeps between frames. */
module PacketTable {
  import opened Wrappers
  import opened PacketData
  import opened TableCursor
  import opened PacketRows

  class PacketTableState {
    var tableState: TableState
    var scrollState: ScrollbarState

    /** A fresh table has row 0 selected and an empty scrollbar. */
    constructor ()
      ensures tableState == TableState(Some(0))
      ensures scrollState == ScrollbarState(0, 0)
    {
      tableState := TableState(Some(0));
      scrollState := ScrollbarState(0, 0);
    }

    /** One row down (wrapping), with the scrollbar following the selection. */
    method NextRow(packetsLen: nat)
      modifies this
      ensures tableState == TableState(Some(NextIndex(old(tableState.selected), packetsLen)))
      ensures scrollState == old(scrollState).(position := NextIndex(old(tableState.selected), packetsLen))
    {
      var i := match tableState.selected {
        case Some(i) => if packetsLen == 0 || i >= packetsLen - 1 then 0 else i + 1
        case None => 0
      };
      tableState := tableState.(selected := Some(i));
      scrollState := scrollState.(position := i);
    }

    /** One row up (wrapping), with the scrollbar following the selection. */
    method PreviousRow(packetsLen: nat)
      modifies this
      ensures tableState == TableState(Some(PreviousIndex(old(tableState.selected), packetsLen)))
      ensures scrollState == old(scrollState).(position := PreviousIndex(old(tableState.selected), packetsLen))
    {
      var i := match tableState.selected {
        case Some(i) => if i == 0 then (if packetsLen > 0 then packetsLen - 1 else 0) else i - 1
        case None => 0
      };
      tableState := tableState.(selected := Some(i));
      scrollState := scrollState.(position := i);
    }

    function Selected(): (r: Option<nat>)
      reads this
      ensures r == tableState.selected
    {
      tableState.selected
    }
  }

  /** This view's rows show ARP ends by their hardware addresses only. */
  function GenerateRefArray(p: CapturedPacket): (r: Option<Row>)
    ensures p.layer2.Some? && p.layer2.value.ArpPacket? ==>
              r.Some? && r.value.source == ArpHw(p.layer2.value.arp.senderHwAddr)
              && r.value.destination == ArpHw(p.layer2.value.arp.targetHwAddr)
  {
    RefArray(p, HwOnly)
  }

  /**
   * `render`: the rows drawn are the packets' rows in list order; the
   * scrollbar's content length becomes the number of packets (rows or not),
   * and the selection is left as it was.
   */
  method Render(packets: seq<CapturedPacket>, state: PacketTableState) returns (rows: seq<Row>)
    modifies state
    ensures rows == Rows(packets, HwOnly)
    ensures state.tableState == old(state.tableState)
    ensures state.scrollState == old(state.scrollState).(contentLength := |packets|)
  {
    rows := Rows(packets, HwOnly);
    state.scrollState := state.scrollState.(contentLength := |packets|);
  }
}
