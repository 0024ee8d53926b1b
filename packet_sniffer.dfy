/**
 * The capture thread's loop.  The link-layer channel is given as the outcome
 * of opening it and the sequence of answers it gives to successive reads;
 * the shared stop flag is given as the value the loop reads from it at the
 * top of each iteration.
 */
module PacketSniffer {
  import opened Bytes
  import opened PacketData
  import opened Dissector
  import opened Events

  /** What opening the datalink channel gives. */
  datatype ChannelOpen = EthernetChannel | UnknownChannelType | ChannelError

  /** What one read of the receiver gives. */
  datatype PollOutcome = Frame(bytes: seq<Byte>) | TimedOut | OtherError

  /** The frames among the read outcomes, in the order they were read. */
  function Frames(polls: seq<PollOutcome>): (r: seq<seq<Byte>>)
    ensures |r| <= |polls|
  {
    if polls == [] then []
    else
      var last := polls[|polls| - 1];
      Frames(polls[..|polls| - 1]) + (if last.Frame? then [last.bytes] else [])
  }

  /** The iteration at which the loop first reads the stop flag as set (|stopReads| if never). */
  function FirstStop(stopReads: seq<bool>): (k: nat)
    ensures k <= |stopReads|
    ensures k < |stopReads| ==> stopReads[k]
    ensures forall j :: 0 <= j < k ==> !stopReads[j]
  {
    if stopReads == [] then 0
    else if stopReads[0] then 0
    else 1 + FirstStop(stopReads[1..])
  }

  /**
   * `sniffer`: reads until the stop flag is observed set.  Each frame read
   * takes the next id (the first is 1, a frame that is not even an Ethernet
   * frame included) and is emitted as its dissection; timeouts and other read
   * errors emit nothing and the loop goes on.  When the channel cannot be
   * opened the thread ends at once.
   */
  method Sniffer(channel: ChannelOpen, polls: seq<PollOutcome>, stopReads: seq<bool>) returns (events: seq<Event>)
    requires channel == EthernetChannel ==> FirstStop(stopReads) < |stopReads| && FirstStop(stopReads) <= |polls|
    ensures channel != EthernetChannel ==> events == []
    ensures channel == EthernetChannel ==>
              var frames := Frames(polls[..FirstStop(stopReads)]);
              && |events| == |frames|
              && (forall i :: 0 <= i < |events| ==> events[i] == PacketCaptured(Dissect(i + 1, frames[i])))
              && (forall i :: 0 <= i < |events| ==> events[i].packet.id == i + 1)
  {
    events := [];
    if channel != EthernetChannel {
      return;
    }
    var packetId := 0;
    var k := 0;
    while true
      invariant 0 <= k <= FirstStop(stopReads)
      invariant packetId == |events| == |Frames(polls[..k])|
      invariant forall i :: 0 <= i < |events| ==> events[i] == PacketCaptured(Dissect(i + 1, Frames(polls[..k])[i]))
      decreases FirstStop(stopReads) - k
    {
      if stopReads[k] {
        break;
      }
      match polls[k] {
        case Frame(packet) =>
          packetId := packetId + 1;
          var completePacket := new CompletePacket(packetId);
          var ethernet := PacketNew(packet, ETHERNET_HEADER_LEN);
          if ethernet.Some? {
            HandleEthernetPacket(ethernet.value, completePacket);
          }
          events := events + [PacketCaptured(completePacket.Snapshot())];
        case TimedOut =>
        case OtherError =>
      }
      assert polls[..k + 1][..k] == polls[..k];
      k := k + 1;
    }
    forall i | 0 <= i < |events|
      ensures events[i].packet.id == i + 1
    {
      DissectLayer1(i + 1, Frames(polls[..k])[i]);
    }
  }

  /** The frames of two stretches of reads are the frames of each, in order. */
  lemma {:induction false} FramesAppend(a: seq<PollOutcome>, b: seq<PollOutcome>)
    ensures Frames(a + b) == Frames(a) + Frames(b)
    decreases |b|
  {
    if b == [] {
      assert a + b == a;
    } else {
      var c := b[..|b| - 1];
      assert (a + b)[..|a + b| - 1] == a + c;
      assert b[..|b| - 1] == c;
      FramesAppend(a, c);
    }
  }

  /**
   * A timeout or another read error anywhere in the run changes nothing that
   * is emitted: removing it leaves the same frames, so the same ids and packets.
   */
  lemma {:induction false} ReadErrorsEmitNothing(before: seq<PollOutcome>, error: PollOutcome, after: seq<PollOutcome>)
    requires !error.Frame?
    ensures Frames(before + [error] + after) == Frames(before + after)
  {
    FramesAppend(before, [error]);
    FramesAppend(before + [error], after);
    FramesAppend(before, after);
    assert Frames([error]) == Frames([]) + [];
  }
}
