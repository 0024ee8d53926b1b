/** The three kinds of event the consumer loop receives over its one channel. */
module Events {
  import opened PacketData

  /** The key codes the consumer reacts to; every other key is `OtherKey`. */
  datatype KeyCode = Char(c: char) | Up | Down | OtherKey

  datatype KeyEventKind = Press | Repeat | Release

  datatype KeyEvent = KeyEvent(code: KeyCode, kind: KeyEventKind)

  datatype Event =
    | Input(key: KeyEvent)
    | PacketCaptured(packet: CapturedPacket)
    | Render
}
