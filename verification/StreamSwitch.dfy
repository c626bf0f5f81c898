/** The ports of an AIE stream switch and the flow maps that the router exchanges. */
module StreamSwitch {
  import opened Words

  datatype Option<+T> = None | Some(value: T)

  datatype TileLoc = TileLoc(col: int, row: int)

  datatype Bundle = Core | Dma | Fifo | South | West | North | East | Trace | Uctrlr | Ctrl

  datatype Port = Port(bundle: Bundle, channel: int)

  datatype Direction = Src | Dst

  datatype PhysPort = PhysPort(tileLoc: TileLoc, port: Port, direction: Direction)

  /** A physical port together with the 32-bit packet id that travels over it. */
  datatype PhysPortAndID = PhysPortAndID(physPort: PhysPort, id: Word)

  /** From a source 'port and id' to the list of its destination 'port and id's. */
  type PacketFlowMap = map<PhysPortAndID, seq<PhysPortAndID>>
}
