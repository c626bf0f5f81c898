/** The ports on the links between switchboxes, and what is at the other end of a link. */
module Wiring {
  import opened StreamSwitch

  predicate OnLink(u: PhysPort) {
    u.port.bundle == North || u.port.bundle == South || u.port.bundle == East || u.port.bundle == West
  }

  /** The place at the other end of the link. */
  function Wired(u: PhysPort): PhysPort {
    var t, n := u.tileLoc, u.port.channel;
    match u.port.bundle
    case East => PhysPort(TileLoc(t.col + 1, t.row), Port(West, n), Dst)
    case West => PhysPort(TileLoc(t.col - 1, t.row), Port(East, n), Dst)
    case North => PhysPort(TileLoc(t.col, t.row + 1), Port(South, n), Dst)
    case South => PhysPort(TileLoc(t.col, t.row - 1), Port(North, n), Dst)
    case _ => PhysPort(t, u.port, Dst)
  }

  predicate SamePort(u: PhysPort, v: PhysPort) {
    u.tileLoc == v.tileLoc && u.port == v.port
  }

  /** A link leads to another switchbox, and back. */
  lemma WireLeads(u: PhysPort)
    requires OnLink(u)
    ensures Wired(u).tileLoc != u.tileLoc && SamePort(Wired(Wired(u)), u) && OnLink(Wired(u))
  {
  }

  lemma SameWire(u: PhysPort, v: PhysPort)
    requires SamePort(u, v)
    ensures Wired(u) == Wired(v) && (OnLink(u) <==> OnLink(v))
  {
  }
}
