/** One arbiter and msel generator for every tile (`AMSelGenerator`). */
module AMSel {
  import opened StreamSwitch
  import opened MSel
  import opened Connections
  import opened ComponentSearch
  import opened TileAMSel

  class AMSelGenerator {
    var tileToAMSelConfig: map<TileLoc, TileAMSelGenerator>
    /** The generators of the tiles. */
    ghost var Repr: set<TileAMSelGenerator>

    ghost predicate Valid()
      reads this, Repr
    {
      && (forall t :: t in tileToAMSelConfig ==> tileToAMSelConfig[t] in Repr)
      && (forall t :: t in tileToAMSelConfig ==> tileToAMSelConfig[t].Valid())
      && (forall t, u :: t in tileToAMSelConfig && u in tileToAMSelConfig && t != u ==> tileToAMSelConfig[t] != tileToAMSelConfig[u])
    }

    /** The connections added on a tile. */
    ghost function ConnsOn(tile: TileLoc): Conns
      requires Valid()
      reads this, Repr
    {
      if tile in tileToAMSelConfig then tileToAMSelConfig[tile].srcToDstPorts else map[]
    }

    /** The destination ports of the connections added on a tile, in their order. */
    ghost function PortsOn(tile: TileLoc): PortList
      requires Valid()
      reads this, Repr
    {
      if tile in tileToAMSelConfig then tileToAMSelConfig[tile].dstPorts else []
    }

    constructor ()
      ensures Valid() && tileToAMSelConfig == map[] && Repr == {}
    {
      tileToAMSelConfig, Repr := map[], {};
    }

    method InitTileIfNotExists(tileLoc: TileLoc, numArbiters: nat, numMSels: nat)
      requires Valid()
      modifies this
      ensures Valid() && tileToAMSelConfig.Keys == old(tileToAMSelConfig.Keys) + {tileLoc}
      ensures fresh(Repr - old(Repr)) && old(Repr) <= Repr
      ensures forall t :: t in old(tileToAMSelConfig) ==> tileToAMSelConfig[t] == old(tileToAMSelConfig[t])
      ensures tileLoc !in old(tileToAMSelConfig) ==>
                var g := tileToAMSelConfig[tileLoc];
                fresh(g) && g.numArbiters == numArbiters && g.numMSels == numMSels && g.srcToDstPorts == map[] && g.dstPorts == []
    {
      if tileLoc !in tileToAMSelConfig {
        var g := new TileAMSelGenerator(numArbiters, numMSels);
        tileToAMSelConfig, Repr := tileToAMSelConfig[tileLoc := g], Repr + {g};
      }
    }

    /** Fails on a tile that has not been initialized, and then changes nothing. */
    method AddConnection(tileLoc: TileLoc, srcPort: PhysPortAndID, dstPorts: seq<PhysPortAndID>) returns (ok: bool)
      requires Valid()
      requires srcPort.physPort.direction == Src && forall d :: d in dstPorts ==> d.physPort.direction == Dst
      modifies Repr
      ensures Valid() && ok == (tileLoc in tileToAMSelConfig)
      ensures forall t :: t != tileLoc ==> ConnsOn(t) == old(ConnsOn(t)) && PortsOn(t) == old(PortsOn(t))
      ensures ok ==> ConnsOn(tileLoc) == old(ConnsOn(tileLoc))[srcPort := Get(old(ConnsOn(tileLoc)), srcPort) + dstPorts]
      ensures ok ==> PortsOn(tileLoc) == old(PortsOn(tileLoc)) + PortsOf(dstPorts)
    {
      if tileLoc !in tileToAMSelConfig { return false; }
      tileToAMSelConfig[tileLoc].AddConnection(srcPort, dstPorts);
      return true;
    }

    /** A connection on a tile that is initialized first if need be. */
    method AddOn(tileLoc: TileLoc, numArbiters: nat, numMSels: nat, srcPort: PhysPortAndID, dstPorts: seq<PhysPortAndID>)
      requires Valid()
      requires srcPort.physPort.direction == Src && forall d :: d in dstPorts ==> d.physPort.direction == Dst
      modifies this, Repr
      ensures Valid() && tileToAMSelConfig.Keys == old(tileToAMSelConfig.Keys) + {tileLoc}
      ensures fresh(Repr - old(Repr))
      ensures forall t :: t in old(tileToAMSelConfig) ==> tileToAMSelConfig[t] == old(tileToAMSelConfig[t])
      ensures tileLoc !in old(tileToAMSelConfig) ==>
                tileToAMSelConfig[tileLoc].numArbiters == numArbiters && tileToAMSelConfig[tileLoc].numMSels == numMSels
      ensures forall t :: ConnsOn(t) == if t == tileLoc then old(ConnsOn(t))[srcPort := Get(old(ConnsOn(t)), srcPort) + dstPorts]
                                        else old(ConnsOn(t))
      ensures forall t :: PortsOn(t) == if t == tileLoc then old(PortsOn(t)) + PortsOf(dstPorts) else old(PortsOn(t))
    {
      hide TileAMSelGenerator.Valid;
      InitTileIfNotExists(tileLoc, numArbiters, numMSels);
      assert forall t :: ConnsOn(t) == old(ConnsOn(t)) && PortsOn(t) == old(PortsOn(t));
      var ok := AddConnection(tileLoc, srcPort, dstPorts);
    }

    method GetAMSel(tileLoc: TileLoc, port: PhysPortAndID) returns (r: Option<(nat, nat)>)
      ensures r == if tileLoc in tileToAMSelConfig && port in tileToAMSelConfig[tileLoc].portsToAMSels
                   then Some(tileToAMSelConfig[tileLoc].portsToAMSels[port]) else None
    {
      if tileLoc !in tileToAMSelConfig { return None; }
      r := tileToAMSelConfig[tileLoc].GetAMSel(port);
    }

    /** The tiles are solved in any order; the first failure ends it. */
    method Solve() returns (ok: bool)
      requires Valid()
      modifies Repr
      ensures Valid() && forall t :: ConnsOn(t) == old(ConnsOn(t)) && PortsOn(t) == old(PortsOn(t))
      ensures ok ==> forall t :: t in tileToAMSelConfig ==> tileToAMSelConfig[t].Solved()
      ensures !ok ==> exists t :: t in tileToAMSelConfig && tileToAMSelConfig[t].Unsolvable()
    {
      hide TileAMSelGenerator.Valid;
      hide TileAMSelGenerator.Solved;
      hide TileAMSelGenerator.Unsolvable;
      var todo := tileToAMSelConfig.Keys;
      while todo != {}
        invariant todo <= tileToAMSelConfig.Keys && Valid()
        invariant forall t :: t in tileToAMSelConfig ==> tileToAMSelConfig[t].srcToDstPorts == old(tileToAMSelConfig[t].srcToDstPorts)
        invariant forall t :: t in tileToAMSelConfig ==> tileToAMSelConfig[t].dstPorts == old(tileToAMSelConfig[t].dstPorts)
        invariant forall t :: t in tileToAMSelConfig && t !in todo ==> tileToAMSelConfig[t].Solved()
      {
        var t :| t in todo;
        todo := todo - {t};
        var g := tileToAMSelConfig[t];
        ghost var groups;
        ok, groups := g.Solve();
        if !ok { return; }
      }
      return true;
    }
  }
}
