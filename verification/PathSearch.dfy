/** `dijkstraShortestPaths` over the array heap; its states are those of the specified search. */
module PathSearch {
  import opened StreamSwitch
  import opened PortOrder
  import opened SwitchFabric
  import opened HeapOrder
  import opened Heap
  import opened ShortestPaths

  /** The variables of the code have the values of the state `s`. */
  ghost predicate Mirrors(s: Search, distance: DistanceMap<PhysPort>, q: DAryHeap<PhysPort>, preds: map<PhysPort, PhysPort>,
                          colors: map<PhysPort, Color>)
    reads distance, q
  {
    && q.Valid() && q.arity == ARITY && q.distance == distance
    && distance.at == s.dist && q.data == s.queue && preds == s.preds && colors == s.colors
  }

  lemma QueueHasKeys(s: Search, source: PhysPort)
    requires Shape(s, source)
    ensures Keyed(s.queue, s.dist)
  {
    assert forall i :: 0 <= i < |s.queue| ==> s.queue[i] in PortSet(s.queue);
  }

  /** Pushing a node that has not been seen. */
  lemma PushedHasKeys(s: Search, source: PhysPort, v: PhysPort, d: Distance)
    requires Shape(s, source) && v !in s.dist
    ensures Keyed(s.queue, s.dist[v := d]) && v !in s.queue
  {
    QueueHasKeys(s, source);
    assert v in s.queue ==> v in PortSet(s.queue);
  }

  /** The look at one neighbour. */
  method RelaxNeighbour(g: Fabric, src: PhysPort, dest: PhysPort, distance: DistanceMap<PhysPort>, q: DAryHeap<PhysPort>,
                        preds0: map<PhysPort, PhysPort>, colors0: map<PhysPort, Color>, ghost s: Search, ghost source: PhysPort)
      returns (preds: map<PhysPort, PhysPort>, colors: map<PhysPort, Color>)
    requires Mirrors(s, distance, q, preds0, colors0)
    requires Searchable(g, source) && Shape(s, source) && Finites(s, source) && Colored(s, source, Some(src)) && dest in Next(g, src)
    modifies distance, q
    ensures Mirrors(Visit(g, s, src, dest), distance, q, preds, colors)
  {
    hide Next, Searchable, Colored, Finites, Pushed, WellFormed, NoNegativeDemand;
    preds, colors := preds0, colors0;
    VisitCases(g, s, source, src, dest);
    ColorTells(s, source, src, dest);
    QueueHasKeys(s, source);
    EdgeWeight(g, source, src, dest);
    if dest !in s.dist { PushedHasKeys(s, source, dest, Over(g, s.dist, src, dest)); }
    hide Shape;
    if dest !in distance.at { distance.at := distance.at[dest := Infinite]; }
    var d := Extend(distance.at[src], g[ChannelOf(src, dest)].demand);
    var relax := Less(d, distance.at[dest]);
    if dest !in colors {
      if relax {
        distance.at := distance.at[dest := d];
        preds := preds[dest := src];
        colors := colors[dest := Gray];
      }
      assert distance.at == s.dist[dest := d];
      q.Push(dest);
    } else if colors[dest] == Gray && relax {
      distance.at := distance.at[dest := d];
      preds := preds[dest := src];
    }
  }

  lemma EdgeWeight(g: Fabric, source: PhysPort, u: PhysPort, v: PhysPort)
    requires Searchable(g, source) && v in Next(g, u)
    ensures ChannelOf(u, v) in g && Weight(g, u, v) == g[ChannelOf(u, v)].demand
  {
    NextHasChannel(g, u, v);
  }

  /** The queue of the search is a heap in which every element has four children. */
  lemma FourChildren(i: nat, j: nat)
    ensures j > 0 && Parent(j, ARITY) == i <==> 4 * i + 1 <= j <= 4 * i + 4
  {
    ChildOf(i, ARITY, j);
  }

  /** Takes the first node of the queue. */
  method PopNearest(distance: DistanceMap<PhysPort>, q: DAryHeap<PhysPort>, preds: map<PhysPort, PhysPort>,
                    colors: map<PhysPort, Color>, ghost s: Search)
      returns (src: PhysPort)
    requires Mirrors(s, distance, q, preds, colors) && s.queue != [] && Keyed(s.queue, s.dist)
    modifies q
    ensures src == s.queue[0] && Mirrors(PopFirst(s), distance, q, preds, colors)
  {
    hide Popped, IsLeast, HeapOrdered;
    src := q.Top();
    q.Pop();
  }

  /** The queue with the source alone. */
  method StartQueue(source: PhysPort) returns (distance: DistanceMap<PhysPort>, q: DAryHeap<PhysPort>)
    ensures fresh(distance) && fresh(q)
    ensures Mirrors(Start(source), distance, q, map[], map[])
  {
    distance := new DistanceMap<PhysPort>();
    q := new DAryHeap<PhysPort>(ARITY, distance);
    distance.at := distance.at[source := Finite(0.0)];
    assert [] + [source] == [source];
    q.Push(source);
  }
}
