/** The way back from the destinations of a flow to its source, and what is recorded on it. */
module TraceBack {
  import opened StreamSwitch
  import opened PortOrder
  import opened SwitchFabric
  import opened ShortestPaths
  import opened ShortestTrees

  /** The nodes from `v` back to the first one in `processed`. */
  ghost function Walk(s: Search, processed: set<PhysPort>, v: PhysPort): seq<PhysPort>
    decreases if v in s.rank then s.rank[v] else 0
  {
    if v in processed then []
    else if v in s.preds && v in s.rank && s.preds[v] in s.rank && s.rank[s.preds[v]] < s.rank[v]
    then [v] + Walk(s, processed + {v}, s.preds[v])
    else [v]
  }

  /** The nodes in the order in which they are processed for the first `n` destinations. */
  ghost function Traced(s: Search, source: PhysPort, dsts: seq<PhysPort>, n: nat): seq<PhysPort>
    requires n <= |dsts|
  {
    if n == 0 then []
    else
      var t := Traced(s, source, dsts, n - 1);
      t + Walk(s, PortSet(t) + {source}, dsts[n - 1])
  }

  /** The source and the nodes on the tree paths to the first `n` destinations. */
  ghost function OnPaths(s: Search, source: PhysPort, dsts: seq<PhysPort>, n: nat): set<PhysPort>
    requires n <= |dsts|
  {
    if n == 0 then {source} else OnPaths(s, source, dsts, n - 1) + PortSet(Chain(s, dsts[n - 1]))
  }

  /** Every destination is the source itself or has been found. */
  ghost predicate Found(s: Search, source: PhysPort, dsts: seq<PhysPort>) {
    forall i :: 0 <= i < |dsts| ==> dsts[i] == source || dsts[i] in s.preds
  }

  /** The predecessors form a tree with root `source`. */
  ghost predicate IsTree(s: Search, source: PhysPort) {
    && source !in s.preds && source in s.rank
    && forall v :: v in s.preds ==>
         v in s.rank && s.preds[v] in s.rank && s.rank[s.preds[v]] < s.rank[v] && (s.preds[v] == source || s.preds[v] in s.preds)
  }

  /** With a node come all nodes on its tree path. */
  ghost predicate ClosedUnderChain(s: Search, processed: set<PhysPort>) {
    forall v :: v in processed ==> PortSet(Chain(s, v)) <= processed
  }

  lemma PredIsPopped(g: Fabric, s: Search, source: PhysPort, v: PhysPort)
    requires Ended(g, s, source) && v in s.preds
    ensures v in s.rank && s.preds[v] in s.rank && s.rank[s.preds[v]] < s.rank[v]
    ensures s.preds[v] == source || s.preds[v] in s.preds
    ensures v in Next(g, s.preds[v])
  {
    hide Ended, Next, Over;
    AllPopped(g, s, source);
    assert Justified(g, s, v);
  }

  lemma EndedIsTree(g: Fabric, s: Search, source: PhysPort)
    requires Ended(g, s, source)
    ensures IsTree(s, source)
    ensures forall v :: v in s.preds ==> v in Next(g, s.preds[v])
  {
    hide Ended, Next, Justified;
    AllPopped(g, s, source);
    forall v | v in s.preds
      ensures v in s.rank && s.preds[v] in s.rank && s.rank[s.preds[v]] < s.rank[v]
      ensures s.preds[v] == source || s.preds[v] in s.preds
      ensures v in Next(g, s.preds[v])
    {
      PredIsPopped(g, s, source, v);
    }
  }

  lemma ChainOf(s: Search, source: PhysPort, v: PhysPort)
    requires IsTree(s, source)
    ensures v in s.preds ==> PortSet(Chain(s, v)) == PortSet(Chain(s, s.preds[v])) + {v}
    ensures v !in s.preds ==> PortSet(Chain(s, v)) == {v}
    ensures v in PortSet(Chain(s, v))
  {
  }

  /** The walk adds exactly the tree path, each node once, and never the source. */
  lemma {:induction false} WalkAddsChain(s: Search, source: PhysPort, base: set<PhysPort>, processed: set<PhysPort>, v: PhysPort)
    requires IsTree(s, source) && (v == source || v in s.preds) && source in base && base <= processed
    requires ClosedUnderChain(s, base)
    requires forall w :: w in processed - base ==> w in s.rank && v in s.rank && s.rank[v] < s.rank[w]
    ensures PortSet(Walk(s, processed, v)) + processed == processed + PortSet(Chain(s, v))
    ensures PortSet(Walk(s, processed, v)) !! processed
    ensures NoRepeats(Walk(s, processed, v))
    ensures forall w :: w in PortSet(Walk(s, processed, v)) ==> w in s.preds
    decreases if v in s.rank then s.rank[v] else 0
  {
    hide IsTree;
    ChainOf(s, source, v);
    if v in processed {
      assert v in base;
    } else {
      TreeStep(s, source, v);
      hide Chain;
      var rest := Walk(s, processed + {v}, s.preds[v]);
      WalkAddsChain(s, source, base, processed + {v}, s.preds[v]);
      WalkStep(s, processed, v, rest);
    }
  }

  lemma TreeStep(s: Search, source: PhysPort, v: PhysPort)
    requires IsTree(s, source) && v in s.preds
    ensures v in s.rank && s.preds[v] in s.rank && s.rank[s.preds[v]] < s.rank[v]
    ensures s.preds[v] == source || s.preds[v] in s.preds
  {
  }

  lemma WalkStep(s: Search, processed: set<PhysPort>, v: PhysPort, rest: seq<PhysPort>)
    requires v !in processed && PortSet(rest) !! processed + {v} && NoRepeats(rest)
    ensures PortSet([v] + rest) == PortSet(rest) + {v} && NoRepeats([v] + rest)
  {
    assert forall i :: 0 <= i < |rest| ==> rest[i] in PortSet(rest);
  }

  lemma {:induction false} ChainsInside(s: Search, source: PhysPort, v: PhysPort)
    requires IsTree(s, source)
    ensures ClosedUnderChain(s, PortSet(Chain(s, v)))
    decreases if v in s.rank then s.rank[v] else 0
  {
    hide IsTree;
    ChainOf(s, source, v);
    if v in s.preds {
      TreeStep(s, source, v);
      ChainsInside(s, source, s.preds[v]);
    }
  }

  /** All destinations together: exactly the nodes on their tree paths, each once. */
  lemma {:induction false} TracedIsOnPaths(s: Search, source: PhysPort, dsts: seq<PhysPort>, n: nat)
    requires IsTree(s, source) && Found(s, source, dsts) && n <= |dsts|
    ensures PortSet(Traced(s, source, dsts, n)) + {source} == OnPaths(s, source, dsts, n)
    ensures NoRepeats(Traced(s, source, dsts, n))
    ensures forall v :: v in Traced(s, source, dsts, n) ==> v in s.preds && v != source
    ensures ClosedUnderChain(s, OnPaths(s, source, dsts, n))
  {
    hide Chain, Walk;
    if n == 0 {
      ChainOf(s, source, source);
    } else {
      TracedIsOnPaths(s, source, dsts, n - 1);
      var t := Traced(s, source, dsts, n - 1);
      var base := PortSet(t) + {source};
      var w := Walk(s, base, dsts[n - 1]);
      WalkAddsChain(s, source, base, base, dsts[n - 1]);
      ChainsInside(s, source, dsts[n - 1]);
      assert forall v :: v in w ==> v in PortSet(w);
      Joined(t, w);
      assert PortSet(t + w) + {source} == base + PortSet(w);
    }
  }

  lemma Joined(t: seq<PhysPort>, w: seq<PhysPort>)
    requires NoRepeats(t) && NoRepeats(w) && PortSet(t) !! PortSet(w)
    ensures NoRepeats(t + w) && PortSet(t + w) == PortSet(t) + PortSet(w)
  {
    assert forall i :: 0 <= i < |t| ==> t[i] in PortSet(t);
    assert forall i :: 0 <= i < |w| ==> w[i] in PortSet(w);
  }
}
