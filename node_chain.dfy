/**
 * The chain of nodes (`MTBNode`): one node per palette colour, linked both
 * ways. Constructing node 0 builds the whole chain, each node creating its
 * successor and pointing that successor's `prev` back at itself.
 */
module NodeChain {
  import opened Wrappers
  import opened ScaleState

  /** The palette (`colors`); only its size matters to the animation logic. */
  const Palette: seq<string> := ["#F44336", "#2196F3", "#8BC34A", "#FFC107", "#009688"]

  /** Number of nodes in the chain: `colors.size`. */
  const N := |Palette|

  /**
   * `ns` carries consecutive indices from `i`, each `next` link points at the
   * following node and each node after the first has its `prev` link
   * pointing back, the last node has no successor, and every node owns its
   * own record.
   */
  ghost predicate LinkedFrom(ns: seq<MTBNode>, i: int)
    reads ns
  {
    |ns| > 0 &&
    (forall k :: 0 <= k < |ns| ==> ns[k].i == i + k) &&
    (forall j, k :: 0 <= j && k == j + 1 < |ns| ==> ns[j].next == ns[k] && ns[k].prev == ns[j]) &&
    ns[|ns| - 1].next == null &&
    (forall j, k :: 0 <= j < k < |ns| ==> ns[j].state != ns[k].state)
  }

  class MTBNode {
    const i: int
    const state: State
    var next: MTBNode?
    var prev: MTBNode?
    /** This node followed by every node it reaches through `next`. */
    ghost var chain: seq<MTBNode>

    /** This node is the head of a well-linked run reaching the last colour. */
    ghost predicate Linked()
      reads this, chain
    {
      0 <= i < N && |chain| == N - i && chain[0] == this && LinkedFrom(chain, i)
    }

    /** `MTBNode(i)`: a node with a fresh idle record, followed by the rest of the chain. */
    constructor (i: int)
      requires 0 <= i < N
      ensures this.i == i && prev == null && Linked()
      ensures forall k :: 0 <= k < |chain| ==>
                fresh(chain[k]) && fresh(chain[k].state) && chain[k].state.Value() == Initial
      decreases N - i, 1
    {
      this.i := i;
      state := new State();
      next, prev := null, null;
      new;
      chain := [this];
      AddNeighbor();
    }

    /** `addNeighbor`: unless this is the last colour, create the successor and link it both ways. */
    method AddNeighbor()
      requires 0 <= i < N && chain == [this] && next == null && prev == null
      modifies this
      ensures prev == null && Linked()
      ensures state.Value() == old(state.Value())
      ensures forall k :: 0 < k < |chain| ==>
                fresh(chain[k]) && fresh(chain[k].state) && chain[k].state.Value() == Initial
      decreases N - i, 0
    {
      if i < N - 1 {
        var successor := new MTBNode(i + 1);
        next := successor;
        successor.prev := this;
        chain := [this] + successor.chain;
      }
    }

    /** `update`: delegates one tick to the node's record. */
    method Update() returns (fired: Option<int>)
      modifies state
      ensures (state.Value(), fired) == Tick(old(state.Value()))
    {
      fired := state.Update();
    }

    /** `startUpdating`: delegates arming to the node's record. */
    method StartUpdating() returns (started: bool)
      modifies state
      ensures (state.Value(), started) == Arm(old(state.Value()))
    {
      started := state.StartUpdating();
    }

    /**
     * `getNext`: on the chain `ns` as built from node 0, the neighbour
     * towards `dir` (the following node for 1, the one before for any other
     * value), with the end-of-chain callback not fired; at the end of the
     * chain in that direction there is no such neighbour, and the node
     * itself comes back with the callback fired.
     */
    function GetNext(ghost ns: seq<MTBNode>, dir: int): (r: (MTBNode, bool))
      requires |ns| == N && ns[0].prev == null && LinkedFrom(ns, 0) && 0 <= i < N && ns[i] == this
      reads this, ns
      ensures dir == 1 ==> r == (if i < N - 1 then (ns[i + 1], false) else (this, true))
      ensures dir != 1 ==> r == (if i > 0 then (ns[i - 1], false) else (this, true))
    {
      var curr := if dir == 1 then next else prev;
      if curr != null then (curr, false) else (this, true)
    }
  }
}
