/**
 * The cursor over the chain (`MiniBallsToBig`): the node being animated and
 * the direction of travel. When that node completes a cycle the cursor steps
 * to its neighbour in the direction of travel; at an end of the chain it
 * reverses the direction instead and stays on the same node.
 *
 * As values, the chain is the sequence of the nodes' records in index order,
 * and the cursor an index into it.
 */
module ChainCursor {
  import opened Wrappers
  import opened ScaleState
  import opened NodeChain

  datatype Cursor = Cursor(states: seq<Progress>, cur: int, dir: int)

  /** A new cursor: every node idle at 0, on node 0, moving forward (`dir = 1`). */
  const Fresh := Cursor(seq(N, _ => Initial), 0, 1)

  /** A chain of `N` records in reachable states, a cursor on one of them and a direction of ±1. */
  predicate WellFormed(c: Cursor) {
    |c.states| == N && 0 <= c.cur < N && (c.dir == 1 || c.dir == -1) &&
    forall k :: 0 <= k < N ==> Inv(c.states[k])
  }

  /**
   * The index `MTBNode.getNext` returns for node `i`: the successor when
   * `dir == 1`, the predecessor otherwise, `None` when the chain ends there.
   */
  function Neighbor(i: int, dir: int): (r: Option<int>)
    requires 0 <= i < N
    ensures r.Some? ==> 0 <= r.value < N && r.value == (if dir == 1 then i + 1 else i - 1)
    ensures r.None? <==> (dir == 1 && i == N - 1) || (dir != 1 && i == 0)
  {
    if dir == 1 then
      if i < N - 1 then Some(i + 1) else None
    else
      if i > 0 then Some(i - 1) else None
  }

  /**
   * `MiniBallsToBig.update`: one tick of the current node. The second
   * component is the argument passed on to the caller's completion callback.
   */
  function Step(c: Cursor): (r: (Cursor, Option<int>))
    requires |c.states| == N && 0 <= c.cur < N
    // only the current node's record changes, by exactly one tick
    ensures |r.0.states| == N
    ensures forall k :: 0 <= k < N && k != c.cur ==> r.0.states[k] == c.states[k]
    ensures (r.0.states[c.cur], r.1) == Tick(c.states[c.cur])
    // the cursor moves only when that tick completes the node's cycle
    ensures r.1.None? ==> r.0.cur == c.cur && r.0.dir == c.dir
    ensures r.1.Some? && Neighbor(c.cur, c.dir).Some? ==>
              r.0.cur == Neighbor(c.cur, c.dir).value && r.0.dir == c.dir
    // at an end of the chain it stays put and reverses
    ensures r.1.Some? && Neighbor(c.cur, c.dir).None? ==> r.0.cur == c.cur && r.0.dir == -c.dir
    ensures WellFormed(c) ==> WellFormed(r.0)
  {
    var tick := Tick(c.states[c.cur]);
    var states := c.states[c.cur := tick.0];
    if tick.1.None? then
      (c.(states := states), tick.1)
    else
      match Neighbor(c.cur, c.dir)
      case Some(j) => (Cursor(states, j, c.dir), tick.1)
      case None => (Cursor(states, c.cur, c.dir * -1), tick.1)
  }

  /**
   * `MiniBallsToBig.startUpdating`: arms the current node. The second
   * component says whether the start callback is invoked.
   */
  function Start(c: Cursor): (r: (Cursor, bool))
    requires 0 <= c.cur < |c.states|
    ensures r.0.cur == c.cur && r.0.dir == c.dir && |r.0.states| == |c.states|
    ensures forall k :: 0 <= k < |c.states| && k != c.cur ==> r.0.states[k] == c.states[k]
    ensures (r.0.states[c.cur], r.1) == Arm(c.states[c.cur])
    ensures WellFormed(c) ==> WellFormed(r.0)
  {
    var arm := Arm(c.states[c.cur]);
    (c.(states := c.states[c.cur := arm.0]), arm.1)
  }

  /**
   * `ns` is the chain as built: node `k` at index `k`, each `next` link to
   * the following node and each `prev` link back, nothing before the first
   * node or after the last, and every node owning its own record.
   */
  ghost predicate Chained(ns: seq<MTBNode>)
    reads ns
  {
    |ns| == N && ns[0].prev == null && LinkedFrom(ns, 0)
  }

  /**
   * On the chain as built, `getNext` from node `k` returns node
   * `Neighbor(k, dir)` without firing the end callback, or, at the end of
   * the chain in that direction, node `k` itself with the callback fired.
   */
  lemma GetNextAlongChain(ns: seq<MTBNode>, k: int, dir: int)
    requires Chained(ns) && 0 <= k < N
    ensures match Neighbor(k, dir)
            case Some(j) => ns[k].GetNext(ns, dir) == (ns[j], false)
            case None => ns[k].GetNext(ns, dir) == (ns[k], true)
  {
    if dir == 1 && k < N - 1 {
      assert ns[k].next == ns[k + 1];
    } else if dir != 1 && k > 0 {
      assert ns[k].prev == ns[k - 1];
    }
  }

  /** The records hold, in order, the values `states`. */
  ghost predicate Mirrors(records: seq<State>, states: seq<Progress>)
    reads records
  {
    |records| == |states| && forall k :: 0 <= k < |records| ==> records[k].Value() == states[k]
  }

  /** The objects a chain is made of: its nodes and their records. */
  ghost function Footprint(ns: seq<MTBNode>, rs: seq<State>): (r: set<object>)
    ensures forall k :: 0 <= k < |ns| ==> ns[k] in r
    ensures forall k :: 0 <= k < |rs| ==> rs[k] in r
  {
    (set n: object | n in ns) + (set s: object | s in rs)
  }

  class MiniBallsToBig {
    var dir: int
    var curr: MTBNode
    /** The chain, node `k` at index `k`. */
    ghost const nodes: seq<MTBNode>
    /** The nodes' records, in the same order. */
    ghost const records: seq<State>
    /** The chain's records, the cursor's index and its direction, as values. */
    ghost var model: Cursor
    /** Every object the cursor is made of. */
    ghost const Repr: set<object>

    /** The chain as built, its records in the same order, and all of them in `Repr`. */
    ghost predicate Built()
      reads Repr
    {
      (forall k :: 0 <= k < |nodes| ==> nodes[k] in Repr) &&
      (forall k :: 0 <= k < |records| ==> records[k] in Repr) &&
      Chained(nodes) && |records| == N &&
      (forall k :: 0 <= k < N ==> records[k] == nodes[k].state)
    }

    ghost predicate Valid()
      reads this, Repr
    {
      Built() && Mirrors(records, model.states) &&
      0 <= model.cur < N && curr == nodes[model.cur] && dir == model.dir
    }

    /** `MiniBallsToBig(...)`: builds the chain from node 0 and starts on it, moving forward. */
    constructor ()
      ensures Valid() && model == Fresh && fresh(Repr)
    {
      dir := 1;
      var head := new MTBNode(0);
      ghost var ns := head.chain;
      ghost var rs: seq<State> := seq(N, k requires 0 <= k < N => ns[k].state);
      assert Chained(ns);
      assert Mirrors(rs, Fresh.states);
      curr := head;
      nodes, records := ns, rs;
      Repr := Footprint(ns, rs);
      model := Fresh;
    }

    /** `update`: ticks the current node and, when its cycle completes, moves the cursor. */
    method Update() returns (fired: Option<int>)
      requires Valid()
      modifies this, curr.state
      ensures Valid()
      ensures (model, fired) == Step(old(model))
    {
      ghost var i := model.cur;
      ghost var after := Step(model).0;
      fired := curr.Update();
      assert Mirrors(records, after.states);
      if fired.Some? {
        Advance(i);
      }
      model := after;
    }

    /**
     * The completion callback `update` passes to the current node: move to
     * the neighbour `getNext` returns, reversing `dir` when it reports the
     * end of the chain.
     */
    method Advance(ghost i: int)
      requires Chained(nodes) && 0 <= i < N && curr == nodes[i]
      modifies this
      ensures model == old(model)
      ensures match Neighbor(i, old(dir))
              case Some(j) => curr == nodes[j] && dir == old(dir)
              case None => curr == nodes[i] && dir == -old(dir)
    {
      var link := curr.GetNext(nodes, dir);
      GetNextAlongChain(nodes, i, dir);
      var neighbour, atEnd := link.0, link.1;
      if atEnd {
        dir := dir * -1;
      }
      curr := neighbour;
    }

    /** `startUpdating`: arms the current node. */
    method StartUpdating() returns (started: bool)
      requires Valid()
      modifies this, curr.state
      ensures Valid()
      ensures (model, started) == Start(old(model))
    {
      started := curr.StartUpdating();
      model := Start(model).0;
    }
  }
}
