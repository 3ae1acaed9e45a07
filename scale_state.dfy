/**
 * The per-node progress record (`State`): how far a node's animation has got
 * (`scale`), which way it is moving (`dir`, 0 when idle) and where the last
 * completed cycle left it (`prevScale`).
 *
 * The source advances a float `scale` by `scGap = 0.02 / parts = 1/200` per
 * tick. Here `scale` counts those gaps exactly, so a whole unit is `Unit`
 * ticks; `prevScale` is kept in whole units (it is only ever 0 or 1), which
 * keeps `dir = 1 - 2 * prevScale` exact.
 */
module ScaleState {
  import opened Wrappers

  /** Ticks per whole unit of progress: 1 / scGap. */
  const Unit := 200

  datatype Progress = Progress(scale: int, dir: int, prevScale: int)

  /** A freshly created record: `State()` with every field 0. */
  const Initial := Progress(0, 0, 0)

  /** The node rests at the end of a completed cycle, `v` in whole units. */
  function Rest(v: int): Progress { Progress(v * Unit, 0, v) }

  function Abs(x: int): int { if x < 0 then -x else x }

  /**
   * The states the widget can reach: at rest on 0 or 1, or part of the way
   * through a cycle heading away from `prevScale` (the direction is the one
   * `Arm` chose), with `scale` never outside one unit.
   */
  predicate Inv(p: Progress) {
    (p.prevScale == 0 || p.prevScale == 1) &&
    (p.dir == 0 ==> p.scale == p.prevScale * Unit) &&
    (p.dir != 0 ==> p.dir == 1 - 2 * p.prevScale && 0 <= p.scale <= Unit)
  }

  /** How many ticks the current cycle has run. */
  function Elapsed(p: Progress): int { Abs(p.scale - p.prevScale * Unit) }

  /**
   * `State.update`: one tick. The second component is the argument the
   * completion callback receives, or `None` when it is not invoked.
   */
  function Tick(p: Progress): (r: (Progress, Option<int>))
    // an idle record at rest is a fixed point and the callback stays silent
    ensures p.dir == 0 && p.scale == p.prevScale * Unit ==> r == (p, None)
    // a tick that does not complete moves scale by exactly one gap in the direction of dir
    ensures r.1.None? ==> r.0 == p.(scale := p.scale + p.dir)
    // completion clamps exactly to prevScale + dir, goes idle, and reports the new prevScale
    ensures r.1.Some? ==>
              r.0 == Rest(p.prevScale + p.dir) && r.1.value == r.0.prevScale &&
              Abs(p.scale + p.dir - p.prevScale * Unit) > Unit
    ensures Inv(p) ==> Inv(r.0)
  {
    var moved := p.scale + p.dir;
    if Abs(moved - p.prevScale * Unit) > Unit then
      var settled := Rest(p.prevScale + p.dir);
      (settled, Some(settled.prevScale))
    else
      (p.(scale := moved), None)
  }

  /**
   * `State.startUdpating`: arms a cycle. The second component says whether
   * the start callback is invoked.
   */
  function Arm(p: Progress): (r: (Progress, bool))
    // only an idle record is armed; otherwise nothing changes and the callback stays silent
    ensures r.1 <==> p.dir == 0
    ensures !r.1 ==> r.0 == p
    ensures r.1 ==> r.0.scale == p.scale && r.0.prevScale == p.prevScale && r.0.dir != 0
    // from rest on 0 the cycle goes up, from rest on 1 it goes down
    ensures Inv(p) && r.1 ==> (r.0.dir == 1 <==> p.prevScale == 0) && (r.0.dir == -1 <==> p.prevScale == 1)
    ensures Inv(p) ==> Inv(r.0)
  {
    if p.dir == 0 then (p.(dir := 1 - 2 * p.prevScale), true) else (p, false)
  }

  /** `k` ticks in a row, with the arguments of every completion callback they fire. */
  function Ticks(p: Progress, k: nat): (Progress, seq<int>)
    decreases k
  {
    if k == 0 then (p, [])
    else
      var step := Tick(p);
      var later := Ticks(step.0, k - 1);
      (later.0, Fired(step.1) + later.1)
  }

  /** The callback arguments one tick contributes. */
  function Fired(o: Option<int>): seq<int> { if o.Some? then [o.value] else [] }

  /** A record at rest stays where it is however many ticks arrive. */
  lemma {:induction false} RestingTicks(p: Progress, k: nat)
    requires p.dir == 0 && p.scale == p.prevScale * Unit
    ensures Ticks(p, k) == (p, [])
    decreases k
  {
    if k > 0 {
      RestingTicks(p, k - 1);
      assert Tick(p) == (p, None);
      assert Fired(None) + [] == [];
    }
  }

  /** A tick in the middle of a cycle moves one gap towards the far boundary and fires nothing. */
  lemma RunningTick(p: Progress)
    requires Inv(p) && p.dir != 0 && Elapsed(p) < Unit
    ensures Tick(p) == (p.(scale := p.scale + p.dir), None)
    ensures Inv(Tick(p).0) && Elapsed(Tick(p).0) == Elapsed(p) + 1
  {
    assert Abs(p.scale + p.dir - p.prevScale * Unit) == Elapsed(p) + 1;
  }

  /**
   * While a cycle runs, `scale` moves monotonically one gap per tick in the
   * direction of `dir` and no callback fires, until a whole unit is covered.
   */
  /** One gap followed by `k - 1` more is `k` gaps. */
  lemma MovesAdd(p: Progress, k: int)
    ensures var q := p.(scale := p.scale + p.dir);
            q.(scale := q.scale + (k - 1) * q.dir) == p.(scale := p.scale + k * p.dir)
  {
    assert (k - 1) * p.dir + p.dir == k * p.dir;
  }

  lemma {:induction false} RunningTicks(p: Progress, k: nat)
    requires Inv(p) && p.dir != 0 && Elapsed(p) + k <= Unit
    ensures Ticks(p, k) == (p.(scale := p.scale + k * p.dir), [])
    ensures Inv(Ticks(p, k).0)
    decreases k
  {
    if k > 0 {
      RunningTick(p);
      var q := Tick(p).0;
      RunningTicks(q, k - 1);
      assert (k - 1) * p.dir + p.dir == k * p.dir;
      assert Fired(None) + [] == [];
    }
  }

  /**
   * A running cycle that still has `k` ticks to go (one of them the tick that
   * overshoots the far boundary) ends at rest on the far boundary, having fired
   * the callback exactly once, with the value it reached.
   */
  lemma {:induction false} FinishingTicks(p: Progress, k: nat)
    requires Inv(p) && p.dir != 0 && Elapsed(p) + k == Unit + 1
    ensures Ticks(p, k) == (Rest(1 - p.prevScale), [1 - p.prevScale])
    decreases k
  {
    var step := Tick(p);
    if Elapsed(p) == Unit {
      assert step == (Rest(1 - p.prevScale), Some(1 - p.prevScale));
      assert Ticks(step.0, 0) == (step.0, []);
      assert Fired(step.1) + [] == [1 - p.prevScale];
    } else {
      RunningTick(p);
      FinishingTicks(step.0, k - 1);
      assert Fired(step.1) + [1 - p.prevScale] == [1 - p.prevScale];
    }
  }

  /**
   * An armed cycle lasts exactly `Unit + 1` ticks: after `Unit` ticks it sits
   * on the far boundary still running with no callback fired, and the next
   * tick clamps it there, makes it idle and fires the callback once.
   *
   * The tick count is the parameter `k`, pinned to `Unit`, rather than the
   * constant itself: with a literal count Dafny would try to unfold `Ticks`
   * two hundred times.
   */
  lemma FullCycle(p: Progress, k: nat)
    requires Inv(p) && p.dir != 0 && p.scale == p.prevScale * Unit && k == Unit
    ensures Ticks(p, k) == (p.(scale := (1 - p.prevScale) * Unit), [])
    ensures Ticks(p, k + 1) == (Rest(1 - p.prevScale), [1 - p.prevScale])
  {
    RunningTicks(p, k);
    FinishingTicks(p, k + 1);
  }

  /**
   * `State`: the mutable record a node owns.
   */
  class State {
    var scale: int
    var dir: int
    var prevScale: int

    function Value(): Progress
      reads this
    {
      Progress(scale, dir, prevScale)
    }

    constructor ()
      ensures Value() == Initial
    {
      scale, dir, prevScale := 0, 0, 0;
    }

    /** `update`: one tick; `fired` is the completion callback's argument, if it is invoked. */
    method Update() returns (fired: Option<int>)
      modifies this
      ensures (Value(), fired) == Tick(old(Value()))
    {
      scale := scale + dir;
      if Abs(scale - prevScale * Unit) > Unit {
        scale := (prevScale + dir) * Unit;
        dir := 0;
        prevScale := scale / Unit;
        fired := Some(prevScale);
      } else {
        fired := None;
      }
    }

    /** `startUdpating`: `started` says whether the start callback is invoked. */
    method StartUpdating() returns (started: bool)
      modifies this
      ensures (Value(), started) == Arm(old(Value()))
    {
      started := false;
      if dir == 0 {
        dir := 1 - 2 * prevScale;
        started := true;
      }
    }
  }
}
