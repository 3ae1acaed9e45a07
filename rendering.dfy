/**
 * The animation driver (`Animator`) and the `Renderer` that wires taps and
 * frames to the cursor: a tap arms the current node and starts the driver;
 * every frame drawn while the driver runs ticks the cursor, and the tick that
 * completes a node's cycle stops the driver again.
 *
 * As values, the widget is the cursor plus the driver's running flag.
 */
module Rendering {
  import opened Wrappers
  import opened ScaleState
  import opened NodeChain
  import opened ChainCursor

  /** `Animator`: whether frames keep being scheduled. */
  class Animator {
    var animated: bool
    /** How many redraw requests have been sent to the host view. */
    ghost var redraws: nat

    constructor ()
      ensures !animated && redraws == 0
    {
      animated := false;
      redraws := 0;
    }

    /** `start`: sets the flag and requests a redraw, unless already running. */
    method Start()
      modifies this
      ensures animated
      ensures redraws == old(redraws) + (if old(animated) then 0 else 1)
    {
      if !animated {
        animated := true;
        redraws := redraws + 1;
      }
    }

    /** `stop`: clears the flag; stopping a stopped driver changes nothing. */
    method Stop()
      modifies this
      ensures !animated && redraws == old(redraws)
    {
      if animated {
        animated := false;
      }
    }

    /** The pause and redraw request that `animate` issues after each frame body. */
    method FrameDone()
      modifies this
      ensures animated == old(animated) && redraws == old(redraws) + 1
    {
      redraws := redraws + 1;
    }
  }

  datatype Widget = Widget(cursor: Cursor, animated: bool)

  /** A new view: a fresh cursor and a stopped driver. */
  const NewView := Widget(Fresh, false)

  /**
   * The reachable widgets: a well-formed cursor, every node but the current
   * one idle, and the driver running exactly while the current node is in
   * the middle of a cycle.
   */
  predicate Consistent(w: Widget) {
    WellFormed(w.cursor) &&
    (forall k :: 0 <= k < N && k != w.cursor.cur ==> w.cursor.states[k].dir == 0) &&
    (w.animated <==> w.cursor.states[w.cursor.cur].dir != 0)
  }

  /** `Renderer.handleTap`: arm the current node and, if that took effect, start the driver. */
  function Tapped(w: Widget): (r: Widget)
    requires |w.cursor.states| == N && 0 <= w.cursor.cur < N
    ensures r.cursor == Start(w.cursor).0
    // the driver is started only when the current node was idle
    ensures r.animated != w.animated ==> w.cursor.states[w.cursor.cur].dir == 0 && r.animated
    // a tap during a cycle changes nothing
    ensures w.cursor.states[w.cursor.cur].dir != 0 && Consistent(w) ==> r == w
    ensures Consistent(w) ==> Consistent(r)
  {
    var start := Start(w.cursor);
    Widget(start.0, if start.1 then true else w.animated)
  }

  /** `Renderer.render` minus the drawing: one frame of `animate`. */
  function Rendered(w: Widget): (r: Widget)
    requires |w.cursor.states| == N && 0 <= w.cursor.cur < N
    // the frame body runs only while the driver is running
    ensures !w.animated ==> r == w
    // it ticks the cursor, and a completed cycle stops the driver
    ensures w.animated ==> r.cursor == Step(w.cursor).0 && (r.animated <==> Step(w.cursor).1.None?)
    ensures Consistent(w) ==> Consistent(r)
  {
    if !w.animated then w
    else
      var step := Step(w.cursor);
      Widget(step.0, if step.1.Some? then false else true)
  }

  /** `k` frames in a row. */
  function Frames(w: Widget, k: nat): (r: Widget)
    requires Consistent(w)
    ensures Consistent(r)
    decreases k
  {
    if k == 0 then w else Frames(Rendered(w), k - 1)
  }

  /**
   * Where one whole cycle of the current node leaves the cursor: that node at
   * rest on the far boundary, and the cursor on its neighbour in the
   * direction of travel, or on the same node with the direction reversed at
   * an end of the chain.
   */
  function Completed(c: Cursor): (r: Cursor)
    requires WellFormed(c)
    ensures WellFormed(r) && c.cur - 1 <= r.cur <= c.cur + 1
    ensures r.states[c.cur] == Rest(1 - c.states[c.cur].prevScale)
    ensures forall k :: 0 <= k < N && k != c.cur ==> r.states[k] == c.states[k]
  {
    var states := c.states[c.cur := Rest(1 - c.states[c.cur].prevScale)];
    match Neighbor(c.cur, c.dir)
    case Some(j) => Cursor(states, j, c.dir)
    case None => Cursor(states, c.cur, -c.dir)
  }

  /** The tick that fires the completion callback moves the cursor exactly as `Completed` says. */
  lemma CompletingStep(c: Cursor)
    requires WellFormed(c) && c.states[c.cur].dir != 0 && Elapsed(c.states[c.cur]) == Unit
    ensures Step(c).1.Some? && Step(c).0 == Completed(c)
  {
    var p := c.states[c.cur];
    assert Tick(p).0 == Rest(1 - p.prevScale);
    var r := Step(c).0;
    assert r.states == Completed(c).states;
  }

  /** Arming the current node does not change where its cycle will leave the cursor. */
  lemma CompletedAfterTap(c: Cursor)
    requires WellFormed(c)
    ensures Completed(Start(c).0) == Completed(c)
  {
    var i, v := c.cur, Rest(1 - c.states[c.cur].prevScale);
    assert Start(c).0.states[i := v] == c.states[i := v];
  }

  /** With the driver stopped, frames change nothing. */
  lemma {:induction false} StoppedFrames(w: Widget, k: nat)
    requires Consistent(w) && !w.animated
    ensures Frames(w, k) == w
    decreases k
  {
    if k > 0 {
      StoppedFrames(Rendered(w), k - 1);
    }
  }

  /** A frame in the middle of a cycle advances the current node by one gap and leaves the driver running. */
  lemma RunningFrame(w: Widget)
    requires Consistent(w) && w.animated && Elapsed(w.cursor.states[w.cursor.cur]) < Unit
    ensures var p := w.cursor.states[w.cursor.cur];
            Rendered(w) == Widget(w.cursor.(states := w.cursor.states[w.cursor.cur := p.(scale := p.scale + p.dir)]), true)
    ensures Elapsed(Rendered(w).cursor.states[w.cursor.cur]) == Elapsed(w.cursor.states[w.cursor.cur]) + 1
    ensures Completed(Rendered(w).cursor) == Completed(w.cursor)
  {
    var c := w.cursor;
    RunningTick(c.states[c.cur]);
    var v := Rest(1 - c.states[c.cur].prevScale);
    assert Rendered(w).cursor.states[c.cur := v] == c.states[c.cur := v];
  }

  /** While the current node's cycle has ticks to go, each frame advances it by one gap and the driver keeps running. */
  lemma {:induction false} RunningFrames(w: Widget, k: nat)
    requires Consistent(w) && w.animated
    requires Elapsed(w.cursor.states[w.cursor.cur]) + k <= Unit
    ensures var p := w.cursor.states[w.cursor.cur];
            Frames(w, k) == Widget(w.cursor.(states := w.cursor.states[w.cursor.cur := p.(scale := p.scale + k * p.dir)]), true)
    decreases k
  {
    if k > 0 {
      var c, p := w.cursor, w.cursor.states[w.cursor.cur];
      var next := Rendered(w);
      RunningFrame(w);
      var q := next.cursor.states[c.cur];
      assert q == p.(scale := p.scale + p.dir);
      var m := k - 1;
      RunningFrames(next, m);
      MovesAdd(p, k);
      assert next.cursor.states[c.cur := p.(scale := p.scale + k * p.dir)] == c.states[c.cur := p.(scale := p.scale + k * p.dir)];
      assert Frames(w, k) == Frames(next, m);
    }
  }

  /** The frame whose tick overshoots the far boundary completes the cycle and stops the driver. */
  lemma {:induction false} FinishingFrames(w: Widget, k: nat)
    requires Consistent(w) && w.animated
    requires Elapsed(w.cursor.states[w.cursor.cur]) + k == Unit + 1
    ensures Frames(w, k) == Widget(Completed(w.cursor), false)
    decreases k
  {
    if Elapsed(w.cursor.states[w.cursor.cur]) == Unit {
      CompletingStep(w.cursor);
      assert Frames(w, k) == Frames(Rendered(w), 0);
    } else {
      RunningFrame(w);
      FinishingFrames(Rendered(w), k - 1);
    }
  }

  /**
   * One tap on a stopped widget runs exactly one node's cycle: the driver
   * runs for `Unit` frames with the cycle in progress, the next frame
   * completes it and stops the driver, and any further frames change nothing
   * until the next tap.
   *
   * As in `FullCycle`, the frame count `k` is a parameter pinned to `Unit`
   * so that Dafny does not unfold `Frames` for a literal count.
   */
  lemma TapRunsOneCycle(w: Widget, k: nat, extra: nat)
    requires Consistent(w) && !w.animated && k == Unit
    ensures Frames(Tapped(w), k).animated
    ensures Frames(Tapped(w), k + 1) == Widget(Completed(w.cursor), false)
    ensures Frames(Tapped(w), k + 1 + extra) == Widget(Completed(w.cursor), false)
  {
    var t := Tapped(w);
    var p := w.cursor.states[w.cursor.cur];
    assert t.cursor.states[w.cursor.cur] == p.(dir := 1 - 2 * p.prevScale);
    assert t.animated && t.cursor.cur == w.cursor.cur;
    assert Elapsed(t.cursor.states[t.cursor.cur]) == 0;
    RunningFrames(t, k);
    FinishingFrames(t, k + 1);
    CompletedAfterTap(w.cursor);
    FramesSplit(t, k + 1, extra);
    StoppedFrames(Widget(Completed(w.cursor), false), extra);
  }

  /** Running `a + b` frames is running `a` frames and then `b` more. */
  lemma {:induction false} FramesSplit(w: Widget, a: nat, b: nat)
    requires Consistent(w)
    ensures Frames(w, a + b) == Frames(Frames(w, a), b)
    decreases a
  {
    if a > 0 {
      FramesSplit(Rendered(w), a - 1, b);
      assert a + b - 1 == (a - 1) + b;
    }
  }

  /** The widget after `n` taps, each followed by the frames that run its cycle to the end. */
  ghost function Taps(w: Widget, n: nat): (r: Widget)
    requires Consistent(w) && !w.animated
    ensures Consistent(r) && !r.animated
    decreases n
  {
    if n == 0 then w else Widget(Completed(Taps(w, n - 1).cursor), false)
  }

  /** `n` rounds of play as they happen: each a tap, then `k` frames. */
  ghost function Played(w: Widget, n: nat, k: nat): (r: Widget)
    requires Consistent(w)
    ensures Consistent(r)
    decreases n
  {
    if n == 0 then w else Frames(Tapped(Played(w, n - 1, k)), k)
  }

  /** A tap on a stopped widget followed by more than `Unit` frames completes exactly one cycle. */
  lemma PlayRound(v: Widget, k: nat)
    requires Consistent(v) && !v.animated && k > Unit
    ensures Frames(Tapped(v), k) == Widget(Completed(v.cursor), false)
  {
    var cycle, extra := Unit, k - Unit - 1;
    assert cycle + 1 + extra == k;
    TapRunsOneCycle(v, cycle, extra);
  }

  /** A round played from where `Taps` stands takes `Taps` one step on. */
  lemma PlayedStep(w: Widget, n: nat, k: nat)
    requires Consistent(w) && !w.animated && k > Unit && n > 0
    requires Played(w, n - 1, k) == Taps(w, n - 1)
    ensures Played(w, n, k) == Taps(w, n)
  {
    PlayRound(Taps(w, n - 1), k);
  }

  /**
   * Rounds of play that leave the driver at least `Unit + 1` frames after
   * each tap follow `Taps`: every tap runs exactly one node's cycle.
   */
  lemma {:induction false} PlayedIsTaps(w: Widget, n: nat, k: nat)
    requires Consistent(w) && !w.animated && k > Unit
    ensures Played(w, n, k) == Taps(w, n)
    decreases n
  {
    if n > 0 {
      var m := n - 1;  // naming `n - 1` keeps the solver from re-deriving the hypothesis
      PlayedIsTaps(w, m, k);
      PlayedStep(w, m + 1, k);
    }
  }

  /** The first `m` nodes at rest on 1, the others at rest on 0. */
  function Raised(m: int): seq<Progress> {
    seq(N, k => Rest(if k < m then 1 else 0))
  }

  /**
   * Where `t` taps leave a new view, for one round trip `0 <= t <= 2 * N`:
   * going out, node after node rises and the cursor moves forward; at the
   * last node the direction flips with the cursor staying put; coming back,
   * node after node falls and the cursor moves backward, until at node 0 the
   * direction flips again and the view is as new.
   */
  function Tour(t: int): Cursor
    requires 0 <= t <= 2 * N
  {
    if t < N then Cursor(Raised(t), t, 1)
    else if t < 2 * N then Cursor(Raised(2 * N - t), 2 * N - 1 - t, -1)
    else Cursor(Raised(0), 0, 1)
  }

  /** Node `k` of `Raised(m)` rests on 1 exactly when `k < m`. */
  lemma RaisedAt(m: int)
    ensures |Raised(m)| == N
    ensures forall k :: 0 <= k < N ==> Raised(m)[k] == Rest(if k < m then 1 else 0) && Inv(Raised(m)[k])
  {
    forall k | 0 <= k < N
      ensures Raised(m)[k] == Rest(if k < m then 1 else 0)
    {
    }
  }

  /** One completed cycle takes each point of the round trip to the next one. */
  lemma TourStep(t: int)
    requires 0 <= t < 2 * N
    ensures WellFormed(Tour(t)) && Completed(Tour(t)) == Tour(t + 1)
  {
    var c := Tour(t);
    var raised, m := if t < N then t else 2 * N - t, if t < N then t + 1 else 2 * N - t - 1;
    RaisedAt(raised);
    RaisedAt(m);
    var v := Rest(1 - c.states[c.cur].prevScale);
    assert c.states[c.cur := v] == Raised(m);
  }

  /** A new view is the start of the round trip, with the driver stopped. */
  lemma NewViewStarts()
    ensures Fresh == Tour(0) && Consistent(NewView)
  {
    RaisedAt(0);
    assert Fresh.states == Raised(0);
  }

  /** The first `2 * N` taps on a new view follow the round trip. */
  lemma {:induction false} TapsTour(t: nat)
    requires t <= 2 * N
    ensures Consistent(NewView) && Taps(NewView, t) == Widget(Tour(t), false)
  {
    NewViewStarts();
    if t > 0 {
      var s := t - 1;
      TapsTour(s);
      TourStep(s);
      assert Taps(NewView, t) == Widget(Completed(Tour(s)), false);
    }
  }

  /**
   * Played out on a new view, with at least `Unit + 1` frames after each
   * tap, the first `2 * N` rounds follow the round trip and the last one
   * leaves the view exactly as new.
   */
  lemma PlayedTour(k: nat)
    requires k > Unit
    ensures forall t :: 0 <= t <= 2 * N ==> Played(NewView, t, k) == Widget(Tour(t), false)
    ensures Played(NewView, 2 * N, k) == NewView
  {
    NewViewStarts();
    forall t | 0 <= t <= 2 * N
      ensures Played(NewView, t, k) == Widget(Tour(t), false)
    {
      PlayedIsTaps(NewView, t, k);
      TapsTour(t);
    }
  }

  /**
   * From a new view: the first tap takes node 0 from 0 to 1 and leaves the
   * cursor on node 1; after `N` taps every node is at 1 and the direction has
   * flipped on the last node; the next tap takes that node back down and
   * moves to the one before it; after `2 * N` taps the view is exactly as new.
   */
  lemma TapSequence()
    ensures Taps(NewView, 1) == Widget(Cursor(Raised(0)[0 := Rest(1)], 1, 1), false)
    ensures Taps(NewView, N) == Widget(Cursor(Raised(N), N - 1, -1), false)
    ensures Taps(NewView, N + 1) == Widget(Cursor(Raised(N)[N - 1 := Rest(0)], N - 2, -1), false)
    ensures Taps(NewView, 2 * N) == NewView
  {
    TapsTour(1);
    RaisedAt(0);
    RaisedAt(1);
    assert Raised(0)[0 := Rest(1)] == Raised(1);
    TapsTour(N);
    TapsTour(N + 1);
    RaisedAt(N);
    RaisedAt(N - 1);
    assert Raised(N)[N - 1 := Rest(0)] == Raised(N - 1);
    TapsTour(2 * N);
    NewViewStarts();
  }

  /** `Renderer`: owns the driver and the cursor and connects them. */
  class Renderer {
    const animator: Animator
    const mtb: MiniBallsToBig

    /** The driver's flag and the cursor, as a value. */
    ghost function Model(): Widget
      reads this, animator, mtb
    {
      Widget(mtb.model, animator.animated)
    }

    ghost predicate Valid()
      reads this, animator, mtb, mtb.Repr
    {
      mtb.Valid() && animator !in mtb.Repr && Consistent(Model())
    }

    constructor ()
      ensures Valid() && Model() == NewView && animator.redraws == 0
    {
      mtb := new MiniBallsToBig();
      animator := new Animator();
    }

    /**
     * `render` without the drawing: `animator.animate` runs the body, one
     * tick of the cursor whose completion callback stops the driver, and
     * then asks for the next frame, all only while the driver is running.
     */
    method Render()
      requires Valid()
      modifies animator, mtb, mtb.Repr
      ensures Valid() && Model() == Rendered(old(Model()))
      ensures animator.redraws == old(animator.redraws) + (if old(animator.animated) then 1 else 0)
    {
      ghost var before := Model();
      ghost var after := Rendered(before);
      assert Consistent(after);
      if animator.animated {
        var fired := mtb.Update();
        assert mtb.Valid() && mtb.model == after.cursor;
        if fired.Some? {
          animator.Stop();
        }
        animator.FrameDone();
        assert mtb.Valid() && Model() == after;
      }
    }

    /** `handleTap`: arm the current node; if it was idle, start the driver. */
    method HandleTap()
      requires Valid()
      modifies animator, mtb, mtb.Repr
      ensures Valid() && Model() == Tapped(old(Model()))
      ensures animator.redraws == old(animator.redraws) + (if !old(animator.animated) && animator.animated then 1 else 0)
    {
      var started := mtb.StartUpdating();
      if started {
        animator.Start();
      }
    }
  }
}
