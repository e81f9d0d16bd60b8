/**
 * The wiring of a press (`Renderer.handleTap`): start the current node, and
 * while it moves let the timer tick the controller, stopping the timer when
 * the transition completes. Each redraw request (`cb`) is counted instead of
 * drawn.
 */
module Stage {
  import opened ScaleUtil
  import opened Animation
  import opened Sweep
  import opened Timer

  class Renderer {
    const spl: SqPartialLine
    const animator: Animator

    /** The timer runs exactly while the current node is moving. */
    ghost predicate Valid()
      reads this, spl, spl.states, animator
    {
      && spl.Valid()
      && animator.Valid()
      && (animator.animated <==> spl.states[spl.curr].dir != 0.0)
    }

    constructor ()
      ensures Valid() && !animator.animated
      ensures spl.curr == 0 && spl.dir == 1
      ensures forall j :: 0 <= j < Nodes ==> spl.states[j].Value() == Initial
      ensures fresh(spl) && fresh(animator)
      ensures forall j :: 0 <= j < |spl.states| ==> fresh(spl.states[j])
    {
      spl := new SqPartialLine();
      animator := new Animator();
    }

    /**
     * `handleTap`: start the current node; only if that fires (the node was at
     * rest) start the timer. A press while a node moves changes nothing.
     */
    method HandleTap() returns (started: bool)
      requires Valid()
      modifies spl.states[spl.curr], animator
      ensures Valid()
      ensures started == !old(animator.animated)
      ensures (spl.states[spl.curr].Value(), started) == Started(old(spl.states[spl.curr].Value()))
      ensures animator.animated && animator.timers == 1
      ensures spl.states[spl.curr].dir == spl.dir as real
    {
      started := spl.StartUpdating();
      if started {
        var _ := animator.Start();
      }
    }

    /**
     * One firing of the timer: request a redraw, tick the controller and, when
     * the current node completes, stop the timer and request another redraw.
     */
    method Tick() returns (completed: bool, redraws: nat)
      requires Valid() && animator.animated
      modifies spl, spl.states[spl.curr], animator
      ensures Valid()
      ensures (spl.states[old(spl.curr)].Value(), completed) == Ticked(old(spl.states[spl.curr].Value()))
      ensures completed ==> !animator.animated && animator.timers == 0
      ensures var (c, d, _) := Moved(old(spl.curr), old(spl.dir));
              completed ==> spl.curr == c && spl.dir == d
      ensures !completed ==> animator.animated && spl.curr == old(spl.curr) && spl.dir == old(spl.dir)
      ensures redraws == if completed then 2 else 1
    {
      redraws := 1;
      var atBoundary;
      completed, atBoundary := spl.Update();
      if completed {
        var _ := animator.Stop();
        redraws := redraws + 1;
      }
    }

    /**
     * The timer's ticks until the moving current node completes: as for
     * `Settle`, it ends at rest on its target after more than `20 * Remaining`
     * and at most `80 * Remaining + 1` ticks; the cursor moves as `Moved`
     * describes, and the timer is stopped again.
     */
    method RunTimer() returns (ticks: nat, redraws: nat)
      requires Valid() && animator.animated
      modifies spl, spl.states[spl.curr], animator
      ensures Valid() && !animator.animated && animator.timers == 0
      ensures var s0 := old(spl.states[spl.curr].Value());
              && spl.states[old(spl.curr)].Value() == NodeState(0.0, Target(s0), Target(s0))
              && 20.0 * Remaining(s0) < ticks as real <= 80.0 * Remaining(s0) + 1.0
      ensures var (c, d, _) := Moved(old(spl.curr), old(spl.dir));
              spl.curr == c && spl.dir == d
      ensures redraws == ticks + 1
    {
      var c0, d0 := spl.curr, spl.dir;
      ghost var s0 := spl.states[c0].Value();
      ghost var s := s0;
      ticks, redraws := 0, 0;
      var completed := false;
      while !completed
        invariant Valid()
        invariant s == spl.states[c0].Value()
        invariant redraws == ticks + (if completed then 1 else 0)
        invariant !completed ==> animator.animated && spl.curr == c0 && spl.dir == d0
        invariant !completed ==> && Inv(s) && s.dir == s0.dir && s.prevScale == s0.prevScale
                                 && 20.0 * (Remaining(s0) - Remaining(s)) <= ticks as real
                                 && ticks as real <= 80.0 * (Remaining(s0) - Remaining(s))
        invariant var (c, d, _) := Moved(c0, d0);
                  completed ==> !animator.animated && spl.curr == c && spl.dir == d
        invariant completed ==> && s == NodeState(0.0, Target(s0), Target(s0))
                                && 20.0 * Remaining(s0) < ticks as real <= 80.0 * Remaining(s0) + 1.0
        decreases if completed then 0 else Steps(s) + 1
      {
        TickedPreservesInv(s);
        TickedProgress(s);
        var n;
        completed, n := Tick();
        s := spl.states[c0].Value();
        ticks, redraws := ticks + 1, redraws + n;
      }
    }

    /**
     * A press on a stopped stage followed by the timer's ticks: the current
     * node runs one whole transition, in 21 to 81 ticks, and settles on the
     * other value; the cursor moves as `Moved` describes.
     */
    method TapAndSettle() returns (ticks: nat, redraws: nat)
      requires Valid() && !animator.animated
      modifies spl, spl.states, animator
      ensures Valid() && !animator.animated && animator.timers == 0
      ensures var p := old(spl.states[spl.curr].prevScale);
              spl.states[old(spl.curr)].Value() == NodeState(0.0, 1.0 - p, 1.0 - p)
      ensures var (c, d, _) := Moved(old(spl.curr), old(spl.dir));
              spl.curr == c && spl.dir == d
      ensures 20 < ticks <= 81 && redraws == ticks + 1
    {
      var c := spl.curr;
      StartedSpec(spl.states[c].Value());
      var _ := HandleTap();
      assert Remaining(spl.states[c].Value()) == 1.0;
      ticks, redraws := RunTimer();
    }
  }

  /**
   * A stage built as the source builds it, followed by one press: node 0 runs
   * its first transition, in 21 to 81 ticks, and settles open; the cursor
   * moves on to node 1, still forwards, and the timer is stopped again.
   */
  method FirstPress() returns (r: Renderer, ticks: nat)
    ensures r.Valid() && !r.animator.animated && r.animator.timers == 0
    ensures r.spl.states[0].Value() == NodeState(0.0, 1.0, 1.0)
    ensures r.spl.curr == 1 && r.spl.dir == 1
    ensures 20 < ticks <= 81
  {
    r := new Renderer();
    var redraws;
    ticks, redraws := r.TapAndSettle();
  }
}
