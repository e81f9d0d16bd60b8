/**
 * Per-node animation state (`State`): a progress value `scale`, the value
 * `prevScale` it last settled on, and the direction `dir` of the transition in
 * flight (0 at rest). The completion and start callbacks become returned flags.
 */
module Animation {
  import opened ScaleUtil

  /** The three fields of a node's `State`, as a value. */
  datatype NodeState = NodeState(dir: real, prevScale: real, scale: real)

  /** The state every node starts in: all fields 0. */
  const Initial: NodeState := NodeState(0.0, 0.0, 0.0)

  /**
   * The states a node can be in: settled on 0 or 1; either at rest on the
   * settled value or moving towards the other one; progress within [0, 1].
   */
  ghost predicate Inv(s: NodeState)
  {
    && (s.prevScale == 0.0 || s.prevScale == 1.0)
    && (s.dir == 0.0 || s.dir == 1.0 - 2.0 * s.prevScale)
    && 0.0 <= s.scale <= 1.0
    && (s.dir == 0.0 ==> s.scale == s.prevScale)
  }

  /** Where the transition in flight ends. */
  function Target(s: NodeState): real { s.prevScale + s.dir }

  /** Distance still to travel towards the target, measured along `dir`. */
  function Remaining(s: NodeState): real
  {
    if s.dir < 0.0 then s.scale - Target(s) else Target(s) - s.scale
  }

  /** Effect of `update`: the new state, and whether the completion callback fires. */
  function Ticked(s: NodeState): (r: (NodeState, bool))
    ensures r.1 ==> r.0 == NodeState(0.0, Target(s), Target(s))
  {
    var scale := s.scale + UpdateValue(s.scale, s.dir, 4.0, 1.0);  // a = lines
    if Abs(scale - s.prevScale) > 1.0 then
      var settled := s.prevScale + s.dir;
      (NodeState(0.0, settled, settled), true)
    else
      (s.(scale := scale), false)
  }

  /** Effect of `startUpdating`: the new state, and whether its callback fires. */
  function Started(s: NodeState): (r: (NodeState, bool))
    ensures r.1 <==> s.dir == 0.0
    ensures r.0.prevScale == s.prevScale && r.0.scale == s.scale
    ensures !r.1 ==> r.0 == s
  {
    if s.dir == 0.0 then (s.(dir := 1.0 - 2.0 * s.prevScale), true) else (s, false)
  }

  /**
   * `startUpdating` from rest on a reachable state turns the node towards the
   * other settled value: +1 from 0, -1 from 1. Reachable states stay reachable.
   */
  lemma StartedSpec(s: NodeState)
    ensures Inv(s) && Started(s).1 ==> (Started(s).0.dir == 1.0 <==> s.prevScale == 0.0)
    ensures Inv(s) && Started(s).1 ==> (Started(s).0.dir == -1.0 <==> s.prevScale == 1.0)
    ensures Inv(s) ==> Inv(Started(s).0) && Target(Started(s).0) == 1.0 - s.prevScale
  {
  }

  /**
   * `update` on a reachable state: a node at rest does not change and nothing
   * fires; a completing node was moving and toggles its settled value between
   * 0 and 1; reachable states stay reachable.
   */
  lemma TickedPreservesInv(s: NodeState)
    requires Inv(s)
    ensures Inv(Ticked(s).0)
    ensures s.dir == 0.0 ==> Ticked(s) == (s, false)
    ensures Ticked(s).1 ==> s.dir != 0.0 && Ticked(s).0.dir == 0.0
    ensures Ticked(s).1 ==> Ticked(s).0.prevScale == 1.0 - s.prevScale == Ticked(s).0.scale
    ensures !Ticked(s).1 ==> Ticked(s).0.dir == s.dir && Ticked(s).0.prevScale == s.prevScale
  {
    StepBounds(s.scale, s.dir);
  }

  /**
   * Every tick that does not complete moves a moving node at least 1/80 and
   * at most 1/20 closer to its target; a completing tick happens only within
   * 1/20 of it.
   */
  lemma TickedProgress(s: NodeState)
    requires Inv(s) && s.dir != 0.0
    ensures 0.0 <= Remaining(s) <= 1.0
    ensures Ticked(s).1 ==> Remaining(s) < 0.05
    ensures !Ticked(s).1 ==>
              && Remaining(s) - 0.05 <= Remaining(Ticked(s).0) <= Remaining(s) - 0.0125
              && Remaining(Ticked(s).0) >= 0.0
  {
    StepBounds(s.scale, s.dir);
  }

  /** Ticks left, counted in the smallest step (1/80): a termination measure. */
  function Steps(s: NodeState): nat
    requires Inv(s) && s.dir != 0.0
  {
    TickedProgress(s);
    (80.0 * Remaining(s)).Floor
  }

  /**
   * Repeated `update` calls on a moving node: the state it ends in and the
   * number of calls. It always ends at rest, settled on the target, in more
   * than `20 * Remaining` and at most `80 * Remaining + 1` ticks (21 to 81 for
   * a whole transition).
   */
  function Settle(s: NodeState): (r: (NodeState, nat))
    requires Inv(s) && s.dir != 0.0
    ensures r.0 == NodeState(0.0, Target(s), Target(s)) && Inv(r.0)
    ensures r.0.prevScale == 1.0 - s.prevScale
    ensures 20.0 * Remaining(s) < r.1 as real <= 80.0 * Remaining(s) + 1.0
    decreases Steps(s)
  {
    TickedPreservesInv(s);
    TickedProgress(s);
    var (next, done) := Ticked(s);
    if done then (next, 1)
    else
      var (last, n) := Settle(next);
      (last, n + 1)
  }

  /**
   * A whole transition: a node just started from rest has a full unit to go,
   * and repeated ticks bring it to rest on the other settled value in 21 to
   * 81 ticks.
   */
  lemma WholeTransition(s: NodeState)
    requires Inv(s) && s.dir != 0.0 && s.scale == s.prevScale
    ensures Remaining(s) == 1.0
    ensures Settle(s).0 == NodeState(0.0, 1.0 - s.prevScale, 1.0 - s.prevScale)
    ensures 20 < Settle(s).1 <= 81
  {
  }

  /** A node's `State` object; its fields are updated in place. */
  class State {
    var dir: real
    var prevScale: real
    var scale: real

    function Value(): NodeState
      reads this
    {
      NodeState(dir, prevScale, scale)
    }

    ghost predicate Valid()
      reads this
    {
      Inv(Value())
    }

    constructor ()
      ensures Value() == Initial && Valid()
    {
      dir, prevScale, scale := 0.0, 0.0, 0.0;
    }

    /** `update`: one tick; `completed` is the completion callback firing. */
    method Update() returns (completed: bool)
      modifies this
      ensures (Value(), completed) == Ticked(old(Value()))
      ensures old(Valid()) ==> Valid()
    {
      ghost var before := Value();
      scale := scale + UpdateValue(scale, dir, 4.0, 1.0);
      completed := Abs(scale - prevScale) > 1.0;
      if completed {
        scale := prevScale + dir;
        dir := 0.0;
        prevScale := scale;
      }
      if Inv(before) {
        TickedPreservesInv(before);
      }
    }

    /** `startUpdating`: `started` is its callback firing. */
    method StartUpdating() returns (started: bool)
      modifies this
      ensures (Value(), started) == Started(old(Value()))
      ensures old(Valid()) ==> Valid()
    {
      StartedSpec(Value());
      started := dir == 0.0;
      if started {
        dir := 1.0 - 2.0 * prevScale;
      }
    }
  }
}
