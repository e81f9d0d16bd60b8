/**
 * The sweep controller (`SqPartialLine`): it owns the chain, a cursor `curr`
 * on the node that animates next and a sweep direction `dir` (1 forwards,
 * -1 backwards). When the current node completes, the cursor moves one node
 * in `dir`; at either end it stays put and `dir` is negated, so the end node
 * is animated again, in reverse.
 */
module Sweep {
  import opened ScaleUtil
  import opened Animation
  import opened Chain

  /**
   * What the completion of the current node does to the controller, by
   * position: the new cursor, the new direction, and whether the boundary
   * callback fired. Going forwards (`dir == 1`) the cursor steps to the next
   * node and going backwards (any other `dir`) to the previous one; past
   * either end it stays put and the direction is negated.
   */
  function Moved(curr: nat, dir: int): (r: (nat, int, bool))
    requires curr < Nodes
    ensures r.0 < Nodes
    ensures r.2 <==> if dir == 1 then curr == Nodes - 1 else curr == 0
    ensures r.2 ==> r.0 == curr && r.1 == -dir
    ensures !r.2 ==> r.1 == dir && r.0 == if dir == 1 then curr + 1 else curr - 1
  {
    if dir == 1 then
      if curr == Nodes - 1 then (curr, -dir, true) else (curr + 1, dir, false)
    else
      if curr == 0 then (curr, -dir, true) else (curr - 1, dir, false)
  }

  /** Cursor and direction after `k` completed transitions from the start (node 0, forwards). */
  function Cursor(k: nat): (nat, int)
  {
    if k == 0 then (0, 1)
    else
      var (c, d) := Cursor(k - 1);
      if c < Nodes then var (c', d', _) := Moved(c, d); (c', d') else (c, d)
  }

  /** Node animated by the `k`-th press: 0, 1, 2, 3, 4, 4, 3, 2, 1, 0, then again. */
  function SweepNode(k: nat): nat
  {
    var m := k % (2 * Nodes);
    if m < Nodes then m else 2 * Nodes - 1 - m
  }

  function SweepDir(k: nat): int
  {
    if k % (2 * Nodes) < Nodes then 1 else -1
  }

  lemma ModStep(k: nat)
    ensures (k + 1) % (2 * Nodes) == if k % (2 * Nodes) == 2 * Nodes - 1 then 0 else k % (2 * Nodes) + 1
  {
  }

  /** One completion moves the schedule from press `k` to press `k + 1`. */
  lemma ScheduleStep(k: nat)
    ensures SweepNode(k) < Nodes
    ensures Moved(SweepNode(k), SweepDir(k)).0 == SweepNode(k + 1)
    ensures Moved(SweepNode(k), SweepDir(k)).1 == SweepDir(k + 1)
  {
    ModStep(k);
  }

  /**
   * The sweep order: after `k` completed transitions the cursor is on
   * `SweepNode(k)` and the direction is forwards for the first half of each
   * period of `2 * nodes` transitions and backwards for the second; each end
   * node is visited twice in a row.
   */
  lemma {:induction false} CursorSchedule(k: nat)
    ensures Cursor(k) == (SweepNode(k), SweepDir(k))
  {
    if k > 0 {
      CursorSchedule(k - 1);
      ScheduleStep(k - 1);
    }
  }

  /**
   * Settled value (0 closed, 1 open) that node `j` has when the cursor is at
   * `curr` going in `dir`: going forwards the nodes before the cursor are open,
   * going backwards the nodes up to and including the cursor are.
   */
  function Opened(j: nat, curr: nat, dir: int): real
  {
    if (dir == 1 && j < curr) || (dir != 1 && j <= curr) then 1.0 else 0.0
  }

  /**
   * The sweep pattern is kept by a completion: the node at the cursor turns
   * towards the sweep direction, its toggled settled value is what the moved
   * cursor expects, and every other node's is unchanged.
   */
  lemma CompletionKeepsPattern(curr: nat, dir: int)
    requires curr < Nodes && (dir == 1 || dir == -1)
    ensures 1.0 - 2.0 * Opened(curr, curr, dir) == dir as real
    ensures var (c, d, _) := Moved(curr, dir);
            && (d == 1 || d == -1)
            && forall j :: 0 <= j < Nodes ==>
                 Opened(j, c, d) == if j == curr then 1.0 - Opened(j, curr, dir) else Opened(j, curr, dir)
  {
  }

  /** The controller object: the chain's per-node states, cursor and direction. */
  class SqPartialLine {
    /** The nodes' links, `root` and everything it created. */
    const chain: seq<Links>
    /** `states[i]` is node `i`'s `State`. */
    const states: seq<State>
    var curr: nat
    var dir: int

    ghost predicate Valid()
      reads this, states
    {
      && Shaped(chain)
      && |states| == Nodes
      && (forall j, k :: 0 <= j < k < Nodes ==> states[j] != states[k])
      && curr < Nodes
      && (dir == 1 || dir == -1)
      && (forall j :: 0 <= j < Nodes ==> states[j].Valid())
      && (forall j :: 0 <= j < Nodes ==> states[j].prevScale == Opened(j, curr, dir))
      && (forall j :: 0 <= j < Nodes && j != curr ==> states[j].dir == 0.0)
    }

    constructor ()
      ensures Valid()
      ensures curr == 0 && dir == 1
      ensures forall j :: 0 <= j < Nodes ==> states[j].Value() == Initial
      ensures forall j :: 0 <= j < |states| ==> fresh(states[j])
    {
      var s: seq<State> := [];
      while |s| < Nodes
        invariant |s| <= Nodes
        invariant forall j, k :: 0 <= j < k < |s| ==> s[j] != s[k]
        invariant forall j :: 0 <= j < |s| ==> s[j].Value() == Initial
        invariant forall j :: 0 <= j < |s| ==> fresh(s[j])
      {
        var node := new State();
        s := s + [node];
      }
      chain := Root();
      RootShape();
      states := s;
      curr := 0;
      dir := 1;
    }

    /** `startUpdating`: start the current node; `started` is its callback firing. */
    method StartUpdating() returns (started: bool)
      requires Valid()
      modifies states[curr]
      ensures Valid()
      ensures (states[curr].Value(), started) == Started(old(states[curr].Value()))
      ensures states[curr].dir != 0.0 ==> states[curr].dir == dir as real
    {
      started := states[curr].StartUpdating();
      CompletionKeepsPattern(curr, dir);
    }

    /**
     * `update`: one tick of the current node; on its completion the cursor
     * moves (`atBoundary` is the boundary callback firing) and `completed`
     * reports the outer callback, which fires after the move.
     */
    method Update() returns (completed: bool, atBoundary: bool)
      requires Valid()
      modifies this, states[curr]
      ensures Valid()
      ensures (states[old(curr)].Value(), completed) == Ticked(old(states[curr].Value()))
      ensures completed ==> (curr, dir, atBoundary) == Moved(old(curr), old(dir))
      ensures !completed ==> curr == old(curr) && dir == old(dir) && !atBoundary
    {
      var node := states[curr];
      TickedPreservesInv(node.Value());
      CompletionKeepsPattern(curr, dir);
      completed := node.Update();
      atBoundary := false;
      if completed {
        GetNextInChain(chain, curr, dir);
        var (next, boundary) := GetNext(chain[curr], dir);
        if boundary {
          dir := -dir;
        }
        curr := next;
        atBoundary := boundary;
      }
    }
  }
}
