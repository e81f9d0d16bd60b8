/**
 * The tick driver (`Animator`). The repeating 50 ms timer is abstracted to a
 * count of timers registered and not yet cleared; the callback it would run
 * is `Stage.Renderer.Tick`.
 */
module Timer {

  class Animator {
    var animated: bool
    /** Repeating timers registered (`setInterval`) and not yet cleared (`clearInterval`). */
    var timers: nat

    /** At most one timer runs, and one runs exactly while `animated` is set. */
    ghost predicate Valid()
      reads this
    {
      timers == if animated then 1 else 0
    }

    constructor ()
      ensures Valid() && !animated && timers == 0
    {
      animated, timers := false, 0;
    }

    /** `start`: registers a timer only when none is running; a second start does nothing. */
    method Start() returns (registered: bool)
      requires Valid()
      modifies this
      ensures Valid() && animated
      ensures registered == !old(animated)
      ensures timers == old(timers) + (if registered then 1 else 0)
    {
      registered := !animated;
      if registered {
        animated := true;
        timers := timers + 1;
      }
    }

    /** `stop`: clears the running timer, if any; a second stop does nothing. */
    method Stop() returns (cleared: bool)
      requires Valid()
      modifies this
      ensures Valid() && !animated && timers == 0
      ensures cleared == old(animated)
      ensures timers == old(timers) - (if cleared then 1 else 0)
    {
      cleared := animated;
      if cleared {
        animated := false;
        timers := timers - 1;
      }
    }
  }
}
