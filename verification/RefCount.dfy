/** The broker's ref-count of live harnesses and its shutdown latch. */
module RefCounts {
  import opened Wrappers

  datatype Count = Count(live: nat, terminal: bool)

  /** One more live harness, unless the broker is full or has committed to exit. */
  function Acquired(c: Count, max: nat): Option<Count> {
    if c.terminal || c.live >= max then None else Some(c.(live := c.live + 1))
  }

  /** One harness fewer; the subtraction saturates rather than wraps. */
  function Released(c: Count): Count {
    c.(live := if c.live == 0 then 0 else c.live - 1)
  }

  /** One look of `wait_zero` under the lock: at zero it latches, otherwise it waits. */
  function Observed(c: Count): Count {
    if c.live == 0 then c.(terminal := true) else c
  }

  class RefCount {
    var live: nat
    var terminal: bool
    const max: nat

    ghost function State(): Count
      reads this
    {
      Count(live, terminal)
    }

    constructor (max: nat)
      ensures State() == Count(0, false) && this.max == max
    {
      this.live, this.terminal, this.max := 0, false, max;
    }

    method TryAcquire() returns (acquired: bool)
      modifies this
      ensures var next := Acquired(old(State()), max);
        if next.Some? then acquired && State() == next.value else !acquired && State() == old(State())
      ensures acquired ==> live <= max
    {
      if terminal || live >= max { return false; }
      live := live + 1;
      return true;
    }

    /** The drop of an outstanding slot gives its acquisition back; `notify` is the wakeup of a waiter at zero. */
    method Decr() returns (notify: bool)
      requires live > 0
      modifies this
      ensures old(live) <= max && !old(terminal) ==> Acquired(State(), max) == Some(old(State()))
      ensures State() == Released(old(State())) && (notify <==> old(live) == 1)
    {
      live := live - 1;
      notify := live == 0;
    }

    /** One turn of the wait under the lock. Once it latches, no acquisition can succeed any more. */
    method ObserveZero() returns (latched: bool)
      modifies this
      ensures State() == Observed(old(State())) && (latched <==> old(live) == 0)
      ensures latched ==> Acquired(State(), max).None?
    {
      latched := live == 0;
      if latched { terminal := true; }
    }
  }
}
