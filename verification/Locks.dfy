/** The lock of a condition, as the queue and the future use it. */
module Locks {

  import opened Options

  type Thread = nat

  /** Exactly the owner of the lock is at a place in its code where it holds the lock. */
  ghost predicate Exclusive<Pc>(owner: Option<Thread>, pc: map<Thread, Pc>, holds: Pc -> bool) {
    && (forall t :: t in pc && holds(pc[t]) ==> owner == Some(t))
    && (owner.Some? ==> owner.value in pc && holds(pc[owner.value]))
  }

  /** All sleepers woken. */
  function Wake<Pc(==)>(pc: map<Thread, Pc>, asleep: Pc, woken: Pc): map<Thread, Pc> {
    map t | t in pc :: if pc[t] == asleep then woken else pc[t]
  }
}
