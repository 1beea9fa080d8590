/**
 * The scheduler as a whole: the shared bus state plus a record of which tasks
 * are inside `getSlot` and which hold a slot. Each task runs `oneTask`: it
 * arrives (the announcement at the top of `getSlot`), makes guarded attempts
 * until one admits it, and finally leaves (`leaveSlot`). Threads interleave
 * these steps arbitrarily. An attempt runs under the mutex; an arrival or a
 * leave is one `sema_up`, atomic by itself. While an attempt holds the mutex,
 * other threads can only raise the free count and the counters, and those
 * raises commute with the attempt's writes, so every behaviour is a sequence
 * of events applied one at a time.
 */
module Protocol {
  import opened Bus

  datatype Option<T> = None | Some(value: T)

  /**
   * `held`: tasks that were admitted and have not left yet.
   * `waiting`: tasks that entered `getSlot` and have not been admitted yet.
   */
  datatype System = System(bus: BusState, held: multiset<Task>, waiting: multiset<Task>)

  /** One atomic step of one task's `oneTask`. */
  datatype Event = Arrive(t: Task) | Try(t: Task) | Leave(t: Task)

  /** The state after `init_bus`, before any task is spawned. */
  function Initial(): (r: System) {
    System(Init(), multiset{}, multiset{})
  }

  /**
   * Applies one event. `None` marks an event that no task's `oneTask` can
   * produce at that point: an attempt by a task that is not inside `getSlot`,
   * or a `leaveSlot` by a task that holds no slot.
   */
  function Step(sys: System, e: Event): (r: Option<System>) {
    match e
    case Arrive(t) =>
      Some(System(Announce(sys.bus, t), sys.held, sys.waiting + multiset{t}))
    case Try(t) =>
      if t !in sys.waiting then None
      else if CanAdmit(sys.bus, t) then
        Some(System(Admit(sys.bus, t), sys.held + multiset{t}, sys.waiting - multiset{t}))
      else Some(sys)
    case Leave(t) =>
      if t !in sys.held then None
      else Some(System(Release(sys.bus), sys.held - multiset{t}, sys.waiting))
  }

  /** Applies a sequence of events in order; `None` if one of them cannot happen. */
  function Run(sys: System, evs: seq<Event>): (r: Option<System>)
    decreases |evs|
  {
    if evs == [] then Some(sys)
    else match Step(sys, evs[0])
      case None => None
      case Some(next) => Run(next, evs[1..])
  }

  /**
   * The safety invariant of the arbiter:
   * - the free count stays within the capacity, and free plus held slots is the capacity;
   * - while the bus is not empty every task on it travels in `busDirection`;
   * - each pending counter counts exactly the High tasks of its direction that
   *   announced themselves and are still waiting (so it is never negative).
   */
  ghost predicate Inv(sys: System) {
    && 0 <= sys.bus.free <= BusCapacity
    && sys.bus.free + |sys.held| == BusCapacity
    && (sys.bus.free < BusCapacity ==> forall h :: h in sys.held ==> h.direction == sys.bus.busDirection)
    && sys.bus.pendS == sys.waiting[Task(Sender, High)]
    && sys.bus.pendR == sys.waiting[Task(Receiver, High)]
  }

  /** The state after `init_bus` satisfies the invariant. */
  lemma InitialInv()
    ensures Inv(Initial())
  {
  }

  /** An arrival (the announcement at the top of `getSlot`) keeps the invariant. */
  lemma ArrivePreservesInv(sys: System, t: Task)
    requires Inv(sys)
    ensures Inv(Step(sys, Arrive(t)).value)
  {
  }

  /** An admission attempt by a task inside `getSlot` keeps the invariant. */
  lemma TryPreservesInv(sys: System, t: Task)
    requires Inv(sys) && t in sys.waiting
    ensures Inv(Step(sys, Try(t)).value)
  {
    if CanAdmit(sys.bus, t) {
      var next := Step(sys, Try(t)).value;
      assert |next.held| == |sys.held| + 1;
      forall h | h in next.held
        ensures h.direction == next.bus.busDirection
      {
        if h != t {
          assert h in sys.held;
        }
      }
    }
  }

  /** A `leaveSlot` by a task that holds a slot keeps the invariant. */
  lemma LeavePreservesInv(sys: System, t: Task)
    requires Inv(sys) && t in sys.held
    ensures Inv(Step(sys, Leave(t)).value)
  {
    var next := Step(sys, Leave(t)).value;
    assert |next.held| == |sys.held| - 1;
    forall h | h in next.held
      ensures h in sys.held
    {
    }
  }

  /** Every event a task can produce keeps the invariant. */
  lemma StepPreservesInv(sys: System, e: Event)
    requires Inv(sys) && Step(sys, e).Some?
    ensures Inv(Step(sys, e).value)
  {
    match e
    case Arrive(t) => ArrivePreservesInv(sys, t);
    case Try(t) => TryPreservesInv(sys, t);
    case Leave(t) => LeavePreservesInv(sys, t);
  }

  /** The invariant holds after any sequence of events that tasks can produce. */
  lemma {:induction false} RunPreservesInv(sys: System, evs: seq<Event>)
    requires Inv(sys) && Run(sys, evs).Some?
    ensures Inv(Run(sys, evs).value)
    decreases |evs|
  {
    if evs != [] {
      StepPreservesInv(sys, evs[0]);
      RunPreservesInv(Step(sys, evs[0]).value, evs[1..]);
    }
  }

  /** Every state reachable from `init_bus` satisfies the invariant. */
  lemma ReachableInv(evs: seq<Event>)
    requires Run(Initial(), evs).Some?
    ensures Inv(Run(Initial(), evs).value)
  {
    InitialInv();
    RunPreservesInv(Initial(), evs);
  }

  /**
   * The safety properties of every reachable state: at most BusCapacity tasks
   * hold slots, the free count stays in [0, BusCapacity], two tasks on the
   * bus never travel in opposite directions, and no pending counter is negative.
   */
  lemma ReachableSafety(evs: seq<Event>, a: Task, b: Task)
    requires Run(Initial(), evs).Some?
    ensures var sys := Run(Initial(), evs).value;
      && |sys.held| <= BusCapacity
      && 0 <= sys.bus.free <= BusCapacity
      && (a in sys.held && b in sys.held ==> a.direction == b.direction)
      && sys.bus.pendS >= 0 && sys.bus.pendR >= 0
  {
    ReachableInv(evs);
  }

  /**
   * A High task consumes its announcement only after making it: whenever a
   * High task is waiting, its own direction's counter is at least one.
   */
  lemma ConsumeFollowsAnnounce(sys: System, t: Task)
    requires Inv(sys) && t in sys.waiting && t.priority == High
    ensures Pending(sys.bus, t.direction) >= 1
  {
  }

  /**
   * Over whole runs: a High task that is still waiting in a state reachable
   * from `init_bus` finds its own counter at least one, so the `sema_down`
   * that consumes its announcement never meets a counter of zero.
   */
  lemma ReachableConsumeFollowsAnnounce(evs: seq<Event>, t: Task)
    requires Run(Initial(), evs).Some?
    requires t in Run(Initial(), evs).value.waiting && t.priority == High
    ensures Pending(Run(Initial(), evs).value.bus, t.direction) >= 1
  {
    ReachableInv(evs);
    ConsumeFollowsAnnounce(Run(Initial(), evs).value, t);
  }

  /**
   * What the admission test means in a consistent state, stated without the
   * counters: a task is admitted exactly when every task on the bus travels in
   * its direction, fewer than BusCapacity tasks hold slots, and it is High or
   * no High task of either direction is waiting.
   */
  lemma AdmissionMeaning(sys: System, t: Task)
    requires Inv(sys)
    ensures CanAdmit(sys.bus, t) <==>
      && (forall h :: h in sys.held ==> h.direction == t.direction)
      && |sys.held| < BusCapacity
      && (t.priority == High || forall w :: w in sys.waiting ==> w.priority == Normal)
  {
    var noHighWaiting := forall w :: w in sys.waiting ==> w.priority == Normal;
    if noHighWaiting {
      assert Task(Sender, High) !in sys.waiting;
      assert Task(Receiver, High) !in sys.waiting;
    } else {
      var w :| w in sys.waiting && w.priority == High;
      if w.direction == Sender {
        assert w == Task(Sender, High);
        assert sys.bus.pendS > 0;
      } else {
        assert w == Task(Receiver, High);
        assert sys.bus.pendR > 0;
      }
    }
    assert (Pending(sys.bus, t.direction) == 0 && Pending(sys.bus, Opposite(t.direction)) == 0) <==> noHighWaiting;
    var sameDirection := forall h :: h in sys.held ==> h.direction == t.direction;
    if |sys.held| > 0 {
      var h :| h in sys.held;
      assert h.direction == sys.bus.busDirection;
      assert sameDirection <==> sys.bus.busDirection == t.direction;
    }
    assert (sys.bus.free == BusCapacity || sys.bus.busDirection == t.direction) <==> sameDirection;
    assert sys.bus.free > 0 <==> |sys.held| < BusCapacity;
  }

  /**
   * Priority precedence over whole runs: while any High task of either
   * direction is waiting, an attempt by a Normal task changes nothing.
   */
  lemma ReachableNormalDefers(evs: seq<Event>, high: Task, t: Task)
    requires Run(Initial(), evs).Some?
    requires high in Run(Initial(), evs).value.waiting && high.priority == High
    requires t.priority == Normal && t in Run(Initial(), evs).value.waiting
    ensures var sys := Run(Initial(), evs).value; Step(sys, Try(t)) == Some(sys)
  {
    var sys := Run(Initial(), evs).value;
    ReachableInv(evs);
    ConsumeFollowsAnnounce(sys, high);
    NormalDefersToAnyPending(sys.bus, t, high.direction);
  }

  /**
   * `leaveSlot` has no cap: released without a matching admission, the free
   * count climbs past the capacity. Runs of `oneTask` never do that, since a
   * `Leave` by a task that holds no slot cannot happen.
   */
  lemma ReleaseWithoutAdmission(t: Task)
    ensures Release(Release(Release(Init()))).free == 2 * BusCapacity
    ensures Step(Initial(), Leave(t)) == None
  {
  }
}
