/**
 * The shared state of the batch scheduler's bus and the three operations that
 * change it: a High-priority task's announcement, one guarded admission
 * attempt, and the release of a slot.
 *
 * The scheduler keeps its state in three pintos semaphores and one integer.
 * The admission attempt runs while the scheduler's mutex is held; the
 * announcement and the release are single `sema_up` calls made without the
 * mutex, each atomic by itself. Each operation is therefore one atomic step
 * over four integers. Semaphore values are plain integers here, read and
 * written the way the scheduler reads `.value` and calls `sema_up`/`sema_down`.
 */
module Bus {

  /** BUS_CAPACITY: the number of slots; `bus_sema` starts at this value. */
  const BusCapacity: int := 3

  /** SENDER (0) and RECEIVER (1). */
  datatype Direction = Sender | Receiver

  /** NORMAL (0) and HIGH (1). */
  datatype Priority = Normal | High

  /** `task_t`: a direction and a priority, and no identity beyond them. */
  datatype Task = Task(direction: Direction, priority: Priority)

  /**
   * The scheduler's globals: `bus_sema.value` (free slots), `busDirection`,
   * `task_s_p.value` and `task_r_p.value` (High tasks of each direction that
   * have announced themselves and are not yet admitted).
   */
  datatype BusState = BusState(free: int, busDirection: Direction, pendS: int, pendR: int)

  function Opposite(d: Direction): (r: Direction) {
    if d == Sender then Receiver else Sender
  }

  /** The pending counter of direction `d`: `task_s_p` for senders, `task_r_p` for receivers. */
  function Pending(s: BusState, d: Direction): (r: int) {
    if d == Sender then s.pendS else s.pendR
  }

  /** The state `init_bus` leaves: all slots free, no announcements, direction SENDER. */
  function Init(): (r: BusState) {
    BusState(BusCapacity, Sender, 0, 0)
  }

  /** The first part of `getSlot`: a High task raises its own direction's counter. */
  function Announce(s: BusState, t: Task): (r: BusState) {
    if t.priority == Normal then s
    else if t.direction == Sender then s.(pendS := s.pendS + 1)
    else s.(pendR := s.pendR + 1)
  }

  /**
   * The admission test of one iteration of `getSlot`'s retry loop: the bus is
   * empty or already runs in the task's direction, a slot is free, and the
   * task is High or no High task of either direction is pending.
   */
  predicate CanAdmit(s: BusState, t: Task) {
    (s.free == BusCapacity || s.busDirection == t.direction)
    && s.free > 0
    && (t.priority == High || (Pending(s, t.direction) == 0 && Pending(s, Opposite(t.direction)) == 0))
  }

  /**
   * What an admitted task does to the state: it sets the direction, consumes
   * its own announcement if it is High, and takes a slot.
   */
  function Admit(s: BusState, t: Task): (r: BusState) {
    var directed := s.(busDirection := t.direction);
    var consumed :=
      if t.priority == High then
        (if t.direction == Sender then directed.(pendS := directed.pendS - 1)
         else directed.(pendR := directed.pendR - 1))
      else directed;
    consumed.(free := consumed.free - 1)
  }

  /** `leaveSlot`: one `sema_up` on the slot semaphore, with no upper cap. */
  function Release(s: BusState): (r: BusState) {
    s.(free := s.free + 1)
  }

  /**
   * The effect of an admission: the bus now runs in the task's direction, one
   * slot fewer is free, a High task's own counter drops by one, and the other
   * direction's counter is untouched.
   */
  lemma AdmitEffect(s: BusState, t: Task)
    ensures Admit(s, t).busDirection == t.direction
    ensures Admit(s, t).free == s.free - 1
    ensures Pending(Admit(s, t), t.direction) == Pending(s, t.direction) - (if t.priority == High then 1 else 0)
    ensures Pending(Admit(s, t), Opposite(t.direction)) == Pending(s, Opposite(t.direction))
  {
  }

  /** A Normal task is refused while a High task of either direction is pending. */
  lemma NormalDefersToAnyPending(s: BusState, t: Task, d: Direction)
    requires t.priority == Normal && Pending(s, d) > 0
    ensures !CanAdmit(s, t)
  {
  }

  /**
   * A High task's announcement and its consumption on admission cancel out:
   * afterwards both counters are back where they were.
   */
  lemma AnnounceThenAdmitRestoresPending(s: BusState, t: Task, d: Direction)
    ensures Pending(Admit(Announce(s, t), t), d) == Pending(s, d)
  {
  }

  /** Taking a slot and giving it back restores the free count. */
  lemma AdmitThenReleaseRestoresFree(s: BusState, t: Task)
    ensures Release(Admit(s, t)).free == s.free
  {
  }
}
