/**
 * The scheduler's globals as one object. `init_bus` becomes the constructor;
 * `getSlot` becomes `Announce` followed by repeated calls of `TryAdmit`, one
 * per iteration of its retry loop; `leaveSlot` becomes `Release`. The body of
 * `TryAdmit` is the code the scheduler runs while holding its mutex; the
 * bodies of `Announce` and `Release` are single `sema_up` calls made without
 * the mutex, each atomic by itself.
 *
 * The ghost fields `held` and `waiting` record which tasks hold a slot and
 * which are inside `getSlot`; `Valid()` is the protocol invariant over the
 * real fields and that record.
 */
module Arbiter {
  import opened Bus
  import Protocol

  class BusArbiter {
    /** `bus_sema.value` */
    var free: int
    /** `busDirection` */
    var busDirection: Direction
    /** `task_s_p.value` */
    var pendS: int
    /** `task_r_p.value` */
    var pendR: int

    ghost var held: multiset<Task>
    ghost var waiting: multiset<Task>

    function State(): (r: BusState)
      reads this
    {
      BusState(free, busDirection, pendS, pendR)
    }

    ghost function Sys(): (r: Protocol.System)
      reads this
    {
      Protocol.System(State(), held, waiting)
    }

    ghost predicate Valid()
      reads this
    {
      Protocol.Inv(Sys())
    }

    /** `init_bus`: three free slots, no announcements, direction SENDER. */
    constructor ()
      ensures free == BusCapacity && pendS == 0 && pendR == 0 && busDirection == Sender
      ensures State() == Init()
      ensures held == multiset{} && waiting == multiset{}
      ensures Valid()
    {
      free := BusCapacity;
      pendS := 0;
      pendR := 0;
      busDirection := Sender;
      held := multiset{};
      waiting := multiset{};
    }

    /** Ghost bookkeeping: `t` has entered `getSlot`. */
    ghost method RecordArrival(t: Task)
      modifies this`waiting
      ensures waiting == old(waiting) + multiset{t}
    {
      waiting := waiting + multiset{t};
    }

    /**
     * Ghost bookkeeping after one admission attempt, given the state `before`
     * it started from: an admitted task that was inside `getSlot` now holds a
     * slot, and the whole object has taken the protocol step `Try(t)`.
     */
    ghost method RecordAttempt(before: Protocol.System, t: Task, admitted: bool)
      requires admitted == CanAdmit(before.bus, t)
      requires State() == if admitted then Admit(before.bus, t) else before.bus
      requires held == before.held && waiting == before.waiting
      modifies this`held, this`waiting
      ensures t in before.waiting ==> Protocol.Some(Sys()) == Protocol.Step(before, Protocol.Try(t))
      ensures t !in before.waiting ==> held == before.held && waiting == before.waiting
      ensures Protocol.Inv(before) && t in before.waiting ==> Valid()
    {
      if admitted && t in waiting {
        held, waiting := held + multiset{t}, waiting - multiset{t};
      }
      if Protocol.Inv(before) && t in before.waiting {
        Protocol.TryPreservesInv(before, t);
      }
    }

    /** Ghost bookkeeping: `t` has given its slot back. */
    ghost method RecordLeave(t: Task)
      modifies this`held
      ensures held == old(held) - multiset{t}
    {
      held := held - multiset{t};
    }

    /**
     * The start of `getSlot`: a High task raises exactly its own direction's
     * counter; a Normal task changes nothing.
     */
    method Announce(t: Task)
      modifies this
      ensures free == old(free) && busDirection == old(busDirection)
      ensures pendS == old(pendS) + (if t == Task(Sender, High) then 1 else 0)
      ensures pendR == old(pendR) + (if t == Task(Receiver, High) then 1 else 0)
      ensures State() == Bus.Announce(old(State()), t)
      ensures held == old(held) && waiting == old(waiting) + multiset{t}
      ensures Protocol.Some(Sys()) == Protocol.Step(old(Sys()), Protocol.Arrive(t))
      ensures old(Valid()) ==> Valid()
    {
      ghost var before := Sys();
      if t.priority == Normal {
      } else {
        if t.direction == Sender {
          pendS := pendS + 1;
        } else {
          pendR := pendR + 1;
        }
      }
      RecordArrival(t);
      if Protocol.Inv(before) {
        Protocol.ArrivePreservesInv(before, t);
      }
    }

    /**
     * One iteration of `getSlot`'s retry loop, under the mutex. The task is
     * admitted exactly when the admission test `CanAdmit` holds, and the new
     * state is then `Admit` of the old one (`Bus.AdmitEffect` spells it out);
     * a refused attempt changes nothing.
     */
    method TryAdmit(t: Task) returns (admitted: bool)
      modifies this
      ensures admitted == CanAdmit(old(State()), t)
      ensures State() == if admitted then Admit(old(State()), t) else old(State())
      ensures t in old(waiting) ==> Protocol.Some(Sys()) == Protocol.Step(old(Sys()), Protocol.Try(t))
      ensures t !in old(waiting) ==> held == old(held) && waiting == old(waiting)
      ensures old(Valid()) && t in old(waiting) ==> Valid()
    {
      ghost var before := Sys();
      var sameDir, opposingDir := pendS, pendR;
      if t.direction != Sender {
        sameDir, opposingDir := pendR, pendS;
      }
      admitted := (free == BusCapacity || busDirection == t.direction)
        && free > 0
        && (t.priority == High || (sameDir == 0 && opposingDir == 0));
      if admitted {
        busDirection := t.direction;
        if t.priority == High {
          if t.direction == Sender {
            pendS := pendS - 1;
          } else {
            pendR := pendR - 1;
          }
        }
        free := free - 1;
      }
      RecordAttempt(before, t, admitted);
    }

    /**
     * `leaveSlot`: gives one slot back, with no cap, and touches neither the
     * direction nor the counters.
     */
    method Release(t: Task)
      modifies this
      ensures free == old(free) + 1
      ensures busDirection == old(busDirection) && pendS == old(pendS) && pendR == old(pendR)
      ensures State() == Bus.Release(old(State()))
      ensures waiting == old(waiting)
      ensures held == old(held) - multiset{t}
      ensures t in old(held) ==> Protocol.Some(Sys()) == Protocol.Step(old(Sys()), Protocol.Leave(t))
      ensures old(Valid()) && t in old(held) ==> Valid()
    {
      ghost var before := Sys();
      free := free + 1;
      RecordLeave(t);
      if Protocol.Inv(before) && t in before.held {
        Protocol.LeavePreservesInv(before, t);
      }
    }
  }
}
