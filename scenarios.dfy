/**
 * Concrete runs of the arbiter, each computed from the empty bus that
 * `init_bus` leaves: a first sender, a direction that holds until the bus
 * drains, a High receiver that blocks Normal senders, and High tasks of both
 * directions.
 */
module Scenarios {
  import opened Bus

  const NormalSend := Task(Sender, Normal)
  const NormalReceive := Task(Receiver, Normal)
  const HighSend := Task(Sender, High)
  const HighReceive := Task(Receiver, High)

  /** An empty bus admits a Normal sender at once: direction SENDER, two slots left. */
  lemma ScenarioFirstSender()
    ensures CanAdmit(Init(), NormalSend)
    ensures Admit(Init(), NormalSend) == BusState(2, Sender, 0, 0)
  {
  }

  /**
   * Two senders hold the bus and a receiver of either priority arrives (a
   * High one announcing itself). It is refused while a sender remains, even
   * with free slots: the direction only changes once the bus has drained
   * completely, and then the receiver is admitted.
   */
  lemma ScenarioDirectionHolds(p: Priority)
    ensures var s := Announce(Admit(Admit(Init(), NormalSend), NormalSend), Task(Receiver, p));
      && s.free == 1
      && !CanAdmit(s, Task(Receiver, p))
      && !CanAdmit(Release(s), Task(Receiver, p))
      && CanAdmit(Release(Release(s)), Task(Receiver, p))
      && Admit(Release(Release(s)), Task(Receiver, p)).busDirection == Receiver
  {
  }

  /**
   * Three Normal senders hold the bus and a High receiver announces itself.
   * After one sender leaves, a Normal sender is still refused although the
   * direction matches and a slot is free; the High receiver is refused too
   * until the bus is empty, and is then admitted, turning the bus around.
   */
  lemma ScenarioHighReceiverWaits()
    ensures var full := Admit(Admit(Admit(Init(), NormalSend), NormalSend), NormalSend);
      var announced := Announce(full, HighReceive);
      && full.free == 0
      && !CanAdmit(Release(announced), NormalSend)
      && !CanAdmit(Release(announced), HighReceive)
      && !CanAdmit(Release(Release(announced)), HighReceive)
      && var empty := Release(Release(Release(announced)));
         && CanAdmit(empty, HighReceive)
         && Admit(empty, HighReceive) == BusState(2, Receiver, 0, 0)
  {
  }

  /**
   * Two High senders and a High receiver announce themselves on an empty bus.
   * Once a sender is admitted, the second sender is admitted too, while the
   * receiver is refused for as long as a sender holds a slot.
   */
  lemma ScenarioHighBothDirections()
    ensures var announced := Announce(Announce(Announce(Init(), HighSend), HighSend), HighReceive);
      var first := Admit(announced, HighSend);
      && CanAdmit(announced, HighSend) && CanAdmit(announced, HighReceive)
      && first.busDirection == Sender
      && CanAdmit(first, HighSend)
      && !CanAdmit(first, HighReceive)
      && !CanAdmit(Admit(first, HighSend), HighReceive)
      && !CanAdmit(Release(Admit(first, HighSend)), HighReceive)
  {
  }
}
