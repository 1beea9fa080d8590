# Bus arbitration of the pintos batch scheduler, modelled in Dafny

The batch scheduler (`src/devices/batch-scheduler.c`) shares a bus of three
slots between tasks. Each task is a sender or a receiver and has Normal or High
priority. All tasks that hold slots at the same time travel in one direction.
High tasks go first: a Normal task is not admitted while any High task, of
either direction, has announced itself and is still waiting.

The shared state is four integers: the value of the slot semaphore
`bus_sema` (free slots), `busDirection`, and the values of `task_s_p` and
`task_r_p` (High senders and High receivers that have announced themselves and
are not yet admitted). Each operation is one atomic step. The admission
attempt runs under one mutex. The announcement and the release are single
`sema_up` calls made without the mutex, each atomic by itself:

- `init_bus` sets three free slots, both counters to zero and the direction to
  SENDER;
- `getSlot` first announces a High task (its own direction's counter goes up),
  then loops; each iteration tests the admission condition and, if it holds,
  sets the direction, consumes the task's own announcement if it is High, and
  takes a slot;
- `leaveSlot` gives one slot back and touches nothing else.

The project has four modules:

- `Bus` (bus.dfy): the task and state types, and the operations as functions
  on a `BusState` value: `Init`, `Announce`, the admission test `CanAdmit`,
  `Admit` (the state change of a successful attempt) and `Release`.
- `Protocol` (protocol.dfy): the scheduler as a whole. It records which tasks
  are inside `getSlot` and which hold a slot, and applies the events of
  `oneTask` (arrive, attempt, leave) one at a time in any interleaving. It
  defines the safety invariant and proves that every reachable state satisfies
  it.
- `Arbiter` (arbiter.dfy): the globals as one object, `BusArbiter`, with fields
  `free`, `busDirection`, `pendS` and `pendR`. Its constructor is `init_bus`,
  `Announce` and `TryAdmit` are the two parts of `getSlot`, and `Release` is
  `leaveSlot`. Each method's body follows the C code. Each method's contract
  ties the new state to the `Bus` function and to the `Protocol` step, and says
  that the invariant is kept.
- `Scenarios` (scenarios.dfy): concrete runs showing the intended behaviour.
  They cover a first sender on an empty bus, a direction that holds until the
  bus drains, a High receiver blocking Normal senders, and High tasks of both
  directions.

The two enums stand for the C constants: `Sender`/`Receiver` for SENDER (0) and
RECEIVER (1), and `Normal`/`High` for NORMAL (0) and HIGH (1). `BusCapacity` is
BUS_CAPACITY (3).

The model follows the code as written:

- `init_bus` sets the direction to SENDER (0); it is never left undefined.
- `leaveSlot` has no cap at three. The free count stays at most three only
  because every release follows its own admission (`oneTask`).
  `Protocol.ReleaseWithoutAdmission` shows three unmatched releases reaching
  six.

## Model

| member | source | states |
|---|---|---|
| `Arbiter.BusArbiter.constructor` | src/devices/batch-scheduler.c:47-55 | After `init_bus` there are 3 free slots, both pending counters are 0, the direction is SENDER, and the invariant holds |
| `Arbiter.BusArbiter.Announce` | src/devices/batch-scheduler.c:126-134 | A High task raises exactly its own direction's counter; a Normal task changes nothing; free count and direction are untouched; the invariant is kept |
| `Arbiter.BusArbiter.TryAdmit` | src/devices/batch-scheduler.c:137-165 | One guarded iteration: admitted exactly when `CanAdmit` holds; on success the new state is `Admit` of the old one, on failure nothing changes; for a task inside `getSlot` this is the protocol step, and the invariant is kept |
| `Arbiter.BusArbiter.Release` | src/devices/batch-scheduler.c:190-193 | `leaveSlot` adds exactly one free slot, with no cap; direction and both counters are unchanged; for a task that holds a slot the invariant is kept |
| `Bus.AdmitEffect` | src/devices/batch-scheduler.c:151-159 | On admission the direction becomes the task's, `free` drops by exactly 1, a High task's own counter drops by 1, and the other counter is unchanged |
| `Bus.NormalDefersToAnyPending` | src/devices/batch-scheduler.c:150 | A Normal task is never admitted while either pending counter is positive, whatever its own direction |
| `Bus.AnnounceThenAdmitRestoresPending` | src/devices/batch-scheduler.c:126-157 | A High task's announcement and its consumption on admission cancel out on both counters |
| `Bus.AdmitThenReleaseRestoresFree` | src/devices/batch-scheduler.c:116-120 | A task that is admitted and then leaves gives the free count back to its old value |
| `Protocol.InitialInv` | src/devices/batch-scheduler.c:47-55 | The state after `init_bus`, with no tasks, satisfies the invariant |
| `Protocol.ArrivePreservesInv` | src/devices/batch-scheduler.c:126-134 | An announcement keeps the invariant: each counter still equals the number of waiting High tasks of its direction |
| `Protocol.TryPreservesInv` | src/devices/batch-scheduler.c:146-165 | An attempt by a waiting task keeps capacity, direction and counter invariants, admitted or not |
| `Protocol.LeavePreservesInv` | src/devices/batch-scheduler.c:190-193 | A release by a task that holds a slot keeps the invariant |
| `Protocol.StepPreservesInv` | src/devices/batch-scheduler.c:116-120 | Every event a task running `oneTask` can produce keeps the invariant |
| `Protocol.RunPreservesInv` | src/devices/batch-scheduler.c:116-120 | Any interleaving of such events keeps the invariant (induction on the run) |
| `Protocol.ReachableInv` | src/devices/batch-scheduler.c:47-120 | Every state reachable from `init_bus`: free plus held slots equals 3, free is in [0, 3], every held task travels in `busDirection` while the bus is non-empty, each counter equals the number of waiting High tasks of its direction |
| `Protocol.ReachableSafety` | src/devices/batch-scheduler.c:148-159 | In every reachable state at most 3 tasks hold slots, free is in [0, 3], two held tasks never travel in opposite directions, and neither counter is negative |
| `Protocol.ConsumeFollowsAnnounce` | src/devices/batch-scheduler.c:129-157 | A waiting High task's own counter is at least 1, so its consumption never drives the counter below 0 |
| `Protocol.ReachableConsumeFollowsAnnounce` | src/devices/batch-scheduler.c:129-157 | In every state reachable from `init_bus`, a waiting High task's own counter is at least 1, so the `sema_down` that consumes its announcement never meets a zero counter |
| `Protocol.AdmissionMeaning` | src/devices/batch-scheduler.c:148-150 | In a consistent state the admission test holds exactly when every held task has the task's direction, fewer than 3 tasks hold slots, and the task is High or no High task is waiting |
| `Protocol.ReachableNormalDefers` | src/devices/batch-scheduler.c:150 | In any reachable state with a High task of either direction waiting, a Normal task's attempt changes nothing |
| `Protocol.ReleaseWithoutAdmission` | src/devices/batch-scheduler.c:190-193 | `leaveSlot` is uncapped: three releases from the initial state leave 6 free slots; a release by a task holding no slot is not an event of `oneTask` |
| `Scenarios.ScenarioFirstSender` | src/devices/batch-scheduler.c:148-159 | On an empty bus a Normal sender is admitted: direction SENDER, 2 free slots |
| `Scenarios.ScenarioDirectionHolds` | src/devices/batch-scheduler.c:126-159 | With senders on the bus an arriving receiver of either priority (a High one announced) is refused, even with free slots; once the bus is empty it is admitted and turns the direction to RECEIVER |
| `Scenarios.ScenarioHighReceiverWaits` | src/devices/batch-scheduler.c:148-159 | A waiting High receiver blocks Normal senders even with a free slot in the matching direction; it is admitted once the bus drains, turning the direction to RECEIVER |
| `Scenarios.ScenarioHighBothDirections` | src/devices/batch-scheduler.c:148-159 | High senders share the bus with each other while a High receiver waits for it to drain |

## Left out

- `batchScheduler` and the four per-kind entry functions (`senderTask` and the others) are not modelled. They only spawn threads. A run of `Protocol` is any interleaving of the tasks' steps.
- `transferData` is not modelled. It only sleeps for a random time, and its diagnostics are commented out. Likewise the random-number seeding in `init_bus`.
- The mutex and the blocking behaviour of pintos semaphores are not modelled. The mutex-protected body of the retry loop is one atomic step, and semaphore values are plain integers.
- Arbiter.BusArbiter.Announce and Arbiter.BusArbiter.Release: in the C code these are `sema_up` calls made without the mutex. The model treats each one as its own atomic step. This is sound for three reasons. First, a pintos `sema_up` is atomic by itself. Second, while an attempt holds the mutex, other threads can only raise the free count and the two counters, so the attempt takes effect at its last read of the free count. Third, those raises commute with the attempt's writes. The model does not show the interleavings inside an attempt.
- Arbiter.BusArbiter.TryAdmit: models one iteration of the `while(true)` retry loop in `getSlot`, not the loop. Liveness, fairness and the possibility of livelock are not modelled.
- Bus.Admit: `sema_down` on a pending counter of 0 would block while holding the mutex. The model decrements it instead. `Protocol.ReachableConsumeFollowsAnnounce` (`Protocol.ConsumeFollowsAnnounce` together with `Protocol.ReachableInv`) proves that this never happens in a run of `oneTask`.
- The C code stores directions and priorities as `int`. The model uses two-valued enums, so values other than the four constants the entry functions build cannot occur.
