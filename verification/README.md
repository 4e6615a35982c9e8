# ulmk_apps: a verified model of the FreeRTOS shim and its neighbours

A Dafny 4.11 model of the parts of ulmk_apps that carry real protocols and arithmetic, with proofs about every run of
them. `dafny verify dfyconfig.toml` checks the whole project.

| File | What it models |
|---|---|
| `SemaphoreProtocol.dfy` | `sem_take` and `sem_give` with every atomic load, compare-and-swap, owner access, store, signal, wait and poll a step of its own, for any number of threads |
| `Semaphores.dfy` | the semaphore table: creation, deletion, and undisturbed take and give |
| `QueueProtocol.dfy` | queue senders and receivers that share one wake bit |
| `Queues.dfy` | queues as byte rings in one shared pool, in 32-bit size arithmetic |
| `NotifyProtocol.dfy` | `xTaskNotify` against `xTaskNotifyWait` and `ulTaskNotifyTake`, one access per step |
| `Tasks.dfy` | the task table, and notifications call by call |
| `NotifyCalls.dfy` | the steps of `NotifyProtocol.dfy`, uninterrupted, as the calls of `Tasks.dfy` |
| `Words.dfy` | 32-bit words as sets of bits, for notification values |
| `Kernel.dfy`, `Shim.dfy` | kernel ids as the shim uses them, and the ledger of kernel objects over all three tables |
| `Timers.dfy` | software timers on a wrapping 32-bit tick, against an ideal clock |
| `Time.dfy` | tick and millisecond conversions, `vTaskDelayUntil` |
| `Display.dfy` | dirty-rectangle tracking and the present message |
| `EchoDevice.dfy` | the inline byte codec and the echo device |
| `PingPong.dfy` | the two-thread rendezvous |

Protocols are transition systems: `Step` is one atomic step of one thread, a run is a list of moves, and the theorems
are about `Exec` of any list. In the protocol modules the control of a step (`NextPc`) and its effect on memory
(`Effect`) are separate functions. Static tables and buffers are classes; each method states its new state through a
function of the old one, and the theorems are about those functions. What clients see is stated once more without them,
as laws over logs: `UseCounting`, `UseMutex`, `UseQueue`, `CreateAndUse`, `NotifyAll`, `Exchange` and `Session` make any
list of calls on the real methods and say what every call returns in terms of the calls and results before it.

Where the code does not meet a property in all cases, the module proves exactly when it does:

- A counting semaphore can lose a wake-up when it has room for two units, two threads may block on it and a third
  thread exists; in every other configuration, mutexes included, it cannot (`SemaphoreProtocol.NoLostWakeupIff`).
  The poll after the wait is what eats the second wake-up.
- A queue can lose one when two different threads may block on its two sides, one sending and one receiving: both sides
  share one bit, and a receiver consumes the signal of its own receives. Any number of threads may block on one side
  (`QueueProtocol.NoLostWakeupIff`).
- `xTaskNotifyWait` loses sight of a notification that lands between its read of the value and its clearing of the
  pending flag (`NotifyProtocol.DeliveryIff`). A bit that is set there, or between the clearing of the flag and the exit
  mask, may be wiped by the mask before anybody has read it (`NotifyProtocol.BitsIff`). What lands after the mask is safe.
- `xQueueCreate` hands out a slice that does not fit the pool exactly when its size arithmetic wraps 32 bits and the
  wrapped sum passes the check (`Queues.PoolDisjointIff`, `Queues.QueueService.XQueueCreate`). The ledger of kernel
  objects survives even that (`Shim.Objects.Do`).
- A timer is on time exactly when its period is at most 2^31 + 1 ticks (`Timers.TimerExactness`), or 2^31 when a callback
  starts it in a sweep that has still to reach its slot (`Timers.ArmedInSweep`); a callback that restarts its own
  one-shot timer is told it succeeded, and the timer stops (`Timers.SelfRestart`).
- `vTaskDelayUntil` computes the right delay exactly when now and the target lie in the same turn of the 32-bit
  counter (`Time.DelayExactIff`).
- The 32-entry dirty lists are safe exactly when the inline message cannot hold 32 rectangles
  (`Display.DamageCoverageIff`).
- The unpacking loop of an inline write to the echo device stays inside the message exactly when the length in its first
  word is at most 20 (`EchoDevice.InlineWriteInsideIff`).
- The head comment of `ping_pong.c` says that exactly one of its threads is runnable at any instant. The code lets
  both run between a reply and the next receive (`PingPong.BothRunnableIff`); the exclusion it is after still holds.

Facts about the ulmk kernel, which is not part of this model, are environment steps: a notification holds bits, has one
waiter slot, and a wait consumes the bits it waits for or ends in an error; a created notification or thread gets an id
that no live one has.

## Model

| member | source | states |
|---|---|---|
| SemaphoreProtocol.MutexExclusion | freertos/src/freertos_semphr.c:30-80 | in every reachable state of any number of threads at most one is between its winning compare-and-swap and its release store, `count` is 1 exactly when there is one, and a set owner field names that thread |
| SemaphoreProtocol.OnlyHolderReleases | freertos/src/freertos_semphr.c:73-80 | a holder leaves the critical section only by its own release store, with the owner field already cleared |
| SemaphoreProtocol.SemaphoreConservation | freertos/src/freertos_semphr.c:44-90 | at every step `count` is the initial count plus successful gives minus successful takes and lies in 0..max, which fits 32 bits |
| SemaphoreProtocol.CountIsAnswers | freertos/src/freertos_semphr.c:44-90 | in every run `count` is the initial count plus the gives that returned true or are about to, less the takes that returned true |
| SemaphoreProtocol.MutexIsAnswers | freertos/src/freertos_semphr.c:30-80 | in every run of a mutex the count is the acquisitions less the gives that returned true or are about to |
| SemaphoreProtocol.AnswersDeserved | freertos/src/freertos_semphr.c:73-90 | a counting give returns false only on a count at the maximum, a mutex give only to a non-holder, with nothing changed; true leaves the wake bit set; a mutex take that returns true leaves its thread the owner |
| SemaphoreProtocol.TakeTurnsAway | freertos/src/freertos_semphr.c:31-61 | a take turns away only from an object found unavailable, and returns false only without a timeout or after a failed wait |
| SemaphoreProtocol.NoLostWakeupIff | freertos/src/freertos_semphr.c:30-90 | in all runs a committed taker of an available object has the wake bit, a pending signal or an awake taker ahead of it, if and only if not (counting, max at least 2, two possible blockers and a third thread) |
| SemaphoreProtocol.NoLostWakeupSingle | freertos/src/freertos_semphr.c:52-90 | with one blocking taker, committed while the object is available: the bit is set or a giver is between its update and its signal |
| SemaphoreProtocol.LosesWakeup | freertos/src/freertos_semphr.c:52-63 | a concrete run for every such configuration that leaves a taker asleep, the semaphore available, the bit clear and everybody else idle |
| SemaphoreProtocol.RetriesArePaidFor | freertos/src/freertos_semphr.c:35-50 | over any stretch of any run a thread fails its compare-and-swap at most once more often than other threads change `count` |
| SemaphoreProtocol.FailuresBounded | freertos/src/freertos_semphr.c:82-87 | from the start of a run, failures of a thread never exceed the count changes made by others |
| SemaphoreProtocol.UndisturbedTake | freertos/src/freertos_semphr.c:21-64 | from any state a take whose thread runs alone completes, and every such completed run has the effect and the answer of one indivisible take, or commits to waiting with the object unchanged |
| SemaphoreProtocol.UndisturbedGive | freertos/src/freertos_semphr.c:66-91 | from any state a give whose thread runs alone completes, and every such completed run has the effect and the answer of one indivisible give and sets the wake bit exactly when it succeeds |
| Semaphores.SemaphoreService.XSemaphoreTake | freertos/src/freertos_semphr.c:21-53 | result, count and owner are those of the indivisible take; blocks only when unavailable with a timeout; a dead handle is refused |
| Semaphores.SemaphoreService.XSemaphoreGive | freertos/src/freertos_semphr.c:66-91 | result, count and owner are those of the indivisible give; a dead handle is refused |
| Semaphores.SemaphoreService.UseCounting | freertos/src/freertos_semphr.c:145-153 | over any takes and gives of any threads, a give returns true exactly when the results so far put the count below the maximum, a take exactly when they put it above zero, and the count ends where the results say |
| Semaphores.SemaphoreService.UseMutex | freertos/src/freertos_semphr.c:145-153 | over any such calls on a mutex, a take returns true exactly for the holder or when the results so far leave none, a give exactly for the holder |
| Semaphores.SemaphoreService.XSemaphoreCreateCounting | freertos/src/freertos_semphr.c:93-126 | succeeds exactly with a free slot, a non-zero maximum and a kernel notification; the new object is a valid starting state of the protocol with the count capped; a failure keeps every used slot and holds no notification |
| Semaphores.SemaphoreService.XSemaphoreCreateBinary | freertos/src/freertos_semphr.c:93-107 | succeeds exactly with a free slot and a kernel notification; the new semaphore holds at most one unit and starts empty |
| Semaphores.SemaphoreService.XSemaphoreCreateMutex | freertos/src/freertos_semphr.c:128-143 | the same for a mutex, which starts free and unowned |
| Semaphores.SemaphoreService.VSemaphoreDelete | freertos/src/freertos_semphr.c:155-163 | destroys the one notification of a used slot, and nothing for a dead handle |
| QueueProtocol.QueueConservation | freertos/src/freertos_queue.c:43-61 | over any mix of front sends, back sends and receives, items accepted are items handed out plus contents, as multisets, and the length is never exceeded |
| QueueProtocol.QueueHistory | freertos/src/freertos_queue.c:132-142 | with back sends only, the items sent are the items received followed by the contents, in order |
| QueueProtocol.QueueAnswers | freertos/src/freertos_queue.c:57-60 | in every run as many items are accepted as sends have returned pdPASS or are about to, and likewise for receives |
| QueueProtocol.AnswersDeserved | freertos/src/freertos_queue.c:63-73 | a call turns away only where it cannot be served and is refused, with the queue unchanged, only without a timeout or after a failed wait; pdPASS leaves the wake bit set; a woken call clears the bit before it looks again |
| QueueProtocol.NoLostWakeupIff | freertos/src/freertos_queue.c:43-74 | no run leaves a thread waiting for something that already holds, without a wake bit, a pending signal or a waiter awake that can use it, if and only if no two different threads block on the two sides |
| QueueProtocol.NoLostWakeupSingle | freertos/src/freertos_queue.c:43-74 | with one blocking thread, committed while its operation could go through: the bit is set or a signal is pending |
| QueueProtocol.LosesWakeup | freertos/src/freertos_queue.c:132-155 | for any blocking receiver, any other blocking sender and any length, a run that leaves the sender asleep on an empty queue with the bit clear |
| Queues.SendRefines | freertos/src/freertos_queue.c:44-58 | on the bytes, a send to the back appends and a send to the front prepends exactly one item |
| Queues.ReceiveRefines | freertos/src/freertos_queue.c:133-139 | on the bytes, a receive returns the first item and leaves the rest in order |
| Queues.StoreFrame | freertos/src/freertos_queue.c:50-57 | a copy into one ring leaves the contents of every ring with other storage unchanged |
| Queues.QueueService.QueueSend | freertos/src/freertos_queue.c:33-75 | passes exactly when the handle is live, an item is given and there is room; then the contents are pushed at the chosen end; every other queue keeps its fields and contents; full queues refuse or wait by the timeout |
| Queues.QueueService.XQueueReceive | freertos/src/freertos_queue.c:121-156 | delivers exactly when live and not empty: item followed by new contents is the old contents, and every other queue is unchanged |
| Queues.QueueService.XQueueOverwrite | freertos/src/freertos_queue.c:158-171 | succeeds exactly on a live queue of length one, which then holds exactly the new item |
| Queues.QueueService.UseQueue | freertos/src/freertos_queue.c:109-156 | over any sends and receives on a queue every result follows from the ones before it: sends pass exactly below the length, receives return the first of what the log leaves queued |
| Queues.FillsUp | freertos/src/freertos_queue.c:44-64 | by that law an empty queue takes exactly as many sends as its length |
| Queues.Drains | freertos/src/freertos_queue.c:133-145 | by that law receives return what is queued, in order, each item once, and are then refused |
| Queues.QueueService.UxQueueMessagesWaiting | freertos/src/freertos_queue.c:173-178 | returns the number of items in the abstract contents |
| Queues.QueueService.XQueueCreate | freertos/src/freertos_queue.c:77-107 | for all sizes, exactly when it succeeds, with the length, item size and storage of the new slot, failed creates included: the bump pointer and the slices make one step of the pool history; a sound table stays sound, with the other contents unchanged and the new queue empty, if and only if no wrapped size is granted |
| Queues.QueueService.CreateAndUse | freertos/src/freertos_queue.c:77-156 | a queue created for `length` items of `itemSize` bytes obeys the law for that length with items of that size, from empty on |
| Queues.QueueService.VQueueDelete | freertos/src/freertos_queue.c:180-186 | frees the slot and its notification, never the bytes, whatever was created before; a sound table keeps the other contents |
| Queues.PoolDisjointIff | freertos/src/freertos_queue.c:10-18 | over any history of requests, all slices ever granted are in the pool and pairwise disjoint if and only if no granted request wrapped; then the bump pointer is the sum of their sizes |
| Queues.TiledSlices | freertos/src/freertos_queue.c:10-18 | slices cut by the bump pointer are disjoint, in bounds and add up to it |
| NotifyProtocol.NoLostWakeup | freertos/src/freertos_task.c:206-304 | at every step, with any notifiers and both calls: a committed owner whose tested field has become set has the notify bit or a notifier still before its signal |
| NotifyProtocol.DeliveryIff | freertos/src/freertos_task.c:257-279 | with notify-wait alone and the notifiers held off at any set of places of the owner, no run leaves the owner waiting for a complete, unseen notification if and only if the place between the read of the value and the clearing of the flag is among them (or there are no notifiers, or they never run before the owner has news) |
| NotifyProtocol.BitsIff | freertos/src/freertos_task.c:273-277 | likewise, every bit that a notifier sets stays in the value until it is read, overwritten by a notifier or cleared on entry, if and only if both places between the read and the exit mask are held off |
| NotifyProtocol.LosesBits | freertos/src/freertos_task.c:274-277 | the run in which a bit is set after the read and wiped by the exit mask |
| NotifyProtocol.EntryMaskHolds | freertos/src/freertos_task.c:257-274 | in every run the value handed to the caller of notify-wait has no bit of the entry mask but those set after the mask was applied |
| NotifyCalls.NotifyAtOnce | freertos/src/freertos_task.c:214-237 | an uninterrupted notification does to the TCB what the call does, and signals exactly when it passes |
| NotifyCalls.WaitAtOnce | freertos/src/freertos_task.c:257-279 | an uninterrupted notify-wait hands out the value without the entry bits and leaves neither flag, bit nor masked bits, or clears the entry bits and is about to wait |
| NotifyCalls.WaitResumes | freertos/src/freertos_task.c:260-279 | a wait that finds or gets the bit hands out the value that is there then; without a timeout it gives up |
| NotifyCalls.TakeAtOnce | freertos/src/freertos_task.c:292-312 | an uninterrupted notify-take does to the TCB what the call does, or is about to wait on a zero |
| NotifyCalls.TakeResumes | freertos/src/freertos_task.c:293-303 | a take that finds or gets the bit clears it and returns the value, or is about to wait again on a zero |
| NotifyProtocol.LosesNotification | freertos/src/freertos_task.c:274-275 | the run in which a notification falls between the read of the value and the clearing of the flag, and is lost |
| Words.WordArithmetic | freertos/src/freertos_task.c:220-310 | on sets of bits, the carry and borrow operations are the 32-bit increment and decrement of the notification value, and the empty set is zero |
| Tasks.NotificationCounting | freertos/src/freertos_task.c:220-313 | over any gives and takes the value is gives minus counts removed modulo 2^32, and the pending flag equals "value not zero" until the very give that makes 2^32 outstanding |
| Tasks.TaskService.FrTaskFromTid | freertos/src/freertos_task.c:18-27 | finds the used slot with that thread id, which is the only one, or none when there is none |
| Tasks.TaskService.XTaskCreate | freertos/src/freertos_task.c:42-104 | succeeds exactly with code, a free slot, a notification and a thread; every failing path leaves the kernel's live notifications and threads as they were |
| Tasks.TaskService.VTaskDelete | freertos/src/freertos_task.c:106-130 | ends exactly one thread and its notification for a live target, another task or the caller itself; thread ids of used slots stay distinct and live |
| Tasks.TaskService.XTaskNotify | freertos/src/freertos_task.c:206-238 | refused exactly for a dead handle, an unknown action or a pending no-overwrite; otherwise value and flag are as the action says, which NotifyAll pins |
| Tasks.TaskService.NotifyAll | freertos/src/freertos_task.c:206-238 | over any notifications of a task: a no-overwrite passes exactly when nothing was pending and none before it passed; the flag is set exactly when it was or one passed; without increments each bit is set exactly when it was set at the start or by a passing notification and not overwritten since |
| Tasks.TaskService.XTaskNotifyWait | freertos/src/freertos_task.c:245-280 | what the calling task is handed, when it waits, and the value and flag left behind; a thread that is no task gets nothing |
| Tasks.TaskService.Exchange | freertos/src/freertos_task.c:216-279 | over any set-bits notifications and waits, the bits handed out with those still in the value are those set with those there at the start |
| Tasks.TaskService.UlTaskNotifyTake | freertos/src/freertos_task.c:282-313 | the calling task, found by its thread id, gets its value, which is then cleared or decremented and the flag recomputed; it waits exactly on zero with a timeout; a thread that is no task gets zero |
| Shim.CreateKeeps | freertos/src/freertos_semphr.c:93-107 | a create adds one fresh handle to one free slot and to the live set, or changes neither; the live handles stay exactly those held, each once |
| Shim.DeleteKeeps | freertos/src/freertos_semphr.c:155-163 | a delete removes the same handle from its slot and from the live set, or changes neither |
| Shim.Objects.Do | freertos/src/freertos_task.c:42-130 | every create and delete of semaphores, queues and tasks, of any size, keeps the ledger: live notifications are exactly those of used slots, all distinct, and none is destroyed twice; the queue table stays sound if and only if no wrapped size is granted |
| Shim.Objects.DoAll | freertos/src/freertos_queue.c:77-107 | the ledger holds after any run of such calls, and the queue table stays sound when no size reaches 2^32 - 512 |
| Timers.ClockRefinement | freertos/src/freertos_timers.c:8-110 | over any run of API calls and ticks with any callbacks and periods up to 2^31, the 32-bit code shows the same results and firings as a clock that never wraps, and every active deadline stays in the future within 2^31 ticks |
| Timers.TimerExactness | freertos/src/freertos_timers.c:12-29 | from any state with the timer armed one period ahead: in every run that leaves it alone, with any activity and periods elsewhere, it has fired n/p times after n ticks when it reloads, and once from tick p on when it does not, if and only if its period is at most 2^31 + 1 |
| Timers.Arms | freertos/src/freertos_timers.c:66-100 | a start, or a new period for a running timer, succeeds and arms it with that period |
| Timers.CreatedTimer | freertos/src/freertos_timers.c:31-74 | from the arguments of a create: once its handle is started, whenever that is, n ticks that leave it alone fire it n/p times if it was created to reload, and otherwise once from tick p on; before the start it never fires |
| Timers.ChangedTimer | freertos/src/freertos_timers.c:90-100 | a new period for a stopped timer governs its firings from its next start on |
| Timers.StartedByCallback | freertos/src/freertos_timers.c:20-21 | a callback's start of another timer takes effect: at the end of the sweep that timer is armed one period ahead and has not fired |
| Timers.DeletedIsDead | freertos/src/freertos_timers.c:102-110 | after a delete every call on the handle fails until a create takes the slot, and a create then succeeds |
| Timers.ZeroPeriodRefused | freertos/src/freertos_timers.c:40-50 | zero periods are refused and change nothing; any other create succeeds exactly when a slot is free |
| Timers.ArmedInSweep | freertos/src/freertos_timers.c:12-28 | a timer armed by a callback in the middle of a sweep is still armed and unfired after it if and only if its slot is behind or its period is at most 2^31 |
| Timers.StopSilences | freertos/src/freertos_timers.c:76-110 | a stopped or deleted timer does not fire in any run until its slot is started again, even if the slot is handed out anew |
| Timers.ExactPeriodIff | freertos/src/freertos_timers.c:15-18 | the signed test is quiet before the deadline and fires on it if and only if the period is at most 2^31 (plus one when first tested a tick later) |
| Timers.NoDoubleFire | freertos/src/freertos_timers.c:12-28 | whatever callbacks do, the slots that fire in a sweep are in strictly ascending order |
| Timers.NoFireAfterStart | freertos/src/freertos_timers.c:66-100 | a slot whose deadline a callback has put in the future does not fire in the rest of that sweep |
| Timers.SelfRestart | freertos/src/freertos_timers.c:20-27 | a callback's restart of its own timer, anywhere in its body, reports success, and unless it touches the timer later the timer stays active if and only if it auto-reloads |
| Timers.TimerService.OnTick | freertos/src/freertos_timers.c:8-29 | the loop computes the sweep: new table and slots fired |
| Timers.TimerService.TickEntry | freertos/src/freertos_init.c:24-28 | one turn of the tick thread is one tick step of the system |
| Timers.TimerService.XTimerCreate | freertos/src/freertos_timers.c:31-64 | the handle is a slot that was free and is now in use, or the call fails and changes nothing; a null callback or a zero period is refused |
| Timers.TimerService.XTimerChangePeriod | freertos/src/freertos_timers.c:90-100 | table and result of the call step; a null handle fails and changes nothing |
| Time.ConversionBound | freertos/src/freertos_init.c:10-18 | milliseconds to ticks and back never exceeds the input and falls short by less than 1000/rate + 1, whenever ms * rate fits 32 bits |
| Time.MsToTicksExactIff | freertos/include/portable.h:15-17 | the macro is exact if and only if its 32-bit product has not wrapped |
| Time.TicksToMsExactIff | freertos/src/freertos_init.c:10-18 | the milliseconds are the floor of the true duration if and only if that fits 32 bits |
| Time.DelayIsTheTicks | freertos/src/freertos_task.c:132-141 | a delay sleeps the ticks in milliseconds rounded down, at least one, and for ever for the largest count |
| Time.NoDrift | freertos/src/freertos_task.c:143-159 | k calls advance the wake time by exactly k increments modulo 2^32, however late they ran |
| Time.DelayExactIff | freertos/src/freertos_task.c:153-162 | the computed delay is the true distance to the target if and only if now and target are in the same turn of the counter |
| Time.VTaskDelayUntil | freertos/src/freertos_task.c:132-162 | the new wake time, and a sleep of at least one millisecond exactly when the delay is not zero; a null pointer or a zero increment changes nothing |
| Display.DamageCoverageIff | lvgl_benchmark/src/port_disp.c:53-93 | every present of every run asks for the full frame or covers each pixel flushed in this frame and the previous one, if and only if the inline limit is below the size of a 32-rectangle message |
| Display.PresentIsTight | lvgl_benchmark/src/port_disp.c:67-84 | a present asks for the full frame exactly when the kept areas do not fit the message, never lists a pixel outside this frame's and the last frame's areas, and up to 32 areas a frame lists one exact rectangle for each, in order |
| Display.ListsAreCapped | lvgl_benchmark/src/port_disp.c:59-90 | in every run the two bounded lists are the first 32 areas of the true history of this frame and the last |
| Display.BigMessageMisses | ulmk_device_classes/include/ulmk_device_display.h:99-116 | a 33-area frame whose present misses a pixel when the inline limit is larger |
| Display.ToRectExact | lvgl_benchmark/src/port_disp.c:70-73 | the 16-bit casts keep exactly the pixels of an on-screen area |
| Display.PresentRoundTrip | ulmk_device_classes/include/ulmk_device_display.h:32-36 | a payload decodes to the frame buffer and rectangles it was built from |
| Display.ByteWeights | ulmk_device_classes/include/ulmk_device_display.h:25-36 | the bytes of words and of signed half words are little-endian |
| Display.HeaderLayout | ulmk_device_classes/include/ulmk_device_display.h:32-36 | a payload starts with the pointer and the count, and the rectangles follow |
| Display.RectLayout | ulmk_device_classes/include/ulmk_device_display.h:25-30 | each rectangle is x, y, w and h at its place in the payload |
| Display.WritePresent | ulmk_device_classes/include/ulmk_device_display.h:88-128 | the byte-copy loop builds the encoding of the rectangles, or of none when they do not fit; a null buffer sends nothing |
| Display.DisplayPort.FlushCb | lvgl_benchmark/src/port_disp.c:53-93 | lists step as specified; a payload goes out exactly on the last flush and decodes to the rectangles to present |
| Display.DisplayPort.Reset | lvgl_benchmark/src/port_disp.c:126-129 | both lists empty and a full-frame present |
| EchoDevice.InlineRoundTrip | silicon/silicon_device_manager/src/root_thread.c:115-152 | words packed by the read loop unpack by the write loop to the same bytes |
| EchoDevice.ByteWeights | silicon/silicon_device_manager/src/root_thread.c:118-151 | byte k of a word has weight 256^k, on the write path and on the read path |
| EchoDevice.ReadReturnsLastWrite | silicon/silicon_device_manager/src/root_thread.c:101-167 | after the last store of some data, in either mode, a read in either mode returns its first bytes, capped by request, data and inline limit |
| EchoDevice.InlineWriteInsideIff | silicon/silicon_device_manager/src/root_thread.c:111-122 | the loop of an inline write stays inside the six words, and what it stores is decided by them, if and only if the length is at most 20 |
| EchoDevice.EchoServer.Serve | silicon/silicon_device_manager/src/root_thread.c:89-182 | every request, of any inline length, updates the register and answers as the abstract register does, errors included |
| EchoDevice.EchoServer.Session | silicon/silicon_device_manager/src/root_thread.c:101-167 | over any session, on requests and replies: a read after an open or a close, or before anything is stored, gets no bytes, whatever was written before; a read after a write gets the first bytes of what was written last |
| PingPong.ExclusionAndProgress | ping_pong/src/ping_pong.c:52-94 | in every reachable state at most one thread is in a timer sleep, replies carry 0, 1, 2, ... and printed rounds are 1, 2, 3, ..., and some thread can move |
| PingPong.BothRunnableIff | ping_pong/src/ping_pong.c:5-15 | both threads are runnable exactly when pong is on its way to its receive and ping is not inside a call |

## Left out

- Deleting a semaphore or queue under a blocked thread, and use of a handle after its slot was reused: a wait that ends
  in an error stands for every way it can fail.
- Nested mutex counting: retaking as owner succeeds without a depth, so exclusion is proved, not recursion.
- Concurrent access inside one ring update: `freertos/README.md` does not claim it is safe; each update is one step.
- The blocking passes of `queue_send`, `xQueueReceive` and `sem_take` in the classes: a method returns `Waits` where the
  code blocks, and the protocol modules take over from there. The classes do not carry notification bits.
- Display.WritePresent: takes the rectangles as a list whose message fits 32 bits, as an array in 32-bit memory does; a
  null array with a non-zero count is left out.
- EchoDevice.EchoServer.Serve: the count of an inline reply is kept apart from the flag bits of its first word, whose
  values come from a header that is not part of this model. Memory behind a message is a parameter of the request.
- Timers.ClockRefinement: API calls happen between ticks or from callbacks, not from other threads during a sweep.
- NotifyProtocol.DeliveryIff: mixing `ulTaskNotifyTake` into the same task is left to NoLostWakeup; its plain store of the
  value can overwrite a concurrent increment.
- Tasks.TaskService.XTaskCreate: a new thread that runs before its TCB is marked used.
- Tasks.TaskService.VTaskDelete: the kernel's kill is taken to succeed; its error code is ignored by the code as well.
- Task names, stack sizes and priorities, timer ids and names: they decide nothing above.
- The rest of the `silicon/` programs, the LVGL demos and ports, the thin device-class wrappers, board and build files.
