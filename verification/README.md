# ERTOS in Dafny

ERTOS is a small kernel for ARM boards. This project models the parts of it whose correctness rests on
arithmetic or on the interplay of many steps, and proves what they promise: the error correction of the NAND
driver, the scheduler with its alarms, events and wait queues, the USB checksums, the memory allocator, and the
division, checksum, packet buffer and number conversion routines underneath the network and console code.

`dafny verify dfyconfig.toml` checks all of it.

## How it is built

Where the source updates things in place, so does the model: loops are loops, `struct proc`, `struct bfifo`,
`struct mem_desc`, `struct en_net_pkt` and the globals around them are classes, and every method is tied to a
function on values. What the source is for is then proved about those functions.

| files | what they cover |
|---|---|
| `Machine`, `Bits` | word sizes and wrap-around; words as sequences of bits, lowest bit first; parity, counting, numerals |
| `Hamming`, `HammingLayout`, `HammingTheorems`, `Nand` | the 22-bit code over 256 bytes, its bits, its guarantees, and the page layout that uses it |
| `Crc16`, `Crc16Known`, `Crc16Order`, `Crc5` | both USB checksums, their known values and the errors they detect |
| `Sched`, `SchedTheorems`, `SchedSteps` | the scheduler as a state machine; safety and fairness over all runs; the exact effect of every step |
| `SchedAlarms`, `SchedRevival` | alarms, sleeping, events and wait queues over all runs; when a killed process runs again |
| `SchedExamples` | concrete runs that show where the scheduler falls short of its purpose |
| `Bfifo`, `Tasks` | the ring FIFO; processes linked in a ring and updated in place, step by step tied to `Sched` |
| `Heap`, `HeapTheorems`, `Memory` | the allocator on values, its guarantees, and its own form |
| `Division`, `Checksum`, `Ip`, `Packet`, `Decimal` | arithmetic and buffers |

The main results are `HammingTheorems.SecDed`, `Nand.EndToEnd`, `SchedTheorems.RunSafe`,
`SchedTheorems.BoundedWait`, `SchedAlarms.ExcursionTransparent`, `SchedRevival.KilledExactly`,
`Crc16.DetectsBursts`, `Crc16Order.DetectsTwoErrors`, `HeapTheorems.RunConserves`, `HeapTheorems.FreeExact`,
`Ip.OutputThenInput` and `Division.DivSi3`.

## Choices worth knowing

- Bytes and shift registers are sequences of eight and sixteen bits, so exclusive or, shifts and complements are
  the bitwise operations themselves. Only the popcount works on 32-bit vectors, and the order of the CRC16
  polynomial is computed on 16-bit vectors shown to stand for registers.
- Programming a flash page can only clear bits, so `Nand.Program` combines the old cell with the new byte, and
  the end-to-end theorem starts from an erased page.
- A run of the scheduler is any interleaving of ticks, dispatches, spawns, wakes from an interrupt, and the
  system calls and faults of cur. The idle task makes no system calls (`kernel/sched.c:293-298`). Event masks
  are the sets of their bits.
- The clock wraps at 32 bits as in the source. The fairness theorem excludes exactly the wrapping ticks that cost the
  process its place; where an alarm or a sleep adds a period to the clock, an exact lemma says when the sum may be
  trusted.
- `struct en_net_pkt` appears twice: `PacketBuffer.Packet` is the byte buffer with its length and capacity, and
  `Ip.Datagram` is the sequence of 16-bit words that the header code reads it as.
- malloc outcomes are parameters of the methods that call it.
- Function pointers, addresses of handlers and processes' register contents are plain numbers.

Where the code does something other than its comments or its evident purpose suggest, the model follows the code
and states exactly when the intent is met:

- `kernel/mem.c:126` counts both ends of a class and does not stop at the first match (`FreeExact`).
- `kernel/mem.c:107` compares free FIFO slots, which are allocated chunks, so `least_free` is not the least number
  of remaining chunks: it is 128 until the first allocation from a class and 1 ever after (`LeastFreeExactly`), and
  right exactly when that number is 128 or 1 (`LeastFreeRightExactly`, `LeastFreeWrong`).
- `kernel/mem.c:73` may underflow when the heap does not start on a word boundary (`LaterRunsExactly`).
- `kernel/mem.c:207` kills a process, but a killed process can run again (`KilledExactly`, `FaultIsFinalExactly`,
  `RevivingRun`).
- `kernel/timers.c:59` gives back the state from before the alarm, so a wakeup in between is lost unless that state
  could run anyway (`WakeDuringExcursion`, `LostWakeup`).
- `kernel/syscall.c:46` does not reset the wakeup time, so one left from a sleep cut short ends a wait before any wake
  (`WaitOverExactly`, `WaitInVain`).
- `kernel/timers.c:45` wraps the clock, which can make an expired sleep look unexpired (`TickReadyExactly`, `SleepMissed`).
- `net/core/pkt.h:101` folds once; for checking this is exact but for one sum (`FoldExactly`), for generating it is
  not (`OutputThenInput`, `DroppedExample`).
- `net/core/pkt.c:209` reserves for a 32-bit sum that may wrap (`RoomExactly`).
- `net/trans/ip.c:172` converts the 16-bit checksum field with the 32-bit macro, which leaves zero.
- `lib/math.c:78` overflows for -2^31 over -1, and division by zero returns a value.
- `lib/stdio.c:113` cannot negate -2^31 and puts out the sign alone.
- `dev/usb.c:107` gives a checksum of period 31, so it misses two errors 31 bits apart in a 32-bit input.

## Model

| member | source | states |
|---|---|---|
| `Hamming.Popcount32` | dev/hamming.c:64-75 | The shift-and-add popcount returns the true number of one bits, for every 32-bit word. |
| `Hamming.Lines` | dev/hamming.c:96-143 | The first loop yields the exclusive or of all bytes, and the exclusive or of the indices (and of the complemented indices) of the bytes of odd parity. |
| `Hamming.Columns` | dev/hamming.c:149-155 | The second loop yields the same two index sums over the bits of the column sum. |
| `Hamming.Interleave` | dev/hamming.c:166-209 | The third loop leaves the parities interleaved, odd bit above even bit, lines in the first two bytes and columns above two zero bits in the third. |
| `Hamming.Compute256` | dev/hamming.c:82-215 | Writes the complemented, interleaved line and column parities of the block at the given offset, and changes nothing else. |
| `HammingLayout.CodeExactly` | dev/hamming.c:96-215 | Bit by bit, the first two code bytes are the complemented parities of the bytes whose number has or lacks each of its eight bits, the third those of the bits whose place has or lacks each of its three, above two ones. |
| `Hamming.Correct256` | dev/hamming.c:224-276 | Classifies the exclusive or of the two codes by its bit count (0, 11, 1, other), flips exactly the addressed bit when the count is 11, and otherwise leaves the buffer alone. |
| `HammingTheorems.SyndromeOf` | dev/hamming.c:96-155 | Linearity: the syndrome is the parities of the data error plus the error in the stored code, whatever the data. |
| `HammingTheorems.Halves` | dev/hamming.c:140-155 | The even and odd halves of an error's parities are equal if the number of wrong bits is even, and complementary if it is odd. |
| `HammingTheorems.CountErrorParities` | dev/hamming.c:246-247 | An odd data error sets exactly eleven syndrome bits, an even one an even number. |
| `HammingTheorems.ExactClassification` | dev/hamming.c:236-275 | For any two blocks: an odd difference is reported as a single-bit error; an even one is reported as clean or multiple and never written to, and is clean exactly when its index sums cancel. |
| `HammingTheorems.SingleCorrected` | dev/hamming.c:246-267 | For every block and every one-bit error the correction restores the block exactly. |
| `HammingTheorems.SecDed` | dev/hamming.c:224-276 | Over the 2048 data bits and 24 code bits together: no error is clean, one is classified by where it lies and the data come out right, two are reported as multiple and nothing is written. |
| `Nand.WriteSector` | dev/nand.c:264-306 | The streaming loop and the six code bytes leave the page that `WriteColumns` describes column by column. |
| `Nand.ReadPage` | dev/nand.c:151-191 | The buffer ends as the page with each of the eight chunks corrected in turn, and the eight reports are the classification of each chunk's syndrome on the page as read. |
| `Nand.ChunksIndependent` | dev/nand.c:168-173 | Correcting one chunk changes neither another chunk nor any stored code, so every chunk is judged on the page as it was read. |
| `Nand.HalvesOfSector` | dev/nand.c:171-172 | The reader's offsets 40 + 3 * i name the codes that the writer put at 40 + 6 * sect. |
| `Nand.WriteColumns` | dev/nand.c:264-306 | Writing sector s programs columns 512 s to 512 s + 511 with its data and 2088 + 6 s to 2093 + 6 s with the codes of its halves, and no other column. |
| `Nand.ReadColumns` | dev/nand.c:166-173 | Chunk i is read from columns 256 i to 256 i + 255 and its stored code from 2088 + 3 i to 2090 + 3 i, within the last twenty-four. |
| `Nand.PageLayout` | dev/nand.c:151-306 | A page of all ones after its four sectors are written, in any order: 2048 columns of data, forty columns still all ones, and in the last twenty-four the code of each 256 bytes in turn. |
| `Nand.WriteInAnyOrder` | dev/nand.c:283-306 | Whatever the order in which sectors are written to an erased page, each written sector holds its data and codes and each unwritten one is still erased. |
| `Nand.ReadChunk` | dev/nand.c:168-190 | Reading repairs every chunk with at most one wrong bit among data and code, and reports every chunk with two. |
| `Nand.EndToEnd` | dev/nand.c:151-306 | At most one wrong bit in each chunk with its code is enough for four sectors, written to an erased page in any order, to come back byte for byte. |
| `Nand.ErasedReadsClean` | dev/nand.c:168-177 | A page of all ones is its own code: every chunk is clean and unchanged. |
| `Crc16.AddByte` | dev/usb.c:146-158 | The inner loop on a wide register is eight rounds of the 16-bit shift register, lowest bit first. |
| `Crc16.UsbCrc16` | dev/usb.c:135-162 | The result is the complement of the register after the message bits in order, for any length; preset, polynomial and complement are those of `EmptyMessage`, `ResidualExactly` and `SetAddressExample`. |
| `Crc16.SameCrc` | dev/usb.c:149-157 | Messages of equal length collide exactly when the residue of their difference is zero. |
| `Crc16.Affine` | dev/usb.c:135-162 | crc(x ^ y ^ z) = crc(x) ^ crc(y) ^ crc(z) for messages of equal length. |
| `Crc16.DetectsBursts` | dev/usb.c:135-162 | Every non-empty error within sixteen consecutive bits is detected, for messages of any length (section 8.3.5.2 of USB 2.0). |
| `Crc16.CrcParity` | dev/usb.c:135-162 | The CRC always has the parity of the message. |
| `Crc16.DetectsOddErrors` | dev/usb.c:135-162 | Every odd number of wrong bits is detected, for messages of any length. |
| `Crc16Known.EmptyMessage` | dev/usb.c:140-161 | The empty message has CRC zero, so the register is preset to what the final complement clears. |
| `Crc16Known.ResidualExactly` | dev/usb.c:135-162 | A message followed by sixteen bits leaves 0x800d in the receiver's register if and only if they are its CRC, top bit first (section 8.3.5.2 of USB 2.0). |
| `Crc16Known.LeadingZeros` | dev/usb.c:140-140 | A leading byte of zeros changes the CRC of every message. |
| `Crc16Known.SetAddressExample` | dev/usb.c:207-213 | The request that gives a device address 1 gets the CRC 0xd7a4. |
| `Crc16Order.Order` | dev/usb.c:139-155 | n rounds with zero bits are the identity exactly when 32767 divides n: the order of the polynomial. |
| `Crc16Order.DetectsTwoErrors` | dev/usb.c:135-162 | Two wrong bits go unnoticed if and only if their distance is a multiple of 32767. |
| `Crc5.UsbCrc5` | dev/usb.c:104-133 | For 1 to 32 bits the register in the top of the word refines the plain 5-bit register (section 8.3.5.1 of USB 2.0), its other 27 bits staying zero; for any other bit count the result is all ones. |
| `Crc5.WhitePaperExamples` | dev/usb.c:97-100 | The four addresses of the white paper get the checksums 0x17, 0x1C, 0x0E and 0x17. |
| `Crc5.DetectsOneError` | dev/usb.c:104-133 | One wrong bit is always detected. |
| `Crc5.DetectsTwoErrors` | dev/usb.c:104-133 | Two wrong bits go unnoticed if and only if they are 31 apart, which only a 32-bit input allows. |
| `Tasks.Proc.HandleTaskTimer` | kernel/timers.c:63-89 | Firing saves registers, state and wakeup time, redirects the task into the trampoline and sets the next due time. |
| `Tasks.Proc.HandleTaskTimerDone` | kernel/timers.c:52-61 | Completion gives back registers, state and wakeup time and ends the excursion. |
| `Tasks.Proc.CheckTimers` | kernel/sched.c:190-222 | The branches of check_timers on a process record are the function CheckTimers on its value. |
| `Tasks.System.constructor` | kernel/sched.c:300-316 | The kernel starts with an empty ring, a sleeping idle task that is cur, clock zero, and the scheduler neither enabled nor asked. |
| `Tasks.System.TimerInt` | kernel/timers.c:43-50 | The clock advances by one, wrapping at 32 bits, and a dispatch is requested if the scheduler is enabled. |
| `Tasks.ListAddAfter` | include/sys/list.h:48-56 | The added node points back at the head and on at the old successor, and the head points at it. |
| `Tasks.System.StillLinked` | include/sys/list.h:48-56 | Linking a node in behind the head leaves the next pointers one circle through the ring with the node second. |
| `Tasks.System.Spawn` | kernel/sched.c:73-170 | A new process enters the ring behind its head exactly once; on a memory failure only the process number may advance. |
| `Tasks.System.Search` | kernel/sched.c:266-280 | The do-while walk along next pointers checks processes up to the first runnable one, once round the ring at most. |
| `Tasks.System.Swtch` | kernel/sched.c:224-230 | The chosen process becomes cur and active. |
| `Tasks.System.Schedule` | kernel/sched.c:233-287 | The pointer walk is the function Schedule on the abstract state, whose guarantees are the lemmas of SchedTheorems. |
| `Tasks.System.SysWait` | kernel/syscall.c:46-66 | cur joins the wait queue and sleeps, or -1 is returned and nothing changes, exactly when there is no completion or no room. |
| `Tasks.System.SysWake` | kernel/syscall.c:68-79 | Everyone in the queue becomes runnable and the queue ends empty. |
| `Tasks.System.SysSleep` | kernel/syscall.c:82-91 | cur sleeps until its wakeup time and a dispatch is requested. |
| `Tasks.System.SysYield` | kernel/syscall.c:93-97 | Only a dispatch is requested. |
| `Tasks.System.SysEventSet` | kernel/syscall.c:99-120 | The walk along next pointers from cur's successor is the function SysEventSet on the abstract state. |
| `Tasks.System.SysEventWait` | kernel/syscall.c:122-131 | cur adds the events to its mask and sleeps. |
| `Tasks.System.SysAlarm` | kernel/syscall.c:133-143 | cur's alarm gets handler, period, due time and kind; nothing else changes. |
| `Tasks.System.SysUttDone` | kernel/syscall.c:145-151 | cur's handler is marked done and a dispatch is requested. |
| `Tasks.System.UserPageFault` | kernel/mem.c:192-213 | cur is killed: no wakeup time, no events, a dispatch requested. |
| `SchedTheorems.DispatchesFirstEligible` | kernel/sched.c:233-287 | After schedule, cur is active and is the first eligible process in scan order; it is the idle task if and only if no process is eligible. |
| `SchedTheorems.ScanSpec` | kernel/sched.c:266-280 | Everyone before the chosen process was checked and found ineligible, the chosen one is eligible, and nobody after it was touched. |
| `SchedTheorems.ScanOrderExactly` | kernel/sched.c:246-264 | The search goes round the ring place by place from cur's successor to cur, or from the head if the idle task is cur. |
| `SchedTheorems.EligibleExactly` | kernel/sched.c:190-222 | When check_timers leaves a process on the run queue: a due alarm, a finished one that restores to running or to an expired sleep, running, or an expired sleep. |
| `SchedTheorems.SpawnSafe` | kernel/sched.c:155-170 | Spawning keeps the ring and ACTIVE invariants. |
| `SchedTheorems.StepSafe` | kernel/sched.c:224-287 | Every step of every kind keeps the ring a cycle of all processes, each once, and ACTIVE the privilege of cur, also across alarm excursions. |
| `SchedTheorems.InitSafe` | kernel/sched.c:300-316 | The initial state has both invariants. |
| `SchedTheorems.RunSafe` | kernel/sched.c:155-287 | Both invariants hold in every state of every run. |
| `SchedTheorems.DispatchApproaches` | kernel/sched.c:244-280 | A dispatch either runs a given ready process or leaves it ready and brings it strictly closer along the ring. |
| `SchedTheorems.TickReadyExactly` | kernel/timers.c:43-50 | A tick leaves a ready process ready if and only if it does not wrap the clock, or the process is running or a sleeper with wakeup time zero, or will be given back as one. |
| `SchedExamples.SleepMissed` | kernel/timers.c:43-50 | A run from the initial state at clock 2^32 - 4 in which a sleeper is ready for two ticks and not ready any more when the clock is back at zero. |
| `SchedTheorems.OtherStepsKeepReady` | kernel/syscall.c:46-151 | No step of anyone else, save a tick that `TickReadyExactly` tells apart, costs a process its eligibility; only a spawn can put one more before it. |
| `SchedTheorems.BoundedWait` | kernel/sched.c:233-287 | Fairness: a ready process that loses no tick in the sense of `TickReadyExactly` is dispatched by the time the dispatches reach the ring length plus the number of spawns meanwhile. |
| `SchedTheorems.SpawnedReady` | kernel/sched.c:88-90 | A new process holds its entry registers and is ready at once. |
| `SchedTheorems.DispatchRequested` | kernel/sched.c:172-176 | With the scheduler enabled, every tick and every call that gives up the processor makes a dispatch possible, and the dispatch withdraws the request. |
| `SchedSteps.StepEffect` | kernel/sched.c:190-287 | What any step does to any one process, exactly: the process a dispatch chooses is eligible, is checked and becomes active, any other is left alone or is checked and ineligible; the effect of every other step is a function of the process before it. |
| `SchedSteps.IdleEffect` | arch/irq.S:121-130 | What any step does to the idle task, exactly: a dispatch saves its registers if it is cur, makes it active if nothing else is eligible and puts it to sleep if it gives way; no other step touches it. |
| `SchedSteps.SharedEffect` | kernel/sched.c:172-176 | What any step does to ring, clock, process number, wait queues, and the enabled and reschedule flags, exactly: which steps ask for a dispatch, that the asking counts only once the scheduler is enabled, and that a dispatch withdraws it. |
| `SchedSteps.SpawnEffect` | kernel/sched.c:80-88 | A new process is on the run queue with its entry registers, no event mask, no alarm and no wakeup time. |
| `SchedSteps.NothingBeforeEnable` | kernel/sched.c:56-57 | Until the scheduler is enabled no run dispatches anything. |
| `SchedAlarms.Firing` | kernel/timers.c:63-89 | An alarm fires only in a dispatch that switches to its process and only when due; the process is then active on its way into the handler, its registers, state and wakeup time held, its fourteen other registers and everything else unchanged. |
| `SchedAlarms.Completion` | kernel/timers.c:52-61 | An excursion ends only in a dispatch and only after its handler is done; registers, state and wakeup time held come back, nothing else of the process changes, and it is switched to exactly if the state held lets it run. |
| `SchedAlarms.HeldThroughout` | kernel/sched.c:192-207 | From firing to completion no step of any process changes what is held, so no alarm of the process fires in between and overwrites it. |
| `SchedAlarms.ExcursionTransparent` | kernel/timers.c:52-89 | Whatever happens in between, in the run itself the process ends its excursion with the registers and wakeup time it had when the alarm fired, and in the state it had then; it is switched to if and only if that state was running or an expired sleep, whose wakeup time is then spent. |
| `SchedAlarms.ContextKept` | kernel/sched.c:233-287 | However long a process, or the idle task, is off the processor, its registers stay as saved unless its own alarm enters or leaves a handler. |
| `SchedAlarms.PlainDispatch` | kernel/sched.c:190-287 | A dispatch in which no excursion of a process begins or ends leaves it alone or switches to it; switched to, it was running or an expired sleeper, whose wakeup time is then spent, and nothing else of it changes. |
| `SchedAlarms.FirstFiring` | kernel/syscall.c:133-143 | The first firing after arming runs the handler that was passed, not before the due time; a one-shot alarm is then disarmed. |
| `SchedAlarms.OneShotOnce` | kernel/timers.c:81-82 | Between two firings, the first of a one-shot alarm, the process has armed it anew. |
| `SchedAlarms.PeriodicApart` | kernel/timers.c:83-84 | Consecutive firings without re-arming are at least a period apart when the next due time fits 32 bits. |
| `SchedAlarms.QuietPeriodExactly` | kernel/timers.c:84-84 | The due time set at a firing keeps the alarm quiet for a whole period if and only if the sum does not exceed 2^32. |
| `SchedAlarms.SleepsExactly` | kernel/syscall.c:86-87 | The wakeup time sys_sleep sets keeps a process without an alarm ineligible for its period if and only if it fits 32 bits; when the clock shows that time the process is eligible. |
| `SchedAlarms.StaysAsleep` | kernel/sched.c:190-222 | Over any stretch of a run in which it is neither switched to nor woken, sent an event, interrupted by its alarm or making a call, a sleeper stays asleep with its wakeup time. |
| `SchedAlarms.NotBeforeItsTime` | kernel/sched.c:210-217 | The first switch to a process after its sys_sleep does not come before its wakeup time, unless a wake, an event, its alarm or a call of its own intervenes. |
| `SchedAlarms.EventSetExactly` | kernel/syscall.c:99-120 | Every other process waiting for one of the events becomes runnable and stops waiting for those, everyone else is untouched, and a hit requests a dispatch. |
| `SchedAlarms.EventDelivered` | kernel/syscall.c:99-131 | An event waited for is delivered by the first set of it by another process, however late. |
| `SchedAlarms.WaitThenWake` | kernel/syscall.c:46-79 | A process that sys_wait accepts is made runnable by the first wake that follows, however late, and the queue is then empty. |
| `SchedAlarms.WaiterNotBefore` | kernel/syscall.c:46-66 | A waiter that nothing wakes or disturbs is not switched to before the wakeup time it had when it called sys_wait. |
| `SchedAlarms.WaitOverExactly` | kernel/sched.c:209-217 | That time does end the wait with nobody waking it: without an alarm, a waiter still queued is eligible if and only if the clock has reached the wakeup time that sys_wait did not reset. |
| `SchedExamples.WaitInVain` | kernel/syscall.c:46-66 | A run from the initial state in which a wakeup time left from a sleep cut short ends the next wait at once: the process is switched to while it is still in the queue. |
| `SchedAlarms.WakeDuringExcursion` | kernel/timers.c:52-61 | A wake or event that reaches a process during an excursion makes it runnable at once, and it is runnable or active after the excursion if and only if the state held at the firing was running or a sleep expired by then. |
| `SchedExamples.LostWakeup` | kernel/timers.c:52-61 | A run from the initial state that loses a wakeup: a process waits in a queue, its alarm fires, the wake of the queue comes while the handler runs, and after the completion the process is asleep with no wakeup time, in no queue, with no event awaited and no alarm armed. |
| `SchedExamples.ForgottenForever` | kernel/sched.c:190-222 | No run switches to such a process again before the clock reaches 2^32 - 1. |
| `SchedRevival.HopelessForever` | kernel/mem.c:207-212 | A killed process that waits for no event, is in no queue, has no alarm armed and no finished handler that gives back anything else stays so in every later state of every run. |
| `SchedRevival.KilledExactly` | kernel/sched.c:190-222 | Some run switches to a killed process again if and only if one of those things is missing: an alarm is armed, a finished handler gives it back alive or with an alarm, it waits for an event, or a queue holds it. |
| `SchedRevival.FaultIsFinalExactly` | kernel/mem.c:192-213 | After a page fault and the dispatch it asks for no run switches to the process again if and only if no queue holds it and either no alarm is armed, or the fault is inside a handler that is not done or would give back a killed process with no alarm. |
| `SchedExamples.RevivingRun` | kernel/sched.c:193-201 | From the initial state: spawn, tick, dispatch, alarm, fault, dispatch leaves the process killed and off the processor; a tick and a dispatch later it is current. |
| `SchedRevival.RunInWords` | kernel/timers.c:63-89 | In every state of a run from a 32-bit clock, clock and remembered times are 32-bit values, as the two results above ask. |
| `Bfifo.Fifo.constructor` | kernel/list.c:41-56 | A new FIFO is empty and all its slots are free. |
| `Bfifo.Fifo.Queue` | kernel/list.c:58-73 | Appends to the sequence of elements, or returns -1 and changes nothing exactly when full. |
| `Bfifo.Fifo.Dequeue` | kernel/list.c:75-92 | Removes and returns the oldest element, or returns nothing exactly when empty. |
| `Memory.Memory.Smalloc` | kernel/mem.c:68-85 | The bump pointer moves as the function Smalloc says, in 32-bit arithmetic. |
| `Memory.Memory.Malloc` | kernel/mem.c:87-114 | The loop is the function Malloc on the classes, or smalloc before initialization. |
| `Memory.Memory.Free` | kernel/mem.c:116-130 | The loop is the function Free on the classes, or nothing before initialization. |
| `Memory.Memory.MemInit` | kernel/mem.c:132-190 | Never takes a failure return; leaves every class full, in contiguous regions, and heap_cur at their end, for any start within the address space. |
| `Memory.LeftAfterInit` | kernel/mem.c:138-143 | Exactly SMALLOC_SIZE bytes are left, less what aligning the start took. |
| `Memory.Memory.StartsRuns` | kernel/mem.c:171-186 | The classes mem_init leaves are the start of the runs below. |
| `HeapTheorems.NeverUnderflowsExactly` | kernel/mem.c:68-85 | From an untouched heap or any aligned position, heap_cur stays within the heap in every run of smalloc if and only if the heap starts on a word boundary. |
| `HeapTheorems.UnalignedOverrun` | kernel/mem.c:73-81 | From every position of any other heap one request for exactly the bytes left runs past the end, and the bytes left are then miscounted as more than the heap. |
| `Memory.LaterRunsExactly` | kernel/mem.c:68-190 | From the position mem_init leaves, heap_cur stays within the heap in every later run of smalloc if and only if the kernel image ends on a word boundary; otherwise a request for what is left runs past the end. |
| `HeapTheorems.HeapIsExact` | kernel/mem.c:138-143 | The summed heap size covers descriptors, FIFOs and classes with SMALLOC_SIZE left over. |
| `HeapTheorems.HeapNumbers` | kernel/mem.c:132-190 | Nine classes of 128 chunks of 32 bytes doubled from class to class, back to back, each chunk at its address; nine descriptors with FIFOs of 548 bytes and a megabyte besides. |
| `HeapTheorems.MallocExact` | kernel/mem.c:97-113 | malloc hands out a chunk that was not live from the smallest class large enough and not empty, fails exactly if all classes large enough are empty, and loses nothing. |
| `HeapTheorems.FreeExact` | kernel/mem.c:125-129 | Freeing a live chunk keeps every chunk in one place if and only if it is not the first chunk of a class whose lower neighbour has room. |
| `HeapTheorems.StrayIsInTwoPlaces` | kernel/mem.c:125-129 | In that case the chunk ends in two FIFOs, its own and that of the class below. |
| `HeapTheorems.StrayReachable` | kernel/mem.c:87-130 | Two allocations after mem_init, of 32 and 64 bytes, such a chunk is live. |
| `HeapTheorems.HandedOutTwice` | kernel/mem.c:87-130 | After such a free the chunk is handed out twice: once the class below is drained, and again once its own class is drained, with no free in between. |
| `HeapTheorems.LiveDisjoint` | kernel/mem.c:171-186 | Live chunks never overlap, within or across classes. |
| `HeapTheorems.RunConserves` | kernel/mem.c:87-130 | Over every run from mem_init without such frees, each chunk is live or once in its own FIFO, never both. |
| `HeapTheorems.LeastFreeExactly` | kernel/mem.c:104-109 | In every state of every run least_free is 128 while the class has always been full, and 1 otherwise. |
| `HeapTheorems.LeastFreeRightExactly` | kernel/mem.c:104-109 | So it is the least number of remaining chunks, as its name says, if and only if that number is 128 or 1. |
| `HeapTheorems.LeastFreeWrong` | kernel/mem.c:104-109 | It is wrong after the very first allocation: 127 chunks are left and least_free is 1. |
| `Division.Align` | lib/math.c:44-48 | The first loop ends with the divisor at den0 * 2^k and the number below twice that, no bit lost; for a zero divisor with the marker bit shifted out, or 1 if the number is zero. |
| `Division.OrAdds` | lib/math.c:54-54 | The or-ed bit lies below every bit already set, so or-ing adds it. |
| `Division.Subtract` | lib/math.c:49-58 | The second loop ends with num0 = res * den0 + num and num < den0. |
| `Division.UDivMod` | lib/math.c:38-61 | Quotient and remainder for every word and every non-zero divisor; for a zero divisor the exact values the loops leave. |
| `Division.TruncatedExactly` | lib/math.c:78-125 | a = q * b + r with |r| < |b| and r zero or of the sign of a holds for exactly one pair, the truncated quotient and remainder. |
| `Division.DivSi3` | lib/math.c:78-102 | The truncated quotient for every non-zero divisor if and only if it is not -2^31 over -1, where the result is -2^31; for a zero divisor 1 or 0. |
| `Division.ModSi3` | lib/math.c:104-125 | The truncated remainder for every non-zero divisor, -2^31 by -1 included; the number itself for a zero divisor. |
| `Checksum.Ocksum16` | net/core/pkt.h:91-107 | The 32-bit sum of any number of words, wrapping, folded once. |
| `Checksum.SingleFoldExact` | net/core/pkt.h:101-106 | For buffers whose sum fits 32 bits, which holds up to 65537 words, the result is the verdict of folding until nothing is carried if and only if the sum is not 2^32 - 1, which no 65536 words reach. |
| `Checksum.FoldExactly` | net/core/pkt.h:101-106 | Over all 32-bit sums the single fold and the full one agree on the verdict if and only if the sum is not 2^32 - 1. |
| `Checksum.OneWordTooMany` | net/core/pkt.h:101-106 | Of all buffers of 65537 words exactly the one with all bits set is misjudged. |
| `Checksum.ByteOrderExactly` | net/core/pkt.h:91-107 | For words whose sums fit 32 bits in both byte orders, both orders get the same verdict (section 2 of RFC 1071) if and only if both sums are 2^32 - 1 or neither is. |
| `Checksum.ByteOrderFree` | net/core/pkt.h:91-107 | So byte order does not matter for up to 65537 words. |
| `Checksum.ByteOrderMatters` | net/core/pkt.h:91-107 | For 65538 words it can: a list that gets one verdict in one order and the other in the other. |
| `Checksum.ReverseTwice` | net/core/pkt.h:41-46 | en_ntohl undoes itself, and swaps the halves and the bytes of each. |
| `Ip.BuildHeader` | net/trans/ip.c:96-108 | The header fields in network order with the complemented fold in the checksum field. |
| `Ip.WireHeader` | net/trans/ip.c:96-106 | Octet by octet (section 3.1 of RFC 791): version 4 and five words, total length, 64 hops, protocol 1, source and destination, each high octet first, and zeros elsewhere. |
| `Ip.Datagram.Input` | net/trans/ip.c:144-209 | Accepts exactly the packets whose header fits, sums to 0xffff, is at least five words long and carries the packet length; converts the header only after the checksum; takes off padding of 46-byte packets. |
| `Ip.AcceptedExactly` | net/trans/ip.c:150-192 | A packet is accepted if and only if its header is at least five words and within the packet, passes the full check of RFC 1071, and its length field is the packet length, or below 46 in a packet of 46. |
| `Ip.JudgedExactly` | net/trans/ip.c:196-207 | An accepted packet goes to ICMP if and only if its protocol octet is 1, to UDP if and only if it is 17, and nowhere otherwise; one that is not accepted is dropped. |
| `Ip.HostOrder` | net/trans/ip.c:168-174 | The conversion leaves length, identification and addresses in host order, the checksum field zero and everything else as it came. |
| `Ip.ChecksumLost` | net/trans/ip.c:172-172 | The 32-bit macro leaves zero in the 16-bit checksum field, whatever the checksum. |
| `Ip.FilledPassesExactly` | net/trans/ip.c:107-108 | A header filled in this way sums to 0xffff if and only if adding the halves of its sum did not carry out of 16 bits. |
| `Ip.OutputThenInput` | net/trans/ip.c:96-192 | What en_ip_output builds en_ip_input hands to ICMP if that addition did not carry and the total length fits 16 bits, and drops otherwise. |
| `Ip.PaddedOutput` | net/trans/ip.c:176-192 | The same, for the carry alone, for a short packet padded to the Ethernet minimum, which gets its own length back. |
| `Ip.DroppedExample` | net/trans/ip.c:107-108 | 64 bytes from 192.168.250.87 to 192.168.0.1 are dropped: the header sum carries. |
| `Ip.AddressesBack` | net/trans/ip.c:104-106 | Addresses arrive in host order as they were given. |
| `PacketBuffer.Memcpy` | lib/string.c:43-50 | The exact result of the forward copy for every overlap: the source as it was, unless the destination starts inside the part still to be read, in which case its first bytes repeat; nothing else changes. |
| `PacketBuffer.Memmove` | lib/string.c:52-66 | Copies the source as it was for every overlap; nothing else changes. |
| `PacketBuffer.PktAlloc` | net/core/pkt.c:49-88 | An empty packet with a zeroed buffer of the padded size, or nothing exactly when memory is missing. |
| `PacketBuffer.Packet.Grow` | net/core/pkt.c:126-158 | Keeps the contents, rounds the buffer up to a multiple of four in 32 bits and zeroes the rest; on failure nothing changes. |
| `PacketBuffer.Packet.Reserve` | net/core/pkt.c:176-191 | Makes room without changing the contents, or fails and changes nothing. |
| `PacketBuffer.RoomExactly` | net/core/pkt.c:209-262 | The 32-bit size sum of pkt_add_head and pkt_add_tail, once granted, leaves room for n more bytes if and only if n is zero, or the sum can be rounded up within 32 bits, or it wraps and there was room already. |
| `PacketBuffer.Packet.AddHead` | net/core/pkt.c:209-228 | The contents become head followed by the old contents, or stay as they are on failure. |
| `PacketBuffer.Packet.AddTail` | net/core/pkt.c:246-262 | The contents become the old contents followed by the tail, or stay as they are on failure. |
| `PacketBuffer.Packet.Add` | net/core/pkt.c:282-308 | The contents become head, old contents, tail; on failure they stay, or have the head only, depending on which allocation failed. |
| `PacketBuffer.Packet.DelHead` | net/core/pkt.c:328-345 | Drops the first bytes, or fails exactly when there are not enough. |
| `PacketBuffer.HeadUndone` | net/core/pkt.c:209-345 | pkt_del_head undoes pkt_add_head. |
| `Decimal.FillDigits` | lib/stdio.c:121-127 | At most ten digits are buffered, lowest first; none for the lowest int. |
| `Decimal.PrintfD` | lib/stdio.c:100-134 | Puts out what `ShownExactly` describes and returns its length without the sign; the lowest int comes out as a lone sign. |
| `Decimal.ShownExactly` | lib/stdio.c:100-134 | For every int but the lowest the output is the one numeral that spells it: digits with no zero in front, behind a sign if and only if it is negative, and 0 for zero. |
| `Decimal.CountExactly` | lib/stdio.c:100-134 | The count returned is 1 for zero, 0 for the lowest int, and otherwise the number of decimal digits; a sign is put out if and only if the int is negative. |
| `Decimal.Atoi` | lib/string.c:123-148 | The value of the leading digits with its sign, wrapped to 32 bits, for every terminated string. |
| `Decimal.NumeralRead` | lib/string.c:123-148 | Every numeral, of any size and whatever follows it, is read as its number wrapped to a 32-bit int. |
| `Decimal.ValueOfDigits` | lib/stdio.c:121-131 | The digits of a number spell that number. |
| `Decimal.RoundTripExactly` | lib/string.c:123-148 | atoi reads back what printf_d puts out if and only if the int is not the lowest. |

## Left out

- Device registers, interrupt entry, context switching in assembly, MMU and startup code: a dispatch only saves and
  picks registers.
- Addressing, command and busy handling of the NAND chip, `nand_read`, `nand_erase` and status codes.
- The branch of `schedule` for a null `cur` (`kernel/sched.c:245-247`): `sched_init` sets `cur` before anything runs.
- Tasks.ListAddAfter: promises nothing about the old successor's `prev`, which the source does not update either; nothing modelled reads `prev`.
- `self`, names, stacks and modes of processes, and the frees on the failure path of `do_spawn`.
- Overflow of process numbers.
- `sys_reset`, `sys_kstat`, `sys_netstat` and the dispatch by number in `c_svc`.
- Waits on completions whose queue has been freed; a queue lives as long as the kernel.
- Tasks.System.SysWake: takes a known completion; the source dereferences whatever it is given.
- SchedTheorems.BoundedWait: excludes a tick to clock zero that finds the process with a wakeup time past zero, since it is then no longer eligible; all other ticks are included.
- SchedTheorems.OtherStepsKeepReady: the same.
- HeapTheorems.RunConserves: frees of anything but live chunks are outside the runs; the source does not check for them.
- The allocator's calls by other drivers before `mem_init` finishes, and locking.
- Memory.Memory.MemInit: requires that heap and kernel image fit below 2^32.
- PacketBuffer.Packet.AddHead: requires that a granted reservation leaves room (`RoomExactly`), without which the source writes outside the buffer, and a caller's buffer that is not the packet's own, which the source would read after freeing it.
- PacketBuffer.Packet.AddTail: the same.
- PacketBuffer.Packet.Add: the same, for each part it gets to.
- PacketBuffer.HeadUndone: the same.
- PacketBuffer.Packet.Grow: requires that the rounded size, if it wraps and memory is found, still holds the contents; otherwise the source copies past the new buffer.
- PacketBuffer.Packet.Reserve: the same.
- Checksum.Ocksum16: takes the length in words; for an odd length the source's loop does not end.
- Checksum.SingleFoldExact: speaks of sums below 2^32; longer buffers are summed with wrap-around, as `Ocksum16` says, and what that says about their full sum is left open.
- Ip.Datagram.Input: the buffer behind a packet is taken to hold at least twenty bytes, and what the ICMP and UDP handlers do is not modelled.
- Routes, the ARP cache, Ethernet framing, ICMP and UDP.
- `pkt_free`, `strcpy`, `strncpy`, `strcmp`, `gets`, hexadecimal output and format parsing: easy or without a usable contract.
- UART buffers, USB enumeration, the OHCI driver, console commands and LED tasks.
