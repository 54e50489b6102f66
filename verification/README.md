# Verified models of Linux driver exercises

A Dafny model of the drivers with the most behaviour in this repository: four key drivers that share one
concurrent protocol, a self-rearming LED timer, two memory-backed character devices, a semaphore-guarded
register with its module life cycle, and a touch screen interrupt. Check it with

    dafny verify dfyconfig.toml

## What is modelled

**Key drivers** (`Key*.dfy`). A pin edge latches an interrupt, the interrupt schedules a tasklet, the tasklet
re-arms the debounce timer, and the timer callback samples the pin, detects a change against `last_value` and
stores a one-slot `status`. Readers test `status` outside the spinlock and consume it inside; the callback then
wakes sleepers and signals SIGIO subscribers. `KeyIrq` is the machine of 13_irq; `KeyWait` is that of 14_blockio,
15_noblockio and 16_fasync, with features for what the files do not share and a step for each shared-memory
access. All interleavings are runs of these machines. The classes `KeyIrq.KeyDev` and `KeyDriver.Driver` hold
the drivers' data in place; their short methods are the code between two points where others can intervene,
each proved to take one step of the machine, and the whole callback and read of `Driver` are put together from
them and proved to perform the runs of `KeyCalls`. `KeyRefinement` proves the chain fasync, noblockio, blockio,
keyirq, so what is proved about `KeyIrq` (`KeyEvents`, `KeySettling`, `KeyTiming`) holds for all four
(`KeyProgress`). The history in the state (serial numbers, times, the log of writes to the slot, the reads that
returned) is never looked at by a step; `KeyReturns` ties it to what the reads handed out.

`KeyTrace` and `KeyWaitTrace` are the references for the two machines: each component told from the steps so far on
its own, and which steps these allow.

**LED timer** (`LedTimer.dfy`, and `LedTrace.dfy`, its reference in the same sense). Callback, clock and any number of ioctl commands interleave; reading jiffies, reading
the period and calling `mod_timer` are steps of their own, for the callback as for the commands.

**Character devices** (`GlobalMem*.dfy`, `CharDev.dfy`). C integer conversions are written out (`CInts.dfy`, C11
section 6.3.1.3). A run is a sequence of calls with their answers. The reference, `LastWritten` and `CursorAfter`,
is computed from the arguments of the calls in mathematical numbers, without the state or the driver's
arithmetic.

**Hello device** (`Hello*.dfy`). The register is copied byte by byte between `down_interruptible` and `up`, with
other processes in between; the sysfs text; the ladder of `hello_init` over any number of load cycles.

**Touch interrupt** (`Touch.dfy`). Five packed records a frame, folded into the slots of the Linux multi-touch
protocol, type B.

`Runs.dfy` holds what all machines share: runs, invariants, counting by potential, and forward simulation.

## What the code does not guarantee

Each of these is a concrete run or input, beside a statement of exactly when the guarantee does hold.

- Not every event reaches a reader (`KeyWitness.EventCanBeErased`): a later sample without change overwrites an
  unread event. `KeyEvents.EventFate` says when one does: exactly if the next write to the slot is a read.
- A blocking read can return KEY_NONE (`KeyReadWitness.BlockingReadCanReturnNone`): the test is made outside the
  lock. So can an interrupted one, its error being ignored (`KeyDriver.Driver.SleepUntilSignal`). `KeyRace.ReadRace`
  says exactly when.
- Two events, not one, can follow the last edge (`KeyWitness.TwoEventsAfterTheLastEdge`), if it falls between the
  callback's read of the pin and its store. `KeySettling.Convergence` says exactly when.
- Samples and events, unlike expiries, can number T/D + 2 in a window of T jiffies (`KeyWitness.SamplesCanCrowd`,
  `KeyWitness.EventsCanCrowd`): a late callback is followed at once by the next. `KeyTiming.RateBound` says exactly
  when.
- LED callbacks can come less than a period apart (`LedTimer.GapsCanShrink`): a command reads jiffies, a callback comes,
  and the command's `mod_timer` arms with the old value. `CallbacksSpaced` and `StaleExpiryShortensGap` say exactly
  when they cannot, and `NeverEarly` what holds all the same.
- The memory device takes a size modulo 2^32, so one huge transfer can move less than its parts
  (`GlobalMemChunks.HugeReadMovesNothing`, `HugeWriteMovesNothing`); `ChunkIndependence` and
  `ReadChunkIndependence` say exactly when not.
- It looks at the low 32 bits of an absolute offset (`GlobalMemRuns.SeekBeyondLands`, exactly: `SeekExact`).
- The 60-byte device sends an overflowing relative seek to 0, not to the end (`CharDev.SeekFarGoesBack`, exactly:
  `LseekLands`).
- Its read hands out the front of the buffer wherever the cursor is (`CharDev.ReadIgnoresCursor`, exactly:
  `ReadsAtCursor`).
- At a position beyond the end, which only pread and pwrite can bring, its transfers need not stay in the buffer
  (`CharDev.TransfersCanLeave`, exactly: `WriteStaysInside`, `ReadStaysInside`).

## Assumptions

- The pin reads 0 or 1 and starts at 1. Both edges raise the interrupt; an edge is latched, and edges that come
  before the interrupt is taken share it.
- A tasklet's scheduled flag is cleared before its body runs, and a tasklet does not run beside itself. Its body
  (reading jiffies and `mod_timer`) is one step, which is right where tasklet and timer are softirqs of the same CPU:
  the clock can move in between, but the timer cannot expire. With the timer queued on another CPU it could, and
  expiries would then come closer than the delay, as those of the LED timer can. A timer never fires early, its callback does not overlap itself, and
  jiffies is an unbounded number. `msecs_to_jiffies(15)` is a parameter, positive in the rate bounds; in the LED
  driver `msecs_to_jiffies` is any function.
- `wait_event` enqueues before it tests, and `wake_up` wakes all waiters. Runs of the key drivers start after
  `mykey_init` has returned 0.
- `unsigned long` and `size_t` have 64 bits, `int` 32; signed arithmetic and conversions wrap, as the kernel is
  built. Bytes of an int are little-endian.
- Results about sizes of 2^31 and more are about the driver functions called directly: the kernel cuts the count of
  read(2) and write(2) below 2^31 before it calls them.
- A signal takes a sleeping reader off the wait queue, and `wait_event_interruptible` tests once more before it
  gives up.
- The input core ignores a slot number it has no slot for; `simple_strtol` takes an optional minus sign and digits
  modulo 2^64; `device_destroy` removes the attribute file with the device.

## Model

| member | source | states |
|---|---|---|
| KeyRefinement.RefinesKeyIrq | openedv/linux/stm32mp157/16_fasync/fasync.c:160-245 | every run of blockio, noblockio and fasync, with any number of readers, pollers and subscribers interleaving at single memory accesses, is a run of the keyirq machine with the same pin, tasklet, timer, last_value and status and the same history |
| KeyRefinement.FasyncRefinesNoblockio | openedv/linux/stm32mp157/16_fasync/fasync.c:214-239 | every fasync run is a noblockio run once signals and subscriptions are forgotten |
| KeyRefinement.NoblockioRefinesBlockio | openedv/linux/stm32mp157/15_noblockio/noblockio.c:158-228 | every noblockio run is a blockio run once polls are forgotten and reads ending in -EAGAIN count as not started |
| KeyRefinement.ChainCommutes | openedv/linux/stm32mp157/14_blockio/blockio.c:157-209 | a fasync run, its noblockio image and the blockio image of this perform the same keyirq run, step by step, and end in the same keyirq state |
| KeyRefinement.MutualExclusion | openedv/linux/stm32mp157/16_fasync/fasync.c:172-182 | at most one of the callback and the readers is in a section guarded by the spinlock |
| KeyEvents.EventStream | openedv/linux/stm32mp157/13_irq/keyirq.c:182-201 | the events are the samples, prefixed by level 1, with adjacent repeats removed and that 1 dropped; they alternate starting with a press; their parity gives last_value; the slot holds KEY_NONE or the event of last_value |
| KeyEvents.EventConservation | openedv/linux/stm32mp157/13_irq/keyirq.c:155-201 | the serials produced are the disjoint union of delivered, erased and pending; each delivered at most once, in production order, with its own value; the counts add up |
| KeyEvents.EventFate | openedv/linux/stm32mp157/13_irq/keyirq.c:155-201 | exactly when an event is delivered: the next write to the slot is a successful read, and then to that reader; a later sample instead erases it; no later write leaves it pending |
| KeyEvents.FailedReadsLeaveNoTrace | openedv/linux/stm32mp157/13_irq/keyirq.c:160-173 | a read that returns -EFAULT consumes nothing: a run without its failed reads ends in the same state and history |
| KeyEvents.DedupAlternates | openedv/linux/stm32mp157/13_irq/keyirq.c:191-198 | neighbouring changes differ, and the last change is the last sample |
| KeyTrace.StateOfTrace | openedv/linux/stm32mp157/13_irq/keyirq.c:50-54 | pin, interrupt, tasklet, timer, callback, last_value, status and the times of expiries, samples and stores are each what the steps so far say of it alone: what set it last and has not been undone |
| KeyTrace.StepPossible | openedv/linux/stm32mp157/13_irq/keyirq.c:155-207 | a step is possible if and only if those steps allow it |
| KeySettling.Settling | openedv/linux/stm32mp157/13_irq/keyirq.c:50-54 | last_value is the pin level unless an interrupt is latched, the tasklet is scheduled or running, the timer is armed, or a callback has not stored its sample; a callback holding an outdated sample is always followed by another |
| KeySettling.Convergence | openedv/linux/stm32mp157/13_irq/keyirq.c:182-207 | after the last edge at most two events come, exactly the owed ones by the time the pipeline is empty, and two are owed exactly when the callback was caught between its read of the pin and its store with a level both new and outdated; then last_value is the pin |
| KeySettling.EventsOwed | openedv/linux/stm32mp157/13_irq/keyirq.c:182-201 | while the pin is still, events produced plus events owed is constant under every interleaving |
| KeySettling.BoundedDrain | openedv/linux/stm32mp157/13_irq/keyirq.c:182-207 | while the pin is still, no run takes more pipeline steps than a rank of the state, at most 20 |
| KeySettling.SchedulerProgress | openedv/linux/stm32mp157/13_irq/keyirq.c:182-207 | a pipeline that is not empty can always move, or waits only for the clock |
| KeySettling.Drain | openedv/linux/stm32mp157/13_irq/keyirq.c:182-207 | from every reachable state the pipeline can run empty, with last_value at the pin level and exactly the owed events produced |
| KeyTiming.Deadline | openedv/linux/stm32mp157/13_irq/keyirq.c:203-207 | an armed timer is due one delay after the tasklet last ran, and expiries are at least a delay apart whatever the edges do |
| KeyTiming.Debounce | openedv/linux/stm32mp157/13_irq/keyirq.c:182-207 | every expiry comes at least a delay after every tasklet run before it, so a burst of served edges less than a delay apart lets no callback begin before a delay has passed since the last |
| KeyTiming.RateBound | openedv/linux/stm32mp157/13_irq/keyirq.c:182-207 | a window of T jiffies holds at most T/D + 1 expiries; samples, and stores, stay within that too if and only if the window is not full of expiries beginning between some expiry and its sample, or store, and not ending so; events exceed it if and only if the stores do and all bring an event; none exceeds it by more than one |
| KeyTiming.SpacedCount | openedv/linux/stm32mp157/13_irq/keyirq.c:206 | times at least a gap apart: a window of length T holds at most T/gap + 1 |
| KeyTiming.BetweenCount | openedv/linux/stm32mp157/13_irq/keyirq.c:189-199 | the instants of the callbacks in a window are the expiries in it, plus the callback open at its beginning, less the one open at its end |
| KeyTiming.OneOpen | openedv/linux/stm32mp157/13_irq/keyirq.c:182-201 | at most one callback is open at any time |
| KeyReaders.NoLostWakeup | openedv/linux/stm32mp157/14_blockio/blockio.c:162 | a reader or poller asleep while the slot holds an event implies that the callback is between its store and its wake_up, at most two of its own steps from a state where nobody sleeps and the event is still there |
| KeyReaders.SignalsKeepUp | openedv/linux/stm32mp157/16_fasync/fasync.c:221-238 | stored results, hence events, exceed the calls of kill_fasync by the one in flight at most, and the same holds for the signals of each subscriber since it subscribed |
| KeyWaitTrace.StateOfTrace | openedv/linux/stm32mp157/16_fasync/fasync.c:160-245 | callback, lock, pollers, subscribers and all that keyirq has too are each what the steps so far say of it alone |
| KeyWaitTrace.StepPossible | openedv/linux/stm32mp157/16_fasync/fasync.c:160-245 | a step is possible if and only if those steps, and the places of the readers, allow it |
| KeyWaitTrace.Subscribers | openedv/linux/stm32mp157/16_fasync/fasync.c:198-203 | a process is on the async list if and only if the last it has done about it is to subscribe, and has had one signal for every kill_fasync since it was put there |
| KeyWaitTrace.PollAnswers | openedv/linux/stm32mp157/16_fasync/fasync.c:187-196 | a poll is ready only by a test that found an event and not ready only by running out of time; it sleeps after a test that found none, and a wake_up sends it to test again |
| KeyWaitTrace.ReaderMovesItself | openedv/linux/stm32mp157/16_fasync/fasync.c:160-185 | a reader moves by its own steps only, except that a wake_up sends it from its sleep to testing |
| KeyWaitTrace.InterruptTakesOff | openedv/linux/stm32mp157/16_fasync/fasync.c:170 | a signal takes a reader off the wait queue, about to test or asleep, and changes nothing else |
| KeyRace.ReadRace | openedv/linux/stm32mp157/15_noblockio/noblockio.c:163-180 | a successful read returns the slot as it was when the lock was taken; it is KEY_NONE if and only if the last write between its last test and its lock was a sample without change or another reader, or there was none and a signal had ended the wait |
| KeyReturns.ReturnsAreDeliveries | openedv/linux/stm32mp157/16_fasync/fasync.c:172-184 | the reads that returned an event and the deliveries correspond one to one, in order, but for a read that has cleared the slot and not returned yet: same reader, same value, and the event was the last write before the read's own |
| KeyReturns.ReadFootprint | openedv/linux/stm32mp157/16_fasync/fasync.c:172-184 | between its lock and its return a read that fails with -EFAULT sees no write to the slot, a successful one only its own |
| KeyProgress.Drain | openedv/linux/stm32mp157/16_fasync/fasync.c:160-245 | from every reachable state of any of the three drivers, readers holding the lock included, the pipeline can run empty; then last_value is the pin and exactly the owed events were produced |
| KeyProgress.BoundedDrain | openedv/linux/stm32mp157/16_fasync/fasync.c:214-245 | while the pin is still, at most 40 pipeline steps remain, whatever readers, pollers and subscribers do |
| KeyProgress.SchedulerBehindReader | openedv/linux/stm32mp157/16_fasync/fasync.c:172-182 | a callback that waits for the lock waits for a reader that can always move on to drop it |
| KeyProgress.Convergence | openedv/linux/stm32mp157/16_fasync/fasync.c:214-239 | the bound of two further events and the settled last_value, for the drivers with a wait queue |
| KeyProgress.Settling | openedv/linux/stm32mp157/16_fasync/fasync.c:55-59 | last_value lags behind the pin only while a stage before the store is busy |
| KeyProgress.DriverEvents | openedv/linux/stm32mp157/16_fasync/fasync.c:172-236 | stream and conservation of events with any number of readers; each event is delivered at most once, and deliveries are the reads that returned an event |
| KeyProgress.DriverFate | openedv/linux/stm32mp157/16_fasync/fasync.c:172-236 | the fate of each event, for the drivers with a wait queue |
| KeyProgress.DriverRate | openedv/linux/stm32mp157/16_fasync/fasync.c:214-245 | the rate limit with its exact conditions, for the drivers with a wait queue |
| KeyProgress.DriverDebounce | openedv/linux/stm32mp157/16_fasync/fasync.c:214-245 | debouncing, for the drivers with a wait queue |
| KeyWitness.EventCanBeErased | openedv/linux/stm32mp157/16_fasync/fasync.c:231-234 | a run in which an unread press is erased by a later sample without change |
| KeyWitness.TwoEventsAfterTheLastEdge | openedv/linux/stm32mp157/13_irq/keyirq.c:190-198 | a run that owes two events after its last edge |
| KeyWitness.SamplesCanCrowd | openedv/linux/stm32mp157/13_irq/keyirq.c:189-206 | a run with two samples in the same jiffy although the delay is one |
| KeyWitness.EventsCanCrowd | openedv/linux/stm32mp157/13_irq/keyirq.c:189-206 | a run that stores a press and a release in the same jiffy although the delay is one |
| KeyReadWitness.BlockingReadCanReturnNone | openedv/linux/stm32mp157/16_fasync/fasync.c:170-173 | for each driver with a wait queue, a run in which an uninterrupted blocking read returns KEY_NONE |
| KeyIrq.KeyDev.constructor | openedv/linux/stm32mp157/13_irq/keyirq.c:46-48 | the state before the first edge |
| KeyIrq.KeyDev.KeyInterruptHandler | openedv/linux/stm32mp157/13_irq/keyirq.c:50-54 | takes the interrupt step of the machine |
| KeyIrq.KeyDev.KeyIrqTasklet | openedv/linux/stm32mp157/13_irq/keyirq.c:203-207 | takes the tasklet step: the timer is due one delay from now, whether or not it was armed |
| KeyIrq.KeyDev.TimerReadGpio | openedv/linux/stm32mp157/13_irq/keyirq.c:190 | takes the sampling step |
| KeyIrq.KeyDev.TimerStore | openedv/linux/stm32mp157/13_irq/keyirq.c:191-198 | takes the store step: three-way comparison with last_value |
| KeyIrq.KeyDev.KeryRead | openedv/linux/stm32mp157/13_irq/keyirq.c:155-173 | takes the read step: hands out the status and clears it, or with a failed copy changes nothing |
| KeyDriver.Driver.constructor | openedv/linux/stm32mp157/16_fasync/fasync.c:51-53 | the state before the first edge, nobody waiting |
| KeyDriver.Driver.KeyInterruptHandler | openedv/linux/stm32mp157/16_fasync/fasync.c:55-59 | takes the interrupt step |
| KeyDriver.Driver.KeyIrqTasklet | openedv/linux/stm32mp157/16_fasync/fasync.c:241-245 | takes the tasklet step |
| KeyCalls.CallbackRun | openedv/linux/stm32mp157/16_fasync/fasync.c:214-239 | the steps of an undisturbed timer_function, from its entry to its end, lead to one stated state |
| KeyCalls.CallbackEffect | openedv/linux/stm32mp157/16_fasync/fasync.c:214-239 | that state holds the change since last_value; every reader and every poller that slept is about to test again and all others are where they were; each subscriber has one signal more |
| KeyCalls.ReadRun | openedv/linux/stm32mp157/16_fasync/fasync.c:160-185 | the steps of an undisturbed kery_read, blocking or not, faulting or not, until it returns or sleeps |
| KeyCalls.ReadOnRun | openedv/linux/stm32mp157/16_fasync/fasync.c:170-185 | the rest of a read that was woken, or that a signal took off the wait queue |
| KeyCalls.SleepSteps | openedv/linux/stm32mp157/16_fasync/fasync.c:160-239 | a blocking read on an empty slot, a callback, and the rest of the read, as one run |
| KeyCalls.SleepEffect | openedv/linux/stm32mp157/16_fasync/fasync.c:160-239 | in it a changed pin wakes the reader, which returns that change, a new event delivered to it with nothing erased; an unchanged pin sends it back to sleep |
| KeyCalls.PollSleepSteps | openedv/linux/stm32mp157/16_fasync/fasync.c:187-239 | a poll on an empty slot, a callback, and the second test of the poll, as one run |
| KeyCalls.PollSleepEffect | openedv/linux/stm32mp157/16_fasync/fasync.c:187-239 | in it the poll is ready if the pin changed, and back asleep if not |
| KeyDriver.Driver.TimerFunction | openedv/linux/stm32mp157/16_fasync/fasync.c:214-239 | the code of the callback performs that run and ends in that state |
| KeyDriver.Driver.KeryRead | openedv/linux/stm32mp157/16_fasync/fasync.c:160-185 | the code of a read, until it returns or sleeps, performs its run: an event is returned and the slot emptied; an empty slot gives -EAGAIN or sleep and changes nothing; a failed copy leaves the slot |
| KeyDriver.Driver.ReadOn | openedv/linux/stm32mp157/16_fasync/fasync.c:170-185 | the code of the rest of a read performs its run; a signalled one returns the slot whatever is in it |
| KeyDriver.Driver.SleepUntilKey | openedv/linux/stm32mp157/16_fasync/fasync.c:160-239 | reader and callback together: the sleeping read returns the press or release the callback found |
| KeyDriver.Driver.SleepUntilSignal | openedv/linux/stm32mp157/16_fasync/fasync.c:170-184 | a sleeping read that a signal ends returns KEY_NONE if nothing is stored meanwhile, and delivers nothing |
| KeyDriver.Driver.KeyPoll | openedv/linux/stm32mp157/16_fasync/fasync.c:187-196 | answers whether the slot is full, and otherwise waits for a wake_up |
| KeyDriver.Driver.PollUntilKey | openedv/linux/stm32mp157/16_fasync/fasync.c:187-239 | poll and callback together: not ready at first, ready after a callback that found the pin changed |
| KeyDriver.Driver.KeyFasync | openedv/linux/stm32mp157/16_fasync/fasync.c:198-203 | puts the process on the async list, or takes it off; all others keep their place and their signals |
| LedTimer.Alternation | openedv/linux/stm32mp157/12_timer/timer.c:154-160 | over the whole life of the module the callbacks write 0, 1, 0, 1, ..., whatever commands come in between |
| LedTimer.PaceFromCommand | openedv/linux/stm32mp157/12_timer/timer.c:102-160 | armed by a command that read jiffies at t0, after any run, and then left alone, the n-th callback after the mod_timer is entered no earlier than t0 + n * P, P being the period the command read, or if shorter the one in force; a callback just then between its own reads and its mod_timer bounds both too |
| LedTimer.NeverEarly | openedv/linux/stm32mp157/12_timer/timer.c:112-160 | in any run every callback is entered no earlier than one period after the jiffies value, period and value being those read by whoever armed the timer for it |
| LedTimer.CallbacksSpaced | openedv/linux/stm32mp157/12_timer/timer.c:112-160 | as long as no callback is entered while a command that has read jiffies, and is overtaken by the clock, stands before its mod_timer, each callback comes at least the period it was armed with after the one before, and callbacks n apart at least n times the shortest period read |
| LedTimer.StaleExpiryShortensGap | openedv/linux/stm32mp157/12_timer/timer.c:122-130 | that condition is needed: from every other entry of a callback, the period not being zero, the run can go on so that the next callback comes sooner than the period it was armed with |
| LedTimer.GapsCanShrink | openedv/linux/stm32mp157/12_timer/timer.c:122-130 | a run in which two OPEN_CMD with a period of two jiffies bring two callbacks less than two apart |
| LedTimer.ArmRun | openedv/linux/stm32mp157/12_timer/timer.c:123 | the reads of jiffies and of the period and the mod_timer, undisturbed, arm the timer one period from now |
| LedTimer.StaysStopped | openedv/linux/stm32mp157/12_timer/timer.c:119-145 | after CLOSE_CMD or release has completed no callback is entered and nothing written until an OPEN_CMD or SETPERIOD_CMD, begun before or after, comes to its mod_timer |
| LedTimer.TimerDev.TimerFunction | openedv/linux/stm32mp157/12_timer/timer.c:154-160 | toggles the LED, then reads and re-arms, as a run of the machine |
| LedTimer.TimerDev.TimerUnlockedIoctl | openedv/linux/stm32mp157/12_timer/timer.c:112-135 | each undisturbed command performs its steps: disarms, arms one period from now, or sets the period and arms; an unknown one does nothing |
| LedTimer.TimerDev.TimerOpen | openedv/linux/stm32mp157/12_timer/timer.c:102-110 | sets the period to one second and leaves timer, callback and LED as they are |
| LedTrace.StateOfTrace | openedv/linux/stm32mp157/12_timer/timer.c:102-160 | period, clock, timer, callback, commands on their way and the times of the callbacks are each what the steps so far say of it alone; only an expiry, CLOSE_CMD and release disarm the timer |
| LedTrace.StepPossible | openedv/linux/stm32mp157/12_timer/timer.c:102-160 | a step is possible if and only if those steps allow it |
| LedTrace.KeepsBlinking | openedv/linux/stm32mp157/12_timer/timer.c:122-159 | from a mod_timer on, until CLOSE_CMD or release, the timer is armed or its callback under way, whatever is opened, set and read in between |
| LedTrace.BlinksAgain | openedv/linux/stm32mp157/12_timer/timer.c:154-160 | from every such state the run can go on to the next toggle |
| LedTimer.TimerDev.LedRelease | openedv/linux/stm32mp157/12_timer/timer.c:137-145 | disarms the timer once no callback runs |
| GlobalMemRuns.DeviceRemembers | drivers/globalMem/global_mem.c:48-166 | over any run of open, llseek, reads and writes at the cursor or at any 64-bit position, failing copies and ioctl, each byte is the one that a write, or a failing one, last put there since the last clear, and each cursor is where the calls on its own descriptor have taken it, both computed from the arguments of the calls alone; cursors stay in 0..4096 |
| GlobalMemRuns.ReadsReturnLastWritten | drivers/globalMem/global_mem.c:67-96 | every successful read of any run, at its cursor or any other position, was answered with the bytes last written from there on, as many as asked for modulo 2^32 or as were left; -ENXIO exactly where the device has no byte |
| GlobalMemRuns.WritesAndSeeksAnswer | drivers/globalMem/global_mem.c:99-166 | every write and every seek of any run was answered with what it moved, or where it went |
| GlobalMemRuns.EveryCallAnswered | drivers/globalMem/global_mem.c:67-166 | whatever is asked of an open descriptor at whatever position, the driver has an answer, a read only one, and a copy can fail if and only if the device has a byte there |
| GlobalMemRuns.OpenAndIoctlAnswered | drivers/globalMem/global_mem.c:35-64 | a descriptor is opened once, and every ioctl is answered |
| GlobalMemRuns.SeekExact | drivers/globalMem/global_mem.c:128-166 | a relative seek succeeds if and only if the sum lies in the device, wrapping included; an absolute one looks at the low 32 bits, and goes where it was asked if and only if the offset is in 0..4096 |
| GlobalMemRuns.SeekBeyondLands | drivers/globalMem/global_mem.c:139-145 | an absolute seek to 2^32 + 5 goes to 5 |
| GlobalMemChunks.ChunkIndependence | drivers/globalMem/global_mem.c:99-125 | splitting a buffer into any successive writes below 4 GiB leaves the same memory and cursor as one write if and only if the size of the whole survives its conversion to unsigned int |
| GlobalMemChunks.ReadChunkIndependence | drivers/globalMem/global_mem.c:67-96 | the same for reads, with the bytes returned |
| GlobalMemChunks.HugeReadMovesNothing | drivers/globalMem/global_mem.c:71-79 | reads of 2^32 - 1 and 1 bytes return the whole device, one of 2^32 nothing |
| GlobalMemChunks.HugeWriteMovesNothing | drivers/globalMem/global_mem.c:103-111 | a buffer of 4 GiB cut in two at any inner byte fills the device, written at once it changes nothing |
| GlobalMemChunks.ReadsReachEnd | drivers/globalMem/global_mem.c:76-90 | reading until -ENXIO ends after at most one call per byte left and one more, having returned exactly the bytes from the cursor to the end |
| GlobalMemChunks.WritesReachEnd | drivers/globalMem/global_mem.c:108-119 | writing until -ENXIO fills exactly the bytes from the cursor to the end, in order, and leaves those before alone |
| GlobalMem.Transfer | drivers/globalMem/global_mem.c:70-79 | a transfer never leaves the device, for any 64-bit cursor and size |
| GlobalMem.Device.Ioctl | drivers/globalMem/global_mem.c:48-64 | MEM_CLEAR zeroes the memory, any other command is -EINVAL and changes nothing |
| GlobalMem.File.Read | drivers/globalMem/global_mem.c:67-96 | answer, bytes and cursor of a read, for any cursor and a copy that succeeds or fails |
| GlobalMem.File.Write | drivers/globalMem/global_mem.c:99-125 | answer, memory and cursor of a write; a failing copy may scribble on its window only |
| GlobalMem.File.Llseek | drivers/globalMem/global_mem.c:128-166 | the new cursor, or -EINVAL with the cursor left alone |
| CharDev.DeviceRemembers | drivers/chrdev/chardev.c:75-151 | over any run of opens, seeks with arbitrary offsets, reads and writes, complete or partial, at the cursor or at any other position, each byte is the one that a caller last wrote there, and each cursor is where the calls on its own descriptor have taken it, advancing by exactly the bytes moved, both computed from the arguments of the calls alone; cursors stay in 0..60 |
| CharDev.Answers | drivers/chrdev/chardev.c:75-151 | every read of any run, wherever its position, was answered with the bytes last written to the front of the buffer; every transfer with what was granted less what was missed, and every seek with where it went |
| CharDev.EveryCallAnswered | drivers/chrdev/chardev.c:75-151 | whatever is asked of an open descriptor, at whatever position the kernel passes, the driver has an answer if and only if the number of bytes missed is one the copy can miss |
| CharDev.NoConversionBites | drivers/chrdev/chardev.c:81-86 | in the device the int-versus-size_t comparison never sees a negative maxbytes and means what it says |
| CharDev.NoConversionBitesBelow | drivers/chrdev/chardev.c:81-86 | at any position and for any size below 2^31 the bytes to move are the smaller of the request and the room, the room taken modulo 2^32 and without effect from 2^31 on |
| CharDev.LseekLands | drivers/chrdev/chardev.c:126-151 | lseek always lands in the device; on the clamped sum if and only if the 64-bit sum does not overflow, on 0 if a relative one does |
| CharDev.SeekFarGoesBack | drivers/chrdev/chardev.c:136-147 | from 1, a relative seek by 2^63 - 1 goes to 0 |
| CharDev.ReadsAtCursor | drivers/chrdev/chardev.c:94-95 | a read returns the bytes at its cursor, whatever the buffer holds, if and only if the cursor is at the start or nothing is read |
| CharDev.ReadIgnoresCursor | drivers/chrdev/chardev.c:75-99 | a run that writes 7 and 8, seeks back to the 8 and reads the 7 |
| CharDev.WriteStaysInside | drivers/chrdev/chardev.c:101-120 | for any 64-bit position and any size, exactly when the bytes a write touches all lie in the buffer |
| CharDev.ReadStaysInside | drivers/chrdev/chardev.c:75-95 | the same for the bytes a read touches |
| CharDev.TransfersCanLeave | drivers/chrdev/chardev.c:94-120 | a position and a size for which they do not |
| CharDev.Device.InitDevice | drivers/chrdev/chardev.c:49-50 | the loop zeroes the whole buffer |
| CharDev.Device.DeviceRead | drivers/chrdev/chardev.c:75-99 | answer and new position of a read at any 64-bit position, of any size; the bytes come from the front of the buffer, and beyond its end from what lies behind |
| CharDev.File.Read | drivers/chrdev/chardev.c:75-99 | read(2): the cursor moves by exactly what was granted less what was missed |
| CharDev.Device.DeviceWrite | drivers/chrdev/chardev.c:101-124 | answer, new position and buffer of a write at any 64-bit position, of any size, with the bytes outside its window kept |
| CharDev.File.Write | drivers/chrdev/chardev.c:101-124 | write(2): likewise, the cursor being the position |
| CharDev.File.DeviceLseek | drivers/chrdev/chardev.c:126-151 | the new cursor |
| HelloRegister.SemaphoreBalance | drivers/helloDev/hello.c:58-142 | for any number of processes, count plus holders is one in every reachable state, on every exit path |
| HelloLinear.Linearizable | drivers/helloDev/hello.c:58-142 | in every run the register, though copied byte by byte, is an atomic int: each successful call takes effect once between its start and its return, with the word it returned or was given, each failing write likewise with the word it left, and real-time order is kept |
| HelloLinear.NoStrayAccess | drivers/helloDev/hello.c:63-104 | calls that are interrupted, refused or fail to copy out leave no access behind |
| HelloCalls.CallRun | drivers/helloDev/hello.c:58-142 | the steps of an undisturbed call: it is refused for its count or reads or replaces the register, and returns with the semaphore free and other processes where they were |
| HelloCalls.FaultEffect | drivers/helloDev/hello.c:72-102 | a copy that fails, wherever it has got to: a read leaves the register, a write leaves what it left |
| HelloCalls.OthersStay | drivers/helloDev/hello.c:58-142 | a process moves by its own steps only |
| HelloCalls.Returns | drivers/helloDev/hello.c:63-82 | a call is answered as interrupted if and only if it never held the semaphore |
| HelloCalls.FirstReadsAreZero | drivers/helloDev/hello.c:237 | what is read before anything has been written is four zero bytes |
| HelloText.TextRoundTrip | drivers/helloDev/hello.c:111-142 | for every 32-bit int, parsing what was printed gives the same int, whatever follows the newline |
| HelloText.TextAlone | drivers/helloDev/hello.c:131 | the digits read without the newline, or with anything but a digit behind them, give the same int |
| HelloText.PrintShape | drivers/helloDev/hello.c:123 | the text is a minus sign for a negative int only, digits with no leading zero, and the newline |
| HelloText.ShowThenStore | drivers/helloDev/hello.c:120-138 | storing what show printed leaves the four bytes of the register as they are |
| HelloText.IntOfWordOf | drivers/helloDev/hello.c:120-138 | an int stored in the four bytes of the register is read back as the same int |
| HelloText.PrintFitsPage | drivers/helloDev/hello.c:123 | the text has 2 to 12 characters, so snprintf never truncates it |
| HelloText.DigitsLength | drivers/helloDev/hello.c:123 | a positive number has k digits if and only if it lies in [10^(k-1), 10^k) |
| HelloRegister.HelloDev.DownInterruptible | drivers/helloDev/hello.c:63-65 | takes the semaphore, gives up on a signal, or waits |
| HelloRegister.HelloDev.CheckCount | drivers/helloDev/hello.c:67-96 | refuses a read of fewer than, and a write of other than, four bytes |
| HelloRegister.HelloDev.CopyOne | drivers/helloDev/hello.c:72-138 | one byte crosses between register and caller |
| HelloRegister.HelloDev.CopyFails | drivers/helloDev/hello.c:72-102 | -EFAULT; a failing write takes effect with whatever it leaves in the register |
| HelloRegister.HelloDev.UpAndReturn | drivers/helloDev/hello.c:79-82 | every path that took the semaphore gives it back |
| HelloInit.LadderBalance | drivers/helloDev/hello.c:250-322 | any ladder of distinct stages: success holds every stage, failure at any stage leaves what was held before, no release out of order |
| HelloInit.LadderEventsOf | drivers/helloDev/hello.c:250-322 | what the ladder of hello_init acquires and releases, in terms of the six answers |
| HelloInit.InsmodLoads | drivers/helloDev/hello.c:243-323 | a load leaves the module there if and only if its six calls succeed |
| HelloInit.CyclesBalance | drivers/helloDev/hello.c:243-348 | over any number of load and unload cycles with any failures nothing is acquired twice, released twice or released before what depends on it; a loaded module holds every stage, and hello_exit finds neither pointer null; an unloaded one holds nothing |
| HelloInit.ExitReleasesAll | drivers/helloDev/hello.c:326-348 | hello_exit releases every stage, in reverse order, if and only if neither pointer is null |
| HelloInit.ExitReleases | drivers/helloDev/hello.c:326-348 | what hello_exit releases for every combination of null pointers |
| HelloInit.LoadAndUnload | drivers/helloDev/hello.c:243-348 | hello_init, and hello_exit if it succeeded, perform a run of the cycles; the load succeeds if and only if all six calls do, acquires just the stages whose calls and all before them succeed, and releases the same again unless all do |
| HelloInit.LoadsAndUnloads | drivers/helloDev/hello.c:243-348 | load after load, whatever the kernel answers, as many succeed as have all six calls succeed, and the code ends with nothing held |
| HelloInit.HelloModule.HelloInit | drivers/helloDev/hello.c:243-323 | the goto ladder performs exactly the acquisitions up to the first failure and undoes them in reverse, and reports success if and only if all six calls succeed |
| HelloInit.HelloModule.HelloExit | drivers/helloDev/hello.c:326-348 | releases what does not stand behind a null pointer, in reverse order |
| Touch.ContactState | openedv/linux/stm32mp157/23_multitouch/ft5x06.c:101-141 | over any sequence of frames, failed reads included, a slot is active if and only if the last record on it, not reserved, was not UP, and its position is that of the last record on it that was not UP |
| Touch.RecordsLandWhereNamed | openedv/linux/stm32mp157/23_multitouch/ft5x06.c:118-135 | with ids below five the last record on a slot, and the last on it that is not UP, are the last that name it |
| Touch.ContactNamed | openedv/linux/stm32mp157/23_multitouch/ft5x06.c:101-141 | so after any frames with such ids a slot is active if and only if the last record naming it is not UP, at the position of the last naming it that is not UP |
| Touch.RecordsOfFrame | openedv/linux/stm32mp157/23_multitouch/ft5x06.c:115-125 | the records read out of a frame are the five packed into it, whatever its status byte and the two bytes behind each of the first four are |
| Touch.ContactSent | openedv/linux/stm32mp157/23_multitouch/ft5x06.c:101-141 | from what the controller sent to the contacts: of the records that arrived, the last that names a slot decides whether it is active, and the last that is not UP its position |
| Touch.DecodePack | openedv/linux/stm32mp157/23_multitouch/ft5x06.c:118-125 | decoding a packed (type, id, x, y) record returns it |
| Touch.PackDecode | openedv/linux/stm32mp157/23_multitouch/ft5x06.c:118-125 | packing what was decoded returns the bytes if and only if the two unused bits were clear |
| Touch.InterruptsReportAll | openedv/linux/stm32mp157/23_multitouch/ft5x06.c:109-136 | a run of interrupts is one fold over the records of the frames that were read |
| Touch.Edt.EdtFt5426TsIsr | openedv/linux/stm32mp157/23_multitouch/ft5x06.c:101-141 | the loop reports the five records in order, reading only the 29 bytes received; a failed transfer changes nothing |

## Left out

- What a failing copy into globalMem or the hello register leaves is arbitrary within its window.
- Operations of globalMem and chardev are atomic: the drivers take no lock, and transfers racing on different
  descriptors are not modelled.
- Memory around the buffer of chardev: what a read finds behind it is arbitrary, and what a write does outside it is
  not modelled. A copy of more than 2^63 bytes, which a negative count becomes, is taken to copy nothing.
- Tearing of the int `timeperiod` or of the key `status` within one access.
- The key tasklet on another CPU than its timer, as said under Assumptions.
- What release and the callback do to the LED pin while the timer is being stopped
  (`openedv/linux/stm32mp157/12_timer/timer.c:140-142`): only the callback's own values are.
- Set-up and removal of the key drivers, the LED driver and the touch driver; device tree, gpio, i2c and interrupt
  registration. Their results are inputs.
- `hello_proc_read` and `hello_proc_write`, which nothing registers.
- Input core beyond slots: tracking identifiers, pointer emulation, user-space event delivery.
- Scheduling fairness: draining is proved as a bound on steps and as the existence of a way to finish, not as a
  deadline in time.
- `openedv/linux/stm32mp157/20_input/keyinput.c`: the same pipeline without `last_value` and `status`.
- The register-level LED, beeper, bus and sensor drivers and the user-space programs: straight-line code.
