# Miosix kernel: model and proofs

This project models the parts of the Miosix real-time kernel whose correctness is hardest to see
by reading, and proves what they promise. `dafny verify dfyconfig.toml` checks all of it.

| Part | Files | What is modelled |
|---|---|---|
| Time conversion | Word, FixedPoint, OfflineOptimization, TimeConversion, RoundTrip, OnlineAdjustment, OneTick, ConstructedTimer, ConstructedRoundTrips, ConstructedInstances, SleepClamp | 32.32 fixed point conversion with its wrap-around, the offline bisection, the cached and iterated online adjustment over every history of calls, the clamp of absolute sleeps |
| Mutexes | Inheritance, Mutex, MutexProtocol, MutexRuns, PriorityHistory, MutexLevels | priority inheritance on objects with heaps, linked lists and back links, and the step machine of all threads, with condition variables; what a run has asked for and locked, against what the objects know |
| Condition variables | ConditionVariable, ConditionRuns | the list of waiting threads, and the order in which runs wake them, with either mutex |
| Timer | OsTimer, TimerAdapter, NanosecondTimer | the software extension of a hardware counter, with time passing between any two register accesses, in ticks and in nanoseconds |
| Event queue | EventQueueProtocol, FixedEventQueue | the ring buffer and its token passing between producers and consumers |
| Sleeping list | IntrusiveList, SleepingList | the circular list with sentinel, and the wakeup of threads on it |
| Paths | Paths, PathTheorems, LinkTheorems, PathResolution | the in-place path rewriter with mounts and symbolic links |
| Fast mutex | FastMutexProtocol, FastMutexLevels, FastMutex | the FIFO mutex, its recursion, and condition waits on it |
| Text | Unicode, UnicodeConversion | UTF-8 and UTF-16 conversion |
| Processes | ProcessTable, ProcessProtocol, ProcessOrder, ProcessRuns, Processes | creation, end and collection of processes |
| Process pool | ProcessPool | the aligned bitmap allocator |

Code that changes objects step by step is a class whose methods make the same changes; each is
proved against a function on values (`Block`, `Release`, `Pass`, `Put`, `Resolve`, ...), and what
the system promises is proved about that function, over all states, steps and runs. In the class
models a blocking call is split where the thread sleeps; the protocol modules put the pieces of all
threads together in every order, so a thread that is woken for another reason just goes on waiting. `sys` parameters, and ghost
parameters that name a free pid, a free address or a position in a list, carry the proofs only.
A `deadline` is a time up to which the hardware may run on during the call.

## What the proofs found

- ns2tick (`miosix/kernel/timeconversion.cpp:299-317`): the promise of less than two ticks
  (lines 148-153) fails in two ways. `HistoryIff` gives the exact condition for a call after every
  history. For tick zero the sum wraps when the cached offset is negative; `TimeZeroFails` is an
  instance at 16 MHz. And when the product of the tuned coefficients is above one, the drift since
  the last adjustment can reach a tick, which with the roundings makes two; `TwoTicksOff` is an
  instance at 72 MHz. Up to 333 MHz only cached calls, further than half the interval from the last
  adjustment, can fail in this way (`ConstructedFailsFar`), and when the product is not above one no
  call fails at all (`ConstructedOneTick`). The clamp of absolute sleeps
  (`miosix/kernel/kernel.cpp:397`) keeps sleeping threads away from the first failure on every timer
  from 10001 Hz on (`ConstructedSleepConverts`).
- The comment on the largest correction (`miosix/kernel/timeconversion.cpp:350-351`) says 1/400000;
  the code divides by 40000, which is the 25 ppm it names. The three passes that the comment in
  lines 273-274 reports as observed are proved to be the maximum.
- The chain walk of PKlock (`miosix/kernel/sync.cpp:84-95`) assigns without comparing, so it can
  lower a thread further down the chain. `BlockExactIff` says exactly when inheritance stays exact,
  and `InheritanceLowers` is a run in which it does not.
- The branch for the priority of the new owner (`miosix/kernel/sync.cpp:275-278`) never changes
  anything: the new owner was a highest waiter.
- A final ".." out of a mount point inside another mount leads to the root file system
  (`miosix/filesystem/file_access.cpp:470-496`): `LongestIff`, `NestedMountEscapes`.
- The limit on symbolic links is 2 (`miosix/filesystem/file_access.cpp:326`), but it is compared after
  counting (line 429), so a resolution follows one link and fails at the second: `OneLinkNormalizes`,
  `SecondLink`.
- `int res=...<0` (`miosix/filesystem/file_access.cpp:419`, `433`) yields 1, so a component that
  cannot be looked at passes for one that is neither a link nor a file, and an unreadable link for
  an ordinary component. The model does the same.
- The end of a process that is waited for in particular does not wake those who wait for any child
  (`miosix/kernel/process.cpp:262-266`), and neither does handing its zombies to the kernel:
  `SleepersOkIff` says exactly when somebody is left asleep for nothing.
- Nor does giving up a creation (`miosix/kernel/process.cpp:112-118`), and it deletes the process
  even if somebody waits for it already: `SleepersOkAfterUndoIff` and `UndoGoodIff` say when, and
  `StepSleepersIff` that these two steps are the only ones.
- waitpid for any child gets the one that ended first (`OldestFirst`), but the kernel's zombies need not
  be in that order, because those that it takes over are put in front (`miosix/kernel/process.cpp:257`):
  `KernelOrderIff`, `KernelTakesLater`.
- The comments in `miosix/kernel/pthread_private.h:66` and `125` speak of a LIFO policy; the code is FIFO.
- The pool's bitmap has whole words only (`miosix/kernel/process_pool.cpp:105-107`), so a pool has a bit
  for every kilobyte if and only if it is a multiple of 32 kilobytes (`BitmapCoversIff`), where
  `miosix/kernel/process_pool.h:122` asks for a multiple of a block. Its blocks are aligned only if it
  begins at a multiple of a block (`StartAlignedIff`). And its search (`miosix/kernel/process_pool.cpp:69`)
  may begin at the end of the bitmap, so that a full pool hardly ever reports that it is full
  (`FullPoolLeaves`).

## Model

| member | source | states |
|---|---|---|
| FixedPoint.Mul64x32d32 | miosix/kernel/timeconversion.cpp:94-113 | Four 32 bit products, one of them truncated, added with wrap-around give exactly the 64 bit number times the 32.32 number, rounded down, modulo two to the 64, for all inputs. |
| FixedPoint.ConvertExact | miosix/kernel/timeconversion.cpp:103-113 | A conversion is right if and only if the scaled value fits 64 bits; an overflow is never right by accident. |
| OfflineOptimization.ConvertBy | miosix/kernel/timeconversion.h:188-192 | Converting is multiplying by the factor. |
| OfflineOptimization.ComputeRoundTripError | miosix/kernel/timeconversion.cpp:432-439 | The ticks that a round trip with a corrected coefficient loses, with the wrap-around of each conversion. |
| OfflineOptimization.LossIsTrue | miosix/kernel/timeconversion.cpp:432-439 | For every correction in the range the loss is the one of unbounded integers: nothing wraps. |
| OfflineOptimization.LossDecreases | miosix/kernel/timeconversion.cpp:355-379 | The loss never grows with the correction, on which the search relies. |
| OfflineOptimization.Bisect | miosix/kernel/timeconversion.cpp:355-380 | The bisection ends for all inputs, and finds a correction whose loss is least, in absolute value, over the whole range, whether the ends differ in sign or not. |
| OfflineOptimization.ChooseInterval | miosix/kernel/timeconversion.cpp:409-417 | The interval search, as a function of the two coefficients. |
| OfflineOptimization.SearchFinds | miosix/kernel/timeconversion.cpp:390-417 | The interval is half of one over which a round trip loses less than two ticks, or the shortest that the nine halvings allow, and that only if twice as much loses two. |
| TimeConversions.TimeConversion.constructor | miosix/kernel/timeconversion.cpp:326-430 | Given the first approximations, the coefficients are those the bisection tunes and the interval the one the search chooses; the cache starts at zero. |
| TimeConversions.TimeConversion.Tick2ns | miosix/kernel/timeconversion.h:124-129 | Ticks to nanoseconds is one conversion. |
| TimeConversions.TimeConversion.AdjustOnce | miosix/kernel/timeconversion.cpp:309-311 | The body of the loop measures a round trip around the present guess. |
| TimeConversions.TimeConversion.Adjust | miosix/kernel/timeconversion.cpp:303-312 | The loop with its limit of five passes is the specified iteration. |
| TimeConversions.TimeConversion.Ns2tick | miosix/kernel/timeconversion.cpp:299-317 | The cached and the readjusting path together: the new cache and the ticks returned, as functions of the old cache. |
| RoundTripArithmetic.OffsetConversion | miosix/kernel/timeconversion.cpp:317-317 | A conversion with an offset measured elsewhere is off by at most c ticks when the skew over one interval is within c ticks. |
| RoundTripArithmetic.RoundTripError | miosix/kernel/timeconversion.cpp:309-310 | A measured offset is the skew of the coefficients over the time, up to the two roundings. |
| RoundTripArithmetic.Contraction | miosix/kernel/timeconversion.cpp:303-312 | Each pass maps a distance d from the target to at most abs(1 - nk) abs(d) + n + 1. |
| OnlineAdjustment.PassMeasures | miosix/kernel/timeconversion.cpp:309-310 | One pass measures the round trip around the guess, and nothing in it wraps. |
| OnlineAdjustment.PassContracts | miosix/kernel/timeconversion.cpp:303-312 | The contraction with the numbers of timers between 10 kHz and 1 GHz. |
| OnlineAdjustment.ReadjustConverges | miosix/kernel/timeconversion.cpp:268-312 | The loop leaves by its break within three passes, so the hard limit of five is never reached, and leaves a true measurement nearer than half the interval. |
| OnlineAdjustment.CallKeepsMeasured | miosix/kernel/timeconversion.cpp:299-317 | Every call, cached or not, leaves a cache that is a true round trip measurement within one interval of the time converted. |
| OnlineAdjustment.AdjustsIff | miosix/kernel/timeconversion.cpp:299-312 | A time within one interval of the last adjustment changes nothing, and any other one moves the adjustment to nearer than half the interval. |
| OnlineAdjustment.HistoryKeepsMeasured | miosix/kernel/timeconversion.cpp:299-317 | So does every history of calls from the initial cache. |
| OnlineAdjustment.RoundTripWithin | miosix/kernel/timeconversion.cpp:148-153 | A tick count converted to nanoseconds comes back within c ticks exactly when the offset in use does not take the time below zero. |
| OnlineAdjustment.RoundTripAfterHistory | miosix/kernel/timeconversion.cpp:148-153 | The same after any history of calls. |
| OnlineAdjustment.WrappedTicks | miosix/kernel/timeconversion.cpp:299-317 | When the offset takes the time below zero, the sum wraps and the error is more than c ticks. |
| OnlineAdjustment.FastestTimerIsExact | miosix/kernel/timeconversion.cpp:317-317 | A coefficient with an integer part, at 1 GHz, leaves no offset at all under a drift of one tick. |
| OnlineAdjustment.OnlyZeroWraps | miosix/kernel/timeconversion.cpp:317-317 | With a drift within one tick, tick zero is the only one that an offset takes below zero. |
| OnlineAdjustment.ZeroOffset | miosix/kernel/timeconversion.cpp:299-312 | A readjustment for time zero ends with offset zero. |
| OnlineAdjustment.RoundTripOneTick | miosix/kernel/timeconversion.cpp:186-191 | When the drift over the interval is within one tick: after every history the round trip is within one tick if and only if the tick is not zero, or the call readjusts, or the cached offset is not negative. |
| OneTick.CallIff | miosix/kernel/timeconversion.cpp:299-317 | Exactly when a call is within one tick, less than two, for every measured cache: its offset does not take the time below zero, and the drift since the last adjustment and the roundings together stay within bounds that are known before the call. |
| OneTick.HistoryIff | miosix/kernel/timeconversion.cpp:148-153 | The same after every history of calls. |
| OneTick.BelowZeroFar | miosix/kernel/timeconversion.cpp:299-317 | A time that the offset takes below zero comes back more than a tick away, whatever the drift. |
| OneTick.DriftDecides | miosix/kernel/timeconversion.cpp:317-317 | A drift of a tick less a nanosecond is always within the bounds, and one of two ticks and a nanosecond never is. |
| OneTick.SafeCall | miosix/kernel/timeconversion.cpp:299-317 | So a call with a safe drift is within one tick for every time but zero, and for zero exactly when it readjusts or finds an offset that is not negative. |
| OneTick.SafeAfterHistory | miosix/kernel/timeconversion.cpp:186-191 | The same after every history of calls. |
| OneTick.ReadjustedOneTick | miosix/kernel/timeconversion.cpp:303-317 | When half the interval is a safe distance, every call that readjusts is within one tick, time zero included. |
| OneTick.ReadjustedAfterHistory | miosix/kernel/timeconversion.cpp:186-191 | The same after every history of calls. |
| ConstructedTimer.TunedWithinDesign | miosix/kernel/timeconversion.cpp:355-381 | From any first approximations within the float error, the bisection leaves coefficients inverse to each other within 61 parts per million. |
| ConstructedTimer.SmallLossBoundsDrift | miosix/kernel/timeconversion.cpp:394-417 | A loss below two ticks over an interval bounds the drift over half of it by two ticks up to 666 MHz and three up to 1 GHz. |
| ConstructedTimer.ConstructedMeetsDesign | miosix/kernel/timeconversion.cpp:326-430 | What the constructor computes meets the hypotheses of the online adjustment. |
| ConstructedTimer.OffsetNotNegative | miosix/kernel/timeconversion.cpp:309-310 | If the product of the coefficients is not above one, no measured offset is negative. |
| ConstructedTimer.SmallLossNegativeSkew | miosix/kernel/timeconversion.cpp:394-417 | Then a loss below two bounds the drift over half the interval by one tick, below 499 MHz. |
| ConstructedTimer.SmallLossPositiveSkew | miosix/kernel/timeconversion.cpp:394-417 | Otherwise the drift over half the interval is one tick and a nanosecond at most. |
| ConstructedRoundTrips.TunedHalfStep | miosix/kernel/timeconversion.cpp:355-381 | When its range reaches coefficients whose product is one, the bisection leaves half a step of them, and the rounding. |
| ConstructedRoundTrips.IntervalNotShortest | miosix/kernel/timeconversion.cpp:409-417 | Then the search for the interval ends before the shortest one, up to 900 MHz. |
| ConstructedRoundTrips.ConstructedRoundTrip | miosix/kernel/timeconversion.cpp:186-191 | From constructor to conversion, after every history, up to 666 MHz: within two ticks if and only if the offset in use does not take the time below zero. |
| ConstructedRoundTrips.ConstructedOneTick | miosix/kernel/timeconversion.cpp:186-191 | Up to 499 MHz: if the product of the tuned coefficients is not above one, every tick comes back within one tick after every history, tick zero included. |
| ConstructedRoundTrips.ConstructedHalfSafe | miosix/kernel/timeconversion.cpp:394-417 | Up to 333 MHz half the interval is a safe distance, whatever the product. |
| ConstructedRoundTrips.ConstructedReadjusted | miosix/kernel/timeconversion.cpp:186-191 | So up to 333 MHz every call that readjusts is within one tick, after every history. |
| ConstructedRoundTrips.ConstructedFailsFar | miosix/kernel/timeconversion.cpp:186-191 | And a call that is not, but for tick zero, is cached, further than half the interval from the last adjustment, on a timer whose product is above one and whose interval is too long for it. |
| ConstructedInstances.TunedIs | miosix/kernel/timeconversion.cpp:355-381 | Where the loss changes sign and is smaller than on either side, the bisection can find that one correction and no other. |
| ConstructedInstances.Constructed16 | miosix/kernel/timeconversion.cpp:326-430 | What the constructor computes for 16 MHz: these coefficients and this interval, and no others. |
| ConstructedInstances.TimeZeroFails | miosix/kernel/timeconversion.cpp:282-290 | On that timer two conversions leave an offset of -27 ns, and tick zero then comes back as 295147906313224191. |
| ConstructedInstances.Constructed72 | miosix/kernel/timeconversion.cpp:326-430 | The same for 72 MHz, where the product of the coefficients is above one. |
| ConstructedInstances.TwoTicksOff | miosix/kernel/timeconversion.cpp:148-153 | There, after one conversion, tick 1366280379910 comes back as 1366280379912: two ticks off, within the cached interval. |
| SleepClamp.Clamped | miosix/kernel/kernel.cpp:397-397 | The later of the time asked for and 100 microseconds after boot. |
| SleepClamp.OffsetBelow | miosix/kernel/kernel.cpp:393-397 | How far below zero a measured offset can be: the skew over the time and one interval. |
| SleepClamp.ClampedSleepConverts | miosix/kernel/kernel.cpp:393-397 | A sleep clamped to 100000 ns is never taken below zero by the conversion, after any history, when the skew over one interval stays below 99993 ns, or makes offsets positive. |
| SleepClamp.ConstructedSleepConverts | miosix/kernel/kernel.cpp:393-397 | So the clamp is enough for every timer that the constructor sets up from 10001 Hz on. |
| Mutexes.Thread.SetPriority | miosix/kernel/kernel.cpp:440-470 | The whole new state: without mutexes the thread runs at the valid priority it asks for; with some that priority is saved, and it runs at the maximum of it and of all waiters on them; early returns change nothing. |
| Mutexes.PushHeap | miosix/kernel/sync.cpp:77-79 | push_back and push_heap keep a heap and add one element. |
| Mutexes.MakeHeap | miosix/kernel/sync.cpp:91-92 | make_heap orders the same elements into a heap. |
| Mutexes.PopHeap | miosix/kernel/sync.cpp:266-267 | pop_heap and pop_back take the front off and leave a heap of the rest. |
| Mutexes.Mutex.InheritAlong | miosix/kernel/sync.cpp:86-94 | The walk ends on every graph without cycles and gives exactly the threads of the chain the priority, repairing each heap on the way. |
| Mutexes.Mutex.BlockOn | miosix/kernel/sync.cpp:76-95 | Queueing a thread: heap, back link and inheritance, as one step on the state, keeping all links valid. |
| Mutexes.Mutex.PKlock | miosix/kernel/sync.cpp:49-115 | Taking a free mutex, locking again, blocking and deadlock: result and whole new state for each. |
| Mutexes.Mutex.PKlockToDepth | miosix/kernel/sync.cpp:117-171 | The same for locking to a given depth. |
| Mutexes.Mutex.FinishLockToDepth | miosix/kernel/sync.cpp:184-184 | A thread that waited ends as the owner at the depth asked for. |
| Mutexes.Mutex.PKtryLock | miosix/kernel/sync.cpp:187-207 | Takes the mutex exactly if it is free or recursive and owned by the caller; otherwise nothing changes. |
| Mutexes.Mutex.Unlist | miosix/kernel/sync.cpp:220-237 | Unlinking from the owner's list removes this mutex and no other; the error for a mutex that is not on the list cannot occur. |
| Mutexes.Mutex.SettlePriority | miosix/kernel/sync.cpp:239-258 | The releaser goes back to its saved priority, or to the maximum of it and all waiters on the mutexes it still holds. |
| Mutexes.Mutex.InheritFromRest | miosix/kernel/sync.cpp:275-278 | When nobody left in the heap outranks the new owner, which every hand-off guarantees, this branch changes nothing. |
| Mutexes.Mutex.PassOn | miosix/kernel/sync.cpp:261-278 | The first of the heap becomes the owner, off the heap and with its list and saved priority in order. |
| Mutexes.Mutex.Release | miosix/kernel/sync.cpp:220-285 | Releasing at any depth is the specified release, to a waiter of highest priority. |
| Mutexes.Mutex.PKunlock | miosix/kernel/sync.cpp:209-285 | Not the owner, locked again, and released: whole new state; after its last mutex the caller is back at its saved priority, and it is told to yield exactly if outranked by the new owner. |
| Mutexes.Mutex.PKunlockAllDepthLevels | miosix/kernel/sync.cpp:287-360 | Releases at any depth, with the same effect on the priority, and returns the depth to restore. |
| Mutexes.FrontIsMax | miosix/kernel/sync.cpp:252-254 | The front of a heap is a waiter of highest priority, under the current priorities. |
| Inheritance.ChainIsLine | miosix/kernel/sync.cpp:86-94 | The threads that the walk meets form a line: no two of them wait for the same one. |
| Inheritance.NoInversion | miosix/kernel/sync.cpp:81-95 | With exact inheritance no thread waits, directly or through others, for one of lower priority. |
| Inheritance.BlockInv | miosix/kernel/sync.cpp:76-95 | Queueing keeps owners, lists, queues and back links in agreement, and the wait-for graph free of cycles. |
| Inheritance.WaitClosesCycleIff | miosix/kernel/sync.cpp:76-95 | Waiting for a mutex closes a cycle if and only if the thread is in the chain of its owner. |
| Inheritance.LoweredNotExact | miosix/kernel/sync.cpp:84-95 | The walk assigns without comparing: a thread further down that was above the requester ends too low. |
| Inheritance.BlockExactIff | miosix/kernel/sync.cpp:81-95 | Every holder's priority stays the maximum of its saved priority and its waiters' if and only if the owner needs no raise, or nobody on the chain is above the requester. |
| Inheritance.TakeExact | miosix/kernel/sync.cpp:52-62 | Taking a free mutex keeps inheritance exact. |
| Inheritance.FreeExact | miosix/kernel/sync.cpp:239-258 | Releasing without waiters keeps it exact. |
| Inheritance.HandOffExact | miosix/kernel/sync.cpp:239-279 | Handing over to a highest waiter keeps it exact for everybody, though the receiver's priority is not touched. |
| Inheritance.ReleaseInv | miosix/kernel/sync.cpp:220-285 | Either kind of release keeps all links valid, and inheritance exact if it was. |
| Inheritance.ReprioritizeExact | miosix/kernel/kernel.cpp:440-470 | Changing one's own priority keeps inheritance exact. |
| MutexProtocol.StepGood | miosix/kernel/sync.cpp:49-466 | Every step of every thread (lock, tryLock, unlock, wait, signal, broadcast, setPriority) keeps owners, lists, queues, conditions and activities in agreement. |
| MutexProtocol.InitialGood | miosix/kernel/sync.cpp:44-47 | Fresh mutexes are a good state with exact inheritance. |
| MutexProtocol.After | miosix/kernel/sync.cpp:49-466 | So every reachable state is good. |
| MutexProtocol.RelockIff | miosix/kernel/sync.cpp:389-394 | A thread back from a condition can take its mutex again, or wait for it, if and only if that closes no cycle of waits. |
| MutexProtocol.StepExactIff | miosix/kernel/sync.cpp:81-95 | A step keeps inheritance exact if and only if it does not block below a higher thread further down the chain. |
| MutexProtocol.RunExact | miosix/kernel/sync.cpp:81-95 | So inheritance is exact along every run whose blocking steps meet that condition. |
| MutexProtocol.NobodyInverted | miosix/kernel/sync.cpp:81-95 | And in every state of such a run nobody waits for a thread of lower priority. |
| MutexProtocol.RecursiveForever | miosix/kernel/sync.cpp:44-47 | A mutex is recursive, or not, for ever. |
| MutexProtocol.AwayMeanwhile | miosix/kernel/sync.cpp:389-394 | What others do while a thread waits on a condition does not change what it comes back to. |
| MutexProtocol.ConditionWaitRestores | miosix/kernel/sync.cpp:368-395 | A condition wait returns owning the mutex at the depth it had before, in every interleaving in which no wait closes a cycle. |
| PriorityHistory.ChainHolds | miosix/kernel/sync.cpp:81-95 | The walk gives priority only to threads that hold a mutex. |
| PriorityHistory.StepOwns | miosix/kernel/sync.cpp:239-258 | What a thread goes back to is changed by its own requests only. |
| PriorityHistory.RunGivesBack | miosix/kernel/sync.cpp:239-258 | In every run a thread that holds no mutex runs at the priority it asked for last, or began with, whatever it inherited before; one that holds a mutex has that priority saved. |
| PriorityHistory.PriorityIsAskedOrInherited | miosix/kernel/kernel.cpp:440-470 | So along every run whose waits meet the condition for exact inheritance each thread runs at the maximum of what it asked for last and of the priorities of those who wait for its mutexes. |
| ConditionRuns.BroadcastWakesAll | miosix/kernel/sync.cpp:444-466 | A broadcast wakes everybody who waits on the condition, each on the way to its own mutex and depth, and nobody else. |
| ConditionRuns.SignalWakesFirst | miosix/kernel/sync.cpp:423-442 | After every run a signal wakes exactly the thread that has waited longest, on the way to its own mutex and depth. |
| ConditionRuns.WokenInOrder | miosix/kernel/sync.cpp:368-466 | In every run those who have been woken are the first of those who began to wait, one for each signal that found somebody and all for a broadcast, and exactly the others sleep. |
| ConditionRuns.FastBroadcastWakesAll | miosix/kernel/sync.cpp:444-466 | With fast mutexes too a broadcast wakes everybody who waits, each on the way to its depth, and nobody else. |
| ConditionRuns.FastSignalWakesFirst | miosix/kernel/sync.cpp:423-442 | And a signal wakes exactly the thread that has waited longest. |
| ConditionRuns.FastWokenInOrder | miosix/kernel/sync.cpp:397-466 | And those who have been woken are the first of those who began to wait, and exactly the others sleep. |
| ConditionVariables.ConditionVariable.StartWait | miosix/kernel/sync.cpp:372-389 | The record goes to the end of the list, and its thread is marked as waiting. |
| ConditionVariables.ConditionVariable.Signal | miosix/kernel/sync.cpp:423-442 | The first of the list is taken off and may go on; true exactly if it outranks the caller; nothing happens on an empty list. |
| ConditionVariables.ConditionVariable.Broadcast | miosix/kernel/sync.cpp:444-466 | The loop empties the list, everybody on it may go on, and the result is true exactly if one of them outranks the caller. |
| MutexLevels.UnlockUndoesRelock | miosix/kernel/sync.cpp:67-73 | Locking again and unlocking once changes nothing. |
| MutexLevels.OwnsWhileLocked | miosix/kernel/sync.cpp:49-360 | In every run a running thread owns a mutex exactly if it has locked it more often than unlocked, and the depth of a recursive one is that difference less one; waits on conditions do not count. |
| MutexLevels.LeavesWhenBalanced | miosix/kernel/sync.cpp:209-285 | The mutex leaves its owner at the unlock that balances its last locking, and at none before. |
| MutexRuns.InheritanceLowers | miosix/kernel/sync.cpp:84-95 | A run of four lock calls from fresh mutexes after which the walk has lowered a holder, from its own priority to that of the requester. |
| MutexRuns.WokenMayDeadlock | miosix/kernel/sync.cpp:389-394 | A run of six calls from fresh mutexes after which taking the mutex again, after a condition, closes a cycle. |
| TimerAdapters.HwTimer.Tick | miosix/interfaces/os_timer.h:176-179 | One tick of the hardware: the counter wraps, and the overflow and match flags rise. |
| TimerAdapters.TimerAdapter.Elapse | miosix/interfaces/os_timer.h:184-218 | Any amount of time between two register accesses, with every flag that rises in it. |
| TimerAdapters.TimerAdapter.IRQgetTimeTick | miosix/interfaces/os_timer.h:184-218 | The pending bit trick returns exactly the true time of its first read, for every placement of ticks between the three reads, when they span less than a period and one overflow at most is pending. |
| TimerAdapters.TimerAdapter.IRQgetIrqTick | miosix/interfaces/os_timer.h:223-226 | Or-ing the two parts gives the time of the alarm. |
| TimerAdapters.TimerAdapter.SetAlarm | miosix/interfaces/os_timer.h:287-289 | Writing the two parts of an alarm, while time passes. |
| TimerAdapters.TimerAdapter.IRQsetIrqTick | miosix/interfaces/os_timer.h:285-295 | Setting an alarm and the late check, while time passes, is one step of the specified protocol. |
| TimerAdapters.TimerAdapter.IRQsetTimeTick | miosix/interfaces/os_timer.h:249-279 | The clock jumps to a time that is later, and stays where it is otherwise; the alarm is kept, and marked late exactly when it is jumped over. |
| TimerAdapters.TimerAdapter.MoveAlarm | miosix/interfaces/os_timer.h:261-276 | An alarm that the jump passes over becomes late, and no other. |
| TimerAdapters.TimerAdapter.HandleMatch | miosix/interfaces/os_timer.h:313-322 | Flag clear, time read and comparison, while time passes: the alarm fires or is still ahead. |
| TimerAdapters.TimerAdapter.HandleOverflow | miosix/interfaces/os_timer.h:323-327 | Counting an overflow keeps counter, flag and software part adding up to the true time. |
| TimerAdapters.TimerAdapter.IRQhandler | miosix/interfaces/os_timer.h:311-328 | The interrupt routine is one step of the specified protocol. |
| TimerAdapters.OrIsPlus | miosix/interfaces/os_timer.h:215-217 | Or-ing a counter into a multiple of the period is adding it. |
| TimerAdapters.MaskParts | miosix/interfaces/os_timer.h:172-174 | The two masks split a time into a multiple of the period and a remainder. |
| OsTimer.NewAlarmKept | miosix/interfaces/os_timer.h:285-295 | An alarm set while no earlier one is outstanding is either ahead or announced, and not early. |
| OsTimer.StepKeepsAlarm | miosix/interfaces/os_timer.h:184-328 | Every other step keeps it so. |
| OsTimer.HandlerFires | miosix/interfaces/os_timer.h:311-322 | An interrupt fires an alarm that is due, and none that is not. |
| OsTimer.ArmedNotEarlyIff | miosix/interfaces/os_timer.h:285-295 | A new alarm cannot fire early if and only if none was late when it was set, or it is itself due. |
| OsTimer.ReportsNeverDecrease | miosix/interfaces/os_timer.h:184-279 | In every run reported times never decrease, across reads, interrupts, overflows and jumps. |
| OsTimer.AlarmStays | miosix/interfaces/os_timer.h:285-328 | Between being set and firing an alarm is never lost. |
| OsTimer.AlarmFiresInTime | miosix/interfaces/os_timer.h:285-328 | Once an alarm is due an interrupt is pending; the next interrupt fires it, and none does before. |
| NanosecondTimers.NanosecondsNeverDecrease | miosix/interfaces/os_timer.h:231-234 | Times reported in nanoseconds never decrease, in any run, whatever is converted in between. |
| NanosecondTimers.AlarmNear | miosix/interfaces/os_timer.h:301-304 | The alarm set for a time in nanoseconds is as near to it as the skew over one interval, a tick and a nanosecond, on either side. |
| NanosecondTimers.ToleranceInTicks | miosix/interfaces/os_timer.h:301-304 | With a drift of c ticks over the interval that is c + 1 ticks. |
| NanosecondTimers.AlarmInNanoseconds | miosix/interfaces/os_timer.h:285-328 | From setting to firing: the time reported is early by that much at most, and once it is later by more an interrupt is pending, and the next fires the alarm. |
| NanosecondTimers.NanosecondTimer.IRQgetTimeNs | miosix/interfaces/os_timer.h:231-234 | The true time in nanoseconds. |
| NanosecondTimers.NanosecondTimer.IRQgetIrqNs | miosix/interfaces/os_timer.h:239-242 | The time of the alarm in nanoseconds. |
| NanosecondTimers.NanosecondTimer.IRQsetIrqNs | miosix/interfaces/os_timer.h:301-304 | Conversion and alarm: one step of the protocol, and the cache that the conversion leaves. |
| NanosecondTimers.NanosecondTimer.IRQsetTimeNs | miosix/interfaces/os_timer.h:249-279 | Conversion and jump: one step of the protocol, and the cache that the conversion leaves. |
| FixedEventQueues.RingAt | miosix/e20/e20.h:186-188 | The i-th event of the ring is in the slot i places after get. |
| FixedEventQueues.FixedEventQueue.StoreEvent | miosix/e20/e20.h:224-226 | Storing into the ring appends to the queue. |
| FixedEventQueues.FixedEventQueue.FetchEvent | miosix/e20/e20.h:290-292 | Fetching from the ring takes the front of the queue. |
| FixedEventQueues.FixedEventQueue.WakeOneGetter | miosix/e20/e20.h:227-235 | The getter on top of the stack gets its token and leaves the stack. |
| FixedEventQueues.FixedEventQueue.WakeOnePutter | miosix/e20/e20.h:293-298 | The putter on top of the stack gets its token and leaves the stack. |
| FixedEventQueues.FixedEventQueue.IRQpostImpl | miosix/e20/e20.h:219-237 | Posts exactly if there is a slot, and nothing changes otherwise. |
| FixedEventQueues.FixedEventQueue.RunOneImpl | miosix/e20/e20.h:280-301 | Runs the oldest event, if there is one. |
| FixedEventQueues.FixedEventQueue.PostImpl | miosix/e20/e20.h:193-217 | A blocking post, up to where it is done or waits. |
| FixedEventQueues.FixedEventQueue.PostGoesOn | miosix/e20/e20.h:200-216 | A putter that is scheduled goes on only with its token, gives it back, and looks again for a slot. |
| FixedEventQueues.FixedEventQueue.RunImpl | miosix/e20/e20.h:239-277 | The same for the thread that runs events. |
| FixedEventQueues.FixedEventQueue.RunGoesOn | miosix/e20/e20.h:248-272 | A getter that is scheduled goes on only with its token, gives it back, and looks again for an event. |
| EventQueueProtocol.PutInv | miosix/e20/e20.h:223-236 | A post keeps the promise: if getters wait without token, those with one are enough for all events. |
| EventQueueProtocol.GetInv | miosix/e20/e20.h:289-298 | A fetch keeps the promise to putters. |
| EventQueueProtocol.PutOrWaitInv | miosix/e20/e20.h:200-216 | So does waiting to post. |
| EventQueueProtocol.GetOrWaitInv | miosix/e20/e20.h:248-272 | And waiting for an event. |
| EventQueueProtocol.StepGood | miosix/e20/e20.h:193-301 | Every step of any number of producers and consumers keeps it. |
| EventQueueProtocol.InitialGood | miosix/e20/e20.h:123-124 | An empty queue is a good state. |
| EventQueueProtocol.RunsKeepOrder | miosix/e20/e20.h:193-301 | In every run events leave in the order of acceptance, and nobody waits for an event, or a slot, that is there unless somebody holds a token for one. |
| EventQueueProtocol.NothingLost | miosix/e20/e20.h:193-301 | From an empty queue, in every reachable state: the events accepted are those taken, and then those queued, in order. |
| EventQueueProtocol.TokensAreWaiters | miosix/e20/e20.h:239-277 | In every run the getters on the stack, and those with a token, are those that looked last when there was no event: no token is left behind, so while there is an event one of those who wait has a token. |
| EventQueueProtocol.OfferAccepted | miosix/e20/e20.h:193-217 | A blocking post that is through has had its event accepted since it began. |
| IntrusiveLists.IntrusiveList.PushBack | miosix/kernel/intrusive.h:697-708 | Appends to the sequence, with forward and backward links mutually inverse through the sentinel. |
| IntrusiveLists.IntrusiveList.PushFront | miosix/kernel/intrusive.h:729-744 | Prepends. |
| IntrusiveLists.IntrusiveList.PopBack | miosix/kernel/intrusive.h:713-727 | Removes the last item, or leaves an empty list empty. |
| IntrusiveLists.IntrusiveList.PopFront | miosix/kernel/intrusive.h:749-763 | Removes the first item, or leaves an empty list empty. |
| IntrusiveLists.IntrusiveList.Insert | miosix/kernel/intrusive.h:768-786 | Inserts in front of a position, the end included. |
| IntrusiveLists.IntrusiveList.Erase | miosix/kernel/intrusive.h:792-807 | Removes exactly the item and returns the next; erased items and the sentinel are left alone. |
| SleepingLists.DueThreadsExactly | miosix/kernel/kernel.cpp:305-316 | The threads woken are those with a record that is due. |
| SleepingLists.KeptExactly | miosix/kernel/kernel.cpp:305-316 | The records that stay are exactly those not due, and those without a thread. |
| SleepingLists.IRQaddToSleepingList | miosix/kernel/kernel.cpp:274-287 | Puts the record in front of the first that does not wake up earlier, keeping the list sorted, and marks the thread asleep. |
| SleepingLists.IRQwakeThreads | miosix/kernel/kernel.cpp:296-318 | Removes and wakes exactly the due threads, and returns true exactly if one of them outranks the current one. |
| Paths.RenderInjective | miosix/filesystem/file_access.cpp:398-401 | Different component stacks are different paths, so looking a path up among the mounts looks a stack up. |
| Paths.JoinSplit | miosix/filesystem/file_access.cpp:340-347 | Cutting a path at its slashes loses nothing. |
| PathResolutions.PathResolution.DropComponent | miosix/filesystem/file_access.cpp:347-353 | Erasing an empty component or "." in the string removes it from the components. |
| PathResolutions.PathResolution.UpPathComponent | miosix/filesystem/file_access.cpp:381-396 | ".." pops the stack and goes to the file system that the search finds, or fails exactly at the root. |
| PathResolutions.PathResolution.RecursiveFindFs | miosix/filesystem/file_access.cpp:470-496 | The search outwards finds the longest mounted prefix from where it begins. |
| PathResolutions.PathResolution.NormalPathComponent | miosix/filesystem/file_access.cpp:398-425 | Mount points, links, directories and other files, each as the specification goes on from there. |
| PathResolutions.PathResolution.FollowSymlink | miosix/filesystem/file_access.cpp:427-468 | The link budget, and the replacement of a link by its target, as `LinkIsReplaced` states it. |
| PathResolutions.PathResolution.ReplaceLink | miosix/filesystem/file_access.cpp:435-467 | Absolute and relative targets in the string, as `LinkIsReplaced` and `AbsoluteAnywhere` tell them apart. |
| PathResolutions.PathResolution.HandleComponent | miosix/filesystem/file_access.cpp:342-364 | One turn of the loop edits the string to what the specification has left. |
| PathResolutions.PathResolution.ResolvePath | miosix/filesystem/file_access.cpp:329-379 | The in-place rewriter ends for all file systems and links, and gives path, file system and offset of the component-stack specification. |
| PathResolutions.ResolvePath | miosix/filesystem/file_access.cpp:631-641 | The same for the manager's entry, with its errors for long, empty and relative paths. |
| PathTheorems.ResolvedIsProper | miosix/filesystem/file_access.cpp:347-376 | With any links the resolved path has only components that are neither empty nor "." nor "..", and its file system is mounted on a prefix of it. |
| PathTheorems.ResolveNormalizes | miosix/filesystem/file_access.cpp:329-379 | If no symbolic link is met on the way, the result is that of a component-stack normaliser; it fails exactly if a component before the last leads to a file, or else if the normaliser fails. |
| PathTheorems.MeetsFileIff | miosix/filesystem/file_access.cpp:414-423 | The first of these failures, by the place the components before lead to. |
| PathTheorems.NoLinksAtAll | miosix/filesystem/file_access.cpp:414-423 | File systems without links meet the hypothesis on every path, and never give that failure. |
| PathTheorems.NormalizeFailsIff | miosix/filesystem/file_access.cpp:381-385 | Normalising fails if and only if some prefix of the components goes up further than there is. |
| PathTheorems.NormalizeTwice | miosix/filesystem/file_access.cpp:340-378 | Normalising a path is normalising its parts one after the other. |
| PathTheorems.ResolvedPathStays | miosix/filesystem/file_access.cpp:329-379 | A path of proper components on which neither a link nor a file is met resolves to itself. |
| PathTheorems.ResolveTwice | miosix/filesystem/file_access.cpp:329-379 | What a resolution that met no link leaves behind meets none either, and resolves to itself. |
| PathTheorems.UpLongest | miosix/filesystem/file_access.cpp:381-396 | ".." leads to the file system of the longest mounted prefix, unless it is the last component and leaves one nested mount point for another. |
| PathTheorems.LongestIff | miosix/filesystem/file_access.cpp:329-412 | If no link is met, a path resolves to the file system of its longest mounted prefix, except precisely in that case. |
| PathTheorems.NestedMountEscapes | miosix/filesystem/file_access.cpp:470-496 | The case happens: with /a and /a/b mounted, /a/b/.. is looked up in the root file system. |
| LinkTheorems.LinkOrNone | miosix/filesystem/file_access.cpp:414-425 | Either no link is met on the way, or there is a first one. |
| LinkTheorems.LinkIsReplaced | miosix/filesystem/file_access.cpp:427-468 | Following the first link is resolving the path with the target in its place, if that is relative, or the target from the root with what follows the link, if it is absolute; and it fails exactly if that path is too long. |
| LinkTheorems.AbsoluteAnywhere | miosix/filesystem/file_access.cpp:436-451 | A link with an absolute target leads to the same outcome wherever it is found, and from whatever directory. |
| LinkTheorems.OneLinkNormalizes | miosix/filesystem/file_access.cpp:427-468 | A path through one link resolves to what a component-stack normaliser makes of the replaced path, with the failures of a path without links; a second link fails. |
| LinkTheorems.SecondLink | miosix/filesystem/file_access.cpp:429-429 | A resolution that has followed one link fails at the next. |
| LinkTheorems.OddLinks | miosix/filesystem/file_access.cpp:429-435 | An empty target fails, and a link that cannot be read passes for a component but counts. |
| LinkTheorems.LastLinkKept | miosix/filesystem/file_access.cpp:360-361 | A link at the end of the path is not followed if the caller does not ask for it. |
| LinkTheorems.LongestThroughLink | miosix/filesystem/file_access.cpp:427-496 | Through a link too a path resolves to the file system of its longest mounted prefix, but for the one exception. |
| LinkTheorems.AskedIs | miosix/filesystem/file_access.cpp:414-423 | Which file system is asked about a component, by which name. |
| LinkTheorems.LongestFileSystem | miosix/filesystem/file_access.cpp:470-496 | The file system of the longest mounted prefix, by name. |
| FastMutexes.Mutex.IRQdoMutexLock | miosix/kernel/pthread_private.h:42-87 | Grant, lock again with one level more, deadlock, or queue at the end of the list, with the caller asleep exactly in the last case. |
| FastMutexes.Mutex.IRQdoMutexLockToDepth | miosix/kernel/pthread_private.h:100-147 | The same to a given depth. |
| FastMutexes.Mutex.TryLock | miosix/kernel/pthread.cpp:248-263 | Takes the mutex exactly if it is free, or, with one level more, recursive and the caller's. |
| FastMutexes.Mutex.PassOn | miosix/kernel/pthread_private.h:167-180 | The first of the list becomes the owner, and is awake. |
| FastMutexes.Mutex.IRQdoMutexUnlock | miosix/kernel/pthread_private.h:157-182 | One level less, or passed on; true exactly if the new owner outranks the caller. |
| FastMutexes.Mutex.IRQdoMutexUnlockAllDepthLevels | miosix/kernel/pthread_private.h:193-217 | Passed on from any depth, which is returned. |
| FastMutexProtocol.StepGood | miosix/kernel/pthread_private.h:42-217 | Every step of every thread keeps owner, list and sleeping threads in agreement: a queued record belongs to a thread inside lock. |
| FastMutexProtocol.InitialGood | miosix/kernel/pthread_private.h:42-50 | A free mutex is a good state. |
| FastMutexProtocol.RunsServeInOrder | miosix/kernel/pthread_private.h:42-217 | In every run the mutex is granted in order of arrival, and the owner is never left asleep in lock. |
| FastMutexProtocol.NobodyLost | miosix/kernel/pthread_private.h:42-217 | From a free mutex, in every reachable state: the threads that have arrived are those granted, and then those queued, in order. |
| FastMutexProtocol.ServedInTurn | miosix/kernel/pthread_private.h:157-182 | The k-th in the list owns the mutex after k + 1 releases. |
| FastMutexProtocol.ConditionWaitRestores | miosix/kernel/sync.cpp:397-421 | A condition wait returns owning the mutex, at its depth if recursive, for every interleaving. |
| FastMutexLevels.UnlockUndoesRelock | miosix/kernel/pthread_private.h:55-61 | Locking again and unlocking once changes nothing. |
| FastMutexLevels.OwnsWhileLocked | miosix/kernel/pthread_private.h:42-217 | In every run a running thread owns the mutex exactly if it has locked it more often than unlocked, and the depth of a recursive one is that difference less one; waits on conditions do not count. |
| FastMutexLevels.LeavesWhenBalanced | miosix/kernel/pthread_private.h:157-182 | The mutex leaves its owner at the unlock that balances its last locking, and at none before. |
| UnicodeText.Utf8Unique | miosix/util/unicode.h:152-192 | The bytes of a code point are never the beginning of another's (section 3 of RFC 3629). |
| UnicodeText.Utf16Unique | miosix/util/unicode.cpp:109-120 | Nor are its units in UTF-16 (section 2.1 of RFC 2781). |
| UnicodeText.Reassembled | miosix/util/unicode.h:158-192 | Well shaped bytes encode what they stand for, unless they are too many for it or it is no code point. |
| UnicodeText.NotReadable | miosix/util/unicode.h:160-192 | What fails under its lead byte cannot be read at all. |
| UnicodeText.TextUnique8 | miosix/util/unicode.cpp:69-90 | A byte string with its nul is at most one text. |
| UnicodeText.TextUnique16 | miosix/util/unicode.cpp:92-130 | So is a string of 16 bit units. |
| UnicodeText.StuckLast8 | miosix/util/unicode.cpp:76-78 | Where a byte string gets unreadable is determined: all that can be read of it comes before. |
| UnicodeText.StuckLast16 | miosix/util/unicode.cpp:109-120 | The same for 16 bit units. |
| UnicodeText.OneOutcome8 | miosix/util/unicode.cpp:69-90 | A string is a text that fits, or gets unreadable after what fits, or has a beginning that does not fit, and only one of these. |
| UnicodeText.OneOutcome16 | miosix/util/unicode.cpp:92-130 | The same for 16 bit units. |
| UnicodeConversion.NextUtf8 | miosix/util/unicode.h:146-193 | Reads a code point exactly if the string begins with its shortest encoding; otherwise the string begins with none, and the iterator stays in bounds. |
| UnicodeConversion.Checked | miosix/util/unicode.h:174-192 | Overlong forms, surrogates and values out of range are refused, and nothing else. |
| UnicodeConversion.Put | miosix/util/unicode.cpp:32-36 | Writes one element if there is room, and nothing outside its slot. |
| UnicodeConversion.PutUtf8 | miosix/util/unicode.cpp:40-67 | Writes the encoding, or as much as there is room for; refuses what is no scalar value; touches nothing else. |
| UnicodeConversion.PutUtf16 | miosix/util/unicode.cpp:80-85 | Writes one unit or a pair of surrogates. |
| UnicodeConversion.Utf8ToUtf16 | miosix/util/unicode.cpp:69-90 | Success on text that fits, with its encoding and a nul; otherwise how much was read, whether nothing can be read there or there was no room for it, and the length written; nothing is written past dstSize. |
| UnicodeConversion.Next16 | miosix/util/unicode.cpp:99-120 | Reads a code point of UTF-16, or finds that there is none. |
| UnicodeConversion.Utf16ToUtf8 | miosix/util/unicode.cpp:92-130 | The same in the other direction. |
| UnicodeConversion.ThereAndBack | miosix/util/unicode.cpp:69-130 | The two conversions one after the other, with enough space, succeed on every text and give the bytes one came from. |
| UnicodeConversion.BackAndThere | miosix/util/unicode.cpp:69-130 | The same from UTF-16. |
| ProcessTable.CreateInv | miosix/kernel/process.cpp:103-109 | Creating a process keeps every live process in exactly one list of its parent, which exists. |
| ProcessTable.UndoneCreate | miosix/kernel/process.cpp:112-118 | Undoing a creation that nothing has followed restores the table. |
| ProcessTable.UndoneInv | miosix/kernel/process.cpp:112-118 | Undoing a creation, whatever has followed, keeps the table in order. |
| ProcessTable.AdoptedInv | miosix/kernel/process.cpp:252-257 | Handing children and zombies to the kernel keeps the table in order. |
| ProcessTable.BuriedInv | miosix/kernel/process.cpp:259-266 | Ending keeps it in order: into the zombies of the parent, which exists, or handed to those who wait. |
| ProcessTable.ReapedInv | miosix/kernel/process.cpp:153-159 | Collecting a zombie keeps it in order. |
| ProcessTable.CountedInv | miosix/kernel/process.cpp:172-174 | Counting those who wait keeps it in order. |
| Processes.ProcessList.GetNewPid | miosix/kernel/process.cpp:507-518 | Ends whenever a pid is free, and returns one that is positive and not in use. |
| Processes.ProcessList.CreateProcess | miosix/kernel/process.cpp:103-109 | The table after a creation. |
| Processes.ProcessList.UndoCreate | miosix/kernel/process.cpp:112-118 | The table after a creation is given up. |
| Processes.ProcessList.Adopt | miosix/kernel/process.cpp:252-257 | The two loops and splices move all children and zombies to the kernel. |
| Processes.ProcessList.EndProcess | miosix/kernel/process.cpp:247-267 | The table after the end of a process, whose parent is always there, and who is woken. |
| Processes.ProcessList.WaitpidAny | miosix/kernel/process.cpp:144-160 | Each outcome of waiting for any child, with the table after it. |
| Processes.ProcessList.WaitpidFor | miosix/kernel/process.cpp:161-173 | Each outcome of waiting for one child, up to the wait. |
| Processes.ProcessList.WaitpidReturns | miosix/kernel/process.cpp:174-187 | After the wait: the last one told collects the child, the others get -1. |
| ProcessProtocol.StepGoodIff | miosix/kernel/process.cpp:98-267 | A step of any thread keeps table and waiting threads in agreement if and only if it does not give up a process that somebody waits for; none of the errors called unexpected can occur. |
| ProcessProtocol.UndoGoodIff | miosix/kernel/process.cpp:112-118 | Giving up a creation is sound exactly if nobody has begun to wait for the new process. |
| ProcessRuns.UndoUnderWaiter | miosix/kernel/process.cpp:112-118 | It happens that somebody has: the waiting thread is left with a process that is gone. |
| ProcessProtocol.CollectedAtMostOnce | miosix/kernel/process.cpp:139-188 | In every run an end is collected at most once, with its own exit code, and those not collected are exactly the zombies. |
| ProcessOrder.OldestFirst | miosix/kernel/process.cpp:144-160 | In every run what a process gets when it waits for any child is the one that ended first of those it may collect. |
| ProcessOrder.KernelOrderIff | miosix/kernel/process.cpp:257-257 | Those that the kernel takes over are put in front of its own: they stay in the order of their ends if and only if the last of the ones ended before the first of the others. |
| ProcessOrder.KernelTakesLater | miosix/kernel/process.cpp:257-257 | It happens that they do not, and the kernel collects a later end first. |
| ProcessProtocol.ReasonAfterEnd | miosix/kernel/process.cpp:252-266 | Who still has a child to wait for after the end of a process that was waited for in particular. |
| ProcessProtocol.SleepersOkIff | miosix/kernel/process.cpp:262-266 | After the end of a process those who sleep for any child keep a reason to if and only if it was waited for by nobody, or was not their last child and left them no zombies. |
| ProcessProtocol.SleepersOkAfterUndoIff | miosix/kernel/process.cpp:112-118 | After a creation is given up they do if and only if it was not their only child. |
| ProcessProtocol.StepSleepersIff | miosix/kernel/process.cpp:98-267 | No other step leaves anybody asleep for nothing. |
| ProcessProtocol.RunKeepsReasons | miosix/kernel/process.cpp:98-267 | So along every run without such a step nobody sleeps for a child without having one to wait for. |
| ProcessRuns.LastChildLeavesSleeper | miosix/kernel/process.cpp:262-266 | It happens: one thread sleeps for any child, another for the only one, which ends. |
| ProcessRuns.UndoLeavesSleeper | miosix/kernel/process.cpp:112-118 | It happens: one thread sleeps for any child, and the only one is given up. |
| ProcessRuns.SleeperStrandedByUndo | miosix/kernel/process.cpp:112-118 | A run of three steps from the start of the system that ends so. |
| ProcessRuns.SleeperStrandedByEnd | miosix/kernel/process.cpp:262-266 | A run of five steps from the start that ends in the case before. |
| ProcessRuns.WaiterLosesProcess | miosix/kernel/process.cpp:112-118 | A run of two steps from the start after which a third takes the process away under a thread that waits for it. |
| Bitmaps.BitsChange | miosix/kernel/process_pool.h:135-157 | Setting or clearing a bit changes that bit and no other. |
| ProcessPools.PowerOfTwoIff | miosix/kernel/process_pool.cpp:60-60 | The bit trick accepts exactly the powers of two. |
| ProcessPools.GoodSizeIff | miosix/kernel/process_pool.cpp:59-60 | The sizes that allocate accepts are the powers of two from a kilobyte up to the size of the pool. |
| ProcessPools.StartAlignedIff | miosix/kernel/process_pool.cpp:63-66 | The slots that are searched are aligned if and only if the pool begins at a multiple of a block. |
| ProcessPools.ClearIff | miosix/kernel/process_pool.cpp:71-78 | A run of clear bits is a run of bytes that no live block overlaps, and conversely. |
| ProcessPools.BitmapCoversIff | miosix/kernel/process_pool.cpp:105-107 | Every kilobyte of a pool has a bit if and only if the pool is a multiple of 32 kilobytes. |
| ProcessPools.LastKilobyteWithoutBit | miosix/kernel/process_pool.cpp:105-107 | In a pool of 33 kilobytes the last one has none. |
| ProcessPools.FullPoolLeaves | miosix/kernel/process_pool.cpp:69-76 | In a pool that ends at a multiple of the size, a search that finds no free run always leaves the bitmap. |
| ProcessPools.FreeUndoesAllocate | miosix/kernel/process_pool.cpp:80-99 | Giving back what was just allocated restores table and bitmap. |
| ProcessPools.ProcessPool.constructor | miosix/kernel/process_pool.cpp:102-108 | An empty pool. |
| ProcessPools.ProcessPool.TestBit | miosix/kernel/process_pool.h:135-139 | Reads the bit. |
| ProcessPools.ProcessPool.SetBit | miosix/kernel/process_pool.h:144-148 | Sets the bit and no other. |
| ProcessPools.ProcessPool.ClearBit | miosix/kernel/process_pool.h:153-157 | Clears the bit and no other. |
| ProcessPools.ProcessPool.LookAt | miosix/kernel/process_pool.cpp:71-78 | One turn of the search: a clear run, a set bit, or the end of the bitmap. |
| ProcessPools.ProcessPool.Search | miosix/kernel/process_pool.cpp:63-79 | Every slot before the one it ends at is taken. |
| ProcessPools.ProcessPool.Allocate | miosix/kernel/process_pool.cpp:54-85 | Refuses other sizes; otherwise, if there is an aligned free run within the bitmap, the block is the lowest one, and the set bits stay exactly those of live blocks; if not, the search leaves the bitmap exactly when it comes to a slot without a set bit before the end, and reports that there is no memory in the other cases. |
| ProcessPools.ProcessPool.Deallocate | miosix/kernel/process_pool.cpp:88-100 | Removes exactly the block, if there is one at the address, and its bits. |

## Left out

- ConstructedRoundTrips.ConstructedRoundTrip: bounds the error by two ticks where the comment says less than two, which is false (`TwoTicksOff`); from 666 MHz on the bound is three, and whether three are reached is left open.
- ConstructedRoundTrips.ConstructedFailsFar: is stated up to 333 MHz; above that `HistoryIff` and `SafeAfterHistory` hold, but half the interval may not be a safe distance.
- OneTick.HistoryIff: is about coefficients below one tick per nanosecond; `SafeAfterHistory` covers the others.
- ConstructedTimer.ConstructedMeetsDesign: takes the first approximations of the coefficients with a stated relative error, because they are made in floating point; floatToFactor and the divisions are not modelled.
- ConstructedRoundTrips.IntervalNotShortest: takes it that the range of the bisection reaches coefficients whose product is one (`Correctable`), which depends on the same approximations; the theorems after it hold as well if the interval is known to be longer than the shortest.
- SleepClamp.ConstructedSleepConverts: leaves out the timer of 10000 Hz, for which the bound on the drift is a few nanoseconds too large.
- OnlineAdjustment.RoundTripWithin: its second half is stated for coefficients below one tick per nanosecond; `FastestTimerIsExact` covers the others for a drift of one tick.
- OnlineAdjustment.CallKeepsMeasured: is about times that are not negative, as the comment in the code demands of callers.
- Mutexes.Mutex.PKlock: assumes that the wait closes no cycle; a deadlock of several threads, in which the walk need not end, is not modelled. errorHandler ends the model's call.
- Mutexes.Mutex.PKlockToDepth: the same.
- MutexProtocol.ConditionWaitRestores: a run in which a wait closes a cycle ends there; `RelockIff` and `WokenMayDeadlock` say when that happens after a condition.
- Mutexes.Mutex.PKunlock: threads are woken by the protocol's steps; the scheduler's queues, yield, and the EDF and control-based schedulers are not part of this model. Priorities are integers in a range.
- MutexProtocol.StepGood: the list of threads that wait on a condition is a sequence here; its links are those of `ConditionVariable`. Threads are neither created nor ended.
- ConditionVariables.ConditionVariable.StartWait: ends where the mutex is given up; the rest of a wait is made of steps of the protocols.
- MutexLevels.OwnsWhileLocked: a wait on a condition by a thread that does not own the mutex counts as a locking, since it returns with the mutex.
- The heap algorithms of the C++ library are modelled by heap code of this project's own: `PushHeap`, `MakeHeap`, `PopHeap` state what is used of them, not which heap results.
- Mutexes.Thread.SetPriority: is called by a running thread for itself, as the code does it.
- OsTimer.AlarmFiresInTime: an alarm set while another is outstanding is covered by `ArmedNotEarlyIff` only; quirkAdvance is zero; 64 bit times do not overflow.
- TimerAdapters.TimerAdapter.IRQhandler: the system's reaction to an alarm is an arbitrary next alarm, or none.
- NanosecondTimers.NanosecondTimer.IRQsetIrqNs: a time that converts to no tick, because the offset takes it below zero, is excluded; `ClampedSleepConverts` says that clamped sleeps are none.
- TimerAdapters.TimerAdapter.IRQgetTimeTick: needs that interrupts are handled within a period, as the code's comment demands.
- FixedEventQueues.FixedEventQueue.IRQpostImpl: does not say whether a higher priority thread was woken (hppw). Events are values; that copying one may allocate is not modelled. The list-based EventQueue is not modelled.
- IntrusiveLists.IntrusiveList.Erase: an item of another list must not be passed, which the code cannot notice. Reference counting is not modelled.
- SleepingLists.IRQaddToSleepingList: the record has a thread; the scheduler's own record, without thread, is covered by `IRQwakeThreads` only.
- PathResolutions.ResolvePath: file systems answer by a fixed function of the name; umount, mount checks, string allocation and the codes that lstat and readlink fail with are not modelled.
- PathTheorems.ResolveNormalizes: is about paths on which no symbolic link is met; `OneLinkNormalizes`, `SecondLink` and `OddLinks` are about the others.
- PathTheorems.LongestIff: the same; `LongestThroughLink` is about the others.
- ProcessOrder.OldestFirst: is about processes other than the kernel, for which it fails (`KernelTakesLater`).
- FastMutexProtocol.ConditionWaitRestores: the list of threads that wait on a condition is a sequence here too.
- UnicodeConversion.Utf8ToUtf16: a nul-terminated string is a sequence that ends in 0; validateUtf8 is not modelled.
- Processes.ProcessList.GetNewPid: needs a free pid, without which the code does not end.
- Processes.ProcessList.EndProcess: a process has one thread, so none of its own threads still waits when it ends. Thread creation, the loading of programs and the exit code of a fault are parameters.
- ProcessPools.ProcessPool.Allocate: stops where the search would read past the bitmap (`miosix/kernel/process_pool.cpp:69`); what it finds there is not part of this model.
- ProcessPools.ProcessPool.constructor: the pool begins at a multiple of a block, as `StartAlignedIff` asks.
- Program validation, system calls, memory protection, drivers, the console, the C library's wrappers, flopsync and the ring buffers of queue.h: plumbing, or simple.
