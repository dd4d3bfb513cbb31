# Verified models of csel-workspace

Dafny models of the stateful parts of the course workspace: the fan mini-project (kernel driver,
daemon, OLED screen), the wait-queue drivers, the multi-device character driver, and three small
programs. Code that runs without interference is modelled by classes and methods with the
source's own loops, each proved against a specification function; code whose point is
interleaving is a state machine whose steps are the source's own atomic actions, and its theorems
quantify over every run. `dafny verify dfyconfig.toml` checks everything.

| file | models |
|---|---|
| `Basics.dfy` | bytes, parity and sums |
| `Decimal.dfy` | printf/snprintf, kstrtou32, kstrtobool, atoi, Rust trim and parse |
| `FanDriver.dfy` | the fan driver cut at every spinlock section and unlocked access |
| `FanBlink.dfy`, `FanLiveness.dfy`, `FanFaults.dfy`, `FanStop.dfy` | what all interleavings keep: blinking, liveness, division, stopping |
| `FanCtrl.dfy` | struct fan_ctrl as a class, linked to the interleaved machine |
| `FanProtocol.dfy`, `FanDaemon.dfy` | the two-field fan its clients see, and the daemon that refines it through sysfs text |
| `FanSystem.dfy` | daemon and driver with callbacks interleaved |
| `ClientPool.dfy`, `EventLoop.dfy` | the epoll client pool as functions, and as an array changed in place |
| `WaitQueue.dfy`, `InterruptLedger.dfy` | sleeping and waking, counting interrupts, the Rust reader |
| `CharDeviceInit.dfy`, `CharDeviceIo.dfy` | load/rollback/unload, and open/read/write |
| `Ssd1306.dfy`, `Screen.dfy` | bytes on the bus, a model of the controller, the screen's rows |
| `LeakList.dfy`, `HostCounter.dfy`, `LoopOrder.dfy` | linked list, host counters, loop interchange |

A run is a sequence of step labels; `Legal` says each label was enabled when taken and `Exec` gives
the state reached.

## Where the code falls short of what it is for

These are results, proved with a concrete run or an exact condition.

- `temp_to_freq` never returns 20, and every temperature in 35..40 degrees gets a higher frequency
  than hotter ones (`FanLiveness.TableIsNotMonotone`).
- `frequency_store` reads `frequency` twice without the lock, and doubles it in 32 bits: for a set of
  values and a number of stores in flight, no interleaving divides by zero exactly when 2^31 is
  not among the values and either stores come one at a time or 0 is not among them
  (`FanFaults.NeverFaultsExactlyWhen`, with the runs that do; a fan whose probe reading failed
  and that is only ever given zeros is safe too).
- Once the timer is off, automatic mode is never resumed until a non-zero store: mode stores do not
  re-arm it. Over all runs it comes back exactly when the timer is pending, or a value other than 0
  and 2^31 is still to be stored (`FanStop.AutomaticReturnsExactlyWhen`). Storing 0 does not cancel
  a pending timer, so whether a stopped fan comes back depends on when the mode changes
  (`FanStop.StoppedComesBack`, `FanStop.StoppedStays`); after a failed temperature read at probe time
  the timer is off from the start (`FanStop.ProbeFailureIsDead`).
- A frequency accepted in manual mode can be overwritten by an automatic callback already in flight
  (`FanSystem.AcceptedFrequencyIsKeptExactlyWhen`, `FanSystem.AcceptedFrequencyCanBeLost`).
- A failed temperature read is answered to a client as 0 degrees with status 0, the answer to
  every reading strictly between -1000 and 1000 (`FanProtocol.FailedReadLooksLikeZeroDegrees`,
  `FanProtocol.ReportsFailuresExactlyWhen`).
- After a swap-remove, a new client can take the slot an older client's registration points to. A
  wrong answer can then follow, and only then (`ClientPool.AcceptAnswersRightExactlyWhen`): the older
  client's request is answered to the new one (`ClientPool.ReusedSlotMisroutes`), or to nobody if the
  new one has been answered and closed first (`ClientPool.StaleSlotAnswersNobody`).
- Waking before incrementing strands a reader (`WaitQueue.OrderDecides`); testing and decrementing
  separately strands one of two pollers, and never a single one (`WaitQueue.PollersDecide`).
- A failed `cdev_add` leaves the earlier devices' nodes behind (`CharDeviceInit.OutcomeMeaning`).
- The frequency row keeps the tail of longer texts: one digit is never shown cleanly
  (`Screen.FrequencyRowIsCleanExactlyWhen`, `Screen.OneDigitIsNeverClean`). The two blanks after a
  temperature spare its row the same below 1000 degrees (`Screen.TempRowIsCleanExactlyWhen`).

## Model

| member | source | states |
|---|---|---|
| FanBlink.FanBlinks | src/07_miniproj/fan_driver/skeleton.c:47-155 | probed with a good reading and never given a zero, in every interleaving: the pin is high from probe and inverted each time the callback drives it |
| FanBlink.StateAlternates | src/07_miniproj/fan_driver/skeleton.c:47-155 | over every run in which nothing stops the fan, gpio_state differs from the initial one exactly after an odd number of toggles |
| FanBlink.PinAlternates | src/07_miniproj/fan_driver/skeleton.c:47-155 | and each write of the pin inverts it |
| FanLiveness.BlinkingNeverDies | src/07_miniproj/fan_driver/skeleton.c:47-155 | in every interleaving of callbacks, mode stores and any number of frequency stores, a non-zero frequency is attended: timer armed, callback before its snapshot or holding a non-zero value, or a store before its arm decision; so at rest the timer is armed |
| FanLiveness.LiveStep | src/07_miniproj/fan_driver/skeleton.c:47-155 | every single step keeps that invariant |
| FanFaults.FaultsExactlyWhen | src/07_miniproj/fan_driver/skeleton.c:87-150 | a step divides by zero exactly when the divisor frequency it uses is a multiple of 2^31: the store's second read or the callback's local copy |
| FanFaults.NeverFaultsExactlyWhen | src/07_miniproj/fan_driver/skeleton.c:76-151 | for every set of values and bound m >= 1 on stores in flight: no interleaving from probe divides by zero exactly when 2^31 is not a value and m is 1 or 0 is not a value (or probe failed and 0 is the only value) |
| FanFaults.AloneNeverFaults | src/07_miniproj/fan_driver/skeleton.c:76-151 | with stores one at a time and never 2^31, zeros included, no interleaving divides by zero |
| FanFaults.OverlappingNeverFaults | src/07_miniproj/fan_driver/skeleton.c:76-151 | any number of overlapping stores of values other than 0 and 2^31 never divide by zero |
| FanFaults.WrappingStoreFaults | src/07_miniproj/fan_driver/skeleton.c:146-150 | a single store of 2^31 reaches a division by zero |
| FanFaults.OverlappingStoresFault | src/07_miniproj/fan_driver/skeleton.c:146-150 | two overlapping stores, one of them zero, reach a division by zero; two zeros do whenever the probe-time reading succeeded |
| FanLiveness.HalfPeriod | src/07_miniproj/fan_driver/skeleton.c:88-150 | the half period h satisfies 2fh <= 1000 < 2f(h+1), falls as f rises, and is zero exactly above 500 |
| FanLiveness.PeriodWraps | src/07_miniproj/fan_driver/skeleton.c:88-150 | 2f wraps in 32 bits: the period is the mathematical one exactly below 2^31 or above 2^31 + 500, otherwise that of f - 2^31 |
| FanLiveness.TableIsNotMonotone | src/07_miniproj/fan_driver/skeleton.c:35-44 | 20 is never chosen, 2 exactly below 35000 and 5 exactly above 40000, 10 in between; some hotter temperature gets a lower frequency exactly from 35000 to 40000 |
| FanLiveness.StoresAreConserved | src/07_miniproj/fan_driver/skeleton.c:126-155 | in every interleaving each store begun is in flight, refused, or has returned |
| FanStop.StopTerminates | src/07_miniproj/fan_driver/skeleton.c:52-148 | after 0 is stored in manual mode with no automatic callback in flight, and unless the callback in flight holds a copy it would divide by zero with (2^31), an undisturbed run has at most ten steps and two callback completions, never divides by zero, and can only get stuck with pin low and timer off |
| FanStop.StopFaultsExactlyWhen | src/07_miniproj/fan_driver/skeleton.c:52-148 | that exception is exact: some undisturbed run divides by zero exactly when the callback in flight holds such a copy |
| FanStop.StoppingStep | src/07_miniproj/fan_driver/skeleton.c:52-148 | each step strictly reduces the work left, and a completion uses up one of at most two |
| FanStop.StoppedStays | src/07_miniproj/fan_driver/skeleton.c:102-148 | at rest with frequency 0 and the timer off, the fan stays off, whatever the mode stores, as long as only zeros are stored |
| FanStop.AutomaticReturnsExactlyWhen | src/07_miniproj/fan_driver/skeleton.c:47-155 | from rest anywhere in any run from probe, for every set of values: some run storing only those reads the temperature again exactly when the timer is pending or a value is neither 0 nor 2^31; a non-zero frequency at rest means it is pending |
| FanStop.StoppedComesBack | src/07_miniproj/fan_driver/skeleton.c:102-148 | after a stored 0 at rest with the pin low, setting the mode back before the pending timer expires makes the fan blink at the table's frequency with no further store |
| FanStop.AutoStaysDead | src/07_miniproj/fan_driver/skeleton.c:57-140 | a dead fan in automatic mode refuses every store and never reads the temperature again until the mode is set to manual |
| FanStop.ProbeFailureIsDead | src/07_miniproj/fan_driver/skeleton.c:225-239 | the fan is in that state from the start exactly when the probe-time temperature read fails |
| FanStop.AutoCallbackOutlivesStop | src/07_miniproj/fan_driver/skeleton.c:58-88 | an automatic callback in flight publishes its frequency over a stored zero and re-arms the timer |
| FanCtrlObject.FanCtrl.Probe | src/07_miniproj/fan_driver/skeleton.c:225-239 | probe resets the fields, runs the callback once, and cannot divide by zero |
| FanCtrlObject.FanCtrl.FanToggleTimer | src/07_miniproj/fan_driver/skeleton.c:47-89 | the callback's whole effect on mode, frequency, GPIO, pin and timer |
| FanCtrlObject.FanCtrl.ManualModeStore | src/07_miniproj/fan_driver/skeleton.c:102-116 | only the mode changes, and only for text that parses as a boolean |
| FanCtrlObject.FanCtrl.FrequencyStore | src/07_miniproj/fan_driver/skeleton.c:126-155 | EINVAL for bad text, EPERM in automatic mode, otherwise frequency stored and the fan stopped or re-armed |
| FanCtrlObject.CallbackInverts | src/07_miniproj/fan_driver/skeleton.c:47-89 | one callback inverts the pin and re-arms the timer with the half period, in automatic mode with the temperature's frequency |
| FanCtrlObject.StoreStartsOrStops | src/07_miniproj/fan_driver/skeleton.c:135-151 | one store: a non-zero value arms its half period and leaves the pin, zero lowers the pin and leaves the timer |
| FanCtrlObject.Blink | src/07_miniproj/fan_driver/skeleton.c:47-89 | n expirations with any readings flip the pin n times and leave it showing gpio_state, at the last successful reading's frequency in automatic mode |
| FanCtrlObject.CallbackIsARun | src/07_miniproj/fan_driver/skeleton.c:47-89 | the callback method is the interleaved machine's schedule with nothing in between |
| FanCtrlObject.StoreIsARun | src/07_miniproj/fan_driver/skeleton.c:135-155 | so is the store method |
| Decimal.DecimalIsParsed | src/07_miniproj/fan_driver/skeleton.c:126-133 | kstrtou32 takes exactly the decimal below 2^32 with an optional plus and newline |
| Decimal.GarbageIsRefused | src/07_miniproj/fan_driver/skeleton.c:126-133 | and refuses a number followed by anything else |
| Decimal.ModeIsParsed | src/07_miniproj/fan_driver/skeleton.c:102-116 | the daemon's "1" and "0" are the two modes, whatever follows |
| Decimal.LastDigit | src/07_miniproj/daemon/fan.c:59-64 | a printed number is that of its tenth followed by its last decimal digit |
| Decimal.StoredIsPrinted | src/07_miniproj/daemon/fan.c:59-64 | printing into 20 bytes with any garbage and parsing with kstrtou32 gives the number back exactly when it is not negative |
| Decimal.ReadIsShown | src/07_miniproj/daemon/fan.c:66-79 | a shown value with a newline comes back through the 19-byte read and atoi |
| FanCtrlObject.StoreThenRead | src/07_miniproj/fan_driver/skeleton.c:118-155 | print, store, show and read back is the identity below 2^31, whatever the buffer held |
| FanProtocol.GetReturnsLastPut | src/07_miniproj/daemon/socket.c:79-82 | in both modes, over any events from any state, GET_FREQUENCY answers status 0 and the frequency last put by an accepted request, a button press or an automatic tick, or the initial one |
| FanProtocol.AutomaticReportsTemperature | src/07_miniproj/daemon/socket.c:79-82 | after an automatic tick and anything that puts no frequency, that is the table's value |
| FanProtocol.GetReturnsLastMode | src/07_miniproj/daemon/socket.c:67-77 | GET_MODE answers the mode last set, inverted by each press of the third button since |
| FanProtocol.StatusMeans | src/07_miniproj/daemon/socket.c:56-106 | status 0 from SET_FREQUENCY exactly for 1..100 in manual mode, which is then the frequency; -1, -34, -38 and -22 exactly for their reasons, and then nothing changes |
| FanProtocol.DegreesAnswered | src/07_miniproj/daemon/socket.c:96-101 | GET_TEMP answers whole degrees cut towards zero |
| FanProtocol.PressesUp | src/07_miniproj/daemon/main.c:81-92 | n presses of the first button raise a manual frequency by n, up to 100 |
| FanProtocol.PressesDown | src/07_miniproj/daemon/main.c:93-104 | n presses of the second lower it by n, down to 1 |
| FanProtocol.ButtonsIgnored | src/07_miniproj/daemon/main.c:81-113 | releases do nothing, and the first two buttons nothing in automatic mode |
| FanProtocol.GetReturnsLastAccepted | src/07_miniproj/daemon/socket.c:79-94 | in manual mode GET_FREQUENCY returns the last accepted value over any events that neither leave the mode nor have a frequency accepted |
| FanProtocol.KeepsFrequencyExactly | src/07_miniproj/daemon/socket.c:67-106 | that class of events is exact |
| FanProtocol.SetModeIdempotent | src/07_miniproj/daemon/socket.c:67-77 | SET_MODE twice is SET_MODE once, status 0 both times, and GET_MODE reports it |
| FanProtocol.StaysInRange | src/07_miniproj/daemon/fan.c:81-95 | no event sequence leaves the range 1..100 |
| FanProtocol.RunningStaysRunning | src/07_miniproj/fan_driver/skeleton.c:80-88 | a running fan in range has a pending timer after any events |
| FanProtocol.StartsExactlyWhenAccepted | src/07_miniproj/fan_driver/skeleton.c:135-151 | a fan that never started has a pending timer exactly once a frequency has been accepted, frequency 0 before that and one in range after |
| FanProtocol.FailedReadLooksLikeZeroDegrees | src/07_miniproj/daemon/socket.c:96-101 | a failed read is answered 0 with status 0, and so is a reading exactly when it is strictly between -1000 and 1000 |
| FanProtocol.ReportsFailuresExactlyWhen | src/07_miniproj/daemon/socket.c:96-101 | over any events, the replies are those of a machine that answers failed reads with an error exactly when no GET_TEMP met a failed read |
| FanDaemonObject.FanDaemon.FanInit | src/07_miniproj/daemon/fan.c:12-21 | the cache starts equal to the driver's mode |
| FanDaemonObject.StartUp | src/07_miniproj/daemon/fan.c:12-21 | loaded and started, the cache agrees with the driver, and the fan runs, at the table's frequency, exactly when the probe-time reading succeeded; otherwise it is off at 0 |
| FanDaemonObject.FanDaemon.FanToggleMode | src/07_miniproj/daemon/fan.c:52-57 | the cache flips and the driver's mode follows it through the text, whatever it was; nothing else changes |
| FanDaemonObject.FanDaemon.FanSetFrequency | src/07_miniproj/daemon/fan.c:59-64 | through the text, the driver ends with exactly this frequency, or unchanged if it is negative or the mode automatic; an accepted positive one starts the timer, and nothing stops it |
| FanDaemonObject.FanDaemon.FanReadFrequency | src/07_miniproj/daemon/fan.c:66-79 | the number read through the text is the driver's frequency |
| FanDaemonObject.FanDaemon.FanGetCpuTemp | src/07_miniproj/daemon/fan.c:28-38 | the temperature through the text, negative ones included, or -1 when the read fails |
| FanDaemonObject.FanDaemon.FanIncreaseFrequency | src/07_miniproj/daemon/fan.c:81-87 | one step up, clamped at 100, from any frequency including 0; in manual mode it starts the timer |
| FanDaemonObject.FanDaemon.FanDecreaseFrequency | src/07_miniproj/daemon/fan.c:89-95 | one step down, clamped at 1, from any frequency including 0; in manual mode it starts the timer |
| FanDaemonObject.FanDaemon.HandleRequest | src/07_miniproj/daemon/socket.c:56-111 | on a running fan or one that never started, every request's response and effect are the two-field machine's, with EPERM, ERANGE and ENOSYS; the timer starts exactly on an accepted frequency |
| FanDaemonObject.FanDaemon.ProcessEvent | src/07_miniproj/daemon/main.c:80-118 | buttons, requests and timer ticks likewise |
| FanDaemonObject.FanDaemon.Serve | src/07_miniproj/daemon/main.c:257-264 | over any event sequence on any fan, replies, final state and pending timer are the two-field machine's |
| FanSystem.DaemonAndDriverAgree | src/07_miniproj/daemon/fan.c:12-95 | with callbacks interleaved anywhere: no write refused, no division by zero, frequency in 1..100, cache equal to the driver's mode between events, and then the timer pending whenever no callback runs |
| FanSystem.AgreedStep | src/07_miniproj/daemon/fan.c:52-95 | every daemon and kernel step keeps the joint invariant |
| FanSystem.EventIsARun | src/07_miniproj/daemon/main.c:80-118 | from rest, every daemon event and every tick is a run of the interleaved system with the two-field machine's effect |
| FanSystem.SessionIsARun | src/07_miniproj/daemon/main.c:257-264 | so is every sequence of events from start-up |
| FanSystem.InRangeExactlyWhenProbeReads | src/07_miniproj/fan_driver/skeleton.c:225-239 | the range holds in all reachable states exactly when the probe-time reading succeeds |
| FanSystem.AcceptedFrequencyIsKeptExactlyWhen | src/07_miniproj/fan_driver/skeleton.c:57-72 | a stored manual frequency survives all callback runs exactly when no automatic callback was awaiting its temperature |
| FanSystem.AcceptedFrequencyCanBeLost | src/07_miniproj/daemon/fan.c:52-64 | the daemon reaches that loss: 50 accepted, manual mode, frequency 2 |
| ClientPool.PoolIsOpenClients | src/07_miniproj/daemon/main.c:121-156 | over every run of batches, stale events included, the pool holds exactly the open descriptors, each once, at most eight |
| ClientPool.SoundStep | src/07_miniproj/daemon/main.c:121-156 | every accept, dispatch and wait keeps that |
| ClientPool.AdmittedAreCounted | src/07_miniproj/daemon/main.c:121-142 | over every run the clients admitted are the accepts that returned a descriptor while fewer than eight were open |
| ClientPool.RoomMeansAdmitted | src/07_miniproj/daemon/main.c:121-142 | each of those is then open, armed and in the entry its registration points to, and nothing else changes; any other accept changes nothing |
| ClientPool.SwapRemoves | src/07_miniproj/daemon/main.c:149-154 | overwriting an entry with the last and dropping the last removes exactly that entry |
| ClientPool.LedgerRun | src/07_miniproj/daemon/main.c:121-156 | every admitted connection is open or answered, never both, never twice |
| ClientPool.AcceptRoutedExactlyWhen | src/07_miniproj/daemon/main.c:133-140 | an accept keeps every registration pointing to its own client exactly when no open client is registered at the slot it takes |
| ClientPool.AcceptAnswersRightExactlyWhen | src/07_miniproj/daemon/main.c:121-156 | after an accept under correct routing, every continuation whose later accepts get free slots answers the ready connections exactly when no open client is registered at the slot taken |
| ClientPool.ServeRouted | src/07_miniproj/daemon/main.c:144-156 | a dispatch under correct routing answers the ready connection itself and keeps the routing through the swap |
| ClientPool.CleanRunsAnswerEveryone | src/07_miniproj/daemon/main.c:121-156 | over every run whose accepts meet the condition, answers are the ready connections in order without repetition, and every other client is still armed or pending |
| ClientPool.ReusedSlotMisroutes | src/07_miniproj/daemon/main.c:133-154 | a run in which a reused slot sends the second client's turn to the third |
| ClientPool.StaleSlotAnswersNobody | src/07_miniproj/daemon/main.c:133-154 | the same run with the third client answered first: the slot names a closed descriptor and the second client is answered by nobody |
| ClientPool.ForgottenStaysForgotten | src/07_miniproj/daemon/main.c:138-140 | a client neither armed nor pending stays so until it is answered by mistake |
| EventLoopObject.EventLoop.AcceptClient | src/07_miniproj/daemon/main.c:121-142 | the in-place accept, rejecting a ninth client |
| EventLoopObject.EventLoop.ClientRequest | src/07_miniproj/daemon/main.c:144-156 | slot looked up at dispatch, client answered and closed, search and swap-remove on the array |
| EventLoopObject.EventLoop.ProcessBatch | src/07_miniproj/daemon/main.c:257-264 | a whole batch processed on the array ends in the pool the functions give, holding the open clients |
| EventLoopObject.BatchHolds | src/07_miniproj/daemon/main.c:257-264 | over a whole batch, stale events included, the pool stays the set of open clients as long as accept returns no descriptor still open |
| EventLoopObject.BatchIsDispatches | src/07_miniproj/daemon/main.c:257-264 | the batch loop is a legal run of the machine's dispatches |
| WaitQueue.OrderDecides | src/02_modules/exercice07/skeleton.c:25-36 | over all interleavings, no sleeper is ever stranded exactly when the condition is set before the wake-up and a waiter takes all there is |
| WaitQueue.ThreeDrivers | src/02_modules/exercice07/skeleton.c:19-43 | of the three drivers only the two-thread module never strands a sleeper |
| WaitQueue.AttendedStep | teacher_solutions/03_drivers/exercice07/drv/skeleton.c:33-56 | with set-then-wake, a sleeper whose condition is true always has a wake-up to come |
| WaitQueue.WakeFirstStrands | src/03_drivers/exercise07/driver/skeleton.c:50-84 | wake-then-increment: a reader asleep at counter 1 with no interrupt in progress |
| WaitQueue.TakeOneStrands | teacher_solutions/03_drivers/exercice07/drv/skeleton.c:49-60 | two pollers are enough to drive the counter to -1 and leave one asleep there |
| WaitQueue.PollersDecide | teacher_solutions/03_drivers/exercice07/drv/skeleton.c:49-60 | with at most k pollers at a time and fewer interrupts than wrap the counter, no poller is ever stranded exactly when k <= 1, and the counter is never negative exactly when k <= 1 |
| WaitQueue.SinglePollerIsSafe | teacher_solutions/03_drivers/exercice07/drv/skeleton.c:49-60 | a single poller is never stranded and the counter never negative, below 2^31 interrupts |
| WaitQueue.SleeperMissesAtMost | src/03_drivers/exercise07/driver/skeleton.c:50-84 | wake-then-increment with at most k interrupts handled at once: a sleeping reader implies a counter of at most k, so 1 when serialised |
| WaitQueue.SleeperCanMissAll | src/03_drivers/exercise07/driver/skeleton.c:50-84 | the bound is reached for every k below 2^31: a reader asleep at counter k with no interrupt in progress |
| WaitQueue.WakeReleasesAll | src/03_drivers/exercise07/driver/skeleton.c:50-84 | the next interrupt's wake-up releases every sleeper, and a signal the one it is sent to |
| WaitQueue.CounterFits | src/03_drivers/exercise07/driver/skeleton.c:50-84 | the counter of a driver that never decrements stays a 32-bit integer |
| InterruptLedger.InterruptsAreConserved | src/03_drivers/exercise07/driver/skeleton.c:51-109 | raised = returned + discarded by resets + dropped by failed copies + held + counter, plus 2^32 per wrap-around, in every interleaving |
| InterruptLedger.ExchangeTakesAll | src/03_drivers/exercise07/driver/skeleton.c:74-84 | after any exchange the counter is zero and the reader holds all that was there |
| InterruptLedger.CounterIsSinceEmpty | src/03_drivers/exercise07/driver/skeleton.c:50-109 | with any number of readers and resets, the counter is the number of increments since it was last emptied |
| InterruptLedger.EachReadCountsItsOwn | src/03_drivers/exercise07/driver/skeleton.c:72-98 | with a single reader each value delivered is the number of interrupts since its previous exchange, and none is zero |
| InterruptLedger.NonBlockingNeverWaits | src/03_drivers/exercise07/driver/skeleton.c:76-79 | a non-blocking reader never joins the queue |
| InterruptLedger.FlagIsSinceClear | src/02_modules/exercice07/skeleton.c:19-43 | the two-thread module's flag is set exactly when there was a notification since it was cleared |
| InterruptLedger.TotalIsExact | src/03_drivers/exercise07/application/src/main.rs:53-60 | if nothing was raised after the last exchange, the application's total is exactly the interrupts |
| InterruptLedger.ApplicationCountsInterrupts | src/03_drivers/exercise07/application/src/main.rs:53-60 | without later resets or faults and below 2^31, the application's total plus held plus counter is the interrupts since its reset |
| InterruptLedger.TotalInterrupts | src/03_drivers/exercise07/application/src/main.rs:41-75 | the accumulation loop over the texts read |
| InterruptLedger.AccumulatesSum | src/03_drivers/exercise07/application/src/main.rs:57-58 | on the driver's texts it adds up the counts |
| InterruptLedger.WrappedCountDoublesTotal | src/03_drivers/exercise07/application/src/main.rs:58 | a negative count doubles the total |
| Decimal.ParsedIsShown | src/03_drivers/exercise07/driver/skeleton.c:87-94 | the driver's text parses back as the count |
| CharDeviceInit.SkeletonModule.SkeletonInit | src/03_drivers/exercise02_to_03/skeleton.c:124-245 | for every device count and set of failing acquisitions: nothing released twice or unheld, right status, everything held on success, exactly the leak otherwise |
| CharDeviceInit.SkeletonModule.AllocateMemory | src/03_drivers/exercise02_to_03/skeleton.c:132-162 | arrays and buffers, rolled back at any failure |
| CharDeviceInit.SkeletonModule.AddDevices | src/03_drivers/exercise02_to_03/skeleton.c:192-240 | devices and nodes one by one, with both rollbacks |
| CharDeviceInit.SkeletonModule.RollBackCdev | src/03_drivers/exercise02_to_03/skeleton.c:199-215 | leaves exactly the i nodes already created |
| CharDeviceInit.SkeletonModule.RollBackNode | src/03_drivers/exercise02_to_03/skeleton.c:217-239 | leaves nothing |
| CharDeviceInit.SkeletonModule.SkeletonExit | src/03_drivers/exercise02_to_03/skeleton.c:247-276 | after a successful load the ledger ends empty, each resource released once |
| CharDeviceInit.OutcomeMeaning | src/03_drivers/exercise02_to_03/skeleton.c:124-245 | loading succeeds exactly when nothing needed fails, and leaks exactly when a character device after the first fails first |
| CharDeviceInit.FailsAtTheFirst | src/03_drivers/exercise02_to_03/skeleton.c:124-245 | loading stops exactly at the needed resource that fails first in the driver's order |
| CharDeviceInit.LoadAndUnload | src/03_drivers/exercise02_to_03/skeleton.c:124-276 | load, then unload if loaded: status (0, -22, -12 or the kernel's code) and leftovers for every failure pattern |
| CharDeviceIo.TextKeeps | src/03_drivers/exercise02_to_03/skeleton.c:95-112 | up to 255 bytes are kept whole, up to the first NUL; of more, the first 255 |
| CharDeviceIo.WriteThenRead | src/03_drivers/exercise02_to_03/skeleton.c:67-112 | reads after a write return a prefix of the data cut at 255 bytes and its first NUL, all of it exactly when enough is asked for, then nothing |
| CharDeviceIo.ReadRunIsPrefix | src/03_drivers/exercise02_to_03/skeleton.c:67-91 | reads are consecutive slices and reach exactly the smaller of what was asked and the text |
| CharDeviceIo.PositiveReadsFinish | src/03_drivers/exercise02_to_03/skeleton.c:67-112 | after a write, as many positive-count reads as the text has bytes return all of the text |
| CharDeviceIo.OnlyWritesAreVisible | src/03_drivers/exercise02_to_03/skeleton.c:95-112 | after any writes to a fresh buffer, failed ones included, a reader sees just what the last one copied, never the uninitialised bytes |
| CharDeviceIo.SkeletonFile.Read | src/03_drivers/exercise02_to_03/skeleton.c:67-91 | one read: slice, offset, EFAULT without moving |
| CharDeviceIo.SkeletonFile.Write | src/03_drivers/exercise02_to_03/skeleton.c:95-112 | one write: cut, terminated, offset reset, or a partial copy filled up with zeros, offset kept, and EFAULT |
| CharDeviceIo.ReadMany | src/03_drivers/exercise02_to_03/skeleton.c:67-91 | a file read piece by piece gives the run of slices |
| CharDeviceIo.Skeleton.constructor | src/03_drivers/exercise02_to_03/skeleton.c:148-162 | distinct empty buffers, one per device |
| CharDeviceIo.Skeleton.Open | src/03_drivers/exercise02_to_03/skeleton.c:33-56 | the minor's own buffer, or ENODEV |
| CharDeviceIo.Skeleton.WriteAndRead | src/03_drivers/exercise02_to_03/skeleton.c:33-112 | open, write, read piecewise on the same file and again on a second one: both get the same prefix of the text, all of it exactly when enough is asked for; no other device's buffer changes; ENODEV for a minor out of range |
| Ssd1306.PutsAt | src/07_miniproj/daemon/ssd1306.c:177-200 | set_position then puts paints exactly the text's window with its glyphs |
| Ssd1306.ClearZeroes | src/07_miniproj/daemon/ssd1306.c:202-212 | clear_display leaves every byte zero and the display on |
| Ssd1306.InitBlanks | src/07_miniproj/daemon/ssd1306.c:124-233 | from any power-on contents init leaves a blank display, no command half sent |
| Ssd1306.PositionMoves | src/07_miniproj/daemon/ssd1306.c:177-182 | the three commands address the character cell |
| Ssd1306.Display.SetPosition | src/07_miniproj/daemon/ssd1306.c:177-182 | the bytes set_position sends |
| Ssd1306.Display.Putc | src/07_miniproj/daemon/ssd1306.c:184-194 | the eight glyph bytes, blanks for non-printables |
| Ssd1306.Display.Puts | src/07_miniproj/daemon/ssd1306.c:196-200 | the glyphs up to the first NUL |
| Ssd1306.Display.ClearDisplay | src/07_miniproj/daemon/ssd1306.c:202-212 | the bytes clear_display sends |
| Ssd1306.Display.Init | src/07_miniproj/daemon/ssd1306.c:214-233 | the init commands, then a clear |
| Screen.DisplayShowsGrid | src/07_miniproj/daemon/screen.c:7-51 | after screen_init and any refreshes, display memory is the 8 x 16 character grid, glyph by glyph |
| Screen.ShownByte | src/07_miniproj/daemon/ssd1306.c:184-200 | what that means byte by byte: each cell holds the font's entry for the character's code less 32 |
| Screen.OtherRowsStay | src/07_miniproj/daemon/screen.c:7-51 | rows 0, 1, 2, 4 and 7 keep the welcome text for ever |
| Screen.RowsReadBack | src/07_miniproj/daemon/screen.c:28-51 | the numbers read off rows 5 and 6 are the temperature in whole degrees and the frequency, with their units, or dashes |
| Screen.RefreshEffect | src/07_miniproj/daemon/screen.c:28-51 | a refresh overwrites the start of rows 3, 5 and 6 and nothing else |
| Screen.ModeRowIsCurrent | src/07_miniproj/daemon/screen.c:34-35 | row 3 is exactly "Mode: Manual" in manual mode and "Mode: Auto" otherwise, padded |
| Screen.TempRowIsCleanExactlyWhen | src/07_miniproj/daemon/screen.c:24-45 | row 5 starts with the current temperature and shows it alone exactly when the text reaches as far as the visible part of what was there |
| Screen.TempRowIsCurrent | src/07_miniproj/daemon/screen.c:24-45 | below 1000 degrees that is always so: the two trailing blanks absorb every drop |
| Screen.FrequencyRowIsCleanExactlyWhen | src/07_miniproj/daemon/screen.c:24-50 | row 6 starts with the current frequency and shows it alone exactly when no earlier text, the welcome text included, was longer |
| Screen.OneDigitIsNeverClean | src/07_miniproj/daemon/screen.c:24-50 | after any history, a one-digit frequency is not shown alone |
| Screen.OneDigitIsGarbled | src/07_miniproj/daemon/screen.c:24-50 | a first one-digit frequency keeps the welcome text's last letter |
| Screen.StatusScreen.ScreenInit | src/07_miniproj/daemon/screen.c:7-25 | the traffic of screen_init |
| Screen.StatusScreen.ScreenRefresh | src/07_miniproj/daemon/screen.c:28-51 | the traffic of one refresh, through the 20-byte buffers |
| Screen.StatusScreen.Session | src/07_miniproj/daemon/screen.c:7-51 | the traffic of a whole session |
| LeakList.AlphaList.Append | src/01_environment/memory_leaks/mem_leaks.c:50-58 | the traversal finds the last element and links the new one; the list stays acyclic |
| LeakList.AlphaList.Alloc | src/01_environment/memory_leaks/mem_leaks.c:77-85 | one more element, attributes stay the window of i -> i/2, counters as promised |
| LeakList.AlphaList.Dealloc | src/01_environment/memory_leaks/mem_leaks.c:87-92 | the front element goes, or nothing on an empty list |
| LeakList.Perform | src/01_environment/memory_leaks/mem_leaks.c:45-92 | any interleaving of operations keeps the list, the window and the counters |
| LeakList.Demo | src/01_environment/memory_leaks/mem_leaks.c:94-111 | the program leaks 3985 blocks, attributes 7 to 1999 |
| HostCounter.Host | src/06_optimization/ex03/ApacheAccessLogAnalyzer.cpp:30-31 | the line's longest prefix without a space |
| HostCounter.CountWithSet | src/06_optimization/ex03/HostCounter.cpp:9-26 | the hash-set counter reports the number of distinct hosts |
| HostCounter.CountWithList | teacher_solutions/06_optimization/ex03/HostCounter.cpp:9-26 | the list counter reports the same number |
| LoopOrder.RowOrder | src/06_optimization/ex01/main.c:11-20 | every cell raised by the repeat count |
| LoopOrder.ColumnOrder | teacher_solutions/06_optimization/ex01/main.c:11-20 | every cell raised by the repeat count |
| LoopOrder.BothOrders | src/06_optimization/ex01/main.c:11-20 | from equal arrays the two orders end in equal arrays |

## Left out

- Real I/O: sysfs, epoll, sockets, I2C and GPIO calls are steps with a result; sysfs operations of the daemon succeed.
- FanDriver.AfterProbe: probe is atomic, although its sysfs files exist just before its callback runs; its failure paths before that are not modelled.
- FanDriver.Enabled: what follows a division by zero, which the language leaves undefined and the hardware decides; the model stops there.
- FanDaemonObject.FanDaemon.FanReadFrequency: frequencies from 2^31 up, which do not fit in its int and which the daemon never stores; where one more is added, 2^31 - 1 is left out too.
- Jiffies rounding, timer granularity and module removal of the fan driver.
- The callback's toggle of `gpio_state` is one step; pin and state are otherwise separate steps.
- The LED driven by the buttons, and a blocking recv on a client that has sent nothing.
- ClientPool.PoolIsOpenClients: descriptors the daemon holds besides its clients are not modelled, because it opens none after start-up.
- WaitQueue: a wait's first test before joining the queue is merged with the test after joining; kthread_stop wakes the whole queue, which holds only the stopped thread.
- The edge-triggered registration of the Rust application, and the poll method of the counting driver, which reads the counter and changes nothing.
- InterruptLedger.TotalInterrupts: overflow of the application's own u32 total is not modelled; the theorem about it stays below 2^31.
- WaitQueue.PollersDecide: the decrementing driver's counter does not wrap below -2^31, which takes that many polls at once.
- CharDeviceInit: kernel error codes are one parameter; names and device numbers are not modelled.
- CharDeviceIo.WriteThenRead: other files writing to the same device in between are left out.
- Ssd1306: the font is any 96 x 8 table whose first entry is blank; addressing modes other than page mode are not modelled.
- Screen.DisplayShowsGrid: only for temperatures and frequencies whose text fits in 16 cells.
- LeakList: a failed malloc, which the program does not handle.
- LoopOrder.RowOrder: integers are unbounded; ten repeats do not overflow an int32.
- fibonacci, clock, affinity, daemonising, better_led and silly_led: measurement or process plumbing with easy facts only.
