# CAN and IIO kernel modules: a verified model

This project models the SocketCAN stack of `linux_kernel_modules/can_9x15` and the scan,
trigger and text core of `linux_kernel_modules/iio`, and proves what they keep over whole
runs. `dafny verify dfyconfig.toml` checks all of it.

- **Broadcast manager** (`BcmRx*`, `BcmTx*`): the receive operation with its content filter,
  multiplex slots, throttle timer and tasklet, and the cyclic transmit operation, as step
  systems with time in nanoseconds. Timer expiries, tasklets, frames and setups are separate steps.
- **Dispatcher and raw sockets** (`Can*`, `Raw*`): the receive lists of the CAN core, kept equal
  to a plain table of registrations while sockets bind, change filters, fail half-way and lose
  devices. `RawDelivery` ends at what a socket is called for, `RawCalls` at what each call leaves.
- **Bit timing** (`BitTiming`, `BitTimingCalc`, `BitTimingResult`, `Mcp251xTiming`): the search for a
  prescaler and segments, the check that undoes it, and the registers it is packed into.
- **MCP251x** (`Mcp251xFrame`, `Mcp251xChip`, `Mcp251xTx`, `Mcp251xProgress`, `Mcp251xDriver`):
  identifier encoding, the two controllers' transfer paths, and the one-frame-in-flight protocol with
  its echo slot.
- **IIO** (`ScanLayout`, `IioDemux`, `IioDemuxData`, `IioScanBuffer`, `IioBuffers`, `IioBufferRuns`,
  `IioDevice`, `IioTrigger`, `IioTriggerDevice`, `IioText`): scan layouts and demultiplexing, listed buffers and
  the active mask, trigger rounds, and decimal text.

Code that changes things in place has a class or a loop whose contract equates its effect with
a function on values (`BcmRxOperation`, `BcmTxOperation`, `CanCore`, `RawSocket`, `Mcp251xChip`,
`Mcp251xDriver`, `IioScanBuffer`, `IioDevice`, `IioTriggerDevice`); the laws are proved about
those functions. Machine words are the sets of their one bits (`Words`), so that AND, OR and
shifts are set operations; bit-vectors are used where values are packed.

Conventions: a section that the code runs under a lock is one step. Memory allocation, driver
hooks, register contents and the clock are parameters. C ints that can wrap or are compared as
unsigned are modelled as such (`Int`, `Unsigned`, `Divisor`, `Wrap32`).

## Findings

Properties that hold only under a condition are stated with the exact condition, each with an
input at which it fails. Paths are below `linux_kernel_modules`.

- `can_9x15/bcm.c:856-874`: a TX_SETUP refused for a bad frame length leaves that frame in the running
  cycle (`UpdateStaysClean`); one frame of length 9 for a running one-frame cycle is sent by its
  next timer (`RefusedFrameIsSent`).
- `can_9x15/bcm.c:349-400`: a tasklet still scheduled when a TX_SETUP starts the next cycle sends the second
  frame early, if there is to be one (`CycleTimes`, input `EarlyFrame`). The timer never stops before the
  last frame (`NeverStopsEarly`), but that tasklet, or the expiry left behind when it uses up the count, can
  come after the last frame and then does nothing (`TimerStops`, input `LateStop`). A run from the first
  TX_SETUP shows both (`LeftoverIsReached`).
- `can_9x15/af_can.c:385-387`: a filter for standard frames only that also compares bits beyond the
  eleventh does not mean what the interface documents (`NormaliseAsDocumented`; `Unsatisfied` gives
  the identifier).
- `can_9x15/bcm.c:76-78`: a single-identifier subscription whose identifier carries the error bit is
  taken for an inverted filter (`RegMaskSelectsOne`; `RegMaskSelectsOther` gives the identifier it selects).
- `can_9x15/dev.c:127-202`: when the bitrate can be met exactly but every exact candidate's sample point is
  too far off, the search sets its error to zero without taking one. If no other candidate was held
  before, the calculation divides by zero (`CalcBittiming`, `Faults`): 8 MHz, 5 kbit/s, sample point
  5000 with the MCP251x limits (`Mcp251xTiming.FaultIsReached`). Otherwise it succeeds without the error
  check, with a timing that is not optimal (`Unchecked`): at 500 kbit/s it returns 470588 bit/s
  (`UncheckedIsReached`). A sample point that skews no segment count rules both out
  (`NeverSkewedNeverFaults`).
- `can_9x15/dev.c:132`: the number of quanta times the bitrate is a 32-bit word; the calculation also divides
  by zero when that word is zero before a perfect candidate ends the search (`DividesByZero`):
  24 quanta of 2^31 bit/s (`ZeroIsReached`). Smaller bitrates rule it out (`SmallBitratesNeverDivideByZero`).
- `can_9x15/dev.c:230-234`: the bit-timing check accepts segments that do not fit the MCP251x registers
  (`CheckedTimingFits`): one propagation quantum and 15 of phase segment 1 at 16 MHz
  (`CheckedTimingThatDoesNotFit`), or segments whose sum wraps (`WrappedTimingPasses`).
- `can_9x15/mcp251x.c:920-930`: a transmit interrupt with nothing in flight still counts a packet and takes
  one from the byte count (`CountersRightIff`): right after opening the device (`SpuriousInterruptCounts`).
- `iio/industrialio-buffer.c:957-971`: with mixed channel widths the demultiplexer's skip loop adds the width
  of the channel it lands on; the copies are right for every buffer exactly if each channel is no
  narrower than the one before it and divides that one's start (`SourcesRightIff`; a buffer with the
  later channel of an unfriendly pair fails, `UnfriendlyPairFails`). The timestamp needs
  `StampFollows` (`StampRightIff`).
- `iio/industrialio-buffer.c:599-613`: `__iio_update_buffers` follows a null pointer when buffers without
  channels are left on a device with fixed masks (`FaultIff`, run `IioBuffers.FaultIsReached`), and
  at 612-690 can leave a device running with no buffer (`OrphansIff`, run `OrphanIsReached`).
- `iio/industrialio-trigger.c:123-124`: `iio_trigger_poll` reads and sets its counter in two operations;
  rounds stay apart exactly if every poll that read zero still finds zero (`RoundsNeverOverlap`),
  which two polls at once violate (`TwoPollsOverlap`).
- `iio/industrialio-core.c:394-429`: printing and reading back a value is the identity exactly for `Readable`
  values (`RoundTripIff`): -1 and -1 millionth print as -1.000001, which reads back as -1 and +1
  (`SignsComeApart`).

## Model

| member | source | states |
|---|---|---|
| BcmRxRuns.NoUpdateForgotten | linux_kernel_modules/can_9x15/bcm.c:435-627 | in every run a throttled slot has an armed timer, and any other received slot holds the frame the user was sent last |
| BcmRxRuns.UpdateKeeps | linux_kernel_modules/can_9x15/bcm.c:435-473 | storing and sending, or holding back, one frame forgets no update |
| BcmRxRuns.SetupKeeps | linux_kernel_modules/can_9x15/bcm.c:1014-1158 | an RX_SETUP that shrinks the slots, enters RTR mode or changes timers forgets no update |
| BcmRxRuns.TimeoutKeeps | linux_kernel_modules/can_9x15/bcm.c:524-560 | a timeout, with or without clearing the slots, forgets no update |
| BcmRxRuns.TaskletBringsUpToDate | linux_kernel_modules/can_9x15/bcm.c:582-607 | after the throttle tasklet the user has the latest content of every received slot |
| BcmRxRuns.ExpirySchedulesFlush | linux_kernel_modules/can_9x15/bcm.c:613-627 | a throttle expiry schedules the tasklet and stays armed exactly if a slot was held back |
| BcmRxRuns.FilterTracksContent | linux_kernel_modules/can_9x15/bcm.c:479-510 | a slot takes a frame exactly if they differ in a bit, or a length, that the operation checks |
| BcmRxRuns.FilterUpdatesTarget | linux_kernel_modules/can_9x15/bcm.c:632-689 | a frame is compared with one slot only: the first whose multiplex bits it matches |
| BcmRxRuns.FlushEffect | linux_kernel_modules/can_9x15/bcm.c:565-599 | a flush sends every held-back slot in range once and leaves the others alone |
| BcmRxSpacing.ThrottleSpacing | linux_kernel_modules/can_9x15/bcm.c:435-473 | from the first or a later RX_SETUP on, in every run with punctual timers, RX_CHANGED messages carry one instant or lie the throttle interval apart |
| BcmRxSpacing.RunPaces | linux_kernel_modules/can_9x15/bcm.c:582-627 | the spacing invariant survives immediate sends, forwarded timer periods and the reset of the last message time |
| BcmRxSpacing.SetupThrottle | linux_kernel_modules/can_9x15/bcm.c:1117-1158 | an RX_SETUP that sets timers disarms the throttle and forgets the last send; any other leaves it alone |
| BcmRxPromptness.LeavesAtOnceIff | linux_kernel_modules/can_9x15/bcm.c:435-473 | a new content is told at once exactly without throttling, or with no timer armed and the last message an interval ago or forgotten; else it is held, under the armed timer or one that ends an interval after the last message |
| BcmRxPromptness.FirstIsSentAtOnce | linux_kernel_modules/can_9x15/bcm.c:435-473 | after an RX_SETUP that sets the timers, whatever happened since, the first frame that passes the filter is told when it arrives |
| BcmRxPromptness.HeldLeavesOnTime | linux_kernel_modules/can_9x15/bcm.c:435-627 | in every punctual run without steps that clear slots, a slot with held content is told exactly one interval after the latest message, or now if the tasklet is pending |
| BcmRxPromptness.RunRegular | linux_kernel_modules/can_9x15/bcm.c:435-627 | in every punctual run an armed throttle timer ends one interval after a message, or after those the pending tasklet is to send |
| BcmRxSetup.RefusedIff | linux_kernel_modules/can_9x15/bcm.c:996-1025 | exactly the malformed RX_SETUPs are refused, and those with more frames than the operation has |
| BcmRxSetup.StoresContent | linux_kernel_modules/can_9x15/bcm.c:1027-1092 | an accepted RX_SETUP stores its frames in order, its flags and its number of frames |
| BcmRxSetup.StoresTimeout | linux_kernel_modules/can_9x15/bcm.c:1132-1158 | the timeout takes a new interval only with SETTIMER, starts only with STARTTIMER, and stops for a zero interval |
| BcmRxSetup.StartsEmpty | linux_kernel_modules/can_9x15/bcm.c:1027-1036 | all its slots start without content |
| BcmRxSetup.StartsQuiet | linux_kernel_modules/can_9x15/bcm.c:1043-1105 | a first RX_SETUP leaves nothing told, pending or held back |
| BcmRxSetup.MuxSlotIsFirst | linux_kernel_modules/can_9x15/bcm.c:668-685 | a multiplex frame goes to the first slot that has its bits under the mask, bit by bit, or to none |
| BcmRxSetup.RequestsAreAnswered | linux_kernel_modules/can_9x15/bcm.c:1114-1130 | in RTR mode every remote request is answered with the message's frame, never with a remote request for the same identifier |
| BcmRxSetup.FrameRestartsTimeout | linux_kernel_modules/can_9x15/bcm.c:515-522 | a frame for the identifier restarts the timeout unless there is none, any other stops it |
| BcmRxSetup.SilenceTimesOut | linux_kernel_modules/can_9x15/bcm.c:524-560 | in every run of silence with a punctual timer there is exactly one RX_TIMEOUT, one interval after the frame, and none before |
| BcmRxSetup.ResumeIsAnnounced | linux_kernel_modules/can_9x15/bcm.c:544-560 | with RX_ANNOUNCE_RESUME whatever frame comes next after a timeout passes the filter |
| BcmRx.FindMux | linux_kernel_modules/can_9x15/bcm.c:670-684 | the multiplex search ends at the first slot whose masked bits are the frame's, or past the last |
| BcmRx.Forward | linux_kernel_modules/can_9x15/bcm.c:613-627 | a forwarded expiry lies a whole number of intervals behind the old one and is the first such after now |
| BcmRxOperation.RxOperation.constructor | linux_kernel_modules/can_9x15/bcm.c:1043-1158 | a new operation has zeroed slots and the message's filters and timers |
| BcmRxOperation.RxOperation.UpdateAndSend | linux_kernel_modules/can_9x15/bcm.c:435-473 | in place: store the frame, then send it, arm the timer or leave it armed, as LeavesAtOnceIff says when |
| BcmRxOperation.RxOperation.ThrottleFlush | linux_kernel_modules/can_9x15/bcm.c:582-599 | in place: the loop over the slots sends or counts what is held back |
| BcmRxOperation.RxOperation.ThrottleHandler | linux_kernel_modules/can_9x15/bcm.c:613-627 | in place: schedule the tasklet and forward or disarm the timer |
| BcmRxOperation.RxOperation.Handler | linux_kernel_modules/can_9x15/bcm.c:632-689 | in place: a received frame's whole way through the operation |
| BcmRxOperation.RxOperation.CompareFrame | linux_kernel_modules/can_9x15/bcm.c:656-685 | in place: the multiplex loop compares the frame with the first slot that fits |
| BcmRxOperation.RxOperation.TimeoutHandler | linux_kernel_modules/can_9x15/bcm.c:544-560 | in place: clear the slots if asked to and schedule the timeout message |
| BcmRxOperation.RxOperation.Update | linux_kernel_modules/can_9x15/bcm.c:1014-1158 | in place: an RX_SETUP for an existing operation, or its error |
| BcmTxRuns.CycleCounts | linux_kernel_modules/can_9x15/bcm.c:349-388 | after a starting TX_SETUP of count c, frames sent and count left add up to c until the count is used up, TX_EXPIRED was queued by then once iff c >= 2 and asked for, frames in rotation |
| BcmTxRuns.LastCountedTick | linux_kernel_modules/can_9x15/bcm.c:361-388 | the tick that uses up a count sends the last frame of it: exactly c have been sent |
| BcmTxRuns.FirstPhaseIsExact | linux_kernel_modules/can_9x15/bcm.c:361-388 | every run that uses up the count does so at one step, with exactly max(1,c) frames sent, second interval or not |
| BcmTxRuns.TimerStops | linux_kernel_modules/can_9x15/bcm.c:349-388 | in every run the timer stops exactly with the count used up and no second interval, if and only if no tasklet was left over, or there is a second interval, or three frames to count |
| BcmTxRuns.NeverStopsEarly | linux_kernel_modules/can_9x15/bcm.c:349-388 | in every run, whatever was left over, the timer stops only with the count used up and no second interval |
| BcmTxRuns.CycleStartsAlive | linux_kernel_modules/can_9x15/bcm.c:954-980 | a cycle starts with one pending expiry exactly if no tasklet was left over |
| BcmTxRuns.SetupsAreStarted | linux_kernel_modules/can_9x15/bcm.c:829-983 | every accepted TX_SETUP, first or later, starts the cycle the counts are proved for |
| BcmTxRuns.CycleTimes | linux_kernel_modules/can_9x15/bcm.c:349-400 | with punctual timers the k-th frame leaves at its planned time, if and only if no tasklet was left over or there is a single frame |
| BcmTxRuns.LeftoverIsReached | linux_kernel_modules/can_9x15/bcm.c:349-400 | a run from the first TX_SETUP in which a left-over tasklet sends early and an idle expiry follows the last frame |
| BcmTxRuns.PlannedClosedForm | linux_kernel_modules/can_9x15/bcm.c:349-359 | the planned times are first intervals for the count, then second intervals |
| BcmTxRuns.UpdateStaysClean | linux_kernel_modules/can_9x15/bcm.c:856-874 | a running cycle has only valid frames after a TX_SETUP exactly if the message is valid or refused before copying |
| BcmTxRuns.RefusedFrameIsSent | linux_kernel_modules/can_9x15/bcm.c:856-874 | a run in which a refused frame of length 9 is sent |
| BcmTxSetup.CopyStores | linux_kernel_modules/can_9x15/bcm.c:859-874 | the copy loop stores every frame before the first bad one with its length and data, and its identifier unless TX_CP_CAN_ID replaces it, the bad one as it is, and leaves the rest |
| BcmTxSetup.RefusedIff | linux_kernel_modules/can_9x15/bcm.c:838-874 | exactly the messages with no or too many frames or a bad length are refused, unchanged if no frame was copied |
| BcmTxSetup.SendsWhatWasSet | linux_kernel_modules/can_9x15/bcm.c:829-983 | after any accepted TX_SETUP, in every run up to the next, the k-th frame sent is the message's frame (first + k) mod nframes, with its identifier replaced exactly if asked for |
| BcmTxSetup.SentAtSetup | linux_kernel_modules/can_9x15/bcm.c:966-977 | a frame leaves with the TX_SETUP exactly if it starts the timer or announces, and is taken off the count in force |
| BcmTxSetup.TimerAfterSetup | linux_kernel_modules/can_9x15/bcm.c:951-980 | a timer starts with STARTTIMER alone, runs exactly if there is an interval for it, and stops otherwise only for two zero intervals |
| BcmTxSetup.AdoptDoes | linux_kernel_modules/can_9x15/bcm.c:936-964 | count and intervals are the message's with SETTIMER and stay without |
| BcmTxSetup.SecondIntervalAlone | linux_kernel_modules/can_9x15/bcm.c:361-388 | without a first interval an expiry sends at the second interval and counts nothing |
| BcmTx.Run | linux_kernel_modules/can_9x15/bcm.c:244-283 | the frame index stays inside the operation's frames in every run |
| BcmTxOperation.TxOperation.CanTx | linux_kernel_modules/can_9x15/bcm.c:244-283 | in place: send the current frame and advance the index, or do nothing without a device |
| BcmTxOperation.TxOperation.TimeoutTasklet | linux_kernel_modules/can_9x15/bcm.c:361-388 | in place: count down, notify, send and start the timer again |
| BcmTxOperation.TxOperation.CopyFromUser | linux_kernel_modules/can_9x15/bcm.c:859-874 | in place: the copy loop; CopyStores says what it stores |
| BcmTxOperation.TxOperation.Update | linux_kernel_modules/can_9x15/bcm.c:829-983 | in place: a TX_SETUP for an existing operation, or its error |
| BcmTxOperation.CreateOperation | linux_kernel_modules/can_9x15/bcm.c:876-983 | the first TX_SETUP for an identifier, or nothing if it is refused |
| CanFilter.NormaliseAsDocumented | linux_kernel_modules/can_9x15/af_can.c:340-415 | the normalised filter means what is documented exactly if a standard-only filter compares no bit beyond the eleventh |
| CanFilter.ErrorFilterAsDocumented | linux_kernel_modules/can_9x15/af_can.c:367-377 | an error filter selects the error frames with an error class bit of its mask |
| CanFilter.ListTestIsExact | linux_kernel_modules/can_9x15/af_can.c:587-650 | the cheap test of each list selects what the full filter condition selects |
| CanFilter.RegMaskSelectsOne | linux_kernel_modules/can_9x15/bcm.c:76-78 | a REGMASK subscription selects its identifier alone exactly if that is well-formed |
| CanIndex.DeliveredIsScan | linux_kernel_modules/can_9x15/af_can.c:587-650 | can_rcv_filter calls the same receivers, each as often, as a scan of all registrations |
| CanIndex.DispatchAsDocumented | linux_kernel_modules/can_9x15/af_can.c:340-415 | on well-formed identifiers those are the documented subscribers |
| CanIndex.AddIndexes | linux_kernel_modules/can_9x15/af_can.c:463-480 | registering keeps lists, table and entry count in agreement |
| CanIndex.RemoveIndexes | linux_kernel_modules/can_9x15/af_can.c:524-561 | unregistering keeps lists, table and entry count in agreement, also for a filter that is not there |
| CanIndex.AddThenRemove | linux_kernel_modules/can_9x15/af_can.c:463-561 | unregistering what was just registered restores every list and the count |
| CanRegistry.RunAgrees | linux_kernel_modules/can_9x15/af_can.c:446-578 | in every run of registrations and device events the lists are exactly the registrations in force |
| CanRegistry.ReceiveIsScan | linux_kernel_modules/can_9x15/af_can.c:652-680 | in every run a frame reaches the receivers for all devices and for its device, as a scan would |
| CanRegistry.FreedOnlyWhenEmpty | linux_kernel_modules/can_9x15/af_can.c:566-570 | a device's lists are freed only by its departure when empty, or with its last registration afterwards |
| CanRegistry.RegisterThenUnregister | linux_kernel_modules/can_9x15/af_can.c:446-578 | register and unregister are inverse on the whole registry, and a failed register changes nothing |
| CanRegistry.EveryRunIsSound | linux_kernel_modules/can_9x15/af_can.c:797-843 | lists marked for removal are never empty |
| CanCore.FindRcvList | linux_kernel_modules/can_9x15/af_can.c:367-415 | the branches find the list, identifier and mask of the normal form |
| CanCore.DeviceLists.Delete | linux_kernel_modules/can_9x15/af_can.c:543-561 | in place: the first equal receiver is taken out, or nothing |
| CanCore.DeviceLists.Walk | linux_kernel_modules/can_9x15/af_can.c:597-647 | one list's loop calls and counts the receivers that pass |
| CanCore.DeviceLists.RcvFilter | linux_kernel_modules/can_9x15/af_can.c:587-650 | the receivers called over all lists, in order, and their number |
| CanCore.Core.RxRegister | linux_kernel_modules/can_9x15/af_can.c:446-491 | in place: one list grows, or an error and nothing else |
| CanCore.Core.RxUnregister | linux_kernel_modules/can_9x15/af_can.c:515-578 | in place: one list shrinks, and a departed device's lists go with the last entry |
| CanCore.Core.NotifyRegister | linux_kernel_modules/can_9x15/af_can.c:811-821 | in place: empty lists for a new device; a device that has lists stops the machine |
| CanCore.Core.NotifyUnregister | linux_kernel_modules/can_9x15/af_can.c:823-839 | in place: free empty lists, mark others |
| CanCore.Core.Receive | linux_kernel_modules/can_9x15/af_can.c:652-680 | the receivers for all devices, then the device's |
| RawSocket.EnableFilters | linux_kernel_modules/can_9x15/raw.c:158-179 | in place: all filters are registered or, after the roll-back, none and nothing has changed |
| RawSocket.RollBack | linux_kernel_modules/can_9x15/raw.c:169-173 | taking registrations out last to first restores the registry |
| RawSocketRuns.UndoAll | linux_kernel_modules/can_9x15/raw.c:222-235 | taking registrations out first to last restores it too, lists and order |
| RawSocket.RawSock.EnableAll | linux_kernel_modules/can_9x15/raw.c:222-235 | in place: filters and error mask together, or nothing |
| RawSocket.RawSock.Bind | linux_kernel_modules/can_9x15/raw.c:354-427 | in place: bind and rebind; BindDoneIff says when it is done and what it leaves |
| RawSocket.RawSock.SetFilter | linux_kernel_modules/can_9x15/raw.c:465-517 | in place: the new filters replace the old ones, or nothing changes |
| RawSocket.RawSock.SetErrFilter | linux_kernel_modules/can_9x15/raw.c:521-556 | in place: the new error mask replaces the old one, or nothing changes |
| RawSocket.RawSock.NotifyUnregister | linux_kernel_modules/can_9x15/raw.c:237-282 | in place: a departing device takes the binding and the filters; the error mask stays |
| RawSocket.RawSock.Release | linux_kernel_modules/can_9x15/raw.c:310-352 | in place: a closed socket has no registration left |
| RawSocketRuns.BindSettles | linux_kernel_modules/can_9x15/raw.c:354-427 | after a bind the registry holds the socket's entries on its device only, and everybody else's as before |
| RawSocketRuns.SetFilterSettles | linux_kernel_modules/can_9x15/raw.c:465-517 | after a filter change the registry holds exactly what the socket's state asks for |
| RawSocketRuns.SetErrFilterSettles | linux_kernel_modules/can_9x15/raw.c:521-556 | after an error filter change the registry holds exactly what the socket's state asks for |
| RawSocketRuns.BereftSettles | linux_kernel_modules/can_9x15/raw.c:255-268 | after a device has gone a socket bound to it has no entry anywhere |
| RawSystem.SocketsAndRegistryAgree | linux_kernel_modules/can_9x15/raw.c:158-551 | in every run of all sockets, other users and devices, a bound socket's entries are its filters and error mask, an unbound one has none |
| RawDelivery.SocketGetsItsFrames | linux_kernel_modules/can_9x15/raw.c:158-191 | in every run a frame calls a socket once for each of its filters that documents a match, if it is bound there |
| RawCalls.BindDoneIff | linux_kernel_modules/can_9x15/raw.c:354-427 | a bind is done exactly if the socket is bound there or the device is a CAN device (or all) and its filters fit; then it is bound there with the same filters and mask, else nothing has changed |
| RawCalls.BindDelivers | linux_kernel_modules/can_9x15/raw.c:354-427 | after such a bind, in any run, a frame from the device calls the socket once for each filter that wants it, and one from elsewhere does not |
| RawCalls.SetFilterDoneIff | linux_kernel_modules/can_9x15/raw.c:465-517 | a filter change is done exactly if the socket is unbound or the new filters fit, and then they are stored |
| RawCalls.SetErrFilterDoneIff | linux_kernel_modules/can_9x15/raw.c:521-556 | so is an error mask change, with the 29 error bits of the mask given |
| RawCalls.NewSocketWantsAll | linux_kernel_modules/can_9x15/raw.c:284-308 | a new socket is unbound and wants every data and remote frame once and no error frame |
| RawCalls.CloseSilences | linux_kernel_modules/can_9x15/raw.c:310-352 | in any run a closed socket is called for nothing |
| RawCalls.DepartureUnbinds | linux_kernel_modules/can_9x15/raw.c:255-274 | in any run a departing CAN device unbinds every socket bound to it, without filters, and changes no other |
| RawCalls.ArrivalAnnounces | linux_kernel_modules/can_9x15/af_can.c:798-822 | a device that comes is there, and a CAN device has receive lists |
| RawCalls.EveryRunIsChained | linux_kernel_modules/can_9x15/raw.c:284-352 | in every run each open socket's notifier is registered once and no other's |
| BitTiming.SplitLimits | linux_kernel_modules/can_9x15/dev.c:86-100 | for every sample point word a split adds up with tseg1 within limits; tseg2 too exactly if the sample point is not skewed, or the segments leave it no choice |
| BitTiming.SearchIsOptimal | linux_kernel_modules/can_9x15/dev.c:127-161 | the result is lexicographically optimal exactly if an exact candidate's sample point is within the initial bound, or there is none |
| BitTiming.Consider | linux_kernel_modules/can_9x15/dev.c:133-160 | one candidate: skipped, error lowered only, taken, or taken and the search ended |
| BitTiming.Search | linux_kernel_modules/can_9x15/dev.c:127-161 | the loop with its continues and its break has explored all candidates in effect, or divides by a wrapped zero |
| BitTiming.SampleErrorsBounded | linux_kernel_modules/can_9x15/dev.c:144-152 | for sample points up to 1000 that skew no segment count the initial bound is met |
| BitTiming.TwoPrescalersSuffice | linux_kernel_modules/can_9x15/dev.c:129-137 | rounding the prescaler down and up is enough: no other comes closer |
| BitTiming.SearchIsGlobal | linux_kernel_modules/can_9x15/dev.c:127-161 | with every prescaler allowed and no wrapped divisor, the result beats all pairs of segments and prescaler |
| BitTimingCalc.CheckDecides | linux_kernel_modules/can_9x15/dev.c:163-175 | the five percent check accepts exactly if some candidate is that close |
| BitTimingCalc.CalcBittiming | linux_kernel_modules/can_9x15/dev.c:102-205 | it divides by zero exactly if a divisor wraps to zero or the candidates fault; else it succeeds exactly if a candidate is within five percent, with an optimal one's timing, or if no exact candidate's sample point is near, then unchecked and not optimal |
| BitTimingResult.ChosenNumbers | linux_kernel_modules/can_9x15/dev.c:177-202 | the returned bitrate is the clock's for prescaler and quanta, rounded down, and misses the wanted one by the error the search minimised; segments, sample point, quantum and jump width are those of the candidate |
| BitTimingResult.SplitIsLatest | linux_kernel_modules/can_9x15/dev.c:86-100 | for a sample point inside the bit that is not skewed, the code takes the latest split within the limits that does not sample after it, or the earliest if all do |
| BitTimingResult.PrescalerIsStep | linux_kernel_modules/can_9x15/dev.c:132-134 | the prescaler tried is the largest whole step up to the ideal one |
| BitTimingResult.JumpWidth | linux_kernel_modules/can_9x15/dev.c:188-198 | the jump width is one, or the largest within the user's, the controller's and the second segment |
| BitTimingResult.DefaultSamplePoint | linux_kernel_modules/can_9x15/dev.c:116-126 | a sample point left open is 87.5 percent up to 500 kbit/s, 80 up to 800 kbit/s and 75 above |
| BitTimingResult.ToleratedBelow | linux_kernel_modules/can_9x15/dev.c:163-175 | tolerated is exactly an error below 5.1 percent |
| BitTimingResult.AcceptedIff | linux_kernel_modules/can_9x15/dev.c:223-247 | a user's timing is accepted exactly if segments, jump width and prescaler keep the limits, with an error for each |
| BitTimingResult.AcceptedNumbers | linux_kernel_modules/can_9x15/dev.c:223-253 | an accepted timing keeps segments and quantum; its bitrate and sample point are those of the segments and the prescaler, rounded down |
| BitTimingResult.PracticableIsNearest | linux_kernel_modules/can_9x15/dev.c:236-244 | the prescaler is the whole step whose quantum comes nearest to the one given |
| BitTimingCalc.ConclusionIsRight | linux_kernel_modules/can_9x15/dev.c:163-205 | what the end of the calculation makes of a finished search, error by error |
| BitTimingCalc.NeverSkewedNeverFaults | linux_kernel_modules/can_9x15/dev.c:144-152 | a sample point that skews no segment count never leads to a held zero prescaler, nor past the error check |
| BitTimingCalc.SmallBitratesNeverDivideByZero | linux_kernel_modules/can_9x15/dev.c:129-132 | bitrates whose largest multiple fits a word never lead to a zero divisor |
| Mcp251xTiming.FaultIsReached | linux_kernel_modules/can_9x15/dev.c:202 | 8 MHz, 5 kbit/s and sample point 5000 do |
| Mcp251xTiming.UncheckedIsReached | linux_kernel_modules/can_9x15/dev.c:127-175 | 8 MHz, 500 kbit/s and sample point 5000 succeed with 470588 bit/s, more than five percent off |
| Mcp251xTiming.ZeroIsReached | linux_kernel_modules/can_9x15/dev.c:132 | with 2^31 bit/s the third candidate divides by zero |
| BitTimingCalc.BrpRecovered | linux_kernel_modules/can_9x15/dev.c:236-244 | the prescaler comes back from the stored quantum exactly if the rounding loss is below half a unit |
| BitTimingCalc.CalcThenFixup | linux_kernel_modules/can_9x15/dev.c:177-255 | calculating and checking is the identity exactly if the split keeps both segments' limits, there is a jump width and the loss is below half a unit |
| BitTimingCalc.CalculatedThenChecked | linux_kernel_modules/can_9x15/dev.c:102-255 | the same for what the calculation itself returns |
| BitTimingCalc.SlowClocksLoseLittle | linux_kernel_modules/can_9x15/dev.c:236-244 | clocks up to 500 MHz never lose that much, for any prescaler step whose quantum fits its word |
| BitTimingCalc.UndoneOnSlowClocks | linux_kernel_modules/can_9x15/dev.c:177-255 | so for them the identity holds exactly if the split keeps both segments' limits |
| Mcp251xTiming.DefaultSplitsFit | linux_kernel_modules/can_9x15/mcp251x.c:223-233 | with this controller's limits and a default sample point every split is within all four limits |
| Mcp251xTiming.RegistersHoldTiming | linux_kernel_modules/can_9x15/mcp251x.c:589-603 | CNF1 to CNF3 decode to what was written exactly if every part fits its field |
| Mcp251xTiming.TimingRoundTrip | linux_kernel_modules/can_9x15/mcp251x.c:589-603 | so does a whole timing |
| Mcp251xTiming.CalculatedTimingFits | linux_kernel_modules/can_9x15/mcp251x.c:589-603 | a calculated timing always fits |
| Mcp251xTiming.CheckedTimingFits | linux_kernel_modules/can_9x15/dev.c:230-234 | a user's timing that passes the check fits exactly if its first two segments have one to eight quanta each |
| Mcp251xTiming.WrappedTimingPasses | linux_kernel_modules/can_9x15/dev.c:223-234 | segments 0xFFFFFFFF and 4 pass the check as three quanta |
| Mcp251xFrame.IdentifierRoundTrip | linux_kernel_modules/can_9x15/mcp251x.c:413-428 | an identifier with its flags comes back through the registers cut down to the bits a frame has |
| Mcp251xChip.FrameRoundTrip | linux_kernel_modules/can_9x15/mcp251x.c:406-505 | a frame on the wire comes back with identifier, flags, length and data |
| Mcp251xChip.Chip.HwTx | linux_kernel_modules/can_9x15/mcp251x.c:389-435 | in place: register by register or in one burst, the same bytes reach the transmit buffer |
| Mcp251xChip.Chip.HwTxFrame | linux_kernel_modules/can_9x15/mcp251x.c:389-404 | in place: both transfer paths load the same registers |
| Mcp251xChip.Chip.EncodeFrame | linux_kernel_modules/can_9x15/mcp251x.c:413-429 | in place: the buffer's bytes are the frame's encoding |
| Mcp251xChip.Chip.HwRx | linux_kernel_modules/can_9x15/mcp251x.c:437-497 | both controllers' receive paths decode the same frame |
| Mcp251xTx.OneFrameInFlight | linux_kernel_modules/can_9x15/mcp251x.c:512-935 | in every run the slots are never both in use, the echo slot only with a frame out, put_echo never finds it occupied, and every accepted frame ends once |
| Mcp251xTx.AllEndedWhenClosed | linux_kernel_modules/can_9x15/mcp251x.c:695-727 | after a stop every accepted frame has completed or failed |
| Mcp251xTx.CleanKeeps | linux_kernel_modules/can_9x15/mcp251x.c:282-294 | a clean-up ends the frame in flight as failed, with one tx_error, and frees its echo |
| Mcp251xTx.CompleteKeeps | linux_kernel_modules/can_9x15/mcp251x.c:920-930 | a transmit interrupt completes the frame on the wire, looping back its echo, or ends nothing |
| Mcp251xTx.CountersRightIff | linux_kernel_modules/can_9x15/mcp251x.c:920-930 | a transmit interrupt advances packet and byte count by the completed frame's exactly if a frame was sent |
| Mcp251xTx.SpuriousInterruptCounts | linux_kernel_modules/can_9x15/mcp251x.c:920-930 | one right after opening the device counts a packet and minus one byte |
| Mcp251xTx.SendKeeps | linux_kernel_modules/can_9x15/mcp251x.c:744-768 | the worker moves the frame to the controller and its echo aside, or ends it as failed when the bus is off |
| Mcp251xTx.RestartKeeps | linux_kernel_modules/can_9x15/mcp251x.c:770-804 | a restart leaves nothing in flight uncounted |
| Mcp251xProgress.TakenIff | linux_kernel_modules/can_9x15/mcp251x.c:512-531 | a frame is taken exactly if it is valid and none is in flight, and then the queue stops |
| Mcp251xProgress.FrameGoesThrough | linux_kernel_modules/can_9x15/mcp251x.c:512-930 | on a device that is up and idle a frame is accepted, sent, completed with its echo and its bytes counted, and the queue runs again |
| Mcp251xProgress.FailsOnce | linux_kernel_modules/can_9x15/mcp251x.c:282-294 | a frame caught by bus off, a restart or a stop fails once |
| Mcp251xProgress.QueueRunsWhenIdle | linux_kernel_modules/can_9x15/mcp251x.c:512-935 | in every run the queue runs only with nothing in flight, unless a transmit interrupt came for nothing |
| Mcp251xProgress.WorstStateCounts | linux_kernel_modules/can_9x15/mcp251x.c:850-873 | the error state is the worst one flagged |
| Mcp251xProgress.RoundDoes | linux_kernel_modules/can_9x15/mcp251x.c:816-932 | a round of the interrupt thread ends at bus off without automatic restart, wakes the queue on a transmit interrupt, and repeats while anything is flagged |
| Mcp251xProgress.RestartRevives | linux_kernel_modules/can_9x15/mcp251x.c:533-553 | restart timer and worker leave nothing in flight, the queue running and the error state cleared |
| Mcp251xProgress.SuspendAndResume | linux_kernel_modules/can_9x15/mcp251x.c:1209-1259 | a running device is up again after suspend, resume and the worker, with its frame failed once |
| Mcp251xProgress.SuspendHolds | linux_kernel_modules/can_9x15/mcp251x.c:1209-1259 | a suspended device serves no interrupt and, if it ran, no queue; there is work on resume exactly if it ran or lost power |
| Mcp251xProgress.SuspendWhenDown | linux_kernel_modules/can_9x15/mcp251x.c:1209-1259 | a device that was down is as before after suspend, resume and the worker |
| Mcp251xProgress.StopAndOpen | linux_kernel_modules/can_9x15/mcp251x.c:695-993 | stopping ends every frame; opening brings an idle device up or leaves it closed |
| Mcp251xProgress.FirstOpen | linux_kernel_modules/can_9x15/mcp251x.c:937-993 | a new device is closed and idle, and opening brings it up |
| Mcp251xDriver.Device.HardStartXmit | linux_kernel_modules/can_9x15/mcp251x.c:512-531 | in place: refuse while busy, else stop the queue and keep the frame |
| Mcp251xDriver.Device.TxWorkHandler | linux_kernel_modules/can_9x15/mcp251x.c:744-768 | in place: the transmit worker |
| Mcp251xDriver.Device.InterruptThread | linux_kernel_modules/can_9x15/mcp251x.c:806-935 | in place: the loop until no flag is set or the driver quits |
| Mcp251xDriver.Device.RestartWorkHandler | linux_kernel_modules/can_9x15/mcp251x.c:770-804 | in place: the restart worker |
| Mcp251xDriver.Device.Restart | linux_kernel_modules/can_9x15/dev.c:396-436 | in place: flush the echo, clean up, ask for a restart |
| Mcp251xDriver.Device.PutEcho | linux_kernel_modules/can_9x15/dev.c:312-344 | in place: the echo slot is filled if free |
| Mcp251xDriver.Device.GetEcho | linux_kernel_modules/can_9x15/dev.c:354-372 | in place: the echo is looped back once and the slot emptied |
| Mcp251xDriver.Device.StopLast | linux_kernel_modules/can_9x15/mcp251x.c:707-722 | in place: the locked part of the stop |
| Mcp251xDriver.Device.OpenDevice | linux_kernel_modules/can_9x15/mcp251x.c:937-993 | in place: opening forgets the frame in hand and starts the queue, or on a failure flushes the echo |
| IioDemux.OutputLaidOut | linux_kernel_modules/iio/industrialio-buffer.c:935-1016 | for all mixed widths the destinations are aligned, increasing and disjoint, and end at iio_compute_scan_bytes |
| IioDemux.SourcesRightIff | linux_kernel_modules/iio/industrialio-buffer.c:954-989 | every buffer's copies start where the channels are exactly if neighbouring active channels are friendly |
| IioDemux.OneWidthIsFriendly | linux_kernel_modules/iio/industrialio-buffer.c:954-989 | channels of one width are |
| IioDemuxData.DemuxIsScan | linux_kernel_modules/iio/industrialio-buffer.c:889-901 | a demultiplexed scan is byte for byte the scan of the buffer's own channels and timestamp |
| IioDemuxData.EveryScanComesOut | linux_kernel_modules/iio/industrialio-buffer.c:889-1022 | every delivered scan comes out with the buffer's channels in their places, packed byte for byte if there is a table, passed through if the masks are equal |
| IioDemuxData.OneWidthDemuxIsScan | linux_kernel_modules/iio/industrialio-buffer.c:889-1016 | with channels of one width it is so for every buffer, with the timestamp if the highest active channel is the buffer's |
| IioDemuxData.StampRightIff | linux_kernel_modules/iio/industrialio-buffer.c:990-1010 | the timestamp is taken from its place exactly if no active channel above the buffer's moves it |
| IioDemuxData.HighestChannelIsEnough | linux_kernel_modules/iio/industrialio-buffer.c:990-1010 | so it is if the highest active channel is the buffer's |
| IioDemuxData.PackIsPadded | linux_kernel_modules/iio/industrialio-buffer.c:1011-1015 | the bounce buffer may be used again: between the channels it stays zero |
| IioDemuxData.ZerosArePadded | linux_kernel_modules/iio/industrialio-buffer.c:1011-1015 | a new bounce buffer may be used |
| IioDemuxData.CopyAllKeepsPadding | linux_kernel_modules/iio/industrialio-buffer.c:889-901 | the copies of a table write the channels' places only |
| ScanLayout.AlignIsPadTo | linux_kernel_modules/iio/industrialio-buffer.c:468-491 | for every width the ALIGN macro rounds a word up as the remainder tests of the demux code do |
| IioScanBuffer.ComputeScanBytes | linux_kernel_modules/iio/industrialio-buffer.c:468-491 | the loop over the set bits computes the end of the layout |
| IioScanBuffer.SkipTo | linux_kernel_modules/iio/industrialio-buffer.c:957-971 | the skip loop ends at the wanted channel |
| IioScanBuffer.ScanBuffer.UpdateDemux | linux_kernel_modules/iio/industrialio-buffer.c:935-1022 | in place: no table for equal masks, else the planned table and a zeroed bounce buffer of one datum |
| IioScanBuffer.ScanBuffer.Demux | linux_kernel_modules/iio/industrialio-buffer.c:889-901 | in place: the copies in table order, or the data as it is; the bounce buffer stays fit for the next scan |
| IioScanBuffer.ScanBuffer.Push | linux_kernel_modules/iio/industrialio-buffer.c:889-916 | in place: pushed scans come out as the buffer's own scans, time after time |
| IioBuffers.Match | linux_kernel_modules/iio/industrialio-buffer.c:454-466 | the first available mask that covers; none exactly if the mask is empty or not covered |
| IioBuffers.UpdateKeeps | linux_kernel_modules/iio/industrialio-buffer.c:542-708 | after every path, including roll-back, each listed buffer's mask is within the active mask |
| IioBuffers.StartIsCovered | linux_kernel_modules/iio/industrialio-buffer.c:599-626 | when the demux tables are built each listed buffer's mask is within the active mask |
| IioBuffers.FailureRollsBack | linux_kernel_modules/iio/industrialio-buffer.c:699-707 | a failed update leaves the earlier mask and no newcomer |
| IioBuffers.FaultIff | linux_kernel_modules/iio/industrialio-buffer.c:599-613 | exactly when a null buffer is deactivated |
| IioBuffers.FaultIsReached | linux_kernel_modules/iio/industrialio-buffer.c:599-613 | a run that gets there: a buffer with the only channel comes, one without comes, the first goes |
| IioBuffers.OrphansIff | linux_kernel_modules/iio/industrialio-buffer.c:605-690 | exactly when a device is left running with no buffer |
| IioBuffers.OrphanIsReached | linux_kernel_modules/iio/industrialio-buffer.c:605-690 | a run that gets there: the only buffer comes and goes, one without channels is turned away |
| IioBuffers.ListedAreCovered | linux_kernel_modules/iio/industrialio-buffer.c:542-858 | in every run short of the fault, listed buffers have all their channels scanned |
| IioBufferRuns.DoneIff | linux_kernel_modules/iio/industrialio-buffer.c:542-690 | an update is done exactly if the device winds down and no buffer is left, or a mask fits those that are and every hook goes well |
| IioBufferRuns.DoneServes | linux_kernel_modules/iio/industrialio-buffer.c:569-690 | then the right buffers are listed, the device runs on exactly their channels or on the first available mask that covers them, with the timestamp exactly if one wants it |
| IioBufferRuns.EarlyStopKeeps | linux_kernel_modules/iio/industrialio-buffer.c:553-566 | a device that cannot be wound down keeps buffers and mask, and runs on exactly if its first hook failed |
| IioBufferRuns.MatchIsFirst | linux_kernel_modules/iio/industrialio-buffer.c:454-466 | no available mask before the one matched covers |
| IioBufferRuns.ListedAreStamped | linux_kernel_modules/iio/industrialio-buffer.c:590-596 | in every run a listed buffer that wants the timestamp gets it, and what any buffer asks for is covered by a mask |
| IioBufferRuns.FirstIsServed | linux_kernel_modules/iio/industrialio-buffer.c:542-690 | such a buffer alone with a channel starts the device exactly if the hooks go well |
| IioBufferRuns.SetBitIff | linux_kernel_modules/iio/industrialio-buffer.c:820-858 | a channel is added exactly to a buffer at rest, if the driver agrees and a mask covers the result; no other bit changes |
| IioBufferRuns.ClearBitIff | linux_kernel_modules/iio/industrialio-buffer.c:175-179 | a channel is taken from a buffer at rest; no other bit changes |
| IioDevice.MatchMask | linux_kernel_modules/iio/industrialio-buffer.c:454-466 | the search loops find that mask |
| IioDevice.Iio.UpdateDemux | linux_kernel_modules/iio/industrialio-buffer.c:1024-1041 | in place: every listed buffer gets the table and bounce buffer for the active mask; no skip loop runs off it |
| IioDevice.Iio.UpdateBuffers | linux_kernel_modules/iio/industrialio-buffer.c:542-708 | in place: the whole update with its roll-back paths; a running device keeps every listed buffer ready for its scans |
| IioTrigger.RoundsNeverOverlap | linux_kernel_modules/iio/industrialio-trigger.c:119-168 | in an interleaving the counter is the slots not completed, one loop is unfinished at most and try_reenable is called once per round, if and only if every poll that read zero finds zero when it sets |
| IioTrigger.AtomicPollsIff | linux_kernel_modules/iio/industrialio-trigger.c:123-124 | polls stay alone and rounds apart if and only if no poll reads between another's test and set |
| IioTrigger.DispatchedOnce | linux_kernel_modules/iio/industrialio-trigger.c:119-133 | a slot that comes up is not busy, and its round is the only one that has not ended |
| IioTrigger.ZeroMeansOver | linux_kernel_modules/iio/industrialio-trigger.c:160-167 | the counter is zero exactly if every slot came up and every consumer reported |
| IioTrigger.SlotIsServed | linux_kernel_modules/iio/industrialio-trigger.c:126-131 | a slot that comes up is dispatched if it is enabled and counts as done if not; the last one ends the round |
| IioTrigger.ReportCounts | linux_kernel_modules/iio/industrialio-trigger.c:160-167 | a report counts once, and the last one leads to one call of try_reenable |
| IioTrigger.NobodyAtFirst | linux_kernel_modules/iio/industrialio-trigger.c:401-457 | a new trigger has no consumer attached, and one attaches by enabling its slot |
| IioTrigger.TwoPollsOverlap | linux_kernel_modules/iio/industrialio-trigger.c:123-124 | without atomicity two polls start two loops with one counter |
| IioTrigger.MissedAreOwed | linux_kernel_modules/iio/industrialio-trigger.c:160-168 | in every interleaving the missed interrupts reported are the polls launched for them and those still owed, and every poll that found no round started one or is about to |
| IioTrigger.OwedStartsRound | linux_kernel_modules/iio/industrialio-trigger.c:165-167 | an owed poll after the end of a round starts the next, with every slot to come up |
| IioTriggerDevice.TriggerDevice.Poll | linux_kernel_modules/iio/industrialio-trigger.c:119-133 | in place: the dispatches are one round and one more for every missed interrupt answered, each of them every enabled slot once, in order |
| IioTriggerDevice.TriggerDevice.NotifyDone | linux_kernel_modules/iio/industrialio-trigger.c:160-167 | in place: only the last completion of a round re-enables the trigger; it starts the next round, dispatching every enabled slot, exactly if an interrupt was missed |
| IioTriggerDevice.TriggerDevice.Report | linux_kernel_modules/iio/industrialio-trigger.c:160-167 | in place: a consumer's report ends the round exactly if it was the last, and starts a new one exactly if an interrupt was missed |
| IioText.RoundTripIff | linux_kernel_modules/iio/industrialio-core.c:394-429 | printing and reading a micro or nano value gives it back exactly if the fraction fits, or is below zero with a zero whole part |
| IioText.SignsComeApart | linux_kernel_modules/iio/industrialio-core.c:394-429 | -1 and -1 millionth come back as -1 and +1 |
| IioText.NumeralsAreAccepted | linux_kernel_modules/iio/industrialio-core.c:457-502 | accepted are exactly an optional sign, digits, an optional point with digits, an optional final newline |
| IioText.NumeralsAreRead | linux_kernel_modules/iio/industrialio-core.c:457-502 | the whole part is the digits wrapped to an int, the fraction the digits cut to the scale |
| IioText.PlainReadsBack | linux_kernel_modules/iio/industrialio-core.c:400-401 | whole numbers always read back |
| IioText.DecibelsAreRefused | linux_kernel_modules/iio/industrialio-core.c:402-411 | a value in decibels is never read back |
| IioText.DecibelsAreMicro | linux_kernel_modules/iio/industrialio-core.c:402-411 | its text is that of micro units with the unit before the end of the line |
| IioText.PaddedReadsBack | linux_kernel_modules/iio/industrialio-core.c:402-416 | a zero-padded fraction reads back exactly if it fits its places |
| IioText.CallersPlaces | linux_kernel_modules/iio/industrialio-core.c:505-535 | the callers' multipliers are those of six and nine places |
| IioText.StrToFixpoint | linux_kernel_modules/iio/industrialio-core.c:457-502 | the character loop computes the parse, errors included |

## Left out

- CAN FD frames in the broadcast manager: classic frames of at most eight bytes, as `can_rcv` admits them.
- User-copy faults in the middle of a message, negative timevals and the broadcast manager's other commands (TX_DELETE, RX_DELETE, TX_SEND, reads): they add no state to the operations modelled.
- Arguments of the wrong size (bind, setsockopt), interface indexes below zero and text after a terminating NUL: indexes are natural numbers and strings end at their NUL.
- Statistics that nothing reads back: matches per receiver, frames filtered, error_warning and error_passive counts.
- Socket queues and skb memory: deliveries are logs of values; a full receive queue is not modelled.
- RCU, spinlocks and mutexes: a locked section is one step. The receive path sees the lists between steps.
- The moment between a device leaving the index table and its NETDEV_UNREGISTER event: both are one step, so a bound device exists until then.
- ThrottleSpacing: is stated for timers and tasklets that run at their expiry, because a late tasklet sends late and moves one message towards the next.
- HeldLeavesOnTime: is stated for the same runs, up to the next RX_SETUP or timeout that clears slots; what those clear is not to be sent.
- SilenceTimesOut: is stated for a timeout and tasklet on time.
- CalcBittiming: longs are taken as 64 bits wide; on a 32-bit kernel the error times 1000 could wrap as well. A driver's own limits are taken to be small enough that their products fit (Sane).
- CalcThenFixup: is stated for segment counts and prescalers of the search.
- RxUnregister: the warning for a filter that is not there is not modelled, only that nothing changes.
- Announced: a device is its index, and in runs of the whole system an index is not given again while the lists of a departed device remain; a new net_device would start with lists of its own. Registering a device that has lists stops the machine (BUG_ON), which NotifyRegister reports; the model takes no step there.
- FrameRoundTrip: what the controller does on the wire is the relation OnWire, with the bits it leaves open as parameters.
- Reference counts of buffers, and the dangling active mask that iio_disable_all_buffers leaves behind.
- Allocation-failure exits of __iio_update_buffers and of the demux table, and failed attaches of poll functions.
- IIO_VAL_FRACTIONAL and IIO_VAL_FRACTIONAL_LOG2: printed through an unsigned division, with no reader to compare with.
- Identifier and flag constants of linux/can.h and linux/can/bcm.h: those headers are not part of this model; their documented values are used.
- SPI, I2C and regmap transfers, GPIO, regulators, clocks, sysfs, procfs and netlink text, module init and exit, the other CAN and IIO drivers, sensors, chargers and board files.
