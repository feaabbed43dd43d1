# Verified models for the ChibiOS robot firmware

Dafny 4.11 models of the parts of the firmware where state, interleaving or arithmetic make the behaviour hard to see
from one function body, with proofs of what those parts keep over all inputs and all runs. `dafny verify
dfyconfig.toml` checks everything.

## What is modelled

| file | what it models |
|---|---|
| `usb_control.dfy`, `usb_control_runs.dfy`, `usb_control_starts.dfy`, `usb_control_data.dfy`, `usb_control_requests.dfy` | endpoint zero of the USB driver as a step function over resets, SETUP packets and completions, the driver object with the C code's branches, a reference automaton written from the host's side, which transactions a transfer really starts, which bytes it moves, and what the standard requests answer and do, told from the bytes of the packets |
| `serial_usb_tx.dfy`, `serial_usb_rx.dfy` | the two halves of the serial over USB driver: queue, endpoint, one thread, the interrupts, and the unlock window inside `onotify`/`inotify` as a step of its own |
| `motor.dfy`, `motor_commands.dfy`, `motor_off.dfy` | the motor service: one command thread, two sides with semaphore, timer and two PWM channels, and the timer tick; every channel write of the thread is a step. Which channels the words of the protocol drive, and what turning a side off by hand does to its runs |
| `wifly_line.dfy` | the line parser of the WiFly service against a description of lines |
| `wifly_receive.dfy` | `wifly_receive` for every schedule of arrivals and events |
| `wifly_events.dfy` | the command loop over the serial driver's edge triggered input event |
| `chprintf_digits.dfy`, `chprintf.dfy`, `chprintf_meaning.dfy` | the small printf: digit generation in place, format parsing, padding, and what each directive shows of its argument |
| `crc7.dfy` | the table driven CRC-7 and the command header of the MMC driver |
| `csd.dfy` | the card specific data register: bytes to words, bit slices, capacity |
| `shell.dfy` | line editor, tokenizer and argument loop of the shell |
| `hal_counter.dfy` | counter windows and the polled delay |
| `arith.dfy`, `wrappers.dfy` | shared arithmetic lemmas and the option type |

Code that changes state in the source is a method or a class here; each method is tied by its `ensures` to a function on
values, and the properties are proved about that function, over arbitrary runs.

## Where the code does not do what was meant

These are proved as they are; where a guard decides, the lemma is an if-and-only-if.

* A control read whose data fill whole packets but are fewer than the host asked for never ends: after the empty packet
  the state still says that another one is due, so every further IN completion sends one more, and the host's status
  packet stalls the endpoint (`ControlReadCompletes`, `ReadOfWholePacketsFails`, `EmptyPacketsForever`).
* The start functions' results are ignored. A stage whose direction is still busy when its SETUP arrives starts nothing,
  and takes the completion of the earlier transaction for its own: each stage has a transaction of its own if and only
  if its direction was idle at the SETUP (`TransferStarts`, `EveryStageStartedIff`). So the end-of-transfer callback, and
  with it a late address change, belongs to the SETUP's own status stage if and only if the status direction was idle
  (`CallbackIsOwnIff`, `LateAddressIsOwnIff`; `StaleCompletionChangesAddress` is such a run).
* Device state and configuration stay in step over a run if and only if no SET_ADDRESS takes effect on a configured
  device: that one leaves the configuration number behind (`RunSyncedIff`, `AddressAfterConfiguration`).
* A SET_CONFIGURATION initializes the serial endpoint again without clearing its busy bits. The hook starts a receive if
  and only if the OUT direction was not busy (`ReceiveOutstandingIff`), and nothing is started until the old transaction
  completes (`NothingStartedWhileBusy`); the bytes sent are those written since then if and only if no IN transaction
  was running that had already fetched some (`ConservedAfterIff`).
* `sduDataTransmitted` follows an empty packet by another one, because size 0 is a multiple of the packet size
  (`EmptyPacketsUntilNextWrite`).
* Reading the byte that makes room for a packet starts no receive; the next read call does (`TakeKeepsReceivingIff`,
  `IdleUntilNextCall`).
* `motorLeftOff` and `motorRightOff` signal the semaphore and leave the timer armed; with them both channels of a side
  can be driven at once. Every continuation stays safe if and only if the side was free, or the command thread has to
  wait for the other side until the old timer has fired (`OffSafeIff`); between two commands the test is
  `motorLeftActive` or `motorRightActive`, and `motorOff` is safe only where it does nothing (`OffWhenIdleSafeIff`;
  `LeftOffBreaksSafety` is a run of the other kind). `main.c` does not call them.
* A motor command with a negative time is admitted, and its timer runs for about 49 days
  (`CallbackIssuesTimedCommands`).
* The WiFly loop takes one byte per report of input, and input is reported only when the queue stops being empty. A byte
  that arrives while another one is queued stalls the loop until the queue is reset, if and only if there is no report
  too many about, or the next value ends a piece of input and its answer clears that report (`LateArrivalBlocksIff`;
  `StaleReportServesLateByte` is a run of the other kind). A queue overrun resets it (`OverrunEndsStall`). A report too
  many comes from a reset that falls on a pending report (`NoReportTooMany`); after such a reset, and only then, the loop
  takes the queue's failure code as character 255 (`ResetMakesAByteIff`).
* `wifly_send` reads and clears the reports of input while it waits for its own. Bytes queued while a text is sent, be it
  an answer or a message of another thread, are not taken before a reset; otherwise a reported byte may be
  (`TakesNothingIff`, `FirstArrivalBlocksIff`). The initial message of `wiflyInit` can strand input in this way.
* A number aligned to the left with the zero filler is shown multiplied by a power of ten (`ZeroFillAtLeftIff`).
* A version 2.0 card with C_SIZE all ones is reported with capacity 0, the value of a format error
  (`CapacityVersion2Iff`). The header also names slices that end with the last bit of a word (`WP_GRP_ENABLE`, `CCC`,
  `STRUCTURE`); the mask for them is a shift by 32, which C does not define, so they are outside `GetSlice`.
* Taking back a character that a full command line had dropped removes one that it had not (`BackspaceUndoesIff`).
* The shell's delimiter string `" \009"` is meant to hold a space and a tab; in C it is a space, a terminator and the
  digit 9, so only the space separates words (`WordsOfSpread`). The line editor lets no tab through anyway.
* The polled delay with no ticks never ends; and it can be missed if a gap between readings exceeds 2^32 minus the ticks
  (`NeverEarly`, `DeadlineMetIff`).
* The comment on `mmcsd_get_slice` says that the field comes back left aligned; it is right aligned (`SliceIsField`).

## Assumptions

* Kernel primitives are used abstractly: queues are bounded first-in first-out buffers; signalling a binary semaphore
  hands it to a waiter if there is one; a timer is disarmed before its callback runs; event flags accumulate until they
  are read and cleared. A read from a queue notifies the driver before it takes its byte, a write after it has put it
  (`os/kernel/src/chqueues.c`).
* Calls into low level drivers and the application are inputs (what a hook, a descriptor callback, the endpoint status,
  the protocol callback or the hardware answers) or recorded effects. A requests hook that returns TRUE has set up a
  transfer.
* One reader and one writer use a USB serial channel; no bus reset and no SET_CONFIGURATION falls into the unlock window
  of `inotify` and `onotify`. The application initializes the endpoint and calls the configuration hook at every
  SET_CONFIGURATION, whatever its value, as `serv_usbcfg.c` does.
* In `wifly_events.dfy` the protocol callback reads nothing from the serial line: the `close` command of `main.c`,
  which holds a dialogue with the module, is not in those runs, and other threads send messages but ask for none to be
  read. A callback that returns M_MESSAGE has sent one message, as `version`, `readHead` and `readSonar` do.
* `long` and `int` have 32 bits, `char` is unsigned, as on the target. Widths and precisions of the printf are taken
  not to overflow an `int`, whose overflow C leaves undefined; a variadic argument that is missing or of another kind
  than its directive wants, undefined too, reads as zero.
* The input of `wifly_receive` has room for at least one character besides the terminator (its callers pass 1024).
* One tick of the motor timers is one millisecond, and times stay within `int`.

## Model

| member | source | states |
|---|---|---|
| UsbControl.ReadSetupRoundTrip | os/hal/include/usb.h:358 | the fields the code looks at give back the bytes of the SETUP packet they were masked out of |
| UsbControl.UsbDriver.StartReceiveI | os/hal/src/usb.c:473-483 | a busy endpoint is left alone and reported; an idle one is marked busy and started |
| UsbControl.UsbDriver.StartTransmitI | os/hal/src/usb.c:500-510 | the same for the IN direction |
| UsbControl.UsbDriver.SetupTransfer | os/hal/include/usb.h:441-445 | records buffer, size and callback of the transfer, and nothing else |
| UsbControl.UsbDriver.SetAddress | os/hal/src/usb.c:62-68 | address from the packet, hardware told, event raised, state selected |
| UsbControl.UsbDriver.DefaultHandler | os/hal/src/usb.c:82-215 | for every type, recipient and request: handled exactly when the request table answers, with that answer and its side effect; otherwise nothing changes |
| UsbControl.UsbDriver.Reset | os/hal/src/usb.c:570-590 | a bus reset puts device state, address, configuration, busy bits and stage back, and resets the hardware |
| UsbControl.UsbDriver.Ep0Setup | os/hal/src/usb.c:601-673 | new packet, then error with both directions stalled or the first stage of the accepted transfer |
| UsbControl.UsbDriver.Ep0In | os/hal/src/usb.c:685-727 | the next stage after an IN completion, or error with both directions stalled |
| UsbControl.UsbDriver.Ep0Out | os/hal/src/usb.c:739-770 | the next stage after an OUT completion, or error with both directions stalled |
| UsbControl.UsbDriver.ServeInterrupt | os/hal/include/usb.h:513-529 | the busy bit is cleared before the callback; every event does one step of the model |
| UsbControl.UsbDriver.ServeAll | os/hal/src/usb.c:570-770 | any finite run of events leaves the driver where the run of the model ends |
| UsbControlRuns.StepFires | os/hal/src/usb.c:711-759 | the end-of-transfer callback is called at the completion of a status stage and at no other event, once, and it is the registered one |
| UsbControlRuns.AcceptedIsReply | os/hal/src/usb.c:82-215 | every accepted request has set up a transfer, whose size and callback depend on the packet and the callbacks' answers alone |
| UsbControlRuns.StepFollows | os/hal/src/usb.c:601-770 | one driver step is one step of the host's automaton, callbacks included |
| UsbControlRuns.RunRefinesHost | os/hal/src/usb.c:570-770 | in every run after a reset the stage of endpoint zero (USB 2.0, 8.5.3), state, address and configuration (9.1.1) and the callbacks made are those of the host's automaton |
| UsbControlRuns.ErrorIffStalled | os/hal/src/usb.c:614-625 | an event leads to the error stage if and only if it stalls both directions of endpoint zero and tells the application |
| UsbControlRuns.ErrorStays | os/hal/src/usb.c:685-770 | only a SETUP or a reset ends the error stage |
| UsbControlRuns.BackToSetupIffFinished | os/hal/src/usb.c:685-770 | endpoint zero awaits a SETUP again if and only if the completions seen are exactly one whole transfer |
| UsbControlRuns.TransferOutcome | os/hal/src/usb.c:601-770 | from any earlier state: stage, callback, address and state after a SETUP and any completions, in closed form |
| UsbControlRuns.LateAddressAfterStatus | os/hal/src/usb.c:115-124 | in late mode the address changes when the status stage completes, and not before (USB 2.0, 9.4.6) |
| UsbControlRuns.EarlyAddressAtSetup | os/hal/src/usb.c:115-121 | in early mode it changes at the SETUP, and the status stage adds nothing |
| UsbControlRuns.FiresAtMostOncePerSetup | os/hal/src/usb.c:711-759 | over every run at most one end-of-transfer callback per SETUP |
| UsbControlRuns.ControlReadCompletes | os/hal/src/usb.c:690-710 | a control read is finished by its completions and one empty status packet if and only if its data were all that was asked for or ended with a short packet |
| UsbControlRuns.ReadOfWholePacketsFails | os/hal/src/usb.c:690-710 | data of whole packets, fewer than asked for: the host's status packet stalls the endpoint |
| UsbControlRuns.ReadSendsPrefix | os/hal/src/usb.c:629-641 | the data stage carries the first min(n, wLength) bytes (USB 2.0, 5.5.3) |
| UsbControlRuns.EmptyPacketsForever | os/hal/src/usb.c:690-703 | an unfinished data stage sends one more empty packet at every IN completion |
| UsbControlRuns.StepKeepsInv | os/hal/src/usb.c:570-770 | waiting for a completion implies that direction's busy bit; an active device is configured |
| UsbControlRuns.RunKeepsInv | os/hal/src/usb.c:570-770 | the same over every run |
| UsbControlRuns.StepKeepsSyncedIff | os/hal/src/usb.c:62-68 | an event keeps active and configured the same if and only if it is not the address change of a configured device |
| UsbControlRuns.RunSyncedIff | os/hal/src/usb.c:570-770 | over a run they stay the same if and only if no SET_ADDRESS takes effect on a configured device (USB 2.0, 9.1.1) |
| UsbControlRuns.AddressAfterConfiguration | os/hal/src/usb.c:62-68 | from any state, a SET_CONFIGURATION and then a SET_ADDRESS that takes effect, with any other events between them, leave a selected device that still has the configuration number |
| UsbControlRuns.SetupStartsIffIdle | os/hal/src/usb.c:629-672 | the first transaction of an accepted SETUP is started if and only if its direction was idle |
| UsbControlRuns.StaleCompletionChangesAddress | os/hal/src/usb.c:601-673 | a run in which the completion of an earlier status packet changes the address; the exact condition is LateAddressIsOwnIff |
| UsbControlStarts.TransferStarts | os/hal/src/usb.c:629-757 | from any state, over any run without SETUP or reset: a completed transfer has started its data stage if and only if that direction was idle at the SETUP, its status stage if and only if the other was, and nothing else on endpoint zero |
| UsbControlStarts.EveryStageStartedIff | os/hal/src/usb.c:629-757 | as many transactions as completions if and only if every direction used was idle |
| UsbControlStarts.CallbackIsOwnIff | os/hal/src/usb.c:711-759 | the callback is called at the completed status stage, whose transaction is this SETUP's own if and only if the status direction was idle |
| UsbControlStarts.LateAddressIsOwnIff | os/hal/src/usb.c:115-124 | the late address change (USB 2.0, 9.4.6) is at SET_ADDRESS's own status stage if and only if that direction was idle |
| UsbControlData.TransferData | os/hal/src/usb.c:629-757 | from any state, over any run without SETUP or reset: the data asked for are sent in one block or awaited in one size, and besides them only empty packets, of which the number is given |
| UsbControlData.FinishedTransferData | os/hal/src/usb.c:629-757 | a finished transfer of data from the host has awaited exactly them and sent one empty packet; one of data to the host the other way round |
| UsbControlRequests.RefusedIff | os/hal/src/usb.c:82-215 | byte by byte of the packet: which requests are refused, with both directions stalled, and which are answered |
| UsbControlRequests.RunRemembers | os/hal/src/usb.c:92-146 | in every run the device holds the configuration last set since the reset and the remote wakeup feature last set or cleared |
| UsbControlRequests.StandardReads | os/hal/src/usb.c:88-184 | in every run: the bytes that each standard request for data sends, from the packet and what was last set |
| UsbControlRequests.HookReads | os/hal/src/usb.c:607-612 | a request that the hook takes sends the hook's bytes |
| UsbControlRequests.StandardWrites | os/hal/src/usb.c:92-204 | the calls that each standard request without data makes: exactly the endpoint and direction stalled or cleared, the address given to the hardware, the events |
| UsbControlRequests.HardwareHasAddress | os/hal/src/usb.c:62-68 | in every run, in either mode, the hardware was last given the address that the driver holds |
| UsbControlRequests.RunBusyIff | os/hal/src/usb.c:473-510 | in every run another endpoint's busy bit is set if and only if its last event in that direction was a start and no reset came since |
| UsbControlRequests.OtherStartStarts | os/hal/src/usb.c:473-510 | a start on another endpoint reaches the hardware if and only if its direction was idle, and changes nothing else |
| UsbControlRequests.LineCodingRequests | os/hal/src/serial_usb.c:278-296 | which class requests the serial hook takes, and the seven bytes or the empty packet that they move |
| UsbControlRuns.SduRequestsComplete | os/hal/src/serial_usb.c:278-296 | every request the serial hook takes can be completed, whatever length is asked for |
| SerialUsbTx.StepKeepsInv | os/hal/src/serial_usb.c:144-166 | the transmit invariant over writer, interrupts, hardware, requests and the unlock window |
| SerialUsbTx.TransmitSafe | os/hal/src/serial_usb.c:144-341 | in every run, reconfigurations included: wire then queue are the bytes written since the last SET_CONFIGURATION behind what a transaction running then had fetched; a transaction finds its bytes; an idle endpoint means all is sent and the last packet was short (USB 2.0, 5.8.3) |
| SerialUsbTx.ConservedIff | os/hal/src/serial_usb.c:144-341 | wire then queue are exactly the bytes written since then if and only if nothing was carried over |
| SerialUsbTx.ConservedAfterIff | os/hal/src/serial_usb.c:250-261 | a SET_CONFIGURATION keeps that if and only if no running transaction has fetched bytes; no other event decides it |
| SerialUsbTx.NothingStartedWhileBusy | os/hal/src/usb.c:500-510 | nothing is started until a running transaction completes or the bus is reset, whatever is written or configured |
| SerialUsbTx.IdleAfterCompletionIff | os/hal/src/serial_usb.c:307-341 | the endpoint goes idle if and only if the queue is empty and the transaction ended short with its size not cleared by a SET_CONFIGURATION |
| SerialUsbTx.RunFetches | os/hal/src/serial_usb.c:145-169 | in every run the hardware fetches the bytes written since the last SET_CONFIGURATION in their order, and the device is active if and only if it was last told so |
| SerialUsbTx.PowerUp | os/hal/src/serial_usb.c:191-198 | nothing is queued, running or counted at the start |
| SerialUsbTx.ResetFrees | os/hal/src/usb.c:570-590 | a bus reset is always possible outside the window, and frees the endpoint |
| SerialUsbTx.StartedOrEnded | os/hal/src/usb.c:500-510 | every transaction started is ended by its completion or a bus reset |
| SerialUsbTx.PutNotifiesIff | os/hal/src/serial_usb.c:145-169 | a byte put into the queue is notified if and only if the device is active and the endpoint idle |
| SerialUsbTx.ConfiguredByteGoesOut | os/hal/src/serial_usb.c:145-169 | from any state with an idle endpoint: after a SET_CONFIGURATION with a number a byte goes out as a transaction of its own |
| SerialUsbTx.BlockedWriterHasTransaction | os/hal/src/serial_usb.c:145-169 | in every run a writer that waits for room on an active device waits for a running transaction |
| SerialUsbTx.EmptyPacketsUntilNextWrite | os/hal/src/serial_usb.c:328-336 | after a transaction of whole packets every completion starts another empty packet |
| SerialUsbTx.DrainedInTwoTransactions | os/hal/src/serial_usb.c:307-341 | no byte waits for more than the running transaction and one more |
| SerialUsbTx.Transmitter.Put | os/hal/src/serial_usb.c:144-166 | a byte is queued and the test of `onotify` made, up to its unlock |
| SerialUsbTx.Transmitter.FinishNotify | os/hal/src/serial_usb.c:144-166 | the whole queue is handed to a transaction |
| SerialUsbTx.Transmitter.DataTransmittedCallback | os/hal/src/serial_usb.c:307-341 | next transaction, empty packet or idle with everything flushed |
| SerialUsbTx.Transmitter.ConfigureHook | os/hal/src/usb.c:305-326 | counters and queue are cleared, the busy bit is kept |
| SerialUsbRx.StepKeepsInv | os/hal/src/serial_usb.c:114-139 | the receive invariant over reader, interrupts, packets, requests and the unlock window |
| SerialUsbRx.ReceiveSafe | os/hal/src/serial_usb.c:114-376 | in every run, reconfigurations included: every packet fits, an outstanding transaction is a positive number of whole packets within the free space, bytes read then queued are those received, and a reader of an active device past its notification has a transaction or less than a packet of room |
| SerialUsbRx.BlockedReaderHasTransaction | os/hal/src/serial_usb.c:114-139 | in every run a reader asleep on the empty queue of an active device waits for an outstanding transaction |
| SerialUsbRx.ReceiveOutstandingIff | os/hal/src/serial_usb.c:250-376 | after a notification or a completion a receive is outstanding if and only if there was one or a packet fits; the configuration hook starts one if and only if the endpoint was not busy |
| SerialUsbRx.NothingStartedWhileBusy | os/hal/src/usb.c:473-483 | nothing is started until a running transaction completes or the bus is reset |
| SerialUsbRx.TakeKeepsReceivingIff | os/hal/src/serial_usb.c:114-139 | after a byte is taken a receive is outstanding or no packet fits, if and only if one was running or a packet still does not fit; the next read call catches up |
| SerialUsbRx.RunDelivers | os/hal/src/serial_usb.c:351-376 | in every run the reader gets the bytes of the packets since the last SET_CONFIGURATION in their order, and the device is active if and only if it was last told so |
| SerialUsbRx.PowerUp | os/hal/src/serial_usb.c:191-198 | nothing is queued, outstanding or counted at the start |
| SerialUsbRx.ResetFrees | os/hal/src/usb.c:570-590 | a bus reset is always possible outside the window, and frees the endpoint |
| SerialUsbRx.StartedOrEnded | os/hal/src/usb.c:473-483 | every receive started is ended by its completion or a bus reset |
| SerialUsbRx.StartedReceiveAwaits | os/hal/src/serial_usb.c:351-376 | every receive that is started takes packets, for all the whole packets that fit |
| SerialUsbRx.FullPackets | os/hal/src/serial_usb.c:351-376 | a receive takes full packets until it has all it asked for, and a short one ends it |
| SerialUsbRx.IdleUntilNextCall | os/hal/src/serial_usb.c:114-139 | a run of the other kind |
| SerialUsbRx.Receiver.Notify | os/hal/src/serial_usb.c:114-139 | the test of `inotify`, up to its unlock |
| SerialUsbRx.Receiver.FinishNotify | os/hal/src/serial_usb.c:114-139 | whole packets within the free space are requested |
| SerialUsbRx.Receiver.DataReceivedCallback | os/hal/src/serial_usb.c:351-376 | a new receive starts if and only if a packet fits |
| SerialUsbRx.Receiver.ConfigureHook | os/hal/src/serial_usb.c:250-261 | the queue is reset and one packet is requested, in fact if and only if the endpoint was not busy |
| Motor.CallbackIssuesTimedCommands | main.c:36-63 | a motor command is admitted if and only if it is known, its time is not zero and a side is free; then its ticks are those of its seconds if and only if the time is positive, and 2^32 minus them otherwise |
| Motor.Commander.OnMessage | main.c:36-63 | the branches of the callback do what the model of it says |
| MotorCommands.MessageArms | main.c:36-63 | an accepted message, over every schedule: the sides armed, in order, which of their channels are driven, and for how many ticks |
| MotorCommands.TurnLeavesOtherSide | main.c:50-63 | during a turn the other side changes only with its own timer |
| MotorCommands.RunSpeed | serv_motor.c:58-67 | in every run the speed is the last one accepted, from 25 to 100 percent |
| MotorCommands.DrivenWidth | serv_motor.c:138-166 | in every run the channel written has the share of the period that the speed asks for, the other none |
| Motor.StepKeepsInv | serv_motor.c:138-185 | the invariant of both sides over commands, channel writes and ticks |
| Motor.MotorSafe | serv_motor.c:70-185 | in every run, between any two channel writes, those of the timer interrupt included: never both channels of a side; a free semaphore means off and disarmed; an armed timer means taken; only a disarmed timer is set |
| Motor.OnForExactlyTheTicksArmed | serv_motor.c:70-95 | from arming to the deadline the side is on, at the deadline it is off |
| Motor.UnblockedByItsTimer | serv_motor.c:138-185 | the remaining ticks decrease and end the wait of a blocked command |
| Motor.NoDeadlock | serv_motor.c:70-185 | every reachable state is idle, can step, or waits for an armed timer |
| Motor.BlockedUntilDeadline | serv_motor.c:138-139 | in every run a blocked command waits for an armed timer, whose remaining ticks lead to its deadline |
| MotorOff.OffSafeIff | serv_motor.c:98-112 | wherever the command thread stands outside its locked sections: no continuation of turning a side off drives both channels of a side, if and only if the side is free or the thread waits for the other side until the old timer has fired |
| MotorOff.OffWhenIdleSafeIff | serv_motor.c:98-134 | in every run, between two commands: the condition is that the side is free, and for `motorOff` that both are |
| MotorOff.LeftOffBreaksSafety | serv_motor.c:98-104 | a run with `motorLeftOff` that drives both channels of a side |
| Motor.MotorSide.SwitchOn | serv_motor.c:138-166 | from off to exactly one driven channel, never both on the way |
| Motor.MotorSide.SystemTick | serv_motor.c:169-185 | a timer that runs out is disarmed, both channels go low, the semaphore is handed over |
| WiflyLine.ParserRefinesLines | serv_wifly.c:302-345 | for every stream the calls and answers are those of its lines: cut at newline, carriage returns dropped, split at the first space, status words, overflow at 16 or 1024 characters; what is held is the unfinished rest, within bounds |
| WiflyLine.CommandRoundTrip | serv_wifly.c:302-345 | a command written as a line calls the callback with its two words and sends the answer its result asks for, whatever follows |
| WiflyLine.AsCharIs | serv_wifly.c:306-309 | a byte is stored as it is, the queue's failure code as character 255 |
| WiflyLine.CStringIs | serv_wifly.c:326-335 | the callback sees a buffer up to its first terminator |
| WiflyLine.WordRoundTrip | serv_wifly.c:302-345 | the same for a single word |
| WiflyLine.StatusRoundTrip | serv_wifly.c:327-332 | a word between stars is answered without the callback: *HELLO* by itself, any other one as an error |
| WiflyLine.LongWordOverflows | serv_wifly.c:318-324 | a first word of sixteen characters is reported and forgotten and the queue emptied |
| WiflyLine.LongArgumentsOverflow | serv_wifly.c:318-324 | so is a line with 1024 characters behind its first word |
| WiflyLine.StoreIsAppend | serv_wifly.c:304-316 | storing a value is adding it to the line |
| WiflyLine.Service.StoreValue | serv_wifly.c:304-316 | one value stored in the buffers, indices within bounds, arguments only after the identifier |
| WiflyLine.Service.EndOfLine | serv_wifly.c:325-340 | terminators inside the buffers, then status answer or callback and its answer |
| WiflyLine.Service.Take | serv_wifly.c:302-345 | one value: new parser state and effects |
| WiflyLine.Service.Serve | serv_wifly.c:276-345 | the loop over any stream has the effects of its lines |
| WiflyReceive.Receive | serv_wifly.c:195-256 | for every schedule: bytes taken, status and terminated message are those of the first line in the bytes delivered |
| WiflyReceive.TakeByte | serv_wifly.c:206-219 | a byte is stored, and ends the line if and only if it is its newline or fills the buffer |
| WiflyReceive.TakeQueued | serv_wifly.c:200-220 | the loop over what is queued |
| WiflyReceive.TakeLater | serv_wifly.c:222-253 | the loop over events |
| WiflyReceive.OkayIffNewline | serv_wifly.c:209-216 | success if and only if the bytes taken end with the first newline |
| WiflyReceive.FullIffOverflow | serv_wifly.c:209-213 | the message is as long as the buffer allows if and only if the status is overflow |
| WiflyReceive.LineRoundTrip | serv_wifly.c:195-256 | a line that fits is received as it was sent |
| WiflyEvents.ReportsAddUp | os/hal/src/serial.c:206-242 | the flags are what was reported since they were read last: input on an empty queue, an overrun on a full one, the other events as they are |
| WiflyEvents.FlagsDecide | serv_wifly.c:299-353 | a byte is taken if and only if input is reported, the queue is reset if and only if it is not and the flags exceed 32 |
| WiflyEvents.WaitDecides | serv_wifly.c:295-299 | a wait takes the pending event if there is one; a reset empties the queue and nothing else |
| WiflyEvents.TakeDecides | serv_wifly.c:302-345 | what is taken, and whether a text is sent and the queue emptied behind it |
| WiflyEvents.SendDecides | serv_wifly.c:185-192 | the wait for the output ends if and only if it is reported empty |
| WiflyEvents.MessageSentIff | serv_wifly.c:276-293 | another thread's message is sent if and only if nothing but at most one space was taken since the last line |
| WiflyEvents.OneBytePerReport | serv_wifly.c:295-302 | at most one value taken per change of the queue from empty to non-empty |
| WiflyEvents.StallLasts | os/hal/src/serial.c:206-215 | more bytes than reports: until a reset the queue is never empty and no more values are taken than reports are left |
| WiflyEvents.BackedUnlessStale | serv_wifly.c:295-353 | unless a reset falls on a pending report every report has its byte and every value taken is a byte |
| WiflyEvents.NoReportTooMany | serv_wifly.c:346-352 | a report without a byte comes from a reset under a pending report and from nothing else |
| WiflyEvents.LateArrivalBlocksIff | os/hal/src/serial.c:206-215 | in every state of every run: a byte that arrives while another is queued keeps the queue from being empty before a reset, over all continuations, if and only if the reports do not outnumber the queued bytes or the next value ends a piece of input |
| WiflyEvents.LateArrivalBlocks | serv_wifly.c:295-353 | then no more values are taken than reports are left |
| WiflyEvents.TakesNothingIff | serv_wifly.c:180-193 | in every state of every run with bytes queued: none is taken before a reset, over all continuations, if and only if there is no report left, or a text is being sent, or a reset comes next |
| WiflyEvents.FirstArrivalBlocksIff | serv_wifly.c:180-193 | in every state of every run with an empty queue: a byte that arrives keeps it from being empty before a reset if and only if a text is being sent or a reset comes next |
| WiflyEvents.QueuedBeforeListening | serv_wifly.c:261-262 | bytes queued before the loop listens are not taken before a reset |
| WiflyEvents.ResetMakesAByteIff | serv_wifly.c:346-352 | at every reset of every run: a value that was never sent may be taken before the next reset if and only if a report is pending, and then the next three calls of the loop take it |
| WiflyEvents.StaleReportMakesAByte | serv_wifly.c:346-352 | such a run, up to the parsed character 255 |
| WiflyEvents.StaleReportServesLateByte | serv_wifly.c:346-352 | a run in which a stale report serves the late byte; the exact condition is LateArrivalBlocksIff |
| WiflyEvents.OverrunEndsStall | serv_wifly.c:346-352 | one more byte on a full queue: the next round resets it |
| WiflyEvents.ServiceAnswersPrefix | serv_wifly.c:295-353 | in every run without a reset the answers are those of the lines in a prefix of the bytes that arrived, the others still queued |
| WiflyEvents.Port.IncomingDataI | os/hal/src/serial.c:206-215 | report on an empty queue, byte queued or overrun reported |
| WiflyEvents.Port.RequestDataI | os/hal/src/serial.c:232-242 | next byte to send, or the report that there is none |
| WiflyEvents.Port.Round | serv_wifly.c:272-353 | one round of the loop without interrupts, a waiting message included, is its steps in the model, up to the call of `wifly_send` |
| WiflyEvents.Port.SendRound | serv_wifly.c:185-192 | one round of the wait in `wifly_send`; it ends if and only if the output has become empty |
| ChDigits.LongToString | os/various/chprintf.c:40-71 | as many digits as divisor or number has, those of the number modulo 2^32, and nothing outside the eleven characters is written |
| ChDigits.MoveDown | os/various/chprintf.c:65-69 | the overlapping forward copy moves the text unchanged |
| ChDigits.Ftoa | os/various/chprintf.c:79-88 | integer part, point, five digits, within the buffer |
| ChDigits.ValueOfDigits | os/various/chprintf.c:56-63 | k digits denote the number modulo the k-th power of the radix |
| ChDigits.NumeralRoundTrip | os/various/chprintf.c:73-76 | a numeral denotes its number |
| ChDigits.LengthFits | os/various/chprintf.c:55-63 | 32 bits take at most eleven digits in every radix from octal on |
| ChDigits.FixedDenotes | os/various/chprintf.c:79-88 | the text denotes the number cut after five decimals |
| ChDigits.FloatScratchIsTight | os/various/chprintf.c:117-123 | the 23 characters are enough for every number below 2^31, and all used if and only if it is at least 10^9 |
| ChPrintf.ParseWrites | os/various/chprintf.c:126-175 | taking a format apart loses nothing |
| ChPrintf.ParseReads | os/various/chprintf.c:126-175 | a format has at most one list of canonical pieces, the one the code reads |
| ChPrintfMeaning.DirectiveIs | os/various/chprintf.c:137-175 | the text of a directive: percent sign, minus sign, point, width, precision behind a point, modifier, conversion |
| ChPrintf.HasCanonicalPiecesIff | os/various/chprintf.c:165-175 | it has one if and only if its last directive neither runs into the end nor ends with a bare l or L |
| ChPrintf.ReadNumber | os/various/chprintf.c:146-156 | width or precision read digit by digit and star by star |
| ChPrintf.ReadDirective | os/various/chprintf.c:137-176 | flags, width, precision and conversion of the directive, arguments consumed in order |
| ChPrintf.Convert | os/various/chprintf.c:178-235 | the body of every conversion, inside the scratch buffer |
| ChPrintf.PutSigned | os/various/chprintf.c:197-207 | sign and magnitude, the least `int` included |
| ChPrintf.CutLength | os/various/chprintf.c:184-193 | a string up to its terminator or its precision |
| ChPrintf.Emit | os/various/chprintf.c:236-260 | the padding loops produce the field's layout |
| ChPrintf.Chprintf | os/various/chprintf.c:112-262 | the output is the format's pieces rendered in order |
| ChPrintf.FieldShape | os/various/chprintf.c:236-260 | length max(width, body), body whole, at its side, sign before a zero filler |
| ChPrintf.StringIsCut | os/various/chprintf.c:184-193 | a prefix of the string, at most as long as the precision |
| ChPrintfMeaning.UnsignedShown | os/various/chprintf.c:219-235 | x, X, u, U, o, O: the argument modulo 2^32 in hexadecimal, decimal, octal, without leading zeros |
| ChPrintfMeaning.SignedShown | os/various/chprintf.c:197-207 | d, D: the argument in decimal, with a minus sign if and only if it is negative |
| ChPrintfMeaning.RealShown | os/various/chprintf.c:210-217 | f: sign, whole part, point and five digits, the number cut there |
| ChPrintfMeaning.CharacterShown | os/various/chprintf.c:184-187 | c: the character of the argument |
| ChPrintfMeaning.TextShown | os/various/chprintf.c:188-196 | s: the string up to its terminator or the precision, or the text for a null pointer |
| ChPrintfMeaning.OtherShown | os/various/chprintf.c:237-239 | which conversions take an argument; any other shows its own character |
| ChPrintfMeaning.ArgumentsInOrder | os/various/chprintf.c:126-262 | each piece of a format shows the arguments that the pieces before it have left: one for a star, one for a conversion |
| ChPrintfMeaning.ItemIs | os/various/chprintf.c:146-151 | widths and precisions are made of digits and stars |
| ChPrintfMeaning.DigitsGiveNumber | os/various/chprintf.c:146-156 | a width or precision in digits is that number |
| ChPrintfMeaning.StarGivesArgument | os/various/chprintf.c:146-156 | a star takes it from the arguments |
| ChPrintfMeaning.FieldIsFilled | os/various/chprintf.c:241-260 | a field is its body filled to its width, with zeros or blanks, behind, before, or between sign and digits |
| ChPrintf.ZeroFillKeepsNumber | os/various/chprintf.c:242-251 | a zero filled number at the right is still that number |
| ChPrintf.ZeroFillAtLeftIff | os/various/chprintf.c:256-259 | at the left it is if and only if nothing is filled or it is zero |
| Crc7.TableIsDivision | os/hal/src/mmc_spi.c:74-97 | every one of the 256 table entries is the remainder of its index |
| Crc7.IndexInTableIff | os/hal/src/mmc_spi.c:143-148 | the index is below 256 if and only if the register has seven bits |
| Crc7.LookupIsSerial | os/hal/src/mmc_spi.c:146 | one look-up is eight steps of the division |
| Crc7.TableCrc | os/hal/src/mmc_spi.c:143-148 | for every buffer the loop is the bit by bit remainder by x^7 + x^3 + 1 |
| Crc7.CrcComposes | os/hal/src/mmc_spi.c:143-148 | the CRC of a concatenation continues the first with the second |
| Crc7.RemainderZeroIffCrc | os/hal/src/mmc_spi.c:199-200 | seven bits after a message leave remainder zero if and only if they are its CRC |
| Crc7.SendHeader | os/hal/src/mmc_spi.c:187-202 | the six bytes carry command and argument, and a card accepts them if and only if the command is below 128 |
| Crc7.SingleFlipDetected | os/hal/src/mmc_spi.c:143-148 | every single flipped bit changes the CRC |
| Crc7.BurstDetected | os/hal/src/mmc_spi.c:143-148 | changes inside seven neighbouring bits always change the CRC |
| Crc7.ByteExchangeUndetectedIff | os/hal/src/mmc_spi.c:143-148 | an exchanged byte goes unnoticed if and only if it differs by 0x89 |
| Crc7.TwoFlipsUndetectedIff | os/hal/src/mmc_spi.c:143-148 | two flipped bits go unnoticed if and only if 127 divides their distance |
| Csd.ReadWords | os/hal/src/mmc_spi.c:318-324 | the four words are the big number that the sixteen bytes are |
| Csd.SliceIsField | os/hal/src/mmcsd.c:62-79 | a slice is the field of the register between its bits, in one piece or two |
| Csd.CapacityVersion1 | os/hal/src/mmcsd.c:97-102 | blocks times 512 are (C_SIZE + 1) 2^(C_SIZE_MULT + 2) 2^READ_BL_LEN |
| Csd.CapacityVersion2Iff | os/hal/src/mmcsd.c:103-105 | blocks are (C_SIZE + 1) times 1024 if and only if C_SIZE is not all ones |
| Csd.CapacityReserved | os/hal/src/mmcsd.c:106-108 | reserved structures have capacity 0 |
| Csd.CapacityOfCard | os/hal/src/mmcsd.c:93-110 | from the bytes on the wire to the number of blocks |
| Shell.GetLine | os/various/shell.c:255-288 | the buffer holds the edited line cut to its room, the terminal shows exactly it, and the end key decides the result |
| Shell.BackspaceUndoesIff | os/various/shell.c:267-284 | a backspace undoes the last character if and only if the line had room for it |
| Shell.EditedMore | os/various/shell.c:255-288 | what each key does to the line: taken back, added while there is room, or ignored |
| Shell.LineEndsAt | os/various/shell.c:259-279 | the first Ctrl-D or return ends the line |
| Shell.WordsOfSpread | os/various/shell.c:41-56 | words are found again whatever delimiters stand between them |
| Shell.SpreadOfWords | os/various/shell.c:41-56 | every text is its words set apart by its gaps: they are its maximal runs |
| Shell.StrTok | os/various/shell.c:41-56 | the next word, terminated in place; only the delimiter behind it is overwritten |
| Shell.ParseArguments | os/various/shell.c:160-171 | command and arguments are the words of the line, none damaged; too many drop the command; the closing null stays inside the vector |
| Shell.ReadCommand | os/various/shell.c:155-171 | from keys to command and arguments |
| Shell.TypedWordsArrive | os/various/shell.c:155-171 | words typed with any spaces around them arrive as typed |
| HalCounter.WithinIff | os/hal/src/hal.c:167-173 | within a window if and only if the distance from its start, modulo 2^32, is smaller; equal ends mean always |
| HalCounter.WithinWindowIff | os/hal/src/hal.c:167-191 | the same in ideal time |
| HalCounter.PolledDelay | os/hal/src/hal.c:186-191 | ends at the first reading outside the window |
| HalCounter.NeverEarly | os/hal/src/hal.c:186-191 | under every schedule the delay ends only when the ticks have passed, and with no ticks never |
| HalCounter.DelayEnds | os/hal/src/hal.c:186-191 | with gaps of at most 2^32 minus the ticks it ends at the first late reading |
| HalCounter.DeadlineMetIff | os/hal/src/hal.c:186-191 | every schedule with gaps up to a bound meets the deadline if and only if the bound is at most 2^32 minus the ticks |
| HalCounter.StrobeWaits | os/hal/src/hal.c:186-191 | readings in step with the counter wait for ever |

## Left out

- Register level drivers, board files, `mcuconf.h` and the other constant tables.
- Kernel internals; what they do is listed under Assumptions.
- UsbControl.UsbDriver.Reset: does not clear the endpoint table `epc`, which is not part of the state; endpoint zero's packet size is a constant of the driver object.
- The rest of endpoint configuration, `usbDisableEndpointsI`, start and stop of the drivers.
- Requests whose direction bit contradicts the request are followed as the code follows them; what the host then does is not modelled.
- Formats whose last directive runs into the terminator: C leaves them undefined.
- `sduInterruptTransmitted`, the interrupt endpoint of the serial over USB driver: an empty body.
- ChDigits.Ftoa: does not model the rounding of `float` and `double`; numbers are real numbers.
- WiflyEvents.Port.Round: stops where `wifly_send` is called, which waits for interrupts; its rounds are `SendRound`, and their interleaving is in the transition system.
- Messages by which another thread has a line read, `wiflyReadCommand`, `wiflyConnect` and the memory pool.
- Commands of the shell and its lists; their output.
- The card dialogue around the data register (response and token waiting) and the block transfers of the MMC driver.
- Crc7.TableCrc: leaves out a start value with its top bit set, for which the table index leaves the table; the code's only call starts at 0.
- HalCounter.PolledDelay: the time one round of the loop takes is in the schedule of readings, not in the loop.
- Headings, sonar, LEDs, the host's graphical interface and the mass storage class.
- Simple start and stop drivers, memory streams, the real time clock library and the file system stubs.
