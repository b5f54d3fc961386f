# GLKVM daemon and HID firmware: verified models

GLKVM is a fork of the PiKVM daemon together with the firmware of its HID microcontroller. Most of
it is plumbing; this project models the parts whose correctness is a claim about whole runs or all
inputs, in Dafny 4.11, and proves those claims. `dafny verify dfyconfig.toml` checks everything.

Code that changes things step by step is a class or a method with loops, proved equal to a
specification function on values (`View() == Next(old(View()), ...)`); the properties are then lemmas
about runs of that function. A run is any sequence of events, so every interleaving is covered.

| files | what is modelled |
|---|---|
| `StreamerProtocol`, `StreamerSafety`, `StreamerDemand`, `StreamerDrain`, `StreamerRestart`, `StreamerReset`, `StreamerWedge`, `Streamer` | the streamer's life cycle between awaits: two demand sources, a FIFO lock, and a cancellable delayed stop |
| `Bytes`, `SpiProtocol`, `SpiProgress`, `Spi` | the firmware's SPI link: an interrupt handler racing the main loop over two buffers |
| `Crc16`, `Crc16Errors` | CRC-16 as in section 6.2.2 of MODBUS over Serial Line V1.02, and which changes it detects |
| `PicoMain`, `PicoUart` | requests, responses and UART framing of the firmware |
| `McuHost`, `McuRetry` | the daemon's side of the same protocol: requests, the reading of responses, and retries over a faulty line |
| `UsbKeyboard` | the six-slot USB keyboard report |
| `Media`, `MediaRequests`, `MediaDelivery` | fan-out of one stream to many bounded queues |
| `Keyboard`, `Printer`, `PrinterMeaning`, `Keysym` | text compiled to key events, and the layout table it uses |
| `EdidCea`, `EdidAudio`, `EdidFields`, `EdidOrder`, `EdidGetters`, `EdidBytes`, `EdidHex`, `Edid` | the EDID editor: data blocks (section 7.5 of CTA-861), fields, checksums and files (sections 3.4, 3.10, 3.11 of VESA E-EDID Release A Rev. 2) |
| `RateLimit`, `RateLimitOverlap`, `AuthProtocol`, `AuthTwoStep`, `AuthRuns`, `AuthSessions`, `Auth` | logins: lockout, two-step tokens, sessions, the failure counter |
| `OtgProfile`, `OtgGadget`, `Otg` | USB functions within an endpoint budget, their link order, and rollback |
| `InotifyBuffer`, `InotifyIndex`, `InotifyQueue`, `Inotify` | the inotify buffer parser and watch index |
| `MouseSplit` | splitting of mouse motion into byte-sized pieces |
| `Options` | a value that may be absent, shared by the others |

## Where the code falls short of what one would expect

Each of these is a lemma: a concrete run or input, or the exact condition under which the property holds.

- Cancelling the delayed stop before its first turn skips its `finally`; the handle stays set. Three calls of the demand setters in one turn of the event loop are enough, and then nothing starts the streamer again (`SettersCanWedge`; `DemandAgreement` gives the exact condition, and callers that wait meet it, `PatientCallersAreServed`).
- A restart that is not immediate does not restart a streamer that is required: its own start cancels the planned stop. Nor does `set_internal_stream_required(True, reset=True)` if a stop is planned (`EndsExactlyAtOnce`).
- The daemon takes a request for done that the firmware never heard, exactly if the first garbled response is noise: the repetition it asks for is that of an earlier request's response (`SuccessIsTruthful`, `NoiseDeceives`). A request damaged on its way is lost for good if the response to that is garbled too (`DamagedTwiceIsLost`).
- The firmware sends the CRC high byte first, so certain changes of bytes 5 and 6 pass in every accepted request; `SeamDamageAccepted` says exactly which.
- A client that has its first key frame is sent delta frames after its queue was thrown away (`OverflowReached`; `NothingLostExactly` and `ResumesWithNextFrame` say exactly when).
- A detailed timing that ends at the checksum byte is written but not read back, so setting the audio switch twice drops it (`ParseUndoesReplace`, `SetAudioTwice`).
- A checksum of 256 is stored when the other bytes of a block already sum to 0; the hexadecimal file then cannot be read back and the binary one cannot be written (`HexRoundTrip`, `BinRoundTrip`).
- Overlapping logins exceed the attempt limit, by at most the number of overlapping failures (`OverlapBreaksTheBound`, `OverlapIsBounded`); a refresh revives an expired session that no check has deleted (`RefreshRevives`).
- RNDIS is linked without being charged, so the start can exceed the endpoint budget (`RndisExceedsBudget`); a request that unlinks the last function leaves the controller's driver unbound, and no later request finds it (`EmptiedForGood`).
- An IGNORED that arrives after its path was overwritten and renamed away raises, and the rest of the buffer is lost (`LateIgnoredReached`, `SplitReadsAgree`).
- A grabbed device without SYN_REPORT never has its keys forwarded (`KeysWithoutSyn`).

## Model

| member | source | states |
|---|---|---|
| StreamerDemand.DemandAgreement | kvmd/apps/kvmd/streamer.py:261-329 | Over every interleaving of the demand setters, `restart` and the delayed stop, whenever no call is in flight: demand means a running streamer with no planned stop and no demand means a stopped one or a live planned stop, exactly if no timer was cancelled before its first turn or nothing is wanted and nothing runs. |
| StreamerDemand.CleanRunsServeDemand | kvmd/apps/kvmd/streamer.py:519-565 | In every state of such a run, in-flight calls included: a recorded demand is served or has a start coming, and with no demand the last operation in line is a stop or a stop is planned. |
| StreamerSafety.AtMostOneStreamerTask | kvmd/apps/kvmd/streamer.py:466-481 | Over every run, forced stops and direct calls included: at most one streamer task exists, none without the handle being set, and a planned stop has a live task whenever the lock is free. |
| StreamerSafety.WedgedExactlyWhenCancelledFresh | kvmd/apps/kvmd/streamer.py:315-329 | The stop handle refers to a timer that will never clear it if and only if some step of the run cancelled a timer before its first turn. |
| StreamerSafety.StaleAndDownForever | kvmd/apps/kvmd/streamer.py:266-277 | With a stale handle and the streamer down, no continuation of any events ever starts a streamer task. |
| StreamerDrain.EveryRunDrains | kvmd/apps/kvmd/streamer.py:261-329 | From every reachable state some continuation without a new call ends with no call in flight, so the condition of the first row is always met again. |
| StreamerDrain.PatientCallersAreServed | kvmd/apps/kvmd/streamer.py:519-565 | If each call is made when no other is in flight and a new delayed stop has had its first turn, demand and the running state agree whenever no call is in flight. |
| StreamerRestart.TasksAreConserved | kvmd/apps/kvmd/streamer.py:466-481 | Over every run, the tasks started less the tasks ended are the live ones. |
| StreamerRestart.CallEndsTask | kvmd/apps/kvmd/streamer.py:519-565 | Over every run, forced stops, direct calls and lost timers included: if a task lives when an immediate restart is called, or the setter asks to reset a working streamer, or the last demand is dropped at once and not taken back, then when no call is in flight again that task has ended. |
| StreamerRestart.RestartStartsTask | kvmd/apps/kvmd/streamer.py:519-565 | After such a restart in a clean run of the setters, if demand still holds when no call is in flight, a new task has been started and works with no planned stop. |
| StreamerRestart.EndsExactlyAtOnce | kvmd/apps/kvmd/streamer.py:294-329 | From rest with a live task, a restart or a drop of the last demand ends it in every continuation that ends with no call in flight, exactly if it is immediate, or for the setter's restart exactly if no stop is planned. |
| StreamerReset.DemandIsRecorded | kvmd/apps/kvmd/streamer.py:519-549 | Over every run the streamer is required exactly if the last call of one of the two setters asked for it. |
| StreamerReset.ResetDelayIsWaited | kvmd/apps/kvmd/streamer.py:279-287 | Over every run whose calls all give the same `reset`, a streamer task starts after the reset delay exactly if `reset` is set and there is one. |
| StreamerWedge.SettersCanWedge | kvmd/apps/kvmd/streamer.py:519-554 | A run of the demand setters alone that ends with demand, nothing in flight, and no continuation that starts the streamer. |
| StreamerClass.Streamer.SetInternalStreamRequired | kvmd/apps/kvmd/streamer.py:519-538 | Records internal demand and creates the restart, start or stop that follows, or nothing if nothing changed. |
| StreamerClass.Streamer.SetExternalStreamRequired | kvmd/apps/kvmd/streamer.py:540-549 | The same for external demand, whose stop is immediate. |
| StreamerClass.Streamer.MaybeStopCall | kvmd/apps/kvmd/streamer.py:551-554 | A stop is created only when neither source demands the streamer. |
| StreamerClass.Streamer.RestartTask | kvmd/apps/kvmd/streamer.py:556-563 | A restart forces a stop if the streamer has a task, and otherwise only starts it if it is required. |
| StreamerClass.Streamer.ResumeRestartTask | kvmd/apps/kvmd/streamer.py:563-565 | Demand is looked at again after the stop, before starting. |
| StreamerClass.Streamer.EnsureStart | kvmd/apps/kvmd/streamer.py:266-287 | With the lock held: nothing for a working streamer, cancels a planned stop, waits for the reset delay, or starts. |
| StreamerClass.Streamer.EnsureStop | kvmd/apps/kvmd/streamer.py:294-329 | With the lock held: skipped if still needed and not forced; immediate, cancelling a planned stop, or a new planned stop, one at a time. |
| StreamerClass.Streamer.DelayedStop | kvmd/apps/kvmd/streamer.py:317-326 | The timer, once it holds the lock, stops whatever runs without looking at demand. |
| StreamerClass.Streamer.AdvanceHolder | kvmd/apps/kvmd/streamer.py:262-329 | One run of the lock's holder to its next await, hooks and the end of the streamer task included. |
| StreamerClass.Streamer.DispatchReady | kvmd/apps/kvmd/streamer.py:315-329 | First turns come in order of creation; a timer cancelled before its own never enters its body. |
| StreamerClass.Streamer.TimerTurn | kvmd/apps/kvmd/streamer.py:317-326 | The timer's sleep ends and it queues for the lock, or a cancelled one unwinds and clears the handle. |
| StreamerClass.Streamer.ReleaseLock | kvmd/apps/kvmd/streamer.py:263-264 | The lock passes to the next waiter in order of arrival, and the caller goes on. |
| StreamerClass.Streamer.Turn | kvmd/apps/kvmd/streamer.py:261-329 | Every event changes the object's fields as the protocol's next state, so that the run lemmas apply to it. |
| SpiProtocol.RunsKeepInv | hid/pico/src/ph_com_spi.c:73-117 | The invariant of indices, request buffer and response buffer that every interleaving of interrupt and main loop keeps. |
| SpiProtocol.RequestHeldWhileHandled | hid/pico/src/ph_com_spi.c:73-117 | While a request is handled or its response stored or pending, it stays latched and no step changes the request buffer. |
| SpiProtocol.EveryRequestHandledOnce | hid/pico/src/ph_com_spi.c:73-117 | The handler sees exactly the frames of the incoming byte stream, each once, in order, unchanged, all but the one it may still be working on. |
| SpiProtocol.WireCarriesWholeResponses | hid/pico/src/ph_com_spi.c:79-102 | What goes out decodes to zeros and exactly the handler's responses in order, untorn, the last possibly under way; it rests on the non-zero magic byte stored last. |
| SpiProgress.ResponseGoesOut | hid/pico/src/ph_com_spi.c:90-102 | From every reachable state with a response pending, whatever else happens, the next free slots carry exactly its remaining bytes; with the last, all answers are out and the link takes requests again. |
| SpiProgress.RequestIsAnswered | hid/pico/src/ph_com_spi.c:73-84 | From every reachable state with a latched, unanswered request, once the main loop has done the rest of its turn, in any interleaving with the interrupt, the handler's response to exactly this request is pending. |
| SpiProgress.RequestIsLatched | hid/pico/src/ph_com_spi.c:104-117 | From every reachable state without one, the received bytes from a non-zero one on are the request that is latched with the eighth. |
| SpiProgress.ExchangeCompletes | hid/pico/src/ph_com_spi.c:73-117 | A whole exchange in any interleaving: eight bytes in, a main loop turn, eight slots out; then this request has been answered once and a receiver has all answers. |
| Spi.SpiLink.FillTransmitter | hid/pico/src/ph_com_spi.c:90-102 | The interrupt's first loop does one transmit step for each free slot. |
| Spi.SpiLink.DrainReceiver | hid/pico/src/ph_com_spi.c:104-117 | The second loop does one receive step for each byte. |
| Spi.SpiLink.TransferIsr | hid/pico/src/ph_com_spi.c:86-117 | The handler is both loops in turn. |
| Spi.SpiLink.MainStep | hid/pico/src/ph_com_spi.c:73-84 | One access of the main loop to the shared variables: poll, handle, or store one response byte, from 7 down to 0. |
| Spi.InterruptIsRun | hid/pico/src/ph_com_spi.c:86-117 | An interrupt after any run is again a run of single steps, so the lemmas cover it. |
| Crc16.MakeCrc16 | kvmd/bitbang.py:24-34 | The Python loops over unbounded integers compute the CRC and never leave 16 bits. |
| Crc16.StandardExample | kvmd/bitbang.py:24-34 | The worked example of the standard: 02 07 has the CRC 1241 hex. |
| Crc16.PhCrc16 | hid/pico/src/ph_tools.h:28-44 | The C loops compute the same CRC of the first `len` bytes. |
| Crc16.MergeSplit | hid/pico/src/ph_tools.h:50-57 | Splitting a word and merging two bytes undo each other. |
| Crc16Errors.ShiftBijective | kvmd/bitbang.py:29-33 | The bit step is a bijection on 16-bit values. |
| Crc16Errors.CrcAffine | kvmd/bitbang.py:24-34 | The XOR of the CRCs of two equally long messages depends only on the XOR of the messages. |
| Crc16Errors.CrcIsCrcOfBits | kvmd/bitbang.py:24-34 | The byte-wise CRC is the bit-serial CRC of the message's bits, least significant first. |
| Crc16Errors.BurstDetected | kvmd/bitbang.py:24-34 | Any change confined to 16 consecutive bits of a message of any length changes the CRC. |
| Crc16Errors.AdjacentBytesDetected | kvmd/bitbang.py:24-34 | Any change of one byte or of two adjacent bytes changes the CRC. |
| PicoMain.Firmware.HandleRequest | hid/pico/src/main.c:41-67 | The code for a request, CRC and unknown commands included, and when a reset becomes due. |
| PicoMain.Firmware.FillResponse | hid/pico/src/main.c:77-95 | The first six bytes of the response are the body for the code. |
| PicoMain.Firmware.SendResponse | hid/pico/src/main.c:69-102 | Code 0 sends the previous code again; otherwise the code is remembered. |
| PicoMain.SealedPasses | hid/pico/src/main.c:95 | A sealed response passes its own CRC check. |
| PicoMain.OneByteDamageRejected | hid/pico/src/main.c:44 | No accepted request stays accepted when any one of its eight bytes is changed. |
| PicoMain.TwoByteDamageExactly | hid/pico/src/main.c:44 | A change of two adjacent bytes of an accepted request is accepted exactly if it is one of the next row's; none within the body or within the CRC is. |
| PicoMain.SeamDamageAccepted | hid/pico/src/main.c:44 | A change x of byte 5 and y of byte 6 of an accepted request passes exactly if x has even parity and its two low bits clear, and y is x shifted by one XOR x shifted by two; the same changes for every request. |
| PicoMain.SeamChangeExists | hid/pico/src/main.c:44 | 0x0C and 0x05 are such a change. |
| PicoUart.Uart.Task | hid/pico/src/ph_com_uart.c:55-71 | One poll: a byte stored or a frame completed, or a timeout for a partial frame that is older than 100 ms. |
| PicoUart.FramesAreChunksSinceResync | hid/pico/src/ph_com_uart.c:55-71 | For every timed byte stream the frames are the successive 8-byte chunks since the last resync, and a timeout comes exactly where a partial frame is cut off. |
| PicoUart.Answer | hid/pico/src/main.c:104-110 | A frame or timeout is answered with the response for its code. |
| PicoUart.MainLoopTurn | hid/pico/src/main.c:121-128 | One turn of the main loop is one turn of the modelled device; it polls only while no reset is due. |
| PicoUart.EveryOutcomeAnswered | hid/pico/src/main.c:69-128 | Each frame or timeout gets exactly one response, in order, which passes its own check and carries its own code or, for REPEAT, the latest one that was no repeat; a due reset is announced in the last response and only there. |
| McuHost.RequestIsUnderstood | kvmd/plugins/hid/_mcu/proto.py:198-208 | The firmware accepts every request of the daemon, answers every event with a pong, and a repetition with its last code. |
| McuHost.ResponseIsUnderstood | kvmd/plugins/hid/_mcu/__init__.py:396-415 | The daemon takes a pong for success, a timeout or CRC error for temporary, and an unknown command or a reboot for permanent. |
| McuHost.PongIsUnderstood | kvmd/plugins/hid/_mcu/__init__.py:178-236 | The LEDs, offline flags, reset flag and outputs that the daemon takes from a pong are those of the firmware. |
| McuRetry.ProcessRequest | kvmd/plugins/hid/_mcu/__init__.py:380-447 | The loop over the retries is the modelled run of attempts. |
| McuRetry.SuccessIsTruthful | kvmd/plugins/hid/_mcu/__init__.py:380-447 | Over every line that loses, damages, cuts short and garbles, reboots included: a request that the daemon takes for done has been done, exactly if the first garbled response was not noise that came before the firmware had heard anything of the call. |
| McuRetry.HonestLine | kvmd/plugins/hid/_mcu/__init__.py:396-398 | A line that garbles only responses to what the firmware has heard is no such line. |
| McuRetry.NoiseDeceives | kvmd/plugins/hid/_mcu/__init__.py:396-414 | For every request, after an earlier one was done: two attempts after which the daemon takes it for done and nothing has been done. |
| McuRetry.DoneOnceMoreThanUnanswered | kvmd/plugins/hid/_mcu/__init__.py:389-394 | Nothing but this request is done, and at most once more often than responses to it went missing. |
| McuRetry.DamagedTwiceIsLost | kvmd/plugins/hid/_mcu/__init__.py:396-404 | After a request that arrives damaged and a garbled response to that, whatever follows, the request is not done and the call does not succeed. |
| McuRetry.CallEnds | kvmd/plugins/hid/_mcu/__init__.py:389-447 | A call is over after at most as many attempts as it has retries. |
| McuRetry.GoodAttemptSucceeds | kvmd/plugins/hid/_mcu/__init__.py:389-414 | The first attempt that arrives whole at a listening firmware does the request, and succeeds if the response arrives. |
| UsbKeyboard.ReportsOnlyHeldKeys | hid/pico/src/ph_usb.c:111-148 | In every reachable state non-zero slots are distinct held keys, bit n of the modifier byte is set exactly if usage 0xE0 + n is held, and the host has the current report unless one is waiting. |
| UsbKeyboard.ReportIsDelivered | hid/pico/src/ph_usb.c:207-226 | After every event that finds the bus awake and accepting the host has the current report, which shows the held modifiers and held keys only. |
| UsbKeyboard.ReportedExactlyIfFew | hid/pico/src/ph_usb.c:111-148 | The slots are the held regular keys at every moment since the last clear, if and only if never more than six were held at once since then. |
| UsbKeyboard.Keyboard.Press | hid/pico/src/ph_usb.c:125-134 | A key takes the last free slot, or slot 0 if none is free, and no second one. |
| UsbKeyboard.Keyboard.Release | hid/pico/src/ph_usb.c:136-142 | A released key's slot is emptied. |
| UsbKeyboard.Keyboard.SetModifier | hid/pico/src/ph_usb.c:116-122 | One modifier bit is set or cleared. |
| UsbKeyboard.Keyboard.SyncReport | hid/pico/src/ph_usb.c:207-226 | A new report is kept waiting until the bus takes it. |
| UsbKeyboard.Keyboard.SendKey | hid/pico/src/ph_usb.c:111-148 | A key event is a step of the modelled run. |
| UsbKeyboard.Keyboard.SendClear | hid/pico/src/ph_usb.c:188-192 | A clear empties the slots and modifiers and reports that. |
| Media.KeyRequestNeverLost | kvmd/apps/media/server.py:158-193 | In every reachable state a started H.264 client without its first key frame has one queued, or the source's request flag is set; after an overflow the flag stays set until a key frame is queued again. |
| Media.SentFrames | kvmd/apps/media/server.py:158-193 | Whatever overflows: at most 32 frames are queued, sent and queued frames are a subsequence of those read, and the first one sent to an H.264 client is a key frame. What is never missing is in the next three rows. |
| MediaRequests.ClientsAreConnected | kvmd/apps/media/server.py:112-154 | Over every run the clients are the sockets that have started and not been closed since. |
| MediaRequests.FlagIsHistory | kvmd/apps/media/server.py:104-191 | Over every run the flag is set exactly if a client of an H.264 source asked for a key frame, a sender began, or a frame met a full queue, and no key frame has been read since. |
| MediaRequests.SenderCatchesUp | kvmd/apps/media/server.py:158-170 | As many turns of its sender as frames are queued send a client all of them in order, or for H.264, before its first key frame, those from the first one on. |
| MediaDelivery.FramesSinceJoining | kvmd/apps/media/server.py:158-193 | A client whose queue never overflowed is sent and queued everything read since it came, in full and in order; for H.264 everything from the first key frame among it on. |
| MediaDelivery.NothingLostExactly | kvmd/apps/media/server.py:158-193 | Over every run sent and queued frames are an unbroken end of those read if no frame met the client with a full queue after its first sent frame; for distinct frames, only if so. |
| MediaDelivery.ResumesWithNextFrame | kvmd/apps/media/server.py:182-191 | After such an overflow, until the next, the client gets exactly what is read from then on: its next frame is a key frame exactly if the next one read is. |
| MediaDelivery.OverflowReached | kvmd/apps/media/server.py:158-193 | A run from the start in which a client is sent its key frame and then a delta frame, with 33 lost in between and the request for a key frame still open. |
| Media.Source.WsStartHandler | kvmd/apps/media/server.py:112-129 | A client is added once, with an empty queue. |
| Media.Source.WsBinKeyHandler | kvmd/apps/media/server.py:104-110 | Asking for a key frame sets the flag of an H.264 source. |
| Media.Source.OnWsClosed | kvmd/apps/media/server.py:148-154 | A closed client is removed. |
| Media.Source.SenderBegins | kvmd/apps/media/server.py:158-162 | The sender's first turn asks for a key frame. |
| Media.Source.SenderTurn | kvmd/apps/media/server.py:163-170 | One frame leaves the queue and is sent unless a key frame is still awaited. |
| Media.Source.PutOrClear | kvmd/apps/media/server.py:185-191 | A full queue is thrown away and a key frame requested. |
| Media.Source.StreamerTurn | kvmd/apps/media/server.py:180-193 | A frame is offered to every client, whatever the order, and the flag afterwards accounts for all of them. |
| Printer.PressFirst | kvmd/keyboard/printer.py:183-213 | Of a key dictionary the first entry without Ctrl is pressed, with the modifiers switched as needed. |
| Printer.TextToEvdevKeys | kvmd/keyboard/printer.py:138-219 | The loops emit the events of the chosen strokes of the text, dead key first, and release what is held. |
| Printer.TypingPreservesMeaning | kvmd/keyboard/printer.py:138-219 | Replayed on a keyboard the events give exactly the chosen chords in order, nothing pressed twice or released while up, everything released at the end, if and only if no chosen key is a modifier. |
| PrinterMeaning.SpacingIsTyped | kvmd/keyboard/printer.py:155-160 | Newline, tab and space give one chord each, of keys 28, 15 and 57 without modifiers. |
| PrinterMeaning.TypographicIsStraightened | kvmd/keyboard/printer.py:162-169 | Typographic quotes and dashes give the same events as their ASCII characters. |
| PrinterMeaning.CharacterIsTyped | kvmd/keyboard/printer.py:99-182 | Every other character: the chord of its keysym's first entry without Ctrl; or for a base with a combining mark the chord of the dead key and then that of the base; nothing if it is not printable or there are no such keys. |
| PrinterMeaning.StrokeAsEvents | kvmd/keyboard/printer.py:183-219 | The events of one stroke, Left Ctrl going down before Right Alt and up after it. |
| PrinterMeaning.TextIsTypedInOrder | kvmd/keyboard/printer.py:146-219 | What the host sees of a text is what it sees of its parts, in order. |
| Keysym.AddLine | kvmd/keyboard/keysym.py:130-161 | A line adds its entry, and that of the upper-case letter if asked, at the end of their lists. |
| Keysym.FileGives | kvmd/keyboard/keysym.py:130-161 | An entry is in the layout exactly if some line gives it: under its keysym as written, or under the upper-case one with Shift. |
| Keysym.SurvivingTypes | kvmd/keyboard/keysym.py:59-75 | An entry survives exactly if its code is known, with its flags as modifiers, and it is no modifier that it asks for itself. |
| Keysym.ReadKeyboardLayout | kvmd/keyboard/keysym.py:118-161 | For each keysym the layout holds the file's entries in file order. |
| Keysym.AddKey | kvmd/keyboard/keysym.py:59-78 | One entry is added under its modifiers unless it is unknown, contradictory, or not the first. |
| Keysym.AddKeys | kvmd/keyboard/keysym.py:58-78 | An item's entries are added after everything scanned for its keysym before. |
| Keysym.BuildSymmap | kvmd/keyboard/keysym.py:45-79 | A keysym is in the map exactly if an entry for it survives, with the first-wins index of all entries scanned. |
| Keysym.FirstWinsKeepsFirst | kvmd/keyboard/keysym.py:76-78 | For each set of modifiers the index keeps the first entry, and its first entry without Ctrl is the first such entry scanned. |
| Keysym.TypedEntry | kvmd/keyboard/keysym.py:45-79 | What is typed for a keysym is the first surviving entry without Ctrl in the layout file, and only then in the built-in table; the same for every set of modifiers. |
| EdidCea.ParseUndoesReplace | kvmd/edid.py:240-281 | For all valid blocks and timings that fit, parsing what was packed gives them back, if and only if no timing ends at the checksum byte. |
| EdidCea.ParseCeaOfReplaced | kvmd/edid.py:240-281 | What is read back in either case: all blocks, and all timings or all but the last. |
| EdidCea.PackUndoesParse | kvmd/edid.py:46-69 | Packing what was parsed gives the bytes back, if and only if the last block was not cut off. |
| EdidCea.ReplaceCeaValid | kvmd/edid.py:266-281 | Packing leaves bytes only. |
| EdidCea.ReplacedLayout | kvmd/edid.py:266-281 | Where blocks, timings and padding lie, and what is not touched. |
| EdidCea.ParseBlocksOfPacked | kvmd/edid.py:46-69 | Unpacking a concatenation of packed blocks gives the blocks. |
| EdidAudio.SetAudioTakesEffect | kvmd/edid.py:211-238 | After a successful `set_audio(e)`: `get_audio()` is e, the other blocks survive in order, and so do the timings, if and only if none ends at the checksum byte. |
| EdidAudio.SetAudioFrame | kvmd/edid.py:222-238 | Outside the extension's content only the basic-audio bit changes. |
| EdidAudio.SetAudioTwice | kvmd/edid.py:222-229 | Repeating it succeeds, and changes nothing if and only if no timing was lost. |
| EdidFields.ChangeInRange | kvmd/edid.py:139-207 | A setter writes bytes only, into the number fields or one descriptor text, never a descriptor's type. |
| EdidFields.ApplyValid | kvmd/edid.py:139-229 | No setter breaks the data, whether it succeeds or fails. |
| EdidBytes.NumbersAsBytes | kvmd/edid.py:139-186 | Where and in which byte order the three letters, the product and the serial number are written; nothing else changes. |
| EdidBytes.TextAsBytes | kvmd/edid.py:192-207 | A text goes into the first descriptor of type 0xFC or 0xFF, with line feed and spaces, cut at thirteen; no such descriptor is the error. |
| EdidBytes.AudioAsBytes | kvmd/edid.py:222-233 | The extension's content after the audio switch, byte by byte: the other blocks, the two audio blocks 23 09 7F 07 and 83 01 00 00, the timings and zeros, and its flag and offset. |
| EdidBytes.AudioIsRead | kvmd/edid.py:211-220 | `get_audio` needs blocks of tags 1 and 4 and bit 6 of the extension's fourth byte. |
| EdidOrder.ErrorIndependent | kvmd/edid.py:139-229 | Whether and how a setter fails does not depend on other fields. |
| EdidOrder.SettersCommute | kvmd/edid.py:139-229 | Setting two different fields, the audio switch included, gives the same bytes in either order. |
| EdidOrder.OrderDoesNotMatter | kvmd/edid.py:139-229 | Any order of setting distinct fields gives the same bytes. |
| EdidGetters.StripRemovesEnds | kvmd/edid.py:193-195 | Stripping a text removes white space only, at both ends, and leaves none there. |
| EdidGetters.GetAfterSet | kvmd/edid.py:131-207 | After a setter succeeds its getter returns what was set; for texts the first 13 characters, stripped. |
| EdidGetters.GetOtherField | kvmd/edid.py:131-229 | Every other getter returns what it did before. |
| EdidGetters.GetAfterSequence | kvmd/edid.py:131-229 | After any sequence of setters each field set once reads as set, if that setter would have succeeded on the original data, and as before otherwise. |
| EdidHex.ChecksumsHold | kvmd/edid.py:124-127 | After an update both block sums are 0 modulo 256 and another update changes nothing; a stored checksum is a byte exactly if the block's other bytes do not sum to 0. |
| EdidHex.StaysAccepted | kvmd/edid.py:83-89 | No setter makes an EDID that the constructor would refuse. |
| EdidHex.HexRoundTrip | kvmd/edid.py:95-117 | Reading a written hexadecimal file gives the same bytes if no block's other bytes sum to 0 modulo 256, and fails otherwise. |
| EdidHex.BinRoundTrip | kvmd/edid.py:95-122 | Writing a binary file fails in exactly those cases; with the standard header both files read back alike. |
| EdidBytes.HexLayout | kvmd/edid.py:107-117 | The written file shows every byte, checksums updated, as two upper-case digits, sixteen to a line, unless a checksum is 256. |
| EdidHex.FileKeepsFields | kvmd/edid.py:95-220 | After writing and reading back every getter returns what it did; only `get_audio` may start to work where the parser met a checksum of 256 before. |
| EdidClass.Edid.SetMfcIdField | kvmd/edid.py:139-150 | The bytes and the error are those of the specification; nothing else changes. |
| EdidClass.Edid.SetProductIdField | kvmd/edid.py:157-160 | The same for the product id. |
| EdidClass.Edid.SetSerialField | kvmd/edid.py:172-177 | The same for the serial number. |
| EdidClass.Edid.FindDtdText | kvmd/edid.py:203-207 | The first descriptor of the type, or none. |
| EdidClass.Edid.SetDtdText | kvmd/edid.py:197-201 | The same for the monitor's name and serial text. |
| EdidClass.Edid.ParseBlocksLoop | kvmd/edid.py:249-255 | The loop over the blocks is the recursive parser, assertion failures included. |
| EdidClass.Edid.ParseDtdsLoop | kvmd/edid.py:257-262 | The loop over the timings is the recursive parser. |
| EdidClass.Edid.ParseExtension | kvmd/edid.py:240-264 | All of parsing, with its three ways to end. |
| EdidClass.Edid.ReplaceExtension | kvmd/edid.py:266-281 | The in-place loop writes the packed layout, or nothing if it does not fit. |
| EdidClass.Edid.SetAudioSwitch | kvmd/edid.py:222-238 | The audio switch in place; it fails, changing nothing, if the extension does not parse or the new content does not fit in 123 bytes. |
| EdidClass.Edid.ReadAudio | kvmd/edid.py:211-220 | Audio is on if both kinds of block exist and the flag is set. |
| EdidClass.Edid.UpdateSums | kvmd/edid.py:124-127 | The checksums in place. |
| EdidClass.Edid.WriteHex | kvmd/edid.py:107-117 | The text of the file, line by line, of the updated data. |
| RateLimit.AttemptsAreHistory | kvmd/apps/kvmd/auth.py:630-695 | With a nondecreasing clock, for every window ending now or later, the attempt list is the failure history since the entry was last reset. |
| RateLimit.LockHolds | kvmd/apps/kvmd/auth.py:609-695 | However logins overlap, a lock holds for its full duration unless it is lifted by hand. |
| RateLimitOverlap.LockedExactly | kvmd/apps/kvmd/auth.py:609-663 | With logins one at a time, a client is locked exactly if its last failure made the windowed history reach max_attempts, and only for lockout_duration. |
| RateLimitOverlap.FailuresAreSpread | kvmd/apps/kvmd/auth.py:230-278 | With logins one at a time, no half-open span of min(time_window, lockout_duration) holds more than max(1, max_attempts) failures of a client. |
| RateLimit.LoginIsSerial | kvmd/apps/kvmd/auth.py:236-276 | A login that is let through and fails keeps a run serial, and leaves the client's entry as the run does. |
| RateLimit.OverlapBreaksTheBound | kvmd/apps/kvmd/auth.py:230-278 | Two overlapping logins fail at the same moment with max_attempts 1. |
| RateLimitOverlap.OverlapIsBounded | kvmd/apps/kvmd/auth.py:230-278 | However logins overlap, such a span holds at most max(1, max_attempts) failures and one more for each failure of a login that was admitted before the failure preceding it. |
| RateLimitOverlap.PromptFailuresAreSpread | kvmd/apps/kvmd/auth.py:230-278 | The other failures are spread as if logins came one at a time. |
| RateLimitOverlap.SerialExactly | kvmd/apps/kvmd/auth.py:230-278 | Logins come one at a time exactly if there is no such failure. |
| AuthProtocol.FailuresAreConserved | kvmd/apps/kvmd/auth.py:251-284 | Over every history the reported failure counts and the current counter add up to the failed authorizations. |
| AuthTwoStep.TokensAreIndependent | kvmd/apps/kvmd/auth.py:451-555 | What happens to one two-step token is a function of that token's state and the event alone. |
| AuthRuns.RunInOrder | kvmd/apps/kvmd/auth.py:431 | Pending sessions stay in the order in which their tokens were issued. |
| AuthRuns.MintIsEarned | kvmd/apps/kvmd/auth.py:451-491 | A token mints a session only for the user whose first step issued it, with the expiry asked for then, after an approval in time, not after a rejection or disabling, and not after 60 seconds. |
| AuthRuns.MintsAtMostOnce | kvmd/apps/kvmd/auth.py:451-491 | A two-step token mints at most one session. |
| AuthRuns.TokenWaits | kvmd/apps/kvmd/auth.py:451-555 | Conversely a token keeps waiting until it is rejected, disabled, exchanged or seen expired, and is approved exactly if an approval came in time. |
| AuthRuns.PendingIsLive | kvmd/apps/kvmd/auth.py:510-528 | The reported request is unapproved and not expired. |
| AuthRuns.PendingIsNewest | kvmd/apps/kvmd/auth.py:510-528 | One is reported whenever there is one, and none such was issued later. |
| AuthSessions.SessionsAreLimited | kvmd/apps/kvmd/auth.py:293-312 | With a global limit every session keeps 0 < expire_ts <= now + limit. |
| AuthSessions.IdleSessionsEnd | kvmd/apps/kvmd/auth.py:347-380 | With a global limit a session that was neither minted nor refreshed during the last `limit` seconds is refused. |
| AuthSessions.SessionLivesAsAsked | kvmd/apps/kvmd/auth.py:293-312 | A session of a login or of a two-step exchange that is not refreshed, logged out or issued again is accepted until the expiry asked for and the global limit allow, whichever is shorter, and for ever if neither is set, however often it is checked. |
| AuthSessions.RefusedStaysRefused | kvmd/apps/kvmd/auth.py:347-363 | A token for which `check` once answered None stays dead until it is issued again. |
| AuthSessions.LoggedOutStaysRefused | kvmd/apps/kvmd/auth.py:333-345 | A token that was logged out is refused until it is issued again. |
| AuthSessions.RefreshRevives | kvmd/apps/kvmd/auth.py:365-380 | An expired session still in the dictionary is accepted after a refresh, exactly if the limit is at least 2 or it expired before this second. |
| AuthSessions.RefreshedSessionLives | kvmd/apps/kvmd/auth.py:365-380 | After a refresh a session is accepted exactly until a whole limit from then, if less than half of the limit was left, and otherwise until its old expiry; so a live one lasts at least another half of the limit. |
| AuthSessions.CheckAnswersOwner | kvmd/apps/kvmd/auth.py:347-363 | `check` answers only the user whom the token was last issued to. |
| AuthManagerClass.AuthManager.IsClientLocked | kvmd/apps/kvmd/auth.py:609-628 | Answers the lock and its remaining seconds; deletes an entry whose lock has expired; touches no other client. |
| AuthManagerClass.AuthManager.Prune | kvmd/apps/kvmd/auth.py:646-651 | Keeps the attempts after the cutoff, in order. |
| AuthManagerClass.AuthManager.RecordFailedAttempt | kvmd/apps/kvmd/auth.py:630-663 | Appends, prunes and locks, for this client only. |
| AuthManagerClass.AuthManager.CleanupExpiredData | kvmd/apps/kvmd/auth.py:669-695 | Cleans every client's entry, whatever the order of the dictionary. |
| AuthManagerClass.AuthManager.UnlockClient | kvmd/apps/kvmd/auth.py:732-744 | Lifts a lock and forgets its attempts. |
| AuthManagerClass.AuthManager.Login | kvmd/apps/kvmd/auth.py:230-278 | A login as a whole: refused while locked with nothing changed, or a session and the failure report, or one more failure and perhaps a lock. |
| AuthManagerClass.AuthManager.PreLogin | kvmd/apps/kvmd/auth.py:394-449 | The first of two steps as a whole. |
| AuthManagerClass.AuthManager.CleanupTwoStepSessions | kvmd/apps/kvmd/auth.py:500-508 | Removes the expired two-step sessions and keeps the order of the others. |
| AuthManagerClass.AuthManager.CompleteTwoStepLogin | kvmd/apps/kvmd/auth.py:451-491 | Each status exactly in its case; only `ok` mints, and consumes the token and the failure report. |
| AuthManagerClass.AuthManager.ApproveTwoStepSession | kvmd/apps/kvmd/auth.py:530-544 | Approves a live token, removes an expired one. |
| AuthManagerClass.AuthManager.RejectTwoStepSession | kvmd/apps/kvmd/auth.py:546-555 | Removes the token, and answers whether it was there. |
| AuthManagerClass.AuthManager.SetTwoStepLoginEnabled | kvmd/apps/kvmd/auth.py:388-392 | Disabling forgets all two-step sessions. |
| AuthManagerClass.AuthManager.GetPendingTwoStepSession | kvmd/apps/kvmd/auth.py:510-528 | The search from the end finds the newest live request. |
| AuthManagerClass.AuthManager.LogoutToken | kvmd/apps/kvmd/auth.py:333-345 | Removes that session only. |
| AuthManagerClass.AuthManager.CheckToken | kvmd/apps/kvmd/auth.py:347-363 | Answers the user of a live session and deletes an expired one. |
| AuthManagerClass.AuthManager.RefreshTokenExpiry | kvmd/apps/kvmd/auth.py:365-380 | Prolongs a limited session in its last half. |
| OtgProfile.ChangeLeaves | kvmd/apps/otgconf/__init__.py:217-241 | A change that succeeds leaves exactly (current - disable) + enable, as far as known and as far as the kernel links it. |
| OtgProfile.ChangeByName | kvmd/apps/otgconf/__init__.py:217-241 | Name by name: after success exactly the known names are linked that were not refused and are in `enable`, or were enabled and are not in `disable`; needless exactly if no name would change; and otherwise over budget exactly if the names asked for need more endpoints than there are. |
| OtgProfile.MtpFailureRestores | kvmd/apps/otgconf/__init__.py:114-135 | After a failed MTP start or stop the previous links are back, at most without MTP. |
| OtgProfile.RunsKeepOrderAndBudget | kvmd/apps/otgconf/__init__.py:83-241 | Over every run of requests, failed ones included, the links stay in meta order and need no more endpoints than the budget or than at the start. |
| OtgProfile.EmptiedForGood | kvmd/apps/otgconf/__init__.py:97-163 | A request that unlinks the last function of a bound gadget leaves it unbound with no controller to be found, whatever is requested later. |
| OtgProfile.BoundUntilEmptied | kvmd/apps/otgconf/__init__.py:136-163 | From a bound gadget on, it is bound and its controller found exactly while something is linked. |
| OtgGadget.BuildIsWithinBudget | kvmd/apps/otg/__init__.py:362-377 | However the gadget is built, functions are numbered and linked in order of creation, the charged ones fit the budget, and all do exactly if RNDIS is not linked or two endpoints are left. |
| OtgGadget.StartedAreLinked | kvmd/apps/otg/__init__.py:160-377 | Every function is recorded; only those to be started are linked, and all of those if their charges fit the budget together. |
| OtgGadget.RndisExceedsBudget | kvmd/apps/otg/__init__.py:275-290 | With four endpoints RNDIS and MTP are linked with five. |
| OtgGadget.MetasReadInCreationOrder | kvmd/apps/otgconf/__init__.py:193-207 | Whatever the order of the directory, the meta files are read in order of creation. |
| OtgGadget.BudgetHoldsForever | kvmd/apps/otgconf/__init__.py:217-241 | From a start that leaves RNDIS unlinked no run of requests ever exceeds the budget. |
| OtgClass.GadgetControl.ClearProfile | kvmd/apps/otgconf/__init__.py:166-191 | Removes all links, and recreates the same ones in meta order if asked to. |
| OtgClass.GadgetControl.LinkAll | kvmd/apps/otgconf/__init__.py:231-237 | Links the wanted functions in meta order. |
| OtgClass.GadgetControl.Restart | kvmd/apps/otgconf/__init__.py:114-165 | Relinking, MTP, rollback and restart after the body. |
| OtgClass.GadgetControl.ChangeFunctions | kvmd/apps/otgconf/__init__.py:217-241 | A change request as a whole; one that is over budget, needless, or finds no controller changes nothing. |
| OtgClass.GadgetControl.ResetGadget | kvmd/apps/otgconf/__init__.py:288-290 | A reset as a whole. |
| OtgClass.GadgetConfig.StartFunction | kvmd/apps/otg/__init__.py:362-368 | Links and charges a function if its endpoints are left, and otherwise does neither. |
| OtgClass.GadgetConfig.CreateMeta | kvmd/apps/otg/__init__.py:370-377 | Records a function with the next number. |
| OtgClass.GadgetConfig.AddDevice | kvmd/apps/otg/__init__.py:160-355 | Each kind of function gets its name, endpoints, link and record, and the instance counters advance. |
| InotifyBuffer.ParsedBuffer | kvmd/inotify.py:51-62 | The loop over the offset is the recursive parser of the bytes, cut-off tails included. |
| InotifyBuffer.ParseOfEncoded | kvmd/inotify.py:51-62 | Parsing what the kernel wrote gives its events back, without padding and overflow records, and what follows is parsed on its own. |
| InotifyIndex.WatchKeepsIndex | kvmd/inotify.py:207-215 | A new watch keeps path and descriptor in agreement, exactly if its descriptor is not used by another indexed path. |
| InotifyIndex.RunsKeepIndex | kvmd/inotify.py:207-287 | Through watches, renames also over watched paths, IGNORED and exceptions every indexed path is the path of its descriptor. |
| InotifyIndex.RenameMovesWatch | kvmd/inotify.py:262-270 | The two halves of a rename move the watch to the new path, also over a watched one, and both are queued. |
| InotifyIndex.IgnoredForgets | kvmd/inotify.py:272-277 | An IGNORED that does not raise unindexes its descriptor and nothing else, and is not queued. |
| InotifyQueue.EventsAreQueued | kvmd/inotify.py:255-287 | A read without a fault queues exactly the events of watched descriptors other than IGNORED, in order, each with its path at that moment. |
| InotifyIndex.SplitReadsAgree | kvmd/inotify.py:255-287 | Splitting the byte stream between events changes nothing, unless an IGNORED in the first part finds its path not indexed: then one read loses the second part. |
| InotifyIndex.LateIgnoredReached | kvmd/inotify.py:262-277 | A run from the start, with fresh descriptors: a watched file is renamed over another and away again before the latter's IGNORED, which then raises; the rest of the buffer is lost. |
| InotifyClass.Inotify.WatchPath | kvmd/inotify.py:207-215 | Indexes a path once. |
| InotifyClass.Inotify.TrackMoves | kvmd/inotify.py:262-270 | The two halves of a rename, joined by their cookie. |
| InotifyClass.Inotify.HandleEvent | kvmd/inotify.py:257-279 | One event: rename, IGNORED, or queued. |
| InotifyClass.Inotify.ReadAndQueueEvents | kvmd/inotify.py:255-287 | One buffer, event by event, with the index as it is at each. |
| MouseSplit.SplittedDeltas | kvmd/apps/localhid/hid.py:132-142 | The loop yields the pieces of the recursive split. |
| MouseSplit.SplitAddsUp | kvmd/apps/localhid/hid.py:132-142 | The pieces add up to the motion, are within -127..127, never zero or backwards, and are ceil(max(abs x, abs y) / 127) in number. |
| MouseSplit.SplitIsShortest | kvmd/apps/localhid/hid.py:132-142 | No fewer pieces that fit a byte add up to the same motion. |
| MouseSplit.MotionIsConserved | kvmd/apps/localhid/hid.py:91-124 | For every event stream queued and pending motion are together the motion seen while grabbed; nothing is pending after a SYN_REPORT, nor ever on a device without it. |
| MouseSplit.KeysAreForwarded | kvmd/apps/localhid/hid.py:98-130 | On a device with SYN_REPORT all keys, and buttons while grabbed, are queued in order. |
| MouseSplit.KeyOutputIsPress | kvmd/apps/localhid/hid.py:98-130 | What is queued for an input is its press or release, once: keys always, buttons while grabbed, repeats never. |
| MouseSplit.KeysWithoutSyn | kvmd/apps/localhid/hid.py:97-130 | On a device without it, over every event stream, exactly the keys that come while it is not grabbed are queued; these are all, exactly if none comes while it is grabbed. |
| MouseSplit.Poller.Handle | kvmd/apps/localhid/hid.py:97-130 | One turn of the loop. |

## Left out

- StreamerClass.Streamer.EnsureStop: the `graceful` flag, and a cancellation that arrives inside `kill_process`; killing the process is one uninterruptible step.
- The polling of the need flag file, the stream controller in `kvmd/apps/kvmd/server.py` with its forced stops, and the streamer's state poller.
- PicoUart.Uart.Task: the clock is unbounded; the wrap of 64-bit microseconds is not modelled.
- PicoMain.Firmware.HandleRequest: what the commands do to the outputs is not modelled, except for the keyboard report in `UsbKeyboard`.
- McuRetry.ProcessRequest: one attempt is one exchange; bytes lost or left over between attempts, which would shift the framing, are not modelled, nor are responses of other lengths than none and eight, on which the daemon raises, and logging and pauses. A garbled response is one that fails its check.
- UsbKeyboard.Keyboard.SendKey: the keyboard interface is ready and the keyboard output is USB; key 0, which the command layer never passes on, is excluded. The mouse reports of the same file are left out.
- Media.Source.WsStartHandler: one source; that a client may not start a second stream on another source is not modelled.
- Keysym.ReadKeyboardLayout: cutting lines into words and looking up names is not modelled; a line is its resolved words.
- Printer.TextToEvdevKeys: libxkbcommon and the Unicode tables are parameters.
- EdidClass.Edid.SetMfcIdField: letters outside ASCII are refused; a few of them have upper-case forms within ASCII, which Python accepts.
- EdidHex.HexRoundTrip: a file with bytes outside ASCII that is no binary EDID is not readable in the model, although Python reads digits and spaces of other scripts.
- AuthManagerClass.AuthManager.Login: the authorization services and TOTP are a parameter, Unix socket credentials and the status listings are left out, as are clocks and tokens; overlapping logins are covered by the runs of `RateLimit` and `RateLimitOverlap`, not by this method. Times are real numbers without rounding.
- AuthManagerClass.AuthManager.PreLogin: the client's address, user agent and browser are not recorded.
- OtgClass.GadgetControl.ChangeFunctions: writing to sysfs and configfs succeeds, except for refused links and MTP; the controller is the only one, and leaves sysfs when its driver is unbound, as the code expects.
- OtgClass.GadgetConfig.AddDevice: the attributes written for each function are not modelled.
- InotifyClass.Inotify.ReadAndQueueEvents: paths are their encoded bytes; names that cannot be decoded, and normalisation of watched paths, are not modelled.
- The incremental pollers of `kvmd/apps/kvmd/ugpio.py` and `AioNotifier`: their folding and OR-ing laws would only add easy members.
- The bridge and Arduino firmware, which repeat the framing and CRC; the PS/2 code.
- Subprocesses, sockets, D-Bus, GPIO and configuration, STUN, PST, IPMI, OLED, OCR and snapshots.
