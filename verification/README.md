# Verification models of the QEMU guest driver

Dafny models of the parts of the repository that carry an algorithm, a protocol or arithmetic, with proofs
of what they promise over every input, every run and every reachable state. `dafny verify dfyconfig.toml`
checks all of it.

| files | what they model |
|---|---|
| `qmp_hub.dfy`, `qmp_calls.dfy`, `qmp_system.dfy`, `qmp_theorems.dfy`, `qmp_progress.dfy` | the QMP machine: reader goroutine, `Execute`, event listeners, panic watcher and the runner's panic flag, as one transition system; the listener table also as a class |
| `rfb_wire.dfy`, `rfb_capture.dfy`, `rfb_session.dfy`, `rfb_grammar.dfy` | the VNC screenshot client, reading from a connection that splits the stream at will, and the server it is the inverse of (RFC 6143) |
| `text.dfy`, `templates.dfy`, `expressions.dfy`, `printed_templates.dfy`, `step_references.dfy` | the template engine: scanning, splicing, evaluation, resolution of whole trees, references to the outputs of earlier steps |
| `base64.dfy`, `winrm.dfy` | the chunked Base64 file transfer over WinRM (section 4 of RFC 4648) |
| `runner.dfy`, `step_context.dfy` | the step runner under every outcome of its selects, progress callbacks, the verdict, and the outputs an action records |
| `exec_writers.dfy` | the line logger and the capture writer behind `io.MultiWriter` and `io.Copy` |
| `qcow2.dfy` | byte access on a disk of 512-byte sectors |
| `panic_order.dfy` | the runner's select tied to the panic channel of the QMP pipeline |
| `ssh_transport.dfy` | the connection life cycle of the SSH transport: calls, contexts and handshake watchers |
| `bytes.dfy`, `wrappers.dfy` | bytes, flattening, option and result |

Conventions. A goroutine's atomic steps are pure functions and the system is their interleaving
(`QmpSystem.Next`, `QmpSystem.Run`); a method with a loop in the source is a method with that loop here,
proved against a function. What the source cannot decide is a parameter: how the network cuts a stream, how
a remote command ends (`Guest.fate`), which select case fires (`World.play`), when ctx closes (`polls`),
the environment and the printing of compound values (`Host`), and what becomes of an attempt to connect
(`Attempt`). Records of what happened
(`Channel.offered`, `dropped` and `freed`, `Hub.dispatched`, `StepRunner.log`, `Books.closed`) exist only to state
properties. `hide` statements limit what the solver unfolds and change no meaning.

## What the proofs found

Where the code does not give what a reader would expect, the model follows the code, a concrete case shows
the difference, and the exact condition is proved.

- An `Execute` returns the reply to its own command if and only if no earlier `Execute` was given up through
  ctx or process exit; afterwards every call returns an older reply
  (`QmpTheorems.OwnReplyIffNoneAbandoned`); a run in which that happens is `OldReplyIsReturned`. A reply can be dropped only after 16 abandoned calls, and 16 are
  enough (`NoReplyLostBelowSixteen`, `SixteenAbandonedCanDrop`).
- `Execute` waits with the mutex that the reader needs to dispatch an event. A waiting call can be completed
  by the program's own steps if and only if a reply is queued or precedes the next event on the wire
  (`ReturnsIffDeliverable`). The mutual wait is reachable (`BlockedIsReachable`), and then nothing but ctx or
  process exit ends the call, whatever QEMU sends (`BlockedUntilGivenUp`).
- This cuts the panic handler off from its own pause. QEMU announces a stop with an event; when that comes
  before the reply, the pause ends only by being given up, and every Execute completed afterwards returns the
  reply to an earlier command (`PauseCutOff`, reachable by `PauseIsCutOff`).
- A panic event in the handler's slot reaches the runner by the program's own steps, after one pause, if and only
  if no call waits or the waiting call's reply is deliverable (`QmpProgress.PanicReportedIff`); otherwise giving
  that call up is enough (`PanicReportedOnceGivenUp`).
- A listener keeps one event, so the panic watcher can miss a panic (`PanicEventCanBeLost`). An event is dropped
  if and only if one kept before it still holds the slot (`LostOnlyBehindAnother`, and for panic events
  `PanicMissedOnlyBehindAnother`).
- `Upload` over WinRM reports success whatever the exit codes of the write commands are, and sends no command
  for an empty file. After a finished upload the remote file is the data, whatever was there before, if and
  only if the data is nonempty and every write exited with zero (`WinRM.UploadFaithfulIff`).
- The comment on `captureWriter` says that bytes over the limit are discarded silently. The write that
  crosses the limit returns a short count, which `io.MultiWriter` turns into an error: the copy of more than
  4096 bytes of output goes through if and only if some read ends exactly at byte 4096 (`ExecWriters.Stdout.Copy`,
  `NeverCrosses`, `CuttingMatters`), and whatever the reads if and only if the output fits
  (`NeverFailsIffFits`). The logged lines themselves never depend on the cutting.
- `${{ steps.<id>.outputs.<name> }}` yields the recorded output for every record if and only if the id has
  no dot and no closing brace and the name has no closing brace and no white space at its end
  (`StepReferences.FaithfulIffPrintable`).
- The SSH transport can hand out a connection that its own handshake watcher has closed: after the handshake
  (`SshTransport.CurrentCanBeClosed`) or at its very end (`HandedOutClosed`). A connection dialed is open under
  every schedule of the watchers if and only if it is still in use and the context of the call that dialed it
  is not done (`OpenIffCtxOpen`); once handed out it stays open until `Close` if and only if it is open and its
  watcher has ended (`CurrentStaysOpen`), or, with no more to come from the context, if and only if the context
  was not done before the watcher ended (`OpenIffCtxOutlivesWatcher`).

## Model

| member | source | states |
|---|---|---|
| QmpTheorems.OwnReplyIffNoneAbandoned | internal/qemu/machine.go:232-271 | in every run, with any number of abandoned calls, a completed Execute got its own reply exactly when no call was abandoned before it, and an older reply otherwise |
| QmpTheorems.NoReplyLostBelowSixteen | internal/qemu/machine.go:220-270 | written minus consumed is abandoned plus the waiting call; below 16 abandoned calls nothing is dropped and the n-th reply consumed answers the n-th command |
| QmpTheorems.SixteenAbandonedCanDrop | internal/qemu/machine.go:222-226 | the bound is tight: a reachable state with 16 abandoned calls has dropped a reply |
| QmpTheorems.OldReplyIsReturned | internal/qemu/machine.go:253-267 | a reachable state in which the second Execute returned the reply to the first |
| QmpTheorems.ReturnsIffDeliverable | internal/qemu/machine.go:197-270 | from any reachable state with a call waiting, the program's steps alone can complete it exactly when a reply is queued or the next line that is not noise is a reply |
| QmpTheorems.DeliverableReturns | internal/qemu/machine.go:200-270 | in that case the reader alone delivers the reply within as many reads as lines are unread |
| QmpTheorems.WaitingStaysForever | internal/qemu/machine.go:253-270 | otherwise no run of the program completes the call or releases it |
| QmpTheorems.BlockedUntilGivenUp | internal/qemu/machine.go:233-270 | once the reader holds an event, or will before a reply, no run whatever QEMU sends ends the call except by giving up |
| QmpTheorems.BlockedIsReachable | internal/qemu/machine.go:337-339 | the mutual wait occurs, with the awaited reply unread on the wire |
| QmpTheorems.PauseCutOff | internal/qemu/pvpanic.go:51-52 | with an event ahead of the reply to the handler's pause, in every run the pause ends only by being given up, and every Execute completed afterwards returns the reply to an earlier command |
| QmpTheorems.PauseIsCutOff | internal/qemu/pvpanic.go:51-52 | a reachable state in which the STOP event precedes the reply to the pause |
| QmpTheorems.ListenersAreSafe | internal/qemu/machine.go:275-358 | over all interleavings no channel is closed twice or sent to after close, the table is exactly the open channels, ids are never reused |
| QmpTheorems.ReceivedExactly | internal/qemu/machine.go:337-348 | the k-th event received is the first one dispatched after the k-th emptying of the slot, in order, only events after the subscription; the slot holds the first one since the last emptying |
| QmpTheorems.LostOnlyBehindAnother | internal/qemu/machine.go:341-347 | the fate of every event offered: dropped exactly when an event kept before it still held the slot, received or waiting exactly when not dropped |
| QmpTheorems.PanicMissedOnlyBehindAnother | internal/qemu/pvpanic.go:19-40 | while the handler watches, a panic event offered to it was dropped exactly when an earlier event held the slot, one of another kind if it has been received since; otherwise it is in the slot now |
| QmpTheorems.PanicEventCanBeLost | internal/qemu/machine.go:342-346 | a reachable state in which the panic event was dispatched and the handler will never see it |
| QmpTheorems.PanicComesAfterPause | internal/executor/panic_handler.go:35-58 | when the runner has seen the panic signal, a panic event was dispatched after the handler subscribed, its one pause attempt had returned, and the channel was closed exactly once |
| QmpProgress.PanicReportedIff | internal/executor/panic_handler.go:35-58 | from any reachable state in which the handler has GUEST_PANICKED or GUEST_CRASHLOADED in its slot, or has taken it, the program's own steps reach a state where the runner has the panic after one pause and one close, exactly when no call waits or its reply is deliverable |
| QmpProgress.PanicReportedOnceGivenUp | internal/qemu/machine.go:253-270 | a call that stands in the way need only be given up |
| QmpProgress.DispatchedPanicIsReported | internal/qemu/pvpanic.go:19-40 | a panic event in the reader's hand, with the mutex free and the handler's slot empty, reaches the runner |
| QmpProgress.PausedIsReported | internal/executor/panic_handler.go:46-55 | once the pause is under way nothing keeps the panic from the runner |
| QmpProgress.PanicIsReported | internal/executor/panic_handler.go:35-58 | a reachable state in which the pause got its own reply and the runner has the panic |
| QmpProgress.DispatchedIsReceived | internal/qemu/machine.go:337-348 | an event in the reader's hand is received by any other subscriber with an empty slot |
| QmpProgress.HangUpClosesAllIff | internal/qemu/machine.go:198-204 | after a hang-up the program's own steps end the reader and close every channel exactly when no other call holds the mutex for a reply out of reach |
| QmpProgress.HandlerLeaves | internal/qemu/pvpanic.go:20-27 | a handler that stops watching unsubscribes |
| PanicOrder.ReceiveComesLast | internal/executor/runner.go:142-163 | a receive from the panic channel finds the panic event dispatched after the subscription, the pause returned and the channel closed once |
| PanicOrder.RunWatched | internal/executor/runner.go:142-187 | whenever RunSteps reports PanicDetected, the failed step's select made such a receive |
| PanicOrder.ReceiveHappens | internal/executor/runner.go:155-163 | a run in which such a receive occurs |
| QmpSystem.StepKeepsInv | internal/qemu/machine.go:197-358 | every action of QEMU, reader, callers, subscribers, handler and runner keeps the invariant |
| QmpSystem.RunKeepsInv | internal/qemu/machine.go:197-358 | so does every run |
| QmpSystem.SlotWasDispatched | internal/qemu/machine.go:341-347 | what a subscriber finds in its slot was dispatched after it subscribed |
| QmpCalls.BeginKeeps | internal/qemu/machine.go:236-250 | writing a command keeps the pairing of commands and outstanding replies |
| QmpCalls.TakeKeeps | internal/qemu/machine.go:256-267 | so does a call that takes a reply, also a stale one |
| QmpCalls.AbandonKeeps | internal/qemu/machine.go:254-269 | so does a call that gives up and leaves its reply outstanding |
| QmpCalls.PushKeeps | internal/qemu/machine.go:220-227 | so does the reader queueing or dropping a reply |
| QmpCalls.PushFits | internal/qemu/machine.go:222-226 | a full queue implies at least 16 abandoned calls |
| QmpHub.OfferToKeeps | internal/qemu/machine.go:342-346 | one nonblocking send keeps: slot and history agree, and each open listener was offered all but what the walk still owes it |
| QmpHub.CloseKeeps | internal/qemu/machine.go:354-357 | closing one listed channel keeps the table equal to the open channels, without a second close |
| QmpHub.OfferAllAnyOrder | internal/qemu/machine.go:341-347 | whichever listener Go's map order serves first, the dispatch ends in the same table |
| QmpHub.CloseAllAnyOrder | internal/qemu/machine.go:354-357 | the same for closing |
| QmpHub.Machine.SubscribeEvents | internal/qemu/machine.go:275-282 | a fresh id, listed, with an empty open channel; nothing else changes |
| QmpHub.Machine.UnsubscribeEvents | internal/qemu/machine.go:284-291 | the id leaves the table and its channel is closed once; a second call changes nothing |
| QmpHub.Machine.DispatchEvent | internal/qemu/machine.go:337-348 | the loop in any map order equals offering the event to every listener at once |
| QmpHub.Machine.CloseListeners | internal/qemu/machine.go:350-358 | every listed channel is closed once and the table is empty |
| RfbSession.CaptureInvertsServe | internal/vnc/capture.go:37-282 | for every size, list of Raw rectangles and prefix of skipped messages, what the server sends is read back exactly, with every later byte left over; a cancel is reported exactly when ctx closes no later than the skipped messages |
| RfbSession.CaptureServed | internal/vnc/capture.go:20-282 | however that stream is split into reads, each pixel shows the last rectangle over it, no byte after the update is read, and the server finds a request for its own size |
| RfbGrammar.AcceptsExactly | internal/vnc/capture.go:37-282 | the streams accepted are exactly those that begin with some server's session; everything else is rejected |
| RfbGrammar.RefusalIsReported | internal/vnc/capture.go:55-66 | a server without security types is reported with the reason it wrote |
| RfbGrammar.NoneMissingIsReported | internal/vnc/capture.go:73-83 | an offer without None is reported with its types |
| RfbGrammar.AuthFailureIsReported | internal/vnc/capture.go:89-104 | a security result other than zero is reported with the reason the server wrote |
| RfbGrammar.EncodingIsReported | internal/vnc/capture.go:213-217 | after any good rectangles, one in another encoding ends the capture and its encoding is reported |
| RfbGrammar.UnknownMessageIsReported | internal/vnc/capture.go:278-280 | after any skipped messages, an unknown type ends the capture and is reported |
| RfbCapture.ClientIsRead | internal/vnc/capture.go:43-172 | the bytes the client sends, field by field at their positions |
| RfbCapture.ShownBytes | internal/vnc/capture.go:225-247 | the shown pixel in terms of columns, rows and the bytes of the rectangle that decides it |
| RfbSession.CaptureScreenshot | internal/vnc/capture.go:20-282 | on any stream, well formed or not, success or the exact failure is determined by the bytes alone, not by the fragments; on success so are every pixel and the bytes consumed, and a server finds in the bytes sent what the client means to say, with the size of the ServerInit |
| RfbSession.Handshake | internal/vnc/capture.go:37-172 | accepts exactly the handshakes of the grammar, reports the grammar's failure otherwise, and sends bytes in which a server finds version 3.8, type None, a shared session, the pixel format, the one encoding Raw and a full request for exactly the size it announced |
| RfbSession.ReadSecurity | internal/vnc/capture.go:37-104 | version, security types and result, including refusal with a reason and a missing None type |
| RfbSession.ReadSecurityResult | internal/vnc/capture.go:89-104 | a failed result carries the reason padded with zero bytes when it is cut short |
| RfbSession.ReadInit | internal/vnc/capture.go:111-126 | size from the right fields, the desktop name skipped to the byte |
| RfbSession.HasNone | internal/vnc/capture.go:74-80 | the scan finds type None exactly when it is offered |
| RfbSession.ReadRect | internal/vnc/capture.go:203-247 | one rectangle is consumed to the byte and painted, or fails as the grammar does |
| RfbSession.ReadRects | internal/vnc/capture.go:202-248 | after all rectangles every pixel shows the last one that covers it |
| RfbSession.ReadUpdate | internal/vnc/capture.go:178-281 | the message loop skips what carries no image and ends after the first update, with the image and rest the grammar gives |
| RfbSession.RectsRoundTrip | internal/vnc/capture.go:202-224 | reading back written rectangles gives the same rectangles and leaves the tail |
| RfbSession.SkipAll | internal/vnc/capture.go:253-276 | any sequence of Bell, SetColourMapEntries and ServerCutText is skipped, one poll of ctx each |
| RfbSession.HelloRoundTrip | internal/vnc/capture.go:37-126 | any server greeting that offers None is accepted and its size recovered |
| RfbCapture.PicksMatchFormat | internal/vnc/capture.go:128-144 | the bytes picked as red, green and blue are the components under the shifts, maxima and byte order the client requested (section 7.4 of RFC 6143) |
| RfbCapture.LastRectWins | internal/vnc/capture.go:225-247 | the last rectangle that covers a pixel decides it |
| RfbCapture.UncoveredStaysBlank | internal/vnc/capture.go:176-176 | a pixel no rectangle covers is four zero bytes |
| RfbCapture.SourceIndex | internal/vnc/capture.go:220-229 | every source index and the three after it lie inside the pixel data |
| RfbCapture.OffsetInside | internal/vnc/capture.go:239-244 | every written offset plus 3 lies inside the image, whose size fits in 63 bits |
| RfbCapture.OffsetsApart | internal/vnc/capture.go:240-244 | two different pixels never share a byte |
| RfbCapture.Image.Store | internal/vnc/capture.go:240-244 | the four stores change that pixel and no other |
| RfbCapture.Image.Paint | internal/vnc/capture.go:225-247 | the double loop paints exactly the clipped rectangle and keeps everything else |
| RfbWire.Conn.ReadFull | internal/vnc/capture.go:312-322 | succeeds exactly when enough bytes are left however they are split, fills the buffer with them and takes none beyond |
| Templates.MatchIsTemplate | internal/expr/expressions.go:14-14 | every way the regular expression can match at a place ends where the scanner does and gives the same trimmed expression |
| Templates.TemplateIsMatch | internal/expr/expressions.go:14-14 | and every template the scanner finds is matched |
| Templates.FindAllIsLeftmost | internal/expr/expressions.go:88-88 | exactly one list of spans consists of templates, in order and disjoint, with no template starting outside them: the one found |
| Templates.RawRebuilds | internal/expr/expressions.go:98-113 | gaps and the text of the spans rebuild the input |
| Expressions.ResolveString | internal/expr/expressions.go:87-114 | the builder loop yields the input itself, the typed value of a whole-string template, or the gaps with the values between them, or the first failure |
| Expressions.BuildString | internal/expr/expressions.go:98-113 | at every point of the loop what is built plus what remains is the spliced string |
| Expressions.ResolvedKeepsGaps | internal/expr/expressions.go:87-114 | without a match the input is returned; otherwise only the spans are replaced and nothing is scanned again |
| Expressions.LookupPath | internal/expr/expressions.go:163-177 | the loop follows the keys one by one, with the failure of the first segment that is missing or not an object |
| Expressions.PathOfKeys | internal/expr/expressions.go:134-142 | a vmconfig path printed from keys without dots leads back along exactly those keys |
| Expressions.Resolve | internal/expr/expressions.go:26-67 | for every map iteration order success and the resolved tree are the same, and a failure is that of some string in the tree |
| Expressions.FailsIffALeafFails | internal/expr/expressions.go:26-67 | resolution fails exactly when some string of the tree fails |
| Expressions.TreeKeepsShape | internal/expr/expressions.go:26-67 | a resolved tree has the same constructors, lengths and keys above the strings |
| Expressions.PlainTreeFixed | internal/expr/expressions.go:26-67 | a tree without templates resolves to itself in any context |
| Expressions.ResolveTexts | internal/expr/expressions.go:30-43 | elements of a string list must resolve to strings, or the list fails |
| PrintedTemplates.TestDirResolves | internal/expr/expressions.go:118-122 | `test.dir` gives the test directory, and fails exactly without a context or when it is empty |
| PrintedTemplates.OutputDirResolves | internal/expr/expressions.go:123-127 | the same for `output.dir` |
| PrintedTemplates.EnvResolves | internal/expr/expressions.go:128-133 | `env.NAME` gives that variable for every printable name, and fails exactly without a name |
| PrintedTemplates.VMConfigResolves | internal/expr/expressions.go:134-142 | `vmconfig` and a path give a value exactly when the configuration is there and the value lies at the end of those keys through nested objects, with its type |
| PrintedTemplates.StepsNeedContext | internal/expr/expressions.go:143-147 | `steps` fails when no steps are known |
| PrintedTemplates.OtherExpressionsFail | internal/expr/expressions.go:158-160 | any other expression fails |
| PrintedTemplates.OnlyTemplate | internal/expr/expressions.go:88-110 | between texts in which no template opens, a printed expression is the only template |
| PrintedTemplates.Spliced | internal/expr/expressions.go:98-113 | its printed value takes its place and the text around it stays |
| PrintedTemplates.TestDirSplices | internal/expr/expressions.go:98-113 | for `test.dir` the directory itself stands between the two texts |
| PrintedTemplates.VMConfigSplices | internal/expr/expressions.go:108-108 | a value that is not a string is spliced as it prints |
| PrintedTemplates.TypeIsKept | internal/expr/expressions.go:26-67 | a whole-string template inside a list or an object keeps the type of its value, and inside a string list is a string |
| StepReferences.FaithfulIffPrintable | internal/expr/expressions.go:143-157 | a printed step reference yields the recorded output for every record exactly when id and name are printable |
| StepReferences.PrintableIsFaithful | internal/expr/expressions.go:143-157 | a printable reference is one template, parses into id and name, and reads that output |
| StepReferences.UnprintableIsUnfaithful | internal/expr/expressions.go:143-157 | for any other id or name some record is read wrongly |
| StepReferences.GivenIdIsFaithful | internal/executor/runner.go:65-68 | the id given to a step without one can be used in references |
| StepReferences.ReferenceReadsRecord | internal/executor/runner.go:73-178 | through the runner, a printed reference in a later step resolves to what the step recorded, if no step between reuses its id |
| StepReferences.ParamReadsRecord | internal/executor/runner.go:73-178 | and that value arrives in the parameters the later step runs with, under its key |
| StepReferences.StepsSeeDirs | internal/executor/runner.go:75-97 | the test and output directories a step's parameters see are the run's own |
| Base64.RoundTrip | internal/guest/windows/transport/winrm.go:185-185 | decoding undoes encoding (section 4 of RFC 4648) |
| Base64.StandardVectors | internal/guest/windows/transport/winrm.go:185-185 | the alphabet and padding agree with the vectors in section 10 of RFC 4648 |
| Base64.DigitsAreAlphabet | internal/guest/windows/transport/winrm.go:185-185 | the digits are the 64 characters of the alphabet in order, and no other character is one |
| Base64.EncodeConcat | internal/guest/windows/transport/winrm.go:183-192 | after a multiple of three bytes the encoding starts afresh without padding |
| Base64.EncodedLength | internal/guest/windows/transport/winrm.go:184-188 | four characters for each three bytes begun |
| WinRM.ChunkIsSlice | internal/guest/windows/transport/winrm.go:188-192 | each 48000-character cut decodes by itself to its own 36000-byte slice of the file |
| WinRM.PrefixAfter | internal/guest/windows/transport/winrm.go:183-214 | after k writes that exited with zero the remote file is exactly the first min(36000k, n) bytes, whatever was there |
| WinRM.UploadFaithfulIff | internal/guest/windows/transport/winrm.go:188-214 | a finished upload leaves exactly the data for every previous content if and only if the data is nonempty and all writes exited with zero |
| WinRM.SizeAfter | internal/guest/windows/transport/winrm.go:211-213 | once a later write has failed the file stays too short |
| WinRM.StaleStart | internal/guest/windows/transport/winrm.go:195-213 | if the first write failed the old contents stay in front |
| WinRM.AfterNothing | internal/guest/windows/transport/winrm.go:188-188 | an empty file changes nothing on the guest |
| WinRM.SendChunk | internal/guest/windows/transport/winrm.go:188-213 | one iteration overwrites or appends slice k, or does what the failed command did |
| WinRM.Upload | internal/guest/windows/transport/winrm.go:159-217 | which commands ran, how each error arises, and the remote file after any fate of the commands |
| WinRM.Download | internal/guest/windows/transport/winrm.go:220-258 | returns the file's bytes exactly when it exists and the command exited with zero |
| WinRM.EncodedIsTight | internal/guest/windows/transport/winrm.go:242-246 | trimming removes only what the shell added |
| WinRM.UploadThenDownload | internal/guest/windows/transport/winrm.go:159-258 | a nonempty file comes back unchanged when all commands exit with zero |
| Runner.StepRunner.RunSteps | internal/executor/runner.go:56-217 | under every select outcome: one result per step, passed, then at most one failed, then skipped; each with its own or its numbered id, with the text of its error, or with its parameters when skipped; the panic flag exactly when the failed step's select picked the panic, or an error with the panic within the delay; the callback once per result |
| Runner.StepRunner.Attempt | internal/executor/runner.go:64-208 | parameters resolved from the outputs recorded before, then lookup, then the select, whose outcome decides error and panic flag case by case; outputs recorded exactly when the action ran |
| Runner.StepRunner.SkipRemaining | internal/executor/runner.go:184-206 | one skipped result and one callback for each step left, earlier results untouched |
| Runner.StepRunner.ResolveParams | internal/executor/runner.go:75-97 | the resolved parameters, or a failure of some string in them |
| Runner.StepRunner.RunPanicSteps | internal/executor/runner.go:221-294 | every panic step is attempted whatever failed before, none is skipped, one that runs fails exactly when its action returned an error, only the panic results of the run grow, the callback sees each |
| Runner.StepRunner.AttemptPanicStep | internal/executor/runner.go:229-288 | as for a normal step, without the select |
| Runner.LatestRecordWins | internal/executor/runner.go:175-178 | a step reads under an id what the last earlier step with that id recorded |
| Runner.LatestPanicRecordWins | internal/executor/runner.go:273-276 | the same for panic steps |
| Runner.GivenIdsDiffer | internal/executor/runner.go:65-68 | steps without an id get different ids |
| Runner.UnrecordedStays | internal/executor/runner.go:175-178 | an id no earlier step recorded reads as before the run |
| Runner.SnapshotsGrow | internal/executor/runner.go:57-62 | the k-th callback sees k results, a prefix of what every later one sees, and a panic flag that never falls back |
| Runner.Verdict | internal/cli/cmd_testing.go:297-313 | the tally counts each status, and the test fails exactly on a failed step or a panic |
| Runner.RunAndJudge | internal/cli/cmd_testing.go:297-313 | a run followed by the tally succeeds exactly when every step passed, and exactly when every step resolved, named a known action and that was done without an error |
| Runner.SuccessIffAllPassed | internal/cli/cmd_testing.go:297-313 | for results of the shape a run leaves, no failed step and no panic means that every step passed, and conversely |
| StepContexts.StepContext.SetOutput | internal/action/step_context.go:23-30 | one output changes; the map is made on first use and then kept |
| StepContexts.StepContext.Outputs | internal/action/step_context.go:33-41 | a fresh copy of everything recorded, whatever the iteration order |
| StepContexts.SnapshotIsFinal | internal/action/step_context.go:23-41 | outputs set by an abandoned action after the snapshot change nothing in it |
| ExecWriters.LineWriter.Write | internal/action/exec.go:23-37 | logs the complete nonempty lines of buffer and input and keeps the tail after the last break |
| ExecWriters.LineWriter.Flush | internal/action/exec.go:39-44 | logs a nonempty tail and empties the buffer |
| ExecWriters.LineWriter.WriteAllAndFlush | internal/action/exec.go:23-44 | after any writes and a flush the log is the fields of the concatenation, however it was cut |
| ExecWriters.LinesAppend | internal/action/exec.go:23-37 | cutting a text anywhere does not change its lines once the tail is carried over |
| ExecWriters.FieldsConserve | internal/action/exec.go:23-44 | the fields are nonempty, hold no break, and together are the text without its breaks |
| ExecWriters.CaptureWriter.Write | internal/action/exec.go:52-60 | holds the first max bytes of everything written; the count returned is short exactly when the write crosses the limit |
| ExecWriters.Stdout.Write | internal/action/exec.go:79-82 | both writers receive the bytes, and a short write is reported exactly on crossing the limit |
| ExecWriters.Stdout.Copy | internal/guest/windows/transport/ssh.go:250-285 | copying a stream succeeds exactly when it fits or some read ends at the limit; both writers hold what was copied |
| ExecWriters.NeverCrosses | internal/action/exec.go:52-60 | no write crosses the limit exactly when the total fits or some boundary falls on it |
| ExecWriters.CuttingMatters | internal/action/exec.go:52-60 | any output over the limit fails in one piece and goes through when cut at the limit |
| ExecWriters.NeverFailsIffFits | internal/action/exec.go:52-60 | an output goes through however it is read exactly when it fits in the capture |
| ExecWriters.ExecStdout | internal/action/exec.go:79-88 | the captured text is a prefix of what was written, as long as 4096 allows; the log is its fields, none with a carriage return or line feed; and when the copy fails |
| Qcow2.Disk.ReadAt | internal/vfs/qcow2.go:63-76 | returns exactly the bytes of the range, or fails and leaves the buffer alone exactly when the sectors leave the disk |
| Qcow2.Disk.WriteAt | internal/vfs/qcow2.go:78-94 | changes exactly the range, or nothing exactly when the sectors leave the disk |
| Qcow2.RunAccesses | internal/vfs/qcow2.go:63-94 | any sequence of in-range accesses on a disk of whole sectors equals the flat byte array, contents and every read |
| Qcow2.InSectorsIffInRange | internal/vfs/qcow2.go:126-131 | on a disk of whole sectors the aligned range fits exactly when the range does |
| Qcow2.AlignedAround | internal/vfs/qcow2.go:122-131 | aligning finds the nearest sector boundary below and above |
| Qcow2.PatchInsideSectors | internal/vfs/qcow2.go:83-89 | changing a range in a copy of its sectors and writing them back changes that range |
| Qcow2.DisjointWritesCommute | internal/vfs/qcow2.go:78-94 | disjoint writes commute, even inside one sector |
| SshTransport.NothingLeaks | internal/guest/windows/transport/ssh.go:62-171 | in every run, once no call holds the mutex, every connection dialed is current or closed, at most one is open, an SFTP client belongs to the current connection; after a Close every connection and SFTP client is closed |
| SshTransport.CallKeeps | internal/guest/windows/transport/ssh.go:62-171 | every step of a call, a context or a watcher keeps the invariant behind that |
| SshTransport.OpenIffCtxOpen | internal/guest/windows/transport/ssh.go:98-122 | for any steps of the callers, a connection they dialed is open under every schedule of the watchers exactly when it is still in use and the context of the dialing call is not done |
| SshTransport.OnlyTheWatcherCloses | internal/guest/windows/transport/ssh.go:98-119 | while a connection is in use only its watcher can have closed it, after its context was done |
| SshTransport.WithoutWatchers | internal/guest/windows/transport/ssh.go:98-109 | the callers' part of any run is itself a run, and the callers cannot tell the two apart |
| SshTransport.CurrentStaysOpen | internal/guest/windows/transport/ssh.go:103-109 | the connection in use stays open short of a Close, whatever its context does, exactly when it is open and its watcher has ended |
| SshTransport.OpenIffCtxOutlivesWatcher | internal/guest/windows/transport/ssh.go:103-109 | with no more to come from the context, exactly when it is open and the context was not done before the watcher ended |
| SshTransport.SafeOnceWatcherLeft | internal/guest/windows/transport/ssh.go:103-109 | when the watcher ends quietly, the open connection in use stays open until a Close |
| SshTransport.CurrentCanBeClosed | internal/guest/windows/transport/ssh.go:103-109 | a run in which the watcher closes the connection in use after the handshake |
| SshTransport.HandedOutClosed | internal/guest/windows/transport/ssh.go:103-121 | a run in which the connection handed out was closed at the end of its handshake |
| SshTransport.SSHTransport.ConnectLocked | internal/guest/windows/transport/ssh.go:62-122 | succeeds exactly with a client already there or a good handshake; nothing changes when a client exists; otherwise one new connection becomes the client, open unless ctx was done, or every connection is closed; every call is a run of the system and keeps its invariant |
| SshTransport.SSHTransport.AcquireClient | internal/guest/windows/transport/ssh.go:126-134 | succeeds exactly as connecting does; all callers share the client in the field; a failure leaves no connection open |
| SshTransport.SSHTransport.AcquireSFTP | internal/guest/windows/transport/ssh.go:137-148 | succeeds exactly with an SFTP client already there, or when connecting and the subsystem do; the SFTP client handed out was made on the client now in the field, once, and is then shared; each failure leaves none |
| SshTransport.SSHTransport.EnsureSFTPLocked | internal/guest/windows/transport/ssh.go:291-304 | succeeds exactly with an SFTP client already there, or a client whose subsystem starts; it makes at most one |
| SshTransport.SSHTransport.Close | internal/guest/windows/transport/ssh.go:150-171 | nothing is held afterwards, exactly the connections dialed are closed, and so is every SFTP client ever made |

## Left out

- QmpHub.Machine.DispatchEvent: the class covers the listener table; the reply queue, the mutex, and receives that overlap a dispatch are in the transition system only.
- QmpSystem.StepKeepsInv: replies are identified by the number of the command they answer, so command text and QMP error payloads are not modelled, and a failed write of a command appears only as a pause attempt that returns at once.
- QmpTheorems.PanicComesAfterPause: assumes the handler is started once, as the source does; a second start would close the channel twice.
- RfbSession.CaptureScreenshot: failing writes, deadlines, and a read that returns data together with an error are not modelled; on failure the bytes already consumed and sent are not stated; PNG encoding is left out.
- Templates.MatchIsTemplate: the regular expression is read as a decomposition of the text, not executed by a model of Go's engine; characters stand for code points of valid UTF-8.
- Expressions.Resolve: when several keys of an object fail, which failure is reported depends on Go's map order and is left open; printing of lists and objects and the environment are parameters.
- WinRM.Upload: PowerShell text, quoting, command length, local file errors and the effects of making the remote directory are not modelled; a remote command is taken to have its full effect when it exits with zero and none when it exits with another code, although PowerShell's exit code speaks for the last statement only.
- WinRM.Download: the decoder is strict Base64 without line breaks; writing the local file is left out.
- Runner.StepRunner.RunSteps: durations, step timeouts and the wait after a failure appear only as select outcomes; the callback may read but not change the result, and a nil callback and logging are left out.
- Qcow2.Disk.ReadAt: offsets are natural numbers without 64-bit overflow, an I/O error inside the disk is not modelled, and Seek is left out.
- ExecWriters.ExecStdout: this is the copy of stdout only; stderr, which has no capture, the exit code, and the remote command's own failure, which hides a copy error, are left out.
- SshTransport.SSHTransport.ConnectLocked: key files and authentication are part of a failed dial or handshake; watchers of earlier connections act between calls only in the transition system; errors returned by Close, RunCommand, IsConnected and SFTP transfers are left out.
- `WaitForReset` and `WaitForDumpCompletion` are the subscribe and receive loop of `WaitForPanic` with other event names; in the transition system they are ordinary subscribers.
- Process control of QEMU, swtpm and qemu-img, the HTTP IPC layer, the command line, YAML and JSON handling, configuration merging, the FAT32 and GPT code and `normalizeEFIPath` have no algorithm of this kind and are not modelled.
