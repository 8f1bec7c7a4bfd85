# Device fleet server: verified model

This project models the parts of a device-fleet management server in which several operations have to
agree with one another, and proves what they keep. It covers five components.

* **RPA engine** (`RpaModel`, `RpaHistory`, `RpaSteps`, `RpaVerdict`, `RpaLifecycle`, `RpaCounters`,
  `RpaProgress`, `RpaTime`, `RpaPlatform`, `RpaDataflow`, `RpaRepository`, `RpaEngine`, `Template`,
  `StepMachines`). Each device has a row (status, step pointer, sub-step, counters, times), each run a history
  row, each step a step row, and two in-memory maps point into those rows. `RpaModel` gives every operation as a
  row transition and a trail transition and lets them run in any order (`Run`). A visit acts on a copy of the
  row that the tick took at its beginning; `LateVisit` is the visit whose copy handlers may have overtaken.
  `RpaRepository.Database` and `RpaEngine.Engine` are the classes whose methods perform exactly these
  transitions (the plain column updates of `Database` are not listed below; the engine's methods rest on them);
  the other modules prove what holds over every run. `Template` is the resolution of `{{name}}` references in
  step parameters, `StepMachines` the executors that wait for the platform, `RpaPlatform` shows that every flow
  made of them ends, and `RpaDataflow` follows parameters, contexts and outputs through the engine's methods.
* **Transport** (`Framing`, `Stream`, `PacketCodec`, `PacketSender`, `RefCount`). Messages are cut into
  fragments and put together again; a byte stream runs over message chunks and length-prefixed packets over that
  stream; packets live in pooled, reference-counted buffers, once as objects (`PacketSender`) and once as a
  state machine over every interleaving of senders, queue, send loop and pool (`RefCount`).
* **Device registry** (`DeviceProtocol`, `DeviceManager`). 256 shards with a separately updated counter,
  once as a state machine in which locked sections, counter updates and channel closes interleave freely,
  and once as the class with its maps and loops.
* **SOCKS5** (`SocksCodec`, `SocksServer`). Parsers and printers as inverses of each other (sections 3, 4, 6
  and 7 of RFC 1928, section 2 of RFC 1929), and a whole connection from the greeting to the start of the
  relay as a trace of events.
* **Base-59 codec** (`Base59`), whose functions the program calls base62.

`Prelude.dfy` holds the shared vocabulary. The outside world enters as parameters: the clock of each visit,
what an executor or the platform answers, what marshalling and value printing produce, which writes a
connection still takes, what the resolver, the rules, the credential store and a dial answer, and when the
network delivers.

Results that a reader of the code may not expect; each is stated as a lemma below.

* A cancelled history can still turn into a success: a device is started again while its flow is deleted, so
  the stale id stays in the engine's map (`RpaHistory.CancelledHistoryCanBecomeSuccess`).
  Without such starts closed histories are final (`RpaHistory.ClosedHistoriesAreFinal`), and every such start
  lets a stop change one (`RpaHistory.CleanStartsAreNeeded`).
* A failed history can count no failed step when a device that a successful stop completed in the middle of a
  step is resumed; the guard is exact (`RpaVerdict.FailedStepsTellTheVerdict`,
  `RpaVerdict.ResumingTheStoppedLosesTheFailure`, `RpaVerdict.PausingTheStoppedLosesTheFailure`). No executor in
  `internal/rpa/steps` reaches that state: only condition_check sets the stop keys itself, and the executors
  whose output is user data finish, as it does, on their first visit (`RpaVerdict.EarlyStopsTellTheVerdict`). An
  unfinished visit that names sub-step 0 leaves a step row running for good
  (`RpaVerdict.SubStepZeroLeavesARunningRecord`); all executors there name later ones.
* A visit can be overtaken by a handler that runs after the tick read its rows: after a new start, a visit in the
  middle of a step that fails also fails the new history, which has no step
  (`RpaVerdict.OvertakenVisitsFailTheNextHistory`, `RpaVerdict.LateVisitFailsTheNextHistory`). Tracking and the
  finality of closed histories hold all the same; step accounting and time need the copy to be up to date but
  for a pause or resume.
* A missing or empty flow, an unknown step kind and a successful stop end a device's run but leave its history
  running (`RpaHistory.EndedWithHistoryRunning`).
* Resuming after an error counts the time before the error twice (`RpaTime.ResumeAfterErrorCountsTwice`).
* In a mixed string all braces around a reference are cut off, so `{{{a}}` means the variable `{a` when it
  is the whole string and `a` inside a longer one (`Template.MixedNameIsCapturedName`).
* `change_os_and_wait` documents separate waits for coming online and for booting, but the online limit keeps
  running during the boot wait: it succeeds only when the device is seen online within 120 s of the change, plus
  the time between the two clock readings of the last visit (`StepMachines.ChangeOsSuccessIsEarned`). The code is
  followed.
* `CloseAll` stores 0 in the connection counter; with an add still to be counted that is right only in the
  one case `DeviceProtocol.StoreBalances` names, and `DeviceProtocol.LateIncrementMiscounts` is a run in which it
  is not.
* A cleanup removes by id what it found stale, so it closes a device that came back in the meantime
  (`DeviceProtocol.CleanupHitsTheReplacement`), and a scan of all connections is no snapshot
  (`DeviceProtocol.ScanIsNoSnapshot`).
* The UDP relay prints the client's header after its read buffer was reused; an IPv6 destination is a view of
  that buffer, so the header may name another destination (`SocksCodec.HeaderAfterReuse`,
  `SocksCodec.SecondReadRedirectsTheAnswer`). An empty answer from an IPv6 or named destination cannot be parsed
  (`SocksCodec.RelayKeepsTheAddress`).
* A success reply for a local address that is not an IP address is too short to be read
  (`SocksServer.ReplyIsReadable`).

## Model

| member | source | states |
|---|---|---|
| RpaHistory.RunningHistoriesAreTracked | internal/rpa/engine.go:87-124 | In every run from an empty database, late visits with any row copy included, each history row with status running is the one the engine's map holds for its device. |
| RpaHistory.AtMostOneRunning | internal/rpa/handler.go:210-262 | No device ever has two running histories, whatever the order of bind, start, pause, resume, stop, visits and flow edits, and also when a handler runs between the read of a tick and its visit. |
| RpaHistory.NoHistoryRevives | internal/database/repository.go:401-445 | In every run from any state, no history that left the running status returns to it, and owner, flow and step total of a history never change. |
| RpaHistory.CancelTracked | internal/database/repository.go:565-573 | Cancelling the running executions of a device leaves none running and keeps every other tracked history tracked. |
| RpaHistory.StartStaysExact | internal/rpa/handler.go:210-231 | Starting a device leaves no stale history id exactly when it opens a history or none was tracked. |
| RpaHistory.ClosedHistoriesAreFinal | internal/rpa/engine.go:101-124 | If every start finds a flow or tracks nothing, no later event changes any field of a closed history. |
| RpaHistory.CleanStartsAreNeeded | internal/rpa/handler.go:210-262 | That condition is exact: after every such run, a start meets it exactly when a stop right after the start changes no closed history. |
| RpaHistory.CancelledHistoryCanBecomeSuccess | internal/rpa/handler.go:219-229 | Without that condition: a concrete run in which a cancelled history becomes a success. |
| RpaHistory.EndedWithHistoryRunning | internal/rpa/engine.go:239-409 | A visit ends a device's run but leaves its history running exactly when the flow is missing or empty, the step kind unknown, or the step stops the flow as a success. |
| RpaSteps.ClosedHistoriesAddUp | internal/rpa/engine.go:101-162 | Every history the engine closes after a start has only finished step rows, counters equal to their numbers and adding up to all of them, at most one failure, and none if it succeeded; jumps, loops and restarts included. |
| RpaSteps.FailBooks | internal/rpa/engine.go:441-453 | A failing visit closes the books: all rows finished, and one failure is counted exactly when a row of the step was open. |
| RpaSteps.OwnVisits | internal/rpa/engine.go:239-284 | One visit keeps the step pointer, the open step row and the counters of the tracked history consistent, in every branch. |
| RpaSteps.RunInOrder | internal/rpa/engine.go:275-283 | That consistency holds throughout every disciplined run, whatever other devices do. |
| RpaSteps.RunWired | internal/rpa/engine.go:127-162 | In every run the engine's step map points exactly at running step rows of its own device and step. |
| RpaSteps.LateIsVisit | internal/rpa/engine.go:239-284 | A visit does not look at the status of its row copy, so pausing or resuming in between changes neither the row it writes nor the trail. |
| RpaVerdict.DevicesAreIndependent | internal/rpa/engine.go:220-236 | An event about one device changes neither the row nor any history of another device, nor what the maps hold for it. |
| RpaVerdict.FailedStepsTellTheVerdict | internal/rpa/engine.go:371-453 | The failed-step count is 1 exactly when the history failed and 0 exactly when it succeeded, in every disciplined run in which no device that a successful stop completed in the middle of a step is paused or resumed. |
| RpaVerdict.ResumingTheStoppedLosesTheFailure | internal/rpa/handler.go:242-249 | That guard is exact: from every reachable state in which it forbids a resume, resuming and failing the step gives a failed history with no failed step. |
| RpaVerdict.PausingTheStoppedLosesTheFailure | internal/rpa/handler.go:233-249 | Nor can a pause be allowed there: from every such state, pausing, resuming and failing the step gives a failed history with no failed step. |
| RpaVerdict.EarlyStopsTellTheVerdict | internal/rpa/steps/condition_check.go:234-290 | If executors stop a flow only on the first visit of a step, the equality holds whatever is paused and resumed. |
| RpaVerdict.ResumingCompletedLosesTheFailure | internal/rpa/handler.go:242-249 | A state outside that guard is reachable with an executor that stops later: a run that ends in a failed history with no failed step. |
| RpaVerdict.SubStepZeroLeavesARunningRecord | internal/rpa/engine.go:275-277 | If an executor stays unfinished at sub-step 0: a run that ends in success with a step row still running. |
| RpaVerdict.OvertakenVisitsFailTheNextHistory | internal/rpa/engine.go:220-284 | After any run, if a device starts while a visit with any copy of its row is under way and that visit's step fails, the new history is failed, with a failed step exactly when the copy was between steps. |
| RpaVerdict.LateVisitFailsTheNextHistory | internal/rpa/engine.go:220-236 | A concrete run of that kind: the history of the new start fails and has no step at all. |
| RpaLifecycle.StoppedDevicesRest | internal/database/repository.go:104-113 | After any run, a stopped device is idle at step 0, sub-step 0, with an empty context and no running history, and everything else in its row is kept. But for a pause, its row and its part of the trail then stay as they are in every run until it is started, resumed, bound or visited with an overtaken copy. |
| RpaLifecycle.PausedDevicesWait | internal/rpa/handler.go:233-249 | A pause holds a running device where it is in every run of visits and other devices' events, and a resume gives back exactly the row and history there were. |
| RpaLifecycle.BoundDevicesWait | internal/database/repository.go:46-62 | Binding leaves a device idle at the beginning of the given flow in the given mode, with rounds, time and error forgotten, outcome counters and variables kept and the trail untouched; it then rests until it is started or resumed. |
| RpaLifecycle.StartsAreFresh | internal/rpa/handler.go:210-231 | A start puts the device at the beginning of its flow with its own id as the only variable, keeps its counters, cancels exactly what ran, and opens a history with the flow's id and length exactly when the flow exists. |
| RpaLifecycle.FailureIsReported | internal/rpa/engine.go:441-453 | After any run, a failing step leaves one message in the device row, the history and the step row that was open or is opened for it, with the step's index in all three. |
| RpaLifecycle.SuccessIsReported | internal/rpa/engine.go:371-440 | A succeeding step closes its row as a success, moves the history's progress to it, and leaves exactly its output without the control keys over the old variables. |
| RpaCounters.VisitsEndForAReason | internal/rpa/engine.go:239-284 | A visit puts a running device in error exactly when the flow is missing, the kind unknown or the step failed, with the message that says which, and completes it exactly when the flow is empty, single mode is past the end, or the step stops it as a success; the counters follow. |
| RpaCounters.SingleModeVerdict | internal/rpa/engine.go:371-498 | A single-mode device that has had its n*K+1 visits is in error if something went wrong at one of them and completed otherwise. |
| RpaCounters.CountersCountOutcomes | internal/database/repository.go:160-199 | In every run from an empty database a device has counted exactly the visits that completed it and the visits that put it in error. |
| RpaCounters.RoundsAreHistories | internal/rpa/engine.go:476-498 | In every run in which a device is not bound anew it gets one history for each start that finds its flow and one for each round it counts. |
| RpaCounters.RoundsBeginAnew | internal/rpa/engine.go:476-498 | After any run, a loop-mode device past its last step begins again at step 0 with its variables and one round more; the old history is a success and a new one of the same flow and length is tracked. |
| RpaProgress.StepPointerInRange | internal/rpa/engine.go:397-440 | In every run that leaves the flow alone, the step pointer is at most one past the end of the flow. |
| RpaProgress.VisitDescends | internal/rpa/engine.go:239-284 | Each visit in single mode with forward jumps lowers a measure built from the remaining steps and the patience left for the current one. |
| RpaProgress.SingleModeTerminates | internal/rpa/engine.go:476-498 | With forward jumps and steps whose executors finish within K visits, an n-step single-mode device is completed or in error after n*K+1 visits. |
| RpaProgress.LoopModeGoesOn | internal/rpa/engine.go:476-498 | Under the same conditions every n*K+1 visits of a loop-mode device complete another round, until it is completed or in error. |
| RpaPlatform.VisitMovesTheMachine | internal/rpa/engine.go:454-473 | A visit of the engine moves sub-step and context of the device row exactly as it moves the step machine, whenever the row is written. |
| RpaPlatform.PlatformFlowsTerminate | internal/rpa/steps/change_os.go:161-350 | A single-mode flow of n system changes and installations is completed or in error after n*602+1 visits in later and later seconds, for every sequence of platform responses and however long they take. |
| RpaDataflow.VisitUntilDone | internal/rpa/engine.go:239-284 | Successive visits by the engine to a device at the beginning of a step leave its row, after k of them, exactly where the step's machine is after k ticks; when the machine is done the row has failed or moved on with the output among its variables. |
| RpaDataflow.JobRuns | internal/rpa/steps/change_os.go:161-350 | Visited by the engine in later and later seconds, a system change or installation is done within 602 visits: the device is in error, or one step on with the step's report among its variables. |
| RpaDataflow.VariableArrives | internal/rpa/engine.go:270-280 | An executor is handed the step's kind, the device, the row's sub-step and context, and for a parameter that is one reference the row's variable itself, or the device id under deviceId, which a variable of that name cannot hide. |
| RpaDataflow.TextArrives | internal/rpa/engine.go:286-352 | For a reference inside a longer text it is handed the printed variable between the text around it. |
| RpaDataflow.OutputArrives | internal/rpa/engine.go:371-440 | What one step puts out is what a reference in the next step's parameters is resolved to. |
| RpaTime.LoopCredits | internal/database/repository.go:202-221 | One loop increment closes one interval and opens the next with the same instant, losing less than a second. |
| RpaTime.TotalTimeFollowsTheClock | internal/database/repository.go:160-221 | From a start through k loops to the first completion or error after D, the seconds added lie in (D-(k+1), D]; every visit, the last one included, may act on a copy that is up to date but for a pause or resume. |
| RpaTime.ResumeAfterErrorCountsTwice | internal/database/repository.go:93-101 | A concrete run in which resuming after an error credits the same ten seconds twice. |
| RpaRepository.CountsOfRecordsOf | internal/database/repository.go:547-551 | Counting a status among the fetched rows of a history counts it among all rows. |
| RpaRepository.Database.SetDeviceRpa | internal/database/repository.go:46-62 | Binding creates or resets the row as the transition says and touches no other. |
| RpaRepository.Database.StartDevice | internal/database/repository.go:65-83 | Starting resets step, context and variables and sets the interval start; an unknown device stays unknown. |
| RpaRepository.Database.StopDevice | internal/database/repository.go:104-113 | Stopping resets status, step, sub-step and context of one row and leaves every other column and row. |
| RpaRepository.Database.MergeFlowVariables | internal/database/repository.go:136-150 | New variables override old ones, the others stay. |
| RpaRepository.Database.SetDeviceError | internal/database/repository.go:160-178 | Counts a failure, keeps the message and credits the time since the interval start. |
| RpaRepository.Database.SetDeviceCompleted | internal/database/repository.go:181-199 | Counts a success and credits the time since the interval start. |
| RpaRepository.Database.IncrementLoopCount | internal/database/repository.go:202-221 | Counts a loop, credits the time and restarts the interval at the same instant. |
| RpaRepository.Database.GetRunningDevices | internal/database/repository.go:234-241 | Returns every running row exactly once and no other. |
| RpaRepository.Database.CancelRunningExecutions | internal/database/repository.go:565-573 | Cancels exactly the running histories of one device. |
| RpaEngine.Engine.StartHistory | internal/rpa/engine.go:87-98 | Opens a history and remembers its id, as the trail transition says. |
| RpaEngine.Engine.CompleteHistory | internal/rpa/engine.go:101-124 | Counts the step rows, closes the tracked history with these counts and forgets it. |
| RpaEngine.Engine.StartStepRecord | internal/rpa/engine.go:127-142 | Opens a step row under the tracked history, or does nothing without one. |
| RpaEngine.Engine.CompleteStepRecord | internal/rpa/engine.go:145-162 | Closes the open row of a step, forgets it and moves the history's progress. |
| RpaEngine.Engine.ProcessDevice | internal/rpa/engine.go:239-284 | One visit, acting on any copy of the row, changes rows and trail exactly as the late-visit transition says, given the answer of the executor it calls with resolved parameters. |
| RpaEngine.Engine.HandleStepResult | internal/rpa/engine.go:371-473 | Success, stop, skip, jump, failure and waiting change the stored row as the transition says, steered by the copy. |
| RpaEngine.Engine.ChooseNextStep | internal/rpa/engine.go:397-434 | The step taken next: skipping wins over jumping, and a jump out of the flow is an advance. |
| RpaEngine.Engine.HandleFlowComplete | internal/rpa/engine.go:476-498 | A copy past the last step closes the history; loop mode opens the next one, single mode completes the device. |
| RpaEngine.Engine.Tick | internal/rpa/engine.go:220-236 | With no handler in between, a tick is a run of visits, one for each device that was running, each with the row copy taken at the beginning, which is still current. |
| RpaEngine.Engine.TickAmongHandlers | internal/rpa/engine.go:220-236 | With any handlers in between, a tick is a run of their events and of one late visit for each device that was running, with the row copy taken at the beginning. |
| RpaEngine.Engine.BindDeviceRpa | internal/rpa/handler.go:187-208 | The handler performs the bind event and nothing else. |
| RpaEngine.Engine.StartDevice | internal/rpa/handler.go:210-231 | Cancels old executions, resets the row and opens a history if the flow exists. |
| RpaEngine.Engine.PauseDevice | internal/rpa/handler.go:233-240 | The handler performs the pause event and nothing else. |
| RpaEngine.Engine.ResumeDevice | internal/rpa/handler.go:242-249 | The handler performs the resume event and nothing else. |
| RpaEngine.Engine.StopDevice | internal/rpa/handler.go:251-262 | Closes the tracked history as cancelled and resets the row. |
| RpaEngine.Engine.SaveFlow | internal/rpa/handler.go:101-135 | Saving or deleting a flow touches no row and no history. |
| Template.MatchEndIsTheReference | internal/rpa/engine.go:333-352 | The scanner finds a reference at a position exactly when the pattern describes that piece of the string. |
| Template.SegmentsRejoin | internal/rpa/engine.go:342-350 | Literals and references of any string put back together give the string. |
| Template.ResolutionKeepsShape | internal/rpa/engine.go:311-330 | Resolution keeps map keys, list lengths and scalars at every depth. |
| Template.ResolutionIsIdentityWithoutReferences | internal/rpa/engine.go:311-352 | A value in which no string contains a reference is unchanged. |
| Template.WholeReferenceKeepsItsType | internal/rpa/engine.go:333-340 | A string that is one reference becomes the bound value with its type. |
| Template.PlainNameIsLookedUp | internal/rpa/engine.go:355-368 | A name without dots and outer spaces is looked up as it is. |
| Template.DottedPathDescends | internal/rpa/engine.go:355-368 | A dotted path goes on inside the object its first part names, and finds nothing where that is no object. |
| Template.OuterSpacesAreIgnored | internal/rpa/engine.go:355-368 | A plain name with spaces around it is looked up without them. |
| Template.UndefinedReferencesStay | internal/rpa/engine.go:342-350 | A mixed string whose references are all undefined is unchanged. |
| Template.FirstReference | internal/rpa/engine.go:333-343 | A reference written behind some text is the first one found exactly when the text holds no reference and opens none that the join would close. |
| Template.EveryReferenceIsReplaced | internal/rpa/engine.go:342-352 | In a longer string with any number of references each one is replaced by its printed variable where it has one, and everything else stays. |
| Template.ResolvedAtEveryDepth | internal/rpa/engine.go:311-330 | A string at any depth of a parameter is replaced there by what it resolves to. |
| Template.MixedNameIsCapturedName | internal/rpa/engine.go:343-346 | Inside a longer string the name looked up is the captured one exactly when it has no brace at its ends. |
| Template.ResolutionDependsOnMentionedVariables | internal/rpa/engine.go:289-368 | Two sets of variables that agree on the names a value mentions resolve it alike. |
| StepMachines.ChangeOsRefines | internal/rpa/steps/change_os.go:161-350 | One visit changes the stored context exactly as a timed automaton moves. |
| StepMachines.ChangeOsSuccessIsEarned | internal/rpa/steps/change_os.go:35-350 | Success only after the first status 200, then the first online, then at least 180 s; and the online answer came within 120 s of the change, plus whatever passed between the two clock readings of the last visit. |
| StepMachines.ChangeOsSucceedsExactly | internal/rpa/steps/change_os.go:35-350 | Visited in later and later seconds it succeeds exactly when the request is taken on, the first status 200 comes within 300 s, and the first visit with 180 s of boot time behind the first online begins within 300 s of that. |
| StepMachines.ChangeOsFinishes | internal/rpa/steps/change_os.go:161-350 | If each visit begins in a later second than the one before ended, it is done after 602 visits, and its unfinished visits begin within 300 s of the request or within 300 s of the change it was told of, whatever the platform answers and however long that takes. |
| StepMachines.ChangeOsWindowSucceeds | internal/rpa/steps/change_os.go:273-350 | Once seen online, a visit succeeds exactly when it begins by 300 s after the change and its second clock reading is at least 180 s after that. |
| StepMachines.InstallRefines | internal/rpa/steps/install_app.go:158-410 | One visit of the installation changes the context exactly as its timed automaton moves. |
| StepMachines.InstallReportIsEarned | internal/rpa/steps/install_app.go:158-410 | Installed is reported only after a polled status 4; a bare download only after status 3 when no installation was asked for. |
| StepMachines.InstallSucceedsExactly | internal/rpa/steps/install_app.go:34-410 | It succeeds with a report exactly when the request is taken on and that report is due: status 4 before any other telling status within 300 s, or status 3 within 300 s and then status 4 within 120 s without a failure between; or status 3 alone if no installation was asked for. |
| StepMachines.InstallFinishes | internal/rpa/steps/install_app.go:34-410 | The same for the installation: done after 422 visits, the unfinished ones beginning within 300 s of the request or within 120 s of the download it was told of. |
| StepMachines.ConnectionWaitIsBounded | internal/rpa/steps/start_bot.go:421-470 | The wait for the script, begun with a zero counter, succeeds exactly when one of the first maxRetries visits (60 by default) finds it connected, and otherwise fails on the visit after them. |
| StepMachines.ChangeOsKeepsToItsStep | internal/rpa/steps/change_os.go:35-50 | It never asks to be visited again at sub-step 0, which step accounting needs, and never steers or stops the flow. |
| StepMachines.InstallKeepsToItsStep | internal/rpa/steps/install_app.go:34-49 | The same for the installation. |
| StepMachines.ConditionSteersTheFlow | internal/rpa/steps/condition_check.go:234-290 | What each condition action does to the device row through the engine: skip, jump, stop as success, stop as error, or go on; no control key becomes a flow variable. |
| Framing.ChunksRejoin | pkg/netclient/webRTC/dataChannel.go:72-95 | The pieces of a byte string, none longer than 65535, put together give the string. |
| Framing.FragmentsByByte | pkg/netclient/webRTC/dataChannel.go:29-71 | The fragments of a message, none longer than 65535 bytes, put together are its length in four bytes, low byte first, and its bytes. |
| Framing.DataChannel.SendRaw | pkg/netclient/webRTC/dataChannel.go:72-95 | Puts exactly the pieces on the wire, or a prefix of them when the channel fails; refuses more than 64 MiB. |
| Framing.DataChannel.Send | pkg/netclient/webRTC/dataChannel.go:29-71 | Puts exactly the fragments of the message on the wire, or a prefix of them when the channel fails; refuses more than 64 MiB. |
| Framing.DataChannel.Do | pkg/netclient/webRTC/dataChannel.go:112-156 | Handles one fragment as the reference receiver does, in every state and error case, with 32-bit counters. |
| Framing.ReceiveIsSound | pkg/netclient/webRTC/dataChannel.go:112-156 | After every fragment, valid or not, the receiver is idle or holds received = data < length <= 64 MiB; every error and every delivery leaves it idle. |
| Framing.SeenSinceIdle | pkg/netclient/webRTC/dataChannel.go:112-156 | In every run of fragments, what the receiver holds is exactly the fragments since it was last idle, put together. |
| Framing.DeliveredWasSent | pkg/netclient/webRTC/dataChannel.go:112-156 | In every run of fragments, a message is delivered only when the fragments since the receiver was idle, put together, are that message behind its length. |
| Framing.OneMessage | pkg/netclient/webRTC/dataChannel.go:29-71 | The fragments of one message, each at most 65535 bytes, deliver it and leave the receiver idle. |
| Framing.MessagesRoundTrip | pkg/netclient/webRTC/dataChannel.go:29-156 | The fragments of any list of messages up to 64 MiB, empty ones included, deliver exactly that list in order. |
| Framing.GarbageThenMessages | pkg/netclient/webRTC/dataChannel.go:112-156 | After any garbage that did not end inside a message, the next messages are delivered intact. |
| Stream.BytesAreConserved | pkg/netclient/streamRTC/dataChannelStream.go:43-124 | In every interleaving before close, bytes read plus remainder plus queue plus wire equal the bytes written. |
| Stream.ClosedPipesAreSilent | pkg/netclient/streamRTC/dataChannelStream.go:43-138 | In every run after a close nothing is written, queued or read any more, and messages under way are dropped. |
| Stream.FrameByByte | pkg/netclient/BufferRTC/streamClient.go:203-215 | The frame of a packet, behind those before it, is its length in four bytes, low byte first, and its bytes. |
| Stream.FramesRecovered | pkg/netclient/bufferPool/buffer.go:25-48 | A list of packets is recovered from its frames exactly when none exceeds 10 MiB; otherwise the reader has the packets before the first that does. |
| Stream.PrefixOfFrames | pkg/netclient/bufferPool/buffer.go:25-48 | A reader that has seen part of the frames has the first packets, in order. |
| Stream.PacketsArriveInOrder | pkg/netclient/BufferRTC/streamClient.go:203-215 | However chunks, deliveries and read sizes fall, also in the middle of a packet being written, the bytes read hold the first packets sent, and all of them once everything is written and nothing is in flight. |
| Stream.DataChannelStream.OnMessage | pkg/netclient/streamRTC/dataChannelStream.go:43-50 | An incoming message is queued at the end, dropped after close, or goes on waiting for room. |
| Stream.DataChannelStream.Read | pkg/netclient/streamRTC/dataChannelStream.go:90-106 | Hands out the head of the next message and keeps its tail; an empty message reads as end of file; with nothing to read it goes on waiting. |
| Stream.DataChannelStream.Write | pkg/netclient/streamRTC/dataChannelStream.go:107-124 | Sends the chunks in order, returns the number of bytes sent, and stops at the first failure. |
| Stream.DataChannelStream.CloseStream | pkg/netclient/streamRTC/dataChannelStream.go:131-138 | Afterwards the stream is closed. |
| Stream.Link.ReadFull | pkg/netclient/bufferPool/buffer.go:25-33 | Fills a buffer with exactly the next k bytes under way, whenever the network delivers. |
| Stream.Link.ReadPacket | pkg/netclient/bufferPool/buffer.go:25-48 | Reads exactly one packet, or reports an oversized length after its four bytes. |
| Stream.Link.ReceivePackets | pkg/netclient/BufferRTC/streamClient.go:144-162 | The receive loop hands over the first n packets under way, in order. |
| Stream.SendPacket | pkg/netclient/BufferRTC/streamClient.go:203-215 | Puts the length and then the bytes on the wire, chunked, as far as the channel takes them; fails on a closed stream and whenever a chunk is not sent. |
| Stream.Exchange | pkg/netclient/BufferRTC/streamClient.go:144-215 | Any list of packets of at most 10 MiB is received as exactly that list, however sending and receiving are interleaved. |
| PacketCodec.WordsRoundTrip | pkg/netclient/bufferPool/buffer.go:150-160 | Header words of 64 bits are read back exactly. |
| PacketCodec.EncodeRoundTrip | pkg/netclient/bufferPool/buffer.go:95-160 | Type, header words and content are all read back from a packet. |
| PacketCodec.EncodeInjective | pkg/netclient/bufferPool/buffer.go:211-339 | Packets that differ in type, headers or content differ on the wire. |
| PacketCodec.EncodingByByte | pkg/netclient/bufferPool/buffer.go:237-241 | A packet byte by byte: type, header length, each header word with its low byte first, content. |
| PacketCodec.Packet.Resize | pkg/netclient/bufferPool/buffer.go:345-350 | Keeps the common prefix, growing the buffer when it must. |
| PacketCodec.Packet.Write | pkg/netclient/bufferPool/buffer.go:211-243 | Whatever the buffer held, it becomes the encoding of the serialised value; on an error nothing changes. |
| PacketCodec.Packet.Write3 | pkg/netclient/bufferPool/buffer.go:296-339 | The same with 1 to 30 header words; any other number is refused and nothing changes. |
| PacketCodec.Packet.WriteContent | pkg/netclient/bufferPool/buffer.go:190-204 | Replaces the content and keeps type and header, also when it must reallocate and when the header reaches beyond the slice into the buffer. |
| PacketCodec.Packet.ReadType | pkg/netclient/bufferPool/buffer.go:95-100 | The type of the packet, 0 if it is empty. |
| PacketCodec.Packet.HeaderToUint64 | pkg/netclient/bufferPool/buffer.go:132-138 | The first header word, 0 if there is none; a header beyond the slice is read from the buffer. |
| PacketCodec.Packet.UnmarshalHeaderSlice64 | pkg/netclient/bufferPool/buffer.go:150-160 | All header words in order, for every header length the buffer has room to read; a length that is no multiple of 8 reads past the header. |
| PacketCodec.Packet.ContentRaw | pkg/netclient/bufferPool/buffer.go:185-188 | The bytes from behind the header to the recorded length, also when the slice ends elsewhere. |
| PacketCodec.WriteThenReplace | pkg/netclient/bufferPool/buffer.go:185-350 | Over any reused buffer: behind 1 to 30 header words, JSON types carry and give back the JSON bytes, the msgpack types the msgpack bytes, binary and terminal the raw bytes; a later replacement changes only the content; and for each type, exactly when the write is refused and why. |
| PacketCodec.WriteOneThenReplace | pkg/netclient/bufferPool/buffer.go:132-243 | The same for the write with one header word, read back as one number, which knows no terminal type. |
| RefCount.CountsAreConserved | pkg/netclient/bufferPool/buffer.go:73-94 | In every interleaving of senders, queue, send loop and pool, a packet's counter equals its holders, and pooled packets are empty and held by nobody. |
| RefCount.PoolEntry | pkg/netclient/bufferPool/pool.go:16-39 | A packet enters the pool exactly by the reset after its counter fell from 1 to 0, and nothing touches it in between. |
| RefCount.GetIsExclusive | pkg/netclient/bufferPool/pool.go:29-31 | Whoever gets a packet is its only holder and finds it empty. |
| RefCount.QueuedPacketsAreAlive | pkg/netclient/BufferTCP/tcp.go:163-183 | A queued packet or one being sent is never in the pool or on its way in or out. |
| RefCount.SendLeavesOneReference | pkg/netclient/BufferTCP/tcp.go:136-198 | A send leaves one reference in the queue if there is room; a full queue gives the packet back. |
| PacketSender.Pool.Get | pkg/netclient/bufferPool/pool.go:16-31 | Hands out an empty packet with one reference, from the pool or new; every other packet is as it was. |
| PacketSender.Pool.Put | pkg/netclient/bufferPool/buffer.go:86-94 | Gives one reference back; exactly the last one empties the packet into the pool. |
| PacketSender.Pool.WriteHeld | pkg/netclient/bufferPool/buffer.go:211-243 | Writing a held packet keeps every pooled packet empty and every other packet's bytes. |
| PacketSender.Conn.SendPacket | pkg/netclient/BufferTCP/tcp.go:136-161 | Writes the frame as far as the connection takes it, or queues one reference in order; a full queue is refused and leaves every counter alone. |
| PacketSender.Conn.SendNext | pkg/netclient/BufferTCP/tcp.go:163-183 | The send loop writes the oldest packet's frame as far as the connection takes it and gives its reference back, also when the write fails and closes the connection. |
| PacketSender.Conn.Send | pkg/netclient/BufferTCP/tcp.go:190-198 | After a send the packet is queued with one reference and the right frame, or back in the pool whatever failed; no held packet changes. |
| PacketSender.Conn.SendThrough | pkg/netclient/BufferTCP/tcp.go:136-198 | A send and the send loop's turn put the frame on the wire as far as the connection takes it and leave held exactly the packets that were held before. |
| DeviceProtocol.SizeIsFlatSize | internal/devicews/manager.go:67-69 | The sizes of the 256 shards add up to the size of the one map they stand for. |
| DeviceProtocol.StepBalances | internal/devicews/manager.go:159-195 | Every step but the final store of CloseAll keeps counter plus pending increments equal to registered plus swept connections. |
| DeviceProtocol.StoreBalances | internal/devicews/manager.go:263-273 | The final store of CloseAll keeps that balance exactly when the pending increments are all there is in the shards. |
| DeviceProtocol.LateIncrementMiscounts | internal/devicews/manager.go:159-273 | A reachable run of one add and CloseAll after which the counter shows one connection and none is registered, for good. |
| DeviceProtocol.CalmRunInStep | internal/devicews/manager.go:159-273 | In every run in which CloseAll does not overlap with adds the balance holds at every moment. |
| DeviceProtocol.ShardsRefineOneMap | internal/devicews/manager.go:67-204 | In every interleaving the shards stand for one flat map under add, remove and sweep. |
| DeviceProtocol.CounterIsExact | internal/devicews/manager.go:222-224 | In such runs, outside CloseAll, counter plus pending increments is the size of that map. |
| DeviceProtocol.RegisteredIsTheLastAdded | internal/devicews/manager.go:159-204 | In every interleaving the connection registered under an id is the one that was added last, with neither a removal of the id nor the sweep of its shard since. |
| DeviceProtocol.AddClosesTheReplaced | internal/devicews/manager.go:159-177 | After any run an add closes the connection whose place it takes and no other. |
| DeviceProtocol.ConnectionsAreOwned | internal/devicews/connection.go:111-116 | In every interleaving each connection ever added is registered under its own id or closed, and its channel is closed at most once. |
| DeviceProtocol.ScanSeesTheRegistered | internal/devicews/manager.go:237-247 | A scan of the shards at any moments of any run returns only connections that were registered at some moment of the scan, and all that were registered throughout. |
| DeviceProtocol.ScanHasNoDoubles | internal/devicews/manager.go:237-247 | It returns no connection twice. |
| DeviceProtocol.ScanIsNoSnapshot | internal/devicews/manager.go:237-247 | It is no snapshot: a run and a scan that returns connections under two ids that were never registered together. |
| DeviceProtocol.RemovalAfterScan | internal/devicews/manager.go:131-195 | Removing by the id under which a scan found a connection closes that connection, and another open one exactly when it has taken its place. |
| DeviceProtocol.CleanupClosesTheStale | internal/devicews/manager.go:131-156 | In every interleaving, all stale connections that the scan of a cleanup saw are closed once their ids were removed. |
| DeviceProtocol.CleanupHitsTheReplacement | internal/devicews/manager.go:131-195 | After any run, a connection added under an id is closed and unregistered by a removal of that id decided before it came. |
| DeviceManager.DeviceConn.Close | internal/devicews/connection.go:111-116 | Only the first close closes the channel. |
| DeviceManager.Manager.constructor | internal/devicews/manager.go:49-64 | A new registry is empty and its counter is 0. |
| DeviceManager.Manager.Add | internal/devicews/manager.go:159-177 | The flat map gains the connection; a replaced one is closed; the counter stays the size. |
| DeviceManager.Manager.Remove | internal/devicews/manager.go:180-195 | The flat map loses the id, whoever is registered under it is closed, and nothing else changes. |
| DeviceManager.Manager.Get | internal/devicews/manager.go:198-204 | Looks the id up in the flat map. |
| DeviceManager.Manager.GetBySerialNo | internal/devicews/manager.go:207-219 | Finds a registered connection with that serial number, or there is none. |
| DeviceManager.Manager.Count | internal/devicews/manager.go:222-224 | The counter is the size of the flat map. |
| DeviceManager.Manager.GetAll | internal/devicews/manager.go:237-247 | Returns every registered connection exactly once and no other. |
| DeviceManager.Manager.CleanupTimeoutConnections | internal/devicews/manager.go:131-156 | Removes and closes exactly the connections silent for more than 90 s; the others stay registered and are not closed. |
| DeviceManager.Manager.CloseAll | internal/devicews/manager.go:263-273 | Closes every registered connection and leaves an empty registry with counter 0. |
| SocksCodec.MessageRoundTrip | pkg/socks5/statute/message.go:80-199 | A printed request or reply is parsed back, leaving following bytes unread, exactly when version, address type, address, name length and port are well formed. |
| SocksCodec.PrintParse | pkg/socks5/statute/message.go:30-150 | Printing an accepted request or reply gives back exactly the bytes consumed. |
| SocksCodec.NoTwoReadings | pkg/socks5/statute/message.go:30-104 | Two well-formed messages that begin the same byte stream are the same and end at the same place. |
| SocksCodec.MessageByByte | pkg/socks5/statute/message.go:126-150 | A well-formed message byte by byte: version, code, reserved byte, address type, address or name behind its length, port with its high byte first. |
| SocksCodec.ParseMessage | pkg/socks5/statute/message.go:30-77 | The staged parser agrees with the reference reading: value, bytes left and error (short, version, address type). |
| SocksCodec.ParseAddr | pkg/socks5/statute/message.go:48-76 | The address part, in each of its three forms, agrees with the reference reading. |
| SocksCodec.MessageBytes | pkg/socks5/statute/message.go:126-150 | The appending printer gives the wire form, for every address type byte. |
| SocksCodec.UserPassRoundTrip | pkg/socks5/statute/auth.go:44-85 | A user name and password survive the wire exactly when the version is 1 and both length bytes are right. |
| SocksCodec.UserPassPrintParse | pkg/socks5/statute/auth.go:44-85 | Printing an accepted pair gives back the bytes consumed. |
| SocksCodec.NewUserPassRoundTrip | pkg/socks5/statute/auth.go:31-40 | The constructor makes a pair that survives the wire exactly for version 1 and strings of at most 255 bytes. |
| SocksCodec.UserPassByByte | pkg/socks5/statute/auth.go:78-85 | A pair byte by byte: the name behind its length, then the password behind its own. |
| SocksCodec.ParseUserPass | pkg/socks5/statute/auth.go:44-75 | The staged parser agrees with the reference reading. |
| SocksCodec.MethodsRoundTrip | pkg/socks5/statute/method.go:31-55 | A method request survives the wire exactly when its count byte is right. |
| SocksCodec.MethodsPrintParse | pkg/socks5/statute/method.go:31-55 | Printing an accepted method request gives back the bytes consumed. |
| SocksCodec.ParseMethods | pkg/socks5/statute/method.go:31-47 | The staged parser agrees with the reference reading. |
| SocksCodec.DatagramRoundTrip | pkg/socks5/statute/datagram.go:42-126 | Header plus data parses back to address and data exactly when the address is well formed, ten bytes are there, and data follows an IPv6 address or a name. |
| SocksCodec.DatagramPrintParse | pkg/socks5/statute/datagram.go:42-126 | An accepted datagram reprints to its bytes, with the reserved field set to 0. |
| SocksCodec.ParseDatagram | pkg/socks5/statute/datagram.go:42-81 | The parser with its running header length agrees with the reference reading, errors included. |
| SocksCodec.RelayKeepsTheAddress | pkg/socks5/handle.go:271-275 | An answer relayed behind the header of the client's own datagram parses to the client's destination, except for too short answers. |
| SocksCodec.HeaderAfterReuse | pkg/socks5/statute/datagram.go:60-67 | After the read buffer was reused the printed header is the client's exactly when the address is not IPv6 or the same one was read again. |
| SocksCodec.SecondReadRedirectsTheAnswer | pkg/socks5/handle.go:229-278 | Two concrete datagrams read into one buffer: the header printed for the first then names the destination of the second. |
| SocksServer.AuthenticatorChoice | pkg/socks5/server.go:180-193 | For every input, the first answer names the first authenticator in server order whose code was offered; with none, the connection ends after 0xFF. |
| SocksServer.AdmissionIsEarned | pkg/socks5/auth.go:27-78 | A client is admitted only by a configured method it offered and, for passwords, with a pair the credential store accepts. |
| SocksServer.RefusedPasswordIsTold | pkg/socks5/auth.go:46-78 | A client whose pair is not accepted gets a non-zero status as the last thing on the connection. |
| SocksServer.DialNeedsPermission | pkg/socks5/handle.go:50-116 | For every input, a dial or listen comes only after authentication and a request for that very command, the rules allow the destination that request leads to, and that destination is the one dialled. |
| SocksServer.DialGoesWhereAsked | pkg/socks5/handle.go:50-90 | What is dialled is the name and port of the request with its own address or the one its name resolves to, unless a rewriter says otherwise, and the rules have seen both. |
| SocksServer.OneReply | pkg/socks5/server.go:127-177 | For every input, at most one reply is written, never before authentication, and only data flows after it. |
| SocksServer.FailedWriteEndsIt | pkg/socks5/server.go:127-177 | For every input a write that fails, in the negotiation or later, is the last event. |
| SocksServer.SuccessIsEarned | pkg/socks5/handle.go:119-168 | A success reply comes right after a successful dial for CONNECT and a successful listen for ASSOCIATE. |
| SocksServer.ReplyIsExplained | pkg/socks5/handle.go:50-202 | Every reply carries the code its preceding event calls for: refused, unreachable, rules, resolution, listening, command, address type or success. |
| SocksServer.ReplyNamesTheSocket | pkg/socks5/handle.go:119-202 | A client that parses a success reply reads the address and port of the socket just opened: the local end of the dialled connection for CONNECT, the port listened on for ASSOCIATE; a refusal carries the zero address. |
| SocksServer.ReplyIsReadable | pkg/socks5/handle.go:314-345 | A client can read the reply exactly when it is a refusal, the local address is of unknown kind, or it is a real IP address with a 16-bit port. |
| SocksServer.ClientIsServed | pkg/socks5/server.go:127-177 | End to end over the wire forms: an admitted client whose request is granted gets exactly the events of a served connection, and no byte after its request is lost. |
| SocksServer.AssociateIsServed | pkg/socks5/handle.go:180-202 | The same for ASSOCIATE: an admitted client whose request is allowed gets the events of a started relay and one reply, which parses to the server's address and the port it listens on. |
| SocksServer.Connection.SendReply | pkg/socks5/handle.go:314-345 | Writes exactly the one reply for a code and a local address. |
| SocksServer.Server.Authenticate | pkg/socks5/server.go:180-193 | The nested search runs the first authenticator in server order that was offered. |
| SocksServer.Server.RunAuthenticator | pkg/socks5/auth.go:33-78 | Greeting, parsing, verdict and admission happen as the reference run says, also when a write fails. |
| SocksServer.Server.ServeConn | pkg/socks5/server.go:127-177 | For every input and every number of writes the client takes, the connection does exactly the reference run. |
| SocksServer.Server.HandleRequest | pkg/socks5/handle.go:50-116 | Resolution, rewriting, rules and command dispatch follow the reference run. |
| SocksServer.Server.HandleConnect | pkg/socks5/handle.go:119-168 | Dial, reply and the start of proxying follow the reference run. |
| SocksServer.Server.HandleAssociate | pkg/socks5/handle.go:180-202 | Listening, reply and the start of relaying follow the reference run. |
| Base59.AlphabetIsCharAt | pkg/utils/base62.go:9 | The 59 characters of the alphabet in order: digits and letters without I, l and o. |
| Base59.ValueOfEncoding | pkg/utils/base62.go:11-20 | The digits of a number stand for that number. |
| Base59.EncodingOfValue | pkg/utils/base62.go:11-32 | Encoding what a string stands for gives the string without its leading zeros. |
| Base59.DecodedIsWrapped | pkg/utils/base62.go:21-32 | Decoding in 64 bits gives the true value reduced to 64 bits, for every string over the alphabet. |
| Base59.Base62Encode | pkg/utils/base62.go:11-20 | The loop gives the digits of a positive number and the empty string otherwise. |
| Base59.Base62Decode | pkg/utils/base62.go:21-32 | The loop accepts exactly the strings over the alphabet, and names the first character outside it otherwise. |
| Base59.DecodeEncode | pkg/utils/base62.go:11-32 | Decoding an encoded number below 2^63 gives it back, with no overflow on the way. |
| Base59.EncodeDecode | pkg/utils/base62.go:11-32 | Encoding a decoded string gives it back exactly when it has no leading zero and its value is below 2^63. |
| Base59.Base62EncodeBytes | pkg/utils/base62.go:33-44 | The big-number loop gives the digits of the bytes read as one number. |
| Base59.Base62DecodeBytes | pkg/utils/base62.go:45-57 | The big-number loop accepts exactly the strings over the alphabet and gives the bytes of their number; otherwise it names the first character outside it. |
| Base59.BytesRoundTrip | pkg/utils/base62.go:33-57 | Bytes of any length survive the round trip up to leading zero bytes. |

## Left out

- RpaSteps.ClosedHistoriesAddUp: a late visit of the device needs a row copy that is up to date but for a pause or resume; RpaVerdict.OvertakenVisitsFailTheNextHistory shows what happens otherwise.
- RpaProgress.SingleModeTerminates: the run has no pause, resume or late visit of the device, because a paused device is not visited.
- RpaProgress.LoopModeGoesOn: nor has this one; the same holds for RpaCounters.SingleModeVerdict.
- RpaCounters.CountersCountOutcomes: late visits of the device need a row copy that is up to date but for a pause or resume, because an overtaken copy can end a device that has ended before.
- RpaDataflow.VisitUntilDone: the engine visits one device, with nothing in between; RpaSteps.RunInOrder and RpaVerdict.DevicesAreIndependent cover what others do.
- Framing.ReceiveIsSound: fragments are shorter than 2^32 - 64 MiB, so that the 32-bit counter does not wrap.
- Stream.DataChannelStream.Read: a caller that goes on waiting is a result of the model; its wake-up is a later call.
- StepMachines.ChangeOsRefines: contexts are values that a visit replaces, where the program updates one map in place.
- DeviceManager.Manager.CleanupTimeoutConnections: runs alone, as GetAll does; DeviceProtocol has the scan and the removals interleaved with everything else.
- SocksCodec.ParseMethods: a read of one byte yields that byte or fails; a reader that returns no byte and no error is not modelled.
- SocksServer.Server.ServeConn: stops where proxying or relaying starts; copying between connections is not modelled.
- Columns without influence on control flow: timestamps and durations of histories and steps, names of flows and steps, last activity, script feedback, and the activity log with its progress callback.
- Database errors, and the order in which the step rows of a history are fetched; row ids are positions, since old histories are not deleted while the model runs.
- Process restart, which loses the two in-memory maps, and interleaving inside one visit or one handler: the code gives no guarantee there. Handlers between the visits of a tick are modelled.
- Retyping of stored variables by JSON, direct writes of flow variables by an executor during its visit, and conversion of floats outside the integer range.
- The comparison operators of condition checks and the first three sub-steps of start_bot; their results enter as executor answers, and every theorem holds for all answers.
- Running a single step from the handler: a loop over one executor that leaves all rows alone.
- Sharing of slices between callers and buffers, except where a datagram address is a view of the read buffer.
- Closing a stream or connection while sends are under way, and packets lost by the senders that do not give them back on an error.
- Packet.Write2, ReadFromReader2 and ReplaceHeader, whose result depends on sharing of slices; marshalling is a parameter.
- PacketSender.Conn.SendNext: the send loop ends after a failed write, and packets still queued then are lost with it.
- PacketSender.Pool.Get: the pool never drops a packet; RefCount covers the garbage collector that does.
- The manager's cleanup goroutine and callbacks, broadcasts, and the protocol headers of device packets.
- Custom authenticators, user handlers and middlewares of the SOCKS5 server, and rewriters that return no address.
- The UDP relay loop (source check, connection table), apart from the datagrams it parses and prints, and the UDP socket left open when the reply to ASSOCIATE cannot be written.
- Printing of resolved values inside longer strings, which is a parameter.
