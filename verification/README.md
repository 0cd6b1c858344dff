# Exposure, results and parameter buffers of the camera HAL

This project models the part of the camera HAL that turns 3A results into sensor settings and into
parameters of the image pipeline, and proves what its bookkeeping guarantees.

* **Exposure scheduling.** `SensorManager` keeps exposures and gains in maps keyed by the start-of-frame
  (SOF) number at which they are to be written, and predicts the frame on which each setting takes effect.
  `ExposureSchedule` and `ScheduleRuns` describe one step and whole runs; the class `SensorManager` is proved
  to perform exactly those steps and to make exactly their driver calls, and `DriverRuns` says what these are
  over whole runs.
* **Result publication.** `AiqEngine` computes a result, queues its exposure and publishes it in
  `AiqResultStorage`, a ring of forty results, with three results flagged to be skipped when the tuning mode
  changes; between full runs it publishes copies of the last full result. The storage also holds a three-slot
  statistics buffer and the record of stabilised frames.
* **Program-group payloads.** `IntelPGParam::prepare` counts, kernel by kernel, what every terminal's payload
  needs; `encodeTerminal` later lays the kernels out one after the other in a payload of that size. The model
  gives a closed form for what the kernel loop leaves behind, decides exactly when encoding fits, and exactly
  when what is cleared on the way stays inside the payload. What is counted, saved, laid out and encoded is also
  told from the manifests, P2P's answers and the trace alone.
* **Four smaller kernels.** Fixed-point resizing of a 2D array, the run-rate limiter of the algorithms, the
  rotation of six statistics buffers, and the ordering of streams onto ports.

Objects that the HAL updates in place are classes here, loops stay loops, and each method is proved against a
specification function or relation; the properties are then proved about those. A run is a value of a
`History` type, whose latest event is outermost, so every statement about a history is one about all runs.

Premises used throughout, each the HAL's own: the exposure lag is positive; SOF events come one by one from 0;
one decoder and one reader use the statistics slots; a 3A run and an SOF event exclude each other, because both
hold the engine's lock; computed sequence numbers fit 32 bits (`InRange`, `RoomFor`), with the conversions that
would wrap written out as `ToInt32` and `ToUint32`.

Where the code leaves one of its buffers or tables, the model stops there with an outcome of its own,
`Overrun`, instead of excluding the input.

Where the code and what it says of itself differ, the model follows the code:

* Before the first SOF an update reports one frame later than the frame it is assigned plus the lag
  (`QueuedUpdateIsNew`).
* An update without exposures, or one applied at the current frame, can report an earlier frame than an update
  before it (`EmptyUpdateReportsEarlier`); `ReportsFollowTheAsides` gives the exact condition for a whole run.
* In wait-first-stats mode that condition is exact precisely if the initial skip count is at most the lag plus
  one (`ReportsNeverDecreaseIff`; `OvershootingSkip` gives the run that fails otherwise), and a mode switch
  before the first SOF publishes its four results on one frame (`ModeSwitchPublishesIff`).
* A run forced by a missing first result is not throttled: if such runs keep failing after the exposure is set,
  each leaves one more exposure in the queue (`FailedFirstRunsQueueUp`). `BacklogStaysBounded` therefore counts
  them.
* The copy made between full runs is taken from a slot of the ring, which is acquired again once forty results
  were published, the full one included. From then on it can bear the parameters of its own request
  (`ChangedParametersAreCopied`) or, after a failed run, exposures and contents of that run under the number of
  the last full one (`FailedRunIsCopied`). `CopiesAreFullIff` gives the exact condition over whole runs.
* Parameters are copied with pointers into the settings' curve memory. A copy is handled once more, so one with a
  contrast curve is drawn with the curves set since (`ChangedCurvesAreCopied`, `EarlyCopyIsFullIff`).
* The preset tone curves divide integers where they choose the branch: both tables are 0 but for a last 1
  (`PresetsAreSteps`).
* A gain whose lag exceeds the exposure lag by more than one frame is keyed to a frame that is over and is never
  written if the queue is too short (`GainsAreWrittenOnceIff`; `LateGain` gives the run). By one frame, as for the
  sensors configured with an exposure lag of 2 and a digital gain lag of 3, it is written at once when nothing is
  queued, and everything still takes effect together (`GainsTakeEffectWithTheExposure`).
* An analog gain lag of 0 is taken for none, so the gain goes out with its exposure whatever the exposure lag; a
  digital gain lag of 0 is taken as such (`ZeroLags`).
* Starting the engine again keeps the results of the session before, so early frames of the new session can
  still resolve to them (`NewSessionAnswersIff`).
* Acquiring a result slot gives up the oldest result, so a reader sees thirty-nine while a result is prepared
  (`OldestOf`); the slot being prepared is visible to readers in one case (`AcquiredSlotHiddenIff`).
* If the engine is started while the decoder holds a statistics slot other than slot 0, the next publication gives
  slot 0 its frame number but not its data, and a reader gets both (`TornStatisticsAreRead`); `TornIff` says until
  when.
* A reader can get older statistics than the newest while the decoder holds a slot behind the one in use
  (`ReaderGetsNewestIff`, `OlderStatisticsAreRead`).
* An update applied at the current frame can replace the gain of an exposure that is still queued
  (`ImmediateUpdateDropsGainIff`), and what it reports is exact only with an empty queue
  (`ImmediateReportExactIff`).
* A statistics buffer can be offered again at once when frames complete out of order (`OfferedAtOnceIff`).
* Five streams are accepted, but there are four ports: five output streams read past the table of ports
  (`PortsSufficeIff`, `FiveOutputsOverrun`).
* A manifest of more than 128 runs of kernels is written past the end of the order's buffer, and one of exactly
  128 is read past it when the terminal is encoded (`EntriesAreRuns`, `RunsOutIff`).
* A program kernel that occurs in two program terminals can be saved larger than the first one counted it;
  encoding the first then fails although no size grew (`SharedKernelDoesNotFit`). `EncodeFitsIff` gives the
  exact condition.
* A kernel's range is cleared before its size is checked, so where encoding fails bytes behind the payload can
  be cleared: when a size grew since preparing (`GrownKernelClearsOutside`), and when a second terminal enlarged
  what was saved although none grew (`EnlargedKernelClearsOutside`). `PreparedClearsInsideIff` gives the exact
  condition.

* A kernel's sections are those of the last program terminal to list it, so on an earlier one the sections encoded
  need not be those counted (`SectionsEndIff`).

## Model

| member | source | states |
|---|---|---|
| SensorManagement.SensorManager.constructor | src/3a/SensorManager.cpp:30-53 | the gain delays are the exposure lag minus the gain's own lag, the digital one following the analog one when unset, and nothing is pending |
| SensorManagement.SensorManager.HandleSofEvent | src/3a/SensorManager.cpp:75-96 | a start of frame performs the schedule's SOF step and makes that step's driver calls in order |
| SensorManagement.SensorManager.HandleSensorExposure | src/3a/SensorManager.cpp:169-187 | exactly the entries keyed by the current frame are written and erased |
| SensorManagement.SensorManager.UpdateSensorExposure | src/3a/SensorManager.cpp:195-266 | an update performs the schedule's update step, makes its driver calls and reports its effect frame |
| ExposureSchedule.CollectedInOrder | src/3a/SensorManager.cpp:212-227 | as many coarse and fine times, analog and digital gains as exposures, in their order: each its own exposure's, the digital gain by the ISP branch; line and frame length are those of the first exposure |
| ExposureSchedule.SofHandsOut | src/3a/SensorManager.cpp:169-187 | an SOF hands out exactly what is due on it, with its value, and leaves all else as it was |
| ExposureSchedule.UpdateGoes | src/3a/SensorManager.cpp:229-249 | where an update goes: applied at once only if asked for by the number of the current frame, otherwise to the first free frame, each gain the difference of the lags later, replacing what was pending there or at once if due |
| ExposureSchedule.UpdateReports | src/3a/SensorManager.cpp:197-266 | the frame reported by an update with exposures, in terms of the lag, the queue and the last SOF |
| ExposureSchedule.DirectUpdate | src/3a/SensorManager.cpp:251-261 | in wait-first-stats mode before the first SOF an update queues nothing, reports the initial skip count, and is written at once exactly if the input system is in use |
| ExposureSchedule.EmptyUpdate | src/3a/SensorManager.cpp:197-210 | an update without exposures changes and writes nothing and reports the lag behind the last SOF |
| ExposureSchedule.SofKeepsContiguousIff | src/3a/SensorManager.cpp:169-187 | an SOF leaves the pending exposures on the next frames in a row exactly if it is the next frame, repeats the last one, or nothing is pending |
| ExposureSchedule.QueuedUpdateIsNew | src/3a/SensorManager.cpp:229-250 | a queued update takes the first free frame, overwrites nothing, and reports that frame plus the lag, plus one before the first SOF |
| ExposureSchedule.UpdateKeepsContiguous | src/3a/SensorManager.cpp:195-266 | every update, immediate, empty or direct ones included, leaves the pending exposures on the next frames in a row |
| ExposureSchedule.SensorSeqExactIff | src/3a/SensorManager.cpp:230 | the 32-bit assigned frame is exact precisely while it fits |
| ScheduleRuns.PendingAreTheNextFrames | src/3a/SensorManager.cpp:169-266 | after any run of updates and consecutive SOFs the keys of the exposure map are exactly the next frames in a row |
| ScheduleRuns.ReportsFollowTheAsides | src/3a/SensorManager.cpp:195-266 | the frames reported over a run, empty and immediate updates included, never decrease exactly if each empty or immediate update comes when the frames reported before the first SOF are reached and, if empty, finds nothing queued later |
| ScheduleRuns.ReportsNeverDecreaseIff | src/3a/SensorManager.cpp:195-266 | that holds of all runs exactly if wait-first-stats mode is off or its initial skip count is at most the lag plus one |
| ScheduleRuns.OvershootingSkip | src/3a/SensorManager.cpp:199-261 | the run on which the reports fall if the skip count is larger |
| ScheduleRuns.EmptyUpdateReportsEarlier | src/3a/SensorManager.cpp:207-210 | an update followed by an empty one reports the lag plus one and then the lag |
| ScheduleRuns.UpdateRaisesCeiling | src/3a/SensorManager.cpp:195-266 | no report exceeds the ceiling of the state it leaves, and a queued update's is not below the ceiling before it |
| ScheduleRuns.AssignedFramesAreTaken | src/3a/SensorManager.cpp:230-238 | assigned frames strictly increase in call order and end with the queue |
| ScheduleRuns.ExposuresAreWrittenOnce | src/3a/SensorManager.cpp:169-176 | the writes so far and the pending map split the requested exposures at the current frame: each is written once, in call order, at its assigned SOF |
| ScheduleRuns.GainsAreWrittenOnceIff | src/3a/SensorManager.cpp:178-249 | over any run of queued updates each gain is written exactly once, its delay after the exposure and at once if due at the current frame, exactly if no update comes after the frame its gain is due at; otherwise a gain is left that no later frame writes |
| ScheduleRuns.GainsAreWrittenOnce | src/3a/SensorManager.cpp:178-249 | that holds of all runs of queued updates exactly if the gain lag exceeds the exposure lag by at most one frame |
| ScheduleRuns.LateGain | src/3a/SensorManager.cpp:240-249 | with a longer lag the gain of the first update after the first frame is lost, in wait-first-stats mode too |
| ScheduleRuns.GainsTakeEffectWithTheExposure | src/3a/SensorManager.cpp:43-52 | while no update comes too late for its gain, exposure and both gains of a request are each written their own lag before one common frame, and as soon as that SOF has come, for lags of any sign and order |
| ScheduleRuns.ZeroLags | src/3a/SensorManager.cpp:43-52 | with an analog gain lag of 0 the analog gain is written on the SOF of its exposure; the digital one with it if it has no lag, and the exposure lag later if its lag is 0 |
| DriverRuns.RunsDeliver | src/3a/SensorManager.cpp:169-266 | over every run, empty and immediate updates included, the driver's calls of each kind are exactly what the schedule hands out, in order and with the values and frames |
| DriverRuns.DriverGetsEachRequest | src/3a/SensorManager.cpp:195-266 | over every run of queued updates whose gains fit, the i-th call of each kind is made for the i-th request and carries its frame duration, coarse and fine times, analog and digital gains place by place, on the frame that lies the lag of that kind before one common frame, and exactly once that frame has started |
| ScheduleRuns.ImmediateReportExactIff | src/3a/SensorManager.cpp:231-250 | an update applied at the current frame is written at once and its report is exact precisely if nothing is queued |
| ScheduleRuns.ImmediateUpdateDropsGainIff | src/3a/SensorManager.cpp:240-249 | an immediate update loses a pending gain exactly if a different one is due after the gain's delay |
| Timetable.Tick | src/3a/SensorManager.cpp:169-187 | one SOF delivers exactly the entry that is due and keeps the rest in order |
| Timetable.Book | src/3a/SensorManager.cpp:236-249 | an entry later than all others extends what is still to be delivered |
| Timetable.DeliverAtOnce | src/3a/SensorManager.cpp:240-249 | an entry due at once, and later than all others, finds everything else delivered and keeps the order |
| Timetable.DeliveredOnceDue | src/3a/SensorManager.cpp:169-187 | every booked entry is either delivered, at its own place in the log, exactly when due, or still pending with its value |
| ResultStorage.AiqResultStorage.AcquireAiqResult | src/3a/AiqResultStorage.cpp:128-136 | hands out the slot after the latest one and withdraws only that slot's sequence |
| ResultStorage.AiqResultStorage.UpdateAiqResult | src/3a/AiqResultStorage.cpp:138-144 | appends the prepared result to the published ones and changes no other slot |
| ResultStorage.AiqResultStorage.FoundBackwards | src/3a/AiqResultStorage.cpp:156-158 | walking the ring backwards meets the retained results newest first, then only slots without a sequence or the acquired one |
| ResultStorage.AiqResultStorage.GetAiqResult | src/3a/AiqResultStorage.cpp:146-165 | the ring search agrees with the search over the list of retained results, and finds the acquired slot only when that finds nothing |
| ResultStorage.AiqResultStorage.AcquireAiqStatistics | src/3a/AiqResultStorage.cpp:80-93 | hands out the next slot, or the one after if the next is in use |
| ResultStorage.AiqResultStorage.UpdateAiqStatistics | src/3a/AiqResultStorage.cpp:95-102 | publishes the slot after the current one |
| ResultStorage.AiqResultStorage.GetAndLockAiqStatistics | src/3a/AiqResultStorage.cpp:109-119 | locks the current slot if it holds valid statistics |
| ResultStorage.AiqResultStorage.UpdateDvsRunMap | src/3a/AiqResultStorage.cpp:167-175 | records a frame and drops the smallest one beyond fifteen |
| ResultLists.SlotsBackwards | src/3a/AiqResultStorage.cpp:156-158 | the modular index `i` slots back is the slot of the `i`-th newest publication, then the unused slots |
| ResultLists.SlotReusedIff | src/3a/AiqResultStorage.cpp:128-144 | two publications share a slot exactly if they are a multiple of forty apart |
| ResultLists.SlotsAdvance | src/3a/AiqResultStorage.cpp:138-144 | publishing reuses only the slot of the result forty publications older |
| ResultLists.RetainedAreTheLatest | src/3a/AiqResultStorage.cpp:128-165 | a reader can find the latest forty results, thirty-nine while a slot is acquired |
| ResultLists.FindIsLargestNotBeyond | src/3a/AiqResultStorage.cpp:146-165 | on results in frame order the answer is the latest published one with the largest sequence not beyond the frame, and there is none exactly if all are beyond it |
| ResultLists.NewSessionAnswersIff | src/3a/AiqEngine.cpp:91-101 | after a restart a frame resolves to the new session exactly if it is not before that session's first result |
| ResultLists.AcquiredSlotHiddenIff | src/3a/AiqResultStorage.cpp:128-165 | the slot being prepared is never returned to a reader exactly if it has no sequence or some retained result is in force by that sequence |
| StatsSlots.StepKeepsSound | src/3a/AiqResultStorage.cpp:80-126 | every step, a reset during an acquisition included, keeps: the decoder's slot is not the reader's, what is published is the slot that was acquired exactly if no reset moved the publication to slot 0, the current slot never carries -1, and every other slot holds statistics as given; the reader's slot does not change under it |
| StatsSlots.RunsAreSound | src/3a/AiqResultStorage.cpp:80-126 | the same over every run of decoder, reader and resets |
| StatsSlots.ReaderGetsWhatWasGiven | src/3a/AiqResultStorage.cpp:80-119 | over every run a reader gets a frame number with its own data, but for slot 0 while it is torn |
| StatsSlots.TornIff | src/3a/AiqResultStorage.cpp:80-107 | slot 0 is torn from a publication that a reset came before until it is acquired again |
| StatsSlots.NextPublicationIsGenuine | src/3a/AiqResultStorage.cpp:95-102 | a publication that no reset came before is what readers get next; an interrupted one leaves slot 0 with its number and the old data |
| StatsSlots.TornStatisticsAreRead | src/3a/AiqResultStorage.cpp:80-119 | the run on which a reader gets a number with the data of another frame |
| StatsSlots.ReaderGetsNewestIff | src/3a/AiqResultStorage.cpp:80-119 | a reader gets the newest statistics, during an acquisition exactly if that did not step over the slot being read |
| StatsSlots.OlderStatisticsAreRead | src/3a/AiqResultStorage.cpp:80-126 | a run on which a reader gets older statistics than the newest |
| StatsSlots.ResetWhileAcquiredIff | src/3a/AiqResultStorage.cpp:104-107 | a reset between acquiring and publishing leaves the publication on the acquired slot exactly if that is slot 0 |
| DvsRuns.RunKeepsLargest | src/3a/AiqResultStorage.cpp:167-175 | after any recordings the map holds the fifteen largest distinct frames, or all if fewer |
| DvsRuns.RunReportedIff | src/3a/AiqResultStorage.cpp:167-191 | a frame is reported exactly if it was recorded and fewer than fifteen later ones were |
| EngineObject.AiqEngine.StartEngine | src/3a/AiqEngine.cpp:91-101 | starting clears the schedule and the statistics but keeps the published results |
| EngineObject.AiqEngine.NeedRun3A | src/3a/AiqEngine.cpp:279-309 | a run is needed for per-frame control, for the first result, or on the cadence with new statistics and a short enough backlog |
| EngineObject.AiqEngine.GetSkippingNum | src/3a/AiqEngine.cpp:265-277 | as many copies to be skipped as the specification of a finished run says, looked up in the ring |
| EngineObject.AiqEngine.PublishSkips | src/3a/AiqEngine.cpp:490-498 | the loop publishes the specified copies over the reused slots of the ring, each with an exposure update of its own |
| EngineObject.AiqEngine.Done | src/3a/AiqEngine.cpp:486-505 | the published results and the schedule are those of the specification of a finished run, and a first result now exists |
| EngineObject.AiqEngine.RunAiq | src/3a/AiqEngine.cpp:360-399 | a full run leaves the algorithms' exposures and contents in its slot, those of a run that failed behind its exposure included, any other request a copy of what the history slot holds; each failure leaves exactly the exposure update already made |
| EngineObject.AiqEngine.ApplyManualTonemaps | src/3a/AiqEngine.cpp:440-484 | branch by branch, which tables and gains a tone map overwrites |
| EngineObject.AiqEngine.HandleAiqResult | src/3a/AiqEngine.cpp:412-438 | handling sets the scene mode and lays the tone map over the contents, nothing else |
| EngineObject.AiqEngine.PrepareSlot | src/3a/AiqEngine.cpp:311-334 | the acquired slot gets the parameters and tuning mode of the request, which reaches the history slot exactly if that is the one acquired |
| EngineObject.AiqEngine.PublishAndRemember | src/3a/AiqEngine.cpp:139-156 | a computed result becomes the remembered one with the statistics it was computed from, -1 for none; a copy leaves both alone, and the history slot too unless the ring comes round to it; the cadence is kept |
| EngineObject.AiqEngine.RunOnStatistics | src/3a/AiqEngine.cpp:122-150 | for every failure of parameters and algorithms: the operation performed, its result, and what is remembered afterwards (the history slot, the statistics used and the cadence), as the specification of a request says |
| EngineObject.AiqEngine.Run3A | src/3a/AiqEngine.cpp:112-163 | a request performs one step of a run of requests on the statistics that are current when it comes, and remembers as that step does; it is throttled unless there is per-frame control; it succeeds exactly if it published or was not needed, reports the latest result's frame, before any result the frame of its own update or -1, and leaves the statistics unlocked |
| EngineRequests.ServedIff | src/3a/AiqEngine.cpp:279-309 | a request that does not fail early is served exactly under per-frame control, while a first result is awaited, or on the cadence remembered with statistics other than those used last and a backlog of at most five frames |
| EngineRequests.ServedRequest | src/3a/AiqEngine.cpp:112-163 | what serving a request publishes and remembers, for every failure: the result's number, exposures, parameters, mode and toned contents, the frame it reports, the cadence, and the statistics used or -1 |
| EngineRequests.StatisticsAreUsedOnce | src/3a/AiqEngine.cpp:149-309 | over every run without per-frame control, once a full run used statistics, every request that comes with these, with none, or off the cadence of that run is idle, and nothing is published, until a restart or a request with other statistics on the cadence |
| EngineRequests.OtherStatisticsAreServed | src/3a/AiqEngine.cpp:279-309 | after any such run the next request on the cadence with other statistics is served exactly if the backlog is at most five frames |
| EngineRequests.FirstRequestsCompute | src/3a/AiqEngine.cpp:285-399 | over every run, as long as none computed a result since the start, the next request whose algorithms succeed does |
| EngineRequests.RunsAreHistories | src/3a/AiqEngine.cpp:112-163 | every run of requests, SOFs and starts is a history of engine operations, so what holds of those holds of it |
| EngineRequests.RunsAreSane | src/3a/AiqEngine.cpp:112-163 | over any run: what the history slot holds bears the number of the last full result, and is that result while fewer than forty were published from it on |
| EngineRequests.HistoryIsFull | src/3a/AiqEngine.cpp:112-163 | until then its slot is not handed out |
| EngineRequests.CopyBearsTheNumber | src/3a/AiqEngine.cpp:391-396 | a copy bears the number of the last full result whatever else it holds |
| EngineRequests.CopiesAreFullIff | src/3a/AiqEngine.cpp:112-163 | over any run of requests the copies are the last full result, and its slot keeps it, exactly if every needed request since, on that slot, had the same parameters and did not fail with other exposures or contents, and every copy found tone curves that agree |
| EngineRequests.KeepsIff | src/3a/AiqEngine.cpp:311-484 | the same for one request from a slot that holds the full result |
| EngineRequests.EarlyCopyIsFullIff | src/3a/AiqEngine.cpp:391-396 | a copy while fewer than forty results were published from the full one on is that result exactly if the tone curves still agree, which matters for contrast curves only |
| EngineRequests.FailedRunIsCopied | src/3a/AiqEngine.cpp:362-396 | forty-two requests from the start of the engine: the one that fails in the first result's slot leaves its exposures and contents to the next copy |
| EngineRequests.ChangedParametersAreCopied | src/3a/AiqEngine.cpp:311-396 | forty-one requests from the start: the copy on the first result's slot bears the parameters of its own request |
| EngineRequests.ChangedCurvesAreCopied | src/3a/AiqSetting.cpp:264-269 | two requests from the start: the copy is drawn with the curves set since the first |
| Tonemaps.TonedTwice | src/3a/AiqEngine.cpp:440-484 | laying the same tone map over a result twice changes nothing more |
| Tonemaps.TonedIs | src/3a/AiqEngine.cpp:412-484 | scene by scene and tone map by tone map what handling makes of the contents: the HDR and ULL scenes exactly if asked for and bracketed, gamma tables as powers, preset and contrast-curve tables, gains, a flat tone table, or nothing |
| Tonemaps.TonedAgainIff | src/3a/AiqEngine.cpp:440-484 | with other curves it changes nothing exactly if these give the same tables and gains or are not looked at |
| Tonemaps.PresetsAreSteps | src/3a/AiqUtils.cpp:330-368 | both preset tables are 0 but for the last entry, which is 1 |
| FullResults.DoneCopies | src/3a/AiqEngine.cpp:486-505 | everything a finished run publishes is a copy of its result |
| FullResults.LatestInSlot | src/3a/AiqResultStorage.cpp:128-144 | a slot holds the latest publication that shares it, and is handed out next exactly if that one is forty back |
| FullResults.OwnSlotIsRewritten | src/3a/AiqResultStorage.cpp:128-144 | publishing on a slot makes that publication the latest on it |
| EngineRuns.LoopIsDone | src/3a/AiqEngine.cpp:486-505 | turn by turn the copying loop publishes what the recursive account of a publication says |
| EngineRuns.FinishPublishesIff | src/3a/AiqEngine.cpp:265-277 | a finished run publishes three copies flagged to be skipped and an unflagged one exactly if a first result exists and the latest one has another tuning mode, and otherwise exactly one, unflagged; the first takes effect on the frame its update reports |
| EngineRuns.SessionsStartAfresh | src/3a/AiqEngine.cpp:91-101 | over any later run, an engine that was started again schedules and publishes as a fresh one would, whatever came before |
| EngineRuns.SkipsAreConsecutive | src/3a/AiqEngine.cpp:486-505 | the copies share everything besides flag and frame and take effect on consecutive frames, the unflagged one last |
| EngineRuns.DirectSkipsCoincide | src/3a/AiqEngine.cpp:490-498 | before the first SOF in wait-first-stats mode all copies report one frame |
| EngineRuns.ThreeFramesAreSkipped | src/3a/AiqEngine.cpp:265-277 | readers find a skipped result for exactly the three frames before the good one |
| EngineRuns.PublishedInFrameOrder | src/3a/AiqEngine.cpp:112-163 | over any run, with mode changes, failures, restarts, empty and immediate updates, the results published since the last start are in frame order exactly if each finished result fits behind the latest one |
| EngineRuns.PublishedInFrameOrderIff | src/3a/AiqEngine.cpp:112-163 | that holds of all runs exactly if wait-first-stats mode is off or its initial skip count is at most the lag plus one |
| EngineRuns.OvershootingSkip | src/3a/AiqEngine.cpp:401-410 | the run that publishes out of order if the skip count is larger |
| EngineRuns.ReaderGetsResultInForce | src/3a/AiqResultStorage.cpp:146-165 | after any such run a frame not before the session's retained results resolves to a result of the session, of the largest sequence not beyond it, and no later retained result is in force |
| EngineRuns.ModeSwitchPublishesIff | src/3a/AiqEngine.cpp:265-505 | when a first result exists and the latest one has another tuning mode, a result is published as three flagged copies and an unflagged one on four consecutive frames exactly if a frame was seen or first statistics are not awaited |
| EngineRuns.ModeSwitchSkipsThreeFrames | src/3a/AiqEngine.cpp:265-505 | under the same hypotheses readers then find skipped results for exactly three frames |
| EngineRuns.BacklogStaysBounded | src/3a/AiqEngine.cpp:279-309 | without per-frame control the queue never exceeds the larger of what the delay limit leaves room for, plus one exposure and three skips, and one more than the first runs that failed since the start |
| EngineRuns.FailedFirstRunsQueueUp | src/3a/AiqEngine.cpp:285-389 | first runs that keep failing after setting the exposure queue one exposure each, for any number of them |
| KernelOrders.GetKernelOrder | modules/algowrapper/IntelPGParam.cpp:857-928 | no sections is an error; more runs than entries overrun the buffer at the first section that starts an entry behind its end; otherwise the buffer starts with the manifest's order and is unchanged behind it |
| KernelOrders.EntriesAreRuns | modules/algowrapper/IntelPGParam.cpp:866-889 | there are as many entries as sections whose kernel differs from the eight bits kept of the one before |
| KernelOrders.ExpandsToManifestIff | modules/algowrapper/IntelPGParam.cpp:866-889 | expanding the order gives back the manifest's kernel ids exactly if all ids fit eight bits and no run of a kernel reaches 256 sections |
| KernelOrders.NeighboursDiffer | modules/algowrapper/IntelPGParam.cpp:871-889 | neighbouring entries are of different kernels |
| KernelOrders.SizeConservedIff | modules/algowrapper/IntelPGParam.cpp:879-886 | the entries' sizes never add up to more than the manifest's, and to the same exactly if every run's size fits 32 bits |
| KernelOrders.LastEntry | modules/algowrapper/IntelPGParam.cpp:871-889 | the last entry is of the last section's kernel and, within the widths, holds the length and size of the run that ends there |
| PgParam.IntelPGParam.Accumulate | modules/algowrapper/IntelPGParam.cpp:1002-1036 | adding once per occurrence wraps around like adding the product |
| PgParam.IntelPGParam.AdjustAndProcess | modules/algowrapper/IntelPGParam.cpp:273-288 | the manifest's section count prevails, with the larger size saved and the first entry marked for clearing, before the kernel is counted |
| PgParam.IntelPGParam.CountCachedIn | modules/algowrapper/IntelPGParam.cpp:266-289 | only the first cached-in terminal takes the kernel, and none existing is an error |
| PgParam.IntelPGParam.CountPrograms | modules/algowrapper/IntelPGParam.cpp:304-328 | every program terminal that lists the kernel counts it with the need as adjusted so far |
| PgParam.IntelPGParam.VisitKernel | modules/algowrapper/IntelPGParam.cpp:239-366 | one turn of the kernel loop changes each terminal as specified for it alone and saves the kernel's adjusted needs |
| PgParam.IntelPGParam.NewOrder | modules/algowrapper/IntelPGParam.cpp:164-176 | the manifest's order in a buffer filled with unused entries, with an overrun exactly if there are more than 128 runs |
| PgParam.IntelPGParam.ReadManifest | modules/algowrapper/IntelPGParam.cpp:152-231 | plans every terminal from its manifest; the first parameter terminal without sections or with too many runs decides how it ends |
| PgParam.IntelPGParam.CountKernels | modules/algowrapper/IntelPGParam.cpp:239-366 | the loop succeeds exactly if every kernel can be prepared, and then every terminal's books and every kernel's saved needs are the closed form |
| PgParam.IntelPGParam.Prepare | modules/algowrapper/IntelPGParam.cpp:137-395 | the same from the manifest on, with every way in which it ends |
| PgPlans.PlannedIs | modules/algowrapper/IntelPGParam.cpp:152-231 | what the manifest makes of a terminal: a buffer of 128 entries that starts with its order, the bitmap of its kernel or of its manifest, nothing counted |
| PgPlans.PlanEndsAtTheFirst | modules/algowrapper/IntelPGParam.cpp:152-176 | planning succeeds exactly if every parameter terminal has sections in at most 128 runs; otherwise the first that has not decides |
| PgPlans.PreparesIff | modules/algowrapper/IntelPGParam.cpp:239-272 | a kernel can be prepared exactly if P2P answers for it and it has no cached-in sections or some manifest is of a cached-in terminal |
| PgPlans.CountsIff | modules/algowrapper/IntelPGParam.cpp:264-366 | which kernels a terminal takes, from manifest and P2P alone: those with sections on its kind that its manifest names, of cached-in terminals only the first, of spatial ones only the first of its kernel, and no others |
| PgPlans.BitmapsFromManifest | modules/algowrapper/IntelPGParam.cpp:137-395 | after preparing fresh terminals each bitmap holds exactly those of the visited kernels, on spatial and data terminals what the manifest gives |
| PgSettled.CountedIs | modules/algowrapper/IntelPGParam.cpp:264-366 | the sections and size counted for a kernel: P2P's or, where the manifest's section count differs, the manifest's count and the larger size; on program terminals the largest of P2P's size and the sizes of all terminals up to this one whose count prevailed over another |
| PgSettled.SettledIs | modules/algowrapper/IntelPGParam.cpp:264-328 | what is saved for a kernel in the end: P2P's needs but for the cached-in and program ones; on program terminals the sections of the last one to list it and the largest size that prevailed |
| PgSettled.SettledParamIn | modules/algowrapper/IntelPGParam.cpp:264-289 | the cached-in needs saved for a kernel, from the entry of the first cached-in terminal |
| PgSettled.SizeIsTheLargest | modules/algowrapper/IntelPGParam.cpp:304-328 | the size saved over the program terminals is the largest of P2P's and those that prevailed |
| PgSettled.SectionsStayIff | modules/algowrapper/IntelPGParam.cpp:304-328 | the sections saved for a kernel are those of a program terminal that lists it exactly if the last terminal to list it has as many |
| PgSettled.GrownLaterIff | modules/algowrapper/IntelPGParam.cpp:304-328 | a size grows behind a terminal exactly if a later one prevails with a size larger than P2P's and all that prevailed up to there |
| PgSections.MarksFromManifest | modules/algowrapper/IntelPGParam.cpp:273-286 | an entry is to be cleared exactly if it is the first of a kernel that the terminal takes and its section count prevailed over another |
| PgParam.IntelPGParam.SanityTest | modules/algowrapper/IntelPGParam.cpp:1042-1132 | passes exactly if P2P answers, the kind is known and the larger of saved and current size fits behind the offset; yields that size |
| PgParam.IntelPGParam.EncodeEntry | modules/algowrapper/IntelPGParam.cpp:558-657 | one turn clears, checks, encodes and advances as specified, or stops at the failing step |
| PgParam.IntelPGParam.EncodeTerminal | modules/algowrapper/IntelPGParam.cpp:544-664 | fails exactly if some entry does not pass, with the trace up to the first such entry; otherwise the whole trace of clears and encodes and the final offset, reading on past an order whose every entry is of a kernel |
| PgTrace.EncodedInTurn | modules/algowrapper/IntelPGParam.cpp:558-657 | in the trace of any encoding, failing ones included, the entries are encoded in turn from section 0 and byte 0, each right behind the one before: behind the sections saved for its kernel and the larger of its saved and reported sizes |
| PgTrace.EncodedToTheEnd | modules/algowrapper/IntelPGParam.cpp:577-657 | a successful encoding encodes every entry and ends behind the bytes and sections of the last one, within the payload |
| PgTrace.ClearsComeFirst | modules/algowrapper/IntelPGParam.cpp:558-567 | in any trace, what is encoded was cleared right before if it was to be: as many bytes as the manifest says from its first byte on |
| PgTrace.SucceedsIff | modules/algowrapper/IntelPGParam.cpp:544-664 | encoding succeeds exactly if P2P answers for every entry and encodes it, the kind is known and the layout ends within the payload, or if there is nothing to encode |
| PgAccounts.TouchBooks | modules/algowrapper/IntelPGParam.cpp:994-1040 | visiting one more kernel keeps: bitmap, payload size and section count of a terminal are the sums over its entries of what was counted for each kernel |
| PgAccounts.TouchMarks | modules/algowrapper/IntelPGParam.cpp:273-286 | exactly the first entries of kernels whose section count was overridden are marked |
| PgRequirements.SumWithOneMore | modules/algowrapper/IntelPGParam.cpp:1002-1036 | counting a kernel per occurrence adds up to the sum over the entries |
| PgVisits.AccountsNext | modules/algowrapper/IntelPGParam.cpp:239-366 | one visit extends the closed form of all terminals and saved needs by one kernel |
| PgEncode.RangesInOrder | modules/algowrapper/IntelPGParam.cpp:544-657 | the byte ranges of two entries are disjoint and in the order of the entries |
| PgEncode.AllFitIff | modules/algowrapper/IntelPGParam.cpp:1127-1130 | for any sizes, every check passes exactly if P2P answers for each kernel and the end of the layout is within the payload |
| PgEncode.ClearsInsideIff | modules/algowrapper/IntelPGParam.cpp:558-577 | everything cleared is inside the payload exactly if, where encoding stops, what is to be cleared for that entry fits behind the offset |
| PgGuarantees.SweepGrowsIff | modules/algowrapper/IntelPGParam.cpp:304-328 | the size saved for a program kernel never falls over the terminals, and stays exactly if none of them enlarges it |
| PgGuarantees.SavedIsCountedIff | modules/algowrapper/IntelPGParam.cpp:264-328 | what is saved for a kernel is what its terminal counted, on program terminals exactly if no later one enlarges it |
| PgGuarantees.EncodeFitsIff | modules/algowrapper/IntelPGParam.cpp:544-662 | if the sizes of the entries to encode did not grow since preparing, every size check passes exactly if the counted bytes fit 32 bits and each kernel of the order has nothing saved or was counted and not enlarged later; then the final offset is the terminal's payload size |
| PgGuarantees.ClearsOwnRange | modules/algowrapper/IntelPGParam.cpp:558-567 | clearing before a kernel reaches no further than the range laid out for it |
| PgGuarantees.PreparedClearsInsideIff | modules/algowrapper/IntelPGParam.cpp:544-577 | on a prepared terminal, whatever its payload and the sizes reported later, everything cleared is inside the payload exactly if, where encoding stops, the manifest's size of that entry still fits |
| PgGuarantees.PreparedFromManifest | modules/algowrapper/IntelPGParam.cpp:137-395 | preparing fresh terminals from a manifest establishes what the encoding guarantees rest on |
| PgGuarantees.RunsOutIff | modules/algowrapper/IntelPGParam.cpp:551-556 | encoding a prepared terminal reads past its order exactly if its manifest has 128 runs |
| PgGuarantees.EncodeAfterPrepareIff | modules/algowrapper/IntelPGParam.cpp:137-665 | preparing and then encoding into a payload of the prepared size succeeds exactly if the counted bytes fit 32 bits, there is room for each kernel and the manifest has fewer than 128 runs |
| PgSections.EncodeFromManifestIff | modules/algowrapper/IntelPGParam.cpp:137-665 | the same told from manifests and P2P: it succeeds exactly if the layout ends within 32 bits, each kernel has nothing saved or is taken by the terminal and not grown by a later one, and the manifest has fewer than 128 runs |
| PgSections.SectionsEndIff | modules/algowrapper/IntelPGParam.cpp:590-657 | on a prepared terminal every entry starts at the section up to which sections were counted, and the last ends at the terminal's section count, exactly if for each kernel what is saved is what was counted (it is taken, on program terminals last listed with as many sections, or none are saved) and the end fits 32 bits |
| PgSections.LastSectionEndsIff | modules/algowrapper/IntelPGParam.cpp:590-657 | on terminals other than program ones the end alone is the section count exactly under that condition |
| PgSections.TraceEndsAtTheCountIff | modules/algowrapper/IntelPGParam.cpp:544-657 | the same read off the trace of a successful encoding: where the sections of the last kernel encoded end |
| PgOverruns.SharedKernelDoesNotFit | modules/algowrapper/IntelPGParam.cpp:304-328 | two program terminals sharing a kernel for which encoding the first fails although no size grew |
| PgOverruns.GrownKernelClearsOutside | modules/algowrapper/IntelPGParam.cpp:558-577 | a kernel that grew by two bytes makes the next one clear bytes 6 to 9 of an 8-byte payload |
| PgOverruns.EnlargedKernelClearsOutside | modules/algowrapper/IntelPGParam.cpp:304-328 | a second program terminal makes encoding the first clear bytes 8 to 11 of an 8-byte payload although no size grew |
| Resize.Resize2dArray | src/3a/AiqUtils.h:124-167 | every output cell is the exact bilinear interpolation at its sample position rounded to nearest; sides below 2 are refused with the output unchanged |
| Resize.OutputIsNearest | src/3a/AiqUtils.h:124-167 | each output cell is the integer nearest to the mix of the four cells around its sample position by the distances to them, in 256ths, halves rounded up |
| Resize.RoundedIsNearest | src/3a/AiqUtils.h:158-160 | the rounding term makes the shifted sum the nearest integer, halves rounded up |
| Resize.Sample | src/3a/AiqUtils.h:136-160 | the four reads are in bounds and their mix is the rounded interpolation |
| Resize.Interpolate | src/3a/AiqUtils.h:146-160 | the 32-bit computation equals the exact one for 16-bit cells, rounding term included, and yields 16 bits |
| Resize.SampledSumIsBilinear | src/3a/AiqUtils.h:136-158 | the four-term sum with the lower neighbour's weights is the interpolation, also at positions on a cell |
| Resize.SampleInRange | src/3a/AiqUtils.h:132-143 | every sample position is within the source |
| Resize.LastSampleShortfall | src/3a/AiqUtils.h:132-133 | the last sample falls short of the last cell by fewer fixed-point units than there are steps |
| Resize.BilinearBounds | src/3a/AiqUtils.h:146-160 | the output lies between bounds of the four cells read |
| Resize.SameSizeIsIdentity | src/3a/AiqUtils.h:125-167 | resizing to the same size changes nothing |
| RunRate.CheckRunRate | src/3a/AiqCore.cpp:812-821 | true exactly if nothing was counted or the runs per call exceed the configured rate by more than 0.00001 |
| RunRate.SkipAlgoRunning | src/3a/AiqCore.cpp:793-810 | the counters step as specified, and the algorithm is skipped exactly if a converged call does not count a run |
| RunRate.CountersAfterRun | src/3a/AiqCore.cpp:793-810 | after any run the algorithm ran in floor(limit times n) plus 1 of the n converged calls since the last clearing |
| RunRate.RunsAsConfigured | src/3a/AiqCore.cpp:793-821 | over every run, since the last clearing the algorithm ran in floor((rate + 0.00001) times calls) plus 1 of the converged calls, or in all of them if that rate is 1 or more |
| RunRate.ShareWithinOneRunIff | src/3a/AiqCore.cpp:793-821 | limit times calls <= runs <= limit times calls + 1 over every run exactly if the limit is at most 1 |
| RunRate.ShareOfAnyStretch | src/3a/AiqCore.cpp:793-821 | over any stretch of converged calls the runs differ from the limit's share by less than one |
| StatsBuffers.IntelCca.AllocStatsDataMem | modules/algowrapper/IntelCca.cpp:230-246 | frees the old buffers and allocates six on -1 to -6, stopping at the first failure |
| StatsBuffers.IntelCca.FreeStatsDataMem | modules/algowrapper/IntelCca.cpp:248-257 | frees the buffers of the map one after the other in the order of their sequences and empties it |
| StatsBuffers.IntelCca.DecodeHwStatsDone | modules/algowrapper/IntelCca.cpp:268-280 | moves the buffer of the smallest sequence to the completed sequence, unless that is known |
| StatsBuffers.CompletionIs | modules/algowrapper/IntelCca.cpp:268-280 | a completed frame that is not known takes over the buffer of the smallest sequence with its own used size, and no other entry changes |
| StatsBuffers.FreedOnce | modules/algowrapper/IntelCca.cpp:248-257 | freeing a map whose buffers differ frees each of them exactly once |
| StatsBuffers.AllocatedAreFreedOnce | modules/algowrapper/IntelCca.cpp:230-280 | after any completions, freeing frees each allocated buffer exactly once and nothing else |
| StatsBuffers.AnyRunKeepsBuffers | modules/algowrapper/IntelCca.cpp:268-280 | whatever completes, the map has six entries whose buffers are a permutation of the allocated ones |
| StatsBuffers.BuffersTakeTurns | modules/algowrapper/IntelCca.cpp:268-280 | with increasing sequences exactly the six largest keys are kept, each with the buffer whose turn it was |
| StatsBuffers.OfferedInTurn | modules/algowrapper/IntelCca.cpp:259-280 | the buffer offered next is the one in turn |
| StatsBuffers.FetchedUntilSixLater | modules/algowrapper/IntelCca.cpp:268-295 | a completed frame can be fetched exactly until six later ones completed |
| StatsBuffers.ReusedAfterFive | modules/algowrapper/IntelCca.cpp:259-280 | a completed buffer is offered again after exactly five newer completions |
| StatsBuffers.OfferedAtOnceIff | modules/algowrapper/IntelCca.cpp:259-280 | in any order, the buffer just completed is offered at once exactly if its frame precedes all that are kept |
| Streams.CameraDevice.InsertByArea | src/core/CameraDevice.cpp:695-705 | inserts a stream before the first smaller one |
| Streams.CameraDevice.AnalyzeStream | src/core/CameraDevice.cpp:663-751 | succeeds exactly for the acceptable configurations with enough ports, with the order and ports of the specification; overruns the table of ports exactly if the scan accepts more than four output streams |
| Streams.ScannedIff | src/core/CameraDevice.cpp:670-693 | the scan accepts exactly the lists with at most one input, at most one opaque RAW and only supported ordinary streams |
| Streams.LoopAcceptsIff | src/core/CameraDevice.cpp:670-693 | the same for the whole list, pair by pair and stream by stream |
| Streams.AcceptsIff | src/core/CameraDevice.cpp:663-751 | of what the scan accepts, exactly those are configured that have an input where one is called for, which does not count beside an opaque RAW stream, with a supported size and an output beside it |
| Streams.ArrangementIsUnique | src/core/CameraDevice.cpp:695-705 | descending area with ties in list order determines the order of given streams |
| Streams.LargerComesFirst | src/core/CameraDevice.cpp:695-713 | of two ordinary outputs the one of the larger width times height comes first, and of equal ones the one earlier in the list |
| Streams.ArrangeIsArranged | src/core/CameraDevice.cpp:670-706 | insertion yields that order of exactly the ordinary streams |
| Streams.OutputsAreOrdered | src/core/CameraDevice.cpp:695-713 | the outputs are all streams but the input, each once, by area with ties in list order and the opaque RAW one last |
| Streams.PortsAreDistinct | src/core/CameraDevice.cpp:715-717 | each output has a port of its own, the first one the main port |
| Streams.PortsInTurn | src/core/CameraDevice.cpp:715-717 | the outputs get the main, second, third and fourth port in turn |
| Streams.PortsSufficeIff | src/core/CameraDevice.cpp:715-717 | of the configurable lists exactly those of five output streams lack a port |
| Streams.FiveOutputsOverrun | src/core/CameraDevice.cpp:715-717 | five supported ordinary streams pass every check if no input is called for, and there is no port for the fifth |

## Left out

- Missed SOF events: their exposures and gains stay in the maps; `SofKeepsContiguousIff` says what one does to the queue, and the claims about whole runs are for consecutive SOFs.
- Updates without exposures or applied at the current frame are part of every run in the claims about the order of reports and results, but excluded from the claims that everything is written once; what they do instead is stated by `ReportsFollowTheAsides`, `ImmediateReportExactIff` and `ImmediateUpdateDropsGainIff`.
- HDR mode switching, white balance and frame rate of the sensor, the lens, face detection, makernotes, and the meaning of most parameters: calls beside the bookkeeping modelled here. Parts of a result that are only copied around are one opaque number.
- The history of SOF timestamps.
- The first-run sensor information and the parameters of the algorithms: what they return is an input (`Algorithms`).
- StepKeepsSound: no reset comes while statistics are locked, because both hold the engine's lock.
- ApplyManualTonemaps: powers, the interpolation of the tone curves and the gains that stand for them are functions given from outside (`Library`), over reals; reading curves while they are being set is not modelled.
- Thread scheduling: each method under its lock is one step; pointers to slots are slot indices.
- EncodeTerminal: the program-control-init terminal is filled by a foreign library and is not modelled; parameter bytes are not modelled, but which ranges are cleared and encoded is. What follows a read past the order's buffer is not modelled.
- Prepare: fragment descriptors, the disabling of terminals without payload, and the group's final kernel bitmap are not modelled; a terminal array is as long as the manifest; section counts and sizes of a kernel are kept together per terminal kind. On failure nothing is promised about the terminals, and what follows a write past an order's buffer is not modelled.
- SectionsEndIff: sections are counted without bound where they are encoded; the HAL's section number has 32 bits, and the condition says when the end fits.
- EncodeFitsIff: for sizes that did not grow since preparing, and for a group prepared once: preparing again adds to the payload sizes, which the closed form of `Prepare` covers. For grown sizes `AllFitIff` decides.
- The variant of the payload code for a unified fragment descriptor of program terminals.
- Decoding of terminals, and the layout of the P2P and CSS data structures: their answers are inputs.
- CheckRunRate: reals stand for the HAL's single-precision floats, and counters do not overflow.
- Resize2dArray: the instance for 16-bit cells; sides up to 2 to the 23, beyond which the position overflows `int`. The float and int instances and the timing log are left out.
- AnalyzeStream: areas do not overflow `int`, and what follows a read past the table of ports is not modelled. Whether a stream is supported is an input.
- AllocStatsDataMem: the addresses `malloc` returns are inputs, 0 for a failure.
- ReusedAfterFive: for increasing sequences; `OfferedAtOnceIff` covers any order.
- Logging, tracing, dumps and I/O.
