# Verified model of the EEBUS testbench

A Dafny 4.11 model of the parts of the testbench that carry real invariants, with proofs of what
they promise. `dafny verify dfyconfig.toml` checks the whole project.

The model keeps the source's own form: objects whose methods update their fields are classes,
loops are loops, and everything that only computes a value is a function. Each class has a
`View()` (or a ghost log) that states its abstract value, each method says which step function its
new state follows, and the theorems are about whole runs of those step functions. Concurrency is
modelled as interleaving: one event per critical section, in any order, for any number of
goroutines, tracers, timers or readers.

| Part | Files |
|---|---|
| Scenario interpreter: nested `for_each` loops executed from a flat queue | `Scenario.dfy`, `StepRecords.dfy`, `Scoping.dfy`, `NameClashes.dfy` |
| Evidence: trace windows per step, findings credited to steps | `Evidence.dfy` |
| Wire format: SHIP JSON decoding and well-formedness, message counters, measurement units | `Json.dfy`, `Conformance.dfy`, `Idempotence.dfy`, `Shape.dfy`, `CounterWindow.dfy`, `Session.dfy` |
| Frame store, its two polling readers, its summary, the heartbeat gap analysis | `Trace.dfy`, `Polling.dfy`, `TallyMeaning.dfy`, `TraceSummary.dfy`, `GapAnalysis.dfy`, `HeartbeatRun.dfy` |
| Live feed to TCP and UDP tracers | `TracerFeed.dfy`, `FeedEvents.dfy`, `FeedEnd.dfy` |
| Heartbeat pacer | `Heartbeat.dfy`, `HeartbeatEvents.dfy` |
| Simulated station and vehicle | `StationLimits.dfy`, `StationGuard.dfy`, `StationMeter.dfy`, `Station.dfy`, `Vehicle.dfy` |
| Run order, selection and execution | `RunOrder.dfy`, `RunManager.dfy` |
| Text codecs | `Decimal.dfy`, `Strings.dfy`, `Iso8601.dfy`, `Discover.dfy` |

## Where the code does less than one might expect

Each of these is proved on a concrete input or family of inputs, and stands beside the theorem that
says when the code does meet the property, as an equivalence wherever the condition is exact.

- A cadence without an interval of its own is refused for timeouts between two and three seconds,
  although they are within the bounds (`Heartbeat.DefaultCadence`).
- A list of one-element occurrences with different names, each written as a bare object, decodes
  to one object instead of a list (`Conformance.NormalizeDecodes`), and `Normalize` is therefore not
  idempotent (`Conformance.NormalizeNotIdempotent`); `Idempotence.OnceExactly` says on which inputs it
  is. Data lists whose entries all carry `measurementId` are not affected
  (`Conformance.RepeatedNormalizationHarmless`).
- A flagged counter does not count as a new use, so continued reuse escapes once the first use has
  left the window (`CounterWindow.ReuseOfFlaggedForgotten`).
- Clearing the frame store between two samples hides frames without raising the overrun flag
  (`Polling.ClearHidesFrames`). The reader had every frame if and only if the flag is down and no
  sample came after such a clear (`Polling.ExactlyOnceDespiteClear`).
- A heartbeat recorded after the end of the run makes the gap check count time behind the end
  (`GapAnalysis.HeartbeatAfterEnd`, exactly when by `GapAnalysis.LongestExactly`).
- The run is stamped before the position of the trace is read, so a heartbeat in between is never
  collected, and a device that keeps its timeout can fail the check (`HeartbeatRun.EarlyHeartbeatUnseen`;
  whose the gap is, by `HeartbeatRun.GapIsDevices`). The source's comment says that the window is where the
  frames were collected from.
- A loop that takes a name from outside the loop around it, or a verb that writes such a name, makes a
  later step see the wrong variable (`NameClashes.ClashLeaks` for every such nest,
  `NameClashes.NamesKeptExactly` for the exact condition).
- An active limit that was stored last need not come into force, or stay there, although nothing is under
  way any more: the expiry of the limit before it clears it between its check and its commit
  (`StationLimits.ExpiryRace`), or writes the published data back inactive before the update reads it
  (`StationLimits.LostToExpiry`), or the update of the limit before it is applied last
  (`StationLimits.LostToUpdate`). `StationLimits.LastInForceExactly` says exactly when it is in force.
- Two reports of the station may be published in the other order than they were computed, and the older
  power then stays published, above a lower limit in force (`StationMeter.StaleReportStays`). In failsafe
  state a failsafe limit lowered meanwhile is not published either
  (`StationMeter.LoweredFailsafeUnpublished`). Exactly when by `StationMeter.PublishedWithinLimit` and
  `StationMeter.WithinLimitInOrder`.
- A station limit of 0 W is not passed on to the vehicle, which then charges as if there were none
  (`Vehicle.ZeroLimitIgnored`, exactly when by `Vehicle.LimitRespectedExactly`).
- A vehicle configured to start above 100 percent reports that until it first charges
  (`Vehicle.BatteryOverSession`).
- `Format` shows negative and fractional durations as something else; the round trip holds exactly
  for non-negative whole seconds (`Iso8601.RoundTripExactly`).

## Model

| member | source | states |
|---|---|---|
| Scenario.RunSteps | internal/scenario/scenario.go:380-420 | Executing the spliced flat queue gives the same recorded steps, context, verdict and world as running the loops nested and recursively, for every step tree, item list, step outcome and cancellation; the loop ends although it grows its own queue |
| Scenario.ExpandForEach | internal/scenario/scenario.go:425-453 | The spliced copies are the loop body once per item, in item order, each bound to its own item and index |
| Scenario.QueueOfExpansion | internal/scenario/scenario.go:399-402 | Working off the spliced copies means the same as the loop itself |
| Scenario.QueueExtends | internal/scenario/scenario.go:385-418 | Every iteration records at least one further step and none is lost, which is why the queue drains |
| Scenario.VerdictIsLastStep | internal/scenario/scenario.go:385-418 | The verdict is the status of the last step recorded by the work loop, every step before it passed, and whatever was recorded earlier stays |
| StepRecords.LoopRecorded | internal/scenario/scenario.go:394-402 | Every loop a run reaches uncancelled is recorded as passed exactly when its reference resolves to a non-empty list; otherwise the run ends Failed with the loop's own record, and nothing of its body runs |
| StepRecords.VerbRecorded | internal/scenario/scenario.go:403-418 | Every other step a run reaches is recorded with what it did, a failure during a cancellation as interrupted, and ends the run unless it passed |
| StepRecords.CancellationRecorded | internal/scenario/scenario.go:391-393 | A run that is cancelled before a step records just that and ends Skipped as not run |
| StepRecords.EveryStepCounts | internal/scenario/scenario.go:385-418 | Each step that is reached starts from the context, world and records the one before it left, and the run ends with the last of them |
| StepRecords.RecordHasStep | internal/scenario/scenario.go:385-418 | No record is without a step that was reached |
| Scenario.RunFinally | internal/scenario/scenario.go:357-372 | The finally entries run one after the other, each handed over as it is written, loops included |
| Scenario.FinallyAlwaysRuns | internal/scenario/scenario.go:357-372 | Every finally entry is recorded, in order, whatever the verdict; a failure among them can only turn a pass into a failure |
| Scenario.FinallyPassesOn | internal/scenario/scenario.go:357-372 | Each finally entry starts from the context and the world that the one before it left, and records what it did |
| Scoping.StepsSeeAllLoops | internal/scenario/scenario.go:387-389 | If no loop takes a name from outside the loop around it, and no verb writes a name from outside its own loop, every step sees the variables of all its enclosing loops although it carries only the innermost ones, whatever the steps do |
| NameClashes.ClashLeaks | internal/scenario/scenario.go:385-389 | For every nest that breaks the condition on names, and every set of keys that verbs may write, there is a run whose verbs write those only in which a step sees another value where a loop variable belongs |
| NameClashes.NamesKeptExactly | internal/scenario/scenario.go:380-453 | The condition on names is exact: it holds if and only if such runs never differ from the scoped reading |
| Evidence.TimedSteps | internal/scenario/scenario.go:457-475 | Consecutive steps get the windows between consecutive positions |
| Evidence.WindowsTile | internal/scenario/evidence.go:72-78 | The windows are disjoint, in step order, contiguous where every request was answered, and lie inside the window of the whole |
| Evidence.InWindowExactly | internal/scenario/evidence.go:72-78 | A frame falls into a step's window exactly when its number is beyond the position before the step and not beyond the one after it, both answered |
| Evidence.AddStepFinding | internal/scenario/evidence.go:125-134 | Keeps for every step an exact total and the first twenty findings inside its window |
| Evidence.AttachFindings | internal/scenario/evidence.go:93-123 | Total and first fifty findings of the whole, and for every step exactly its own share, with kept lists of length min(total, cap) |
| Evidence.UpToExactly | internal/scenario/evidence.go:108-122 | The test case's findings are those numbered up to its end, in order, and the kept ones the first fifty of them |
| Evidence.ShareExactly | internal/scenario/evidence.go:125-134 | A step's total is the number of those inside its window, and the kept ones the first twenty of them, in order |
| Evidence.AtMostOneStep | internal/scenario/evidence.go:125-134 | With disjoint windows a finding is credited to at most one step |
| Evidence.StepTotalsBounded | internal/scenario/evidence.go:93-134 | The step totals add up to at most the total of the whole |
| Conformance.MergeElementList | internal/conformance/conformance.go:251-269 | The loop succeeds exactly on non-empty arrays of single-member objects with pairwise distinct names, and then gives the children in order under their names |
| Conformance.MergedByName | internal/conformance/conformance.go:251-269 | Merging loses nothing and invents nothing |
| Conformance.NormalizeDecodes | internal/conformance/conformance.go:229-249 | Decoding any encoding of any document gives its plain nested form if and only if no repeated element is written in a mergeable way |
| Conformance.CanonicalDecodes | internal/conformance/conformance.go:229-249 | Encodings that never write an occurrence as a bare object always decode, lists staying lists (SHIP TS 1.0.1 sections 11.4.5 and 11.4.6) |
| Conformance.NormalizeNotIdempotent | internal/conformance/conformance.go:229-249 | A family of inputs on which decoding twice differs from decoding once |
| Idempotence.OnceExactly | internal/conformance/conformance.go:229-269 | Decoding twice is decoding once if and only if no array that is kept as a list has items that would merge once decoded |
| Idempotence.OnceIsEnough | internal/conformance/conformance.go:317-334 | On such values any number of further passes changes nothing |
| Conformance.ReadElementList | internal/conformance/conformance.go:319-334 | The loop gives the decoded object items in order, or the one bare object |
| Conformance.RepeatedNormalizationHarmless | internal/conformance/conformance.go:317-334 | However often the tree was decoded on the way, a canonical list whose entries all carry a common key is read as its entries, each once and in order, with settled children unchanged |
| Conformance.ComputePow10 | internal/conformance/conformance.go:304-315 | The two loops compute the power of ten, for negative and fractional exponents as well |
| Conformance.Pow10Inverse | internal/conformance/conformance.go:304-315 | A scale and its negation cancel |
| Conformance.ScalesExactly | internal/conformance/conformance.go:288-315 | A scaled number is its number with the decimal point moved by the whole part of the scale |
| Shape.CheckShapeExact | internal/conformance/conformance.go:125-160 | A rule is reported at a path exactly when the node at that path breaks it: nothing missed, nothing invented |
| Shape.CleanEncoding | internal/conformance/conformance.go:125-160 | An encoding is free of findings exactly when no list holds an empty occurrence (SHIP TS 1.0.1 section 11.5.2 rule 1) |
| Shape.CheckShapeDecides | internal/conformance/conformance.go:125-160 | A value below the root is clean if and only if it encodes some document without empty occurrences |
| CounterWindow.Window.Observe | internal/conformance/session.go:50-72 | The bounded window, its set and its maximum answer as the unbounded history of fresh counters does |
| CounterWindow.FlaggedExactly | internal/conformance/session.go:42-72 | A counter is flagged exactly when it was fresh earlier, with no restart since and fewer than 256 fresh counters in between |
| CounterWindow.ReuseCaught | internal/conformance/session.go:50-72 | Reuse within 256 messages of a fresh use is flagged if the counter exceeds 64 or is at least a quarter of the maximum |
| CounterWindow.RestartExactly | internal/conformance/session.go:50-56 | The window restarts exactly at a counter that is at most 64 and below a quarter of a fresh counter since the last restart, or negative; that counter is not flagged and all before it are forgotten |
| CounterWindow.IncreasingNeverFlagged | internal/conformance/session.go:50-72 | A strictly increasing positive stream is never flagged |
| CounterWindow.MaxIsLargest | internal/conformance/session.go:66-70 | The maximum kept is the largest fresh counter since the last restart |
| CounterWindow.ReuseOfFlaggedForgotten | internal/conformance/session.go:50-72 | On every stream of 256 increasing counters, the oldest again, a new one and the oldest once more, the first reuse is flagged and the second is not |
| Session.Session.Check | internal/conformance/session.go:85-125 | The commands of a frame are taken one after the other on behalf of the sending feature, each learnt from before its values are judged |
| Session.Session.CheckCommand | internal/conformance/session.go:119-123 | Units of a command are learnt first, then its measurements are judged against the units known then |
| Session.Session.LearnUnits | internal/conformance/session.go:131-140 | The loop records the declared unit under the declaring feature and id |
| Session.Session.CheckMeasurements | internal/conformance/session.go:142-170 | The findings are exactly the values beyond the bound of their known unit, in order |
| Session.JudgedOneByOne | internal/conformance/session.go:142-170 | A list is judged entry by entry, in order |
| Session.DeclaredExactly | internal/conformance/session.go:131-140 | A description declares a unit exactly with an id and a unit, and then this one |
| Session.ReadExactly | internal/conformance/session.go:142-154 | An entry is a reading exactly with an id and a number, and its value is that number with the decimal point moved by the scale |
| Session.FlaggedExactly | internal/conformance/session.go:142-170 | A value is flagged, once, exactly when its unit is known, one of A, V, W and Hz, and its magnitude beyond 1000, or 1000000 for W |
| Session.UnitsAreLastDeclared | internal/conformance/session.go:131-140 | At any point of a session a measurement's unit is the last one its own feature declared |
| Session.FrameJudgedAsSent | internal/conformance/session.go:85-170 | From the raw frame to the findings: a canonically encoded frame is learnt from and judged exactly as the device meant it, command by command, although its lists are decoded three times on the way |
| Session.ListsReadAsSent | internal/conformance/session.go:119-170 | A canonical measurement list is learnt from and judged as sent, however often the tree was decoded |
| Session.ScaledNumberStable | internal/conformance/conformance.go:288-302 | A scaled number of two plain parts is unaffected by further decoding |
| Trace.Store.Add | internal/trace/trace.go:113-157 | The ring stays the newest stretch of the full log, gap-free and ending at the counter |
| Trace.SelectExactly | internal/trace/trace.go:178-195 | A query keeps, in order, the entries behind its position that are of its peer and direction, if it names them, and have findings, if it asks for those only |
| Trace.NewestExactly | internal/trace/trace.go:172-199 | Of those the newest are given, as many as a limit between 1 and 2000 says, and 2000 otherwise |
| Trace.Store.Recent | internal/trace/trace.go:171-201 | Gives the newest frames matching the query, oldest first, and the newest number |
| Trace.Store.Get | internal/trace/trace.go:203-212 | Finds a frame by number exactly while it is retained |
| Trace.Store.Clear | internal/trace/trace.go:216-221 | Empties the ring and keeps the counter |
| Polling.ConformanceTracker.Collect | internal/testrun/checks.go:39-83 | After each sample the totals are those of the device's frames among everything the cursor covered |
| Polling.ConformanceTracker.CountRules | internal/testrun/checks.go:57-78 | A rule is counted once per frame, however often the frame breaks it |
| Polling.HeartbeatMonitor.Sample | internal/testrun/checks.go:125-150 | After each sample the times are those of the device's heartbeats among everything covered |
| Polling.PageIsOwnNew | internal/testrun/checks.go:39-56 | A page holds exactly the device's received frames behind the cursor; its limit never cuts it |
| Polling.ExactlyOnce | internal/testrun/checks.go:39-83 | In every interleaving of frames and samples the overrun flag is down exactly when every frame since the start was covered once; a raised flag means a frame was evicted unread |
| Polling.ExactlyOnceDespiteClear | internal/trace/trace.go:216-221 | With clears among the events too, and before them, every frame was covered exactly once if and only if the flag is down and no sample came after a clear that took unread frames away |
| Polling.FinalSample | internal/testrun/checks.go:39-83 | After a last answered sample with nothing lost, counts and heartbeat times equal those of the full unbounded history since the start |
| Polling.RuleCountsFrames | internal/testrun/checks.go:57-78 | A rule's count is the number of frames that break it |
| TallyMeaning.FramesCounted | internal/testrun/checks.go:56-78 | The frames are counted, as erroneous exactly those with an error among their findings, as warned exactly those with other findings only |
| TallyMeaning.RuleStemsFromFirst | internal/testrun/checks.go:63-68 | A rule is listed exactly if some finding names it, with the severity, reference, message and frame number of the first that does |
| TallyMeaning.TimesExactly | internal/testrun/checks.go:137-141 | The times kept are those of the frames that notify or reply a heartbeat, in order |
| Polling.ClearHidesFrames | internal/trace/trace.go:216-221 | Clearing between two samples hides frames without raising the flag |
| TraceSummary.ExchangeSort | internal/trace/trace.go:261-269 | The nested exchange loop leaves a sorted permutation: errors first, then count descending, then name |
| TraceSummary.ListedInOrder | internal/trace/trace.go:257-269 | In the rule list errors come before warnings, then the more frequent rule first, then by name |
| TraceSummary.ListUnique | internal/trace/trace.go:257-269 | The rule list does not depend on the order in which the map is read out |
| TraceSummary.Summarize | internal/trace/trace.go:223-271 | The totals are those of the ring, and the rules are listed completely and in report order |
| TraceSummary.SummaryConserves | internal/trace/trace.go:228-256 | Non-conformant frames are errors plus warnings and the sum over peers; the rule counts add up to all findings |
| TraceSummary.ErrorsAreFramesWithError | internal/trace/trace.go:228-256 | The error count is the number of frames with at least one error finding |
| TraceSummary.CountIsHits | internal/trace/trace.go:228-256 | A rule's count is the number of findings that name it |
| TraceSummary.PeersCounted | internal/trace/trace.go:228-234 | A peer's count is the number of its frames with findings |
| TraceSummary.RuleStemsFromFirst | internal/trace/trace.go:245-251 | A rule is listed exactly if some finding names it, with the severity and the reference of the first that does |
| TraceSummary.LastSeqIsNewest | internal/trace/trace.go:228-256 | The frame and the peer listed for a rule are those of the newest frame that breaks it |
| GapAnalysis.StretchBounded | internal/testrun/checks.go:310-369 | Sound: no stretch of the run without heartbeat or interruption is longer than the computed gap |
| GapAnalysis.LongestIsStretch | internal/testrun/checks.go:310-369 | Complete: with heartbeats inside the run, a positive result is the length of such a stretch, for overlapping and clamped interruptions as well |
| GapAnalysis.LongestExactly | internal/testrun/checks.go:310-369 | Wherever the heartbeats lie, the result exceeds a bound if and only if a free stretch of the run does, or a gap between neighbouring heartbeats outside the run that lies in no interruption |
| GapAnalysis.HeartbeatCheck | internal/testrun/checks.go:310-360 | The check fails exactly when such a stretch or gap exceeds the last positive timeout announced, 60 s without one, by more than two seconds and by more than a tenth, and is skipped exactly on overrun or on a run too short to expect a heartbeat |
| GapAnalysis.LongestGap | internal/testrun/checks.go:331-336 | The loop over consecutive points finds the longest gap inside no interruption |
| GapAnalysis.HeartbeatAfterEnd | internal/testrun/checks.go:310-336 | A device that leaves at most its four-second timeout free during the run fails for a heartbeat recorded seven seconds after the end |
| HeartbeatRun.CollectedAfterStart | internal/testrun/checks.go:117-150 | With nothing lost, the device's heartbeats of the run are those that arrived before the monitor's start, followed by the collected ones |
| HeartbeatRun.GapIsDevices | internal/testrun/collect.go:313-365 | A gap the device left is always found in the collected heartbeats, and one found there is the device's exactly when no uncollected heartbeat lies in it |
| HeartbeatRun.OverstatedByDelay | internal/testrun/collect.go:313-365 | With the heartbeats inside the run, a gap is overstated by no more than the time in which the uncollected ones arrived |
| HeartbeatRun.EarlyHeartbeatUnseen | internal/testrun/checks.go:317-336 | A device that keeps its four-second timeout fails because its first heartbeat came before the monitor's start |
| TracerFeed.TracerStream | internal/tracerfeed/tracerfeed.go:65-99 | In every interleaving a TCP tracer's lines are an in-order, repetition-free choice of the published ones starting with the last 5000 at attach, and the whole contiguous stretch exactly if nothing was dropped |
| TracerFeed.DropsOnlyWhenFull | internal/tracerfeed/tracerfeed.go:150-155 | A line is dropped only by publishing into a full queue of 256 |
| TracerFeed.NeverSendsOnClosed | internal/tracerfeed/tracerfeed.go:134-179 | Publishing never touches a closed queue |
| TracerFeed.PeerStream | internal/tracerfeed/tracerfeed.go:114-159 | A UDP tracer is sent the recent history and then every line until the feed closes |
| FeedEvents.ListensExactly | internal/tracerfeed/tracerfeed.go:65-99 | In every run a TCP tracer is attached from its first connection until the feed closes or its service has ended |
| FeedEvents.BeginsWithRecent | internal/tracerfeed/tracerfeed.go:65-80 | What a TCP tracer gets begins with the last 5000 lines before it attached, or all if there were fewer |
| FeedEvents.PeerExactly | internal/tracerfeed/tracerfeed.go:114-159 | A UDP tracer has been sent exactly the last 5000 lines before it registered and all from then until the feed closed, or nothing if it had closed before |
| FeedEnd.ClosedExactly | internal/tracerfeed/tracerfeed.go:162-179 | In every run the queue of a TCP tracer is closed exactly if it was attached when the feed first closed |
| FeedEnd.ServiceEnds | internal/tracerfeed/tracerfeed.go:82-99 | Whatever else happens after the closing, the goroutine of such a tracer ends after two turns for each line left and one more, and never needs more |
| FeedEnd.DrainedEnds | internal/tracerfeed/tracerfeed.go:94-99 | With nothing left to take or write it ends at its next turn |
| FeedEnd.EndsExactly | internal/tracerfeed/tracerfeed.go:82-99 | A service ends only by a failed write or on a closed queue with nothing left, and a line is received exactly if its write succeeds |
| FeedEnd.DoneHasReceivedAll | internal/tracerfeed/tracerfeed.go:82-99 | A service that ended without a failed write was closed and has delivered every line kept for its tracer |
| TracerFeed.Feed.Accept | internal/tracerfeed/tracerfeed.go:65-80 | Snapshot and registration happen in one step |
| TracerFeed.Feed.PublishLine | internal/tracerfeed/tracerfeed.go:134-159 | History is trimmed to 5000 and every attached tracer and known peer gets the line, in any map order |
| TracerFeed.Feed.ServeTake | internal/tracerfeed/tracerfeed.go:82-99 | The serving goroutine takes the replay first, then the queue, and ends on a drained closed queue |
| TracerFeed.Feed.CloseFeed | internal/tracerfeed/tracerfeed.go:162-179 | Closing closes each attached queue once and detaches all tracers; a second call does nothing |
| Heartbeat.EveryRun | internal/eebusgo/heartbeat.go:66-183 | In every interleaving published counters go up by exactly one, no stop channel is closed twice, and at most one goroutine can publish |
| Heartbeat.RunsWhenWanted | internal/eebusgo/heartbeat.go:66-119 | The heartbeat runs exactly while the calls ask for it; changing the cadence neither starts nor stops it |
| Heartbeat.DefaultCadence | internal/eebusgo/heartbeat.go:57-105 | Without an interval of its own a timeout is accepted exactly from 1 s to 2 s and from 3 s to an hour |
| Heartbeat.SilentAfterStop | internal/eebusgo/heartbeat.go:77-85 | Between a Stop and the next Start nothing is published, whichever goroutines still wake up |
| Heartbeat.ManagerIsDone | internal/eebusgo/heartbeat.go:90-119 | Once a cadence was set the manager never beats again |
| Heartbeat.AnnouncesCurrentTimeout | internal/eebusgo/heartbeat.go:136-183 | A goroutine that publishes announces the timeout the pacer has at that moment, which `HeartbeatEvents.CadenceIsLastSet` traces to the calls |
| HeartbeatEvents.CadenceIsLastSet | internal/eebusgo/heartbeat.go:90-119 | In every run interval and timeout are those of the last call whose times lie between a second and an hour, an interval of zero standing for two seconds less than a longer timeout, and the initial ones before any such call; the pacer has taken over exactly if there was one |
| HeartbeatEvents.BeatFollowsCadence | internal/eebusgo/heartbeat.go:136-183 | Whenever a goroutine publishes, its timeout is that of the last such call and it was started with its interval |
| HeartbeatEvents.PublishesExactly | internal/eebusgo/heartbeat.go:136-183 | In every run a goroutine that wakes up publishes exactly if a cadence was set, a heartbeat is wanted and no goroutine was started after it, all others having their stop channel closed; the manager exactly if none was set and one is wanted |
| HeartbeatEvents.BeatsNumbered | internal/eebusgo/heartbeat.go:160-183 | In every run the beats are numbered on by one in 64 bits, from the last beat before it or from one |
| Heartbeat.Pacer.ChangeCadence | internal/eebusgo/heartbeat.go:90-119 | Accepts exactly the valid cadences, hands over from the manager or restarts the sender, and keeps the invariant |
| Heartbeat.Pacer.TrySend | internal/eebusgo/heartbeat.go:149-183 | A goroutine publishes only while its own stop token is the current one |
| StationLimits.GuardReflectsHistory | internal/simulator/simulator.go:261-294 | In every run the heartbeat seen, the timeout, the failsafe state and its limit follow the events one by one |
| StationGuard.FailsafeExactly | internal/simulator/simulator.go:261-294 | After any run the station is in failsafe state if and only if, when the clock looked last, the guard had been heard and its last heartbeat was more than twice as long ago as the last positive timeout it had announced, or 60 s before any |
| StationGuard.ApprovedExactly | internal/simulator/simulator.go:340-356 | In every run the approved writes, waiting or stored, are exactly those asked for that are not negative, while a heartbeat had been seen and the station was not in failsafe state, each as often as it was asked for |
| StationGuard.TimedExactly | internal/simulator/simulator.go:370-382 | In every run the limit applied last has a timer, running or fired, exactly when it was read as active and with a duration |
| StationLimits.DataReflectsHistory | internal/simulator/simulator.go:338-441 | In every run the published limit data is the write stored last, unless an expiry has written it back since, and then it is inactive |
| StationLimits.LimitInForce | internal/simulator/simulator.go:365-451 | At every moment of every run the limit in force is the write that was stored last when the update applied last read the data, if it is active, its time is not over, no expiry had written it back by then and no other timer has cleared it since |
| StationLimits.LastInForceExactly | internal/simulator/simulator.go:365-451 | At every moment of every run, whatever is still under way, the write stored last is in force if and only if it is active, its own timer has not run out and it was not read after its end, the update applied last read the data after it was stored and before an expiry wrote the data back, and no other timer has cleared the limit since |
| StationLimits.InactiveExactly | internal/simulator/simulator.go:365-451 | When the write stored last is inactive, a limit is in force exactly if the update applied last had read an active write stored before it, which nothing has cleared |
| StationLimits.EffectiveReflectsHistory | internal/simulator/simulator.go:299-305 | If nothing got in the way of the write stored last, the effective limit is the failsafe limit exactly while the last evaluated silence exceeded twice the announced timeout, and otherwise that write until its time is over |
| StationLimits.OneAtATimeUndisturbed | internal/simulator/simulator.go:338-451 | As long as writes are stored and expiries begun only while nothing else is under way, and every update can read the data, nothing ever gets in the way of a write, timers of older generations included |
| StationLimits.ExpiryRace | internal/simulator/simulator.go:427-451 | A write stored and applied between the check and the commit of an older expiry is cleared |
| StationLimits.LostToExpiry | internal/simulator/simulator.go:427-451 | A permanent write stored before the expiry of the limit in force runs as a whole, and applied after it, never comes into force |
| StationLimits.LostToUpdate | internal/simulator/simulator.go:365-385 | With two updates under way the older limit stays in force if its update read it first and is applied last |
| StationMeter.PublishedIs | internal/simulator/simulator.go:461-494 | In every run the published power is the baseline capped by the limit under which its report was computed |
| StationMeter.PublishedWithinLimit | internal/simulator/simulator.go:461-494 | Without a vehicle, at every moment of every run, the published power respects the limit in force exactly when the baseline does or the limit was not lowered since the report published last was computed: the failsafe limit if nothing was applied or cleared since, any limit otherwise |
| StationMeter.WithinLimitInOrder | internal/simulator/simulator.go:461-494 | With no report due, and the report computed last also published last, it respects the limit unless the station is in failsafe state and the failsafe limit has been lowered, below the baseline, since |
| StationMeter.OneReportAtATimeInOrder | internal/simulator/simulator.go:461-494 | Reports that do not overlap are published in the order they are computed |
| StationMeter.PublishedAsExpected | internal/simulator/simulator.go:338-494 | When updates and expiries do not overlap, reports do not, every update can read the data, and nothing is under way any more, the published power is the baseline capped by the limit the history of writes, timers and heartbeats calls for |
| StationMeter.SteadyFailsafeRespected | internal/simulator/simulator.go:233-273 | A failsafe limit that is not lowered while in force is respected once its report is published in order |
| StationMeter.LoweredFailsafeUnpublished | internal/simulator/simulator.go:242-266 | The guard is silent, the failsafe limit is lowered, and the next tick publishes nothing |
| StationMeter.StaleReportStays | internal/simulator/simulator.go:461-494 | The report of an expiry computes the baseline, a lower limit is applied and reported, and then the baseline is published and stays |
| Station.TickRespectsLimit | internal/simulator/simulator.go:233-251 | At every clock tick with a vehicle, in every run in which the failsafe limits read are not negative, the metered power is within the limit sampled at that tick exactly when the limit is positive or every phase is idle anyway |
| Station.Device.ApproveLimits | internal/simulator/simulator.go:340-356 | Approves exactly the pending writes that are not negative, and none without a live guard |
| Station.Device.UpdateLimitRead | internal/simulator/simulator.go:365-369 | An update takes what is published at that moment, inactive if its time is over, or ends |
| Station.Device.UpdateLimitApply | internal/simulator/simulator.go:370-385 | It then replaces the limit and its generation by what it read, starts a timer of that generation and makes a report due |
| Station.Device.ExpireLimitCheck | internal/simulator/simulator.go:427-434 | A timer of an older generation stops here |
| Station.Device.ExpireLimitRead | internal/simulator/simulator.go:435-438 | An expiry takes what is published at that moment, whoever wrote it |
| Station.Device.ExpireLimitWrite | internal/simulator/simulator.go:439-444 | What it has read is written back inactive and without a duration |
| Station.Device.ExpireLimitCommit | internal/simulator/simulator.go:445-450 | The limit is cleared, whichever it is by now, and a report is due |
| Station.Device.GuardHeartbeat | internal/simulator/simulator.go:284-294 | A heartbeat is noted with its time, and a positive timeout it announces replaces the one before |
| Station.Device.UpdateFailsafe | internal/simulator/simulator.go:261-282 | The failsafe limit is refreshed when it can be read, then the state is that of the guard's silence, and a change is told |
| Station.Device.ComputePower | internal/simulator/simulator.go:461-467 | Under the lock the power is the baseline capped by the effective limit |
| Station.Device.PublishPower | internal/simulator/simulator.go:473-496 | Published is the vehicle's metered power, or without one the power computed earlier, whatever the limit is by now |
| Station.Device.RunTick | internal/simulator/simulator.go:233-251 | One second of the clock: failsafe first; then a vehicle picks up what was written, ticks under the limit of that moment and is metered, while without one only a change of the failsafe state is reported |
| Vehicle.DrawsLargestAdmissible | internal/simulator/ev.go:496-523 | Each phase draws exactly the largest current that is zero or within every limit in force and at least the minimum |
| Vehicle.CurrentRange | internal/simulator/ev.go:496-538 | Each phase is 0 or within [Min, Max], 0 or Min without a trusted guard, and within the station's share |
| Vehicle.StationMetersVehicle | internal/simulator/ev.go:686-698 | The combined-phase fan-out meters what the vehicle reports |
| Vehicle.IdleExactly | internal/simulator/ev.go:496-523 | Without a station limit nothing is metered exactly when every phase is idle: the battery full, or the maximum, an obligation or a trusted recommendation below the minimum current |
| Vehicle.LimitRespectedExactly | internal/simulator/simulator.go:310-319 | Split over the phases, the limit bounds the metered power if and only if it is positive, or zero while every phase is idle |
| Vehicle.ZeroLimitIgnored | internal/simulator/ev.go:507-511 | Under a 0 W limit an otherwise free vehicle charges at full power |
| Vehicle.BatteryOverSession | internal/simulator/ev.go:543-579 | Over any session the state of charge is min(100, start + energy / (10 * capacity)), if and only if it does not start above 100 or some round drew power for some time |
| Vehicle.TickKeepsBattery | internal/simulator/ev.go:543-579 | A tick never discharges a battery that is not above 100 percent, and a full one takes no more energy |
| Vehicle.TickAddsEnergy | internal/simulator/ev.go:543-570 | A tick adds the energy of the currents of that moment at 230 V on the phases they stand for, over the time since the last tick, sped up, and nothing without time or power |
| Vehicle.PickedUpExactly | internal/simulator/ev.go:660-674 | Each phase takes over the written state and value, the maximum current without a value, and keeps its limit where nothing can be read |
| Vehicle.EvSim.ChargingCurrentA | internal/simulator/ev.go:496-523 | The loop fills in one current per measured phase |
| Vehicle.EvSim.AdvanceTick | internal/simulator/ev.go:543-579 | A tick charges with the currents of that moment and reports no power once full |
| Vehicle.EvSim.ApplyWrittenLimits | internal/simulator/ev.go:648-674 | Each phase takes over what was written for it, with the maximum current where no value was |
| RunOrder.KeyOrder | internal/scenario/meta.go:298-320 | The byte-wise order of the formatted keys is the order by cleanup, leading, use case, risk, length and id |
| RunOrder.DocumentedOrder | internal/scenario/meta.go:287-290 | Pairing and discovery first, then entries of no use case, then use cases in catalog order, read-only before live-control before disruptive, long-running and probe placeholders last, cleanup at the very end |
| RunOrder.OrderedInOrder | internal/scenario/meta.go:290-294 | Sorting by key puts distinct ids strictly in that order |
| RunOrder.InOrderUnique | internal/scenario/meta.go:290-294 | Only one arrangement is in that order, so the sorting algorithm does not matter |
| RunManager.Select | internal/testrun/manager.go:162-199 | Gives every wanted entry of the catalog and no other, each once, in run order |
| RunManager.SelectedExactly | internal/testrun/manager.go:162-199 | Selected are the valid test cases that every filter lets pass and that are named, or, without names, neither a cleanup nor an unwanted long one, and then the cleanup of the use cases asked for if something selected changes the device |
| RunManager.CleanupFollowsChanges | internal/testrun/manager.go:192-196 | Without named ids a cleanup comes along exactly when something else selected is not read-only |
| RunManager.Applicable | internal/testrun/manager.go:372-396 | Leaves out exactly the known use cases the device does not advertise, keeps the order, and names each left-out use case once |
| RunManager.AppliesExactly | internal/testrun/manager.go:372-396 | A selected test case stays unless its use case is known and a connected device that describes itself does not offer it, and neither that nor names were asked for |
| RunManager.ResultExactly | internal/testrun/manager.go:298-325 | A regular test case is not run exactly if the device of a known run did not come back after an earlier uncancelled one, or else the run was cancelled before it |
| RunManager.Execute | internal/testrun/manager.go:287-341 | One record per regular entry and then per cleanup entry: run, or not run because of an earlier cancellation or a lost device |
| RunManager.RegularThenCleanup | internal/testrun/manager.go:287-294 | In run order the regular entries stand in front of the cleanup entries, so executing them in two loops keeps the order |
| RunManager.NothingAfterStop | internal/testrun/manager.go:298-325 | Nothing regular runs after a cancellation or a lost device |
| RunManager.CompleteRun | internal/testrun/manager.go:162-341 | A completed run records exactly one result per remaining selected entry, in run order; once one regular entry is not run no later one is; cleanup runs unless the device is gone |
| RunManager.FinalStatus | internal/testrun/manager.go:416-437 | Passed exactly if not cancelled, not aborted and nothing failed |
| Iso8601.ScanDecides | internal/iso8601/iso8601.go:14-14 | The expression matches a text with given groups if and only if the text is written from them |
| Iso8601.AcceptedExactly | internal/iso8601/iso8601.go:17-21 | A text is accepted exactly when it is written from well-formed groups, at least one of them present |
| Iso8601.FractionExactly | internal/iso8601/iso8601.go:35-38 | The digits behind the point count as nanoseconds, nine of them with zeros for the missing ones |
| Iso8601.FieldExactly | internal/iso8601/iso8601.go:22-34 | Days, hours and minutes count as their number, or as the largest 64-bit one if they are larger |
| Iso8601.Parse | internal/iso8601/iso8601.go:17-40 | The 64-bit sum, with clamped numbers and wrap-around, equals the unbounded sum wrapped once |
| Iso8601.ParseExact | internal/iso8601/iso8601.go:17-40 | Nothing is clamped or wrapped while the whole fits into 64 bits |
| Iso8601.Format | internal/iso8601/iso8601.go:43-73 | The text is written from the positive parts only, PT0S when there is none |
| Iso8601.RoundTripExactly | internal/iso8601/iso8601.go:17-73 | Parsing a formatted duration gives it back if and only if it is non-negative and in whole seconds |
| Iso8601.NormalForm | internal/iso8601/iso8601.go:17-73 | For every accepted text, formatting what it parses to gives a text of the same duration if and only if that is a non-negative number of whole seconds |
| Iso8601.NormalFormOfText | internal/iso8601/iso8601.go:17-73 | For every text that fits, this is so exactly when the digits behind the point amount to whole seconds |
| Discover.UnescapeInstanceName | internal/eebusgo/discover.go:79-105 | The index loop computes the unescaped bytes and never reads out of range |
| Discover.UnescapeInvertsEscaping | internal/eebusgo/discover.go:74-105 | Unescaping inverts every escaping by plain bytes, `\X` with X no digit, and `\DDD`, whatever follows (section 4.3 of RFC 6763, section 5.1 of RFC 1035) |
| Discover.NeverLonger | internal/eebusgo/discover.go:79-105 | The result is never longer, and equally long exactly when there was nothing to unescape and nothing changes |
| Discover.QuotedDigit | internal/eebusgo/discover.go:87-101 | A quoted digit comes back if and only if the next two bytes are not digits that name a byte together with it |

## Left out

- HTTP handlers, REST clients, server-sent events, dashboard, OpenAPI pages, report rendering and file persistence: plumbing around the parts above.
- The vendored EEBUS, SHIP, SPINE and mDNS stacks, TLS, sockets and the operating system's clock: the heartbeat manager, the UDP network and time are assumed steps; a stopped manager sends nothing, stop channels are always new, and a datagram that was sent arrives.
- JSON and YAML parsing and UTF-8 validation: the models start from parsed trees; how `addressSource` is rendered as text is a parameter.
- Message texts, labels, durations and counters that only end up in messages, such as the per-occurrence detail of a step or a finding.
- Floating point: values, currents, powers, limits and times are exact reals, and `Format`'s way through float64 seconds and `Parse`'s float64 seconds are exact; rounding is not modelled.
- Step verbs, assertion operators, `resolve` and `lookup`: a step is an arbitrary function from context and world to outcome, context and world, and a reference resolves by an arbitrary function.
- The checks `execute` makes before the first step, such as requirements and waiting for the connection, and body entries of a loop that are no mappings.
- The defaults of a vehicle's configuration (`evDefaults`): the vehicle is assumed to have positive currents, capacity and speed-up and one to three phases, as they guarantee.
- Aliasing of the `captured` map inside the context: a context is a value here.
- `attachEvents`, `countDisconnects`, the connection and vehicle checks and the sorting of the tracker's result: short filters and counts.
- `checkDatagram`, and the map of counter windows per direction around the one window modelled here.
- Trace file output, session findings and subscribers of the frame store: they do not influence the ring.
- Frames and notices collected by a run, progress updates and sampling inside the test cases: `Polling` covers sampling at any moment.
- Trimming of selection values and the look-up of use cases: a selection arrives with trimmed values and acronyms, and a catalog entry with its use case's position.
- Failsafe duration, the approval of failsafe writes and the persistence of failsafe values: the failsafe limit is what the clock reads.
- StationLimits.LimitInForce: when the time of a stored limit is over is left open: timers run out at any moment, and any read of a limit with a duration may come after its end, which the stack then gives as inactive.
- StationMeter.PublishedWithinLimit: covers the station without a vehicle; with one the power is metered from the vehicle's currents of that moment, and the phases of one report reach the stack as one value.
- Conformance.ComputePow10: exponents beyond 64 bits, whose conversion Go leaves to the platform, and rounding.
- Scoping.StepsSeeAllLoops: which context keys steps write is a parameter, because the verbs themselves are not modelled; the source's are `Scoping.RESERVED`.
- Trace.Store.Add: frame contents are given, because summarising a payload is parsing.
- RunManager.Execute: one arbitrary outcome per entry stands for the runner, and cancellation is assumed to be permanent, as a context's is.
- Iso8601.Parse: a seconds value beyond 64 bits converts to an arbitrary duration, because Go leaves that conversion to the platform.
- RunOrder.KeyOrder: assumes at most 15 use cases in the catalog, which is its size; the padded group field orders correctly up to 999.
