# Verified model of the /dev/mem_hint control plane

This project models the hint control plane from end to end and proves properties of the model with
Dafny 4.11. `dafny verify dfyconfig.toml` checks all of it.

A runtime thread calls the scheduler, the Python client packs eight bytes, the driver parses and
validates them, maps the phase to a PHY configuration, runs the safety limiter, hands a 64-bit word
to a hardware channel and stores the phase. The PMU timer feeds the same apply path on its own.
Status and policy files show and set numbers as text.

| file | models |
|---|---|
| `CTypes.dfy`, `Bits.dfy` | C integer types and division; bitwise operators defined bit by bit |
| `HintWord.dfy` | the packed struct and the encoded word |
| `PhyPolicy.dfy` | the phase table and priority scaling |
| `SafetyLimiter.dfy` | the limiter, with its 8-bit arithmetic |
| `PmuClassifier.dfy` | the classifier and the timer as a fold over arbitrary samples and thresholds |
| `Driver.dfy` | the driver run sequentially |
| `RunRecord.dfy`, `RaceRecord.dfy` | what runs of the driver leave behind, read off events and actions in plain numbers |
| `History.dfy`, `ApplyRace.dfy` | the driver run by any number of writers and the timer, without a lock |
| `PythonClient.dfy`, `Scheduler.dfy` | the client's state, the scheduler and its threads |
| `ClientLibrary.dfy` | the C library's send and policy calls |
| `NumberText.dfy`, `Sysfs.dfy`, `PhaseMonitor.dfy` | number text, the policy files, the phase monitor |
| `ModuleLifecycle.dfy` | module load and unload |
| `EndToEnd.dfy` | theorems across the layers |

Functions that update state in the source are methods here, proved equal to a specification function;
the lemmas are about those functions. Concurrent code is a step machine whose runs are all finite
sequences of actions, an action that is not enabled doing nothing.

What comes from outside is a parameter: PMU samples, thresholds, ECC readings, platform limits, the
selected channel, whether the MMIO window is mapped (the shipped code never maps it), faults in the
user copy, and the outcome of every open, write, close and registration. So is the kernel's expansion
of `clamp_t`, min-of-max in older headers and a nested conditional in newer ones: `ClampForm`. The two
differ only for a minimum above its maximum, and each result about such limits says what each does.
Dispatch is an abstract log of channel and word. `kstrtoul`, `kstrtol`, `strtoul`, `printf` and Python's
`int` and `strip` are not part of the repository; the model gives them their documented behaviour.

## Where the code and its documentation differ

- The documents call an explicit hint authoritative. In the code it lasts until the PMU decides on a
  phase that is new to the PMU; `ExplicitPhaseHeldIff` and `ShownSinceLastWrite` give the exact
  condition, and in `TickDisplacesCall` one tick displaces a scheduler's call.
- The documents say the limiter bounds every hint before it reaches hardware. The clamped
  configuration is only logged; the dispatched word is the unclamped hint. Safety is therefore stated
  about the clamped configuration.
- The limiter is meant to hold every configuration within limits. What the driver applies leaves them
  in three ways: a maximum may lie below its minimum, the security floor of 22 may lie above a maximum,
  and under ECC pressure a minimum of 255 makes the 8-bit step wrap to 0. `PhaseConfigWithinIff` says
  these are all, and `ThreeWaysOut` shows each. For arbitrary proposals, which the phase table never
  makes, a maximum of 255 is enough; `LimitedWithinIff` and `EccStepWraps` have that case.
- The documents say sysfs thresholds tune the classifier. They are separate variables in the code, so
  nothing here lets them affect dispatch.
- The documents give a 100 microsecond tick; the code arms 100 milliseconds. Only ticks are modelled.
- A negative client priority wraps when masked and can arrive as 7; `KernelReadsPayload` has the rule.
- The standard idle hint carries priority 3. That is too low to relax tRCD, tCL or tRP; of the four
  timings only tRAS moves, to 53.
- Module load ignores the result of the sysfs registration, so an unload may remove groups that were
  never there; `StrayRemovalsIff` says when.

## Model

| member | source | states |
|---|---|---|
| CTypes.TruncDivCharacterised | kernel/mem_hint.c:143 | the scaling division truncates toward zero: its quotient is the only one whose remainder is smaller than the divisor and never of opposite sign |
| Bits.MaskIsMod | userspace/python/mem_hint/client.py:71-75 | masking with the low k bits is reduction modulo 2^k for every integer, negative ones included |
| HintWord.EncodeHint | kernel/mem_hint.c:52-69 | the accumulated shifts, masks and ORs give the positional sum of the five fields |
| HintWord.OrField | kernel/mem_hint.c:59-65 | each field is ORed in where no bit is set yet, so the OR is an addition |
| HintWord.WordRoundTrip | kernel/mem_hint.c:52-69 | the word has a field-by-field inverse, both ways, losing only the reserved byte |
| HintWord.WordInjective | kernel/mem_hint.c:52-69 | two hints share a word exactly when they agree on everything but the reserved byte |
| HintWord.MmioWordKeeps | kernel/mem_hint.c:179-181 | the 32-bit MMIO write identifies two hints exactly when phase, latency and bandwidth modulo 256 agree |
| HintWord.StructRoundTrip | kernel/mem_hint.h:42-49 | packing and parsing the struct are inverse to each other |
| HintWord.StructIsWord | kernel/mem_hint.h:42-49 | the packed struct read as one little-endian number is the encoded word with the reserved byte on top |
| PhyPolicy.PhaseToPhyConfig | kernel/mem_hint.c:73-156 | the table lookup and rescaling give the scaled phase target for any phase byte and any priority |
| PhyPolicy.ProposedAsks | kernel/mem_hint.c:82-155 | the configuration of each phase in plain numbers: each timing on the way from 22 or 52 to the phase's own value, and the phase's signalling at any priority |
| PhyPolicy.ScalingCharacterised | kernel/mem_hint.c:143-153 | for any nominal, target and priority the scaled value is the one less than a clock short of the exact interpolation without overshoot; the 8-bit cast never wraps |
| PhyPolicy.ScalingEndpoints | kernel/mem_hint.c:138-153 | exact at priorities 0 and 7, always between nominal and target |
| PhyPolicy.ScalingMonotoneInPriority | kernel/mem_hint.c:138-153 | raising the priority never moves a value away from its target |
| PhyPolicy.ScalingMonotoneInTarget | kernel/mem_hint.c:143-153 | at one priority a higher target never gives a lower value |
| PhyPolicy.ScalingSymmetric | kernel/mem_hint.c:143-153 | equal deviations above and below nominal are adjusted equally |
| PhyPolicy.AggressivenessOrder | kernel/mem_hint.c:90-155 | at every priority decode = backward <= agentic <= prefill = forward <= idle on tRCD, tCL and tRP |
| PhyPolicy.PriorityNeeded | kernel/mem_hint.c:101-132 | tRCD, tCL and tRP leave nominal exactly from priority 2 (decode, backward) or 4 (agentic, idle), and tRAS exactly from priority 1 or 2 |
| SafetyLimiter.SafetyClamp | kernel/mem_hint_safety.c:26-59 | under either expansion of clamp_t, every field of the result in plain numbers: the nearest value in range, one clock more above 100 correctable errors on tRCD and tCL, at least 22 when secure, the rest unchanged |
| SafetyLimiter.LimitedFollows | kernel/mem_hint_safety.c:26-59 | the limiter's result in plain numbers, for any limits in order or not |
| SafetyLimiter.WithinBoundsIff | kernel/mem_hint_safety.c:33-56 | one timing stays within ordered bounds for every proposal exactly when the floor fits and the ECC wrap is harmless |
| SafetyLimiter.LimitedWithinIff | kernel/mem_hint_safety.c:26-59 | every proposal ends within limits exactly when the limits are ordered and safe for the ECC reading and security level |
| SafetyLimiter.AlwaysWithinLimitsIff | kernel/mem_hint_safety.c:26-59 | every proposal ends within limits under every ECC reading and security level exactly when the limits are ordered, all timing maxima reach the floor, and a maximum of 255 on tRCD or tCL goes with a minimum of 0 |
| SafetyLimiter.PhaseConfigWithinIff | kernel/mem_hint.c:166-168 | what the driver applies for any phase byte and priority lies within limits exactly when the limits are ordered, the floor fits under all maxima of a secure hint, and no minimum of 255 meets ECC pressure |
| SafetyLimiter.EccStepWraps | kernel/mem_hint_safety.c:43-44 | the ECC step takes a timing below its minimum exactly when the maximum is 255, the proposal or the minimum is 255 too, and the minimum excludes the wrapped value |
| SafetyLimiter.SecurityFloorHolds | kernel/mem_hint_safety.c:51-56 | a hint with security above 0 gets all three timings at 22 or more, under any limits |
| SafetyLimiter.ClampFormsAgree | kernel/mem_hint_safety.c:33-37 | the two expansions of clamp_t agree on all values exactly when the bounds are ordered |
| SafetyLimiter.TimingMonotoneIff | kernel/mem_hint_safety.c:33-56 | the limiter preserves order for every pair of values exactly when the wrap cannot hit only one of them and, for bounds out of order under the conditional expansion, the ECC step or the floor evens them out |
| SafetyLimiter.LimitedAggressivenessOrder | kernel/mem_hint_safety.c:33-56 | the order of the phases survives the limiter at every priority: always under the min-of-max expansion or ordered limits, and for limits out of order under the conditional one exactly when no timing has a maximum above 18 and up to 24 that neither the ECC step nor the floor evens out |
| SafetyLimiter.IteratedUnderEcc | kernel/mem_hint_safety.c:42-56 | closed form of k passes over one timing under ECC pressure with a maximum below 255, with and without the security floor, for ordered bounds and, under the min-of-max expansion, any |
| SafetyLimiter.IteratedAtEightBitMaximum | kernel/mem_hint_safety.c:42-56 | closed form at a maximum of 255: the passes go round a cycle through the value the wrap leaves |
| SafetyLimiter.IteratedClosedForm | kernel/mem_hint_safety.c:26-59 | k passes of safety_clamp over a whole configuration in closed form, for any limits, ECC reading and security level, under either expansion of clamp_t; without pressure the nearest value in range |
| SafetyLimiter.RelaxationSettlesIff | kernel/mem_hint_safety.c:42-44 | repeated passes settle at the maximum within a bounded number of passes exactly when it is below 255 |
| SafetyLimiter.QuietPassIdempotentIff | kernel/mem_hint_safety.c:33-56 | without ECC pressure a second pass changes nothing, for bounds out of order under the conditional expansion exactly when every field starts at or above its maximum or is lifted by the floor |
| SafetyLimiter.EccRelaxes | kernel/mem_hint_safety.c:39-44 | ECC pressure never tightens a timing, exactly unless the step wraps or caps a minimum that lies above the maximum under the conditional expansion |
| PmuClassifier.ClassifyPhase | kernel/mem_hint_pmu.c:77-100 | each phase is returned exactly when its condition on the fields holds and those of higher rank do not, and the previous phase exactly when none holds, despite the wrapping arithmetic |
| PmuClassifier.TickClassifies | kernel/mem_hint_pmu.c:72-100 | after any stream, one more tick leaves the timer at the phase its sample and thresholds classify, field by field |
| PmuClassifier.DoublingNeverMatters | kernel/mem_hint_pmu.c:85-87 | the 64-bit wrap of the doubled write bandwidth never changes the decode rule |
| PmuClassifier.PrefillDecodeDisjoint | kernel/mem_hint_pmu.c:79-88 | the first two rules never both fire, so their order is immaterial |
| PmuClassifier.PhaseToHint | kernel/mem_hint_pmu.c:104-138 | the filled-in struct in plain numbers: the phase's latency and bandwidth with priority 5, and priority 3 without targets for idle and unknown phases |
| PmuClassifier.LatestDecisiveIff | kernel/mem_hint_pmu.c:98-99 | hysteresis in index form: the phase of the last sample that fired a rule |
| PmuClassifier.TimerRefinesHysteresis | kernel/mem_hint_pmu.c:142-155 | for every stream the timer holds the latest decisive phase and has applied exactly the classified stream without consecutive repeats |
| PmuClassifier.TimerApplies | kernel/mem_hint_pmu.c:142-155 | the applies never repeat a phase, end at the held one, and never ask for a training phase |
| Driver.MemHintDriver.constructor | kernel/mem_hint.c:23-31 | the module starts idle on channel 0 with nothing dispatched or applied |
| Driver.MemHintDriver.Apply | kernel/mem_hint.c:160-199 | one apply clamps, encodes, routes by channel and stores the phase |
| Driver.MemHintDriver.WriteHint | kernel/mem_hint.c:212-237 | eight bytes consumed, -EFAULT for a faulting copy, -EINVAL for a short buffer or a phase outside 1..6; the priority is capped and a rejected write changes nothing |
| Driver.MemHintDriver.PmuTimerCallback | kernel/mem_hint_pmu.c:142-155 | a tick applies and records a phase only when the classification changes |
| Driver.RunShowsLatestApply | kernel/mem_hint.c:193-237 | after any run the shown phase is that of the latest apply read off the events, and the PMU's phase is its latest decisive one, untouched by writes |
| Driver.DivergenceIsExplicit | kernel/mem_hint_pmu.c:142-151 | the shown phase departs from the PMU's exactly when the latest apply is an explicit one of another phase; a training phase on show is explicit |
| Driver.ExplicitPhaseHeldIff | kernel/mem_hint_pmu.c:142-151 | a phase stays on show through any stretch without accepted writes exactly when no tick in it decides on a phase new to the PMU and different from it |
| Driver.ShownAfterQuietStretch | kernel/mem_hint_pmu.c:142-151 | such a stretch leaves the phase it found when no tick changes the PMU's mind, and otherwise the PMU's phase |
| Driver.ShownSinceLastWrite | kernel/mem_hint.c:193-237 | after any run the last accepted write's phase is shown exactly until a later tick changes the PMU's mind, and the PMU's phase from then on |
| Driver.RunIsSafe | kernel/mem_hint.c:160-199 | every dispatched word decodes to an accepted hint with a zero top byte; every applied configuration is the one its own phase and priority ask for, limited under its ECC reading, meets its floor, and lies within limits exactly when the limits allow it |
| Driver.WriteWithinLimitsIff | kernel/mem_hint.c:212-237 | an accepted write of any valid phase and priority applies a configuration within the limits exactly when they allow for its security level and the ECC reading |
| Driver.ThreeWaysOut | kernel/mem_hint.c:166-168 | one accepted write out of limits for each cause: a maximum below its minimum, a secure hint under a maximum below 22, ECC pressure at a minimum of 255 |
| Driver.ShippedLimitsAlwaysHold | kernel/mem_hint.c:25-30 | under the shipped limits no run applies a configuration outside them, and without errors or security each is exactly what its phase asks for |
| Driver.RoutedWordSafe | kernel/mem_hint.c:171-191 | an emitting channel receives exactly one word, whose low byte is the phase, also after MMIO truncation |
| RunRecord.WriteRecorded | kernel/mem_hint.c:160-237 | after any run a write is accepted exactly with eight readable bytes and a first byte in 1..6; then its bytes are the hint and the word, sent on the channel chosen last and limited under the ECC reading reported last; otherwise nothing changes |
| RunRecord.TickRecorded | kernel/mem_hint_pmu.c:142-155 | after any run a tick leaves the PMU at the phase its fields classify, and applies that phase's own hint, on the channel chosen last, exactly if it is new to the PMU |
| RunRecord.SettingRecorded | kernel/mem_hint.c:23-31 | a channel change or ECC reading changes that and nothing else |
| ApplyRace.EveryInterleaving | kernel/mem_hint.c:160-237 | over all interleavings of writers and timer: the shown phase is valid and last stored; each actor's applies are stored whole and in order, and its words on the wire are theirs, each by the channel it read; each actor applies what its own accepted frames or ticks call for; words and configurations are safe |
| ApplyRace.QuiescentPhase | kernel/mem_hint.c:193 | at rest the shown phase is some actor's most recent apply |
| ApplyRace.NothingLostOnTheWire | kernel/mem_hint.c:171-193 | on emitting channels, at every point each actor has put one word on the wire for each apply it has begun but the one in hand, in its own order and encoding that apply's whole hint |
| ApplyRace.FramesReachTheWire | kernel/mem_hint.c:171-237 | at rest a writer's accepted frames and its words on the wire match one for one, each word encoding the hint of its frame |
| RaceRecord.WordsGoWhereChosen | kernel/mem_hint.c:171-191 | over all interleavings apply i of an actor puts its word, whole or halved, on the channel last chosen when the actor read it, and nothing else of the actor is sent |
| RaceRecord.ReadingsInForce | kernel/mem_hint.c:166-168 | over all interleavings each apply is limited under the ECC reading last reported when it began |
| RaceRecord.WritersApplyTheirFrames | kernel/mem_hint.c:212-237 | over all interleavings apply i of a writer carries the bytes of the frame that began it, as hint and as word |
| RaceRecord.TimerAppliesItsHints | kernel/mem_hint_pmu.c:104-138 | over all interleavings each apply of the timer carries the phase's own hint, as hint and as word |
| RaceRecord.TimerFollowsItsTicks | kernel/mem_hint_pmu.c:142-155 | over all interleavings the timer holds or carries out what the ticks it has taken decide on, and begins that stream without repeats |
| RaceRecord.LogsOnlyGrow | kernel/mem_hint.c:160-199 | nothing dispatched, applied or begun is ever rewritten |
| RaceRecord.NoOneWaits | kernel/mem_hint.c:160-199 | no apply waits for another, and only its own actor moves it |
| ApplyRace.OneWriterAtRest | kernel/mem_hint.c:193 | with a single writer racing the timer, at rest the shown phase is the PMU's own if the timer stored last, and that of the writer's last accepted frame otherwise |
| ApplyRace.SerialSuffixAgreesIff | kernel/mem_hint.c:171-193 | recovery: from any reachable state at rest, if applies stop overlapping, word and shown phase agree at the next rest exactly when an apply has finished since or they agreed before |
| ApplyRace.SerialRunsAgree | kernel/mem_hint.c:171-193 | if no two applies overlap, at rest the last word's low byte is the shown phase |
| ApplyRace.AgreementAtRestIff | kernel/mem_hint.c:171-193 | with overlap, they agree at rest exactly when the last to dispatch and the last to store applied the same phase last |
| ApplyRace.OverlapBreaksAgreement | kernel/mem_hint.c:171-193 | for any two different phases an overlapping run leaves hardware with one and the status file with the other |
| ApplyRace.SequentialIsASchedule | kernel/mem_hint.c:160-237 | every sequential run is the concurrent machine under the schedule that never interrupts an apply |
| PythonClient.PayloadIsStruct | userspace/python/mem_hint/client.py:69-77 | for all integers the payload is the kernel's packed struct of the arguments reduced modulo their fields |
| PythonClient.PayloadBytes | userspace/python/mem_hint/client.py:69-77 | the eight bytes of a payload, each from its argument alone, for all integers |
| PythonClient.KernelReadsPayload | userspace/python/mem_hint/client.py:66-87 | the driver accepts exactly phases 1..6 modulo 256, and encodes the frame itself exactly unless a negative priority wrapped into 8..255 |
| PythonClient.MemHintClient.Create | userspace/python/mem_hint/client.py:38-53 | construction opens the device unless dry-run is asked for; no client results when the open raises |
| PythonClient.MemHintClient.Open | userspace/python/mem_hint/client.py:45-53 | opens at most once, latches dry-run when the device is missing, propagates a failed open |
| PythonClient.MemHintClient.Close | userspace/python/mem_hint/client.py:55-58 | closes a held descriptor once, leaves none behind when it returns, raises exactly when the close fails |
| PythonClient.MemHintClient.Send | userspace/python/mem_hint/client.py:66-87 | writes one payload on a live descriptor, opening it first if needed, and nothing in dry-run |
| PythonClient.ClientRunInvariant | userspace/python/mem_hint/client.py:38-87 | over any calls opens minus closes is 1 with a descriptor and 0 without, a descriptor excludes dry-run, frames have eight bytes |
| PythonClient.ConstructionRecorded | userspace/python/mem_hint/client.py:38-53 | a client starts with a descriptor exactly if not dry and the device opens, and dry exactly if asked to or the device is missing |
| PythonClient.CloseRecorded | userspace/python/mem_hint/client.py:55-58 | after any calls a close that succeeds leaves no descriptor and as many closes as opens, and a later live send opens again |
| PythonClient.SendRecorded | userspace/python/mem_hint/client.py:66-87 | after any calls, what one more send does to descriptor, dry-run, counters and written bytes, and exactly when it raises |
| PythonClient.DryRunLatched | userspace/python/mem_hint/client.py:45-52 | once in dry-run no sequence of calls changes anything |
| PythonClient.SendDeliversIff | userspace/python/mem_hint/client.py:78-87 | a send writes its frame exactly when it returns and leaves the client live |
| Scheduler.MemHintScheduler.OnPrefillStart | userspace/python/mem_hint/scheduler.py:42-47 | sends the prefill frame with the capped default priority and remembers the phase only on success |
| Scheduler.MemHintScheduler.OnDecodeStart | userspace/python/mem_hint/scheduler.py:49-54 | sends the decode frame with the default priority and remembers the phase only on success |
| Scheduler.MemHintScheduler.OnToolCall | userspace/python/mem_hint/scheduler.py:56-60 | sends the agentic frame and remembers the phase only on success |
| Scheduler.MemHintScheduler.OnIdle | userspace/python/mem_hint/scheduler.py:62-66 | sends the idle frame and remembers the phase only on success |
| Scheduler.MemHintScheduler.OnForwardPass | userspace/python/mem_hint/scheduler.py:68-72 | sends the forward frame and remembers the phase only on success |
| Scheduler.MemHintScheduler.OnBackwardPass | userspace/python/mem_hint/scheduler.py:74-78 | sends the backward frame and remembers the phase only on success |
| Scheduler.UndisturbedCall | userspace/python/mem_hint/scheduler.py:38-78 | a call run without interruption has the effect proved of the methods: the client's send, and the phase remembered only on success |
| Scheduler.FramesHaveCallBytes | userspace/python/mem_hint/scheduler.py:42-78 | the frame of each of the six calls, byte by byte |
| Scheduler.ThreadsSendTheirCalls | userspace/python/mem_hint/scheduler.py:38-40 | over all interleavings a thread is inside the call it entered last, and its sends on record are exactly its calls whose send returned |
| Scheduler.EveryInterleaving | userspace/python/mem_hint/scheduler.py:36-82 | over all interleavings sends never overlap, each thread's sends are its finished calls in order, the remembered phase is the last finished one, and a live client wrote exactly those frames |
| Scheduler.FailedSendReleases | userspace/python/mem_hint/scheduler.py:38-40 | a send that raises and its release free the lock for any waiter, none of whom could take it in between, write no frame, and change no phase, history or other thread |
| Scheduler.SomeoneCanStep | userspace/python/mem_hint/scheduler.py:38-40 | no deadlock: while a thread is inside a call some thread can step |
| Scheduler.QuiescentPhase | userspace/python/mem_hint/scheduler.py:80-82 | at rest the remembered phase is some thread's latest successful call |
| Scheduler.SerialSuffixAgreesIff | userspace/python/mem_hint/scheduler.py:42-78 | recovery: from any state at rest, if calls stop overlapping, the remembered phase is that of the last send at the next rest exactly when a call has succeeded since or it was before |
| Scheduler.SerialCallsAgree | userspace/python/mem_hint/scheduler.py:42-78 | if calls never overlap, at rest the remembered phase is that of the last send |
| Scheduler.AgreementAtRestIff | userspace/python/mem_hint/scheduler.py:42-78 | with overlap, they agree at rest exactly when the last sender and the last to remember made calls of the same phase last |
| Scheduler.OverlapBreaksAgreement | userspace/python/mem_hint/scheduler.py:42-78 | overlapping calls can leave any one phase remembered after a send of any other |
| ClientLibrary.MemHintSend | userspace/lib/mem_hint.c:59-75 | success exactly for a valid descriptor, hint and phase with a full write; each failure has its code, and an invalid hint is never written |
| ClientLibrary.MemHintSendPhase | userspace/lib/mem_hint.c:21-35 | the zeroed and filled struct is what is written |
| ClientLibrary.LibraryAndDriverAgree | userspace/lib/mem_hint.c:63-68 | the library's check accepts exactly what the driver accepts, and the hint arrives with its priority capped |
| ClientLibrary.MemHintSetPolicy | userspace/lib/mem_hint.c:136-163 | the decimal line is written exactly when the path fits and the file takes it; the first failure decides the error |
| ClientLibrary.SetPolicyAcceptedIff | userspace/lib/mem_hint.c:152 | the written line is accepted by the policy file exactly for in-range values |
| ClientLibrary.SetPolicyTakesEffectIff | userspace/lib/mem_hint.c:136-163 | with the kernel's rejection surfacing as the close error, the call returns 0 exactly when path, open and print succeed and the value is in range; then the setting is the value, and otherwise no setting changes |
| NumberText.UnsignedRoundTrip | kernel/mem_hint_sysfs.c:41-53 | a printed decimal parses back exactly when it fits 64 bits |
| NumberText.SignedRoundTrip | kernel/mem_hint_sysfs.c:122-134 | a printed signed decimal parses back exactly when it fits a signed 64-bit word |
| NumberText.KstrtoulIff | kernel/mem_hint_sysfs.c:49-50 | the texts taken are exactly the decimal, octal and hexadecimal literals of 64-bit values, with an optional plus sign and one optional newline |
| NumberText.KstrtolIff | kernel/mem_hint_sysfs.c:130-131 | the same for signed values, with a minus sign too |
| Sysfs.Settings.Store | kernel/mem_hint_sysfs.c:43-297 | a write sets the narrowed value or fails with no change; every variable follows its latest accepted write |
| Sysfs.Settings.Show | kernel/mem_hint_sysfs.c:37-285 | a show gives the decimal line of the current setting |
| Sysfs.AcceptedIff | kernel/mem_hint_sysfs.c:43-297 | a text is accepted as a value exactly if it is a literal of that value and the file permits the value |
| Sysfs.SettingsStayInRange | kernel/mem_hint_sysfs.c:43-297 | every variable stays in its declared range over all sequences of text writes |
| Sysfs.PrintedAcceptedIff | kernel/mem_hint_sysfs.c:43-297 | a printed integer, with or without newline, is accepted exactly when it is in range |
| Sysfs.ShowThenStore | kernel/mem_hint_sysfs.c:36-297 | writing back what a file shows is accepted and changes no setting, the signed gain included |
| PhaseMonitor.TrimNl | userspace/examples/phase_monitor.c:39-47 | the in-place loop leaves the trimmed string and changes no other byte |
| PhaseMonitor.TrimmedIff | userspace/examples/phase_monitor.c:39-47 | trimming returns the longest prefix that does not end in CR or LF |
| PhaseMonitor.TrimmedIdempotent | userspace/examples/phase_monitor.c:39-47 | trimming twice is trimming once |
| PhaseMonitor.PhaseLineReadBack | userspace/python/mem_hint/client.py:107-128 | the monitor and the Python client recover any 64-bit value of the status line |
| PhaseMonitor.MonitorNamesPhase | userspace/examples/phase_monitor.c:49-67 | each valid phase is shown under its own, distinct name |
| PhaseMonitor.PhaseLines | kernel/mem_hint_sysfs.c:301-306 | the status lines of the six phases, character by character |
| PhaseMonitor.NamesInFull | userspace/examples/phase_monitor.c:49-67 | the name the monitor gives to every 64-bit value the file can show |
| PhaseMonitor.NoStatus | userspace/python/mem_hint/client.py:107-128 | an unreadable status reads as phase 0 and as UNKNOWN |
| ModuleLifecycle.KernelModule.SysfsInit | kernel/mem_hint_sysfs.c:411-433 | registers all three groups or none, one at a time, and leaves what was registered before untouched |
| ModuleLifecycle.KernelModule.Init | kernel/mem_hint.c:247-292 | a failed load takes back exactly what it registered; a successful one adds exactly what the kernel granted |
| ModuleLifecycle.KernelModule.Exit | kernel/mem_hint.c:294-305 | unregisters in the driver's order, the groups and platform device only if the latter exists; after any successful load nothing is left registered |
| ModuleLifecycle.KernelModule.Replay | kernel/mem_hint.c:247-308 | running the entry points through any sequence of loads and unloads keeps the registry that the sequence determines: nothing held when unloaded, no removal out of order |
| ModuleLifecycle.SysfsInitEffect | kernel/mem_hint_sysfs.c:411-433 | the single registrations and rollbacks add all three groups or nothing, for any prior registry |
| ModuleLifecycle.InitEffect | kernel/mem_hint.c:247-292 | the single registrations and rollbacks add exactly the granted resources, nothing on failure, for any prior registry |
| ModuleLifecycle.ExitEffect | kernel/mem_hint.c:294-305 | an unload takes a load's registrations back in reverse order and attempts three vain removals exactly after a load that was refused a group |
| ModuleLifecycle.NothingLeaks | kernel/mem_hint.c:247-305 | over all loads and unloads with any failures, an unloaded module holds nothing, a loaded one exactly what its load was granted, and nothing was ever removed before something registered after it |
| ModuleLifecycle.StrayRemovalsIff | kernel/mem_hint.c:284-297 | an unload removes groups never registered exactly when the platform device was granted and a group was refused |
| EndToEnd.SendReachesDriver | userspace/python/mem_hint/client.py:66-87 | a client send of a phase valid modulo 256 becomes the shown phase, the word of its arguments on whichever channel is chosen, and the right name and number on both readers; any other send changes nothing |
| EndToEnd.CallsAreAccepted | userspace/python/mem_hint/scheduler.py:42-78 | every scheduler call is accepted with the classifier's own targets, and its priority arrives by a stated rule |
| EndToEnd.StandardIdleMovesOnlyTRAS | userspace/python/mem_hint/scheduler.py:62-66 | the standard idle hint of scheduler and classifier leaves tRCD, tCL and tRP at nominal and moves tRAS to 53 |
| EndToEnd.SchedulerDrivesDriver | userspace/python/mem_hint/scheduler.py:36-82 | after any interleaving of threads, with ticks, channel changes, ECC readings and rejected writes anywhere between the frames, the driver shows the last sent phase exactly until a later tick changes the PMU's mind, and the PMU's phase from then on; at rest the scheduler remembers the last sent phase if calls never overlapped |
| EndToEnd.TickDisplacesCall | kernel/mem_hint_pmu.c:142-151 | one busy tick after any scheduler call leaves PREFILL on show |
| EndToEnd.SchedulerRacesTimer | kernel/mem_hint.c:160-199 | with scheduler writes and timer racing inside the driver, at rest the shown phase is the PMU's own if the timer stored last, and that of the last send otherwise |
| EndToEnd.MonitorShowsLatestApply | userspace/examples/phase_monitor.c:84-101 | after any driver run the monitor names the latest applied phase and Python reads its number |
| EndToEnd.SysfsDefaultsMirrorDriver | kernel/mem_hint_sysfs.c:17-32 | the sysfs ranges and defaults equal the limits, phase table and classifier parameters they mirror |

## Left out

- Hardware effects: MSR, MMIO and CXL writes are suppressed or stubbed in the source and appear only as an abstract log.
- The constant PMU sample: replaced by arbitrary samples.
- Timer timing, capability checks, kernel version branches and log text.
- The limiter's self-test vectors and the CLI, demo, hook and drawing code.
- Sysfs.Settings.Store: the thirteen static variables are one map and the thirteen store functions one method with a table of ranges; text is the string before the first NUL.
- Sysfs.Settings.Show: sysfs buffer sizes are not modelled.
- ApplyRace.EveryInterleaving: each read or write of a shared variable is one indivisible step in a sequentially consistent memory; `platform_limits` does not change during a run.
- ApplyRace.SerialRunsAgree: absence of overlap is sufficient, not necessary; `AgreementAtRestIff` is the exact condition at rest, and `SerialSuffixAgreesIff` needs no overlap only since some rest.
- EndToEnd.SchedulerDrivesDriver: no other process has a write accepted, and applies take turns; `SchedulerRacesTimer` drops the second assumption.
- Scheduler.EveryInterleaving: a client call is one step, which the lock justifies; the close on leaving the context manager is not interleaved with other threads.
- Scheduler.SerialCallsAgree: absence of overlap is sufficient, not necessary; `AgreementAtRestIff` is the exact condition at rest, and `SerialSuffixAgreesIff` needs no overlap only since some rest.
- ModuleLifecycle.KernelModule.Init: arming the timer does not fail, and the module's own references are one flag for the platform device.
- PhaseMonitor.PhaseLineReadBack: `int(text, 0)` covers unsigned decimal and hexadecimal literals, without signs, underscores, octal or binary prefixes; `strip` knows ASCII white space.
- PythonClient.MemHintClient.Send: short writes are not modelled, since the driver consumes all eight bytes or fails.
- The C library's read of status files, and the Python client's file errors around sysfs.
