/** Theorems across the layers: from a scheduler call or a client send, through the device frame and
    the driver, to the phase the monitor shows. */
module EndToEnd {
  import opened CTypes
  import opened HintWord
  import opened PhyPolicy
  import opened SafetyLimiter
  import opened PmuClassifier
  import opened Driver
  import opened RunRecord
  import opened History
  import opened PythonClient
  import opened PhaseMonitor
  import ApplyRace
  import Scheduler
  import Sysfs

  // ---- One send ----

  /** A client send whose phase is valid modulo 256 becomes the driver's phase, whatever the channel;
      is handed to the channel as the word of the hint that was sent; and is shown by both readers. Any
      other send changes nothing. */
  lemma SendReachesDriver(pl: Platform, s: State,
                          phaseId: int, latencyNs: int, bwGbps: int, security: int, priority: int)
    ensures var t := Step(pl, s, Write(Payload(phaseId, latencyNs, bwGbps, security, priority), false));
            if 1 <= phaseId % 0x100 <= 6
            then
              && t.currentPhase == phaseId % 0x100
              && (exists sent :: t.dispatched == s.dispatched + sent
                    && HandedOver(s.channel, pl.mmioMapped,
                                  ArgumentWord(phaseId, latencyNs, bwGbps, security, priority), sent))
              && PhaseName(Trimmed(PhaseLine(t.currentPhase))) == NameOf(phaseId % 0x100)
              && PythonCurrentPhase(PhaseLine(t.currentPhase)) == phaseId % 0x100
            else t == s
  {
    var frame := Payload(phaseId, latencyNs, bwGbps, security, priority);
    KernelReadsPayload(phaseId, latencyNs, bwGbps, security, priority);
    if 1 <= phaseId % 0x100 <= 6 {
      var h := Validate(frame, false).hint;
      ArrivingPriorityIs(priority);
      RouteHandsOver(s.channel, pl.mmioMapped, WordOf(h));
      MonitorNamesPhase(h.phaseId, h.phaseId);
      PhaseLineReadBack(h.phaseId);
    }
  }

  /** The word a send's arguments become: each modulo the size of its field, and the priority at most 7
      once reduced. */
  function ArgumentWord(phaseId: int, latencyNs: int, bwGbps: int, security: int, priority: int): int
  {
    phaseId % 0x100 + 0x100 * (latencyNs % 0x1_0000) + 0x100_0000 * (bwGbps % 0x1_0000)
    + 0x100_0000_0000 * (security % 0x100)
    + 0x1_0000_0000_0000 * (if priority >= 0 then Min(priority, 7) else Min(priority % 0x100, 7))
  }

  // ---- Scheduler calls ----

  /** The priority a call requests. */
  function RequestedPriority(call: Scheduler.Call, defaultPriority: int): int
  {
    match call
    case PrefillStart | DecodeStart => defaultPriority
    case ToolCall => 5
    case Idle => 3
    case ForwardPass | BackwardPass => 7
  }

  /** Every scheduler call sends a frame the driver accepts, whatever the default priority, with the
      classifier's own targets for that phase. The priority arrives capped at 7, except that a
      negative default arrives modulo 256, capped. */
  lemma CallsAreAccepted(call: Scheduler.Call, defaultPriority: int)
    ensures var r := Validate(Scheduler.FrameFor(call, defaultPriority), false);
            var p := Scheduler.PhaseOf(call);
            var q := RequestedPriority(call, defaultPriority);
            && r.Accepted? && IsPhase(p)
            && r.hint == HintFor(p).(priority := if q >= 0 then Min(q, 7) else Min(q % 0x100, 7))
  {
    var (phase, latency, bw, priority) := Scheduler.Arguments(call, defaultPriority);
    ArrivingPriorityIs(priority);
    InRangePayload(phase, latency, bw, 0, priority);
    ArgumentsAreTargets(call, defaultPriority);
  }

  lemma ArgumentsAreTargets(call: Scheduler.Call, defaultPriority: int)
    ensures var (phase, latency, bw, priority) := Scheduler.Arguments(call, defaultPriority);
            && phase == Scheduler.PhaseOf(call) && IsPhase(phase)
            && TargetsFor(phase) == (latency, bw)
            && Min(priority, 7) == Min(RequestedPriority(call, defaultPriority), 7)
            && (priority < 0 <==> RequestedPriority(call, defaultPriority) < 0)
            && (priority < 0 ==> priority == RequestedPriority(call, defaultPriority))
  {
  }

  /** The standard idle hint, from the scheduler and from the classifier alike, carries priority 3. Of
      the four timings it proposes, tRCD, tCL and tRP stay nominal; tRAS alone moves, to 53. */
  lemma StandardIdleMovesOnlyTRAS(call: Scheduler.Call, defaultPriority: int)
    requires Scheduler.PhaseOf(call) == PHASE_IDLE
    ensures var r := Validate(Scheduler.FrameFor(call, defaultPriority), false);
            r.Accepted? && r.hint.phaseId == PHASE_IDLE && MovesOnlyTRAS(r.hint) && MovesOnlyTRAS(HintFor(PHASE_IDLE))
  {
    var r := Validate(Scheduler.FrameFor(call, defaultPriority), false);
    CallsAreAccepted(call, defaultPriority);
    PriorityThree(r.hint);
    PriorityThree(HintFor(PHASE_IDLE));
  }

  lemma PriorityThree(h: WorkloadHint)
    requires h.phaseId == PHASE_IDLE && h.priority == 3
    ensures MovesOnlyTRAS(h)
  {
    PriorityNeeded(h.phaseId, h.priority);
    ThreeSevenths(NOMINAL.tRAS, Target(h.phaseId).tRAS, h.priority);
  }

  lemma ThreeSevenths(nominal: uint8, target: uint8, priority: uint8)
    requires priority == 3 && target == nominal + 4
    ensures Scaled(nominal, target, priority) == nominal + 1
  {
    ScalingCharacterised(nominal, target, priority, nominal + 1);
  }

  ghost predicate MovesOnlyTRAS(h: WorkloadHint)
  {
    var p := Proposed(h.phaseId, h.priority);
    SameTimings(p, NOMINAL) && p.tRAS == 53 != NOMINAL.tRAS
  }

  // ---- Whole runs ----

  lemma CallAsksPhase(call: Scheduler.Call, dp: int, frame: seq<uint8>, p: uint8)
    requires frame == Scheduler.FrameFor(call, dp) && p == Scheduler.PhaseOf(call)
    ensures Validate(frame, false).Accepted? && Validate(frame, false).hint.phaseId == p
  {
    CallsAreAccepted(call, dp);
  }

  lemma LastFrameIsLastCall(w: Scheduler.World, dp: int, frames: seq<seq<uint8>>)
    requires frames == Scheduler.FramesOf(w.sent, dp)
    ensures frames == [] ==> Scheduler.LastSentPhase(w) == PHASE_IDLE
    ensures frames != [] ==> w.sent != [] && frames[|frames| - 1] == Scheduler.FrameFor(w.sent[|w.sent| - 1].1, dp)
                             && Scheduler.LastSentPhase(w) == Scheduler.PhaseOf(w.sent[|w.sent| - 1].1)
  {
  }

  lemma LastAsked(frames: seq<seq<uint8>>, p: uint8)
    requires if frames == [] then p == PHASE_IDLE
             else Validate(frames[|frames| - 1], false).Accepted?
                  && Validate(frames[|frames| - 1], false).hint.phaseId == p
    ensures PhaseAsked(frames) == p
  {
  }

  /** The last frame of a live client asks for the phase of the last send. */
  lemma FramesAskLastSent(w: Scheduler.World, dp: int, frames: seq<seq<uint8>>)
    requires frames == Scheduler.FramesOf(w.sent, dp)
    ensures PhaseAsked(frames) == Scheduler.LastSentPhase(w)
  {
    LastFrameIsLastCall(w, dp, frames);
    var p := Scheduler.LastSentPhase(w);
    if frames != [] {
      CallAsksPhase(w.sent[|w.sent| - 1].1, dp, frames[|frames| - 1], p);
    }
    LastAsked(frames, p);
  }

  /** Many threads, one scheduler, one driver with its timer running. The events at the driver are any
      whose accepted writes are the client's frames in order, with ticks, channel changes, ECC readings
      and rejected writes anywhere between. If the client is still live, then after any interleaving of
      the threads the driver shows the phase of the last send exactly until a later tick changes the
      PMU's mind, and the PMU's phase from then on; the last send was on show all the while exactly when
      no tick since contradicted it; and at rest the scheduler remembers the phase of the last send
      whenever calls never overlapped. */
  lemma SchedulerDrivesDriver(pl: Platform, channel: int, ecc: EccTelemetry, dp: int,
                              client: ClientState, actions: seq<Scheduler.Action>, es: seq<Event>)
    requires ClientInv(client) && client.frames == []
    requires !Scheduler.Exec(dp, Scheduler.Fresh(client), actions).client.dryRun
    requires AcceptedFrames(es) == Scheduler.Exec(dp, Scheduler.Fresh(client), actions).client.frames
    ensures var w := Scheduler.Exec(dp, Scheduler.Fresh(client), actions);
            var driver := Run(pl, Loaded(channel, ecc), es);
            var sent, since := Scheduler.LastSentPhase(w), SinceLastWrite(es);
            var pmuThen := LatestDecisive(TicksOf(UpToLastWrite(es)), PHASE_IDLE);
            && driver.currentPhase == (if PmuQuiet(since, pmuThen) then sent else driver.pmuLastPhase)
            && (HeldThroughout(pl, Run(pl, Loaded(channel, ecc), UpToLastWrite(es)), since)
                <==> NeverContradicts(since, pmuThen, sent))
            && (Scheduler.Quiescent(w) && Scheduler.NeverOverlaps(dp, Scheduler.Fresh(client), actions)
                ==> w.currentPhase == sent)
  {
    var w := Scheduler.Exec(dp, Scheduler.Fresh(client), actions);
    Scheduler.EveryInterleaving(dp, client, actions);
    FramesAskLastSent(w, dp, w.client.frames);
    ShownSinceLastWrite(pl, channel, ecc, es);
    if Scheduler.Quiescent(w) && Scheduler.NeverOverlaps(dp, Scheduler.Fresh(client), actions) {
      Scheduler.SerialCallsAgree(dp, client, actions);
    }
  }

  /** One tick is enough to displace a scheduler's call, whichever it is: writes alone do not decide
      what is shown. */
  lemma TickDisplacesCall(pl: Platform, channel: int, ecc: EccTelemetry, dp: int, call: Scheduler.Call)
    ensures var busy := Timer(Tick(PmuSample(20, 0, 0, 0, 0), DEFAULT_THRESHOLDS));
            var es := [Write(Scheduler.FrameFor(call, dp), false), busy];
            && AcceptedFrames(es) == [Scheduler.FrameFor(call, dp)]
            && Run(pl, Loaded(channel, ecc), es).currentPhase == PHASE_PREFILL
  {
    var frame := Scheduler.FrameFor(call, dp);
    CallAsksPhase(call, dp, frame, Scheduler.PhaseOf(call));
    WriteThenTick(pl, Loaded(channel, ecc), frame, Tick(PmuSample(20, 0, 0, 0, 0), DEFAULT_THRESHOLDS));
  }

  lemma WriteThenTick(pl: Platform, s: State, frame: seq<uint8>, tick: Tick)
    requires Validate(frame, false).Accepted?
    requires Decisive(tick).Some? && Decisive(tick).value != s.pmuLastPhase
    ensures AcceptedFrames([Write(frame, false), Timer(tick)]) == [frame]
    ensures Run(pl, s, [Write(frame, false), Timer(tick)]).currentPhase == Decisive(tick).value
  {
    var es, one := [Write(frame, false), Timer(tick)], [Write(frame, false)];
    assert es[..|es| - 1] == one && one[..|one| - 1] == [];
    assert AcceptedFrames(one) == AcceptedFrames([]) + [frame] && AcceptedFrames(es) == AcceptedFrames(one) + [];
    assert Run(pl, s, one) == Step(pl, s, one[0]) && Run(pl, s, es) == Step(pl, Run(pl, s, one), es[1]);
  }

  /** The same without assuming that applies take turns. When the scheduler's process is the only
      writer, its writes and the timer race inside the driver; whatever the interleaving, once every
      apply has finished the driver shows the PMU's own phase if the timer stored last, and the phase of
      the last send otherwise. */
  lemma SchedulerRacesTimer(pl: Platform, channel: int, ecc: EccTelemetry, dp: int, client: ClientState,
                            actions: seq<Scheduler.Action>, applies: seq<ApplyRace.Action>)
    requires ClientInv(client) && client.frames == []
    requires !Scheduler.Exec(dp, Scheduler.Fresh(client), actions).client.dryRun
    requires var driver := ApplyRace.Exec(pl, ApplyRace.Fresh(channel, ecc), applies);
             && ApplyRace.Quiescent(driver)
             && Only(driver.writes, 0) == Scheduler.Exec(dp, Scheduler.Fresh(client), actions).client.frames
             && forall id: nat :: id != 0 ==> Only(driver.writes, id) == []
    ensures var driver := ApplyRace.Exec(pl, ApplyRace.Fresh(channel, ecc), applies);
            driver.currentPhase
            == if ApplyRace.TimerStoredLast(driver) then driver.pmuLastPhase
               else Scheduler.LastSentPhase(Scheduler.Exec(dp, Scheduler.Fresh(client), actions))
  {
    var w := Scheduler.Exec(dp, Scheduler.Fresh(client), actions);
    Scheduler.EveryInterleaving(dp, client, actions);
    FramesAskLastSent(w, dp, w.client.frames);
    ApplyRace.AlwaysInv(pl, channel, ecc, applies);
    ApplyRace.OneWriterAtRest(pl, ApplyRace.Exec(pl, ApplyRace.Fresh(channel, ecc), applies), 0);
  }

  /** After any driver run the monitor names the phase of the latest apply, IDLE if there was none, and
      the Python client reads its number. */
  lemma MonitorShowsLatestApply(pl: Platform, channel: int, ecc: EccTelemetry, es: seq<Event>)
    ensures var line := PhaseLine(Run(pl, Loaded(channel, ecc), es).currentPhase);
            var p := if LatestApply(es).Some? then LatestApply(es).value.1.phaseId else PHASE_IDLE;
            && PhaseName(Trimmed(line)) == NameOf(p) && NameOf(p) != "UNKNOWN"
            && PythonCurrentPhase(line) == p
  {
    RunShowsLatestApply(pl, channel, ecc, es);
    RunIsSafe(pl, channel, ecc, es);
    var p := Run(pl, Loaded(channel, ecc), es).currentPhase;
    MonitorNamesPhase(p, p);
    PhaseLineReadBack(p);
  }

  /** The sysfs defaults mirror the driver they do not control: ranges match the shipped limits and
      the priority cap, policy defaults match the phase table and the classifier's priority, and
      threshold defaults match the classifier's module parameters. */
  lemma SysfsDefaultsMirrorDriver()
    ensures Sysfs.Range(Sysfs.DecodeTrcd) == (PLATFORM_DEFAULTS.minTRCD, PLATFORM_DEFAULTS.maxTRCD)
    ensures forall a :: a in {Sysfs.DecodeVswingMv, Sysfs.PrefillVswingMv, Sysfs.IdleVswingMv} ==>
              Sysfs.Range(a) == (PLATFORM_DEFAULTS.minVswingMv, PLATFORM_DEFAULTS.maxVswingMv)
    ensures forall v: int :: Sysfs.InRange(Sysfs.AgenticPriority, v) <==> 0 <= v && Min(v, 7) == v
    ensures forall v: int :: Sysfs.InRange(Sysfs.DecodeDfeTap1, v) <==> 0 <= v && Narrow8(v) == v
    ensures Sysfs.Default(Sysfs.DecodeTrcd) == Target(PHASE_DECODE).tRCD
    ensures Sysfs.Default(Sysfs.DecodeVswingMv) == Target(PHASE_DECODE).vswingMv
    ensures Sysfs.Default(Sysfs.DecodeDfeTap1) == Target(PHASE_DECODE).dfeTap[0]
    ensures Sysfs.Default(Sysfs.PrefillVswingMv) == Target(PHASE_PREFILL).vswingMv
    ensures Sysfs.Default(Sysfs.PrefillCtleGainDb) == Target(PHASE_PREFILL).ctleGainDb
    ensures Sysfs.Default(Sysfs.AgenticPriority) == HintFor(PHASE_AGENTIC).priority
    ensures Sysfs.Default(Sysfs.IdleVswingMv) == Target(PHASE_IDLE).vswingMv
    ensures DEFAULT_THRESHOLDS == Thresholds(
              Sysfs.Default(Sysfs.PrefillWrBw), Sysfs.Default(Sysfs.DecodeWrCeil),
              Sysfs.Default(Sysfs.DecodeLlcFloor), Sysfs.Default(Sysfs.AgenticVarPct),
              Sysfs.Default(Sysfs.IdleCmdFloor))
  {
  }
}
