/** The driver run sequentially: writes and timer ticks applied one after another. */
module Driver {
  import opened CTypes
  import opened HintWord
  import opened PhyPolicy
  import opened SafetyLimiter
  import opened PmuClassifier

  const CH_MSR := 0
  const CH_MMIO := 1
  const CH_CXL_DVSEC := 2

  const EINVAL := -22
  const EFAULT := -14

  datatype Dispatch = Dispatch(channel: int, word: uint64)

  /** What one apply hands to the selected hardware channel. An unmapped MMIO window and an unknown
      channel receive nothing. */
  function Route(channel: int, mmioMapped: bool, word: uint64): seq<Dispatch>
  {
    if channel == CH_MSR || channel == CH_CXL_DVSEC then [Dispatch(channel, word)]
    else if channel == CH_MMIO && mmioMapped then [Dispatch(channel, word % 0x1_0000_0000)]
    else []
  }

  predicate Emits(channel: int, mmioMapped: bool)
  {
    channel in {CH_MSR, CH_CXL_DVSEC} || (channel == CH_MMIO && mmioMapped)
  }

  /** Facts fixed for the lifetime of the module. */
  datatype Platform = Platform(limits: JedecLimits, mmioMapped: bool, clampForm: ClampForm)

  datatype Source = Explicit | Pmu

  /** One completed apply, with the clamped configuration it logs. */
  datatype Applied = Applied(source: Source, hint: WorkloadHint, ecc: EccTelemetry, clamped: PhyConfig)

  datatype State = State(
    currentPhase: uint8,
    pmuLastPhase: uint8,
    channel: int,
    ecc: EccTelemetry,
    dispatched: seq<Dispatch>,
    applied: seq<Applied>)

  function Loaded(channel: int, ecc: EccTelemetry): State
  {
    State(PHASE_IDLE, PHASE_IDLE, channel, ecc, [], [])
  }

  function ClampedFor(pl: Platform, h: WorkloadHint, ecc: EccTelemetry): PhyConfig
  {
    Limited(pl.clampForm, Proposed(h.phaseId, h.priority), pl.limits, ecc, h.securityLevel)
  }

  function ApplyHint(pl: Platform, s: State, source: Source, h: WorkloadHint): State
  {
    s.(currentPhase := h.phaseId,
       dispatched := s.dispatched + Route(s.channel, pl.mmioMapped, WordOf(h)),
       applied := s.applied + [Applied(source, h, s.ecc, ClampedFor(pl, h, s.ecc))])
  }

  datatype WriteResult = Accepted(hint: WorkloadHint) | Rejected(errno: int)

  /** The validation of a write: a short buffer and a phase outside 1..6 are invalid, a faulting
      copy is reported as such, and the priority of an accepted hint is capped at 7. */
  function Validate(buf: seq<uint8>, copyFaults: bool): WriteResult
  {
    if |buf| < HINT_SIZE then Rejected(EINVAL)
    else if copyFaults then Rejected(EFAULT)
    else if !IsPhase(buf[0]) then Rejected(EINVAL)
    else var h := ParseStruct(buf); Accepted(h.(priority := Min(h.priority, 7)))
  }

  datatype Event =
    | Write(buf: seq<uint8>, copyFaults: bool)
    | Timer(tick: Tick)
    | SetChannel(channel: int)
    | EccReading(ecc: EccTelemetry)

  function Step(pl: Platform, s: State, e: Event): State
  {
    match e
    case Write(buf, faults) =>
      var r := Validate(buf, faults);
      if r.Accepted? then ApplyHint(pl, s, Explicit, r.hint) else s
    case Timer(tick) =>
      var phase := Held(Decisive(tick), s.pmuLastPhase);
      if phase != s.pmuLastPhase then ApplyHint(pl, s, Pmu, HintFor(phase)).(pmuLastPhase := phase) else s
    case SetChannel(channel) => s.(channel := channel)
    case EccReading(ecc) => s.(ecc := ecc)
  }

  function Run(pl: Platform, s: State, es: seq<Event>): State
  {
    if es == [] then s else Step(pl, Run(pl, s, es[..|es| - 1]), es[|es| - 1])
  }

  /** The module's globals and entry points, in the form the driver has them. */
  class MemHintDriver {
    const platform: Platform
    var currentPhaseId: uint8
    var pmuLastPhase: uint8
    var activeChannel: int
    var eccState: EccTelemetry
    var dispatched: seq<Dispatch>
    var applied: seq<Applied>

    constructor (platform: Platform)
      ensures this.platform == platform
      ensures Abstract() == Loaded(0, EccTelemetry(0, 0, 0, 0))
      ensures currentPhaseId == 4 && pmuLastPhase == 4 && dispatched == [] && applied == []
    {
      this.platform := platform;
      currentPhaseId := PHASE_IDLE;
      pmuLastPhase := PHASE_IDLE;
      activeChannel := CH_MSR;
      eccState := EccTelemetry(0, 0, 0, 0);
      dispatched := [];
      applied := [];
    }

    ghost function Abstract(): State
      reads this
    {
      State(currentPhaseId, pmuLastPhase, activeChannel, eccState, dispatched, applied)
    }

    /** mem_hint_apply. */
    method Apply(source: Source, h: WorkloadHint)
      modifies this
      ensures Abstract() == ApplyHint(platform, old(Abstract()), source, h)
    {
      var config := PhaseToPhyConfig(h.phaseId, h.priority);
      var clamped := SafetyClamp(platform.clampForm, config, platform.limits, eccState, h.securityLevel);
      var encoded := EncodeHint(h);
      if activeChannel == CH_MSR {
        dispatched := dispatched + [Dispatch(CH_MSR, encoded)];
      } else if activeChannel == CH_MMIO {
        if platform.mmioMapped {
          dispatched := dispatched + [Dispatch(CH_MMIO, encoded % 0x1_0000_0000)];
        }
      } else if activeChannel == CH_CXL_DVSEC {
        dispatched := dispatched + [Dispatch(CH_CXL_DVSEC, encoded)];
      }
      currentPhaseId := h.phaseId;
      applied := applied + [Applied(source, h, eccState, clamped)];
    }

    /** mem_hint_write: returns the eight bytes consumed, or -EFAULT for a faulting copy, or -EINVAL for
        a short buffer or a phase outside 1..6. */
    method WriteHint(buf: seq<uint8>, copyFaults: bool) returns (ret: int)
      modifies this
      ensures Abstract() == Step(platform, old(Abstract()), Write(buf, copyFaults))
      ensures var r := Validate(buf, copyFaults);
              ret == if r.Accepted? then HINT_SIZE else r.errno
      ensures ret == if |buf| < 8 then -22 else if copyFaults then -14 else if 1 <= buf[0] <= 6 then 8 else -22
    {
      if |buf| < HINT_SIZE {
        return EINVAL;
      }
      if copyFaults {
        return EFAULT;
      }
      var hint := ParseStruct(buf);
      if hint.phaseId < 0x01 || hint.phaseId > 0x06 {
        return EINVAL;
      }
      hint := hint.(priority := Min(hint.priority, 7));
      Apply(Explicit, hint);
      return HINT_SIZE;
    }

    /** pmu_timer_callback. */
    method PmuTimerCallback(tick: Tick)
      modifies this
      ensures Abstract() == Step(platform, old(Abstract()), Timer(tick))
    {
      var phase := ClassifyPhase(tick.sample, tick.thresholds, pmuLastPhase);
      if phase != pmuLastPhase {
        var h := PhaseToHint(phase);
        Apply(Pmu, h);
        pmuLastPhase := phase;
      }
    }
  }

  // ---- What a run has applied, read off the events alone ----

  function TicksOf(es: seq<Event>): seq<Tick>
  {
    if es == [] then []
    else
      var e := es[|es| - 1];
      TicksOf(es[..|es| - 1]) + (if e.Timer? then [e.tick] else [])
  }

  /** The hint the last event of a sequence applies, if it applies one: an accepted write always
      does, a tick does when it decides on a phase other than the latest decisive one. */
  function AppliedByLast(es: seq<Event>): Option<(Source, WorkloadHint)>
    requires es != []
  {
    match es[|es| - 1]
    case Write(buf, faults) =>
      var r := Validate(buf, faults);
      if r.Accepted? then Some((Explicit, r.hint)) else None
    case Timer(tick) =>
      var d := Decisive(tick);
      if d.Some? && d.value != LatestDecisive(TicksOf(es[..|es| - 1]), PHASE_IDLE)
      then Some((Pmu, HintFor(d.value))) else None
    case _ => None
  }

  function LatestApply(es: seq<Event>): Option<(Source, WorkloadHint)>
  {
    if es == [] then None
    else if AppliedByLast(es).Some? then AppliedByLast(es)
    else LatestApply(es[..|es| - 1])
  }

  ghost predicate ValidHint(h: WorkloadHint) { IsPhase(h.phaseId) && h.priority <= 7 }

  /** After any run the shown phase is that of the latest apply (IDLE when there is none), whatever
      its source; and the PMU's own last phase is that of its latest decisive tick, untouched by
      any write. */
  lemma {:induction false} RunShowsLatestApply(pl: Platform, channel: int, ecc: EccTelemetry, es: seq<Event>)
    ensures var s := Run(pl, Loaded(channel, ecc), es);
            && s.currentPhase == (if LatestApply(es).Some? then LatestApply(es).value.1.phaseId else PHASE_IDLE)
            && s.pmuLastPhase == LatestDecisive(TicksOf(es), PHASE_IDLE)
  {
    if es != [] {
      RunShowsLatestApply(pl, channel, ecc, es[..|es| - 1]);
      StepShows(pl, Run(pl, Loaded(channel, ecc), es[..|es| - 1]), es);
    }
  }

  lemma StepShows(pl: Platform, s: State, es: seq<Event>)
    requires es != [] && s.pmuLastPhase == LatestDecisive(TicksOf(es[..|es| - 1]), PHASE_IDLE)
    ensures var t := Step(pl, s, es[|es| - 1]);
            && t.currentPhase == (if AppliedByLast(es).Some? then AppliedByLast(es).value.1.phaseId else s.currentPhase)
            && t.pmuLastPhase == LatestDecisive(TicksOf(es), PHASE_IDLE)
  {
    TicksAppend(es, PHASE_IDLE);
  }

  lemma TicksAppend(es: seq<Event>, initial: uint8)
    requires es != []
    ensures var n := |es| - 1;
            LatestDecisive(TicksOf(es), initial)
            == if es[n].Timer? then Held(Decisive(es[n].tick), LatestDecisive(TicksOf(es[..n]), initial))
               else LatestDecisive(TicksOf(es[..n]), initial)
  {
    var n := |es| - 1;
    if es[n].Timer? {
      assert TicksOf(es)[..|TicksOf(es)| - 1] == TicksOf(es[..n]);
    } else {
      assert TicksOf(es) == TicksOf(es[..n]);
    }
  }

  /** The shown phase departs from the PMU's last phase exactly when the latest apply is an explicit
      write of some other phase; in particular a training phase on show was written explicitly. */
  lemma {:induction false} DivergenceIsExplicit(pl: Platform, channel: int, ecc: EccTelemetry, es: seq<Event>)
    ensures var s := Run(pl, Loaded(channel, ecc), es);
            && (s.currentPhase != s.pmuLastPhase
                <==> LatestApply(es).Some? && LatestApply(es).value.0 == Explicit
                     && LatestApply(es).value.1.phaseId != s.pmuLastPhase)
            && (s.currentPhase in {PHASE_FORWARD, PHASE_BACKWARD}
                ==> LatestApply(es).Some? && LatestApply(es).value.0 == Explicit)
  {
    RunShowsLatestApply(pl, channel, ecc, es);
    PmuApplyAgrees(es);
  }

  lemma {:induction false} PmuApplyAgrees(es: seq<Event>)
    ensures var last := LatestDecisive(TicksOf(es), PHASE_IDLE);
            && last in {PHASE_PREFILL, PHASE_DECODE, PHASE_AGENTIC, PHASE_IDLE}
            && (LatestApply(es) == None ==> last == PHASE_IDLE)
            && (LatestApply(es).Some? && LatestApply(es).value.0 == Pmu ==> LatestApply(es).value.1.phaseId == last)
  {
    if es != [] {
      PmuApplyAgrees(es[..|es| - 1]);
      TicksAppend(es, PHASE_IDLE);
    }
  }

  // ---- How long an explicit phase lasts ----

  predicate WriteAccepted(e: Event) { e.Write? && Validate(e.buf, e.copyFaults).Accepted? }

  /** Ticks, channel changes, ECC readings and rejected writes in any order. */
  ghost predicate NoAcceptedWrite(es: seq<Event>) { forall i :: 0 <= i < |es| ==> !WriteAccepted(es[i]) }

  ghost predicate HeldThroughout(pl: Platform, s: State, es: seq<Event>)
  {
    forall k :: 0 <= k <= |es| ==> ShownAfter(pl, s, es, k) == s.currentPhase
  }

  ghost function ShownAfter(pl: Platform, s: State, es: seq<Event>, k: nat): uint8
    requires k <= |es|
  {
    Run(pl, s, es[..k]).currentPhase
  }

  lemma ShownAfterPrefix(pl: Platform, s: State, es: seq<Event>, k: nat)
    requires k < |es|
    ensures ShownAfter(pl, s, es[..|es| - 1], k) == ShownAfter(pl, s, es, k)
  {
    assert es[..|es| - 1][..k] == es[..k];
  }

  /** What event i decides is nothing, the PMU's latest decision, or phase p. */
  ghost predicate Agreeable(es: seq<Event>, i: nat, pmuLast: uint8, p: uint8)
    requires i < |es|
  {
    es[i].Timer? ==> Decisive(es[i].tick) in {None, Some(LatestDecisive(TicksOf(es[..i]), pmuLast)), Some(p)}
  }

  ghost predicate NeverContradicts(es: seq<Event>, pmuLast: uint8, p: uint8)
  {
    forall i :: 0 <= i < |es| ==> Agreeable(es, i, pmuLast, p)
  }

  /** An explicit hint is authoritative only until the PMU changes its mind. A phase on show stays
      there through a stretch without accepted writes exactly when no tick decides on a phase that is
      new to the PMU and different from it. */
  lemma {:induction false} ExplicitPhaseHeldIff(pl: Platform, s: State, es: seq<Event>)
    requires NoAcceptedWrite(es)
    ensures Run(pl, s, es).pmuLastPhase == LatestDecisive(TicksOf(es), s.pmuLastPhase)
    ensures HeldThroughout(pl, s, es) <==> NeverContradicts(es, s.pmuLastPhase, s.currentPhase)
  {
    if es == [] {
      assert es[..0] == [];
    } else {
      var n := |es| - 1;
      ExplicitPhaseHeldIff(pl, s, es[..n]);
      TicksAppend(es, s.pmuLastPhase);
      HeldAppend(pl, s, es);
      assert es[..|es|] == es;
      NeverContradictsAppend(es, s.pmuLastPhase, s.currentPhase);
      if HeldThroughout(pl, s, es[..n]) {
        assert es[..n][..n] == es[..n];
        assert ShownAfter(pl, s, es[..n], n) == s.currentPhase;
        EventKeepsPhaseIff(pl, Run(pl, s, es[..n]), es[n]);
      }
    }
  }

  lemma EventKeepsPhaseIff(pl: Platform, s: State, e: Event)
    requires !WriteAccepted(e)
    ensures Step(pl, s, e).currentPhase == s.currentPhase
            <==> (e.Timer? ==> Decisive(e.tick) in {None, Some(s.pmuLastPhase), Some(s.currentPhase)})
  {
  }

  lemma HeldAppend(pl: Platform, s: State, es: seq<Event>)
    requires es != []
    ensures HeldThroughout(pl, s, es)
            <==> HeldThroughout(pl, s, es[..|es| - 1]) && ShownAfter(pl, s, es, |es|) == s.currentPhase
  {
    var n := |es| - 1;
    forall k | 0 <= k <= n
      ensures ShownAfter(pl, s, es[..n], k) == ShownAfter(pl, s, es, k)
    {
      ShownAfterPrefix(pl, s, es, k);
    }
  }

  lemma NeverContradictsAppend(es: seq<Event>, pmuLast: uint8, p: uint8)
    requires es != []
    ensures NeverContradicts(es, pmuLast, p)
            <==> NeverContradicts(es[..|es| - 1], pmuLast, p) && Agreeable(es, |es| - 1, pmuLast, p)
  {
    var n := |es| - 1;
    forall i | 0 <= i < n
      ensures Agreeable(es[..n], i, pmuLast, p) <==> Agreeable(es, i, pmuLast, p)
    {
      assert es[..n][..i] == es[..i];
    }
  }

  /** No tick of a stretch changes the PMU's mind. */
  ghost predicate PmuQuiet(es: seq<Event>, pmuLast: uint8)
  {
    forall i :: 0 <= i < |es| && es[i].Timer? ==> Decisive(es[i].tick) in {None, Some(pmuLast)}
  }

  /** What a stretch without accepted writes leaves on show: the phase it found if no tick changed the
      PMU's mind, and otherwise the PMU's phase, whatever was on show before. */
  lemma {:induction false} ShownAfterQuietStretch(pl: Platform, s: State, es: seq<Event>)
    requires NoAcceptedWrite(es)
    ensures var t := Run(pl, s, es);
            && t.currentPhase == (if PmuQuiet(es, s.pmuLastPhase) then s.currentPhase else t.pmuLastPhase)
            && (PmuQuiet(es, s.pmuLastPhase) ==> t.pmuLastPhase == s.pmuLastPhase)
  {
    if es != [] {
      var n := |es| - 1;
      ShownAfterQuietStretch(pl, s, es[..n]);
      assert PmuQuiet(es, s.pmuLastPhase)
        <==> PmuQuiet(es[..n], s.pmuLastPhase)
             && (es[n].Timer? ==> Decisive(es[n].tick) in {None, Some(s.pmuLastPhase)});
    }
  }

  /** The events up to and including the last accepted write. */
  function UpToLastWrite(es: seq<Event>): (r: seq<Event>)
    ensures r <= es
  {
    if es == [] || WriteAccepted(es[|es| - 1]) then es else UpToLastWrite(es[..|es| - 1])
  }

  function SinceLastWrite(es: seq<Event>): seq<Event> { es[|UpToLastWrite(es)|..] }

  /** The split is where it says: nothing is accepted after it, and what precedes it is empty or ends
      with an accepted write. */
  lemma {:induction false} SplitAtLastWrite(es: seq<Event>)
    ensures UpToLastWrite(es) + SinceLastWrite(es) == es
    ensures NoAcceptedWrite(SinceLastWrite(es))
    ensures var upTo := UpToLastWrite(es); upTo != [] ==> WriteAccepted(upTo[|upTo| - 1])
  {
    if es != [] && !WriteAccepted(es[|es| - 1]) {
      var before := es[..|es| - 1];
      SplitAtLastWrite(before);
      assert SinceLastWrite(es) == SinceLastWrite(before) + [es[|es| - 1]];
    }
  }

  /** The frames of the accepted writes, in order. */
  function AcceptedFrames(es: seq<Event>): seq<seq<uint8>>
  {
    if es == [] then []
    else
      var e := es[|es| - 1];
      AcceptedFrames(es[..|es| - 1]) + (if WriteAccepted(e) then [e.buf] else [])
  }

  /** The phase the last of some frames asks for, IDLE when there is none. */
  function PhaseAsked(frames: seq<seq<uint8>>): uint8
  {
    if frames == [] then PHASE_IDLE
    else
      var r := Validate(frames[|frames| - 1], false);
      if r.Accepted? then r.hint.phaseId else PHASE_IDLE
  }

  lemma {:induction false} LastAcceptedFrame(es: seq<Event>)
    ensures var upTo, frames := UpToLastWrite(es), AcceptedFrames(es);
            && (upTo == [] <==> frames == [])
            && (upTo != [] ==> WriteAccepted(upTo[|upTo| - 1]) && upTo[|upTo| - 1].buf == frames[|frames| - 1])
  {
    if es != [] && !WriteAccepted(es[|es| - 1]) {
      LastAcceptedFrame(es[..|es| - 1]);
    }
  }

  lemma ShownAtLastWrite(pl: Platform, s: State, es: seq<Event>)
    requires s.currentPhase == PHASE_IDLE
    ensures Run(pl, s, UpToLastWrite(es)).currentPhase == PhaseAsked(AcceptedFrames(es))
  {
    LastAcceptedFrame(es);
  }

  /** The last accepted write against the timer: after any run the driver shows the phase that write
      asked for, IDLE if there was none, exactly until a later tick changes the PMU's mind, and the PMU's
      phase from then on; and the write's phase was on show all the while since exactly when no tick
      contradicted it. */
  lemma ShownSinceLastWrite(pl: Platform, channel: int, ecc: EccTelemetry, es: seq<Event>)
    ensures var upTo, since := UpToLastWrite(es), SinceLastWrite(es);
            var s, written := Run(pl, Loaded(channel, ecc), es), Run(pl, Loaded(channel, ecc), upTo);
            var asked, pmuThen := PhaseAsked(AcceptedFrames(es)), LatestDecisive(TicksOf(upTo), PHASE_IDLE);
            && s.currentPhase == (if PmuQuiet(since, pmuThen) then asked else s.pmuLastPhase)
            && written.currentPhase == asked
            && (HeldThroughout(pl, written, since) <==> NeverContradicts(since, pmuThen, asked))
  {
    var upTo, since := UpToLastWrite(es), SinceLastWrite(es);
    var written := Run(pl, Loaded(channel, ecc), upTo);
    SplitAtLastWrite(es);
    RunConcat(pl, Loaded(channel, ecc), upTo, since);
    ShownAtLastWrite(pl, Loaded(channel, ecc), es);
    RunShowsLatestApply(pl, channel, ecc, upTo);
    ShownAfterQuietStretch(pl, written, since);
    ExplicitPhaseHeldIff(pl, written, since);
  }

  lemma {:induction false} RunConcat(pl: Platform, s: State, x: seq<Event>, y: seq<Event>)
    ensures Run(pl, s, x + y) == Run(pl, Run(pl, s, x), y)
  {
    if y == [] {
      assert x + y == x;
    } else {
      var n := |y| - 1;
      RunConcat(pl, s, x, y[..n]);
      assert (x + y)[..|x + y| - 1] == x + y[..n];
    }
  }

  // ---- Safety of everything a run applies and dispatches ----

  /** A word as it may leave the driver: decoded, it is an accepted hint. */
  ghost predicate WordSafe(d: Dispatch)
  {
    var h := FieldsOf(d.word);
    && ValidHint(h)
    && d.word < 0x100_0000_0000_0000
    && (d.channel == CH_MMIO ==> d.word < 0x1_0000_0000)
  }

  /** The applied configuration is the one the hint's phase asks for at the hint's priority, put through
      the limiter; and that one itself where the limits leave room for every phase, no errors press and
      no security is asked for. */
  ghost predicate FollowsPhase(pl: Platform, a: Applied)
  {
    var l, h := pl.limits, a.hint;
    && (exists p :: Asks(h.phaseId, h.priority, p)
                    && FollowsLimits(a.clamped, pl.clampForm, p, l, a.ecc, h.securityLevel))
    && (a.ecc.correctableRate <= 100 && h.securityLevel == 0 && Roomy(l) ==> Asks(h.phaseId, h.priority, a.clamped))
  }

  /** Limits that contain whatever a phase can ask for. */
  ghost predicate Roomy(l: JedecLimits)
  {
    && l.minTRCD <= 18 && 24 <= l.maxTRCD && l.minTCL <= 18 && 24 <= l.maxTCL && l.minTRP <= 18 && 24 <= l.maxTRP
    && l.minVswingMv <= 240 && 300 <= l.maxVswingMv
  }

  lemma ClampedFollowsPhase(pl: Platform, source: Source, h: WorkloadHint, ecc: EccTelemetry)
    requires IsPhase(h.phaseId)
    ensures FollowsPhase(pl, Applied(source, h, ecc, ClampedFor(pl, h, ecc)))
  {
    var p := Proposed(h.phaseId, h.priority);
    ProposedAsks(h.phaseId, h.priority);
    LimitedFollows(pl.clampForm, p, pl.limits, ecc, h.securityLevel);
    ProposedRange(h.phaseId, h.priority);
    if ecc.correctableRate <= 100 && h.securityLevel == 0 && Roomy(pl.limits) {
      assert Limited(pl.clampForm, p, pl.limits, ecc, h.securityLevel) == p;
    }
  }

  ghost predicate AppliedSafe(pl: Platform, a: Applied)
  {
    && FollowsPhase(pl, a)
    && ValidHint(a.hint)
    && a.clamped == ClampedFor(pl, a.hint, a.ecc)
    && (a.hint.securityLevel > 0 ==> AboveSecurityFloor(a.clamped))
    && (WithinLimits(a.clamped, pl.limits) <==> LimitsHold(pl.limits, a.ecc, a.hint.securityLevel))
  }

  /** Every dispatched word decodes to an accepted hint; every applied configuration depends only on
      its own hint, the limits and the ECC reading of that moment, is the one its phase and priority ask
      for but for the limiter, meets the security floor its hint
      asks for, and lies within limits exactly when the limits allow it for that reading and level. */
  lemma {:induction false} RunIsSafe(pl: Platform, channel: int, ecc: EccTelemetry, es: seq<Event>)
    ensures StateSafe(pl, Run(pl, Loaded(channel, ecc), es))
  {
    if es != [] {
      var n := |es| - 1;
      RunIsSafe(pl, channel, ecc, es[..n]);
      RunShowsLatestApply(pl, channel, ecc, es[..n]);
      PmuApplyAgrees(es[..n]);
      StepIsSafe(pl, Run(pl, Loaded(channel, ecc), es[..n]), es[n]);
    }
  }

  /** With the shipped limits no run ever applies a configuration outside them, whatever the ECC
      readings and security levels along the way; and without errors pressing or security asked for,
      each is the very one its phase and priority ask for. */
  lemma ShippedLimitsAlwaysHold(mmioMapped: bool, form: ClampForm, channel: int, ecc: EccTelemetry, es: seq<Event>)
    ensures var pl := Platform(PLATFORM_DEFAULTS, mmioMapped, form);
            forall a :: a in Run(pl, Loaded(channel, ecc), es).applied ==>
              && 14 <= a.clamped.tRCD <= 32 && 14 <= a.clamped.tCL <= 36 && 14 <= a.clamped.tRP <= 32
              && 200 <= a.clamped.vswingMv <= 400
              && (a.ecc.correctableRate <= 100 && a.hint.securityLevel == 0 ==>
                    Asks(a.hint.phaseId, a.hint.priority, a.clamped))
  {
    var pl := Platform(PLATFORM_DEFAULTS, mmioMapped, form);
    RunIsSafe(pl, channel, ecc, es);
    assert forall e: EccTelemetry, level: uint8 :: LimitsHold(PLATFORM_DEFAULTS, e, level);
  }

  /** A write of any valid phase, at any priority and security level, by any writer. */
  function AnyWrite(phase: uint8, security: uint8, priority: uint8): seq<uint8>
  {
    [phase, 0, 0, 0, 0, security, priority, 0]
  }

  /** An accepted hint of a security level stays within the limits, under an ECC reading, exactly when
      the limits allow for the two. */
  lemma WriteWithinLimitsIff(pl: Platform, channel: int, ecc: EccTelemetry,
                             phase: uint8, security: uint8, priority: uint8)
    requires IsPhase(phase)
    ensures var s := Run(pl, Loaded(channel, ecc), [Write(AnyWrite(phase, security, priority), false)]);
            && |s.applied| == 1
            && (WithinLimits(s.applied[0].clamped, pl.limits) <==> LimitsHold(pl.limits, ecc, security))
  {
    var es := [Write(AnyWrite(phase, security, priority), false)];
    assert es[..0] == [];
    assert Run(pl, Loaded(channel, ecc), es) == Step(pl, Loaded(channel, ecc), es[0]);
    var h := Validate(es[0].buf, false).hint;
    PhaseConfigWithinIff(pl.clampForm, h.phaseId, h.priority, pl.limits, ecc, security);
  }

  /** The three ways out, each from the shipped limits with one entry changed and one accepted write:
      a maximum below its minimum; a secure hint under a maximum below 22; and ECC pressure with a
      minimum of 255. */
  lemma ThreeWaysOut(form: ClampForm, phase: uint8, priority: uint8)
    requires IsPhase(phase)
    ensures LeavesLimits(PLATFORM_DEFAULTS.(maxTRP := 13), form, 0, 0, phase, priority)
    ensures LeavesLimits(PLATFORM_DEFAULTS.(maxTCL := 21), form, 0, 1, phase, priority)
    ensures LeavesLimits(PLATFORM_DEFAULTS.(minTRCD := 255, maxTRCD := 255), form, 101, 0, phase, priority)
  {
    LeavesWhen(PLATFORM_DEFAULTS.(maxTRP := 13), form, 0, 0, phase, priority);
    LeavesWhen(PLATFORM_DEFAULTS.(maxTCL := 21), form, 0, 1, phase, priority);
    LeavesWhen(PLATFORM_DEFAULTS.(minTRCD := 255, maxTRCD := 255), form, 101, 0, phase, priority);
  }

  ghost predicate LeavesLimits(l: JedecLimits, form: ClampForm, errors: uint64, security: uint8,
                               phase: uint8, priority: uint8)
  {
    var s := Run(Platform(l, false, form), Loaded(CH_MSR, EccTelemetry(errors, 0, 0, 0)),
                 [Write(AnyWrite(phase, security, priority), false)]);
    exists a :: a in s.applied && !WithinLimits(a.clamped, l)
  }

  lemma LeavesWhen(l: JedecLimits, form: ClampForm, errors: uint64, security: uint8, phase: uint8, priority: uint8)
    requires IsPhase(phase) && !LimitsHold(l, EccTelemetry(errors, 0, 0, 0), security)
    ensures LeavesLimits(l, form, errors, security, phase, priority)
  {
    var pl, ecc := Platform(l, false, form), EccTelemetry(errors, 0, 0, 0);
    WriteWithinLimitsIff(pl, CH_MSR, ecc, phase, security, priority);
    var s := Run(pl, Loaded(CH_MSR, ecc), [Write(AnyWrite(phase, security, priority), false)]);
    assert s.applied[0] in s.applied;
  }

  ghost predicate StateSafe(pl: Platform, s: State)
  {
    && IsPhase(s.currentPhase)
    && (forall d :: d in s.dispatched ==> WordSafe(d))
    && (forall a :: a in s.applied ==> AppliedSafe(pl, a))
  }

  lemma StepIsSafe(pl: Platform, s: State, e: Event)
    requires StateSafe(pl, s) && IsPhase(s.pmuLastPhase)
    ensures StateSafe(pl, Step(pl, s, e))
  {
    match e
    case Write(buf, faults) =>
      var r := Validate(buf, faults);
      if r.Accepted? {
        ApplyIsSafe(pl, s, Explicit, r.hint);
      }
    case Timer(tick) =>
      var phase := Held(Decisive(tick), s.pmuLastPhase);
      ApplyIsSafe(pl, s, Pmu, HintFor(phase));
    case _ =>
  }

  lemma ApplyIsSafe(pl: Platform, s: State, source: Source, h: WorkloadHint)
    requires StateSafe(pl, s) && ValidHint(h)
    ensures StateSafe(pl, ApplyHint(pl, s, source, h))
  {
    RoutedWordSafe(s.channel, pl.mmioMapped, h);
    OperationSafe(pl, source, h, s.ecc);
  }

  /** An apply as the driver makes it: of a valid hint, with the configuration computed for it. */
  ghost predicate Genuine(pl: Platform, a: Applied)
  {
    ValidHint(a.hint) && a.clamped == ClampedFor(pl, a.hint, a.ecc)
  }

  lemma GenuineIsSafe(pl: Platform, a: Applied)
    requires Genuine(pl, a)
    ensures AppliedSafe(pl, a)
  {
    OperationSafe(pl, a.source, a.hint, a.ecc);
  }

  lemma OperationSafe(pl: Platform, source: Source, h: WorkloadHint, ecc: EccTelemetry)
    requires ValidHint(h)
    ensures AppliedSafe(pl, Applied(source, h, ecc, ClampedFor(pl, h, ecc)))
  {
    ClampedFollowsPhase(pl, source, h, ecc);
    SecurityFloorHolds(pl.clampForm, Proposed(h.phaseId, h.priority), pl.limits, ecc, h.securityLevel);
    PhaseConfigWithinIff(pl.clampForm, h.phaseId, h.priority, pl.limits, ecc, h.securityLevel);
  }

  /** A valid hint reaches any emitting channel as one safe word whose low byte is its phase. */
  lemma RoutedWordSafe(channel: int, mmioMapped: bool, h: WorkloadHint)
    requires ValidHint(h)
    ensures forall d :: d in Route(channel, mmioMapped, WordOf(h)) ==> WordSafe(d) && d.word % 0x100 == h.phaseId
    ensures |Route(channel, mmioMapped, WordOf(h))| == if Emits(channel, mmioMapped) then 1 else 0
  {
    if channel == CH_MMIO {
      MmioWord(h);
      var low := WorkloadHint(h.phaseId, h.latencyTargetNs, h.bwTargetGbps % 0x100, 0, 0, 0);
      WordDecodes(low);
    } else {
      WordDecodes(h);
    }
  }

  lemma WordDecodes(h: WorkloadHint)
    ensures FieldsOf(WordOf(h)) == h.(reserved := 0)
    ensures WordOf(h) % 0x100 == h.phaseId
  {
    FieldsFrom(WordOf(h), h, 0);
    assert FieldsOf(WordOf(h)).phaseId == WordOf(h) % 0x100;
  }
}
