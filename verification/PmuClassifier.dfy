/** The PMU path: threshold rules with hysteresis, the hint built for a classified phase, and the
    stream of applies the timer produces. */
module PmuClassifier {
  import opened CTypes
  import opened HintWord

  datatype PmuSample = PmuSample(
    writeBwGbps: uint64, readBwGbps: uint64, llcMissRate: uint64, bwVariancePct: uint64, dramCmdRate: uint64)

  /** The module parameters in force at one tick; they are writable while the driver runs. */
  datatype Thresholds = Thresholds(
    prefillWr: uint32, decodeWrCeil: uint32, decodeLlcFloor: uint32, agenticVar: uint32, idleCmd: uint32)

  const DEFAULT_THRESHOLDS: Thresholds := Thresholds(10, 1, 5000, 50, 1000)

  datatype Tick = Tick(sample: PmuSample, thresholds: Thresholds)

  // ---- One sample ----

  predicate PrefillRule(s: PmuSample, t: Thresholds)
  {
    s.writeBwGbps > t.prefillWr && s.writeBwGbps > s.readBwGbps
  }

  /** The decode rule over mathematical integers. */
  predicate DecodeRule(s: PmuSample, t: Thresholds)
  {
    s.readBwGbps > 2 * s.writeBwGbps && s.writeBwGbps < t.decodeWrCeil && s.llcMissRate > t.decodeLlcFloor
  }

  /** The decode rule as compiled: the doubled write bandwidth wraps at 64 bits. */
  predicate DecodeRule64(s: PmuSample, t: Thresholds)
  {
    s.readBwGbps > s.writeBwGbps * 2 % UINT64_SIZE
    && s.writeBwGbps < t.decodeWrCeil && s.llcMissRate > t.decodeLlcFloor
  }

  /** The phase a sample decides on, if any rule fires. */
  function Decisive(tick: Tick): (d: Option<uint8>)
    ensures d.Some? ==> d.value in {PHASE_PREFILL, PHASE_DECODE, PHASE_AGENTIC, PHASE_IDLE}
  {
    var s, t := tick.sample, tick.thresholds;
    if PrefillRule(s, t) then Some(PHASE_PREFILL)
    else if DecodeRule(s, t) then Some(PHASE_DECODE)
    else if s.bwVariancePct > t.agenticVar then Some(PHASE_AGENTIC)
    else if s.dramCmdRate < t.idleCmd then Some(PHASE_IDLE)
    else None
  }

  /** What a tick must come to, in the fields of its sample and thresholds: each phase exactly when its
      condition holds and those of higher rank do not, and the previous phase when none holds. */
  ghost predicate Classifies(s: PmuSample, t: Thresholds, prev: uint8, p: uint8)
  {
    var writing := s.writeBwGbps > t.prefillWr && s.writeBwGbps > s.readBwGbps;
    var reading := s.readBwGbps > 2 * s.writeBwGbps && s.writeBwGbps < t.decodeWrCeil
                 && s.llcMissRate > t.decodeLlcFloor;
    var bursty := s.bwVariancePct > t.agenticVar;
    var resting := s.dramCmdRate < t.idleCmd;
    var silent := !writing && !reading && !bursty && !resting;
    && (p == 1 <==> writing || (silent && prev == 1))
    && (p == 2 <==> reading || (silent && prev == 2))
    && (p == 3 <==> (bursty && !writing && !reading) || (silent && prev == 3))
    && (p == 4 <==> (resting && !bursty && !writing && !reading) || (silent && prev == 4))
    && (silent ==> p == prev)
  }

  lemma HeldClassifies(tick: Tick, prev: uint8)
    ensures Classifies(tick.sample, tick.thresholds, prev, Held(Decisive(tick), prev))
  {
  }

  function Held(d: Option<uint8>, prev: uint8): uint8
  {
    if d.Some? then d.value else prev
  }

  /** classify_phase: the rules in the driver's order, with its 64-bit arithmetic. */
  method ClassifyPhase(s: PmuSample, t: Thresholds, prev: uint8) returns (phase: uint8)
    ensures phase == Held(Decisive(Tick(s, t)), prev)
    ensures Classifies(s, t, prev, phase)
  {
    DoublingNeverMatters(s, t);
    HeldClassifies(Tick(s, t), prev);
    if s.writeBwGbps > t.prefillWr && s.writeBwGbps > s.readBwGbps {
      return PHASE_PREFILL;
    }
    if s.readBwGbps > s.writeBwGbps * 2 % UINT64_SIZE
       && s.writeBwGbps < t.decodeWrCeil && s.llcMissRate > t.decodeLlcFloor {
      return PHASE_DECODE;
    }
    if s.bwVariancePct > t.agenticVar {
      return PHASE_AGENTIC;
    }
    if s.dramCmdRate < t.idleCmd {
      return PHASE_IDLE;
    }
    return prev;
  }

  /** The 64-bit wrap of write_bw * 2 cannot change a classification: the ceiling test excludes
      every write bandwidth large enough to wrap. */
  lemma DoublingNeverMatters(s: PmuSample, t: Thresholds)
    ensures DecodeRule64(s, t) <==> DecodeRule(s, t)
  {
    if s.writeBwGbps < t.decodeWrCeil {
      assert s.writeBwGbps * 2 % UINT64_SIZE == s.writeBwGbps * 2;
    }
  }

  /** Prefill and decode never compete, so testing them in the other order decides the same. */
  lemma PrefillDecodeDisjoint(s: PmuSample, t: Thresholds)
    ensures !(PrefillRule(s, t) && DecodeRule64(s, t))
  {
    DoublingNeverMatters(s, t);
  }

  /** phase_to_hint: zeroes a hint and fills in the targets of the phase. */
  method PhaseToHint(phaseId: uint8) returns (h: WorkloadHint)
    ensures h == HintFor(phaseId)
    ensures PmuHint(phaseId, h)
  {
    HintForIs(phaseId);
    h := WorkloadHint(0, 0, 0, 0, 0, 0);
    h := h.(phaseId := phaseId);
    h := h.(priority := 5);
    if phaseId == PHASE_PREFILL || phaseId == PHASE_FORWARD {
      h := h.(latencyTargetNs := 200, bwTargetGbps := 400);
    } else if phaseId == PHASE_DECODE {
      h := h.(latencyTargetNs := 90, bwTargetGbps := 150);
    } else if phaseId == PHASE_AGENTIC {
      h := h.(latencyTargetNs := 120, bwTargetGbps := 200);
    } else if phaseId == PHASE_BACKWARD {
      h := h.(latencyTargetNs := 90, bwTargetGbps := 300);
    } else {
      h := h.(latencyTargetNs := 0, bwTargetGbps := 0, priority := 3);
    }
  }

  /** The hints of the PMU path, in plain numbers. */
  ghost predicate PmuHint(phase: uint8, h: WorkloadHint)
  {
    && (phase == 1 ==> h == WorkloadHint(1, 200, 400, 0, 5, 0))
    && (phase == 2 ==> h == WorkloadHint(2, 90, 150, 0, 5, 0))
    && (phase == 3 ==> h == WorkloadHint(3, 120, 200, 0, 5, 0))
    && (phase == 5 ==> h == WorkloadHint(5, 200, 400, 0, 5, 0))
    && (phase == 6 ==> h == WorkloadHint(6, 90, 300, 0, 5, 0))
    && (phase !in {1, 2, 3, 5, 6} ==> h == WorkloadHint(phase, 0, 0, 0, 3, 0))
  }

  lemma HintForIs(phase: uint8)
    ensures PmuHint(phase, HintFor(phase))
  {
  }

  /** The targets the classifier attaches to a phase. */
  function HintFor(phase: uint8): (h: WorkloadHint)
    ensures h.phaseId == phase && h.priority <= 7 && h.securityLevel == 0 && h.reserved == 0
  {
    var (latency, bw) := TargetsFor(phase);
    WorkloadHint(phase, latency, bw, 0,
                 if IsPhase(phase) && phase != PHASE_IDLE then 5 else 3, 0)
  }

  function TargetsFor(phase: uint8): (uint16, uint16)
  {
    if phase in {PHASE_PREFILL, PHASE_FORWARD} then (200, 400)
    else if phase == PHASE_DECODE then (90, 150)
    else if phase == PHASE_AGENTIC then (120, 200)
    else if phase == PHASE_BACKWARD then (90, 300)
    else (0, 0)
  }

  // ---- Streams of samples ----

  /** The specification of hysteresis: the phase decided by the latest sample that fired a rule,
      or the initial phase when none has. */
  function LatestDecisive(ticks: seq<Tick>, initial: uint8): uint8
  {
    if ticks == [] then initial
    else Held(Decisive(ticks[|ticks| - 1]), LatestDecisive(ticks[..|ticks| - 1], initial))
  }

  ghost predicate DecidedLastBy(ticks: seq<Tick>, i: int, p: uint8)
  {
    0 <= i < |ticks| && Decisive(ticks[i]) == Some(p)
    && forall j :: i < j < |ticks| ==> Decisive(ticks[j]) == None
  }

  /** LatestDecisive in index form. */
  lemma {:induction false} LatestDecisiveIff(ticks: seq<Tick>, initial: uint8, p: uint8)
    ensures p == LatestDecisive(ticks, initial)
            <==> (exists i :: DecidedLastBy(ticks, i, p))
                 || ((forall j :: 0 <= j < |ticks| ==> Decisive(ticks[j]) == None) && p == initial)
  {
    if ticks != [] {
      var n := |ticks| - 1;
      LatestDecisiveIff(ticks[..n], initial, p);
      if Decisive(ticks[n]) == Some(p) {
        assert DecidedLastBy(ticks, n, p);
      } else if Decisive(ticks[n]) == None {
        if i :| DecidedLastBy(ticks[..n], i, p) {
          assert DecidedLastBy(ticks, i, p);
        }
        if i :| DecidedLastBy(ticks, i, p) {
          assert DecidedLastBy(ticks[..n], i, p);
        }
        assert (forall j :: 0 <= j < |ticks| ==> Decisive(ticks[j]) == None)
           <==> (forall j :: 0 <= j < n ==> Decisive(ticks[..n][j]) == None);
      }
    }
  }

  /** The phase held after each tick. */
  function Classified(ticks: seq<Tick>, initial: uint8): (phases: seq<uint8>)
    ensures |phases| == |ticks|
  {
    seq(|ticks|, i requires 0 <= i < |ticks| => LatestDecisive(ticks[..i + 1], initial))
  }

  /** A sequence with every element removed that repeats its predecessor, the first element being
      compared with a given start. */
  function WithoutRepeats(start: uint8, phases: seq<uint8>): seq<uint8>
    decreases phases
  {
    if phases == [] then []
    else
      (if phases[0] == start then [] else [phases[0]]) + WithoutRepeats(phases[0], phases[1..])
  }

  datatype TimerState = TimerState(lastPhase: uint8, applied: seq<uint8>)

  /** One timer callback: classify against the last PMU phase, apply only on a change. */
  function TimerStep(st: TimerState, tick: Tick): TimerState
  {
    var phase := Held(Decisive(tick), st.lastPhase);
    if phase != st.lastPhase then TimerState(phase, st.applied + [phase]) else st
  }

  function TimerRun(ticks: seq<Tick>): TimerState
  {
    if ticks == [] then TimerState(PHASE_IDLE, [])
    else TimerStep(TimerRun(ticks[..|ticks| - 1]), ticks[|ticks| - 1])
  }

  /** After any stream, one more tick leaves the timer holding the phase its fields classify. */
  lemma TickClassifies(ticks: seq<Tick>, tick: Tick)
    ensures Classifies(tick.sample, tick.thresholds, TimerRun(ticks).lastPhase, TimerRun(ticks + [tick]).lastPhase)
  {
    assert (ticks + [tick])[..|ticks|] == ticks;
    HeldClassifies(tick, TimerRun(ticks).lastPhase);
  }

  /** For every stream of samples and thresholds, the timer holds the phase of the latest decisive
      sample, and has applied exactly the classified stream with consecutive repeats removed. */
  lemma {:induction false} TimerRefinesHysteresis(ticks: seq<Tick>)
    ensures TimerRun(ticks).lastPhase == LatestDecisive(ticks, PHASE_IDLE)
    ensures TimerRun(ticks).applied == WithoutRepeats(PHASE_IDLE, Classified(ticks, PHASE_IDLE))
  {
    var c := Classified(ticks, PHASE_IDLE);
    if ticks != [] {
      var n := |ticks| - 1;
      TimerRefinesHysteresis(ticks[..n]);
      var before := Classified(ticks[..n], PHASE_IDLE);
      forall i | 0 <= i < n ensures before[i] == c[i] {
        assert ticks[..n][..i + 1] == ticks[..i + 1];
      }
      assert ticks[..n + 1] == ticks;
      assert c == before + [c[n]];
      WithoutRepeatsAppend(PHASE_IDLE, before, c[n]);
      if n > 0 {
        assert ticks[..n][..n - 1 + 1] == ticks[..n];
        assert before[n - 1] == LatestDecisive(ticks[..n], PHASE_IDLE);
      }
    }
  }

  lemma {:induction false} WithoutRepeatsAppend(start: uint8, s: seq<uint8>, x: uint8)
    ensures var last := if s == [] then start else s[|s| - 1];
            WithoutRepeats(start, s + [x]) == WithoutRepeats(start, s) + (if x == last then [] else [x])
    decreases s
  {
    if s == [] {
      assert s + [x] == [x];
    } else {
      assert (s + [x])[1..] == s[1..] + [x];
      WithoutRepeatsAppend(s[0], s[1..], x);
    }
  }

  ghost predicate NoRepeats(start: uint8, s: seq<uint8>)
  {
    (s != [] ==> s[0] != start) && forall i :: 0 < i < |s| ==> s[i - 1] != s[i]
  }

  /** What the timer applies never repeats a phase, ends at the phase the timer holds, and never
      asks for the training phases. */
  lemma {:induction false} TimerApplies(ticks: seq<Tick>)
    ensures var st := TimerRun(ticks);
            && NoRepeats(PHASE_IDLE, st.applied)
            && st.lastPhase == (if st.applied == [] then PHASE_IDLE else st.applied[|st.applied| - 1])
            && st.lastPhase in {PHASE_PREFILL, PHASE_DECODE, PHASE_AGENTIC, PHASE_IDLE}
            && forall p :: p in st.applied ==> p in {PHASE_PREFILL, PHASE_DECODE, PHASE_AGENTIC, PHASE_IDLE}
  {
    if ticks != [] {
      TimerApplies(ticks[..|ticks| - 1]);
    }
  }
}
