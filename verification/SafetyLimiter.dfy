/** The safety limiter: clamps a proposed configuration to platform limits, relaxes it by one
    clock under ECC pressure, and holds a floor under security-hardened hints. */
module SafetyLimiter {
  import opened CTypes
  import opened HintWord
  import opened PhyPolicy

  datatype JedecLimits = JedecLimits(
    minTRCD: uint8, maxTRCD: uint8,
    minTCL: uint8, maxTCL: uint8,
    minTRP: uint8, maxTRP: uint8,
    minVswingMv: uint16, maxVswingMv: uint16)

  datatype EccTelemetry = EccTelemetry(
    correctableRate: uint64, uncorrectableCount: uint64, readRetryCount: uint64, p99LatencyNs: uint64)

  const PLATFORM_DEFAULTS: JedecLimits := JedecLimits(14, 32, 14, 36, 14, 32, 200, 400)
  const ECC_THRESHOLD := 100
  const SECURITY_FLOOR: uint8 := 22

  /** What clamp_t expands to in the kernel's headers; older and newer kernels differ. */
  datatype ClampForm = MinOfMax | Conditional

  function Clamp(form: ClampForm, v: int, lo: int, hi: int): int
  {
    match form
    case MinOfMax => Min(Max(v, lo), hi)
    case Conditional => if v >= hi then hi else if v <= lo then lo else v
  }

  /** Bounds for which the two expansions differ, under the one that then leaves them. */
  predicate Crossed(form: ClampForm, lo: int, hi: int) { form.Conditional? && lo > hi }

  /** min_t(u8, v + 1, hi): the sum is narrowed to eight bits before the comparison. */
  function RelaxOneClock(v: uint8, hi: uint8): (r: uint8)
    ensures v < 255 ==> v <= hi ==> v <= r <= v + 1
    ensures v == 255 ==> r == 0
  {
    Min(Narrow8(v + 1), hi)
  }

  /** What the limiter makes of one timing value. */
  function LimitTiming(form: ClampForm, v: uint8, lo: uint8, hi: uint8, relax: bool, secure: bool): uint8
  {
    var c := Clamp(form, v, lo, hi);
    Floored(secure, if relax then RelaxOneClock(c, hi) else c)
  }

  function Floored(secure: bool, v: uint8): uint8 { if secure then Max(v, SECURITY_FLOOR) else v }

  predicate EccPressure(ecc: EccTelemetry) { ecc.correctableRate > ECC_THRESHOLD }

  function Limited(form: ClampForm, p: PhyConfig, l: JedecLimits, ecc: EccTelemetry, securityLevel: uint8): PhyConfig
  {
    var relax, secure := EccPressure(ecc), securityLevel > 0;
    p.(tRCD := LimitTiming(form, p.tRCD, l.minTRCD, l.maxTRCD, relax, secure),
       tCL := LimitTiming(form, p.tCL, l.minTCL, l.maxTCL, relax, secure),
       tRP := LimitTiming(form, p.tRP, l.minTRP, l.maxTRP, false, secure),
       vswingMv := Clamp(form, p.vswingMv, l.minVswingMv, l.maxVswingMv))
  }

  // ---- The result in plain numbers ----

  /** The value of the range lo..hi nearest to v; a range out of order gives its minimum below its
      maximum and its maximum elsewhere under the conditional expansion, and its maximum under the
      other. */
  function Nearest(form: ClampForm, v: int, lo: int, hi: int): int
  {
    if lo <= v <= hi then v
    else if lo <= hi then (if v < lo then lo else hi)
    else if form.Conditional? && v < hi then lo else hi
  }

  /** What one pass must make of a timing v: the nearest value in range; one clock more if it is to
      relax, short of the maximum, where 255 becomes 0; and at least 22 if it is to be secure. */
  ghost predicate TimingFollows(r: int, form: ClampForm, v: int, lo: int, hi: int, relax: bool, secure: bool)
  {
    var c := Nearest(form, v, lo, hi);
    var q := if !relax then c else if c == 255 then 0 else if c < hi then c + 1 else hi;
    r == if secure && q < 22 then 22 else q
  }

  /** What the limiter must make of a configuration: two timings relax above 100 correctable errors,
      the third never does, the voltage is only brought in range, and the rest passes through. */
  ghost predicate FollowsLimits(r: PhyConfig, form: ClampForm, p: PhyConfig, l: JedecLimits, ecc: EccTelemetry,
                                securityLevel: uint8)
  {
    var relax, secure := ecc.correctableRate > 100, securityLevel > 0;
    && TimingFollows(r.tRCD, form, p.tRCD, l.minTRCD, l.maxTRCD, relax, secure)
    && TimingFollows(r.tCL, form, p.tCL, l.minTCL, l.maxTCL, relax, secure)
    && TimingFollows(r.tRP, form, p.tRP, l.minTRP, l.maxTRP, false, secure)
    && r.vswingMv == Nearest(form, p.vswingMv, l.minVswingMv, l.maxVswingMv)
    && (r.tRAS, r.dfeTap, r.ctleGainDb, r.refreshMode) == (p.tRAS, p.dfeTap, p.ctleGainDb, p.refreshMode)
  }

  lemma ClampIsNearest(form: ClampForm, v: int, lo: int, hi: int)
    ensures Clamp(form, v, lo, hi) == Nearest(form, v, lo, hi)
  {
  }

  lemma LimitTimingFollows(form: ClampForm, v: uint8, lo: uint8, hi: uint8, relax: bool, secure: bool)
    ensures TimingFollows(LimitTiming(form, v, lo, hi, relax, secure), form, v, lo, hi, relax, secure)
  {
    ClampIsNearest(form, v, lo, hi);
    var c := Clamp(form, v, lo, hi);
    if c < 255 {
      assert Narrow8(c + 1) == c + 1;
    }
  }

  lemma LimitedFollows(form: ClampForm, p: PhyConfig, l: JedecLimits, ecc: EccTelemetry, securityLevel: uint8)
    ensures FollowsLimits(Limited(form, p, l, ecc, securityLevel), form, p, l, ecc, securityLevel)
  {
    var relax, secure := EccPressure(ecc), securityLevel > 0;
    LimitTimingFollows(form, p.tRCD, l.minTRCD, l.maxTRCD, relax, secure);
    LimitTimingFollows(form, p.tCL, l.minTCL, l.maxTCL, relax, secure);
    LimitTimingFollows(form, p.tRP, l.minTRP, l.maxTRP, false, secure);
    ClampIsNearest(form, p.vswingMv, l.minVswingMv, l.maxVswingMv);
  }

  /** safety_clamp: rewrites its by-value configuration in three passes. */
  method SafetyClamp(form: ClampForm, proposed: PhyConfig, l: JedecLimits, ecc: EccTelemetry, securityLevel: uint8)
    returns (p: PhyConfig)
    ensures p == Limited(form, proposed, l, ecc, securityLevel)
    ensures FollowsLimits(p, form, proposed, l, ecc, securityLevel)
  {
    LimitedFollows(form, proposed, l, ecc, securityLevel);
    p := proposed;
    p := p.(tRCD := Clamp(form, p.tRCD, l.minTRCD, l.maxTRCD));
    p := p.(tCL := Clamp(form, p.tCL, l.minTCL, l.maxTCL));
    p := p.(tRP := Clamp(form, p.tRP, l.minTRP, l.maxTRP));
    p := p.(vswingMv := Clamp(form, p.vswingMv, l.minVswingMv, l.maxVswingMv));
    if ecc.correctableRate > 100 {
      p := p.(tRCD := Min(Narrow8(p.tRCD + 1), l.maxTRCD));
      p := p.(tCL := Min(Narrow8(p.tCL + 1), l.maxTCL));
    }
    if securityLevel > 0 {
      p := p.(tRCD := Max(p.tRCD, 22));
      p := p.(tCL := Max(p.tCL, 22));
      p := p.(tRP := Max(p.tRP, 22));
    }
  }

  // ---- Staying within limits ----

  /** A limiter setting that keeps every proposal within lo..hi. The security floor must fit under
      the maximum; and with an 8-bit maximum of 255 the ECC step wraps to 0, which is harmless only
      if the minimum does not exclude the wrapped value. */
  predicate SafeBounds(lo: uint8, hi: uint8, relax: bool, secure: bool)
  {
    && (secure ==> hi >= SECURITY_FLOOR)
    && (relax && hi == 255 ==> lo <= if secure then SECURITY_FLOOR else 0)
  }

  ghost predicate AlwaysWithin(form: ClampForm, lo: uint8, hi: uint8, relax: bool, secure: bool)
  {
    forall v: uint8 :: lo <= LimitTiming(form, v, lo, hi, relax, secure) <= hi
  }

  /** The limiter keeps every proposal within well-formed bounds exactly when the bounds are safe. */
  lemma WithinBoundsIff(form: ClampForm, lo: uint8, hi: uint8, relax: bool, secure: bool)
    requires lo <= hi
    ensures AlwaysWithin(form, lo, hi, relax, secure) <==> SafeBounds(lo, hi, relax, secure)
  {
    if !SafeBounds(lo, hi, relax, secure) {
      var worst: uint8 := 255;
      assert !(lo <= LimitTiming(form, worst, lo, hi, relax, secure) <= hi);
    }
  }

  /** The ECC step takes a timing below its minimum exactly by wrapping to 0: the maximum is 255, the
      proposal or the minimum is 255 as well, and the minimum excludes what the floor makes of 0. */
  lemma EccStepWraps(form: ClampForm, v: uint8, lo: uint8, hi: uint8, secure: bool)
    requires lo <= hi
    ensures LimitTiming(form, v, lo, hi, true, secure) < lo
            <==> hi == 255 && (v == 255 || lo == 255) && lo > if secure then SECURITY_FLOOR else 0
  {
  }

  predicate WellFormed(l: JedecLimits)
  {
    l.minTRCD <= l.maxTRCD && l.minTCL <= l.maxTCL && l.minTRP <= l.maxTRP
    && l.minVswingMv <= l.maxVswingMv
  }

  predicate SafeLimits(l: JedecLimits, ecc: EccTelemetry, securityLevel: uint8)
  {
    var relax, secure := EccPressure(ecc), securityLevel > 0;
    && SafeBounds(l.minTRCD, l.maxTRCD, relax, secure)
    && SafeBounds(l.minTCL, l.maxTCL, relax, secure)
    && SafeBounds(l.minTRP, l.maxTRP, false, secure)
  }

  ghost predicate WithinLimits(p: PhyConfig, l: JedecLimits)
  {
    && l.minTRCD <= p.tRCD <= l.maxTRCD
    && l.minTCL <= p.tCL <= l.maxTCL
    && l.minTRP <= p.tRP <= l.maxTRP
    && l.minVswingMv <= p.vswingMv <= l.maxVswingMv
  }

  ghost predicate AboveSecurityFloor(p: PhyConfig)
  {
    p.tRCD >= SECURITY_FLOOR && p.tCL >= SECURITY_FLOOR && p.tRP >= SECURITY_FLOOR
  }

  /** Every proposal ends within limits exactly when the limits are well formed and safe for the ECC
      reading and security level at hand. */
  lemma LimitedWithinIff(form: ClampForm, l: JedecLimits, ecc: EccTelemetry, securityLevel: uint8)
    ensures (forall p :: WithinLimits(Limited(form, p, l, ecc, securityLevel), l))
            <==> WellFormed(l) && SafeLimits(l, ecc, securityLevel)
  {
    var relax, secure := EccPressure(ecc), securityLevel > 0;
    if WellFormed(l) {
      WithinBoundsIff(form, l.minTRCD, l.maxTRCD, relax, secure);
      WithinBoundsIff(form, l.minTCL, l.maxTCL, relax, secure);
      WithinBoundsIff(form, l.minTRP, l.maxTRP, false, secure);
    }
    if !WellFormed(l) || !SafeLimits(l, ecc, securityLevel) {
      var worst := NOMINAL.(tRCD := 255, tCL := 255, tRP := 255);
      assert !WithinLimits(Limited(form, worst, l, ecc, securityLevel), l);
    }
  }

  /** The condition a platform integrator would check once: every proposal ends within limits under
      every ECC reading and security level exactly when the limits are ordered, every timing's maximum
      is at least the floor, and a maximum of 255 goes with a minimum of 0 on the two timings that
      relax. */
  lemma AlwaysWithinLimitsIff(form: ClampForm, l: JedecLimits)
    ensures (forall p, ecc, level: uint8 :: WithinLimits(Limited(form, p, l, ecc, level), l))
            <==> WellFormed(l) && l.maxTRCD >= 22 && l.maxTCL >= 22 && l.maxTRP >= 22
                 && (l.maxTRCD == 255 ==> l.minTRCD == 0) && (l.maxTCL == 255 ==> l.minTCL == 0)
  {
    var pressure := EccTelemetry(101, 0, 0, 0);
    if forall p, ecc, level: uint8 :: WithinLimits(Limited(form, p, l, ecc, level), l) {
      LimitedWithinIff(form, l, pressure, 0);
      LimitedWithinIff(form, l, pressure, 1);
    }
    if WellFormed(l) && l.maxTRCD >= 22 && l.maxTCL >= 22 && l.maxTRP >= 22
       && (l.maxTRCD == 255 ==> l.minTRCD == 0) && (l.maxTCL == 255 ==> l.minTCL == 0) {
      forall p, ecc, level: uint8 ensures WithinLimits(Limited(form, p, l, ecc, level), l) {
        LimitedWithinIff(form, l, ecc, level);
      }
    }
  }

  /** The security floor holds whatever the limits say, well formed or not. */
  lemma SecurityFloorHolds(form: ClampForm, p: PhyConfig, l: JedecLimits, ecc: EccTelemetry, securityLevel: uint8)
    ensures securityLevel > 0 ==> AboveSecurityFloor(Limited(form, p, l, ecc, securityLevel))
  {
  }

  /** The two expansions of clamp_t agree on every value exactly when the bounds are ordered. Where the
      bounds may be out of order, results depend on the kernel's expansion and say so. */
  lemma ClampFormsAgree(lo: int, hi: int)
    ensures (forall v: int :: Clamp(MinOfMax, v, lo, hi) == Clamp(Conditional, v, lo, hi)) <==> lo <= hi
  {
    if lo > hi {
      assert Clamp(MinOfMax, hi - 1, lo, hi) != Clamp(Conditional, hi - 1, lo, hi);
    }
  }

  // ---- Monotonicity ----

  ghost predicate TimingMonotone(form: ClampForm, lo: uint8, hi: uint8, relax: bool, secure: bool)
  {
    forall v: uint8, w: uint8 :: v <= w ==>
      LimitTiming(form, v, lo, hi, relax, secure) <= LimitTiming(form, w, lo, hi, relax, secure)
  }

  /** When the limiter preserves order on one timing: the ECC step cannot wrap on one of two values
      only; and bounds out of order, which the conditional expansion maps to the minimum below the
      maximum and to the maximum from there on, are evened out by the ECC step or the floor. */
  predicate KeepsOrder(form: ClampForm, lo: uint8, hi: uint8, relax: bool, secure: bool)
  {
    if Crossed(form, lo, hi) then relax || hi == 0 || (secure && lo <= SECURITY_FLOOR)
    else !(relax && hi == 255 && lo < 255)
  }

  /** The limiter preserves the order of two proposals for every pair exactly then. */
  lemma TimingMonotoneIff(form: ClampForm, lo: uint8, hi: uint8, relax: bool, secure: bool)
    ensures TimingMonotone(form, lo, hi, relax, secure) <==> KeepsOrder(form, lo, hi, relax, secure)
  {
    forall v: uint8, w: uint8 | v <= w && KeepsOrder(form, lo, hi, relax, secure)
      ensures LimitTiming(form, v, lo, hi, relax, secure) <= LimitTiming(form, w, lo, hi, relax, secure)
    {
      if Crossed(form, lo, hi) {
        CrossedOrdered(form, v, w, lo, hi, relax, secure);
      } else {
        TimingOrdered(form, v, w, lo, hi, relax, secure);
      }
    }
    if !KeepsOrder(form, lo, hi, relax, secure) {
      var v: uint8 := if Crossed(form, lo, hi) then hi - 1 else 254;
      assert LimitTiming(form, v, lo, hi, relax, secure) > LimitTiming(form, v + 1, lo, hi, relax, secure);
    }
  }

  lemma TimingOrdered(form: ClampForm, v: uint8, w: uint8, lo: uint8, hi: uint8, relax: bool, secure: bool)
    requires v <= w && !(relax && hi == 255 && lo < 255) && !Crossed(form, lo, hi)
    ensures LimitTiming(form, v, lo, hi, relax, secure) <= LimitTiming(form, w, lo, hi, relax, secure)
  {
    var c, d := Clamp(form, v, lo, hi), Clamp(form, w, lo, hi);
    assert c <= d <= hi;
    if d < 255 {
      assert Narrow8(c + 1) == c + 1 && Narrow8(d + 1) == d + 1;
    } else {
      assert relax ==> c == d;
    }
  }

  lemma CrossedOrdered(form: ClampForm, v: uint8, w: uint8, lo: uint8, hi: uint8, relax: bool, secure: bool)
    requires v <= w && Crossed(form, lo, hi)
    requires relax || (secure && lo <= SECURITY_FLOOR) || w < hi || hi <= v
    ensures LimitTiming(form, v, lo, hi, relax, secure) <= LimitTiming(form, w, lo, hi, relax, secure)
  {
  }

  lemma TimingOrderedBelowWrap(form: ClampForm, v: uint8, w: uint8, lo: uint8, hi: uint8, relax: bool, secure: bool)
    requires v <= w < 255 && !Crossed(form, lo, hi)
    ensures LimitTiming(form, v, lo, hi, relax, secure) <= LimitTiming(form, w, lo, hi, relax, secure)
  {
    if relax && hi == 255 && lo < 255 {
      var c, d := Clamp(form, v, lo, hi), Clamp(form, w, lo, hi);
      assert c <= d < 255;
      assert Narrow8(c + 1) == c + 1 && Narrow8(d + 1) == d + 1;
    } else {
      TimingOrdered(form, v, w, lo, hi, relax, secure);
    }
  }

  /** When one timing's order survives for the phases: their values lie between 18 and 24, so only a
      maximum above 18 and up to 24 can part them. */
  predicate KeepsPhases(form: ClampForm, lo: uint8, hi: uint8, relax: bool, secure: bool)
  {
    Crossed(form, lo, hi) ==> relax || (secure && lo <= SECURITY_FLOOR) || !(18 < hi <= 24)
  }

  predicate KeepsAggressiveness(form: ClampForm, l: JedecLimits, ecc: EccTelemetry, securityLevel: uint8)
  {
    var relax, secure := EccPressure(ecc), securityLevel > 0;
    && KeepsPhases(form, l.minTRCD, l.maxTRCD, relax, secure)
    && KeepsPhases(form, l.minTCL, l.maxTCL, relax, secure)
    && KeepsPhases(form, l.minTRP, l.maxTRP, false, secure)
  }

  ghost predicate LimitedInOrder(form: ClampForm, priority: uint8, l: JedecLimits, ecc: EccTelemetry,
                                 securityLevel: uint8)
  {
    var f := (phase: uint8) => Limited(form, Proposed(phase, priority), l, ecc, securityLevel);
    && SameTimings(f(PHASE_DECODE), f(PHASE_BACKWARD))
    && NoSlower(f(PHASE_BACKWARD), f(PHASE_AGENTIC))
    && NoSlower(f(PHASE_AGENTIC), f(PHASE_PREFILL))
    && SameTimings(f(PHASE_PREFILL), f(PHASE_FORWARD))
    && NoSlower(f(PHASE_FORWARD), f(PHASE_IDLE))
  }

  /** The aggressiveness order of the phases survives the limiter at every priority, under any ECC
      reading and security level: for the min-of-max expansion and for ordered limits always, and for
      limits out of order under the conditional expansion exactly when they do not part the phases. */
  lemma LimitedAggressivenessOrder(form: ClampForm, l: JedecLimits, ecc: EccTelemetry, securityLevel: uint8)
    ensures (forall priority: uint8 :: LimitedInOrder(form, priority, l, ecc, securityLevel))
            <==> KeepsAggressiveness(form, l, ecc, securityLevel)
    ensures form.MinOfMax? || WellFormed(l) ==> KeepsAggressiveness(form, l, ecc, securityLevel)
  {
    if KeepsAggressiveness(form, l, ecc, securityLevel) {
      forall priority: uint8 ensures LimitedInOrder(form, priority, l, ecc, securityLevel) {
        OrderSurvives(form, priority, l, ecc, securityLevel);
      }
    }
    if LimitedInOrder(form, 7, l, ecc, securityLevel) {
      OrderNeeds(form, 7, l, ecc, securityLevel);
    }
  }

  lemma OrderSurvives(form: ClampForm, priority: uint8, l: JedecLimits, ecc: EccTelemetry, securityLevel: uint8)
    requires KeepsAggressiveness(form, l, ecc, securityLevel)
    ensures LimitedInOrder(form, priority, l, ecc, securityLevel)
  {
    AggressivenessOrder(priority);
    LimitedOrdered(form, PHASE_DECODE, PHASE_BACKWARD, priority, l, ecc, securityLevel);
    LimitedOrdered(form, PHASE_BACKWARD, PHASE_DECODE, priority, l, ecc, securityLevel);
    LimitedOrdered(form, PHASE_BACKWARD, PHASE_AGENTIC, priority, l, ecc, securityLevel);
    LimitedOrdered(form, PHASE_AGENTIC, PHASE_PREFILL, priority, l, ecc, securityLevel);
    LimitedOrdered(form, PHASE_PREFILL, PHASE_FORWARD, priority, l, ecc, securityLevel);
    LimitedOrdered(form, PHASE_FORWARD, PHASE_PREFILL, priority, l, ecc, securityLevel);
    LimitedOrdered(form, PHASE_FORWARD, PHASE_IDLE, priority, l, ecc, securityLevel);
  }

  lemma LimitedOrdered(form: ClampForm, p: uint8, q: uint8, priority: uint8, l: JedecLimits, ecc: EccTelemetry,
                       securityLevel: uint8)
    requires NoSlower(Proposed(p, priority), Proposed(q, priority)) && KeepsAggressiveness(form, l, ecc, securityLevel)
    ensures NoSlower(Limited(form, Proposed(p, priority), l, ecc, securityLevel),
                     Limited(form, Proposed(q, priority), l, ecc, securityLevel))
  {
    var x, y := Proposed(p, priority), Proposed(q, priority);
    var relax, secure := EccPressure(ecc), securityLevel > 0;
    ProposedRange(p, priority);
    ProposedRange(q, priority);
    PhasesOrdered(form, x.tRCD, y.tRCD, l.minTRCD, l.maxTRCD, relax, secure);
    PhasesOrdered(form, x.tCL, y.tCL, l.minTCL, l.maxTCL, relax, secure);
    PhasesOrdered(form, x.tRP, y.tRP, l.minTRP, l.maxTRP, false, secure);
  }

  lemma PhasesOrdered(form: ClampForm, v: uint8, w: uint8, lo: uint8, hi: uint8, relax: bool, secure: bool)
    requires 18 <= v <= w <= 24 && KeepsPhases(form, lo, hi, relax, secure)
    ensures LimitTiming(form, v, lo, hi, relax, secure) <= LimitTiming(form, w, lo, hi, relax, secure)
  {
    if Crossed(form, lo, hi) {
      CrossedOrdered(form, v, w, lo, hi, relax, secure);
    } else {
      TimingOrderedBelowWrap(form, v, w, lo, hi, relax, secure);
    }
  }

  /** At full priority decode is at 18 and idle at 24, the extremes. */
  lemma OrderNeeds(form: ClampForm, priority: uint8, l: JedecLimits, ecc: EccTelemetry, securityLevel: uint8)
    requires priority >= 7 && LimitedInOrder(form, priority, l, ecc, securityLevel)
    ensures KeepsAggressiveness(form, l, ecc, securityLevel)
  {
    FullPriority(PHASE_DECODE, priority, 18);
    FullPriority(PHASE_IDLE, priority, 24);
    EndsInOrder(form, priority, l, ecc, securityLevel);
    EndsNeed(form, Proposed(PHASE_DECODE, priority), Proposed(PHASE_IDLE, priority), l, ecc, securityLevel);
  }

  lemma EndsInOrder(form: ClampForm, priority: uint8, l: JedecLimits, ecc: EccTelemetry, securityLevel: uint8)
    requires LimitedInOrder(form, priority, l, ecc, securityLevel)
    ensures NoSlower(Limited(form, Proposed(PHASE_DECODE, priority), l, ecc, securityLevel),
                     Limited(form, Proposed(PHASE_IDLE, priority), l, ecc, securityLevel))
  {
    var f := (phase: uint8) => Limited(form, Proposed(phase, priority), l, ecc, securityLevel);
    Transitive(f(PHASE_DECODE), f(PHASE_BACKWARD), f(PHASE_AGENTIC));
    Transitive(f(PHASE_DECODE), f(PHASE_AGENTIC), f(PHASE_PREFILL));
    Transitive(f(PHASE_DECODE), f(PHASE_PREFILL), f(PHASE_FORWARD));
    Transitive(f(PHASE_DECODE), f(PHASE_FORWARD), f(PHASE_IDLE));
  }

  lemma Transitive(a: PhyConfig, b: PhyConfig, c: PhyConfig)
    ensures NoSlower(a, b) && NoSlower(b, c) ==> NoSlower(a, c)
  {
  }

  lemma FullPriority(phase: uint8, priority: uint8, timing: uint8)
    requires priority >= 7
    requires Target(phase).tRCD == Target(phase).tCL == Target(phase).tRP == timing
    ensures var p := Proposed(phase, priority); p.tRCD == p.tCL == p.tRP == timing
  {
    ScalingEndpoints(NOMINAL.tRCD, timing, priority);
  }

  lemma EndsNeed(form: ClampForm, x: PhyConfig, y: PhyConfig, l: JedecLimits, ecc: EccTelemetry, securityLevel: uint8)
    requires x.tRCD == x.tCL == x.tRP == 18 && y.tRCD == y.tCL == y.tRP == 24
    requires NoSlower(Limited(form, x, l, ecc, securityLevel), Limited(form, y, l, ecc, securityLevel))
    ensures KeepsAggressiveness(form, l, ecc, securityLevel)
  {
    var relax, secure := EccPressure(ecc), securityLevel > 0;
    ExtremesNeed(form, l.minTRCD, l.maxTRCD, relax, secure);
    ExtremesNeed(form, l.minTCL, l.maxTCL, relax, secure);
    ExtremesNeed(form, l.minTRP, l.maxTRP, false, secure);
  }

  lemma ExtremesNeed(form: ClampForm, lo: uint8, hi: uint8, relax: bool, secure: bool)
    ensures LimitTiming(form, 18, lo, hi, relax, secure) <= LimitTiming(form, 24, lo, hi, relax, secure)
            ==> KeepsPhases(form, lo, hi, relax, secure)
  {
  }

  lemma ProposedRange(phase: uint8, priority: uint8)
    ensures var p := Proposed(phase, priority);
            18 <= p.tRCD <= 24 && 18 <= p.tCL <= 24 && 18 <= p.tRP <= 24
  {
    TargetRange(phase);
    ScaledWithin(NOMINAL.tRCD, Target(phase).tRCD, priority, 18, 24);
    ScaledWithin(NOMINAL.tCL, Target(phase).tCL, priority, 18, 24);
    ScaledWithin(NOMINAL.tRP, Target(phase).tRP, priority, 18, 24);
  }

  lemma TargetRange(phase: uint8)
    ensures var t := Target(phase);
            18 <= t.tRCD <= 24 && 18 <= t.tCL <= 24 && 18 <= t.tRP <= 24
  {
  }

  /** Whether the limits contain what the driver applies under an ECC reading and a security level:
      they are well formed, the floor fits under all three maxima, and the wrap of the ECC step, which
      the phase table alone cannot reach, is not forced by a minimum of 255. */
  predicate LimitsHold(l: JedecLimits, ecc: EccTelemetry, securityLevel: uint8)
  {
    && WellFormed(l)
    && (securityLevel > 0 ==> l.maxTRCD >= 22 && l.maxTCL >= 22 && l.maxTRP >= 22)
    && (EccPressure(ecc) ==> l.minTRCD < 255 && l.minTCL < 255)
  }

  /** For any phase byte and priority, the driver's clamped configuration lies within limits exactly
      when the limits hold for the ECC reading and security level. */
  lemma PhaseConfigWithinIff(form: ClampForm, phase: uint8, priority: uint8, l: JedecLimits, ecc: EccTelemetry,
                             securityLevel: uint8)
    ensures WithinLimits(Limited(form, Proposed(phase, priority), l, ecc, securityLevel), l)
            <==> LimitsHold(l, ecc, securityLevel)
  {
    var p, relax, secure := Proposed(phase, priority), EccPressure(ecc), securityLevel > 0;
    ProposedRange(phase, priority);
    SmallTimingWithinIff(form, p.tRCD, l.minTRCD, l.maxTRCD, relax, secure);
    SmallTimingWithinIff(form, p.tCL, l.minTCL, l.maxTCL, relax, secure);
    SmallTimingWithinIff(form, p.tRP, l.minTRP, l.maxTRP, false, secure);
  }

  lemma SmallTimingWithinIff(form: ClampForm, v: uint8, lo: uint8, hi: uint8, relax: bool, secure: bool)
    requires v < 255 || !relax
    ensures lo <= LimitTiming(form, v, lo, hi, relax, secure) <= hi
            <==> lo <= hi && (secure ==> hi >= SECURITY_FLOOR) && (relax ==> lo < 255)
  {
    var c := Clamp(form, v, lo, hi);
    if c < 255 {
      assert Narrow8(c + 1) == c + 1;
    }
  }

  // ---- Feeding the limiter its own output ----

  function Iterated(form: ClampForm, v: uint8, lo: uint8, hi: uint8, relax: bool, secure: bool, k: nat): uint8
  {
    if k == 0 then v else LimitTiming(form, Iterated(form, v, lo, hi, relax, secure, k - 1), lo, hi, relax, secure)
  }

  /** Where a climb by one clock a pass starts: at the clamped value, or one below the floor when that
      is higher. */
  function ClimbStart(form: ClampForm, v: uint8, lo: uint8, hi: uint8, secure: bool): uint8
  {
    if secure then Max(Nearest(form, v, lo, hi), 21) else Nearest(form, v, lo, hi)
  }

  function Climbed(form: ClampForm, v: uint8, lo: uint8, hi: uint8, secure: bool, k: nat): uint8
  {
    Floored(secure, Min(ClimbStart(form, v, lo, hi, secure) + k, hi))
  }

  /** Under ECC pressure k passes over one timing give its clamped value plus k, held at the maximum,
      with the security floor below, for a maximum short of 255. */
  lemma {:induction false} IteratedUnderEcc(form: ClampForm, v: uint8, lo: uint8, hi: uint8, secure: bool, k: nat)
    requires hi <= 254 && k >= 1 && !Crossed(form, lo, hi)
    ensures Iterated(form, v, lo, hi, true, secure, k) == Climbed(form, v, lo, hi, secure, k)
  {
    if k == 1 {
      assert Iterated(form, v, lo, hi, true, secure, 0) == v;
    } else {
      IteratedUnderEcc(form, v, lo, hi, secure, k - 1);
      ClimbsOn(form, v, lo, hi, secure, k - 1);
    }
    PassUnderEcc(form, Iterated(form, v, lo, hi, true, secure, k - 1), lo, hi, secure);
  }

  lemma ClimbsOn(form: ClampForm, v: uint8, lo: uint8, hi: uint8, secure: bool, k: nat)
    requires k >= 1 && !Crossed(form, lo, hi)
    ensures Climbed(form, Climbed(form, v, lo, hi, secure, k), lo, hi, secure, 1)
            == Climbed(form, v, lo, hi, secure, k + 1)
  {
  }

  lemma PassUnderEcc(form: ClampForm, v: uint8, lo: uint8, hi: uint8, secure: bool)
    requires hi <= 254 && !Crossed(form, lo, hi)
    ensures LimitTiming(form, v, lo, hi, true, secure) == Climbed(form, v, lo, hi, secure, 1)
  {
    var c := Clamp(form, v, lo, hi);
    assert Narrow8(c + 1) == c + 1;
  }

  /** With a maximum of 255 nothing settles: k passes go round the values above the minimum (or above
      the floor) and through the one the wrap leaves, 0 or the floor. */
  lemma {:induction false} IteratedAtEightBitMaximum(form: ClampForm, v: uint8, lo: uint8, secure: bool, k: nat)
    requires k >= 1
    ensures Iterated(form, v, lo, 255, true, secure, k) == Lap(lo, secure, ClimbStart(form, v, lo, 255, secure) + k)
  {
    if k == 1 {
      assert Iterated(form, v, lo, 255, true, secure, 0) == v;
      FirstLap(form, v, lo, secure);
    } else {
      IteratedAtEightBitMaximum(form, v, lo, secure, k - 1);
      NextLap(form, lo, secure, ClimbStart(form, v, lo, 255, secure) + k - 1);
    }
  }

  function LapBase(lo: uint8, secure: bool): uint8 { if secure then Max(lo, SECURITY_FLOOR) else lo }

  /** Where counting up to x lands on the cycle. */
  function Lap(lo: uint8, secure: bool, x: nat): uint8
    requires x >= LapBase(lo, secure)
  {
    var base: nat := LapBase(lo, secure);
    var j := (x - base) % (0x100 - base);
    if j > 0 then base + j else if secure then SECURITY_FLOOR else 0
  }

  lemma FirstLap(form: ClampForm, v: uint8, lo: uint8, secure: bool)
    ensures LimitTiming(form, v, lo, 255, true, secure) == Lap(lo, secure, ClimbStart(form, v, lo, 255, secure) + 1)
  {
    LimitTimingFollows(form, v, lo, 255, true, secure);
    LapFrom(LimitTiming(form, v, lo, 255, true, secure), form, v, lo, secure);
  }

  lemma LapFrom(r: uint8, form: ClampForm, v: uint8, lo: uint8, secure: bool)
    requires TimingFollows(r, form, v, lo, 255, true, secure)
    ensures r == Lap(lo, secure, ClimbStart(form, v, lo, 255, secure) + 1)
  {
    var base: nat := LapBase(lo, secure);
    NextRemainder(ClimbStart(form, v, lo, 255, secure) + 1 - base, 0x100 - base);
  }

  lemma NextLap(form: ClampForm, lo: uint8, secure: bool, x: nat)
    requires x >= LapBase(lo, secure)
    ensures LimitTiming(form, Lap(lo, secure, x), lo, 255, true, secure) == Lap(lo, secure, x + 1)
  {
    var base: nat := LapBase(lo, secure);
    NextRemainder(x - base, 0x100 - base);
  }

  lemma NextRemainder(x: nat, m: nat)
    requires m > 0
    ensures (x + 1) % m == if x % m + 1 == m then 0 else x % m + 1
    ensures x < m ==> x % m == x
    ensures x == m ==> x % m == 0
  {
    var q := x / m;
    assert x + 1 == q * m + (x % m + 1);
    RemainderIs(x + 1, if x % m + 1 == m then q + 1 else q, if x % m + 1 == m then 0 else x % m + 1, m);
  }

  lemma RemainderIs(x: nat, q: nat, r: nat, m: nat)
    requires r < m && x == q * m + r
    ensures x % m == r
  {
    Multiples(x / m - q, m);
  }

  lemma Multiples(d: int, m: nat)
    ensures d >= 1 ==> d * m >= m
    ensures d <= -1 ==> d * m <= -(m as int)
  {
  }

  /** The limiter applied k times to a configuration. */
  function IteratedLimited(form: ClampForm, p: PhyConfig, l: JedecLimits, ecc: EccTelemetry, securityLevel: uint8,
                           k: nat): PhyConfig
  {
    if k == 0 then p else Limited(form, IteratedLimited(form, p, l, ecc, securityLevel, k - 1), l, ecc, securityLevel)
  }

  function IteratedClamp(form: ClampForm, v: uint16, lo: uint16, hi: uint16, k: nat): uint16
  {
    if k == 0 then v else Clamp(form, IteratedClamp(form, v, lo, hi, k - 1), lo, hi)
  }

  /** Iterating the limiter on a configuration iterates each of its fields. */
  lemma {:induction false} IteratedFieldwise(form: ClampForm, p: PhyConfig, l: JedecLimits, ecc: EccTelemetry,
                                             securityLevel: uint8, k: nat)
    ensures var relax, secure := EccPressure(ecc), securityLevel > 0;
            IteratedLimited(form, p, l, ecc, securityLevel, k)
            == p.(tRCD := Iterated(form, p.tRCD, l.minTRCD, l.maxTRCD, relax, secure, k),
                  tCL := Iterated(form, p.tCL, l.minTCL, l.maxTCL, relax, secure, k),
                  tRP := Iterated(form, p.tRP, l.minTRP, l.maxTRP, false, secure, k),
                  vswingMv := IteratedClamp(form, p.vswingMv, l.minVswingMv, l.maxVswingMv, k))
  {
    if k > 0 {
      IteratedFieldwise(form, p, l, ecc, securityLevel, k - 1);
    }
  }

  /** k passes of the limiter over a configuration in closed form, for any limits, ECC reading and
      security level. */
  lemma IteratedClosedForm(form: ClampForm, p: PhyConfig, l: JedecLimits, ecc: EccTelemetry, securityLevel: uint8,
                           k: nat)
    requires k >= 1
    ensures var relax, secure := EccPressure(ecc), securityLevel > 0;
            IteratedLimited(form, p, l, ecc, securityLevel, k)
            == p.(tRCD := AfterPasses(form, p.tRCD, l.minTRCD, l.maxTRCD, relax, secure, k),
                  tCL := AfterPasses(form, p.tCL, l.minTCL, l.maxTCL, relax, secure, k),
                  tRP := AfterPasses(form, p.tRP, l.minTRP, l.maxTRP, false, secure, k),
                  vswingMv := AfterClamps(form, p.vswingMv, l.minVswingMv, l.maxVswingMv, k))
  {
    var relax, secure := EccPressure(ecc), securityLevel > 0;
    IteratedFieldwise(form, p, l, ecc, securityLevel, k);
    PassesCounted(form, p.tRCD, l.minTRCD, l.maxTRCD, relax, secure, k);
    PassesCounted(form, p.tCL, l.minTCL, l.maxTCL, relax, secure, k);
    PassesCounted(form, p.tRP, l.minTRP, l.maxTRP, false, secure, k);
    ClampsCounted(form, p.vswingMv, l.minVswingMv, l.maxVswingMv, k);
  }

  /** One timing after k passes. Without ECC pressure it is settled by the first pass; under pressure
      it climbs by one clock a pass and stops at the maximum, or goes round when that is 255. Bounds out
      of order under the conditional expansion drop it to the maximum, at once or on the second pass,
      unless a minimum of 255 wraps it to 0 every time. */
  function AfterPasses(form: ClampForm, v: uint8, lo: uint8, hi: uint8, relax: bool, secure: bool, k: nat): uint8
    requires k >= 1
  {
    if Crossed(form, lo, hi) then
      if relax then Floored(secure, if lo == 255 && v < hi then 0 else hi)
      else Floored(secure, if k == 1 && v < hi then lo else hi)
    else if !relax then Floored(secure, Nearest(form, v, lo, hi))
    else if hi <= 254 then Climbed(form, v, lo, hi, secure, k)
    else Lap(lo, secure, ClimbStart(form, v, lo, hi, secure) + k)
  }

  function AfterClamps(form: ClampForm, v: uint16, lo: uint16, hi: uint16, k: nat): uint16
  {
    if Crossed(form, lo, hi) && k >= 2 then hi else Nearest(form, v, lo, hi)
  }

  lemma {:induction false} PassesCounted(form: ClampForm, v: uint8, lo: uint8, hi: uint8,
                                         relax: bool, secure: bool, k: nat)
    requires k >= 1
    ensures Iterated(form, v, lo, hi, relax, secure, k) == AfterPasses(form, v, lo, hi, relax, secure, k)
  {
    if relax && !Crossed(form, lo, hi) {
      if hi <= 254 {
        IteratedUnderEcc(form, v, lo, hi, secure, k);
      } else {
        IteratedAtEightBitMaximum(form, v, lo, secure, k);
      }
    } else if k > 1 {
      PassesCounted(form, v, lo, hi, relax, secure, k - 1);
      NextPass(form, v, lo, hi, relax, secure, k - 1);
    } else {
      assert Iterated(form, v, lo, hi, relax, secure, 0) == v;
      FirstPass(form, v, lo, hi, relax, secure);
    }
  }

  lemma FirstPass(form: ClampForm, v: uint8, lo: uint8, hi: uint8, relax: bool, secure: bool)
    requires Crossed(form, lo, hi) || !relax
    ensures LimitTiming(form, v, lo, hi, relax, secure) == AfterPasses(form, v, lo, hi, relax, secure, 1)
  {
    LimitTimingFollows(form, v, lo, hi, relax, secure);
  }

  /** Where nothing climbs, a further pass follows the closed form. */
  lemma NextPass(form: ClampForm, v: uint8, lo: uint8, hi: uint8, relax: bool, secure: bool, k: nat)
    requires k >= 1 && (Crossed(form, lo, hi) || !relax)
    ensures LimitTiming(form, AfterPasses(form, v, lo, hi, relax, secure, k), lo, hi, relax, secure)
            == AfterPasses(form, v, lo, hi, relax, secure, k + 1)
  {
  }

  lemma {:induction false} ClampsCounted(form: ClampForm, v: uint16, lo: uint16, hi: uint16, k: nat)
    requires k >= 1
    ensures IteratedClamp(form, v, lo, hi, k) == AfterClamps(form, v, lo, hi, k)
  {
    if k > 1 {
      ClampsCounted(form, v, lo, hi, k - 1);
    } else {
      assert IteratedClamp(form, v, lo, hi, 0) == v;
    }
  }

  /** Under ECC pressure repeated passes settle at the maximum, within hi - lo + 1 of them and for
      good, exactly when the maximum is below 255; at 255 the wrap drives the value round again. */
  lemma RelaxationSettlesIff(form: ClampForm, v: uint8, lo: uint8, hi: uint8, secure: bool)
    requires lo <= hi
    requires secure ==> hi >= SECURITY_FLOOR
    ensures (forall k: nat :: k >= hi - lo + 1 ==> Iterated(form, v, lo, hi, true, secure, k) == hi) <==> hi <= 254
  {
    if hi <= 254 {
      forall k: nat | k >= hi - lo + 1 ensures Iterated(form, v, lo, hi, true, secure, k) == hi {
        IteratedUnderEcc(form, v, lo, hi, secure, k);
      }
    } else {
      var k: nat := hi - lo + 1;
      var next: nat := k + 1;
      assert Iterated(form, v, lo, hi, true, secure, next)
          == LimitTiming(form, Iterated(form, v, lo, hi, true, secure, k), lo, hi, true, secure);
      assert LimitTiming(form, hi, lo, hi, true, secure) != hi;
    }
  }

  /** A value the first pass without pressure has settled. */
  predicate SettledAtOnce(form: ClampForm, v: int, lo: int, hi: int, secure: bool)
  {
    Crossed(form, lo, hi) ==> v >= hi || (secure && lo <= SECURITY_FLOOR)
  }

  /** Without ECC pressure a second pass changes nothing, even when the security floor lies above the
      maximum; for bounds out of order under the conditional expansion, exactly when each field starts
      at or above its maximum or is lifted by the floor. */
  lemma QuietPassIdempotentIff(form: ClampForm, p: PhyConfig, l: JedecLimits, ecc: EccTelemetry, securityLevel: uint8)
    requires !EccPressure(ecc)
    ensures var once, secure := Limited(form, p, l, ecc, securityLevel), securityLevel > 0;
            Limited(form, once, l, ecc, securityLevel) == once
            <==> SettledAtOnce(form, p.tRCD, l.minTRCD, l.maxTRCD, secure)
                 && SettledAtOnce(form, p.tCL, l.minTCL, l.maxTCL, secure)
                 && SettledAtOnce(form, p.tRP, l.minTRP, l.maxTRP, secure)
                 && SettledAtOnce(form, p.vswingMv, l.minVswingMv, l.maxVswingMv, false)
  {
    var secure := securityLevel > 0;
    SecondPass(form, p.tRCD, l.minTRCD, l.maxTRCD, secure);
    SecondPass(form, p.tCL, l.minTCL, l.maxTCL, secure);
    SecondPass(form, p.tRP, l.minTRP, l.maxTRP, secure);
  }

  lemma SecondPass(form: ClampForm, v: uint8, lo: uint8, hi: uint8, secure: bool)
    ensures var once := LimitTiming(form, v, lo, hi, false, secure);
            LimitTiming(form, once, lo, hi, false, secure) == once <==> SettledAtOnce(form, v, lo, hi, secure)
  {
  }

  /** ECC pressure relaxes: a timing never gets tighter than without it, exactly unless the 8-bit step
      wraps, or bounds out of order under the conditional expansion give the minimum and the step caps
      it at the lower maximum. */
  lemma EccRelaxes(form: ClampForm, v: uint8, lo: uint8, hi: uint8, secure: bool)
    ensures LimitTiming(form, v, lo, hi, true, secure) >= LimitTiming(form, v, lo, hi, false, secure)
            <==> if Crossed(form, lo, hi) then v >= hi || (secure && lo <= SECURITY_FLOOR)
                 else Nearest(form, v, lo, hi) < 255
  {
  }
}
