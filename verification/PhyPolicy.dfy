/** From a phase and a priority to a proposed PHY configuration. */
module PhyPolicy {
  import opened CTypes
  import opened HintWord

  datatype PhyConfig = PhyConfig(
    tRCD: uint8, tCL: uint8, tRP: uint8, tRAS: uint8,
    vswingMv: uint16,
    dfeTap: seq<uint8>,
    ctleGainDb: int8,
    refreshMode: uint8)

  const NOMINAL: PhyConfig := PhyConfig(22, 22, 22, 52, 300, [0x10, 0, 0, 0], 2, 0)

  /** The configuration a phase asks for at full priority. An unknown phase asks for the nominal one. */
  function Target(phase: uint8): PhyConfig
  {
    if phase == PHASE_DECODE then PhyConfig(18, 18, 18, 42, 280, [0x14, 0, 0, 0], 3, 0)
    else if phase == PHASE_BACKWARD then PhyConfig(18, 18, 18, 38, 280, [0x14, 0, 0, 0], 3, 0)
    else if phase == PHASE_AGENTIC then PhyConfig(20, 20, 20, 48, 290, [0x12, 0, 0, 0], 2, 0)
    else if phase == PHASE_IDLE then PhyConfig(24, 24, 24, 56, 240, [0x08, 0, 0, 0], 0, 1)
    else NOMINAL
  }

  function Scaled(nominal: uint8, target: uint8, priority: uint8): uint8
  {
    Narrow8(nominal + TruncDiv((target - nominal) * Min(priority, 7), 7))
  }

  function Proposed(phase: uint8, priority: uint8): PhyConfig
  {
    var t := Target(phase);
    t.(tRCD := Scaled(NOMINAL.tRCD, t.tRCD, priority),
       tCL := Scaled(NOMINAL.tCL, t.tCL, priority),
       tRP := Scaled(NOMINAL.tRP, t.tRP, priority),
       tRAS := Scaled(NOMINAL.tRAS, t.tRAS, priority))
  }

  /** phase_to_phy_config: overwrites the nominal configuration, then rescales each timing. */
  method PhaseToPhyConfig(phaseId: uint8, requestedPriority: uint8) returns (cfg: PhyConfig)
    ensures cfg == Proposed(phaseId, requestedPriority)
  {
    cfg := PhyConfig(22, 22, 22, 52, 300, [0x10, 0, 0, 0], 2, 0);
    var nomTRCD, nomTCL, nomTRP, nomTRAS := 22, 22, 22, 52;
    var priority := requestedPriority;
    if priority > 7 {
      priority := 7;
    }

    if phaseId == PHASE_PREFILL || phaseId == PHASE_FORWARD {
      cfg := cfg.(tRCD := 22, tCL := 22, tRP := 22, tRAS := 52, vswingMv := 300,
                  dfeTap := cfg.dfeTap[0 := 0x10], ctleGainDb := 2, refreshMode := 0);
    } else if phaseId == PHASE_DECODE {
      cfg := cfg.(tRCD := 18, tCL := 18, tRP := 18, tRAS := 42, vswingMv := 280,
                  dfeTap := cfg.dfeTap[0 := 0x14], ctleGainDb := 3, refreshMode := 0);
    } else if phaseId == PHASE_BACKWARD {
      cfg := cfg.(tRCD := 18, tCL := 18, tRP := 18, tRAS := 38, vswingMv := 280,
                  dfeTap := cfg.dfeTap[0 := 0x14], ctleGainDb := 3, refreshMode := 0);
    } else if phaseId == PHASE_AGENTIC {
      cfg := cfg.(tRCD := 20, tCL := 20, tRP := 20, tRAS := 48, vswingMv := 290,
                  dfeTap := cfg.dfeTap[0 := 0x12], ctleGainDb := 2, refreshMode := 0);
    } else if phaseId == PHASE_IDLE {
      cfg := cfg.(tRCD := 24, tCL := 24, tRP := 24, tRAS := 56, vswingMv := 240,
                  dfeTap := cfg.dfeTap[0 := 0x08], ctleGainDb := 0, refreshMode := 1);
    }

    assert cfg == Target(phaseId) by {
      assert forall x: uint8 :: [0x10, 0, 0, 0][0 := x] == [x, 0, 0, 0];
    }

    var delta := TruncDiv((cfg.tRCD - nomTRCD) * priority, 7);
    cfg := cfg.(tRCD := Narrow8(nomTRCD + delta));
    delta := TruncDiv((cfg.tCL - nomTCL) * priority, 7);
    cfg := cfg.(tCL := Narrow8(nomTCL + delta));
    delta := TruncDiv((cfg.tRP - nomTRP) * priority, 7);
    cfg := cfg.(tRP := Narrow8(nomTRP + delta));
    delta := TruncDiv((cfg.tRAS - nomTRAS) * priority, 7);
    cfg := cfg.(tRAS := Narrow8(nomTRAS + delta));
  }

  // ---- What a phase asks for, in plain numbers ----

  /** v lies on the way from nominal to target, at the last whole clock reached by priority / 7 of it. */
  ghost predicate Interpolates(v: int, nominal: int, target: int, priority: int)
  {
    var exact := (target - nominal) * Min(priority, 7);
    if target >= nominal then 0 <= exact - 7 * (v - nominal) < 7 else -7 < exact - 7 * (v - nominal) <= 0
  }

  ghost predicate Configured(c: PhyConfig, priority: uint8, row: int, active: int, vswing: int, tap: int, gain: int,
                             refresh: int)
  {
    && Interpolates(c.tRCD, 22, row, priority) && Interpolates(c.tCL, 22, row, priority)
    && Interpolates(c.tRP, 22, row, priority) && Interpolates(c.tRAS, 52, active, priority)
    && c.vswingMv == vswing && |c.dfeTap| == 4 && c.dfeTap[0] == tap
    && c.dfeTap[1] == 0 && c.dfeTap[2] == 0 && c.dfeTap[3] == 0
    && c.ctleGainDb == gain && c.refreshMode == refresh
  }

  /** The configuration of each phase, the nominal one for prefill, forward and unknown phases: tRCD, tCL
      and tRP on the way to the first number, tRAS to the second, and the phase's signalling whatever the
      priority. */
  ghost predicate Asks(phase: uint8, priority: uint8, c: PhyConfig)
  {
    && (phase !in {2, 3, 4, 6} ==> Configured(c, priority, 22, 52, 300, 0x10, 2, 0))
    && (phase == 2 ==> Configured(c, priority, 18, 42, 280, 0x14, 3, 0))
    && (phase == 3 ==> Configured(c, priority, 20, 48, 290, 0x12, 2, 0))
    && (phase == 4 ==> Configured(c, priority, 24, 56, 240, 0x08, 0, 1))
    && (phase == 6 ==> Configured(c, priority, 18, 38, 280, 0x14, 3, 0))
  }

  lemma ProposedAsks(phase: uint8, priority: uint8)
    ensures Asks(phase, priority, Proposed(phase, priority))
  {
    var p, t := Proposed(phase, priority), Target(phase);
    ScalingCharacterised(NOMINAL.tRCD, t.tRCD, priority, p.tRCD);
    ScalingCharacterised(NOMINAL.tRAS, t.tRAS, priority, p.tRAS);
  }

  // ---- Priority scaling, for any nominal and target ----

  /** The scaled value is the integer point nearest the target that does not overshoot the exact
      interpolation nominal + (target - nominal) * priority / 7: it lies less than one clock short
      of it. The u8 conversion never wraps. */
  lemma ScalingCharacterised(nominal: uint8, target: uint8, priority: uint8, s: uint8)
    ensures s == Scaled(nominal, target, priority)
            <==> Interpolates(s, nominal, target, priority)
  {
    var p := Min(priority, 7);
    var d := target - nominal;
    ProductBetween(d, p);
    TruncDivCharacterised(d * p, 7, s - nominal);
  }

  lemma ProductBetween(d: int, p: int)
    requires 0 <= p <= 7
    ensures if d >= 0 then 0 <= d * p <= d * 7 else d * 7 <= d * p <= 0
  {
    if d >= 0 {
      assert d * p + d * (7 - p) == d * 7 && 0 <= d * (7 - p) && 0 <= d * p;
    } else {
      assert -d * p + -d * (7 - p) == -d * 7 && 0 <= -d * (7 - p) && 0 <= -d * p;
    }
  }

  /** Priority 0 leaves the nominal value and priority 7 (or anything above) reaches the target;
      in between, the value lies between the two. */
  lemma ScalingEndpoints(nominal: uint8, target: uint8, priority: uint8)
    ensures Scaled(nominal, target, 0) == nominal
    ensures priority >= 7 ==> Scaled(nominal, target, priority) == target
    ensures Min(nominal, target) <= Scaled(nominal, target, priority) <= Max(nominal, target)
  {
    ScalingCharacterised(nominal, target, 0, nominal);
    ScalingCharacterised(nominal, target, priority, Scaled(nominal, target, priority));
    ProductBetween(target - nominal, Min(priority, 7));
  }

  lemma ScaledWithin(nominal: uint8, target: uint8, priority: uint8, lo: uint8, hi: uint8)
    requires lo <= nominal <= hi && lo <= target <= hi
    ensures lo <= Scaled(nominal, target, priority) <= hi
  {
    ScalingEndpoints(nominal, target, priority);
  }

  /** Raising the priority never moves the value away from the target. */
  lemma ScalingMonotoneInPriority(nominal: uint8, target: uint8, p: uint8, q: uint8)
    requires p <= q
    ensures if target >= nominal then Scaled(nominal, target, p) <= Scaled(nominal, target, q)
            else Scaled(nominal, target, p) >= Scaled(nominal, target, q)
  {
    ScalingCharacterised(nominal, target, p, Scaled(nominal, target, p));
    ScalingCharacterised(nominal, target, q, Scaled(nominal, target, q));
    ProductOrdered(target - nominal, Min(p, 7), Min(q, 7));
  }

  lemma ProductOrdered(d: int, p: int, q: int)
    requires 0 <= p <= q
    ensures if d >= 0 then d * p <= d * q else d * p >= d * q
  {
    assert d * q - d * p == d * (q - p);
    if d >= 0 {
      assert d * (q - p) >= 0;
    } else {
      assert -d * (q - p) >= 0;
    }
  }

  /** A higher target never gives a lower value, at any one priority. */
  lemma ScalingMonotoneInTarget(nominal: uint8, a: uint8, b: uint8, priority: uint8)
    requires a <= b
    ensures Scaled(nominal, a, priority) <= Scaled(nominal, b, priority)
  {
    var p := Min(priority, 7);
    ScalingCharacterised(nominal, a, priority, Scaled(nominal, a, priority));
    ScalingCharacterised(nominal, b, priority, Scaled(nominal, b, priority));
    ProductBetween(a - nominal, p);
    ProductBetween(b - nominal, p);
    FactorOrdered(a - nominal, b - nominal, p);
  }

  lemma FactorOrdered(c: int, d: int, p: int)
    requires c <= d && 0 <= p
    ensures c * p <= d * p
  {
    ProductOrdered(p, c - c, d - c);
    assert p * (d - c) == d * p - c * p;
  }

  /** Truncation toward zero treats both directions alike: equal deviations above and below the
      nominal value give equal adjustments. */
  lemma ScalingSymmetric(nominal: uint8, deviation: uint8, priority: uint8)
    requires deviation <= nominal && nominal + deviation < 0x100
    ensures Scaled(nominal, nominal + deviation, priority) - nominal
            == nominal - Scaled(nominal, nominal - deviation, priority)
  {
    var up := Scaled(nominal, nominal + deviation, priority);
    ScalingCharacterised(nominal, nominal + deviation, priority, up);
    ScalingEndpoints(nominal, nominal + deviation, priority);
    var p := Min(priority, 7);
    assert -(deviation as int) * p == -(deviation * p);
    ScalingCharacterised(nominal, nominal - deviation, priority, nominal - (up - nominal));
  }

  // ---- The phase table ----

  ghost predicate NoSlower(a: PhyConfig, b: PhyConfig)
  {
    a.tRCD <= b.tRCD && a.tCL <= b.tCL && a.tRP <= b.tRP
  }

  ghost predicate SameTimings(a: PhyConfig, b: PhyConfig)
  {
    NoSlower(a, b) && NoSlower(b, a)
  }

  lemma ProposedMonotone(p: uint8, q: uint8, priority: uint8)
    requires NoSlower(Target(p), Target(q))
    ensures NoSlower(Proposed(p, priority), Proposed(q, priority))
  {
    ScalingMonotoneInTarget(NOMINAL.tRCD, Target(p).tRCD, Target(q).tRCD, priority);
    ScalingMonotoneInTarget(NOMINAL.tCL, Target(p).tCL, Target(q).tCL, priority);
    ScalingMonotoneInTarget(NOMINAL.tRP, Target(p).tRP, Target(q).tRP, priority);
  }

  /** At every priority the phases are ordered by aggressiveness the way the full-priority table
      orders them. */
  lemma AggressivenessOrder(priority: uint8)
    ensures SameTimings(Proposed(PHASE_DECODE, priority), Proposed(PHASE_BACKWARD, priority))
    ensures NoSlower(Proposed(PHASE_BACKWARD, priority), Proposed(PHASE_AGENTIC, priority))
    ensures NoSlower(Proposed(PHASE_AGENTIC, priority), Proposed(PHASE_PREFILL, priority))
    ensures SameTimings(Proposed(PHASE_PREFILL, priority), Proposed(PHASE_FORWARD, priority))
    ensures NoSlower(Proposed(PHASE_FORWARD, priority), Proposed(PHASE_IDLE, priority))
  {
    ProposedMonotone(PHASE_DECODE, PHASE_BACKWARD, priority);
    ProposedMonotone(PHASE_BACKWARD, PHASE_DECODE, priority);
    ProposedMonotone(PHASE_BACKWARD, PHASE_AGENTIC, priority);
    ProposedMonotone(PHASE_AGENTIC, PHASE_PREFILL, priority);
    ProposedMonotone(PHASE_PREFILL, PHASE_FORWARD, priority);
    ProposedMonotone(PHASE_FORWARD, PHASE_PREFILL, priority);
    ProposedMonotone(PHASE_FORWARD, PHASE_IDLE, priority);
  }

  /** How much priority a phase needs before its timings leave their nominal values: on tRCD, tCL and
      tRP decode and backward from 2, agentic and idle from 4; on tRAS, whose targets lie further off,
      decode and backward from 1, agentic and idle from 2. */
  lemma PriorityNeeded(phase: uint8, priority: uint8)
    ensures !SameTimings(Proposed(phase, priority), NOMINAL)
            <==> (phase in {PHASE_DECODE, PHASE_BACKWARD} && priority >= 2)
                 || (phase in {PHASE_AGENTIC, PHASE_IDLE} && priority >= 4)
    ensures Proposed(phase, priority).tRAS != NOMINAL.tRAS
            <==> (phase in {PHASE_DECODE, PHASE_BACKWARD} && priority >= 1)
                 || (phase in {PHASE_AGENTIC, PHASE_IDLE} && priority >= 2)
  {
    var t := Target(phase).tRCD;
    var s := Scaled(22, t, priority);
    ScalingCharacterised(22, t, priority, s);
    ScalingCharacterised(22, t, priority, 22);
    ActiveTimeLeaves(phase, priority);
  }

  lemma ActiveTimeLeaves(phase: uint8, priority: uint8)
    ensures Scaled(52, Target(phase).tRAS, priority) != 52
            <==> (phase in {PHASE_DECODE, PHASE_BACKWARD} && priority >= 1)
                 || (phase in {PHASE_AGENTIC, PHASE_IDLE} && priority >= 2)
  {
    var t := Target(phase).tRAS;
    ScalingCharacterised(52, t, priority, Scaled(52, t, priority));
    ScalingCharacterised(52, t, priority, 52);
  }
}
