/** What one more event adds to any run of the driver, in the bytes of frames, the fields of samples and
    plain numbers, with the channel and the ECC reading in force read off the events before it. */
module RunRecord {
  import opened CTypes
  import opened HintWord
  import opened SafetyLimiter
  import opened PmuClassifier
  import opened Driver

  /** The channel chosen last, and the ECC reading reported last. */
  function ChannelInForce(es: seq<Event>, initial: int): int
  {
    if es == [] then initial
    else if es[|es| - 1].SetChannel? then es[|es| - 1].channel
    else ChannelInForce(es[..|es| - 1], initial)
  }

  function EccInForce(es: seq<Event>, initial: EccTelemetry): EccTelemetry
  {
    if es == [] then initial
    else if es[|es| - 1].EccReading? then es[|es| - 1].ecc
    else EccInForce(es[..|es| - 1], initial)
  }

  lemma {:induction false} InForce(pl: Platform, channel: int, ecc: EccTelemetry, es: seq<Event>)
    ensures var s := Run(pl, Loaded(channel, ecc), es);
            s.channel == ChannelInForce(es, channel) && s.ecc == EccInForce(es, ecc)
  {
    if es != [] {
      InForce(pl, channel, ecc, es[..|es| - 1]);
    }
  }

  /** What a channel is handed for a word: the MSR and the CXL stub the whole word, a mapped MMIO window
      its low half, and anything else nothing. */
  ghost predicate HandedOver(channel: int, mmioMapped: bool, word: int, sent: seq<Dispatch>)
  {
    if channel in {0, 2} || (channel == 1 && mmioMapped)
    then |sent| == 1 && sent[0].channel == channel
         && sent[0].word == if channel == 1 then word % 0x1_0000_0000 else word
    else sent == []
  }

  lemma RouteHandsOver(channel: int, mmioMapped: bool, word: uint64)
    ensures HandedOver(channel, mmioMapped, word, Route(channel, mmioMapped, word))
  {
  }

  /** A frame as the word it becomes: its first six bytes, little-endian, and its priority, at most 7. */
  function FrameWord(frame: seq<uint8>): nat
    requires |frame| >= 8
  {
    frame[0] + 0x100 * frame[1] as int + 0x1_0000 * frame[2] as int + 0x100_0000 * frame[3] as int
    + 0x1_0000_0000 * frame[4] as int + 0x100_0000_0000 * frame[5] as int
    + 0x1_0000_0000_0000 * (if frame[6] <= 7 then frame[6] as int else 7)
  }

  /** The hint of a frame, byte by byte. */
  ghost predicate HintOfFrame(h: WorkloadHint, frame: seq<uint8>)
    requires |frame| >= 8
  {
    && h.phaseId == frame[0]
    && h.latencyTargetNs == frame[1] + 0x100 * frame[2] as int
    && h.bwTargetGbps == frame[3] + 0x100 * frame[4] as int
    && h.securityLevel == frame[5] && h.priority == (if frame[6] <= 7 then frame[6] as int else 7)
    && h.reserved == frame[7]
  }

  lemma FrameAccepted(frame: seq<uint8>)
    requires |frame| >= 8 && 1 <= frame[0] <= 6
    ensures var r := Validate(frame, false);
            r.Accepted? && HintOfFrame(r.hint, frame) && WordOf(r.hint) == FrameWord(frame)
  {
  }

  /** One apply of a hint, recorded with the ECC reading at hand and its word handed to the channel. */
  ghost predicate AppliesOnce(s: State, t: State, pl: Platform, source: Source, h: WorkloadHint, word: int,
                              channel: int, ecc: EccTelemetry)
  {
    && t.currentPhase == h.phaseId
    && (exists sent :: HandedOver(channel, pl.mmioMapped, word, sent) && t.dispatched == s.dispatched + sent)
    && (exists a :: Recorded(a, source, h, ecc) && AppliedSafe(pl, a) && t.applied == s.applied + [a])
    && t.channel == s.channel && t.ecc == s.ecc
  }

  ghost predicate Recorded(a: Applied, source: Source, h: WorkloadHint, ecc: EccTelemetry)
  {
    a.source == source && a.hint == h && a.ecc == ecc
  }

  lemma ApplyRecorded(pl: Platform, s: State, source: Source, h: WorkloadHint, word: uint64)
    requires ValidHint(h) && word == WordOf(h)
    ensures AppliesOnce(s, ApplyHint(pl, s, source, h), pl, source, h, word, s.channel, s.ecc)
  {
    RouteHandsOver(s.channel, pl.mmioMapped, word);
    OperationSafe(pl, source, h, s.ecc);
    var a := Applied(source, h, s.ecc, ClampedFor(pl, h, s.ecc));
    assert Recorded(a, source, h, s.ecc);
  }

  /** After any run, a write is accepted exactly with eight readable bytes and a first byte in 1..6. Then
      it applies its own bytes, on the channel chosen last and under the ECC reading reported last, and
      leaves the PMU's phase alone; otherwise it changes nothing. */
  lemma WriteRecorded(pl: Platform, channel: int, ecc: EccTelemetry, es: seq<Event>, buf: seq<uint8>, faults: bool)
    ensures var s := Run(pl, Loaded(channel, ecc), es);
            var t := Run(pl, Loaded(channel, ecc), es + [Write(buf, faults)]);
            if |buf| >= 8 && !faults && 1 <= buf[0] <= 6
            then exists h :: HintOfFrame(h, buf) && t.pmuLastPhase == s.pmuLastPhase
                   && AppliesOnce(s, t, pl, Explicit, h, FrameWord(buf), ChannelInForce(es, channel),
                                  EccInForce(es, ecc))
            else t == s
  {
    var s := Run(pl, Loaded(channel, ecc), es);
    assert (es + [Write(buf, faults)])[..|es|] == es;
    InForce(pl, channel, ecc, es);
    if |buf| >= 8 && !faults && 1 <= buf[0] <= 6 {
      FrameAccepted(buf);
      var h := Validate(buf, false).hint;
      ApplyRecorded(pl, s, Explicit, h, FrameWord(buf));
      assert HintOfFrame(h, buf);
    }
  }

  /** After any run, a tick leaves the PMU at the phase its fields classify. If that is new to the PMU
      the timer applies that phase's own hint, on the channel chosen last and under the ECC reading
      reported last; otherwise nothing changes. */
  lemma TickRecorded(pl: Platform, channel: int, ecc: EccTelemetry, es: seq<Event>, tick: Tick)
    ensures var s := Run(pl, Loaded(channel, ecc), es);
            var t := Run(pl, Loaded(channel, ecc), es + [Timer(tick)]);
            && Classifies(tick.sample, tick.thresholds, s.pmuLastPhase, t.pmuLastPhase)
            && (t.pmuLastPhase == s.pmuLastPhase ==> t == s)
            && (t.pmuLastPhase != s.pmuLastPhase ==>
                  exists h :: PmuHint(t.pmuLastPhase, h)
                    && AppliesOnce(s, t, pl, Pmu, h, PmuWord(h), ChannelInForce(es, channel), EccInForce(es, ecc)))
  {
    var s := Run(pl, Loaded(channel, ecc), es);
    assert (es + [Timer(tick)])[..|es|] == es;
    InForce(pl, channel, ecc, es);
    HeldClassifies(tick, s.pmuLastPhase);
    var phase := Held(Decisive(tick), s.pmuLastPhase);
    if phase != s.pmuLastPhase {
      HintForIs(phase);
      ApplyRecorded(pl, s, Pmu, HintFor(phase), PmuWord(HintFor(phase)));
      AppliedThenRecorded(pl, s, phase);
    }
  }

  function PmuWord(h: WorkloadHint): nat
  {
    h.phaseId + 0x100 * h.latencyTargetNs as int + 0x100_0000 * h.bwTargetGbps as int
    + 0x1_0000_0000_0000 * h.priority as int
  }

  lemma AppliedThenRecorded(pl: Platform, s: State, phase: uint8)
    requires ValidHint(HintFor(phase))
    requires AppliesOnce(s, ApplyHint(pl, s, Pmu, HintFor(phase)), pl, Pmu, HintFor(phase), PmuWord(HintFor(phase)),
                         s.channel, s.ecc)
    ensures AppliesOnce(s, ApplyHint(pl, s, Pmu, HintFor(phase)).(pmuLastPhase := phase), pl, Pmu, HintFor(phase),
                        PmuWord(HintFor(phase)), s.channel, s.ecc)
  {
  }

  /** A channel change or an ECC reading changes that and nothing else. */
  lemma SettingRecorded(pl: Platform, channel: int, ecc: EccTelemetry, es: seq<Event>, e: Event)
    requires e.SetChannel? || e.EccReading?
    ensures var s := Run(pl, Loaded(channel, ecc), es);
            Run(pl, Loaded(channel, ecc), es + [e])
            == if e.SetChannel? then s.(channel := e.channel) else s.(ecc := e.ecc)
  {
    assert (es + [e])[..|es|] == es;
  }
}
