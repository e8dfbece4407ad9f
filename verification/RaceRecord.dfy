/** What the concurrent driver leaves behind, read off the actions of its run: which channel and which
    ECC reading were in force when an actor took each of its steps, and where its words went. */
module RaceRecord {
  import opened CTypes
  import opened HintWord
  import opened SafetyLimiter
  import opened PmuClassifier
  import opened Driver
  import opened History
  import opened ApplyRace
  import opened RunRecord

  // ---- Read off the actions ----

  function ChannelChosen(actions: seq<Action>, initial: int): int
  {
    if actions == [] then initial
    else if actions[|actions| - 1].ChooseChannel? then actions[|actions| - 1].newChannel
    else ChannelChosen(actions[..|actions| - 1], initial)
  }

  function EccReported(actions: seq<Action>, initial: EccTelemetry): EccTelemetry
  {
    if actions == [] then initial
    else if actions[|actions| - 1].ReportEcc? then actions[|actions| - 1].reading
    else EccReported(actions[..|actions| - 1], initial)
  }

  /** Whether the last of some actions takes an actor from one point of its apply to the next. */
  ghost predicate Reads(pl: Platform, w: World, actions: seq<Action>, a: Actor)
  {
    && actions != [] && actions[|actions| - 1] == ReadChannel(a)
    && PcOf(Exec(pl, w, actions[..|actions| - 1]), a).Computed?
  }

  ghost predicate Begins(pl: Platform, w: World, actions: seq<Action>, a: Actor)
  {
    && actions != []
    && PcOf(Exec(pl, w, actions[..|actions| - 1]), a).Resting? && PcOf(Exec(pl, w, actions), a).Computed?
  }

  /** The channels in force whenever an actor read the channel, in order. */
  ghost function ChannelsAtReads(pl: Platform, channel: int, ecc: EccTelemetry, actions: seq<Action>, a: Actor)
    : seq<int>
  {
    if actions == [] then []
    else
      var before := actions[..|actions| - 1];
      ChannelsAtReads(pl, channel, ecc, before, a)
      + (if Reads(pl, Fresh(channel, ecc), actions, a) then [ChannelChosen(before, channel)] else [])
  }

  /** The ECC readings in force whenever an actor began an apply, in order. */
  ghost function ReadingsAtBegins(pl: Platform, channel: int, ecc: EccTelemetry, actions: seq<Action>, a: Actor)
    : seq<EccTelemetry>
  {
    if actions == [] then []
    else
      var before := actions[..|actions| - 1];
      ReadingsAtBegins(pl, channel, ecc, before, a)
      + (if Begins(pl, Fresh(channel, ecc), actions, a) then [EccReported(before, ecc)] else [])
  }

  lemma {:induction false} InForceNow(pl: Platform, channel: int, ecc: EccTelemetry, actions: seq<Action>)
    ensures var w := Exec(pl, Fresh(channel, ecc), actions);
            w.channel == ChannelChosen(actions, channel) && w.ecc == EccReported(actions, ecc)
  {
    if actions != [] {
      InForceNow(pl, channel, ecc, actions[..|actions| - 1]);
    }
  }

  // ---- Channels ----

  lemma StepReads(pl: Platform, w: World, action: Action, a: Actor)
    ensures Only(Act(pl, w, action).routed, a)
            == Only(w.routed, a) + if action == ReadChannel(a) && PcOf(w, a).Computed? then [w.channel] else []
  {
    if action.ReadChannel? {
      OnlyAppend(w.routed, action.actor, w.channel, a);
    }
  }

  lemma {:induction false} ReadsAreRouted(pl: Platform, channel: int, ecc: EccTelemetry, actions: seq<Action>, a: Actor)
    ensures Only(Exec(pl, Fresh(channel, ecc), actions).routed, a) == ChannelsAtReads(pl, channel, ecc, actions, a)
  {
    if actions != [] {
      var before := actions[..|actions| - 1];
      ReadsAreRouted(pl, channel, ecc, before, a);
      InForceNow(pl, channel, ecc, before);
      StepReads(pl, Exec(pl, Fresh(channel, ecc), before), actions[|actions| - 1], a);
    }
  }

  /** How many of some channels take a word. */
  function Takers(channels: seq<int>, mmioMapped: bool): nat
  {
    if channels == [] then 0
    else
      var c := channels[|channels| - 1];
      Takers(channels[..|channels| - 1], mmioMapped) + if c in {0, 2} || (c == 1 && mmioMapped) then 1 else 0
  }

  /** Word i of an actor, if its channel takes one, on that channel: the encoded hint of the actor's apply
      i, and on the MMIO window its low half. */
  ghost predicate WordSent(mmioMapped: bool, out: seq<Dispatch>, ops: seq<Applied>, channels: seq<int>, i: nat)
    requires i < |channels| <= |ops|
  {
    var c, n := channels[i], Takers(channels[..i], mmioMapped);
    c in {0, 2} || (c == 1 && mmioMapped) ==>
      && n < |out| && out[n].channel == c
      && out[n].word == if c == 1 then WordOf(ops[i].hint) % 0x1_0000_0000 else WordOf(ops[i].hint)
  }

  /** Every word of an actor's applies that its channels take is sent, and nothing else, but for the one
      in hand. */
  ghost predicate SentByChannel(mmioMapped: bool, ops: seq<Applied>, channels: seq<int>, out: seq<Dispatch>, pc: Pc)
  {
    var sent := |channels| - if pc.Routed? then 1 else 0;
    && |ops| == |channels| + (if pc.Computed? then 1 else 0)
    && 0 <= sent && |out| == Takers(channels[..sent], mmioMapped)
    && forall i :: 0 <= i < sent ==> WordSent(mmioMapped, out, ops, channels, i)
  }

  lemma {:induction false} DeliveredWords(mmioMapped: bool, ops: seq<Applied>, channels: seq<int>)
    requires |channels| <= |ops|
    ensures |Delivered(mmioMapped, ops, channels)| == Takers(channels, mmioMapped)
    ensures forall i :: 0 <= i < |channels| ==>
              WordSent(mmioMapped, Delivered(mmioMapped, ops, channels), ops, channels, i)
    decreases |channels|
  {
    if channels != [] {
      var n := |channels| - 1;
      DeliveredWords(mmioMapped, ops, channels[..n]);
      RouteHandsOver(channels[n], mmioMapped, WordOf(ops[n].hint));
      forall i | 0 <= i < |channels|
        ensures WordSent(mmioMapped, Delivered(mmioMapped, ops, channels), ops, channels, i)
      {
        WordAppended(mmioMapped, ops, channels, i);
      }
    }
  }

  lemma WordAppended(mmioMapped: bool, ops: seq<Applied>, channels: seq<int>, i: nat)
    requires i < |channels| <= |ops|
    requires var n := |channels| - 1; var before := Delivered(mmioMapped, ops, channels[..n]);
             && |before| == Takers(channels[..n], mmioMapped)
             && (i < n ==> WordSent(mmioMapped, before, ops, channels[..n], i))
    ensures WordSent(mmioMapped, Delivered(mmioMapped, ops, channels), ops, channels, i)
  {
    var n := |channels| - 1;
    RouteHandsOver(channels[n], mmioMapped, WordOf(ops[n].hint));
    if i < n {
      assert channels[..n][..i] == channels[..i];
    }
  }

  /** Over every interleaving: apply i of an actor puts its word on the channel that was the last one
      chosen, or the initial one, when the actor read the channel for that apply; nothing else of that
      actor is on the wire. Of what it has routed, only the word in hand may be missing. */
  lemma WordsGoWhereChosen(pl: Platform, channel: int, ecc: EccTelemetry, actions: seq<Action>, a: Actor)
    ensures var w := Exec(pl, Fresh(channel, ecc), actions);
            SentByChannel(pl.mmioMapped, Only(w.begun, a), ChannelsAtReads(pl, channel, ecc, actions, a),
                          Only(w.dispatched, a), PcOf(w, a))
  {
    var w := Exec(pl, Fresh(channel, ecc), actions);
    ActorAlwaysFits(pl, channel, ecc, actions, a);
    ReadsAreRouted(pl, channel, ecc, actions, a);
    if PcOf(w, a).Routed? {
      InHandIsLast(pl, w, a);
    }
    WiredWordsSent(pl.mmioMapped, Only(w.begun, a), Only(w.routed, a), Only(w.dispatched, a), PcOf(w, a));
  }

  lemma ActorAlwaysFits(pl: Platform, channel: int, ecc: EccTelemetry, actions: seq<Action>, a: Actor)
    ensures Fits(pl, Exec(pl, Fresh(channel, ecc), actions), a)
  {
    AlwaysInv(pl, channel, ecc, actions);
  }

  lemma InHandIsLast(pl: Platform, w: World, a: Actor)
    requires Fits(pl, w, a) && PcOf(w, a).Routed?
    ensures Only(w.begun, a)[|Only(w.routed, a)| - 1] == PcOf(w, a).op
  {
  }

  lemma WiredWordsSent(mmioMapped: bool, ops: seq<Applied>, channels: seq<int>, out: seq<Dispatch>, pc: Pc)
    requires Wired(mmioMapped, ops, channels, out, pc)
    requires pc.Routed? ==> ops[|channels| - 1] == pc.op
    ensures SentByChannel(mmioMapped, ops, channels, out, pc)
  {
    var sent := |channels| - if pc.Routed? then 1 else 0;
    SentSoFar(mmioMapped, ops, channels, out, pc);
    DeliveredWords(mmioMapped, ops, channels[..sent]);
    forall i | 0 <= i < sent ensures WordSent(mmioMapped, out, ops, channels, i) {
      assert WordSent(mmioMapped, out, ops, channels[..sent], i);
      assert channels[..sent][..i] == channels[..i];
    }
  }

  lemma SentSoFar(mmioMapped: bool, ops: seq<Applied>, channels: seq<int>, out: seq<Dispatch>, pc: Pc)
    requires Wired(mmioMapped, ops, channels, out, pc)
    requires pc.Routed? ==> ops[|channels| - 1] == pc.op
    ensures out == Delivered(mmioMapped, ops, channels[..|channels| - if pc.Routed? then 1 else 0])
  {
    if pc.Routed? {
      var before, last := Delivered(mmioMapped, ops, channels[..|channels| - 1]), Unsent(mmioMapped, pc);
      assert before + last == out + last;
      assert |before| == |out|;
      assert out == (out + last)[..|out|] && before == (before + last)[..|before|];
    } else {
      assert channels[..|channels|] == channels;
    }
  }

  // ---- ECC readings ----

  lemma StepBegins(pl: Platform, w: World, action: Action, a: Actor)
    ensures var v := Act(pl, w, action); var begins := PcOf(w, a).Resting? && PcOf(v, a).Computed?;
            && (begins ==> PcOf(v, a).op.ecc == w.ecc)
            && Only(v.begun, a) == Only(w.begun, a) + if begins then [PcOf(v, a).op] else []
  {
    var v := Act(pl, w, action);
    if |v.begun| > |w.begun| {
      var (b, op) := v.begun[|w.begun|];
      OnlyAppend(w.begun, b, op, a);
    }
  }

  ghost predicate ReadingsMatch(ops: seq<Applied>, readings: seq<EccTelemetry>)
  {
    |ops| == |readings| && forall i :: 0 <= i < |ops| ==> ops[i].ecc == readings[i]
  }

  /** Over every interleaving: each apply of an actor is limited under the ECC reading that was the last
      one reported, or the initial one, when that apply began. */
  lemma {:induction false} ReadingsInForce(pl: Platform, channel: int, ecc: EccTelemetry,
                                           actions: seq<Action>, a: Actor)
    ensures ReadingsMatch(Only(Exec(pl, Fresh(channel, ecc), actions).begun, a),
                          ReadingsAtBegins(pl, channel, ecc, actions, a))
  {
    if actions != [] {
      var before := actions[..|actions| - 1];
      ReadingsInForce(pl, channel, ecc, before, a);
      InForceNow(pl, channel, ecc, before);
      StepBegins(pl, Exec(pl, Fresh(channel, ecc), before), actions[|actions| - 1], a);
    }
  }

  // ---- Frames and ticks ----

  /** The frames of the writes by which a writer began its applies, in order. */
  ghost function FramesAtBegins(pl: Platform, channel: int, ecc: EccTelemetry, actions: seq<Action>, id: nat)
    : seq<seq<uint8>>
  {
    if actions == [] then []
    else
      var before, last := actions[..|actions| - 1], actions[|actions| - 1];
      FramesAtBegins(pl, channel, ecc, before, id)
      + (if last.BeginWrite? && Begins(pl, Fresh(channel, ecc), actions, Writer(id)) then [last.buf] else [])
  }

  lemma StepWrites(pl: Platform, w: World, action: Action, id: nat)
    ensures var v := Act(pl, w, action); var begins := PcOf(w, Writer(id)).Resting? && PcOf(v, Writer(id)).Computed?;
            && (begins <==> PcOf(w, Writer(id)).Resting? && action.BeginWrite? && action.id == id
                            && |action.buf| >= 8 && !action.copyFaults && 1 <= action.buf[0] <= 6)
            && Only(v.writes, id) == Only(w.writes, id) + if begins && action.BeginWrite? then [action.buf] else []
  {
    if action.BeginWrite? {
      OnlyAppend(w.writes, action.id, action.buf, id);
    }
  }

  lemma {:induction false} FramesAreWritten(pl: Platform, channel: int, ecc: EccTelemetry,
                                            actions: seq<Action>, id: nat)
    ensures Only(Exec(pl, Fresh(channel, ecc), actions).writes, id) == FramesAtBegins(pl, channel, ecc, actions, id)
  {
    if actions != [] {
      var before := actions[..|actions| - 1];
      FramesAreWritten(pl, channel, ecc, before, id);
      StepWrites(pl, Exec(pl, Fresh(channel, ecc), before), actions[|actions| - 1], id);
    }
  }

  /** Over every interleaving: apply i of a writer carries the bytes of the frame that began it, as hint
      and as word. */
  lemma WritersApplyTheirFrames(pl: Platform, channel: int, ecc: EccTelemetry, actions: seq<Action>, id: nat, i: nat)
    requires i < |Only(Exec(pl, Fresh(channel, ecc), actions).begun, Writer(id))|
    ensures var op := Only(Exec(pl, Fresh(channel, ecc), actions).begun, Writer(id))[i];
            var frames := FramesAtBegins(pl, channel, ecc, actions, id);
            && |frames| == |Only(Exec(pl, Fresh(channel, ecc), actions).begun, Writer(id))|
            && |frames[i]| >= 8 && op.source == Explicit
            && HintOfFrame(op.hint, frames[i]) && WordOf(op.hint) == FrameWord(frames[i])
  {
    var w := Exec(pl, Fresh(channel, ecc), actions);
    AlwaysInv(pl, channel, ecc, actions);
    FramesAreWritten(pl, channel, ecc, actions, id);
    assert WriterFaithful(w, id) && Fits(pl, w, Writer(id));
    FrameAccepted(Only(w.writes, id)[i]);
  }

  /** Over every interleaving: each apply of the timer carries the PMU path's own hint for its phase, as
      hint and as word. */
  lemma TimerAppliesItsHints(pl: Platform, channel: int, ecc: EccTelemetry, actions: seq<Action>, i: nat)
    requires i < |Only(Exec(pl, Fresh(channel, ecc), actions).begun, PmuTimer)|
    ensures var op := Only(Exec(pl, Fresh(channel, ecc), actions).begun, PmuTimer)[i];
            && op.source == Pmu && op.hint.phaseId in {1, 2, 3, 4}
            && PmuHint(op.hint.phaseId, op.hint) && WordOf(op.hint) == PmuWord(op.hint)
  {
    var w := Exec(pl, Fresh(channel, ecc), actions);
    ActorAlwaysFits(pl, channel, ecc, actions, PmuTimer);
    AlwaysInv(pl, channel, ecc, actions);
    TimersHint(w, i);
  }

  lemma TimersHint(w: World, i: nat)
    requires TimerFaithful(w) && i < |Only(w.begun, PmuTimer)|
    ensures var op := Only(w.begun, PmuTimer)[i];
            op.hint.phaseId in {1, 2, 3, 4} && PmuHint(op.hint.phaseId, op.hint) && WordOf(op.hint) == PmuWord(op.hint)
  {
    TimerApplies(w.ticks);
    assert TimerRun(w.ticks).applied[i] in TimerRun(w.ticks).applied;
    TimerHint(Only(w.begun, PmuTimer)[i], TimerRun(w.ticks).applied[i]);
  }

  lemma TimerHint(op: Applied, phase: uint8)
    requires op.hint == HintFor(phase) && phase in {PHASE_PREFILL, PHASE_DECODE, PHASE_AGENTIC, PHASE_IDLE}
    ensures op.hint.phaseId in {1, 2, 3, 4}
    ensures PmuHint(op.hint.phaseId, op.hint) && WordOf(op.hint) == PmuWord(op.hint)
  {
    HintForIs(phase);
  }

  /** No log is ever rewritten: what a run has recorded stays, in place, whatever follows. */
  lemma {:induction false} LogsOnlyGrow(pl: Platform, w: World, actions: seq<Action>)
    ensures var v := Exec(pl, w, actions);
            w.dispatched <= v.dispatched && w.applied <= v.applied && w.begun <= v.begun && w.ticks <= v.ticks
  {
    if actions != [] {
      LogsOnlyGrow(pl, w, actions[..|actions| - 1]);
    }
  }

  /** The ticks that found the timer at rest, in order. */
  ghost function TicksTaken(pl: Platform, channel: int, ecc: EccTelemetry, actions: seq<Action>): seq<Tick>
  {
    if actions == [] then []
    else
      var before, last := actions[..|actions| - 1], actions[|actions| - 1];
      TicksTaken(pl, channel, ecc, before)
      + (if last.BeginTick? && PcOf(Exec(pl, Fresh(channel, ecc), before), PmuTimer).Resting? then [last.tick] else [])
  }

  lemma StepTicks(pl: Platform, w: World, action: Action)
    ensures Act(pl, w, action).ticks
            == w.ticks + if action.BeginTick? && PcOf(w, PmuTimer).Resting? then [action.tick] else []
  {
  }

  lemma {:induction false} TicksAreTaken(pl: Platform, channel: int, ecc: EccTelemetry, actions: seq<Action>)
    ensures Exec(pl, Fresh(channel, ecc), actions).ticks == TicksTaken(pl, channel, ecc, actions)
  {
    if actions != [] {
      var before := actions[..|actions| - 1];
      TicksAreTaken(pl, channel, ecc, before);
      StepTicks(pl, Exec(pl, Fresh(channel, ecc), before), actions[|actions| - 1]);
    }
  }

  /** Over every interleaving: the timer holds or carries out the phase that the ticks it has taken
      decide on, unaffected by any writer, and has begun exactly that stream without repeats. */
  lemma TimerFollowsItsTicks(pl: Platform, channel: int, ecc: EccTelemetry, actions: seq<Action>)
    ensures var w := Exec(pl, Fresh(channel, ecc), actions);
            var ticks, pc := TicksTaken(pl, channel, ecc, actions), PcOf(w, PmuTimer);
            && (if pc.Resting? then w.pmuLastPhase else pc.op.hint.phaseId) == LatestDecisive(ticks, 4)
            && HintsFor(Only(w.begun, PmuTimer), WithoutRepeats(4, Classified(ticks, 4)))
  {
    var w := Exec(pl, Fresh(channel, ecc), actions);
    AlwaysInv(pl, channel, ecc, actions);
    TicksAreTaken(pl, channel, ecc, actions);
    TimerRefinesHysteresis(w.ticks);
  }

  /** No apply waits for another: whatever everyone else is doing, an actor inside an apply can take its
      next step, and no one but the actor itself moves it. */
  lemma NoOneWaits(pl: Platform, w: World, a: Actor, action: Action)
    ensures PcOf(w, a).Computed? ==> PcOf(Act(pl, w, ReadChannel(a)), a).Routed?
    ensures PcOf(w, a).Routed? ==> PcOf(Act(pl, w, Emit(a)), a).Emitted?
    ensures PcOf(w, a).Emitted? && a.Writer? ==> PcOf(Act(pl, w, Store(a)), a).Resting?
    ensures PcOf(w, a).Emitted? && a.PmuTimer? ==> PcOf(Act(pl, w, Store(a)), a).Stored?
    ensures PcOf(w, PmuTimer).Stored? ==> PcOf(Act(pl, w, CommitPmu), PmuTimer).Resting?
    ensures PcOf(Act(pl, w, action), a) != PcOf(w, a) ==>
              action in {ReadChannel(a), Emit(a), Store(a)}
              || (a.Writer? && action.BeginWrite? && action.id == a.id)
              || (a.PmuTimer? && (action.BeginTick? || action.CommitPmu?))
  {
  }
}
