/** The driver as it really runs: any number of writers and the PMU timer execute an apply
    concurrently and without a lock. Each apply is split at its accesses to shared state. */
module ApplyRace {
  import opened CTypes
  import opened HintWord
  import opened SafetyLimiter
  import opened PmuClassifier
  import opened Driver
  import opened History

  datatype Actor = Writer(id: nat) | PmuTimer

  /** How far an actor has got with its current apply. */
  datatype Pc =
    | Resting
    | Computed(op: Applied)                // limits and ECC state read, hint encoded
    | Routed(op: Applied, channel: int)    // active_channel read
    | Emitted(op: Applied)                 // word handed to the channel
    | Stored(op: Applied)                  // phase stored; the timer has yet to record it as its own

  datatype World = World(
    currentPhase: uint8,
    pmuLastPhase: uint8,
    channel: int,
    ecc: EccTelemetry,
    dispatched: seq<(Actor, Dispatch)>,
    applied: seq<(Actor, Applied)>,        // applies, in the order they store their phase
    pcs: map<Actor, Pc>,
    writes: seq<(nat, seq<uint8>)>,        // frames the driver has accepted, by writer
    ticks: seq<Tick>,                      // ticks the timer has taken
    begun: seq<(Actor, Applied)>,          // applies, in the order they start
    routed: seq<(Actor, int)>)             // channels read, one by each apply

  datatype Action =
    | BeginWrite(id: nat, buf: seq<uint8>, copyFaults: bool)
    | BeginTick(tick: Tick)
    | ReadChannel(actor: Actor)
    | Emit(actor: Actor)
    | Store(actor: Actor)
    | CommitPmu
    | ChooseChannel(newChannel: int)
    | ReportEcc(reading: EccTelemetry)

  function Fresh(channel: int, ecc: EccTelemetry): World
  {
    World(PHASE_IDLE, PHASE_IDLE, channel, ecc, [], [], map[], [], [], [], [])
  }

  function PcOf(w: World, a: Actor): Pc { if a in w.pcs then w.pcs[a] else Resting }

  // Each step of an apply, as a change to the world.

  function Begin(pl: Platform, w: World, a: Actor, h: WorkloadHint): World
  {
    var op := Applied(SourceOf(a), h, w.ecc, ClampedFor(pl, h, w.ecc));
    w.(pcs := w.pcs[a := Computed(op)], begun := w.begun + [(a, op)])
  }

  function SourceOf(a: Actor): Source { if a == PmuTimer then Pmu else Explicit }

  function RoutedBy(w: World, a: Actor, op: Applied): World
  {
    w.(pcs := w.pcs[a := Routed(op, w.channel)], routed := w.routed + [(a, w.channel)])
  }

  function EmittedBy(w: World, a: Actor, op: Applied, sent: seq<Dispatch>): World
    requires |sent| <= 1
  {
    w.(pcs := w.pcs[a := Emitted(op)],
       dispatched := w.dispatched + if sent == [] then [] else [(a, sent[0])])
  }

  function StoredBy(w: World, a: Actor, op: Applied): World
  {
    w.(pcs := w.pcs[a := if a == PmuTimer then Stored(op) else Resting],
       currentPhase := op.hint.phaseId,
       applied := w.applied + [(a, op)])
  }

  function Committed(w: World, op: Applied): World
  {
    w.(pcs := w.pcs[PmuTimer := Resting], pmuLastPhase := op.hint.phaseId)
  }

  function Written(pl: Platform, w: World, id: nat, buf: seq<uint8>, h: WorkloadHint): World
  {
    Begin(pl, w.(writes := w.writes + [(id, buf)]), Writer(id), h)
  }

  function Ticked(pl: Platform, w: World, tick: Tick): World
  {
    var phase := Held(Decisive(tick), w.pmuLastPhase);
    var taken := w.(ticks := w.ticks + [tick]);
    if phase != w.pmuLastPhase then Begin(pl, taken, PmuTimer, HintFor(phase)) else taken
  }

  /** One step; an action that is not enabled changes nothing. */
  function Act(pl: Platform, w: World, action: Action): World
  {
    match action
    case BeginWrite(id, buf, faults) =>
      var r := Validate(buf, faults);
      if PcOf(w, Writer(id)).Resting? && r.Accepted? then Written(pl, w, id, buf, r.hint) else w
    case BeginTick(tick) =>
      if PcOf(w, PmuTimer).Resting? then Ticked(pl, w, tick) else w
    case ReadChannel(a) =>
      var pc := PcOf(w, a);
      if pc.Computed? then RoutedBy(w, a, pc.op) else w
    case Emit(a) =>
      var pc := PcOf(w, a);
      if pc.Routed? then EmittedBy(w, a, pc.op, Route(pc.channel, pl.mmioMapped, WordOf(pc.op.hint))) else w
    case Store(a) =>
      var pc := PcOf(w, a);
      if pc.Emitted? then StoredBy(w, a, pc.op) else w
    case CommitPmu =>
      var pc := PcOf(w, PmuTimer);
      if pc.Stored? then Committed(w, pc.op) else w
    case ChooseChannel(channel) => w.(channel := channel)
    case ReportEcc(ecc) => w.(ecc := ecc)
  }

  function Exec(pl: Platform, w: World, actions: seq<Action>): World
  {
    if actions == [] then w else Act(pl, Exec(pl, w, actions[..|actions| - 1]), actions[|actions| - 1])
  }

  ghost predicate Quiescent(w: World) { forall a :: PcOf(w, a).Resting? }

  // ---- What every interleaving keeps ----

  /** The apply that has begun and not yet stored its phase. */
  function InFlight(pc: Pc): seq<Applied>
  {
    if pc.Resting? || pc.Stored? then [] else [pc.op]
  }

  /** The word that is routed and not yet handed over. */
  function Unsent(mmioMapped: bool, pc: Pc): seq<Dispatch>
  {
    if pc.Routed? then Route(pc.channel, mmioMapped, WordOf(pc.op.hint)) else []
  }

  /** What applies put on the wire when each is routed by the channel it read. */
  function Delivered(mmioMapped: bool, ops: seq<Applied>, channels: seq<int>): seq<Dispatch>
    requires |channels| <= |ops|
    decreases |channels|
  {
    if channels == [] then []
    else
      var n := |channels| - 1;
      Delivered(mmioMapped, ops, channels[..n]) + Route(channels[n], mmioMapped, WordOf(ops[n].hint))
  }

  ghost predicate OpsGenuine(pl: Platform, ops: seq<Applied>, source: Source)
  {
    forall i :: 0 <= i < |ops| ==> Genuine(pl, ops[i]) && ops[i].source == source
  }

  /** The applies of one actor are stored in the order they began, whole and unaltered, none lost or
      repeated. */
  ghost predicate Kept(pl: Platform, begun: seq<Applied>, applied: seq<Applied>, pc: Pc, a: Actor)
  {
    && begun == applied + InFlight(pc)
    && (pc.Stored? ==> a == PmuTimer)
    && OpsGenuine(pl, begun, SourceOf(a))
  }

  /** The words of one actor on the wire are those of its applies, in order, each by the channel it
      read. */
  ghost predicate Wired(mmioMapped: bool, begun: seq<Applied>, routed: seq<int>, out: seq<Dispatch>, pc: Pc)
  {
    && |begun| == |routed| + (if pc.Computed? then 1 else 0)
    && Delivered(mmioMapped, begun, routed) == out + Unsent(mmioMapped, pc)
    && (pc.Routed? ==> routed != [] && routed[|routed| - 1] == pc.channel)
  }

  ghost predicate ActorFits(pl: Platform, w: World, a: Actor)
  {
    Kept(pl, Only(w.begun, a), Only(w.applied, a), PcOf(w, a), a)
  }

  ghost predicate WireFits(mmioMapped: bool, w: World, a: Actor)
  {
    Wired(mmioMapped, Only(w.begun, a), Only(w.routed, a), Only(w.dispatched, a), PcOf(w, a))
  }

  ghost predicate ShownIsStored(w: World)
  {
    && IsPhase(w.currentPhase)
    && w.currentPhase == (if w.applied == [] then PHASE_IDLE else w.applied[|w.applied| - 1].1.hint.phaseId)
  }

  ghost predicate LogsSafe(pl: Platform, w: World)
  {
    && (forall x :: x in w.applied ==> Genuine(pl, x.1))
    && (forall d :: d in w.dispatched ==> WordSafe(d.1))
  }

  /** Applies carry out phases decided by the classifier. */
  ghost predicate HintsFor(ops: seq<Applied>, phases: seq<uint8>)
  {
    |ops| == |phases| && forall i :: 0 <= i < |ops| ==> ops[i].hint == HintFor(phases[i])
  }

  /** The timer's view: its in-flight or recorded phase is the classified one, and what it has begun
      is exactly the run of its own ticks. */
  ghost predicate TimerFaithful(w: World)
  {
    var pc := PcOf(w, PmuTimer);
    && (if pc.Resting? then w.pmuLastPhase else pc.op.hint.phaseId) == TimerRun(w.ticks).lastPhase
    && HintsFor(Only(w.begun, PmuTimer), TimerRun(w.ticks).applied)
  }

  /** Applies carry out accepted frames. */
  ghost predicate HintsIn(ops: seq<Applied>, frames: seq<seq<uint8>>)
  {
    |ops| == |frames| && forall i :: 0 <= i < |ops| ==> Validate(frames[i], false) == Accepted(ops[i].hint)
  }

  /** A writer's view: what it has begun is what its accepted frames ask for. */
  ghost predicate WriterFaithful(w: World, id: nat)
  {
    HintsIn(Only(w.begun, Writer(id)), Only(w.writes, id))
  }

  ghost predicate Fits(pl: Platform, w: World, a: Actor)
  {
    ActorFits(pl, w, a) && WireFits(pl.mmioMapped, w, a)
  }

  ghost predicate Inv(pl: Platform, w: World)
  {
    && (forall a :: Fits(pl, w, a))
    && (forall id: nat :: WriterFaithful(w, id))
    && ShownIsStored(w) && LogsSafe(pl, w) && TimerFaithful(w)
  }

  lemma {:induction false} DeliveredExtends(mmioMapped: bool, ops: seq<Applied>, op: Applied, channels: seq<int>)
    requires |channels| <= |ops|
    ensures Delivered(mmioMapped, ops + [op], channels) == Delivered(mmioMapped, ops, channels)
    decreases |channels|
  {
    if channels != [] {
      DeliveredExtends(mmioMapped, ops, op, channels[..|channels| - 1]);
    }
  }

  lemma DeliveredAppend(mmioMapped: bool, ops: seq<Applied>, channels: seq<int>, channel: int)
    requires |channels| < |ops|
    ensures Delivered(mmioMapped, ops, channels + [channel])
            == Delivered(mmioMapped, ops, channels) + Route(channel, mmioMapped, WordOf(ops[|channels|].hint))
  {
    assert (channels + [channel])[..|channels|] == channels;
  }

  lemma BeginWired(mmioMapped: bool, begun: seq<Applied>, routed: seq<int>, out: seq<Dispatch>, op: Applied)
    requires Wired(mmioMapped, begun, routed, out, Resting)
    ensures Wired(mmioMapped, begun + [op], routed, out, Computed(op))
  {
    DeliveredExtends(mmioMapped, begun, op, routed);
  }

  lemma RouteWired(mmioMapped: bool, begun: seq<Applied>, routed: seq<int>, out: seq<Dispatch>,
                   op: Applied, channel: int)
    requires Wired(mmioMapped, begun, routed, out, Computed(op)) && begun[|begun| - 1] == op
    ensures Wired(mmioMapped, begun, routed + [channel], out, Routed(op, channel))
  {
    DeliveredAppend(mmioMapped, begun, routed, channel);
  }

  lemma BeginKept(pl: Platform, begun: seq<Applied>, applied: seq<Applied>, a: Actor, op: Applied)
    requires Kept(pl, begun, applied, Resting, a) && Genuine(pl, op) && op.source == SourceOf(a)
    ensures Kept(pl, begun + [op], applied, Computed(op), a)
  {
  }

  lemma BeginFits(pl: Platform, w: World, a: Actor, h: WorkloadHint, b: Actor)
    requires Fits(pl, w, b) && PcOf(w, a).Resting? && ValidHint(h)
    ensures Fits(pl, Begin(pl, w, a, h), b)
  {
    var op := Applied(SourceOf(a), h, w.ecc, ClampedFor(pl, h, w.ecc));
    OnlyAppend(w.begun, a, op, b);
    if a == b {
      BeginKept(pl, Only(w.begun, a), Only(w.applied, a), a, op);
      BeginWired(pl.mmioMapped, Only(w.begun, a), Only(w.routed, a), Only(w.dispatched, a), op);
    }
  }

  lemma MovedKept(pl: Platform, begun: seq<Applied>, applied: seq<Applied>, pc: Pc, next: Pc, a: Actor)
    requires Kept(pl, begun, applied, pc, a) && InFlight(pc) == InFlight(next) && !next.Stored?
    ensures Kept(pl, begun, applied, next, a)
  {
  }

  lemma EmitWired(mmioMapped: bool, begun: seq<Applied>, routed: seq<int>, out: seq<Dispatch>, pc: Pc)
    requires pc.Routed? && Wired(mmioMapped, begun, routed, out, pc)
    ensures Wired(mmioMapped, begun, routed, out + Unsent(mmioMapped, pc), Emitted(pc.op))
  {
  }

  /** A step of one actor leaves the histories of the others alone. */
  lemma OtherFits(pl: Platform, w: World, v: World, b: Actor)
    requires Fits(pl, w, b) && PcOf(v, b) == PcOf(w, b)
    requires Only(v.begun, b) == Only(w.begun, b) && Only(v.applied, b) == Only(w.applied, b)
    requires Only(v.routed, b) == Only(w.routed, b) && Only(v.dispatched, b) == Only(w.dispatched, b)
    ensures Fits(pl, v, b)
  {
  }

  lemma RoutedFits(pl: Platform, w: World, a: Actor, op: Applied, b: Actor)
    requires Fits(pl, w, b) && PcOf(w, a) == Computed(op)
    ensures Fits(pl, RoutedBy(w, a, op), b)
  {
    OnlyAppend(w.routed, a, w.channel, b);
    if a == b {
      MovedKept(pl, Only(w.begun, a), Only(w.applied, a), Computed(op), Routed(op, w.channel), a);
      RouteWired(pl.mmioMapped, Only(w.begun, a), Only(w.routed, a), Only(w.dispatched, a), op, w.channel);
    } else {
      OtherFits(pl, w, RoutedBy(w, a, op), b);
    }
  }

  lemma EmittedOnly(w: World, a: Actor, op: Applied, sent: seq<Dispatch>, b: Actor)
    requires |sent| <= 1
    ensures Only(EmittedBy(w, a, op, sent).dispatched, b) == Only(w.dispatched, b) + if a == b then sent else []
  {
    if sent != [] {
      OnlyAppend(w.dispatched, a, sent[0], b);
      assert sent == [sent[0]];
    } else {
      assert w.dispatched + [] == w.dispatched;
    }
  }

  lemma EmitterFits(pl: Platform, w: World, a: Actor, sent: seq<Dispatch>)
    requires Fits(pl, w, a) && PcOf(w, a).Routed? && |sent| <= 1 && sent == Unsent(pl.mmioMapped, PcOf(w, a))
    ensures Fits(pl, EmittedBy(w, a, PcOf(w, a).op, sent), a)
  {
    var pc := PcOf(w, a);
    EmittedOnly(w, a, pc.op, sent, a);
    MovedKept(pl, Only(w.begun, a), Only(w.applied, a), pc, Emitted(pc.op), a);
    EmitWired(pl.mmioMapped, Only(w.begun, a), Only(w.routed, a), Only(w.dispatched, a), pc);
  }

  lemma EmittedFits(pl: Platform, w: World, a: Actor, sent: seq<Dispatch>, b: Actor)
    requires Fits(pl, w, b) && PcOf(w, a).Routed? && |sent| <= 1 && sent == Unsent(pl.mmioMapped, PcOf(w, a))
    ensures Fits(pl, EmittedBy(w, a, PcOf(w, a).op, sent), b)
  {
    if a == b {
      EmitterFits(pl, w, a, sent);
    } else {
      EmittedOnly(w, a, PcOf(w, a).op, sent, b);
      OtherFits(pl, w, EmittedBy(w, a, PcOf(w, a).op, sent), b);
    }
  }

  lemma StoreKept(pl: Platform, begun: seq<Applied>, applied: seq<Applied>, op: Applied, next: Pc, a: Actor)
    requires Kept(pl, begun, applied, Emitted(op), a)
    requires next == if a == PmuTimer then Stored(op) else Resting
    ensures Kept(pl, begun, applied + [op], next, a)
  {
  }

  lemma StoredFits(pl: Platform, w: World, a: Actor, op: Applied, b: Actor)
    requires Fits(pl, w, b) && PcOf(w, a) == Emitted(op)
    ensures Fits(pl, StoredBy(w, a, op), b)
  {
    OnlyAppend(w.applied, a, op, b);
    if a == b {
      StoreKept(pl, Only(w.begun, a), Only(w.applied, a), op, PcOf(StoredBy(w, a, op), a), a);
    } else {
      OtherFits(pl, w, StoredBy(w, a, op), b);
    }
  }

  lemma CommittedFits(pl: Platform, w: World, op: Applied, b: Actor)
    requires Fits(pl, w, b) && PcOf(w, PmuTimer) == Stored(op)
    ensures Fits(pl, Committed(w, op), b)
  {
  }

  lemma WrittenFits(pl: Platform, w: World, id: nat, buf: seq<uint8>, h: WorkloadHint, b: Actor)
    requires Fits(pl, w, b) && PcOf(w, Writer(id)).Resting? && ValidHint(h)
    ensures Fits(pl, Written(pl, w, id, buf, h), b)
  {
    var taken := w.(writes := w.writes + [(id, buf)]);
    assert Fits(pl, taken, b);
    BeginFits(pl, taken, Writer(id), h, b);
  }

  lemma TickedFits(pl: Platform, w: World, tick: Tick, b: Actor)
    requires Fits(pl, w, b) && PcOf(w, PmuTimer).Resting? && IsPhase(w.pmuLastPhase)
    ensures Fits(pl, Ticked(pl, w, tick), b)
  {
    var taken := w.(ticks := w.ticks + [tick]);
    assert Fits(pl, taken, b);
    BeginFits(pl, taken, PmuTimer, HintFor(Held(Decisive(tick), w.pmuLastPhase)), b);
  }

  lemma BeginActFits(pl: Platform, w: World, action: Action, b: Actor)
    requires Fits(pl, w, b) && (PcOf(w, PmuTimer).Resting? ==> IsPhase(w.pmuLastPhase))
    requires action.BeginWrite? || action.BeginTick?
    ensures Fits(pl, Act(pl, w, action), b)
  {
    match action
    case BeginWrite(id, buf, faults) =>
      var r := Validate(buf, faults);
      if PcOf(w, Writer(id)).Resting? && r.Accepted? {
        WrittenFits(pl, w, id, buf, r.hint, b);
      }
    case BeginTick(tick) =>
      if PcOf(w, PmuTimer).Resting? {
        TickedFits(pl, w, tick, b);
      }
  }

  lemma WireActFits(pl: Platform, w: World, action: Action, b: Actor)
    requires Fits(pl, w, b) && (action.ReadChannel? || action.Emit?)
    ensures Fits(pl, Act(pl, w, action), b)
  {
    var a := action.actor;
    if action.ReadChannel? && PcOf(w, a).Computed? {
      RoutedFits(pl, w, a, PcOf(w, a).op, b);
    } else if action.Emit? && PcOf(w, a).Routed? {
      EmittedFits(pl, w, a, Unsent(pl.mmioMapped, PcOf(w, a)), b);
    }
  }

  lemma StoreActFits(pl: Platform, w: World, action: Action, b: Actor)
    requires Fits(pl, w, b) && (action.Store? || action.CommitPmu?)
    ensures Fits(pl, Act(pl, w, action), b)
  {
    if action.Store? {
      if PcOf(w, action.actor).Emitted? {
        StoredFits(pl, w, action.actor, PcOf(w, action.actor).op, b);
      }
    } else if PcOf(w, PmuTimer).Stored? {
      CommittedFits(pl, w, PcOf(w, PmuTimer).op, b);
    }
  }

  lemma ActFits(pl: Platform, w: World, action: Action, b: Actor)
    requires Fits(pl, w, b) && (PcOf(w, PmuTimer).Resting? ==> IsPhase(w.pmuLastPhase))
    ensures Fits(pl, Act(pl, w, action), b)
  {
    if action.BeginWrite? || action.BeginTick? {
      BeginActFits(pl, w, action, b);
    } else if action.ReadChannel? || action.Emit? {
      WireActFits(pl, w, action, b);
    } else if action.Store? || action.CommitPmu? {
      StoreActFits(pl, w, action, b);
    } else {
      OtherFits(pl, w, Act(pl, w, action), b);
    }
  }

  lemma InFlightGenuine(pl: Platform, w: World, a: Actor)
    requires ActorFits(pl, w, a) && InFlight(PcOf(w, a)) != []
    ensures Genuine(pl, PcOf(w, a).op)
  {
    var ops := Only(w.begun, a);
    assert ops[|ops| - 1] == PcOf(w, a).op;
  }

  lemma InFlightValid(pl: Platform, w: World, a: Actor)
    requires ActorFits(pl, w, a) && InFlight(PcOf(w, a)) != []
    ensures ValidHint(PcOf(w, a).op.hint)
  {
    InFlightGenuine(pl, w, a);
  }

  lemma SentKeepsLogs(pl: Platform, w: World, a: Actor, op: Applied, sent: seq<Dispatch>)
    requires LogsSafe(pl, w) && ShownIsStored(w) && |sent| <= 1 && forall d :: d in sent ==> WordSafe(d)
    ensures LogsSafe(pl, EmittedBy(w, a, op, sent)) && ShownIsStored(EmittedBy(w, a, op, sent))
  {
    if sent != [] {
      assert sent[0] in sent;
    }
  }

  lemma EmittedKeepsLogs(pl: Platform, w: World, a: Actor)
    requires LogsSafe(pl, w) && ShownIsStored(w) && ActorFits(pl, w, a) && PcOf(w, a).Routed?
    ensures var v := Act(pl, w, Emit(a)); LogsSafe(pl, v) && ShownIsStored(v)
  {
    var pc := PcOf(w, a);
    InFlightValid(pl, w, a);
    RoutedWordSafe(pc.channel, pl.mmioMapped, pc.op.hint);
    SentKeepsLogs(pl, w, a, pc.op, Route(pc.channel, pl.mmioMapped, WordOf(pc.op.hint)));
  }

  lemma StoredKeepsLogs(pl: Platform, w: World, a: Actor)
    requires LogsSafe(pl, w) && ActorFits(pl, w, a) && PcOf(w, a).Emitted?
    ensures var v := Act(pl, w, Store(a)); LogsSafe(pl, v) && ShownIsStored(v)
  {
    InFlightGenuine(pl, w, a);
    InFlightValid(pl, w, a);
    LoggedGenuine(pl, w, a, PcOf(w, a).op);
  }

  lemma LoggedGenuine(pl: Platform, w: World, a: Actor, op: Applied)
    requires LogsSafe(pl, w) && Genuine(pl, op)
    ensures LogsSafe(pl, StoredBy(w, a, op))
  {
    var v := StoredBy(w, a, op);
    forall x | x in v.applied ensures Genuine(pl, x.1) {
      assert x in w.applied || x == (a, op);
    }
  }

  lemma OthersKeepLogs(pl: Platform, w: World, action: Action)
    requires !action.Emit? && !action.Store?
    ensures var v := Act(pl, w, action);
            v.dispatched == w.dispatched && v.applied == w.applied && v.currentPhase == w.currentPhase
  {
  }

  lemma EmitKeepsLogs(pl: Platform, w: World, a: Actor)
    requires LogsSafe(pl, w) && ShownIsStored(w) && ActorFits(pl, w, a)
    ensures LogsSafe(pl, Act(pl, w, Emit(a))) && ShownIsStored(Act(pl, w, Emit(a)))
  {
    if PcOf(w, a).Routed? {
      EmittedKeepsLogs(pl, w, a);
    }
  }

  lemma StoreKeepsLogs(pl: Platform, w: World, a: Actor)
    requires LogsSafe(pl, w) && ShownIsStored(w) && ActorFits(pl, w, a)
    ensures LogsSafe(pl, Act(pl, w, Store(a))) && ShownIsStored(Act(pl, w, Store(a)))
  {
    if PcOf(w, a).Emitted? {
      StoredKeepsLogs(pl, w, a);
    }
  }

  lemma ActKeepsLogs(pl: Platform, w: World, action: Action)
    requires LogsSafe(pl, w) && ShownIsStored(w)
    requires action.Emit? || action.Store? ==> ActorFits(pl, w, action.actor)
    ensures LogsSafe(pl, Act(pl, w, action)) && ShownIsStored(Act(pl, w, action))
  {
    if action.Emit? {
      EmitKeepsLogs(pl, w, action.actor);
    } else if action.Store? {
      StoreKeepsLogs(pl, w, action.actor);
    } else {
      OthersKeepLogs(pl, w, action);
    }
  }

  lemma TickExtends(ops: seq<Applied>, ticks: seq<Tick>, tick: Tick, op: Applied)
    requires HintsFor(ops, TimerRun(ticks).applied)
    ensures var before, after := TimerRun(ticks), TimerRun(ticks + [tick]);
            var phase := Held(Decisive(tick), before.lastPhase);
            && after.lastPhase == phase
            && (phase == before.lastPhase ==> HintsFor(ops, after.applied))
            && (phase != before.lastPhase && op.hint == HintFor(phase) ==> HintsFor(ops + [op], after.applied))
  {
    assert (ticks + [tick])[..|ticks|] == ticks;
    assert TimerRun(ticks + [tick]) == TimerStep(TimerRun(ticks), tick);
  }

  lemma TickedFaithful(pl: Platform, w: World, tick: Tick)
    requires TimerFaithful(w) && PcOf(w, PmuTimer).Resting?
    ensures TimerFaithful(Ticked(pl, w, tick))
  {
    var h := HintFor(Held(Decisive(tick), w.pmuLastPhase));
    var op := Applied(Pmu, h, w.ecc, ClampedFor(pl, h, w.ecc));
    TickExtends(Only(w.begun, PmuTimer), w.ticks, tick, op);
    OnlyAppend(w.begun, PmuTimer, op, PmuTimer);
  }

  lemma ActKeepsTimer(pl: Platform, w: World, action: Action)
    requires TimerFaithful(w)
    ensures TimerFaithful(Act(pl, w, action))
  {
    match action
    case BeginWrite(id, buf, faults) =>
      var r := Validate(buf, faults);
      if r.Accepted? {
        OnlyAppend(w.begun, Writer(id), Applied(Explicit, r.hint, w.ecc, ClampedFor(pl, r.hint, w.ecc)), PmuTimer);
      }
    case BeginTick(tick) =>
      if PcOf(w, PmuTimer).Resting? {
        TickedFaithful(pl, w, tick);
      }
    case _ =>
  }

  lemma HintsAppend(ops: seq<Applied>, frames: seq<seq<uint8>>, op: Applied, frame: seq<uint8>)
    requires HintsIn(ops, frames) && Validate(frame, false) == Accepted(op.hint)
    ensures HintsIn(ops + [op], frames + [frame])
  {
  }

  lemma WrittenFaithful(pl: Platform, w: World, other: nat, buf: seq<uint8>, h: WorkloadHint, id: nat)
    requires WriterFaithful(w, id) && Validate(buf, false) == Accepted(h)
    ensures WriterFaithful(Written(pl, w, other, buf, h), id)
  {
    var op := Applied(Explicit, h, w.ecc, ClampedFor(pl, h, w.ecc));
    OnlyAppend(w.writes, other, buf, id);
    OnlyAppend(w.begun, Writer(other), op, Writer(id));
    HintsAppend(Only(w.begun, Writer(id)), Only(w.writes, id), op, buf);
  }

  lemma TickedKeepsWriter(pl: Platform, w: World, tick: Tick, id: nat)
    requires WriterFaithful(w, id)
    ensures WriterFaithful(Ticked(pl, w, tick), id)
  {
    var h := HintFor(Held(Decisive(tick), w.pmuLastPhase));
    OnlyAppend(w.begun, PmuTimer, Applied(Pmu, h, w.ecc, ClampedFor(pl, h, w.ecc)), Writer(id));
  }

  lemma ActKeepsWriter(pl: Platform, w: World, action: Action, id: nat)
    requires WriterFaithful(w, id)
    ensures WriterFaithful(Act(pl, w, action), id)
  {
    match action
    case BeginWrite(other, buf, faults) =>
      if Validate(buf, faults).Accepted? {
        WrittenFaithful(pl, w, other, buf, Validate(buf, faults).hint, id);
      }
    case BeginTick(tick) =>
      TickedKeepsWriter(pl, w, tick, id);
    case _ =>
  }

  lemma PmuPhaseValid(pl: Platform, w: World)
    requires TimerFaithful(w)
    ensures PcOf(w, PmuTimer).Resting? ==> IsPhase(w.pmuLastPhase)
  {
    TimerApplies(w.ticks);
  }

  lemma ActKeepsFits(pl: Platform, w: World, action: Action)
    requires Inv(pl, w)
    ensures forall a :: Fits(pl, Act(pl, w, action), a)
  {
    PmuPhaseValid(pl, w);
    forall b ensures Fits(pl, Act(pl, w, action), b) {
      assert Fits(pl, w, b);
      ActFits(pl, w, action, b);
    }
  }

  lemma ActKeepsWriters(pl: Platform, w: World, action: Action)
    requires Inv(pl, w)
    ensures forall id: nat :: WriterFaithful(Act(pl, w, action), id)
  {
    forall id: nat ensures WriterFaithful(Act(pl, w, action), id) {
      assert WriterFaithful(w, id);
      ActKeepsWriter(pl, w, action, id);
    }
  }

  lemma ActKeepsInv(pl: Platform, w: World, action: Action)
    requires Inv(pl, w)
    ensures Inv(pl, Act(pl, w, action))
  {
    if action.Emit? || action.Store? {
      assert Fits(pl, w, action.actor);
    }
    ActKeepsFits(pl, w, action);
    ActKeepsWriters(pl, w, action);
    ActKeepsLogs(pl, w, action);
    ActKeepsTimer(pl, w, action);
  }

  lemma {:induction false} AlwaysInv(pl: Platform, channel: int, ecc: EccTelemetry, actions: seq<Action>)
    ensures Inv(pl, Exec(pl, Fresh(channel, ecc), actions))
  {
    if actions != [] {
      AlwaysInv(pl, channel, ecc, actions[..|actions| - 1]);
      ActKeepsInv(pl, Exec(pl, Fresh(channel, ecc), actions[..|actions| - 1]), actions[|actions| - 1]);
    }
  }

  ghost predicate AppliesSafe(pl: Platform, w: World)
  {
    && (forall x :: x in w.applied ==> AppliedSafe(pl, x.1))
    && (forall a, i :: 0 <= i < |Only(w.begun, a)| ==> AppliedSafe(pl, Only(w.begun, a)[i]))
  }

  /** Over every interleaving: the shown phase is a valid phase and the last one stored; each actor's
      applies are stored whole and in the order they began, none lost or repeated; what it has put on
      the wire is exactly the words of those applies, each routed by the channel it read; every
      dispatched word is safe; every configuration, applied or in hand, is the one its hint's phase and
      priority ask for, limited, and meets its exact safety condition; and what an actor applies is what
      its own accepted frames, or its own tick stream, call for, unaffected by anyone else. */
  lemma EveryInterleaving(pl: Platform, channel: int, ecc: EccTelemetry, actions: seq<Action>)
    ensures var w := Exec(pl, Fresh(channel, ecc), actions);
            Inv(pl, w) && AppliesSafe(pl, w)
  {
    var w := Exec(pl, Fresh(channel, ecc), actions);
    AlwaysInv(pl, channel, ecc, actions);
    forall x | x in w.applied ensures AppliedSafe(pl, x.1) {
      GenuineIsSafe(pl, x.1);
    }
    forall a, i | 0 <= i < |Only(w.begun, a)| ensures AppliedSafe(pl, Only(w.begun, a)[i]) {
      assert Fits(pl, w, a);
      GenuineIsSafe(pl, Only(w.begun, a)[i]);
    }
  }

  lemma AllStored(pl: Platform, w: World, b: Actor)
    requires Inv(pl, w) && Quiescent(w)
    ensures Only(w.begun, b) == Only(w.applied, b)
  {
    assert Fits(pl, w, b) && PcOf(w, b).Resting?;
  }

  function LastPhase(ops: seq<Applied>): uint8
  {
    if ops == [] then PHASE_IDLE else ops[|ops| - 1].hint.phaseId
  }

  lemma ShownIsLatestOf(pl: Platform, w: World) returns (a: Actor)
    requires Inv(pl, w) && Quiescent(w) && w.begun != []
    ensures w.applied != [] && a == w.applied[|w.applied| - 1].0
    ensures Only(w.begun, a) != [] && LastPhase(Only(w.begun, a)) == w.currentPhase
  {
    forall b ensures Only(w.begun, b) == Only(w.applied, b) {
      AllStored(pl, w, b);
    }
    EndsAreSomeonesLatest(w.begun, w.applied);
    a := w.applied[|w.applied| - 1].0;
  }

  /** When every apply has finished, the shown phase is the one most recently applied by some actor. */
  lemma QuiescentPhase(pl: Platform, channel: int, ecc: EccTelemetry, actions: seq<Action>) returns (a: Actor)
    requires var w := Exec(pl, Fresh(channel, ecc), actions); Quiescent(w) && w.begun != []
    ensures var w := Exec(pl, Fresh(channel, ecc), actions);
            Only(w.begun, a) != [] && LastPhase(Only(w.begun, a)) == w.currentPhase
  {
    AlwaysInv(pl, channel, ecc, actions);
    a := ShownIsLatestOf(pl, Exec(pl, Fresh(channel, ecc), actions));
  }

  lemma TimerLatest(w: World)
    requires TimerFaithful(w) && PcOf(w, PmuTimer).Resting?
    ensures LastPhase(Only(w.begun, PmuTimer)) == w.pmuLastPhase
  {
    TimerApplies(w.ticks);
  }

  lemma WriterLatest(w: World, id: nat)
    requires WriterFaithful(w, id)
    ensures LastPhase(Only(w.begun, Writer(id))) == PhaseAsked(Only(w.writes, id))
  {
  }

  lemma NothingBegun(pl: Platform, w: World)
    requires Inv(pl, w) && Quiescent(w) && w.begun == []
    ensures w.applied == []
  {
    forall b ensures Only(w.begun, b) == Only(w.applied, b) {
      AllStored(pl, w, b);
    }
    if w.applied != [] {
      EndsAreSomeonesLatest(w.applied, w.begun);
    }
  }

  /** With a single writer, at rest the shown phase is what its last accepted frame asked for, or the
      PMU's own, according to who stored last. */
  lemma OneWriterAtRest(pl: Platform, w: World, writer: nat)
    requires Inv(pl, w) && Quiescent(w)
    requires forall id: nat :: id != writer ==> Only(w.writes, id) == []
    ensures w.currentPhase == if TimerStoredLast(w) then w.pmuLastPhase else PhaseAsked(Only(w.writes, writer))
  {
    assert PcOf(w, PmuTimer).Resting?;
    TimerLatest(w);
    assert WriterFaithful(w, writer);
    WriterLatest(w, writer);
    if w.begun == [] {
      NothingBegun(pl, w);
    } else {
      var a := ShownIsLatestOf(pl, w);
      if a.Writer? {
        assert WriterFaithful(w, a.id);
      }
    }
  }

  ghost predicate TimerStoredLast(w: World) { w.applied != [] && w.applied[|w.applied| - 1].0 == PmuTimer }

  // ---- What reaches the wire ----

  /** The selected channel emits at every point of the run. */
  ghost predicate AlwaysEmits(pl: Platform, w: World, actions: seq<Action>)
  {
    && Emits(Exec(pl, w, actions).channel, pl.mmioMapped)
    && (actions == [] || AlwaysEmits(pl, w, actions[..|actions| - 1]))
  }

  ghost predicate ReadsEmit(pl: Platform, w: World)
  {
    forall i :: 0 <= i < |w.routed| ==> Emits(w.routed[i].1, pl.mmioMapped)
  }

  lemma {:induction false} EmittingReads(pl: Platform, w: World, actions: seq<Action>)
    requires ReadsEmit(pl, w) && AlwaysEmits(pl, w, actions)
    ensures ReadsEmit(pl, Exec(pl, w, actions))
  {
    if actions != [] {
      EmittingReads(pl, w, actions[..|actions| - 1]);
    }
  }

  lemma {:induction false} OnlyReadsEmit(mmioMapped: bool, routed: seq<(Actor, int)>, a: Actor)
    requires forall i :: 0 <= i < |routed| ==> Emits(routed[i].1, mmioMapped)
    ensures forall c :: c in Only(routed, a) ==> Emits(c, mmioMapped)
  {
    if routed != [] {
      OnlyReadsEmit(mmioMapped, routed[..|routed| - 1], a);
    }
  }

  /** One word for each apply, the encoding of its whole hint, truncated on the MMIO channel alone. */
  ghost predicate WordsOf(mmioMapped: bool, out: seq<Dispatch>, ops: seq<Applied>)
  {
    && |out| <= |ops|
    && forall i :: 0 <= i < |out| ==> Route(out[i].channel, mmioMapped, WordOf(ops[i].hint)) == [out[i]]
  }

  lemma {:induction false} EmittingDelivers(mmioMapped: bool, ops: seq<Applied>, channels: seq<int>)
    requires |channels| <= |ops|
    requires forall c :: c in channels ==> Emits(c, mmioMapped)
    ensures |Delivered(mmioMapped, ops, channels)| == |channels|
    ensures WordsOf(mmioMapped, Delivered(mmioMapped, ops, channels), ops)
    decreases |channels|
  {
    if channels != [] {
      var n := |channels| - 1;
      EmittingDelivers(mmioMapped, ops, channels[..n]);
      assert Emits(channels[n], mmioMapped);
    }
  }

  /** Applies begun whose word is still to be handed over. */
  function Pending(pc: Pc): nat { if pc.Computed? || pc.Routed? then 1 else 0 }

  /** On emitting channels, at every point of every interleaving, each actor has put exactly one word on
      the wire for each apply it has begun, but for the one in hand; in its own order, and carrying that
      apply's whole hint, whoever else is applying at the time. */
  lemma NothingLostOnTheWire(pl: Platform, channel: int, ecc: EccTelemetry, actions: seq<Action>, a: Actor)
    requires AlwaysEmits(pl, Fresh(channel, ecc), actions)
    ensures var w := Exec(pl, Fresh(channel, ecc), actions);
            && |Only(w.begun, a)| == |Only(w.dispatched, a)| + Pending(PcOf(w, a))
            && WordsOf(pl.mmioMapped, Only(w.dispatched, a), Only(w.begun, a))
  {
    var w := Exec(pl, Fresh(channel, ecc), actions);
    AlwaysInv(pl, channel, ecc, actions);
    EmittingReads(pl, Fresh(channel, ecc), actions);
    OnlyReadsEmit(pl.mmioMapped, w.routed, a);
    assert Fits(pl, w, a);
    WiredWords(pl.mmioMapped, Only(w.begun, a), Only(w.routed, a), Only(w.dispatched, a), PcOf(w, a));
  }

  lemma WiredWords(mmioMapped: bool, begun: seq<Applied>, routed: seq<int>, out: seq<Dispatch>, pc: Pc)
    requires Wired(mmioMapped, begun, routed, out, pc)
    requires forall c :: c in routed ==> Emits(c, mmioMapped)
    ensures |begun| == |out| + Pending(pc) && WordsOf(mmioMapped, out, begun)
  {
    EmittingDelivers(mmioMapped, begun, routed);
    var all := Delivered(mmioMapped, begun, routed);
    assert forall i :: 0 <= i < |out| ==> all[i] == out[i];
    if pc.Routed? {
      assert Emits(routed[|routed| - 1], mmioMapped);
    }
  }

  /** From the frame to the wire: at rest on emitting channels a writer's accepted frames and its words
      on the wire match one for one, each word encoding the hint of its frame. */
  lemma FramesReachTheWire(pl: Platform, channel: int, ecc: EccTelemetry, actions: seq<Action>, id: nat, i: nat)
    requires AlwaysEmits(pl, Fresh(channel, ecc), actions)
    requires var w := Exec(pl, Fresh(channel, ecc), actions); Quiescent(w) && i < |Only(w.writes, id)|
    ensures var w := Exec(pl, Fresh(channel, ecc), actions);
            var out, frame := Only(w.dispatched, Writer(id)), Only(w.writes, id)[i];
            && |out| == |Only(w.writes, id)| && Validate(frame, false).Accepted?
            && [out[i]] == Route(out[i].channel, pl.mmioMapped, WordOf(Validate(frame, false).hint))
  {
    var w := Exec(pl, Fresh(channel, ecc), actions);
    AlwaysInv(pl, channel, ecc, actions);
    NothingLostOnTheWire(pl, channel, ecc, actions, Writer(id));
    assert WriterFaithful(w, id) && PcOf(w, Writer(id)).Resting?;
  }

  // ---- Dispatched words and the shown phase ----

  /** At every point of the run at most one actor is inside an apply. */
  ghost predicate NeverOverlaps(pl: Platform, w: World, actions: seq<Action>)
  {
    && AtMostOneBusy(Exec(pl, w, actions))
    && (actions == [] || NeverOverlaps(pl, w, actions[..|actions| - 1]))
  }

  ghost predicate AtMostOneBusy(w: World)
  {
    forall a, b :: !PcOf(w, a).Resting? && !PcOf(w, b).Resting? ==> a == b
  }

  /** The hardware's last word shows phase p. */
  ghost predicate LastWordIs(w: World, p: uint8)
  {
    w.dispatched != [] && w.dispatched[|w.dispatched| - 1].1.word % 0x100 == p
  }

  ghost predicate Agrees(w: World) { LastWordIs(w, w.currentPhase) }

  ghost predicate NoneEmitted(w: World) { forall a :: !PcOf(w, a).Emitted? }

  /** Since world w0 nothing has been stored and nothing shows, or the last word and the shown phase
      agree, except between an apply's dispatch and its store, when the last word is ahead. */
  ghost predicate InStepSince(pl: Platform, w0: World, w: World)
  {
    && |w.applied| >= |w0.applied|
    && (forall a :: PcOf(w, a).Emitted? ==> LastWordIs(w, PcOf(w, a).op.hint.phaseId))
    && (forall a :: PcOf(w, a).Routed? ==> Emits(PcOf(w, a).channel, pl.mmioMapped))
    && (NoneEmitted(w) ==>
          if |w.applied| > |w0.applied| then Agrees(w)
          else w.dispatched == w0.dispatched && w.currentPhase == w0.currentPhase)
  }

  lemma OthersRest(w: World, a: Actor, b: Actor)
    requires AtMostOneBusy(w) && !PcOf(w, a).Resting? && a != b
    ensures PcOf(w, b).Resting?
  {
  }

  lemma EmittedInStep(pl: Platform, w0: World, w: World, a: Actor, sent: seq<Dispatch>)
    requires InStepSince(pl, w0, w) && AtMostOneBusy(w) && PcOf(w, a).Routed?
    requires |sent| == 1 && sent[0].word % 0x100 == PcOf(w, a).op.hint.phaseId
    ensures InStepSince(pl, w0, EmittedBy(w, a, PcOf(w, a).op, sent))
  {
    var v := EmittedBy(w, a, PcOf(w, a).op, sent);
    assert PcOf(v, a) == Emitted(PcOf(w, a).op);
    forall b | b != a ensures PcOf(v, b).Resting? {
      OthersRest(w, a, b);
      assert PcOf(v, b) == PcOf(w, b);
    }
  }

  lemma StoredInStep(pl: Platform, w0: World, w: World, a: Actor, op: Applied)
    requires InStepSince(pl, w0, w) && PcOf(w, a) == Emitted(op) && AtMostOneBusy(w)
    ensures InStepSince(pl, w0, StoredBy(w, a, op))
  {
    var v := StoredBy(w, a, op);
    assert LastWordIs(w, op.hint.phaseId);
    forall b ensures !PcOf(v, b).Emitted? && !PcOf(v, b).Routed? {
      if b != a {
        OthersRest(w, a, b);
        assert PcOf(v, b) == PcOf(w, b);
      }
    }
  }

  /** A step that neither emits nor stores. */
  lemma OtherStepLocal(pl: Platform, w: World, action: Action, b: Actor)
    requires !action.Emit? && !action.Store? && Emits(w.channel, pl.mmioMapped)
    ensures var v := Act(pl, w, action);
            && v.dispatched == w.dispatched && v.applied == w.applied && v.currentPhase == w.currentPhase
            && (PcOf(v, b).Emitted? || PcOf(w, b).Emitted? ==> PcOf(v, b) == PcOf(w, b))
            && (PcOf(v, b).Routed? ==> PcOf(v, b) == PcOf(w, b) || Emits(PcOf(v, b).channel, pl.mmioMapped))
  {
  }

  lemma OtherStepInStep(pl: Platform, w0: World, w: World, action: Action)
    requires Emits(w.channel, pl.mmioMapped)
    requires InStepSince(pl, w0, w) && !action.Emit? && !action.Store?
    ensures InStepSince(pl, w0, Act(pl, w, action))
  {
    var v := Act(pl, w, action);
    OtherStepLocal(pl, w, action, PmuTimer);
    forall b
      ensures PcOf(v, b).Emitted? || PcOf(w, b).Emitted? ==> PcOf(v, b) == PcOf(w, b)
      ensures PcOf(v, b).Routed? ==> Emits(PcOf(v, b).channel, pl.mmioMapped)
    {
      OtherStepLocal(pl, w, action, b);
    }
  }

  lemma ActKeepsStep(pl: Platform, w0: World, w: World, action: Action)
    requires Inv(pl, w) && InStepSince(pl, w0, w) && AtMostOneBusy(w)
    requires Emits(w.channel, pl.mmioMapped)
    ensures InStepSince(pl, w0, Act(pl, w, action))
  {
    if action.Emit? {
      var a := action.actor;
      var pc := PcOf(w, a);
      if pc.Routed? {
        assert Fits(pl, w, a);
        InFlightGenuine(pl, w, a);
        RoutedWordSafe(pc.channel, pl.mmioMapped, pc.op.hint);
        var sent := Route(pc.channel, pl.mmioMapped, WordOf(pc.op.hint));
        assert sent[0] in sent;
        EmittedInStep(pl, w0, w, a, sent);
      }
    } else if action.Store? {
      if PcOf(w, action.actor).Emitted? {
        StoredInStep(pl, w0, w, action.actor, PcOf(w, action.actor).op);
      }
    } else {
      OtherStepInStep(pl, w0, w, action);
    }
  }

  lemma {:induction false} StaysInStep(pl: Platform, channel: int, ecc: EccTelemetry,
                                       before: seq<Action>, after: seq<Action>)
    requires var w0 := Exec(pl, Fresh(channel, ecc), before);
             Quiescent(w0) && AlwaysEmits(pl, w0, after) && NeverOverlaps(pl, w0, after)
    ensures var w0 := Exec(pl, Fresh(channel, ecc), before);
            InStepSince(pl, w0, Exec(pl, w0, after))
  {
    var w0 := Exec(pl, Fresh(channel, ecc), before);
    if after == [] {
      assert forall a :: PcOf(w0, a).Resting?;
    } else {
      var init := after[..|after| - 1];
      StaysInStep(pl, channel, ecc, before, init);
      ExecConcat(pl, Fresh(channel, ecc), before, init);
      AlwaysInv(pl, channel, ecc, before + init);
      ActKeepsStep(pl, w0, Exec(pl, w0, init), after[|after| - 1]);
    }
  }

  /** Recovery. Whatever races came before, once everything is at rest and no two applies overlap from
      there on, the last word and the shown phase agree at rest exactly when an apply has finished
      since, or they agreed already. */
  lemma SerialSuffixAgreesIff(pl: Platform, channel: int, ecc: EccTelemetry, before: seq<Action>, after: seq<Action>)
    requires var w0 := Exec(pl, Fresh(channel, ecc), before);
             && Quiescent(w0) && AlwaysEmits(pl, w0, after) && NeverOverlaps(pl, w0, after)
             && Quiescent(Exec(pl, w0, after))
    ensures var w0 := Exec(pl, Fresh(channel, ecc), before);
            var w := Exec(pl, w0, after);
            Agrees(w) <==> |w.applied| > |w0.applied| || Agrees(w0)
  {
    var w0 := Exec(pl, Fresh(channel, ecc), before);
    var w := Exec(pl, w0, after);
    StaysInStep(pl, channel, ecc, before, after);
    forall a ensures !PcOf(w, a).Emitted? {
      assert PcOf(w, a).Resting?;
    }
  }

  /** If no two applies overlap and the channel emits, then at rest the low byte of the last
      dispatched word is the shown phase. */
  lemma SerialRunsAgree(pl: Platform, channel: int, ecc: EccTelemetry, actions: seq<Action>)
    requires AlwaysEmits(pl, Fresh(channel, ecc), actions) && NeverOverlaps(pl, Fresh(channel, ecc), actions)
    requires var w := Exec(pl, Fresh(channel, ecc), actions); Quiescent(w) && w.begun != []
    ensures Agrees(Exec(pl, Fresh(channel, ecc), actions))
  {
    assert Exec(pl, Fresh(channel, ecc), []) == Fresh(channel, ecc);
    SerialSuffixAgreesIff(pl, channel, ecc, [], actions);
    AlwaysInv(pl, channel, ecc, actions);
    var _ := ShownIsLatestOf(pl, Exec(pl, Fresh(channel, ecc), actions));
  }

  lemma LastWordBy(pl: Platform, w: World, a: Actor)
    requires Inv(pl, w) && w.dispatched != [] && a == w.dispatched[|w.dispatched| - 1].0
    requires |Only(w.dispatched, a)| == |Only(w.begun, a)|
    requires WordsOf(pl.mmioMapped, Only(w.dispatched, a), Only(w.begun, a))
    ensures LastWordIs(w, LastPhase(Only(w.begun, a)))
  {
    EndsAreSomeonesLatest(w.dispatched, w.dispatched);
    var out, ops := Only(w.dispatched, a), Only(w.begun, a);
    var n := |out| - 1;
    assert Fits(pl, w, a);
    assert Genuine(pl, ops[n]);
    assert out[n] == w.dispatched[|w.dispatched| - 1].1;
    RoutedWordSafe(out[n].channel, pl.mmioMapped, ops[n].hint);
    assert out[n] in Route(out[n].channel, pl.mmioMapped, WordOf(ops[n].hint));
  }

  /** At rest on an emitting channel the two agree exactly when the actor that dispatched last and
      the actor that stored last have applied the same phase last. */
  lemma AgreementAtRestIff(pl: Platform, channel: int, ecc: EccTelemetry, actions: seq<Action>)
    requires AlwaysEmits(pl, Fresh(channel, ecc), actions)
    requires var w := Exec(pl, Fresh(channel, ecc), actions); Quiescent(w) && w.begun != []
    ensures var w := Exec(pl, Fresh(channel, ecc), actions);
            && w.dispatched != [] && w.applied != []
            && (Agrees(w) <==> LastPhase(Only(w.begun, w.dispatched[|w.dispatched| - 1].0))
                               == LastPhase(Only(w.begun, w.applied[|w.applied| - 1].0)))
  {
    var w := Exec(pl, Fresh(channel, ecc), actions);
    AlwaysInv(pl, channel, ecc, actions);
    var a := ShownIsLatestOf(pl, w);
    NothingLostOnTheWire(pl, channel, ecc, actions, a);
    assert PcOf(w, a).Resting?;
    var b := w.dispatched[|w.dispatched| - 1].0;
    NothingLostOnTheWire(pl, channel, ecc, actions, b);
    assert PcOf(w, b).Resting?;
    LastWordBy(pl, w, b);
  }

  /** Overlap does break agreement: for any two different phases, two writers can leave the hardware
      with one and the status file with the other. */
  lemma OverlapBreaksAgreement(pl: Platform, ecc: EccTelemetry, p: uint8, q: uint8) returns (actions: seq<Action>)
    requires IsPhase(p) && IsPhase(q) && p != q
    ensures var w := Exec(pl, Fresh(CH_MSR, ecc), actions);
            Quiescent(w) && w.currentPhase == p && LastWordIs(w, q)
  {
    var a, b := Writer(0), Writer(1);
    var w := Fresh(CH_MSR, ecc);
    WriteBegins(pl, w, 0, p);
    var w1 := Act(pl, w, BeginWrite(0, PhaseFrame(p), false));
    WriteBegins(pl, w1, 1, q);
    var w2 := Act(pl, w1, BeginWrite(1, PhaseFrame(q), false));
    BothRoutedThenStoredInReverse(pl, w2, a, b);
    WordDecodes(PcOf(w2, b).op.hint);
    actions := [];
    actions, w := Extend(pl, ecc, actions, w, BeginWrite(0, PhaseFrame(p), false));
    actions, w := Extend(pl, ecc, actions, w, BeginWrite(1, PhaseFrame(q), false));
    actions := ExtendInReverse(pl, ecc, actions, w, a, b);
  }

  lemma ExtendInReverse(pl: Platform, ecc: EccTelemetry, actions: seq<Action>, w: World, a: Actor, b: Actor)
    returns (longer: seq<Action>)
    requires w == Exec(pl, Fresh(CH_MSR, ecc), actions)
    ensures Exec(pl, Fresh(CH_MSR, ecc), longer)
            == var v := Act(pl, Act(pl, w, ReadChannel(a)), ReadChannel(b));
               var u := Act(pl, Act(pl, v, Emit(a)), Emit(b));
               Act(pl, Act(pl, u, Store(b)), Store(a))
  {
    var v := w;
    longer, v := Extend(pl, ecc, actions, v, ReadChannel(a));
    longer, v := Extend(pl, ecc, longer, v, ReadChannel(b));
    longer, v := Extend(pl, ecc, longer, v, Emit(a));
    longer, v := Extend(pl, ecc, longer, v, Emit(b));
    longer, v := Extend(pl, ecc, longer, v, Store(b));
    longer, v := Extend(pl, ecc, longer, v, Store(a));
  }

  function PhaseFrame(p: uint8): seq<uint8> { [p, 0, 0, 0, 0, 0, 0, 0] }

  lemma WriteBegins(pl: Platform, w: World, id: nat, p: uint8)
    requires PcOf(w, Writer(id)).Resting? && IsPhase(p)
    ensures var v := Act(pl, w, BeginWrite(id, PhaseFrame(p), false));
            && PcOf(v, Writer(id)).Computed? && PcOf(v, Writer(id)).op.hint.phaseId == p
            && v.channel == w.channel
            && forall c :: c != Writer(id) ==> PcOf(v, c) == PcOf(w, c)
  {
  }

  lemma BothRoutedThenStoredInReverse(pl: Platform, w: World, a: Actor, b: Actor)
    requires a.Writer? && b.Writer? && a != b && w.channel == CH_MSR
    requires PcOf(w, a).Computed? && PcOf(w, b).Computed?
    requires forall c :: c == a || c == b || PcOf(w, c).Resting?
    ensures var v := Act(pl, Act(pl, w, ReadChannel(a)), ReadChannel(b));
            var u := Act(pl, Act(pl, v, Emit(a)), Emit(b));
            var t := Act(pl, Act(pl, u, Store(b)), Store(a));
            && Quiescent(t) && t.currentPhase == PcOf(w, a).op.hint.phaseId
            && t.dispatched != []
            && t.dispatched[|t.dispatched| - 1] == (b, Dispatch(CH_MSR, WordOf(PcOf(w, b).op.hint)))
  {
    var x, y := PcOf(w, a).op, PcOf(w, b).op;
    var v := Act(pl, Act(pl, w, ReadChannel(a)), ReadChannel(b));
    assert PcOf(v, a) == Routed(x, CH_MSR) && PcOf(v, b) == Routed(y, CH_MSR);
    var u := Act(pl, Act(pl, v, Emit(a)), Emit(b));
    assert PcOf(u, a) == Emitted(x) && PcOf(u, b) == Emitted(y);
    var t := Act(pl, Act(pl, u, Store(b)), Store(a));
    forall c ensures PcOf(t, c).Resting? {
      assert c != a && c != b ==> PcOf(t, c) == PcOf(w, c);
    }
  }

  lemma Extend(pl: Platform, ecc: EccTelemetry, actions: seq<Action>, w: World, action: Action)
    returns (longer: seq<Action>, after: World)
    requires w == Exec(pl, Fresh(CH_MSR, ecc), actions)
    ensures after == Act(pl, w, action) == Exec(pl, Fresh(CH_MSR, ecc), longer)
  {
    longer, after := actions + [action], Act(pl, w, action);
    assert longer[..|actions|] == actions;
  }

  // ---- The sequential driver is the special case of undisturbed applies ----

  function Untagged<T>(log: seq<(Actor, T)>): (r: seq<T>)
    ensures |r| == |log|
  {
    seq(|log|, i requires 0 <= i < |log| => log[i].1)
  }

  function AsSequential(w: World): State
  {
    State(w.currentPhase, w.pmuLastPhase, w.channel, w.ecc, Untagged(w.dispatched), Untagged(w.applied))
  }

  /** One event of the sequential driver as the uninterrupted steps of one actor. */
  function Uninterrupted(e: Event): seq<Action>
  {
    match e
    case Write(buf, faults) =>
      [BeginWrite(0, buf, faults), ReadChannel(Writer(0)), Emit(Writer(0)), Store(Writer(0)), CommitPmu]
    case Timer(tick) =>
      [BeginTick(tick), ReadChannel(PmuTimer), Emit(PmuTimer), Store(PmuTimer), CommitPmu]
    case SetChannel(channel) => [ChooseChannel(channel)]
    case EccReading(ecc) => [ReportEcc(ecc)]
  }

  function Schedule(es: seq<Event>): seq<Action>
  {
    if es == [] then [] else Schedule(es[..|es| - 1]) + Uninterrupted(es[|es| - 1])
  }

  lemma {:induction false} ExecConcat(pl: Platform, w: World, x: seq<Action>, y: seq<Action>)
    ensures Exec(pl, w, x + y) == Exec(pl, Exec(pl, w, x), y)
  {
    if y == [] {
      assert x + y == x;
    } else {
      var n := |y| - 1;
      ExecConcat(pl, w, x, y[..n]);
      assert (x + y)[..|x + y| - 1] == x + y[..n];
    }
  }

  lemma FiveActs(pl: Platform, w: World, a0: Action, a1: Action, a2: Action, a3: Action, a4: Action)
    ensures Exec(pl, w, [a0, a1, a2, a3, a4]) == Act(pl, Act(pl, Act(pl, Act(pl, Act(pl, w, a0), a1), a2), a3), a4)
  {
    assert [a0, a1, a2, a3, a4][..4] == [a0, a1, a2, a3];
    assert [a0, a1, a2, a3][..3] == [a0, a1, a2];
    assert [a0, a1, a2][..2] == [a0, a1];
    assert [a0, a1][..1] == [a0];
    assert [a0][..0] == [];
    assert Exec(pl, w, [a0]) == Act(pl, Exec(pl, w, []), a0);
    assert Exec(pl, w, [a0, a1]) == Act(pl, Exec(pl, w, [a0]), a1);
    assert Exec(pl, w, [a0, a1, a2]) == Act(pl, Exec(pl, w, [a0, a1]), a2);
    assert Exec(pl, w, [a0, a1, a2, a3]) == Act(pl, Exec(pl, w, [a0, a1, a2]), a3);
  }

  /** An apply begun, routed, emitted and stored without interruption is one sequential apply. */
  lemma UninterruptedApply(pl: Platform, w: World, a: Actor, h: WorkloadHint)
    requires Quiescent(w)
    ensures var w1 := Begin(pl, w, a, h);
            var w2 := Act(pl, w1, ReadChannel(a));
            var w3 := Act(pl, w2, Emit(a));
            var w4 := Act(pl, w3, Store(a));
            var w5 := Act(pl, w4, CommitPmu);
            && Quiescent(w5)
            && AsSequential(w5) == var s := ApplyHint(pl, AsSequential(w), SourceOf(a), h);
                                   if a == PmuTimer then s.(pmuLastPhase := h.phaseId) else s
  {
    var w1 := Begin(pl, w, a, h);
    var w2 := Act(pl, w1, ReadChannel(a));
    var w3 := Act(pl, w2, Emit(a));
    var w4 := Act(pl, w3, Store(a));
    var w5 := Act(pl, w4, CommitPmu);
    var sent := Route(w.channel, pl.mmioMapped, WordOf(h));
    assert w3 == EmittedBy(w2, a, PcOf(w1, a).op, sent);
    assert Untagged(w3.dispatched) == Untagged(w.dispatched) + sent;
    assert Untagged(w4.applied) == Untagged(w.applied) + [PcOf(w1, a).op];
    assert PcOf(w, PmuTimer).Resting?;
    forall b ensures PcOf(w5, b).Resting? {
      assert PcOf(w, b).Resting?;
    }
  }

  lemma IdleSteps(pl: Platform, w: World, a: Actor)
    requires Quiescent(w)
    ensures Act(pl, Act(pl, Act(pl, Act(pl, w, ReadChannel(a)), Emit(a)), Store(a)), CommitPmu) == w
  {
    assert PcOf(w, a).Resting? && PcOf(w, PmuTimer).Resting?;
  }

  lemma UninterruptedEvent(pl: Platform, w: World, e: Event)
    requires Quiescent(w)
    ensures var v := Exec(pl, w, Uninterrupted(e));
            Quiescent(v) && AsSequential(v) == Step(pl, AsSequential(w), e)
  {
    match e
    case Write(buf, faults) =>
      var a := Writer(0);
      FiveActs(pl, w, BeginWrite(0, buf, faults), ReadChannel(a), Emit(a), Store(a), CommitPmu);
      assert PcOf(w, a).Resting?;
      var r := Validate(buf, faults);
      if r.Accepted? {
        var taken := w.(writes := w.writes + [(0, buf)]);
        assert forall b :: PcOf(taken, b) == PcOf(w, b);
        UninterruptedApply(pl, taken, a, r.hint);
      } else {
        IdleSteps(pl, w, a);
      }
    case Timer(tick) =>
      var a := PmuTimer;
      FiveActs(pl, w, BeginTick(tick), ReadChannel(a), Emit(a), Store(a), CommitPmu);
      assert PcOf(w, a).Resting?;
      var taken := w.(ticks := w.ticks + [tick]);
      assert forall b :: PcOf(taken, b) == PcOf(w, b);
      var phase := Held(Decisive(tick), w.pmuLastPhase);
      if phase != w.pmuLastPhase {
        UninterruptedApply(pl, taken, a, HintFor(phase));
      } else {
        IdleSteps(pl, taken, a);
      }
    case SetChannel(channel) =>
      assert [ChooseChannel(channel)][..0] == [];
      assert Exec(pl, w, [ChooseChannel(channel)]) == Act(pl, Exec(pl, w, []), ChooseChannel(channel));
      assert forall b :: PcOf(Act(pl, w, ChooseChannel(channel)), b) == PcOf(w, b);
    case EccReading(ecc) =>
      assert [ReportEcc(ecc)][..0] == [];
      assert Exec(pl, w, [ReportEcc(ecc)]) == Act(pl, Exec(pl, w, []), ReportEcc(ecc));
      assert forall b :: PcOf(Act(pl, w, ReportEcc(ecc)), b) == PcOf(w, b);
  }

  /** Every run of the sequential driver is the concurrent machine under the schedule that never
      interrupts an apply. */
  lemma {:induction false} SequentialIsASchedule(pl: Platform, channel: int, ecc: EccTelemetry, es: seq<Event>)
    ensures var w := Exec(pl, Fresh(channel, ecc), Schedule(es));
            Quiescent(w) && AsSequential(w) == Run(pl, Loaded(channel, ecc), es)
  {
    if es == [] {
      assert Untagged<Dispatch>([]) == [] && Untagged<Applied>([]) == [];
    } else {
      var n := |es| - 1;
      SequentialIsASchedule(pl, channel, ecc, es[..n]);
      ExecConcat(pl, Fresh(channel, ecc), Schedule(es[..n]), Uninterrupted(es[n]));
      UninterruptedEvent(pl, Exec(pl, Fresh(channel, ecc), Schedule(es[..n])), es[n]);
    }
  }
}
