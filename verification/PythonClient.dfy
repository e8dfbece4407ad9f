/** The Python client: frame packing for unbounded integers, and the descriptor and dry-run state
    it keeps across sends, failed opens and closes. */
module PythonClient {
  import opened CTypes
  import opened Bits
  import opened HintWord
  import opened Driver

  // ---- The payload ----

  /** A number packed little-endian into n bytes. */
  function PackBytes(v: nat, n: nat): (bytes: seq<uint8>)
    ensures |bytes| == n
  {
    if n == 0 then [] else [v % 0x100] + PackBytes(v / 0x100, n - 1)
  }

  /** struct.pack("<BHHBBB", ...) of the masked arguments. */
  function Payload(phaseId: int, latencyNs: int, bwGbps: int, security: int, priority: int): (bytes: seq<uint8>)
    ensures |bytes| == HINT_SIZE
  {
    PackBytes(BitAnd(phaseId, 0xFF), 1)
    + PackBytes(BitAnd(latencyNs, 0xFFFF), 2)
    + PackBytes(BitAnd(bwGbps, 0xFFFF), 2)
    + PackBytes(BitAnd(security, 0xFF), 1)
    + PackBytes(BitAnd(Min(priority, 7), 0xFF), 1)
    + PackBytes(0, 1)
  }

  function HintSent(phaseId: int, latencyNs: int, bwGbps: int, security: int, priority: int): WorkloadHint
  {
    WorkloadHint(phaseId % 0x100, latencyNs % 0x1_0000, bwGbps % 0x1_0000, security % 0x100,
                 Min(priority, 7) % 0x100, 0)
  }

  /** The client's bytes are the kernel's packed struct, for every choice of integers: each argument
      arrives reduced modulo the size of its field. */
  lemma PayloadIsStruct(phaseId: int, latencyNs: int, bwGbps: int, security: int, priority: int)
    ensures var h := HintSent(phaseId, latencyNs, bwGbps, security, priority);
            && Payload(phaseId, latencyNs, bwGbps, security, priority) == StructBytes(h)
            && ParseStruct(Payload(phaseId, latencyNs, bwGbps, security, priority)) == h
  {
    Masks(phaseId);
    Masks(latencyNs);
    Masks(bwGbps);
    Masks(security);
    Masks(Min(priority, 7));
    ConcatenatedFields(HintSent(phaseId, latencyNs, bwGbps, security, priority));
    StructRoundTrip(HintSent(phaseId, latencyNs, bwGbps, security, priority), Payload(0, 0, 0, 0, 0));
  }

  /** The eight bytes of a payload, each from its argument alone. */
  lemma PayloadBytes(phaseId: int, latencyNs: int, bwGbps: int, security: int, priority: int)
    ensures Payload(phaseId, latencyNs, bwGbps, security, priority)
            == [phaseId % 0x100, latencyNs % 0x100, latencyNs / 0x100 % 0x100, bwGbps % 0x100, bwGbps / 0x100 % 0x100,
                security % 0x100, (if priority <= 7 then priority else 7) % 0x100, 0]
  {
    PayloadIsStruct(phaseId, latencyNs, bwGbps, security, priority);
    TwoBytes(latencyNs);
    TwoBytes(bwGbps);
  }

  lemma TwoBytes(x: int)
    ensures x % 0x1_0000 % 0x100 == x % 0x100
    ensures x % 0x1_0000 / 0x100 == x / 0x100 % 0x100
  {
  }

  lemma ConcatenatedFields(h: WorkloadHint)
    ensures PackBytes(h.phaseId, 1) + PackBytes(h.latencyTargetNs, 2) + PackBytes(h.bwTargetGbps, 2)
            + PackBytes(h.securityLevel, 1) + PackBytes(h.priority, 1) + PackBytes(h.reserved, 1)
            == StructBytes(h)
  {
    PackOne(h.phaseId);
    PackTwo(h.latencyTargetNs);
    PackTwo(h.bwTargetGbps);
    PackOne(h.securityLevel);
    PackOne(h.priority);
    PackOne(h.reserved);
  }

  lemma Masks(x: int)
    ensures BitAnd(x, 0xFF) == x % 0x100
    ensures BitAnd(x, 0xFFFF) == x % 0x1_0000
  {
    PowersOfTwo();
    MaskIsMod(x, 8);
    MaskIsMod(x, 16);
  }

  lemma PackOne(v: uint8)
    ensures PackBytes(v, 1) == [v]
  {
    assert PackBytes(v / 0x100, 0) == [];
  }

  lemma PackTwo(v: uint16)
    ensures PackBytes(v, 2) == [v % 0x100, v / 0x100]
  {
    PackOne(v / 0x100);
  }

  /** What the kernel makes of a client frame: it accepts exactly the phases 1..6 modulo 256, caps
      the priority once more, and encodes the frame itself, read as one little-endian number, unless
      a negative priority wrapped into 8..255. */
  lemma KernelReadsPayload(phaseId: int, latencyNs: int, bwGbps: int, security: int, priority: int)
    ensures var frame := Payload(phaseId, latencyNs, bwGbps, security, priority);
            var r := Validate(frame, false);
            && (r.Accepted? <==> IsPhase(phaseId % 0x100))
            && (r.Accepted? ==>
                 && r.hint == HintSent(phaseId, latencyNs, bwGbps, security, priority)
                              .(priority := ArrivingPriority(priority))
                 && (WordOf(r.hint) == LittleEndian(frame) <==> priority >= 0 || priority % 0x100 <= 7))
  {
    var h := HintSent(phaseId, latencyNs, bwGbps, security, priority);
    PayloadIsStruct(phaseId, latencyNs, bwGbps, security, priority);
    StructIsWord(h);
    WrappedPriority(priority);
    WordInjective(h, h.(priority := Min(h.priority, 7)));
  }

  lemma WrappedPriority(priority: int)
    ensures Min(priority, 7) % 0x100 <= 7 <==> priority >= 0 || priority % 0x100 <= 7
  {
    if priority >= 0 {
      assert Min(priority, 7) % 0x100 == Min(priority, 7);
    }
  }

  /** The priority the driver applies for a requested one: capped on both sides of the masking. */
  function ArrivingPriority(priority: int): uint8 { Min(Min(priority, 7) % 0x100, 7) }

  lemma ArrivingPriorityIs(priority: int)
    ensures ArrivingPriority(priority) == if priority >= 0 then Min(priority, 7) else Min(priority % 0x100, 7)
  {
    if priority >= 0 {
      assert Min(priority, 7) % 0x100 == Min(priority, 7);
    }
  }

  /** In-range arguments arrive unchanged. */
  lemma InRangePayload(phaseId: uint8, latencyNs: uint16, bwGbps: uint16, security: uint8, priority: int)
    requires IsPhase(phaseId)
    ensures Validate(Payload(phaseId, latencyNs, bwGbps, security, priority), false)
            == Accepted(WorkloadHint(phaseId, latencyNs, bwGbps, security, ArrivingPriority(priority), 0))
  {
    var frame := Payload(phaseId, latencyNs, bwGbps, security, priority);
    PayloadIsStruct(phaseId, latencyNs, bwGbps, security, priority);
    SmallMod(phaseId, 0x100);
    SmallMod(latencyNs, 0x1_0000);
    SmallMod(bwGbps, 0x1_0000);
    SmallMod(security, 0x100);
    assert frame[0] == phaseId;
  }

  // ---- The client's state ----

  datatype OpenOutcome = NoDevice | OpenFails | Opens

  /** How the operating system answers during one call. */
  datatype Env = Env(open: OpenOutcome, writeSucceeds: bool)

  datatype ClientState = ClientState(
    dryRun: bool, fdOpen: bool, opens: nat, closes: nat, frames: seq<seq<uint8>>)

  datatype Outcome = Returned | Raised

  /** _open: does nothing with a descriptor in hand, latches dry-run when the device is missing. */
  function OpenStep(s: ClientState, o: OpenOutcome): (ClientState, Outcome)
  {
    if s.fdOpen then (s, Returned)
    else match o
      case NoDevice => (s.(dryRun := true), Returned)
      case OpenFails => (s, Raised)
      case Opens => (s.(fdOpen := true, opens := s.opens + 1), Returned)
  }

  function SendStep(s: ClientState, frame: seq<uint8>, env: Env): (ClientState, Outcome)
  {
    if s.dryRun then (s, Returned)
    else
      var (t, outcome) := OpenStep(s, env.open);
      if outcome.Raised? || !t.fdOpen then (t, outcome)
      else if env.writeSucceeds then (t.(frames := t.frames + [frame]), Returned)
      else (t, Raised)
  }

  /** One call of send. */
  function SendCall(s: ClientState, phaseId: int, latencyNs: int, bwGbps: int, security: int, priority: int, env: Env)
    : (ClientState, Outcome)
  {
    SendStep(s, Payload(phaseId, latencyNs, bwGbps, security, priority), env)
  }

  function CloseStep(s: ClientState, succeeds: bool): (ClientState, Outcome)
  {
    if !s.fdOpen then (s, Returned)
    else if succeeds then (s.(fdOpen := false, closes := s.closes + 1), Returned)
    else (s, Raised)
  }

  datatype Op =
    | Send(phaseId: int, latencyNs: int, bwGbps: int, security: int, priority: int, env: Env)
    | Close(succeeds: bool)

  function OpStep(s: ClientState, op: Op): ClientState
  {
    match op
    case Send(phaseId, latencyNs, bwGbps, security, priority, env) =>
      SendCall(s, phaseId, latencyNs, bwGbps, security, priority, env).0
    case Close(succeeds) => CloseStep(s, succeeds).0
  }

  function OpsRun(s: ClientState, ops: seq<Op>): ClientState
  {
    if ops == [] then s else OpStep(OpsRun(s, ops[..|ops| - 1]), ops[|ops| - 1])
  }

  /** Construction: the fields are set, then the device is opened unless dry-run is asked for. */
  function ConstructStep(dryRun: bool, o: OpenOutcome): (ClientState, Outcome)
  {
    var s := ClientState(dryRun, false, 0, 0, []);
    if dryRun then (s, Returned) else OpenStep(s, o)
  }

  function Constructed(dryRun: bool, o: OpenOutcome): ClientState { ConstructStep(dryRun, o).0 }

  class MemHintClient {
    var dryRun: bool
    var fd: Option<int>
    ghost var opens: nat
    ghost var closes: nat
    ghost var frames: seq<seq<uint8>>

    ghost function Abstract(): ClientState
      reads this
    {
      ClientState(dryRun, fd.Some?, opens, closes, frames)
    }

    constructor Unopened(dryRun: bool)
      ensures Abstract() == ClientState(dryRun, false, 0, 0, [])
    {
      this.dryRun := dryRun;
      fd := None;
      opens, closes, frames := 0, 0, [];
    }

    /** __init__: no client results when the open raises. */
    static method Create(dryRun: bool, o: OpenOutcome, descriptor: int) returns (client: Option<MemHintClient>)
      ensures client.Some? <==> ConstructStep(dryRun, o).1.Returned?
      ensures client.Some? ==> fresh(client.value) && client.value.Abstract() == Constructed(dryRun, o)
      ensures client.None? <==> !dryRun && o.OpenFails?
      ensures client.Some? ==> (client.value.fd.Some? <==> !dryRun && o.Opens?)
                               && (client.value.dryRun <==> dryRun || o.NoDevice?)
    {
      var c := new MemHintClient.Unopened(dryRun);
      if !dryRun {
        var outcome := c.Open(o, descriptor);
        if outcome.Raised? {
          return None;
        }
      }
      return Some(c);
    }

    method Open(o: OpenOutcome, descriptor: int) returns (outcome: Outcome)
      modifies this
      ensures (Abstract(), outcome) == OpenStep(old(Abstract()), o)
      ensures outcome.Raised? <==> old(fd).None? && o.OpenFails?
      ensures fd == if old(fd).None? && o.Opens? then Some(descriptor) else old(fd)
      ensures dryRun <==> old(dryRun) || (old(fd).None? && o.NoDevice?)
    {
      if fd.Some? {
        return Returned;
      }
      if o.NoDevice? {
        dryRun := true;
        return Returned;
      }
      if o.OpenFails? {
        return Raised;
      }
      fd := Some(descriptor);
      opens := opens + 1;
      return Returned;
    }

    method Close(succeeds: bool) returns (outcome: Outcome)
      modifies this
      ensures (Abstract(), outcome) == CloseStep(old(Abstract()), succeeds)
      ensures outcome.Raised? <==> old(fd).Some? && !succeeds
      ensures fd == if outcome.Returned? then None else old(fd)
      ensures closes == old(closes) + if old(fd).Some? && succeeds then 1 else 0
    {
      if fd.Some? {
        if !succeeds {
          return Raised;
        }
        fd := None;
        closes := closes + 1;
      }
      return Returned;
    }

    method Send(phaseId: int, latencyNs: int, bwGbps: int, security: int, priority: int, env: Env, descriptor: int)
      returns (outcome: Outcome)
      modifies this
      ensures (Abstract(), outcome)
              == SendCall(old(Abstract()), phaseId, latencyNs, bwGbps, security, priority, env)
    {
      var payload := Payload(phaseId, latencyNs, bwGbps, security, priority);
      if dryRun {
        return Returned;
      }
      if fd.None? {
        outcome := Open(env.open, descriptor);
        if outcome.Raised? {
          return;
        }
      }
      if fd.Some? {
        if !env.writeSucceeds {
          return Raised;
        }
        frames := frames + [payload];
      }
      return Returned;
    }

    method Prefill(bwGbps: int, priority: int, env: Env, descriptor: int) returns (outcome: Outcome)
      modifies this
      ensures (Abstract(), outcome)
              == SendCall(old(Abstract()), 0x01, 200, bwGbps, 0, priority, env)
    {
      outcome := Send(PHASE_PREFILL, 200, bwGbps, 0, priority, env, descriptor);
    }

    method Decode(latencyNs: int, priority: int, env: Env, descriptor: int) returns (outcome: Outcome)
      modifies this
      ensures (Abstract(), outcome)
              == SendCall(old(Abstract()), 0x02, latencyNs, 150, 0, priority, env)
    {
      outcome := Send(PHASE_DECODE, latencyNs, 150, 0, priority, env, descriptor);
    }

    method Agentic(priority: int, env: Env, descriptor: int) returns (outcome: Outcome)
      modifies this
      ensures (Abstract(), outcome) == SendCall(old(Abstract()), 0x03, 120, 200, 0, priority, env)
    {
      outcome := Send(PHASE_AGENTIC, 120, 200, 0, priority, env, descriptor);
    }

    method Idle(priority: int, env: Env, descriptor: int) returns (outcome: Outcome)
      modifies this
      ensures (Abstract(), outcome) == SendCall(old(Abstract()), 0x04, 0, 0, 0, priority, env)
    {
      outcome := Send(PHASE_IDLE, 0, 0, 0, priority, env, descriptor);
    }

    method ForwardPass(bwGbps: int, env: Env, descriptor: int) returns (outcome: Outcome)
      modifies this
      ensures (Abstract(), outcome) == SendCall(old(Abstract()), 0x05, 200, bwGbps, 0, 7, env)
    {
      outcome := Send(PHASE_FORWARD, 200, bwGbps, 0, 7, env, descriptor);
    }

    method BackwardPass(env: Env, descriptor: int) returns (outcome: Outcome)
      modifies this
      ensures (Abstract(), outcome) == SendCall(old(Abstract()), 0x06, 90, 300, 0, 7, env)
    {
      outcome := Send(PHASE_BACKWARD, 90, 300, 0, 7, env, descriptor);
    }
  }

  // ---- What every sequence of calls keeps ----

  ghost predicate ClientInv(s: ClientState)
  {
    && s.opens - s.closes == (if s.fdOpen then 1 else 0)
    && (s.fdOpen ==> !s.dryRun)
    && (forall i :: 0 <= i < |s.frames| ==> |s.frames[i]| == HINT_SIZE)
  }

  /** Over any sequence of sends and closes, with opens and writes failing arbitrarily: descriptors
      are never leaked or closed twice, a descriptor in hand means the client is live, and every
      frame written has eight bytes. */
  lemma {:induction false} ClientRunInvariant(dryRun: bool, o: OpenOutcome, ops: seq<Op>)
    ensures ClientInv(OpsRun(Constructed(dryRun, o), ops))
  {
    if ops != [] {
      ClientRunInvariant(dryRun, o, ops[..|ops| - 1]);
      OpKeepsInv(OpsRun(Constructed(dryRun, o), ops[..|ops| - 1]), ops[|ops| - 1]);
    }
  }

  lemma OpKeepsInv(s: ClientState, op: Op)
    requires ClientInv(s)
    ensures ClientInv(OpStep(s, op))
  {
    if op.Send? {
      SendKeepsInv(s, Payload(op.phaseId, op.latencyNs, op.bwGbps, op.security, op.priority), op.env);
    }
  }

  lemma SendKeepsInv(s: ClientState, frame: seq<uint8>, env: Env)
    requires ClientInv(s) && |frame| == HINT_SIZE
    ensures ClientInv(SendStep(s, frame, env).0)
  {
  }

  lemma OpsAppend(s: ClientState, ops: seq<Op>, op: Op)
    ensures OpsRun(s, ops + [op]) == OpStep(OpsRun(s, ops), op)
  {
    assert (ops + [op])[..|ops|] == ops;
  }

  /** A client starts with its descriptor open exactly if it is not to run dry and the device opens, and
      running dry exactly if it is to or the device is missing. */
  lemma ConstructionRecorded(dryRun: bool, o: OpenOutcome)
    ensures OpsRun(Constructed(dryRun, o), [])
            == ClientState(dryRun || o.NoDevice?, !dryRun && o.Opens?, if !dryRun && o.Opens? then 1 else 0, 0, [])
  {
  }

  /** After any calls, a close that succeeds leaves no descriptor and as many closes as opens, one more
      than before exactly if there was one to close; a later send to a live client opens the device
      again. A close that fails changes nothing. */
  lemma CloseRecorded(dryRun: bool, o: OpenOutcome, ops: seq<Op>, send: Op)
    requires send.Send? && send.env.open.Opens?
    ensures var s := OpsRun(Constructed(dryRun, o), ops);
            var t := OpsRun(Constructed(dryRun, o), ops + [Close(true)]);
            var u := OpsRun(Constructed(dryRun, o), ops + [Close(true)] + [send]);
            && !t.fdOpen && t.opens == t.closes
            && t.opens == s.opens && t.closes == s.closes + (if s.fdOpen then 1 else 0)
            && t.dryRun == s.dryRun && t.frames == s.frames
            && (if s.dryRun then u == t else u.fdOpen && u.opens == t.opens + 1 && u.closes == t.closes)
            && OpsRun(Constructed(dryRun, o), ops + [Close(false)]) == s
  {
    var start := Constructed(dryRun, o);
    ClientRunInvariant(dryRun, o, ops);
    OpsAppend(start, ops, Close(true));
    OpsAppend(start, ops, Close(false));
    OpsAppend(start, ops + [Close(true)], send);
  }

  /** After any calls, what one more send does: nothing in dry-run; without a descriptor, dry-run from
      then on if the device is missing, and nothing if it fails to open; otherwise the descriptor is
      open and the eight bytes are written if the write succeeds. It raises exactly on a failing open
      or write. */
  lemma SendRecorded(dryRun: bool, o: OpenOutcome, ops: seq<Op>,
                     phaseId: int, latencyNs: int, bwGbps: int, security: int, priority: int, env: Env)
    ensures var s := OpsRun(Constructed(dryRun, o), ops);
            var t := OpsRun(Constructed(dryRun, o), ops + [Send(phaseId, latencyNs, bwGbps, security, priority, env)]);
            var raised := SendCall(s, phaseId, latencyNs, bwGbps, security, priority, env).1.Raised?;
            var bytes := [phaseId % 0x100, latencyNs % 0x100, latencyNs / 0x100 % 0x100,
                          bwGbps % 0x100, bwGbps / 0x100 % 0x100, security % 0x100,
                          (if priority <= 7 then priority else 7) % 0x100, 0];
            if s.dryRun then t == s && !raised
            else if !s.fdOpen && env.open.NoDevice? then t == s.(dryRun := true) && !raised
            else if !s.fdOpen && env.open.OpenFails? then t == s && raised
            else
              && t.fdOpen && !t.dryRun && t.closes == s.closes && t.opens == s.opens + (if s.fdOpen then 0 else 1)
              && t.frames == s.frames + (if env.writeSucceeds then [bytes] else [])
              && (raised <==> !env.writeSucceeds)
  {
    PayloadBytes(phaseId, latencyNs, bwGbps, security, priority);
    OpsAppend(Constructed(dryRun, o), ops, Send(phaseId, latencyNs, bwGbps, security, priority, env));
    ClientRunInvariant(dryRun, o, ops);
  }

  /** Dry-run never unlatches: from then on no call opens, writes or closes anything. */
  lemma {:induction false} DryRunLatched(s: ClientState, ops: seq<Op>)
    requires ClientInv(s) && s.dryRun
    ensures OpsRun(s, ops) == s
  {
    if ops != [] {
      DryRunLatched(s, ops[..|ops| - 1]);
    }
  }

  /** A send writes its one frame exactly when it returns normally and leaves the client live;
      otherwise it writes nothing. */
  lemma SendDeliversIff(s: ClientState, frame: seq<uint8>, env: Env)
    requires ClientInv(s)
    ensures var (t, outcome) := SendStep(s, frame, env);
            && t.frames == s.frames + (if outcome.Returned? && !t.dryRun then [frame] else [])
            && (outcome.Returned? && !t.dryRun ==> t.fdOpen)
  {
  }
}
