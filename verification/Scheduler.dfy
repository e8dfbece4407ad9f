/** The thread-safe scheduler: client sends run under a lock, but the phase the scheduler remembers
    is assigned after the lock is released. Threads are modelled by the steps of one call. */
module Scheduler {
  import opened CTypes
  import opened HintWord
  import opened History
  import opened PythonClient

  datatype Call = PrefillStart | DecodeStart | ToolCall | Idle | ForwardPass | BackwardPass

  function PhaseOf(call: Call): uint8
  {
    match call
    case PrefillStart => 0x01
    case DecodeStart => 0x02
    case ToolCall => 0x03
    case Idle => 0x04
    case ForwardPass => 0x05
    case BackwardPass => 0x06
  }

  /** The phase, latency, bandwidth and priority a call sends, given the scheduler's default priority. */
  function Arguments(call: Call, defaultPriority: int): (uint8, uint16, uint16, int)
  {
    match call
    case PrefillStart => (0x01, 200, 400, Min(7, defaultPriority))
    case DecodeStart => (0x02, 90, 150, defaultPriority)
    case ToolCall => (0x03, 120, 200, 5)
    case Idle => (0x04, 0, 0, 3)
    case ForwardPass => (0x05, 200, 400, 7)
    case BackwardPass => (0x06, 90, 300, 7)
  }

  function FrameFor(call: Call, defaultPriority: int): (frame: seq<uint8>)
    ensures |frame| == HINT_SIZE
  {
    var (phase, latency, bw, priority) := Arguments(call, defaultPriority);
    Payload(phase, latency, bw, 0, priority)
  }

  /** The frames of the six calls, byte by byte; the default priority p arrives in the first two, at most
      7 and modulo 256. */
  ghost predicate CallBytes(call: Call, defaultPriority: int, frame: seq<uint8>)
  {
    var p := (if defaultPriority <= 7 then defaultPriority else 7) % 0x100;
    match call
    case PrefillStart => frame == [1, 200, 0, 144, 1, 0, p, 0]
    case DecodeStart => frame == [2, 90, 0, 150, 0, 0, p, 0]
    case ToolCall => frame == [3, 120, 0, 200, 0, 0, 5, 0]
    case Idle => frame == [4, 0, 0, 0, 0, 0, 3, 0]
    case ForwardPass => frame == [5, 200, 0, 144, 1, 0, 7, 0]
    case BackwardPass => frame == [6, 90, 0, 44, 1, 0, 7, 0]
  }

  lemma FramesHaveCallBytes(call: Call, defaultPriority: int, frame: seq<uint8>)
    requires frame == FrameFor(call, defaultPriority)
    ensures CallBytes(call, defaultPriority, frame)
  {
    var (phase, latency, bw, priority) := Arguments(call, defaultPriority);
    PayloadList(phase, latency, bw, 0, priority, frame);
    BytesOfArguments(call, defaultPriority, phase, latency, bw, priority, frame);
  }

  lemma PayloadList(phase: int, latency: int, bw: int, security: int, priority: int, frame: seq<uint8>)
    requires frame == Payload(phase, latency, bw, security, priority)
    ensures frame == [phase % 0x100, latency % 0x100, latency / 0x100 % 0x100, bw % 0x100, bw / 0x100 % 0x100,
                      security % 0x100, (if priority <= 7 then priority else 7) % 0x100, 0]
  {
    PayloadBytes(phase, latency, bw, security, priority);
  }

  lemma BytesOfArguments(call: Call, defaultPriority: int, phase: int, latency: int, bw: int, priority: int,
                         frame: seq<uint8>)
    requires (phase, latency, bw, priority) == Arguments(call, defaultPriority)
    requires frame == [phase % 0x100, latency % 0x100, latency / 0x100 % 0x100, bw % 0x100, bw / 0x100 % 0x100,
                       0, (if priority <= 7 then priority else 7) % 0x100, 0]
    ensures CallBytes(call, defaultPriority, frame)
  {
  }

  /** One thread's view: each method sends through the client, and remembers the phase only if the
      send did not raise. */
  class MemHintScheduler {
    const client: MemHintClient
    const defaultPriority: int
    var currentPhase: uint8

    constructor (client: MemHintClient, defaultPriority: int)
      ensures this.client == client && this.defaultPriority == defaultPriority
      ensures currentPhase == PHASE_IDLE
    {
      this.client := client;
      this.defaultPriority := defaultPriority;
      currentPhase := 0x04;
    }

    twostate predicate Performed(call: Call, env: Env, outcome: Outcome)
      reads this, client
    {
      && (client.Abstract(), outcome) == SendStep(old(client.Abstract()), FrameFor(call, defaultPriority), env)
      && currentPhase == if outcome.Returned? then PhaseOf(call) else old(currentPhase)
    }

    method OnPrefillStart(env: Env, descriptor: int) returns (outcome: Outcome)
      modifies this, client
      ensures Performed(PrefillStart, env, outcome)
    {
      var priority := Min(7, defaultPriority);
      outcome := client.Prefill(400, priority, env, descriptor);
      if outcome.Raised? { return; }
      currentPhase := 0x01;
    }

    method OnDecodeStart(env: Env, descriptor: int) returns (outcome: Outcome)
      modifies this, client
      ensures Performed(DecodeStart, env, outcome)
    {
      outcome := client.Decode(90, defaultPriority, env, descriptor);
      if outcome.Raised? { return; }
      currentPhase := 0x02;
    }

    method OnToolCall(env: Env, descriptor: int) returns (outcome: Outcome)
      modifies this, client
      ensures Performed(ToolCall, env, outcome)
    {
      outcome := client.Agentic(5, env, descriptor);
      if outcome.Raised? { return; }
      currentPhase := 0x03;
    }

    method OnIdle(env: Env, descriptor: int) returns (outcome: Outcome)
      modifies this, client
      ensures Performed(Idle, env, outcome)
    {
      outcome := client.Idle(3, env, descriptor);
      if outcome.Raised? { return; }
      currentPhase := 0x04;
    }

    method OnForwardPass(env: Env, descriptor: int) returns (outcome: Outcome)
      modifies this, client
      ensures Performed(ForwardPass, env, outcome)
    {
      outcome := client.ForwardPass(400, env, descriptor);
      if outcome.Raised? { return; }
      currentPhase := 0x05;
    }

    method OnBackwardPass(env: Env, descriptor: int) returns (outcome: Outcome)
      modifies this, client
      ensures Performed(BackwardPass, env, outcome)
    {
      outcome := client.BackwardPass(env, descriptor);
      if outcome.Raised? { return; }
      currentPhase := 0x06;
    }
  }

  // ---- Threads ----

  /** How far a thread has got with its current call. */
  datatype Pc =
    | Ready
    | Waiting(call: Call)     // wants the lock
    | Sending(call: Call)     // holds the lock, client call in progress
    | Sent(call: Call)        // holds the lock, client call returned
    | Failed(call: Call)      // holds the lock, client call raised
    | Assigning(call: Call)   // lock released, phase not yet remembered

  datatype World = World(
    lock: Option<nat>,
    currentPhase: uint8,
    client: ClientState,
    pcs: map<nat, Pc>,
    sent: seq<(nat, Call)>,       // client calls that returned, in order
    finished: seq<(nat, Call)>)   // calls that remembered their phase, in order

  datatype Action =
    | Enter(thread: nat, call: Call)
    | Acquire(thread: nat)
    | Transmit(thread: nat, env: Env)
    | Release(thread: nat)
    | Assign(thread: nat)

  function Fresh(client: ClientState): World
  {
    World(None, PHASE_IDLE, client, map[], [], [])
  }

  function PcOf(w: World, t: nat): Pc { if t in w.pcs then w.pcs[t] else Ready }

  // Each step of a thread's call, as a change to the world.

  function Entered(w: World, t: nat, call: Call): World { w.(pcs := w.pcs[t := Waiting(call)]) }

  function Acquired(w: World, t: nat, call: Call): World
  {
    w.(lock := Some(t), pcs := w.pcs[t := Sending(call)])
  }

  function Transmitted(w: World, t: nat, call: Call, result: (ClientState, Outcome)): World
  {
    if result.1.Returned?
    then w.(client := result.0, pcs := w.pcs[t := Sent(call)], sent := w.sent + [(t, call)])
    else w.(client := result.0, pcs := w.pcs[t := Failed(call)])
  }

  function Released(w: World, t: nat, next: Pc): World { w.(lock := None, pcs := w.pcs[t := next]) }

  function Assigned(w: World, t: nat, call: Call): World
  {
    w.(currentPhase := PhaseOf(call), pcs := w.pcs[t := Ready], finished := w.finished + [(t, call)])
  }

  /** One step; an action that is not enabled changes nothing. */
  function Act(defaultPriority: int, w: World, action: Action): World
  {
    var t := action.thread;
    var pc := PcOf(w, t);
    match action
    case Enter(_, call) => if pc.Ready? then Entered(w, t, call) else w
    case Acquire(_) => if pc.Waiting? && w.lock.None? then Acquired(w, t, pc.call) else w
    case Transmit(_, env) =>
      if pc.Sending?
      then Transmitted(w, t, pc.call, SendStep(w.client, FrameFor(pc.call, defaultPriority), env))
      else w
    case Release(_) =>
      if pc.Sent? then Released(w, t, Assigning(pc.call))
      else if pc.Failed? then Released(w, t, Ready)
      else w
    case Assign(_) => if pc.Assigning? then Assigned(w, t, pc.call) else w
  }

  function Exec(defaultPriority: int, w: World, actions: seq<Action>): World
  {
    if actions == [] then w
    else Act(defaultPriority, Exec(defaultPriority, w, actions[..|actions| - 1]), actions[|actions| - 1])
  }

  ghost predicate Quiescent(w: World) { forall t: nat :: PcOf(w, t).Ready? }

  // ---- What every interleaving keeps ----

  predicate InSection(pc: Pc) { pc.Sending? || pc.Sent? || pc.Failed? }

  /** The call a thread has sent but not yet remembered. */
  function Unremembered(pc: Pc): seq<Call>
  {
    if pc.Sent? || pc.Assigning? then [pc.call] else []
  }

  /** One thread's share of the invariant: it is inside the client exactly when it holds the lock, so
      sends never overlap; and its returned sends are its finished calls in order, plus at most the
      one it is about to remember. */
  ghost predicate Fits(w: World, t: nat)
  {
    && (InSection(PcOf(w, t)) <==> w.lock == Some(t))
    && Only(w.sent, t) == Only(w.finished, t) + Unremembered(PcOf(w, t))
  }

  ghost predicate RemembersLastFinished(w: World)
  {
    w.currentPhase == (if w.finished == [] then PHASE_IDLE else PhaseOf(w.finished[|w.finished| - 1].1))
  }

  function FramesOf(sent: seq<(nat, Call)>, defaultPriority: int): (r: seq<seq<uint8>>)
    ensures |r| == |sent|
    ensures forall i :: 0 <= i < |sent| ==> r[i] == FrameFor(sent[i].1, defaultPriority)
  {
    seq(|sent|, i requires 0 <= i < |sent| => FrameFor(sent[i].1, defaultPriority))
  }

  /** As long as the client is live it has written one frame per returned call, in order. */
  ghost predicate FramesKept(defaultPriority: int, w: World)
  {
    ClientInv(w.client) && (!w.client.dryRun ==> w.client.frames == FramesOf(w.sent, defaultPriority))
  }

  ghost predicate Inv(defaultPriority: int, w: World)
  {
    HistoryInv(w) && FramesKept(defaultPriority, w)
  }

  ghost predicate HistoryInv(w: World)
  {
    (forall t: nat :: Fits(w, t)) && RemembersLastFinished(w)
  }

  lemma TransmittedFits(w: World, t: nat, call: Call, result: (ClientState, Outcome), u: nat)
    requires PcOf(w, t) == Sending(call) && Fits(w, t) && Fits(w, u)
    ensures Fits(Transmitted(w, t, call, result), u)
  {
    OnlyAppend(w.sent, t, call, u);
  }

  lemma AssignedFits(w: World, t: nat, call: Call, u: nat)
    requires PcOf(w, t) == Assigning(call) && Fits(w, t) && Fits(w, u)
    ensures Fits(Assigned(w, t, call), u)
  {
    OnlyAppend(w.finished, t, call, u);
  }

  lemma LockStepFits(w: World, t: nat, call: Call, u: nat)
    requires Fits(w, t) && Fits(w, u)
    ensures PcOf(w, t).Ready? ==> Fits(Entered(w, t, call), u)
    ensures PcOf(w, t) == Waiting(call) && w.lock.None? ==> Fits(Acquired(w, t, call), u)
    ensures PcOf(w, t) == Sent(call) ==> Fits(Released(w, t, Assigning(call)), u)
    ensures PcOf(w, t) == Failed(call) ==> Fits(Released(w, t, Ready), u)
  {
  }

  lemma TransmittedKeepsFrames(dp: int, w: World, t: nat, call: Call, frame: seq<uint8>, env: Env)
    requires FramesKept(dp, w) && frame == FrameFor(call, dp)
    ensures FramesKept(dp, Transmitted(w, t, call, SendStep(w.client, frame, env)))
  {
    SendDeliversIff(w.client, frame, env);
    SendKeepsInv(w.client, frame, env);
    FramesAppend(w.sent, t, call, dp);
  }

  lemma FramesAppend(sent: seq<(nat, Call)>, t: nat, call: Call, dp: int)
    ensures FramesOf(sent + [(t, call)], dp) == FramesOf(sent, dp) + [FrameFor(call, dp)]
  {
  }

  lemma ActFits(dp: int, w: World, action: Action, u: nat)
    requires Fits(w, action.thread) && Fits(w, u)
    ensures Fits(Act(dp, w, action), u)
  {
    var t := action.thread;
    var pc := PcOf(w, t);
    match action
    case Transmit(_, env) =>
      if pc.Sending? {
        TransmittedFits(w, t, pc.call, SendStep(w.client, FrameFor(pc.call, dp), env), u);
      }
    case Assign(_) =>
      if pc.Assigning? {
        AssignedFits(w, t, pc.call, u);
      }
    case Enter(_, call) =>
      LockStepFits(w, t, call, u);
    case _ =>
      if !pc.Ready? {
        LockStepFits(w, t, pc.call, u);
      }
  }

  lemma ActKeepsFrames(dp: int, w: World, action: Action)
    requires FramesKept(dp, w)
    ensures FramesKept(dp, Act(dp, w, action))
  {
    var pc := PcOf(w, action.thread);
    if action.Transmit? && pc.Sending? {
      TransmittedKeepsFrames(dp, w, action.thread, pc.call, FrameFor(pc.call, dp), action.env);
    }
  }

  lemma ActKeepsInv(dp: int, w: World, action: Action)
    requires Inv(dp, w)
    ensures Inv(dp, Act(dp, w, action))
  {
    ActKeepsHistory(dp, w, action);
    ActKeepsFrames(dp, w, action);
  }

  lemma ActKeepsHistory(dp: int, w: World, action: Action)
    requires HistoryInv(w)
    ensures HistoryInv(Act(dp, w, action))
  {
    var v := Act(dp, w, action);
    assert Fits(w, action.thread);
    forall u: nat ensures Fits(v, u) {
      assert Fits(w, u);
      ActFits(dp, w, action, u);
    }
    ActRemembers(dp, w, action);
  }

  lemma ActRemembers(dp: int, w: World, action: Action)
    requires RemembersLastFinished(w)
    ensures RemembersLastFinished(Act(dp, w, action))
  {
  }

  /** Over every interleaving of any number of threads, with sends failing arbitrarily: sends never
      overlap; each thread's returned sends are its finished calls in order, plus at most the one it
      is about to remember; the remembered phase is that of the last finished call; and a live client
      has written exactly the frames of the returned sends. */
  lemma {:induction false} EveryInterleaving(dp: int, client: ClientState, actions: seq<Action>)
    requires ClientInv(client) && client.frames == []
    ensures Inv(dp, Exec(dp, Fresh(client), actions))
  {
    if actions == [] {
      assert FramesOf([], dp) == [];
    } else {
      var before := actions[..|actions| - 1];
      EveryInterleaving(dp, client, before);
      ActKeepsInv(dp, Exec(dp, Fresh(client), before), actions[|actions| - 1]);
    }
  }

  // ---- Read off the actions ----

  /** The call a thread entered last. */
  ghost function EnteredLast(dp: int, client: ClientState, actions: seq<Action>, t: nat): Call
  {
    if actions == [] then Idle
    else
      var before, last := actions[..|actions| - 1], actions[|actions| - 1];
      if last.Enter? && last.thread == t && PcOf(Exec(dp, Fresh(client), before), t).Ready? then last.call
      else EnteredLast(dp, client, before, t)
  }

  /** The calls of a thread whose send returned, in the order of the sends: at each Transmit by which the
      thread's send succeeds, the call it had entered last. */
  ghost function Succeeded(dp: int, client: ClientState, actions: seq<Action>, t: nat): seq<Call>
  {
    if actions == [] then []
    else
      var before, last := actions[..|actions| - 1], actions[|actions| - 1];
      var w := Exec(dp, Fresh(client), before);
      Succeeded(dp, client, before, t)
      + (if last.Transmit? && last.thread == t && PcOf(w, t).Sending?
            && SendStep(w.client, FrameFor(EnteredLast(dp, client, before, t), dp), last.env).1.Returned?
         then [EnteredLast(dp, client, before, t)] else [])
  }

  lemma StepCalls(dp: int, w: World, action: Action, t: nat)
    ensures var v, pc := Act(dp, w, action), PcOf(w, t); var next := PcOf(v, t);
            && (!pc.Ready? && !next.Ready? ==> next.call == pc.call)
            && (pc.Ready? && !next.Ready? ==> action.Enter? && action.thread == t && next.call == action.call)
            && (pc.Ready? && action.Enter? && action.thread == t ==> !next.Ready?)
            && (action.thread != t ==> next == pc)
            && Only(v.sent, t)
               == Only(w.sent, t)
                  + if action.Transmit? && action.thread == t && pc.Sending?
                       && SendStep(w.client, FrameFor(pc.call, dp), action.env).1.Returned?
                    then [pc.call] else []
  {
    var pc := PcOf(w, action.thread);
    if pc.Sending? {
      OnlyAppend(w.sent, action.thread, pc.call, t);
    }
  }

  /** Over every interleaving: a thread is always inside the call it entered last, and its sends on record
      are exactly its calls whose send returned, whatever the other threads do. */
  lemma {:induction false} ThreadsSendTheirCalls(dp: int, client: ClientState, actions: seq<Action>, t: nat)
    ensures var w := Exec(dp, Fresh(client), actions);
            && (!PcOf(w, t).Ready? ==> PcOf(w, t).call == EnteredLast(dp, client, actions, t))
            && Only(w.sent, t) == Succeeded(dp, client, actions, t)
  {
    if actions != [] {
      var before := actions[..|actions| - 1];
      ThreadsSendTheirCalls(dp, client, before, t);
      StepCalls(dp, Exec(dp, Fresh(client), before), actions[|actions| - 1], t);
    }
  }

  /** A send that raises, and the release that follows it: the lock is free for whoever waits, the
      thread is out of its call, the client has written nothing, and neither the remembered phase nor
      any history nor any other thread has moved. In between, no one else can take the lock. */
  lemma FailedSendReleases(dp: int, w: World, t: nat, env: Env, u: nat)
    requires Inv(dp, w) && PcOf(w, t).Sending? && u != t && PcOf(w, u).Waiting?
    requires SendStep(w.client, FrameFor(PcOf(w, t).call, dp), env).1.Raised?
    ensures var failed := Act(dp, w, Transmit(t, env));
            var v := Act(dp, failed, Release(t));
            && Act(dp, failed, Acquire(u)) == failed
            && v == w.(lock := None, pcs := v.pcs, client := v.client) && v.client.frames == w.client.frames
            && (forall x: nat :: PcOf(v, x) == if x == t then Ready else PcOf(w, x))
            && Act(dp, v, Acquire(u)).lock == Some(u)
  {
    var call := PcOf(w, t).call;
    assert Fits(w, t);
    SendDeliversIff(w.client, FrameFor(call, dp), env);
    EnabledSteps(dp, w, t, call, env);
    var failed := Transmitted(w, t, call, SendStep(w.client, FrameFor(call, dp), env));
    EnabledSteps(dp, failed, t, call, env);
    EnabledSteps(dp, Released(failed, t, Ready), u, PcOf(w, u).call, env);
  }

  /** No deadlock: while any thread is inside a call, some thread's next step is enabled. */
  lemma SomeoneCanStep(dp: int, w: World, t: nat, env: Env) returns (action: Action)
    requires Inv(dp, w) && !PcOf(w, t).Ready?
    ensures Act(dp, w, action).pcs != w.pcs
  {
    var u := if PcOf(w, t).Waiting? && w.lock.Some? then w.lock.value else t;
    assert Fits(w, u);
    match PcOf(w, u) {
      case Waiting(_) => action := Acquire(u);
      case Sending(_) => action := Transmit(u, env);
      case Sent(_) => action := Release(u);
      case Failed(_) => action := Release(u);
      case Assigning(_) => action := Assign(u);
    }
    assert PcOf(Act(dp, w, action), u) != PcOf(w, u);
  }

  /** At rest the remembered phase is that of some thread's latest successful call. */
  lemma QuiescentPhase(dp: int, client: ClientState, actions: seq<Action>) returns (t: nat)
    requires ClientInv(client) && client.frames == []
    requires var w := Exec(dp, Fresh(client), actions); Quiescent(w) && w.sent != []
    ensures var w := Exec(dp, Fresh(client), actions);
            Only(w.sent, t) != [] && w.currentPhase == PhaseOf(LastOr(Only(w.sent, t), Idle))
  {
    var w := Exec(dp, Fresh(client), actions);
    EveryInterleaving(dp, client, actions);
    forall u: nat ensures Only(w.sent, u) == Only(w.finished, u) {
      assert PcOf(w, u).Ready? && Fits(w, u);
    }
    EndsAreSomeonesLatest(w.sent, w.finished);
    t := w.finished[|w.finished| - 1].0;
  }

  /** One undisturbed call in the machine does what the scheduler's methods are proved to do. */
  lemma UndisturbedCall(dp: int, w: World, t: nat, call: Call, env: Env)
    requires w.lock == None && PcOf(w, t).Ready?
    ensures var result := SendStep(w.client, FrameFor(call, dp), env);
            var v := Act(dp, Act(dp, Act(dp, Act(dp, Act(dp, w, Enter(t, call)), Acquire(t)), Transmit(t, env)),
                                 Release(t)), Assign(t));
            && v.client == result.0 && v.lock == None
            && v.currentPhase == (if result.1.Returned? then PhaseOf(call) else w.currentPhase)
            && forall u: nat :: PcOf(v, u) == PcOf(w, u)
  {
    var result := SendStep(w.client, FrameFor(call, dp), env);
    EnabledSteps(dp, w, t, call, env);
    var w1 := Entered(w, t, call);
    EnabledSteps(dp, w1, t, call, env);
    var w2 := Acquired(w1, t, call);
    EnabledSteps(dp, w2, t, call, env);
    var w3 := Transmitted(w2, t, call, result);
    EnabledSteps(dp, w3, t, call, env);
    var w4 := Released(w3, t, if result.1.Returned? then Assigning(call) else Ready);
    EnabledSteps(dp, w4, t, call, env);
  }

  /** What each step of a thread does when it is enabled. */
  lemma EnabledSteps(dp: int, w: World, t: nat, call: Call, env: Env)
    ensures PcOf(w, t).Ready? ==> Act(dp, w, Enter(t, call)) == Entered(w, t, call)
    ensures PcOf(w, t) == Waiting(call) && w.lock.None? ==> Act(dp, w, Acquire(t)) == Acquired(w, t, call)
    ensures PcOf(w, t) == Sending(call) ==>
              Act(dp, w, Transmit(t, env)) == Transmitted(w, t, call, SendStep(w.client, FrameFor(call, dp), env))
    ensures PcOf(w, t) == Sent(call) ==> Act(dp, w, Release(t)) == Released(w, t, Assigning(call))
    ensures PcOf(w, t) == Failed(call) ==> Act(dp, w, Release(t)) == Released(w, t, Ready)
    ensures PcOf(w, t) == Assigning(call) ==> Act(dp, w, Assign(t)) == Assigned(w, t, call)
    ensures PcOf(w, t).Ready? ==> Act(dp, w, Assign(t)) == w
  {
  }

  // ---- The last send and the remembered phase ----

  ghost predicate AtMostOneCall(w: World)
  {
    forall t: nat, u: nat :: !PcOf(w, t).Ready? && !PcOf(w, u).Ready? ==> t == u
  }

  /** At every point of the run at most one thread is inside a call. */
  ghost predicate NeverOverlaps(dp: int, w: World, actions: seq<Action>)
  {
    && AtMostOneCall(Exec(dp, w, actions))
    && (actions == [] || NeverOverlaps(dp, w, actions[..|actions| - 1]))
  }

  function LastSentPhase(w: World): uint8
  {
    if w.sent == [] then PHASE_IDLE else PhaseOf(w.sent[|w.sent| - 1].1)
  }

  ghost predicate Agrees(w: World) { w.currentPhase == LastSentPhase(w) }

  ghost predicate NoneUnremembered(w: World) { forall t: nat :: Unremembered(PcOf(w, t)) == [] }

  /** Since world w0 no call has finished and nothing shows, or the last send and the remembered phase
      agree, except between a call's send and its assignment, when the last send is ahead. */
  ghost predicate InStepSince(w0: World, w: World)
  {
    && |w.finished| >= |w0.finished|
    && (forall t: nat :: Unremembered(PcOf(w, t)) != [] ==> LastSentPhase(w) == PhaseOf(PcOf(w, t).call))
    && (NoneUnremembered(w) ==>
          if |w.finished| > |w0.finished| then Agrees(w)
          else LastSentPhase(w) == LastSentPhase(w0) && w.currentPhase == w0.currentPhase)
  }

  lemma ActKeepsStep(dp: int, w0: World, w: World, action: Action)
    requires InStepSince(w0, w) && AtMostOneCall(w)
    ensures InStepSince(w0, Act(dp, w, action))
  {
    var v := Act(dp, w, action);
    var t := action.thread;
    forall u: nat ensures u != t ==> PcOf(v, u) == PcOf(w, u) {
    }
    forall u: nat ensures !PcOf(w, t).Ready? && u != t ==> PcOf(w, u).Ready? {
    }
    if Unremembered(PcOf(v, t)) != [] {
      assert !PcOf(w, t).Ready?;
      assert LastSentPhase(v) == PhaseOf(PcOf(v, t).call);
    } else if action.Assign? && PcOf(w, t).Assigning? {
      assert Unremembered(PcOf(w, t)) != [];
      assert Agrees(v);
    } else {
      assert Unremembered(PcOf(w, t)) == [];
      assert v.sent == w.sent && v.currentPhase == w.currentPhase && v.finished == w.finished;
      forall u: nat ensures Unremembered(PcOf(v, u)) == Unremembered(PcOf(w, u)) {
      }
    }
  }

  lemma {:induction false} StaysInStep(dp: int, w0: World, actions: seq<Action>)
    requires Quiescent(w0) && NeverOverlaps(dp, w0, actions)
    ensures InStepSince(w0, Exec(dp, w0, actions))
  {
    if actions == [] {
      assert forall t: nat :: PcOf(w0, t).Ready?;
    } else {
      StaysInStep(dp, w0, actions[..|actions| - 1]);
      ActKeepsStep(dp, w0, Exec(dp, w0, actions[..|actions| - 1]), actions[|actions| - 1]);
    }
  }

  /** Recovery. Whatever overlapped before, once everything is at rest and calls no longer overlap, the
      remembered phase is that of the last send at rest exactly when a call has succeeded since, or it
      was so already. */
  lemma SerialSuffixAgreesIff(dp: int, w0: World, actions: seq<Action>)
    requires Quiescent(w0) && NeverOverlaps(dp, w0, actions) && Quiescent(Exec(dp, w0, actions))
    ensures var w := Exec(dp, w0, actions);
            Agrees(w) <==> |w.finished| > |w0.finished| || Agrees(w0)
  {
    var w := Exec(dp, w0, actions);
    StaysInStep(dp, w0, actions);
    forall t: nat ensures Unremembered(PcOf(w, t)) == [] {
      assert PcOf(w, t).Ready?;
    }
  }

  /** If calls never overlap, then at rest the remembered phase is that of the last send. */
  lemma SerialCallsAgree(dp: int, client: ClientState, actions: seq<Action>)
    requires NeverOverlaps(dp, Fresh(client), actions) && Quiescent(Exec(dp, Fresh(client), actions))
    ensures Agrees(Exec(dp, Fresh(client), actions))
  {
    SerialSuffixAgreesIff(dp, Fresh(client), actions);
  }

  /** At rest the two agree exactly when the thread that sent last and the thread that remembered last
      made calls of the same phase last. */
  lemma AgreementAtRestIff(dp: int, client: ClientState, actions: seq<Action>)
    requires ClientInv(client) && client.frames == []
    requires var w := Exec(dp, Fresh(client), actions); Quiescent(w) && w.sent != []
    ensures var w := Exec(dp, Fresh(client), actions);
            && w.finished != []
            && (Agrees(w)
                <==> PhaseOf(LastOr(Only(w.sent, w.sent[|w.sent| - 1].0), Idle))
                     == PhaseOf(LastOr(Only(w.sent, w.finished[|w.finished| - 1].0), Idle)))
  {
    var w := Exec(dp, Fresh(client), actions);
    EveryInterleaving(dp, client, actions);
    forall u: nat ensures Only(w.sent, u) == Only(w.finished, u) {
      assert PcOf(w, u).Ready? && Fits(w, u);
    }
    EndsAreSomeonesLatest(w.sent, w.finished);
    EndsAreSomeonesLatest(w.sent, w.sent);
  }

  /** The states some interleaving leads to. */
  ghost predicate Reachable(dp: int, client: ClientState, w: World)
  {
    exists actions :: w == Exec(dp, Fresh(client), actions)
  }

  lemma StepReaches(dp: int, client: ClientState, w: World, action: Action)
    requires Reachable(dp, client, w)
    ensures Reachable(dp, client, Act(dp, w, action))
  {
    var actions :| w == Exec(dp, Fresh(client), actions);
    var longer := actions + [action];
    assert longer[..|actions|] == actions;
    assert Act(dp, w, action) == Exec(dp, Fresh(client), longer);
  }

  /** Because the assignment sits outside the lock, overlapping calls can leave the scheduler
      remembering the phase of any one call while the last frame sent was that of any other. */
  lemma OverlapBreaksAgreement(dp: int, client: ClientState, first: Call, second: Call) returns (w: World)
    ensures Reachable(dp, client, w) && Quiescent(w)
    ensures w.sent == [(0, first), (1, second)] && w.currentPhase == PhaseOf(first)
  {
    w := Fresh(client);
    assert w == Exec(dp, Fresh(client), []);
    w := CallUpToAssign(dp, client, w, 0, first);
    w := CallUpToAssign(dp, client, w, 1, second);
    AssignReaches(dp, client, w, 1, second);
    w := Assigned(w, 1, second);
    AssignReaches(dp, client, w, 0, first);
    w := Assigned(w, 0, first);
    forall u: nat ensures PcOf(w, u).Ready? {
      assert u != 0 && u != 1 ==> PcOf(w, u) == PcOf(Fresh(client), u);
    }
  }

  /** A successful call carried up to the point where only its assignment is missing. */
  lemma CallUpToAssign(dp: int, client: ClientState, w: World, t: nat, call: Call) returns (v: World)
    requires Reachable(dp, client, w)
    requires w.lock == None && PcOf(w, t).Ready?
    ensures Reachable(dp, client, v)
    ensures v == w.(client := v.client, pcs := v.pcs, sent := w.sent + [(t, call)])
    ensures forall u: nat :: PcOf(v, u) == if u == t then Assigning(call) else PcOf(w, u)
  {
    StepReaches(dp, client, w, Enter(t, call));
    v := Entered(w, t, call);
    AcquireReaches(dp, client, v, t, call);
    v := Acquired(v, t, call);
    v := TransmitReaches(dp, client, v, t, call);
    ReleaseReaches(dp, client, v, t, call);
    v := Released(v, t, Assigning(call));
  }

  lemma AcquireReaches(dp: int, client: ClientState, w: World, t: nat, call: Call)
    requires Reachable(dp, client, w) && w.lock == None && PcOf(w, t) == Waiting(call)
    ensures Reachable(dp, client, Acquired(w, t, call))
  {
    StepReaches(dp, client, w, Acquire(t));
  }

  lemma TransmitReaches(dp: int, client: ClientState, w: World, t: nat, call: Call) returns (v: World)
    requires Reachable(dp, client, w) && PcOf(w, t) == Sending(call)
    ensures Reachable(dp, client, v)
    ensures v == Transmitted(w, t, call, (v.client, Returned))
  {
    var env := Env(Opens, true);
    StepReaches(dp, client, w, Transmit(t, env));
    var (after, outcome) := SendStep(w.client, FrameFor(call, dp), env);
    assert outcome == Returned;
    v := Transmitted(w, t, call, (after, Returned));
  }

  lemma ReleaseReaches(dp: int, client: ClientState, w: World, t: nat, call: Call)
    requires Reachable(dp, client, w) && PcOf(w, t) == Sent(call)
    ensures Reachable(dp, client, Released(w, t, Assigning(call)))
  {
    StepReaches(dp, client, w, Release(t));
  }

  lemma AssignReaches(dp: int, client: ClientState, w: World, t: nat, call: Call)
    requires Reachable(dp, client, w) && PcOf(w, t) == Assigning(call)
    ensures Reachable(dp, client, Assigned(w, t, call))
  {
    StepReaches(dp, client, w, Assign(t));
  }
}
