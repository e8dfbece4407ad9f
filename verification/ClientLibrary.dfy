/** The C helper library's send path. */
module ClientLibrary {
  import opened CTypes
  import opened HintWord
  import opened Driver
  import opened NumberText
  import Sysfs

  const EIO := -5

  /** What write() returned: a byte count, or -1 with errno set. */
  datatype WriteReturn = Wrote(count: nat) | WriteFailed(errno: int)

  /** mem_hint_send. The write is the driver's, so its return value is whatever the kernel made of
      the frame; a descriptor that is not the driver's may return anything else. */
  method MemHintSend(fd: int, hint: Option<WorkloadHint>, kernel: WriteReturn)
    returns (ret: int, written: seq<uint8>)
    requires kernel.WriteFailed? ==> kernel.errno > 0
    ensures ret == 0 <==> fd >= 0 && hint.Some? && IsPhase(hint.value.phaseId) && kernel == Wrote(HINT_SIZE)
    ensures written == if fd >= 0 && hint.Some? && IsPhase(hint.value.phaseId) then StructBytes(hint.value) else []
    ensures written == [] ==> ret == -22
    ensures written != [] && kernel.WriteFailed? ==> ret == -kernel.errno
    ensures written != [] && kernel.Wrote? && kernel.count != HINT_SIZE ==> ret == -5
  {
    written := [];
    if fd < 0 || hint.None? {
      return EINVAL, written;
    }
    var h := hint.value;
    if h.phaseId < PHASE_PREFILL || h.phaseId > PHASE_BACKWARD {
      return EINVAL, written;
    }
    written := StructBytes(h);
    if kernel.WriteFailed? {
      return -kernel.errno, written;
    }
    if kernel.count != HINT_SIZE {
      return EIO, written;
    }
    return 0, written;
  }

  /** mem_hint_send_phase: zeroes a hint, fills it in and sends it. */
  method MemHintSendPhase(fd: int, phaseId: uint8, latencyNs: uint16, bwGbps: uint16,
                          securityLevel: uint8, priority: uint8, kernel: WriteReturn)
    returns (ret: int, written: seq<uint8>)
    requires kernel.WriteFailed? ==> kernel.errno > 0
    ensures ret == 0 <==> fd >= 0 && IsPhase(phaseId) && kernel == Wrote(HINT_SIZE)
    ensures written == if fd >= 0 && IsPhase(phaseId)
                       then StructBytes(WorkloadHint(phaseId, latencyNs, bwGbps, securityLevel, priority, 0)) else []
  {
    var hint := WorkloadHint(0, 0, 0, 0, 0, 0);
    hint := hint.(phaseId := phaseId);
    hint := hint.(latencyTargetNs := latencyNs);
    hint := hint.(bwTargetGbps := bwGbps);
    hint := hint.(securityLevel := securityLevel);
    hint := hint.(priority := priority);
    ret, written := MemHintSend(fd, Some(hint), kernel);
  }

  /** The library's check and the driver's agree: a frame the library would write is rejected only
      if the copy faults, and arrives as the caller's hint with the priority capped; a hint the
      library refuses would have been refused by the driver too. */
  lemma LibraryAndDriverAgree(h: WorkloadHint, copyFaults: bool)
    ensures var r := Validate(StructBytes(h), copyFaults);
            && (r.Accepted? <==> IsPhase(h.phaseId) && !copyFaults)
            && (r.Accepted? ==> r.hint == h.(priority := Min(h.priority, 7)))
  {
    StructRoundTrip(h, StructBytes(h));
  }

  const ENAMETOOLONG := -36
  const POLICY_DIRECTORY := "/sys/bus/platform/drivers/mem_hint/policy/"
  const PATH_SIZE := 512

  /** How the stdio calls of one set_policy go: each may fail with its own errno. */
  datatype StdioErrors = StdioErrors(opening: nat, writing: nat, closing: nat)

  function FirstError(a: nat, b: nat, c: nat): nat
  {
    if a != 0 then a else if b != 0 then b else c
  }

  predicate PathFits(name: string) { |POLICY_DIRECTORY| + |name| < PATH_SIZE }

  /** The return value of one set_policy: the first failure decides it. */
  function SetPolicyReturn(attr: Option<string>, errors: StdioErrors): int
  {
    if attr.None? then EINVAL
    else if !PathFits(attr.value) then ENAMETOOLONG
    else -(FirstError(errors.opening, errors.writing, errors.closing) as int)
  }

  /** The text that reaches the policy file, if any does. */
  function SetPolicyText(attr: Option<string>, value: uint64, errors: StdioErrors): string
  {
    if attr.Some? && PathFits(attr.value) && errors.opening == 0 && errors.writing == 0
    then Print(value, 10) + "\n" else ""
  }

  /** mem_hint_set_policy: the decimal text and a newline reach the policy file exactly when the path
      fits its buffer and the file opens and takes the text; the first failure decides the error. */
  method MemHintSetPolicy(attr: Option<string>, value: uint64, errors: StdioErrors)
    returns (ret: int, text: string)
    ensures ret == SetPolicyReturn(attr, errors) && text == SetPolicyText(attr, value, errors)
    ensures attr.None? ==> ret == -22
    ensures attr.Some? && |attr.value| > 469 ==> ret == -36 && text == ""
    ensures attr.Some? && |attr.value| <= 469 ==>
              && -ret == (if errors.opening > 0 then errors.opening
                          else if errors.writing > 0 then errors.writing else errors.closing)
              && text == if errors.opening > 0 || errors.writing > 0 then "" else PrintSigned(value) + "\n"
  {
    text := "";
    if attr.None? {
      return EINVAL, text;
    }
    var path := POLICY_DIRECTORY + attr.value;
    if |path| >= PATH_SIZE {
      return ENAMETOOLONG, text;
    }
    if errors.opening != 0 {
      return -(errors.opening as int), text;
    }
    if errors.writing != 0 {
      return -(errors.writing as int), text;
    }
    text := Print(value, 10) + "\n";
    if errors.closing != 0 {
      return -(errors.closing as int), text;
    }
    return 0, text;
  }

  /** What set_policy writes is accepted by the policy file exactly when the value is in range. */
  lemma SetPolicyAcceptedIff(a: Sysfs.Attr, value: uint64)
    ensures Sysfs.AcceptedValue(a, Print(value, 10) + "\n") == if Sysfs.InRange(a, value) then Some(value) else None
  {
    Sysfs.PrintedAcceptedIff(a, value, "\n");
  }

  /** What the kernel's store makes of set_policy, and what set_policy learns of it: the buffered text is
      handed over when the file is closed, so a rejected value surfaces as the close error. The call
      returns 0 exactly when the path fits, the file opens and takes the text, and the value is in
      range; then the setting is the value, and otherwise no setting has changed. */
  lemma SetPolicyTakesEffectIff(writes: seq<Sysfs.TextWrite>, a: Sysfs.Attr, name: string, value: uint64,
                                errors: StdioErrors)
    requires var text := SetPolicyText(Some(name), value, errors);
             text != "" ==> errors.closing == if Sysfs.AcceptedValue(a, text).Some? then 0 else 22
    ensures var ret, text := SetPolicyReturn(Some(name), errors), SetPolicyText(Some(name), value, errors);
            var after := if text == "" then writes else writes + [Sysfs.TextWrite(a, text)];
            && (ret == 0 <==> PathFits(name) && errors.opening == 0 && errors.writing == 0 && Sysfs.InRange(a, value))
            && (forall b :: Sysfs.Setting(after, b) == if ret == 0 && b == a then value else Sysfs.Setting(writes, b))
  {
    var text := SetPolicyText(Some(name), value, errors);
    SetPolicyAcceptedIff(a, value);
    if text != "" {
      forall b ensures Sysfs.Setting(writes + [Sysfs.TextWrite(a, text)], b)
                       == if Sysfs.InRange(a, value) && b == a then value else Sysfs.Setting(writes, b)
      {
        Sysfs.SettingAppend(writes, Sysfs.TextWrite(a, text), b);
      }
    }
  }
}
