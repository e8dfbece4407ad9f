/** The status line for the current phase and its two readers: the C monitor, which trims it in
    place and names the phase, and the Python client, which strips and parses it. */
module PhaseMonitor {
  import opened CTypes
  import opened HintWord
  import opened NumberText

  const NUL: char := 0 as char

  /** The current_phase file. */
  function PhaseLine(phase: nat): string { "0x" + PrintHex02(phase) + "\n" }

  predicate IsNewline(c: char) { c == '\n' || c == '\r' }

  // ---- trim_nl ----

  predicate EndsInNewline(s: string) { s != [] && IsNewline(s[|s| - 1]) }

  function Trimmed(s: string): string
  {
    if EndsInNewline(s) then Trimmed(s[..|s| - 1]) else s
  }

  /** Trimming returns the longest prefix that does not end in CR or LF. */
  lemma {:induction false} TrimmedIff(s: string, t: string)
    ensures t == Trimmed(s)
            <==> t <= s && (t != "" ==> t[|t| - 1] !in {'\r', '\n'})
                 && forall i :: |t| <= i < |s| ==> s[i] in {'\r', '\n'}
  {
    if EndsInNewline(s) {
      var n := |s| - 1;
      TrimmedIff(s[..n], t);
      assert forall i :: 0 <= i < n ==> s[..n][i] == s[i];
      if t <= s && !EndsInNewline(t) {
        assert t != s;
        assert t <= s[..n];
      }
    } else if t <= s && |t| < |s| {
      assert !IsNewline(s[|s| - 1]);
    }
  }

  lemma TrimmedIdempotent(s: string)
    ensures Trimmed(Trimmed(s)) == Trimmed(s)
  {
    TrimmedIff(s, Trimmed(s));
  }

  /** The string held in a buffer: everything before its first NUL. */
  function Terminated(buf: seq<char>): string
  {
    if buf == [] || buf[0] == NUL then "" else [buf[0]] + Terminated(buf[1..])
  }

  lemma {:induction false} TerminatedAt(buf: seq<char>, len: nat)
    requires len < |buf| && buf[len] == NUL
    requires forall i :: 0 <= i < len ==> buf[i] != NUL
    ensures Terminated(buf) == buf[..len]
  {
    if len > 0 {
      TerminatedAt(buf[1..], len - 1);
      assert buf[..len] == [buf[0]] + buf[1..][..len - 1];
    }
  }

  method Strlen(buf: array<char>) returns (len: nat)
    requires NUL in buf[..]
    ensures len < buf.Length && buf[len] == NUL
    ensures forall i :: 0 <= i < len ==> buf[i] != NUL
  {
    ghost var end: nat :| end < buf.Length && buf[end] == NUL;
    len := 0;
    while buf[len] != NUL
      invariant len <= end
      invariant forall i :: 0 <= i < len ==> buf[i] != NUL
      decreases end - len
    {
      len := len + 1;
    }
  }

  /** trim_nl: overwrites trailing newlines with NULs, in place. Nothing else in the buffer changes. */
  method TrimNl(buf: array<char>)
    requires NUL in buf[..]
    modifies buf
    ensures Terminated(buf[..]) == Trimmed(old(Terminated(buf[..])))
    ensures forall i :: 0 <= i < buf.Length ==>
              buf[i] == if |Trimmed(old(Terminated(buf[..])))| <= i < |old(Terminated(buf[..]))| then NUL
                        else old(buf[i])
  {
    var len := Strlen(buf);
    ghost var all := len;
    ghost var was := buf[..];
    TerminatedAt(was, all);
    while len > 0 && (buf[len - 1] == '\n' || buf[len - 1] == '\r')
      invariant 0 <= len <= all
      invariant forall i :: 0 <= i < buf.Length ==> buf[i] == if len <= i < all then NUL else was[i]
      invariant Trimmed(was[..len]) == Trimmed(was[..all])
    {
      assert was[..len][..len - 1] == was[..len - 1];
      buf[len - 1] := NUL;
      len := len - 1;
    }
    assert Trimmed(was[..len]) == was[..len];
    TerminatedAt(buf[..], len);
    assert buf[..][..len] == was[..len];
  }

  // ---- Reading the phase back ----

  function NameOf(v: nat): string
  {
    match v
    case 1 => "PREFILL"
    case 2 => "DECODE"
    case 3 => "AGENTIC"
    case 4 => "IDLE"
    case 5 => "FORWARD"
    case 6 => "BACKWARD"
    case _ => "UNKNOWN"
  }

  function PhaseName(text: string): string
  {
    var v := Strtoul(text);
    if v.None? then "UNKNOWN" else NameOf(v.value)
  }

  /** get_current_phase: zero when the text is not a number. */
  function PythonCurrentPhase(text: string): nat
  {
    var v := PyInt0(Strip(text));
    if v.Some? then v.value else 0
  }

  /** Both readers recover any 64-bit value the status file can show. */
  lemma PhaseLineReadBack(phase: nat)
    requires phase < UINT64_SIZE
    ensures Strtoul(Trimmed(PhaseLine(phase))) == Some(phase)
    ensures PythonCurrentPhase(PhaseLine(phase)) == phase
  {
    var body := "0x" + PrintHex02(phase);
    HexEnd(phase);
    TrimmedIff(PhaseLine(phase), body);
    ScanHex(phase, "");
    assert body + "" == body;
    assert SkipSpace(body) == body;
    assert SkipSpace(PhaseLine(phase)) == PhaseLine(phase) by {
      assert PhaseLine(phase)[0] == '0';
    }
    assert PhaseLine(phase)[..|body|] == body;
    assert StripRight(PhaseLine(phase)) == StripRight(body) == body;
  }

  lemma HexEnd(n: nat)
    ensures var s := PrintHex02(n);
            IsDigit(s[|s| - 1], 16) && !IsSpace(s[|s| - 1]) && !IsNewline(s[|s| - 1])
  {
    PrintValue(n, 16);
    var s := PrintHex02(n);
    assert s[|s| - 1] == Print(n, 16)[|Print(n, 16)| - 1];
  }

  /** For every valid phase the monitor shows that phase's own name. */
  lemma MonitorNamesPhase(p: uint8, q: uint8)
    requires IsPhase(p) && IsPhase(q)
    ensures PhaseName(Trimmed(PhaseLine(p))) == NameOf(p) && NameOf(p) != "UNKNOWN"
    ensures PhaseName(Trimmed(PhaseLine(p))) == PhaseName(Trimmed(PhaseLine(q))) <==> p == q
  {
    PhaseLineReadBack(p);
    PhaseLineReadBack(q);
    NamesDistinct(p, q);
  }

  lemma NamesDistinct(p: uint8, q: uint8)
    requires IsPhase(p) && IsPhase(q)
    ensures NameOf(p) != "" && NameOf(q) != ""
    ensures NameOf(p)[0] == NameOf(q)[0] ==> p == q
    ensures NameOf(p)[0] != 'U'
  {
  }

  /** The lines of the six phases. */
  lemma PhaseLines()
    ensures PhaseLine(1) == "0x01\n" && PhaseLine(2) == "0x02\n" && PhaseLine(3) == "0x03\n"
    ensures PhaseLine(4) == "0x04\n" && PhaseLine(5) == "0x05\n" && PhaseLine(6) == "0x06\n"
  {
    OneDigitLine(1, '1');
    OneDigitLine(2, '2');
    OneDigitLine(3, '3');
    OneDigitLine(4, '4');
    OneDigitLine(5, '5');
    OneDigitLine(6, '6');
  }

  lemma OneDigitLine(n: nat, digit: char)
    requires n < 10 && digit == DIGITS[n]
    ensures PhaseLine(n) == "0x0" + [digit] + "\n"
  {
  }

  /** A status file that cannot be read reads as no phase. */
  lemma NoStatus()
    ensures PythonCurrentPhase("") == 0 && PhaseName("") == "UNKNOWN"
  {
    assert Scan("").0 == 0;
  }

  /** What the monitor makes of every line the status file can show. */
  lemma NamesInFull(v: nat)
    requires v < 0x1_0000_0000_0000_0000
    ensures PhaseName(Trimmed(PhaseLine(v)))
            == match v {
                 case 1 => "PREFILL" case 2 => "DECODE" case 3 => "AGENTIC"
                 case 4 => "IDLE" case 5 => "FORWARD" case 6 => "BACKWARD"
                 case _ => "UNKNOWN"
               }
  {
    PhaseLineReadBack(v);
    var text := Trimmed(PhaseLine(v));
    assert PhaseName(text) == NameOf(v);
  }
}
