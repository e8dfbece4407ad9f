/** The policy and threshold files: each store parses text, checks a range and narrows the value
    into its variable; each show prints the variable. These variables are the sysfs module's own:
    nothing here reaches the classifier or the dispatch path. */
module Sysfs {
  import opened CTypes
  import opened NumberText

  const EINVAL := -22

  datatype Attr =
    | DecodeTrcd | DecodeVswingMv | DecodeDfeTap1 | PrefillVswingMv | PrefillCtleGainDb
    | AgenticPriority | IdlePllReduction | IdleVswingMv
    | PrefillWrBw | DecodeWrCeil | DecodeLlcFloor | AgenticVarPct | IdleCmdFloor

  function Range(a: Attr): (int, int)
  {
    match a
    case DecodeTrcd => (14, 32)
    case DecodeVswingMv => (200, 400)
    case DecodeDfeTap1 => (0, 255)
    case PrefillVswingMv => (200, 400)
    case PrefillCtleGainDb => (-12, 12)
    case AgenticPriority => (0, 7)
    case IdlePllReduction => (0, 1)
    case IdleVswingMv => (200, 400)
    case PrefillWrBw => (1, 1024)
    case DecodeWrCeil => (0, 64)
    case DecodeLlcFloor => (1, 1000000)
    case AgenticVarPct => (1, 100)
    case IdleCmdFloor => (0, 1000000)
  }

  predicate InRange(a: Attr, v: int) { Range(a).0 <= v <= Range(a).1 }

  function Default(a: Attr): int
  {
    match a
    case DecodeTrcd => 18
    case DecodeVswingMv => 280
    case DecodeDfeTap1 => 0x14
    case PrefillVswingMv => 300
    case PrefillCtleGainDb => 2
    case AgenticPriority => 5
    case IdlePllReduction => 1
    case IdleVswingMv => 240
    case PrefillWrBw => 10
    case DecodeWrCeil => 1
    case DecodeLlcFloor => 5000
    case AgenticVarPct => 50
    case IdleCmdFloor => 1000
  }

  /** The conversion to the type of the attribute's variable. */
  function Cast(a: Attr, v: int): int
  {
    match a
    case PrefillCtleGainDb => (v + 0x80) % 0x100 - 0x80
    case DecodeVswingMv | PrefillVswingMv | IdleVswingMv => v % 0x1_0000
    case DecodeTrcd | DecodeDfeTap1 | AgenticPriority | IdlePllReduction => v % 0x100
    case _ => v % 0x1_0000_0000
  }

  function Denoted(a: Attr, text: string): Option<int>
  {
    if a.PrefillCtleGainDb? then Kstrtol(text)
    else var u := Kstrtoul(text); if u.Some? then Some(u.value) else None
  }

  /** The value a write sets, if it is accepted. */
  function AcceptedValue(a: Attr, text: string): Option<int>
  {
    var d := Denoted(a, text);
    if d.Some? && InRange(a, d.value) then d else None
  }

  /** The values each file takes, and the value each variable starts with. */
  ghost predicate Permits(a: Attr, v: int)
  {
    match a
    case DecodeTrcd => 14 <= v <= 32
    case DecodeVswingMv | PrefillVswingMv | IdleVswingMv => 200 <= v <= 400
    case DecodeDfeTap1 => 0 <= v <= 255
    case PrefillCtleGainDb => -12 <= v <= 12
    case AgenticPriority => 0 <= v <= 7
    case IdlePllReduction => 0 <= v <= 1
    case PrefillWrBw => 1 <= v <= 1024
    case DecodeWrCeil => 0 <= v <= 64
    case DecodeLlcFloor => 1 <= v <= 1000000
    case AgenticVarPct => 1 <= v <= 100
    case IdleCmdFloor => 0 <= v <= 1000000
  }

  /** A text is accepted, as value v, exactly if it is a literal of v, with an optional plus sign, or for
      the gain alone a minus sign, and the file permits v. */
  lemma AcceptedIff(a: Attr, text: string, v: int)
    ensures AcceptedValue(a, text) == Some(v)
            <==> Permits(a, v)
                 && (WrittenAs(text, v) || (text != "" && text[0] == '+' && WrittenAs(text[1..], v))
                     || (a == PrefillCtleGainDb && text != "" && text[0] == '-' && WrittenAs(text[1..], -v)))
  {
    if a.PrefillCtleGainDb? {
      KstrtolIff(text, v);
    } else {
      UnsignedAccepted(a, text, v);
    }
  }

  lemma UnsignedAccepted(a: Attr, text: string, v: int)
    requires !a.PrefillCtleGainDb?
    ensures AcceptedValue(a, text) == Some(v)
            <==> Permits(a, v) && (WrittenAs(text, v) || (text != "" && text[0] == '+' && WrittenAs(text[1..], v)))
  {
    PermitsIsInRange(a, v);
    if v >= 0 {
      KstrtoulIff(text, v);
    }
  }

  lemma PermitsIsInRange(a: Attr, v: int)
    ensures Permits(a, v) <==> InRange(a, v)
    ensures Permits(a, v) && !a.PrefillCtleGainDb? ==> 0 <= v < UINT64_SIZE
  {
  }

  datatype TextWrite = TextWrite(attr: Attr, text: string)

  /** The latest accepted write to an attribute decides its value. */
  function Setting(writes: seq<TextWrite>, a: Attr): int
  {
    if writes == [] then Default(a)
    else
      var w := writes[|writes| - 1];
      if w.attr == a && AcceptedValue(a, w.text).Some? then AcceptedValue(a, w.text).value
      else Setting(writes[..|writes| - 1], a)
  }

  class Settings {
    var values: map<Attr, int>
    ghost var writes: seq<TextWrite>

    /** Every variable holds the setting its history of writes calls for. */
    ghost predicate Valid()
      reads this
    {
      forall a: Attr :: a in values && values[a] == Setting(writes, a)
    }

    constructor ()
      ensures Valid() && writes == []
      ensures forall a: Attr :: values[a] == match a
                case DecodeTrcd => 18 case DecodeVswingMv => 280 case DecodeDfeTap1 => 20
                case PrefillVswingMv => 300 case PrefillCtleGainDb => 2 case AgenticPriority => 5
                case IdlePllReduction => 1 case IdleVswingMv => 240 case PrefillWrBw => 10
                case DecodeWrCeil => 1 case DecodeLlcFloor => 5000 case AgenticVarPct => 50
                case IdleCmdFloor => 1000
    {
      values := map[
        DecodeTrcd := 18, DecodeVswingMv := 280, DecodeDfeTap1 := 0x14, PrefillVswingMv := 300,
        PrefillCtleGainDb := 2, AgenticPriority := 5, IdlePllReduction := 1, IdleVswingMv := 240,
        PrefillWrBw := 10, DecodeWrCeil := 1, DecodeLlcFloor := 5000, AgenticVarPct := 50,
        IdleCmdFloor := 1000];
      writes := [];
      new;
      forall a: Attr ensures a in values && values[a] == Default(a) {
        match a
        case DecodeTrcd => case DecodeVswingMv => case DecodeDfeTap1 => case PrefillVswingMv =>
        case PrefillCtleGainDb => case AgenticPriority => case IdlePllReduction => case IdleVswingMv =>
        case PrefillWrBw => case DecodeWrCeil => case DecodeLlcFloor => case AgenticVarPct =>
        case IdleCmdFloor =>
      }
    }

    /** The store functions: a parse failure or an out-of-range value is -EINVAL and changes nothing. */
    method Store(a: Attr, text: string) returns (ret: int)
      requires Valid()
      modifies this
      ensures Valid() && writes == old(writes) + [TextWrite(a, text)]
      ensures ret == (if AcceptedValue(a, text).Some? then |text| else -22)
      ensures AcceptedValue(a, text).None? ==> values == old(values)
    {
      ghost var w := TextWrite(a, text);
      forall b ensures Setting(writes + [w], b)
                       == if a == b && AcceptedValue(a, text).Some? then AcceptedValue(a, text).value
                          else Setting(writes, b)
      {
        SettingAppend(writes, w, b);
      }
      writes := writes + [w];
      var d := Denoted(a, text);
      if d.None? || d.value < Range(a).0 || d.value > Range(a).1 {
        return EINVAL;
      }
      CastLossless(a, d.value);
      values := values[a := Cast(a, d.value)];
      return |text|;
    }

    /** The show functions. */
    method Show(a: Attr) returns (text: string)
      requires Valid()
      ensures text == PrintSigned(Setting(writes, a)) + "\n"
    {
      text := PrintSigned(values[a]) + "\n";
    }
  }

  lemma SettingAppend(writes: seq<TextWrite>, w: TextWrite, b: Attr)
    ensures Setting(writes + [w], b)
            == if w.attr == b && AcceptedValue(b, w.text).Some? then AcceptedValue(b, w.text).value
               else Setting(writes, b)
  {
    assert (writes + [w])[..|writes|] == writes;
  }

  /** No accepted value is altered by the narrowing conversion. */
  lemma CastLossless(a: Attr, v: int)
    requires InRange(a, v)
    ensures Cast(a, v) == v
  {
  }

  /** Every variable stays in its declared range, whatever text is written to whichever files. */
  lemma {:induction false} SettingsStayInRange(writes: seq<TextWrite>, a: Attr)
    ensures InRange(a, Setting(writes, a)) && Permits(a, Setting(writes, a))
  {
    if writes != [] {
      SettingsStayInRange(writes[..|writes| - 1], a);
    }
  }

  /** Printed integers are accepted exactly when they are in range, with or without the newline: so
      the C library's set_policy (unsigned, newline) and the Python client's (any integer, none). */
  lemma PrintedAcceptedIff(a: Attr, v: int, rest: string)
    requires rest in {"", "\n"}
    ensures AcceptedValue(a, PrintSigned(v) + rest) == if InRange(a, v) then Some(v) else None
  {
    RangesAreNarrow(a);
    if a.PrefillCtleGainDb? {
      SignedRoundTrip(v, rest);
    } else {
      UnsignedDenotes(v, rest);
    }
  }

  lemma UnsignedDenotes(v: int, rest: string)
    requires rest in {"", "\n"}
    ensures Kstrtoul(PrintSigned(v) + rest) == if 0 <= v < UINT64_SIZE then Some(v) else None
  {
    if v >= 0 {
      UnsignedRoundTrip(v, rest);
    } else {
      MinusIsNoUnsigned(Print(-v, 10) + rest);
      assert PrintSigned(v) + rest == "-" + (Print(-v, 10) + rest);
    }
  }

  lemma RangesAreNarrow(a: Attr)
    ensures Range(a).1 <= 1000000
    ensures if a.PrefillCtleGainDb? then Range(a).0 == -12 else Range(a).0 >= 0
  {
  }

  lemma MinusIsNoUnsigned(rest: string)
    ensures Kstrtoul("-" + rest) == None
  {
    assert ("-" + rest)[0] == '-';
    assert DigitRun("-" + rest, 10) == 0;
  }

  /** What a file shows can be written back to it: the write is accepted and restores the value. */
  lemma ShowThenStore(writes: seq<TextWrite>, a: Attr)
    ensures var shown := PrintSigned(Setting(writes, a)) + "\n";
            && AcceptedValue(a, shown) == Some(Setting(writes, a))
            && (forall b :: Setting(writes + [TextWrite(a, shown)], b) == Setting(writes, b))
  {
    var v := Setting(writes, a);
    SettingsStayInRange(writes, a);
    PrintedAcceptedIff(a, v, "\n");
    var longer := writes + [TextWrite(a, PrintSigned(v) + "\n")];
    assert longer[..|longer| - 1] == writes;
  }
}
