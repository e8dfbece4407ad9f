/** Numbers as text: the printf conversions the status and policy files use, and the base-0 parsers
    that read them back (the kernel's kstrtoul and kstrtol, strtoul(3), and Python's int). */
module NumberText {
  import opened CTypes

  // ---- Printing ----

  const DIGITS := "0123456789abcdef"

  function Print(n: nat, base: nat): (s: string)
    requires base == 10 || base == 16
    ensures |s| > 0
  {
    if n < base then [DIGITS[n]]
    else
      QuotientSmaller(n, base);
      Print(n / base, base) + [DIGITS[n % base]]
  }

  function PrintSigned(n: int): string
  {
    if n >= 0 then Print(n, 10) else "-" + Print(-n, 10)
  }

  /** The %02x conversion. */
  function PrintHex02(n: nat): string
  {
    if n < 16 then "0" + Print(n, 16) else Print(n, 16)
  }

  // ---- Digit strings ----

  function DigitValue(c: char): Option<nat>
  {
    if '0' <= c <= '9' then Some((c - '0') as nat)
    else if 'a' <= c <= 'f' then Some((c - 'a') as nat + 10)
    else if 'A' <= c <= 'F' then Some((c - 'A') as nat + 10)
    else None
  }

  predicate IsDigit(c: char, base: nat)
  {
    DigitValue(c).Some? && DigitValue(c).value < base
  }

  predicate AllDigits(s: string, base: nat) { forall i :: 0 <= i < |s| ==> IsDigit(s[i], base) }

  /** The value of a digit string, most significant digit first. */
  function Value(s: string, base: nat): nat
    requires AllDigits(s, base)
  {
    if s == [] then 0
    else
      assert AllDigits(s[..|s| - 1], base);
      Value(s[..|s| - 1], base) * base + DigitValue(s[|s| - 1]).value
  }

  /** The length of the longest prefix of digits. */
  function DigitRun(s: string, base: nat): (k: nat)
    ensures k <= |s| && AllDigits(s[..k], base)
    ensures k < |s| ==> !IsDigit(s[k], base)
  {
    if s == [] || !IsDigit(s[0], base) then 0
    else
      var k := DigitRun(s[1..], base);
      assert s[..k + 1] == [s[0]] + s[1..][..k];
      k + 1
  }

  lemma {:induction false} PrintValue(n: nat, base: nat)
    requires base == 10 || base == 16
    ensures AllDigits(Print(n, base), base)
    ensures Value(Print(n, base), base) == n
    ensures Print(n, base)[0] == '0' <==> n == 0
    decreases n
  {
    if n < base {
      ValueAppend("", n, base, 0);
      DigitsDecode(n);
      assert "" + [DIGITS[n]] == Print(n, base);
    } else {
      var q, r := n / base, n % base;
      QuotientSmaller(n, base);
      PrintValue(q, base);
      ValueAppend(Print(q, base), r, base, q);
      assert Print(n, base) == Print(q, base) + [DIGITS[r]];
      assert Print(n, base)[0] == Print(q, base)[0];
    }
  }

  lemma QuotientSmaller(n: nat, base: nat)
    requires n >= base && (base == 10 || base == 16)
    ensures 1 <= n / base < n && n % base < base
    ensures n / base * base + n % base == n
  {
    if base == 10 {
      assert 1 <= n / 10 < n && n / 10 * 10 + n % 10 == n;
    } else {
      assert 1 <= n / 16 < n && n / 16 * 16 + n % 16 == n;
    }
  }

  lemma ValueAppend(s: string, d: nat, base: nat, v: nat)
    requires base <= 16 && d < base && AllDigits(s, base) && Value(s, base) == v
    ensures AllDigits(s + [DIGITS[d]], base)
    ensures Value(s + [DIGITS[d]], base) == v * base + d
  {
    DigitsDecode(d);
    assert (s + [DIGITS[d]])[..|s|] == s;
  }

  lemma DigitsDecode(d: nat)
    requires d < 16
    ensures DigitValue(DIGITS[d]) == Some(d)
    ensures DIGITS[d] == '0' <==> d == 0
    ensures '0' <= DIGITS[d] <= '9' || 'a' <= DIGITS[d] <= 'f'
  {
  }

  lemma {:induction false} RunOfDigits(s: string, rest: string, base: nat)
    requires AllDigits(s, base)
    requires rest == "" || !IsDigit(rest[0], base)
    ensures DigitRun(s + rest, base) == |s|
  {
    if s == [] {
      assert s + rest == rest;
    } else {
      assert (s + rest)[1..] == s[1..] + rest;
      RunOfDigits(s[1..], rest, base);
    }
  }

  // ---- Parsing with base detection ----

  predicate HexPrefix(s: string)
  {
    |s| >= 3 && s[0] == '0' && s[1] in {'x', 'X'} && IsDigit(s[2], 16)
  }

  function BaseOf(s: string): nat
  {
    if HexPrefix(s) then 16 else if s != [] && s[0] == '0' then 8 else 10
  }

  function AfterPrefix(s: string): string
  {
    if HexPrefix(s) then s[2..] else s
  }

  /** The digits a base-0 parse consumes, and what follows them. */
  function Scan(s: string): (r: (nat, nat, string))
  {
    var body := AfterPrefix(s);
    var k := DigitRun(body, BaseOf(s));
    (k, Value(body[..k], BaseOf(s)), body[k..])
  }

  /** kstrtoull with base 0: at least one digit, at most one trailing newline, no overflow. */
  function ParseUnsigned(s: string): Option<nat>
  {
    var (digits, v, rest) := Scan(s);
    if digits == 0 || v >= UINT64_SIZE || rest !in {"", "\n"} then None else Some(v)
  }

  /** kstrtoul with base 0: an optional plus sign first. */
  function Kstrtoul(s: string): Option<nat>
  {
    ParseUnsigned(if s != [] && s[0] == '+' then s[1..] else s)
  }

  /** kstrtol with base 0: the magnitude must fit a signed 64-bit word. */
  function Kstrtol(s: string): Option<int>
  {
    if s != [] && s[0] == '-' then
      var m := ParseUnsigned(s[1..]);
      if m.None? || m.value > UINT64_SIZE / 2 then None else Some(-(m.value as int))
    else
      var m := Kstrtoul(s);
      if m.None? || m.value >= UINT64_SIZE / 2 then None else Some(m.value)
  }

  predicate IsSpace(c: char) { c in {' ', '\t', '\n', '\r', 11 as char, 12 as char} }

  function SkipSpace(s: string): string
  {
    if s != [] && IsSpace(s[0]) then SkipSpace(s[1..]) else s
  }

  /** strtoul(3) with base 0 and a 64-bit unsigned long: None when no digit is found. */
  function Strtoul(s: string): Option<nat>
  {
    var t := SkipSpace(s);
    var signed := t != [] && t[0] in {'+', '-'};
    var (digits, v, _) := Scan(if signed then t[1..] else t);
    if digits == 0 then None
    else if v >= UINT64_SIZE then Some(UINT64_SIZE - 1)
    else if signed && t[0] == '-' then Some((UINT64_SIZE - v) % UINT64_SIZE)
    else Some(v)
  }

  /** Python's str.strip(), for the ASCII white space above. */
  function Strip(s: string): string
  {
    StripRight(SkipSpace(s))
  }

  function StripRight(s: string): string
  {
    if s != [] && IsSpace(s[|s| - 1]) then StripRight(s[..|s| - 1]) else s
  }

  /** Python's int(text, 0), for unsigned decimal and hexadecimal literals: decimals may not start
      with a zero unless they are all zeros. */
  function PyInt0(s: string): Option<nat>
  {
    var (digits, v, rest) := Scan(s);
    if digits == 0 || rest != "" then None
    else if BaseOf(s) == 8 && v != 0 then None
    else Some(v)
  }

  // ---- Which texts the kernel's parsers take ----

  /** A text is a hexadecimal, decimal or octal literal with at most one newline after it: the prefix 0x
      or 0X and hexadecimal digits, decimal digits that do not start with 0, or octal digits that do. */
  ghost predicate Literal(s: string, base: nat, digits: string, end: string)
  {
    && digits != "" && AllDigits(digits, base) && end in {"", "\n"}
    && ((base == 16 && (s == "0x" + digits + end || s == "0X" + digits + end))
        || (base == 10 && digits[0] != '0' && s == digits + end)
        || (base == 8 && digits[0] == '0' && s == digits + end))
  }

  ghost predicate WrittenAs(s: string, v: int)
  {
    exists base, digits, end :: Literal(s, base, digits, end) && Value(digits, base) == v
  }

  lemma ScanLiteral(s: string, base: nat, digits: string, end: string)
    requires Literal(s, base, digits, end)
    ensures Scan(s) == (|digits|, Value(digits, base), end)
  {
    assert IsDigit(digits[0], base);
    if base == 16 {
      assert s[2..] == digits + end;
      assert s[2] == digits[0];
      ScanAfterPrefix(s, digits, end);
    } else {
      assert s[0] == digits[0];
      assert !HexPrefix(s) by {
        if |digits| > 1 {
          assert s[1] == digits[1] && IsDigit(digits[1], base);
        }
      }
      RunOfDigits(digits, end, base);
      assert s[..|digits|] == digits && s[|digits|..] == end;
    }
  }

  lemma ScannedIsLiteral(s: string)
    requires Scan(s).0 > 0 && Scan(s).2 in {"", "\n"}
    ensures WrittenAs(s, Scan(s).1)
  {
    var base, body := BaseOf(s), AfterPrefix(s);
    var k := DigitRun(body, base);
    var digits, end := body[..k], body[k..];
    assert body == digits + end;
    if base == 16 {
      assert s == s[..2] + body;
      assert s[..2] == "0x" || s[..2] == "0X";
      assert s == "0x" + digits + end || s == "0X" + digits + end;
    } else {
      assert s == digits + end && s[0] == digits[0];
    }
    assert Literal(s, base, digits, end);
  }

  /** kstrtoull takes exactly the literals of 64-bit values. */
  lemma ParseUnsignedIff(s: string, v: nat)
    ensures ParseUnsigned(s) == Some(v) <==> v < 0x1_0000_0000_0000_0000 && WrittenAs(s, v)
  {
    if ParseUnsigned(s) == Some(v) {
      ScannedIsLiteral(s);
    }
    if WrittenAs(s, v) {
      var base, digits, end :| Literal(s, base, digits, end) && Value(digits, base) == v;
      ScanLiteral(s, base, digits, end);
    }
  }

  /** kstrtoul takes exactly those, and the same after a plus sign. */
  lemma KstrtoulIff(s: string, v: nat)
    ensures Kstrtoul(s) == Some(v)
            <==> v < 0x1_0000_0000_0000_0000 && (WrittenAs(s, v) || (s != "" && s[0] == '+' && WrittenAs(s[1..], v)))
  {
    SignIsNoLiteral(s, v);
    ParseUnsignedIff(s, v);
    if s != "" {
      ParseUnsignedIff(s[1..], v);
    }
  }

  /** kstrtol takes exactly those of signed 64-bit values, and the same after a minus sign. */
  lemma KstrtolIff(s: string, v: int)
    ensures Kstrtol(s) == Some(v)
            <==> -0x8000_0000_0000_0000 <= v < 0x8000_0000_0000_0000
                 && (WrittenAs(s, v) || (s != "" && s[0] == '+' && WrittenAs(s[1..], v))
                     || (s != "" && s[0] == '-' && WrittenAs(s[1..], -v)))
  {
    SignIsNoLiteral(s, v);
    if v >= 0 {
      KstrtoulIff(s, v);
    }
    if s != "" && v <= 0 {
      ParseUnsignedIff(s[1..], -v);
    }
  }

  lemma SignIsNoLiteral(s: string, v: int)
    ensures s != "" && s[0] in {'+', '-'} ==> !WrittenAs(s, v)
    ensures WrittenAs(s, v) ==> v >= 0
  {
    if WrittenAs(s, v) {
      var base, digits, end :| Literal(s, base, digits, end) && Value(digits, base) == v;
      assert IsDigit(digits[0], base);
      assert s[0] == '0' || s[0] == digits[0];
    }
  }

  // ---- Reading back what was printed ----

  /** A printed decimal scans back to its value in base 10, or to zero in base 8. */
  lemma ScanPrinted(n: nat, rest: string)
    requires rest in {"", "\n"}
    ensures Scan(Print(n, 10) + rest) == (|Print(n, 10)|, n, rest)
  {
    var s := Print(n, 10);
    var text := s + rest;
    PrintValue(n, 10);
    assert text[0] == s[0];
    if n == 0 {
      assert s == "0";
      assert !HexPrefix(text);
      assert AllDigits(s, 8);
      RunOfDigits(s, rest, 8);
      assert text[..1] == "0" && text[1..] == rest;
      assert "0"[..0] == "";
      assert Value("0", 8) == 0;
    } else {
      RunOfDigits(s, rest, 10);
      assert text[..|s|] == s && text[|s|..] == rest;
    }
  }

  lemma UnsignedRoundTrip(n: nat, rest: string)
    requires rest in {"", "\n"}
    ensures Kstrtoul(Print(n, 10) + rest) == if n < UINT64_SIZE then Some(n) else None
  {
    ScanPrinted(n, rest);
    FirstIsDigit(n);
    assert (Print(n, 10) + rest)[0] == Print(n, 10)[0];
  }

  lemma FirstIsDigit(n: nat)
    ensures '0' <= Print(n, 10)[0] <= '9'
  {
    PrintValue(n, 10);
    assert IsDigit(Print(n, 10)[0], 10);
  }

  lemma SignedRoundTrip(n: int, rest: string)
    requires rest in {"", "\n"}
    ensures Kstrtol(PrintSigned(n) + rest)
            == if -(UINT64_SIZE / 2) <= n < UINT64_SIZE / 2 then Some(n) else None
  {
    if n >= 0 {
      var text := Print(n, 10) + rest;
      FirstIsDigit(n);
      assert text[0] == Print(n, 10)[0];
      UnsignedRoundTrip(n, rest);
      UnsignedAsSigned(text);
    } else {
      NegativeParse(-n, rest);
    }
  }

  lemma UnsignedAsSigned(s: string)
    requires s != "" && s[0] != '-'
    ensures var m := Kstrtoul(s);
            Kstrtol(s) == if m.Some? && m.value < UINT64_SIZE / 2 then Some(m.value) else None
  {
  }

  lemma NegativeParse(m: nat, rest: string)
    requires rest in {"", "\n"}
    ensures Kstrtol("-" + Print(m, 10) + rest) == if m <= UINT64_SIZE / 2 then Some(-(m as int)) else None
  {
    var text := "-" + Print(m, 10) + rest;
    var magnitude := Print(m, 10) + rest;
    ScanPrinted(m, rest);
    assert text[1..] == magnitude;
    assert text[0] == '-';
  }

  /** The 0x%02x text of a number scans back to it. */
  lemma ScanHex(n: nat, rest: string)
    requires rest in {"", "\n"}
    ensures var text := "0x" + PrintHex02(n) + rest;
            Scan(text) == (|PrintHex02(n)|, n, rest) && BaseOf(text) == 16
  {
    var digits := PrintHex02(n);
    var text := "0x" + digits + rest;
    Hex02Value(n);
    assert text[2..] == digits + rest;
    assert text[0] == '0' && text[1] == 'x' && text[2] == digits[0];
    assert IsDigit(digits[0], 16);
    assert HexPrefix(text);
    ScanAfterPrefix(text, digits, rest);
  }

  lemma ScanAfterPrefix(text: string, digits: string, rest: string)
    requires HexPrefix(text) && text[2..] == digits + rest
    requires AllDigits(digits, 16) && (rest == "" || !IsDigit(rest[0], 16))
    ensures Scan(text) == (|digits|, Value(digits, 16), rest)
  {
    RunOfDigits(digits, rest, 16);
    assert (digits + rest)[..|digits|] == digits && (digits + rest)[|digits|..] == rest;
  }

  lemma Hex02Value(n: nat)
    ensures AllDigits(PrintHex02(n), 16) && PrintHex02(n) != ""
    ensures Value(PrintHex02(n), 16) == n
  {
    PrintValue(n, 16);
    if n < 16 {
      DigitsDecode(0);
      ValueAppend("", 0, 16, 0);
      assert "" + [DIGITS[0]] == "0";
      ValueAppend("0", n, 16, 0);
      assert "0" + [DIGITS[n]] == PrintHex02(n);
    }
  }
}
