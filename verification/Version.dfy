/** Garage version strings: parsing, printing and the support check. */
module Version {
  import opened Text

  /** Go's `int` on the supported platforms. */
  const MAX_INT: int := 0x7fff_ffff_ffff_ffff

  datatype Version = Version(major: int, minor: int, patch: int)

  datatype ParseError = Empty | BadMajor | BadMinor | BadPatch

  datatype ParseResult = Ok(version: Version) | Err(error: ParseError)

  // ---- The string library ----

  /** White space as Unicode defines it. */
  predicate IsSpace(c: char) {
    var u := c as int;
    || 9 <= u <= 13 || u == 32 || u == 0x85 || u == 0xa0 || u == 0x1680 || 0x2000 <= u <= 0x200a
    || u == 0x2028 || u == 0x2029 || u == 0x202f || u == 0x205f || u == 0x3000
  }

  predicate Blank(s: string) {
    forall i :: 0 <= i < |s| ==> IsSpace(s[i])
  }

  function TrimLeft(s: string): string {
    if s != "" && IsSpace(s[0]) then TrimLeft(s[1..]) else s
  }

  function TrimRight(s: string): string {
    if s != "" && IsSpace(s[|s| - 1]) then TrimRight(s[..|s| - 1]) else s
  }

  function TrimSpace(s: string): string {
    TrimRight(TrimLeft(s))
  }

  function TrimV(s: string): string {
    if s != "" && s[0] == 'v' then s[1..] else s
  }

  predicate StartsSuffix(c: char) {
    c == '-' || c == '+'
  }

  /** The text before the first '-' or '+'. */
  function DropSuffix(s: string): string {
    if s == "" || StartsSuffix(s[0]) then "" else [s[0]] + DropSuffix(s[1..])
  }

  /** The parts between dots; never empty. */
  function Split(s: string): (parts: seq<string>)
    ensures |parts| >= 1
  {
    if s == "" then [""]
    else
      var rest := Split(s[1..]);
      if s[0] == '.' then [""] + rest else [[s[0]] + rest[0]] + rest[1..]
  }

  /** A decimal integer with an optional sign, in the range of `int`. */
  function Atoi(s: string): Option<int> {
    var signed := s != "" && StartsSuffix(s[0]);
    var digits := if signed then s[1..] else s;
    if digits == "" || !AllDigits(digits) then None
    else
      var n: int := if signed && s[0] == '-' then 0 - Value(digits) else Value(digits);
      if -MAX_INT - 1 <= n <= MAX_INT then Some(n) else None
  }

  // ---- The version type ----

  function Parse(text: string): ParseResult {
    var s := TrimV(TrimSpace(text));
    if s == "" then Err(Empty)
    else
      var parts := Split(DropSuffix(s));
      var major := Atoi(parts[0]);
      var minor := if |parts| > 1 then Atoi(parts[1]) else Some(0);
      var patch := if |parts| > 2 then Atoi(parts[2]) else Some(0);
      if major.None? then Err(BadMajor)
      else if minor.None? then Err(BadMinor)
      else if patch.None? then Err(BadPatch)
      else Ok(Version(major.value, minor.value, patch.value))
  }

  predicate Natural(v: Version) {
    0 <= v.major <= MAX_INT && 0 <= v.minor <= MAX_INT && 0 <= v.patch <= MAX_INT
  }

  function Print(v: Version): string
    requires Natural(v)
  {
    Decimal(v.major) + "." + (Decimal(v.minor) + "." + Decimal(v.patch))
  }

  predicate AtLeast(v: Version, major: int, minor: int) {
    if v.major != major then v.major > major else v.minor >= minor
  }

  /** The support check: true when the version is accepted. */
  predicate Supported(v: Version) {
    AtLeast(v, 2, 0)
  }

  predicate SupportsSingleNode(v: Version) {
    AtLeast(v, 2, 3)
  }

  // ---- Laws of the string library ----

  lemma {:induction false} TrimLeftSkips(ws: string, x: string)
    requires Blank(ws) && x != "" && !IsSpace(x[0])
    ensures TrimLeft(ws + x) == x
  {
    if ws == "" {
      assert ws + x == x;
    } else {
      assert (ws + x)[1..] == ws[1..] + x;
      TrimLeftSkips(ws[1..], x);
    }
  }

  lemma {:induction false} TrimRightKeeps(x: string, tail: string)
    requires x != "" && !IsSpace(x[|x| - 1])
    ensures TrimRight(x + tail) == x + TrimRight(tail)
  {
    if tail == "" {
      assert x + tail == x;
    } else if IsSpace(tail[|tail| - 1]) {
      assert (x + tail)[..|x + tail| - 1] == x + tail[..|tail| - 1];
      TrimRightKeeps(x, tail[..|tail| - 1]);
    }
  }

  lemma {:induction false} TrimRightBlank(ws: string)
    requires Blank(ws)
    ensures TrimRight(ws) == ""
  {
    if ws != "" {
      TrimRightBlank(ws[..|ws| - 1]);
    }
  }

  predicate SuffixFree(s: string) {
    forall i :: 0 <= i < |s| ==> !StartsSuffix(s[i])
  }

  lemma {:induction false} DropSuffixCuts(a: string, tail: string)
    requires SuffixFree(a) && (tail == "" || StartsSuffix(tail[0]))
    ensures DropSuffix(a + tail) == a
  {
    if a == "" {
      assert a + tail == tail;
    } else {
      assert (a + tail)[1..] == a[1..] + tail;
      DropSuffixCuts(a[1..], tail);
    }
  }

  lemma {:induction false} SplitAtDot(a: string, rest: string)
    requires '.' !in a
    ensures Split(a + "." + rest) == [a] + Split(rest)
  {
    var s := a + "." + rest;
    if a == "" {
      assert s[1..] == rest;
    } else {
      assert s[1..] == a[1..] + "." + rest;
      SplitAtDot(a[1..], rest);
      assert [a[0]] + a[1..] == a;
    }
  }

  lemma {:induction false} SplitNoDot(a: string)
    requires '.' !in a
    ensures Split(a) == [a]
  {
    if a != "" {
      SplitNoDot(a[1..]);
      assert [a[0]] + a[1..] == a;
    }
  }

  lemma AtoiOfDecimal(n: nat)
    requires n <= MAX_INT
    ensures Atoi(Decimal(n)) == Some(n)
  {
    DecimalRoundTrip(n);
    assert IsDigit(Decimal(n)[0]);
  }

  lemma AtoiOfSigned(n: nat)
    requires n <= MAX_INT
    ensures Atoi("-" + Decimal(n)) == Some(0 - n) && Atoi("+" + Decimal(n)) == Some(n)
  {
    DecimalRoundTrip(n);
    assert ("-" + Decimal(n))[1..] == Decimal(n) && ("+" + Decimal(n))[1..] == Decimal(n);
  }

  // ---- Round trips ----

  lemma PrintedParts(v: Version)
    requires Natural(v)
    ensures Split(Print(v)) == [Decimal(v.major), Decimal(v.minor), Decimal(v.patch)]
  {
    SplitAtDot(Decimal(v.major), Decimal(v.minor) + "." + Decimal(v.patch));
    SplitAtDot(Decimal(v.minor), Decimal(v.patch));
    SplitNoDot(Decimal(v.patch));
  }

  /** White space alone, or a pre-release or build suffix with anything after it. */
  predicate IgnoredTail(tail: string) {
    Blank(tail) || tail[0] == '-' || tail[0] == '+'
  }

  /** Among the characters trimmed are the usual ones. */
  lemma UsualSpaces(ws: string)
    requires forall i :: 0 <= i < |ws| ==> ws[i] == ' ' || ws[i] == '\t' || ws[i] == '\n' || ws[i] == '\r'
    ensures Blank(ws)
  {
  }

  lemma TrimmedText(ws: string, core: string, tail: string)
    requires Blank(ws) && core != "" && !IsSpace(core[0]) && !IsSpace(core[|core| - 1]) && IgnoredTail(tail)
    ensures TrimSpace(ws + core + tail) == core + TrimRight(tail)
    ensures TrimRight(tail) == "" || StartsSuffix(TrimRight(tail)[0])
  {
    assert ws + core + tail == ws + (core + tail);
    TrimLeftSkips(ws, core + tail);
    TrimRightKeeps(core, tail);
    if Blank(tail) {
      TrimRightBlank(tail);
    } else {
      assert tail == tail[..1] + tail[1..];
      TrimRightKeeps(tail[..1], tail[1..]);
    }
  }

  lemma PrintedShape(v: Version)
    requires Natural(v)
    ensures var p := Print(v);
      p != "" && IsDigit(p[0]) && IsDigit(p[|p| - 1]) && SuffixFree(p)
  {
    var a, b, c, p := Decimal(v.major), Decimal(v.minor), Decimal(v.patch), Print(v);
    assert IsDigit(a[0]) && p[0] == a[0];
    assert IsDigit(c[|c| - 1]) && p[|p| - 1] == c[|c| - 1];
  }

  lemma ParseTrimmed(v: Version, text: string, end: string)
    requires Natural(v) && TrimV(TrimSpace(text)) == Print(v) + end && (end == "" || StartsSuffix(end[0]))
    ensures Parse(text) == Ok(v)
  {
    PrintedShape(v);
    DropSuffixCuts(Print(v), end);
    PrintedParts(v);
    AtoiOfDecimal(v.major);
    AtoiOfDecimal(v.minor);
    AtoiOfDecimal(v.patch);
  }

  /** Parsing the printed form of any non-negative version gives that version, whatever white space
      surrounds it, with or without a leading "v", and whatever suffix follows a '-' or '+'. */
  lemma ParsePrinted(v: Version, ws: string, prefix: string, tail: string)
    requires Natural(v) && Blank(ws) && (prefix == "" || prefix == "v") && IgnoredTail(tail)
    ensures Parse(ws + (prefix + Print(v)) + tail) == Ok(v)
  {
    PrintedShape(v);
    var core := prefix + Print(v);
    assert core[|core| - 1] == Print(v)[|Print(v)| - 1];
    TrimmedText(ws, core, tail);
    assert TrimV(core + TrimRight(tail)) == Print(v) + TrimRight(tail);
    ParseTrimmed(v, ws + core + tail, TrimRight(tail));
  }

  /** Missing components are zero. */
  lemma ParseMajor(major: nat)
    requires major <= MAX_INT
    ensures Parse(Decimal(major)) == Ok(Version(major, 0, 0))
  {
    ParseBare(Decimal(major));
    SplitNoDot(Decimal(major));
    AtoiOfDecimal(major);
  }

  lemma ParseMajorMinor(major: nat, minor: nat)
    requires major <= MAX_INT && minor <= MAX_INT
    ensures Parse(Decimal(major) + "." + Decimal(minor)) == Ok(Version(major, minor, 0))
  {
    var s := Decimal(major) + "." + Decimal(minor);
    assert IsDigit(Decimal(major)[0]) && s[0] == Decimal(major)[0];
    var last := Decimal(minor);
    assert IsDigit(last[|last| - 1]) && s[|s| - 1] == last[|last| - 1];
    ParseBare(s);
    SplitAtDot(Decimal(major), Decimal(minor));
    SplitNoDot(Decimal(minor));
    AtoiOfDecimal(major);
    AtoiOfDecimal(minor);
  }

  /** Text of digits and dots that starts and ends with a digit is split as it stands. */
  lemma ParseBare(s: string)
    requires s != "" && IsDigit(s[0]) && IsDigit(s[|s| - 1]) && SuffixFree(s)
    ensures DropSuffix(TrimV(TrimSpace(s))) == s && TrimV(TrimSpace(s)) == s
  {
    assert TrimSpace(s) == s;
    assert s + "" == s;
    DropSuffixCuts(s, "");
  }

  /** A component that is accepted: digits only, at least one, in range. */
  predicate IsNumber(s: string) {
    s != "" && AllDigits(s) && Value(s) <= MAX_INT
  }

  lemma AtoiExactly(s: string)
    requires SuffixFree(s)
    ensures Atoi(s) == if IsNumber(s) then Some(Value(s)) else None
  {
  }

  /** Three components between dots are accepted exactly when each is a number; else the first that is not
      decides the error. Further components are ignored. */
  lemma ParseThreeExactly(a: string, b: string, c: string, more: string)
    requires '.' !in a && '.' !in b && '.' !in c && SuffixFree(a) && SuffixFree(b) && SuffixFree(c) && SuffixFree(more)
    requires a != "" && a[0] != 'v' && !IsSpace(a[0]) && (more == "" || more[0] == '.')
    requires var s := a + "." + (b + "." + (c + more)); !IsSpace(s[|s| - 1])
    ensures Parse(a + "." + (b + "." + (c + more))) ==
            if !IsNumber(a) then Err(BadMajor)
            else if !IsNumber(b) then Err(BadMinor)
            else if !IsNumber(c) then Err(BadPatch)
            else Ok(Version(Value(a), Value(b), Value(c)))
  {
    var s := a + "." + (b + "." + (c + more));
    assert TrimSpace(s) == s && TrimV(s) == s;
    assert SuffixFree(s);
    assert s + "" == s;
    DropSuffixCuts(s, "");
    SplitAtDot(a, b + "." + (c + more));
    SplitAtDot(b, c + more);
    FirstPart(c, more);
    AtoiExactly(a);
    AtoiExactly(b);
    AtoiExactly(c);
  }

  lemma FirstPart(c: string, more: string)
    requires '.' !in c && (more == "" || more[0] == '.')
    ensures Split(c + more)[0] == c
  {
    if more == "" {
      assert c + more == c;
      SplitNoDot(c);
    } else {
      assert c + more == c + "." + more[1..];
      SplitAtDot(c, more[1..]);
    }
  }

  /** Nothing but white space, or that and a "v", is refused as empty. */
  lemma BlankIsEmpty(ws: string, ws': string)
    requires Blank(ws) && Blank(ws')
    ensures Parse(ws) == Err(Empty) && Parse(ws + "v" + ws') == Err(Empty)
  {
    TrimLeftBlank(ws);
    assert ws + "v" + ws' == ws + ("v" + ws');
    TrimLeftSkips(ws, "v" + ws');
    TrimRightKeeps("v", ws');
    TrimRightBlank(ws');
  }

  lemma {:induction false} TrimLeftBlank(ws: string)
    requires Blank(ws)
    ensures TrimLeft(ws) == ""
  {
    if ws != "" {
      TrimLeftBlank(ws[1..]);
    }
  }

  lemma {:induction false} DropSuffixIsFree(s: string)
    ensures SuffixFree(DropSuffix(s))
  {
    if s != "" && !StartsSuffix(s[0]) {
      DropSuffixIsFree(s[1..]);
    }
  }

  lemma {:induction false} PartsAreFree(s: string)
    requires SuffixFree(s)
    ensures forall i :: 0 <= i < |Split(s)| ==> SuffixFree(Split(s)[i])
  {
    if s != "" {
      PartsAreFree(s[1..]);
    }
  }

  /** No input parses to a negative component: a '-' always ends the version. So every accepted text
      has a printed form, and that form parses to the same version. */
  lemma ParsedIsNatural(text: string)
    requires Parse(text).Ok?
    ensures Natural(Parse(text).version)
    ensures Parse(Print(Parse(text).version)) == Parse(text)
  {
    var s := TrimV(TrimSpace(text));
    DropSuffixIsFree(s);
    PartsAreFree(DropSuffix(s));
    var v := Parse(text).version;
    ParsePrinted(v, "", "", "");
    assert "" + ("" + Print(v)) + "" == Print(v);
  }

  // ---- The support check ----

  lemma {:induction false} LowerMajorIsLower(a: int, b: int, base: nat)
    requires a < b
    ensures a * base + base <= b * base
    decreases b - a
  {
    assert (a + 1) * base == a * base + base;
    if a + 1 < b {
      LowerMajorIsLower(a + 1, b, base);
    }
  }

  /** The comparison is the numeric order of (major, minor), read in any base above the minors. */
  lemma AtLeastIsNumericOrder(v: Version, major: nat, minor: nat, base: nat)
    requires Natural(v) && v.minor < base && minor < base
    ensures AtLeast(v, major, minor) <==> v.major * base + v.minor >= major * base + minor
  {
    if v.major < major {
      LowerMajorIsLower(v.major, major, base);
    } else if v.major > major {
      LowerMajorIsLower(major, v.major, base);
    }
  }

  /** On every accepted text the support check fails exactly below 2.0, that is below major 2, and
      whatever supports a single node is supported. */
  lemma SupportedExactlyFromTwo(text: string)
    requires Parse(text).Ok?
    ensures Supported(Parse(text).version) <==> Parse(text).version.major >= 2
    ensures var v := Parse(text).version;
      SupportsSingleNode(v) <==> v.major > 2 || (v.major == 2 && v.minor >= 3)
    ensures SupportsSingleNode(Parse(text).version) ==> Supported(Parse(text).version)
  {
    ParsedIsNatural(text);
  }
}
