/** UUIDs as Postgres reads and prints them: the `::uuid` casts and uuid columns of the statements. */
module Uuid {
  import opened Text

  predicate IsHex(c: char) {
    '0' <= c <= '9' || 'a' <= c <= 'f' || 'A' <= c <= 'F'
  }

  predicate IsLowerHex(c: char) {
    '0' <= c <= '9' || 'a' <= c <= 'f'
  }

  function Lower(c: char): (r: char)
    requires IsHex(c)
    ensures IsLowerHex(r) && (IsLowerHex(c) ==> r == c)
  {
    if 'A' <= c <= 'F' then (c as int + 32) as char else c
  }

  predicate AllLowerHex(s: string) {
    forall i :: 0 <= i < |s| ==> IsLowerHex(s[i])
  }

  /** A hyphen may follow every second byte but the last. */
  function SkipHyphen(s: string, byte: nat): string {
    if s != "" && s[0] == '-' && byte % 2 == 1 && byte < 15 then s[1..] else s
  }

  /** Reads the bytes from number `byte` on, as lower-case digits. */
  function Digits(s: string, byte: nat): Option<string>
    requires byte <= 16
    decreases |s|
  {
    if byte == 16 then (if s == "" then Some("") else None)
    else if |s| < 2 || !IsHex(s[0]) || !IsHex(s[1]) then None
    else
      var rest := Digits(SkipHyphen(s[2..], byte), byte + 1);
      if rest.None? then None else Some([Lower(s[0]), Lower(s[1])] + rest.value)
  }

  /** The printed form of 32 digits. */
  function Print(d: string): string
    requires |d| == 32
  {
    d[..8] + "-" + d[8..12] + "-" + d[12..16] + "-" + d[16..20] + "-" + d[20..]
  }

  /** What a text denotes, as it is stored and printed; none when it is refused. Braces are allowed. */
  function Stored(s: string): Option<string> {
    var inner :=
      if s != "" && s[0] == '{' then (if |s| > 1 && s[|s| - 1] == '}' then Some(s[1..|s| - 1]) else None) else Some(s);
    if inner.None? then None
    else
      var d := Digits(inner.value, 0);
      if d.Some? && |d.value| == 32 then Some(Print(d.value)) else None
  }

  predicate HyphenAt(i: nat) {
    i == 8 || i == 13 || i == 18 || i == 23
  }

  /** Five groups of lower-case digits between hyphens. */
  predicate IsStoredForm(s: string) {
    |s| == 36 && forall i :: 0 <= i < 36 ==> if HyphenAt(i) then s[i] == '-' else IsLowerHex(s[i])
  }

  lemma {:induction false} DigitsShape(s: string, byte: nat)
    requires byte <= 16
    ensures Digits(s, byte).Some? ==> |Digits(s, byte).value| == 2 * (16 - byte) && AllLowerHex(Digits(s, byte).value)
    decreases |s|
  {
    if byte < 16 && |s| >= 2 {
      DigitsShape(SkipHyphen(s[2..], byte), byte + 1);
    }
  }

  lemma PrintShape(d: string)
    requires |d| == 32 && AllLowerHex(d)
    ensures IsStoredForm(Print(d))
  {
  }

  function Prepend(b: string, d: Option<string>): Option<string> {
    if d.None? then None else Some(b + d.value)
  }

  predicate AllHex(s: string) {
    forall i :: 0 <= i < |s| ==> IsHex(s[i])
  }

  /** Digits in lower case; anything else stays. */
  function LowerText(s: string): (r: string)
    ensures |r| == |s| && forall i :: 0 <= i < |s| ==> r[i] == if IsHex(s[i]) then Lower(s[i]) else s[i]
  {
    seq(|s|, i requires 0 <= i < |s| => if IsHex(s[i]) then Lower(s[i]) else s[i])
  }

  lemma ReadByte(s: string, rest: string, byte: nat)
    requires byte < 16 && |s| >= 2 && IsHex(s[0]) && IsHex(s[1]) && rest == SkipHyphen(s[2..], byte)
    ensures Digits(s, byte) == Prepend([Lower(s[0]), Lower(s[1])], Digits(rest, byte + 1))
  {
  }

  lemma PrependTwice(a: string, b: string, d: Option<string>)
    ensures Prepend(a, Prepend(b, d)) == Prepend(a + b, d)
  {
    if d.Some? {
      assert a + (b + d.value) == (a + b) + d.value;
    }
  }

  lemma LowerTextSplits(b: string)
    requires |b| >= 2 && AllHex(b)
    ensures b == [b[0], b[1]] + b[2..] && AllHex(b[2..])
    ensures LowerText(b) == [Lower(b[0]), Lower(b[1])] + LowerText(b[2..])
  {
  }

  /** Behind one byte of a longer group no hyphen is skipped. */
  lemma NoHyphenInside(rest: string, tail: string, byte: nat)
    requires rest != "" && AllHex(rest)
    ensures SkipHyphen(rest + tail, byte) == rest + tail
  {
    assert IsHex((rest + tail)[0]);
  }

  /** What a group and what follows it look like behind the first byte. */
  lemma AfterFirstByte(b: string, tail: string)
    requires |b| >= 2
    ensures (b + tail)[2..] == b[2..] + tail && (b + tail)[0] == b[0] && (b + tail)[1] == b[1]
    ensures |b| == 2 ==> b[2..] + tail == tail && b == [b[0], b[1]]
  {
  }

  lemma LowerPair(b: string)
    requires |b| == 2 && AllHex(b)
    ensures LowerText(b) == [Lower(b[0]), Lower(b[1])]
  {
  }

  lemma ReadOneByte(b: string, tail: string, byte: nat)
    requires byte < 16 && |b| == 2 && AllHex(b)
    ensures Digits(b + tail, byte) == Prepend(LowerText(b), Digits(SkipHyphen(tail, byte), byte + 1))
  {
    LowerPair(b);
    AfterFirstByte(b, tail);
    ReadByte(b + tail, SkipHyphen(tail, byte), byte);
  }

  lemma ReadFirstByte(b: string, tail: string, byte: nat)
    requires byte < 16 && |b| > 2 && AllHex(b)
    ensures Digits(b + tail, byte) == Prepend([Lower(b[0]), Lower(b[1])], Digits(b[2..] + tail, byte + 1))
  {
    AfterFirstByte(b, tail);
    NoHyphenInside(b[2..], tail, byte);
    ReadByte(b + tail, b[2..] + tail, byte);
  }

  /** From the rest of a group to the group. */
  lemma ReadMore(b: string, tail: string, byte: nat, d: Option<string>)
    requires byte < 16 && |b| > 2 && AllHex(b) && Digits(b[2..] + tail, byte + 1) == Prepend(LowerText(b[2..]), d)
    ensures Digits(b + tail, byte) == Prepend(LowerText(b), d)
  {
    ReadFirstByte(b, tail, byte);
    LowerTextSplits(b);
    PrependTwice([Lower(b[0]), Lower(b[1])], LowerText(b[2..]), d);
  }

  lemma TailIsHex(b: string)
    requires |b| >= 2 && AllHex(b)
    ensures AllHex(b[2..])
  {
  }

  /** A group of n bytes is read digit by digit. */
  lemma {:induction false} ReadGroup(b: string, tail: string, byte: nat, n: nat)
    requires n >= 1 && byte + n <= 16 && |b| == 2 * n && AllHex(b)
    ensures Digits(b + tail, byte) == Prepend(LowerText(b), Digits(SkipHyphen(tail, byte + n - 1), byte + n))
    decreases n
  {
    if n == 1 {
      ReadOneByte(b, tail, byte);
    } else {
      TailIsHex(b);
      ReadGroup(b[2..], tail, byte + 1, n - 1);
      ReadMore(b, tail, byte, Digits(SkipHyphen(tail, byte + n - 1), byte + n));
    }
  }

  lemma HyphenIsSkipped(rest: string, byte: nat)
    requires byte % 2 == 1 && byte < 15
    ensures SkipHyphen("-" + rest, byte) == rest
  {
    assert ("-" + rest)[1..] == rest;
  }

  /** A group followed by a hyphen, at an even byte. */
  lemma ReadHyphenated(b: string, rest: string, byte: nat, n: nat)
    requires n >= 1 && byte + n < 16 && (byte + n) % 2 == 0 && |b| == 2 * n && AllHex(b)
    ensures Digits(b + ("-" + rest), byte) == Prepend(LowerText(b), Digits(rest, byte + n))
  {
    ReadGroup(b, "-" + rest, byte, n);
    HyphenIsSkipped(rest, byte + n - 1);
  }

  /** The last group, with nothing or something behind it. */
  lemma ReadLast(b: string, tail: string, byte: nat)
    requires byte < 16 && |b| == 2 * (16 - byte) && AllHex(b)
    ensures Digits(b + tail, byte) == Prepend(LowerText(b), if tail == "" then Some("") else None)
  {
    ReadGroup(b, tail, byte, 16 - byte);
  }

  /** Five groups are read one by one; nothing may follow. */
  lemma ReadGroups(a: string, b: string, c: string, d: string, e: string, tail: string)
    requires |a| == 8 && |b| == |c| == |d| == 4 && |e| == 12
    requires AllHex(a) && AllHex(b) && AllHex(c) && AllHex(d) && AllHex(e)
    ensures Digits(a + ("-" + (b + ("-" + (c + ("-" + (d + ("-" + (e + tail)))))))), 0) ==
            Prepend(LowerText(a), Prepend(LowerText(b), Prepend(LowerText(c), Prepend(LowerText(d),
            Prepend(LowerText(e), if tail == "" then Some("") else None)))))
  {
    ReadLast(e, tail, 10);
    ReadHyphenated(d, e + tail, 8, 2);
    ReadHyphenated(c, d + ("-" + (e + tail)), 6, 2);
    ReadHyphenated(b, c + ("-" + (d + ("-" + (e + tail)))), 4, 2);
    ReadHyphenated(a, b + ("-" + (c + ("-" + (d + ("-" + (e + tail)))))), 0, 4);
  }

  lemma PrependFive(a: string, b: string, c: string, d: string, e: string)
    ensures Prepend(a, Prepend(b, Prepend(c, Prepend(d, Prepend(e, Some("")))))) == Some(a + (b + (c + (d + e))))
    ensures Prepend(a, Prepend(b, Prepend(c, Prepend(d, Prepend(e, None))))) == None
  {
    assert e + "" == e;
  }

  /** Five groups of digits in either case between hyphens. */
  predicate IsHyphenated(s: string) {
    |s| == 36 && forall i :: 0 <= i < 36 ==> if HyphenAt(i) then s[i] == '-' else IsHex(s[i])
  }

  lemma Regroup(s: string)
    requires |s| == 36 && s[8] == '-' && s[13] == '-' && s[18] == '-' && s[23] == '-'
    ensures s == s[..8] + ("-" + (s[9..13] + ("-" + (s[14..18] + ("-" + (s[19..23] + ("-" + s[24..])))))))
  {
    assert s[19..] == s[19..23] + ("-" + s[24..]);
    assert s[14..] == s[14..18] + ("-" + s[19..]);
    assert s[9..] == s[9..13] + ("-" + s[14..]);
    assert s == s[..8] + ("-" + s[9..]);
  }

  lemma PrintGroups(a: string, b: string, c: string, d: string, e: string)
    requires |a| == 8 && |b| == |c| == |d| == 4 && |e| == 12
    ensures Print(a + (b + (c + (d + e)))) == a + ("-" + (b + ("-" + (c + ("-" + (d + ("-" + e)))))))
  {
    var w := a + (b + (c + (d + e)));
    assert w[..8] == a && w[8..12] == b && w[12..16] == c && w[16..20] == d && w[20..] == e;
  }

  /** The usual spelling in either case, also in braces, is stored in lower case; a hyphen or an unclosed
      brace too many is refused. */
  lemma HyphenatedIsStoredInLowerCase(s: string)
    requires IsHyphenated(s)
    ensures Stored(s) == Some(LowerText(s)) && Stored("{" + s + "}") == Some(LowerText(s))
    ensures Stored(s + "-") == None && Stored("{" + s) == None
  {
    HyphenatedDigits(s, "");
    HyphenatedDigits(s, "-");
    assert s + "" == s;
    assert IsHex(s[0]) && IsHex(s[35]);
    LowerGroups(s);
    Braces(s);
  }

  /** The digits of a hyphenated text, with nothing or something behind it. */
  lemma HyphenatedDigits(s: string, tail: string)
    requires IsHyphenated(s)
    ensures Digits(s + tail, 0) ==
            if tail == "" then
              Some(LowerText(s[..8]) + (LowerText(s[9..13]) + (LowerText(s[14..18]) + (LowerText(s[19..23]) + LowerText(s[24..])))))
            else None
  {
    var a, b, c, d, e := s[..8], s[9..13], s[14..18], s[19..23], s[24..];
    GroupsAreHex(s);
    Regroup(s);
    RegroupTail(a, b, c, d, e, tail);
    ReadGroups(a, b, c, d, e, tail);
    PrependFive(LowerText(a), LowerText(b), LowerText(c), LowerText(d), LowerText(e));
  }

  lemma GroupsAreHex(s: string)
    requires IsHyphenated(s)
    ensures s[8] == '-' && s[13] == '-' && s[18] == '-' && s[23] == '-'
    ensures AllHex(s[..8]) && AllHex(s[9..13]) && AllHex(s[14..18]) && AllHex(s[19..23]) && AllHex(s[24..])
  {
    assert HyphenAt(8) && HyphenAt(13) && HyphenAt(18) && HyphenAt(23);
  }

  lemma RegroupTail(a: string, b: string, c: string, d: string, e: string, tail: string)
    ensures (a + ("-" + (b + ("-" + (c + ("-" + (d + ("-" + e)))))))) + tail ==
            a + ("-" + (b + ("-" + (c + ("-" + (d + ("-" + (e + tail))))))))
  {
  }

  lemma LowerGroups(s: string)
    requires IsHyphenated(s)
    ensures Print(LowerText(s[..8]) + (LowerText(s[9..13]) + (LowerText(s[14..18]) + (LowerText(s[19..23]) + LowerText(s[24..]))))) == LowerText(s)
  {
    GroupsAreHex(s);
    var t := LowerText(s);
    Regroup(t);
    assert t[..8] == LowerText(s[..8]) && t[9..13] == LowerText(s[9..13]) && t[14..18] == LowerText(s[14..18]);
    assert t[19..23] == LowerText(s[19..23]) && t[24..] == LowerText(s[24..]);
    PrintGroups(t[..8], t[9..13], t[14..18], t[19..23], t[24..]);
  }

  lemma Braces(s: string)
    requires s != "" && s[0] != '{' && s[|s| - 1] != '}'
    ensures Stored("{" + s + "}") == Stored(s) && Stored("{" + s) == None
  {
    var x := "{" + s + "}";
    assert x[1..|x| - 1] == s;
    assert ("{" + s)[|s|] == s[|s| - 1];
  }

  lemma StoredFormIsKept(s: string)
    requires IsStoredForm(s)
    ensures Stored(s) == Some(s)
  {
    assert IsHyphenated(s);
    HyphenatedIsStoredInLowerCase(s);
    assert LowerText(s) == s;
  }

  /** A text is kept by the cast exactly when it is in the stored form already. */
  lemma KeptExactlyInStoredForm(s: string)
    ensures Stored(s) == Some(s) <==> IsStoredForm(s)
  {
    if IsStoredForm(s) {
      StoredFormIsKept(s);
    } else if Stored(s) == Some(s) {
      StoredIsStoredForm(s);
    }
  }

  /** Whatever a text denotes is stored in that form; so storing it again changes nothing. */
  lemma StoredIsStoredForm(s: string)
    requires Stored(s).Some?
    ensures IsStoredForm(Stored(s).value) && Stored(Stored(s).value) == Stored(s)
  {
    var inner := if s != "" && s[0] == '{' then s[1..|s| - 1] else s;
    DigitsShape(inner, 0);
    PrintShape(Digits(inner, 0).value);
    StoredFormIsKept(Stored(s).value);
  }
}
