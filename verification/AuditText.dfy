/** The string that the audit log hashes for one event, and how much of the event it determines. */
module AuditText {
  import opened Text

  /** A UTC instant as its calendar fields. Years have four digits, as RFC 3339 section 5.6 requires. */
  datatype Instant = Instant(year: nat, month: nat, day: nat, hour: nat, minute: nat, second: nat, nano: nat)
  {
    ghost predicate Valid() {
      year < Pow10(4) && month < Pow10(2) && day < Pow10(2) &&
      hour < Pow10(2) && minute < Pow10(2) && second < Pow10(2) && nano < Pow10(9)
    }
  }

  /** Drops trailing zeros. */
  function TrimZeros(s: string): string {
    if s != "" && s[|s| - 1] == '0' then TrimZeros(s[..|s| - 1]) else s
  }

  /** The optional fractional part: nothing for a whole second, otherwise a point and the
      nanoseconds without trailing zeros. */
  function Fraction(nano: nat): string {
    var f := TrimZeros(Padded(nano, 9));
    if f == "" then "" else "." + f
  }

  function DateText(t: Instant): string {
    Padded(t.year, 4) + "-" + Padded(t.month, 2) + "-" + Padded(t.day, 2) + "T"
  }

  function ClockText(t: Instant): string {
    Padded(t.hour, 2) + ":" + Padded(t.minute, 2) + ":" + Padded(t.second, 2)
  }

  function Rfc3339Nano(t: Instant): string {
    DateText(t) + ClockText(t) + Fraction(t.nano) + "Z"
  }

  lemma {:induction false} TrimZerosKeepsDigits(s: string)
    requires AllDigits(s)
    ensures AllDigits(TrimZeros(s)) && |TrimZeros(s)| <= |s|
  {
    if s != "" && s[|s| - 1] == '0' {
      TrimZerosKeepsDigits(s[..|s| - 1]);
    }
  }

  /** What was trimmed is known from the length. */
  lemma {:induction false} TrimZerosInverse(s: string)
    ensures |TrimZeros(s)| <= |s|
    ensures s == TrimZeros(s) + seq(|s| - |TrimZeros(s)|, _ => '0')
  {
    if s != "" && s[|s| - 1] == '0' {
      var r := s[..|s| - 1];
      TrimZerosInverse(r);
      assert s == r + ['0'];
    }
  }

  lemma FractionInjective(n: nat, m: nat)
    requires n < Pow10(9) && m < Pow10(9) && Fraction(n) == Fraction(m)
    ensures n == m
  {
    var a, b := TrimZeros(Padded(n, 9)), TrimZeros(Padded(m, 9));
    assert a == b by {
      assert a != "" ==> Fraction(n)[1..] == a;
      assert b != "" ==> Fraction(m)[1..] == b;
    }
    TrimZerosInverse(Padded(n, 9));
    TrimZerosInverse(Padded(m, 9));
    PaddedInjective(n, m, 9);
  }

  lemma TimeHasNoBar(t: Instant)
    ensures '|' !in Rfc3339Nano(t)
  {
    TrimZerosKeepsDigits(Padded(t.nano, 9));
    assert '|' !in Fraction(t.nano);
    assert '|' !in DateText(t);
    assert '|' !in ClockText(t);
  }

  lemma DateDetermines(t: Instant, u: Instant)
    requires t.Valid() && u.Valid() && DateText(t) == DateText(u)
    ensures t.year == u.year && t.month == u.month && t.day == u.day
  {
    var a, b := DateText(t), DateText(u);
    assert a[0..4] == Padded(t.year, 4) && a[5..7] == Padded(t.month, 2) && a[8..10] == Padded(t.day, 2);
    assert b[0..4] == Padded(u.year, 4) && b[5..7] == Padded(u.month, 2) && b[8..10] == Padded(u.day, 2);
    PaddedInjective(t.year, u.year, 4);
    PaddedInjective(t.month, u.month, 2);
    PaddedInjective(t.day, u.day, 2);
  }

  lemma ClockDetermines(t: Instant, u: Instant)
    requires t.Valid() && u.Valid() && ClockText(t) == ClockText(u)
    ensures t.hour == u.hour && t.minute == u.minute && t.second == u.second
  {
    var a, b := ClockText(t), ClockText(u);
    assert a[0..2] == Padded(t.hour, 2) && a[3..5] == Padded(t.minute, 2) && a[6..8] == Padded(t.second, 2);
    assert b[0..2] == Padded(u.hour, 2) && b[3..5] == Padded(u.minute, 2) && b[6..8] == Padded(u.second, 2);
    PaddedInjective(t.hour, u.hour, 2);
    PaddedInjective(t.minute, u.minute, 2);
    PaddedInjective(t.second, u.second, 2);
  }

  /** The date and the clock have fixed widths. */
  lemma TimeSlices(t: Instant)
    ensures var s := Rfc3339Nano(t);
      && |s| == 20 + |Fraction(t.nano)|
      && s[..11] == DateText(t) && s[11..19] == ClockText(t) && s[19..|s| - 1] == Fraction(t.nano)
  {
    assert |DateText(t)| == 11 && |ClockText(t)| == 8;
  }

  /** The layout that section 5.6 of RFC 3339 prescribes for UTC: date, "T", time, fraction, "Z". */
  lemma TimeLayout(t: Instant)
    requires t.Valid()
    ensures var s := Rfc3339Nano(t);
      && |s| == 20 + |Fraction(t.nano)|
      && AllDigits(s[..4]) && Value(s[..4]) == t.year && s[4] == '-'
      && AllDigits(s[5..7]) && Value(s[5..7]) == t.month && s[7] == '-'
      && AllDigits(s[8..10]) && Value(s[8..10]) == t.day && s[10] == 'T'
      && AllDigits(s[11..13]) && Value(s[11..13]) == t.hour && s[13] == ':'
      && AllDigits(s[14..16]) && Value(s[14..16]) == t.minute && s[16] == ':'
      && AllDigits(s[17..19]) && Value(s[17..19]) == t.second
      && s[19..|s| - 1] == Fraction(t.nano) && s[|s| - 1] == 'Z'
  {
    TimeSlices(t);
    DateInTime(t);
    ClockInTime(t);
    var s := Rfc3339Nano(t);
    assert s[|s| - 1] == 'Z';
  }

  /** A slice of a slice. */
  lemma SubSlice(s: string, part: string, at: nat, i: nat, j: nat)
    requires at + |part| <= |s| && s[at..at + |part|] == part && i <= j <= |part|
    ensures s[at + i..at + j] == part[i..j]
  {
    forall k | 0 <= k < j - i ensures s[at + i..at + j][k] == part[i..j][k] {
      assert s[at + i + k] == s[at..at + |part|][i + k];
    }
  }

  lemma DateInTime(t: Instant)
    requires t.Valid()
    ensures var s := Rfc3339Nano(t);
      && |s| >= 20
      && AllDigits(s[..4]) && Value(s[..4]) == t.year && s[4] == '-'
      && AllDigits(s[5..7]) && Value(s[5..7]) == t.month && s[7] == '-'
      && AllDigits(s[8..10]) && Value(s[8..10]) == t.day && s[10] == 'T'
  {
    TimeSlices(t);
    DateLayout(t);
    var s, d := Rfc3339Nano(t), DateText(t);
    assert s[0..11] == d;
    SubSlice(s, d, 0, 0, 4);
    SubSlice(s, d, 0, 5, 7);
    SubSlice(s, d, 0, 8, 10);
    assert s[4] == s[0..11][4] && s[7] == s[0..11][7] && s[10] == s[0..11][10];
    assert s[..4] == s[0..4];
  }

  lemma ClockInTime(t: Instant)
    requires t.Valid()
    ensures var s := Rfc3339Nano(t);
      && |s| >= 20
      && AllDigits(s[11..13]) && Value(s[11..13]) == t.hour && s[13] == ':'
      && AllDigits(s[14..16]) && Value(s[14..16]) == t.minute && s[16] == ':'
      && AllDigits(s[17..19]) && Value(s[17..19]) == t.second
  {
    TimeSlices(t);
    ClockLayout(t);
    var s, c := Rfc3339Nano(t), ClockText(t);
    SubSlice(s, c, 11, 0, 2);
    SubSlice(s, c, 11, 3, 5);
    SubSlice(s, c, 11, 6, 8);
    assert s[13] == s[11..19][2] && s[16] == s[11..19][5];
    assert c[0..2] == c[..2];
  }

  lemma DateLayout(t: Instant)
    requires t.Valid()
    ensures var d := DateText(t);
      && |d| == 11 && d[..4] == Padded(t.year, 4) && d[5..7] == Padded(t.month, 2) && d[8..10] == Padded(t.day, 2)
      && Value(d[..4]) == t.year && Value(d[5..7]) == t.month && Value(d[8..10]) == t.day
      && d[4] == '-' && d[7] == '-' && d[10] == 'T'
  {
    var d := DateText(t);
    assert d[..4] == Padded(t.year, 4) && d[5..7] == Padded(t.month, 2) && d[8..10] == Padded(t.day, 2);
    PaddedRoundTrip(t.year, 4);
    PaddedRoundTrip(t.month, 2);
    PaddedRoundTrip(t.day, 2);
  }

  lemma ClockLayout(t: Instant)
    requires t.Valid()
    ensures var c := ClockText(t);
      && |c| == 8 && c[..2] == Padded(t.hour, 2) && c[3..5] == Padded(t.minute, 2) && c[6..8] == Padded(t.second, 2)
      && Value(c[..2]) == t.hour && Value(c[3..5]) == t.minute && Value(c[6..8]) == t.second
      && c[2] == ':' && c[5] == ':'
  {
    var c := ClockText(t);
    assert c[..2] == Padded(t.hour, 2) && c[3..5] == Padded(t.minute, 2) && c[6..8] == Padded(t.second, 2);
    PaddedRoundTrip(t.hour, 2);
    PaddedRoundTrip(t.minute, 2);
    PaddedRoundTrip(t.second, 2);
  }

  lemma {:induction false} TrimmedEnd(s: string)
    ensures TrimZeros(s) != "" ==> TrimZeros(s)[|TrimZeros(s)| - 1] != '0'
    ensures TrimZeros(s) == "" <==> forall i :: 0 <= i < |s| ==> s[i] == '0'
  {
    if s != "" && s[|s| - 1] == '0' {
      TrimmedEnd(s[..|s| - 1]);
    }
  }

  lemma {:induction false} ZerosMeanZero(s: string)
    requires AllDigits(s)
    ensures Value(s) == 0 <==> forall i :: 0 <= i < |s| ==> s[i] == '0'
  {
    if s != "" {
      ZerosMeanZero(s[..|s| - 1]);
    }
  }

  /** The fraction is left out exactly for whole seconds; otherwise it is a point and the nanoseconds in
      nine digits with the trailing zeros cut off. */
  lemma FractionLayout(nano: nat)
    requires nano < Pow10(9)
    ensures var f := Fraction(nano);
      && (f == "" <==> nano == 0)
      && (f != "" ==> f[0] == '.' && 2 <= |f| <= 10 && f[|f| - 1] != '0' && f[1..] <= Padded(nano, 9))
  {
    var p := Padded(nano, 9);
    TrimmedEnd(p);
    TrimZerosInverse(p);
    PaddedRoundTrip(nano, 9);
    ZerosMeanZero(p);
    assert Fraction(nano) != "" ==> Fraction(nano)[1..] == TrimZeros(p);
  }

  lemma TimeInjective(t: Instant, u: Instant)
    requires t.Valid() && u.Valid() && Rfc3339Nano(t) == Rfc3339Nano(u)
    ensures t == u
  {
    TimeSlices(t);
    TimeSlices(u);
    DateDetermines(t, u);
    ClockDetermines(t, u);
    FractionInjective(t.nano, u.nano);
  }

  /** The fields of an audit event that go into its hash. */
  datatype Event = Event(
    id: nat, org: string, actor: string, actorType: string, action: string,
    targetType: string, targetId: string, metadata: string, at: Instant)

  function Fields(e: Event): (fs: seq<string>)
    ensures |fs| == 9
  {
    [Decimal(e.id), e.org, e.actor, e.actorType, e.action, e.targetType, e.targetId, e.metadata, Rfc3339Nano(e.at)]
  }

  function Join(fs: seq<string>): string
    requires fs != []
  {
    if |fs| == 1 then fs[0] else fs[0] + "|" + Join(fs[1..])
  }

  /** The text of an event: nine fields between vertical bars. */
  function Canonical(e: Event): string {
    Join(Fields(e))
  }

  /** The nine fields in the order in which they are written. */
  lemma CanonicalLayout(e: Event)
    ensures Canonical(e) ==
            Decimal(e.id) + "|" + (e.org + "|" + (e.actor + "|" + (e.actorType + "|" + (e.action + "|" + (e.targetType + "|" +
            (e.targetId + "|" + (e.metadata + "|" + Rfc3339Nano(e.at))))))))
  {
    var fs := Fields(e);
    JoinFour(fs);
    JoinFour(fs[4..]);
    assert fs[4..][4..] == fs[8..] && |fs[8..]| == 1;
  }

  lemma JoinFour(fs: seq<string>)
    requires |fs| >= 5
    ensures Join(fs) == fs[0] + "|" + (fs[1] + "|" + (fs[2] + "|" + (fs[3] + "|" + Join(fs[4..]))))
  {
    assert fs[1..][1..] == fs[2..] && fs[2..][1..] == fs[3..] && fs[3..][1..] == fs[4..];
    assert Join(fs[1..]) == fs[1] + "|" + Join(fs[2..]);
    assert Join(fs[2..]) == fs[2] + "|" + Join(fs[3..]);
    assert Join(fs[3..]) == fs[3] + "|" + Join(fs[4..]);
  }

  /** No bar in the fields before the metadata (the id, being digits, never has one). */
  predicate BarFree(e: Event) {
    forall f :: f in [e.org, e.actor, e.actorType, e.action, e.targetType, e.targetId] ==> '|' !in f
  }

  lemma {:induction false} JoinInjective(fs: seq<string>, gs: seq<string>)
    requires |fs| == |gs| >= 2 && Join(fs) == Join(gs)
    requires forall i :: 0 <= i < |fs| && i != |fs| - 2 ==> '|' !in fs[i] && '|' !in gs[i]
    ensures fs == gs
  {
    if |fs| == 2 {
      assert Join(fs) == fs[0] + ['|'] + fs[1] && Join(gs) == gs[0] + ['|'] + gs[1];
      CutAtLast(fs[0], fs[1], gs[0], gs[1], '|');
    } else {
      CutAtFirst(fs[0], Join(fs[1..]), gs[0], Join(gs[1..]), '|');
      JoinInjective(fs[1..], gs[1..]);
      assert fs == [fs[0]] + fs[1..] && gs == [gs[0]] + gs[1..];
    }
  }

  /** The canonical text is injective on events without bars before the metadata, whatever the metadata. */
  lemma CanonicalInjective(e: Event, f: Event)
    requires BarFree(e) && BarFree(f) && e.at.Valid() && f.at.Valid()
    requires Canonical(e) == Canonical(f)
    ensures e == f
  {
    var fs, gs := Fields(e), Fields(f);
    TimeHasNoBar(e.at);
    TimeHasNoBar(f.at);
    forall i | 0 <= i < 9 && i != 7 ensures '|' !in fs[i] && '|' !in gs[i] {
      if 1 <= i <= 6 {
        assert fs[i] in [e.org, e.actor, e.actorType, e.action, e.targetType, e.targetId];
        assert gs[i] in [f.org, f.actor, f.actorType, f.action, f.targetType, f.targetId];
      }
    }
    JoinInjective(fs, gs);
    FieldsInjective(e, f);
  }

  lemma FieldsInjective(e: Event, f: Event)
    requires e.at.Valid() && f.at.Valid() && Fields(e) == Fields(f)
    ensures e == f
  {
    var fs, gs := Fields(e), Fields(f);
    assert fs[0] == gs[0] && fs[1] == gs[1] && fs[2] == gs[2] && fs[3] == gs[3] && fs[4] == gs[4];
    assert fs[5] == gs[5] && fs[6] == gs[6] && fs[7] == gs[7] && fs[8] == gs[8];
    DecimalInjective(e.id, f.id);
    TimeInjective(e.at, f.at);
  }

  lemma {:induction false} JoinSingleEdit(fs: seq<string>, k: nat, x: string)
    requires k < |fs| && Join(fs[k := x]) == Join(fs)
    ensures x == fs[k]
  {
    var gs := fs[k := x];
    if |fs| > 1 {
      var a, b := Join(fs[1..]), Join(gs[1..]);
      if k == 0 {
        assert gs[1..] == fs[1..];
        assert (fs[0] + "|" + a)[..|fs[0]|] == fs[0] && (x + "|" + a)[..|x|] == x;
      } else {
        assert gs[1..] == fs[1..][k - 1 := x];
        assert (fs[0] + "|" + a)[|fs[0]| + 1..] == a && (fs[0] + "|" + b)[|fs[0]| + 1..] == b;
        JoinSingleEdit(fs[1..], k - 1, x);
      }
    }
  }

  /** Two events that differ in exactly one hashed field have different texts, bars or not. */
  lemma SingleFieldEditChangesText(e: Event, f: Event, k: nat)
    requires e.at.Valid() && f.at.Valid() && e != f
    requires k < 9 && Fields(f) == Fields(e)[k := Fields(f)[k]]
    ensures Canonical(e) != Canonical(f)
  {
    if Canonical(e) == Canonical(f) {
      JoinSingleEdit(Fields(e), k, Fields(f)[k]);
      assert Fields(e) == Fields(f);
      FieldsInjective(e, f);
    }
  }

  /** The id alone is always recoverable from the text. */
  lemma TextDeterminesId(e: Event, f: Event)
    requires Canonical(e) == Canonical(f)
    ensures e.id == f.id
  {
    CutAtFirst(Decimal(e.id), Join(Fields(e)[1..]), Decimal(f.id), Join(Fields(f)[1..]), '|');
    DecimalInjective(e.id, f.id);
  }

  lemma {:induction false} JoinBarMove(pre: seq<string>, a: string, b: string, c: string, post: seq<string>)
    requires post != []
    ensures Join(pre + [a + "|" + b, c] + post) == Join(pre + [a, b + "|" + c] + post)
  {
    var fs, gs := pre + [a + "|" + b, c] + post, pre + [a, b + "|" + c] + post;
    if pre == [] {
      var z := Join(post);
      assert fs[1..] == [c] + post && gs[1..] == [b + "|" + c] + post;
      assert fs[1..][1..] == post && gs[1..][1..] == post;
      assert (a + "|" + b) + "|" + (c + "|" + z) == a + "|" + ((b + "|" + c) + "|" + z);
    } else {
      assert fs[1..] == pre[1..] + [a + "|" + b, c] + post && gs[1..] == pre[1..] + [a, b + "|" + c] + post;
      JoinBarMove(pre[1..], a, b, c, post);
    }
  }

  /** The bar condition is needed: a bar in the action can move into the target type unnoticed. */
  lemma BarCanMove(e: Event, a: string, b: string)
    requires e.action == a + "|" + b
    ensures Canonical(e) == Canonical(e.(action := a, targetType := b + "|" + e.targetType))
  {
    var f := e.(action := a, targetType := b + "|" + e.targetType);
    var pre, post := Fields(e)[..4], Fields(e)[6..];
    assert Fields(e) == pre + [a + "|" + b, e.targetType] + post;
    assert Fields(f) == pre + [a, b + "|" + e.targetType] + post;
    JoinBarMove(pre, a, b, e.targetType, post);
  }
}
