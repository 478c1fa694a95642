/** Text helpers shared by the components that build keys and hashed strings:
    decimal numerals, fixed-width numerals, and cutting a string at a separator. */
module Text {

  datatype Option<+T> = None | Some(value: T)

  predicate IsDigit(c: char) {
    '0' <= c <= '9'
  }

  predicate AllDigits(s: string) {
    forall i :: 0 <= i < |s| ==> IsDigit(s[i])
  }

  function DigitChar(d: nat): (c: char)
    requires d < 10
    ensures IsDigit(c) && c as int - '0' as int == d
  {
    ('0' as int + d) as char
  }

  /** The decimal numeral of a natural number, as `%d` prints it. */
  function Decimal(n: nat): (s: string)
    ensures s != "" && AllDigits(s)
  {
    if n < 10 then [DigitChar(n)] else Decimal(n / 10) + [DigitChar(n % 10)]
  }

  /** The number a digit string denotes. */
  function Value(s: string): nat
    requires AllDigits(s)
  {
    if s == "" then 0 else Value(s[..|s| - 1]) * 10 + (s[|s| - 1] as int - '0' as int)
  }

  lemma {:induction false} DecimalRoundTrip(n: nat)
    ensures Value(Decimal(n)) == n
  {
    var s := Decimal(n);
    if n >= 10 {
      DecimalRoundTrip(n / 10);
      assert s[..|s| - 1] == Decimal(n / 10);
    } else {
      assert s[..0] == "";
    }
  }

  /** No leading zeros. */
  lemma {:induction false} DecimalIsShortest(n: nat)
    ensures Decimal(n)[0] == '0' <==> n == 0
    ensures n == 0 ==> Decimal(n) == "0"
  {
    if n >= 10 {
      DecimalIsShortest(n / 10);
    }
  }

  lemma DecimalInjective(n: nat, m: nat)
    requires Decimal(n) == Decimal(m)
    ensures n == m
  {
    DecimalRoundTrip(n);
    DecimalRoundTrip(m);
  }

  /** The last `w` decimal digits of `n`, zero-padded, as `%0wd` prints a number that fits. */
  function Padded(n: nat, w: nat): (s: string)
    ensures |s| == w && AllDigits(s)
  {
    if w == 0 then "" else Padded(n / 10, w - 1) + [DigitChar(n % 10)]
  }

  function Pow10(w: nat): nat {
    if w == 0 then 1 else 10 * Pow10(w - 1)
  }

  lemma {:induction false} PaddedRoundTrip(n: nat, w: nat)
    requires n < Pow10(w)
    ensures Value(Padded(n, w)) == n
  {
    if w > 0 {
      PaddedRoundTrip(n / 10, w - 1);
      assert Padded(n, w)[..w - 1] == Padded(n / 10, w - 1);
    }
  }

  lemma {:induction false} PaddedInjective(n: nat, m: nat, w: nat)
    requires n < Pow10(w) && m < Pow10(w) && Padded(n, w) == Padded(m, w)
    ensures n == m
  {
    if w > 0 {
      var a, b := Padded(n, w), Padded(m, w);
      assert a[..w - 1] == Padded(n / 10, w - 1) && b[..w - 1] == Padded(m / 10, w - 1);
      assert a[w - 1] == b[w - 1];
      PaddedInjective(n / 10, m / 10, w - 1);
    }
  }

  /** Cutting at the first separator: the heads are equal and so are the tails. */
  lemma {:induction false} CutAtFirst(a: string, x: string, b: string, y: string, c: char)
    requires c !in a && c !in b && a + [c] + x == b + [c] + y
    ensures a == b && x == y
  {
    var s, t := a + [c] + x, b + [c] + y;
    assert s[|a|] == c && t[|b|] == c;
    assert |a| == |b|;
    assert a == s[..|a|] && b == t[..|b|];
    assert x == s[|a| + 1..] && y == t[|b| + 1..];
  }

  /** Cutting at the last separator. */
  lemma {:induction false} CutAtLast(x: string, a: string, y: string, b: string, c: char)
    requires c !in a && c !in b && x + [c] + a == y + [c] + b
    ensures a == b && x == y
  {
    var s, t := x + [c] + a, y + [c] + b;
    assert s[|x|] == c && t[|y|] == c;
    assert |x| == |y|;
    assert x == s[..|x|] && y == t[..|y|];
    assert a == s[|x| + 1..] && b == t[|y| + 1..];
  }
}
