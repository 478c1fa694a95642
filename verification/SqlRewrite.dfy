/** The six rewrite rules that turn a Postgres statement into SQLite's dialect, as scanners over
    characters. Each rule replaces its leftmost non-overlapping matches, as a regular-expression
    replace-all does. */
module SqlRewrite {
  import opened Text

  /** The word characters `\w`. */
  predicate IsWord(c: char) {
    'a' <= c <= 'z' || 'A' <= c <= 'Z' || c == '_' || IsDigit(c)
  }

  predicate IsNameStart(c: char) {
    'a' <= c <= 'z' || 'A' <= c <= 'Z' || c == '_'
  }

  /** The white space `\s`. */
  predicate IsSpace(c: char) {
    c == ' ' || c == '\t' || c == '\n' || c == '\r' || c == '\U{000C}'
  }

  /** Case-insensitive match of a lower-case pattern character. Unicode folding also sends the
      Kelvin sign to k and the long s to s. */
  predicate Folds(c: char, p: char) {
    || c == p
    || ('a' <= p <= 'z' && c as int == p as int - 32)
    || (p == 'k' && c == '\U{212A}')
    || (p == 's' && c == '\U{017F}')
  }

  predicate FoldsTo(s: string, pattern: string) {
    |s| == |pattern| && forall j :: 0 <= j < |s| ==> Folds(s[j], pattern[j])
  }

  predicate MatchesAt(s: string, i: nat, pattern: string) {
    i + |pattern| <= |s| && forall j :: 0 <= j < |pattern| ==> Folds(s[i + j], pattern[j])
  }

  /** A word boundary `\b` before position i. */
  predicate Boundary(s: string, i: nat)
    requires i <= |s|
  {
    (i > 0 && IsWord(s[i - 1])) != (i < |s| && IsWord(s[i]))
  }

  function DigitsEnd(s: string, i: nat): (e: nat)
    requires i <= |s|
    ensures i <= e <= |s| && (forall j :: i <= j < e ==> IsDigit(s[j])) && (e == |s| || !IsDigit(s[e]))
    decreases |s| - i
  {
    if i < |s| && IsDigit(s[i]) then DigitsEnd(s, i + 1) else i
  }

  function WordEnd(s: string, i: nat): (e: nat)
    requires i <= |s|
    ensures i <= e <= |s| && (forall j :: i <= j < e ==> IsWord(s[j])) && (e == |s| || !IsWord(s[e]))
    decreases |s| - i
  {
    if i < |s| && IsWord(s[i]) then WordEnd(s, i + 1) else i
  }

  // ---- Counting a character ----

  function Count(c: char, s: string): nat {
    if s == "" then 0 else (if s[0] == c then 1 else 0) + Count(c, s[1..])
  }

  lemma {:induction false} CountConcat(c: char, a: string, b: string)
    ensures Count(c, a + b) == Count(c, a) + Count(c, b)
  {
    if a == "" {
      assert a + b == b;
    } else {
      assert (a + b)[1..] == a[1..] + b;
      CountConcat(c, a[1..], b);
    }
  }

  lemma {:induction false} CountZero(c: char, s: string)
    ensures Count(c, s) == 0 <==> c !in s
  {
    if s != "" {
      CountZero(c, s[1..]);
      assert s == [s[0]] + s[1..];
    }
  }

  // ---- Replace-all for any matcher ----

  /** Scans s from i: `len` gives the length of the match at a position (0 for none), `rep` the
      replacement of a matched text. */
  function ReplaceBy(s: string, len: nat -> nat, rep: string -> string, i: nat): string
    requires i <= |s|
    decreases |s| - i
  {
    if i == |s| then ""
    else if len(i) == 0 || i + len(i) > |s| then [s[i]] + ReplaceBy(s, len, rep, i + 1)
    else rep(s[i..i + len(i)]) + ReplaceBy(s, len, rep, i + len(i))
  }

  /** No match starts in s[a..b]. */
  ghost predicate Quiet(len: nat -> nat, a: nat, b: nat) {
    forall i :: a <= i < b ==> len(i) == 0
  }

  lemma {:induction false} QuietIsCopied(s: string, len: nat -> nat, rep: string -> string, a: nat, b: nat)
    requires a <= b <= |s| && Quiet(len, a, b)
    ensures ReplaceBy(s, len, rep, a) == s[a..b] + ReplaceBy(s, len, rep, b)
    decreases b - a
  {
    if a < b {
      var rest := ReplaceBy(s, len, rep, b);
      QuietIsCopied(s, len, rep, a + 1, b);
      calc {
        ReplaceBy(s, len, rep, a);
        [s[a]] + ReplaceBy(s, len, rep, a + 1);
        [s[a]] + (s[a + 1..b] + rest);
        ([s[a]] + s[a + 1..b]) + rest;
        { assert s[a..b] == [s[a]] + s[a + 1..b]; }
        s[a..b] + rest;
      }
    }
  }

  lemma MatchIsReplaced(s: string, len: nat -> nat, rep: string -> string, a: nat, b: nat)
    requires a < b <= |s| && len(a) == b - a
    ensures ReplaceBy(s, len, rep, a) == rep(s[a..b]) + ReplaceBy(s, len, rep, b)
  {
  }

  /** A match standing between two characters that are copied. */
  lemma SpacedMatch(s: string, len: nat -> nat, rep: string -> string, a: nat, b: nat)
    requires a + 2 < b <= |s| && len(a) == 0 && len(a + 1) == b - a - 2 && len(b - 1) == 0
    ensures ReplaceBy(s, len, rep, a) == [s[a]] + rep(s[a + 1..b - 1]) + [s[b - 1]] + ReplaceBy(s, len, rep, b)
  {
    var rest, out := ReplaceBy(s, len, rep, b), rep(s[a + 1..b - 1]);
    MatchIsReplaced(s, len, rep, a + 1, b - 1);
    assert ReplaceBy(s, len, rep, b - 1) == [s[b - 1]] + rest;
    assert [s[a]] + (out + ([s[b - 1]] + rest)) == [s[a]] + out + [s[b - 1]] + rest;
  }

  ghost predicate Lowers(m: string, rep: string -> string, c: char, strict: bool) {
    Count(c, rep(m)) <= Count(c, m) && (strict ==> Count(c, rep(m)) < Count(c, m))
  }

  ghost predicate LowersAt(s: string, len: nat -> nat, rep: string -> string, c: char, strict: bool, j: nat) {
    j < |s| ==> j + len(j) <= |s| && (len(j) > 0 ==> Lowers(s[j..j + len(j)], rep, c, strict))
  }

  lemma CountSplit(c: char, s: string, i: nat, j: nat)
    requires i <= j <= |s|
    ensures Count(c, s[i..]) == Count(c, s[i..j]) + Count(c, s[j..])
  {
    assert s[i..] == s[i..j] + s[j..];
    CountConcat(c, s[i..j], s[j..]);
  }

  /** What one match, or one copied character, adds to both sides. */
  lemma CountAtMatch(s: string, len: nat -> nat, rep: string -> string, i: nat, c: char)
    requires i < |s| && len(i) > 0 && i + len(i) <= |s|
    ensures Count(c, ReplaceBy(s, len, rep, i)) == Count(c, rep(s[i..i + len(i)])) + Count(c, ReplaceBy(s, len, rep, i + len(i)))
  {
    CountConcat(c, rep(s[i..i + len(i)]), ReplaceBy(s, len, rep, i + len(i)));
  }

  lemma CountAtCopy(s: string, len: nat -> nat, rep: string -> string, i: nat, c: char)
    requires i < |s| && len(i) == 0
    ensures Count(c, ReplaceBy(s, len, rep, i)) == Count(c, s[i..i + 1]) + Count(c, ReplaceBy(s, len, rep, i + 1))
  {
    assert s[i..i + 1] == [s[i]];
    CountConcat(c, [s[i]], ReplaceBy(s, len, rep, i + 1));
  }

  lemma QuietFromNext(len: nat -> nat, i: nat, n: nat)
    requires i < n && len(i) == 0
    ensures Quiet(len, i + 1, n) <==> Quiet(len, i, n)
  {
  }

  /** Scanning from i leaves no more of c than there was, and if `strict` fewer unless nothing matched. */
  ghost predicate Lowered(s: string, len: nat -> nat, rep: string -> string, i: nat, c: char, strict: bool)
    requires i <= |s|
  {
    && Count(c, ReplaceBy(s, len, rep, i)) <= Count(c, s[i..])
    && (strict && !Quiet(len, i, |s|) ==> Count(c, ReplaceBy(s, len, rep, i)) < Count(c, s[i..]))
  }

  lemma LoweredAtMatch(s: string, len: nat -> nat, rep: string -> string, i: nat, c: char, strict: bool)
    requires i < |s| && len(i) > 0 && LowersAt(s, len, rep, c, strict, i) && Lowered(s, len, rep, i + len(i), c, strict)
    ensures Lowered(s, len, rep, i, c, strict)
  {
    CountSplit(c, s, i, i + len(i));
    CountAtMatch(s, len, rep, i, c);
  }

  lemma LoweredAtCopy(s: string, len: nat -> nat, rep: string -> string, i: nat, c: char, strict: bool)
    requires i < |s| && len(i) == 0 && Lowered(s, len, rep, i + 1, c, strict)
    ensures Lowered(s, len, rep, i, c, strict)
  {
    CountSplit(c, s, i, i + 1);
    CountAtCopy(s, len, rep, i, c);
    QuietFromNext(len, i, |s|);
  }

  /** A quantity that every replacement lowers is lowered by replace-all, unless nothing matched. */
  lemma {:induction false} ReplaceLowers(s: string, len: nat -> nat, rep: string -> string, i: nat, c: char, strict: bool)
    requires i <= |s| && forall j :: LowersAt(s, len, rep, c, strict, j)
    ensures Lowered(s, len, rep, i, c, strict)
    decreases |s| - i
  {
    if i < |s| {
      assert LowersAt(s, len, rep, c, strict, i);
      if len(i) > 0 {
        ReplaceLowers(s, len, rep, i + len(i), c, strict);
        LoweredAtMatch(s, len, rep, i, c, strict);
      } else {
        ReplaceLowers(s, len, rep, i + 1, c, strict);
        LoweredAtCopy(s, len, rep, i, c, strict);
      }
    }
  }

  lemma {:induction false} ReplaceShortens(s: string, len: nat -> nat, rep: string -> string, i: nat)
    requires i <= |s| && forall j :: 0 <= j < |s| ==> j + len(j) <= |s|
    requires forall j :: 0 <= j < |s| && len(j) > 0 ==> |rep(s[j..j + len(j)])| < len(j)
    ensures |ReplaceBy(s, len, rep, i)| <= |s| - i
    ensures !Quiet(len, i, |s|) ==> |ReplaceBy(s, len, rep, i)| < |s| - i
    decreases |s| - i
  {
    if i < |s| {
      ReplaceShortens(s, len, rep, if len(i) == 0 then i + 1 else i + len(i));
      assert len(i) == 0 && Quiet(len, i + 1, |s|) ==> Quiet(len, i, |s|);
    }
  }

  // ---- The six rules ----

  datatype Rule = Placeholder | Cast | Now | ILike | NotDistinct | Distinct

  const NOW := "now()"
  const ILIKE := "ilike"
  const NOT_DISTINCT := "is not distinct from"
  const DISTINCT := "is distinct from"

  /** The length of the rule's match at position i, 0 when it does not match there. */
  function MatchLen(r: Rule, s: string, i: nat): (n: nat)
    requires i < |s|
    ensures i + n <= |s|
  {
    match r
    case Placeholder =>
      if s[i] == '$' && i + 1 < |s| && IsDigit(s[i + 1]) then DigitsEnd(s, i + 1) - i else 0
    case Cast =>
      if s[i] == ':' && i + 2 < |s| && s[i + 1] == ':' && IsNameStart(s[i + 2]) then WordEnd(s, i + 3) - i else 0
    case Now =>
      if Boundary(s, i) && MatchesAt(s, i, NOW) then 5 else 0
    case ILike =>
      if IsSpace(s[i]) && MatchesAt(s, i + 1, ILIKE) && i + 6 < |s| && IsSpace(s[i + 6]) then 7 else 0
    case NotDistinct =>
      if Boundary(s, i) && MatchesAt(s, i, NOT_DISTINCT) && Boundary(s, i + 20) then 20 else 0
    case Distinct =>
      if Boundary(s, i) && MatchesAt(s, i, DISTINCT) && Boundary(s, i + 16) then 16 else 0
  }

  /** The rule's matcher on a statement. */
  function Matcher(r: Rule, s: string): nat -> nat {
    (i: nat) => if i < |s| then MatchLen(r, s, i) else 0
  }

  /** What replaces a matched text. */
  function Replacement(r: Rule): string -> string {
    matched =>
      match r
      case Placeholder => if matched == "" then "" else "?" + matched[1..]
      case Cast => ""
      case Now => "CURRENT_TIMESTAMP"
      case ILike => " LIKE "
      case NotDistinct => " IS "
      case Distinct => " IS NOT "
  }

  function ReplaceAll(r: Rule, s: string): string {
    ReplaceBy(s, Matcher(r, s), Replacement(r), 0)
  }

  function TranslateToSQLite(q: string): string {
    var q1 := ReplaceAll(Placeholder, q);
    var q2 := ReplaceAll(Cast, q1);
    var q3 := ReplaceAll(Now, q2);
    var q4 := ReplaceAll(ILike, q3);
    var q5 := ReplaceAll(NotDistinct, q4);
    ReplaceAll(Distinct, q5)
  }

  // ---- The statements the translation leaves alone ----

  /** The pattern of the rule occurs nowhere in the statement. */
  ghost predicate Absent(r: Rule, s: string) {
    Quiet(Matcher(r, s), 0, |s|)
  }

  lemma AbsentMeansUnchanged(r: Rule, s: string)
    requires Absent(r, s)
    ensures ReplaceAll(r, s) == s
  {
    QuietIsCopied(s, Matcher(r, s), Replacement(r), 0, |s|);
    assert s[0..|s|] == s;
  }

  /** The character whose number a match of the rule reduces, for the first three rules. */
  function Consumed(r: Rule): Option<char> {
    match r
    case Placeholder => Some('$')
    case Cast => Some(':')
    case Now => Some('(')
    case _ => None
  }

  /** What the first three rules' matches look like. */
  predicate Shape(r: Rule, m: string) {
    match r
    case Placeholder => m != "" && m[0] == '$'
    case Cast => m != "" && m[0] == ':'
    case Now => |m| == 5 && m[3] == '('
    case _ => true
  }

  lemma MatchShape(r: Rule, s: string, i: nat)
    requires i < |s| && MatchLen(r, s, i) > 0
    ensures Shape(r, s[i..i + MatchLen(r, s, i)])
  {
    if r == Now {
      assert Folds(s[i + 3], NOW[3]);
    }
  }

  lemma ReplacementLowers(r: Rule, m: string, c: char)
    requires Shape(r, m) && (c == '$' || c == ':' || c == '(')
    ensures Lowers(m, Replacement(r), c, Consumed(r) == Some(c))
  {
    var out := Replacement(r)(m);
    if r == Placeholder {
      assert out[1..] == m[1..];
    } else {
      CountZero(c, out);
      CountZero(c, m);
    }
  }

  lemma RuleLowersAt(r: Rule, s: string, c: char, j: nat)
    requires c == '$' || c == ':' || c == '('
    ensures LowersAt(s, Matcher(r, s), Replacement(r), c, Consumed(r) == Some(c), j)
  {
    if j < |s| && MatchLen(r, s, j) > 0 {
      MatchShape(r, s, j);
      ReplacementLowers(r, s[j..j + MatchLen(r, s, j)], c);
    }
  }

  /** No rule adds a dollar, colon or parenthesis, and each of the first three leaves fewer of its own when
      it matches anywhere. */
  lemma CountsNeverGrow(r: Rule, s: string, c: char)
    requires c == '$' || c == ':' || c == '('
    ensures Count(c, ReplaceAll(r, s)) <= Count(c, s)
    ensures Consumed(r) == Some(c) && !Absent(r, s) ==> Count(c, ReplaceAll(r, s)) < Count(c, s)
  {
    var strict := Consumed(r) == Some(c);
    forall j ensures LowersAt(s, Matcher(r, s), Replacement(r), c, strict, j) {
      RuleLowersAt(r, s, c, j);
    }
    ReplaceLowers(s, Matcher(r, s), Replacement(r), 0, c, strict);
    assert s[0..] == s;
  }

  /** The last three rules only shorten. */
  lemma LengthNeverGrows(r: Rule, s: string)
    requires Consumed(r) == None
    ensures |ReplaceAll(r, s)| <= |s| && (!Absent(r, s) ==> |ReplaceAll(r, s)| < |s|)
  {
    ReplaceShortens(s, Matcher(r, s), Replacement(r), 0);
  }

  lemma LastThreeNeverGrow(q: string, c: char)
    requires c == '$' || c == ':' || c == '('
    ensures Count(c, ReplaceAll(Distinct, ReplaceAll(NotDistinct, ReplaceAll(ILike, q)))) <= Count(c, q)
  {
    CountsNeverGrow(ILike, q, c);
    CountsNeverGrow(NotDistinct, ReplaceAll(ILike, q), c);
    CountsNeverGrow(Distinct, ReplaceAll(NotDistinct, ReplaceAll(ILike, q)), c);
  }

  /** If the whole translation changes nothing, its first three rules found nothing. */
  lemma FirstThreeFoundNothing(q: string)
    requires TranslateToSQLite(q) == q
    ensures Absent(Placeholder, q) && Absent(Cast, q) && Absent(Now, q)
    ensures ReplaceAll(Now, ReplaceAll(Cast, ReplaceAll(Placeholder, q))) == q
  {
    var q1 := ReplaceAll(Placeholder, q);
    var q2 := ReplaceAll(Cast, q1);
    var q3 := ReplaceAll(Now, q2);
    CountsNeverGrow(Placeholder, q, '$');
    CountsNeverGrow(Cast, q1, '$');
    CountsNeverGrow(Now, q2, '$');
    LastThreeNeverGrow(q3, '$');
    AbsentMeansUnchanged(Placeholder, q);
    CountsNeverGrow(Cast, q1, ':');
    CountsNeverGrow(Now, q2, ':');
    LastThreeNeverGrow(q3, ':');
    AbsentMeansUnchanged(Cast, q);
    CountsNeverGrow(Now, q2, '(');
    LastThreeNeverGrow(q3, '(');
    AbsentMeansUnchanged(Now, q);
  }

  lemma LastThreeFoundNothing(q: string)
    requires ReplaceAll(Distinct, ReplaceAll(NotDistinct, ReplaceAll(ILike, q))) == q
    ensures Absent(ILike, q) && Absent(NotDistinct, q) && Absent(Distinct, q)
  {
    var q4 := ReplaceAll(ILike, q);
    LengthNeverGrows(ILike, q);
    LengthNeverGrows(NotDistinct, q4);
    LengthNeverGrows(Distinct, ReplaceAll(NotDistinct, q4));
    AbsentMeansUnchanged(ILike, q);
    AbsentMeansUnchanged(NotDistinct, q);
  }

  /** For every statement: translation changes nothing if and only if none of the six patterns
      occurs in it. */
  lemma UnchangedExactlyWithoutPatterns(q: string)
    ensures TranslateToSQLite(q) == q <==> forall r :: Absent(r, q)
  {
    if forall r :: Absent(r, q) {
      forall r ensures ReplaceAll(r, q) == q {
        AbsentMeansUnchanged(r, q);
      }
    }
    if TranslateToSQLite(q) == q {
      FirstThreeFoundNothing(q);
      LastThreeFoundNothing(q);
      forall r ensures Absent(r, q) {
        assert r == Placeholder || r == Cast || r == Now || r == ILike || r == NotDistinct || r == Distinct;
      }
    }
  }
}
