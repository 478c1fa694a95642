/** The rewrite rules on statements given as tokens: each rule rewrites exactly its own tokens,
    wherever they stand. */
module SqlTokens {
  import opened Text
  import opened SqlRewrite

  datatype Tok =
    | Word(w: string)                                     // a name, keyword or number
    | Param(n: nat)                                       // $n
    | CastTo(ty: string)                                  // ::ty
    | NowCall(spelling: string)                           // now(), in any case
    | ILikeOp(before: char, spelling: string, after: char) // ILIKE between white space
    | NotDistinctOp(spelling: string)                     // IS NOT DISTINCT FROM
    | DistinctOp(spelling: string)                        // IS DISTINCT FROM
    | IsNull(negated: bool)                               // IS [NOT] NULL
    | Punct(text: string)                                 // operators, parentheses, commas, spaces
    | Literal(text: string)                               // a quoted string, quotes included

  /** The text of a token once the first `stage` rules have been applied. */
  function TokText(t: Tok, stage: nat): string {
    match t
    case Word(w) => w
    case Param(n) => (if stage < 1 then "$" else "?") + Decimal(n)
    case CastTo(ty) => if stage < 2 then "::" + ty else ""
    case NowCall(spelling) => if stage < 3 then spelling + "()" else "CURRENT_TIMESTAMP"
    case ILikeOp(before, spelling, after) => if stage < 4 then [before] + spelling + [after] else " LIKE "
    case NotDistinctOp(spelling) => if stage < 5 then " " + spelling + " " else "  IS  "
    case DistinctOp(spelling) => if stage < 6 then " " + spelling + " " else "  IS NOT  "
    case IsNull(negated) => if negated then " IS NOT NULL" else " IS NULL"
    case Punct(text) => text
    case Literal(text) => text
  }

  function TextOf(toks: seq<Tok>, stage: nat): string {
    if toks == [] then "" else TokText(toks[0], stage) + TextOf(toks[1..], stage)
  }

  predicate IsAscii(c: char) {
    c as int < 128
  }

  predicate AllWord(s: string) {
    s != "" && forall i :: 0 <= i < |s| ==> IsWord(s[i])
  }

  /** A token by itself is what its name says. Words are not the keywords that the rules look for,
      and string literals do not contain the rewritten patterns. */
  ghost predicate TokOk(t: Tok) {
    match t
    case Word(w) => AllWord(w) && !FoldsTo(w, "now") && !FoldsTo(w, ILIKE) && !FoldsTo(w, "is")
    case Param(_) => true
    case CastTo(ty) => AllWord(ty) && IsNameStart(ty[0])
    case NowCall(spelling) => FoldsTo(spelling, "now")
    case ILikeOp(before, spelling, after) => IsSpace(before) && IsSpace(after) && FoldsTo(spelling, ILIKE)
    case NotDistinctOp(spelling) => FoldsTo(spelling, NOT_DISTINCT)
    case DistinctOp(spelling) => FoldsTo(spelling, DISTINCT)
    case IsNull(_) => true
    case Punct(text) => text != "" && PunctChars(text)
    case Literal(text) =>
      |text| >= 2 && text[0] == '\'' && text[|text| - 1] == '\'' && forall r :: Absent(r, text)
  }

  predicate PunctChars(s: string) {
    forall i :: 0 <= i < |s| ==> IsAscii(s[i]) && !IsWord(s[i]) && s[i] != '$' && s[i] != ':'
  }

  predicate StartsWordy(t: Tok) {
    t.Word? || t.NowCall?
  }

  predicate EndsWordy(t: Tok) {
    t.Word? || t.Param? || t.CastTo? || t.NowCall? || t.IsNull?
  }

  /** A statement: good tokens, and no two that would run together. */
  ghost predicate Statement(toks: seq<Tok>) {
    && (forall i :: 0 <= i < |toks| ==> TokOk(toks[i]))
    && (forall i :: 0 < i < |toks| && EndsWordy(toks[i - 1]) ==> !StartsWordy(toks[i]))
  }

  // ---- What stands at a position ----

  /** The text at position i is the word ILIKE followed by white space. */
  predicate ILikeAt(s: string, i: nat) {
    MatchesAt(s, i, ILIKE) && i + 5 < |s| && IsSpace(s[i + 5])
  }

  ghost predicate NoMatch(r: Rule, s: string, a: nat, b: nat)
    requires a <= b <= |s|
  {
    forall i :: a <= i < b ==> MatchLen(r, s, i) == 0
  }

  /** The surroundings a token needs: s[a..b] is its text, words end where the token does. */
  ghost predicate Placed(t: Tok, stage: nat, s: string, a: nat, b: nat) {
    && TokOk(t)
    && a <= b <= |s| && s[a..b] == TokText(t, stage)
    && (StartsWordy(t) && a > 0 ==> !IsWord(s[a - 1]))
    && (EndsWordy(t) && b < |s| ==> !IsWord(s[b]) && IsAscii(s[b]))
    && !ILikeAt(s, b)
  }

  lemma MatchedChar(s: string, i: nat, pattern: string, k: nat)
    requires k < |pattern|
    ensures MatchesAt(s, i, pattern) ==> i + k < |s| && Folds(s[i + k], pattern[k])
  {
  }

  // ---- Texts in which a rule finds nothing ----

  lemma NoDollarNoColon(r: Rule, s: string, a: nat, b: nat)
    requires a <= b <= |s|
    requires (r == Placeholder && '$' !in s[a..b]) || (r == Cast && ':' !in s[a..b])
    ensures NoMatch(r, s, a, b)
  {
    forall i | a <= i < b ensures MatchLen(r, s, i) == 0 {
      assert s[i] == s[a..b][i - a];
    }
  }

  /** A maximal word that starts like a pattern is the pattern's first word. */
  lemma WholeWord(s: string, a: nat, b: nat, pattern: string, n: nat)
    requires a < b <= |s| && AllWord(s[a..b]) && (b < |s| ==> !IsWord(s[b]) && IsAscii(s[b]))
    requires n < |pattern| && (pattern[n] == '(' || pattern[n] == ' ')
    requires forall j :: 0 <= j < n ==> 'a' <= pattern[j] <= 'z'
    ensures MatchesAt(s, a, pattern) ==> FoldsTo(s[a..b], pattern[..n])
  {
    forall j | a <= j < b ensures IsWord(s[j]) {
      assert s[j] == s[a..b][j - a];
    }
    if MatchesAt(s, a, pattern) {
      var k := if b - a < n then b - a else n;
      assert Folds(s[a + k], pattern[k]);
    }
  }

  /** A word that is not the rule's keyword. */
  lemma WordQuiet(r: Rule, s: string, a: nat, b: nat)
    requires a < b <= |s| && AllWord(s[a..b])
    requires a > 0 ==> !IsWord(s[a - 1])
    requires b < |s| ==> !IsWord(s[b]) && IsAscii(s[b])
    requires r == Now ==> !FoldsTo(s[a..b], "now")
    requires r == NotDistinct || r == Distinct ==> !FoldsTo(s[a..b], "is")
    ensures NoMatch(r, s, a, b)
  {
    assert 'a' <= NOW[0] <= 'z' && 'a' <= NOW[1] <= 'z' && 'a' <= NOW[2] <= 'z' && NOW[3] == '(';
    WholeWord(s, a, b, NOW, 3);
    assert 'a' <= NOT_DISTINCT[0] <= 'z' && 'a' <= NOT_DISTINCT[1] <= 'z' && NOT_DISTINCT[2] == ' ';
    WholeWord(s, a, b, NOT_DISTINCT, 2);
    assert 'a' <= DISTINCT[0] <= 'z' && 'a' <= DISTINCT[1] <= 'z' && DISTINCT[2] == ' ';
    WholeWord(s, a, b, DISTINCT, 2);
    assert NOW[..3] == "now" && NOT_DISTINCT[..2] == "is" && DISTINCT[..2] == "is";
    forall j | a <= j < b ensures IsWord(s[j]) {
      assert s[j] == s[a..b][j - a];
    }
    forall i | a <= i < b ensures MatchLen(r, s, i) == 0 {
      assert i > a ==> IsWord(s[i - 1]);
    }
  }

  /** Punctuation and white space, not followed by the word ILIKE. */
  lemma PunctQuiet(r: Rule, s: string, a: nat, b: nat)
    requires a <= b <= |s| && PunctChars(s[a..b]) && !ILikeAt(s, b)
    ensures NoMatch(r, s, a, b)
  {
    forall j | a <= j < b ensures IsAscii(s[j]) && !IsWord(s[j]) && s[j] != '$' && s[j] != ':' {
      assert s[j] == s[a..b][j - a];
    }
    forall i | a <= i < b ensures MatchLen(r, s, i) == 0 {
      match r {
        case Placeholder =>
        case Cast =>
        case Now =>
          assert !Folds(s[i], NOW[0]);
        case ILike =>
          if i + 1 < b {
            assert !Folds(s[i + 1], ILIKE[0]);
          }
        case NotDistinct =>
          assert !Folds(s[i], NOT_DISTINCT[0]);
        case Distinct =>
          assert !Folds(s[i], DISTINCT[0]);
      }
    }
  }

  /** Lower-case words in which no letters spell NOW, and no word starts with IL. */
  predicate Harmless(pattern: string) {
    |pattern| >= 2 && pattern[1] != 'l' && forall j :: 0 <= j < |pattern| ==> HarmlessAt(pattern, j)
  }

  predicate HarmlessAt(pattern: string, j: nat)
    requires j < |pattern|
  {
    && (pattern[j] == ' ' || 'a' <= pattern[j] <= 'z')
    && (pattern[j] == 'n' ==> j + 2 < |pattern| && (pattern[j + 1] != 'o' || pattern[j + 2] != 'w'))
    && (pattern[j] == ' ' ==> j + 1 < |pattern| && pattern[j + 1] != 'i')
  }

  lemma OperatorsAreHarmless()
    ensures Harmless(NOT_DISTINCT) && Harmless(DISTINCT)
  {
    forall j | 0 <= j < 20 ensures HarmlessAt(NOT_DISTINCT, j) { }
    forall j | 0 <= j < 16 ensures HarmlessAt(DISTINCT, j) { }
  }

  lemma FoldsOnce(c: char, p: char, q: char)
    requires Folds(c, p) && (p == ' ' || 'a' <= p <= 'z') && 'a' <= q <= 'z'
    ensures Folds(c, q) <==> p == q
  {
  }

  /** The rules before its own find nothing in a spelled-out operator. */
  lemma SpelledQuiet(r: Rule, s: string, a: nat, b: nat, pattern: string)
    requires r == Now || r == ILike
    requires Harmless(pattern)
    requires a + |pattern| + 2 == b <= |s| && s[a] == ' ' && s[b - 1] == ' ' && FoldsTo(s[a + 1..b - 1], pattern)
    requires !ILikeAt(s, b)
    ensures NoMatch(r, s, a, b)
  {
    forall j | 0 <= j < |pattern| ensures Folds(s[a + 1 + j], pattern[j]) {
      assert s[a + 1 + j] == s[a + 1..b - 1][j];
    }
    forall i | a <= i < b ensures MatchLen(r, s, i) == 0 {
      var j := i - a - 1;
      if r == Now && 0 <= j < |pattern| {
        assert Folds(s[a + 1 + j], pattern[j]) && HarmlessAt(pattern, j);
        FoldsOnce(s[i], pattern[j], 'n');
        if pattern[j] == 'n' {
          assert Folds(s[a + 1 + (j + 1)], pattern[j + 1]) && Folds(s[a + 1 + (j + 2)], pattern[j + 2]);
          assert HarmlessAt(pattern, j + 1) && HarmlessAt(pattern, j + 2);
          FoldsOnce(s[i + 1], pattern[j + 1], 'o');
          FoldsOnce(s[i + 2], pattern[j + 2], 'w');
          assert !(Folds(s[i + 1], NOW[1]) && Folds(s[i + 2], NOW[2]));
        }
        assert !MatchesAt(s, i, NOW) by {
          assert pattern[j] != 'n' ==> !Folds(s[i + 0], NOW[0]);
        }
      } else if r == Now {
        assert !Folds(s[i + 0], NOW[0]);
      } else if i < b - 1 {
        ILikeNotInside(s, a, b, pattern, i);
      }
    }
  }

  lemma ILikeNotInside(s: string, a: nat, b: nat, pattern: string, i: nat)
    requires Harmless(pattern) && a + |pattern| + 2 == b <= |s| && s[a] == ' ' && a <= i < b - 1
    requires forall j :: 0 <= j < |pattern| ==> Folds(s[a + 1 + j], pattern[j])
    ensures !(IsSpace(s[i]) && MatchesAt(s, i + 1, ILIKE))
  {
    if i == a {
      assert Folds(s[a + 1 + 1], pattern[1]) && HarmlessAt(pattern, 1);
      FoldsOnce(s[a + 2], pattern[1], 'l');
      assert !Folds(s[i + 1 + 1], ILIKE[1]);
    } else {
      var j := i - a - 1;
      assert Folds(s[a + 1 + j], pattern[j]) && HarmlessAt(pattern, j);
      if pattern[j] == ' ' {
        assert Folds(s[a + 1 + (j + 1)], pattern[j + 1]) && HarmlessAt(pattern, j + 1);
        FoldsOnce(s[i + 1], pattern[j + 1], 'i');
        assert !Folds(s[i + 1 + 0], ILIKE[0]);
      }
    }
  }

  /** What a rule would find inside a literal, it would find in the literal alone. */
  lemma LiteralQuiet(r: Rule, s: string, a: nat, b: nat)
    requires a + 2 <= b <= |s| && s[a] == '\'' && s[b - 1] == '\'' && Absent(r, s[a..b])
    ensures NoMatch(r, s, a, b)
  {
    var lit := s[a..b];
    forall j | 0 <= j < |lit| ensures lit[j] == s[a + j] { }
    forall i | a <= i < b ensures MatchLen(r, s, i) == 0 {
      assert Matcher(r, lit)(i - a) == 0;
      if MatchLen(r, s, i) > 0 {
        MatchStaysInside(r, s, a, b, i);
      }
    }
  }

  lemma MatchStaysInside(r: Rule, s: string, a: nat, b: nat, i: nat)
    requires a + 2 <= b <= |s| && s[a] == '\'' && s[b - 1] == '\'' && a <= i < b && MatchLen(r, s, i) > 0
    ensures MatchLen(r, s[a..b], i - a) > 0
  {
    var lit := s[a..b];
    forall j | 0 <= j < |lit| ensures lit[j] == s[a + j] { }
    if r == Now {
      MatchedChar(s, i, NOW, 0);
      PatternInside(s, a, b, i, NOW);
    } else if r == ILike {
      PatternInside(s, a, b, i + 1, ILIKE);
    } else if r == NotDistinct {
      MatchedChar(s, i, NOT_DISTINCT, 0);
      PatternInside(s, a, b, i, NOT_DISTINCT);
    } else if r == Distinct {
      MatchedChar(s, i, DISTINCT, 0);
      PatternInside(s, a, b, i, DISTINCT);
    }
  }

  /** A pattern without quotes that starts before the closing quote also ends before it. */
  lemma PatternInside(s: string, a: nat, b: nat, i: nat, pattern: string)
    requires a + 2 <= b <= |s| && s[b - 1] == '\'' && a <= i < b && MatchesAt(s, i, pattern)
    requires pattern == NOW || pattern == ILIKE || pattern == NOT_DISTINCT || pattern == DISTINCT
    ensures i + |pattern| < b && MatchesAt(s[a..b], i - a, pattern)
  {
    var k := if b - 1 - i < |pattern| then b - 1 - i else 0;
    assert Folds(s[i + k], pattern[k]);
    assert i + |pattern| < b;
    forall j | 0 <= j < |pattern| ensures Folds(s[a..b][i - a + j], pattern[j]) {
      assert Folds(s[i + j], pattern[j]);
    }
  }

  /** The word IS, not followed by DISTINCT or NOT DISTINCT. */
  lemma LoneIsQuiet(r: Rule, s: string, p: nat)
    requires r != Placeholder && r != Cast
    requires p + 4 < |s| && s[p] == 'I' && s[p + 1] == 'S' && s[p + 2] == ' ' && s[p + 3] == 'N'
    requires p > 0 ==> !IsWord(s[p - 1])
    requires s[p + 4] == 'U' || (p + 7 < |s| && s[p + 7] == 'N')
    ensures NoMatch(r, s, p, p + 2)
  {
    if r == NotDistinct {
      LoneNotNotDistinct(s, p);
    } else if r == Distinct {
      MatchedChar(s, p, DISTINCT, 3);
      MatchedChar(s, p + 1, DISTINCT, 0);
      assert !MatchesAt(s, p, DISTINCT) && !MatchesAt(s, p + 1, DISTINCT);
    } else {
      LoneIsOrdinary(r, s, p);
    }
  }

  lemma LoneNotNotDistinct(s: string, p: nat)
    requires p + 4 < |s| && s[p + 1] == 'S'
    requires s[p + 4] == 'U' || (p + 7 < |s| && s[p + 7] == 'N')
    ensures !MatchesAt(s, p, NOT_DISTINCT) && !MatchesAt(s, p + 1, NOT_DISTINCT)
    ensures NoMatch(NotDistinct, s, p, p + 2)
  {
    MatchedChar(s, p, NOT_DISTINCT, 4);
    MatchedChar(s, p, NOT_DISTINCT, 7);
    MatchedChar(s, p + 1, NOT_DISTINCT, 0);
  }

  lemma LoneIsOrdinary(r: Rule, s: string, p: nat)
    requires r == Now || r == ILike
    requires p + 2 < |s| && s[p] == 'I' && s[p + 1] == 'S' && s[p + 2] == ' ' && (p > 0 ==> !IsWord(s[p - 1]))
    ensures NoMatch(r, s, p, p + 2)
  {
    assert s[p..p + 2] == "IS";
    WordQuiet(r, s, p, p + 2);
  }

  lemma SpaceQuiet(r: Rule, s: string, p: nat)
    requires p + 2 < |s| && s[p] == ' ' && !(Folds(s[p + 1], 'i') && Folds(s[p + 2], 'l'))
    ensures NoMatch(r, s, p, p + 1)
  {
    MatchedChar(s, p + 1, ILIKE, 0);
    MatchedChar(s, p + 1, ILIKE, 1);
    PunctQuiet(r, s, p, p + 1);
  }

  /** The null tests look like the start of a DISTINCT test, and are not one. */
  lemma IsNullQuiet(r: Rule, s: string, a: nat, b: nat)
    requires r != Placeholder && r != Cast
    requires a <= b <= |s| && s[a..b] == " IS NULL"
    requires b < |s| ==> !IsWord(s[b]) && IsAscii(s[b])
    ensures NoMatch(r, s, a, b)
  {
    CharsOf(s, a, b);
    SpaceQuiet(r, s, a);
    LoneIsQuiet(r, s, a + 1);
    SpaceQuiet(r, s, a + 3);
    assert s[a + 4..b] == "NULL";
    WordQuiet(r, s, a + 4, b);
  }

  lemma IsNotNullQuiet(r: Rule, s: string, a: nat, b: nat)
    requires r != Placeholder && r != Cast
    requires a <= b <= |s| && s[a..b] == " IS NOT NULL"
    requires b < |s| ==> !IsWord(s[b]) && IsAscii(s[b])
    ensures NoMatch(r, s, a, b)
  {
    CharsOf(s, a, b);
    SpaceQuiet(r, s, a);
    LoneIsQuiet(r, s, a + 1);
    SpaceQuiet(r, s, a + 3);
    assert s[a + 4..a + 7] == "NOT";
    assert !Folds("NOT"[2], "now"[2]);
    WordQuiet(r, s, a + 4, a + 7);
    SpaceQuiet(r, s, a + 7);
    assert s[a + 8..b] == "NULL";
    WordQuiet(r, s, a + 8, b);
  }

  lemma CharsOf(s: string, a: nat, b: nat)
    requires a <= b <= |s|
    ensures forall j {:trigger s[j]} :: a <= j < b ==> s[j] == s[a..b][j - a]
  {
  }

  /** After the fourth rule only DISTINCT tests begin with the word IS and a space. */
  lemma LikeQuiet(r: Rule, s: string, a: nat, b: nat)
    requires r == NotDistinct || r == Distinct
    requires a <= b <= |s| && s[a..b] == " LIKE "
    ensures NoMatch(r, s, a, b)
  {
    forall j | a <= j < b ensures s[j] == s[a..b][j - a] { }
    assert s[a + 1..a + 5] == "LIKE";
    forall i | a <= i < b ensures MatchLen(r, s, i) == 0 {
      MatchedChar(s, i, NOT_DISTINCT, 0);
      MatchedChar(s, i, DISTINCT, 0);
    }
  }

  /** IS DISTINCT FROM is left to the sixth rule. */
  lemma DistinctKeptByFifth(s: string, a: nat, b: nat)
    requires a + 18 == b <= |s| && s[a] == ' ' && s[b - 1] == ' ' && FoldsTo(s[a + 1..b - 1], DISTINCT)
    ensures NoMatch(NotDistinct, s, a, b)
  {
    forall j | 0 <= j < 16 ensures Folds(s[a + 1 + j], DISTINCT[j]) {
      assert s[a + 1 + j] == s[a + 1..b - 1][j];
    }
    OperatorsAreHarmless();
    forall i | a <= i < b ensures MatchLen(NotDistinct, s, i) == 0 {
      MatchedChar(s, i, NOT_DISTINCT, 0);
      MatchedChar(s, i, NOT_DISTINCT, 3);
      var j := i - a - 1;
      if 0 <= j < 16 {
        assert Folds(s[a + 1 + j], DISTINCT[j]) && HarmlessAt(DISTINCT, j);
        FoldsOnce(s[i], DISTINCT[j], 'i');
        assert DISTINCT[j] == 'i' ==> j == 0 || j == 4 || j == 7;
        if j == 0 {
          assert Folds(s[a + 1 + 3], DISTINCT[3]);
        } else if j == 4 || j == 7 {
          assert Folds(s[a + 1 + (j - 1)], DISTINCT[j - 1]);
          assert IsWord(s[i - 1]);
        }
      }
    }
  }

  /** The IS written by the fifth rule is left alone by the sixth. */
  lemma IsKeptBySixth(s: string, a: nat, b: nat)
    requires a <= b <= |s| && s[a..b] == "  IS  "
    ensures NoMatch(Distinct, s, a, b)
  {
    forall j | a <= j < b ensures s[j] == s[a..b][j - a] { }
    forall i | a <= i < b ensures MatchLen(Distinct, s, i) == 0 {
      MatchedChar(s, i, DISTINCT, 0);
      MatchedChar(s, i, DISTINCT, 3);
    }
  }

  lemma ILikeQuietForNow(s: string, a: nat, b: nat)
    requires a + 7 == b <= |s| && IsSpace(s[a]) && IsSpace(s[b - 1]) && FoldsTo(s[a + 1..b - 1], ILIKE)
    ensures NoMatch(Now, s, a, b)
  {
    forall j | 0 <= j < 5 ensures Folds(s[a + 1 + j], ILIKE[j]) {
      assert s[a + 1 + j] == s[a + 1..b - 1][j];
    }
    forall i | a <= i < b ensures MatchLen(Now, s, i) == 0 {
      MatchedChar(s, i, NOW, 0);
      var j := i - a - 1;
      if 0 <= j < 5 {
        assert Folds(s[a + 1 + j], ILIKE[j]);
        FoldsOnce(s[i], ILIKE[j], 'n');
      }
    }
  }

  // ---- The rule's own tokens ----

  function RuleOf(k: nat): Rule
    requires 1 <= k <= 6
  {
    [Placeholder, Cast, Now, ILike, NotDistinct, Distinct][k - 1]
  }

  predicate Target(k: nat, t: Tok) {
    || (k == 1 && t.Param?)
    || (k == 2 && t.CastTo?)
    || (k == 3 && t.NowCall?)
    || (k == 4 && t.ILikeOp?)
    || (k == 5 && t.NotDistinctOp?)
    || (k == 6 && t.DistinctOp?)
  }

  lemma ParamStep(s: string, a: nat, b: nat, n: nat)
    requires Placed(Param(n), 0, s, a, b)
    ensures MatchLen(Placeholder, s, a) == b - a && Replacement(Placeholder)(s[a..b]) == TokText(Param(n), 1)
  {
    forall j | a <= j < b ensures s[j] == s[a..b][j - a] { }
    forall j | a + 1 <= j < b ensures IsDigit(s[j]) {
      assert s[j] == Decimal(n)[j - a - 1];
    }
    var e := DigitsEnd(s, a + 1);
    assert e == b;
    assert s[a..b][1..] == Decimal(n);
  }

  lemma CastStep(s: string, a: nat, b: nat, ty: string)
    requires Placed(CastTo(ty), 1, s, a, b)
    ensures MatchLen(Cast, s, a) == b - a
  {
    forall j | a <= j < b ensures s[j] == s[a..b][j - a] { }
    forall j | a + 2 <= j < b ensures IsWord(s[j]) {
      assert s[j] == ty[j - a - 2];
    }
    assert IsNameStart(s[a + 2]);
    var e := WordEnd(s, a + 3);
    assert e == b;
  }

  lemma NowStep(s: string, a: nat, b: nat, spelling: string)
    requires Placed(NowCall(spelling), 2, s, a, b)
    ensures MatchLen(Now, s, a) == b - a
  {
    forall j | 0 <= j < 5 ensures Folds(s[a + j], NOW[j]) {
      assert s[a + j] == s[a..b][j];
      if j < 3 {
        assert Folds(spelling[j], "now"[j]);
      }
    }
    assert Folds(s[a + 0], NOW[0]);
  }

  lemma ILikeStep(s: string, a: nat, b: nat, t: Tok)
    requires t.ILikeOp? && Placed(t, 3, s, a, b)
    ensures MatchLen(ILike, s, a) == b - a
  {
    forall j | 0 <= j < 5 ensures Folds(s[a + 1 + j], ILIKE[j]) {
      assert s[a + 1 + j] == s[a..b][1 + j];
      assert Folds(t.spelling[j], ILIKE[j]);
    }
    assert s[a] == s[a..b][0] && s[a + 6] == s[a..b][6];
  }

  /** The operator inside its two spaces, for the fifth and sixth rules. */
  lemma DistinctStep(r: Rule, s: string, a: nat, b: nat, pattern: string)
    requires (r == NotDistinct && pattern == NOT_DISTINCT) || (r == Distinct && pattern == DISTINCT)
    requires a + |pattern| + 2 == b <= |s| && s[a] == ' ' && s[b - 1] == ' ' && FoldsTo(s[a + 1..b - 1], pattern)
    ensures MatchLen(r, s, a) == 0 && MatchLen(r, s, a + 1) == |pattern| && MatchLen(r, s, b - 1) == 0
  {
    forall j | 0 <= j < |pattern| ensures Folds(s[a + 1 + j], pattern[j]) {
      assert s[a + 1 + j] == s[a + 1..b - 1][j];
    }
    MatchedChar(s, a, pattern, 0);
    MatchedChar(s, b - 1, pattern, 0);
    assert Folds(s[a + 1 + 0], pattern[0]) && Folds(s[a + 1 + (|pattern| - 1)], pattern[|pattern| - 1]);
    assert MatchesAt(s, a + 1, pattern);
  }
}
