/** The six passes over a whole statement: on every list of tokens that can stand side by side, the
    translation of the Postgres text is the concatenation of the translated tokens. */
module SqlPasses {
  import opened Text
  import opened SqlRewrite
  import opened SqlTokens

  /** A rule finds nothing in a token that is not its own. */
  lemma TokenQuiet(k: nat, t: Tok, s: string, a: nat, b: nat)
    requires 1 <= k <= 6 && Placed(t, k - 1, s, a, b) && !Target(k, t)
    ensures NoMatch(RuleOf(k), s, a, b)
  {
    if t.Literal? {
      assert Absent(RuleOf(k), t.text);
      CharsOf(s, a, b);
      LiteralQuiet(RuleOf(k), s, a, b);
    } else if k <= 2 {
      NoMarks(t, k - 1);
      NoDollarNoColon(RuleOf(k), s, a, b);
    } else if t.Word? || t.Punct? || t.Param? || t.NowCall? || t.IsNull? {
      PlainQuiet(k, t, s, a, b);
    } else if t.ILikeOp? {
      ILikeQuiet(k, t, s, a, b);
    } else if t.NotDistinctOp? {
      OperatorQuiet(k, s, a, b, t.spelling, NOT_DISTINCT);
    } else if t.DistinctOp? {
      OperatorQuiet(k, s, a, b, t.spelling, DISTINCT);
    }
  }

  lemma PlainQuiet(k: nat, t: Tok, s: string, a: nat, b: nat)
    requires 3 <= k <= 6 && Placed(t, k - 1, s, a, b) && !Target(k, t)
    requires t.Word? || t.Punct? || t.Param? || t.NowCall? || t.IsNull?
    ensures NoMatch(RuleOf(k), s, a, b)
  {
    var r := RuleOf(k);
    match t {
      case Word(w) => WordQuiet(r, s, a, b);
      case Punct(text) => PunctQuiet(r, s, a, b);
      case Param(n) => ParamQuiet(r, s, a, b, n);
      case NowCall(_) =>
        assert |s[a..b]| == 17;
        WordQuiet(r, s, a, b);
      case IsNull(negated) =>
        if negated {
          IsNotNullQuiet(r, s, a, b);
        } else {
          IsNullQuiet(r, s, a, b);
        }
    }
  }

  lemma Inner(s: string, a: nat, b: nat, before: char, middle: string, after: char)
    requires a <= b <= |s| && s[a..b] == [before] + middle + [after]
    ensures b == a + |middle| + 2 && s[a] == before && s[b - 1] == after && s[a + 1..b - 1] == middle
  {
    var own := s[a..b];
    assert own[0] == before && own[|own| - 1] == after && own[1..|own| - 1] == middle;
    assert |own| == b - a == |middle| + 2;
    forall j | 0 <= j < |middle| ensures s[a + 1..b - 1][j] == middle[j] {
      assert s[a + 1 + j] == own[1 + j];
    }
  }

  lemma ILikeQuiet(k: nat, t: Tok, s: string, a: nat, b: nat)
    requires 3 <= k <= 6 && k != 4 && t.ILikeOp? && Placed(t, k - 1, s, a, b)
    ensures NoMatch(RuleOf(k), s, a, b)
  {
    if k == 3 {
      Inner(s, a, b, t.before, t.spelling, t.after);
      ILikeQuietForNow(s, a, b);
    } else {
      LikeQuiet(RuleOf(k), s, a, b);
    }
  }

  /** Only parameters carry a dollar and only casts a colon. */
  lemma NoMarks(t: Tok, stage: nat)
    requires TokOk(t) && !t.Literal? && stage <= 1
    ensures !t.Param? ==> '$' !in TokText(t, stage)
    ensures !t.CastTo? ==> ':' !in TokText(t, stage)
  {
    match t {
      case NowCall(spelling) => NoMarksFolded(spelling, "now");
      case ILikeOp(_, spelling, _) => NoMarksFolded(spelling, ILIKE);
      case NotDistinctOp(spelling) => NoMarksFolded(spelling, NOT_DISTINCT);
      case DistinctOp(spelling) => NoMarksFolded(spelling, DISTINCT);
      case _ =>
    }
  }

  lemma NoMarksFolded(s: string, pattern: string)
    requires FoldsTo(s, pattern)
    requires pattern == "now" || pattern == ILIKE || pattern == NOT_DISTINCT || pattern == DISTINCT
    ensures '$' !in s && ':' !in s
  {
    forall j | 0 <= j < |s| ensures s[j] != '$' && s[j] != ':' {
      assert Folds(s[j], pattern[j]);
      assert pattern[j] == ' ' || 'a' <= pattern[j] <= 'z';
    }
  }

  lemma ParamQuiet(r: Rule, s: string, a: nat, b: nat, n: nat)
    requires a <= b <= |s| && s[a..b] == "?" + Decimal(n)
    requires b < |s| ==> !IsWord(s[b]) && IsAscii(s[b])
    ensures NoMatch(r, s, a, b)
  {
    CharsOf(s, a, b);
    assert s[a + 1..b] == s[a..b][1..] == Decimal(n);
    assert s[a..a + 1] == "?";
    MatchedChar(s, a + 1, ILIKE, 0);
    assert IsDigit(s[a + 1]) by {
      assert s[a + 1] == Decimal(n)[0];
    }
    PunctQuiet(r, s, a, a + 1);
    assert !Folds(s[a + 1..b][0], 'n') && !Folds(s[a + 1..b][0], 'i');
    WordQuiet(r, s, a + 1, b);
  }

  lemma OperatorQuiet(k: nat, s: string, a: nat, b: nat, spelling: string, pattern: string)
    requires 3 <= k <= 6 && a <= b <= |s| && FoldsTo(spelling, pattern) && !ILikeAt(s, b)
    requires (pattern == NOT_DISTINCT && k != 5) || (pattern == DISTINCT && k != 6)
    requires s[a..b] == if pattern == NOT_DISTINCT && k == 6 then "  IS  " else " " + spelling + " "
    ensures NoMatch(RuleOf(k), s, a, b)
  {
    if pattern == NOT_DISTINCT && k == 6 {
      IsKeptBySixth(s, a, b);
    } else {
      Inner(s, a, b, ' ', spelling, ' ');
      if k == 5 {
        DistinctKeptByFifth(s, a, b);
      } else {
        OtherRulesQuiet(k, s, a, b, pattern);
      }
    }
  }

  lemma OtherRulesQuiet(k: nat, s: string, a: nat, b: nat, pattern: string)
    requires (k == 3 || k == 4) && (pattern == NOT_DISTINCT || pattern == DISTINCT)
    requires a + |pattern| + 2 == b <= |s| && !ILikeAt(s, b)
    requires s[a] == ' ' && s[b - 1] == ' ' && FoldsTo(s[a + 1..b - 1], pattern)
    ensures NoMatch(RuleOf(k), s, a, b)
  {
    OperatorsAreHarmless();
    SpelledQuiet(RuleOf(k), s, a, b, pattern);
  }

  /** One token of a pass: its text is replaced by its text at the next stage. */
  lemma TokenStep(k: nat, t: Tok, s: string, a: nat, b: nat)
    requires 1 <= k <= 6 && Placed(t, k - 1, s, a, b)
    ensures var r := RuleOf(k);
      ReplaceBy(s, Matcher(r, s), Replacement(r), a) == TokText(t, k) + ReplaceBy(s, Matcher(r, s), Replacement(r), b)
  {
    var r := RuleOf(k);
    if Target(k, t) {
      TargetStep(k, t, s, a, b);
    } else {
      TokenQuiet(k, t, s, a, b);
      assert TokText(t, k) == TokText(t, k - 1);
      QuietCopied(r, s, a, b);
    }
  }

  lemma QuietCopied(r: Rule, s: string, a: nat, b: nat)
    requires a <= b <= |s| && NoMatch(r, s, a, b)
    ensures ReplaceBy(s, Matcher(r, s), Replacement(r), a) == s[a..b] + ReplaceBy(s, Matcher(r, s), Replacement(r), b)
  {
    forall i | a <= i < b ensures Matcher(r, s)(i) == 0 {
      assert MatchLen(r, s, i) == 0;
    }
    QuietIsCopied(s, Matcher(r, s), Replacement(r), a, b);
  }

  lemma TargetStep(k: nat, t: Tok, s: string, a: nat, b: nat)
    requires 1 <= k <= 6 && Placed(t, k - 1, s, a, b) && Target(k, t)
    ensures var r := RuleOf(k);
      ReplaceBy(s, Matcher(r, s), Replacement(r), a) == TokText(t, k) + ReplaceBy(s, Matcher(r, s), Replacement(r), b)
  {
    if k <= 4 {
      WholeTokenMatch(k, t, s, a, b);
      MatchIsReplaced(s, Matcher(RuleOf(k), s), Replacement(RuleOf(k)), a, b);
    } else {
      InnerMatch(k, t, s, a, b);
      SpacedMatch(s, Matcher(RuleOf(k), s), Replacement(RuleOf(k)), a, b);
    }
  }

  lemma WholeTokenMatch(k: nat, t: Tok, s: string, a: nat, b: nat)
    requires 1 <= k <= 4 && Placed(t, k - 1, s, a, b) && Target(k, t)
    ensures a < b && Matcher(RuleOf(k), s)(a) == b - a && Replacement(RuleOf(k))(s[a..b]) == TokText(t, k)
  {
    match t {
      case Param(n) => ParamStep(s, a, b, n);
      case CastTo(ty) => CastStep(s, a, b, ty);
      case NowCall(spelling) => NowStep(s, a, b, spelling);
      case ILikeOp(_, _, _) => ILikeStep(s, a, b, t);
    }
  }

  lemma InnerMatch(k: nat, t: Tok, s: string, a: nat, b: nat)
    requires 5 <= k <= 6 && Placed(t, k - 1, s, a, b) && Target(k, t)
    ensures var r := RuleOf(k); var len := Matcher(r, s);
      && a + 2 < b && s[a] == ' ' && s[b - 1] == ' '
      && len(a) == 0 && len(a + 1) == b - a - 2 && len(b - 1) == 0
      && [s[a]] + Replacement(r)(s[a + 1..b - 1]) + [s[b - 1]] == TokText(t, k)
  {
    var pattern := if k == 5 then NOT_DISTINCT else DISTINCT;
    Inner(s, a, b, ' ', t.spelling, ' ');
    DistinctStep(RuleOf(k), s, a, b, pattern);
  }

  // ---- What follows a token ----

  /** A token that does not end in a word ends in a character that is not part of one. */
  lemma LastChar(t: Tok, stage: nat)
    requires TokOk(t) && !EndsWordy(t)
    ensures var text := TokText(t, stage); text != "" && !IsWord(text[|text| - 1])
  {
  }

  /** A token that does not start with a word starts with an ASCII character that is not part of one. */
  lemma FirstChar(t: Tok, stage: nat)
    requires TokOk(t) && !StartsWordy(t)
    ensures var text := TokText(t, stage); text == "" ==> t.CastTo?
    ensures var text := TokText(t, stage); text != "" ==> !IsWord(text[0]) && IsAscii(text[0])
  {
  }

  /** Whatever follows a word-like token, the word ends there. */
  lemma {:induction false} AfterWord(toks: seq<Tok>, stage: nat)
    requires Statement(toks) && (toks != [] ==> !StartsWordy(toks[0]))
    ensures var text := TextOf(toks, stage); text != "" ==> !IsWord(text[0]) && IsAscii(text[0])
  {
    if toks != [] {
      FirstChar(toks[0], stage);
      if TokText(toks[0], stage) == "" {
        TailOk(toks);
        AfterWord(toks[1..], stage);
      }
    }
  }

  lemma TailOk(toks: seq<Tok>)
    requires Statement(toks) && toks != []
    ensures Statement(toks[1..]) && (|toks| > 1 && EndsWordy(toks[0]) ==> !StartsWordy(toks[1]))
  {
    var rest := toks[1..];
    forall i | 0 < i < |rest| && EndsWordy(rest[i - 1]) ensures !StartsWordy(rest[i]) {
      assert EndsWordy(toks[i + 1 - 1]);
    }
  }

  /** No statement starts with a bare ILIKE. */
  lemma {:induction false} NoILikeAhead(toks: seq<Tok>, stage: nat)
    requires Statement(toks)
    ensures !ILikeAt(TextOf(toks, stage), 0)
  {
    if toks != [] {
      var t, rest := toks[0], TextOf(toks[1..], stage);
      var own, text := TokText(t, stage), TextOf(toks, stage);
      assert TokOk(t);
      TailOk(toks);
      MatchedChar(text, 0, ILIKE, 0);
      if own == "" {
        NoILikeAhead(toks[1..], stage);
        assert text == rest;
      } else if t.Word? {
        AfterWord(toks[1..], stage);
        WordIsNotILike(own, rest);
      } else if t.NowCall? {
        assert Folds(own[0], 'n') || own[0] == 'C' by {
          if stage < 3 {
            assert Folds(t.spelling[0], "now"[0]);
          }
        }
        assert text[0] == own[0];
      } else {
        FirstChar(t, stage);
        assert text[0] == own[0];
      }
    }
  }

  lemma WordIsNotILike(w: string, rest: string)
    requires AllWord(w) && !FoldsTo(w, ILIKE) && (rest != "" ==> !IsWord(rest[0]) && IsAscii(rest[0]))
    ensures !ILikeAt(w + rest, 0)
  {
    var text := w + rest;
    var k := if |w| < 5 then |w| else 4;
    MatchedChar(text, 0, ILIKE, k);
    assert |w| < |text| ==> text[|w|] == rest[0];
    forall j | 0 <= j < 5 ensures MatchesAt(text, 0, ILIKE) ==> j < |text| && Folds(text[j], ILIKE[j]) {
      MatchedChar(text, 0, ILIKE, j);
    }
    assert |w| == 5 ==> forall j :: 0 <= j < 5 ==> text[j] == w[j];
  }

  lemma ILikeAtShifted(pre: string, text: string)
    ensures ILikeAt(pre + text, |pre|) <==> ILikeAt(text, 0)
  {
    var s := pre + text;
    forall j | 0 <= j < |text| ensures s[|pre| + j] == text[j] { }
    assert MatchesAt(s, |pre|, ILIKE) <==> MatchesAt(text, 0, ILIKE) by {
      if MatchesAt(s, |pre|, ILIKE) {
        forall j | 0 <= j < 5 ensures Folds(text[0 + j], ILIKE[j]) {
          assert Folds(s[|pre| + j], ILIKE[j]);
        }
      }
      if MatchesAt(text, 0, ILIKE) {
        forall j | 0 <= j < 5 ensures Folds(s[|pre| + j], ILIKE[j]) {
          assert Folds(text[0 + j], ILIKE[j]);
        }
      }
    }
  }

  // ---- The passes ----

  /** Replace-all works token by token wherever a token is placed in s. */
  ghost predicate Tokenwise(stage: nat, s: string, len: nat -> nat, rep: string -> string) {
    forall t, a, b {:trigger Placed(t, stage, s, a, b)} :: Placed(t, stage, s, a, b) ==>
      ReplaceBy(s, len, rep, a) == TokText(t, stage + 1) + ReplaceBy(s, len, rep, b)
  }

  lemma SplitFirst(pre: string, toks: seq<Tok>, stage: nat)
    requires toks != []
    ensures pre + TextOf(toks, stage) == (pre + TokText(toks[0], stage)) + TextOf(toks[1..], stage)
  {
  }

  lemma PassStep(stage: nat, s: string, len: nat -> nat, rep: string -> string, t: Tok, a: nat, b: nat)
    requires Tokenwise(stage, s, len, rep) && Placed(t, stage, s, a, b)
    ensures ReplaceBy(s, len, rep, a) == TokText(t, stage + 1) + ReplaceBy(s, len, rep, b)
  {
  }

  /** The tokens are what remains of the text s, after `pre`. */
  ghost predicate Remains(stage: nat, s: string, pre: string, toks: seq<Tok>) {
    Statement(toks) && s == pre + TextOf(toks, stage) && (toks != [] && StartsWordy(toks[0]) && pre != "" ==> !IsWord(pre[|pre| - 1]))
  }

  /** One pass over what remains of a statement, after `pre`. */
  lemma {:induction false} PassFrom(stage: nat, s: string, len: nat -> nat, rep: string -> string, pre: string, toks: seq<Tok>)
    requires Remains(stage, s, pre, toks) && Tokenwise(stage, s, len, rep)
    ensures ReplaceBy(s, len, rep, |pre|) == TextOf(toks, stage + 1)
    decreases |toks|
  {
    if toks == [] {
      assert |pre| == |s|;
    } else {
      var pre' := PassToken(stage, s, len, rep, pre, toks);
      PassFrom(stage, s, len, rep, pre', toks[1..]);
    }
  }

  /** The pass over the next token. */
  lemma PassToken(stage: nat, s: string, len: nat -> nat, rep: string -> string, pre: string, toks: seq<Tok>) returns (pre': string)
    requires Remains(stage, s, pre, toks) && Tokenwise(stage, s, len, rep) && toks != []
    ensures Remains(stage, s, pre', toks[1..])
    ensures ReplaceBy(s, len, rep, |pre|) == TokText(toks[0], stage + 1) + ReplaceBy(s, len, rep, |pre'|)
  {
    pre' := pre + TokText(toks[0], stage);
    Advance(stage, pre, toks);
    PassStep(stage, s, len, rep, toks[0], |pre|, |pre'|);
  }

  /** Everything the next token needs, and that the rest is again such a text. */
  lemma Advance(stage: nat, pre: string, toks: seq<Tok>)
    requires Statement(toks) && toks != [] && (StartsWordy(toks[0]) && pre != "" ==> !IsWord(pre[|pre| - 1]))
    ensures var own := TokText(toks[0], stage);
      && Statement(toks[1..]) && Placed(toks[0], stage, pre + TextOf(toks, stage), |pre|, |pre| + |own|)
      && pre + TextOf(toks, stage) == (pre + own) + TextOf(toks[1..], stage)
      && (|toks| > 1 && StartsWordy(toks[1]) && pre + own != "" ==> !IsWord((pre + own)[|pre + own| - 1]))
  {
    TailOk(toks);
    NextEdge(stage, pre, toks);
    SplitFirst(pre, toks, stage);
    PlacedHere(stage, pre, toks);
  }

  lemma NextEdge(stage: nat, pre: string, toks: seq<Tok>)
    requires Statement(toks) && |toks| > 0
    ensures var pre' := pre + TokText(toks[0], stage);
      |toks| > 1 && StartsWordy(toks[1]) ==> pre' != "" && !IsWord(pre'[|pre'| - 1])
  {
    if |toks| > 1 && StartsWordy(toks[1]) {
      assert !EndsWordy(toks[1 - 1]);
      LastChar(toks[0], stage);
    }
  }

  lemma PlacedHere(stage: nat, pre: string, toks: seq<Tok>)
    requires Statement(toks) && toks != []
    requires StartsWordy(toks[0]) && pre != "" ==> !IsWord(pre[|pre| - 1])
    ensures Placed(toks[0], stage, pre + TextOf(toks, stage), |pre|, |pre| + |TokText(toks[0], stage)|)
  {
    var t, rest := toks[0], toks[1..];
    var own, after := TokText(t, stage), TextOf(rest, stage);
    var s := pre + TextOf(toks, stage);
    assert s == (pre + own) + after;
    TailOk(toks);
    NoILikeAhead(rest, stage);
    ILikeAtShifted(pre + own, after);
    if EndsWordy(t) {
      AfterWord(rest, stage);
    }
  }

  lemma PassOver(stage: nat, s: string, len: nat -> nat, rep: string -> string, toks: seq<Tok>)
    requires Statement(toks) && Tokenwise(stage, s, len, rep) && s == TextOf(toks, stage)
    ensures ReplaceBy(s, len, rep, 0) == TextOf(toks, stage + 1)
  {
    assert "" + s == s;
    PassFrom(stage, s, len, rep, "", toks);
  }

  lemma Pass(k: nat, toks: seq<Tok>)
    requires 1 <= k <= 6 && Statement(toks)
    ensures ReplaceAll(RuleOf(k), TextOf(toks, k - 1)) == TextOf(toks, k)
  {
    var s, r := TextOf(toks, k - 1), RuleOf(k);
    RuleIsTokenwise(k, s);
    PassOver(k - 1, s, Matcher(r, s), Replacement(r), toks);
  }

  lemma RuleIsTokenwise(k: nat, s: string)
    requires 1 <= k <= 6
    ensures Tokenwise(k - 1, s, Matcher(RuleOf(k), s), Replacement(RuleOf(k)))
  {
    var r := RuleOf(k);
    forall t, a, b | Placed(t, k - 1, s, a, b)
      ensures ReplaceBy(s, Matcher(r, s), Replacement(r), a) == TokText(t, k) + ReplaceBy(s, Matcher(r, s), Replacement(r), b)
    {
      TokenStep(k, t, s, a, b);
    }
  }

  /** The six string passes rewrite a statement token by token. */
  lemma TranslationIsTokenwise(toks: seq<Tok>)
    requires Statement(toks)
    ensures TranslateToSQLite(TextOf(toks, 0)) == TextOf(toks, 6)
  {
    Pass(1, toks);
    Pass(2, toks);
    Pass(3, toks);
    Pass(4, toks);
    Pass(5, toks);
    Pass(6, toks);
  }
}
