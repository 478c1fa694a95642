/** Expression trees, their Postgres and SQLite texts, and their values: the string translation
    is the text of a structural translation that keeps every value. */
module SqlMeaning {
  import opened Text
  import opened SqlRewrite
  import opened SqlTokens
  import opened SqlPasses
  import U = Uuid

  datatype PgOp = ILikeTest | SameAs | DiffersFrom | Equal | And | Or | NullIf

  /** The Postgres expressions the repository writes in its conditions. SameAs is
      IS NOT DISTINCT FROM, DiffersFrom is IS DISTINCT FROM. */
  datatype Expr =
    | Column(name: string)
    | Parameter(n: nat)
    | Str(text: string)
    | CurrentTime
    | CastAs(arg: Expr, ty: string)
    | NullTest(arg: Expr, negated: bool)
    | Binary(op: PgOp, left: Expr, right: Expr)

  datatype LiteOp = LLike | LIs | LIsNot | LEqual | LAnd | LOr | LNullIf

  /** SQLite's expressions: no casts; LIKE, IS and IS NOT. */
  datatype Lite =
    | LColumn(name: string)
    | LParameter(n: nat)
    | LStr(text: string)
    | LCurrentTime
    | LNullTest(arg: Lite, negated: bool)
    | LBinary(op: LiteOp, left: Lite, right: Lite)

  function ToLiteOp(op: PgOp): LiteOp {
    match op
    case ILikeTest => LLike
    case SameAs => LIs
    case DiffersFrom => LIsNot
    case Equal => LEqual
    case And => LAnd
    case Or => LOr
    case NullIf => LNullIf
  }

  function ToLite(e: Expr): Lite {
    match e
    case Column(name) => LColumn(name)
    case Parameter(n) => LParameter(n)
    case Str(text) => LStr(text)
    case CurrentTime => LCurrentTime
    case CastAs(arg, _) => ToLite(arg)
    case NullTest(arg, negated) => LNullTest(ToLite(arg), negated)
    case Binary(op, l, r) => LBinary(ToLiteOp(op), ToLite(l), ToLite(r))
  }

  // ---- Texts ----

  function DoubleQuotes(s: string): string {
    if s == "" then "" else (if s[0] == '\'' then "''" else [s[0]]) + DoubleQuotes(s[1..])
  }

  function Quoted(s: string): string {
    "'" + DoubleQuotes(s) + "'"
  }

  function PgMid(op: PgOp): string {
    match op
    case ILikeTest => [' '] + "ILIKE" + [' ']
    case SameAs => " " + "IS NOT DISTINCT FROM" + " "
    case DiffersFrom => " " + "IS DISTINCT FROM" + " "
    case Equal => " = "
    case And => " " + ("AND" + " ")
    case Or => " " + ("OR" + " ")
    case NullIf => ","
  }

  function PgText(e: Expr): string {
    match e
    case Column(name) => name
    case Parameter(n) => "$" + Decimal(n)
    case Str(text) => Quoted(text)
    case CurrentTime => "now()"
    case CastAs(arg, ty) => PgText(arg) + ("::" + ty)
    case NullTest(arg, negated) => "(" + (PgText(arg) + ((if negated then " IS NOT NULL" else " IS NULL") + ")"))
    case Binary(op, l, r) => (if op == NullIf then "NULLIF(" else "(") + (PgText(l) + (PgMid(op) + (PgText(r) + ")")))
  }

  function LiteMid(op: LiteOp): string {
    match op
    case LLike => " LIKE "
    case LIs => "  IS  "
    case LIsNot => "  IS NOT  "
    case LEqual => " = "
    case LAnd => " " + ("AND" + " ")
    case LOr => " " + ("OR" + " ")
    case LNullIf => ","
  }

  function LiteText(t: Lite): string {
    match t
    case LColumn(name) => name
    case LParameter(n) => "?" + Decimal(n)
    case LStr(text) => Quoted(text)
    case LCurrentTime => "CURRENT_TIMESTAMP"
    case LNullTest(arg, negated) => "(" + (LiteText(arg) + ((if negated then " IS NOT NULL" else " IS NULL") + ")"))
    case LBinary(op, l, r) =>
      (if op == LNullIf then "NULLIF(" else "(") + (LiteText(l) + (LiteMid(op) + (LiteText(r) + ")")))
  }

  /** Names are words that are not keywords of the rules; literals do not contain the patterns. */
  ghost predicate Printable(e: Expr) {
    match e
    case Column(name) => TokOk(Word(name))
    case Parameter(_) => true
    case Str(text) => forall r :: Absent(r, Quoted(text))
    case CurrentTime => true
    case CastAs(arg, ty) => Printable(arg) && TokOk(CastTo(ty))
    case NullTest(arg, _) => Printable(arg)
    case Binary(_, l, r) => Printable(l) && Printable(r)
  }

  // ---- Trees as tokens ----

  function Opening(op: PgOp): seq<Tok> {
    if op == NullIf then [Word("NULLIF"), Punct("(")] else [Punct("(")]
  }

  function Infix(op: PgOp): seq<Tok> {
    match op
    case ILikeTest => [ILikeOp(' ', "ILIKE", ' ')]
    case SameAs => [NotDistinctOp("IS NOT DISTINCT FROM")]
    case DiffersFrom => [DistinctOp("IS DISTINCT FROM")]
    case Equal => [Punct(" = ")]
    case And => [Punct(" "), Word("AND"), Punct(" ")]
    case Or => [Punct(" "), Word("OR"), Punct(" ")]
    case NullIf => [Punct(",")]
  }

  function Toks(e: Expr): seq<Tok> {
    match e
    case Column(name) => [Word(name)]
    case Parameter(n) => [Param(n)]
    case Str(text) => [Literal(Quoted(text))]
    case CurrentTime => [NowCall("now")]
    case CastAs(arg, ty) => Toks(arg) + [CastTo(ty)]
    case NullTest(arg, negated) => [Punct("(")] + (Toks(arg) + ([IsNull(negated)] + [Punct(")")]))
    case Binary(op, l, r) => Opening(op) + (Toks(l) + (Infix(op) + (Toks(r) + [Punct(")")])))
  }

  lemma {:induction false} TextOfConcat(a: seq<Tok>, b: seq<Tok>, stage: nat)
    ensures TextOf(a + b, stage) == TextOf(a, stage) + TextOf(b, stage)
  {
    if a == [] {
      assert a + b == b;
    } else {
      assert (a + b)[1..] == a[1..] + b;
      TextOfConcat(a[1..], b, stage);
    }
  }

  lemma TextOfOne(t: Tok, stage: nat)
    ensures TextOf([t], stage) == TokText(t, stage)
  {
    assert [t][1..] == [];
    assert TokText(t, stage) + "" == TokText(t, stage);
  }

  lemma TextOfThree(t: Tok, u: Tok, v: Tok, stage: nat)
    ensures TextOf([t, u, v], stage) == TokText(t, stage) + (TokText(u, stage) + TokText(v, stage))
    ensures TextOf([t, u], stage) == TokText(t, stage) + TokText(u, stage)
  {
    assert [t, u, v] == [t] + ([u] + [v]) && [t, u] == [t] + [u];
    TextOfConcat([t], [u] + [v], stage);
    TextOfConcat([u], [v], stage);
    TextOfConcat([t], [u], stage);
    TextOfOne(t, stage);
    TextOfOne(u, stage);
    TextOfOne(v, stage);
  }

  lemma TextOfFive(a: seq<Tok>, b: seq<Tok>, c: seq<Tok>, d: seq<Tok>, e: seq<Tok>, stage: nat)
    ensures TextOf(a + (b + (c + (d + e))), stage) ==
            TextOf(a, stage) + (TextOf(b, stage) + (TextOf(c, stage) + (TextOf(d, stage) + TextOf(e, stage))))
  {
    TextOfConcat(a, b + (c + (d + e)), stage);
    TextOfConcat(b, c + (d + e), stage);
    TextOfConcat(c, d + e, stage);
    TextOfConcat(d, e, stage);
  }

  lemma OperatorTexts(op: PgOp, stage: nat)
    ensures TextOf(Opening(op), stage) == if op == NullIf then "NULLIF(" else "("
    ensures TextOf([Punct(")")], stage) == ")"
  {
    TextOfOne(Punct("("), stage);
    TextOfOne(Punct(")"), stage);
    TextOfThree(Word("NULLIF"), Punct("("), Punct("("), stage);
  }

  lemma ConnectiveText(op: PgOp, stage: nat)
    requires op == And || op == Or
    ensures TextOf(Infix(op), stage) == PgMid(op)
  {
    TextOfThree(Punct(" "), Infix(op)[1], Punct(" "), stage);
  }

  lemma InfixText(op: PgOp)
    ensures TextOf(Infix(op), 0) == PgMid(op) && TextOf(Infix(op), 6) == LiteMid(ToLiteOp(op))
  {
    if op == And || op == Or {
      ConnectiveText(op, 0);
      ConnectiveText(op, 6);
    } else {
      TextOfOne(Infix(op)[0], 0);
      TextOfOne(Infix(op)[0], 6);
    }
  }

  lemma BinaryText(op: PgOp, l: seq<Tok>, r: seq<Tok>, stage: nat)
    requires stage == 0 || stage == 6
    ensures TextOf(Opening(op) + (l + (Infix(op) + (r + [Punct(")")]))), stage) ==
            (if op == NullIf then "NULLIF(" else "(") +
            (TextOf(l, stage) + ((if stage == 0 then PgMid(op) else LiteMid(ToLiteOp(op))) + (TextOf(r, stage) + ")")))
  {
    OperatorTexts(op, stage);
    InfixText(op);
    TextOfFive(Opening(op), l, Infix(op), r, [Punct(")")], stage);
  }

  lemma {:induction false} PgTextIsTokens(e: Expr)
    ensures TextOf(Toks(e), 0) == PgText(e)
  {
    match e {
      case CastAs(arg, ty) =>
        PgTextIsTokens(arg);
        TextOfConcat(Toks(arg), [CastTo(ty)], 0);
        TextOfOne(CastTo(ty), 0);
      case NullTest(arg, negated) =>
        PgTextIsTokens(arg);
        NullTestText(Toks(arg), negated, 0);
      case Binary(op, l, r) =>
        PgTextIsTokens(l);
        PgTextIsTokens(r);
        BinaryText(op, Toks(l), Toks(r), 0);
      case _ =>
        TextOfOne(Toks(e)[0], 0);
    }
  }

  lemma NullTestText(arg: seq<Tok>, negated: bool, stage: nat)
    ensures TextOf([Punct("(")] + (arg + ([IsNull(negated)] + [Punct(")")])), stage) ==
            "(" + (TextOf(arg, stage) + ((if negated then " IS NOT NULL" else " IS NULL") + ")"))
  {
    TextOfConcat([Punct("(")], arg + ([IsNull(negated)] + [Punct(")")]), stage);
    TextOfConcat(arg, [IsNull(negated)] + [Punct(")")], stage);
    TextOfConcat([IsNull(negated)], [Punct(")")], stage);
    TextOfOne(Punct("("), stage);
    TextOfOne(Punct(")"), stage);
    TextOfOne(IsNull(negated), stage);
  }

  lemma DroppedCastText(arg: seq<Tok>, ty: string)
    ensures TextOf(arg + [CastTo(ty)], 6) == TextOf(arg, 6)
  {
    TextOfConcat(arg, [CastTo(ty)], 6);
    TextOfOne(CastTo(ty), 6);
  }

  lemma LiteNullTest(arg: Expr, negated: bool)
    requires TextOf(Toks(arg), 6) == LiteText(ToLite(arg))
    ensures TextOf(Toks(NullTest(arg, negated)), 6) == LiteText(ToLite(NullTest(arg, negated)))
  {
    NullTestText(Toks(arg), negated, 6);
  }

  lemma LiteBinary(op: PgOp, l: Expr, r: Expr)
    requires TextOf(Toks(l), 6) == LiteText(ToLite(l)) && TextOf(Toks(r), 6) == LiteText(ToLite(r))
    ensures TextOf(Toks(Binary(op, l, r)), 6) == LiteText(ToLite(Binary(op, l, r)))
  {
    BinaryText(op, Toks(l), Toks(r), 6);
  }

  lemma LeafText(e: Expr)
    requires !e.CastAs? && !e.NullTest? && !e.Binary?
    ensures TextOf(Toks(e), 6) == LiteText(ToLite(e))
  {
    TextOfOne(Toks(e)[0], 6);
  }

  lemma {:induction false} LiteTextIsTokens(e: Expr)
    ensures TextOf(Toks(e), 6) == LiteText(ToLite(e))
  {
    match e {
      case CastAs(arg, ty) =>
        LiteTextIsTokens(arg);
        DroppedCastText(Toks(arg), ty);
      case NullTest(arg, negated) =>
        LiteTextIsTokens(arg);
        LiteNullTest(arg, negated);
      case Binary(op, l, r) =>
        LiteTextIsTokens(l);
        LiteTextIsTokens(r);
        LiteBinary(op, l, r);
      case _ =>
        LeafText(e);
    }
  }

  // ---- Every tree prints to a statement ----

  lemma StatementConcat(a: seq<Tok>, b: seq<Tok>)
    requires Statement(a) && Statement(b)
    requires a != [] && b != [] ==> !EndsWordy(a[|a| - 1]) || !StartsWordy(b[0])
    ensures Statement(a + b)
  {
    var c := a + b;
    forall i | 0 < i < |c| && EndsWordy(c[i - 1]) ensures !StartsWordy(c[i]) {
      if i < |a| {
        assert EndsWordy(a[i - 1]);
      } else if i > |a| {
        assert EndsWordy(b[i - |a| - 1]);
      }
    }
  }

  lemma WordIsFine(w: string, first: char)
    requires AllWord(w) && w[0] == first && !Folds(first, 'n') && !Folds(first, 'i')
    ensures TokOk(Word(w))
  {
    assert !Folds(w[0], "now"[0]) && !Folds(w[0], ILIKE[0]) && !Folds(w[0], "is"[0]);
  }

  lemma OperatorsAreSpelled()
    ensures FoldsTo("now", "now") && FoldsTo("ILIKE", ILIKE)
    ensures FoldsTo("IS NOT DISTINCT FROM", NOT_DISTINCT) && FoldsTo("IS DISTINCT FROM", DISTINCT)
  {
    NotDistinctIsSpelled();
    DistinctIsSpelled();
  }

  lemma NotDistinctIsSpelled()
    ensures FoldsTo("IS NOT DISTINCT FROM", NOT_DISTINCT)
  {
    forall j | 0 <= j < 20 ensures Folds("IS NOT DISTINCT FROM"[j], NOT_DISTINCT[j]) { }
  }

  lemma DistinctIsSpelled()
    ensures FoldsTo("IS DISTINCT FROM", DISTINCT)
  {
    forall j | 0 <= j < 16 ensures Folds("IS DISTINCT FROM"[j], DISTINCT[j]) { }
  }

  lemma SingleIsStatement(t: Tok)
    requires TokOk(t)
    ensures Statement([t])
  {
  }

  lemma InfixIsStatement(op: PgOp)
    ensures Statement(Infix(op)) && Infix(op) != []
    ensures !StartsWordy(Infix(op)[0]) && !EndsWordy(Infix(op)[|Infix(op)| - 1])
  {
    OperatorsAreSpelled();
    if op == And || op == Or {
      var w := Infix(op)[1];
      WordIsFine("AND", 'A');
      WordIsFine("OR", 'O');
      SingleIsStatement(Punct(" "));
      SingleIsStatement(w);
      StatementConcat([w], [Punct(" ")]);
      StatementConcat([Punct(" ")], [w] + [Punct(" ")]);
      assert Infix(op) == [Punct(" ")] + ([w] + [Punct(" ")]);
    } else {
      SingleIsStatement(Infix(op)[0]);
      assert Infix(op) == [Infix(op)[0]];
    }
  }

  lemma OpeningIsStatement(op: PgOp)
    ensures Statement(Opening(op)) && Opening(op) != [] && !EndsWordy(Opening(op)[|Opening(op)| - 1])
    ensures Statement([Punct(")")])
  {
    SingleIsStatement(Punct("("));
    SingleIsStatement(Punct(")"));
    if op == NullIf {
      assert "NULLIF"[1] == 'U';
      assert !FoldsTo("NULLIF", "now") && !FoldsTo("NULLIF", ILIKE) && !FoldsTo("NULLIF", "is");
      SingleIsStatement(Word("NULLIF"));
      StatementConcat([Word("NULLIF")], [Punct("(")]);
      assert Opening(op) == [Word("NULLIF")] + [Punct("(")];
    }
  }

  lemma {:induction false} TreesPrintToStatements(e: Expr)
    requires Printable(e)
    ensures Statement(Toks(e)) && Toks(e) != []
  {
    match e {
      case CastAs(arg, ty) =>
        TreesPrintToStatements(arg);
        SingleIsStatement(CastTo(ty));
        StatementConcat(Toks(arg), [CastTo(ty)]);
      case NullTest(arg, negated) =>
        TreesPrintToStatements(arg);
        NullTestIsStatement(Toks(arg), negated);
      case Binary(op, l, r) =>
        TreesPrintToStatements(l);
        TreesPrintToStatements(r);
        BinaryIsStatement(op, Toks(l), Toks(r));
      case _ =>
        OperatorsAreSpelled();
        SingleIsStatement(Toks(e)[0]);
    }
  }

  lemma NullTestIsStatement(arg: seq<Tok>, negated: bool)
    requires Statement(arg)
    ensures Statement([Punct("(")] + (arg + ([IsNull(negated)] + [Punct(")")])))
  {
    OpeningIsStatement(And);
    SingleIsStatement(IsNull(negated));
    StatementConcat([IsNull(negated)], [Punct(")")]);
    StatementConcat(arg, [IsNull(negated)] + [Punct(")")]);
    StatementConcat([Punct("(")], arg + ([IsNull(negated)] + [Punct(")")]));
  }

  lemma BinaryIsStatement(op: PgOp, l: seq<Tok>, r: seq<Tok>)
    requires Statement(l) && Statement(r)
    ensures Statement(Opening(op) + (l + (Infix(op) + (r + [Punct(")")]))))
  {
    OpeningIsStatement(op);
    InfixIsStatement(op);
    StatementConcat(r, [Punct(")")]);
    StatementConcat(Infix(op), r + [Punct(")")]);
    StatementConcat(l, Infix(op) + (r + [Punct(")")]));
    StatementConcat(Opening(op), l + (Infix(op) + (r + [Punct(")")])));
  }

  /** The six string passes on the Postgres text of a tree give exactly the SQLite text of the
      translated tree. */
  lemma TextTranslationIsTreeTranslation(e: Expr)
    requires Printable(e)
    ensures TranslateToSQLite(PgText(e)) == LiteText(ToLite(e))
  {
    TreesPrintToStatements(e);
    PgTextIsTokens(e);
    LiteTextIsTokens(e);
    TranslationIsTokenwise(Toks(e));
  }

  /** For a literal on its own the condition is exact. */
  lemma LiteralConditionIsExact(text: string)
    ensures TranslateToSQLite(PgText(Str(text))) == LiteText(ToLite(Str(text))) <==> Printable(Str(text))
  {
    UnchangedExactlyWithoutPatterns(Quoted(text));
  }

  // ---- Parameters ----

  function Params(e: Expr): seq<nat> {
    match e
    case Parameter(n) => [n]
    case CastAs(arg, _) => Params(arg)
    case NullTest(arg, _) => Params(arg)
    case Binary(_, l, r) => Params(l) + Params(r)
    case _ => []
  }

  function LiteParams(t: Lite): seq<nat> {
    match t
    case LParameter(n) => [n]
    case LNullTest(arg, _) => LiteParams(arg)
    case LBinary(_, l, r) => LiteParams(l) + LiteParams(r)
    case _ => []
  }

  lemma {:induction false} SameParameters(e: Expr)
    ensures LiteParams(ToLite(e)) == Params(e)
  {
    match e {
      case CastAs(arg, _) => SameParameters(arg);
      case NullTest(arg, _) => SameParameters(arg);
      case Binary(_, l, r) =>
        SameParameters(l);
        SameParameters(r);
      case _ =>
    }
  }

  // ---- Values ----

  datatype Value = Null | Truth(b: bool) | Txt(s: string)

  datatype Env = Env(column: string -> Value, param: nat -> Value, now: Value)

  /** Pattern matching with % and _; with `escapes`, a backslash makes the next character literal. */
  predicate Like(s: string, p: string, fold: char -> char, escapes: bool)
    decreases |p|, |s|
  {
    if p == "" then s == ""
    else if p[0] == '%' then Like(s, p[1..], fold, escapes) || (s != "" && Like(s[1..], p, fold, escapes))
    else if p[0] == '_' then s != "" && Like(s[1..], p[1..], fold, escapes)
    else if escapes && p[0] == '\\' && |p| > 1 then
      s != "" && fold(s[0]) == fold(p[1]) && Like(s[1..], p[2..], fold, escapes)
    else s != "" && fold(s[0]) == fold(p[0]) && Like(s[1..], p[1..], fold, escapes)
  }

  function AsciiLower(c: char): char {
    if 'A' <= c <= 'Z' then (c as int + 32) as char else c
  }

  function LikeValue(a: Value, b: Value, fold: char -> char, escapes: bool): Value {
    if a.Txt? && b.Txt? then Truth(Like(a.s, b.s, fold, escapes)) else Null
  }

  /** SQL equality: unknown when either side is. */
  function EqualValue(a: Value, b: Value): Value {
    if a.Null? || b.Null? then Null else Truth(a == b)
  }

  /** IS DISTINCT FROM: like <>, except that NULL is an ordinary value. */
  function DistinctValue(a: Value, b: Value): Value {
    if a.Null? && b.Null? then Truth(false)
    else if a.Null? || b.Null? then Truth(true)
    else Truth(!EqualValue(a, b).b)
  }

  function NotValue(a: Value): Value {
    if a.Truth? then Truth(!a.b) else Null
  }

  function AndValue(a: Value, b: Value): Value {
    if a == Truth(false) || b == Truth(false) then Truth(false)
    else if a == Truth(true) && b == Truth(true) then Truth(true)
    else Null
  }

  function OrValue(a: Value, b: Value): Value {
    NotValue(AndValue(NotValue(a), NotValue(b)))
  }

  function NullIfValue(a: Value, b: Value): Value {
    if EqualValue(a, b) == Truth(true) then Null else a
  }

  /** The operators by their tables: true decides OR, false decides AND, NULLIF keeps its first argument
      unless it equals the second, and nothing but a NULL makes an equality unknown. */
  lemma OperatorTables(a: Value, b: Value)
    ensures (OrValue(a, b) == Truth(true) <==> a == Truth(true) || b == Truth(true))
    ensures (OrValue(a, b) == Truth(false) <==> a == Truth(false) && b == Truth(false))
    ensures (AndValue(a, b) == Truth(true) <==> a == Truth(true) && b == Truth(true))
    ensures (AndValue(a, b) == Truth(false) <==> a == Truth(false) || b == Truth(false))
    ensures NullIfValue(a, b) == if a == b then Null else a
    ensures EqualValue(a, b) == if a == Null || b == Null then Null else Truth(a == b)
    ensures DistinctValue(a, b) == Truth(a != b)
  {
  }

  /** ASCII folding confuses exactly a letter with its other case. */
  lemma AsciiFolding(c: char, d: char)
    ensures AsciiLower(c) == AsciiLower(d) <==>
      c == d || ('A' <= c <= 'Z' && 'a' <= d <= 'z' && d as int - c as int == 32) || ('A' <= d <= 'Z' && 'a' <= c <= 'z' && c as int - d as int == 32)
  {
  }

  /** Postgres: ILIKE folds case with `fold` and knows backslash escapes. */
  function PgApply(op: PgOp, a: Value, b: Value, fold: char -> char): Value {
    match op
    case ILikeTest => LikeValue(a, b, fold, true)
    case SameAs => NotValue(DistinctValue(a, b))
    case DiffersFrom => DistinctValue(a, b)
    case Equal => EqualValue(a, b)
    case And => AndValue(a, b)
    case Or => OrValue(a, b)
    case NullIf => NullIfValue(a, b)
  }

  /** `cast` converts a value to a type. */
  function PgEval(e: Expr, env: Env, cast: (string, Value) -> Value, fold: char -> char): Value {
    match e
    case Column(name) => env.column(name)
    case Parameter(n) => env.param(n)
    case Str(text) => Txt(text)
    case CurrentTime => env.now
    case CastAs(arg, ty) => cast(ty, PgEval(arg, env, cast, fold))
    case NullTest(arg, negated) => Truth(PgEval(arg, env, cast, fold).Null? != negated)
    case Binary(op, l, r) => PgApply(op, PgEval(l, env, cast, fold), PgEval(r, env, cast, fold), fold)
  }

  /** SQLite: LIKE folds ASCII case and has no escape character; IS and IS NOT compare with NULL
      as an ordinary value. */
  function LiteApply(op: LiteOp, a: Value, b: Value): Value {
    match op
    case LLike => LikeValue(a, b, AsciiLower, false)
    case LIs => Truth(a == b)
    case LIsNot => Truth(a != b)
    case LEqual => EqualValue(a, b)
    case LAnd => AndValue(a, b)
    case LOr => OrValue(a, b)
    case LNullIf => NullIfValue(a, b)
  }

  function LiteEval(t: Lite, env: Env): Value {
    match t
    case LColumn(name) => env.column(name)
    case LParameter(n) => env.param(n)
    case LStr(text) => Txt(text)
    case LCurrentTime => env.now
    case LNullTest(arg, negated) => Truth(LiteEval(arg, env).Null? != negated)
    case LBinary(op, l, r) => LiteApply(op, LiteEval(l, env), LiteEval(r, env))
  }

  /** Folding agrees with ASCII folding between the two texts. */
  ghost predicate FoldsLikeAscii(s: string, p: string, fold: char -> char) {
    forall c, d :: c in s && d in p ==> (fold(c) == fold(d) <==> AsciiLower(c) == AsciiLower(d))
  }

  lemma {:induction false} LikeAgrees(s: string, p: string, fold: char -> char)
    requires '\\' !in p && FoldsLikeAscii(s, p, fold)
    ensures Like(s, p, fold, true) == Like(s, p, AsciiLower, false)
    decreases |p|, |s|
  {
    if p != "" {
      assert p[0] in p;
      forall c | c in p[1..] ensures c in p { }
      if s != "" {
        assert s[0] in s;
        forall c | c in s[1..] ensures c in s { }
        LikeAgrees(s[1..], p[1..], fold);
        if p[0] == '%' {
          LikeAgrees(s[1..], p, fold);
        }
      }
      if p[0] == '%' {
        LikeAgrees(s, p[1..], fold);
      }
    }
  }

  /** An application on which the dialects agree: ILIKE needs texts on which case folding is ASCII
      folding, and a pattern free of backslashes. */
  ghost predicate PortableOp(op: PgOp, a: Value, b: Value, fold: char -> char) {
    op == ILikeTest && a.Txt? && b.Txt? ==> '\\' !in b.s && FoldsLikeAscii(a.s, b.s, fold)
  }

  /** An expression on which the dialects agree: besides, casts do not change the values they get. */
  ghost predicate Portable(e: Expr, env: Env, cast: (string, Value) -> Value, fold: char -> char) {
    match e
    case CastAs(arg, ty) =>
      var v := PgEval(arg, env, cast, fold);
      Portable(arg, env, cast, fold) && cast(ty, v) == v
    case NullTest(arg, _) => Portable(arg, env, cast, fold)
    case Binary(op, l, r) =>
      Portable(l, env, cast, fold) && Portable(r, env, cast, fold) &&
      PortableOp(op, PgEval(l, env, cast, fold), PgEval(r, env, cast, fold), fold)
    case _ => true
  }

  lemma ApplyAgrees(op: PgOp, a: Value, b: Value, fold: char -> char)
    requires PortableOp(op, a, b, fold)
    ensures LiteApply(ToLiteOp(op), a, b) == PgApply(op, a, b, fold)
  {
    if op == ILikeTest && a.Txt? && b.Txt? {
      LikeAgrees(a.s, b.s, fold);
    }
  }

  /** The translated tree has the same value in SQLite as the original in Postgres, NULLs included. */
  lemma {:induction false} TranslationKeepsValue(e: Expr, env: Env, cast: (string, Value) -> Value, fold: char -> char)
    requires Portable(e, env, cast, fold)
    ensures LiteEval(ToLite(e), env) == PgEval(e, env, cast, fold)
  {
    match e {
      case CastAs(arg, _) => TranslationKeepsValue(arg, env, cast, fold);
      case NullTest(arg, _) => TranslationKeepsValue(arg, env, cast, fold);
      case Binary(op, l, r) =>
        TranslationKeepsValue(l, env, cast, fold);
        TranslationKeepsValue(r, env, cast, fold);
        ApplyAgrees(op, PgEval(l, env, cast, fold), PgEval(r, env, cast, fold), fold);
      case _ =>
    }
  }

  /** The cast condition is exact: dropping a cast keeps the value exactly when the cast would. */
  lemma CastConditionIsExact(arg: Expr, ty: string, env: Env, cast: (string, Value) -> Value, fold: char -> char)
    requires Portable(arg, env, cast, fold)
    ensures LiteEval(ToLite(CastAs(arg, ty)), env) == PgEval(CastAs(arg, ty), env, cast, fold) <==>
            cast(ty, PgEval(arg, env, cast, fold)) == PgEval(arg, env, cast, fold)
  {
    TranslationKeepsValue(arg, env, cast, fold);
  }

  /** A cast that leaves every value alone. */
  function NoCast(ty: string, v: Value): Value {
    v
  }

  /** Without any condition on the casts: the translated tree has in SQLite the value that the original
      would have in Postgres if casts changed nothing. */
  lemma CastsAreDropped(e: Expr, env: Env, fold: char -> char)
    requires Portable(e, env, NoCast, fold)
    ensures LiteEval(ToLite(e), env) == PgEval(e, env, NoCast, fold)
  {
    TranslationKeepsValue(e, env, NoCast, fold);
  }

  /** The cast to uuid gives the stored form of a text that denotes one. */
  ghost predicate ReadsUuids(cast: (string, Value) -> Value) {
    forall s :: U.Stored(s).Some? ==> cast("uuid", Txt(s)) == Txt(U.Stored(s).value)
  }

  /** Dropping a cast to uuid keeps the value exactly when the text is in the stored form already. */
  lemma UuidCastIsExact(arg: Expr, env: Env, cast: (string, Value) -> Value, fold: char -> char, s: string)
    requires Portable(arg, env, cast, fold) && ReadsUuids(cast)
    requires PgEval(arg, env, cast, fold) == Txt(s) && U.Stored(s).Some?
    ensures LiteEval(ToLite(CastAs(arg, "uuid")), env) == PgEval(CastAs(arg, "uuid"), env, cast, fold) <==> U.IsStoredForm(s)
  {
    CastConditionIsExact(arg, "uuid", env, cast, fold);
    U.KeptExactlyInStoredForm(s);
  }

  /** The condition `id = $n::uuid` on a row: the two databases agree exactly when the id asked for is in
      the stored form, or is not that row's. So another spelling of an id finds its row in Postgres only. */
  lemma UuidLookupsAgreeExactly(env: Env, cast: (string, Value) -> Value, fold: char -> char, name: string, n: nat, id: string, given: string)
    requires ReadsUuids(cast) && env.column(name) == Txt(id) && U.IsStoredForm(id)
    requires env.param(n) == Txt(given) && U.Stored(given).Some?
    ensures var e := Binary(Equal, Column(name), CastAs(Parameter(n), "uuid"));
      LiteEval(ToLite(e), env) == PgEval(e, env, cast, fold) <==> U.IsStoredForm(given) || U.Stored(given) != Some(id)
  {
    U.KeptExactlyInStoredForm(given);
    var l, r := Column(name), CastAs(Parameter(n), "uuid");
    assert PgEval(l, env, cast, fold) == Txt(id) && PgEval(r, env, cast, fold) == Txt(U.Stored(given).value);
    assert PgEval(Binary(Equal, l, r), env, cast, fold) == EqualValue(Txt(id), Txt(U.Stored(given).value));
    assert LiteEval(ToLite(l), env) == Txt(id) && LiteEval(ToLite(r), env) == Txt(given);
    assert LiteEval(ToLite(Binary(Equal, l, r)), env) == EqualValue(Txt(id), Txt(given));
  }

  lemma {:induction false} PercentMatchesAll(s: string, escapes: bool)
    ensures Like(s, "%", AsciiLower, escapes)
  {
    assert "%"[1..] == "";
    if s != "" {
      PercentMatchesAll(s[1..], escapes);
    }
  }

  /** An escaped wildcard, on every text: Postgres matches just the wildcard character, SQLite a backslash
      followed by what the wildcard stands for. So the two never agree that a text matches. */
  lemma EscapesDiffer(s: string, wildcard: char)
    requires wildcard == '%' || wildcard == '_'
    ensures Like(s, ['\\', wildcard], AsciiLower, true) <==> s == [wildcard]
    ensures Like(s, ['\\', wildcard], AsciiLower, false) <==> s != "" && s[0] == '\\' && (wildcard == '%' || |s| == 2)
  {
    var p := ['\\', wildcard];
    assert p[1..] == [wildcard] && p[2..] == "" && [wildcard][1..] == "";
    if s != "" {
      assert AsciiLower(s[0]) == wildcard <==> s[0] == wildcard;
      assert AsciiLower(s[0]) == '\\' <==> s[0] == '\\';
      if wildcard == '%' {
        PercentMatchesAll(s[1..], false);
      } else {
        assert Like(s[1..], [wildcard], AsciiLower, false) <==> |s[1..]| == 1;
      }
      assert Like(s, p, AsciiLower, true) <==> s[0] == wildcard && s[1..] == "";
    }
  }
}
