/**
 What an answer depends on: the values that the operands stand for, as numbers or as variables, and the plain truth
 of the relations between them.
 */
module ExprValues {
  import opened Options
  import opened ExprLexer
  import opened ExprGrammar
  import opened ExprParser
  import opened ExprRoundTrip

  /** A variable of the table, and not a name that is a number. */
  predicate IsVariable(ctx: Context, t: Token) {
    ctx.number(t).None? && ctx.vars.Some? && t in ctx.vars.value
  }

  /** Token `t` stands for `x`: as a number, or as a variable that holds it. */
  predicate StandsFor(ctx: Context, t: Token, x: real) {
    ctx.number(t) == Some(x) || (IsVariable(ctx, t) && ctx.vars.value[t] == Some(x))
  }

  /** Token `t` is a number, or a variable that holds a value and not a NaN. */
  predicate HasValue(ctx: Context, t: Token) {
    ctx.number(t).Some? || (IsVariable(ctx, t) && ctx.vars.value[t].Some?)
  }

  // ---------- one comparison ----------

  lemma ThreeTokens(expr: string, a: Token, op: Token, b: Token, ctx: Context)
    requires ctx.vars.Some? && a != "(" && Lex(expr) == [a, op, b]
    ensures Evaluate(expr, ctx) == Compare(op, Operand(a, ctx), Operand(b, ctx))
  {
    var atom := Comparison(a, op, b);
    var conj := Single(atom);
    var t := Only(conj);
    assert OkAtom(atom) && TextAtom(atom) == [a, op, b];
    assert OkAnd(conj) && TextAnd(conj) == TextAtom(atom) && TruthAnd(conj, ctx) == TruthAtom(atom, ctx);
    assert OkOr(t) && TextOr(t) == TextAnd(conj);
    EvaluateIsTheDerivationsTruth(expr, ctx);
  }

  /** A variable on either side is looked up, and a number is read as such. */
  lemma ComparisonOfWhatTheOperandsStandFor(
    expr: string, a: Token, rel: Relation, b: Token, ctx: Context, x: real, y: real)
    requires ctx.vars.Some? && a != "(" && Lex(expr) == [a, rel.Sign(), b]
    requires StandsFor(ctx, a, x) && StandsFor(ctx, b, y)
    ensures Evaluate(expr, ctx) == Some(rel.Holds(x, y))
  {
    ThreeTokens(expr, a, rel.Sign(), b, ctx);
    CompareAnswersTheSixRelations(rel.Sign(), Some(x), Some(y));
  }

  /** For example `load < 0.8`, with `load` in the table. */
  lemma VariableAgainstNumber(expr: string, a: Token, rel: Relation, b: Token, ctx: Context, x: real, y: real)
    requires ctx.vars.Some? && a != "(" && Lex(expr) == [a, rel.Sign(), b]
    requires ctx.number(a) == None && a in ctx.vars.value && ctx.vars.value[a] == Some(x)
    requires ctx.number(b) == Some(y)
    ensures Evaluate(expr, ctx) == Some(rel.Holds(x, y))
  {
    ComparisonOfWhatTheOperandsStandFor(expr, a, rel, b, ctx, x, y);
  }

  lemma NumberAgainstVariable(expr: string, a: Token, rel: Relation, b: Token, ctx: Context, x: real, y: real)
    requires ctx.vars.Some? && a != "(" && Lex(expr) == [a, rel.Sign(), b]
    requires ctx.number(a) == Some(x)
    requires ctx.number(b) == None && b in ctx.vars.value && ctx.vars.value[b] == Some(y)
    ensures Evaluate(expr, ctx) == Some(rel.Holds(x, y))
  {
    ComparisonOfWhatTheOperandsStandFor(expr, a, rel, b, ctx, x, y);
  }

  // ---------- whole formulas ----------

  function Operands(f: Formula): set<Token> {
    match f
    case Test(a, _, b) => {a, b}
    case Conj(x, y) => Operands(x) + Operands(y)
    case Disj(x, y) => Operands(x) + Operands(y)
  }

  /** Plain two-valued truth, for operands with the values that `value` gives them. */
  predicate Holds(f: Formula, value: Token -> real) {
    match f
    case Test(a, rel, b) => rel.Holds(value(a), value(b))
    case Conj(x, y) => Holds(x, value) && Holds(y, value)
    case Disj(x, y) => Holds(x, value) || Holds(y, value)
  }

  lemma {:induction false} TruthIsPlainTruth(f: Formula, ctx: Context, value: Token -> real)
    requires ctx.vars.Some? && forall t | t in Operands(f) :: StandsFor(ctx, t, value(t))
    ensures f.Truth(ctx) == Some(Holds(f, value))
  {
    match f
    case Test(_, _, _) =>
    case Conj(x, y) =>
      TruthIsPlainTruth(x, ctx, value);
      TruthIsPlainTruth(y, ctx, value);
    case Disj(x, y) =>
      TruthIsPlainTruth(x, ctx, value);
      TruthIsPlainTruth(y, ctx, value);
  }

  lemma {:induction false} TruthNeedsEveryOperand(f: Formula, ctx: Context)
    requires ctx.vars.Some?
    ensures f.Truth(ctx).Some? <==> forall t | t in Operands(f) :: HasValue(ctx, t)
  {
    match f
    case Test(a, _, b) =>
      assert f.Truth(ctx).Some? <==> HasValue(ctx, a) && HasValue(ctx, b);
    case Conj(x, y) =>
      TruthNeedsEveryOperand(x, ctx);
      TruthNeedsEveryOperand(y, ctx);
    case Disj(x, y) =>
      TruthNeedsEveryOperand(x, ctx);
      TruthNeedsEveryOperand(y, ctx);
  }

  /** A printed formula whose operands all stand for values is answered with its plain truth on those values. */
  lemma PrintedFormulaIsAnsweredWithItsPlainTruth(f: Formula, ctx: Context, value: Token -> real)
    requires f.Printable() && ctx.vars.Some?
    requires forall t | t in Operands(f) :: StandsFor(ctx, t, value(t))
    ensures Evaluate(Spaced(f.Print(false)), ctx) == Some(Holds(f, value))
  {
    PrintedFormulaEvaluatesToItsTruth(f, ctx);
    TruthIsPlainTruth(f, ctx, value);
  }

  /** And it has an answer at all exactly when every operand token has a value, wherever in the formula it stands. */
  lemma AnsweredExactlyWhenEveryOperandHasAValue(f: Formula, ctx: Context)
    requires f.Printable()
    ensures Evaluate(Spaced(f.Print(false)), ctx).Some? <==>
            ctx.vars.Some? && forall t | t in Operands(f) :: HasValue(ctx, t)
  {
    if ctx.vars.Some? {
      PrintedFormulaEvaluatesToItsTruth(f, ctx);
      TruthNeedsEveryOperand(f, ctx);
    }
  }

  // ---------- numbers come first ----------

  /** No token has another value in one context than in the other. */
  ghost predicate SameOperands(c: Context, d: Context) {
    c.vars.Some? && d.vars.Some? && forall t :: Operand(t, c) == Operand(t, d)
  }

  lemma {:induction false} SameTruthOfAtom(t: Atom, c: Context, d: Context)
    requires SameOperands(c, d)
    ensures TruthAtom(t, c) == TruthAtom(t, d)
    decreases t
  {
    match t
    case Comparison(_, _, _) =>
    case Parens(e) => SameTruthOfOr(e, c, d);
  }

  lemma {:induction false} SameTruthOfAnd(t: AndExpr, c: Context, d: Context)
    requires SameOperands(c, d)
    ensures TruthAnd(t, c) == TruthAnd(t, d)
    decreases t
  {
    match t
    case Single(x) => SameTruthOfAtom(x, c, d);
    case And(x, y) =>
      SameTruthOfAtom(x, c, d);
      SameTruthOfAnd(y, c, d);
  }

  lemma {:induction false} SameTruthOfOr(t: OrExpr, c: Context, d: Context)
    requires SameOperands(c, d)
    ensures TruthOr(t, c) == TruthOr(t, d)
    decreases t
  {
    match t
    case Only(x) => SameTruthOfAnd(x, c, d);
    case Or(x, y) =>
      SameTruthOfAnd(x, c, d);
      SameTruthOfOr(y, c, d);
  }

  /** Whatever the table holds under a name that is a number, no answer changes. */
  lemma EntryUnderANumberChangesNothing(expr: string, ctx: Context, name: Token, entry: Option<real>)
    requires ctx.vars.Some? && ctx.number(name).Some?
    ensures Evaluate(expr, ctx.(vars := Some(ctx.vars.value[name := entry]))) == Evaluate(expr, ctx)
  {
    var changed := ctx.(vars := Some(ctx.vars.value[name := entry]));
    var r := ReadOr(Lex(expr));
    if r.Some? {
      SameTruthOfOr(r.value.0, ctx, changed);
    }
  }
}
