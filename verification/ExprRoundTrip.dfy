/**
 Printing a formula with as few parentheses as possible and evaluating the string gives
 the formula's own value.
 */
module ExprRoundTrip {
  import opened Options
  import opened ExprLexer
  import opened ExprGrammar
  import opened ExprParser

  /** The six relations a comparison can state. */
  datatype Relation = Less | AtMost | More | AtLeast | Same | Different {
    function Sign(): Token {
      match this
      case Less => "<"
      case AtMost => "<="
      case More => ">"
      case AtLeast => ">="
      case Same => "=="
      case Different => "!="
    }

    predicate Holds(x: real, y: real) {
      match this
      case Less => x < y
      case AtMost => !(y < x)
      case More => y < x
      case AtLeast => !(x < y)
      case Same => x == y
      case Different => x < y || y < x
    }
  }

  /** A comparison answers exactly on two values and one of the six signs, and then with that relation. */
  lemma CompareAnswersTheSixRelations(op: Token, x: Option<real>, y: Option<real>)
    ensures Compare(op, x, y).Some? <==> x.Some? && y.Some? && exists rel: Relation :: rel.Sign() == op
    ensures forall rel: Relation | rel.Sign() == op && x.Some? && y.Some? ::
              Compare(op, x, y) == Some(rel.Holds(x.value, y.value))
  {
    assert Less.Sign() == "<" && AtMost.Sign() == "<=" && More.Sign() == ">";
    assert AtLeast.Sign() == ">=" && Same.Sign() == "==" && Different.Sign() == "!=";
  }

  datatype Formula =
    | Test(a: Token, rel: Relation, b: Token)
    | Conj(l: Formula, r: Formula)
    | Disj(l: Formula, r: Formula)
  {
    /** Every operand is a token, and no comparison starts with a parenthesis. */
    predicate Printable() {
      match this
      case Test(a, _, b) => IsToken(a) && IsToken(b) && a != "("
      case Conj(x, y) => x.Printable() && y.Printable()
      case Disj(x, y) => x.Printable() && y.Printable()
    }

    /** Strict truth value: none if any operand in it has none. */
    function Truth(ctx: Context): Option<bool>
      requires ctx.vars.Some?
    {
      match this
      case Test(a, rel, b) =>
        var x, y := Operand(a, ctx), Operand(b, ctx);
        if x.None? || y.None? then None else Some(rel.Holds(x.value, y.value))
      case Conj(x, y) => Both(x.Truth(ctx), y.Truth(ctx))
      case Disj(x, y) => Either(x.Truth(ctx), y.Truth(ctx))
    }

    /** Parentheses only around a disjunction inside a conjunction. */
    function Print(inConj: bool): seq<Token> {
      match this
      case Test(a, rel, b) => [a, rel.Sign(), b]
      case Conj(x, y) => x.Print(true) + ["&&"] + y.Print(true)
      case Disj(x, y) =>
        var body := x.Print(false) + ["||"] + y.Print(false);
        if inConj then ["("] + body + [")"] else body
    }

    /** The derivation the printed form has. */
    function AsAnd(): AndExpr
      decreases this, 0
    {
      match this
      case Test(a, rel, b) => Single(Comparison(a, rel.Sign(), b))
      case Conj(x, y) => AppendAnd(x.AsAnd(), y.AsAnd())
      case Disj(x, y) => Single(Parens(AppendOr(x.AsOr(), y.AsOr())))
    }

    function AsOr(): OrExpr
      decreases this, 1
    {
      match this
      case Test(_, _, _) => Only(AsAnd())
      case Conj(_, _) => Only(AsAnd())
      case Disj(x, y) => AppendOr(x.AsOr(), y.AsOr())
    }
  }

  function AppendAnd(x: AndExpr, y: AndExpr): AndExpr {
    match x
    case Single(a) => And(a, y)
    case And(a, x') => And(a, AppendAnd(x', y))
  }

  function AppendOr(x: OrExpr, y: OrExpr): OrExpr {
    match x
    case Only(a) => Or(a, y)
    case Or(a, x') => Or(a, AppendOr(x', y))
  }

  lemma {:induction false} AppendAndMeans(x: AndExpr, y: AndExpr, ctx: Context)
    requires ctx.vars.Some?
    ensures TextAnd(AppendAnd(x, y)) == TextAnd(x) + ["&&"] + TextAnd(y)
    ensures TruthAnd(AppendAnd(x, y), ctx) == Both(TruthAnd(x, ctx), TruthAnd(y, ctx))
    ensures OkAnd(AppendAnd(x, y)) == (OkAnd(x) && OkAnd(y))
  {
    match x
    case Single(_) =>
    case And(a, x') =>
      AppendAndMeans(x', y, ctx);
      assert TextAnd(AppendAnd(x, y)) == TextAtom(a) + ["&&"] + (TextAnd(x') + ["&&"] + TextAnd(y));
  }

  lemma {:induction false} AppendOrMeans(x: OrExpr, y: OrExpr, ctx: Context)
    requires ctx.vars.Some?
    ensures TextOr(AppendOr(x, y)) == TextOr(x) + ["||"] + TextOr(y)
    ensures TruthOr(AppendOr(x, y), ctx) == Either(TruthOr(x, ctx), TruthOr(y, ctx))
    ensures OkOr(AppendOr(x, y)) == (OkOr(x) && OkOr(y))
  {
    match x
    case Only(_) =>
    case Or(a, x') =>
      AppendOrMeans(x', y, ctx);
      assert TextOr(AppendOr(x, y)) == TextAnd(a) + ["||"] + (TextOr(x') + ["||"] + TextOr(y));
  }

  lemma {:induction false} PrintIsDerived(f: Formula, ctx: Context)
    requires f.Printable() && ctx.vars.Some?
    ensures OkAnd(f.AsAnd()) && TextAnd(f.AsAnd()) == f.Print(true) && TruthAnd(f.AsAnd(), ctx) == f.Truth(ctx)
    ensures OkOr(f.AsOr()) && TextOr(f.AsOr()) == f.Print(false) && TruthOr(f.AsOr(), ctx) == f.Truth(ctx)
  {
    match f
    case Test(a, rel, b) =>
      CompareAnswersTheSixRelations(rel.Sign(), Operand(a, ctx), Operand(b, ctx));
    case Conj(x, y) =>
      PrintIsDerived(x, ctx);
      PrintIsDerived(y, ctx);
      AppendAndMeans(x.AsAnd(), y.AsAnd(), ctx);
    case Disj(x, y) =>
      PrintIsDerived(x, ctx);
      PrintIsDerived(y, ctx);
      AppendOrMeans(x.AsOr(), y.AsOr(), ctx);
  }

  lemma {:induction false} PrintsTokens(f: Formula, inConj: bool)
    requires f.Printable()
    ensures forall t | t in f.Print(inConj) :: IsToken(t)
  {
    assert IsToken("&&") && IsToken("||") && IsToken("(") && IsToken(")");
    match f
    case Test(_, rel, _) =>
      assert IsToken(rel.Sign());
    case Conj(x, y) =>
      PrintsTokens(x, true);
      PrintsTokens(y, true);
    case Disj(x, y) =>
      PrintsTokens(x, false);
      PrintsTokens(y, false);
  }

  /** From formula to string and back to a truth value, through lexer and parser. */
  lemma PrintedFormulaEvaluatesToItsTruth(f: Formula, ctx: Context)
    requires f.Printable() && ctx.vars.Some?
    ensures Evaluate(Spaced(f.Print(false)), ctx) == f.Truth(ctx)
  {
    var s := Spaced(f.Print(false));
    PrintsTokens(f, false);
    RelexSpaced(f.Print(false));
    PrintIsDerived(f, ctx);
    EvaluateIsTheDerivationsTruth(s, ctx);
  }
}
