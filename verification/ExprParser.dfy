/**
 The evaluator: a recursive descent over the tokens that evaluates as it goes, sharing one
 token index. Each method is proved against the grammar: it answers when the tokens from
 its index on begin with a derivation all of whose operands have a value, and then with
 that derivation's truth value, leaving the index right behind it.
 */
module ExprParser {
  import opened Options
  import opened ExprLexer
  import opened ExprGrammar

  /** A truth value and the tokens left over, or no answer. */
  type Answer = Option<(bool, seq<Token>)>

  function Answered(v: Option<bool>, rest: seq<Token>): Answer {
    if v.None? then None else Some((v.value, rest))
  }

  function MeaningAtom(ts: seq<Token>, ctx: Context): Answer {
    var r := ReadAtom(ts);
    if ctx.vars.None? || r.None? then None else Answered(TruthAtom(r.value.0, ctx), r.value.1)
  }

  function MeaningAnd(ts: seq<Token>, ctx: Context): Answer {
    var r := ReadAnd(ts);
    if ctx.vars.None? || r.None? then None else Answered(TruthAnd(r.value.0, ctx), r.value.1)
  }

  function MeaningOr(ts: seq<Token>, ctx: Context): Answer {
    var r := ReadOr(ts);
    if ctx.vars.None? || r.None? then None else Answered(TruthOr(r.value.0, ctx), r.value.1)
  }

  /** What a conjunction amounts to when its part before `ts` came out as `left`. */
  function ContinueAnd(left: bool, ts: seq<Token>, ctx: Context): Answer {
    if !StartsWith(ts, "&&") then Some((left, ts))
    else
      var r := MeaningAnd(ts[1..], ctx);
      if r.None? then None else Some((left && r.value.0, r.value.1))
  }

  function ContinueOr(left: bool, ts: seq<Token>, ctx: Context): Answer {
    if !StartsWith(ts, "||") then Some((left, ts))
    else
      var r := MeaningOr(ts[1..], ctx);
      if r.None? then None else Some((left || r.value.0, r.value.1))
  }

  lemma AndStartsWithAtom(ts: seq<Token>, ctx: Context)
    ensures MeaningAnd(ts, ctx) ==
            var r := MeaningAtom(ts, ctx);
            if r.None? then None else ContinueAnd(r.value.0, r.value.1, ctx)
  {}

  lemma OrStartsWithAnd(ts: seq<Token>, ctx: Context)
    ensures MeaningOr(ts, ctx) ==
            var r := MeaningAnd(ts, ctx);
            if r.None? then None else ContinueOr(r.value.0, r.value.1, ctx)
  {}

  /** The method has answered as `m` says, with the index at the first token left over. */
  ghost predicate Reports(toks: seq<Token>, start: nat, m: Answer, r: Option<bool>, i: nat) {
    && start <= i <= |toks|
    && r == (if m.None? then None else Some(m.value.0))
    && (r.Some? ==> toks[i..] == m.value.1)
  }

  /** One turn of either loop: the next operand, read up to `j`, is folded into `left`. */
  lemma ContinueAndStep(left: bool, toks: seq<Token>, i: nat, ctx: Context, r: Option<bool>, j: nat)
    requires i < |toks| && toks[i] == "&&" && Reports(toks, i + 1, MeaningAtom(toks[i + 1..], ctx), r, j)
    ensures ContinueAnd(left, toks[i..], ctx) ==
            if r.None? then None else ContinueAnd(left && r.value, toks[j..], ctx)
  {
    assert toks[i..][1..] == toks[i + 1..];
    AndStartsWithAtom(toks[i + 1..], ctx);
  }

  lemma ContinueOrStep(left: bool, toks: seq<Token>, i: nat, ctx: Context, r: Option<bool>, j: nat)
    requires i < |toks| && toks[i] == "||" && Reports(toks, i + 1, MeaningAnd(toks[i + 1..], ctx), r, j)
    ensures ContinueOr(left, toks[i..], ctx) ==
            if r.None? then None else ContinueOr(left || r.value, toks[j..], ctx)
  {
    assert toks[i..][1..] == toks[i + 1..];
    OrStartsWithAnd(toks[i + 1..], ctx);
  }

  lemma ContinueAndStops(left: bool, toks: seq<Token>, i: nat, ctx: Context)
    requires i == |toks| || (i < |toks| && toks[i] != "&&")
    ensures ContinueAnd(left, toks[i..], ctx) == Some((left, toks[i..]))
  {}

  lemma ContinueOrStops(left: bool, toks: seq<Token>, i: nat, ctx: Context)
    requires i == |toks| || (i < |toks| && toks[i] != "||")
    ensures ContinueOr(left, toks[i..], ctx) == Some((left, toks[i..]))
  {}

  method ParseComparison(toks: seq<Token>, start: nat, ctx: Context) returns (r: Option<bool>, i: nat)
    requires start <= |toks| && !StartsWith(toks[start..], "(")
    ensures Reports(toks, start, MeaningAtom(toks[start..], ctx), r, i)
  {
    i := start;
    if ctx.vars.None? {
      return None, i;
    }
    if i >= |toks| {
      return None, i;
    }
    var a := toks[i];
    i := i + 1;
    var av := Operand(a, ctx);
    if i >= |toks| {
      return None, i;
    }
    var op := toks[i];
    i := i + 1;
    if i >= |toks| {
      return None, i;
    }
    var b := toks[i];
    i := i + 1;
    var bv := Operand(b, ctx);
    r := Compare(op, av, bv);
  }

  method ParseAtom(toks: seq<Token>, start: nat, ctx: Context) returns (r: Option<bool>, i: nat)
    requires start <= |toks|
    ensures Reports(toks, start, MeaningAtom(toks[start..], ctx), r, i)
    decreases |toks| - start, 0
  {
    i := start;
    if i < |toks| && toks[i] == "(" {
      i := i + 1;
      r, i := ParseOr(toks, i, ctx);
      assert toks[start..][1..] == toks[start + 1..];
      if r.None? || i >= |toks| || toks[i] != ")" {
        return None, i;
      }
      i := i + 1;
      assert toks[i - 1..][1..] == toks[i..];
      return;
    }
    r, i := ParseComparison(toks, i, ctx);
  }

  method ParseAnd(toks: seq<Token>, start: nat, ctx: Context) returns (r: Option<bool>, i: nat)
    requires start <= |toks|
    ensures Reports(toks, start, MeaningAnd(toks[start..], ctx), r, i)
    decreases |toks| - start, 1
  {
    ghost var meaning := MeaningAnd(toks[start..], ctx);
    AndStartsWithAtom(toks[start..], ctx);
    r, i := ParseAtom(toks, start, ctx);
    if r.None? {
      return;
    }
    var left := r.value;
    while i < |toks| && toks[i] == "&&"
      invariant start <= i <= |toks|
      invariant meaning == ContinueAnd(left, toks[i..], ctx)
      decreases |toks| - i
    {
      ghost var at := i;
      i := i + 1;
      r, i := ParseAtom(toks, i, ctx);
      ContinueAndStep(left, toks, at, ctx, r, i);
      if r.None? {
        return;
      }
      left := left && r.value;
    }
    ContinueAndStops(left, toks, i, ctx);
    r := Some(left);
  }

  method ParseOr(toks: seq<Token>, start: nat, ctx: Context) returns (r: Option<bool>, i: nat)
    requires start <= |toks|
    ensures Reports(toks, start, MeaningOr(toks[start..], ctx), r, i)
    decreases |toks| - start, 2
  {
    ghost var meaning := MeaningOr(toks[start..], ctx);
    OrStartsWithAnd(toks[start..], ctx);
    r, i := ParseAnd(toks, start, ctx);
    if r.None? {
      return;
    }
    var left := r.value;
    while i < |toks| && toks[i] == "||"
      invariant start <= i <= |toks|
      invariant meaning == ContinueOr(left, toks[i..], ctx)
      decreases |toks| - i
    {
      ghost var at := i;
      i := i + 1;
      r, i := ParseAnd(toks, i, ctx);
      ContinueOrStep(left, toks, at, ctx, r, i);
      if r.None? {
        return;
      }
      left := left || r.value;
    }
    ContinueOrStops(left, toks, i, ctx);
    r := Some(left);
  }

  /** The value of an expression string: that of the derivation of all its tokens, if there is one. */
  function Evaluate(expr: string, ctx: Context): Option<bool> {
    var m := MeaningOr(Lex(expr), ctx);
    if m.Some? && m.value.1 == [] then Some(m.value.0) else None
  }

  method EvalBoolExpr(expr: string, ctx: Context, errorIn: string) returns (r: Option<bool>, error: string)
    ensures r == Evaluate(expr, ctx)
    ensures error == if ctx.vars.None? then "EvalContext::vars is null"
                     else if r.None? then "invalid expression: " + expr
                     else errorIn
  {
    error := errorIn;
    if ctx.vars.None? {
      error := "EvalContext::vars is null";
      return None, error;
    }
    var toks := Tokenize(expr);
    var i := 0;
    assert toks[i..] == toks;
    r, i := ParseOr(toks, i, ctx);
    if r.None? || i != |toks| {
      error := "invalid expression: " + expr;
      return None, error;
    }
  }

  /**
   Soundness and completeness. An answer comes from a derivation of the whole token list,
   and a derivation is answered with its own truth value: none as soon as one operand
   anywhere in it has no value, whatever the rest says, so nothing short-circuits.
   */
  lemma EvaluateIsTheDerivationsTruth(expr: string, ctx: Context)
    requires ctx.vars.Some?
    ensures forall t: OrExpr | OkOr(t) && TextOr(t) == Lex(expr) :: Evaluate(expr, ctx) == TruthOr(t, ctx)
    ensures Evaluate(expr, ctx).Some? ==> exists t: OrExpr :: OkOr(t) && TextOr(t) == Lex(expr)
  {
    forall t: OrExpr | OkOr(t) && TextOr(t) == Lex(expr)
      ensures Evaluate(expr, ctx) == TruthOr(t, ctx)
    {
      TextIsReadBack(t, Lex(expr));
    }
    var r := ReadOr(Lex(expr));
    if Evaluate(expr, ctx).Some? {
      TextIsReadBack(r.value.0, Lex(expr));
    }
  }
}
