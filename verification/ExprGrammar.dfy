/**
 The grammar the evaluator accepts: parentheses, then comparisons, then `&&`, then `||`.

 Derivations are trees. `Text*` is the token list a tree derives, `Truth*` its value, and
 `Read*` recovers the tree from the front of a token list. `ReadingText` and
 `TextIsReadBack` make the two directions inverse, so the grammar is unambiguous.
 */
module ExprGrammar {
  import opened Options
  import opened ExprLexer

  /**
   What operands may refer to. `vars` is the variable table, absent when the source's
   pointer is null; a variable may hold a NaN, written `None`. `number` is the source's
   `to_number`: `None` where `std::stod` throws or yields a NaN.
   */
  datatype Context = Context(vars: Option<map<Token, Option<real>>>, number: Token -> Option<real>)

  datatype Atom =
    | Comparison(a: Token, op: Token, b: Token)
    | Parens(inner: OrExpr)
  datatype AndExpr =
    | Single(atom: Atom)
    | And(first: Atom, others: AndExpr)
  datatype OrExpr =
    | Only(conj: AndExpr)
    | Or(head: AndExpr, rest: OrExpr)

  /** The only restriction on operands: a comparison cannot start with a parenthesis. */
  predicate OkAtom(t: Atom) {
    match t
    case Comparison(a, _, _) => a != "("
    case Parens(e) => OkOr(e)
  }

  predicate OkAnd(t: AndExpr) {
    match t
    case Single(x) => OkAtom(x)
    case And(x, y) => OkAtom(x) && OkAnd(y)
  }

  predicate OkOr(t: OrExpr) {
    match t
    case Only(x) => OkAnd(x)
    case Or(x, y) => OkAnd(x) && OkOr(y)
  }

  function TextAtom(t: Atom): (ts: seq<Token>)
    ensures |ts| >= 3
  {
    match t
    case Comparison(a, op, b) => [a, op, b]
    case Parens(e) => ["("] + TextOr(e) + [")"]
  }

  function TextAnd(t: AndExpr): (ts: seq<Token>)
    ensures |ts| >= 3
  {
    match t
    case Single(x) => TextAtom(x)
    case And(x, y) => TextAtom(x) + ["&&"] + TextAnd(y)
  }

  function TextOr(t: OrExpr): (ts: seq<Token>)
    ensures |ts| >= 3
  {
    match t
    case Only(x) => TextAnd(x)
    case Or(x, y) => TextAnd(x) + ["||"] + TextOr(y)
  }

  // ---------- truth ----------

  /** The value of an operand: a number literal first, then a variable; `None` is the source's NaN. */
  function Operand(t: Token, ctx: Context): Option<real>
    requires ctx.vars.Some?
  {
    if ctx.number(t).Some? then ctx.number(t)
    else if t in ctx.vars.value then ctx.vars.value[t]
    else None
  }

  /** `cmp`: no answer on a NaN or on an operator that is not a comparison. */
  function Compare(op: Token, x: Option<real>, y: Option<real>): Option<bool> {
    if x.None? || y.None? then None
    else if op == "<" then Some(x.value < y.value)
    else if op == "<=" then Some(x.value <= y.value)
    else if op == ">" then Some(x.value > y.value)
    else if op == ">=" then Some(x.value >= y.value)
    else if op == "==" then Some(x.value == y.value)
    else if op == "!=" then Some(x.value != y.value)
    else None
  }

  /** Strict connectives: an operand without a value leaves the whole without one. */
  function Both(x: Option<bool>, y: Option<bool>): Option<bool> {
    if x.None? || y.None? then None else Some(x.value && y.value)
  }

  function Either(x: Option<bool>, y: Option<bool>): Option<bool> {
    if x.None? || y.None? then None else Some(x.value || y.value)
  }

  function TruthAtom(t: Atom, ctx: Context): Option<bool>
    requires ctx.vars.Some?
  {
    match t
    case Comparison(a, op, b) => Compare(op, Operand(a, ctx), Operand(b, ctx))
    case Parens(e) => TruthOr(e, ctx)
  }

  function TruthAnd(t: AndExpr, ctx: Context): Option<bool>
    requires ctx.vars.Some?
  {
    match t
    case Single(x) => TruthAtom(x, ctx)
    case And(x, y) => Both(TruthAtom(x, ctx), TruthAnd(y, ctx))
  }

  function TruthOr(t: OrExpr, ctx: Context): Option<bool>
    requires ctx.vars.Some?
  {
    match t
    case Only(x) => TruthAnd(x, ctx)
    case Or(x, y) => Either(TruthAnd(x, ctx), TruthOr(y, ctx))
  }

  // ---------- reading a tree off the front of a token list ----------

  predicate StartsWith(ts: seq<Token>, t: Token) {
    ts != [] && ts[0] == t
  }

  function ReadAtom(ts: seq<Token>): (r: Option<(Atom, seq<Token>)>)
    ensures r.Some? ==> OkAtom(r.value.0) && ts == TextAtom(r.value.0) + r.value.1
    decreases |ts|, 0
  {
    if StartsWith(ts, "(") then
      var r := ReadOr(ts[1..]);
      if r.None? || !StartsWith(r.value.1, ")") then None
      else Some((Parens(r.value.0), r.value.1[1..]))
    else if |ts| < 3 then None
    else Some((Comparison(ts[0], ts[1], ts[2]), ts[3..]))
  }

  function ReadAnd(ts: seq<Token>): (r: Option<(AndExpr, seq<Token>)>)
    ensures r.Some? ==> OkAnd(r.value.0) && ts == TextAnd(r.value.0) + r.value.1
    ensures r.Some? ==> !StartsWith(r.value.1, "&&")
    decreases |ts|, 1
  {
    var r := ReadAtom(ts);
    if r.None? then None
    else if !StartsWith(r.value.1, "&&") then Some((Single(r.value.0), r.value.1))
    else
      var q := ReadAnd(r.value.1[1..]);
      if q.None? then None else Some((And(r.value.0, q.value.0), q.value.1))
  }

  function ReadOr(ts: seq<Token>): (r: Option<(OrExpr, seq<Token>)>)
    ensures r.Some? ==> OkOr(r.value.0) && ts == TextOr(r.value.0) + r.value.1
    ensures r.Some? ==> !StartsWith(r.value.1, "&&") && !StartsWith(r.value.1, "||")
    decreases |ts|, 2
  {
    var r := ReadAnd(ts);
    if r.None? then None
    else if !StartsWith(r.value.1, "||") then Some((Only(r.value.0), r.value.1))
    else
      var q := ReadOr(r.value.1[1..]);
      if q.None? then None else Some((Or(r.value.0, q.value.0), q.value.1))
  }

  /** The three readers undo the three printers, whatever follows that cannot extend the phrase. */
  lemma {:induction false} AtomIsReadBack(t: Atom, rest: seq<Token>)
    requires OkAtom(t)
    ensures ReadAtom(TextAtom(t) + rest) == Some((t, rest))
    decreases t
  {
    var ts := TextAtom(t) + rest;
    match t
    case Comparison(a, op, b) =>
      assert ts[3..] == rest;
    case Parens(e) =>
      OrIsReadBack(e, [")"] + rest);
      assert ts[1..] == TextOr(e) + ([")"] + rest);
      assert ([")"] + rest)[1..] == rest;
  }

  lemma {:induction false} AndIsReadBack(t: AndExpr, rest: seq<Token>)
    requires OkAnd(t) && !StartsWith(rest, "&&")
    ensures ReadAnd(TextAnd(t) + rest) == Some((t, rest))
    decreases t
  {
    match t
    case Single(x) =>
      AtomIsReadBack(x, rest);
    case And(x, y) =>
      var more := TextAnd(y) + rest;
      var tail := ["&&"] + more;
      assert TextAnd(t) + rest == TextAtom(x) + tail;
      AtomIsReadBack(x, tail);
      assert tail[1..] == more && StartsWith(tail, "&&");
      AndIsReadBack(y, rest);
  }

  lemma {:induction false} OrIsReadBack(t: OrExpr, rest: seq<Token>)
    requires OkOr(t) && !StartsWith(rest, "&&") && !StartsWith(rest, "||")
    ensures ReadOr(TextOr(t) + rest) == Some((t, rest))
    decreases t
  {
    match t
    case Only(x) =>
      AndIsReadBack(x, rest);
    case Or(x, y) =>
      var more := TextOr(y) + rest;
      var tail := ["||"] + more;
      assert TextOr(t) + rest == TextAnd(x) + tail;
      assert tail[1..] == more && StartsWith(tail, "||") && !StartsWith(tail, "&&");
      AndIsReadBack(x, tail);
      OrIsReadBack(y, rest);
  }

  /** Reading the whole of a token list succeeds exactly on the text of a derivation, and returns it. */
  lemma TextIsReadBack(t: OrExpr, ts: seq<Token>)
    ensures ReadOr(ts) == Some((t, [])) <==> OkOr(t) && TextOr(t) == ts
  {
    if OkOr(t) && TextOr(t) == ts {
      OrIsReadBack(t, []);
      assert ts + [] == ts;
    }
    if ReadOr(ts) == Some((t, [])) {
      assert TextOr(t) + [] == TextOr(t);
    }
  }

  /** No token list has two derivations. */
  lemma Unambiguous(t: OrExpr, u: OrExpr)
    requires OkOr(t) && OkOr(u) && TextOr(t) == TextOr(u)
    ensures t == u
  {
    TextIsReadBack(t, TextOr(t));
    TextIsReadBack(u, TextOr(u));
  }
}
