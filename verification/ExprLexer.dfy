/**
 The lexer of the boolean expression evaluator.

 `Tokenize` is the loop of the source. `Lex` says what it computes by cutting one
 maximal token off the front at a time, and `Lexes` says, without computing
 anything, what it is for a token list to be a reading of a string.
 */
module ExprLexer {
  type Token = string

  /** `std::isspace` in the C locale: blank, or one of the five controls from tab to return. */
  predicate IsSpace(c: char) {
    c == ' ' || '\t' <= c <= '\r'
  }

  predicate IsOperatorChar(c: char) {
    || c == '(' || c == ')' || c == '&' || c == '|'
    || c == '<' || c == '>' || c == '=' || c == '!'
  }

  predicate IsWordChar(c: char) {
    !IsSpace(c) && !IsOperatorChar(c)
  }

  /** The six operators of two characters. */
  predicate IsPair(a: char, b: char) {
    || (a == '&' && b == '&')
    || (a == '|' && b == '|')
    || ((a == '=' || a == '!' || a == '<' || a == '>') && b == '=')
  }

  predicate IsWord(t: string) {
    t != "" && forall i | 0 <= i < |t| :: IsWordChar(t[i])
  }

  predicate IsOperator(t: string) {
    || (|t| == 1 && IsOperatorChar(t[0]))
    || (|t| == 2 && IsPair(t[0], t[1]))
  }

  predicate IsToken(t: string) {
    IsWord(t) || IsOperator(t)
  }

  predicate AllSpace(s: string) {
    forall i | 0 <= i < |s| :: IsSpace(s[i])
  }

  /** No longer token starts where `t` starts, when `rest` is what follows it. */
  predicate Maximal(t: Token, rest: string) {
    rest == "" ||
    if IsWord(t) then !IsWordChar(rest[0])
    else |t| == 1 ==> !IsPair(t[0], rest[0])
  }

  /** `toks` reads `s`: blanks and tokens alternate, and each token is the longest that starts there. */
  ghost predicate Lexes(s: string, toks: seq<Token>)
    decreases |toks|
  {
    if toks == [] then AllSpace(s)
    else exists gap: string, rest: string ::
           && s == gap + toks[0] + rest
           && AllSpace(gap)
           && IsToken(toks[0])
           && Maximal(toks[0], rest)
           && Lexes(rest, toks[1..])
  }

  /** Length of the longest run of word characters at the front of `s`. */
  function WordLength(s: string): (n: nat)
    ensures n <= |s|
    ensures forall i | 0 <= i < n :: IsWordChar(s[i])
    ensures n == |s| || !IsWordChar(s[n])
  {
    if s == "" || !IsWordChar(s[0]) then 0 else 1 + WordLength(s[1..])
  }

  /** Length of the token at the front of a string that starts with something other than a blank. */
  function TokenLength(s: string): (n: nat)
    requires s != "" && !IsSpace(s[0])
    ensures 1 <= n <= |s|
    ensures IsToken(s[..n]) && Maximal(s[..n], s[n..])
  {
    if !IsOperatorChar(s[0]) then WordLength(s)
    else if |s| > 1 && IsPair(s[0], s[1]) then 2
    else 1
  }

  function Lex(s: string): (toks: seq<Token>)
    decreases |s|
  {
    if s == "" then []
    else if IsSpace(s[0]) then Lex(s[1..])
    else [s[..TokenLength(s)]] + Lex(s[TokenLength(s)..])
  }

  lemma WordLengthOfWord(w: string, rest: string)
    requires forall i | 0 <= i < |w| :: IsWordChar(w[i])
    requires rest == "" || !IsWordChar(rest[0])
    ensures WordLength(w + rest) == |w|
  {
    assert forall k | 0 <= k < |w| :: (w + rest)[k] == w[k];
    assert rest != "" ==> (w + rest)[|w|] == rest[0];
  }

  /** A maximal token at the front is the one that gets cut off. */
  lemma LexToken(t: Token, rest: string)
    requires IsToken(t) && Maximal(t, rest)
    ensures Lex(t + rest) == [t] + Lex(rest)
  {
    var s := t + rest;
    if IsWord(t) {
      assert IsWordChar(t[0]);
      WordLengthOfWord(t, rest);
    }
    assert TokenLength(s) == |t|;
    assert s[..|t|] == t && s[|t|..] == rest;
  }

  lemma {:induction false} LexSkipsBlanks(gap: string, s: string)
    requires AllSpace(gap)
    ensures Lex(gap + s) == Lex(s)
  {
    if gap == "" {
      assert gap + s == s;
    } else {
      assert IsSpace(gap[0]) && (gap + s)[1..] == gap[1..] + s;
      LexSkipsBlanks(gap[1..], s);
    }
  }

  lemma {:induction false} LexGivesReading(s: string)
    ensures Lexes(s, Lex(s))
    decreases |s|
  {
    if s == "" {
    } else if IsSpace(s[0]) {
      LexGivesReading(s[1..]);
      LexesAfterBlank(s[0], s[1..], Lex(s[1..]));
      assert [s[0]] + s[1..] == s;
    } else {
      var n := TokenLength(s);
      LexGivesReading(s[n..]);
      LexesAfterToken(s[..n], s[n..], Lex(s[n..]));
      assert s[..n] + s[n..] == s;
    }
  }

  lemma LexesAfterToken(t: Token, rest: string, toks: seq<Token>)
    requires IsToken(t) && Maximal(t, rest) && Lexes(rest, toks)
    ensures Lexes(t + rest, [t] + toks)
  {
    assert ([t] + toks)[1..] == toks;
    assert t + rest == "" + t + rest;
  }

  lemma LexesAfterBlank(c: char, s: string, toks: seq<Token>)
    requires IsSpace(c) && Lexes(s, toks)
    ensures Lexes([c] + s, toks)
  {
    if toks != [] {
      var gap, rest :| s == gap + toks[0] + rest && AllSpace(gap) && IsToken(toks[0])
                       && Maximal(toks[0], rest) && Lexes(rest, toks[1..]);
      assert [c] + s == ([c] + gap) + toks[0] + rest;
      assert AllSpace([c] + gap);
    }
  }

  lemma {:induction false} ReadingIsLex(s: string, toks: seq<Token>)
    requires Lexes(s, toks)
    ensures toks == Lex(s)
    decreases |toks|
  {
    if toks == [] {
      LexSkipsBlanks(s, "");
      assert s + "" == s;
    } else {
      var gap, rest :| s == gap + toks[0] + rest && AllSpace(gap) && IsToken(toks[0])
                       && Maximal(toks[0], rest) && Lexes(rest, toks[1..]);
      assert s == gap + (toks[0] + rest);
      LexSkipsBlanks(gap, toks[0] + rest);
      LexToken(toks[0], rest);
      ReadingIsLex(rest, toks[1..]);
    }
  }

  /** `Lex` finds the one maximal-munch reading every string has. */
  lemma LexIsTheOnlyReading(s: string, toks: seq<Token>)
    ensures Lexes(s, toks) <==> toks == Lex(s)
  {
    LexGivesReading(s);
    if Lexes(s, toks) {
      ReadingIsLex(s, toks);
    }
  }

  function Concat(toks: seq<Token>): string {
    if toks == [] then "" else toks[0] + Concat(toks[1..])
  }

  function WithoutSpace(s: string): string {
    if s == "" then ""
    else if IsSpace(s[0]) then WithoutSpace(s[1..])
    else [s[0]] + WithoutSpace(s[1..])
  }

  lemma {:induction false} WithoutSpaceOfToken(t: string, rest: string)
    requires forall i | 0 <= i < |t| :: !IsSpace(t[i])
    ensures WithoutSpace(t + rest) == t + WithoutSpace(rest)
  {
    if t == "" {
      assert t + rest == rest;
    } else {
      assert (t + rest)[1..] == t[1..] + rest;
      WithoutSpaceOfToken(t[1..], rest);
    }
  }

  /** Nothing but blanks is lost and nothing is reordered; every piece is a word or an operator. */
  lemma {:induction false} LexKeepsText(s: string)
    ensures Concat(Lex(s)) == WithoutSpace(s)
    ensures forall t | t in Lex(s) :: IsToken(t)
    decreases |s|
  {
    if s == "" {
    } else if IsSpace(s[0]) {
      LexKeepsText(s[1..]);
    } else {
      var n := TokenLength(s);
      LexKeepsText(s[n..]);
      assert s == s[..n] + s[n..];
      WithoutSpaceOfToken(s[..n], s[n..]);
      assert Lex(s)[1..] == Lex(s[n..]);
    }
  }

  /** The tokens with one blank after each. */
  function Spaced(toks: seq<Token>): string {
    if toks == [] then "" else toks[0] + " " + Spaced(toks[1..])
  }

  /** Any list of tokens survives being written out with blanks and read again. */
  lemma {:induction false} RelexSpaced(toks: seq<Token>)
    requires forall t | t in toks :: IsToken(t)
    ensures Lex(Spaced(toks)) == toks
  {
    if toks != [] {
      var tail := " " + Spaced(toks[1..]);
      assert Spaced(toks) == toks[0] + tail;
      LexToken(toks[0], tail);
      assert AllSpace(" ");
      LexSkipsBlanks(" ", Spaced(toks[1..]));
      RelexSpaced(toks[1..]);
    }
  }

  /** Lexing is idempotent through spacing. */
  lemma RelexIsStable(s: string)
    ensures Lex(Spaced(Lex(s))) == Lex(s)
  {
    LexKeepsText(s);
    RelexSpaced(Lex(s));
  }

  /** What pushing a non-empty buffer before the text `rest` contributes. */
  function Flushed(buf: string): (toks: seq<Token>)
    ensures Concat(toks) == buf
  {
    if buf == "" then [] else [buf]
  }

  lemma LexFlush(buf: string, rest: string)
    requires forall i | 0 <= i < |buf| :: IsWordChar(buf[i])
    requires rest == "" || !IsWordChar(rest[0])
    ensures Lex(buf + rest) == Flushed(buf) + Lex(rest)
  {
    if buf == "" {
      assert buf + rest == rest;
    } else {
      LexToken(buf, rest);
    }
  }

  /** What the loop has pushed, then what it still has to read, is the lexing of `s`. */
  ghost predicate Pending(s: string, out: seq<Token>, buf: string, rest: string) {
    && (forall k | 0 <= k < |buf| :: IsWordChar(buf[k]))
    && Lex(s) == out + Lex(buf + rest)
  }

  lemma BlankEndsWord(c: char, rest: string)
    requires IsSpace(c)
    ensures [c] + rest != "" && !IsWordChar(([c] + rest)[0]) && Lex([c] + rest) == Lex(rest)
  {
    assert AllSpace([c]);
    LexSkipsBlanks([c], rest);
  }

  lemma NothingBefore(rest: string)
    ensures "" + rest == rest
  {}

  lemma RegroupTwo(a: seq<Token>, b: seq<Token>, c: seq<Token>)
    ensures a + (b + c) == a + b + c
  {}

  /** A blank flushes the buffer and is dropped. */
  lemma BlankStep(s: string, out: seq<Token>, buf: string, c: char, rest: string)
    requires Pending(s, out, buf, [c] + rest)
    requires IsSpace(c)
    ensures Pending(s, out + Flushed(buf), "", rest)
  {
    BlankEndsWord(c, rest);
    LexFlush(buf, [c] + rest);
    RegroupTwo(out, Flushed(buf), Lex(rest));
    NothingBefore(rest);
  }

  lemma Regroup(a: seq<Token>, b: seq<Token>, c: seq<Token>, d: seq<Token>)
    ensures a + (b + (c + d)) == a + b + c + d
  {}

  lemma OperatorEndsWord(op: Token, rest: string)
    requires IsOperator(op)
    ensures op + rest != "" && !IsWordChar((op + rest)[0])
  {
    assert (op + rest)[0] == op[0] && IsOperatorChar(op[0]);
  }

  /** An operator flushes the buffer and is pushed. */
  lemma OperatorStep(s: string, out: seq<Token>, buf: string, op: Token, rest: string)
    requires Pending(s, out, buf, op + rest)
    requires IsOperator(op) && Maximal(op, rest)
    ensures Pending(s, out + Flushed(buf) + [op], "", rest)
  {
    OperatorEndsWord(op, rest);
    LexFlush(buf, op + rest);
    LexToken(op, rest);
    Regroup(out, Flushed(buf), [op], Lex(rest));
    NothingBefore(rest);
  }

  lemma Joined(buf: string, c: char, rest: string)
    ensures buf + ([c] + rest) == (buf + [c]) + rest
  {}

  lemma WordGrows(buf: string, c: char)
    requires (forall k | 0 <= k < |buf| :: IsWordChar(buf[k])) && IsWordChar(c)
    ensures forall k | 0 <= k < |buf + [c]| :: IsWordChar((buf + [c])[k])
  {}

  /** Any other character joins the buffer. */
  lemma WordStep(s: string, out: seq<Token>, buf: string, c: char, rest: string)
    requires Pending(s, out, buf, [c] + rest)
    requires IsWordChar(c)
    ensures Pending(s, out, buf + [c], rest)
  {
    Joined(buf, c, rest);
    WordGrows(buf, c);
  }

  /** The operator at place `i`, two characters long if it can be. */
  function OperatorAt(s: string, i: nat): (op: Token)
    requires i < |s| && IsOperatorChar(s[i])
    ensures 1 <= |op| <= |s| - i
  {
    if i + 1 < |s| && IsPair(s[i], s[i + 1]) then s[i..i + 2] else [s[i]]
  }

  lemma OperatorAtIsMaximal(s: string, i: nat)
    requires i < |s| && IsOperatorChar(s[i])
    ensures var op := OperatorAt(s, i);
            IsOperator(op) && Maximal(op, s[i + |op|..]) && s[i..] == op + s[i + |op|..]
  {}

  lemma SplitFirst(s: string, i: nat)
    requires i < |s|
    ensures s[i..] == [s[i]] + s[i + 1..]
  {}

  /** The loop stands at place `i`. */
  ghost predicate PendingAt(s: string, out: seq<Token>, buf: string, i: nat) {
    i <= |s| && Pending(s, out, buf, s[i..])
  }

  lemma NothingRead(s: string)
    ensures PendingAt(s, [], "", 0)
  {
    NothingBefore(s);
    assert s[0..] == s;
  }

  /** At the end the buffer is flushed. */
  lemma AllRead(s: string, out: seq<Token>, buf: string)
    requires PendingAt(s, out, buf, |s|)
    ensures out + Flushed(buf) == Lex(s)
  {
    assert s[|s|..] == "";
    LexFlush(buf, "");
  }

  lemma BlankAt(s: string, out: seq<Token>, buf: string, i: nat)
    requires i < |s| && PendingAt(s, out, buf, i) && IsSpace(s[i])
    ensures PendingAt(s, out + Flushed(buf), "", i + 1)
  {
    SplitFirst(s, i);
    BlankStep(s, out, buf, s[i], s[i + 1..]);
  }

  lemma OperatorRead(s: string, out: seq<Token>, buf: string, i: nat)
    requires i < |s| && PendingAt(s, out, buf, i) && IsOperatorChar(s[i])
    ensures PendingAt(s, out + Flushed(buf) + [OperatorAt(s, i)], "", i + |OperatorAt(s, i)|)
  {
    var op := OperatorAt(s, i);
    OperatorAtIsMaximal(s, i);
    OperatorStep(s, out, buf, op, s[i + |op|..]);
  }

  lemma WordCharacterAt(s: string, out: seq<Token>, buf: string, i: nat)
    requires i < |s| && PendingAt(s, out, buf, i) && IsWordChar(s[i])
    ensures PendingAt(s, out, buf + [s[i]], i + 1)
  {
    SplitFirst(s, i);
    WordStep(s, out, buf, s[i], s[i + 1..]);
  }

  /** The source's character loop: a word buffer, flushed at blanks and operators. */
  method Tokenize(s: string) returns (out: seq<Token>)
    ensures out == Lex(s)
  {
    out := [];
    var buf := "";
    var i := 0;
    NothingRead(s);
    while i < |s|
      invariant PendingAt(s, out, buf, i)
    {
      var c := s[i];
      if IsSpace(c) {
        BlankAt(s, out, buf, i);
        out := out + Flushed(buf);
        buf := "";
      } else if IsOperatorChar(c) {
        var op := OperatorAt(s, i);
        OperatorRead(s, out, buf, i);
        out := out + Flushed(buf) + [op];
        buf := "";
        i := i + |op| - 1;
      } else {
        WordCharacterAt(s, out, buf, i);
        buf := buf + [c];
      }
      i := i + 1;
    }
    AllRead(s, out, buf);
    out := out + Flushed(buf);
  }

  // ---------- in terms of characters ----------

  const BLANKS: string := " \t\n\U{0B}\U{0C}\r"
  const OPERATOR_CHARACTERS: string := "()&|<>=!"
  const PAIRS: set<string> := {"&&", "||", "==", "!=", "<=", ">="}

  lemma LexOne(c: char)
    ensures Lex([c]) == if IsSpace(c) then [] else [[c]]
  {
    assert [c][1..] == "" && [c][..1] == [c];
  }

  /** Exactly the six blanks are no token of their own. */
  lemma OneCharacterIsAToken(c: char)
    ensures Lex([c]) == if c in BLANKS then [] else [[c]]
  {
    LexOne(c);
  }

  /** Two characters are one token exactly when they are one of the six pairs or no operator is among them. */
  lemma TwoCharactersAreOneToken(c: char, d: char)
    requires c !in BLANKS && d !in BLANKS
    ensures var s := [c, d];
            Lex(s) == if s in PAIRS || (c !in OPERATOR_CHARACTERS && d !in OPERATOR_CHARACTERS) then [s] else [[c], [d]]
  {
    var s := [c, d];
    assert s[1..] == [d] && s[2..] == "" && s[..2] == s && s[..1] == [c];
    LexOne(d);
    assert WordLength(s) == if IsOperatorChar(c) then 0 else if IsOperatorChar(d) then 1 else 2;
    assert s in PAIRS <==> IsPair(c, d);
  }
}
