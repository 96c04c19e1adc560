/**
 The hash-chained audit log: what the writer writes, what the verifier accepts, and what an
 accepted log with a given last hash binds. `B` stands for everything an entry holds besides
 its two hashes.
 */
module AuditChain {
  import opened Options

  function Zeros(n: nat): string {
    if n == 0 then [] else ['0'] + Zeros(n - 1)
  }

  /** What the first entry of a chain names as the hash before it. */
  const GENESIS: string := Zeros(64)

  lemma {:induction false} ZerosAreZeros(n: nat)
    ensures |Zeros(n)| == n && forall c | c in Zeros(n) :: c == '0'
  {
    if n > 0 {
      ZerosAreZeros(n - 1);
    }
  }

  lemma GenesisIsZeros()
    ensures |GENESIS| == 64 && forall c | c in GENESIS :: c == '0'
  {
    ZerosAreZeros(64);
  }

  /** An entry as the JSON parser returns it; a missing or non-string hash is `None`. */
  datatype Entry<B> = Entry(body: B, previousHash: Option<string>, hash: Option<string>)

  /** A line of a log: an object, some other JSON value, or text that is not JSON at all. */
  datatype Line<B> = Record(entry: Entry<B>) | OtherJson | NotJson

  /**
   `digest` is SHA-256 of the canonical JSON text of an entry without its own hash; `reload` is what
   becomes of a body that is written as JSON and parsed again.
   */
  datatype Codec<!B> = Codec(digest: (B, Option<string>) -> string, reload: B -> B)

  /** The verifier's answers. `Crashed` is the exception on a line whose JSON value is no object. */
  datatype Verdict = Intact | Broken | Crashed

  function CheckLine<B>(codec: Codec<B>, line: Line<B>, previous: string): Verdict {
    match line
    case NotJson => Broken
    case OtherJson => Crashed
    case Record(e) =>
      if e.previousHash == Some(previous) && e.hash == Some(codec.digest(e.body, e.previousHash)) then Intact
      else Broken
  }

  /** The hash that the next entry has to name. */
  function LastHash<B>(lines: seq<Line<B>>, start: string): string {
    if lines == [] then start
    else
      var last := lines[|lines| - 1];
      if last.Record? && last.entry.hash.Some? then last.entry.hash.value else []
  }

  function Check<B>(codec: Codec<B>, lines: seq<Line<B>>, previous: string): Verdict {
    if lines == [] then Intact
    else
      var first := CheckLine(codec, lines[0], previous);
      if first != Intact then first
      else Check(codec, lines[1..], lines[0].entry.hash.value)
  }

  predicate Accepts<B>(codec: Codec<B>, lines: seq<Line<B>>) {
    Check(codec, lines, GENESIS) == Intact
  }

  /** Checking a log with one more line. */
  lemma {:induction false} CheckGrows<B>(codec: Codec<B>, lines: seq<Line<B>>, line: Line<B>, previous: string)
    ensures Check(codec, lines + [line], previous) ==
            var before := Check(codec, lines, previous);
            if before != Intact then before else CheckLine(codec, line, LastHash(lines, previous))
  {
    if lines == [] {
      assert [line][1..] == [];
    } else if CheckLine(codec, lines[0], previous) == Intact {
      assert (lines + [line])[1..] == lines[1..] + [line];
      CheckGrows(codec, lines[1..], line, lines[0].entry.hash.value);
    }
  }

  /** A log with a line in it that is not accepted is never accepted again, whatever is appended. */
  lemma {:induction false} AcceptanceIsPrefixClosed<B>(codec: Codec<B>, lines: seq<Line<B>>, more: seq<Line<B>>)
    requires Accepts(codec, lines + more)
    ensures Accepts(codec, lines)
    decreases |more|
  {
    if more == [] {
      assert lines + more == lines;
    } else {
      assert lines + more == (lines + [more[0]]) + more[1..];
      AcceptanceIsPrefixClosed(codec, lines + [more[0]], more[1..]);
      CheckGrows(codec, lines, more[0], GENESIS);
    }
  }

  lemma Growth<B>(codec: Codec<B>, lines: seq<Line<B>>, line: Line<B>)
    ensures Accepts(codec, lines + [line]) <==>
            Accepts(codec, lines) && CheckLine(codec, line, LastHash(lines, GENESIS)) == Intact
  {
    CheckGrows(codec, lines, line, GENESIS);
  }

  // ---------- what is accepted ----------

  /** Line `k` is an entry that carries its own digest and names the hash of the line before, or the initial hash. */
  predicate ChainedAt<B>(codec: Codec<B>, lines: seq<Line<B>>, k: nat)
    requires k < |lines|
  {
    && lines[k].Record?
    && var e := lines[k].entry;
       && e.hash == Some(codec.digest(e.body, e.previousHash))
       && if k == 0 then e.previousHash == Some(GENESIS)
          else lines[k - 1].Record? && e.previousHash == lines[k - 1].entry.hash
  }

  lemma LineIsIntactExactlyWhenChained<B>(codec: Codec<B>, lines: seq<Line<B>>, k: nat)
    requires k < |lines| && (k > 0 ==> ChainedAt(codec, lines, k - 1))
    ensures CheckLine(codec, lines[k], LastHash(lines[..k], GENESIS)) ==
            if ChainedAt(codec, lines, k) then Intact else if lines[k].OtherJson? then Crashed else Broken
  {
    if k > 0 {
      assert lines[..k][k - 1] == lines[k - 1];
    }
  }

  lemma SplitsAt<T>(s: seq<T>, k: nat)
    requires k < |s|
    ensures s[..k] + [s[k]] == s[..k + 1] && (s[..k] + [s[k]]) + s[k + 1..] == s
  {}

  lemma {:induction false} ChainedUpTo<B>(codec: Codec<B>, lines: seq<Line<B>>, n: nat)
    requires n <= |lines|
    ensures Accepts(codec, lines[..n]) <==> forall k | 0 <= k < n :: ChainedAt(codec, lines, k)
    decreases n
  {
    if n > 0 {
      ChainedUpTo(codec, lines, n - 1);
      SplitsAt(lines, n - 1);
      Growth(codec, lines[..n - 1], lines[n - 1]);
      if n == 1 || ChainedAt(codec, lines, n - 2) {
        LineIsIntactExactlyWhenChained(codec, lines, n - 1);
      }
    }
  }

  /** The verifier accepts exactly the logs in which every line is so chained. */
  lemma AcceptedExactlyWhenChained<B>(codec: Codec<B>, lines: seq<Line<B>>)
    ensures Accepts(codec, lines) <==> forall k | 0 <= k < |lines| :: ChainedAt(codec, lines, k)
  {
    ChainedUpTo(codec, lines, |lines|);
    assert lines[..|lines|] == lines;
  }

  lemma {:induction false} CheckOfMore<B>(codec: Codec<B>, lines: seq<Line<B>>, more: seq<Line<B>>)
    requires Check(codec, lines, GENESIS) != Intact
    ensures Check(codec, lines + more, GENESIS) == Check(codec, lines, GENESIS)
    decreases |more|
  {
    if more == [] {
      assert lines + more == lines;
    } else {
      assert lines + more == (lines + [more[0]]) + more[1..];
      CheckGrows(codec, lines, more[0], GENESIS);
      CheckOfMore(codec, lines + [more[0]], more[1..]);
    }
  }

  /** The first line that is not decides the answer: an exception on a JSON value that is no object, otherwise no. */
  lemma FirstBadLineDecides<B>(codec: Codec<B>, lines: seq<Line<B>>, k: nat)
    requires k < |lines| && !ChainedAt(codec, lines, k) && forall j | 0 <= j < k :: ChainedAt(codec, lines, j)
    ensures Check(codec, lines, GENESIS) == if lines[k].OtherJson? then Crashed else Broken
  {
    ChainedUpTo(codec, lines, k);
    LineIsIntactExactlyWhenChained(codec, lines, k);
    CheckGrows(codec, lines[..k], lines[k], GENESIS);
    CheckOfMore(codec, lines[..k] + [lines[k]], lines[k + 1..]);
    SplitsAt(lines, k);
  }

  // ---------- binding ----------

  /** Two entries that differ before hashing but not after. */
  ghost predicate Collide<B>(codec: Codec<B>, x: Line<B>, y: Line<B>) {
    && x.Record? && y.Record?
    && (x.entry.body != y.entry.body || x.entry.previousHash != y.entry.previousHash)
    && codec.digest(x.entry.body, x.entry.previousHash) == codec.digest(y.entry.body, y.entry.previousHash)
  }

  /** An entry whose hash is the value that the chain starts from. */
  ghost predicate HashesToGenesis<B>(codec: Codec<B>, x: Line<B>) {
    x.Record? && codec.digest(x.entry.body, x.entry.previousHash) == GENESIS
  }

  ghost predicate BreaksTheHash<B>(codec: Codec<B>, a: seq<Line<B>>, b: seq<Line<B>>) {
    || (exists x, y :: x in a && y in b && Collide(codec, x, y))
    || (exists x :: x in a + b && HashesToGenesis(codec, x))
  }

  /** The last line of an accepted log is a record that names the hash before it and carries its own. */
  lemma LastLine<B>(codec: Codec<B>, lines: seq<Line<B>>)
    requires Accepts(codec, lines) && lines != []
    ensures var before, last := lines[..|lines| - 1], lines[|lines| - 1];
            && Accepts(codec, before)
            && last.Record?
            && last.entry.previousHash == Some(LastHash(before, GENESIS))
            && last.entry.hash == Some(LastHash(lines, GENESIS))
            && LastHash(lines, GENESIS) == codec.digest(last.entry.body, last.entry.previousHash)
  {
    var before, last := lines[..|lines| - 1], lines[|lines| - 1];
    assert lines == before + [last];
    Growth(codec, before, last);
  }

  lemma SameLastLine<B>(codec: Codec<B>, a: seq<Line<B>>, b: seq<Line<B>>)
    requires Accepts(codec, a) && Accepts(codec, b) && LastHash(a, GENESIS) == LastHash(b, GENESIS)
    requires a != [] && b != []
    ensures BreaksTheHash(codec, a, b) ||
            var m, n := |a| - 1, |b| - 1;
            && a[m] == b[n]
            && Accepts(codec, a[..m]) && Accepts(codec, b[..n])
            && LastHash(a[..m], GENESIS) == LastHash(b[..n], GENESIS)
  {
    var x, y := a[|a| - 1], b[|b| - 1];
    LastLine(codec, a);
    LastLine(codec, b);
    if x != y {
      assert x in a && y in b && Collide(codec, x, y);
    }
  }

  lemma SameParts<T>(a: seq<T>, b: seq<T>)
    requires a != [] && b != []
    requires a[..|a| - 1] == b[..|b| - 1] && a[|a| - 1] == b[|b| - 1]
    ensures a == b
  {
    assert a == a[..|a| - 1] + [a[|a| - 1]] && b == b[..|b| - 1] + [b[|b| - 1]];
  }

  /**
   Binding: two accepted logs with the same last hash are equal entry by entry, or they contain two
   entries on which the hash function collides, or an entry that it takes to the initial hash.
   */
  lemma {:induction false} SameLastHashSameLog<B>(codec: Codec<B>, a: seq<Line<B>>, b: seq<Line<B>>)
    requires Accepts(codec, a) && Accepts(codec, b) && LastHash(a, GENESIS) == LastHash(b, GENESIS)
    ensures a == b || BreaksTheHash(codec, a, b)
    decreases |a|
  {
    if a == [] || b == [] {
      OneIsEmpty(codec, a, b);
    } else {
      var m, n := |a| - 1, |b| - 1;
      SameLastLine(codec, a, b);
      if !BreaksTheHash(codec, a, b) {
        SameLastHashSameLog(codec, a[..m], b[..n]);
        if a[..m] == b[..n] {
          SameParts(a, b);
        } else {
          BreakIsKept(codec, a[..m], b[..n], a, b);
        }
      }
    }
  }

  lemma OneIsEmpty<B>(codec: Codec<B>, a: seq<Line<B>>, b: seq<Line<B>>)
    requires Accepts(codec, a) && Accepts(codec, b) && LastHash(a, GENESIS) == LastHash(b, GENESIS)
    requires a == [] || b == []
    ensures a == b || BreaksTheHash(codec, a, b)
  {
    if a != b {
      var c := a + b;
      assert c == if a == [] then b else a;
      LastLine(codec, c);
      assert c[|c| - 1] in c && HashesToGenesis(codec, c[|c| - 1]);
    }
  }

  lemma BreakIsKept<B>(codec: Codec<B>, a: seq<Line<B>>, b: seq<Line<B>>, c: seq<Line<B>>, d: seq<Line<B>>)
    requires a <= c && b <= d && BreaksTheHash(codec, a, b)
    ensures BreaksTheHash(codec, c, d)
  {}

  // ---------- the logger ----------

  /** The log file of a logger and the hash it keeps in memory. */
  datatype State<B> = State(file: seq<Line<B>>, lastHash: string)

  function RecordOf<B>(codec: Codec<B>, body: B, previous: string): Line<B> {
    Record(Entry(codec.reload(body), Some(previous), Some(codec.digest(body, Some(previous)))))
  }

  function Logged<B>(codec: Codec<B>, s: State<B>, body: B): State<B> {
    State(s.file + [RecordOf(codec, body, s.lastHash)], codec.digest(body, Some(s.lastHash)))
  }

  /** Verification writes its complaint, which is not JSON, to the logger's own log. */
  function Verified<B>(codec: Codec<B>, s: State<B>, target: Option<seq<Line<B>>>): State<B> {
    if target.Some? && Check(codec, target.value, GENESIS) == Broken then s.(file := s.file + [NotJson]) else s
  }

  datatype Answer = True | False | ValueError | AttributeError

  class SecurityAuditLogger<B> {
    const codec: Codec<B>
    const enableHashChain: bool
    var file: seq<Line<B>>
    var lastHash: string

    ghost function Current(): State<B>
      reads this
    {
      State(file, lastHash)
    }

    /** Opens a log file in append mode and announces itself in it; the chain starts afresh. */
    constructor (codec: Codec<B>, enableHashChain: bool, existing: seq<Line<B>>, startup: B)
      ensures this.codec == codec && this.enableHashChain == enableHashChain
      ensures enableHashChain ==> Current() == Logged(codec, State(existing, GENESIS), startup)
      ensures !enableHashChain ==>
                Current() == State(existing + [Record(Entry(codec.reload(startup), None, None))], GENESIS)
    {
      this.codec := codec;
      this.enableHashChain := enableHashChain;
      file := existing;
      lastHash := GENESIS;
      new;
      LogEvent(startup);
    }

    method LogEvent(body: B)
      modifies this
      ensures enableHashChain ==> Current() == Logged(codec, old(Current()), body)
      ensures !enableHashChain ==>
                Current() == State(old(file) + [Record(Entry(codec.reload(body), None, None))], old(lastHash))
    {
      if enableHashChain {
        var previous := lastHash;
        var current := codec.digest(body, Some(previous));
        lastHash := current;
        file := file + [Record(Entry(codec.reload(body), Some(previous), Some(current)))];
      } else {
        file := file + [Record(Entry(codec.reload(body), None, None))];
      }
    }

    /** `target` is the content of the file to verify, if it exists; for the logger's own log, `Some(file)`. */
    method VerifyIntegrity(target: Option<seq<Line<B>>>) returns (answer: Answer)
      modifies `file
      ensures !enableHashChain ==> answer == ValueError && Current() == old(Current())
      ensures enableHashChain ==> Current() == Verified(codec, old(Current()), target)
      ensures enableHashChain ==>
                answer == if target.None? then False
                          else match Check(codec, target.value, GENESIS)
                               case Intact => True
                               case Broken => False
                               case Crashed => AttributeError
    {
      if !enableHashChain {
        return ValueError;
      }
      if target.None? {
        return False;
      }
      var lines := target.value;
      var previous := GENESIS;
      var i := 0;
      while i < |lines|
        invariant 0 <= i <= |lines|
        invariant Check(codec, lines, GENESIS) == Check(codec, lines[i..], previous)
        invariant Current() == old(Current())
      {
        assert lines[i..][1..] == lines[i + 1..];
        match lines[i]
        case NotJson =>
          file := file + [NotJson];
          return False;
        case OtherJson =>
          return AttributeError;
        case Record(entry) =>
          if entry.previousHash != Some(previous) {
            file := file + [NotJson];
            return False;
          }
          var computed := codec.digest(entry.body, entry.previousHash);
          if entry.hash != Some(computed) {
            file := file + [NotJson];
            return False;
          }
          previous := computed;
          i := i + 1;
      }
      return True;
    }
  }

  // ---------- runs of one logger ----------

  /** A body whose digest is the same after it has been written and parsed again. */
  predicate SurvivesReload<B>(codec: Codec<B>, body: B, previous: string) {
    codec.digest(codec.reload(body), Some(previous)) == codec.digest(body, Some(previous))
  }

  datatype Operation<B> = LogEvent(body: B) | VerifyOwn | VerifyOther(target: Option<seq<Line<B>>>)

  function Step<B>(codec: Codec<B>, s: State<B>, op: Operation<B>): State<B> {
    match op
    case LogEvent(body) => Logged(codec, s, body)
    case VerifyOwn => Verified(codec, s, Some(s.file))
    case VerifyOther(target) => Verified(codec, s, target)
  }

  function Run<B>(codec: Codec<B>, s: State<B>, ops: seq<Operation<B>>): State<B>
    decreases |ops|
  {
    if ops == [] then s else Run(codec, Step(codec, s, ops[0]), ops[1..])
  }

  /**
   An operation that leaves an accepted log accepted: it neither logs a body that reads back differently nor
   complains.
   */
  predicate IsHarmless<B>(codec: Codec<B>, s: State<B>, op: Operation<B>) {
    match op
    case LogEvent(body) => SurvivesReload(codec, body, s.lastHash)
    case VerifyOwn => true
    case VerifyOther(target) => target.None? || Check(codec, target.value, GENESIS) != Broken
  }

  predicate AllHarmless<B>(codec: Codec<B>, s: State<B>, ops: seq<Operation<B>>)
    decreases |ops|
  {
    ops == [] || (IsHarmless(codec, s, ops[0]) && AllHarmless(codec, Step(codec, s, ops[0]), ops[1..]))
  }

  /** The file is accepted and ends in the hash that the logger remembers. */
  predicate InStep<B>(codec: Codec<B>, s: State<B>) {
    Accepts(codec, s.file) && LastHash(s.file, GENESIS) == s.lastHash
  }

  lemma StepKeepsTheChain<B>(codec: Codec<B>, s: State<B>, op: Operation<B>)
    requires InStep(codec, s)
    ensures IsHarmless(codec, s, op) ==> InStep(codec, Step(codec, s, op))
    ensures !IsHarmless(codec, s, op) ==> !Accepts(codec, Step(codec, s, op).file)
  {
    match op
    case LogEvent(body) => Growth(codec, s.file, RecordOf(codec, body, s.lastHash));
    case VerifyOwn =>
    case VerifyOther(_) => Growth(codec, s.file, NotJson);
  }

  lemma {:induction false} BrokenStaysBroken<B>(codec: Codec<B>, s: State<B>, ops: seq<Operation<B>>)
    requires !Accepts(codec, s.file)
    ensures !Accepts(codec, Run(codec, s, ops).file)
    decreases |ops|
  {
    if ops != [] {
      var t := Step(codec, s, ops[0]);
      if Accepts(codec, t.file) {
        assert t.file == s.file + t.file[|s.file|..];
        AcceptanceIsPrefixClosed(codec, s.file, t.file[|s.file|..]);
      }
      BrokenStaysBroken(codec, t, ops[1..]);
    }
  }

  lemma {:induction false} RunIsAcceptedExactlyWhenHarmless<B>(codec: Codec<B>, s: State<B>, ops: seq<Operation<B>>)
    requires InStep(codec, s)
    ensures Accepts(codec, Run(codec, s, ops).file) <==> AllHarmless(codec, s, ops)
    ensures AllHarmless(codec, s, ops) ==> InStep(codec, Run(codec, s, ops))
    decreases |ops|
  {
    if ops != [] {
      StepKeepsTheChain(codec, s, ops[0]);
      if IsHarmless(codec, s, ops[0]) {
        RunIsAcceptedExactlyWhenHarmless(codec, Step(codec, s, ops[0]), ops[1..]);
      } else {
        BrokenStaysBroken(codec, Step(codec, s, ops[0]), ops[1..]);
      }
    }
  }

  /** The bodies of the entries in a log, in order. */
  function Bodies<B>(lines: seq<Line<B>>): seq<B> {
    if lines == [] then []
    else
      var last := lines[|lines| - 1];
      Bodies(lines[..|lines| - 1]) + (if last.Record? then [last.entry.body] else [])
  }

  /** The body that an operation logs, as it reads back. */
  function ReadBackOf<B>(codec: Codec<B>, op: Operation<B>): seq<B> {
    if op.LogEvent? then [codec.reload(op.body)] else []
  }

  function ReadBack<B>(codec: Codec<B>, ops: seq<Operation<B>>): seq<B> {
    if ops == [] then [] else ReadBackOf(codec, ops[0]) + ReadBack(codec, ops[1..])
  }

  lemma OneMoreLine<B>(lines: seq<Line<B>>, line: Line<B>)
    ensures Bodies(lines + [line]) == Bodies(lines) + (if line.Record? then [line.entry.body] else [])
  {
    assert (lines + [line])[..|lines|] == lines;
  }

  lemma StepLogs<B>(codec: Codec<B>, s: State<B>, op: Operation<B>)
    ensures Bodies(Step(codec, s, op).file) == Bodies(s.file) + ReadBackOf(codec, op)
  {
    OneMoreLine(s.file, NotJson);
    if op.LogEvent? {
      OneMoreLine(s.file, RecordOf(codec, op.body, s.lastHash));
    }
  }

  /** Nothing that is logged is lost or moved, and no other entry is in the log. */
  lemma {:induction false} LogHoldsWhatWasLogged<B>(codec: Codec<B>, s: State<B>, ops: seq<Operation<B>>)
    ensures Bodies(Run(codec, s, ops).file) == Bodies(s.file) + ReadBack(codec, ops)
    decreases |ops|
  {
    if ops != [] {
      StepLogs(codec, s, ops[0]);
      LogHoldsWhatWasLogged(codec, Step(codec, s, ops[0]), ops[1..]);
    }
  }

  function Fresh<B>(): State<B> {
    State([], GENESIS)
  }

  /** Every log that one logger writes to a fresh file passes, exactly when none of its operations does harm. */
  lemma FreshLogPasses<B>(codec: Codec<B>, startup: B, ops: seq<Operation<B>>)
    ensures var all := [LogEvent(startup)] + ops;
            Accepts(codec, Run(codec, Fresh(), all).file) <==> AllHarmless(codec, Fresh(), all)
  {
    RunIsAcceptedExactlyWhenHarmless(codec, Fresh(), [LogEvent(startup)] + ops);
  }

  /**
   A logger that reopens a log writes its first entry with the initial hash, so the log passes only if that is its
   last hash.
   */
  lemma ReopenedLogPassesExactlyWhen<B>(codec: Codec<B>, existing: seq<Line<B>>, startup: B)
    ensures Accepts(codec, Logged(codec, State(existing, GENESIS), startup).file) <==>
            && Accepts(codec, existing)
            && LastHash(existing, GENESIS) == GENESIS
            && SurvivesReload(codec, startup, GENESIS)
  {
    Growth(codec, existing, RecordOf(codec, startup, GENESIS));
  }

  /** A restart breaks every accepted log that is not empty, unless the hash function hits its own initial value. */
  lemma RestartBreaksTheLog<B>(codec: Codec<B>, existing: seq<Line<B>>, startup: B)
    requires Accepts(codec, existing) && existing != []
    requires forall x | x in existing :: !HashesToGenesis(codec, x)
    ensures !Accepts(codec, Logged(codec, State(existing, GENESIS), startup).file)
  {
    ReopenedLogPassesExactlyWhen(codec, existing, startup);
    LastLine(codec, existing);
    assert existing[|existing| - 1] in existing;
  }

  /**
   Tamper evidence: whoever replaces the log of a harmless run by another that is accepted and ends in the
   hash that the logger remembers has changed nothing, or has broken the hash.
   */
  lemma ReplacedLogIsTheSame<B>(codec: Codec<B>, ops: seq<Operation<B>>, other: seq<Line<B>>)
    requires AllHarmless(codec, Fresh(), ops)
    requires Accepts(codec, other) && LastHash(other, GENESIS) == Run(codec, Fresh(), ops).lastHash
    ensures other == Run(codec, Fresh(), ops).file || BreaksTheHash(codec, other, Run(codec, Fresh(), ops).file)
  {
    RunIsAcceptedExactlyWhenHarmless(codec, Fresh(), ops);
    SameLastHashSameLog(codec, other, Run(codec, Fresh(), ops).file);
  }

  /** The verifier does not make that comparison: it accepts every log cut short, the empty one included. */
  lemma TruncationIsAccepted<B>(codec: Codec<B>, lines: seq<Line<B>>, n: nat)
    requires Accepts(codec, lines) && n <= |lines|
    ensures Accepts(codec, lines[..n])
  {
    assert lines == lines[..n] + lines[n..];
    AcceptanceIsPrefixClosed(codec, lines[..n], lines[n..]);
  }
}
