/** Splitting a manifest into chunks and parsing each chunk into statements:
    the split is invisible in the result. */
module ChunkParser {
  import opened Lexer

  datatype StatementType =
    | NoStatement | VarDecl | Pool | PoolVar | Rule | RuleVar
    | Build | BuildVar | Default | Include | Subninja

  /** A statement: start, position after the keyword or of '=', and end. */
  datatype Statement = Statement(t: StatementType, s: nat, v: nat, e: nat)

  datatype Counts = Counts(nvar: nat, nrule: nat, nrulevar: nat, nbuild: nat, nbuildvar: nat, npool: nat,
                           npoolvar: nat, ndefault: nat, ninclude: nat, nsubninja: nat, ncomment: nat)

  const NO_COUNTS := Counts(0, 0, 0, 0, 0, 0, 0, 0, 0, 0, 0)

  function AddCounts(a: Counts, b: Counts): Counts {
    Counts(a.nvar + b.nvar, a.nrule + b.nrule, a.nrulevar + b.nrulevar, a.nbuild + b.nbuild,
           a.nbuildvar + b.nbuildvar, a.npool + b.npool, a.npoolvar + b.npoolvar, a.ndefault + b.ndefault,
           a.ninclude + b.ninclude, a.nsubninja + b.nsubninja, a.ncomment + b.ncomment)
  }

  /** The counter of a keyword statement. */
  function CountOf(t: StatementType): Counts {
    match t
    case Build => NO_COUNTS.(nbuild := 1)
    case Default => NO_COUNTS.(ndefault := 1)
    case Include => NO_COUNTS.(ninclude := 1)
    case Pool => NO_COUNTS.(npool := 1)
    case Rule => NO_COUNTS.(nrule := 1)
    case Subninja => NO_COUNTS.(nsubninja := 1)
    case VarDecl => NO_COUNTS.(nvar := 1)
    case BuildVar => NO_COUNTS.(nbuildvar := 1)
    case PoolVar => NO_COUNTS.(npoolvar := 1)
    case RuleVar => NO_COUNTS.(nrulevar := 1)
    case NoStatement => NO_COUNTS
  }

  /** The binding kind an indented line has after a statement of kind `last`. */
  function BindingType(last: StatementType): StatementType {
    match last
    case Build => BuildVar
    case Pool => PoolVar
    case Rule => RuleVar
    case _ => NoStatement
  }

  datatype Failure =
    | UnexpectedIndent(at: nat)
    | WrongVarBinding(at: nat)
    | WrongVarDecl(at: nat)
    | OutOfRange(at: nat)  // the keyword ends the buffer: Go indexes past it
    | NoProgress(at: nat)  // a comment without a newline: the loop stays there

  /** One turn of the parser at `i`, after a statement of kind `last`. */
  datatype Step = Fail(why: Failure) | Advance(next: nat, stmts: seq<Statement>, last: StatementType, counts: Counts)

  datatype Keyword = NoKeyword | Truncated | Keyword(t: StatementType, v: nat)

  /** `isStatement`. */
  function IsStatement(buf: string, i: nat, name: string, t: StatementType): Keyword
    requires i <= |buf|
  {
    if !(name <= buf[i..]) then NoKeyword
    else if i + |name| == |buf| then Truncated
    else if buf[i + |name|] == ' ' || buf[i + |name|] == '\t' then Keyword(t, i + |name| + 1)
    else NoKeyword
  }

  /** The switch on the first byte. */
  function KeywordAt(buf: string, i: nat): Keyword
    requires i < |buf|
  {
    match buf[i]
    case 'b' => IsStatement(buf, i, "build", Build)
    case 'd' => IsStatement(buf, i, "default", Default)
    case 'i' => IsStatement(buf, i, "include", Include)
    case 'p' => IsStatement(buf, i, "pool", Pool)
    case 'r' => IsStatement(buf, i, "rule", Rule)
    case 's' => IsStatement(buf, i, "subninja", Subninja)
    case _ => NoKeyword
  }

  function IndentedStep(buf: string, i: nat, last: StatementType): Step
    requires i < |buf|
  {
    var e := NextLine(buf, i);
    var t := BindingType(last);
    if t == NoStatement then Fail(UnexpectedIndent(i))
    else
      var v := IndexByte(buf, i, '=');
      if v < e then
        Advance(e, [Statement(t, i, v, e)], last, AddCounts(CountOf(t), CountOf(VarDecl)))
      else
        var j := SkipSpaces(buf, i, e);
        if j == e || buf[j] == '#' then Advance(e, [], last, CountOf(t))
        else Fail(WrongVarBinding(i))
  }

  function StatementStep(buf: string, i: nat): Step
    requires i < |buf|
  {
    match KeywordAt(buf, i)
    case Truncated => Fail(OutOfRange(i))
    case Keyword(t, v) =>
      var e := NextLine(buf, i);
      Advance(e, [Statement(t, i, v, e)], t, CountOf(t))
    case NoKeyword =>
      var e := NextLine(buf, i);
      var v := IndexByte(buf, i, '=');  // anywhere in the rest of the file
      if v == |buf| then Fail(WrongVarDecl(i))
      else Advance(e, [Statement(VarDecl, i, v, e)], VarDecl, CountOf(VarDecl))
  }

  function ParseStep(buf: string, i: nat, last: StatementType): (step: Step)
    requires i < |buf|
    ensures step.Advance? ==> i < step.next <= |buf|
  {
    if buf[i] == '\n' || buf[i] == '\r' then Advance(i + 1, [], last, NO_COUNTS)
    else if buf[i] == '#' then
      var nl := IndexByte(buf, i + 1, '\n');
      if nl == |buf| then Fail(NoProgress(i)) else Advance(nl, [], last, NO_COUNTS.(ncomment := 1))
    else if buf[i] == ' ' || buf[i] == '\t' then IndentedStep(buf, i, last)
    else StatementStep(buf, i)
  }

  datatype Parse = Parsed(stmts: seq<Statement>, counts: Counts) | Failed(why: Failure)

  const NOTHING := Parsed([], NO_COUNTS)

  /** The result of parsing one stretch and then another: lists concatenated and
      counters summed, or the first failure. */
  function Then(first: Parse, second: Parse): Parse {
    if first.Failed? then first
    else if second.Failed? then second
    else Parsed(first.stmts + second.stmts, AddCounts(first.counts, second.counts))
  }

  /** `parseChunk` on `buf[i:end]`, entered after a statement of kind `last`. */
  function ParseFrom(buf: string, i: nat, end: nat, last: StatementType): Parse
    decreases |buf| - i
  {
    if i >= |buf| || i >= end then NOTHING
    else
      match ParseStep(buf, i, last)
      case Fail(why) => Failed(why)
      case Advance(next, stmts, last', counts) => Then(Parsed(stmts, counts), ParseFrom(buf, next, end, last'))
  }

  /** A chunk of the file and what parsing it accumulates. */
  class Chunk {
    const buf: string
    const start: nat
    const end: nat
    var statements: seq<Statement>
    var counts: Counts

    constructor (buf: string, start: nat, end: nat)
      ensures this.buf == buf && this.start == start && this.end == end
      ensures statements == [] && counts == NO_COUNTS
    {
      this.buf, this.start, this.end := buf, start, end;
      statements, counts := [], NO_COUNTS;
    }

    method Add(t: StatementType, s: nat, v: nat, e: nat)
      modifies this`statements
      ensures statements == old(statements) + [Statement(t, s, v, e)]
    {
      statements := statements + [Statement(t, s, v, e)];
    }

    method Count(c: Counts)
      modifies this`counts
      ensures counts == AddCounts(old(counts), c)
    {
      counts := AddCounts(counts, c);
    }

    /** The method's effect agrees with `step`. */
    twostate predicate Did(step: Step, next: nat, failure: seq<Failure>)
      reads this
    {
      match step
      case Fail(why) => failure == [why]
      case Advance(next', stmts, _, counts') =>
        && failure == [] && next == next'
        && statements == old(statements) + stmts
        && counts == AddCounts(old(counts), counts')
    }

    /** An indented line: a binding, or a blank or comment line. */
    method Indented(i: nat, lastStatement: StatementType) returns (next: nat, failure: seq<Failure>)
      requires i < |buf|
      modifies this
      ensures Did(IndentedStep(buf, i, lastStatement), next, failure)
      ensures failure == [] ==> IndentedStep(buf, i, lastStatement).last == lastStatement
    {
      hide AddCounts, CountOf, SkipSpaces, NextLine;
      next := FindNextLine(buf, i);
      failure := [];
      var st := BindingType(lastStatement);
      if st == NoStatement {
        return next, [UnexpectedIndent(i)];
      }
      Count(CountOf(st));
      var v := IndexByte(buf, i, '=');
      if v >= next {
        var j := SkipSpacesLoop(buf, i, next);
        if j == next || buf[j] == '#' {
          // ignore empty line or comment line
          return;
        }
        return next, [WrongVarBinding(i)];
      }
      Add(st, i, v, next);
      Count(CountOf(VarDecl));
      AddCountsAssoc(old(counts), CountOf(st), CountOf(VarDecl));
    }

    /** An unindented line: a keyword statement or a variable declaration. */
    method Unindented(i: nat, lastStatement: StatementType)
      returns (next: nat, last: StatementType, failure: seq<Failure>)
      requires i < |buf|
      modifies this
      ensures Did(StatementStep(buf, i), next, failure)
      ensures failure == [] ==> last == StatementStep(buf, i).last
    {
      hide AddCounts, CountOf, KeywordAt, NextLine;
      next, last, failure := i, lastStatement, [];
      var keyword := KeywordAt(buf, i);
      if keyword.Truncated? {
        failure := [OutOfRange(i)];
        return;
      }
      next := FindNextLine(buf, i);
      if keyword.Keyword? {
        Add(keyword.t, i, keyword.v, next);
        last := keyword.t;
        Count(CountOf(keyword.t));
        return;
      }
      var v := IndexByte(buf, i, '=');
      if v == |buf| {
        failure := [WrongVarDecl(i)];
        return;
      }
      Add(VarDecl, i, v, next);
      last := VarDecl;
      Count(CountOf(VarDecl));
    }

    /** `parseChunk`. Where Go would stop on an index out of range, or stay on
        the same byte for ever, the outcome says so. */
    method ParseChunk() returns (failure: seq<Failure>)
      requires counts == NO_COUNTS
      modifies this
      ensures ParseFrom(buf, start, end, NoStatement) ==
              if failure == [] then Parsed(statements, counts) else Failed(failure[0])
    {
      hide AddCounts, Then, IndentedStep, StatementStep;
      statements, failure := [], [];
      var lastStatement := NoStatement;
      var i := start;
      ghost var whole := ParseFrom(buf, start, end, NoStatement);
      ThenNothing(whole);
      while i < |buf| && i < end
        invariant failure == []
        invariant whole == Then(Parsed(statements, counts), ParseFrom(buf, i, end, lastStatement))
        decreases |buf| - i
      {
        ThenStep(Parsed(statements, counts), buf, i, end, lastStatement);
        var next;
        if buf[i] == '\n' || buf[i] == '\r' {
          next := i + 1;
        } else if buf[i] == '#' {
          next := IndexByte(buf, i + 1, '\n');
          if next == |buf| {
            return [NoProgress(i)];
          }
          Count(NO_COUNTS.(ncomment := 1));
        } else if buf[i] == ' ' || buf[i] == '\t' {
          next, failure := Indented(i, lastStatement);
        } else {
          next, lastStatement, failure := Unindented(i, lastStatement);
        }
        if failure != [] {
          return;
        }
        i := next;
      }
      ThenNothing(Parsed(statements, counts));
    }
  }

  lemma AddCountsAssoc(a: Counts, b: Counts, c: Counts)
    ensures AddCounts(AddCounts(a, b), c) == AddCounts(a, AddCounts(b, c))
  {
  }

  /** The accumulated result, after one more step. */
  lemma ThenStep(acc: Parse, buf: string, i: nat, end: nat, last: StatementType)
    requires acc.Parsed? && i < |buf| && i < end
    ensures var step := ParseStep(buf, i, last);
            var rest := Then(acc, ParseFrom(buf, i, end, last));
            match step
            case Fail(why) => rest == Failed(why)
            case Advance(next, stmts, last', counts) =>
              && (stmts == [] && counts == NO_COUNTS ==> rest == Then(acc, ParseFrom(buf, next, end, last')))
              && rest == Then(Parsed(acc.stmts + stmts, AddCounts(acc.counts, counts)),
                        ParseFrom(buf, next, end, last'))
              && (stmts == [] ==> acc.stmts + stmts == acc.stmts)
  {
    hide ParseStep, AddCounts;
    var step := ParseStep(buf, i, last);
    if step.Advance? {
      ThenAssoc(acc, Parsed(step.stmts, step.counts), ParseFrom(buf, step.next, end, step.last));
      if step.stmts == [] && step.counts == NO_COUNTS {
        ThenNothing(acc);
      }
    }
  }

  lemma ThenAssoc(a: Parse, b: Parse, c: Parse)
    ensures Then(a, Then(b, c)) == Then(Then(a, b), c)
  {
    if a.Parsed? && b.Parsed? && c.Parsed? {
      assert a.stmts + (b.stmts + c.stmts) == (a.stmts + b.stmts) + c.stmts;
    }
  }

  lemma ThenNothing(p: Parse)
    ensures Then(NOTHING, p) == p == Then(p, NOTHING)
  {
    assert p.Parsed? ==> [] + p.stmts == p.stmts == p.stmts + [];
  }

  // --------------------------------------------------------------- splitting

  /** `nextChunk`'s own test that the newline before `c` is escaped. */
  predicate EscapedBefore(buf: string, c: nat)
    requires c <= |buf|
  {
    || (c >= 2 && buf[c - 2] == '$')
    || (c >= 3 && buf[c - 3] == '$' && buf[c - 2] == '\r')
  }

  predicate IsCut(buf: string, c: nat) {
    || c == |buf|
    || (&& 1 <= c < |buf|
        && buf[c - 1] == '\n'
        && !EscapedBefore(buf, c)
        && !IsWhitespace(buf[c]) && buf[c] != '#')
  }

  method NextChunk(buf: string, i: nat) returns (c: nat)
    requires i < |buf|
    ensures i < c <= |buf| && IsCut(buf, c)
    ensures forall k :: i < k < c && buf[k - 1] == '\n' ==> !IsCut(buf, k)
  {
    c := i;
    while true
      invariant i <= c <= |buf|
      invariant forall k :: i < k <= c && k < |buf| && buf[k - 1] == '\n' ==> !IsCut(buf, k)
      decreases |buf| - c
    {
      var nl := IndexByte(buf, c, '\n');
      if nl == |buf| {
        return |buf|;
      }
      c := nl + 1;
      if c >= 2 && buf[c - 2] == '$' {
        continue;
      }
      if c >= 3 && buf[c - 3] == '$' && buf[c - 2] == '\r' {
        continue;
      }
      if c >= |buf| {
        return |buf|;
      }
      if buf[c] == ' ' || buf[c] == '\t' || buf[c] == '#' || buf[c] == '\r' || buf[c] == '\n' {
        continue;
      }
      return;
    }
  }

  datatype Bounds = Bounds(start: nat, end: nat)

  /** The chunks tile `buf[from:]`, and every boundary is a cut. */
  predicate Tiles(buf: string, from: nat, chunks: seq<Bounds>)
    decreases |chunks|
  {
    if chunks == [] then from == |buf|
    else
      && chunks[0].start == from < chunks[0].end
      && IsCut(buf, chunks[0].end)
      && Tiles(buf, chunks[0].end, chunks[1..])
  }

  lemma {:induction false} TilesSnoc(buf: string, from: nat, chunks: seq<Bounds>, upTo: nat, end: nat)
    requires TilesUpTo(buf, from, chunks, upTo) && upTo < end && IsCut(buf, end)
    ensures TilesUpTo(buf, from, chunks + [Bounds(upTo, end)], end)
    decreases |chunks|
  {
    var more := chunks + [Bounds(upTo, end)];
    if chunks != [] {
      TilesSnoc(buf, chunks[0].end, chunks[1..], upTo, end);
      assert more[1..] == chunks[1..] + [Bounds(upTo, end)];
    }
  }

  predicate TilesUpTo(buf: string, from: nat, chunks: seq<Bounds>, upTo: nat)
    decreases |chunks|
  {
    if chunks == [] then from == upTo
    else
      && chunks[0].start == from < chunks[0].end
      && IsCut(buf, chunks[0].end)
      && TilesUpTo(buf, chunks[0].end, chunks[1..], upTo)
  }

  lemma {:induction false} TilesAll(buf: string, from: nat, chunks: seq<Bounds>)
    requires TilesUpTo(buf, from, chunks, |buf|)
    ensures Tiles(buf, from, chunks)
    decreases |chunks|
  {
    if chunks != [] {
      TilesAll(buf, chunks[0].end, chunks[1..]);
    }
  }

  /** `splitIntoChunks`, for any chunk size. */
  method SplitIntoChunks(buf: string, chunkSize: nat) returns (chunks: seq<Bounds>)
    requires chunkSize > 0
    ensures Tiles(buf, 0, chunks)
  {
    chunks := [];
    var start := 0;
    while start < |buf|
      invariant start <= |buf|
      invariant TilesUpTo(buf, 0, chunks, start)
    {
      var next := if start + chunkSize < |buf| then start + chunkSize else |buf|;
      if next < |buf| {
        next := NextChunk(buf, next);
      }
      TilesSnoc(buf, 0, chunks, start, next);
      chunks := chunks + [Bounds(start, next)];
      start := next;
    }
    TilesAll(buf, 0, chunks);
  }

  // ------------------------------------------------- the cut is invisible

  /** No logical line reaches over a cut. */
  lemma {:induction false} NextLineStops(buf: string, s: nat, c: nat)
    requires s < c <= |buf| && IsCut(buf, c)
    ensures NextLine(buf, s) <= c
    decreases c - s
  {
    var nl := IndexByte(buf, s, '\n');
    if c < |buf| {
      assert nl <= c - 1;
      if EscapedFrom(buf, s, nl) {
        assert nl != c - 1;
        NextLineStops(buf, nl + 1, c);
      }
    }
  }

  /** No step reaches over a cut. */
  lemma StepStops(buf: string, i: nat, last: StatementType, c: nat)
    requires i < c <= |buf| && IsCut(buf, c)
    ensures var step := ParseStep(buf, i, last); step.Advance? ==> step.next <= c
  {
    NextLineStops(buf, i, c);
  }

  /** At a cut the parser does not depend on what came before. */
  lemma FreshStart(buf: string, c: nat, end: nat, last: StatementType)
    requires IsCut(buf, c)
    ensures ParseFrom(buf, c, end, last) == ParseFrom(buf, c, end, NoStatement)
  {
    if c < |buf| && c < end {
      assert ParseStep(buf, c, last) == ParseStep(buf, c, NoStatement) == StatementStep(buf, c);
    }
  }

  /** Parsing over a cut is parsing up to it and then from it afresh. */
  lemma {:induction false} ParseSplits(buf: string, i: nat, c: nat, end: nat, last: StatementType)
    requires i <= c <= end && c <= |buf| && IsCut(buf, c)
    ensures ParseFrom(buf, i, end, last) ==
            Then(ParseFrom(buf, i, c, last), ParseFrom(buf, c, end, NoStatement))
    decreases |buf| - i
  {
    hide ParseStep, AddCounts, IsCut;
    if i == c {
      FreshStart(buf, c, end, last);
      ThenNothing(ParseFrom(buf, c, end, NoStatement));
    } else {
      StepStops(buf, i, last, c);
      var step := ParseStep(buf, i, last);
      if step.Advance? {
        ParseSplits(buf, step.next, c, end, step.last);
        ThenAssoc(Parsed(step.stmts, step.counts), ParseFrom(buf, step.next, c, step.last),
                  ParseFrom(buf, c, end, NoStatement));
      }
    }
  }

  /** The results of the chunks, each parsed on its own, put together in order. */
  function ParseChunks(buf: string, chunks: seq<Bounds>): Parse {
    if chunks == [] then NOTHING
    else Then(ParseFrom(buf, chunks[0].start, chunks[0].end, NoStatement), ParseChunks(buf, chunks[1..]))
  }

  lemma {:induction false} CutInvisibleFrom(buf: string, from: nat, chunks: seq<Bounds>)
    requires Tiles(buf, from, chunks) && from <= |buf|
    ensures ParseChunks(buf, chunks) == ParseFrom(buf, from, |buf|, NoStatement)
    decreases |chunks|
  {
    if chunks != [] {
      CutInvisibleFrom(buf, chunks[0].end, chunks[1..]);
      ParseSplits(buf, from, chunks[0].end, |buf|, NoStatement);
    }
  }

  /** Every buffer, every tiling by cuts: the chunks parsed apart give exactly
      the sequential statements, counters and first failure. */
  lemma CutInvisible(buf: string, chunks: seq<Bounds>)
    requires Tiles(buf, 0, chunks)
    ensures ParseChunks(buf, chunks) == ParseFrom(buf, 0, |buf|, NoStatement)
  {
    CutInvisibleFrom(buf, 0, chunks);
  }

  /** All chunks parse iff the whole file does. */
  lemma {:induction false} AllParse(buf: string, chunks: seq<Bounds>)
    ensures ParseChunks(buf, chunks).Parsed? <==>
              forall b :: b in chunks ==> ParseFrom(buf, b.start, b.end, NoStatement).Parsed?
  {
    hide ParseFrom;
    if chunks != [] {
      AllParse(buf, chunks[1..]);
      assert forall b :: b in chunks <==> b == chunks[0] || b in chunks[1..];
    }
  }

  /** A failure that is not an error message but a stuck or stopped process. */
  predicate IsStuck(p: Parse) {
    p.Failed? && (p.why.OutOfRange? || p.why.NoProgress?)
  }

  /** Where the last physical line starts: past the last newline. */
  function LastLine(buf: string): (l: nat)
    ensures l <= |buf| && (l == 0 || buf[l - 1] == '\n')
    ensures forall k :: l <= k < |buf| ==> buf[k] != '\n'
  {
    if buf == "" || buf[|buf| - 1] == '\n' then |buf| else LastLine(buf[..|buf| - 1])
  }

  predicate IsKeyword(s: string) {
    s == "build" || s == "default" || s == "include" || s == "pool" || s == "rule" || s == "subninja"
  }

  /** What stops the parser for good at `i`: a comment that nothing ends, or a
      keyword that nothing follows; carriage returns before it are skipped. */
  predicate BadTail(buf: string, i: nat)
    requires i <= |buf|
    decreases |buf| - i
  {
    i < |buf| && (buf[i] == '#' || IsKeyword(buf[i..]) || (buf[i] == '\r' && BadTail(buf, i + 1)))
  }

  /** Does the parser come by position `target`? */
  predicate Reaches(buf: string, i: nat, last: StatementType, target: nat)
    decreases |buf| - i
  {
    i == target
    || (i < |buf| && i < target
        && var step := ParseStep(buf, i, last); step.Advance? && Reaches(buf, step.next, step.last, target))
  }

  lemma TruncatedKeyword(buf: string, i: nat)
    requires i < |buf|
    ensures KeywordAt(buf, i).Truncated? <==> IsKeyword(buf[i..])
  {
    var rest := buf[i..];
    assert rest[0] == buf[i];
    assert forall name: string :: name <= rest && |name| == |rest| ==> rest == name;
    assert forall name, t :: name != "" && IsStatement(buf, i, name, t).Truncated? <==> name != "" && rest == name;
  }

  predicate IsStuckStep(step: Step) {
    step.Fail? && (step.why.OutOfRange? || step.why.NoProgress?)
  }

  /** What a step does to the position, and when it is the last for good. */
  lemma StepCases(buf: string, i: nat, last: StatementType)
    requires i < |buf|
    ensures var step := ParseStep(buf, i, last);
            if buf[i] == '\r' || buf[i] == '\n' then step == Advance(i + 1, [], last, NO_COUNTS)
            else if buf[i] == '#' then
              var nl := IndexByte(buf, i + 1, '\n');
              if nl == |buf| then IsStuckStep(step) else step.Advance? && step.next == nl
            else
              (IsStuckStep(step) <==> IsKeyword(buf[i..])) && (step.Advance? ==> step.next == NextLine(buf, i))
  {
    hide KeywordAt, IndentedStep, IsKeyword;
    TruncatedKeyword(buf, i);
    IndentNeverStuck(buf, i, last);
    KeywordHead(buf, i);
  }

  lemma KeywordHead(buf: string, i: nat)
    requires i < |buf|
    ensures IsKeyword(buf[i..]) ==> buf[i] != ' ' && buf[i] != '\t' && buf[i] != '\r' && buf[i] != '\n' && buf[i] != '#'
  {
    assert buf[i..][0] == buf[i];
  }

  /** On the last physical line the parser is stuck iff the line is bad there. */
  lemma {:induction false} StuckOnLastLine(buf: string, i: nat, last: StatementType)
    requires LastLine(buf) <= i <= |buf|
    ensures IsStuck(ParseFrom(buf, i, |buf|, last)) <==> BadTail(buf, i)
    decreases |buf| - i
  {
    hide ParseStep, LastLine, IsKeyword;
    if i < |buf| {
      StepCases(buf, i, last);
      LastLineEnds(buf, i);
      KeywordHead(buf, i);
      if buf[i] == '\r' {
        StuckOnLastLine(buf, i + 1, last);
      }
    }
  }

  lemma LastLineEnds(buf: string, i: nat)
    requires LastLine(buf) <= i <= |buf|
    ensures IndexByte(buf, i, '\n') == |buf| && NextLine(buf, i) == |buf|
    ensures i < |buf| ==> buf[i] != '\n' && IndexByte(buf, i + 1, '\n') == |buf|
  {
  }

  lemma IndentNeverStuck(buf: string, i: nat, last: StatementType)
    requires i < |buf|
    ensures var step := IndentedStep(buf, i, last);
            if step.Fail? then !step.why.OutOfRange? && !step.why.NoProgress? else step.next == NextLine(buf, i)
  {
  }

  /** Before the last physical line nothing stops the parser for good. */
  lemma StuckNotBefore(buf: string, i: nat, last: StatementType)
    requires i < LastLine(buf)
    ensures !IsStuckStep(ParseStep(buf, i, last))
  {
    hide ParseStep, LastLine;
    var l := LastLine(buf);
    assert buf[l - 1] == '\n';
    StepCases(buf, i, last);
    assert buf[i..][l - 1 - i] == '\n';
  }

  /** The parser never jumps into the middle of the last physical line. */
  lemma {:induction false} LineEndsOutside(buf: string, s: nat)
    requires s < LastLine(buf)
    ensures NextLine(buf, s) <= LastLine(buf) || NextLine(buf, s) == |buf|
    decreases LastLine(buf) - s
  {
    hide LastLine;
    var l := LastLine(buf);
    assert buf[l - 1] == '\n';
    var nl := IndexByte(buf, s, '\n');
    assert nl <= l - 1;
    if EscapedFrom(buf, s, nl) {
      if nl + 1 < l {
        LineEndsOutside(buf, nl + 1);
      } else {
        LastLineEnds(buf, l);
      }
    }
  }

  lemma StepOutside(buf: string, i: nat, last: StatementType)
    requires i < LastLine(buf)
    ensures var step := ParseStep(buf, i, last); step.Advance? ==> step.next <= LastLine(buf) || step.next == |buf|
  {
    hide ParseStep, LastLine, IsKeyword;
    LineEndsOutside(buf, i);
    StepCases(buf, i, last);
    var l := LastLine(buf);
    assert buf[l - 1] == '\n';
  }

  /** Exactly when the parser is stuck or out of range: it comes to the start of
      the last physical line, and that line is, after carriage returns, a comment
      or a bare keyword. */
  lemma {:induction false} StuckIff(buf: string, i: nat, last: StatementType)
    requires i <= LastLine(buf)
    ensures IsStuck(ParseFrom(buf, i, |buf|, last))
       <==> Reaches(buf, i, last, LastLine(buf)) && BadTail(buf, LastLine(buf))
    decreases |buf| - i
  {
    hide ParseStep, BadTail, LastLine;
    var l := LastLine(buf);
    if i == l {
      StuckOnLastLine(buf, i, last);
    } else {
      StuckNotBefore(buf, i, last);
      StepOutside(buf, i, last);
      var step := ParseStep(buf, i, last);
      if step.Advance? {
        if step.next <= l {
          StuckIff(buf, step.next, step.last);
        }
      }
    }
  }

  /** So a file whose last physical line is neither is safe, and one that ends
      with a newline is. */
  lemma NewlineTerminated(buf: string, i: nat, last: StatementType)
    ensures i <= LastLine(buf) && !BadTail(buf, LastLine(buf)) ==> !IsStuck(ParseFrom(buf, i, |buf|, last))
    ensures buf == "" || buf[|buf| - 1] == '\n' ==> !IsStuck(ParseFrom(buf, i, |buf|, last))
  {
    if i <= LastLine(buf) {
      StuckIff(buf, i, last);
    }
  }

  /** Without it both can: a last comment keeps the loop where it is, and a
      bare keyword is indexed past its end. */
  lemma UnterminatedStuck()
    ensures ParseFrom("#", 0, 1, NoStatement) == Failed(NoProgress(0))
    ensures ParseFrom("pool", 0, 4, NoStatement) == Failed(OutOfRange(0))
  {
    hide Then, IndentedStep, NextLine, SkipSpaces, AddCounts;
    assert "pool"[0..] == "pool";
    assert IsStatement("pool", 0, "pool", Pool) == Truncated;
    assert ParseStep("pool", 0, NoStatement) == Fail(OutOfRange(0));
  }
}
