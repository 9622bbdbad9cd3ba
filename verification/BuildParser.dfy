/** Parsing the text of a build statement: path lists up to their separators,
    and what becomes of a text that ends in the middle of an escape. */
module BuildParser {
  import opened Wrappers
  import opened Lexer
  import opened Eval
  import ChunkParser

  predicate IsVarname(c: char) {
    IsSimpleVarname(c) || c == '.'
  }

  predicate IsNonLiteral(c: char) {
    IsWhitespace(c) || c == '$' || c == ':' || c == '|' || c == '\0'
  }

  /** Does a newline follow the `$` at `i`? */
  predicate ContinuesLine(buf: string, i: nat)
    requires i < |buf|
  {
    || (i + 2 < |buf| && buf[i + 1] == '\r' && buf[i + 2] == '\n')
    || (i + 1 < |buf| && buf[i + 1] == '\n')
  }

  /** End of the path text at `i` and the number of escapes in it, if the scan
      does not overrun the text. */
  function ScanPath(buf: string, i: nat): (r: (nat, nat))
    requires i <= |buf|
    ensures i <= r.0 <= |buf|
    decreases |buf| - i
  {
    if i == |buf| then (i, 0)
    else if !IsNonLiteral(buf[i]) then ScanPath(buf, i + 1)
    else if buf[i] == '$' && !ContinuesLine(buf, i) && i + 1 < |buf| then
      var r := ScanPath(buf, i + 2);
      (r.0, r.1 + 1)
    else (i, 0)
  }

  /** The paths from `pos` on, and where they stop. */
  function ScanList(buf: string, pos: nat): (r: (seq<EvalString>, nat))
    requires pos <= |buf|
    ensures pos <= r.1 <= |buf|
    decreases |buf| - pos
  {
    var s := SkipSpaces(buf, pos, |buf|);
    var (e, esc) := ScanPath(buf, s);
    if e == s then ([], s)
    else
      var (rest, stop) := ScanList(buf, e);
      ([EvalString(0, buf[s..e], esc)] + rest, stop)
  }

  function IdentEnd(buf: string, i: nat): (e: nat)
    requires i <= |buf|
    ensures i <= e <= |buf|
    ensures forall k :: i <= k < e ==> IsVarname(buf[k])
    decreases |buf| - i
  {
    if i == |buf| || !IsVarname(buf[i]) then i else IdentEnd(buf, i + 1)
  }

  /** Does the scan of a path at `i` come to look at `k`? */
  predicate PathComes(buf: string, i: nat, k: nat)
    requires i <= |buf|
    decreases |buf| - i
  {
    || i == k
    || (i < |buf| &&
        if !IsNonLiteral(buf[i]) then PathComes(buf, i + 1, k)
        else buf[i] == '$' && !ContinuesLine(buf, i) && i + 1 < |buf| && PathComes(buf, i + 2, k))
  }

  /** Does the scan of a list from `pos` on? */
  predicate ListComes(buf: string, pos: nat, k: nat)
    requires pos <= |buf|
    decreases |buf| - pos
  {
    var s := SkipSpaces(buf, pos, |buf|);
    PathComes(buf, s, k) || var e := ScanPath(buf, s).0; e != s && ListComes(buf, e, k)
  }

  predicate EndsInDollar(s: string) {
    s != "" && s[|s| - 1] == '$'
  }

  /** A `$` with nothing behind it sends the scan of a path past the end of the
      text, where slicing panics. */
  predicate PathOverruns(buf: string, i: nat)
    requires i <= |buf|
  {
    EndsInDollar(buf) && PathComes(buf, i, |buf| - 1)
  }

  predicate ListOverruns(buf: string, pos: nat)
    requires pos <= |buf|
  {
    EndsInDollar(buf) && ListComes(buf, pos, |buf| - 1)
  }

  class PathParser {
    const buf: string
    var pos: nat

    ghost predicate Valid()
      reads this
    {
      pos <= |buf|
    }

    constructor (buf: string)
      ensures Valid() && this.buf == buf && pos == 0
    {
      this.buf := buf;
      this.pos := 0;
    }

    method Skip()
      requires Valid()
      modifies this
      ensures Valid() && pos == SkipSpaces(buf, old(pos), |buf|)
    {
      pos := SkipSpacesLoop(buf, pos, |buf|);
    }

    /** `path`: empty when no path starts here; not ok when it panics. */
    method Path() returns (path: EvalString, ok: bool)
      requires Valid()
      modifies this
      ensures Valid()
      ensures ok <==> !PathOverruns(buf, SkipSpaces(buf, old(pos), |buf|))
      ensures var s := SkipSpaces(buf, old(pos), |buf|);
              var (e, esc) := ScanPath(buf, s);
              ok ==> pos == e && path == EvalString(0, buf[s..e], esc)
    {
      Skip();
      if pos == |buf| {
        return EvalString(0, "", 0), true;
      }
      var i, esc := pos, 0;
      ghost var (e, n) := ScanPath(buf, pos);
      while true
        invariant pos <= i <= |buf| + 1
        invariant i <= |buf| ==> ScanPath(buf, i).0 == e && ScanPath(buf, i).1 + esc == n
        invariant PathOverruns(buf, pos) <==> i > |buf| || PathOverruns(buf, i)
        decreases |buf| + 1 - i
      {
        if i > |buf| {
          // slicing from `i` panics
          return EvalString(0, "", 0), false;
        }
        while i < |buf| && !IsNonLiteral(buf[i])
          invariant pos <= i <= |buf| && ScanPath(buf, i).0 == e && ScanPath(buf, i).1 + esc == n
          invariant PathOverruns(buf, pos) <==> PathOverruns(buf, i)
        {
          i := i + 1;
        }
        if i < |buf| && buf[i] == '$' && !ContinuesLine(buf, i) {
          // an escape or a variable
          i := i + 2;
          esc := esc + 1;
          continue;
        }
        path := EvalString(0, buf[pos..i], esc);
        pos := i;
        return path, true;
      }
    }

    /** `pathList`. */
    method PathList(pl: seq<EvalString>) returns (r: seq<EvalString>, n: nat, ok: bool)
      requires Valid()
      modifies this
      ensures Valid()
      ensures ok <==> !ListOverruns(buf, old(pos))
      ensures var (paths, stop) := ScanList(buf, old(pos));
              ok ==> r == pl + paths && n == |paths| && pos == stop
    {
      hide SkipSpaces, ScanPath, PathComes;
      r, n := pl, 0;
      while true
        invariant Valid()
        invariant var (all, stop) := ScanList(buf, old(pos));
                  var (rest, stop') := ScanList(buf, pos);
                  pl + all == r + rest && stop == stop' && |all| == n + |rest|
        invariant ListOverruns(buf, old(pos)) <==> ListOverruns(buf, pos)
        decreases |buf| - pos
      {
        var path;
        path, ok := Path();
        if !ok {
          return;
        }
        if |path.v| == 0 {
          assert r + [] == r;
          return;
        }
        assert forall rest: seq<EvalString> :: r + ([path] + rest) == r + [path] + rest;
        r := r + [path];
        n := n + 1;
      }
    }

    /** `ident`: none at the end of the text. */
    method Ident() returns (name: Option<string>)
      requires Valid()
      modifies this
      ensures Valid()
      ensures var s := SkipSpaces(buf, old(pos), |buf|);
              if s == |buf| then name == None && pos == s
              else pos == IdentEnd(buf, s) && name == Some(buf[s..IdentEnd(buf, s)])
    {
      Skip();
      if pos == |buf| {
        return None;
      }
      var i := pos;
      while i < |buf| && IsVarname(buf[i])
        invariant pos <= i <= |buf| && IdentEnd(buf, i) == IdentEnd(buf, pos)
      {
        i := i + 1;
      }
      name := Some(buf[pos..i]);
      pos := i;
    }

    /** `colon`. */
    method Colon() returns (ok: bool)
      requires Valid()
      modifies this
      ensures Valid()
      ensures var s := SkipSpaces(buf, old(pos), |buf|);
              ok == (s < |buf| && buf[s] == ':') && pos == if ok then s + 1 else s
    {
      Skip();
      if pos == |buf| || buf[pos] != ':' {
        return false;
      }
      pos := pos + 1;
      return true;
    }

    /** `pipe`: a `|` that starts neither `||` nor `|@`. */
    method Pipe() returns (ok: bool)
      requires Valid()
      modifies this
      ensures Valid()
      ensures var s := SkipSpaces(buf, old(pos), |buf|);
              ok == PipeAt(buf, s) && pos == if ok then s + 1 else s
    {
      Skip();
      if pos == |buf| || buf[pos] != '|' {
        return false;
      }
      if pos + 1 < |buf| && (buf[pos + 1] == '|' || buf[pos + 1] == '@') {
        return false;
      }
      pos := pos + 1;
      return true;
    }

    /** `pipe2` and `pipeAt`: `||` and `|@`. */
    method PipeThen(second: char) returns (ok: bool)
      requires Valid()
      modifies this
      ensures Valid()
      ensures var s := SkipSpaces(buf, old(pos), |buf|);
              ok == PairAt(buf, s, second) && pos == if ok then s + 2 else s
    {
      Skip();
      if pos + 1 >= |buf| || buf[pos] != '|' || buf[pos + 1] != second {
        return false;
      }
      pos := pos + 2;
      return true;
    }
  }

  predicate PipeAt(buf: string, s: nat) {
    s < |buf| && buf[s] == '|' && !(s + 1 < |buf| && (buf[s + 1] == '|' || buf[s + 1] == '@'))
  }

  predicate PairAt(buf: string, s: nat, second: char) {
    s + 1 < |buf| && buf[s] == '|' && buf[s + 1] == second
  }

  datatype ParseError = NoOutput | NoColon | NoRule | OutOfRange

  datatype Parsed = Parsed(
    outs: seq<EvalString>, implicitOuts: nat, rule: string,
    ins: seq<EvalString>, implicit: nat, orderOnly: nat, validations: seq<EvalString>)

  /** A list that follows `|`, `||` or `|@`, when it is there. */
  function ScanAfter(buf: string, pos: nat, there: bool, width: nat): (r: (seq<EvalString>, nat))
    requires pos <= |buf|
    requires var s := SkipSpaces(buf, pos, |buf|); there ==> s + width <= |buf|
    ensures r.1 <= |buf|
  {
    var s := SkipSpaces(buf, pos, |buf|);
    if there then ScanList(buf, s + width) else ([], s)
  }

  /** What `parseBuild` reads from the text after the keyword, if no scan
      overruns it. */
  function ScanStatement(buf: string): Result<Parsed, ParseError> {
    var (outs, p1) := ScanList(buf, 0);
    var (implicitOuts, p2) := ScanAfter(buf, p1, PipeAt(buf, SkipSpaces(buf, p1, |buf|)), 1);
    if outs + implicitOuts == [] then Failure(NoOutput)
    else
      var s := SkipSpaces(buf, p2, |buf|);
      if s == |buf| || buf[s] != ':' then Failure(NoColon)
      else
        var r := SkipSpaces(buf, s + 1, |buf|);
        if r == |buf| then Failure(NoRule)
        else Success(ScanInputs(buf, IdentEnd(buf, r), outs, implicitOuts, buf[r..IdentEnd(buf, r)]))
  }

  function ScanInputs(buf: string, pos: nat, outs: seq<EvalString>, implicitOuts: seq<EvalString>, rule: string): Parsed
    requires pos <= |buf|
  {
    var (ins, p1) := ScanList(buf, pos);
    var (implicit, p2) := ScanAfter(buf, p1, PipeAt(buf, SkipSpaces(buf, p1, |buf|)), 1);
    var (orderOnly, p3) := ScanAfter(buf, p2, PairAt(buf, SkipSpaces(buf, p2, |buf|), '|'), 2);
    var (validations, p4) := ScanAfter(buf, p3, PairAt(buf, SkipSpaces(buf, p3, |buf|), '@'), 2);
    Parsed(outs + implicitOuts, |implicitOuts|, rule, ins + implicit + orderOnly, |implicit|, |orderOnly|, validations)
  }

  /** Does the scan of a list after a separator come to `k`? */
  predicate AfterComes(buf: string, pos: nat, there: bool, width: nat, k: nat)
    requires pos <= |buf|
    requires var s := SkipSpaces(buf, pos, |buf|); there ==> s + width <= |buf|
  {
    there && ListComes(buf, SkipSpaces(buf, pos, |buf|) + width, k)
  }

  predicate InputsCome(buf: string, pos: nat, k: nat)
    requires pos <= |buf|
  {
    var (_, p1) := ScanList(buf, pos);
    var pipe := PipeAt(buf, SkipSpaces(buf, p1, |buf|));
    var (_, p2) := ScanAfter(buf, p1, pipe, 1);
    var pipe2 := PairAt(buf, SkipSpaces(buf, p2, |buf|), '|');
    var (_, p3) := ScanAfter(buf, p2, pipe2, 2);
    var pipeAt := PairAt(buf, SkipSpaces(buf, p3, |buf|), '@');
    || ListComes(buf, pos, k)
    || AfterComes(buf, p1, pipe, 1, k)
    || AfterComes(buf, p2, pipe2, 2, k)
    || AfterComes(buf, p3, pipeAt, 2, k)
  }

  /** Does `parseBuild`, as long as it goes on, scan a list that comes to `k`? */
  predicate BuildComes(buf: string, k: nat) {
    var (outs, p1) := ScanList(buf, 0);
    var pipe := PipeAt(buf, SkipSpaces(buf, p1, |buf|));
    var (implicitOuts, p2) := ScanAfter(buf, p1, pipe, 1);
    var s := SkipSpaces(buf, p2, |buf|);
    || ListComes(buf, 0, k)
    || AfterComes(buf, p1, pipe, 1, k)
    || (&& outs + implicitOuts != [] && s < |buf| && buf[s] == ':'
        && var r := SkipSpaces(buf, s + 1, |buf|); r < |buf| && InputsCome(buf, IdentEnd(buf, r), k))
  }

  /** What comes of `parseBuild`. */
  function ScanBuild(buf: string): Result<Parsed, ParseError> {
    if EndsInDollar(buf) && BuildComes(buf, |buf| - 1) then Failure(OutOfRange) else ScanStatement(buf)
  }

  /** The parser calls of `parseBuild`. */
  method ParseBuild(buf: string) returns (r: Result<Parsed, ParseError>)
    ensures r == ScanBuild(buf)
  {
    hide ScanPath, ScanList, SkipSpaces, IdentEnd, PipeAt, PairAt, ScanInputs, InputsCome, ListComes, EndsInDollar;
    var pp := new PathParser(buf);
    var outs, n, ok := pp.PathList([]);
    if !ok {
      return Failure(OutOfRange);
    }
    ghost var explicit := outs;
    ghost var p1 := pp.pos;
    assert explicit == ScanList(buf, 0).0;
    var implicitOuts: nat := 0;
    var pipe := pp.Pipe();
    if pipe {
      outs, implicitOuts, ok := pp.PathList(outs);
      if !ok {
        return Failure(OutOfRange);
      }
    }
    ghost var after := ScanAfter(buf, p1, PipeAt(buf, SkipSpaces(buf, p1, |buf|)), 1);
    assert outs == explicit + after.0 && pp.pos == after.1;
    assert outs[..|outs| - implicitOuts] == explicit && outs[|outs| - implicitOuts..] == after.0;
    if |outs| == 0 {
      return Failure(NoOutput);
    }
    var colon := pp.Colon();
    if !colon {
      return Failure(NoColon);
    }
    var rule := pp.Ident();
    if rule == None {
      return Failure(NoRule);
    }
    var parsed;
    parsed, ok := ParseInputs(pp, outs, implicitOuts, rule.value);
    return if ok then Success(parsed) else Failure(OutOfRange);
  }

  method ParseInputs(pp: PathParser, outs: seq<EvalString>, implicitOuts: nat, rule: string)
    returns (r: Parsed, ok: bool)
    requires pp.Valid() && implicitOuts <= |outs|
    modifies pp
    ensures ok <==> !(EndsInDollar(pp.buf) && InputsCome(pp.buf, old(pp.pos), |pp.buf| - 1))
    ensures var k := |outs| - implicitOuts;
            ok ==> r == ScanInputs(pp.buf, old(pp.pos), outs[..k], outs[k..], rule)
  {
    hide ScanPath, ScanList, SkipSpaces, IdentEnd, PipeAt, PairAt, ListComes, EndsInDollar;
    ghost var buf, p0 := pp.buf, pp.pos;
    r := Parsed(outs, implicitOuts, rule, [], 0, 0, []);
    var ins, n;
    ins, n, ok := pp.PathList([]);
    if !ok {
      return;
    }
    ghost var p1 := pp.pos;
    assert [] + ScanList(buf, p0).0 == ScanList(buf, p0).0 == ins;
    var implicit: nat, orderOnly: nat := 0, 0;
    var pipe := pp.Pipe();
    if pipe {
      ins, implicit, ok := pp.PathList(ins);
      if !ok {
        return;
      }
    }
    ghost var p2 := pp.pos;
    ghost var after := ScanAfter(buf, p1, PipeAt(buf, SkipSpaces(buf, p1, |buf|)), 1);
    assert ins == ScanList(buf, p0).0 + after.0 && implicit == |after.0| && p2 == after.1;
    pipe := pp.PipeThen('|');
    if pipe {
      ins, orderOnly, ok := pp.PathList(ins);
      if !ok {
        return;
      }
    }
    var validations := [];
    pipe := pp.PipeThen('@');
    if pipe {
      validations, n, ok := pp.PathList(validations);
      if !ok {
        return;
      }
    }
    return Parsed(outs, implicitOuts, rule, ins, implicit, orderOnly, validations), true;
  }

  // --------------------------------------------------------------- overruns

  /** Where the last run of `$` starts. */
  function RunStart(buf: string): (k: nat)
    ensures k <= |buf|
    ensures forall j :: k <= j < |buf| ==> buf[j] == '$'
    ensures k > 0 ==> buf[k - 1] != '$'
    ensures k + TrailingDollars(buf) == |buf|
  {
    if buf == "" || buf[|buf| - 1] != '$' then |buf| else RunStart(buf[..|buf| - 1])
  }

  predicate OddRun(buf: string) {
    TrailingDollars(buf) % 2 == 1
  }

  /** In the run the scan takes two bytes at a time. */
  lemma {:induction false} RunComes(buf: string, i: nat)
    requires EndsInDollar(buf) && RunStart(buf) <= i <= |buf|
    ensures PathComes(buf, i, |buf| - 1) <==> (|buf| - i) % 2 == 1
    ensures (|buf| - i) % 2 == 0 ==> ScanPath(buf, i).0 == |buf|
    decreases |buf| - i
  {
    hide TrailingDollars, RunStart;
    if i < |buf| {
      assert buf[i] == '$';
      if i + 1 < |buf| {
        assert buf[i + 1] == '$';
        RunComes(buf, i + 2);
      }
    }
  }

  /** Not inside the run. */
  predicate Outside(buf: string, pos: nat) {
    pos <= RunStart(buf) || pos == |buf|
  }

  lemma {:induction false} PathOdd(buf: string, i: nat)
    requires EndsInDollar(buf) && i <= RunStart(buf)
    ensures PathComes(buf, i, |buf| - 1) <==> OddRun(buf) && PathComes(buf, i, RunStart(buf))
    ensures !(OddRun(buf) && PathComes(buf, i, RunStart(buf))) ==> Outside(buf, ScanPath(buf, i).0)
    decreases RunStart(buf) - i
  {
    hide TrailingDollars, RunStart;
    var k := RunStart(buf);
    assert k < |buf|;
    if i == k {
      RunComes(buf, i);
    } else if !IsNonLiteral(buf[i]) {
      PathOdd(buf, i + 1);
    } else if buf[i] == '$' && !ContinuesLine(buf, i) {
      assert i + 1 != k;
      PathOdd(buf, i + 2);
    }
  }

  lemma {:induction false} SpacesOutside(buf: string, pos: nat)
    requires pos <= |buf| && Outside(buf, pos)
    ensures Outside(buf, SkipSpaces(buf, pos, |buf|))
    decreases |buf| - pos
  {
    hide TrailingDollars, RunStart;
    var k := RunStart(buf);
    if pos < k {
      if IsWhitespace(buf[pos]) {
        SpacesOutside(buf, pos + 1);
      } else if buf[pos] == '$' && pos + 1 < |buf| {
        assert pos + 1 < k;
        if buf[pos + 1] == '\n' || buf[pos + 1] == ' ' || buf[pos + 1] == '\t' {
          SpacesOutside(buf, pos + 2);
        } else if buf[pos + 1] == '\r' && pos + 2 < |buf| && buf[pos + 2] == '\n' {
          assert pos + 2 != k;
          SpacesOutside(buf, pos + 3);
        }
      }
    } else if pos < |buf| {
      assert buf[pos] == '$' && (pos + 1 < |buf| ==> buf[pos + 1] == '$');
    }
  }

  lemma {:induction false} ListOdd(buf: string, pos: nat)
    requires EndsInDollar(buf) && pos <= |buf| && Outside(buf, pos)
    ensures ListComes(buf, pos, |buf| - 1) <==> OddRun(buf) && ListComes(buf, pos, RunStart(buf))
    ensures !(OddRun(buf) && ListComes(buf, pos, RunStart(buf))) ==> Outside(buf, ScanList(buf, pos).1)
    decreases |buf| - pos
  {
    hide TrailingDollars, RunStart, OddRun, SkipSpaces;
    assert RunStart(buf) < |buf| by { RunHeld(buf); }
    SpacesOutside(buf, pos);
    var s := SkipSpaces(buf, pos, |buf|);
    if s < |buf| {
      PathOdd(buf, s);
      var e := ScanPath(buf, s).0;
      if e != s && Outside(buf, e) {
        ListOdd(buf, e);
      }
    }
  }

  lemma RunHeld(buf: string)
    requires EndsInDollar(buf)
    ensures RunStart(buf) < |buf|
  {
  }

  lemma AfterOdd(buf: string, pos: nat, there: bool, width: nat)
    requires EndsInDollar(buf) && pos <= |buf| && Outside(buf, pos)
    requires there ==>
               var s := SkipSpaces(buf, pos, |buf|);
               0 < width && s + width <= |buf| && forall k :: s <= k < s + width ==> buf[k] != '$'
    ensures AfterComes(buf, pos, there, width, |buf| - 1)
       <==> OddRun(buf) && AfterComes(buf, pos, there, width, RunStart(buf))
    ensures !(OddRun(buf) && AfterComes(buf, pos, there, width, RunStart(buf))) ==>
              Outside(buf, ScanAfter(buf, pos, there, width).1)
  {
    hide TrailingDollars, RunStart, OddRun, SkipSpaces, ListComes, ScanList;
    SpacesOutside(buf, pos);
    if there {
      var s := SkipSpaces(buf, pos, |buf|);
      assert buf[s] != '$' && buf[s + width - 1] != '$';
      ListOdd(buf, s + width);
    }
  }

  lemma SeparatorsPlain(buf: string, s: nat, second: char)
    requires second == '|' || second == '@'
    ensures PipeAt(buf, s) ==> s + 1 <= |buf| && forall k :: s <= k < s + 1 ==> buf[k] != '$'
    ensures PairAt(buf, s, second) ==> s + 2 <= |buf| && forall k :: s <= k < s + 2 ==> buf[k] != '$'
  {
  }

  lemma InputsOdd(buf: string, pos: nat)
    requires EndsInDollar(buf) && pos <= |buf| && Outside(buf, pos)
    ensures InputsCome(buf, pos, |buf| - 1) <==> OddRun(buf) && InputsCome(buf, pos, RunStart(buf))
  {
    hide RunStart, OddRun, SkipSpaces, ListComes, ScanList, PipeAt, PairAt, ScanAfter, AfterComes, Outside;
    var k := RunStart(buf);
    ListOdd(buf, pos);
    if !(OddRun(buf) && ListComes(buf, pos, k)) {
      var (_, p1) := ScanList(buf, pos);
      var s1 := SkipSpaces(buf, p1, |buf|);
      SeparatorsPlain(buf, s1, '|');
      AfterOdd(buf, p1, PipeAt(buf, s1), 1);
      if !(OddRun(buf) && AfterComes(buf, p1, PipeAt(buf, s1), 1, k)) {
        var (_, p2) := ScanAfter(buf, p1, PipeAt(buf, s1), 1);
        var s2 := SkipSpaces(buf, p2, |buf|);
        SeparatorsPlain(buf, s2, '|');
        AfterOdd(buf, p2, PairAt(buf, s2, '|'), 2);
        if !(OddRun(buf) && AfterComes(buf, p2, PairAt(buf, s2, '|'), 2, k)) {
          var (_, p3) := ScanAfter(buf, p2, PairAt(buf, s2, '|'), 2);
          var s3 := SkipSpaces(buf, p3, |buf|);
          SeparatorsPlain(buf, s3, '@');
          AfterOdd(buf, p3, PairAt(buf, s3, '@'), 2);
        }
      }
    }
  }

  lemma {:induction false} NameOutside(buf: string, i: nat)
    requires i <= |buf| && Outside(buf, i)
    ensures Outside(buf, IdentEnd(buf, i))
  {
    hide RunStart;
    var e := IdentEnd(buf, i);
    if i < e {
      assert IsVarname(buf[e - 1]) && buf[e - 1] != '$';
    }
  }

  lemma BuildOdd(buf: string)
    requires EndsInDollar(buf)
    ensures BuildComes(buf, |buf| - 1) <==> OddRun(buf) && BuildComes(buf, RunStart(buf))
  {
    hide RunStart, OddRun, SkipSpaces, ListComes, ScanList, PipeAt, ScanAfter, AfterComes, InputsCome, IdentEnd;
    var k := RunStart(buf);
    ListOdd(buf, 0);
    if !(OddRun(buf) && ListComes(buf, 0, k)) {
      var (outs, p1) := ScanList(buf, 0);
      var s1 := SkipSpaces(buf, p1, |buf|);
      SeparatorsPlain(buf, s1, '|');
      AfterOdd(buf, p1, PipeAt(buf, s1), 1);
      if !(OddRun(buf) && AfterComes(buf, p1, PipeAt(buf, s1), 1, k)) {
        var (implicitOuts, p2) := ScanAfter(buf, p1, PipeAt(buf, s1), 1);
        SpacesOutside(buf, p2);
        var s := SkipSpaces(buf, p2, |buf|);
        if s < |buf| && buf[s] == ':' {
          assert Outside(buf, s + 1);
          SpacesOutside(buf, s + 1);
          var r := SkipSpaces(buf, s + 1, |buf|);
          NameOutside(buf, r);
          InputsOdd(buf, IdentEnd(buf, r));
        }
      }
    }
  }

  /** Exactly when `parseBuild` runs out of range: the text ends in an odd number
      of `$`, and the scan of a list comes to them. */
  lemma OverrunsIff(buf: string)
    ensures ScanBuild(buf) == Failure(OutOfRange) <==> OddRun(buf) && BuildComes(buf, RunStart(buf))
  {
    hide ScanInputs, BuildComes, ScanList, ScanAfter, SkipSpaces, RunStart;
    if EndsInDollar(buf) {
      BuildOdd(buf);
    }
  }

  /** So only the last statement of a file can, when no newline ends it. */
  lemma OnlyLastOverruns(buf: string, i: nat, last: ChunkParser.StatementType, v: nat)
    requires i < |buf| && ChunkParser.ParseStep(buf, i, last).Advance?
    requires var n := ChunkParser.ParseStep(buf, i, last).next;
             && ChunkParser.ParseStep(buf, i, last).stmts == [ChunkParser.Statement(ChunkParser.Build, i, v, n)]
             && v <= n && ScanBuild(buf[v..n]) == Failure(OutOfRange)
    ensures ChunkParser.ParseStep(buf, i, last).next == |buf| && EndsInDollar(buf)
  {
    hide ScanStatement, BuildComes;
    var n := ChunkParser.ParseStep(buf, i, last).next;
    assert EndsInDollar(buf[v..n]) by { OnlyScanFails(buf[v..n]); }
    assert buf[n - 1] == buf[v..n][n - v - 1];
    LineOver(buf, i);
  }

  lemma OnlyScanFails(text: string)
    requires ScanBuild(text) == Failure(OutOfRange)
    ensures EndsInDollar(text)
  {
    hide ScanInputs, BuildComes, ScanList, ScanAfter, SkipSpaces;
  }

  lemma {:induction false} LineOver(buf: string, i: nat)
    requires i < |buf|
    ensures NextLine(buf, i) < |buf| ==> buf[NextLine(buf, i) - 1] == '\n'
    decreases |buf| - i
  {
    var nl := IndexByte(buf, i, '\n');
    if nl < |buf| && EscapedFrom(buf, i, nl) && nl + 1 < |buf| {
      LineOver(buf, nl + 1);
    }
  }

  /** Such a file, whose only statement is cut out and then overrun. */
  lemma OpenDollarOverruns(last: ChunkParser.StatementType)
    ensures ChunkParser.ParseStep("build a: b $", 0, last)
         == ChunkParser.Advance(12, [ChunkParser.Statement(ChunkParser.Build, 0, 6, 12)],
                                ChunkParser.Build, ChunkParser.CountOf(ChunkParser.Build))
    ensures ScanBuild("build a: b $"[6..]) == Failure(OutOfRange)
  {
    hide ScanBuild, ChunkParser.ParseStep;
    var file := "build a: b $";
    assert file[6..] == "a: b $";
    OpenDollarText();
    OpenDollarFile(last);
  }

  lemma OpenDollarFile(last: ChunkParser.StatementType)
    ensures ChunkParser.ParseStep("build a: b $", 0, last)
         == ChunkParser.Advance(12, [ChunkParser.Statement(ChunkParser.Build, 0, 6, 12)],
                                ChunkParser.Build, ChunkParser.CountOf(ChunkParser.Build))
  {
    hide ChunkParser.IndentedStep, NextLine;
    var file := "build a: b $";
    assert file[..6] == "build ";
    KeywordRead(file);
    NoNewline(file);
  }

  lemma KeywordRead(buf: string)
    requires |buf| >= 6 && buf[..6] == "build "
    ensures ChunkParser.KeywordAt(buf, 0) == ChunkParser.Keyword(ChunkParser.Build, 6) && buf[0] == 'b'
  {
    assert buf[0] == buf[..6][0] && buf[5] == buf[..6][5];
    assert buf[0..][..5] == buf[..6][..5] == "build";
    assert "build" <= buf[0..];
  }

  lemma NoNewline(buf: string)
    requires forall k :: 0 <= k < |buf| ==> buf[k] != '\n'
    ensures NextLine(buf, 0) == |buf|
  {
  }

  lemma OpenDollarText()
    ensures ScanBuild("a: b $") == Failure(OutOfRange)
  {
    hide ScanStatement, InputsCome, IdentEnd, ScanList;
    var text := "a: b $";
    OpenDollarOutput();
    OpenDollarInputs();
    assert SkipSpaces(text, 1, |text|) == 1 && !PipeAt(text, 1);
    assert ScanAfter(text, 1, false, 1) == ([], 1);
    assert |[EvalString(0, "a", 0)] + []| == 1;
    assert SkipSpaces(text, 2, |text|) == 3;
    assert BuildComes(text, 5);
  }

  lemma OpenDollarOutput()
    ensures ScanList("a: b $", 0) == ([EvalString(0, "a", 0)], 1)
  {
    var text := "a: b $";
    assert ScanPath(text, 1) == (1, 0) && ScanPath(text, 0) == (1, 0);
    assert ScanList(text, 1) == ([], 1);
    assert text[0..1] == "a" && SkipSpaces(text, 0, |text|) == 0;
    assert [EvalString(0, "a", 0)] + [] == [EvalString(0, "a", 0)];
  }

  lemma OpenDollarInputs()
    ensures IdentEnd("a: b $", 3) == 4 && InputsCome("a: b $", 4, 5)
  {
    var text := "a: b $";
    assert SkipSpaces(text, 4, |text|) == 5;
    assert PathComes(text, 5, 5);
    assert ListComes(text, 4, 5);
    assert IdentEnd(text, 4) == 4;
  }

  /** A text that ends in a `$` no scan comes to is a plain error. */
  lemma UnreachedDollar()
    ensures ScanBuild(": $") == Failure(NoOutput)
  {
    hide InputsCome;
    assert !ListComes(": $", 0, 2);
  }
}
