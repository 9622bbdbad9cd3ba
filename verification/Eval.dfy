/** Expanding `$` references: the recursive, buffer-filling evaluator, and its
    agreement with evaluating the declarations of a file one after another. */
module Eval {
  import opened Wrappers
  import opened Lexer

  /** A value before expansion: its statement position, its text and the number
      of `$` escapes in it. */
  datatype EvalString = EvalString(pos: int, v: string, esc: nat)

  datatype EvalError = BadEscape | Unclosed | Cycle

  /** `lookupVar(pos, name)`. */
  type Env = (int, string) -> Option<EvalString>

  const MAX_LOOKUPS := 255

  predicate IsSimpleVarname(c: char) {
    'a' <= c <= 'z' || 'A' <= c <= 'Z' || '0' <= c <= '9' || c == '_' || c == '-'
  }

  /** End of the run of simple name characters at `i`. */
  function NameEnd(v: string, i: nat): (e: nat)
    requires i <= |v|
    ensures i <= e <= |v|
    ensures forall k :: i <= k < e ==> IsSimpleVarname(v[k])
    ensures e < |v| ==> !IsSimpleVarname(v[e])
    decreases |v| - i
  {
    if i == |v| || !IsSimpleVarname(v[i]) then i else NameEnd(v, i + 1)
  }

  /** First non-whitespace of `v[i:end]`, or `end`. */
  function SkipWhitespace(v: string, i: nat, end: nat): (r: nat)
    requires i <= end <= |v|
    ensures i <= r <= end
    ensures forall k :: i <= k < r ==> IsWhitespace(v[k])
    decreases end - i
  {
    if i == end || !IsWhitespace(v[i]) then i else SkipWhitespace(v, i + 1, end)
  }

  /** Where expansion goes on after a `$`-newline at `k`. The stripping loop does
      not look at the last byte: with only whitespace before it, nothing is
      stripped. */
  function AfterNewline(v: string, k: nat): (next: nat)
    requires k < |v| && IsWhitespace(v[k])
    ensures k < next <= |v|
  {
    var p := SkipWhitespace(v, k, |v| - 1);
    if p < |v| - 1 then p else k + 1
  }

  /** One piece of a value. */
  datatype Token = Lit(text: string, next: nat) | Ref(name: string, next: nat) | Bad(error: EvalError)

  /** The piece at `i`. */
  function ScanAt(v: string, i: nat): (t: Token)
    requires i < |v|
    ensures t.Lit? || t.Ref? ==> i < t.next <= |v|
  {
    if v[i] != '$' then Lit([v[i]], i + 1)
    else if i + 1 == |v| then Bad(BadEscape)
    else
      var c := v[i + 1];
      if c == ' ' || c == ':' || c == '$' then Lit([c], i + 2)
      else if c == '\r' || c == '\n' then Lit([], AfterNewline(v, i + 1))
      else if c == '{' then
        var close := IndexByte(v, i + 2, '}');
        if close == |v| then Bad(Unclosed) else Ref(v[i + 2..close], close + 1)
      else if IsSimpleVarname(c) then Ref(v[i + 1..NameEnd(v, i + 1)], NameEnd(v, i + 1))
      else Bad(BadEscape)
  }

  /** What `evaluateAppend` appends for `val`, with `depth` lookups on the way.
      The measure makes it total in every environment, cyclic ones included. */
  function Expand(env: Env, val: EvalString, depth: nat): Result<string, EvalError>
    requires depth <= MAX_LOOKUPS + 1
    decreases MAX_LOOKUPS + 1 - depth, |val.v| + 1
  {
    if val.v == "" then Success("")
    else if val.esc == 0 then Success(val.v)
    else ExpandFrom(env, val, 0, depth)
  }

  function ExpandFrom(env: Env, val: EvalString, i: nat, depth: nat): Result<string, EvalError>
    requires i <= |val.v| && depth <= MAX_LOOKUPS + 1
    decreases MAX_LOOKUPS + 1 - depth, |val.v| - i
  {
    if i == |val.v| then Success("")
    else
      match ScanAt(val.v, i)
      case Bad(error) => Failure(error)
      case Lit(text, next) =>
        var rest :- ExpandFrom(env, val, next, depth);
        Success(text + rest)
      case Ref(name, next) =>
        if depth > MAX_LOOKUPS then Failure(Cycle)
        else
          var found := env(val.pos, name);
          var text :- if found == None then Success("") else Expand(env, found.value, depth + 1);
          var rest :- ExpandFrom(env, val, next, depth);
          Success(text + rest)
  }

  /** `evaluate`. */
  function Evaluate(env: Env, val: EvalString): Result<string, EvalError> {
    Expand(env, val, 0)
  }

  class Buffer {
    var bytes: string

    constructor ()
      ensures bytes == ""
    {
      bytes := "";
    }

    method Reset()
      modifies this
      ensures bytes == ""
    {
      bytes := "";
    }

    method Write(s: string)
      modifies this
      ensures bytes == old(bytes) + s
    {
      bytes := bytes + s;
    }
  }

  /** The outcome of an append to a buffer that held `before`. */
  ghost predicate Appended(result: Result<string, EvalError>, err: Option<EvalError>, before: string, after: string) {
    match result
    case Success(s) => err == None && after == before + s
    case Failure(error) => err == Some(error)
  }

  /** `evaluateAppend`: one index loop over the value, writing to a shared
      buffer, recursing on what it looks up. */
  method EvaluateAppend(env: Env, buf: Buffer, val: EvalString, lookups: seq<string>) returns (err: Option<EvalError>)
    requires |lookups| <= MAX_LOOKUPS + 1
    modifies buf
    ensures Appended(Expand(env, val, |lookups|), err, old(buf.bytes), buf.bytes)
    decreases MAX_LOOKUPS + 1 - |lookups|
  {
    hide ScanAt, AfterNewline, NameEnd, IndexByte;
    if |val.v| == 0 {
      return None;
    }
    if val.esc == 0 {
      buf.Write(val.v);
      return None;
    }
    ghost var whole := ExpandFrom(env, val, 0, |lookups|);
    var i := 0;
    ghost var done := "";
    PrependNothing(whole);
    while i < |val.v|
      invariant i <= |val.v|
      invariant buf.bytes == old(buf.bytes) + done
      invariant whole == Prepend(done, ExpandFrom(env, val, i, |lookups|))
      decreases |val.v| - i
    {
      PrependStep(env, val, i, |lookups|, done);
      var token := ScanToken(val.v, i);
      match token {
        case Bad(error) =>
          return Some(error);
        case Lit(text, next) =>
          buf.Write(text);
          done := done + text;
          i := next;
        case Ref(name, next) =>
          if |lookups| > MAX_LOOKUPS {
            return Some(Cycle);
          }
          var found := env(val.pos, name);
          if found.Some? {
            ghost var before := buf.bytes;
            err := EvaluateAppend(env, buf, found.value, lookups + [name]);
            if err.Some? {
              return;
            }
            done := done + Expand(env, found.value, |lookups| + 1).value;
          } else {
            assert done + "" == done;
          }
          i := next;
      }
    }
    return None;
  }

  /** `evaluate`: the buffer is reset only when there is something to expand. */
  method EvaluateInto(env: Env, buf: Buffer, val: EvalString) returns (r: Result<string, EvalError>)
    modifies buf
    ensures r == Evaluate(env, val)
    ensures r.Success? && val.v != "" && val.esc > 0 ==> buf.bytes == r.value
    ensures val.v == "" || val.esc == 0 ==> buf.bytes == old(buf.bytes)
  {
    if |val.v| == 0 {
      return Success("");
    }
    if val.esc == 0 {
      return Success(val.v);
    }
    buf.Reset();
    var err := EvaluateAppend(env, buf, val, []);
    if err.Some? {
      return Failure(err.value);
    }
    assert "" + Expand(env, val, 0).value == Expand(env, val, 0).value;
    return Success(buf.bytes);
  }

  /** The branches of the loop body: which piece stands at `i`. */
  method ScanToken(v: string, i: nat) returns (t: Token)
    requires i < |v|
    ensures t == ScanAt(v, i)
  {
    if v[i] != '$' {
      return Lit([v[i]], i + 1);
    }
    var k := i + 1;
    if k == |v| {
      return Bad(BadEscape);
    }
    if v[k] == ' ' || v[k] == ':' || v[k] == '$' {
      return Lit([v[k]], k + 1);
    }
    if v[k] == '\r' || v[k] == '\n' {
      // whitespace after a line continuation is stripped, but for the last byte
      var j := 0;
      while j < |v| - k - 1
        invariant 0 <= j <= |v| - k - 1
        invariant SkipWhitespace(v, k, |v| - 1) == SkipWhitespace(v, k + j, |v| - 1)
      {
        if !IsWhitespace(v[k + j]) {
          return Lit([], k + j);
        }
        j := j + 1;
      }
      return Lit([], k + 1);
    }
    if v[k] == '{' {
      var close := IndexByte(v, k + 1, '}');
      if close == |v| {
        return Bad(Unclosed);
      }
      return Ref(v[k + 1..close], close + 1);
    }
    if IsSimpleVarname(v[k]) {
      var e := k;
      while e < |v| && IsSimpleVarname(v[e])
        invariant k <= e <= |v| && NameEnd(v, k) == NameEnd(v, e)
      {
        e := e + 1;
      }
      return Ref(v[k..e], e);
    }
    return Bad(BadEscape);
  }

  function Prepend(done: string, rest: Result<string, EvalError>): Result<string, EvalError> {
    match rest
    case Success(s) => Success(done + s)
    case Failure(error) => rest
  }

  lemma PrependNothing(rest: Result<string, EvalError>)
    ensures Prepend("", rest) == rest
  {
    if rest.Success? {
      assert "" + rest.value == rest.value;
    }
  }

  lemma PrependStep(env: Env, val: EvalString, i: nat, depth: nat, done: string)
    requires i < |val.v| && depth <= MAX_LOOKUPS + 1
    ensures var whole := Prepend(done, ExpandFrom(env, val, i, depth));
            match ScanAt(val.v, i)
            case Bad(error) => whole == Failure(error)
            case Lit(text, next) => whole == Prepend(done + text, ExpandFrom(env, val, next, depth))
            case Ref(name, next) =>
              if depth > MAX_LOOKUPS then whole == Failure(Cycle)
              else
                var found := env(val.pos, name);
                if found == None then whole == Prepend(done, ExpandFrom(env, val, next, depth))
                else
                  match Expand(env, found.value, depth + 1)
                  case Failure(error) => whole == Failure(error)
                  case Success(text) => whole == Prepend(done + text, ExpandFrom(env, val, next, depth))
  {
    hide ScanAt, Expand;
    var t := ScanAt(val.v, i);
    if t.Lit? || t.Ref? {
      var rest := ExpandFrom(env, val, t.next, depth);
      if rest.Success? {
        if t.Lit? {
          assert done + (t.text + rest.value) == (done + t.text) + rest.value;
        } else if depth <= MAX_LOOKUPS {
          var found := env(val.pos, t.name);
          if found == None {
            assert "" + rest.value == rest.value;
          } else if Expand(env, found.value, depth + 1).Success? {
            var text := Expand(env, found.value, depth + 1).value;
            assert done + (text + rest.value) == (done + text) + rest.value;
          }
        }
      }
    }
  }

  /** The shortcut for values without escapes agrees with the loop. */
  lemma {:induction false} NoEscapeIsLiteral(env: Env, val: EvalString, i: nat, depth: nat)
    requires i <= |val.v| && depth <= MAX_LOOKUPS + 1
    requires '$' !in val.v
    ensures ExpandFrom(env, val, i, depth) == Success(val.v[i..])
    decreases |val.v| - i
  {
    if i < |val.v| {
      var c := val.v[i];
      assert c in val.v;
      NoEscapeIsLiteral(env, val, i + 1, depth);
      assert ScanAt(val.v, i) == Lit([c], i + 1);
      assert [c] + val.v[i + 1..] == val.v[i..];
    } else {
      assert val.v[i..] == "";
    }
  }

  /** A value that refers to itself is an error, not an endless recursion. */
  lemma {:induction false} SelfReferenceFails(env: Env, name: string, val: EvalString, depth: nat)
    requires depth <= MAX_LOOKUPS + 1 && '}' !in name
    requires val.v == "${" + name + "}" && val.esc > 0 && env(val.pos, name) == Some(val)
    ensures Expand(env, val, depth) == Failure(Cycle)
    decreases MAX_LOOKUPS + 1 - depth
  {
    var v := val.v;
    var close := IndexByte(v, 2, '}');
    forall k | 2 <= k < 2 + |name| ensures v[k] != '}' {
      assert v[k] == name[k - 2];
      assert name[k - 2] in name;
    }
    assert v[2 + |name|] == '}';
    assert close == 2 + |name|;
    assert v[2..close] == name;
    assert ScanAt(val.v, 0) == Ref(name, |val.v|);
    if depth <= MAX_LOOKUPS {
      SelfReferenceFails(env, name, val, depth + 1);
    }
  }

  // ------------------------------------------------------------------ parsing

  /** Where the parser goes on after the `$` at `i`, if it accepts the escape. */
  function AfterEscape(v: string, i: nat): (next: Option<nat>)
    requires i < |v| && v[i] == '$'
    ensures next.Some? ==> i + 1 < next.value <= |v|
  {
    if i + 1 == |v| then None
    else
      var c := v[i + 1];
      if c == ' ' || c == '\t' || c == ':' || c == '$' || c == '\n' then Some(i + 2)
      else if c == '\r' then if i + 2 == |v| || v[i + 2] != '\n' then None else Some(i + 3)
      else if c == '{' then
        var close := IndexByte(v, i + 2, '}');
        if close == |v| then None else Some(close + 1)
      else if IsSimpleVarname(c) then Some(NameEnd(v, i + 1))
      else None
  }

  /** The number of escapes from `i` on, if the parser accepts them all. */
  function Escapes(v: string, i: nat): Option<nat>
    requires i <= |v|
    decreases |v| - i
  {
    var j := IndexByte(v, i, '$');
    if j == |v| then Some(0)
    else
      match AfterEscape(v, j)
      case None => None
      case Some(next) =>
        match Escapes(v, next) {
          case None => None
          case Some(n) => Some(n + 1)
        }
  }

  predicate HasSuffix(v: string, suffix: string) {
    |suffix| <= |v| && v[|v| - |suffix|..] == suffix
  }

  function TrimSuffix(v: string, suffix: string): (r: string)
    ensures r <= v
    ensures r == v <==> !HasSuffix(v, suffix) || suffix == ""
  {
    if HasSuffix(v, suffix) then v[..|v| - |suffix|] else v
  }

  /** The text behind the leading spaces, escaped ones included. */
  function ValueText(text: string): string {
    text[SkipSpaces(text, 0, |text|)..]
  }

  /** What the parser makes of a value: it trims the newline at the end after it
      has counted the escapes. */
  function ParsedValue(text: string): (r: Option<EvalString>)
    ensures r == None <==> Escapes(ValueText(text), 0) == None
  {
    var v := ValueText(text);
    match Escapes(v, 0)
    case None => None
    case Some(esc) => Some(EvalString(0, TrimSuffix(TrimSuffix(v, "\r\n"), "\n"), esc))
  }

  /** `parseEvalString`. */
  method ParseEvalString(text: string) returns (r: Option<EvalString>)
    ensures r == ParsedValue(text)
  {
    var s := SkipSpacesLoop(text, 0, |text|);
    var v := text[s..];
    var esc := 0;
    var i := 0;
    while i < |v|
      invariant i <= |v|
      invariant Escapes(v, 0) == match Escapes(v, i) case None => None case Some(n) => Some(esc + n)
    {
      i := IndexByte(v, i, '$');
      if i == |v| {
        break;
      }
      var next := AfterEscape(v, i);
      if next == None {
        return None;
      }
      esc := esc + 1;
      i := next.value;
    }
    return Some(EvalString(0, TrimSuffix(TrimSuffix(v, "\r\n"), "\n"), esc));
  }

  /** The counter says whether there is anything to expand, which is what makes
      the shortcut of the evaluator right. */
  lemma {:induction false} CountedIffDollar(v: string, i: nat)
    requires i <= |v| && Escapes(v, i).Some?
    ensures Escapes(v, i) == Some(0) <==> '$' !in v[i..]
    decreases |v| - i
  {
    var j := IndexByte(v, i, '$');
    if j < |v| {
      assert v[i..][j - i] == '$';
    }
  }

  /** Is a tab escaped at one of the escapes the parser sees from `i` on? */
  predicate EscapesTab(v: string, i: nat)
    requires i <= |v|
    decreases |v| - i
  {
    var j := IndexByte(v, i, '$');
    j < |v| && j + 1 < |v| && (v[j + 1] == '\t' || (AfterEscape(v, j).Some? && EscapesTab(v, AfterEscape(v, j).value)))
  }

  function NoVariables(): Env {
    (pos, name) => None
  }

  /** Everything a value at `pos` can refer to expands. */
  ghost predicate LookupsExpand(env: Env, pos: int) {
    forall name :: env(pos, name).Some? ==> Expand(env, env(pos, name).value, 1).Success?
  }

  /** Does `val` expand from `i` on? */
  predicate ExpandsAt(env: Env, val: EvalString, i: nat)
    requires i <= |val.v|
  {
    ExpandFrom(env, val, i, 0).Success?
  }

  lemma PieceExpands(env: Env, val: EvalString, i: nat)
    requires LookupsExpand(env, val.pos) && i < |val.v|
    ensures var t := ScanAt(val.v, i); ExpandsAt(env, val, i) <==> !t.Bad? && ExpandsAt(env, val, t.next)
  {
    hide ScanAt, Expand;
  }

  lemma {:induction false} SkipLiterals(env: Env, val: EvalString, i: nat, j: nat)
    requires LookupsExpand(env, val.pos) && i <= j <= |val.v|
    requires forall k :: i <= k < j ==> val.v[k] != '$'
    ensures ExpandsAt(env, val, i) <==> ExpandsAt(env, val, j)
    decreases j - i
  {
    hide ExpandsAt, LookupsExpand;
    if i < j {
      SkipLiterals(env, val, i + 1, j);
      assert ScanAt(val.v, i) == Lit([val.v[i]], i + 1);
      PieceExpands(env, val, i);
    }
  }

  /** The number of `$` that `s` ends in. */
  function TrailingDollars(s: string): nat {
    if s == "" || s[|s| - 1] != '$' then 0 else 1 + TrailingDollars(s[..|s| - 1])
  }

  predicate AllNewlines(s: string) {
    forall k :: 0 <= k < |s| ==> s[k] == '\n' || s[k] == '\r'
  }

  lemma {:induction false} TrailingSkips(w: string, i: nat, n: nat)
    requires i < n <= |w| && w[n - 1] != '$'
    ensures TrailingDollars(w[i..]) == TrailingDollars(w[n..])
    decreases |w| - n
  {
    assert w[i..][|w| - i - 1] == w[|w| - 1];
    if n < |w| {
      assert w[n..][|w| - n - 1] == w[|w| - 1];
      var init := w[..|w| - 1];
      assert w[i..][..|w| - i - 1] == init[i..];
      assert w[n..][..|w| - n - 1] == init[n..];
      TrailingSkips(init, i, n);
    }
  }

  lemma {:induction false} TrailingPair(w: string, i: nat)
    requires i + 2 <= |w| && w[i] == '$' && w[i + 1] == '$'
    ensures TrailingDollars(w[i..]) % 2 == TrailingDollars(w[i + 2..]) % 2
    decreases |w|
  {
    if |w| == i + 2 {
      assert w[i..] == "$$" && "$$"[..1] == "$" && "$"[..0] == "";
    } else {
      assert w[i..][|w| - i - 1] == w[|w| - 1] == w[i + 2..][|w| - i - 3];
      var init := w[..|w| - 1];
      assert w[i..][..|w| - i - 1] == init[i..];
      assert w[i + 2..][..|w| - i - 3] == init[i + 2..];
      TrailingPair(init, i);
    }
  }

  lemma {:induction false} NameEndsSame(v: string, w: string, i: nat)
    requires w <= v && AllNewlines(v[|w|..]) && i <= |w|
    ensures NameEnd(v, i) == NameEnd(w, i)
    decreases |w| - i
  {
    if i == |w| {
      assert i < |v| ==> v[i] == v[|w|..][0];
    } else if IsSimpleVarname(w[i]) {
      NameEndsSame(v, w, i + 1);
    }
  }

  /** An escape of `v` that lies in the trimmed text `w` with the byte behind it:
      the evaluator rejects a tab, and else goes on where the parser does but for
      whitespace. */
  lemma SameNext(v: string, w: string, j: nat)
    requires w <= v && AllNewlines(v[|w|..])
    requires j + 1 < |w| && w[j] == '$' && AfterEscape(v, j).Some?
    ensures var t := ScanAt(w, j);
            var next := AfterEscape(v, j).value;
            && (t.Bad? <==> v[j + 1] == '\t')
            && (next <= |w| || (next == |w| + 1 && t == Lit([], |w|) && w[|w| - 1] == '\r'))
            && (t.Bad? || (&& (forall k :: t.next <= k < next && k < |w| ==> w[k] != '$')
                           && (forall k :: next <= k < t.next ==> w[k] != '$')))
            && (v[j + 1] == '$' ==> next == j + 2)
            && (v[j + 1] != '$' && next <= |w| ==> w[next - 1] != '$')
  {
    var c := v[j + 1];
    assert c == w[j + 1];
    assert forall k :: |w| <= k < |v| ==> v[k] == v[|w|..][k - |w|];
    if c == '\n' || c == '\r' {
      var p := SkipWhitespace(w, j + 1, |w| - 1);
      assert forall k :: j + 1 <= k < p ==> IsWhitespace(w[k]);
    } else if c == '{' {
      assert IndexByte(v, j + 2, '}') < |w|;
      assert IndexByte(w, j + 2, '}') == IndexByte(v, j + 2, '}');
    } else if IsSimpleVarname(c) {
      NameEndsSame(v, w, j + 1);
    }
  }

  lemma {:induction false} ExpandsFrom(env: Env, v: string, val: EvalString, i: nat)
    requires LookupsExpand(env, val.pos)
    requires val.v <= v && AllNewlines(v[|val.v|..])
    requires i <= |val.v| && Escapes(v, i).Some?
    ensures ExpandsAt(env, val, i) <==> !EscapesTab(v, i) && TrailingDollars(val.v[i..]) % 2 == 0
    decreases |val.v| - i
  {
    hide ScanAt, AfterEscape, LookupsExpand, ExpandsAt;
    var w := val.v;
    var j := IndexByte(v, i, '$');
    assert forall k :: |w| <= k < |v| ==> v[k] == v[|w|..][k - |w|];
    if j >= |w| {
      SkipLiterals(env, val, i, |w|);
      EndExpands(env, val);
      if i < |w| {
        assert w[i..][|w| - i - 1] == w[|w| - 1];
      }
    } else {
      SkipLiterals(env, val, i, j);
      if i < j {
        TrailingSkips(w, i, j);
      }
      if j + 1 == |w| {
        LoneDollar(env, val);
      } else {
        ExpandsPast(env, v, val, j);
        var next := AfterEscape(v, j).value;
        if next <= |w| {
          ExpandsFrom(env, v, val, next);
        } else {
          assert IndexByte(v, next, '$') == |v|;
        }
      }
    }
  }

  lemma EndExpands(env: Env, val: EvalString)
    ensures ExpandsAt(env, val, |val.v|)
  {
  }

  lemma LoneDollar(env: Env, val: EvalString)
    requires val.v != "" && val.v[|val.v| - 1] == '$'
    ensures !ExpandsAt(env, val, |val.v| - 1)
    ensures TrailingDollars(val.v[|val.v| - 1..]) == 1
  {
    hide AfterNewline, NameEnd, IndexByte, SkipWhitespace, Expand;
    assert ScanAt(val.v, |val.v| - 1) == Bad(BadEscape);
    assert val.v[|val.v| - 1..] == "$" && "$"[..0] == "";
  }

  /** One escape inside the trimmed text. */
  lemma {:induction false} ExpandsPast(env: Env, v: string, val: EvalString, j: nat)
    requires LookupsExpand(env, val.pos)
    requires val.v <= v && AllNewlines(v[|val.v|..])
    requires j + 1 < |val.v| && val.v[j] == '$' && AfterEscape(v, j).Some?
    ensures var next := AfterEscape(v, j).value;
            if v[j + 1] == '\t' then !ExpandsAt(env, val, j)
            else if next > |val.v| then ExpandsAt(env, val, j) && TrailingDollars(val.v[j..]) == 0
            else && ExpandsAt(env, val, j) == ExpandsAt(env, val, next)
                 && TrailingDollars(val.v[j..]) % 2 == TrailingDollars(val.v[next..]) % 2
  {
    hide ScanAt, AfterEscape, LookupsExpand, ExpandsAt;
    var w := val.v;
    SameNext(v, w, j);
    PieceExpands(env, val, j);
    var next := AfterEscape(v, j).value;
    if v[j + 1] != '\t' {
      var t := ScanAt(w, j);
      if next > |w| {
        EndExpands(env, val);
        assert w[j..][|w| - j - 1] == w[|w| - 1];
      } else {
        if t.next < next {
          SkipLiterals(env, val, t.next, next);
        } else {
          SkipLiterals(env, val, next, t.next);
        }
        if v[j + 1] == '$' {
          TrailingPair(w, j);
        } else {
          TrailingSkips(w, j, next);
        }
      }
    }
  }

  lemma TrimsNewlines(v: string)
    ensures var w := TrimSuffix(TrimSuffix(v, "\r\n"), "\n"); w <= v && AllNewlines(v[|w|..])
  {
    var once := TrimSuffix(v, "\r\n");
    var w := TrimSuffix(once, "\n");
    assert v == once + v[|once|..] && once == w + once[|w|..];
    assert AllNewlines(v[|once|..]) && AllNewlines(once[|w|..]);
    assert v[|w|..] == once[|w|..] + v[|once|..];
  }

  /** The parser and the evaluator disagree twice: text the parser accepts
      expands, once what it refers to does, iff it does not escape a tab and
      trimming left no unescaped `$` at its end. */
  lemma ParsedTextExpands(env: Env, text: string, pos: int)
    requires ParsedValue(text).Some? && LookupsExpand(env, pos)
    ensures Evaluate(env, ParsedValue(text).value.(pos := pos)).Success?
       <==> !EscapesTab(ValueText(text), 0) && TrailingDollars(ParsedValue(text).value.v) % 2 == 0
  {
    hide ScanAt, AfterEscape, IndexByte, ExpandFrom, SkipSpaces, LookupsExpand;
    var v := ValueText(text);
    var val := ParsedValue(text).value.(pos := pos);
    TrimsNewlines(v);
    ExpandsFrom(env, v, val, 0);
    assert val.v[0..] == val.v && v[0..] == v;
    CountedIffDollar(v, 0);
    if val.v == "" || val.esc == 0 {
      assert '$' !in val.v;
      NoEscapeIsLiteral(env, val, 0, 0);
    }
  }

  /** Both ways to be accepted and then rejected. */
  lemma AcceptedNotExpanded()
    ensures ParsedValue("a$\tb") == Some(EvalString(0, "a$\tb", 1))
    ensures ParsedValue("a$\n") == Some(EvalString(0, "a$", 1))
    ensures Evaluate(NoVariables(), EvalString(0, "a$\tb", 1)).Failure?
    ensures Evaluate(NoVariables(), EvalString(0, "a$", 1)).Failure?
  {
    var t, n := "a$\tb", "a$\n";
    assert SkipSpaces(t, 0, |t|) == 0 == SkipSpaces(n, 0, |n|);
    assert t[0..] == t && n[0..] == n;
    assert IndexByte(t, 0, '$') == 1 == IndexByte(n, 0, '$');
    assert IndexByte(t, 3, '$') == 4 && Escapes(n, 3) == Some(0);
    assert n[..2] == "a$" && n[1..] == "$\n";
    ParsedTextExpands(NoVariables(), t, 0);
    ParsedTextExpands(NoVariables(), n, 0);
    assert "a$"[..1] == "a";
  }

  // --------------------------------------------------- declarations of a file

  datatype Decl = Decl(name: string, value: EvalString)

  /** Declarations in file order: positions grow. */
  predicate InOrder(decls: seq<Decl>) {
    && (forall k :: 0 <= k < |decls| ==> decls[k].value.pos >= 0)
    && forall j, k :: 0 <= j < k < |decls| ==> decls[j].value.pos < decls[k].value.pos
  }

  /** What a lookup at `pos` finds: the last earlier declaration of the name. */
  function LastBefore(decls: seq<Decl>, pos: int, name: string): Option<EvalString> {
    if decls == [] then None
    else
      var last := decls[|decls| - 1];
      if last.name == name && (pos < 0 || last.value.pos < pos) then Some(last.value)
      else LastBefore(decls[..|decls| - 1], pos, name)
  }

  /** A value evaluated on the spot, and how deep its references nest. */
  datatype Eager = Eager(result: Result<string, EvalError>, depth: nat)

  type EagerEnv = map<string, Eager>

  function Max(a: nat, b: nat): nat {
    if a >= b then a else b
  }

  function EagerExpand(env: EagerEnv, val: EvalString): Eager {
    if val.v == "" then Eager(Success(""), 0)
    else if val.esc == 0 then Eager(Success(val.v), 0)
    else EagerFrom(env, val.v, 0)
  }

  /** Substituting the values the names have now. */
  function EagerFrom(env: EagerEnv, v: string, i: nat): Eager
    requires i <= |v|
    decreases |v| - i
  {
    if i == |v| then Eager(Success(""), 0)
    else
      match ScanAt(v, i)
      case Bad(error) => Eager(Failure(error), 0)
      case Lit(text, next) =>
        var rest := EagerFrom(env, v, next);
        Eager(Prepend(text, rest.result), rest.depth)
      case Ref(name, next) =>
        var rest := EagerFrom(env, v, next);
        var now := if name in env then env[name] else Eager(Success(""), 0);
        var depth := Max(1 + now.depth, rest.depth);
        if now.result.Failure? then Eager(now.result, depth)
        else Eager(Prepend(now.result.value, rest.result), depth)
  }

  /** Evaluating the declarations one after another, each in the values of those
      before it. */
  function EagerRun(decls: seq<Decl>): EagerEnv {
    if decls == [] then map[]
    else
      var env := EagerRun(decls[..|decls| - 1]);
      var last := decls[|decls| - 1];
      env[last.name := EagerExpand(env, last.value)]
  }

  /** The declarations before `pos`; all of them for a negative one. */
  function Earlier(decls: seq<Decl>, pos: int): (r: seq<Decl>)
    ensures r <= decls
  {
    if decls == [] then []
    else if pos < 0 || decls[|decls| - 1].value.pos < pos then decls
    else Earlier(decls[..|decls| - 1], pos)
  }

  /** A name's eager value comes from its last declaration. */
  lemma {:induction false} EagerLast(decls: seq<Decl>, name: string)
    requires InOrder(decls)
    ensures var found := LastBefore(decls, -1, name);
            && (found == None <==> name !in EagerRun(decls))
            && (found.Some? ==>
                  EagerRun(decls)[name] == EagerExpand(EagerRun(Earlier(decls, found.value.pos)), found.value))
  {
    hide EagerExpand;
    if decls != [] {
      var init := decls[..|decls| - 1];
      EagerLast(init, name);
      var last := decls[|decls| - 1];
      if last.name == name {
        EarlierAll(init, last.value.pos);
        assert Earlier(decls, last.value.pos) == Earlier(init, last.value.pos);
      } else {
        var found := LastBefore(init, -1, name);
        if found.Some? {
          FoundPos(init, -1, name);
          assert Earlier(decls, found.value.pos) == Earlier(init, found.value.pos);
        }
      }
    }
  }

  lemma {:induction false} EarlierAll(decls: seq<Decl>, pos: int)
    requires forall k :: 0 <= k < |decls| ==> decls[k].value.pos < pos
    ensures Earlier(decls, pos) == decls
  {
  }

  lemma {:induction false} FoundPos(decls: seq<Decl>, pos: int, name: string)
    ensures var found := LastBefore(decls, pos, name);
            found.Some? ==> exists k :: 0 <= k < |decls| && decls[k] == Decl(name, found.value)
                                         && (pos < 0 || found.value.pos < pos)
  {
    if decls != [] {
      FoundPos(decls[..|decls| - 1], pos, name);
    }
  }

  lemma {:induction false} LookupEarlier(decls: seq<Decl>, pos: int, name: string)
    requires InOrder(decls)
    ensures LastBefore(decls, pos, name) == LastBefore(Earlier(decls, pos), -1, name)
    ensures InOrder(Earlier(decls, pos))
  {
    if decls != [] {
      LookupEarlier(decls[..|decls| - 1], pos, name);
      if pos < 0 || decls[|decls| - 1].value.pos < pos {
        SameLookup(decls, pos, name);
      }
    }
  }

  lemma {:induction false} SameLookup(decls: seq<Decl>, pos: int, name: string)
    requires InOrder(decls) && decls != [] && (pos < 0 || decls[|decls| - 1].value.pos < pos)
    ensures LastBefore(decls, pos, name) == LastBefore(decls, -1, name)
  {
    var init := decls[..|decls| - 1];
    if init != [] {
      SameLookup(init, pos, name);
    }
  }

  lemma {:induction false} EarlierNested(decls: seq<Decl>, pos: int, p: int)
    requires InOrder(decls) && 0 <= p && (pos < 0 || p <= pos)
    ensures Earlier(Earlier(decls, pos), p) == Earlier(decls, p)
  {
    if decls != [] {
      EarlierNested(decls[..|decls| - 1], pos, p);
    }
  }

  /** An environment that answers for these declarations. */
  ghost predicate Resolves(env: Env, decls: seq<Decl>) {
    forall pos, name :: env(pos, name) == LastBefore(decls, pos, name)
  }

  /** Lazy evaluation at a position is eager evaluation of everything before
      it: the same text, whenever it succeeds, and it succeeds iff the eager
      evaluation does and references nest no deeper than the lookup limit. */
  lemma LazyIsEager(env: Env, decls: seq<Decl>, val: EvalString)
    requires InOrder(decls) && Resolves(env, decls)
    ensures var lazy := Evaluate(env, val);
            var eager := EagerExpand(EagerRun(Earlier(decls, val.pos)), val);
            && (lazy.Success? <==> eager.result.Success? && eager.depth <= 256)
            && (lazy.Success? ==> lazy == eager.result)
  {
    LazyIsEagerAt(env, decls, val, 0);
  }

  ghost predicate Agrees(lazy: Result<string, EvalError>, eager: Eager, depth: nat) {
    && (lazy.Success? <==> eager.result.Success? && depth + eager.depth <= MAX_LOOKUPS + 1)
    && (lazy.Success? ==> lazy == eager.result)
  }

  lemma {:induction false} LazyIsEagerAt(env: Env, decls: seq<Decl>, val: EvalString, depth: nat)
    requires InOrder(decls) && Resolves(env, decls) && depth <= MAX_LOOKUPS + 1
    ensures Agrees(Expand(env, val, depth), EagerExpand(EagerRun(Earlier(decls, val.pos)), val), depth)
    decreases MAX_LOOKUPS + 1 - depth, |val.v| + 1
  {
    hide EagerRun, Earlier;
    if val.v != "" && val.esc > 0 {
      LazyIsEagerFrom(env, decls, val, 0, depth);
    }
  }

  lemma {:induction false} LazyIsEagerFrom(env: Env, decls: seq<Decl>, val: EvalString, i: nat, depth: nat)
    requires InOrder(decls) && Resolves(env, decls) && depth <= MAX_LOOKUPS + 1 && i <= |val.v|
    ensures Agrees(ExpandFrom(env, val, i, depth), EagerFrom(EagerRun(Earlier(decls, val.pos)), val.v, i), depth)
    decreases MAX_LOOKUPS + 1 - depth, |val.v| - i
  {
    hide EagerRun, Earlier, LastBefore, EagerExpand, ScanAt, Expand, InOrder;
    if i < |val.v| {
      var t := ScanAt(val.v, i);
      if t.Lit? {
        LazyIsEagerFrom(env, decls, val, t.next, depth);
      } else if t.Ref? {
        LazyIsEagerFrom(env, decls, val, t.next, depth);
        LookupValue(decls, val.pos, t.name);
        var found := LastBefore(decls, val.pos, t.name);
        assert env(val.pos, t.name) == found;
        if found.Some? && depth <= MAX_LOOKUPS {
          LazyIsEagerAt(env, decls, found.value, depth + 1);
        }
      }
    }
  }

  /** What a reference at `pos` finds is what the eager run bound last. */
  lemma LookupValue(decls: seq<Decl>, pos: int, name: string)
    requires InOrder(decls)
    ensures var env := EagerRun(Earlier(decls, pos));
            var found := LastBefore(decls, pos, name);
            && (found == None <==> name !in env)
            && (found.Some? ==> env[name] == EagerExpand(EagerRun(Earlier(decls, found.value.pos)), found.value))
  {
    hide EagerExpand, EagerRun;
    LookupEarlier(decls, pos, name);
    EagerLast(Earlier(decls, pos), name);
    FoundPos(decls, pos, name);
    var found := LastBefore(decls, pos, name);
    if found.Some? {
      EarlierNested(decls, pos, found.value.pos);
    }
  }
}
