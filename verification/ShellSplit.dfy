/** Quoting arguments for a shell and splitting a command line back into them. */
module ShellSplit {
  import opened Wrappers
  import opened GoInts
  import opened Slices

  // -------------------------------------------------------------------- UTF-8

  /** The bytes of one rune: what ranging over a string steps by, and what
      `WriteRune` writes. */
  function Utf8(c: char): (b: Bytes)
    ensures 1 <= |b| <= 4
    ensures c < '\U{80}' ==> b == [c as int]
    ensures c >= '\U{80}' ==> forall x <- b :: x >= 0x80
  {
    var u := c as int;
    if u < 0x80 then [u]
    else if u < 0x800 then [0xC0 + u / 0x40, 0x80 + u % 0x40]
    else if u < 0x1_0000 then [0xE0 + u / 0x1000, 0x80 + u / 0x40 % 0x40, 0x80 + u % 0x40]
    else [0xF0 + u / 0x4_0000, 0x80 + u / 0x1000 % 0x40, 0x80 + u / 0x40 % 0x40, 0x80 + u % 0x40]
  }

  function Encode(s: string): Bytes {
    if s == "" then [] else Utf8(s[0]) + Encode(s[1..])
  }

  lemma {:induction false} EncodeConcat(s: string, t: string)
    ensures Encode(s + t) == Encode(s) + Encode(t)
  {
    hide Utf8;
    if s == "" {
      assert s + t == t;
    } else {
      EncodeConcat(s[1..], t);
      assert (s + t)[1..] == s[1..] + t && (s + t)[0] == s[0];
      Assoc(Utf8(s[0]), Encode(s[1..]), Encode(t));
    }
  }

  function EncodeAll(args: seq<string>): seq<Bytes> {
    if args == [] then [] else [Encode(args[0])] + EncodeAll(args[1..])
  }

  // ----------------------------------------------------------------- escaping

  predicate IsShellSafe(c: char) {
    'A' <= c <= 'Z' || 'a' <= c <= 'z' || '0' <= c <= '9' || c in "_+-./"
  }

  predicate NeedsEscape(s: string) {
    exists c <- s :: !IsShellSafe(c)
  }

  method NeedShellEscape(s: string) returns (needed: bool)
    ensures needed <==> NeedsEscape(s)
  {
    for i := 0 to |s|
      invariant forall k :: 0 <= k < i ==> IsShellSafe(s[k])
    {
      if !IsShellSafe(s[i]) {
        return true;
      }
    }
    return false;
  }

  /** A rune inside single quotes: a quote closes them, is written escaped, and
      opens them again. */
  function QuotedRune(c: char): string {
    if c == '\'' then "'\\''" else [c]
  }

  function Quoted(s: string): string {
    if s == "" then "" else QuotedRune(s[0]) + Quoted(s[1..])
  }

  function Escape(s: string): string {
    if NeedsEscape(s) then "'" + Quoted(s) + "'" else s
  }

  method ShellEscape(s: string) returns (r: string)
    ensures r == Escape(s)
  {
    var needed := NeedShellEscape(s);
    if !needed {
      return s;
    }
    r := "'";
    for i := 0 to |s|
      invariant r + Quoted(s[i..]) == "'" + Quoted(s)
    {
      assert r + (QuotedRune(s[i]) + Quoted(s[i + 1..])) == (r + QuotedRune(s[i])) + Quoted(s[i + 1..]);
      r := r + QuotedRune(s[i]);
    }
    assert s[|s|..] == "";
    r := r + "'";
  }

  /** `strings.Join` of the escaped arguments. */
  function CommandLine(args: seq<string>): string {
    if args == [] then ""
    else if |args| == 1 then Escape(args[0])
    else Escape(args[0]) + " " + CommandLine(args[1..])
  }

  // ---------------------------------------------------------------- splitting

  datatype SplitError = Metachar(c: char) | TrailingBackslash | UnclosedQuote | EnvSet

  /** The variables of the loop: the arguments cut so far, the argument buffer
      (absent while the argument is a plain slice of the line), the pending
      escape, the open quote, whether the last rune was a separator, and where
      the slice starts. */
  datatype State = State(
    args: seq<Bytes>, sb: Option<Bytes>, escaped: bool, qch: Option<char>, inspace: bool, si: nat)

  const START := State([], Some([]), false, None, false, 0)

  predicate IsMeta(c: char) {
    c in ";&|<>$#`"
  }

  /** The buffer a backslash or a quote goes on with: the slice so far is copied
      into it. */
  function Buffered(text: Bytes, st: State, off: nat): Bytes
    requires off <= |text|
  {
    var b := if st.sb == None then [] else st.sb.value;
    if st.si < off then b + text[st.si..off] else b
  }

  /** One rune at byte offset `off`. */
  function Step(text: Bytes, st: State, off: nat, c: char): Result<State, SplitError>
    requires off <= |text|
    requires st.escaped || st.qch.Some? ==> st.sb.Some?
  {
    if st.escaped then
      Success(st.(sb := Some(st.sb.value + Utf8(c)), escaped := false, si := off + 1))
    else if st.qch.Some? then
      if c == '\\' then Success(st.(escaped := true))
      else if c == st.qch.value then Success(st.(qch := None, si := off + 1))
      else Success(st.(sb := Some(st.sb.value + Utf8(c)), si := off + 1))
    else if c == '\\' then
      Success(st.(sb := Some(Buffered(text, st, off)), inspace := false, escaped := true, si := off + 1))
    else if c == '"' || c == '\'' then
      Success(st.(sb := Some(Buffered(text, st, off)), inspace := false, qch := Some(c), si := off + 1))
    else if c == ' ' || c == '\t' then
      if st.inspace then Success(st.(si := off + 1))
      else
        var arg := if st.sb.Some? then st.sb.value else if st.si < off then text[st.si..off] else [];
        Success(State(st.args + [arg], None, false, None, true, off + 1))
    else if IsMeta(c) then Failure(Metachar(c))
    else if !st.inspace && st.sb.Some? then
      Success(st.(sb := Some(st.sb.value + Utf8(c)), si := off + 1))
    else Success(st.(inspace := false))
  }

  /** The runes of `rest`, the first at byte offset `off`. */
  function Run(text: Bytes, st: State, off: nat, rest: string): Result<State, SplitError>
    requires off + |Encode(rest)| <= |text|
    requires st.escaped || st.qch.Some? ==> st.sb.Some?
    decreases |rest|
  {
    if rest == "" then Success(st)
    else
      var next :- Step(text, st, off, rest[0]);
      Run(text, next, off + |Utf8(rest[0])|, rest[1..])
  }

  /** After the loop. */
  function Finish(text: Bytes, st: State): Result<seq<Bytes>, SplitError> {
    if st.escaped then Failure(TrailingBackslash)
    else if st.qch.Some? then Failure(UnclosedQuote)
    else
      var args :=
        if st.sb.Some? then st.args + [st.sb.value]
        else if st.si < |text| then st.args + [text[st.si..]]
        else st.args;
      if |args| >= 1 && '=' as int in args[0] then Failure(EnvSet) else Success(args)
  }

  /** `unicode.IsSpace`. */
  predicate IsSpace(c: char) {
    c in "\t\n\U{b}\U{c}\r \U{85}\U{a0}\U{1680}\U{2028}\U{2029}\U{202f}\U{205f}\U{3000}"
    || '\U{2000}' <= c <= '\U{200a}'
  }

  function TrimLeft(s: string): (r: string) {
    if s != "" && IsSpace(s[0]) then TrimLeft(s[1..]) else s
  }

  function TrimRight(s: string): (r: string) {
    if s != "" && IsSpace(s[|s| - 1]) then TrimRight(s[..|s| - 1]) else s
  }

  /** `strings.TrimSpace`. */
  function TrimSpace(s: string): string {
    TrimRight(TrimLeft(s))
  }

  /** What `Split` returns. */
  function SplitLine(cmdline: string): Result<seq<Bytes>, SplitError> {
    var line := TrimSpace(cmdline);
    var st :- Run(Encode(line), START, 0, line);
    Finish(Encode(line), st)
  }

  lemma RunUnfolds(text: Bytes, st: State, off: nat, line: string, k: nat)
    requires k < |line| && off + |Encode(line[k..])| <= |text|
    requires st.escaped || st.qch.Some? ==> st.sb.Some?
    ensures |Encode(line[k..])| == |Utf8(line[k])| + |Encode(line[k + 1..])|
    ensures Run(text, st, off, line[k..])
         == match Step(text, st, off, line[k])
            case Failure(error) => Failure(error)
            case Success(next) => Run(text, next, off + |Utf8(line[k])|, line[k + 1..])
  {
    hide Utf8, Step;
    assert line[k..][1..] == line[k + 1..];
  }

  lemma RunNothing(text: Bytes, st: State, off: nat, rest: string)
    requires rest == "" && off + |Encode(rest)| <= |text|
    requires st.escaped || st.qch.Some? ==> st.sb.Some?
    ensures Run(text, st, off, rest) == Success(st)
  {
  }

  /** `Split`. */
  method Split(cmdline: string) returns (r: Result<seq<Bytes>, SplitError>)
    ensures r == SplitLine(cmdline)
  {
    hide Run, Encode, Utf8, TrimSpace, IsMeta;
    var args: seq<Bytes>, sb: Option<Bytes>, qch: Option<char> := [], Some([]), None;
    var escaped, inspace, si: nat := false, false, 0;
    var line := TrimSpace(cmdline);
    var text := Encode(line);
    var off: nat := 0;
    assert line[0..] == line;
    for k := 0 to |line|
      invariant off + |Encode(line[k..])| == |text|
      invariant escaped || qch.Some? ==> sb.Some?
      invariant Run(text, START, 0, line) == Run(text, State(args, sb, escaped, qch, inspace, si), off, line[k..])
    {
      var c, i := line[k], off;
      ghost var st := State(args, sb, escaped, qch, inspace, si);
      RunUnfolds(text, st, off, line, k);
      off := off + |Utf8(c)|;
      if escaped {
        sb := Some(sb.value + Utf8(c));
        escaped := false;
        si := i + 1;
      } else if qch.Some? {
        if c == '\\' {
          escaped := true;
        } else {
          if qch.value == c {
            qch := None;
          } else {
            sb := Some(sb.value + Utf8(c));
          }
          si := i + 1;
        }
      } else if c == '\\' || c == '"' || c == '\'' {
        if sb == None {
          sb := Some([]);
        }
        if si < i {
          sb := Some(sb.value + text[si..i]);
        }
        inspace := false;
        if c == '\\' {
          escaped := true;
        } else {
          qch := Some(c);
        }
        si := i + 1;
      } else if c == ' ' || c == '\t' {
        if !inspace {
          inspace := true;
          var arg := [];
          if sb.Some? {
            arg := sb.value;
            sb := None;
          } else if si < i {
            arg := text[si..i];
          }
          args := args + [arg];
        }
        si := i + 1;
      } else if IsMeta(c) {
        return Failure(Metachar(c));
      } else {
        if !inspace && sb.Some? {
          sb := Some(sb.value + Utf8(c));
          si := i + 1;
        }
        inspace := false;
      }
      assert Step(text, st, i, c) == Success(State(args, sb, escaped, qch, inspace, si));
    }
    assert Run(text, START, 0, line) == Success(State(args, sb, escaped, qch, inspace, si)) by {
      RunNothing(text, State(args, sb, escaped, qch, inspace, si), off, line[|line|..]);
    }
    if escaped {
      return Failure(TrailingBackslash);
    }
    if qch.Some? {
      return Failure(UnclosedQuote);
    }
    if sb.Some? {
      args := args + [sb.value];
    } else if si < |text| {
      args := args + [text[si..]];
    }
    if |args| >= 1 && '=' as int in args[0] {
      return Failure(EnvSet);
    }
    return Success(args);
  }

  // ------------------------------------------------- what splitting recovers

  lemma {:induction false} RunConcat(text: Bytes, st: State, off: nat, p: string, q: string)
    requires off + |Encode(p)| + |Encode(q)| <= |text|
    requires st.escaped || st.qch.Some? ==> st.sb.Some?
    ensures |Encode(p + q)| == |Encode(p)| + |Encode(q)|
    ensures var mid := Run(text, st, off, p);
            && (mid.Success? ==> (mid.value.escaped || mid.value.qch.Some? ==> mid.value.sb.Some?))
            && Run(text, st, off, p + q) == if mid.Failure? then mid else Run(text, mid.value, off + |Encode(p)|, q)
    decreases |p|
  {
    hide Utf8;
    EncodeConcat(p, q);
    if p == "" {
      assert p + q == q;
    } else {
      assert (p + q)[1..] == p[1..] + q;
      var next := Step(text, st, off, p[0]);
      if next.Success? {
        RunConcat(text, next.value, off + |Utf8(p[0])|, p[1..], q);
      }
    }
  }

  /** Nothing of the next argument read yet. */
  predicate AtStart(st: State, off: nat, done: seq<Bytes>) {
    && !st.escaped && st.qch == None && st.args == done && st.si == off
    && (if st.inspace then st.sb == None else st.sb == Some([]))
  }

  /** Inside single quotes, with `cur` of the argument read. */
  predicate InQuotes(st: State, done: seq<Bytes>, cur: Bytes) {
    !st.escaped && st.qch == Some('\'') && st.args == done && st.sb == Some(cur) && !st.inspace
  }

  /** Outside quotes, with all of the argument `cur` read. */
  predicate AtEnd(text: Bytes, st: State, off: nat, done: seq<Bytes>, cur: Bytes) {
    && !st.escaped && st.qch == None && st.args == done && !st.inspace && st.si <= off <= |text|
    && (if st.sb.Some? then st.sb.value == cur && st.si == off else st.si < off && text[st.si..off] == cur)
  }

  predicate NoBackslash(s: string) {
    '\\' !in s
  }

  lemma {:induction false} QuotedRuns(text: Bytes, st: State, off: nat, s: string, done: seq<Bytes>, cur: Bytes)
    requires off + |Encode(Quoted(s))| <= |text|
    requires InQuotes(st, done, cur) && NoBackslash(s)
    ensures var r := Run(text, st, off, Quoted(s));
            r.Success? && InQuotes(r.value, done, cur + Encode(s))
    decreases |s|
  {
    hide Utf8, Run, QuotedRune, InQuotes;
    QuotesKeepBuffer(st, done, cur);
    if s == "" {
      assert cur + [] == cur;
      RunNothing(text, st, off, "");
    } else {
      var c, p, q := s[0], QuotedRune(s[0]), Quoted(s[1..]);
      assert c in s;
      EncodeConcat(p, q);
      RunConcat(text, st, off, p, q);
      QuotedRuneRuns(text, st, off, c, done, cur);
      var mid := Run(text, st, off, p).value;
      assert NoBackslash(s[1..]);
      QuotedRuns(text, mid, off + |Encode(p)|, s[1..], done, cur + Utf8(c));
      assert cur + Encode(s) == cur + Utf8(c) + Encode(s[1..]);
    }
  }

  lemma QuotesKeepBuffer(st: State, done: seq<Bytes>, cur: Bytes)
    requires InQuotes(st, done, cur)
    ensures st.sb.Some?
  {
  }

  lemma RunOne(text: Bytes, st: State, off: nat, c: char)
    requires off + |Utf8(c)| <= |text|
    requires st.escaped || st.qch.Some? ==> st.sb.Some?
    ensures Encode([c]) == Utf8(c)
    ensures Run(text, st, off, [c]) == Step(text, st, off, c)
  {
    hide Utf8;
    assert [c][1..] == "" && Utf8(c) + [] == Utf8(c);
    var next := Step(text, st, off, c);
    if next.Success? {
      RunNothing(text, next.value, off + |Utf8(c)|, "");
    }
  }

  lemma QuoteEscapeEncoded()
    ensures Encode("'\\''") == ['\'' as int, '\\' as int, '\'' as int, '\'' as int]
  {
    var s := "'\\''";
    assert s[1..] == "\\''" && s[1..][1..] == "''" && s[1..][1..][1..] == "'" && s[1..][1..][1..][1..] == "";
  }

  lemma {:induction false} QuotedRuneRuns(text: Bytes, st: State, off: nat, c: char, done: seq<Bytes>, cur: Bytes)
    requires off + |Encode(QuotedRune(c))| <= |text|
    requires InQuotes(st, done, cur) && c != '\\'
    ensures var r := Run(text, st, off, QuotedRune(c));
            r.Success? && InQuotes(r.value, done, cur + Utf8(c))
  {
    if c == '\'' {
      hide Run, Encode;
      QuoteEscapeEncoded();
      var a := Step(text, st, off, '\'').value;
      var b := Step(text, a, off + 1, '\\').value;
      var d := Step(text, b, off + 2, '\'').value;
      RunPair(text, st, off, '\'', '\\');
      RunPair(text, b, off + 2, '\'', '\'');
      assert "'\\" + "''" == "'\\''";
      RunConcat(text, st, off, "'\\", "''");
    } else {
      EncodeOne(c);
      RunOne(text, st, off, c);
    }
  }

  lemma EncodeOne(c: char)
    ensures Encode([c]) == Utf8(c)
  {
    hide Utf8;
    assert [c][1..] == "" && Utf8(c) + [] == Utf8(c);
  }

  /** Two ASCII runes. */
  lemma RunPair(text: Bytes, st: State, off: nat, c: char, d: char)
    requires off + 2 <= |text| && c < '\U{80}' && d < '\U{80}'
    requires st.escaped || st.qch.Some? ==> st.sb.Some?
    ensures |Encode([c, d])| == 2
    ensures Run(text, st, off, [c, d])
         == match Step(text, st, off, c)
            case Failure(error) => Failure(error)
            case Success(next) => Step(text, next, off + 1, d)
  {
    hide Step;
    assert [c] + [d] == [c, d];
    EncodeOne(c);
    EncodeOne(d);
    EncodeConcat([c], [d]);
    RunConcat(text, st, off, [c], [d]);
    RunOne(text, st, off, c);
    var next := Step(text, st, off, c);
    if next.Success? {
      RunOne(text, next.value, off + 1, d);
    }
  }

  predicate Closed(st: State) {
    !st.escaped && st.qch == None
  }

  lemma {:induction false} SafeStep(text: Bytes, st: State, off: nat, c: char, done: seq<Bytes>, cur: Bytes)
    requires IsShellSafe(c) && At<byte>(text, off, [c as int])
    requires AtEnd(text, st, off, done, cur) || (cur == [] && AtStart(st, off, done))
    ensures var r := Step(text, st, off, c);
            r.Success? && AtEnd(text, r.value, off + 1, done, cur + [c as int])
  {
    assert text[off] == text[off..off + 1][0];
    if st.sb == None {
      assert text[st.si..off + 1] == text[st.si..off] + [text[off]];
    }
  }

  lemma SpaceStep(text: Bytes, st: State, off: nat, done: seq<Bytes>, cur: Bytes)
    requires AtEnd(text, st, off, done, cur)
    ensures var r := Step(text, st, off, ' ');
            r.Success? && AtStart(r.value, off + 1, done + [cur]) && r.value.inspace
  {
  }

  /** An argument that needs no quoting stays a slice of the line. */
  lemma {:induction false} SafeRuns(text: Bytes, st: State, off: nat, s: string, done: seq<Bytes>, cur: Bytes)
    requires At<byte>(text, off, Encode(s)) && !NeedsEscape(s)
    requires AtEnd(text, st, off, done, cur) || (cur == [] && AtStart(st, off, done) && s != "")
    ensures var r := Run(text, st, off, s);
            r.Success? && AtEnd(text, r.value, off + |Encode(s)|, done, cur + Encode(s))
    decreases |s|
  {
    hide Run, Step, AtEnd, AtStart, At;
    if s == "" {
      assert cur + [] == cur;
      assert !st.escaped && st.qch == None by { EndIsClosed(text, st, off, done, cur); }
      AtFits<byte>(text, off, Encode(s));
      RunNothing(text, st, off, s);
    } else {
      var c, rest := s[0], s[1..];
      assert c in s && IsShellSafe(c);
      AtSplits<byte>(text, off, [c as int], Encode(rest));
      AtFits<byte>(text, off, Encode(s));
      StartIsClosed(text, st, off, done, cur);
      RunFirst(text, st, off, s);
      SafeStep(text, st, off, c, done, cur);
      var next := Step(text, st, off, c).value;
      SafeRuns(text, next, off + 1, rest, done, cur + [c as int]);
      assert cur + Encode(s) == cur + [c as int] + Encode(rest);
    }
  }

  lemma EndIsClosed(text: Bytes, st: State, off: nat, done: seq<Bytes>, cur: Bytes)
    requires AtEnd(text, st, off, done, cur)
    ensures Closed(st)
  {
  }

  lemma StartIsClosed(text: Bytes, st: State, off: nat, done: seq<Bytes>, cur: Bytes)
    requires AtEnd(text, st, off, done, cur) || AtStart(st, off, done)
    ensures Closed(st)
  {
  }

  lemma RunFirst(text: Bytes, st: State, off: nat, s: string)
    requires s != "" && off + |Encode(s)| <= |text|
    requires st.escaped || st.qch.Some? ==> st.sb.Some?
    ensures |Encode(s)| == |Utf8(s[0])| + |Encode(s[1..])|
    ensures Run(text, st, off, s)
         == match Step(text, st, off, s[0])
            case Failure(error) => Failure(error)
            case Success(next) => Run(text, next, off + |Utf8(s[0])|, s[1..])
  {
    assert s[0..] == s;
    RunUnfolds(text, st, off, s, 0);
  }

  /** One escaped, non-empty argument. */
  lemma ArgRuns(text: Bytes, st: State, off: nat, a: string, done: seq<Bytes>)
    requires At<byte>(text, off, Encode(Escape(a)))
    requires AtStart(st, off, done) && NoBackslash(a) && a != ""
    ensures var r := Run(text, st, off, Escape(a));
            r.Success? && AtEnd(text, r.value, off + |Encode(Escape(a))|, done, Encode(a))
  {
    hide Run, Encode, Utf8, At, AtStart, AtEnd, NoBackslash, NeedsEscape, Quoted;
    AtFits<byte>(text, off, Encode(Escape(a)));
    if NeedsEscape(a) {
      QuotedArgRuns(text, st, off, a, done);
    } else {
      SafeRuns(text, st, off, a, done, []);
      assert [] + Encode(a) == Encode(a);
    }
  }

  lemma QuotedArgRuns(text: Bytes, st: State, off: nat, a: string, done: seq<Bytes>)
    requires off + |Encode("'" + Quoted(a) + "'")| <= |text|
    requires AtStart(st, off, done) && NoBackslash(a)
    ensures var s := "'" + Quoted(a) + "'";
            var r := Run(text, st, off, s);
            r.Success? && AtEnd(text, r.value, off + |Encode(s)|, done, Encode(a))
  {
    hide Run, Encode, Quoted;
    var s := "'" + Quoted(a) + "'";
    assert s[1..] == Quoted(a) + "'";
    RunFirst(text, st, off, s);
    var open := Step(text, st, off, '\'').value;
    assert InQuotes(open, done, []);
    EncodeConcat(Quoted(a), "'");
    EncodeOne('\'');
    RunConcat(text, open, off + 1, Quoted(a), "'");
    QuotedRuns(text, open, off + 1, a, done, []);
    assert [] + Encode(a) == Encode(a);
    var shut := off + 1 + |Encode(Quoted(a))|;
    RunOne(text, Run(text, open, off + 1, Quoted(a)).value, shut, '\'');
  }

  function NonEmpty(args: seq<string>): (r: seq<string>)
    ensures |r| <= |args|
    ensures |r| == |args| <==> "" !in args
    ensures "" !in args ==> r == args
    ensures forall a <- r :: a in args
  {
    if args == [] then []
    else if args[0] == "" then NonEmpty(args[1..])
    else [args[0]] + NonEmpty(args[1..])
  }

  predicate NoBackslashes(args: seq<string>) {
    forall a <- args :: NoBackslash(a)
  }

  /** The arguments `Finish` hands out. */
  function Cut(text: Bytes, st: State): seq<Bytes> {
    if st.sb.Some? then st.args + [st.sb.value]
    else if st.si < |text| then st.args + [text[st.si..]]
    else st.args
  }

  /** A whole line, trimmed: it ends with an argument, and starts with one
      unless a separator was read before. */
  lemma {:induction false} LineRuns(text: Bytes, st: State, off: nat, args: seq<string>, done: seq<Bytes>)
    requires At<byte>(text, off, Encode(CommandLine(args))) && off + |Encode(CommandLine(args))| == |text|
    requires AtStart(st, off, done) && NoBackslashes(args)
    requires args != [] && args[|args| - 1] != "" && (args[0] != "" || st.inspace)
    ensures var r := Run(text, st, off, CommandLine(args));
            r.Success? && Closed(r.value) && Cut(text, r.value) == done + EncodeAll(NonEmpty(args))
    decreases |args|
  {
    hide Run, Escape, Encode, Utf8, Step, AtStart, AtEnd, At, Closed, Cut, NoBackslash, NonEmpty, EncodeAll;
    var a := args[0];
    NonEmptyStep(args);
    StartIsClosed(text, st, off, done, []);
    SepClosed(st);
    AtFits<byte>(text, off, Encode(CommandLine(args)));
    if |args| == 1 {
      ArgRuns(text, st, off, a, done);
      EndCut(text, Run(text, st, off, Escape(a)).value, done, Encode(a));
    } else {
      var e := Encode(Escape(a));
      var rest := CommandLine(args[1..]);
      EncodeJoined(Escape(a), rest);
      ArgAndSeparator(text, st, off, a, rest, done);
      var next := Run(text, st, off, Escape(a) + " ").value;
      var done' := if a == "" then done else done + [Encode(a)];
      AtSplits<byte>(text, off, e + [' ' as int], Encode(rest));
      RunConcat(text, st, off, Escape(a) + " ", rest);
      LineRuns(text, next, off + |e| + 1, args[1..], done');
      assert done' + EncodeAll(NonEmpty(args[1..])) == done + EncodeAll(NonEmpty(args));
    }
  }

  lemma NonEmptyStep(args: seq<string>)
    requires args != []
    ensures EncodeAll(NonEmpty(args))
         == (if args[0] == "" then [] else [Encode(args[0])]) + EncodeAll(NonEmpty(args[1..]))
    ensures |args| == 1 && args[0] != "" ==> EncodeAll(NonEmpty(args)) == [Encode(args[0])]
  {
    if args[0] != "" {
      assert NonEmpty(args)[1..] == NonEmpty(args[1..]);
    }
  }

  lemma SepClosed(st: State)
    requires Closed(st)
    ensures st.escaped || st.qch.Some? ==> st.sb.Some?
  {
  }

  lemma EndCut(text: Bytes, st: State, done: seq<Bytes>, cur: Bytes)
    requires AtEnd(text, st, |text|, done, cur)
    ensures Closed(st) && Cut(text, st) == done + [cur]
  {
    assert text[st.si..|text|] == text[st.si..];
  }

  /** An argument, empty or not, and the separator after it. */
  lemma {:induction false} ArgAndSeparator(text: Bytes, st: State, off: nat, a: string, rest: string, done: seq<Bytes>)
    requires At<byte>(text, off, Encode(Escape(a) + " " + rest)) && off + |Encode(Escape(a) + " ")| <= |text|
    requires AtStart(st, off, done) && NoBackslash(a) && (a != "" || st.inspace)
    ensures var r := Run(text, st, off, Escape(a) + " ");
            && r.Success? && r.value.inspace
            && AtStart(r.value, off + |Encode(Escape(a))| + 1, if a == "" then done else done + [Encode(a)])
  {
    hide Run, Escape, Encode, Utf8, AtEnd, At, NoBackslash;
    var e := Encode(Escape(a));
    EncodeJoined(Escape(a), rest);
    assert e + [' ' as int] + Encode(rest) == e + ([' ' as int] + Encode(rest));
    AtSplits<byte>(text, off, e, [' ' as int] + Encode(rest));
    AtFits<byte>(text, off, Encode(Escape(a) + " " + rest));
    EncodeOne(' ');
    RunConcat(text, st, off, Escape(a), " ");
    if a == "" {
      EscapeEmpty();
      RunNothing(text, st, off, "");
      RunOne(text, st, off, ' ');
    } else {
      ArgRuns(text, st, off, a, done);
      var mid := Run(text, st, off, Escape(a)).value;
      SpaceStep(text, mid, off + |e|, done, Encode(a));
      RunOne(text, mid, off + |e|, ' ');
    }
  }

  lemma EncodeJoined(p: string, q: string)
    ensures Encode(p + " ") == Encode(p) + [' ' as int]
    ensures Encode(p + " " + q) == Encode(p) + [' ' as int] + Encode(q)
    ensures Encode(" " + q) == [' ' as int] + Encode(q)
  {
    EncodeOne(' ');
    EncodeConcat(" ", q);
    EncodeConcat(p, " ");
    EncodeConcat(p + " ", q);
  }

  lemma EscapeEmpty()
    ensures Escape("") == "" && Encode("") == []
  {
  }

  // ----------------------------------------------------------------- trimming

  lemma {:induction false} TrimRightKeeps(s: string)
    ensures s != "" && !IsSpace(s[0]) ==> TrimRight(s) != "" && TrimRight(s)[0] == s[0]
  {
    if s != "" && IsSpace(s[|s| - 1]) {
      TrimRightKeeps(s[..|s| - 1]);
    }
  }

  lemma {:induction false} TrimLeftSpace(x: string)
    ensures TrimLeft(x + " ") == if TrimLeft(x) == "" then "" else TrimLeft(x) + " "
  {
    if x == "" {
      assert x + " " == " " && " "[1..] == "";
    } else {
      assert (x + " ")[1..] == x[1..] + " ";
      TrimLeftSpace(x[1..]);
    }
  }

  lemma TrimOuter(x: string)
    ensures TrimSpace(" " + x) == TrimSpace(x)
    ensures TrimSpace(x + " ") == TrimSpace(x)
  {
    assert (" " + x)[1..] == x;
    TrimLeftSpace(x);
    var t := TrimLeft(x) + " ";
    assert t[..|t| - 1] == TrimLeft(x);
  }

  lemma EscapeEnds(a: string)
    requires a != ""
    ensures var e := Escape(a); e != "" && !IsSpace(e[0]) && !IsSpace(e[|e| - 1])
  {
    if !NeedsEscape(a) {
      assert a[0] in a && a[|a| - 1] in a;
    }
  }

  lemma {:induction false} CommandLineEnds(args: seq<string>)
    requires args != []
    ensures var l := CommandLine(args);
            && (args[0] != "" ==> l != "" && !IsSpace(l[0]))
            && (args[|args| - 1] != "" ==> l != "" && !IsSpace(l[|l| - 1]))
  {
    hide Escape, IsSpace;
    if args[0] != "" {
      EscapeEnds(args[0]);
    }
    if |args| > 1 {
      CommandLineEnds(args[1..]);
    }
  }

  lemma {:induction false} DropLastEmpty(args: seq<string>)
    requires |args| > 1 && args[|args| - 1] == ""
    ensures CommandLine(args) == CommandLine(args[..|args| - 1]) + " "
    ensures NonEmpty(args) == NonEmpty(args[..|args| - 1])
  {
    EscapeEmpty();
    var init := args[..|args| - 1];
    if |args| > 2 {
      assert args[1..][..|args| - 2] == init[1..];
      DropLastEmpty(args[1..]);
      assert Escape(args[0]) + " " + (CommandLine(init[1..]) + " ")
          == Escape(args[0]) + " " + CommandLine(init[1..]) + " ";
    } else {
      assert args[1..] == [""] && init == [args[0]];
      assert Escape(args[0]) + " " + "" == Escape(args[0]) + " ";
      assert NonEmpty(args) == if args[0] == "" then NonEmpty([""]) else [args[0]] + NonEmpty([""]);
      assert NonEmpty([""]) == NonEmpty([""][1..]) == [];
    }
  }

  // ------------------------------------------------------------ main results

  lemma {:induction false} EqualsEncoded(s: string)
    ensures '=' as int in Encode(s) <==> '=' in s
  {
    if s != "" {
      EqualsEncoded(s[1..]);
    }
  }

  function Outcome(args: seq<string>): Result<seq<Bytes>, SplitError> {
    if args == [] then Success([[]])
    else if '=' in args[0] then Failure(EnvSet)
    else Success(EncodeAll(args))
  }

  lemma EmptyLine()
    ensures SplitLine("") == Success([[]])
  {
    assert TrimSpace("") == "" && Encode("") == [];
    RunNothing([], START, 0, "");
    var empty: Bytes := [];
    assert '=' as int !in empty;
    assert START.args + [empty] == [empty];
    assert Finish([], START) == Success([empty]);
  }

  /** Escaped arguments without backslashes come back but for the empty ones,
      which vanish; with no other argument a single empty one comes back. */
  lemma {:induction false} SplitOfEscaped(args: seq<string>)
    requires NoBackslashes(args)
    ensures SplitLine(CommandLine(args)) == Outcome(NonEmpty(args))
    decreases |args|
  {
    hide Run, Escape, IsSpace, TrimSpace, SplitLine, NoBackslash, NonEmpty, Encode, Outcome;
    var l := CommandLine(args);
    if args == [] || args == [""] {
      EscapeEmpty();
      assert l == "";
      EmptyLine();
      NothingLeft(args);
    } else if args[0] == "" {
      EscapeEmpty();
      assert l == " " + CommandLine(args[1..]);
      TrimOuter(CommandLine(args[1..]));
      SameTrimmed(l, CommandLine(args[1..]));
      DropFirstEmpty(args);
      SplitOfEscaped(args[1..]);
    } else if args[|args| - 1] == "" {
      DropLastEmpty(args);
      TrimOuter(CommandLine(args[..|args| - 1]));
      SameTrimmed(l, CommandLine(args[..|args| - 1]));
      SplitOfEscaped(args[..|args| - 1]);
    } else {
      SplitOfTrimmed(args);
    }
  }

  lemma NothingLeft(args: seq<string>)
    requires args == [] || args == [""]
    ensures Outcome(NonEmpty(args)) == Success([[]])
  {
    assert [""][1..] == [];
    assert NonEmpty(args) == [];
  }

  lemma DropFirstEmpty(args: seq<string>)
    requires args != [] && args[0] == ""
    ensures NonEmpty(args) == NonEmpty(args[1..])
  {
  }

  lemma SameTrimmed(l: string, l': string)
    requires TrimSpace(l) == TrimSpace(l')
    ensures SplitLine(l) == SplitLine(l')
  {
  }

  lemma SplitOfTrimmed(args: seq<string>)
    requires NoBackslashes(args) && args != [] && args[0] != "" && args[|args| - 1] != ""
    ensures SplitLine(CommandLine(args)) == Outcome(NonEmpty(args))
  {
    hide Run, Escape, IsSpace, CommandLine, NoBackslash, Encode, EncodeAll, NonEmpty;
    var l := CommandLine(args);
    CommandLineEnds(args);
    assert TrimSpace(l) == l;
    var text := Encode(l);
    assert text[0..|text|] == text;
    LineRuns(text, START, 0, args, []);
    var out := NonEmpty(args);
    assert [] + EncodeAll(out) == EncodeAll(out);
    FirstEncoded(args);
    EqualsEncoded(args[0]);
  }

  lemma FirstEncoded(args: seq<string>)
    requires args != [] && args[0] != ""
    ensures var out := NonEmpty(args);
            out != [] && out[0] == args[0] && EncodeAll(out) != [] && EncodeAll(out)[0] == Encode(args[0])
  {
  }

  // -------------------------------------------------------------- backslashes

  const BACKSLASH := '\\' as int

  function Count(s: string): nat {
    multiset(s)['\\']
  }

  /** Pairs of neighbouring backslashes. */
  function Pairs(s: string): nat {
    if |s| < 2 then 0
    else (if s[|s| - 2] == '\\' && s[|s| - 1] == '\\' then 1 else 0) + Pairs(s[..|s| - 1])
  }

  /** Backslashes in the arguments. */
  function Slashes(args: seq<Bytes>): nat {
    if args == [] then 0 else Slashes(args[..|args| - 1]) + multiset(args[|args| - 1])[BACKSLASH]
  }

  /** Backslashes read so far: a splitter writes one only after another. */
  function Written(st: State): nat {
    Slashes(st.args) + if st.sb.Some? then multiset(st.sb.value)[BACKSLASH] else 0
  }

  /** The pending slice holds none, once no escape is pending. */
  predicate SliceClean(text: Bytes, st: State, off: nat) {
    off <= |text| && (st.escaped || forall k :: st.si <= k < off ==> text[k] != BACKSLASH)
  }

  lemma Utf8Slash(c: char)
    ensures multiset(Utf8(c))[BACKSLASH] == if c == '\\' then 1 else 0
  {
    if c >= '\U{80}' {
      assert BACKSLASH !in Utf8(c);
    }
  }

  lemma CleanSlice(text: Bytes, i: nat, j: nat)
    requires i <= j <= |text| && forall k :: i <= k < j ==> text[k] != BACKSLASH
    ensures multiset(text[i..j])[BACKSLASH] == 0
  {
    assert BACKSLASH !in text[i..j];
  }

  lemma SlashesAppend(args: seq<Bytes>, b: Bytes)
    ensures Slashes(args + [b]) == Slashes(args) + multiset(b)[BACKSLASH]
  {
    assert (args + [b])[..|args|] == args;
  }

  lemma PairsAppend(s: string, c: char)
    ensures Pairs(s + [c]) == Pairs(s) + if c == '\\' && s != "" && s[|s| - 1] == '\\' then 1 else 0
  {
    assert (s + [c])[..|s|] == s;
  }

  /** A backslash that is written follows one that is not. */
  lemma StepWrites(text: Bytes, st: State, off: nat, c: char, prev: string)
    requires At<byte>(text, off, Utf8(c)) && SliceClean(text, st, off)
    requires st.escaped || st.qch.Some? ==> st.sb.Some?
    requires Written(st) <= Pairs(prev) && (st.escaped ==> prev != "" && prev[|prev| - 1] == '\\')
    ensures var r := Step(text, st, off, c);
            r.Success? ==> && Written(r.value) <= Pairs(prev + [c])
                           && (r.value.escaped ==> c == '\\')
                           && SliceClean(text, r.value, off + |Utf8(c)|)
  {
    hide Utf8, Pairs, Slashes;
    PairsAppend(prev, c);
    Utf8Slash(c);
    if st.si < off && !st.escaped {
      CleanSlice(text, st.si, off);
      SlashesAppend(st.args, text[st.si..off]);
    }
    SlashesAppend(st.args, []);
    if st.sb.Some? {
      SlashesAppend(st.args, st.sb.value);
    }
    var here := text[off..off + |Utf8(c)|];
    assert forall k :: off <= k < off + |Utf8(c)| ==> text[k] == here[k - off];
    assert c != '\\' ==> forall x <- Utf8(c) :: x != BACKSLASH;
    assert |Utf8(c)| > 1 ==> forall x <- Utf8(c) :: x != BACKSLASH;
  }

  lemma {:induction false} RunWrites(text: Bytes, st: State, off: nat, rest: string, prev: string)
    requires At<byte>(text, off, Encode(rest)) && SliceClean(text, st, off)
    requires st.escaped || st.qch.Some? ==> st.sb.Some?
    requires Written(st) <= Pairs(prev) && (st.escaped ==> prev != "" && prev[|prev| - 1] == '\\')
    ensures var r := Run(text, st, off, rest);
            r.Success? ==> Written(r.value) <= Pairs(prev + rest) && SliceClean(text, r.value, off + |Encode(rest)|)
    decreases |rest|
  {
    hide Utf8, Pairs, Slashes, At, Written, SliceClean;
    AtFits<byte>(text, off, Encode(rest));
    if rest == "" {
      assert prev + rest == prev;
    } else {
      var c := rest[0];
      AtSplits<byte>(text, off, Utf8(c), Encode(rest[1..]));
      StepWrites(text, st, off, c, prev);
      var next := Step(text, st, off, c);
      if next.Success? {
        assert prev + rest == prev + [c] + rest[1..];
        RunWrites(text, next.value, off + |Utf8(c)|, rest[1..], prev + [c]);
      }
    }
  }

  lemma {:induction false} PairsConcat(a: string, b: string)
    ensures Pairs(a + b) == Pairs(a) + Pairs(b)
                          + if a != "" && b != "" && a[|a| - 1] == '\\' && b[0] == '\\' then 1 else 0
  {
    if b == "" {
      assert a + b == a;
    } else {
      var init := b[..|b| - 1];
      assert a + b == a + init + [b[|b| - 1]] && b == init + [b[|b| - 1]];
      PairsConcat(a, init);
      PairsAppend(a + init, b[|b| - 1]);
      PairsAppend(init, b[|b| - 1]);
    }
  }

  lemma PairsShort(s: string)
    requires |s| < 2
    ensures Pairs(s) == 0
  {
  }

  lemma {:induction false} PairsTrimRight(s: string)
    ensures Pairs(TrimRight(s)) <= Pairs(s)
  {
    hide IsSpace;
    if s != "" && IsSpace(s[|s| - 1]) {
      PairsTrimRight(s[..|s| - 1]);
    }
  }

  lemma {:induction false} PairsTrimLeft(s: string)
    ensures Pairs(TrimLeft(s)) <= Pairs(s)
  {
    hide IsSpace, Pairs;
    if s != "" && IsSpace(s[0]) {
      PairsTrimLeft(s[1..]);
      assert [s[0]] + s[1..] == s;
      PairsConcat([s[0]], s[1..]);
    }
  }

  /** Quoting puts no two backslashes together. */
  lemma {:induction false} PairsQuoted(s: string)
    ensures Pairs(Quoted(s)) == Pairs(s)
    ensures s != "" ==> Quoted(s) != "" && (Quoted(s)[0] == '\\' <==> s[0] == '\\')
  {
    if s != "" {
      var c, rest := s[0], s[1..];
      PairsQuoted(rest);
      assert [c] + rest == s;
      PairsConcat([c], rest);
      PairsConcat(QuotedRune(c), Quoted(rest));
      PairsShort([c]);
      assert Pairs(QuotedRune(c)) == 0 by {
        if c == '\'' {
          PairsShort("'");
          PairsAppend("'", '\\');
          PairsAppend("'\\", '\'');
          PairsAppend("'\\'", '\'');
          assert "'\\''" == "'\\'" + ['\''] && "'\\'" == "'\\" + ['\''] && "'\\" == "'" + ['\\'];
        }
      }
    }
  }

  lemma PairsEscape(a: string)
    ensures Pairs(Escape(a)) == Pairs(a)
  {
    hide NeedsEscape, Pairs;
    if NeedsEscape(a) {
      PairsQuoted(a);
      PairsConcat("'", Quoted(a));
      PairsConcat("'" + Quoted(a), "'");
      PairsShort("'");
    }
  }

  function TotalPairs(args: seq<string>): nat {
    if args == [] then 0 else Pairs(args[0]) + TotalPairs(args[1..])
  }

  function TotalCount(args: seq<string>): nat {
    if args == [] then 0 else Count(args[0]) + TotalCount(args[1..])
  }

  lemma {:induction false} PairsLine(args: seq<string>)
    ensures Pairs(CommandLine(args)) == TotalPairs(args)
  {
    hide Escape, Pairs;
    if args == [] {
      PairsShort("");
    } else {
      PairsEscape(args[0]);
      if |args| > 1 {
        PairsLine(args[1..]);
        PairsConcat(Escape(args[0]), " ");
        PairsConcat(Escape(args[0]) + " ", CommandLine(args[1..]));
        PairsShort(" ");
      }
    }
  }

  lemma {:induction false} FewerPairs(s: string)
    ensures Pairs(s) + (if NoBackslash(s) then 0 else 1) <= Count(s)
  {
    if s != "" {
      var init, c := s[..|s| - 1], s[|s| - 1];
      assert s == init + [c];
      FewerPairs(init);
    }
  }

  lemma {:induction false} FewerPairsTotal(args: seq<string>)
    ensures TotalPairs(args) + (if NoBackslashes(args) then 0 else 1) <= TotalCount(args)
  {
    hide NoBackslash, Pairs, Count;
    if args != [] {
      FewerPairs(args[0]);
      FewerPairsTotal(args[1..]);
    }
  }

  lemma {:induction false} EncodedSlashes(s: string)
    ensures multiset(Encode(s))[BACKSLASH] == Count(s)
  {
    hide Utf8;
    if s != "" {
      Utf8Slash(s[0]);
      EncodedSlashes(s[1..]);
      assert s == [s[0]] + s[1..];
    }
  }

  lemma {:induction false} EncodedTotal(args: seq<string>)
    ensures Slashes(EncodeAll(args)) == TotalCount(args)
  {
    hide Count;
    if args != [] {
      EncodedSlashes(args[0]);
      EncodedTotal(args[1..]);
      SlashesConcat([Encode(args[0])], EncodeAll(args[1..]));
      assert Slashes([Encode(args[0])]) == Slashes([]) + multiset(Encode(args[0]))[BACKSLASH] by {
        SlashesAppend([], Encode(args[0]));
        assert [] + [Encode(args[0])] == [Encode(args[0])];
      }
    }
  }

  lemma {:induction false} SlashesConcat(a: seq<Bytes>, b: seq<Bytes>)
    ensures Slashes(a + b) == Slashes(a) + Slashes(b)
  {
    if b == [] {
      assert a + b == a;
    } else {
      var init, last := b[..|b| - 1], b[|b| - 1];
      assert a + b == a + init + [last];
      SlashesConcat(a, init);
      SlashesAppend(a + init, last);
    }
  }

  lemma CutSlashes(text: Bytes, st: State)
    requires SliceClean(text, st, |text|) && !st.escaped
    ensures Slashes(Cut(text, st)) == Written(st)
  {
    hide Slashes;
    if st.sb.Some? {
      SlashesAppend(st.args, st.sb.value);
    } else if st.si < |text| {
      CleanSlice(text, st.si, |text|);
      assert text[st.si..|text|] == text[st.si..];
      SlashesAppend(st.args, text[st.si..]);
    }
  }

  /** No output of a split holds more backslashes than the line holds pairs. */
  lemma SplitWrites(cmdline: string)
    ensures var r := SplitLine(cmdline); r.Success? ==> Slashes(r.value) <= Pairs(cmdline)
  {
    hide TrimSpace, Pairs, Slashes, Step, Run, Written, SliceClean, Encode;
    var line := TrimSpace(cmdline);
    var text := Encode(line);
    TrimmedPairs(cmdline);
    assert text[0..|text|] == text;
    StartWritten(text);
    assert "" + line == line;
    RunWrites(text, START, 0, line, "");
    var r := Run(text, START, 0, line);
    if r.Success? && !r.value.escaped {
      CutSlashes(text, r.value);
    }
  }

  lemma StartWritten(text: Bytes)
    ensures Written(START) == 0 && SliceClean(text, START, 0)
  {
  }

  lemma TrimmedPairs(s: string)
    ensures Pairs(TrimSpace(s)) <= Pairs(s)
  {
    PairsTrimLeft(s);
    PairsTrimRight(TrimLeft(s));
  }

  /** Exactly which argument lists survive being escaped, joined and split. */
  lemma SplitInvertsEscape(args: seq<string>)
    ensures SplitLine(CommandLine(args)) == Success(EncodeAll(args))
       <==> && args != [] && NoBackslashes(args) && '=' !in args[0]
            && ("" !in args || args == [""])
  {
    hide SplitLine, CommandLine, Encode, Pairs, Slashes, NoBackslash;
    if NoBackslashes(args) {
      SplitOfEscaped(args);
      EncodeAllLength(args);
      EncodeAllLength(NonEmpty(args));
      if args == [""] {
        EscapeEmpty();
        assert args[1..] == [] && EncodeAll(args) == [[]];
      }
      if NonEmpty(args) == [] && args != [] {
        AllEmpty(args);
      }
    } else {
      SplitWrites(CommandLine(args));
      PairsLine(args);
      FewerPairsTotal(args);
      EncodedTotal(args);
    }
  }

  lemma {:induction false} EncodeAllLength(args: seq<string>)
    ensures |EncodeAll(args)| == |args|
  {
    if args != [] {
      EncodeAllLength(args[1..]);
    }
  }

  lemma {:induction false} AllEmpty(args: seq<string>)
    requires NonEmpty(args) == []
    ensures forall a <- args :: a == ""
  {
    if args != [] {
      assert args[0] == "";
      AllEmpty(args[1..]);
      assert args == [args[0]] + args[1..];
    }
  }
}
