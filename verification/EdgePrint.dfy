/** Printing a build statement, and when parsing it gives the edge back. */
module EdgePrint {
  import opened Wrappers
  import opened Lexer
  import opened Eval
  import opened Slices
  import opened BuildParser
  import ChunkParser

  // ----------------------------------------------------------------- printing

  /** The part of an edge its build statement shows. Implicit outputs come last;
      so do implicit inputs, followed by the order-only ones. */
  datatype Edge = Edge(
    outputs: seq<string>, implicitOuts: nat, rule: string,
    inputs: seq<string>, implicitDeps: nat, orderOnlyDeps: nat, validations: seq<string>)
  {
    /** The counts of an edge the parser made. */
    predicate Valid() {
      implicitOuts <= |outputs| && implicitDeps + orderOnlyDeps <= |inputs|
    }

    function ExplicitOuts(): nat
      requires Valid()
    {
      |outputs| - implicitOuts
    }

    function ExplicitIns(): nat
      requires Valid()
    {
      |inputs| - implicitDeps - orderOnlyDeps
    }
  }

  predicate IsSpecial(c: char) {
    c == ' ' || c == '$' || c == ':'
  }

  function EscapedChar(c: char): string {
    if IsSpecial(c) then ['$', c] else [c]
  }

  function EscapeToken(s: string): string {
    if s == "" then "" else EscapedChar(s[0]) + EscapeToken(s[1..])
  }

  /** `escapeNinjaToken`. */
  method EscapeNinjaToken(s: string) returns (r: string)
    ensures r == EscapeToken(s)
  {
    if exists c <- s :: IsSpecial(c) {
      r := "";
      for i := 0 to |s|
        invariant r + EscapeToken(s[i..]) == EscapeToken(s)
      {
        assert r + EscapedChar(s[i]) + EscapeToken(s[i + 1..]) == r + EscapeToken(s[i..]);
        if s[i] == ' ' || s[i] == '$' || s[i] == ':' {
          r := r + "$";
        }
        r := r + [s[i]];
      }
      assert s[|s|..] == "";
    } else {
      NothingSpecial(s);
      r := s;
    }
  }

  lemma {:induction false} NothingSpecial(s: string)
    requires forall c <- s :: !IsSpecial(c)
    ensures EscapeToken(s) == s
  {
    if s != "" {
      NothingSpecial(s[1..]);
      assert s == [s[0]] + s[1..];
    }
  }

  /** A printed path: what stands before it, and what ends its line. */
  datatype Line = Line(mark: string, indent: string, path: string, fin: string)

  const FOLD := " $\n"
  const PIPE := "  | $\n"
  const PIPE2 := "  || $\n"

  function Render(l: Line): string {
    l.mark + (l.indent + EscapeToken(l.path) + l.fin)
  }

  function Text(lines: seq<Line>): string {
    if lines == [] then "" else Render(lines[0]) + Text(lines[1..])
  }

  function OutputLine(e: Edge, i: nat): Line
    requires e.Valid() && i < |e.outputs|
  {
    Line(if i == e.ExplicitOuts() then PIPE else "", if i < e.ExplicitOuts() then "  " else "    ", e.outputs[i], FOLD)
  }

  /** A single output stands on the first line, whatever its kind. */
  function OutputLines(e: Edge): seq<Line>
    requires e.Valid()
  {
    if |e.outputs| == 1 then [Line("", "", e.outputs[0], FOLD)]
    else seq(|e.outputs|, i requires 0 <= i < |e.outputs| => OutputLine(e, i))
  }

  function InputMark(e: Edge, i: nat): string
    requires e.Valid() && i < |e.inputs|
  {
    (if i == e.ExplicitIns() && e.implicitDeps > 0 then PIPE else "")
    + (if i == |e.inputs| - e.orderOnlyDeps then PIPE2 else "")
  }

  function InputLine(e: Edge, i: nat): Line
    requires e.Valid() && i < |e.inputs|
  {
    Line(InputMark(e, i),
         if i < e.ExplicitIns() then "  " else if i < |e.inputs| - e.orderOnlyDeps then "    " else "      ",
         e.inputs[i],
         if i < |e.inputs| - 1 then FOLD else "\n")
  }

  function InputLines(e: Edge): seq<Line>
    requires e.Valid()
  {
    seq(|e.inputs|, i requires 0 <= i < |e.inputs| => InputLine(e, i))
  }

  function ValidationLines(paths: seq<string>): seq<Line> {
    seq(|paths|, i requires 0 <= i < |paths| => Line("", "  ", paths[i], if i < |paths| - 1 then FOLD else "\n"))
  }

  function PrintedValidations(paths: seq<string>): string {
    if paths == [] then "" else "  |@ $\n" + Text(ValidationLines(paths))
  }

  function RuleText(rule: string): string {
    " : " + rule + FOLD
  }

  /** The whole build statement. */
  function Printed(e: Edge): string
    requires e.Valid()
  {
    "build " + (if |e.outputs| == 1 then "" else "$\n")
    + Text(OutputLines(e)) + RuleText(e.rule) + Text(InputLines(e)) + PrintedValidations(e.validations)
  }

  lemma NextLineOf(before: string, lines: seq<Line>, i: nat)
    requires i < |lines|
    ensures before + Text(lines[i..]) == before + Render(lines[i]) + Text(lines[i + 1..])
  {
    hide Render;
    assert lines[i..][1..] == lines[i + 1..];
    Assoc(before, Render(lines[i]), Text(lines[i + 1..]));
  }

  method PrintOutputs(e: Edge, w: Buffer)
    requires e.Valid() && |e.outputs| != 1
    modifies w
    ensures w.bytes == old(w.bytes) + Text(OutputLines(e))
  {
    hide EscapeToken, Text;
    ghost var lines := OutputLines(e);
    assert lines[0..] == lines;
    for i := 0 to |e.outputs|
      invariant w.bytes + Text(lines[i..]) == old(w.bytes) + Text(lines)
    {
      ghost var now := w.bytes;
      NextLineOf(now, lines, i);
      if i == |e.outputs| - e.implicitOuts {
        w.Write("  | $\n");
      } else {
        assert now + "" == now;
      }
      ghost var marked := w.bytes;
      var indent := if i < |e.outputs| - e.implicitOuts then "  " else "    ";
      var tok := EscapeNinjaToken(e.outputs[i]);
      w.Write(indent + tok + " $\n");
      Assoc(now, lines[i].mark, indent + tok + FOLD);
      assert w.bytes == now + Render(lines[i]);
    }
    NoMore(w.bytes, lines[|lines|..]);
  }

  lemma NoMore(before: string, lines: seq<Line>)
    requires lines == []
    ensures before + Text(lines) == before
  {
  }

  method PrintInputs(e: Edge, w: Buffer)
    requires e.Valid()
    modifies w
    ensures w.bytes == old(w.bytes) + Text(InputLines(e))
  {
    hide EscapeToken, Text, InputMark;
    ghost var lines := InputLines(e);
    assert lines[0..] == lines;
    for i := 0 to |e.inputs|
      invariant w.bytes + Text(lines[i..]) == old(w.bytes) + Text(lines)
    {
      ghost var now := w.bytes;
      NextLineOf(now, lines, i);
      PrintInputMark(e, i, w);
      var tok := EscapeNinjaToken(e.inputs[i]);
      var fin := if i < |e.inputs| - 1 then " $\n" else "\n";
      if i < |e.inputs| - e.orderOnlyDeps - e.implicitDeps {
        w.Write("  " + tok + fin);
      } else if i < |e.inputs| - e.orderOnlyDeps {
        w.Write("    " + tok + fin);
      } else {
        w.Write("      " + tok + fin);
      }
      Assoc(now, lines[i].mark, lines[i].indent + tok + fin);
      assert w.bytes == now + Render(lines[i]);
    }
    NoMore(w.bytes, lines[|lines|..]);
  }

  method PrintInputMark(e: Edge, i: nat, w: Buffer)
    requires e.Valid() && i < |e.inputs|
    modifies w
    ensures w.bytes == old(w.bytes) + InputMark(e, i)
  {
    var pipe := if i == |e.inputs| - e.orderOnlyDeps - e.implicitDeps && e.implicitDeps > 0 then "  | $\n" else "";
    var pipe2 := if i == |e.inputs| - e.orderOnlyDeps then "  || $\n" else "";
    w.Write(pipe);
    w.Write(pipe2);
    Assoc(old(w.bytes), pipe, pipe2);
  }

  method PrintValidations(paths: seq<string>, w: Buffer)
    modifies w
    ensures w.bytes == old(w.bytes) + Text(ValidationLines(paths))
  {
    hide EscapeToken, Text;
    ghost var lines := ValidationLines(paths);
    assert lines[0..] == lines;
    for i := 0 to |paths|
      invariant w.bytes + Text(lines[i..]) == old(w.bytes) + Text(lines)
    {
      ghost var now := w.bytes;
      NextLineOf(now, lines, i);
      var tok := EscapeNinjaToken(paths[i]);
      var fin := if i < |paths| - 1 then " $\n" else "\n";
      w.Write("  " + tok + fin);
      assert "" + ("  " + tok + fin) == "  " + tok + fin;
      assert w.bytes == now + Render(lines[i]);
    }
    NoMore(w.bytes, lines[|lines|..]);
  }

  /** The build statement of `Print`. */
  method Print(e: Edge, w: Buffer)
    requires e.Valid()
    modifies w
    ensures w.bytes == old(w.bytes) + Printed(e)
  {
    hide EscapeToken, Text, InputLines, ValidationLines;
    ghost var start := w.bytes;
    ghost var head := "build " + (if |e.outputs| == 1 then "" else "$\n");
    if |e.outputs| == 1 {
      var tok := EscapeNinjaToken(e.outputs[0]);
      w.Write("build " + tok + " $\n");
      SingleOutput(e);
    } else {
      w.Write("build $\n");
      PrintOutputs(e, w);
    }
    Assoc(start, head, Text(OutputLines(e)));
    assert w.bytes == start + (head + Text(OutputLines(e)));
    var rule := " : " + e.rule + " $\n";
    w.Write(rule);
    Assoc(start, head + Text(OutputLines(e)), rule);
    PrintInputs(e, w);
    Assoc(start, head + Text(OutputLines(e)) + rule, Text(InputLines(e)));
    ghost var before := w.bytes;
    if |e.validations| > 0 {
      w.Write("  |@ $\n");
      PrintValidations(e.validations, w);
      Assoc(before, "  |@ $\n", Text(ValidationLines(e.validations)));
    } else {
      assert before + "" == before;
    }
    Assoc(start, head + Text(OutputLines(e)) + rule + Text(InputLines(e)), PrintedValidations(e.validations));
  }

  lemma SingleOutput(e: Edge)
    requires e.Valid() && |e.outputs| == 1
    ensures "build " + "" + Text(OutputLines(e)) == "build " + EscapeToken(e.outputs[0]) + " $\n"
  {
    var l := OutputLines(e)[0];
    assert OutputLines(e)[1..] == [];
    assert Render(l) == EscapeToken(e.outputs[0]) + " $\n";
    assert Text(OutputLines(e)) == Render(l) + "";
  }

  // --------------------------------------------------------------- round trip

  /** Free of the bytes that end a path and that the printer does not escape. */
  predicate Clean(s: string) {
    forall k :: 0 <= k < |s| ==> s[k] != '\t' && s[k] != '\r' && s[k] != '\n' && s[k] != '|' && s[k] != '\0'
  }

  function Specials(s: string): nat {
    if s == "" then 0 else (if IsSpecial(s[0]) then 1 else 0) + Specials(s[1..])
  }

  /** What the parser makes of a printed path. */
  function Entry(s: string): EvalString {
    EvalString(0, EscapeToken(s), Specials(s))
  }

  /** A path without the spaces it starts with. */
  function Strip(s: string): (r: string)
    ensures |r| <= |s| && (r == "" || r[0] != ' ')
    ensures Clean(s) ==> Clean(r)
  {
    if s != "" && s[0] == ' ' then Strip(s[1..]) else s
  }

  /** The entries a printed path gives rise to: none, or one without the spaces. */
  function Kept(s: string): (r: seq<EvalString>)
    ensures |r| <= 1
  {
    if Strip(s) == "" then [] else [Entry(Strip(s))]
  }

  function KeptOf(paths: seq<string>): (r: seq<EvalString>)
    ensures |r| <= |paths|
  {
    if paths == [] then [] else Kept(paths[0]) + KeptOf(paths[1..])
  }

  function Paths(lines: seq<Line>): (r: seq<string>)
    ensures |r| == |lines| && forall k :: 0 <= k < |r| ==> r[k] == lines[k].path
  {
    seq(|lines|, i requires 0 <= i < |lines| => lines[i].path)
  }

  function Entries(lines: seq<Line>): seq<EvalString> {
    KeptOf(Paths(lines))
  }

  lemma AtChar(buf: string, off: nat, s: string, k: nat)
    requires At(buf, off, s) && k < |s|
    ensures buf[off + k] == s[k]
  {
    assert buf[off..off + |s|][k] == s[k];
  }

  /** White space and folded newlines. */
  predicate IsGap(g: string) {
    || g == ""
    || (IsWhitespace(g[0]) && IsGap(g[1..]))
    || (|g| > 1 && g[0] == '$' && g[1] == '\n' && IsGap(g[2..]))
  }

  lemma {:induction false} GapSkipped(buf: string, pos: nat, g: string)
    requires At(buf, pos, g) && IsGap(g)
    ensures SkipSpaces(buf, pos, |buf|) == SkipSpaces(buf, pos + |g|, |buf|)
    decreases |g|
  {
    if g != "" {
      AtChar(buf, pos, g, 0);
      if IsWhitespace(g[0]) && IsGap(g[1..]) {
        assert [g[0]] + g[1..] == g;
        AtSplits(buf, pos, [g[0]], g[1..]);
        GapSkipped(buf, pos + 1, g[1..]);
      } else {
        AtChar(buf, pos, g, 1);
        assert g[..2] + g[2..] == g;
        AtSplits(buf, pos, g[..2], g[2..]);
        GapSkipped(buf, pos + 2, g[2..]);
      }
    }
  }

  /** A list starts where the white space before it ends. */
  lemma SameList(buf: string, p: nat, q: nat)
    requires p <= |buf| && q <= |buf|
    requires SkipSpaces(buf, p, |buf|) == SkipSpaces(buf, q, |buf|)
    ensures ScanList(buf, p) == ScanList(buf, q)
  {
  }

  lemma {:induction false} TokenScanned(buf: string, q: nat, s: string)
    requires At(buf, q, EscapeToken(s))
    requires Clean(s)
    requires var e := q + |EscapeToken(s)|; e < |buf| && (buf[e] == ' ' || buf[e] == '\n')
    ensures ScanPath(buf, q) == (q + |EscapeToken(s)|, Specials(s))
    decreases |s|
  {
    hide ScanPath, EscapedChar, IsSpecial;
    var e := q + |EscapeToken(s)|;
    if s == "" {
      ScanEnds(buf, q);
    } else {
      var c, rest := s[0], s[1..];
      AtSplits(buf, q, EscapedChar(c), EscapeToken(rest));
      CharScanned(buf, q, c);
      TokenScanned(buf, q + |EscapedChar(c)|, rest);
    }
  }

  lemma ScanEnds(buf: string, q: nat)
    requires q < |buf| && (buf[q] == ' ' || buf[q] == '\n')
    ensures ScanPath(buf, q) == (q, 0)
  {
  }

  lemma CharScanned(buf: string, q: nat, c: char)
    requires At(buf, q, EscapedChar(c))
    requires c != '\t' && c != '\r' && c != '\n' && c != '|' && c != '\0'
    ensures var r := ScanPath(buf, q + |EscapedChar(c)|);
            ScanPath(buf, q) == (r.0, r.1 + if IsSpecial(c) then 1 else 0)
  {
    AtChar(buf, q, EscapedChar(c), 0);
    if IsSpecial(c) {
      AtChar(buf, q, EscapedChar(c), 1);
    }
  }

  lemma TokenStarts(buf: string, q: nat, s: string)
    requires At(buf, q, EscapeToken(s)) && s != "" && s[0] != ' ' && Clean(s)
    ensures EscapeToken(s) != "" && SkipSpaces(buf, q, |buf|) == q
  {
    var c := s[0];
    AtSplits(buf, q, EscapedChar(c), EscapeToken(s[1..]));
    AtChar(buf, q, EscapedChar(c), 0);
    if IsSpecial(c) {
      AtChar(buf, q, EscapedChar(c), 1);
    }
  }

  /** The spaces a path starts with are skipped, escaped as they are. */
  lemma {:induction false} LeadingSkipped(buf: string, q: nat, s: string) returns (q': nat)
    requires At(buf, q, EscapeToken(s))
    ensures q' + |EscapeToken(Strip(s))| == q + |EscapeToken(s)|
    ensures At(buf, q', EscapeToken(Strip(s)))
    ensures SkipSpaces(buf, q, |buf|) == SkipSpaces(buf, q', |buf|)
    decreases |s|
  {
    q' := q;
    if s != "" && s[0] == ' ' {
      assert EscapedChar(s[0]) == "$ ";
      AtSplits(buf, q, "$ ", EscapeToken(s[1..]));
      AtChar(buf, q, "$ ", 0);
      AtChar(buf, q, "$ ", 1);
      q' := LeadingSkipped(buf, q + 2, s[1..]);
    }
  }

  predicate LineOk(l: Line) {
    Clean(l.path) && (l.indent == "" || l.indent == "  " || l.indent == "    " || l.indent == "      ")
    && (l.fin == FOLD || l.fin == "\n")
  }

  function Body(l: Line): string {
    l.indent + EscapeToken(l.path) + l.fin
  }

  lemma Gaps(l: Line)
    requires LineOk(l)
    ensures IsGap(l.indent) && IsGap(l.fin) && (l.fin[0] == ' ' || l.fin[0] == '\n')
  {
    assert FOLD[1..] == "$\n" && FOLD[1..][2..] == "";
    assert "\n"[1..] == "";
    var s := "      ";
    assert s[1..] == "     " && s[1..][1..] == "    " && s[1..][1..][1..] == "   ";
    var t := "   ";
    assert t[1..] == "  " && t[1..][1..] == " " && t[1..][1..][1..] == "";
    assert IsGap("") && IsGap(" ") && IsGap("  ");
    assert IsGap("   ") && IsGap("    ");
    assert IsGap("     ") && IsGap("      ");
  }

  lemma ListHead(buf: string, q: nat, e: nat, esc: nat)
    requires q < e <= |buf|
    requires SkipSpaces(buf, q, |buf|) == q && ScanPath(buf, q) == (e, esc)
    ensures var (rest, stop) := ScanList(buf, e);
            ScanList(buf, q) == ([EvalString(0, buf[q..e], esc)] + rest, stop)
  {
  }

  lemma TokenHead(buf: string, q: nat, s: string)
    requires At(buf, q, EscapeToken(s)) && Clean(s)
    requires var e := q + |EscapeToken(s)|; e < |buf| && (buf[e] == ' ' || buf[e] == '\n')
    ensures var (rest, stop) := ScanList(buf, q + |EscapeToken(s)|);
            ScanList(buf, q) == (Kept(s) + rest, stop)
  {
    hide EscapeToken, SkipSpaces, ScanPath, ScanList, Clean;
    var e := q + |EscapeToken(s)|;
    var t := Strip(s);
    var q' := LeadingSkipped(buf, q, s);
    SameList(buf, q, q');
    if t == "" {
      NothingEscaped();
      assert [] + ScanList(buf, e).0 == ScanList(buf, e).0;
    } else {
      TokenStarts(buf, q', t);
      TokenScanned(buf, q', t);
      ListHead(buf, q', e, Specials(t));
    }
  }

  lemma NothingEscaped()
    ensures EscapeToken("") == ""
  {
  }

  /** One printed path, unmarked, is the next of the list. */
  lemma LineParsed(buf: string, pos: nat, l: Line)
    requires At(buf, pos, Body(l)) && LineOk(l)
    ensures var (rest, stop) := ScanList(buf, pos + |Body(l)|);
            ScanList(buf, pos) == (Kept(l.path) + rest, stop)
  {
    hide EscapeToken, IsGap, SkipSpaces, ScanPath, ScanList, Clean, At, Kept;
    var tok := EscapeToken(l.path);
    Gaps(l);
    AtSplits(buf, pos, l.indent + tok, l.fin);
    AtSplits(buf, pos, l.indent, tok);
    var q := pos + |l.indent|;
    var e := q + |tok|;
    AtFits(buf, e, l.fin);
    GapSkipped(buf, pos, l.indent);
    SameList(buf, pos, q);
    AtChar(buf, e, l.fin, 0);
    TokenHead(buf, q, l.path);
    GapSkipped(buf, e, l.fin);
    SameList(buf, e, e + |l.fin|);
  }

  /** Nothing that a list goes on with. */
  predicate Stops(buf: string, q: nat) {
    q <= |buf| && (q == |buf| || buf[q] == '|' || buf[q] == ':')
  }

  lemma ListStops(buf: string, pos: nat)
    requires pos <= |buf| && Stops(buf, SkipSpaces(buf, pos, |buf|))
    ensures ScanList(buf, pos) == ([], SkipSpaces(buf, pos, |buf|))
  {
    hide SkipSpaces;
  }

  predicate Plain(lines: seq<Line>) {
    forall i :: 0 <= i < |lines| ==> LineOk(lines[i]) && lines[i].mark == ""
  }

  /** A run of printed paths is read as one list. */
  lemma {:induction false} ListParsed(buf: string, pos: nat, lines: seq<Line>)
    requires At(buf, pos, Text(lines)) && Plain(lines)
    requires Stops(buf, SkipSpaces(buf, pos + |Text(lines)|, |buf|))
    ensures ScanList(buf, pos) == (Entries(lines), SkipSpaces(buf, pos + |Text(lines)|, |buf|))
    decreases |lines|
  {
    hide SkipSpaces, ScanList, LineOk, Stops, EscapeToken, Kept, At;
    if lines == [] {
      ListStops(buf, pos);
    } else {
      var l := lines[0];
      assert Paths(lines)[1..] == Paths(lines[1..]);
      assert Render(l) == Body(l) by { assert "" + Body(l) == Body(l); }
      AtSplits(buf, pos, Body(l), Text(lines[1..]));
      LineParsed(buf, pos, l);
      ListParsed(buf, pos + |Body(l)|, lines[1..]);
    }
  }

  lemma {:induction false} SkipTwice(buf: string, pos: nat)
    requires pos <= |buf|
    ensures var s := SkipSpaces(buf, pos, |buf|); SkipSpaces(buf, s, |buf|) == s
    decreases |buf| - pos
  {
    if pos == |buf| {
    } else if IsWhitespace(buf[pos]) {
      SkipTwice(buf, pos + 1);
    } else if buf[pos] != '$' || pos + 1 == |buf| {
    } else if buf[pos + 1] == '\n' || buf[pos + 1] == ' ' || buf[pos + 1] == '\t' {
      SkipTwice(buf, pos + 2);
    } else if buf[pos + 1] == '\r' && pos + 2 < |buf| && buf[pos + 2] == '\n' {
      SkipTwice(buf, pos + 3);
    }
  }

  lemma {:induction false} TextConcat(a: seq<Line>, b: seq<Line>)
    ensures Text(a + b) == Text(a) + Text(b)
  {
    hide Render;
    if a == [] {
      assert a + b == b;
    } else {
      TextConcat(a[1..], b);
      assert (a + b)[1..] == a[1..] + b;
      Assoc(Render(a[0]), Text(a[1..]), Text(b));
    }
  }

  lemma EntriesConcat(a: seq<Line>, b: seq<Line>)
    ensures Entries(a + b) == Entries(a) + Entries(b)
  {
    assert Paths(a + b) == Paths(a) + Paths(b);
    KeptConcat(Paths(a), Paths(b));
  }

  lemma {:induction false} KeptConcat(a: seq<string>, b: seq<string>)
    ensures KeptOf(a + b) == KeptOf(a) + KeptOf(b)
  {
    hide Kept;
    if a == [] {
      assert a + b == b;
    } else {
      KeptConcat(a[1..], b);
      assert (a + b)[1..] == a[1..] + b && (a + b)[0] == a[0];
      Assoc(Kept(a[0]), KeptOf(a[1..]), KeptOf(b));
    }
  }

  /** The separators of a statement, in their order. */
  function Sep(k: nat): string {
    if k == 0 then "|" else if k == 1 then "||" else "|@"
  }

  predicate SepAt(buf: string, s: nat, k: nat) {
    if k == 0 then PipeAt(buf, s) else PairAt(buf, s, if k == 1 then '|' else '@')
  }

  function Mark(k: nat): string {
    "  " + Sep(k) + FOLD
  }

  function Unmarked(lines: seq<Line>): seq<Line>
    requires lines != []
  {
    [lines[0].(mark := "")] + lines[1..]
  }

  lemma TextUnmarked(lines: seq<Line>)
    requires lines != []
    ensures Text(lines) == lines[0].mark + Text(Unmarked(lines)) && Entries(lines) == Entries(Unmarked(lines))
  {
    hide EscapeToken;
    var l := lines[0];
    var u := Unmarked(lines);
    assert u[1..] == lines[1..];
    assert "" + Body(l) == Body(l);
    Assoc(l.mark, Body(l), Text(lines[1..]));
    assert Paths(u) == Paths(lines);
  }

  /** A separator and paths after it, or nothing. */
  predicate Section(lines: seq<Line>, k: nat) {
    lines == [] || (lines[0].mark == Mark(k) && Plain(Unmarked(lines)))
  }

  /** Neither a path nor a separator before the `k`th. */
  predicate StopsAt(buf: string, s: nat, k: nat) {
    Stops(buf, s) && (k > 0 ==> !SepAt(buf, s, 0)) && (k > 1 ==> !SepAt(buf, s, 1)) && (k > 2 ==> !SepAt(buf, s, 2))
  }

  lemma MarkSkipped(buf: string, raw: nat, k: nat)
    requires At(buf, raw, Mark(k)) && k < 3
    ensures var s := raw + 2;
            SkipSpaces(buf, raw, |buf|) == s && StopsAt(buf, s, k) && SepAt(buf, s, k)
    ensures raw + 2 + |Sep(k)| <= |buf|
    ensures SkipSpaces(buf, raw + 2 + |Sep(k)|, |buf|) == SkipSpaces(buf, raw + |Mark(k)|, |buf|)
  {
    hide SkipSpaces;
    var sep := Sep(k);
    AtSplits(buf, raw, "  " + sep, FOLD);
    AtSplits(buf, raw, "  ", sep);
    FixedGaps();
    GapSkipped(buf, raw, "  ");
    AtChar(buf, raw + 2, sep, 0);
    if k > 0 {
      AtChar(buf, raw + 2, sep, 1);
    }
    AtChar(buf, raw + 2 + |sep|, FOLD, 0);
    PipeStays(buf, raw + 2);
    GapSkipped(buf, raw + 2 + |sep|, FOLD);
  }

  lemma PipeStays(buf: string, s: nat)
    requires s < |buf| && (buf[s] == '|' || buf[s] == ':')
    ensures SkipSpaces(buf, s, |buf|) == s
  {
  }

  lemma FixedGaps()
    ensures IsGap("  ") && IsGap(" ") && IsGap(FOLD) && IsGap("$\n") && IsGap("")
  {
    assert "  "[1..] == " " && " "[1..] == "";
    assert FOLD[1..] == "$\n" && "$\n"[2..] == "";
    assert IsGap("$\n") && IsGap(" ");
  }

  /** The list after a separator, when it is there, up to a later one. */
  lemma {:induction false} SectionParsed(buf: string, raw: nat, pos: nat, lines: seq<Line>, k: nat)
    requires pos <= |buf| && k < 3
    requires At(buf, raw, Text(lines)) && Section(lines, k)
    requires SkipSpaces(buf, pos, |buf|) == SkipSpaces(buf, raw, |buf|)
    requires StopsAt(buf, SkipSpaces(buf, raw + |Text(lines)|, |buf|), k + 1)
    ensures StopsAt(buf, SkipSpaces(buf, raw, |buf|), k)
    ensures SepAt(buf, SkipSpaces(buf, pos, |buf|), k) <==> lines != []
    ensures lines != [] ==> SkipSpaces(buf, pos, |buf|) + |Sep(k)| <= |buf|
    ensures ScanAfter(buf, pos, lines != [], |Sep(k)|) == (Entries(lines), SkipSpaces(buf, raw + |Text(lines)|, |buf|))
  {
    hide SkipSpaces, Text, ScanList, Plain, Entries, SepAt;
    if lines == [] {
      NoEntries(lines);
    } else {
      var u := Unmarked(lines);
      TextUnmarked(lines);
      AtSplits(buf, raw, Mark(k), Text(u));
      MarkSkipped(buf, raw, k);
      SameList(buf, raw + 2 + |Sep(k)|, raw + |Mark(k)|);
      ListParsed(buf, raw + |Mark(k)|, u);
    }
  }

  lemma NoEntries(lines: seq<Line>)
    requires lines == []
    ensures Entries(lines) == [] && Text(lines) == ""
  {
  }

  /** The four lists of inputs, each read up to the next. */
  lemma {:induction false} InputListsParsed(buf: string, pos: nat, c: seq<Line>, d: seq<Line>, o: seq<Line>,
          v: seq<Line>, d0: nat, o0: nat, v0: nat)
    requires Plain(c) && Section(d, 0) && Section(o, 1) && Section(v, 2)
    requires At(buf, pos, Text(c)) && At(buf, d0, Text(d)) && At(buf, o0, Text(o)) && At(buf, v0, Text(v))
    requires d0 == pos + |Text(c)| && o0 == d0 + |Text(d)| && v0 == o0 + |Text(o)| && v0 + |Text(v)| == |buf|
    ensures var p1 := SkipSpaces(buf, d0, |buf|);
            var p2 := SkipSpaces(buf, o0, |buf|);
            var p3 := SkipSpaces(buf, v0, |buf|);
            && ScanList(buf, pos) == (Entries(c), p1)
            && SepAt(buf, SkipSpaces(buf, p1, |buf|), 0) == (d != [])
            && (d != [] ==> SkipSpaces(buf, p1, |buf|) + |Sep(0)| <= |buf|)
            && ScanAfter(buf, p1, d != [], |Sep(0)|) == (Entries(d), p2)
            && SepAt(buf, SkipSpaces(buf, p2, |buf|), 1) == (o != [])
            && (o != [] ==> SkipSpaces(buf, p2, |buf|) + |Sep(1)| <= |buf|)
            && ScanAfter(buf, p2, o != [], |Sep(1)|) == (Entries(o), p3)
            && SepAt(buf, SkipSpaces(buf, p3, |buf|), 2) == (v != [])
            && (v != [] ==> SkipSpaces(buf, p3, |buf|) + |Sep(2)| <= |buf|)
            && ScanAfter(buf, p3, v != [], |Sep(2)|) == (Entries(v), |buf|)
  {
    hide SkipSpaces, Text, Plain, Section, ScanList, Entries, Stops, SepAt, ScanAfter, At, Sep;
    EndStops(buf);
    SkipTwice(buf, v0);
    SectionParsed(buf, v0, SkipSpaces(buf, v0, |buf|), v, 2);
    SkipTwice(buf, o0);
    SectionParsed(buf, o0, SkipSpaces(buf, o0, |buf|), o, 1);
    SkipTwice(buf, d0);
    SectionParsed(buf, d0, SkipSpaces(buf, d0, |buf|), d, 0);
    ListParsed(buf, pos, c);
  }

  lemma EndStops(buf: string)
    ensures SkipSpaces(buf, |buf|, |buf|) == |buf| && StopsAt(buf, |buf|, 3)
  {
  }

  /** The end of the rule line, and the inputs. */
  function InputText(c: seq<Line>, d: seq<Line>, o: seq<Line>, v: seq<Line>): string {
    FOLD + (Text(c) + Text(d) + Text(o) + Text(v))
  }

  lemma SepsAre(buf: string, s: nat)
    ensures SepAt(buf, s, 0) == PipeAt(buf, s) && SepAt(buf, s, 1) == PairAt(buf, s, '|')
                && SepAt(buf, s, 2) == PairAt(buf, s, '@')
    ensures |Sep(0)| == 1 && |Sep(1)| == 2 && |Sep(2)| == 2
  {
  }

  /** The input half of a statement. */
  lemma {:induction false} InputsParsed(buf: string, pos: nat, outs: seq<EvalString>,
          implicitOuts: seq<EvalString>, rule: string,
                     c: seq<Line>, d: seq<Line>, o: seq<Line>, v: seq<Line>)
    requires Plain(c) && Section(d, 0) && Section(o, 1) && Section(v, 2)
    requires At(buf, pos, InputText(c, d, o, v)) && pos + |InputText(c, d, o, v)| == |buf|
    ensures ScanInputs(buf, pos, outs, implicitOuts, rule)
         == Parsed(outs + implicitOuts, |implicitOuts|, rule, Entries(c) + Entries(d) + Entries(o),
                   |Entries(d)|, |Entries(o)|, Entries(v))
  {
    hide SkipSpaces, Text, Plain, Section, ScanList, Entries, ScanAfter, PipeAt, PairAt, SepAt, Sep, IsGap;
    AtSplits(buf, pos, FOLD, Text(c) + Text(d) + Text(o) + Text(v));
    var c0 := pos + |FOLD|;
    AtSplits(buf, c0, Text(c) + Text(d) + Text(o), Text(v));
    AtSplits(buf, c0, Text(c) + Text(d), Text(o));
    AtSplits(buf, c0, Text(c), Text(d));
    var d0 := c0 + |Text(c)|;
    var o0 := d0 + |Text(d)|;
    var v0 := o0 + |Text(o)|;
    FixedGaps();
    GapSkipped(buf, pos, FOLD);
    SameList(buf, pos, c0);
    InputListsParsed(buf, c0, c, d, o, v, d0, o0, v0);
    SepsAre(buf, SkipSpaces(buf, SkipSpaces(buf, d0, |buf|), |buf|));
    SepsAre(buf, SkipSpaces(buf, SkipSpaces(buf, o0, |buf|), |buf|));
    SepsAre(buf, SkipSpaces(buf, SkipSpaces(buf, v0, |buf|), |buf|));
  }

  predicate IsRuleName(rule: string) {
    rule != "" && forall k :: 0 <= k < |rule| ==> IsVarname(rule[k])
  }

  lemma {:induction false} IdentScanned(buf: string, i: nat, name: string)
    requires At(buf, i, name + " ") && forall k :: 0 <= k < |name| ==> IsVarname(name[k])
    ensures IdentEnd(buf, i) == i + |name|
    decreases |name|
  {
    AtChar(buf, i, name + " ", 0);
    if name != "" {
      assert (name + " ")[1..] == name[1..] + " ";
      assert [name[0]] + (name + " ")[1..] == name + " ";
      AtSplits(buf, i, [name[0]], name[1..] + " ");
      IdentScanned(buf, i + 1, name[1..]);
    }
  }

  /** The colon and the rule name. */
  lemma RuleParsed(buf: string, r0: nat, rule: string)
    requires At(buf, r0, RuleText(rule)) && IsRuleName(rule)
    ensures var s := SkipSpaces(buf, r0, |buf|);
            && s < |buf| && buf[s] == ':' && SkipSpaces(buf, s, |buf|) == s
            && SkipSpaces(buf, s + 1, |buf|) == r0 + 3 < |buf|
            && IdentEnd(buf, r0 + 3) == r0 + 3 + |rule|
            && buf[r0 + 3..r0 + 3 + |rule|] == rule
  {
    hide IdentEnd;
    AtSplits(buf, r0, " : " + rule, FOLD);
    AtSplits(buf, r0, " : ", rule);
    AtChar(buf, r0, " : ", 0);
    AtChar(buf, r0, " : ", 1);
    AtChar(buf, r0, " : ", 2);
    AtChar(buf, r0 + 3, rule, 0);
    assert " : " + rule + FOLD == " : " + (rule + " " + "$\n");
    AtSplits(buf, r0, " : ", rule + " " + "$\n");
    AtSplits(buf, r0 + 3, rule + " ", "$\n");
    IdentScanned(buf, r0 + 3, rule);
  }

  predicate HeadGap(gap: string) {
    gap == "" || gap == "$\n"
  }

  /** The output half of a statement. */
  lemma {:induction false} OutputListsParsed(buf: string, gap: string, a: seq<Line>, b: seq<Line>, b0: nat,
          r0: nat, rule: string)
    requires HeadGap(gap) && Plain(a) && Section(b, 0) && IsRuleName(rule)
    requires At(buf, 0, gap) && At(buf, |gap|, Text(a)) && At(buf, b0, Text(b)) && At(buf, r0, RuleText(rule))
    requires b0 == |gap| + |Text(a)| && r0 == b0 + |Text(b)|
    ensures var p1 := SkipSpaces(buf, b0, |buf|);
            && ScanList(buf, 0) == (Entries(a), p1)
            && PipeAt(buf, SkipSpaces(buf, p1, |buf|)) == (b != [])
            && (b != [] ==> SkipSpaces(buf, p1, |buf|) + 1 <= |buf|)
            && ScanAfter(buf, p1, b != [], 1) == (Entries(b), SkipSpaces(buf, r0, |buf|))
  {
    hide SkipSpaces, Text, Plain, Section, ScanList, Entries, SepAt, ScanAfter, At, PairAt, PipeAt, IsGap;
    RuleParsed(buf, r0, rule);
    ColonStops(buf, SkipSpaces(buf, r0, |buf|));
    SkipTwice(buf, b0);
    SectionParsed(buf, b0, SkipSpaces(buf, b0, |buf|), b, 0);
    SepsAre(buf, SkipSpaces(buf, SkipSpaces(buf, b0, |buf|), |buf|));
    FixedGaps();
    GapSkipped(buf, 0, gap);
    SameList(buf, 0, |gap|);
    ListParsed(buf, |gap|, a);
  }

  lemma ColonStops(buf: string, s: nat)
    requires s < |buf| && buf[s] == ':'
    ensures StopsAt(buf, s, 1)
  {
  }

  /** What follows the keyword. */
  predicate Joined(buf: string, gap: string, ta: string, tb: string, rule: string, ins: string) {
    buf == gap + ta + tb + RuleText(rule) + ins
  }

  /** The pieces of a printed statement stand one after another. */
  lemma {:induction false} Pieces(buf: string, gap: string, ta: string, tb: string, rule: string, ins: string,
          tail: string, b0: nat, r0: nat, i0: nat)
    requires Joined(buf, gap, ta, tb, rule, ins) && tail == FOLD + ins
    requires b0 == |gap| + |ta| && r0 == b0 + |tb| && i0 == r0 + 3 + |rule|
    ensures At(buf, 0, gap) && At(buf, |gap|, ta) && At(buf, b0, tb)
    ensures At(buf, r0, RuleText(rule)) && At(buf, i0, tail) && i0 + |tail| == |buf|
  {
    var colon := RuleText(rule);
    assert buf[0..|buf|] == buf;
    AtSplits(buf, 0, gap + ta + tb + colon, ins);
    AtSplits(buf, 0, gap + ta + tb, colon);
    AtSplits(buf, 0, gap + ta, tb);
    AtSplits(buf, 0, gap, ta);
    assert buf == (gap + ta + tb + " : " + rule) + (FOLD + ins);
    AtSplits(buf, 0, gap + ta + tb + " : " + rule, FOLD + ins);
  }

  /** What comes of the outputs and, if there are any, the inputs. */
  function Built(inputs: Parsed): Result<Parsed, ParseError> {
    if inputs.outs == [] then Failure(NoOutput) else Success(inputs)
  }

  /** `ScanStatement`, step by step. */
  lemma {:induction false} BuildSteps(buf: string, outs: seq<EvalString>, p1: nat, there: bool,
          implicitOuts: seq<EvalString>, p2: nat, r: nat)
    requires p1 <= |buf| && p2 <= |buf|
    requires ScanList(buf, 0) == (outs, p1) && PipeAt(buf, SkipSpaces(buf, p1, |buf|)) == there
    requires there ==> SkipSpaces(buf, p1, |buf|) + 1 <= |buf|
    requires ScanAfter(buf, p1, there, 1) == (implicitOuts, p2)
    requires var s := SkipSpaces(buf, p2, |buf|);
                 s < |buf| && buf[s] == ':' && SkipSpaces(buf, s + 1, |buf|) == r < |buf|
    ensures ScanStatement(buf) == Built(ScanInputs(buf, IdentEnd(buf, r), outs, implicitOuts, buf[r..IdentEnd(buf, r)]))
  {
    hide ScanList, ScanAfter, SkipSpaces, IdentEnd, PairAt, PipeAt;
  }

  /** The output half of `ScanStatement`. */
  lemma {:induction false} HeadParsed(buf: string, gap: string, a: seq<Line>, b: seq<Line>, b0: nat, r0: nat,
          i0: nat, rule: string)
    requires HeadGap(gap) && IsRuleName(rule)
    requires Plain(a) && Section(b, 0)
    requires At(buf, 0, gap) && At(buf, |gap|, Text(a)) && At(buf, b0, Text(b)) && At(buf, r0, RuleText(rule))
    requires b0 == |gap| + |Text(a)| && r0 == b0 + |Text(b)| && i0 == r0 + 3 + |rule| <= |buf|
    ensures ScanStatement(buf) == Built(ScanInputs(buf, i0, Entries(a), Entries(b), rule))
  {
    hide SkipSpaces, Text, Plain, Section, ScanList, Entries, ScanAfter, PipeAt, IsGap, IdentEnd, IsRuleName,
      ScanInputs,
      At, RuleText, ScanStatement, HeadGap, Built;
    OutputListsParsed(buf, gap, a, b, b0, r0, rule);
    RuleParsed(buf, r0, rule);
    SkipTwice(buf, r0);
    BuildSteps(buf, Entries(a), SkipSpaces(buf, b0, |buf|), b != [], Entries(b), SkipSpaces(buf, r0, |buf|), r0 + 3);
  }

  lemma {:induction false} StatementParsedAt(
    buf: string, gap: string, a: seq<Line>, b: seq<Line>, b0: nat, r0: nat, i0: nat, rule: string,
    c: seq<Line>, d: seq<Line>, o: seq<Line>, v: seq<Line>)
    requires HeadGap(gap) && IsRuleName(rule)
    requires Plain(a) && Section(b, 0) && Plain(c) && Section(d, 0) && Section(o, 1) && Section(v, 2)
    requires At(buf, 0, gap) && At(buf, |gap|, Text(a)) && At(buf, b0, Text(b)) && At(buf, r0, RuleText(rule))
    requires b0 == |gap| + |Text(a)| && r0 == b0 + |Text(b)| && i0 == r0 + 3 + |rule|
    requires At(buf, i0, InputText(c, d, o, v)) && i0 + |InputText(c, d, o, v)| == |buf|
    ensures ScanStatement(buf) == Built(Parsed(Entries(a) + Entries(b), |Entries(b)|, rule,
                                           Entries(c) + Entries(d) + Entries(o),
                                           |Entries(d)|, |Entries(o)|, Entries(v)))
  {
    hide Text, Plain, Section, Entries, IsRuleName, ScanInputs, At, RuleText, InputText, ScanStatement, HeadGap, Built;
    HeadParsed(buf, gap, a, b, b0, r0, i0, rule);
    InputsParsed(buf, i0, Entries(a), Entries(b), rule, c, d, o, v);
  }

  lemma InputTextIs(c: seq<Line>, d: seq<Line>, o: seq<Line>, v: seq<Line>, ins: string)
    requires ins == Text(c) + Text(d) + Text(o) + Text(v)
    ensures InputText(c, d, o, v) == FOLD + ins
  {
  }

  /** A statement whose pieces are printed one after another. */
  lemma {:induction false} StatementParsed(
    buf: string, gap: string, a: seq<Line>, b: seq<Line>, rule: string,
    c: seq<Line>, d: seq<Line>, o: seq<Line>, v: seq<Line>, ins: string)
    requires HeadGap(gap) && IsRuleName(rule)
    requires Plain(a) && Section(b, 0) && Plain(c) && Section(d, 0) && Section(o, 1) && Section(v, 2)
    requires ins == Text(c) + Text(d) + Text(o) + Text(v)
    requires Joined(buf, gap, Text(a), Text(b), rule, ins)
    ensures ScanStatement(buf) == Built(Parsed(Entries(a) + Entries(b), |Entries(b)|, rule,
                                           Entries(c) + Entries(d) + Entries(o),
                                           |Entries(d)|, |Entries(o)|, Entries(v)))
  {
    hide Text, Plain, Section, ScanStatement, Entries, IsRuleName, At, RuleText, InputText, Joined, HeadGap, Built;
    InputTextIs(c, d, o, v, ins);
    var b0 := |gap| + |Text(a)|;
    var r0 := b0 + |Text(b)|;
    var i0 := r0 + 3 + |rule|;
    Pieces(buf, gap, Text(a), Text(b), rule, ins, InputText(c, d, o, v), b0, r0, i0);
    StatementParsedAt(buf, gap, a, b, b0, r0, i0, rule, c, d, o, v);
  }

  // ----------------------------------------------------------- one edge again

  predicate AllClean(paths: seq<string>) {
    forall k :: 0 <= k < |paths| ==> Clean(paths[k])
  }

  /** An edge whose statement the parser can divide into its lists. */
  predicate Readable(e: Edge) {
    e.Valid() && IsRuleName(e.rule) && AllClean(e.outputs) && AllClean(e.inputs) && AllClean(e.validations)
  }

  /** How many outputs stand before the `|`. */
  function Shown(e: Edge): (k: nat)
    requires e.Valid()
    ensures k <= |e.outputs|
  {
    if |e.outputs| == 1 then 1 else e.ExplicitOuts()
  }

  lemma OutputLineOk(e: Edge, i: nat)
    requires Readable(e) && i < |e.outputs|
    ensures var l := OutputLine(e, i);
            LineOk(l) && l.mark == if i == e.ExplicitOuts() then Mark(0) else ""
  {
    hide Clean;
    assert Clean(e.outputs[i]);
  }

  lemma OutputSections(e: Edge)
    requires Readable(e)
    ensures var lines := OutputLines(e);
            Paths(lines) == e.outputs && Plain(lines[..Shown(e)]) && Section(lines[Shown(e)..], 0)
  {
    hide LineOk, Mark, OutputLine, Clean;
    var lines := OutputLines(e);
    if |e.outputs| == 1 {
      SingleLineOk(e);
    } else {
      var k := e.ExplicitOuts();
      forall i | 0 <= i < |lines|
        ensures LineOk(lines[i]) && lines[i].mark == (if i == k then Mark(0) else "") && lines[i].path == e.outputs[i]
      {
        OutputLineOk(e, i);
        OutputFin(e, i);
      }
      MarkedSection(lines[k..], 0);
    }
  }

  lemma SingleLineOk(e: Edge)
    requires Readable(e) && |e.outputs| == 1
    ensures Plain(OutputLines(e)) && Section([], 0) && Paths(OutputLines(e)) == e.outputs
    ensures OutputLines(e)[..1] == OutputLines(e) && OutputLines(e)[1..] == []
  {
    hide Clean;
    assert Clean(e.outputs[0]);
  }

  lemma MarkedSection(lines: seq<Line>, k: nat)
    requires forall i :: 0 <= i < |lines| ==> LineOk(lines[i]) && lines[i].mark == if i == 0 then Mark(k) else ""
    ensures Section(lines, k)
  {
    hide Clean, Mark;
    if lines != [] {
      var u := Unmarked(lines);
      forall i | 0 <= i < |u| ensures LineOk(u[i]) && u[i].mark == "" {
        assert LineOk(lines[i]);
      }
    }
  }

  lemma InputMarkIs(e: Edge, i: nat)
    requires e.Valid() && i < |e.inputs|
    ensures var x, y := e.ExplicitIns(), |e.inputs| - e.orderOnlyDeps;
            InputMark(e, i) == if i == x && x < y then Mark(0) else if i == y then Mark(1) else ""
  {
    assert PIPE + "" == PIPE && "" + PIPE2 == PIPE2;
  }

  lemma InputLineOk(e: Edge, i: nat)
    requires Readable(e) && i < |e.inputs|
    ensures var l := InputLine(e, i);
            var x, y := e.ExplicitIns(), |e.inputs| - e.orderOnlyDeps;
            LineOk(l) && l.path == e.inputs[i] && l.fin == (if i < |e.inputs| - 1 then FOLD else "\n")
            && l.mark == if i == x && x < y then Mark(0) else if i == y then Mark(1) else ""
  {
    hide Clean, Mark, InputMark, IsRuleName;
    assert Clean(e.inputs[i]);
    InputMarkIs(e, i);
  }

  lemma InputSections(e: Edge)
    requires Readable(e)
    ensures var lines := InputLines(e);
            var x, y := e.ExplicitIns(), |lines| - e.orderOnlyDeps;
            && Paths(lines) == e.inputs && |lines| == |e.inputs|
            && Plain(lines[..x]) && Section(lines[x..y], 0) && Section(lines[y..], 1)
  {
    hide LineOk, Mark, InputLine, Clean, Section;
    var lines := InputLines(e);
    var x, y := e.ExplicitIns(), |lines| - e.orderOnlyDeps;
    forall i | 0 <= i < |lines|
      ensures LineOk(lines[i]) && lines[i].path == e.inputs[i]
           && lines[i].mark == if i == x && x < y then Mark(0) else if i == y then Mark(1) else ""
    {
      InputLineOk(e, i);
    }
    var d, o := lines[x..y], lines[y..];
    assert forall i :: 0 <= i < |d| ==> d[i] == lines[x + i];
    assert forall i :: 0 <= i < |o| ==> o[i] == lines[y + i];
    MarkedSection(d, 0);
    MarkedSection(o, 1);
  }

  /** The validations with the separator that is printed before them. */
  function MarkedValidations(paths: seq<string>): seq<Line> {
    var lines := ValidationLines(paths);
    if lines == [] then [] else [lines[0].(mark := Mark(2))] + lines[1..]
  }

  lemma ValidationSection(paths: seq<string>)
    requires AllClean(paths)
    ensures var lines := MarkedValidations(paths);
            Section(lines, 2) && Text(lines) == PrintedValidations(paths) && Paths(lines) == paths
  {
    hide Clean, Text, Mark;
    var lines := MarkedValidations(paths);
    NoEntries([]);
    if lines != [] {
      assert Unmarked(lines) == ValidationLines(paths);
      TextUnmarked(lines);
      ValidationMark();
    }
  }

  lemma ValidationMark()
    ensures Mark(2) == "  |@ $\n"
  {
  }

  /** What the parser makes of a printed statement: paths without their leading
      spaces, and those that are empty then left out. */
  function ReadBack(e: Edge): Result<Parsed, ParseError>
    requires e.Valid()
  {
    var x, y := e.ExplicitIns(), |e.inputs| - e.orderOnlyDeps;
    Built(Parsed(KeptOf(e.outputs), |KeptOf(e.outputs[Shown(e)..])|, e.rule, KeptOf(e.inputs),
                 |KeptOf(e.inputs[x..y])|, |KeptOf(e.inputs[y..])|, KeptOf(e.validations)))
  }

  lemma PrintedRead(e: Edge)
    requires Readable(e)
    ensures ScanBuild(Printed(e)[6..]) == ReadBack(e)
  {
    hide Text, OutputLines, InputLines, Plain, Section, ScanBuild, ScanStatement, RuleText, IsRuleName, AllClean,
      Entries, KeptOf, Paths,
      MarkedValidations, PrintedValidations, Built, Printed;
    var gap := if |e.outputs| == 1 then "" else "$\n";
    var outs, ins, vals := OutputLines(e), InputLines(e), MarkedValidations(e.validations);
    var k, x, y := Shown(e), e.ExplicitIns(), |ins| - e.orderOnlyDeps;
    OutputSections(e);
    InputSections(e);
    ValidationSection(e.validations);
    TwoParts(outs, k);
    ThreeParts(ins, x, y);
    StartsWithBuild(e);
    PrintedEndsLine(e);
    LineNeverOverruns(Printed(e)[6..]);
    var text := Text(ins) + PrintedValidations(e.validations);
    PrintedJoined(e, gap, Text(outs[..k]), Text(outs[k..]), text);
    StatementParsed(Printed(e)[6..], gap, outs[..k], outs[k..], e.rule, ins[..x], ins[x..y], ins[y..], vals, text);
    PartEntries(outs, e.outputs, k, |outs|);
    PartEntries(ins, e.inputs, x, y);
    PartEntries(ins, e.inputs, y, |ins|);
    WholeEntries(outs, e.outputs);
    WholeEntries(ins, e.inputs);
    WholeEntries(vals, e.validations);
  }

  lemma LineNeverOverruns(buf: string)
    requires EndsLine(buf)
    ensures ScanBuild(buf) == ScanStatement(buf)
  {
    hide ScanStatement, BuildComes;
  }

  lemma PartEntries(lines: seq<Line>, paths: seq<string>, x: nat, y: nat)
    requires Paths(lines) == paths && x <= y <= |lines|
    ensures Entries(lines[x..y]) == KeptOf(paths[x..y])
    ensures y == |lines| ==> lines[x..y] == lines[x..] && paths[x..y] == paths[x..]
  {
    hide KeptOf;
    assert Paths(lines[x..y]) == paths[x..y];
  }

  lemma WholeEntries(lines: seq<Line>, paths: seq<string>)
    requires Paths(lines) == paths
    ensures Entries(lines) == KeptOf(paths)
  {
  }

  lemma TwoParts(lines: seq<Line>, x: nat)
    requires x <= |lines|
    ensures Text(lines) == Text(lines[..x]) + Text(lines[x..])
    ensures Entries(lines) == Entries(lines[..x]) + Entries(lines[x..])
  {
    hide Text, Entries;
    assert lines == lines[..x] + lines[x..];
    TextConcat(lines[..x], lines[x..]);
    EntriesConcat(lines[..x], lines[x..]);
  }

  lemma ThreeParts(lines: seq<Line>, x: nat, y: nat)
    requires x <= y <= |lines|
    ensures Text(lines) == Text(lines[..x]) + Text(lines[x..y]) + Text(lines[y..])
    ensures Entries(lines) == Entries(lines[..x]) + Entries(lines[x..y]) + Entries(lines[y..])
  {
    hide Text, Entries;
    TwoParts(lines, y);
    TwoParts(lines[..y], x);
    assert lines[..y][..x] == lines[..x] && lines[..y][x..] == lines[x..y];
  }

  lemma PrintedJoined(e: Edge, gap: string, ta: string, tb: string, text: string)
    requires e.Valid() && gap == (if |e.outputs| == 1 then "" else "$\n")
    requires Text(OutputLines(e)) == ta + tb && text == Text(InputLines(e)) + PrintedValidations(e.validations)
    ensures |Printed(e)| > 6 && Joined(Printed(e)[6..], gap, ta, tb, e.rule, text)
  {
    hide Text, OutputLines, InputLines, PrintedValidations, RuleText;
    StartsWithBuild(e);
    TailJoined(gap, ta, tb, Text(OutputLines(e)), RuleText(e.rule), Text(InputLines(e)),
               PrintedValidations(e.validations), Printed(e));
    Assoc(gap + ta + tb + RuleText(e.rule), Text(InputLines(e)), PrintedValidations(e.validations));
  }

  lemma {:induction false} TailJoined(gap: string, ta: string, tb: string, outs: string, rule: string,
          ins: string, vals: string, printed: string)
    requires outs == ta + tb
    requires printed == "build " + gap + outs + rule + ins + vals
    ensures printed[6..] == gap + ta + tb + rule + ins + vals
  {
  }

  lemma StartsWithBuild(e: Edge)
    requires e.Valid()
    ensures |Printed(e)| > 6 && Printed(e)[..6] == "build "
  {
    hide Text, OutputLines, InputLines, PrintedValidations;
    assert |RuleText(e.rule)| > 0;
  }

  predicate EndsLine(s: string) {
    s != "" && s[|s| - 1] == '\n'
  }

  lemma {:induction false} LinesEnd(lines: seq<Line>)
    requires lines != [] && forall i :: 0 <= i < |lines| ==> EndsLine(lines[i].fin)
    ensures EndsLine(Text(lines))
  {
    hide EscapeToken;
    if |lines| > 1 {
      LinesEnd(lines[1..]);
    }
  }

  /** A printed statement ends with a newline. */
  lemma PrintedEndsLine(e: Edge)
    requires e.Valid()
    ensures EndsLine(Printed(e))
  {
    hide Text, InputMark;
    if e.inputs != [] {
      LinesEnd(InputLines(e));
    } else {
      NoMore("", InputLines(e));
    }
    if e.validations != [] {
      LinesEnd(ValidationLines(e.validations));
    }
  }

  lemma OutputFin(e: Edge, i: nat)
    requires e.Valid() && i < |e.outputs|
    ensures OutputLine(e, i).fin == FOLD && OutputLine(e, i).path == e.outputs[i]
  {
  }

  // --------------------------------------------------------- reading the paths

  /** `targetPath`: evaluate, and drop a leading "./". */
  function TargetPath(env: Env, target: EvalString): Result<string, EvalError> {
    var t :- Evaluate(env, target);
    Success(TrimDot(t))
  }

  function TrimDot(t: string): string {
    if "./" <= t then t[2..] else t
  }

  lemma {:induction false} TokenExpands(env: Env, val: EvalString, i: nat, s: string)
    requires At(val.v, i, EscapeToken(s)) && i + |EscapeToken(s)| == |val.v|
    ensures ExpandFrom(env, val, i, 0) == Success(s)
    decreases |s|
  {
    hide ExpandFrom;
    if s == "" {
      ExpandsToNothing(env, val, i);
    } else {
      var c := s[0];
      AtSplits(val.v, i, EscapedChar(c), EscapeToken(s[1..]));
      AtChar(val.v, i, EscapedChar(c), 0);
      if IsSpecial(c) {
        AtChar(val.v, i, EscapedChar(c), 1);
      }
      var next := i + |EscapedChar(c)|;
      assert ScanAt(val.v, i) == Lit([c], next);
      TokenExpands(env, val, next, s[1..]);
      LiteralExpands(env, val, i, c, next, s[1..]);
      assert [c] + s[1..] == s;
    }
  }

  lemma ExpandsToNothing(env: Env, val: EvalString, i: nat)
    requires i == |val.v|
    ensures ExpandFrom(env, val, i, 0) == Success("")
  {
  }

  lemma {:induction false} LiteralExpands(env: Env, val: EvalString, i: nat, c: char, next: nat, rest: string)
    requires i < |val.v| && ScanAt(val.v, i) == Lit([c], next)
    requires ExpandFrom(env, val, next, 0) == Success(rest)
    ensures ExpandFrom(env, val, i, 0) == Success([c] + rest)
  {
    hide ScanAt;
  }

  lemma {:induction false} UnescapedToken(s: string)
    requires Specials(s) == 0
    ensures EscapeToken(s) == s
  {
    if s != "" {
      UnescapedToken(s[1..]);
      assert [s[0]] + s[1..] == s;
    }
  }

  /** An escaped path evaluates to itself, in any environment. */
  lemma EntryIsPath(env: Env, s: string)
    ensures Evaluate(env, Entry(s)) == Success(s)
  {
    hide ExpandFrom, EscapeToken, Specials;
    var tok := EscapeToken(s);
    if Specials(s) == 0 {
      UnescapedToken(s);
    } else {
      assert tok[0..|tok|] == tok;
      TokenExpands(env, Entry(s), 0, s);
      if tok == "" {
        ExpandsToNothing(env, Entry(s), 0);
      }
    }
  }

  /** A path the printer can write so that the parser reads it back. */
  predicate PathOk(s: string) {
    s != "" && s[0] != ' ' && !("./" <= s) && Clean(s)
  }

  predicate PathsOk(paths: seq<string>) {
    forall k :: 0 <= k < |paths| ==> PathOk(paths[k])
  }

  /** The entries stand for the paths, in their order. */
  ghost predicate Reads(env: Env, entries: seq<EvalString>, paths: seq<string>) {
    |entries| == |paths| && forall k :: 0 <= k < |entries| ==> TargetPath(env, entries[k]) == Success(paths[k])
  }

  lemma ReadsMore(env: Env, x: EvalString, entries: seq<EvalString>, p: string, paths: seq<string>)
    ensures Reads(env, [x] + entries, [p] + paths) <==> TargetPath(env, x) == Success(p) && Reads(env, entries, paths)
  {
    hide TargetPath;
    var es, ps := [x] + entries, [p] + paths;
    assert es[0] == x && ps[0] == p;
    if Reads(env, es, ps) {
      forall k | 0 <= k < |entries| ensures TargetPath(env, entries[k]) == Success(paths[k]) {
        assert es[k + 1] == entries[k] && ps[k + 1] == paths[k];
      }
    }
  }

  lemma KeptIsPath(env: Env, s: string)
    requires Clean(s) && Strip(s) != ""
    ensures TargetPath(env, Entry(Strip(s))) == Success(s) <==> PathOk(s)
  {
    hide Evaluate, Entry;
    EntryIsPath(env, Strip(s));
    if s != "" && s[0] == ' ' {
      assert |Strip(s)| == |Strip(s[1..])| < |s|;
    }
  }

  /** Printed paths are read back iff they all can be. */
  lemma {:induction false} KeptReads(env: Env, paths: seq<string>)
    requires AllClean(paths)
    ensures Reads(env, KeptOf(paths), paths) <==> PathsOk(paths)
  {
    hide TargetPath, Clean, Strip, PathOk, Entry;
    if paths != [] {
      var p, rest := paths[0], paths[1..];
      assert paths == [p] + rest;
      KeptReads(env, rest);
      PathsOkMore(p, rest);
      if Strip(p) == "" {
        NothingKept(p);
        assert KeptOf(paths) == KeptOf(rest);
      } else {
        KeptIsPath(env, p);
        ReadsMore(env, Entry(Strip(p)), KeptOf(rest), p, rest);
      }
    }
  }

  lemma PathsOkMore(p: string, rest: seq<string>)
    ensures PathsOk([p] + rest) <==> PathOk(p) && PathsOk(rest)
  {
    hide PathOk;
    var all := [p] + rest;
    assert all[0] == p;
    assert forall k :: 0 <= k < |rest| ==> all[k + 1] == rest[k];
    if PathsOk(all) {
      forall k | 0 <= k < |rest| ensures PathOk(rest[k]) {
        assert PathOk(all[k + 1]);
      }
    }
  }

  lemma NothingKept(s: string)
    requires Strip(s) == ""
    ensures !PathOk(s)
  {
  }

  lemma {:induction false} AllKept(paths: seq<string>)
    requires PathsOk(paths)
    ensures |KeptOf(paths)| == |paths|
  {
    if paths != [] {
      assert PathOk(paths[0]);
      AllKept(paths[1..]);
    }
  }

  // -------------------------------------------------- what a scanned path holds

  /** The escapes of a text the path scanner takes as one path. */
  function Units(v: string): Option<nat> {
    if v == "" then Some(0)
    else if !IsNonLiteral(v[0]) then Units(v[1..])
    else if v[0] != '$' || |v| == 1 || v[1] == '\n' then None
    else
      match Units(v[2..])
      case None => None
      case Some(n) => Some(n + 1)
  }

  predicate IsScanned(val: EvalString) {
    Units(val.v) == Some(val.esc)
  }

  lemma {:induction false} ScanPathUnits(buf: string, i: nat)
    requires i <= |buf|
    ensures var (e, esc) := ScanPath(buf, i); Units(buf[i..e]) == Some(esc)
    decreases |buf| - i
  {
    var e := ScanPath(buf, i).0;
    if i < |buf| {
      if !IsNonLiteral(buf[i]) {
        ScanPathUnits(buf, i + 1);
        assert buf[i..e][1..] == buf[i + 1..e];
      } else if buf[i] == '$' && !ContinuesLine(buf, i) && i + 1 < |buf| {
        ScanPathUnits(buf, i + 2);
        assert buf[i..e][2..] == buf[i + 2..e];
      }
    }
  }

  predicate AllScanned(entries: seq<EvalString>) {
    forall k :: 0 <= k < |entries| ==> IsScanned(entries[k])
  }

  lemma {:induction false} ListScanned(buf: string, pos: nat)
    requires pos <= |buf|
    ensures AllScanned(ScanList(buf, pos).0)
    decreases |buf| - pos
  {
    hide Units, ScanPath, SkipSpaces;
    var s := SkipSpaces(buf, pos, |buf|);
    var (e, esc) := ScanPath(buf, s);
    if e != s {
      ScanPathUnits(buf, s);
      ListScanned(buf, e);
    }
  }

  lemma AfterScanned(buf: string, pos: nat, there: bool, width: nat)
    requires pos <= |buf|
    requires there ==> SkipSpaces(buf, pos, |buf|) + width <= |buf|
    ensures AllScanned(ScanAfter(buf, pos, there, width).0)
  {
    hide ScanList, SkipSpaces;
    if there {
      ListScanned(buf, SkipSpaces(buf, pos, |buf|) + width);
    }
  }

  /** Whatever the parser reports was scanned as a path or as a name. */
  lemma BuildScanned(buf: string)
    requires ScanBuild(buf).Success?
    ensures var p := ScanBuild(buf).value;
            && p.outs != [] && AllScanned(p.outs) && AllScanned(p.ins) && AllScanned(p.validations)
            && forall k :: 0 <= k < |p.rule| ==> IsVarname(p.rule[k])
  {
    hide ScanList, SkipSpaces, IsScanned, ScanInputs, IdentEnd;
    var (outs, p1) := ScanList(buf, 0);
    ListScanned(buf, 0);
    AfterScanned(buf, p1, PipeAt(buf, SkipSpaces(buf, p1, |buf|)), 1);
    var (implicitOuts, p2) := ScanAfter(buf, p1, PipeAt(buf, SkipSpaces(buf, p1, |buf|)), 1);
    var r := SkipSpaces(buf, SkipSpaces(buf, p2, |buf|) + 1, |buf|);
    InputsScanned(buf, IdentEnd(buf, r), outs, implicitOuts, buf[r..IdentEnd(buf, r)]);
  }

  lemma InputsScanned(buf: string, pos: nat, outs: seq<EvalString>, implicitOuts: seq<EvalString>, rule: string)
    requires pos <= |buf|
    ensures var p := ScanInputs(buf, pos, outs, implicitOuts, rule);
            && p.outs == outs + implicitOuts && p.rule == rule
            && AllScanned(p.ins) && AllScanned(p.validations)
  {
    hide ScanList, SkipSpaces, IsScanned, ScanAfter;
    var (ins, p1) := ScanList(buf, pos);
    ListScanned(buf, pos);
    var (implicit, p2) := ScanAfter(buf, p1, PipeAt(buf, SkipSpaces(buf, p1, |buf|)), 1);
    AfterScanned(buf, p1, PipeAt(buf, SkipSpaces(buf, p1, |buf|)), 1);
    var (orderOnly, p3) := ScanAfter(buf, p2, PairAt(buf, SkipSpaces(buf, p2, |buf|), '|'), 2);
    AfterScanned(buf, p2, PairAt(buf, SkipSpaces(buf, p2, |buf|), '|'), 2);
    AfterScanned(buf, p3, PairAt(buf, SkipSpaces(buf, p3, |buf|), '@'), 2);
  }

  lemma {:induction false} UnitsAfterBrace(v: string, i: nat, j: nat)
    requires i <= j < |v| && Units(v[i..]).Some? && v[j] == '}'
    ensures Units(v[j + 1..]).Some?
    decreases j - i
  {
    var u := v[i..];
    assert u[0] == v[i];
    assert u[1..] == v[i + 1..];
    if !IsNonLiteral(v[i]) {
      if i < j {
        UnitsAfterBrace(v, i + 1, j);
      }
    } else {
      assert u[2..] == v[i + 2..];
      if j > i + 1 {
        UnitsAfterBrace(v, i + 2, j);
      }
    }
  }

  lemma {:induction false} UnitsAfterName(v: string, i: nat, n: nat)
    requires i <= n <= |v| && Units(v[i..]).Some? && forall k :: i <= k < n ==> IsSimpleVarname(v[k])
    ensures Units(v[n..]).Some?
    decreases n - i
  {
    if i < n {
      assert v[i..][1..] == v[i + 1..];
      UnitsAfterName(v, i + 1, n);
    }
  }

  /** One piece of a scanned path leaves a scanned path, and adds no stop byte. */
  lemma PieceClean(v: string, i: nat)
    requires i < |v| && Units(v[i..]).Some?
    ensures var t := ScanAt(v, i);
            && (!t.Bad? ==> Units(v[t.next..]).Some?)
            && (t.Lit? ==> Clean(t.text))
  {
    var u := v[i..];
    assert u[0] == v[i] && u[1..] == v[i + 1..];
    if v[i] == '$' {
      assert u[1] == v[i + 1] && u[2..] == v[i + 2..];
      var c := v[i + 1];
      if c == '\r' {
        assert i + 2 < |v| ==> u[2..][0] == v[i + 2];
        var p := SkipWhitespace(v, i + 1, |v| - 1);
      } else if c == '{' {
        var close := IndexByte(v, i + 2, '}');
        if close < |v| {
          UnitsAfterBrace(v, i + 2, close);
        }
      } else if IsSimpleVarname(c) {
        UnitsAfterName(v, i + 2, NameEnd(v, i + 1));
      }
    }
  }

  lemma {:induction false} ScannedExpandsClean(val: EvalString, i: nat)
    requires i <= |val.v| && Units(val.v[i..]).Some?
    ensures var r := ExpandFrom(NoVariables(), val, i, 0); r.Success? ==> Clean(r.value)
    decreases |val.v| - i
  {
    hide ScanAt, Units;
    if i < |val.v| {
      PieceClean(val.v, i);
      var t := ScanAt(val.v, i);
      if !t.Bad? {
        ScannedExpandsClean(val, t.next);
      }
    }
  }

  lemma {:induction false} NoUnitsClean(v: string)
    requires Units(v) == Some(0)
    ensures Clean(v)
  {
    if v != "" {
      NoUnitsClean(v[1..]);
      assert forall k :: 0 < k < |v| ==> v[k] == v[1..][k - 1];
    }
  }

  /** With no variable set, no scanned path stands for one with a stop byte. */
  lemma ScannedClean(val: EvalString, s: string)
    requires IsScanned(val) && TargetPath(NoVariables(), val) == Success(s)
    ensures Clean(s)
  {
    hide ExpandFrom, Units;
    assert val.v[0..] == val.v;
    ScannedExpandsClean(val, 0);
    if val.esc == 0 {
      NoUnitsClean(val.v);
    }
    var t := Evaluate(NoVariables(), val).value;
    assert Clean(t);
    assert forall k :: 0 <= k < |s| ==> s[k] == t[k + |t| - |s|];
  }

  lemma ReadsClean(entries: seq<EvalString>, paths: seq<string>)
    requires AllScanned(entries) && Reads(NoVariables(), entries, paths)
    ensures AllClean(paths)
  {
    hide IsScanned, Clean, TargetPath;
    forall k | 0 <= k < |paths| ensures Clean(paths[k]) {
      ScannedClean(entries[k], paths[k]);
    }
  }

  // -------------------------------------------------------- the line that ends

  /** Every newline is escaped. */
  predicate Folded(s: string) {
    forall k :: 0 <= k < |s| && s[k] == '\n' ==> k > 0 && s[k - 1] == '$'
  }

  /** Every newline is escaped, but for the one at the end. */
  predicate OneLine(s: string) {
    && |s| > 1 && s[|s| - 1] == '\n' && Folded(s[..|s| - 1])
    && s[|s| - 2] != '$' && s[|s| - 2] != '\r' && s[|s| - 2] != '\n'
  }

  /** The newline at the end counts as escaped too. */
  predicate EndsOpen(s: string) {
    |s| > 1 && s[|s| - 1] == '\n' && s[|s| - 2] == '$' && Folded(s)
  }

  /** How a printed text ends its line: not at all, or with its last newline. */
  predicate Ends(s: string, open: bool) {
    if open then EndsOpen(s) else OneLine(s)
  }

  lemma EndsConcat(a: string, b: string, open: bool)
    requires Folded(a) && Ends(b, open)
    ensures Ends(a + b, open)
  {
    if !open {
      assert (a + b)[..|a + b| - 1] == a + b[..|b| - 1];
    }
  }

  /** Behind an escaped newline the text still ends its line. */
  lemma LineGoesOn(p: string, k: nat)
    requires OneLine(p) && k < |p| - 1 && p[k] == '\n'
    ensures k > 0 && p[k - 1] == '$' && OneLine(p[k + 1..])
  {
    var t := p[..|p| - 1];
    assert t[k] == '\n';
    assert k < |p| - 2;
    var q := p[k + 1..];
    var u := q[..|q| - 1];
    assert forall j :: 0 <= j < |u| ==> u[j] == t[k + 1 + j];
  }

  lemma NextLineUnfolds(buf: string, s: nat, nl: nat)
    requires s <= |buf| && nl == IndexByte(buf, s, '\n') < |buf|
    ensures NextLine(buf, s) == if EscapedFrom(buf, s, nl) then NextLine(buf, nl + 1) else nl + 1
  {
  }

  /** A logical line that is printed in folds ends where it should. */
  lemma {:induction false} LineEnds(buf: string, s: nat, n: nat)
    requires s < n <= |buf| && OneLine(buf[s..n])
    ensures NextLine(buf, s) == n
    decreases n - s
  {
    hide Folded, NextLine;
    var p := buf[s..n];
    assert forall k :: 0 <= k < |p| ==> p[k] == buf[s + k];
    var nl := IndexByte(buf, s, '\n');
    assert p[|p| - 1] == buf[n - 1] && p[|p| - 2] == buf[n - 2];
    assert nl <= n - 1;
    NextLineUnfolds(buf, s, nl);
    if nl < n - 1 {
      assert p[nl - s] == '\n';
      LineGoesOn(p, nl - s);
      assert p[nl - s - 1] == '$';
      assert p[nl - s + 1..] == buf[nl + 1..n];
      LineEnds(buf, nl + 1, n);
    }
  }

  /** The newline after a `$` ends no line: it takes the next line in. */
  lemma {:induction false} DollarSwallowsLine(buf: string, s: nat, n: nat)
    requires s < n < |buf| && n > 1 && buf[n - 1] == '\n' && buf[n - 2] == '$'
    requires s == 0 || buf[s - 1] == '\n'
    ensures NextLine(buf, s) != n
    decreases |buf| - s
  {
    var nl := IndexByte(buf, s, '\n');
    assert nl <= n - 1;
    if nl == n - 1 {
      assert s != nl;
      assert EscapedFrom(buf, s, nl);
    } else if EscapedFrom(buf, s, nl) {
      DollarSwallowsLine(buf, nl + 1, n);
    }
  }

  lemma {:induction false} TokenFolds(s: string)
    requires Clean(s)
    ensures forall k :: 0 <= k < |EscapeToken(s)| ==> EscapeToken(s)[k] != '\n' && EscapeToken(s)[k] != '\r'
    ensures s != "" ==> EscapeToken(s) != "" && EscapeToken(s)[|EscapeToken(s)| - 1] == s[|s| - 1]
  {
    if s != "" {
      TokenFolds(s[1..]);
    }
  }

  predicate Open(l: Line) {
    l.fin == FOLD || EndsInDollar(l.path)
  }

  lemma BodyEnds(l: Line)
    requires LineOk(l) && l.path != ""
    ensures Ends(Body(l), Open(l))
  {
    hide EscapeToken;
    TokenFolds(l.path);
    var b := Body(l);
    if l.fin == "\n" {
      assert b[..|b| - 1] == l.indent + EscapeToken(l.path);
      assert b[|b| - 2] == l.path[|l.path| - 1];
    } else {
      assert b[|b| - 2] == '$';
    }
  }

  /** Marks are folded too. */
  predicate Foldable(l: Line) {
    LineOk(l) && l.path != "" && (l.mark == "" || l.mark == PIPE || l.mark == PIPE2)
  }

  lemma LineFolds(l: Line)
    requires Foldable(l)
    ensures Ends(Render(l), Open(l))
  {
    hide LineOk, Ends, Open;
    assert Render(l) == l.mark + Body(l);
    BodyEnds(l);
    EndsConcat(l.mark, Body(l), Open(l));
  }

  lemma {:induction false} LinesFold(lines: seq<Line>)
    requires lines != [] && forall i :: 0 <= i < |lines| ==> Foldable(lines[i])
    requires forall i :: 0 <= i < |lines| - 1 ==> lines[i].fin == FOLD
    ensures Ends(Text(lines), Open(lines[|lines| - 1]))
  {
    hide Foldable, Render, Folded, OneLine;
    LineFolds(lines[0]);
    if |lines| == 1 {
      assert Render(lines[0]) + "" == Render(lines[0]);
    } else {
      LinesFold(lines[1..]);
      EndsConcat(Render(lines[0]), Text(lines[1..]), Open(lines[|lines| - 1]));
    }
  }

  /** An edge whose lists and rule survive; what is left to ask is where its
      statement ends. */
  predicate WellNamed(e: Edge) {
    && e.Valid() && e.outputs != [] && IsRuleName(e.rule)
    && PathsOk(e.outputs) && PathsOk(e.inputs) && PathsOk(e.validations)
  }

  lemma WellNamedReadable(e: Edge)
    requires WellNamed(e)
    ensures Readable(e)
    ensures forall p <- e.outputs + e.inputs + e.validations :: p != ""
  {
    assert forall k :: 0 <= k < |e.outputs| ==> PathOk(e.outputs[k]);
    assert forall k :: 0 <= k < |e.inputs| ==> PathOk(e.inputs[k]);
    assert forall k :: 0 <= k < |e.validations| ==> PathOk(e.validations[k]);
  }

  lemma OutputsEnd(e: Edge)
    requires WellNamed(e)
    ensures Ends(Text(OutputLines(e)), true)
  {
    hide Clean, OutputLine, Ends, PathOk, LineOk;
    WellNamedReadable(e);
    var lines := OutputLines(e);
    if |e.outputs| == 1 {
      SingleLineOk(e);
    }
    forall i | 0 <= i < |lines| ensures Foldable(lines[i]) && lines[i].fin == FOLD {
      assert e.outputs[i] in e.outputs + e.inputs + e.validations;
      if |e.outputs| > 1 {
        OutputLineOk(e, i);
        OutputFin(e, i);
        MarksAre();
      }
    }
    LinesFold(lines);
  }

  lemma MarksAre()
    ensures Mark(0) == PIPE && Mark(1) == PIPE2
  {
  }

  lemma InputsEnd(e: Edge)
    requires WellNamed(e) && e.inputs != []
    ensures Ends(Text(InputLines(e)), EndsInDollar(e.inputs[|e.inputs| - 1]))
  {
    hide Clean, InputLine, Ends, PathOk, Mark, LineOk, IsRuleName;
    WellNamedReadable(e);
    var lines := InputLines(e);
    forall i | 0 <= i < |lines|
      ensures Foldable(lines[i]) && lines[i].path == e.inputs[i]
               && lines[i].fin == if i < |lines| - 1 then FOLD else "\n"
    {
      assert e.inputs[i] in e.outputs + e.inputs + e.validations;
      InputLineOk(e, i);
      MarksAre();
    }
    LinesFold(lines);
  }

  lemma ValidationsEnd(e: Edge)
    requires WellNamed(e) && e.validations != []
    ensures Ends(PrintedValidations(e.validations), EndsInDollar(e.validations[|e.validations| - 1]))
  {
    hide Clean, PathOk, Ends, IsRuleName;
    WellNamedReadable(e);
    var lines := ValidationLines(e.validations);
    forall i | 0 <= i < |lines| ensures Foldable(lines[i]) {
      assert e.validations[i] in e.outputs + e.inputs + e.validations;
      assert Clean(e.validations[i]);
    }
    LinesFold(lines);
    assert Folded("  |@ $\n");
    EndsConcat("  |@ $\n", Text(lines), EndsInDollar(e.validations[|e.validations| - 1]));
  }

  function PrintedHead(e: Edge): string
    requires e.Valid()
  {
    "build " + (if |e.outputs| == 1 then "" else "$\n") + Text(OutputLines(e)) + RuleText(e.rule)
  }

  lemma HeadEnds(e: Edge)
    requires WellNamed(e)
    ensures Ends(PrintedHead(e), true)
  {
    hide Text, OutputLines, PathsOk, RuleText, IsRuleName;
    var head := "build " + (if |e.outputs| == 1 then "" else "$\n");
    assert head[6..] == "" || (head[7] == '\n' && head[6] == '$');
    OutputsEnd(e);
    EndsConcat(head, Text(OutputLines(e)), true);
    RuleEnds(e.rule);
    EndsConcat(head + Text(OutputLines(e)), RuleText(e.rule), true);
  }

  lemma RuleEnds(rule: string)
    requires IsRuleName(rule)
    ensures Ends(RuleText(rule), true)
  {
    var t := " : " + rule;
    assert Folded(t);
    assert Folded(FOLD) && Ends(FOLD, true);
    EndsConcat(t, FOLD, true);
  }

  // -------------------------------------------------------------- main results

  /** Does the statement end where its printed text does? The last input and the
      last validation are each followed by a bare newline, which ends the line
      unless a `$` stands before it. */
  predicate LineCloses(e: Edge) {
    var open := e.inputs == [] || EndsInDollar(e.inputs[|e.inputs| - 1]);
    if e.validations == [] then !open else open && !EndsInDollar(e.validations[|e.validations| - 1])
  }

  lemma LineClosesIff(e: Edge, rest: string)
    requires WellNamed(e)
    ensures var n := |Printed(e)|;
            var next := NextLine(Printed(e) + rest, 0);
            && (LineCloses(e) ==> next == n)
            && (rest != "" && !LineCloses(e) ==> next != n)
  {
    hide Text, OutputLines, InputLines, PathsOk, RuleText, IsRuleName, NextLine, PrintedValidations;
    var a, b, v := PrintedHead(e), Text(InputLines(e)), PrintedValidations(e.validations);
    var open := e.inputs == [] || EndsInDollar(e.inputs[|e.inputs| - 1]);
    assert Printed(e) == a + b + v;
    UpToInputs(e);
    if e.validations == [] {
      assert v == "" && a + b + v == a + b by { NoValidations(); }
      EndsAt(e, a + b + v, rest, open);
    } else {
      ValidationsEnd(e);
      if open {
        var last := EndsInDollar(e.validations[|e.validations| - 1]);
        EndsConcat(a + b, v, last);
        EndsAt(e, a + b + v, rest, last);
      } else {
        Assoc(a + b, v, rest);
        EndsAt(e, a + b, v + rest, false);
        assert v != "";
      }
    }
  }

  lemma NoValidations()
    ensures PrintedValidations([]) == ""
  {
  }

  /** The statement up to its inputs. */
  lemma UpToInputs(e: Edge)
    requires WellNamed(e)
    ensures Ends(PrintedHead(e) + Text(InputLines(e)), e.inputs == [] || EndsInDollar(e.inputs[|e.inputs| - 1]))
  {
    hide InputLine, OutputLines, PathsOk, RuleText, IsRuleName, PrintedHead;
    HeadEnds(e);
    if e.inputs == [] {
      NoMore(PrintedHead(e), InputLines(e));
    } else {
      InputsEnd(e);
      EndsConcat(PrintedHead(e), Text(InputLines(e)), EndsInDollar(e.inputs[|e.inputs| - 1]));
    }
  }

  lemma EndsAt(e: Edge, text: string, rest: string, open: bool)
    requires e.Valid() && PrintedHead(e) <= text && Ends(text, open)
    ensures !open ==> NextLine(text + rest, 0) == |text|
    ensures open && rest != "" ==> NextLine(text + rest, 0) != |text|
  {
    hide NextLine, Text, OutputLines, RuleText;
    var buf := text + rest;
    assert buf[0..|text|] == text;
    if open {
      if rest != "" {
        DollarSwallowsLine(buf, 0, |text|);
      }
    } else {
      LineEnds(buf, 0, |text|);
    }
  }

  /** What the parser should report for an edge: its lists, counts and rule. */
  ghost predicate Describes(env: Env, p: Parsed, e: Edge) {
    && Reads(env, p.outs, e.outputs) && p.implicitOuts == e.implicitOuts && p.rule == e.rule
    && Reads(env, p.ins, e.inputs) && p.implicit == e.implicitDeps && p.orderOnly == e.orderOnlyDeps
    && Reads(env, p.validations, e.validations)
  }

  /** Printed at the start of a file, in front of `rest`, the edge is cut out as
      one statement and read back as it was; a rule needs a name to be found. */
  ghost predicate RoundTrips(e: Edge, rest: string, last: ChunkParser.StatementType, env: Env)
    requires e.Valid()
  {
    var n := |Printed(e)|;
    var buf := Printed(e) + rest;
    && 6 < n
    && ChunkParser.ParseStep(buf, 0, last)
       == ChunkParser.Advance(n, [ChunkParser.Statement(ChunkParser.Build, 0, 6, n)],
                              ChunkParser.Build, ChunkParser.CountOf(ChunkParser.Build))
    && ScanBuild(buf[6..n]).Success? && e.rule != ""
    && Describes(env, ScanBuild(buf[6..n]).value, e)
  }

  /** An edge whose build statement can be read back. */
  predicate Printable(e: Edge) {
    WellNamed(e) && !(|e.outputs| == 1 && e.implicitOuts == 1) && LineCloses(e)
  }

  lemma StatementCut(e: Edge, rest: string, last: ChunkParser.StatementType)
    requires e.Valid()
    ensures var n := |Printed(e)|;
            var buf := Printed(e) + rest;
            && 6 < n && buf[6..n] == Printed(e)[6..]
            && var next := NextLine(buf, 0);
               ChunkParser.ParseStep(buf, 0, last)
               == ChunkParser.Advance(next, [ChunkParser.Statement(ChunkParser.Build, 0, 6, next)],
                                      ChunkParser.Build, ChunkParser.CountOf(ChunkParser.Build))
  {
    hide Printed, NextLine;
    StartsWithBuild(e);
    var buf := Printed(e) + rest;
    assert buf[..6] == "build ";
    KeywordRead(buf);
  }

  /** The statement of a printable edge describes it. */
  lemma PrintableReads(e: Edge, env: Env)
    requires Printable(e)
    ensures ReadBack(e).Success? && Describes(env, ReadBack(e).value, e)
  {
    hide TargetPath, PathOk, IsRuleName, KeptOf, Clean, LineCloses, Reads;
    WellNamedReadable(e);
    KeptReads(env, e.outputs);
    KeptReads(env, e.inputs);
    KeptReads(env, e.validations);
    var x, y := e.ExplicitIns(), |e.inputs| - e.orderOnlyDeps;
    AllKept(e.outputs);
    AllKept(e.outputs[Shown(e)..]);
    AllKept(e.inputs[x..y]);
    AllKept(e.inputs[y..]);
  }

  lemma PrintableRoundTrips(e: Edge, rest: string, last: ChunkParser.StatementType, env: Env)
    requires Printable(e)
    ensures RoundTrips(e, rest, last, env)
  {
    hide ScanBuild, Printed, Describes, ReadBack, LineCloses, ChunkParser.ParseStep, NextLine;
    WellNamedReadable(e);
    LineClosesIff(e, rest);
    StatementCut(e, rest, last);
    PrintedRead(e);
    PrintableReads(e, env);
  }

  /** One file with something after the statement is enough to tell. */
  lemma OnlyPrintable(e: Edge, rest: string, last: ChunkParser.StatementType)
    requires e.Valid() && rest != "" && RoundTrips(e, rest, last, NoVariables())
    ensures Printable(e)
  {
    hide ScanBuild, Printed, AllScanned, Reads, PathsOk, AllClean, KeptOf, LineCloses, ChunkParser.ParseStep, NextLine;
    StatementCut(e, rest, last);
    BuildScanned(Printed(e)[6..]);
    var p := ScanBuild(Printed(e)[6..]).value;
    ReadsClean(p.outs, e.outputs);
    ReadsClean(p.ins, e.inputs);
    ReadsClean(p.validations, e.validations);
    assert IsRuleName(e.rule);
    PrintedRead(e);
    KeptReads(NoVariables(), e.outputs);
    KeptReads(NoVariables(), e.inputs);
    KeptReads(NoVariables(), e.validations);
    NoneKept(e);
    LineClosesIff(e, rest);
  }

  lemma NoneKept(e: Edge)
    requires e.Valid()
    ensures |e.outputs| == 1 ==> KeptOf(e.outputs[Shown(e)..]) == []
    ensures e.outputs == [] ==> KeptOf(e.outputs) == []
  {
  }

  /** Printing a build statement and parsing it again gives the edge back, in
      whatever file it stands first and whatever the variables are, iff it is
      printable. */
  lemma PrintThenParse(e: Edge)
    requires e.Valid()
    ensures (forall rest, last, env :: RoundTrips(e, rest, last, env)) <==> Printable(e)
  {
    hide RoundTrips, Printable;
    if Printable(e) {
      forall rest, last, env ensures RoundTrips(e, rest, last, env) {
        PrintableRoundTrips(e, rest, last, env);
      }
    } else if forall rest, last, env :: RoundTrips(e, rest, last, env) {
      assert RoundTrips(e, "\n", ChunkParser.NoStatement, NoVariables());
      OnlyPrintable(e, "\n", ChunkParser.NoStatement);
    }
  }

  lemma {:induction false} EqualsEscaped(s: string)
    ensures '=' in EscapeToken(s) <==> '=' in s
  {
    if s != "" {
      EqualsEscaped(s[1..]);
      assert s == [s[0]] + s[1..];
    }
  }

  predicate HoldEquals(paths: seq<string>) {
    exists k :: 0 <= k < |paths| && '=' in paths[k]
  }

  lemma {:induction false} EqualsPrinted(lines: seq<Line>)
    requires forall i :: 0 <= i < |lines| ==> LineOk(lines[i]) && lines[i].mark == ""
    ensures '=' in Text(lines) <==> HoldEquals(Paths(lines))
  {
    hide EscapeToken, Clean;
    if lines != [] {
      var l := lines[0];
      EqualsEscaped(l.path);
      EqualsPrinted(lines[1..]);
      assert Paths(lines) == [l.path] + Paths(lines[1..]);
      HoldEqualsMore(l.path, Paths(lines[1..]));
    }
  }

  lemma HoldEqualsMore(p: string, paths: seq<string>)
    ensures HoldEquals([p] + paths) <==> '=' in p || HoldEquals(paths)
  {
    var all := [p] + paths;
    assert all[0] == p;
    if HoldEquals(paths) {
      var k :| 0 <= k < |paths| && '=' in paths[k];
      assert all[k + 1] == paths[k];
    }
  }

  lemma EqualsValidation(e: Edge)
    requires WellNamed(e) && e.validations != []
    ensures '=' in PrintedValidations(e.validations) <==> HoldEquals(e.validations)
  {
    hide Clean, Text, PathOk, IsRuleName;
    WellNamedReadable(e);
    var lines := ValidationLines(e.validations);
    forall i | 0 <= i < |lines| ensures LineOk(lines[i]) {
      assert Clean(e.validations[i]);
    }
    EqualsPrinted(lines);
    assert Paths(lines) == e.validations;
  }

  /** Where the validations of an edge go whose inputs close the line: they are
      an indented line of their own, which is an error, or a binding of the
      statement when one of them holds a `=`. */
  lemma ValidationsCutOff(e: Edge, rest: string)
    requires WellNamed(e) && e.inputs != [] && !EndsInDollar(e.inputs[|e.inputs| - 1])
    requires e.validations != [] && !EndsInDollar(e.validations[|e.validations| - 1])
    ensures var buf, m, n := Printed(e) + rest, |Printed(e.(validations := []))|, |Printed(e)|;
            && NextLine(buf, 0) == m < n
            && var step := ChunkParser.ParseStep(buf, m, ChunkParser.Build);
               if HoldEquals(e.validations) then
                 step.Advance? && step.next == n && |step.stmts| == 1 && step.stmts[0].t == ChunkParser.BuildVar
               else step == ChunkParser.Fail(ChunkParser.WrongVarBinding(m))
  {
    hide Text, OutputLines, InputLines, PathsOk, RuleText, IsRuleName, NextLine, PrintedValidations;
    var a, b, v := PrintedHead(e), Text(InputLines(e)), PrintedValidations(e.validations);
    var buf, m, n := Printed(e) + rest, |a + b|, |Printed(e)|;
    SameInputs(e);
    assert Printed(e) == a + b + v;
    UpToInputs(e);
    Assoc(a + b, v, rest);
    EndsAt(e, a + b, v + rest, false);
    ValidationsEnd(e);
    assert buf[m..n] == v;
    LineEnds(buf, m, n);
    EqualsValidation(e);
    StartsWithMark(e.validations);
    assert forall k :: m <= k < n ==> buf[k] == v[k - m];
    assert '=' in v <==> IndexByte(buf, m, '=') < n by {
      if '=' in v {
        var k :| 0 <= k < |v| && v[k] == '=';
        assert buf[m + k] == '=';
      }
    }
    assert SkipSpaces(buf, m + 2, n) == m + 2;
    assert SkipSpaces(buf, m + 1, n) == m + 2;
  }

  lemma SameInputs(e: Edge)
    requires e.Valid()
    ensures Printed(e.(validations := [])) == PrintedHead(e) + Text(InputLines(e))
  {
    var f := e.(validations := []);
    assert InputLines(f) == InputLines(e) && OutputLines(f) == OutputLines(e);
    var p := PrintedHead(e) + Text(InputLines(e));
    assert p + "" == p;
  }

  lemma StartsWithMark(paths: seq<string>)
    requires paths != []
    ensures var v := PrintedValidations(paths); |v| > 2 && v[0] == ' ' && v[1] == ' ' && v[2] == '|'
  {
    hide Text, ValidationLines;
  }

  /** Why a lone implicit output is left out: it prints like an explicit one. */
  lemma LoneImplicitLost(e: Edge)
    requires e.Valid() && |e.outputs| == 1
    ensures Printed(e.(implicitOuts := 1)) == Printed(e.(implicitOuts := 0))
  {
    var a, b := e.(implicitOuts := 1), e.(implicitOuts := 0);
    assert InputLines(a) == InputLines(b) && OutputLines(a) == OutputLines(b);
  }
}
