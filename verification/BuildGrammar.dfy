/** Build statements as people write them: with any white space, folded lines and
    escaped blanks between the parts. */
module BuildGrammar {
  import opened Wrappers
  import opened Lexer
  import opened Eval
  import opened BuildParser

  /** What separates the parts of a statement. */
  datatype Blank = White(c: char) | Fold(cr: bool) | Escaped(c: char)

  /** One byte of a path, or an escape with the byte it is for. */
  datatype Bit = Byte(c: char) | Dollar(c: char)

  /** A path, and what stands in front of it. */
  datatype Item = Item(gap: seq<Blank>, path: seq<Bit>)

  /** A list of paths, and what stands behind it. */
  datatype List = List(items: seq<Item>, gap: seq<Blank>)

  datatype Inputs = Inputs(ins: List, implicit: Option<List>, orderOnly: Option<List>, validations: Option<List>)

  datatype Statement = Statement(outs: List, implicitOuts: Option<List>, gap: seq<Blank>, rule: string, inputs: Inputs)

  // -------------------------------------------------------------------- text

  function BlankText(b: Blank): string {
    match b
    case White(c) => [c]
    case Fold(cr) => if cr then "$\r\n" else "$\n"
    case Escaped(c) => ['$', c]
  }

  function GapText(g: seq<Blank>): string {
    if g == [] then "" else BlankText(g[0]) + GapText(g[1..])
  }

  function BitText(b: Bit): string {
    match b
    case Byte(c) => [c]
    case Dollar(c) => ['$', c]
  }

  function PathText(p: seq<Bit>): string {
    if p == [] then "" else BitText(p[0]) + PathText(p[1..])
  }

  function Escapes(p: seq<Bit>): nat {
    if p == [] then 0 else (if p[0].Dollar? then 1 else 0) + Escapes(p[1..])
  }

  function ItemsText(items: seq<Item>, rest: string): string {
    if items == [] then rest
    else GapText(items[0].gap) + (PathText(items[0].path) + ItemsText(items[1..], rest))
  }

  function ListText(l: List, rest: string): string {
    ItemsText(l.items, GapText(l.gap) + rest)
  }

  function AfterText(mark: string, l: Option<List>, rest: string): string {
    match l
    case None => rest
    case Some(list) => mark + ListText(list, rest)
  }

  function InputsText(x: Inputs, rest: string): string {
    ListText(x.ins, ImplicitText(x, rest))
  }

  function ImplicitText(x: Inputs, rest: string): string {
    AfterText("|", x.implicit, OrderOnlyText(x, rest))
  }

  function OrderOnlyText(x: Inputs, rest: string): string {
    AfterText("||", x.orderOnly, AfterText("|@", x.validations, rest))
  }

  function ColonText(x: Statement, rest: string): string {
    ":" + (GapText(x.gap) + (x.rule + InputsText(x.inputs, rest)))
  }

  /** The statement behind its keyword, and what follows it. */
  function StatementText(x: Statement, rest: string): string {
    ListText(x.outs, AfterText("|", x.implicitOuts, ColonText(x, rest)))
  }

  // ----------------------------------------------------------------- grammar

  predicate IsBlank(b: Blank) {
    match b
    case White(c) => IsWhitespace(c)
    case Fold(_) => true
    case Escaped(c) => c == ' ' || c == '\t'
  }

  predicate IsGap(g: seq<Blank>) {
    forall b <- g :: IsBlank(b)
  }

  /** Does a line go on here? */
  predicate Folds(rest: string) {
    "$\n" <= rest || "$\r\n" <= rest
  }

  /** No blank starts here, and no path is cut short by the end. */
  predicate EndsGap(rest: string) {
    rest == "" || (!IsWhitespace(rest[0]) && !Folds(rest) && !("$ " <= rest) && !("$\t" <= rest))
  }

  predicate EndsPath(rest: string) {
    rest == "" || (if rest[0] == '$' then Folds(rest) else IsNonLiteral(rest[0]))
  }

  /** No path starts here, and no blank. */
  predicate EndsList(rest: string) {
    rest == "" || rest[0] == ':' || rest[0] == '|' || rest[0] == '\0'
  }

  predicate IsBit(b: Bit, rest: string) {
    match b
    case Byte(c) => !IsNonLiteral(c)
    case Dollar(c) => c != '\n' && !(c == '\r' && rest != "" && rest[0] == '\n')
  }

  predicate IsPath(p: seq<Bit>, rest: string)
    decreases |p|
  {
    p == [] ||
    (IsBit(p[0], PathText(p[1..]) + rest) && IsPath(p[1..], rest))
  }

  predicate AreItems(items: seq<Item>, rest: string)
    decreases |items|
  {
    items == [] ||
    (&& IsGap(items[0].gap) && items[0].path != []
     && var next := ItemsText(items[1..], rest);
     && IsPath(items[0].path, next) && EndsPath(next) && EndsGap(PathText(items[0].path) + next)
     && AreItems(items[1..], rest))
  }

  predicate IsList(l: List, rest: string) {
    IsGap(l.gap) && AreItems(l.items, GapText(l.gap) + rest) && EndsList(rest)
  }

  predicate IsAfter(l: Option<List>, rest: string) {
    l.Some? ==> IsList(l.value, rest)
  }

  /** A `|` is not read as the start of `||` or `|@`. */
  predicate PipeAlone(l: Option<List>, rest: string) {
    l.Some? ==> var t := ListText(l.value, rest); t == "" || (t[0] != '|' && t[0] != '@')
  }

  predicate AreInputs(x: Inputs, rest: string) {
    && IsList(x.ins, ImplicitText(x, rest))
    && IsAfter(x.implicit, OrderOnlyText(x, rest)) && PipeAlone(x.implicit, OrderOnlyText(x, rest))
    && IsAfter(x.orderOnly, AfterText("|@", x.validations, rest))
    && IsAfter(x.validations, rest)
    && (rest == "" || rest[0] == ':' || rest[0] == '\0')
  }

  predicate IsRule(rule: string, rest: string) {
    && (forall k :: 0 <= k < |rule| ==> IsRuleByte(rule[k]))
    && (rest == "" || !IsRuleByte(rest[0]))
  }

  /** A letter, a digit, an underscore, a dash or a dot. */
  predicate IsRuleByte(c: char) {
    'a' <= c <= 'z' || 'A' <= c <= 'Z' || '0' <= c <= '9' || c == '_' || c == '-' || c == '.'
  }

  lemma RuleBytes()
    ensures forall c :: IsRuleByte(c) <==> IsVarname(c)
  {
  }

  predicate IsStatement(x: Statement, rest: string) {
    && IsList(x.outs, AfterText("|", x.implicitOuts, ColonText(x, rest)))
    && IsAfter(x.implicitOuts, ColonText(x, rest)) && PipeAlone(x.implicitOuts, ColonText(x, rest))
    && IsGap(x.gap) && EndsGap(x.rule + InputsText(x.inputs, rest))
    && IsRule(x.rule, InputsText(x.inputs, rest))
    && AreInputs(x.inputs, rest)
  }

  // ------------------------------------------------------------------- lists

  lemma At0(buf: string, pos: nat, a: string, rest: string)
    requires pos <= |buf| && buf[pos..] == a + rest
    ensures pos + |a| <= |buf| && buf[pos + |a|..] == rest
    ensures forall k :: 0 <= k < |a| ==> buf[pos + k] == a[k]
    ensures forall k :: 0 <= k < |rest| ==> buf[pos + |a| + k] == rest[k]
  {
    var t := buf[pos..];
    assert forall k :: 0 <= k < |t| ==> buf[pos + k] == t[k];
    assert t[|a|..] == rest;
  }

  lemma BlankSkipped(buf: string, pos: nat, b: Blank, rest: string)
    requires pos <= |buf| && buf[pos..] == BlankText(b) + rest && IsBlank(b)
    ensures pos + |BlankText(b)| <= |buf| && buf[pos + |BlankText(b)|..] == rest
    ensures SkipSpaces(buf, pos, |buf|) == SkipSpaces(buf, pos + |BlankText(b)|, |buf|)
  {
    At0(buf, pos, BlankText(b), rest);
  }

  lemma GapEnds(buf: string, pos: nat, rest: string)
    requires pos <= |buf| && buf[pos..] == rest && EndsGap(rest)
    ensures SkipSpaces(buf, pos, |buf|) == pos
  {
    assert forall k :: 0 <= k < |rest| ==> buf[pos + k] == rest[k];
  }

  lemma {:induction false} GapSkipped(buf: string, pos: nat, g: seq<Blank>, rest: string)
    requires pos <= |buf| && buf[pos..] == GapText(g) + rest && IsGap(g) && EndsGap(rest)
    ensures pos + |GapText(g)| <= |buf| && buf[pos + |GapText(g)|..] == rest
    ensures SkipSpaces(buf, pos, |buf|) == pos + |GapText(g)|
    decreases |g|
  {
    hide SkipSpaces, BlankText, IsBlank, EndsGap;
    if g == [] {
      assert GapText(g) + rest == rest;
      GapEnds(buf, pos, rest);
    } else {
      var t := BlankText(g[0]);
      assert g[0] in g;
      assert buf[pos..] == t + (GapText(g[1..]) + rest);
      BlankSkipped(buf, pos, g[0], GapText(g[1..]) + rest);
      GapSkipped(buf, pos + |t|, g[1..], rest);
    }
  }

  lemma BitScanned(buf: string, pos: nat, b: Bit, rest: string)
    requires pos <= |buf| && buf[pos..] == BitText(b) + rest && IsBit(b, rest)
    ensures pos + |BitText(b)| <= |buf| && buf[pos + |BitText(b)|..] == rest
    ensures var r := ScanPath(buf, pos + |BitText(b)|);
            ScanPath(buf, pos) == (r.0, r.1 + if b.Dollar? then 1 else 0)
  {
    At0(buf, pos, BitText(b), rest);
  }

  lemma PathEnds(buf: string, pos: nat, rest: string)
    requires pos <= |buf| && buf[pos..] == rest && EndsPath(rest)
    ensures ScanPath(buf, pos) == (pos, 0)
  {
    assert forall k :: 0 <= k < |rest| ==> buf[pos + k] == rest[k];
  }

  lemma {:induction false} PathScanned(buf: string, pos: nat, p: seq<Bit>, rest: string)
    requires pos <= |buf| && buf[pos..] == PathText(p) + rest && IsPath(p, rest) && EndsPath(rest)
    ensures pos + |PathText(p)| <= |buf| && buf[pos + |PathText(p)|..] == rest
    ensures ScanPath(buf, pos) == (pos + |PathText(p)|, Escapes(p))
    decreases |p|
  {
    hide ScanPath, BitText, IsBit, EndsPath;
    if p == [] {
      assert PathText(p) + rest == rest;
      PathEnds(buf, pos, rest);
    } else {
      var t, more := BitText(p[0]), PathText(p[1..]) + rest;
      assert buf[pos..] == t + more;
      BitScanned(buf, pos, p[0], more);
      PathScanned(buf, pos + |t|, p[1..], rest);
    }
  }

  function Values(items: seq<Item>): (r: seq<EvalString>)
    ensures |r| == |items|
  {
    if items == [] then []
    else [EvalString(0, PathText(items[0].path), Escapes(items[0].path))] + Values(items[1..])
  }

  lemma NoPathHere(buf: string, pos: nat, rest: string)
    requires pos <= |buf| && buf[pos..] == rest && EndsList(rest)
    ensures EndsGap(rest) && ScanPath(buf, pos) == (pos, 0)
  {
    assert rest != "" ==> buf[pos] == rest[0];
  }

  lemma SomePath(p: seq<Bit>)
    ensures p != [] ==> |PathText(p)| > 0
  {
  }

  /** The first path of a list, and the rest of it. */
  lemma ListStep(buf: string, pos: nat, x: Item, next: string)
    requires pos <= |buf| && buf[pos..] == GapText(x.gap) + (PathText(x.path) + next)
    requires IsGap(x.gap) && x.path != [] && IsPath(x.path, next) && EndsPath(next) && EndsGap(PathText(x.path) + next)
    ensures var e := pos + |GapText(x.gap)| + |PathText(x.path)|;
            && e <= |buf| && buf[e..] == next
            && ScanList(buf, pos)
               == ([EvalString(0, PathText(x.path), Escapes(x.path))] + ScanList(buf, e).0, ScanList(buf, e).1)
  {
    hide ScanPath, SkipSpaces, IsPath, EndsPath, EndsGap, GapText, PathText, Escapes, IsGap;
    var s := pos + |GapText(x.gap)|;
    GapSkipped(buf, pos, x.gap, PathText(x.path) + next);
    PathScanned(buf, s, x.path, next);
    SomePath(x.path);
    At0(buf, s, PathText(x.path), next);
    assert buf[s..s + |PathText(x.path)|] == PathText(x.path);
  }

  lemma {:induction false} ItemsScanned(buf: string, pos: nat, items: seq<Item>, gap: seq<Blank>, rest: string)
    returns (stop: nat)
    requires pos <= |buf| && buf[pos..] == ItemsText(items, GapText(gap) + rest)
    requires AreItems(items, GapText(gap) + rest) && IsGap(gap) && EndsList(rest)
    ensures stop <= |buf| && buf[stop..] == rest && ScanList(buf, pos) == (Values(items), stop)
    decreases |items|
  {
    hide ScanPath, SkipSpaces, IsPath, EndsPath, EndsGap, EndsList, GapText, PathText, Escapes, IsGap, ScanList;
    var end := GapText(gap) + rest;
    if items == [] {
      stop := pos + |GapText(gap)|;
      At0(buf, pos, GapText(gap), rest);
      NoPathHere(buf, stop, rest);
      GapSkipped(buf, pos, gap, rest);
      ListEnds(buf, pos, stop);
    } else {
      var next := ItemsText(items[1..], end);
      ListStep(buf, pos, items[0], next);
      var e := pos + |GapText(items[0].gap)| + |PathText(items[0].path)|;
      stop := ItemsScanned(buf, e, items[1..], gap, rest);
    }
  }

  lemma ListEnds(buf: string, pos: nat, stop: nat)
    requires pos <= |buf| && SkipSpaces(buf, pos, |buf|) == stop && ScanPath(buf, stop) == (stop, 0)
    ensures ScanList(buf, pos) == ([], stop)
  {
  }

  lemma ListScanned(buf: string, pos: nat, l: List, rest: string) returns (stop: nat)
    requires pos <= |buf| && buf[pos..] == ListText(l, rest) && IsList(l, rest)
    ensures stop <= |buf| && buf[stop..] == rest
    ensures ScanList(buf, pos) == (Values(l.items), stop) && SkipSpaces(buf, stop, |buf|) == stop
  {
    hide ScanList, AreItems, ItemsText;
    stop := ItemsScanned(buf, pos, l.items, l.gap, rest);
    NoPathHere(buf, stop, rest);
    GapEnds(buf, stop, rest);
  }

  // --------------------------------------------------------------- sections

  /** What a list behind a mark gives. */
  function After(l: Option<List>): seq<EvalString> {
    match l
    case None => []
    case Some(list) => Values(list.items)
  }

  lemma AfterScanned(buf: string, pos: nat, mark: string, l: Option<List>, rest: string, there: bool)
    returns (stop: nat)
    requires pos <= |buf| && buf[pos..] == AfterText(mark, l, rest) && IsAfter(l, rest)
    requires SkipSpaces(buf, pos, |buf|) == pos && there == l.Some?
    ensures there ==> pos + |mark| <= |buf|
    ensures stop <= |buf| && buf[stop..] == rest
    ensures ScanAfter(buf, pos, there, |mark|) == (After(l), stop) && SkipSpaces(buf, stop, |buf|) == stop
  {
    hide ScanList, IsList, ListText, SkipSpaces;
    if l == None {
      stop := pos;
    } else {
      At0(buf, pos, mark, ListText(l.value, rest));
      stop := ListScanned(buf, pos + |mark|, l.value, rest);
    }
  }

  predicate Pipe(rest: string) {
    rest != "" && rest[0] == '|'
  }

  predicate Pair(rest: string, c: char) {
    |rest| > 1 && rest[0] == '|' && rest[1] == c
  }

  /** Which separator stands here. */
  lemma MarksSeen(buf: string, pos: nat, rest: string)
    requires pos <= |buf| && buf[pos..] == rest
    ensures PipeAt(buf, pos) <==> Pipe(rest) && !Pair(rest, '|') && !Pair(rest, '@')
    ensures PairAt(buf, pos, '|') <==> Pair(rest, '|')
    ensures PairAt(buf, pos, '@') <==> Pair(rest, '@')
  {
    assert forall k :: 0 <= k < |rest| ==> buf[pos + k] == rest[k];
  }

  /** A lone mark is there iff its list is. */
  lemma PipeHead(l: Option<List>, rest: string)
    requires PipeAlone(l, rest) && (!Pipe(rest) || Pair(rest, '|') || Pair(rest, '@'))
    ensures var t := AfterText("|", l, rest); l.Some? <==> Pipe(t) && !Pair(t, '|') && !Pair(t, '@')
  {
    hide ListText;
    if l.Some? {
      var more := ListText(l.value, rest);
      assert ("|" + more)[0] == '|' && forall k :: 0 <= k < |more| ==> ("|" + more)[k + 1] == more[k];
    }
  }

  lemma PairHead(mark: string, l: Option<List>, rest: string, c: char)
    requires mark == ['|', c] && !Pair(rest, c)
    ensures l.Some? <==> Pair(AfterText(mark, l, rest), c)
    ensures l.Some? ==> Pipe(AfterText(mark, l, rest)) && forall d :: d != c ==> !Pair(AfterText(mark, l, rest), d)
  {
    hide ListText;
    if l.Some? {
      var t := mark + ListText(l.value, rest);
      assert t[0] == '|' && t[1] == c;
    }
  }

  lemma InputMarks(x: Inputs, rest: string)
    requires AreInputs(x, rest)
    ensures var t := ImplicitText(x, rest); x.implicit.Some? <==> Pipe(t) && !Pair(t, '|') && !Pair(t, '@')
    ensures x.orderOnly.Some? <==> Pair(OrderOnlyText(x, rest), '|')
    ensures x.validations.Some? <==> Pair(AfterText("|@", x.validations, rest), '@')
  {
    hide IsList, ListText, IsAfter;
    var v := AfterText("|@", x.validations, rest);
    PairHead("|@", x.validations, rest, '@');
    assert !Pair(v, '|') && (Pipe(v) ==> Pair(v, '@'));
    PairHead("||", x.orderOnly, v, '|');
    PipeHead(x.implicit, OrderOnlyText(x, rest));
  }

  function InputsParsed(x: Inputs, outs: seq<EvalString>, implicitOuts: seq<EvalString>, rule: string): Parsed {
    Parsed(outs + implicitOuts, |implicitOuts|, rule,
           Values(x.ins.items) + After(x.implicit) + After(x.orderOnly), |After(x.implicit)|, |After(x.orderOnly)|,
           After(x.validations))
  }

  lemma InputsScanned(buf: string, pos: nat, x: Inputs, rest: string, outs: seq<EvalString>,
                      implicitOuts: seq<EvalString>, rule: string)
    requires pos <= |buf| && buf[pos..] == InputsText(x, rest) && AreInputs(x, rest)
    ensures ScanInputs(buf, pos, outs, implicitOuts, rule) == InputsParsed(x, outs, implicitOuts, rule)
  {
    hide ScanList, SkipSpaces, IsList, ListText, PipeAt, PairAt, ScanAfter, IsAfter, AfterText, PipeAlone;
    InputMarks(x, rest);
    var p1 := ListScanned(buf, pos, x.ins, ImplicitText(x, rest));
    MarksSeen(buf, p1, ImplicitText(x, rest));
    var p2 := AfterScanned(buf, p1, "|", x.implicit, OrderOnlyText(x, rest), PipeAt(buf, p1));
    MarksSeen(buf, p2, OrderOnlyText(x, rest));
    var p3 := AfterScanned(buf, p2, "||", x.orderOnly, AfterText("|@", x.validations, rest), PairAt(buf, p2, '|'));
    MarksSeen(buf, p3, AfterText("|@", x.validations, rest));
    var p4 := AfterScanned(buf, p3, "|@", x.validations, rest, PairAt(buf, p3, '@'));
  }

  lemma {:induction false} RuleScanned(buf: string, pos: nat, rule: string, rest: string)
    requires pos <= |buf| && buf[pos..] == rule + rest && IsRule(rule, rest)
    ensures IdentEnd(buf, pos) == pos + |rule|
    decreases |rule|
  {
    RuleBytes();
    At0(buf, pos, rule, rest);
    if rule != "" {
      assert buf[pos + 1..] == buf[pos..][1..] == rule[1..] + rest;
      RuleScanned(buf, pos + 1, rule[1..], rest);
    }
  }

  /** What any written statement reads as: the paths of its lists with their
      escapes, how many of each kind, and its rule. */
  lemma StatementReads(x: Statement, rest: string)
    requires IsStatement(x, rest) && TrailingDollars(StatementText(x, rest)) % 2 == 0
    ensures ScanBuild(StatementText(x, rest)) == Meaning(x, rest)
  {
    hide ScanStatement, Meaning, IsStatement, StatementText, BuildComes, TrailingDollars;
    OverrunsIff(StatementText(x, rest));
    ScannedIs(x, rest);
  }

  function Meaning(x: Statement, rest: string): Result<Parsed, ParseError> {
    if Values(x.outs.items) + After(x.implicitOuts) == [] then Failure(NoOutput)
    else if x.rule + InputsText(x.inputs, rest) == "" then Failure(NoRule)
    else Success(InputsParsed(x.inputs, Values(x.outs.items), After(x.implicitOuts), x.rule))
  }

  lemma ScannedIs(x: Statement, rest: string)
    requires IsStatement(x, rest)
    ensures ScanStatement(StatementText(x, rest)) == Meaning(x, rest)
  {
    hide ScanList, SkipSpaces, IsList, ListText, PipeAt, PairAt, ScanAfter, IsAfter, AfterText, PipeAlone, AreInputs,
      ScanInputs, InputsText, IdentEnd, InputsParsed, ColonText, EndsGap, IsGap, GapText, IsRule, Values, After;
    var buf := StatementText(x, rest);
    assert buf[0..] == buf;
    var p1 := ListScanned(buf, 0, x.outs, AfterText("|", x.implicitOuts, ColonText(x, rest)));
    MarksSeen(buf, p1, AfterText("|", x.implicitOuts, ColonText(x, rest)));
    ColonHead(x, rest);
    PipeHead(x.implicitOuts, ColonText(x, rest));
    var p2 := AfterScanned(buf, p1, "|", x.implicitOuts, ColonText(x, rest), PipeAt(buf, p1));
    RuleAt(buf, p2, x, rest);
    var r := p2 + 1 + |GapText(x.gap)|;
    InputsScanned(buf, r + |x.rule|, x.inputs, rest, Values(x.outs.items), After(x.implicitOuts), x.rule);
  }

  lemma RuleAt(buf: string, p: nat, x: Statement, rest: string)
    requires p <= |buf| && buf[p..] == ColonText(x, rest)
    requires IsGap(x.gap) && EndsGap(x.rule + InputsText(x.inputs, rest)) && IsRule(x.rule, InputsText(x.inputs, rest))
    ensures p < |buf| && buf[p] == ':'
    ensures var r := p + 1 + |GapText(x.gap)|;
            && r + |x.rule| <= |buf| && buf[r..r + |x.rule|] == x.rule
            && SkipSpaces(buf, p + 1, |buf|) == r && IdentEnd(buf, r) == r + |x.rule|
            && buf[r + |x.rule|..] == InputsText(x.inputs, rest)
            && (r == |buf| <==> x.rule + InputsText(x.inputs, rest) == "")
  {
    hide SkipSpaces, InputsText, IdentEnd, EndsGap, IsGap, GapText, IsRule;
    var named := x.rule + InputsText(x.inputs, rest);
    At0(buf, p, ":", GapText(x.gap) + named);
    GapSkipped(buf, p + 1, x.gap, named);
    var r := p + 1 + |GapText(x.gap)|;
    RuleScanned(buf, r, x.rule, InputsText(x.inputs, rest));
    At0(buf, r, x.rule, InputsText(x.inputs, rest));
    assert buf[r..r + |x.rule|] == x.rule;
  }

  lemma ColonHead(x: Statement, rest: string)
    ensures var t := ColonText(x, rest); t != "" && t[0] == ':' && !Pipe(t)
  {
    hide InputsText, GapText;
  }

  /** A statement that stops before its colon. */
  lemma HeadFails(outs: List, implicitOuts: Option<List>, rest: string)
    requires IsList(outs, AfterText("|", implicitOuts, rest)) && IsAfter(implicitOuts, rest)
    requires PipeAlone(implicitOuts, rest) && EndsList(rest)
    requires rest == "" || (rest[0] != ':' && (rest[0] == '|' ==> Pair(rest, '|') || Pair(rest, '@')))
    ensures ScanStatement(ListText(outs, AfterText("|", implicitOuts, rest)))
         == Failure(if Values(outs.items) + After(implicitOuts) == [] then NoOutput else NoColon)
  {
    hide ScanList, SkipSpaces, IsList, ListText, PipeAt, PairAt, ScanAfter, IsAfter, AfterText, PipeAlone, Values,
      After;
    var buf := ListText(outs, AfterText("|", implicitOuts, rest));
    assert buf[0..] == buf;
    var p1 := ListScanned(buf, 0, outs, AfterText("|", implicitOuts, rest));
    MarksSeen(buf, p1, AfterText("|", implicitOuts, rest));
    PipeHead(implicitOuts, rest);
    var p2 := AfterScanned(buf, p1, "|", implicitOuts, rest, PipeAt(buf, p1));
    assert rest != "" ==> buf[p2] == buf[p2..][0];
  }
}
