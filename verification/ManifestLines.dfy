/** What the statements of a manifest are: the parser against the words and
    signs in its lines. */
module ManifestLines {
  import opened Lexer
  import opened ChunkParser
  import opened FileParser

  /** The word of a keyword statement. */
  function Word(t: StatementType): string {
    match t
    case Build => "build"
    case Default => "default"
    case Include => "include"
    case Pool => "pool"
    case Rule => "rule"
    case Subninja => "subninja"
    case _ => ""
  }

  predicate Begins(buf: string, i: nat, t: StatementType) {
    var v := i + |Word(t)|;
    Word(t) != "" && v < |buf| && buf[i..v] == Word(t) && (buf[v] == ' ' || buf[v] == '\t')
  }

  predicate BeginsSome(buf: string, i: nat) {
    exists t :: Begins(buf, i, t)
  }

  predicate Indented(buf: string, i: nat) {
    i < |buf| && (buf[i] == ' ' || buf[i] == '\t')
  }

  /** A line that holds nothing, or a comment, from its first byte on. */
  predicate Empty(buf: string, i: nat) {
    i < |buf| && (buf[i] == '\n' || buf[i] == '\r' || buf[i] == '#')
  }

  predicate FirstEquals(buf: string, i: nat, v: nat) {
    i <= v < |buf| && buf[v] == '=' && forall k :: i <= k < v ==> buf[k] != '='
  }

  predicate NoEquals(buf: string, i: nat, e: nat) {
    e <= |buf| && forall k :: i <= k < e ==> buf[k] != '='
  }

  /** A statement that its text makes one of its kind, behind one of kind `owner`. */
  predicate Fits(buf: string, st: Statement, owner: StatementType) {
    && st.s < |buf| && st.e == NextLine(buf, st.s)
    && match st.t
       case NoStatement => false
       case VarDecl =>
         && !Indented(buf, st.s) && !Empty(buf, st.s) && !BeginsSome(buf, st.s)
         && FirstEquals(buf, st.s, st.v)
       case BuildVar => owner == Build && Indented(buf, st.s) && FirstEquals(buf, st.s, st.v) && st.v < st.e
       case RuleVar => owner == Rule && Indented(buf, st.s) && FirstEquals(buf, st.s, st.v) && st.v < st.e
       case PoolVar => owner == Pool && Indented(buf, st.s) && FirstEquals(buf, st.s, st.v) && st.v < st.e
       case t => Begins(buf, st.s, t) && st.v == st.s + |Word(t)| + 1
  }

  predicate MayOwn(t: StatementType) {
    t == Build || t == Rule || t == Pool
  }

  /** An indented line that holds nothing, or a comment. */
  predicate BlankLine(buf: string, i: nat) {
    && Indented(buf, i)
    && var e := NextLine(buf, i);
    NoEquals(buf, i, e) && var j := SkipSpaces(buf, i, e); j == e || buf[j] == '#'
  }

  /** A failure that the text at its place is the reason for. */
  predicate Blames(buf: string, why: Failure, owner: StatementType) {
    && why.at < |buf|
    && match why
       case UnexpectedIndent(i) => Indented(buf, i) && !MayOwn(owner)
       case WrongVarBinding(i) =>
         Indented(buf, i) && MayOwn(owner) && NoEquals(buf, i, NextLine(buf, i)) && !BlankLine(buf, i)
       case WrongVarDecl(i) =>
         && !Indented(buf, i) && !Empty(buf, i) && !BeginsSome(buf, i) && !IsKeyword(buf[i..])
         && NoEquals(buf, i, |buf|)
       case OutOfRange(i) => IsKeyword(buf[i..])
       case NoProgress(i) => buf[i] == '#' && forall k :: i < k < |buf| ==> buf[k] != '\n'
  }

  // --------------------------------------------------------------- its end

  /** A newline that a `$` before it, or before its carriage return, takes into
      the line that starts at `s`. */
  predicate Joins(buf: string, s: nat, nl: nat)
    requires nl < |buf|
  {
    || (s < nl && buf[nl - 1] == '$')
    || (s + 1 < nl && buf[nl - 2] == '$' && buf[nl - 1] == '\r')
  }

  /** A line goes past its first newline that is not taken in, or to the end. */
  lemma {:induction false} LineEndIs(buf: string, s: nat)
    requires s <= |buf|
    ensures var e := NextLine(buf, s);
            && (forall nl :: s <= nl < e - 1 && buf[nl] == '\n' ==> Joins(buf, s, nl))
            && (e < |buf| ==> s < e && buf[e - 1] == '\n' && !Joins(buf, s, e - 1))
    decreases |buf| - s
  {
    var nl := IndexByte(buf, s, '\n');
    if nl < |buf| && EscapedFrom(buf, s, nl) {
      LineEndIs(buf, nl + 1);
    }
  }

  // --------------------------------------------------------------- one line

  lemma NameStarts(buf: string, i: nat, name: string, t: StatementType)
    requires i < |buf| && name != ""
    ensures var v, word := i + |name|, IsStatement(buf, i, name, t);
            if v <= |buf| && buf[i..v] == name then
              if v == |buf| then word == Truncated
              else word == if buf[v] == ' ' || buf[v] == '\t' then Keyword(t, v + 1) else NoKeyword
            else word == NoKeyword
    ensures i + |name| <= |buf| && buf[i..i + |name|] == name ==> buf[i] == name[0]
  {
    var v := i + |name|;
    if v <= |buf| {
      assert buf[i..][..|name|] == buf[i..v];
      if buf[i..v] == name {
        assert name <= buf[i..];
        assert buf[i] == buf[i..v][0];
      }
    }
  }

  lemma WordStarts(buf: string, i: nat, t: StatementType)
    requires i < |buf|
    ensures Word(t) != "" ==>
              var word := IsStatement(buf, i, Word(t), t);
              && (Begins(buf, i, t) <==> word == Keyword(t, i + |Word(t)| + 1))
              && (word.Keyword? ==> word == Keyword(t, i + |Word(t)| + 1))
    ensures Begins(buf, i, t) ==> Word(t) != "" && buf[i] == Word(t)[0]
  {
    hide IsStatement;
    if Word(t) != "" {
      NameStarts(buf, i, Word(t), t);
    }
  }

  lemma EachWord(buf: string, i: nat)
    requires i < |buf|
    ensures forall t :: Begins(buf, i, t) ==> KeywordAt(buf, i) == Keyword(t, i + |Word(t)| + 1)
    ensures var word := KeywordAt(buf, i); word.Keyword? ==> Begins(buf, i, word.t) && word.v == i + |Word(word.t)| + 1
  {
    hide IsStatement, Begins;
    forall t
      ensures Begins(buf, i, t) ==> KeywordAt(buf, i) == Keyword(t, i + |Word(t)| + 1)
    {
      WordStarts(buf, i, t);
    }
    WordStarts(buf, i, Build);
    WordStarts(buf, i, Default);
    WordStarts(buf, i, Include);
    WordStarts(buf, i, Pool);
    WordStarts(buf, i, Rule);
    WordStarts(buf, i, Subninja);
  }

  /** The switch finds the word a line begins with. */
  lemma WordFound(buf: string, i: nat)
    requires i < |buf|
    ensures match KeywordAt(buf, i)
            case NoKeyword => !BeginsSome(buf, i) && !IsKeyword(buf[i..])
            case Truncated => !BeginsSome(buf, i) && IsKeyword(buf[i..])
            case Keyword(t, v) => Begins(buf, i, t) && v == i + |Word(t)| + 1
    ensures forall t :: Begins(buf, i, t) ==> KeywordAt(buf, i) == Keyword(t, i + |Word(t)| + 1)
  {
    hide KeywordAt, Begins;
    TruncatedKeyword(buf, i);
    EachWord(buf, i);
  }

  lemma BeginsAtLetter(buf: string, i: nat, t: StatementType)
    requires Begins(buf, i, t)
    ensures !Indented(buf, i) && !Empty(buf, i)
  {
    assert buf[i] == buf[i..i + |Word(t)|][0];
  }

  /** One turn of the parser reads the line it stands at. */
  lemma LineStep(buf: string, i: nat, last: StatementType)
    requires i < |buf|
    ensures match ParseStep(buf, i, last)
            case Fail(why) => why.at == i && Blames(buf, why, last)
            case Advance(next, stmts, last', counts) =>
              if stmts == [] then last' == last && (Empty(buf, i) || (MayOwn(last) && BlankLine(buf, i)))
              else
                && stmts == [stmts[0]] && stmts[0].s == i && stmts[0].e == next && Fits(buf, stmts[0], last)
                && last' == if IsBinding(stmts[0].t) then last else stmts[0].t
    ensures Empty(buf, i) ==> var step := ParseStep(buf, i, last); step.Advance? ==> step.stmts == []
    ensures BlankLine(buf, i) ==> var step := ParseStep(buf, i, last); step.Advance? ==> step.stmts == []
  {
    hide Begins, BeginsSome, KeywordAt, IsKeyword, NextLine, SkipSpaces, AddCounts, CountOf;
    if !Empty(buf, i) && !Indented(buf, i) {
      WordFound(buf, i);
      UnindentedFits(buf, i);
    }
  }

  lemma UnindentedFits(buf: string, i: nat)
    requires i < |buf| && !Empty(buf, i) && !Indented(buf, i)
    ensures match StatementStep(buf, i)
            case Fail(why) => why.at == i && Blames(buf, why, NoStatement)
            case Advance(next, stmts, last', counts) =>
              && stmts == [Statement(last', i, stmts[0].v, next)] && !IsBinding(last')
              && Fits(buf, stmts[0], NoStatement)
  {
    hide Begins, BeginsSome, KeywordAt, IsKeyword, NextLine, AddCounts, CountOf;
    WordFound(buf, i);
    assert forall t :: Begins(buf, i, t) ==> Word(t) != "" by {
      forall t | Begins(buf, i, t)
        ensures Word(t) != ""
      {
        BeginsWord(buf, i, t);
      }
    }
  }

  lemma BeginsWord(buf: string, i: nat, t: StatementType)
    ensures Begins(buf, i, t) ==> Word(t) != ""
  {
  }

  // -------------------------------------------------------------- all lines

  /** The kind of the last statement that is not a binding. */
  function Owner(last: StatementType, stmts: seq<Statement>): StatementType
    decreases |stmts|
  {
    if stmts == [] then last
    else Owner(if IsBinding(stmts[0].t) then last else stmts[0].t, stmts[1..])
  }

  /** The parser comes to the line at `j`, behind a statement of kind `owner`. */
  predicate Comes(buf: string, i: nat, last: StatementType, j: nat, owner: StatementType)
    decreases |buf| - i
  {
    if i == j then last == owner
    else
      && i < |buf| && i < j
      && var step := ParseStep(buf, i, last);
      step.Advance? && Comes(buf, step.next, step.last, j, owner)
  }

  /** Every statement of a parse is what its text says, and they stand one behind
      another. */
  lemma {:induction false} StatementsFit(buf: string, i: nat, end: nat, last: StatementType, k: nat)
    requires var p := ParseFrom(buf, i, end, last); p.Parsed? && k < |p.stmts|
    ensures var stmts := ParseFrom(buf, i, end, last).stmts;
            && i <= stmts[k].s < end && Fits(buf, stmts[k], Owner(last, stmts[..k]))
            && (k + 1 < |stmts| ==> stmts[k].e <= stmts[k + 1].s)
    decreases |buf| - i
  {
    hide ParseStep, Fits, AddCounts;
    LineStep(buf, i, last);
    var step := ParseStep(buf, i, last);
    var stmts, rest := ParseFrom(buf, i, end, last).stmts, ParseFrom(buf, step.next, end, step.last).stmts;
    if step.stmts == [] {
      assert stmts == rest;
      StatementsFit(buf, step.next, end, step.last, k);
    } else if k == 0 {
      assert stmts[..0] == [] && stmts[1..] == rest;
      if rest != [] {
        StatementsFit(buf, step.next, end, step.last, 0);
      }
    } else {
      StatementsFit(buf, step.next, end, step.last, k - 1);
      assert stmts[1..] == rest && stmts[..k][1..] == rest[..k - 1] && stmts[..k][0] == stmts[0];
    }
  }

  /** `owner` is the last statement before the line that is not a binding. */
  lemma {:induction false} OwnerIsLast(buf: string, i: nat, last: StatementType, j: nat, owner: StatementType)
    requires Comes(buf, i, last, j, owner)
    ensures var p := ParseFrom(buf, i, j, last); p.Parsed? && owner == Owner(last, p.stmts)
    decreases |buf| - i
  {
    hide ParseStep, Fits, AddCounts;
    if i < j {
      LineStep(buf, i, last);
      var step := ParseStep(buf, i, last);
      OwnerIsLast(buf, step.next, step.last, j, owner);
      var stmts, rest := ParseFrom(buf, i, j, last).stmts, ParseFrom(buf, step.next, j, step.last).stmts;
      assert stmts == step.stmts + rest;
      if step.stmts == [] {
        assert stmts == rest;
      } else {
        assert stmts[0] == step.stmts[0] && stmts[1..] == rest;
      }
    }
  }

  /** What a parse makes of each line it comes to. */
  lemma {:induction false} LinesRead(buf: string, i: nat, end: nat, last: StatementType, j: nat, owner: StatementType)
    requires ParseFrom(buf, i, end, last).Parsed? && Comes(buf, i, last, j, owner) && j < |buf| && j < end
    ensures var step, stmts := ParseStep(buf, j, owner), ParseFrom(buf, i, end, last).stmts;
            && step.Advance?
            && forall st :: st in stmts && st.s == j <==> st in step.stmts
    decreases |buf| - i
  {
    hide ParseStep, Fits, AddCounts;
    LineStep(buf, i, last);
    var step := ParseStep(buf, i, last);
    var p := ParseFrom(buf, step.next, end, step.last);
    assert ParseFrom(buf, i, end, last).stmts == step.stmts + p.stmts;
    if i < j {
      LinesRead(buf, step.next, end, step.last, j, owner);
    } else {
      forall st | st in p.stmts
        ensures st.s > j
      {
        var k :| 0 <= k < |p.stmts| && p.stmts[k] == st;
        StatementsFit(buf, step.next, end, step.last, k);
      }
    }
  }

  /** A line that begins with a keyword and a blank is a statement of that kind,
      and nothing else starts there. */
  lemma KeywordLine(buf: string, i: nat, end: nat, last: StatementType, j: nat, owner: StatementType, t: StatementType)
    requires ParseFrom(buf, i, end, last).Parsed? && Comes(buf, i, last, j, owner) && j < end
    requires Begins(buf, j, t)
    ensures forall st :: st in ParseFrom(buf, i, end, last).stmts && st.s == j
                     <==> st == Statement(t, j, j + |Word(t)| + 1, NextLine(buf, j))
  {
    hide Begins, KeywordAt, ParseFrom, Comes;
    assert j < |buf| by { BeginsInside(buf, j, t); }
    BeginsAtLetter(buf, j, t);
    WordFound(buf, j);
    LinesRead(buf, i, end, last, j, owner);
  }

  lemma BeginsInside(buf: string, i: nat, t: StatementType)
    requires Begins(buf, i, t)
    ensures i < |buf|
  {
  }

  /** Of the other lines, an empty one and a blank or comment line are no
      statement, an indented one with a `=` is a binding, and any other a
      declaration. */
  lemma OtherLine(buf: string, i: nat, end: nat, last: StatementType, j: nat, owner: StatementType)
    requires ParseFrom(buf, i, end, last).Parsed? && Comes(buf, i, last, j, owner) && j < |buf| && j < end
    requires !BeginsSome(buf, j)
    ensures var here := set st | st in ParseFrom(buf, i, end, last).stmts && st.s == j;
            if Empty(buf, j) || BlankLine(buf, j) then here == {}
            else exists st :: here == {st} && Fits(buf, st, owner) && OtherKind(buf, st)
  {
    hide BeginsSome, ParseFrom, Comes, ParseStep, BlankLine, NextLine;
    LinesRead(buf, i, end, last, j, owner);
    LineStep(buf, j, owner);
    var step := ParseStep(buf, j, owner);
    var here := set st | st in ParseFrom(buf, i, end, last).stmts && st.s == j;
    if step.stmts == [] {
      assert here == {};
    } else {
      assert here == {step.stmts[0]};
      FitsKind(buf, step.stmts[0], owner);
    }
  }

  predicate OtherKind(buf: string, st: Statement) {
    if Indented(buf, st.s) then IsBinding(st.t) else st.t == VarDecl
  }

  lemma FitsKind(buf: string, st: Statement, owner: StatementType)
    requires Fits(buf, st, owner) && !BeginsSome(buf, st.s)
    ensures OtherKind(buf, st)
  {
  }

  /** A parse that fails does so at a line it comes to, for what stands there. */
  lemma {:induction false} FailureBlames(buf: string, i: nat, end: nat, last: StatementType)
    returns (owner: StatementType)
    requires ParseFrom(buf, i, end, last).Failed?
    ensures var why := ParseFrom(buf, i, end, last).why;
            why.at < end && Comes(buf, i, last, why.at, owner) && Blames(buf, why, owner)
    decreases |buf| - i
  {
    hide ParseStep, Fits, AddCounts, Blames;
    LineStep(buf, i, last);
    var step := ParseStep(buf, i, last);
    if step.Fail? {
      owner := last;
    } else {
      owner := FailureBlames(buf, step.next, end, step.last);
      ComesLater(buf, step.next, step.last, ParseFrom(buf, i, end, last).why.at, owner);
    }
  }

  lemma ComesLater(buf: string, i: nat, last: StatementType, j: nat, owner: StatementType)
    requires Comes(buf, i, last, j, owner)
    ensures i <= j
  {
  }

  // -------------------------------------------------------------- counters

  /** The counters of whole statements count exactly those, and `nvar` the
      declarations and all bindings. */
  predicate StatementsCounted(counts: Counts, stmts: seq<Statement>) {
    && counts.nbuild == |OfType(stmts, Build)| && counts.ndefault == |OfType(stmts, Default)|
    && counts.ninclude == |OfType(stmts, Include)| && counts.npool == |OfType(stmts, Pool)|
    && counts.nrule == |OfType(stmts, Rule)| && counts.nsubninja == |OfType(stmts, Subninja)|
    && counts.nvar == |OfType(stmts, VarDecl)| + Bindings(stmts)
  }

  function Bindings(stmts: seq<Statement>): nat {
    |OfType(stmts, BuildVar)| + |OfType(stmts, RuleVar)| + |OfType(stmts, PoolVar)|
  }

  lemma CountedConcat(c: Counts, a: seq<Statement>, d: Counts, b: seq<Statement>)
    requires StatementsCounted(c, a) && StatementsCounted(d, b)
    ensures StatementsCounted(AddCounts(c, d), a + b)
  {
    hide OfType;
    forall t
      ensures OfType(a + b, t) == OfType(a, t) + OfType(b, t)
    {
      OfTypeConcat(a, b, t);
    }
  }

  lemma CountedNone(c: Counts)
    requires c.nbuild == c.ndefault == c.ninclude == c.npool == c.nrule == c.nsubninja == c.nvar == 0
    ensures StatementsCounted(c, [])
  {
  }

  lemma OnlyOne(st: Statement)
    ensures forall t :: |OfType([st], t)| == if st.t == t then 1 else 0
  {
    assert [st][..0] == [];
    assert forall t :: OfType([], t) == [];
  }

  /** A kind counts itself, and nothing else. */
  lemma CountIs(t: StatementType)
    ensures CountOf(t) == Counts(One(t, VarDecl), One(t, Rule), One(t, RuleVar), One(t, Build), One(t, BuildVar),
                                 One(t, Pool), One(t, PoolVar), One(t, Default), One(t, Include),
                                 One(t, Subninja), 0)
  {
    match t
    case NoStatement =>
    case VarDecl =>
    case Pool =>
    case PoolVar =>
    case Rule =>
    case RuleVar =>
    case Build =>
    case BuildVar =>
    case Default =>
    case Include =>
    case Subninja =>
  }

  function One(t: StatementType, kind: StatementType): nat {
    if t == kind then 1 else 0
  }

  lemma OneMoreDeclared(c: Counts)
    ensures AddCounts(c, CountOf(VarDecl)) == c.(nvar := c.nvar + 1)
  {
    hide CountOf;
    CountIs(VarDecl);
  }

  lemma CountedOne(st: Statement)
    requires st.t != NoStatement
    ensures !IsBinding(st.t) ==> StatementsCounted(CountOf(st.t), [st])
    ensures IsBinding(st.t) ==> StatementsCounted(AddCounts(CountOf(st.t), CountOf(VarDecl)), [st])
  {
    hide OfType, CountOf, AddCounts;
    OnlyOne(st);
    CountIs(st.t);
    OneMoreDeclared(CountOf(st.t));
  }

  lemma BlankCounted(last: StatementType)
    requires BindingType(last) != NoStatement
    ensures StatementsCounted(CountOf(BindingType(last)), [])
  {
    hide StatementsCounted;
    CountedNone(CountOf(BindingType(last)));
  }

  lemma StatementCounted(buf: string, i: nat)
    requires i < |buf|
    ensures var step := StatementStep(buf, i); step.Advance? ==> StatementsCounted(step.counts, step.stmts)
  {
    hide KeywordAt, NextLine, CountOf, StatementsCounted;
    KeywordType(buf, i);
    var step := StatementStep(buf, i);
    if step.Advance? {
      CountedOne(step.stmts[0]);
    }
  }

  lemma IndentedCounted(buf: string, i: nat, last: StatementType)
    requires i < |buf|
    ensures var step := IndentedStep(buf, i, last); step.Advance? ==> StatementsCounted(step.counts, step.stmts)
  {
    hide NextLine, SkipSpaces, CountOf, AddCounts, StatementsCounted;
    var step := IndentedStep(buf, i, last);
    if step.Advance? {
      if step.stmts == [] {
        BlankCounted(last);
      } else {
        CountedOne(step.stmts[0]);
      }
    }
  }

  lemma StepCounted(buf: string, i: nat, last: StatementType)
    requires i < |buf|
    ensures var step := ParseStep(buf, i, last); step.Advance? ==> StatementsCounted(step.counts, step.stmts)
  {
    hide IndentedStep, StatementStep, StatementsCounted;
    CountedNone(NO_COUNTS);
    CountedNone(NO_COUNTS.(ncomment := 1));
    IndentedCounted(buf, i, last);
    StatementCounted(buf, i);
  }

  predicate LinesCounted(counts: Counts, binding: StatementType, comments: nat) {
    && counts.nbuildvar == (if binding == BuildVar then 1 else 0)
    && counts.nrulevar == (if binding == RuleVar then 1 else 0)
    && counts.npoolvar == (if binding == PoolVar then 1 else 0)
    && counts.ncomment == comments
  }

  lemma KindCounted(t: StatementType)
    ensures LinesCounted(CountOf(t), t, 0) && LinesCounted(AddCounts(CountOf(t), CountOf(VarDecl)), t, 0)
  {
    hide CountOf, AddCounts;
    CountIs(t);
    OneMoreDeclared(CountOf(t));
  }

  lemma LineCounted(buf: string, i: nat, last: StatementType)
    requires i < |buf|
    ensures match ParseStep(buf, i, last)
            case Fail(_) => true
            case Advance(_, _, _, counts) =>
              var binding := if Indented(buf, i) then BindingType(last) else NoStatement;
              LinesCounted(counts, binding, if buf[i] == '#' then 1 else 0)
  {
    hide StatementStep, NextLine, SkipSpaces, CountOf, AddCounts;
    KindCounted(BindingType(last));
    UnindentedCounted(buf, i);
  }

  lemma UnindentedCounted(buf: string, i: nat)
    requires i < |buf|
    ensures var step := StatementStep(buf, i); step.Advance? ==> LinesCounted(step.counts, NoStatement, 0)
  {
    hide KeywordAt, NextLine, CountOf, LinesCounted;
    KeywordType(buf, i);
    var step := StatementStep(buf, i);
    if step.Advance? {
      KindCounted(step.last);
      NotBinding(CountOf(step.last), step.last);
    }
  }

  lemma NotBinding(counts: Counts, t: StatementType)
    requires LinesCounted(counts, t, 0) && !IsBinding(t)
    ensures LinesCounted(counts, NoStatement, 0)
  {
  }

  /** The indented lines the parser comes to behind a statement of kind `owner`. */
  ghost function IndentedLines(buf: string, i: nat, end: nat, last: StatementType, owner: StatementType): set<nat> {
    set j: nat | i <= j < |buf| && j < end && Indented(buf, j) && Comes(buf, i, last, j, owner)
  }

  ghost function CommentLines(buf: string, i: nat, end: nat, last: StatementType): set<nat> {
    set j: nat | i <= j < |buf| && j < end && buf[j] == '#' && Reaches(buf, i, last, j)
  }

  lemma IndentedStepLines(buf: string, i: nat, end: nat, last: StatementType, owner: StatementType)
    requires i < |buf| && i < end && ParseStep(buf, i, last).Advance?
    ensures var step := ParseStep(buf, i, last);
            var rest := IndentedLines(buf, step.next, end, step.last, owner);
            && i !in rest
            && IndentedLines(buf, i, end, last, owner)
               == (if Indented(buf, i) && last == owner then {i} else {}) + rest
  {
    hide ParseStep, Indented;
    var step := ParseStep(buf, i, last);
    assert forall j :: Comes(buf, step.next, step.last, j, owner) ==> step.next <= j;
    assert forall j :: i < j ==> (Comes(buf, i, last, j, owner) <==> Comes(buf, step.next, step.last, j, owner));
  }

  lemma CommentStepLines(buf: string, i: nat, end: nat, last: StatementType)
    requires i < |buf| && i < end && ParseStep(buf, i, last).Advance?
    ensures var step := ParseStep(buf, i, last);
            var rest := CommentLines(buf, step.next, end, step.last);
            && i !in rest
            && CommentLines(buf, i, end, last) == (if buf[i] == '#' then {i} else {}) + rest
  {
    hide ParseStep;
    var step := ParseStep(buf, i, last);
    assert forall j :: Reaches(buf, step.next, step.last, j) ==> step.next <= j;
    assert forall j :: i < j ==> (Reaches(buf, i, last, j) <==> Reaches(buf, step.next, step.last, j));
  }

  ghost predicate LineCounters(buf: string, i: nat, end: nat, last: StatementType, counts: Counts) {
    && counts.nbuildvar == |IndentedLines(buf, i, end, last, Build)|
    && counts.nrulevar == |IndentedLines(buf, i, end, last, Rule)|
    && counts.npoolvar == |IndentedLines(buf, i, end, last, Pool)|
    && counts.ncomment == |CommentLines(buf, i, end, last)|
  }

  lemma LineCountersStep(buf: string, i: nat, end: nat, last: StatementType, counts: Counts)
    requires i < |buf| && i < end && ParseStep(buf, i, last).Advance?
    requires var step := ParseStep(buf, i, last); LineCounters(buf, step.next, end, step.last, counts)
    ensures LineCounters(buf, i, end, last, AddCounts(ParseStep(buf, i, last).counts, counts))
  {
    hide ParseStep, IndentedLines, CommentLines, Indented;
    LineCounted(buf, i, last);
    OneMore(buf, i, end, last, Build);
    OneMore(buf, i, end, last, Rule);
    OneMore(buf, i, end, last, Pool);
    CommentStepLines(buf, i, end, last);
  }

  /** One more indented line, or none. */
  lemma OneMore(buf: string, i: nat, end: nat, last: StatementType, owner: StatementType)
    requires i < |buf| && i < end && ParseStep(buf, i, last).Advance?
    ensures var step := ParseStep(buf, i, last);
            |IndentedLines(buf, i, end, last, owner)| == |IndentedLines(buf, step.next, end, step.last, owner)|
                                                         + if Indented(buf, i) && last == owner then 1 else 0
  {
    hide ParseStep, IndentedLines, Indented;
    IndentedStepLines(buf, i, end, last, owner);
  }

  /** Every counter of a parse is the number of the statements, or of the lines,
      it is named for. */
  lemma {:induction false} CountersCount(buf: string, i: nat, end: nat, last: StatementType)
    requires ParseFrom(buf, i, end, last).Parsed?
    ensures var p := ParseFrom(buf, i, end, last);
            StatementsCounted(p.counts, p.stmts) && LineCounters(buf, i, end, last, p.counts)
    decreases |buf| - i
  {
    hide ParseStep, StatementsCounted, LineCounters, AddCounts;
    if i < |buf| && i < end {
      var step := ParseStep(buf, i, last);
      StepCounted(buf, i, last);
      CountersCount(buf, step.next, end, step.last);
      var rest := ParseFrom(buf, step.next, end, step.last);
      CountedConcat(step.counts, step.stmts, rest.counts, rest.stmts);
      LineCountersStep(buf, i, end, last, rest.counts);
    } else {
      CountedNone(NO_COUNTS);
      NoLines(buf, i, end, last);
    }
  }

  lemma NoLines(buf: string, i: nat, end: nat, last: StatementType)
    requires i >= |buf| || i >= end
    ensures forall owner :: IndentedLines(buf, i, end, last, owner) == {}
    ensures CommentLines(buf, i, end, last) == {}
    ensures LineCounters(buf, i, end, last, NO_COUNTS)
  {
  }
}
