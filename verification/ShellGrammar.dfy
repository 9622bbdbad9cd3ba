/** What a command line means, word by word: Split against a grammar of all
    lines, with both kinds of quotes. */
module ShellGrammar {
  import opened Wrappers
  import opened GoInts
  import opened Slices
  import opened ShellSplit

  /** A rune inside quotes, as it is or behind a backslash. */
  datatype Item = Item(c: char, slashed: bool)

  datatype Piece =
    | Plain(c: char)
    | Slashed(c: char)
    | Quote(q: char, inside: seq<Item>)

  /** A word, and the blanks behind it. */
  datatype Word = Word(pieces: seq<Piece>, gap: string)

  /** What can stop a line for good. */
  datatype Tail =
    | End
    | Meta(c: char, rest: string)
    | LastSlash
    | Open(q: char, inside: seq<Item>, slash: bool)

  predicate IsBlank(c: char) {
    c == ' ' || c == '\t'
  }

  /** The shell's operators, expansions and comments. */
  predicate IsOperator(c: char) {
    c == ';' || c == '&' || c == '|' || c == '<' || c == '>' || c == '$' || c == '`' || c == '#'
  }

  predicate IsPlain(c: char) {
    !IsBlank(c) && !IsOperator(c) && c != '\\' && c != '"' && c != '\''
  }

  predicate IsInside(q: char, items: seq<Item>) {
    (q == '"' || q == '\'') && forall x <- items :: x.slashed || (x.c != q && x.c != '\\')
  }

  predicate IsPiece(p: Piece) {
    match p
    case Plain(c) => IsPlain(c)
    case Slashed(_) => true
    case Quote(q, inside) => IsInside(q, inside)
  }

  /** Words of pieces, each but maybe the last with a gap behind it. */
  predicate Grammatical(ws: seq<Word>, tail: Tail) {
    && (forall w <- ws :: w.pieces != [] && (forall p <- w.pieces :: IsPiece(p)) && forall c <- w.gap :: IsBlank(c))
    && (forall k :: 0 <= k < |ws| - 1 ==> ws[k].gap != "")
    && match tail
       case Meta(c, _) => IsOperator(c)
       case Open(q, inside, _) => IsInside(q, inside)
       case _ => true
  }

  function ItemText(x: Item): string {
    if x.slashed then "\\" + [x.c] else [x.c]
  }

  function InsideText(items: seq<Item>): string {
    if items == [] then "" else ItemText(items[0]) + InsideText(items[1..])
  }

  function PieceText(p: Piece): string {
    match p
    case Plain(c) => [c]
    case Slashed(c) => "\\" + [c]
    case Quote(q, inside) => [q] + (InsideText(inside) + [q])
  }

  function WordText(w: seq<Piece>): string {
    if w == [] then "" else PieceText(w[0]) + WordText(w[1..])
  }

  function TailText(tail: Tail): string {
    match tail
    case End => ""
    case Meta(c, rest) => [c] + rest
    case LastSlash => "\\"
    case Open(q, inside, slash) => [q] + (InsideText(inside) + if slash then "\\" else "")
  }

  function Written(ws: seq<Word>, tail: Tail): string {
    if ws == [] then TailText(tail)
    else WordText(ws[0].pieces) + (ws[0].gap + Written(ws[1..], tail))
  }

  // ----------------------------------------------------------------- meaning

  function InsideRunes(items: seq<Item>): string {
    if items == [] then "" else [items[0].c] + InsideRunes(items[1..])
  }

  function PieceRunes(p: Piece): string {
    match p
    case Plain(c) => [c]
    case Slashed(c) => [c]
    case Quote(_, inside) => InsideRunes(inside)
  }

  /** The runes of a word, without its quotes and backslashes. */
  function Runes(w: seq<Piece>): string {
    if w == [] then "" else PieceRunes(w[0]) + Runes(w[1..])
  }

  /** All bytes of a rune but its first, which stay behind when it goes to the
      buffer on its own: the slice goes on one byte after it, not one rune. */
  function Left(p: Piece, buffered: bool): Bytes {
    match p
    case Plain(c) => if buffered then Utf8(c)[1..] else []
    case Slashed(c) => Utf8(c)[1..]
    case Quote(_, _) => []
  }

  /** The bytes an argument gets from a word: what a rune left behind comes once
      more when a quote or backslash is next. */
  function Value(buffered: bool, left: Bytes, w: seq<Piece>): Bytes
    decreases |w|
  {
    if w == [] then []
    else
      var p := w[0];
      (if p.Plain? then [] else left) + Encode(PieceRunes(p))
      + Value(buffered || !p.Plain?, Left(p, buffered), w[1..])
  }

  /** The first word is in the buffer from the start. */
  function Values(first: bool, ws: seq<Word>): seq<Bytes> {
    if ws == [] then [] else [Value(first, [], ws[0].pieces)] + Values(false, ws[1..])
  }

  function Meaning(ws: seq<Word>, tail: Tail): Result<seq<Bytes>, SplitError> {
    match tail
    case Meta(c, _) => Failure(Metachar(c))
    case LastSlash => Failure(TrailingBackslash)
    case Open(_, _, slash) => Failure(if slash then TrailingBackslash else UnclosedQuote)
    case End =>
      var args := if ws == [] then [[]] else Values(true, ws);
      if '=' as int in args[0] then Failure(EnvSet) else Success(args)
  }

  // ---------------------------------------------------------- running pieces

  /** In a word, with `cur` read of it; `left` lies behind in the slice. Of a word
      that is not buffered `cur` is the slice, and nothing of it has been read
      while a separator is the last rune. */
  predicate InWord(text: Bytes, st: State, off: nat, done: seq<Bytes>, cur: Bytes, buffered: bool, left: Bytes) {
    && !st.escaped && st.qch == None && st.args == done && st.si <= off <= |text|
    && if buffered then !st.inspace && st.sb == Some(cur) && text[st.si..off] == left
       else st.sb == None && left == [] && text[st.si..off] == cur && (st.inspace <==> cur == [])
  }

  predicate Inside(st: State, q: char, done: seq<Bytes>, cur: Bytes) {
    !st.escaped && st.qch == Some(q) && st.args == done && st.sb == Some(cur) && !st.inspace
  }

  predicate CanRun(st: State) {
    st.escaped || st.qch.Some? ==> st.sb.Some?
  }

  lemma InWordRuns(text: Bytes, st: State, off: nat, done: seq<Bytes>, cur: Bytes, buffered: bool, left: Bytes)
    requires InWord(text, st, off, done, cur, buffered, left)
    ensures CanRun(st) && Closed(st)
  {
  }

  lemma AtRune(text: Bytes, off: nat, c: char)
    requires At<byte>(text, off, Utf8(c))
    ensures off + |Utf8(c)| <= |text| && text[off..off + |Utf8(c)|] == Utf8(c)
    ensures text[off + 1..off + |Utf8(c)|] == Utf8(c)[1..]
  {
    hide Utf8;
    assert text[off..off + |Utf8(c)|][1..] == text[off + 1..off + |Utf8(c)|];
  }

  lemma OperatorIsMeta(c: char)
    ensures IsOperator(c) <==> IsMeta(c)
  {
  }

  /** A backslash, or an opening quote, moves the slice into the buffer. */
  lemma OpensBuffer(text: Bytes, st: State, off: nat, c: char, done: seq<Bytes>, cur: Bytes,
                    buffered: bool, left: Bytes)
    requires InWord(text, st, off, done, cur, buffered, left) && (c == '\\' || c == '"' || c == '\'')
    ensures var r := Step(text, st, off, c);
            && r.Success? && r.value.args == done && r.value.sb == Some(cur + left) && !r.value.inspace
            && r.value.escaped == (c == '\\') && r.value.qch == if c == '\\' then None else Some(c)
  {
    assert cur + [] == cur && [] + cur == cur;
  }

  lemma PlainStep(text: Bytes, st: State, off: nat, c: char, done: seq<Bytes>, cur: Bytes, buffered: bool, left: Bytes)
    requires InWord(text, st, off, done, cur, buffered, left) && IsPlain(c) && At<byte>(text, off, Utf8(c))
    ensures var r := Step(text, st, off, c);
            && r.Success?
            && InWord(text, r.value, off + |Utf8(c)|, done, cur + Utf8(c), buffered, Left(Plain(c), buffered))
  {
    hide Utf8, IsOperator, IsMeta;
    OperatorIsMeta(c);
    AtRune(text, off, c);
    if !buffered {
      assert text[st.si..off + |Utf8(c)|] == text[st.si..off] + text[off..off + |Utf8(c)|];
    }
  }

  lemma {:induction false} SlashedRuns(text: Bytes, st: State, off: nat, c: char, done: seq<Bytes>, cur: Bytes,
                                       buffered: bool, left: Bytes)
    requires InWord(text, st, off, done, cur, buffered, left) && At<byte>(text, off, Encode("\\" + [c]))
    ensures |Encode("\\" + [c])| == 1 + |Utf8(c)|
    ensures var r := Run(text, st, off, "\\" + [c]);
            && r.Success?
            && InWord(text, r.value, off + 1 + |Utf8(c)|, done, cur + left + Utf8(c), true, Utf8(c)[1..])
  {
    hide Utf8, IsOperator, Run, Encode, At;
    EncodeOne(c);
    SlashEncoded();
    EncodeConcat("\\", [c]);
    AtSplits<byte>(text, off, ['\\' as int], Utf8(c));
    assert off + 1 + |Utf8(c)| <= |text| && text[off + 2..off + 1 + |Utf8(c)|] == Utf8(c)[1..] by {
      AtFitsRune(text, off + 1, c);
    }
    InWordRuns(text, st, off, done, cur, buffered, left);
    RunConcat(text, st, off, "\\", [c]);
    RunOne(text, st, off, '\\');
    OpensBuffer(text, st, off, '\\', done, cur, buffered, left);
    RunOne(text, Step(text, st, off, '\\').value, off + 1, c);
  }

  lemma AtFitsRune(text: Bytes, off: nat, c: char)
    requires At<byte>(text, off, Utf8(c))
    ensures off + |Utf8(c)| <= |text| && text[off + 1..off + |Utf8(c)|] == Utf8(c)[1..]
  {
    hide Utf8;
    AtRune(text, off, c);
  }

  lemma SlashEncoded()
    ensures Encode("\\") == ['\\' as int]
    ensures Utf8('\\') == ['\\' as int]
  {
    EncodeOne('\\');
  }

  lemma {:induction false} ItemRuns(text: Bytes, st: State, off: nat, q: char, x: Item, done: seq<Bytes>, cur: Bytes)
    requires off + |Encode(ItemText(x))| <= |text|
    requires Inside(st, q, done, cur) && (x.slashed || (x.c != q && x.c != '\\'))
    requires q != '\\'
    ensures var r := Run(text, st, off, ItemText(x));
            r.Success? && Inside(r.value, q, done, cur + Utf8(x.c))
  {
    hide Utf8, Run, Encode;
    EncodeOne(x.c);
    if x.slashed {
      SlashEncoded();
      EncodeConcat("\\", [x.c]);
      RunConcat(text, st, off, "\\", [x.c]);
      RunOne(text, st, off, '\\');
      RunOne(text, st.(escaped := true), off + 1, x.c);
    } else {
      RunOne(text, st, off, x.c);
    }
  }

  lemma InsideKeepsBuffer(st: State, q: char, done: seq<Bytes>, cur: Bytes)
    requires Inside(st, q, done, cur)
    ensures CanRun(st)
  {
  }

  lemma {:induction false} InsideRuns(text: Bytes, st: State, off: nat, q: char, items: seq<Item>, done: seq<Bytes>,
                                      cur: Bytes)
    requires off + |Encode(InsideText(items))| <= |text|
    requires Inside(st, q, done, cur) && IsInside(q, items)
    ensures var r := Run(text, st, off, InsideText(items));
            r.Success? && Inside(r.value, q, done, cur + Encode(InsideRunes(items)))
    decreases |items|
  {
    hide Utf8, Run, Encode, Inside, ItemText;
    InsideKeepsBuffer(st, q, done, cur);
    if items == [] {
      EncodeNothing();
      assert cur + [] == cur;
      RunNothing(text, st, off, "");
    } else {
      var x, t := items[0], ItemText(items[0]);
      assert x in items;
      EncodeConcat(t, InsideText(items[1..]));
      RunConcat(text, st, off, t, InsideText(items[1..]));
      ItemRuns(text, st, off, q, x, done, cur);
      var mid := Run(text, st, off, t).value;
      InsideRuns(text, mid, off + |Encode(t)|, q, items[1..], done, cur + Utf8(x.c));
      EncodeOne(x.c);
      EncodeConcat([x.c], InsideRunes(items[1..]));
      Assoc(cur, Utf8(x.c), Encode(InsideRunes(items[1..])));
    }
  }

  lemma EncodeNothing()
    ensures Encode("") == []
  {
  }

  lemma {:induction false} QuoteRuns(text: Bytes, st: State, off: nat, q: char, items: seq<Item>, done: seq<Bytes>,
                                     cur: Bytes, buffered: bool, left: Bytes)
    requires InWord(text, st, off, done, cur, buffered, left) && IsInside(q, items)
    requires off + |Encode(PieceText(Quote(q, items)))| <= |text|
    ensures var t := PieceText(Quote(q, items));
            var r := Run(text, st, off, t);
            && r.Success?
            && InWord(text, r.value, off + |Encode(t)|, done, cur + left + Encode(InsideRunes(items)), true, [])
  {
    hide Utf8, IsOperator, Run, Encode, InsideText, InsideRunes;
    var t := InsideText(items);
    EncodeOne(q);
    EncodeConcat(t, [q]);
    EncodeConcat([q], t + [q]);
    assert |Utf8(q)| == 1 by { QuoteIsByte(q); }
    InWordRuns(text, st, off, done, cur, buffered, left);
    RunConcat(text, st, off, [q], t + [q]);
    RunOne(text, st, off, q);
    OpensBuffer(text, st, off, q, done, cur, buffered, left);
    var open := Step(text, st, off, q).value;
    RunConcat(text, open, off + 1, t, [q]);
    InsideRuns(text, open, off + 1, q, items, done, cur + left);
    var shut := off + 1 + |Encode(t)|;
    var last := Run(text, open, off + 1, t).value;
    RunOne(text, last, shut, q);
    assert text[shut + 1..shut + 1] == [];
  }

  lemma QuoteIsByte(q: char)
    requires q == '"' || q == '\''
    ensures |Utf8(q)| == 1
  {
  }

  lemma {:induction false} PieceRuns(text: Bytes, st: State, off: nat, p: Piece, done: seq<Bytes>, cur: Bytes,
                                     buffered: bool, left: Bytes)
    requires InWord(text, st, off, done, cur, buffered, left) && IsPiece(p) && At<byte>(text, off, Encode(PieceText(p)))
    ensures var r := Run(text, st, off, PieceText(p));
            var more := (if p.Plain? then [] else left) + Encode(PieceRunes(p));
            && r.Success?
            && InWord(text, r.value, off + |Encode(PieceText(p))|, done, cur + more, buffered || !p.Plain?,
                      Left(p, buffered))
  {
    hide Utf8, IsOperator, Run, Encode, InsideText, InsideRunes, InWord, At, IsInside, IsPlain, Step;
    AtFits<byte>(text, off, Encode(PieceText(p)));
    match p
    case Plain(c) =>
      EncodeOne(c);
      assert [] + Utf8(c) == Utf8(c);
      InWordRuns(text, st, off, done, cur, buffered, left);
      RunOne(text, st, off, c);
      PlainStep(text, st, off, c, done, cur, buffered, left);
    case Slashed(c) =>
      EncodeOne(c);
      SlashedRuns(text, st, off, c, done, cur, buffered, left);
      Assoc(cur, left, Utf8(c));
    case Quote(q, inside) =>
      QuoteRuns(text, st, off, q, inside, done, cur, buffered, left);
      Assoc(cur, left, Encode(InsideRunes(inside)));
  }

  lemma {:induction false} WordRuns(text: Bytes, st: State, off: nat, w: seq<Piece>, done: seq<Bytes>, cur: Bytes,
                                    buffered: bool, left: Bytes)
    returns (buffered': bool, left': Bytes)
    requires InWord(text, st, off, done, cur, buffered, left) && At<byte>(text, off, Encode(WordText(w)))
    requires forall p <- w :: IsPiece(p)
    ensures var r, value := Run(text, st, off, WordText(w)), Value(buffered, left, w);
            && r.Success?
            && InWord(text, r.value, off + |Encode(WordText(w))|, done, cur + value, buffered', left')
    ensures buffered ==> buffered'
    ensures w != [] && !buffered' ==> cur + Value(buffered, left, w) != []
    decreases |w|
  {
    hide Utf8, Run, Encode, InWord, At, IsPiece, PieceText, PieceRunes, Left;
    InWordRuns(text, st, off, done, cur, buffered, left);
    AtFits<byte>(text, off, Encode(WordText(w)));
    if w == [] {
      EncodeNothing();
      assert cur + [] == cur;
      RunNothing(text, st, off, "");
      return buffered, left;
    }
    var p, rest := w[0], w[1..];
    var t := PieceText(p);
    EncodeConcat(t, WordText(rest));
    AtSplits<byte>(text, off, Encode(t), Encode(WordText(rest)));
    PieceRuns(text, st, off, p, done, cur, buffered, left);
    RunConcat(text, st, off, t, WordText(rest));
    var mid := Run(text, st, off, t).value;
    var more := (if p.Plain? then [] else left) + Encode(PieceRunes(p));
    buffered', left' :=
      WordRuns(text, mid, off + |Encode(t)|, rest, done, cur + more, buffered || !p.Plain?, Left(p, buffered));
    Assoc(cur, more, Value(buffered || !p.Plain?, Left(p, buffered), rest));
    if !buffered' {
      PlainNotEmpty(p);
    }
  }

  lemma PlainNotEmpty(p: Piece)
    requires p.Plain?
    ensures Encode(PieceRunes(p)) != []
  {
    EncodeOne(p.c);
  }

  // ----------------------------------------------------------- running lines

  lemma BlankEncoded(c: char)
    requires IsBlank(c)
    ensures Encode([c]) == [c as int] && Utf8(c) == [c as int]
  {
    EncodeOne(c);
  }

  /** Behind a separator: the next argument is a slice that starts here. */
  predicate Between(st: State, off: nat, done: seq<Bytes>) {
    st == State(done, None, false, None, true, off)
  }

  lemma BetweenStarts(text: Bytes, st: State, off: nat, done: seq<Bytes>)
    requires Between(st, off, done) && off <= |text|
    ensures InWord(text, st, off, done, [], false, [])
  {
  }

  lemma {:induction false} BlanksRun(text: Bytes, st: State, off: nat, gap: string, done: seq<Bytes>)
    requires Between(st, off, done) && off + |Encode(gap)| <= |text| && forall c <- gap :: IsBlank(c)
    ensures var r := Run(text, st, off, gap); r.Success? && Between(r.value, off + |Encode(gap)|, done)
    decreases |gap|
  {
    hide Utf8, Run, Encode;
    if gap == "" {
      EncodeNothing();
      RunNothing(text, st, off, gap);
    } else {
      assert gap[0] in gap && [gap[0]] + gap[1..] == gap;
      BlankEncoded(gap[0]);
      EncodeConcat([gap[0]], gap[1..]);
      RunFirst(text, st, off, gap);
      BlanksRun(text, Step(text, st, off, gap[0]).value, off + 1, gap[1..], done);
    }
  }

  lemma GapRuns(text: Bytes, st: State, off: nat, gap: string, done: seq<Bytes>, cur: Bytes,
                buffered: bool, left: Bytes)
    requires InWord(text, st, off, done, cur, buffered, left) && (buffered || cur != [])
    requires gap != "" && off + |Encode(gap)| <= |text| && forall c <- gap :: IsBlank(c)
    ensures var r := Run(text, st, off, gap); r.Success? && Between(r.value, off + |Encode(gap)|, done + [cur])
  {
    hide Utf8, Run, Encode;
    assert gap[0] in gap && [gap[0]] + gap[1..] == gap;
    BlankEncoded(gap[0]);
    EncodeConcat([gap[0]], gap[1..]);
    RunFirst(text, st, off, gap);
    BlanksRun(text, Step(text, st, off, gap[0]).value, off + 1, gap[1..], done + [cur]);
  }

  function Settled(text: Bytes, r: Result<State, SplitError>): Result<seq<Bytes>, SplitError> {
    match r
    case Failure(error) => Failure(error)
    case Success(st) => Finish(text, st)
  }

  function Checked(args: seq<Bytes>): Result<seq<Bytes>, SplitError> {
    if |args| >= 1 && '=' as int in args[0] then Failure(EnvSet) else Success(args)
  }

  function Ending(args: seq<Bytes>, tail: Tail): Result<seq<Bytes>, SplitError> {
    match tail
    case Meta(c, _) => Failure(Metachar(c))
    case LastSlash => Failure(TrailingBackslash)
    case Open(_, _, slash) => Failure(if slash then TrailingBackslash else UnclosedQuote)
    case End => Checked(args)
  }

  lemma {:induction false} OpenTailRuns(text: Bytes, st: State, off: nat, q: char, items: seq<Item>, slash: bool,
                                        done: seq<Bytes>, cur: Bytes, buffered: bool, left: Bytes)
    requires InWord(text, st, off, done, cur, buffered, left) && IsInside(q, items)
    requires off + |Encode(TailText(Open(q, items, slash)))| <= |text|
    ensures Settled(text, Run(text, st, off, TailText(Open(q, items, slash))))
         == Failure(if slash then TrailingBackslash else UnclosedQuote)
  {
    hide Utf8, IsOperator, Run, Encode, InsideText, InsideRunes;
    var t, end := InsideText(items), if slash then "\\" else "";
    EncodeOne(q);
    EncodeNothing();
    SlashEncoded();
    EncodeConcat(t, end);
    EncodeConcat([q], t + end);
    assert |Utf8(q)| == 1 by { QuoteIsByte(q); }
    InWordRuns(text, st, off, done, cur, buffered, left);
    RunConcat(text, st, off, [q], t + end);
    RunOne(text, st, off, q);
    OpensBuffer(text, st, off, q, done, cur, buffered, left);
    var open := Step(text, st, off, q).value;
    RunConcat(text, open, off + 1, t, end);
    InsideRuns(text, open, off + 1, q, items, done, cur + left);
    var last := Run(text, open, off + 1, t).value;
    if slash {
      RunOne(text, last, off + 1 + |Encode(t)|, '\\');
    } else {
      RunNothing(text, last, off + 1 + |Encode(t)|, "");
    }
  }

  lemma {:induction false} TailRuns(text: Bytes, st: State, off: nat, tail: Tail, done: seq<Bytes>, cur: Bytes,
                                    buffered: bool, left: Bytes)
    requires InWord(text, st, off, done, cur, buffered, left) && tail != End && Grammatical([], tail)
    requires off + |Encode(TailText(tail))| <= |text|
    ensures Settled(text, Run(text, st, off, TailText(tail))) == Ending([], tail)
  {
    hide Utf8, Run, Encode, IsInside;
    InWordRuns(text, st, off, done, cur, buffered, left);
    match tail
    case Meta(c, rest) =>
      OperatorIsMeta(c);
      RunFirst(text, st, off, TailText(tail));
    case LastSlash =>
      SlashEncoded();
      RunOne(text, st, off, '\\');
      OpensBuffer(text, st, off, '\\', done, cur, buffered, left);
    case Open(q, inside, slash) =>
      OpenTailRuns(text, st, off, q, inside, slash, done, cur, buffered, left);
  }

  lemma EndOfWord(text: Bytes, st: State, done: seq<Bytes>, cur: Bytes, buffered: bool, left: Bytes)
    requires InWord(text, st, |text|, done, cur, buffered, left) && (buffered || cur != [])
    ensures Finish(text, st) == Checked(done + [cur])
  {
    assert text[st.si..|text|] == text[st.si..];
  }

  lemma EndOfLine(text: Bytes, st: State, done: seq<Bytes>)
    requires Between(st, |text|, done)
    ensures Finish(text, st) == Checked(done)
  {
  }

  /** The words, from the start of one. */
  lemma {:induction false} WordsRun(text: Bytes, st: State, off: nat, ws: seq<Word>, tail: Tail, done: seq<Bytes>,
                                    first: bool)
    requires ws != [] && Grammatical(ws, tail)
    requires InWord(text, st, off, done, [], first, [])
    requires At<byte>(text, off, Encode(Written(ws, tail))) && off + |Encode(Written(ws, tail))| == |text|
    ensures Settled(text, Run(text, st, off, Written(ws, tail))) == Ending(done + Values(first, ws), tail)
    decreases |ws|
  {
    hide Utf8, Run, Encode, InWord, At, Between, Grammatical, WordText, TailText, Finish, Value;
    var w, rest := ws[0], ws[1..];
    var t, after := WordText(w.pieces), w.gap + Written(rest, tail);
    var value := Value(first, [], w.pieces);
    FirstWord(ws, tail);
    EncodeConcat(t, after);
    AtSplits<byte>(text, off, Encode(t), Encode(after));
    InWordRuns(text, st, off, done, [], first, []);
    var buffered, left := WordRuns(text, st, off, w.pieces, done, [], first, []);
    assert [] + value == value;
    var mid, at := Run(text, st, off, t).value, off + |Encode(t)|;
    RunConcat(text, st, off, t, after);
    var done' := done + [value];
    assert rest == [] ==> done' == done + Values(first, ws);
    InWordRuns(text, mid, at, done, value, buffered, left);
    if w.gap == "" {
      assert after == TailText(tail);
      if tail == End {
        NoTail();
        RunNothing(text, mid, at, after);
        EndOfWord(text, mid, done, value, buffered, left);
      } else {
        TailRuns(text, mid, at, tail, done, value, buffered, left);
      }
    } else {
      EncodeConcat(w.gap, Written(rest, tail));
      AtSplits<byte>(text, at, Encode(w.gap), Encode(Written(rest, tail)));
      GapRuns(text, mid, at, w.gap, done, value, buffered, left);
      RunConcat(text, mid, at, w.gap, Written(rest, tail));
      var next, start := Run(text, mid, at, w.gap).value, at + |Encode(w.gap)|;
      BetweenStarts(text, next, start, done');
      InWordRuns(text, next, start, done', [], false, []);
      if rest != [] {
        WordsRun(text, next, start, rest, tail, done', false);
        assert done' + Values(false, rest) == done + Values(first, ws);
      } else if tail == End {
        NoTail();
        RunNothing(text, next, start, "");
        EndOfLine(text, next, done');
      } else {
        TailRuns(text, next, start, tail, done', [], false, []);
      }
    }
  }

  lemma FirstWord(ws: seq<Word>, tail: Tail)
    requires ws != [] && Grammatical(ws, tail)
    ensures ws[0].pieces != [] && (forall p <- ws[0].pieces :: IsPiece(p)) && forall c <- ws[0].gap :: IsBlank(c)
    ensures Grammatical(ws[1..], tail) && Grammatical([], tail)
    ensures ws[0].gap == "" ==> ws[1..] == []
  {
    assert ws[0] in ws;
  }

  lemma NoTail()
    ensures TailText(End) == "" && Encode("") == []
  {
  }

  lemma StartsWord(text: Bytes)
    ensures InWord(text, START, 0, [], [], true, [])
  {
  }

  /** What Split returns for any line is the meaning of its words. */
  lemma SplitIsMeaning(cmdline: string, ws: seq<Word>, tail: Tail)
    requires TrimSpace(cmdline) == Written(ws, tail) && Grammatical(ws, tail)
    ensures SplitLine(cmdline) == Meaning(ws, tail)
  {
    hide Run, Encode, At, InWord, Grammatical, TailText, Finish, TrimSpace, Value;
    var line := Written(ws, tail);
    var text := Encode(line);
    StartsWord(text);
    AtAll(text);
    if ws == [] && tail == End {
      NoTail();
      SplitOfNothing(cmdline);
    } else {
      SplitSettles(cmdline);
      if ws != [] {
        WordsRun(text, START, 0, ws, tail, [], true);
        assert [] + Values(true, ws) == Values(true, ws);
      } else {
        TailRuns(text, START, 0, tail, [], [], true, []);
      }
    }
  }

  lemma SplitSettles(cmdline: string)
    ensures var line := TrimSpace(cmdline);
            SplitLine(cmdline) == Settled(Encode(line), Run(Encode(line), START, 0, line))
  {
    hide Run, Encode, Finish, TrimSpace;
  }

  lemma SplitOfNothing(cmdline: string)
    requires TrimSpace(cmdline) == ""
    ensures SplitLine(cmdline) == Success([[]])
  {
    assert TrimSpace("") == "";
    SameTrimmed(cmdline, "");
    EmptyLine();
  }

  lemma AtAll(text: Bytes)
    ensures At<byte>(text, 0, text)
  {
    assert text[0..|text|] == text;
  }

  // -------------------------------------------------------------- every line

  /** The runes up to the closing quote, or to the end. */
  lemma {:induction false} ReadInside(s: string, q: char)
    returns (items: seq<Item>, closed: bool, slash: bool, rest: string)
    requires q == '"' || q == '\''
    ensures IsInside(q, items) && |rest| <= |s|
    ensures s == InsideText(items) + if closed then [q] + rest else if slash then "\\" else ""
    decreases |s|
  {
    if s == "" {
      items, closed, slash, rest := [], false, false, "";
    } else if s[0] == q {
      items, closed, slash, rest := [], true, false, s[1..];
    } else if s == "\\" {
      items, closed, slash, rest := [], false, true, "";
    } else {
      var x := if s[0] == '\\' then Item(s[1], true) else Item(s[0], false);
      var t := ItemText(x);
      assert s == t + s[|t|..];
      var more;
      more, closed, slash, rest := ReadInside(s[|t|..], q);
      items := [x] + more;
      assert items[1..] == more;
    }
  }

  /** A stop of a word: the end, a blank, or what stops the line. */
  predicate StopsWord(stop: string, tail: Tail) {
    if tail == End then stop == "" || IsBlank(stop[0])
    else stop == TailText(tail) && Grammatical([], tail)
  }

  /** A piece, or what stops the line. */
  lemma ReadPiece(s: string) returns (p: Piece, rest: string, tail: Tail)
    requires s != "" && !IsBlank(s[0])
    ensures if tail == End then s == PieceText(p) + rest && IsPiece(p) && |rest| < |s|
            else StopsWord(s, tail)
  {
    hide InsideText, Grammatical, IsInside, IsOperator, StopsWord;
    p, rest, tail := Slashed(' '), "", End;
    if IsOperator(s[0]) {
      tail := Meta(s[0], s[1..]);
      StopsHere(tail);
      assert s == TailText(tail);
    } else if s[0] == '"' || s[0] == '\'' {
      p, rest, tail := ReadQuote(s);
    } else if s == "\\" {
      tail := LastSlash;
      StopsHere(tail);
    } else if s[0] == '\\' {
      p, rest := Slashed(s[1]), s[2..];
      assert s == PieceText(p) + rest;
    } else {
      p, rest := Plain(s[0]), s[1..];
    }
  }

  lemma ReadQuote(s: string) returns (p: Piece, rest: string, tail: Tail)
    requires s != "" && (s[0] == '"' || s[0] == '\'')
    ensures if tail == End then s == PieceText(p) + rest && IsPiece(p) && |rest| < |s|
            else StopsWord(s, tail)
  {
    hide InsideText, Grammatical, IsInside, IsOperator, StopsWord;
    var q := s[0];
    var items, closed, slash, more := ReadInside(s[1..], q);
    assert s == [q] + s[1..];
    p, rest, tail := Quote(q, items), more, End;
    if closed {
      assert InsideText(items) + ([q] + rest) == InsideText(items) + [q] + rest;
    } else {
      tail := Open(q, items, slash);
      StopsHere(tail);
    }
  }

  lemma {:induction false} ReadWord(s: string) returns (w: seq<Piece>, stop: string, tail: Tail)
    ensures s == WordText(w) + stop && StopsWord(stop, tail) && forall p <- w :: IsPiece(p)
    ensures s != "" && !IsBlank(s[0]) && tail == End ==> w != []
    decreases |s|
  {
    hide PieceText, Grammatical, TailText, IsPiece;
    if s == "" || IsBlank(s[0]) {
      return [], s, End;
    }
    var p, rest;
    p, rest, tail := ReadPiece(s);
    if tail != End {
      return [], s, tail;
    }
    var more;
    more, stop, tail := ReadWord(rest);
    w := [p] + more;
    assert w[1..] == more;
    assert PieceText(p) + (WordText(more) + stop) == WordText(w) + stop;
  }

  lemma StopsHere(tail: Tail)
    requires match tail
             case End => false
             case Meta(c, _) => IsOperator(c)
             case LastSlash => true
             case Open(q, inside, _) => IsInside(q, inside)
    ensures StopsWord(TailText(tail), tail)
  {
    hide IsInside;
  }

  /** Every line that starts with no blank is words and a tail. */
  lemma {:induction false} Reads(s: string) returns (ws: seq<Word>, tail: Tail)
    requires s == "" || !IsBlank(s[0])
    ensures s == Written(ws, tail) && Grammatical(ws, tail)
    ensures s == "" ==> ws == []
    decreases |s|
  {
    hide WordText, IsPiece;
    if s == "" {
      return [], End;
    }
    var w, stop;
    w, stop, tail := ReadWord(s);
    if tail != End {
      ws := if w == [] then [] else [Word(w, "")];
      assert w == [] ==> s == stop by { NoWord(w); }
      assert [Word(w, "")][1..] == [] && "" + stop == stop;
      return;
    }
    var gap, rest := LeadingBlanks(stop);
    WordTakes(w);
    var more;
    more, tail := Reads(rest);
    ws := [Word(w, gap)] + more;
    assert ws[1..] == more;
    AddsWord(Word(w, gap), more, tail);
  }

  lemma NoWord(w: seq<Piece>)
    ensures w == [] ==> WordText(w) == ""
  {
  }

  lemma WordTakes(w: seq<Piece>)
    requires w != []
    ensures |WordText(w)| > 0
  {
    assert |PieceText(w[0])| > 0;
  }

  lemma AddsWord(w: Word, ws: seq<Word>, tail: Tail)
    requires Grammatical(ws, tail) && w.pieces != [] && (forall p <- w.pieces :: IsPiece(p))
    requires (forall c <- w.gap :: IsBlank(c)) && (ws == [] || w.gap != "")
    ensures Grammatical([w] + ws, tail)
  {
    hide IsPiece, IsInside;
    assert forall x <- [w] + ws :: x == w || x in ws;
  }

  lemma {:induction false} LeadingBlanks(s: string) returns (gap: string, rest: string)
    ensures s == gap + rest && (forall c <- gap :: IsBlank(c)) && (rest == "" || !IsBlank(rest[0]))
    ensures s != "" && IsBlank(s[0]) ==> gap != ""
    decreases |s|
  {
    if s == "" || !IsBlank(s[0]) {
      return "", s;
    }
    var more;
    more, rest := LeadingBlanks(s[1..]);
    gap := [s[0]] + more;
  }

  lemma {:induction false} TrimmedLeft(s: string)
    ensures var t := TrimLeft(s); t == "" || !IsSpace(t[0])
  {
    if s != "" && IsSpace(s[0]) {
      TrimmedLeft(s[1..]);
    }
  }

  lemma TrimmedStart(s: string)
    ensures var t := TrimSpace(s); t == "" || !IsBlank(t[0])
  {
    TrimmedLeft(s);
    TrimRightKeeps(TrimLeft(s));
    if TrimLeft(s) == "" {
      assert TrimRight("") == "";
    }
  }

  /** Any line has a meaning, and Split returns it. */
  lemma EveryLine(cmdline: string) returns (ws: seq<Word>, tail: Tail)
    ensures TrimSpace(cmdline) == Written(ws, tail) && Grammatical(ws, tail)
    ensures SplitLine(cmdline) == Meaning(ws, tail)
  {
    hide TrimSpace, Written, Grammatical, SplitLine, Meaning;
    TrimmedStart(cmdline);
    ws, tail := Reads(TrimSpace(cmdline));
    SplitIsMeaning(cmdline, ws, tail);
  }

  // ------------------------------------------------------------- stray bytes

  predicate BufferedAt(first: bool, w: seq<Piece>, k: nat)
    requires k <= |w|
  {
    first || exists j :: 0 <= j < k && !w[j].Plain?
  }

  /** Is the piece at `k` behind a rune of several bytes that went to the buffer on
      its own? */
  predicate LeavesBytes(first: bool, w: seq<Piece>, k: nat)
    requires k < |w|
  {
    && k > 0
    && (w[k - 1].Slashed? || (w[k - 1].Plain? && BufferedAt(first, w, k - 1)))
    && w[k - 1].c >= '\U{80}'
  }

  /** No quote or backslash stands directly behind such a rune. */
  predicate Clean(first: bool, w: seq<Piece>) {
    forall k :: 0 <= k < |w| && !w[k].Plain? ==> !LeavesBytes(first, w, k)
  }

  function LeftAt(first: bool, w: seq<Piece>, k: nat): Bytes
    requires k <= |w|
  {
    if k == 0 then [] else Left(w[k - 1], BufferedAt(first, w, k - 1))
  }

  lemma LeftBytes(first: bool, w: seq<Piece>, k: nat)
    requires k < |w|
    ensures LeftAt(first, w, k) != [] <==> LeavesBytes(first, w, k)
  {
    if k > 0 && !w[k - 1].Quote? {
      SeveralBytes(w[k - 1].c);
    }
  }

  lemma SeveralBytes(c: char)
    ensures Utf8(c)[1..] != [] <==> c >= '\U{80}'
  {
  }

  lemma {:induction false} ValueFrom(first: bool, w: seq<Piece>, k: nat)
    requires k <= |w|
    ensures var value := Value(BufferedAt(first, w, k), LeftAt(first, w, k), w[k..]);
            && |value| >= |Encode(Runes(w[k..]))|
            && (value == Encode(Runes(w[k..]))
                <==> forall j :: k <= j < |w| && !w[j].Plain? ==> !LeavesBytes(first, w, j))
    decreases |w| - k
  {
    hide Utf8, Encode, PieceRunes, LeavesBytes;
    if k == |w| {
      EncodeNothing();
    } else {
      var p, rest := w[k], w[k..][1..];
      assert rest == w[k + 1..];
      ValueFrom(first, w, k + 1);
      LeftBytes(first, w, k);
      EncodeConcat(PieceRunes(p), Runes(rest));
      assert BufferedAt(first, w, k + 1) <==> BufferedAt(first, w, k) || !p.Plain?;
      var before := if p.Plain? then [] else LeftAt(first, w, k);
      ValueOne(before, Encode(PieceRunes(p)), Value(BufferedAt(first, w, k + 1), LeftAt(first, w, k + 1), rest),
               Encode(Runes(rest)));
    }
  }

  lemma ValueOne(before: Bytes, own: Bytes, value: Bytes, rest: Bytes)
    requires |value| >= |rest|
    ensures |before + own + value| >= |own + rest|
    ensures before + own + value == own + rest <==> before == [] && value == rest
  {
    if before == [] {
      assert before + own == own;
      assert (own + value)[|own|..] == value && (own + rest)[|own|..] == rest;
    }
  }

  /** An argument is the runes of its word iff no quote or backslash stands behind
      a rune of several bytes that is in the buffer already. */
  lemma CleanIff(first: bool, w: seq<Piece>)
    ensures Value(first, [], w) == Encode(Runes(w)) <==> Clean(first, w)
  {
    hide LeavesBytes;
    assert w[0..] == w;
    ValueFrom(first, w, 0);
  }

  /** One byte of an accent comes twice when a quote follows. */
  lemma StrayByte()
    ensures SplitLine("e\U{e9}''") == Success([[0x65, 0xC3, 0xA9, 0xA9]])
    ensures Encode("e\U{e9}") == [0x65, 0xC3, 0xA9]
  {
    hide SplitLine, Value, IsSpace;
    var w := [Plain('e'), Plain('\U{e9}'), Quote('\'', [])];
    var ws := [Word(w, "")];
    assert ws[1..] == [];
    AccentText(w);
    AccentValue(w);
    Untrimmed("e\U{e9}''");
    assert Written(ws, End) == WordText(w) + ("" + "");
    assert Values(false, ws[1..]) == [];
    assert Values(true, ws) == [[0x65, 0xC3, 0xA9, 0xA9]];
    SplitIsMeaning("e\U{e9}''", ws, End);
  }

  lemma AccentText(w: seq<Piece>)
    requires w == [Plain('e'), Plain('\U{e9}'), Quote('\'', [])]
    ensures WordText(w) == "e\U{e9}''" && !IsSpace('e') && !IsSpace('\'')
    ensures forall p <- w :: IsPiece(p)
  {
    assert w[1..] == [Plain('\U{e9}'), Quote('\'', [])];
    assert w[1..][1..] == [Quote('\'', [])];
    assert w[1..][1..][1..] == [];
    assert PieceText(Quote('\'', [])) == "''";
    assert WordText([Quote('\'', [])]) == "''" + "";
    assert WordText(w[1..]) == "\U{e9}" + "''";
  }

  lemma AccentValue(w: seq<Piece>)
    requires w == [Plain('e'), Plain('\U{e9}'), Quote('\'', [])]
    ensures Value(true, [], w) == [0x65, 0xC3, 0xA9, 0xA9]
    ensures Encode("e\U{e9}") == [0x65, 0xC3, 0xA9]
  {
    hide Encode;
    assert w[1..] == [Plain('\U{e9}'), Quote('\'', [])];
    assert w[1..][1..] == [Quote('\'', [])];
    assert w[1..][1..][1..] == [];
    EncodeOne('e');
    EncodeOne('\U{e9}');
    EncodeNothing();
    EncodeConcat("e", "\U{e9}");
    assert "e" + "\U{e9}" == "e\U{e9}";
    assert Value(true, [0xA9], w[1..][1..]) == [0xA9];
    assert Value(true, [], w[1..]) == [0xC3, 0xA9] + [0xA9];
    assert Value(true, [], w) == [0x65] + Value(true, [], w[1..]);
  }

  // ------------------------------------------------------------ quoted lines

  function QuotedLine(q: char, args: seq<string>): string {
    if args == [] then ""
    else [q] + (args[0] + [q]) + if |args| == 1 then "" else " " + QuotedLine(q, args[1..])
  }

  function AsItems(s: string): seq<Item> {
    seq(|s|, k requires 0 <= k < |s| => Item(s[k], false))
  }

  function QuotedWords(q: char, args: seq<string>): seq<Word> {
    if args == [] then []
    else [Word([Quote(q, AsItems(args[0]))], if |args| == 1 then "" else " ")] + QuotedWords(q, args[1..])
  }

  lemma {:induction false} ItemsAreText(s: string)
    ensures InsideText(AsItems(s)) == s && InsideRunes(AsItems(s)) == s
  {
    if s != "" {
      ItemsAreText(s[1..]);
      assert AsItems(s)[1..] == AsItems(s[1..]);
      assert s == [s[0]] + s[1..];
    }
  }

  lemma {:induction false} QuotedWritten(q: char, args: seq<string>, first: bool)
    requires (q == '"' || q == '\'') && forall a <- args :: q !in a && '\\' !in a
    ensures Written(QuotedWords(q, args), End) == QuotedLine(q, args)
    ensures Grammatical(QuotedWords(q, args), End)
    ensures Values(first, QuotedWords(q, args)) == EncodeAll(args)
    ensures |QuotedWords(q, args)| == |args|
  {
    hide AsItems, Grammatical, Encode;
    if args == [] {
      assert Grammatical([], End) by { EmptyFits(); }
    } else {
      var a, rest := args[0], QuotedWords(q, args[1..]);
      var w := Word([Quote(q, AsItems(a))], if |args| == 1 then "" else " ");
      QuotedWritten(q, args[1..], false);
      ItemsAreText(a);
      assert a in args;
      assert IsPiece(w.pieces[0]) by { PlainItems(q, a); }
      assert w.pieces[1..] == [];
      AddsWord(w, rest, End);
      assert Value(first, [], w.pieces) == Encode(a) by {
        assert [] + Encode(a) + [] == Encode(a);
      }
      assert QuotedWords(q, args)[1..] == rest;
      assert WordText(w.pieces) == [q] + (a + [q]);
    }
  }

  lemma EmptyFits()
    ensures Grammatical([], End)
  {
  }

  lemma PlainItems(q: char, a: string)
    requires (q == '"' || q == '\'') && q !in a && '\\' !in a
    ensures IsPiece(Quote(q, AsItems(a)))
  {
  }

  lemma {:induction false} QuotedEnds(q: char, args: seq<string>)
    requires args != []
    ensures var l := QuotedLine(q, args); l != "" && l[0] == q && l[|l| - 1] == q
  {
    if |args| > 1 {
      QuotedEnds(q, args[1..]);
    }
  }

  lemma Untrimmed(s: string)
    requires s == "" || (!IsSpace(s[0]) && !IsSpace(s[|s| - 1]))
    ensures TrimSpace(s) == s
  {
  }

  /** Arguments quoted with either kind of quote come back, empty ones and blanks
      and metacharacters in them included. */
  lemma QuotedComeBack(q: char, args: seq<string>)
    requires (q == '"' || q == '\'') && args != [] && forall a <- args :: q !in a && '\\' !in a
    ensures SplitLine(QuotedLine(q, args))
         == if '=' in args[0] then Failure(EnvSet) else Success(EncodeAll(args))
  {
    hide SplitLine, TrimSpace, QuotedWords, Encode, Grammatical, Written;
    QuotedWritten(q, args, true);
    QuotedEnds(q, args);
    Untrimmed(QuotedLine(q, args));
    SplitIsMeaning(QuotedLine(q, args), QuotedWords(q, args), End);
    EqualsEncoded(args[0]);
  }

  // ------------------------------------------------------------- plain lines

  function FieldEnd(s: string): (e: nat)
    ensures e <= |s| && (forall k :: 0 <= k < e ==> !IsBlank(s[k])) && (e < |s| ==> IsBlank(s[e]))
  {
    if s == "" || IsBlank(s[0]) then 0 else 1 + FieldEnd(s[1..])
  }

  /** The fields between the blanks. */
  function Fields(s: string): seq<string>
    decreases |s|
  {
    if s == "" then []
    else if IsBlank(s[0]) then Fields(s[1..])
    else [s[..FieldEnd(s)]] + Fields(s[FieldEnd(s)..])
  }

  lemma {:induction false} FieldsAfterBlanks(gap: string, rest: string)
    requires forall c <- gap :: IsBlank(c)
    ensures Fields(gap + rest) == Fields(rest)
  {
    if gap == "" {
      assert gap + rest == rest;
    } else {
      assert gap[0] in gap && (gap + rest)[1..] == gap[1..] + rest;
      FieldsAfterBlanks(gap[1..], rest);
    }
  }

  lemma {:induction false} FieldEnds(t: string, u: string)
    requires (forall c <- t :: !IsBlank(c)) && (u == "" || IsBlank(u[0]))
    ensures FieldEnd(t + u) == |t|
  {
    if t == "" {
      assert t + u == u;
    } else {
      assert t[0] in t && (t + u)[1..] == t[1..] + u;
      FieldEnds(t[1..], u);
    }
  }

  lemma FieldFirst(t: string, gap: string, rest: string)
    requires t != "" && (forall c <- t :: !IsBlank(c)) && forall c <- gap :: IsBlank(c)
    requires rest == "" || gap != ""
    ensures Fields(t + (gap + rest)) == [t] + Fields(rest)
  {
    var s := t + (gap + rest);
    assert s[0] == t[0] && t[0] in t;
    assert gap != "" ==> (gap + rest)[0] == gap[0] && gap[0] in gap;
    FieldEnds(t, gap + rest);
    assert s[..|t|] == t && s[|t|..] == gap + rest;
    FieldsAfterBlanks(gap, rest);
  }

  predicate Unquoted(s: string) {
    '\\' !in s && '"' !in s && '\'' !in s
  }

  predicate NoOperator(s: string) {
    forall c <- s :: !IsOperator(c)
  }

  /** A word of an unquoted line is its own text. */
  lemma {:induction false} UnquotedWord(w: seq<Piece>, first: bool, left: Bytes)
    requires (forall p <- w :: IsPiece(p)) && Unquoted(WordText(w))
    ensures forall c <- WordText(w) :: !IsBlank(c)
    ensures NoOperator(WordText(w)) && Value(first, left, w) == Encode(WordText(w))
    decreases |w|
  {
    hide Utf8, IsOperator, Encode, PieceText, PieceRunes, IsPiece, Unquoted, IsBlank, Left;
    if w == [] {
      EncodeNothing();
    } else {
      var p, t := w[0], WordText(w);
      assert p in w;
      PieceUnquoted(p, WordText(w[1..]));
      UnquotedWord(w[1..], first, Left(p, first));
      EncodeConcat([p.c], WordText(w[1..]));
      assert [] + Encode([p.c]) == Encode([p.c]);
    }
  }

  lemma PieceUnquoted(p: Piece, rest: string)
    requires IsPiece(p) && Unquoted(PieceText(p) + rest)
    ensures p.Plain? && Unquoted(rest) && PieceText(p) == PieceRunes(p) == [p.c] && !IsBlank(p.c) && !IsOperator(p.c)
  {
    hide IsOperator;
    var t := PieceText(p) + rest;
    assert forall c <- rest :: c in t;
    assert t[0] in t;
  }

  lemma UnquotedParts(a: string, b: string)
    requires Unquoted(a + b)
    ensures Unquoted(a) && Unquoted(b)
  {
    assert forall c <- a :: c in a + b;
    assert forall c <- b :: c in a + b;
  }

  /** The line stops at `c`, the first operator. */
  predicate FirstOperator(s: string, c: char, k: nat) {
    k < |s| && s[k] == c && IsOperator(c) && NoOperator(s[..k])
  }

  lemma {:induction false} UnquotedWords(ws: seq<Word>, tail: Tail, first: bool) returns (k: nat)
    requires Grammatical(ws, tail) && Unquoted(Written(ws, tail))
    ensures var s := Written(ws, tail);
            match tail
            case End => NoOperator(s) && Values(first, ws) == EncodeAll(Fields(s))
            case Meta(c, _) => FirstOperator(s, c, k)
            case _ => false
    decreases |ws|
  {
    hide Grammatical, IsOperator, Value, Encode, WordText, Fields;
    if ws == [] {
      k := 0;
      UnquotedTail(tail);
    } else {
      var w, s := ws[0], Written(ws[1..], tail);
      var t := WordText(w.pieces);
      FirstWord(ws, tail);
      UnquotedParts(t, w.gap + s);
      UnquotedParts(w.gap, s);
      k := UnquotedWords(ws[1..], tail, false);
      UnquotedWord(w.pieces, first, []);
      BlanksPlain(w.gap);
      if tail == End {
        WordTakes(w.pieces);
        assert ws[1..] == [] ==> s == "";
        FieldFirst(t, w.gap, s);
        assert EncodeAll([t] + Fields(s)) == [Encode(t)] + EncodeAll(Fields(s)) by {
          assert ([t] + Fields(s))[1..] == Fields(s);
        }
        assert NoOperator(t + (w.gap + s));
      } else {
        k := |t| + |w.gap| + k;
        var l := t + (w.gap + s);
        assert l[..k] == t + (w.gap + s[..k - |t| - |w.gap|]);
      }
    }
  }

  lemma BlanksPlain(gap: string)
    requires forall c <- gap :: IsBlank(c)
    ensures NoOperator(gap)
  {
  }

  lemma UnquotedTail(tail: Tail)
    requires Grammatical([], tail) && Unquoted(TailText(tail))
    ensures match tail
            case End => TailText(tail) == "" && Fields("") == [] && NoOperator("")
            case Meta(c, _) => FirstOperator(TailText(tail), c, 0)
            case _ => false
  {
    var t := TailText(tail);
    assert tail != End ==> t[0] in t;
  }

  /** A line without quotes and backslashes: its blank-separated fields, an error
      when the first holds a `=`, or the first operator. */
  lemma UnquotedLine(cmdline: string)
    requires Unquoted(TrimSpace(cmdline))
    ensures var l := TrimSpace(cmdline);
            if NoOperator(l) then
              var fields := if l == "" then [""] else Fields(l);
              fields != []
              && SplitLine(cmdline) == if '=' in fields[0] then Failure(EnvSet) else Success(EncodeAll(fields))
            else
              exists k, c :: FirstOperator(l, c, k) && SplitLine(cmdline) == Failure(Metachar(c))
  {
    hide TrimSpace, Grammatical, SplitLine, Encode, IsOperator, Fields, Value;
    var ws, tail := EveryLine(cmdline);
    var l := TrimSpace(cmdline);
    var k := UnquotedWords(ws, tail, true);
    if tail.Meta? {
      assert FirstOperator(l, tail.c, k) && l[k] in l;
    } else if ws == [] {
      assert EncodeAll([""]) == [[]] by { EmptyEncoded(); }
      EncodeNothing();
    } else {
      var fields := Fields(l);
      assert |EncodeAll(fields)| == |Values(true, ws)| > 0;
      assert fields != [] && EncodeAll(fields)[0] == Encode(fields[0]);
      EqualsEncoded(fields[0]);
      NotEmptyLine(ws, tail);
    }
  }

  lemma EmptyEncoded()
    ensures EncodeAll([""]) == [[]] && '=' as int !in EncodeAll([""])[0]
  {
    assert [""][1..] == [];
  }

  lemma NotEmptyLine(ws: seq<Word>, tail: Tail)
    requires ws != [] && Grammatical(ws, tail)
    ensures Written(ws, tail) != ""
  {
    FirstWord(ws, tail);
    WordTakes(ws[0].pieces);
  }
}
