/** What a value means, piece by piece: the evaluator against a grammar of all
    texts, with both ways to write a reference. */
module EvalGrammar {
  import opened Wrappers
  import opened Lexer
  import opened Eval

  datatype Piece =
    | Plain(c: char)
    | Escaped(c: char)
    | Folded(newline: char, spaces: string)
    | Braced(name: string)
    | Named(name: string)

  function Shape(p: Piece): string {
    match p
    case Plain(c) => [c]
    case Escaped(c) => ['$', c]
    case Folded(newline, spaces) => ['$', newline] + spaces
    case Braced(name) => "${" + name + "}"
    case Named(name) => "$" + name
  }

  /** The pieces as they are written, in front of `tail`. */
  function Written(ps: seq<Piece>, tail: string): string {
    if ps == [] then tail else Shape(ps[0]) + Written(ps[1..], tail)
  }

  /** A letter, a digit, an underscore or a dash. */
  predicate IsNameByte(c: char) {
    'a' <= c <= 'z' || 'A' <= c <= 'Z' || '0' <= c <= '9' || c == '_' || c == '-'
  }

  lemma NameBytes()
    ensures forall c :: IsNameByte(c) <==> IsSimpleVarname(c)
  {
  }

  /** Is this a piece when `rest` stands behind it? A plain name and the spaces
      of a folded line are as long as they can be. */
  predicate IsPiece(p: Piece, rest: string) {
    match p
    case Plain(c) => c != '$'
    case Escaped(c) => c == ' ' || c == ':' || c == '$'
    case Folded(newline, spaces) =>
      && (newline == '\n' || newline == '\r')
      && (forall k :: 0 <= k < |spaces| ==> IsWhitespace(spaces[k]))
      && (rest == "" || !IsWhitespace(rest[0]))
    case Braced(name) => '}' !in name
    case Named(name) =>
      && name != "" && (forall k :: 0 <= k < |name| ==> IsNameByte(name[k]))
      && (rest == "" || !IsNameByte(rest[0]))
  }

  predicate Grammatical(ps: seq<Piece>, tail: string) {
    ps == [] || (IsPiece(ps[0], Written(ps[1..], tail)) && Grammatical(ps[1..], tail))
  }

  /** A text that starts with no piece. */
  predicate IsStuck(tail: string) {
    && tail != "" && tail[0] == '$'
    && (|| |tail| == 1
        || (tail[1] == '{' && '}' !in tail[2..])
        || (tail[1] !in " :$\r\n{" && !IsNameByte(tail[1])))
  }

  function ErrorAt(tail: string): EvalError {
    if |tail| > 1 && tail[1] == '{' then Unclosed else BadEscape
  }

  /** What a reference to `name` stands for: the expansion of what the
      environment answers, and nothing when it has no answer. */
  function Reference(env: Env, pos: int, name: string, depth: nat): Result<string, EvalError>
    requires depth <= MAX_LOOKUPS + 1
  {
    if depth > MAX_LOOKUPS then Failure(Cycle)
    else
      match env(pos, name)
      case None => Success("")
      case Some(value) => Expand(env, value, depth + 1)
  }

  function PieceMeaning(env: Env, pos: int, p: Piece, rest: string, depth: nat): Result<string, EvalError>
    requires depth <= MAX_LOOKUPS + 1
  {
    match p
    case Plain(c) => Success([c])
    case Escaped(c) => Success([c])
    // the spaces stay when less than two bytes follow them
    case Folded(_, spaces) => Success(if |rest| > 1 then "" else spaces)
    case Braced(name) => Reference(env, pos, name, depth)
    case Named(name) => Reference(env, pos, name, depth)
  }

  /** The texts of the pieces one after another, or the first error. */
  function Meaning(env: Env, pos: int, ps: seq<Piece>, tail: string, depth: nat): Result<string, EvalError>
    requires depth <= MAX_LOOKUPS + 1
  {
    if ps == [] then if tail == "" then Success("") else Failure(ErrorAt(tail))
    else
      var text :- PieceMeaning(env, pos, ps[0], Written(ps[1..], tail), depth);
      var rest :- Meaning(env, pos, ps[1..], tail, depth);
      Success(text + rest)
  }

  // ------------------------------------------------------------ every text

  /** Every text is a list of pieces, maybe with a stuck rest. */
  lemma {:induction false} Reads(v: string) returns (ps: seq<Piece>, tail: string)
    ensures v == Written(ps, tail) && Grammatical(ps, tail) && (tail == "" || IsStuck(tail))
    decreases |v|
  {
    if v == "" || IsStuck(v) {
      ps, tail := [], v;
    } else {
      var p, rest := FirstPiece(v);
      var more;
      more, tail := Reads(rest);
      ps := [p] + more;
      assert ps[1..] == more;
    }
  }

  lemma FirstPiece(v: string) returns (p: Piece, rest: string)
    requires v != "" && !IsStuck(v)
    ensures v == Shape(p) + rest && IsPiece(p, rest) && |rest| < |v|
  {
    if v[0] != '$' {
      p, rest := Plain(v[0]), v[1..];
    } else if v[1] == ' ' || v[1] == ':' || v[1] == '$' {
      p, rest := Escaped(v[1]), v[2..];
    } else if v[1] == '\n' || v[1] == '\r' {
      p, rest := FirstFold(v);
    } else if v[1] == '{' {
      p, rest := FirstBraced(v);
    } else {
      p, rest := FirstNamed(v);
    }
  }

  lemma FirstFold(v: string) returns (p: Piece, rest: string)
    requires |v| > 1 && v[0] == '$' && (v[1] == '\n' || v[1] == '\r')
    ensures v == Shape(p) + rest && IsPiece(p, rest) && |rest| < |v|
  {
    var e := SkipWhitespace(v, 2, |v|);
    p, rest := Folded(v[1], v[2..e]), v[e..];
    SpacesEnd(v, 2);
    assert v == v[..2] + v[2..e] + v[e..];
  }

  lemma FirstBraced(v: string) returns (p: Piece, rest: string)
    requires |v| > 1 && v[0] == '$' && v[1] == '{' && '}' in v[2..]
    ensures v == Shape(p) + rest && IsPiece(p, rest) && |rest| < |v|
  {
    var e := IndexByte(v, 2, '}');
    BraceThere(v, e);
    p, rest := Braced(v[2..e]), v[e + 1..];
    assert v == v[..2] + v[2..e] + [v[e]] + v[e + 1..];
  }

  lemma FirstNamed(v: string) returns (p: Piece, rest: string)
    requires |v| > 1 && v[0] == '$' && IsNameByte(v[1])
    ensures v == Shape(p) + rest && IsPiece(p, rest) && |rest| < |v|
  {
    NameBytes();
    var e := NameEnd(v, 1);
    p, rest := Named(v[1..e]), v[e..];
    assert v == v[..1] + v[1..e] + v[e..];
  }

  lemma {:induction false} SpacesEnd(v: string, i: nat)
    requires i <= |v|
    ensures var e := SkipWhitespace(v, i, |v|); e == |v| || !IsWhitespace(v[e])
    decreases |v| - i
  {
    if i < |v| && IsWhitespace(v[i]) {
      SpacesEnd(v, i + 1);
    }
  }

  lemma BraceThere(v: string, e: nat)
    requires |v| >= 2 && '}' in v[2..] && e == IndexByte(v, 2, '}')
    ensures e < |v|
  {
    var k :| 0 <= k < |v| - 2 && v[2..][k] == '}';
    assert v[k + 2] == '}';
  }

  // ------------------------------------------------------------ evaluation

  lemma StuckIsBad(v: string, i: nat)
    requires i < |v| && IsStuck(v[i..])
    ensures ScanAt(v, i) == Bad(ErrorAt(v[i..]))
  {
    var t := v[i..];
    if |t| > 1 && t[1] == '{' {
      assert forall k :: i + 2 <= k < |v| ==> v[k] == t[2..][k - i - 2];
    }
  }

  /** What the evaluator sees of a piece at `i`. */
  lemma PieceScanned(v: string, i: nat, p: Piece, rest: string)
    requires i <= |v| && v[i..] == Shape(p) + rest && IsPiece(p, rest)
    ensures i < |v|
    ensures var next := i + |Shape(p)|;
            match p
            case Plain(c) => ScanAt(v, i) == Lit([c], next)
            case Escaped(c) => ScanAt(v, i) == Lit([c], next)
            case Folded(_, _) => ScanAt(v, i) == Lit("", if |rest| > 1 then next else i + 2)
            case Braced(name) => ScanAt(v, i) == Ref(name, next)
            case Named(name) => ScanAt(v, i) == Ref(name, next)
  {
    var t := v[i..];
    assert forall k :: 0 <= k < |t| ==> v[i + k] == t[k];
    var next := i + |Shape(p)|;
    assert v[next..] == rest;
    match p
    case Folded(newline, spaces) => FoldScanned(v, i, newline, spaces, rest);
    case Braced(name) => BraceScanned(v, i, name, rest);
    case Named(name) => NameScanned(v, i, name, rest);
    case _ =>
  }

  lemma {:induction false} RunSkipped(v: string, i: nat, e: nat, end: nat)
    requires i <= e <= end <= |v| && forall k :: i <= k < e ==> IsWhitespace(v[k])
    requires e == end || !IsWhitespace(v[e])
    ensures SkipWhitespace(v, i, end) == e
    decreases e - i
  {
    if i < e {
      RunSkipped(v, i + 1, e, end);
    }
  }

  lemma FoldScanned(v: string, i: nat, newline: char, spaces: string, rest: string)
    requires i <= |v| && v[i..] == ['$', newline] + spaces + rest && IsPiece(Folded(newline, spaces), rest)
    ensures i < |v| && ScanAt(v, i) == Lit("", if |rest| > 1 then i + 2 + |spaces| else i + 2)
  {
    var t := v[i..];
    assert forall k :: 0 <= k < |t| ==> v[i + k] == t[k];
    var e := i + 2 + |spaces|;
    if rest != "" {
      assert v[e] == rest[0];
      RunSkipped(v, i + 1, e, |v| - 1);
    } else {
      RunSkipped(v, i + 1, |v| - 1, |v| - 1);
    }
  }

  lemma BraceScanned(v: string, i: nat, name: string, rest: string)
    requires i <= |v| && v[i..] == "${" + name + "}" + rest && '}' !in name
    ensures i < |v| && ScanAt(v, i) == Ref(name, i + 3 + |name|)
  {
    var t := v[i..];
    assert forall k :: 0 <= k < |t| ==> v[i + k] == t[k];
    var e := IndexByte(v, i + 2, '}');
    assert v[i + 2 + |name|] == '}';
    assert forall k :: i + 2 <= k < i + 2 + |name| ==> v[k] == name[k - i - 2];
    assert e == i + 2 + |name|;
    assert v[i + 2..e] == name;
  }

  lemma {:induction false} RunNamed(v: string, i: nat, e: nat)
    requires i <= e <= |v| && forall k :: i <= k < e ==> IsNameByte(v[k])
    requires e == |v| || !IsNameByte(v[e])
    ensures NameEnd(v, i) == e
    decreases e - i
  {
    if i < e {
      RunNamed(v, i + 1, e);
    }
  }

  lemma NameScanned(v: string, i: nat, name: string, rest: string)
    requires i <= |v| && v[i..] == "$" + name + rest && IsPiece(Named(name), rest)
    ensures i < |v| && ScanAt(v, i) == Ref(name, i + 1 + |name|)
  {
    var t := v[i..];
    assert forall k :: 0 <= k < |t| ==> v[i + k] == t[k];
    var e := i + 1 + |name|;
    assert forall k :: i + 1 <= k < e ==> v[k] == name[k - i - 1];
    if rest != "" {
      assert v[e] == rest[0];
    }
    RunNamed(v, i + 1, e);
    assert v[i + 1..e] == name;
    assert v[i + 1] == name[0];
  }

  /** Text without `$` stands for itself. */
  lemma {:induction false} LiteralRun(env: Env, val: EvalString, i: nat, e: nat, depth: nat)
    requires i <= e <= |val.v| && depth <= MAX_LOOKUPS + 1
    requires forall k :: i <= k < e ==> val.v[k] != '$'
    ensures ExpandFrom(env, val, i, depth) == Prepend(val.v[i..e], ExpandFrom(env, val, e, depth))
    decreases e - i
  {
    hide ScanAt, Expand;
    var end := ExpandFrom(env, val, e, depth);
    if i == e {
      assert val.v[i..e] == "";
      PrependNothing(end);
    } else {
      LiteralRun(env, val, i + 1, e, depth);
      assert ScanAt(val.v, i) == Lit([val.v[i]], i + 1) by { PlainByte(val.v, i); }
      PrependStep(env, val, i, depth, "");
      assert "" + [val.v[i]] == [val.v[i]];
      PrependNothing(ExpandFrom(env, val, i, depth));
      assert [val.v[i]] + val.v[i + 1..e] == val.v[i..e];
      if end.Success? {
        assert [val.v[i]] + (val.v[i + 1..e] + end.value) == val.v[i..e] + end.value;
      }
    }
  }

  lemma PlainByte(v: string, i: nat)
    requires i < |v| && v[i] != '$'
    ensures ScanAt(v, i) == Lit([v[i]], i + 1)
  {
  }

  lemma OnePiece(env: Env, val: EvalString, i: nat, p: Piece, rest: string, depth: nat)
    requires i <= |val.v| && val.v[i..] == Shape(p) + rest && IsPiece(p, rest) && depth <= MAX_LOOKUPS + 1
    ensures var next := i + |Shape(p)|;
            && next <= |val.v|
            && ExpandFrom(env, val, i, depth)
               == match PieceMeaning(env, val.pos, p, rest, depth)
                  case Failure(error) => Failure(error)
                  case Success(text) => Prepend(text, ExpandFrom(env, val, next, depth))
  {
    hide ScanAt, Expand, IsPiece, Shape, Prepend;
    PieceScanned(val.v, i, p, rest);
    PieceLength(p);
    PrependStep(env, val, i, depth, "");
    PrependNothing(ExpandFrom(env, val, i, depth));
    assert forall s: string :: "" + s == s;
    if p.Folded? && |rest| <= 1 {
      FoldKept(env, val, i, p, rest, depth);
    }
  }

  lemma PieceLength(p: Piece)
    ensures |Shape(p)| > 0
    ensures p.Folded? ==> |Shape(p)| == 2 + |p.spaces|
  {
  }

  lemma FoldKept(env: Env, val: EvalString, i: nat, p: Piece, rest: string, depth: nat)
    requires i <= |val.v| && p.Folded? && val.v[i..] == Shape(p) + rest && IsPiece(p, rest)
    requires depth <= MAX_LOOKUPS + 1
    ensures i + 2 + |p.spaces| <= |val.v|
    ensures ExpandFrom(env, val, i + 2, depth)
         == Prepend(p.spaces, ExpandFrom(env, val, i + 2 + |p.spaces|, depth))
  {
    hide ExpandFrom, Prepend;
    var t := val.v[i..];
    assert forall k :: 0 <= k < |t| ==> val.v[i + k] == t[k];
    var e := i + 2 + |p.spaces|;
    assert forall k :: i + 2 <= k < e ==> val.v[k] == p.spaces[k - i - 2];
    assert val.v[i + 2..e] == p.spaces;
    LiteralRun(env, val, i + 2, e, depth);
  }

  lemma {:induction false} PiecesExpand(env: Env, val: EvalString, i: nat, ps: seq<Piece>, tail: string, depth: nat)
    requires i <= |val.v| && val.v[i..] == Written(ps, tail) && Grammatical(ps, tail)
    requires (tail == "" || IsStuck(tail)) && depth <= MAX_LOOKUPS + 1
    ensures ExpandFrom(env, val, i, depth) == Meaning(env, val.pos, ps, tail, depth)
    decreases |ps|
  {
    hide ScanAt, Expand, IsPiece, Shape, PieceMeaning, IsStuck;
    if ps == [] {
      if tail != "" {
        StuckIsBad(val.v, i);
      }
    } else {
      var p, rest := ps[0], Written(ps[1..], tail);
      OnePiece(env, val, i, p, rest, depth);
      var next := i + |Shape(p)|;
      assert val.v[next..] == val.v[i..][|Shape(p)|..] == rest;
      PiecesExpand(env, val, next, ps[1..], tail, depth);
    }
  }

  /** A counter that says whether there is anything to expand, as the parser's
      does. */
  predicate Counted(val: EvalString) {
    val.esc == 0 ==> '$' !in val.v
  }

  /** The value of any text is the meaning of its pieces. */
  lemma ValueIsMeaning(env: Env, val: EvalString, ps: seq<Piece>, tail: string)
    requires Counted(val) && val.v == Written(ps, tail) && Grammatical(ps, tail) && (tail == "" || IsStuck(tail))
    ensures Evaluate(env, val) == Meaning(env, val.pos, ps, tail, 0)
  {
    hide Meaning, ExpandFrom;
    assert val.v[0..] == val.v;
    PiecesExpand(env, val, 0, ps, tail, 0);
    if val.v == "" {
      assert '$' !in val.v;
    }
    if val.esc == 0 || val.v == "" {
      NoEscapeIsLiteral(env, val, 0, 0);
    }
  }

  // ---------------------------------------------------------- two spellings

  lemma {:induction false} WrittenConcat(a: seq<Piece>, b: seq<Piece>, tail: string)
    ensures Written(a + b, tail) == Written(a, Written(b, tail))
  {
    hide Shape;
    if a == [] {
      assert a + b == b;
    } else {
      WrittenConcat(a[1..], b, tail);
      assert (a + b)[1..] == a[1..] + b && (a + b)[0] == a[0];
    }
  }

  /** The text before and behind does not see how a name is written. */
  lemma {:induction false} Respelled(env: Env, pos: int, a: seq<Piece>, name: string, b: seq<Piece>, tail: string,
                                     depth: nat)
    requires Grammatical(a + [Named(name)] + b, tail) && depth <= MAX_LOOKUPS + 1
    ensures var plain, braced := a + [Named(name)] + b, a + [Braced(name)] + b;
            && Grammatical(braced, tail)
            && Meaning(env, pos, plain, tail, depth) == Meaning(env, pos, braced, tail, depth)
            && |Written(plain, tail)| > 1 && |Written(braced, tail)| > 1
            && Written(plain, tail)[0] == Written(braced, tail)[0]
  {
    hide Reference;
    var plain, braced := a + [Named(name)] + b, a + [Braced(name)] + b;
    if a == [] {
      assert plain[1..] == b == braced[1..];
    } else {
      assert plain[1..] == a[1..] + [Named(name)] + b && braced[1..] == a[1..] + [Braced(name)] + b;
      Respelled(env, pos, a[1..], name, b, tail, depth);
    }
  }

  /** `$name` and `${name}` mean the same wherever both can stand. */
  lemma PlainIsBraced(env: Env, pos: int, esc: nat, a: seq<Piece>, name: string, b: seq<Piece>, tail: string)
    requires esc > 0 && Grammatical(a + [Named(name)] + b, tail) && (tail == "" || IsStuck(tail))
    ensures Evaluate(env, EvalString(pos, Written(a + [Named(name)] + b, tail), esc))
         == Evaluate(env, EvalString(pos, Written(a + [Braced(name)] + b, tail), esc))
  {
    hide Evaluate, Meaning, Written, Grammatical;
    var plain, braced := a + [Named(name)] + b, a + [Braced(name)] + b;
    Respelled(env, pos, a, name, b, tail, 0);
    ValueIsMeaning(env, EvalString(pos, Written(plain, tail), esc), plain, tail);
    ValueIsMeaning(env, EvalString(pos, Written(braced, tail), esc), braced, tail);
  }

  /** A reference alone is the expansion of the answer. */
  lemma ReferenceIsAnswer(env: Env, pos: int, esc: nat, name: string)
    requires esc > 0 && IsPiece(Named(name), "")
    ensures Evaluate(env, EvalString(pos, "$" + name, esc))
         == match env(pos, name)
            case None => Success("")
            case Some(value) => Expand(env, value, 1)
  {
    hide Expand, Evaluate;
    var ps := [Named(name)];
    assert ps[1..] == [];
    assert Written(ps, "") == "$" + name;
    ValueIsMeaning(env, EvalString(pos, "$" + name, esc), ps, "");
    var r := Reference(env, pos, name, 0);
    assert r.Success? ==> r.value + "" == r.value;
  }

  /** The spaces behind a folded line are dropped iff two bytes follow them: in
      front of a last byte they stay. */
  lemma FoldedSpaces(env: Env, pos: int, spaces: string, rest: string)
    requires IsPiece(Folded('\n', spaces), rest) && '$' !in rest
    ensures Evaluate(env, EvalString(pos, "$\n" + spaces + rest, 1))
         == Success(if |rest| > 1 then rest else spaces + rest)
  {
    hide Evaluate, ScanAt, Expand, IsPiece;
    var val := EvalString(pos, "$\n" + spaces + rest, 1);
    var p := Folded('\n', spaces);
    assert Shape(p) == "$\n" + spaces;
    assert val.v[0..] == Shape(p) + rest;
    OnePiece(env, val, 0, p, rest, 0);
    var next := |Shape(p)|;
    forall k | next <= k < |val.v| ensures val.v[k] != '$' {
      assert val.v[k] == rest[k - next];
      assert rest[k - next] in rest;
    }
    LiteralRun(env, val, next, |val.v|, 0);
    assert val.v[next..|val.v|] == rest;
    assert ExpandFrom(env, val, |val.v|, 0) == Success("");
    assert rest + "" == rest;
    assert ExpandFrom(env, val, next, 0) == Success(rest);
    assert PieceMeaning(env, pos, p, rest, 0) == Success(if |rest| > 1 then "" else spaces);
    assert "" + rest == rest;
    assert Evaluate(env, val) == ExpandFrom(env, val, 0, 0) by { Unfolded(env, val); }
  }

  lemma Unfolded(env: Env, val: EvalString)
    requires val.v != "" && val.esc > 0
    ensures Evaluate(env, val) == ExpandFrom(env, val, 0, 0)
  {
  }

  // ------------------------------------------------------------ the parser

  /** How many pieces are written with a `$`. */
  function Dollars(ps: seq<Piece>): nat {
    if ps == [] then 0 else (if ps[0].Plain? then 0 else 1) + Dollars(ps[1..])
  }

  /** A carriage return that is escaped has its newline behind it. */
  predicate ReturnsEnd(ps: seq<Piece>) {
    forall p <- ps :: p.Folded? && p.newline == '\r' ==> "\n" <= p.spaces
  }

  lemma {:induction false} PlainCounted(v: string, i: nat, e: nat)
    requires i <= e <= |v| && forall k :: i <= k < e ==> v[k] != '$'
    ensures Escapes(v, i) == Escapes(v, e)
    decreases e - i
  {
    if i < e {
      PlainCounted(v, i + 1, e);
      assert IndexByte(v, i, '$') == IndexByte(v, i + 1, '$');
    }
  }

  /** One more escape than behind it, if the parser takes this one. */
  lemma DollarCounted(v: string, i: nat)
    requires i < |v| && v[i] == '$'
    ensures Escapes(v, i) ==
            match AfterEscape(v, i)
            case None => None
            case Some(next) =>
              match Escapes(v, next) {
                case None => None
                case Some(n) => Some(n + 1)
              }
  {
    hide AfterEscape;
    assert IndexByte(v, i, '$') == i;
  }

  /** Where the parser goes on after a piece with a `$`. */
  lemma PieceCounted(v: string, i: nat, p: Piece, rest: string)
    requires i <= |v| && v[i..] == Shape(p) + rest && IsPiece(p, rest) && !p.Plain?
    ensures i < |v| && v[i] == '$' && i + |Shape(p)| <= |v|
    ensures var next := i + |Shape(p)|;
            match p
            case Folded(newline, spaces) =>
              if newline == '\n' then AfterEscape(v, i) == Some(i + 2)
              else AfterEscape(v, i) == if "\n" <= spaces then Some(i + 3) else None
            case _ => AfterEscape(v, i) == Some(next)
  {
    hide AfterEscape, ScanAt, IsPiece, IndexByte;
    match p
    case Braced(name) =>
      assert '}' !in name by { NamePiece(p, rest); }
      BraceScanned(v, i, name, rest);
      RefCounted(v, i);
    case Named(name) =>
      NameScanned(v, i, name, rest);
      RefCounted(v, i);
    case Folded(newline, spaces) =>
      Behind(v, i, newline, spaces + rest);
      FoldedCounted(v, i, p, rest);
    case Escaped(c) =>
      Behind(v, i, c, rest);
      EscapedCounted(v, i, c, rest);
  }

  lemma NamePiece(p: Piece, rest: string)
    requires IsPiece(p, rest) && p.Braced?
    ensures '}' !in p.name
  {
  }

  lemma Behind(v: string, i: nat, c: char, rest: string)
    requires i <= |v| && (v[i..] == ['$', c] + rest)
    ensures i + 1 < |v| && v[i] == '$' && v[i + 1] == c && v[i + 2..] == rest
  {
    var t := v[i..];
    assert t[0] == v[i] && t[1] == v[i + 1] && t[2..] == v[i + 2..];
  }

  lemma FoldedCounted(v: string, i: nat, p: Piece, rest: string)
    requires IsPiece(p, rest) && p.Folded?
    requires i + 1 < |v| && v[i] == '$' && v[i + 1] == p.newline && v[i + 2..] == p.spaces + rest
    ensures AfterEscape(v, i) == if p.newline == '\n' then Some(i + 2)
                                 else if "\n" <= p.spaces then Some(i + 3) else None
  {
    hide AfterEscape;
    ReturnFolds(v, i, p.spaces, rest);
    FoldCounted(v, i, p.spaces, rest);
  }

  lemma RefCounted(v: string, i: nat)
    requires i < |v| && ScanAt(v, i).Ref?
    ensures v[i] == '$' && AfterEscape(v, i) == Some(ScanAt(v, i).next)
  {
  }

  lemma EscapedCounted(v: string, i: nat, c: char, rest: string)
    requires i + 1 < |v| && v[i] == '$' && v[i + 1] == c && IsPiece(Escaped(c), rest)
    ensures AfterEscape(v, i) == Some(i + 2)
  {
  }

  lemma FoldCounted(v: string, i: nat, spaces: string, rest: string)
    requires i + 1 < |v| && v[i] == '$' && v[i + 2..] == spaces + rest
    requires i + 2 < |v| && v[i + 2] == '\n' ==> "\n" <= spaces
    ensures v[i + 1] == '\n' ==> AfterEscape(v, i) == Some(i + 2)
    ensures v[i + 1] == '\r' ==> AfterEscape(v, i) == if "\n" <= spaces then Some(i + 3) else None
  {
    assert "\n" <= spaces ==> v[i + 2..][0] == '\n';
  }

  lemma ReturnFolds(v: string, i: nat, spaces: string, rest: string)
    requires i + 2 <= |v| && v[i + 2..] == spaces + rest && (rest == "" || !IsWhitespace(rest[0]))
    ensures i + 2 < |v| && v[i + 2] == '\n' ==> "\n" <= spaces
  {
    if i + 2 < |v| {
      assert v[i + 2] == v[i + 2..][0];
    }
  }

  lemma {:induction false} PiecesCounted(v: string, i: nat, ps: seq<Piece>, tail: string)
    requires i <= |v| && v[i..] == Written(ps, tail) && Grammatical(ps, tail)
    requires (tail == "" || IsStuck(tail)) && !("$\t" <= tail)
    ensures Escapes(v, i) == if tail == "" && ReturnsEnd(ps) then Some(Dollars(ps)) else None
    decreases |ps|
  {
    hide IsPiece, Shape, IsStuck, AfterEscape, Escapes;
    if ps == [] {
      TailCounted(v, i, tail);
    } else {
      var p, rest := ps[0], Written(ps[1..], tail);
      assert v[i..] == Shape(p) + rest;
      var next := i + |Shape(p)|;
      assert v[next..] == v[i..][|Shape(p)|..] == rest;
      PiecesCounted(v, next, ps[1..], tail);
      ReturnsSplit(ps);
      if p.Plain? {
        PlainAt(v, i, p, rest);
        PlainCounted(v, i, next);
      } else {
        PieceCounted(v, i, p, rest);
        DollarCounted(v, i);
        if p.Folded? {
          SpacesCounted(v, i, p, rest);
        }
      }
    }
  }

  lemma ReturnsSplit(ps: seq<Piece>)
    requires ps != []
    ensures ReturnsEnd(ps) <==> (ps[0].Folded? && ps[0].newline == '\r' ==> "\n" <= ps[0].spaces) && ReturnsEnd(ps[1..])
  {
    assert ps[0] in ps;
    assert forall p <- ps :: p == ps[0] || p in ps[1..];
  }

  lemma PlainAt(v: string, i: nat, p: Piece, rest: string)
    requires i <= |v| && v[i..] == Shape(p) + rest && IsPiece(p, rest) && p.Plain?
    ensures i < |v| && v[i] != '$' && |Shape(p)| == 1
  {
    assert v[i..][0] == v[i];
  }

  /** The spaces of a folded line hold no escape. */
  lemma SpacesCounted(v: string, i: nat, p: Piece, rest: string)
    requires i <= |v| && v[i..] == Shape(p) + rest && IsPiece(p, rest) && p.Folded?
    ensures var next := i + |Shape(p)|;
            && (p.newline == '\n' || p.newline == '\r')
            && i + 2 <= next <= |v| && Escapes(v, i + 2) == Escapes(v, next)
            && ("\n" <= p.spaces ==> i + 3 <= next && Escapes(v, i + 3) == Escapes(v, next))
  {
    hide Escapes;
    assert v[i..] == ['$', p.newline] + (p.spaces + rest);
    Behind(v, i, p.newline, p.spaces + rest);
    SpacesPlain(v, i + 2, p.spaces, rest);
    var next := i + |Shape(p)|;
    PlainCounted(v, i + 2, next);
    if "\n" <= p.spaces {
      PlainCounted(v, i + 3, next);
    }
  }

  lemma SpacesPlain(v: string, i: nat, spaces: string, rest: string)
    requires i <= |v| && v[i..] == spaces + rest && forall k :: 0 <= k < |spaces| ==> IsWhitespace(spaces[k])
    ensures i + |spaces| <= |v| && forall k :: i <= k < i + |spaces| ==> v[k] != '$'
  {
    assert forall k :: i <= k < i + |spaces| ==> v[k] == v[i..][k - i] == spaces[k - i];
  }

  lemma TailCounted(v: string, i: nat, tail: string)
    requires i <= |v| && v[i..] == tail && (tail == "" || IsStuck(tail)) && !("$\t" <= tail)
    ensures Escapes(v, i) == if tail == "" then Some(0) else None
  {
    if tail != "" {
      assert v[i] == tail[0] && (|tail| > 1 ==> v[i + 1] == tail[1]);
      assert |tail| > 1 && tail[1] == '\t' ==> "$\t" <= tail;
      DollarCounted(v, i);
      StuckIsBad(v, i);
      NameBytes();
    }
  }

  /** A newline at the end, with or without a carriage return, or one of each. */
  predicate IsEnd(v: string, end: string) {
    && (end == "" || end == "\n" || end == "\r\n" || end == "\n\r\n")
    && |end| <= |v| && v[|v| - |end|..] == end
    && (v != "" && v[|v| - 1] == '\n' ==> end != "")
    && (|v| > 1 && v[|v| - 2..] == "\r\n" ==> |end| > 1)
    && (|v| > 2 && v[|v| - 3..] == "\n\r\n" ==> |end| > 2)
  }

  /** What the parser makes of a value with no escaped tab: it is taken iff its
      pieces are complete and every escaped carriage return has its newline, with
      as many escapes as there are pieces with a `$`, and without its end. */
  lemma ParsedIs(text: string, ps: seq<Piece>, tail: string) returns (end: string)
    requires ValueText(text) == Written(ps, tail) && Grammatical(ps, tail)
    requires (tail == "" || IsStuck(tail)) && !("$\t" <= tail)
    ensures var v := ValueText(text);
            IsEnd(v, end)
            && ParsedValue(text) == if tail == "" && ReturnsEnd(ps)
                                    then Some(EvalString(0, v[..|v| - |end|], Dollars(ps))) else None
  {
    hide Written, Grammatical, IsStuck, ReturnsEnd, Escapes, ValueText;
    var v := ValueText(text);
    assert v[0..] == v;
    PiecesCounted(v, 0, ps, tail);
    end := EndCut(v);
  }

  lemma EndCut(v: string) returns (end: string)
    ensures IsEnd(v, end) && TrimSuffix(TrimSuffix(v, "\r\n"), "\n") == v[..|v| - |end|]
  {
    var once := TrimSuffix(v, "\r\n");
    var twice := TrimSuffix(once, "\n");
    end := v[|twice|..];
    assert |v| > 2 ==> v[|v| - 2..] == v[|v| - 3..][1..];
    if |v| > 1 && v[|v| - 2..] == "\r\n" {
      assert once == v[..|v| - 2];
      assert |once| > 0 && once[|once| - 1] == '\n' ==> HasSuffix(once, "\n");
      assert |v| > 2 && v[|v| - 3..] == "\n\r\n" ==> once[|once| - 1] == v[|v| - 3..][0];
    } else {
      assert once == v;
      assert v != "" && v[|v| - 1] == '\n' ==> v[|v| - 1..] == "\n";
    }
  }
}
