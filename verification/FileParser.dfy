/** Parsing the chunks of one file at the same time: arenas counted beforehand,
    one goroutine a chunk, edges collected at the end. Includes and pools are
    left out. */
module FileParser {
  import opened Wrappers
  import opened ChunkParser
  import opened Lexer

  // ------------------------------------------------------------------ arenas

  /** A view of `cap` cells, from `base` on, of an allocation. Go stops the
      process where these preconditions fail. */
  class Arena {
    const base: nat
    const cap: nat
    var next: nat

    /** `reserve`, or the slice of `chunk`. */
    constructor (base: nat, cap: nat)
      ensures this.base == base && this.cap == cap && next == 0
    {
      this.base, this.cap, this.next := base, cap, 0;
    }

    method New() returns (cell: nat)
      requires next < cap
      modifies this
      ensures cell == base + old(next) && next == old(next) + 1
    {
      cell := base + next;
      next := next + 1;
    }

    method Chunk(n: nat) returns (sub: Arena)
      requires next + n <= cap
      modifies this
      ensures fresh(sub) && sub.base == base + old(next) && sub.cap == n && sub.next == 0
      ensures next == old(next) + n
    {
      sub := new Arena(base + next, n);
      next := next + n;
    }
  }

  // ------------------------------------------------------------------- alloc

  function Sum(ns: seq<nat>): nat {
    if ns == [] then 0 else Sum(ns[..|ns| - 1]) + ns[|ns| - 1]
  }

  lemma {:induction false} SumPrefix(ns: seq<nat>, k: nat)
    requires k <= |ns|
    ensures Sum(ns[..k]) <= Sum(ns)
    ensures k < |ns| ==> Sum(ns[..k + 1]) == Sum(ns[..k]) + ns[k] <= Sum(ns)
  {
    if k == |ns| {
      assert ns[..k] == ns;
    } else {
      assert ns[..k + 1][..k] == ns[..k];
      var init := ns[..|ns| - 1];
      SumPrefix(init, k);
      assert init[..k] == ns[..k];
      if k < |init| {
        assert init[..k + 1] == ns[..k + 1];
      } else {
        assert ns[..k + 1] == ns;
      }
    }
  }

  /** `alloc` for one kind of cell: reserve the sum of the chunks' counts and
      cut it into one arena a chunk. The arenas tile the reservation. */
  method Alloc(counts: seq<nat>) returns (full: Arena, arenas: seq<Arena>)
    ensures full.cap == full.next == Sum(counts) && full.base == 0
    ensures |arenas| == |counts|
    ensures forall c :: 0 <= c < |counts| ==> Given(arenas[c], Sum(counts[..c]), counts[c])
    ensures forall c :: 0 <= c < |counts| ==> arenas[c].base + arenas[c].cap <= full.cap
  {
    hide Sum;
    var total := Total(counts);
    full := new Arena(0, total);
    arenas := [];
    SumPrefix(counts, 0);
    SumNone();
    for i := 0 to |counts|
      invariant full.cap == Sum(counts) && full.base == 0 && full.next == Sum(counts[..i])
      invariant fresh(full)
      invariant |arenas| == i
      invariant forall c :: 0 <= c < i ==> arenas[c] != full && Given(arenas[c], Sum(counts[..c]), counts[c])
      invariant forall c :: 0 <= c < i ==> arenas[c].base + arenas[c].cap <= full.cap
    {
      SumPrefix(counts, i);
      var sub := full.Chunk(counts[i]);
      arenas := arenas + [sub];
    }
    assert counts[..|counts|] == counts;
  }

  ghost predicate Given(a: Arena, base: nat, cap: nat)
    reads a
  {
    a.base == base && a.cap == cap && a.next == 0
  }

  lemma SumNone()
    ensures Sum([]) == 0
  {
  }

  method Total(counts: seq<nat>) returns (total: nat)
    ensures total == Sum(counts)
  {
    total := 0;
    for i := 0 to |counts|
      invariant total == Sum(counts[..i])
    {
      SumPrefix(counts, i);
      total := total + counts[i];
    }
    assert counts[..|counts|] == counts;
  }

  // ---------------------------------------------------- what a chunk contains

  function OfType(stmts: seq<Statement>, t: StatementType): (r: seq<Statement>)
    ensures |r| <= |stmts|
  {
    if stmts == [] then []
    else
      var last := stmts[|stmts| - 1];
      OfType(stmts[..|stmts| - 1], t) + if last.t == t then [last] else []
  }

  lemma {:induction false} OfTypePrefix(stmts: seq<Statement>, t: StatementType, i: nat)
    requires i <= |stmts|
    ensures OfType(stmts[..i], t) <= OfType(stmts, t)
    ensures i < |stmts| ==>
              && OfType(stmts[..i + 1], t) == OfType(stmts[..i], t) + (if stmts[i].t == t then [stmts[i]] else [])
              && OfType(stmts[..i + 1], t) <= OfType(stmts, t)
  {
    if i == |stmts| {
      assert stmts[..i] == stmts;
    } else {
      assert stmts[..i + 1][..i] == stmts[..i];
      var init := stmts[..|stmts| - 1];
      OfTypePrefix(init, t, i);
      assert init[..i] == stmts[..i];
      if i < |init| {
        assert init[..i + 1] == stmts[..i + 1];
      } else {
        assert stmts[..i + 1] == stmts;
      }
    }
  }

  lemma {:induction false} OfTypeConcat(a: seq<Statement>, b: seq<Statement>, t: StatementType)
    ensures OfType(a + b, t) == OfType(a, t) + OfType(b, t)
  {
    if b == [] {
      assert a + b == a;
    } else {
      assert (a + b)[..|a + b| - 1] == a + b[..|b| - 1];
      OfTypeConcat(a, b[..|b| - 1], t);
    }
  }

  predicate IsBinding(t: StatementType) {
    t == BuildVar || t == RuleVar || t == PoolVar
  }

  /** Bindings only follow their own statement, or its other bindings. */
  predicate Grouped(last: StatementType, stmts: seq<Statement>)
    decreases |stmts|
  {
    stmts == [] ||
    if IsBinding(stmts[0].t) then stmts[0].t == BindingType(last) && Grouped(last, stmts[1..])
    else stmts[0].t != NoStatement && Grouped(stmts[0].t, stmts[1..])
  }

  /** The counters cover the cells these statements take. */
  predicate Counted(counts: Counts, stmts: seq<Statement>) {
    && counts.nbuild == |OfType(stmts, Build)|
    && counts.nrule == |OfType(stmts, Rule)|
    && counts.nrulevar >= |OfType(stmts, RuleVar)|
  }

  /** What `parseChunk` accumulates: grouped statements, exact counts of the
      statements that take a cell, enough for their bindings. */
  lemma {:induction false} ParsedShape(buf: string, i: nat, end: nat, last: StatementType)
    ensures var p := ParseFrom(buf, i, end, last);
            p.Parsed? ==> Grouped(last, p.stmts) && Counted(p.counts, p.stmts)
    decreases |buf| - i
  {
    hide ParseStep, OfType;
    if i < |buf| && i < end {
      var step := ParseStep(buf, i, last);
      StepShape(buf, i, last);
      if step.Advance? {
        ParsedShape(buf, step.next, end, step.last);
        var rest := ParseFrom(buf, step.next, end, step.last);
        if rest.Parsed? {
          OfTypeConcat(step.stmts, rest.stmts, Build);
          OfTypeConcat(step.stmts, rest.stmts, Rule);
          OfTypeConcat(step.stmts, rest.stmts, RuleVar);
          if step.stmts == [] {
            assert step.stmts + rest.stmts == rest.stmts;
          } else {
            assert (step.stmts + rest.stmts)[1..] == rest.stmts;
          }
        }
      }
    } else {
      NothingCounted();
    }
  }

  lemma NothingCounted()
    ensures Counted(NO_COUNTS, [])
  {
  }

  lemma KeywordType(buf: string, i: nat)
    requires i < |buf|
    ensures var k := KeywordAt(buf, i); k.Keyword? ==> !IsBinding(k.t) && k.t != NoStatement
  {
    hide IsStatement;
    assert forall name, t :: IsStatement(buf, i, name, t).Keyword? ==> IsStatement(buf, i, name, t).t == t by {
      forall name, t ensures IsStatement(buf, i, name, t).Keyword? ==> IsStatement(buf, i, name, t).t == t {
        KeywordNamed(buf, i, name, t);
      }
    }
  }

  lemma KeywordNamed(buf: string, i: nat, name: string, t: StatementType)
    requires i <= |buf|
    ensures IsStatement(buf, i, name, t).Keyword? ==> IsStatement(buf, i, name, t).t == t
  {
  }

  lemma OneCounted(st: Statement, extra: Counts)
    requires extra.nbuild == extra.nrule == 0
    ensures Counted(AddCounts(CountOf(st.t), extra), [st])
    ensures Counted(CountOf(st.t), [st])
  {
    assert [st][..0] == [];
  }

  lemma StepShape(buf: string, i: nat, last: StatementType)
    requires i < |buf|
    ensures var step := ParseStep(buf, i, last);
            step.Advance? ==>
              && |step.stmts| <= 1
              && Counted(step.counts, step.stmts)
              && (step.stmts == [] ==> step.last == last)
              && (step.stmts != [] ==>
                    var t := step.stmts[0].t;
                    if IsBinding(t) then t == BindingType(last) && step.last == last
                    else step.last == t != NoStatement)
  {
    hide NextLine, SkipSpaces, KeywordAt, AddCounts, Counted;
    KeywordType(buf, i);
    var step := ParseStep(buf, i, last);
    if step.Advance? {
      if step.stmts == [] {
        NoneCounted(step.counts);
      } else {
        OneCounted(step.stmts[0], CountOf(VarDecl));
      }
    }
  }

  lemma NoneCounted(counts: Counts)
    requires counts.nbuild == counts.nrule == 0
    ensures Counted(counts, [])
  {
  }

  // ------------------------------------------------- the goroutines of a pass

  /** `setup` hands out a rule cell and its binding cells for each rule;
      `buildGraph` hands out an edge cell for each build. */
  datatype Pass = Setup | BuildGraph

  function Owner(pass: Pass): StatementType {
    if pass.Setup? then Rule else Build
  }

  /** One goroutine: its place in its chunk, how much of its two arenas it has
      used, and the cell it has taken and not filled yet. */
  datatype Thread = Thread(i: nat, next: nat, bindings: nat, pending: Option<nat>)

  datatype Graph = Graph(threads: seq<Thread>, cells: seq<Option<Statement>>)

  /** `countStatement`: how many statements of type `t` start at `i`. */
  function CountStatement(stmts: seq<Statement>, i: nat, t: StatementType): (n: nat)
    requires i <= |stmts|
    ensures i + n <= |stmts|
    decreases |stmts| - i
  {
    if i == |stmts| || stmts[i].t != t then 0 else 1 + CountStatement(stmts, i + 1, t)
  }

  /** `skipStatement`. */
  function SkipStatement(stmts: seq<Statement>, i: nat, t: StatementType): (j: nat)
    requires i <= |stmts|
    ensures i <= j <= |stmts|
  {
    i + CountStatement(stmts, i, t)
  }

  function CellCounts(pass: Pass, chunks: seq<seq<Statement>>): (ns: seq<nat>)
    ensures |ns| == |chunks|
    ensures forall c :: 0 <= c < |chunks| ==> ns[c] == |OfType(chunks[c], Owner(pass))|
  {
    seq(|chunks|, c requires 0 <= c < |chunks| => |OfType(chunks[c], Owner(pass))|)
  }

  function Base(pass: Pass, chunks: seq<seq<Statement>>, c: nat): nat
    requires c <= |chunks|
  {
    Sum(CellCounts(pass, chunks)[..c])
  }

  /** The binding cells chunk `c` was given: at least one per rule binding. */
  function BindingCap(stmts: seq<Statement>): nat {
    |OfType(stmts, RuleVar)|
  }

  datatype Move = Skip | Take | Fill | Exhausted | BadStatement

  /** What goroutine `t` of a chunk does next. */
  function NextMove(pass: Pass, stmts: seq<Statement>, t: Thread): Move
    requires t.i < |stmts|
  {
    var st := stmts[t.i].t;
    if st == Owner(pass) then
      if t.pending.Some? then Fill
      else if t.next >= |OfType(stmts, Owner(pass))| then Exhausted
      else if pass.Setup? && t.bindings + CountStatement(stmts, t.i + 1, RuleVar) > BindingCap(stmts) then Exhausted
      else Take
    else if IsBinding(st) || st == NoStatement then BadStatement
    else Skip
  }

  /** Goroutine `c` takes one step. */
  ghost predicate Steps(pass: Pass, chunks: seq<seq<Statement>>, g: Graph, c: nat, g': Graph) {
    && |g.threads| == |chunks| && c < |chunks|
    && g.threads[c].i < |chunks[c]|
    && var stmts, t := chunks[c], g.threads[c];
       var after := SkipStatement(stmts, t.i + 1, BindingType(stmts[t.i].t));
       match NextMove(pass, stmts, t)
       case Skip => g' == g.(threads := g.threads[c := t.(i := after)])
       case Take =>
         var taken := if pass.Setup? then CountStatement(stmts, t.i + 1, RuleVar) else 0;
         g' == g.(threads := g.threads[c := t.(next := t.next + 1, bindings := t.bindings + taken,
                                               pending := Some(Base(pass, chunks, c) + t.next))])
       case Fill =>
         && t.pending.value < |g.cells|
         && g' == Graph(g.threads[c := t.(i := after, pending := None)],
                        g.cells[t.pending.value := Some(stmts[t.i])])
       case Exhausted => false
       case BadStatement => false
  }

  ghost predicate Start(pass: Pass, chunks: seq<seq<Statement>>, g: Graph) {
    && |g.threads| == |chunks|
    && (forall c :: 0 <= c < |chunks| ==> g.threads[c] == Thread(0, 0, 0, None))
    && |g.cells| == Base(pass, chunks, |chunks|)
    && (forall k :: 0 <= k < |g.cells| ==> g.cells[k] == None)
  }

  /** Any interleaving: each state but the first comes from some goroutine. */
  ghost predicate Run(pass: Pass, chunks: seq<seq<Statement>>, run: seq<Graph>) {
    && run != []
    && Start(pass, chunks, run[0])
    && forall k :: 0 <= k < |run| - 1 ==> SomeStep(pass, chunks, run[k], run[k + 1])
  }

  ghost predicate SomeStep(pass: Pass, chunks: seq<seq<Statement>>, g: Graph, g': Graph) {
    exists c: nat :: Steps(pass, chunks, g, c, g')
  }

  /** A goroutine between two statements: what it has used is what lies behind
      it, and it does not stand on a binding. */
  ghost predicate ThreadInv(pass: Pass, stmts: seq<Statement>, base: nat, t: Thread) {
    var k := Owner(pass);
    && t.i <= |stmts|
    && (exists last :: !IsBinding(last) && Grouped(last, stmts[t.i..]) && (t.i < |stmts| ==> !IsBinding(stmts[t.i].t)))
    && t.next == |OfType(stmts[..t.i], k)| + (if t.pending.Some? then 1 else 0)
    && (t.pending.Some? ==> t.i < |stmts| && stmts[t.i].t == k
                            && t.pending.value == base + |OfType(stmts[..t.i], k)|)
    && (pass.Setup? ==>
          t.bindings ==
              |OfType(stmts[..if t.pending.Some? then SkipStatement(stmts, t.i + 1, RuleVar) else t.i], RuleVar)|)
  }

  /** The cells of a chunk: filled in statement order, up to `done`. */
  ghost predicate CellsInv(cells: seq<Option<Statement>>, base: nat, owned: seq<Statement>, done: nat) {
    && base + |owned| <= |cells|
    && done <= |owned|
    && forall p :: base <= p < base + |owned| ==> cells[p] == if p - base < done then Some(owned[p - base]) else None
  }

  ghost predicate Inv(pass: Pass, chunks: seq<seq<Statement>>, g: Graph) {
    && |g.threads| == |chunks|
    && |g.cells| == Base(pass, chunks, |chunks|)
    && forall c :: 0 <= c < |chunks| ==> ChunkInv(pass, chunks, g, c)
  }

  ghost predicate AllGrouped(chunks: seq<seq<Statement>>) {
    forall c :: 0 <= c < |chunks| ==> Grouped(NoStatement, chunks[c])
  }

  lemma BaseFacts(pass: Pass, chunks: seq<seq<Statement>>, c: nat, d: nat)
    requires c < d <= |chunks|
    ensures Base(pass, chunks, c) + |OfType(chunks[c], Owner(pass))| <= Base(pass, chunks, d)
  {
    var ns := CellCounts(pass, chunks);
    SumPrefix(ns, c);
    SumPrefix(ns[..d], c + 1);
    assert ns[..d][..c + 1] == ns[..c + 1];
  }

  lemma GroupedStart(stmts: seq<Statement>)
    requires Grouped(NoStatement, stmts)
    ensures stmts != [] ==> !IsBinding(stmts[0].t)
  {
  }

  lemma StartInv(pass: Pass, chunks: seq<seq<Statement>>, g: Graph)
    requires Start(pass, chunks, g) && AllGrouped(chunks)
    ensures Inv(pass, chunks, g)
  {
    forall c | 0 <= c < |chunks|
      ensures ChunkInv(pass, chunks, g, c)
    {
      BaseFacts(pass, chunks, c, |chunks|);
      assert chunks[c][0..] == chunks[c];
      GroupedStart(chunks[c]);
      assert !IsBinding(NoStatement);
    }
  }

  /** Skipping a statement's bindings reaches the next statement. */
  lemma {:induction false} SkipGroup(stmts: seq<Statement>, i: nat, last: StatementType)
    requires i <= |stmts| && Grouped(last, stmts[i..]) && !IsBinding(last)
    ensures var j := SkipStatement(stmts, i, BindingType(last));
            && Grouped(last, stmts[j..])
            && (j < |stmts| ==> !IsBinding(stmts[j].t))
    decreases |stmts| - i
  {
    if i < |stmts| {
      assert stmts[i..][0] == stmts[i] && stmts[i..][1..] == stmts[i + 1..];
      if stmts[i].t == BindingType(last) {
        SkipGroup(stmts, i + 1, last);
      }
    }
  }

  lemma {:induction false} SkippedTypes(stmts: seq<Statement>, i: nat, t: StatementType, k: StatementType)
    requires i <= |stmts|
    ensures var n := CountStatement(stmts, i, t);
            |OfType(stmts[..i + n], k)| == |OfType(stmts[..i], k)| + (if t == k then n else 0)
    ensures t != k ==> OfType(stmts[..i + CountStatement(stmts, i, t)], k) == OfType(stmts[..i], k)
    decreases |stmts| - i
  {
    if i < |stmts| && stmts[i].t == t {
      OfTypePrefix(stmts, k, i);
      SkippedTypes(stmts, i + 1, t, k);
    }
  }

  /** Past a whole statement with its bindings. */
  lemma PastStatement(pass: Pass, stmts: seq<Statement>, i: nat, last: StatementType)
    requires i < |stmts| && !IsBinding(last) && Grouped(last, stmts[i..]) && !IsBinding(stmts[i].t)
    ensures var t := stmts[i].t;
            var j := SkipStatement(stmts, i + 1, BindingType(t));
            && Grouped(t, stmts[j..]) && (j < |stmts| ==> !IsBinding(stmts[j].t))
            && OfType(stmts[..j], Owner(pass)) ==
                 OfType(stmts[..i], Owner(pass)) + (if t == Owner(pass) then [stmts[i]] else [])
            && OfType(stmts[..j], Owner(pass)) <= OfType(stmts, Owner(pass))
            && (t != Rule ==> |OfType(stmts[..j], RuleVar)| == |OfType(stmts[..i], RuleVar)|)
            && (t == Rule ==>
                |OfType(stmts[..j], RuleVar)| == |OfType(stmts[..i], RuleVar)| + CountStatement(stmts, i + 1, RuleVar))
            && |OfType(stmts[..j], RuleVar)| <= |OfType(stmts, RuleVar)|
  {
    hide OfType, CountStatement;
    var t := stmts[i].t;
    assert stmts[i..][0] == stmts[i] && stmts[i..][1..] == stmts[i + 1..];
    SkipGroup(stmts, i + 1, t);
    var j := SkipStatement(stmts, i + 1, BindingType(t));
    OfTypePrefix(stmts, Owner(pass), i);
    OfTypePrefix(stmts, RuleVar, i);
    SkippedTypes(stmts, i + 1, BindingType(t), Owner(pass));
    SkippedTypes(stmts, i + 1, BindingType(t), RuleVar);
    OfTypePrefix(stmts, Owner(pass), j);
    OfTypePrefix(stmts, RuleVar, j);
  }

  /** No goroutine ever runs out of cells, or meets a statement it rejects. */
  lemma NeverExhausted(pass: Pass, stmts: seq<Statement>, base: nat, t: Thread)
    requires ThreadInv(pass, stmts, base, t) && t.i < |stmts|
    ensures var m := NextMove(pass, stmts, t); m != Exhausted && m != BadStatement
  {
    var last :| !IsBinding(last) && Grouped(last, stmts[t.i..]) && !IsBinding(stmts[t.i].t);
    PastStatement(pass, stmts, t.i, last);
    OfTypePrefix(stmts, Owner(pass), t.i);
  }

  lemma ThreadKeepsInv(pass: Pass, stmts: seq<Statement>, base: nat, t: Thread)
    requires ThreadInv(pass, stmts, base, t) && t.i < |stmts|
    ensures var m := NextMove(pass, stmts, t);
            var after := SkipStatement(stmts, t.i + 1, BindingType(stmts[t.i].t));
            var taken := if pass.Setup? then CountStatement(stmts, t.i + 1, RuleVar) else 0;
            && (m == Skip ==> ThreadInv(pass, stmts, base, t.(i := after))
                              && |OfType(stmts[..after], Owner(pass))| == |OfType(stmts[..t.i], Owner(pass))|)
            && (m == Take ==> ThreadInv(pass, stmts, base,
                                t.(next := t.next + 1, bindings := t.bindings + taken, pending := Some(base + t.next))))
            && (m == Fill ==> ThreadInv(pass, stmts, base, t.(i := after, pending := None))
                              && OfType(stmts[..after], Owner(pass)) == OfType(stmts[..t.i], Owner(pass)) + [stmts[t.i]]
                              && OfType(stmts[..after], Owner(pass)) <= OfType(stmts, Owner(pass)))
  {
    hide OfType, CountStatement, Grouped;
    var last :| !IsBinding(last) && Grouped(last, stmts[t.i..]) && !IsBinding(stmts[t.i].t);
    PastStatement(pass, stmts, t.i, last);
    var m := NextMove(pass, stmts, t);
    if m == Skip || m == Fill {
      var after := SkipStatement(stmts, t.i + 1, BindingType(stmts[t.i].t));
      assert !IsBinding(stmts[t.i].t) && Grouped(stmts[t.i].t, stmts[after..]);
    }
  }

  /** Where goroutine `c` stands: how far its own cells are filled. */
  ghost predicate ChunkInv(pass: Pass, chunks: seq<seq<Statement>>, g: Graph, c: nat)
    requires c < |chunks| == |g.threads|
  {
    && ThreadInv(pass, chunks[c], Base(pass, chunks, c), g.threads[c])
    && CellsInv(g.cells, Base(pass, chunks, c), OfType(chunks[c], Owner(pass)),
                |OfType(chunks[c][..g.threads[c].i], Owner(pass))|)
  }

  /** The step of `c` leaves the cells of every other chunk alone. */
  lemma {:induction false} OtherChunk(pass: Pass, chunks: seq<seq<Statement>>, g: Graph, c: nat, g': Graph, d: nat)
    requires Inv(pass, chunks, g) && Steps(pass, chunks, g, c, g') && d < |chunks| && d != c
    ensures ChunkInv(pass, chunks, g', d)
  {
    hide SkipStatement, CountStatement, Base, Sum, ThreadInv, OfType;
    var stmts, t := chunks[c], g.threads[c];
    assert ChunkInv(pass, chunks, g, d) && ChunkInv(pass, chunks, g, c);
    assert g'.threads[d] == g.threads[d];
    if NextMove(pass, stmts, t) == Fill {
      OtherPending(pass, chunks, g, c);
      if d < c {
        BaseFacts(pass, chunks, d, c);
      } else {
        BaseFacts(pass, chunks, c, d);
      }
    }
  }

  lemma OwnChunk(pass: Pass, chunks: seq<seq<Statement>>, g: Graph, c: nat, g': Graph)
    requires Inv(pass, chunks, g) && Steps(pass, chunks, g, c, g')
    ensures |g'.threads| == |chunks| && |g'.cells| == |g.cells|
    ensures ChunkInv(pass, chunks, g', c)
  {
    hide SkipStatement, CountStatement, Base, Sum, ThreadInv;
    assert ChunkInv(pass, chunks, g, c);
    var stmts, t, base := chunks[c], g.threads[c], Base(pass, chunks, c);
    ThreadKeepsInv(pass, stmts, base, t);
    if NextMove(pass, stmts, t) == Fill {
      PendingCell(pass, stmts, base, t);
      var owned, done := OfType(stmts, Owner(pass)), OfType(stmts[..t.i], Owner(pass));
      assert owned[|done|] == (done + [stmts[t.i]])[|done|];
    }
  }

  lemma StepKeepsInv(pass: Pass, chunks: seq<seq<Statement>>, g: Graph, c: nat, g': Graph)
    requires Inv(pass, chunks, g) && Steps(pass, chunks, g, c, g')
    ensures Inv(pass, chunks, g')
  {
    hide ChunkInv, ThreadInv, CellsInv, NextMove, OfType, SkipStatement, CountStatement, Base;
    OwnChunk(pass, chunks, g, c, g');
    forall d | 0 <= d < |chunks| && d != c ensures ChunkInv(pass, chunks, g', d) {
      OtherChunk(pass, chunks, g, c, g', d);
    }
  }

  lemma PendingCell(pass: Pass, stmts: seq<Statement>, base: nat, t: Thread)
    requires ThreadInv(pass, stmts, base, t) && t.i < |stmts| && NextMove(pass, stmts, t) == Fill
    ensures t.pending.value == base + |OfType(stmts[..t.i], Owner(pass))|
  {
  }

  lemma {:induction false} RunInv(pass: Pass, chunks: seq<seq<Statement>>, run: seq<Graph>, k: nat)
    requires AllGrouped(chunks) && Run(pass, chunks, run) && k < |run|
    ensures Inv(pass, chunks, run[k])
  {
    hide Inv, Steps, Start;
    if k == 0 {
      StartInv(pass, chunks, run[0]);
    } else {
      RunInv(pass, chunks, run, k - 1);
      assert SomeStep(pass, chunks, run[k - 1], run[k - 1 + 1]);
      var c: nat :| Steps(pass, chunks, run[k - 1], c, run[k]);
      StepKeepsInv(pass, chunks, run[k - 1], c, run[k]);
    }
  }

  /** In every interleaving, a goroutine about to take a cell finds one left,
      inside the reservation, that nobody has filled or is about to fill. */
  lemma CellsDisjoint(pass: Pass, chunks: seq<seq<Statement>>, run: seq<Graph>, k: nat, c: nat)
    requires AllGrouped(chunks) && Run(pass, chunks, run) && k < |run| && c < |chunks|
    requires var g := run[k]; |g.threads| == |chunks| && g.threads[c].i < |chunks[c]|
    ensures var g := run[k];
            var m := NextMove(pass, chunks[c], g.threads[c]);
            && m != Exhausted
            && (m == Take ==>
                  var cell := Base(pass, chunks, c) + g.threads[c].next;
                  && cell < |g.cells| && g.cells[cell] == None
                  && forall d :: 0 <= d < |chunks| ==> g.threads[d].pending != Some(cell))
  {
    hide SkipStatement, CountStatement, Grouped, Run;
    RunInv(pass, chunks, run, k);
    TakenCell(pass, chunks, run[k], c);
  }

  lemma TakenCell(pass: Pass, chunks: seq<seq<Statement>>, g: Graph, c: nat)
    requires Inv(pass, chunks, g) && c < |chunks| && g.threads[c].i < |chunks[c]|
    ensures var m := NextMove(pass, chunks[c], g.threads[c]);
            && m != Exhausted
            && (m == Take ==>
                  var cell := Base(pass, chunks, c) + g.threads[c].next;
                  && cell < |g.cells| && g.cells[cell] == None
                  && forall d :: 0 <= d < |chunks| ==> g.threads[d].pending != Some(cell))
  {
    hide SkipStatement, CountStatement, Grouped, Base, Sum;
    var owner := Owner(pass);
    var stmts, t, base := chunks[c], g.threads[c], Base(pass, chunks, c);
    assert ChunkInv(pass, chunks, g, c);
    NeverExhausted(pass, stmts, base, t);
    if NextMove(pass, stmts, t) == Take {
      var k := |OfType(stmts[..t.i], owner)|;
      assert t.next == k < |OfType(stmts, owner)|;
      assert g.cells[base + k] == None;
      BaseFacts(pass, chunks, c, |chunks|);
      forall d | 0 <= d < |chunks| && g.threads[d].pending.Some?
        ensures g.threads[d].pending.value != base + t.next
      {
        OtherPending(pass, chunks, g, d);
        if d < c {
          BaseFacts(pass, chunks, d, c);
        } else if d > c {
          BaseFacts(pass, chunks, c, d);
        }
      }
    }
  }

  lemma OtherPending(pass: Pass, chunks: seq<seq<Statement>>, g: Graph, d: nat)
    requires Inv(pass, chunks, g) && d < |chunks| && g.threads[d].pending.Some?
    ensures var cell, base := g.threads[d].pending.value, Base(pass, chunks, d);
            base <= cell < base + |OfType(chunks[d], Owner(pass))|
  {
    hide SkipStatement, CountStatement, Grouped, Base;
    assert ChunkInv(pass, chunks, g, d);
    OfTypePrefix(chunks[d], Owner(pass), g.threads[d].i);
  }

  // ---------------------------------------------------------------- finalize

  ghost predicate Done(chunks: seq<seq<Statement>>, g: Graph) {
    && |g.threads| == |chunks|
    && forall c :: 0 <= c < |chunks| ==> g.threads[c].i == |chunks[c]|
  }

  function Flatten(chunks: seq<seq<Statement>>): seq<Statement> {
    if chunks == [] then [] else Flatten(chunks[..|chunks| - 1]) + chunks[|chunks| - 1]
  }

  /** The filled cells in arena order. */
  function Filled(cells: seq<Option<Statement>>): seq<Statement> {
    if cells == [] then []
    else
      var last := cells[|cells| - 1];
      Filled(cells[..|cells| - 1]) + if last.Some? then [last.value] else []
  }

  /** `finalize`: collect the edges that got a rule. */
  method Finalize(cells: seq<Option<Statement>>) returns (edges: seq<Statement>)
    ensures edges == Filled(cells)
  {
    edges := [];
    for i := 0 to |cells|
      invariant edges == Filled(cells[..i])
    {
      assert cells[..i + 1][..i] == cells[..i];
      if cells[i].Some? {
        edges := edges + [cells[i].value];
      }
    }
    assert cells[..|cells|] == cells;
  }

  lemma {:induction false} FilledSegment(cells: seq<Option<Statement>>, base: nat, owned: seq<Statement>, n: nat)
    requires CellsInv(cells, base, owned, |owned|) && n <= |owned|
    ensures Filled(cells[..base + n]) == Filled(cells[..base]) + owned[..n]
  {
    if n == 0 {
      assert owned[..0] == [];
    } else {
      FilledSegment(cells, base, owned, n - 1);
      assert cells[..base + n][..base + n - 1] == cells[..base + n - 1];
      assert owned[..n] == owned[..n - 1] + [owned[n - 1]];
    }
  }

  lemma {:induction false} FilledChunks(pass: Pass, chunks: seq<seq<Statement>>, g: Graph, n: nat)
    requires Inv(pass, chunks, g) && Done(chunks, g) && n <= |chunks|
    ensures Base(pass, chunks, n) <= |g.cells|
    ensures Filled(g.cells[..Base(pass, chunks, n)]) == OfType(Flatten(chunks[..n]), Owner(pass))
  {
    hide ThreadInv, Sum;
    if n == 0 {
      assert g.cells[..0] == [] && chunks[..0] == [];
      BaseStart(pass, chunks);
    } else {
      FilledChunks(pass, chunks, g, n - 1);
      var owned := OfType(chunks[n - 1], Owner(pass));
      var base := Base(pass, chunks, n - 1);
      SumPrefix(CellCounts(pass, chunks), n - 1);
      assert ChunkInv(pass, chunks, g, n - 1);
      assert chunks[n - 1][..|chunks[n - 1]|] == chunks[n - 1];
      FilledSegment(g.cells, base, owned, |owned|);
      assert owned[..|owned|] == owned;
      assert chunks[..n][..n - 1] == chunks[..n - 1];
      OfTypeConcat(Flatten(chunks[..n - 1]), chunks[n - 1], Owner(pass));
    }
  }

  lemma BaseStart(pass: Pass, chunks: seq<seq<Statement>>)
    ensures Base(pass, chunks, 0) == 0
  {
  }

  /** Every interleaving that ends collects the cells' owners in file order. */
  lemma EdgesInFileOrder(pass: Pass, chunks: seq<seq<Statement>>, run: seq<Graph>)
    requires AllGrouped(chunks) && Run(pass, chunks, run) && Done(chunks, run[|run| - 1])
    ensures Filled(run[|run| - 1].cells) == OfType(Flatten(chunks), Owner(pass))
  {
    var g := run[|run| - 1];
    RunInv(pass, chunks, run, |run| - 1);
    FilledChunks(pass, chunks, g, |chunks|);
    assert g.cells[..|g.cells|] == g.cells && chunks[..|chunks|] == chunks;
  }

  // ---------------------------------------------------------------- progress

  /** What goroutines have left to do: two steps a statement at most. */
  function Left(chunks: seq<seq<Statement>>, threads: seq<Thread>): (n: int)
    requires |chunks| == |threads|
  {
    if chunks == [] then 0
    else
      var stmts, t := chunks[|chunks| - 1], threads[|chunks| - 1];
      Left(chunks[..|chunks| - 1], threads[..|chunks| - 1]) + 2 * (|stmts| - t.i) - if t.pending.Some? then 1 else 0
  }

  lemma {:induction false} LeftAfter(chunks: seq<seq<Statement>>, threads: seq<Thread>, c: nat, t: Thread)
    requires c < |chunks| == |threads|
    ensures Left(chunks, threads[c := t])
         == Left(chunks, threads) - 2 * (t.i - threads[c].i) + (if threads[c].pending.Some? then 1 else 0)
            - if t.pending.Some? then 1 else 0
  {
    var n := |chunks| - 1;
    if c < n {
      LeftAfter(chunks[..n], threads[..n], c, t);
      assert threads[c := t][..n] == threads[..n][c := t];
    } else {
      assert threads[c := t][..n] == threads[..n];
    }
  }

  /** Every step of a goroutine leaves less to do. */
  lemma StepsLeave(pass: Pass, chunks: seq<seq<Statement>>, g: Graph, c: nat, g': Graph)
    requires Inv(pass, chunks, g) && Steps(pass, chunks, g, c, g')
    ensures |g'.threads| == |chunks| && Left(chunks, g'.threads) < Left(chunks, g.threads)
  {
    hide ChunkInv, CountStatement, Base, Left;
    LeftAfter(chunks, g.threads, c, g'.threads[c]);
  }

  lemma {:induction false} LeftBounds(pass: Pass, chunks: seq<seq<Statement>>, g: Graph, n: nat)
    requires Inv(pass, chunks, g) && n <= |chunks|
    ensures Left(chunks[..n], g.threads[..n]) >= 0
  {
    if n > 0 {
      LeftBounds(pass, chunks, g, n - 1);
      assert chunks[..n][..n - 1] == chunks[..n - 1] && g.threads[..n][..n - 1] == g.threads[..n - 1];
      assert ChunkInv(pass, chunks, g, n - 1);
    }
  }

  /** As long as a pass is not done, some goroutine has a next step. */
  lemma GoesOn(pass: Pass, chunks: seq<seq<Statement>>, g: Graph) returns (c: nat, g': Graph)
    requires Inv(pass, chunks, g) && !Done(chunks, g)
    ensures Steps(pass, chunks, g, c, g')
  {
    hide SkipStatement, CountStatement, Base, CellsInv, Grouped;
    c :| c < |chunks| && g.threads[c].i != |chunks[c]|;
    assert ChunkInv(pass, chunks, g, c);
    var stmts, t, base := chunks[c], g.threads[c], Base(pass, chunks, c);
    NeverExhausted(pass, stmts, base, t);
    var after := SkipStatement(stmts, t.i + 1, BindingType(stmts[t.i].t));
    var m := NextMove(pass, stmts, t);
    if m == Skip {
      g' := g.(threads := g.threads[c := t.(i := after)]);
    } else if m == Take {
      var taken := if pass.Setup? then CountStatement(stmts, t.i + 1, RuleVar) else 0;
      g' := g.(threads := g.threads[c := t.(next := t.next + 1, bindings := t.bindings + taken,
                                           pending := Some(base + t.next))]);
    } else {
      PendingInside(pass, chunks, g, c);
      g' := Graph(g.threads[c := t.(i := after, pending := None)], g.cells[t.pending.value := Some(stmts[t.i])]);
    }
  }

  lemma PendingInside(pass: Pass, chunks: seq<seq<Statement>>, g: Graph, c: nat)
    requires Inv(pass, chunks, g) && c < |chunks| && g.threads[c].pending.Some?
    ensures g.threads[c].pending.value < |g.cells|
  {
    assert ChunkInv(pass, chunks, g, c);
    OtherPending(pass, chunks, g, c);
    BaseFacts(pass, chunks, c, |chunks|);
  }

  /** No interleaving takes more than two steps for each statement. */
  lemma {:induction false} RunsEnd(pass: Pass, chunks: seq<seq<Statement>>, run: seq<Graph>, k: nat)
    requires AllGrouped(chunks) && Run(pass, chunks, run) && k < |run|
    ensures |run[0].threads| == |chunks| == |run[k].threads|
    ensures k + Left(chunks, run[k].threads) <= Left(chunks, run[0].threads) && Left(chunks, run[k].threads) >= 0
    ensures Left(chunks, run[0].threads) == 2 * |Flatten(chunks)|
  {
    hide Steps, Left, Flatten, Start, Inv;
    RunInv(pass, chunks, run, k);
    LeftBounds(pass, chunks, run[k], |chunks|);
    LeftAtStart(pass, chunks, run[0]);
    LengthsAgree(pass, chunks, run[k]);
    assert chunks[..|chunks|] == chunks && run[k].threads[..|chunks|] == run[k].threads;
    if k > 0 {
      var last := k - 1;
      RunsEnd(pass, chunks, run, last);
      RunInv(pass, chunks, run, last);
      assert SomeStep(pass, chunks, run[last], run[last + 1]);
      var c: nat :| Steps(pass, chunks, run[last], c, run[k]);
      StepsLeave(pass, chunks, run[last], c, run[k]);
    }
  }

  lemma LengthsAgree(pass: Pass, chunks: seq<seq<Statement>>, g: Graph)
    requires Inv(pass, chunks, g)
    ensures |g.threads| == |chunks|
  {
  }

  lemma LeftAtStart(pass: Pass, chunks: seq<seq<Statement>>, g: Graph)
    requires Start(pass, chunks, g)
    ensures |g.threads| == |chunks| && Left(chunks, g.threads) == 2 * |Flatten(chunks)|
  {
    LeftFresh(chunks, g.threads);
  }

  lemma {:induction false} LeftFresh(chunks: seq<seq<Statement>>, threads: seq<Thread>)
    requires |threads| == |chunks| && forall c :: 0 <= c < |chunks| ==> threads[c] == Thread(0, 0, 0, None)
    ensures Left(chunks, threads) == 2 * |Flatten(chunks)|
  {
    if chunks != [] {
      LeftFresh(chunks[..|chunks| - 1], threads[..|chunks| - 1]);
    }
  }

  // ------------------------------------------- independent of the chunk count

  function StatementsOf(buf: string, bounds: seq<Bounds>): (chunks: seq<seq<Statement>>)
    requires forall k :: 0 <= k < |bounds| ==> ParseFrom(buf, bounds[k].start, bounds[k].end, NoStatement).Parsed?
    ensures |chunks| == |bounds|
    ensures forall k :: 0 <= k < |bounds| ==>
              chunks[k] == ParseFrom(buf, bounds[k].start, bounds[k].end, NoStatement).stmts
  {
    seq(|bounds|, k requires 0 <= k < |bounds| =>
      ParseFrom(buf, bounds[k].start, bounds[k].end, NoStatement).stmts)
  }

  lemma {:induction false} FlattenCons(chunks: seq<seq<Statement>>)
    requires chunks != []
    ensures Flatten(chunks) == chunks[0] + Flatten(chunks[1..])
  {
    var init, last := chunks[..|chunks| - 1], chunks[|chunks| - 1];
    if |chunks| == 1 {
      assert init == [] && chunks[1..] == [];
      assert [] + last == last == last + [];
    } else {
      FlattenCons(init);
      var rest := chunks[1..];
      assert rest[..|rest| - 1] == init[1..] && rest[|rest| - 1] == last;
      assert Flatten(rest) == Flatten(init[1..]) + last;
      assert chunks[0] + Flatten(init[1..]) + last == chunks[0] + (Flatten(init[1..]) + last);
    }
  }

  lemma {:induction false} FlattenParsed(buf: string, bounds: seq<Bounds>)
    requires forall k :: 0 <= k < |bounds| ==> ParseFrom(buf, bounds[k].start, bounds[k].end, NoStatement).Parsed?
    ensures ParseChunks(buf, bounds).Parsed? && ParseChunks(buf, bounds).stmts == Flatten(StatementsOf(buf, bounds))
  {
    hide ParseFrom, AddCounts;
    if bounds != [] {
      var rest := bounds[1..];
      assert forall k :: 0 <= k < |rest| ==> rest[k] == bounds[k + 1];
      FlattenParsed(buf, rest);
      var chunks := StatementsOf(buf, bounds);
      assert chunks[1..] == StatementsOf(buf, rest);
      FlattenCons(chunks);
    }
  }

  /** Whatever the chunks and whatever the interleaving, a file that parses
      gives the edges of its build statements, in the order of the file. */
  lemma EdgesOfFile(buf: string, bounds: seq<Bounds>, run: seq<Graph>)
    requires Tiles(buf, 0, bounds)
    requires forall k :: 0 <= k < |bounds| ==> ParseFrom(buf, bounds[k].start, bounds[k].end, NoStatement).Parsed?
    requires var chunks := StatementsOf(buf, bounds);
             Run(BuildGraph, chunks, run) && Done(chunks, run[|run| - 1])
    ensures ParseFrom(buf, 0, |buf|, NoStatement).Parsed?
    ensures Filled(run[|run| - 1].cells) == OfType(ParseFrom(buf, 0, |buf|, NoStatement).stmts, Build)
  {
    hide ParseFrom, Run, OfType, Filled, Flatten;
    var chunks := StatementsOf(buf, bounds);
    forall c | 0 <= c < |chunks| ensures Grouped(NoStatement, chunks[c]) {
      ParsedShape(buf, bounds[c].start, bounds[c].end, NoStatement);
    }
    EdgesInFileOrder(BuildGraph, chunks, run);
    FlattenParsed(buf, bounds);
    CutInvisible(buf, bounds);
  }

  // --------------------------------------------- the arenas behind the passes

  /** The counter that `alloc` sums for a pass. */
  function CounterOf(pass: Pass, counts: Counts): nat {
    if pass.Setup? then counts.nrule else counts.nbuild
  }

  /** The parser's counters are the numbers of cells the chunks will take. */
  lemma CountersAreCells(pass: Pass, buf: string, bounds: seq<Bounds>, counters: seq<nat>)
    requires forall k :: 0 <= k < |bounds| ==> ParseFrom(buf, bounds[k].start, bounds[k].end, NoStatement).Parsed?
    requires |counters| == |bounds|
    requires forall k :: 0 <= k < |bounds| ==>
               counters[k] == CounterOf(pass, ParseFrom(buf, bounds[k].start, bounds[k].end, NoStatement).counts)
    ensures counters == CellCounts(pass, StatementsOf(buf, bounds))
  {
    hide ParseFrom, OfType, Grouped;
    forall k | 0 <= k < |bounds|
      ensures counters[k] == |OfType(ParseFrom(buf, bounds[k].start, bounds[k].end, NoStatement).stmts, Owner(pass))|
    {
      ParsedShape(buf, bounds[k].start, bounds[k].end, NoStatement);
    }
  }

  /** `alloc` on the counters of the parsed chunks gives each goroutine of the
      pass exactly its cells. */
  method AllocPass(pass: Pass, ghost buf: string, ghost bounds: seq<Bounds>, counters: seq<nat>)
    returns (full: Arena, arenas: seq<Arena>)
    requires forall k :: 0 <= k < |bounds| ==> ParseFrom(buf, bounds[k].start, bounds[k].end, NoStatement).Parsed?
    requires |counters| == |bounds|
    requires forall k :: 0 <= k < |bounds| ==>
               counters[k] == CounterOf(pass, ParseFrom(buf, bounds[k].start, bounds[k].end, NoStatement).counts)
    ensures |arenas| == |bounds| && full.next == full.cap == Base(pass, StatementsOf(buf, bounds), |bounds|)
    ensures var chunks := StatementsOf(buf, bounds);
            forall c :: 0 <= c < |chunks| ==> Given(arenas[c], Base(pass, chunks, c), |OfType(chunks[c], Owner(pass))|)
  {
    hide ParseFrom, OfType, Sum;
    CountersAreCells(pass, buf, bounds, counters);
    full, arenas := Alloc(counters);
    assert counters[..|counters|] == counters;
  }

  /** The cell that a goroutine takes in a step is the one its arena hands out,
      and the arena has one to hand out. */
  method TakeCell(pass: Pass, chunks: seq<seq<Statement>>, g: Graph, c: nat, arena: Arena) returns (g': Graph)
    requires |g.threads| == |chunks| && c < |chunks| && g.threads[c].i < |chunks[c]|
    requires NextMove(pass, chunks[c], g.threads[c]) == Take
    requires arena.base == Base(pass, chunks, c) && arena.cap == |OfType(chunks[c], Owner(pass))|
    requires arena.next == g.threads[c].next
    modifies arena
    ensures Steps(pass, chunks, g, c, g') && arena.next == g'.threads[c].next
  {
    hide OfType, Base;
    var stmts, t := chunks[c], g.threads[c];
    var cell := arena.New();
    var taken := if pass.Setup? then CountStatement(stmts, t.i + 1, RuleVar) else 0;
    g' := g.(threads := g.threads[c := t.(next := t.next + 1, bindings := t.bindings + taken, pending := Some(cell))]);
  }
}
