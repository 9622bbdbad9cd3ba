/** The deps log object: `NewDepsLog`, `Record`, `Get`, `Reset` and `Recompact`
    over the file bytes, the in-memory tables and the read view. */
module DepsLogs {
  import opened Wrappers
  import opened GoInts
  import opened DepsFormat
  import opened DepsLogSpec

  datatype RecordError = TooLargeRecord | Panic

  const MIN_COMPACTION_ENTRY_COUNT := 1000
  const COMPACTION_RATIO := 3

  // what `update` grows the table to for the last output below the overflow
  const LARGEST_TABLE := TableCap(OVERFLOW_OUTPUT)

  function NeedsRecompact(r: Reader, broken: bool): bool {
    || broken
    || (r.total > MIN_COMPACTION_ENTRY_COUNT && r.total > r.unique * COMPACTION_RATIO)
    || r.total == 0
  }

  /** The int32 arithmetic of `update`: how long the table of `n` entries becomes
      for an output behind it, and what capacity it asks for. */
  function NewLen(out: int): int {
    ToInt32(out + 1)
  }

  function NewCap(out: int): int {
    ToInt32(Quotient(ToInt32(out + 100), 100) * 100)
  }

  lemma GrowthFits(out: int, n: nat)
    requires n <= out < TWO_31 && TableCap(n) <= LARGEST_TABLE
    ensures out < TableCap(n) ==> NewLen(out) == out + 1 && TableCap(out + 1) == TableCap(n)
    ensures NewLen(out) < 0 || NewCap(out) < NewLen(out) <==> OVERFLOW_OUTPUT <= out
    ensures out < OVERFLOW_OUTPUT ==> NewLen(out) == out + 1 <= NewCap(out) == TableCap(out + 1) <= LARGEST_TABLE
  {
    hide NewCap;
    NewCapIs(out);
  }

  /** From the overflow on the capacity asked for is negative. */
  lemma NewCapIs(out: nat)
    requires out < TWO_31
    ensures if out < OVERFLOW_OUTPUT then NewCap(out) == TableCap(out + 1) else NewCap(out) < 0
  {
    hide TableCap;
    var sum := ToInt32(out + 100);
    assert sum == if out < OVERFLOW_OUTPUT then out + 100 else out + 100 - TWO_32;
    if out < OVERFLOW_OUTPUT {
      NextCap(out);
    }
  }

  lemma NextCap(out: nat)
    ensures TableCap(out + 1) == (out + 100) / 100 * 100
  {
  }

  /** Appending a valid record to a history. */
  lemma AppendRec(recs: seq<Rec>, rec: Rec)
    requires ValidRecs(recs) && ValidRec(rec, PathCount(recs), DepsCount(recs))
    ensures ValidRecs(recs + [rec])
    ensures FileOf(recs + [rec]) == FileOf(recs) + Encode(rec, PathCount(recs))
    ensures ApplyAll(recs + [rec]) == Apply(rec, ApplyAll(recs))
  {
    hide Encode, Apply;
    var more := recs + [rec];
    assert more[..|more| - 1] == recs;
    assert FILE_HEADER + (EncodeAll(recs) + Encode(rec, PathCount(recs)))
        == (FILE_HEADER + EncodeAll(recs)) + Encode(rec, PathCount(recs));
  }

  lemma FitConcat(a: seq<Rec>, b: seq<Rec>)
    ensures AllFit(a + b) <==> AllFit(a) && AllFit(b)
  {
    if AllFit(a + b) {
      assert forall k :: 0 <= k < |a| ==> a[k] == (a + b)[k];
      assert forall k :: 0 <= k < |b| ==> b[k] == (a + b)[|a| + k];
    }
  }

  lemma FitPrefix(a: seq<Rec>, b: seq<Rec>)
    requires a <= b
    ensures AllFit(b) ==> AllFit(a)
  {
    assert forall k :: 0 <= k < |a| ==> a[k] == b[k];
  }

  lemma FitsDeps(out: nat, mtime: int64, ids: seq<nat>)
    ensures Fits(DepsRec(out, mtime, ids)) <==> DepsRecordSize(|ids|) <= MAX_RECORD_SIZE
  {
  }

  ghost predicate IdsMatch(log: LogState, ps: seq<Path>, ids: seq<nat>) {
    && |ps| == |ids|
    && forall j :: 0 <= j < |ps| ==> ps[j] in log.pathIdx && ids[j] == log.pathIdx[ps[j]]
  }

  lemma IdsMatchSnoc(log: LogState, ps: seq<Path>, ids: seq<nat>, p: Path)
    requires IdsMatch(log, ps, ids)
    ensures var log' := InternPath(log, p);
            p in log'.pathIdx && IdsMatch(log', ps + [p], ids + [log'.pathIdx[p]])
  {
  }

  function Prefix<T>(first: T, rest: seq<T>, k: nat): seq<T>
    requires k <= |rest|
  {
    [first] + rest[..k]
  }

  lemma PrefixStep<T>(first: T, rest: seq<T>, k: nat)
    requires k <= |rest|
    ensures Prefix(first, rest, 0) == [] + [first] <= [first] + rest
    ensures k == |rest| ==> Prefix(first, rest, k) == [first] + rest
    ensures k < |rest| ==> Prefix(first, rest, k + 1) == Prefix(first, rest, k) + [rest[k]] <= [first] + rest
  {
  }

  lemma PrefixGrow<T>(first: T, rest: seq<T>, last: T)
    ensures Prefix(first, rest + [last], |rest| + 1) == Prefix(first, rest, |rest|) + [last]
  {
  }

  /** Which step of the interning loop fails. */
  lemma InterningFit(log: LogState, done: seq<Path>, p: Path, ps: seq<Path>)
    requires WfLog(log) && done + [p] <= ps
    ensures AllFit(NewPathRecs(log, done + [p])) <==>
              && AllFit(NewPathRecs(log, done))
              && (p !in InternAll(log, done).pathIdx ==> Fits(PathRec(p)))
    ensures AllFit(NewPathRecs(log, ps)) ==> AllFit(NewPathRecs(log, done + [p]))
  {
    hide InternAll, NewPathRecs, Fits;
    Interning(log, done, p, ps);
    var pre, rec := NewPathRecs(log, done), [PathRec(p)];
    FitConcat(pre, rec);
    assert AllFit(rec) <==> Fits(rec[0]);
    assert pre + [] == pre;
    FitPrefix(NewPathRecs(log, done + [p]), NewPathRecs(log, ps));
  }

  /** How `Record`'s result is put together from the interned log. */
  lemma RecordParts(log: LogState, output: Path, mtime: int64, inputs: seq<Path>)
    requires WfLog(log)
    ensures var ps := [output] + inputs;
            var log' := InternAll(log, ps);
            var pre := NewPathRecs(log, ps);
            && WfLog(log')
            && output in log'.pathIdx && log'.pathIdx[output] < |log'.paths|
            && (forall k :: 0 <= k < |inputs| ==> inputs[k] in log'.pathIdx)
            && (WillUpdate(log, output, mtime, inputs) <==>
                  |log'.paths| != |log.paths| || Stored(log', log'.pathIdx[output]) != Some(DepsRecord(mtime, inputs)))
            && (RecordPanics(log, output, mtime, inputs) <==>
                  WillUpdate(log, output, mtime, inputs) && UpdatePanics(log'.pathIdx[output], |log'.deps|))
            && (AllFit(NewRecs(log, output, mtime, inputs)) <==>
                  AllFit(pre)
                  && (WillUpdate(log, output, mtime, inputs) ==> DepsRecordSize(|inputs|) <= MAX_RECORD_SIZE))
            && (if WillUpdate(log, output, mtime, inputs) then
                  && NewRecs(log, output, mtime, inputs) ==
                     pre + [DepsRec(log'.pathIdx[output], mtime, IdsOf(log', inputs))]
                  && Recorded(log, output, mtime, inputs) ==
                     log'.(deps := SetDeps(log'.deps, log'.pathIdx[output], DepsRecord(mtime, inputs)))
                else
                  log' == log && pre == [] && NewRecs(log, output, mtime, inputs) == []
                  && Recorded(log, output, mtime, inputs) == log)
  {
    var ps := [output] + inputs;
    InternAllFacts(log, ps);
    NewRecsFit(log, output, mtime, inputs);
    assert ps[0] == output;
    assert forall k :: 0 <= k < |inputs| ==> inputs[k] == ps[k + 1];
    if !WillUpdate(log, output, mtime, inputs) {
      NothingNew(log, output, mtime, inputs);
    }
  }

  lemma NothingNew(log: LogState, output: Path, mtime: int64, inputs: seq<Path>)
    requires WfLog(log) && !WillUpdate(log, output, mtime, inputs)
    ensures NewRecs(log, output, mtime, inputs) == NewPathRecs(log, [output] + inputs) == []
    ensures Recorded(log, output, mtime, inputs) == log == InternAll(log, [output] + inputs)
  {
    var ps := [output] + inputs;
    InternAllFacts(log, ps);
    NoNewPathRecs(log, ps);
  }

  lemma {:induction false} NoNewPathRecs(log: LogState, ps: seq<Path>)
    requires WfLog(log) && InternAll(log, ps).paths == log.paths
    ensures NewPathRecs(log, ps) == []
  {
    if ps != [] {
      var init := ps[..|ps| - 1];
      InternAllFacts(log, init);
      NoNewPathRecs(log, init);
    }
  }

  /** The history after a new path's record. */
  lemma PathAppended(recs: seq<Rec>, log: LogState, path: Path)
    requires ValidRecs(recs) && log == ApplyAll(recs).log && WfLog(log)
    requires path !in log.pathIdx && Fits(PathRec(path)) && |log.paths| < TWO_31
    ensures var rec := PathRec(path);
            && ValidRecs(recs + [rec])
            && FileOf(recs + [rec]) == FileOf(recs) + EncodePath(path, |log.paths|)
            && ApplyAll(recs + [rec]).log == AddPath(log, path)
            && WfLog(AddPath(log, path))
  {
    hide FileOf, EncodePath;
    AppendRec(recs, PathRec(path));
  }

  /** The history after the deps record of a `Record` call. */
  lemma {:induction false} DepsAppended(recs: seq<Rec>, log: LogState, i: nat, mtime: int64, ids: seq<nat>,
          inputs: seq<Path>)
    requires ValidRecs(recs) && log == ApplyAll(recs).log && WfLog(log) && |log.paths| <= TWO_31
    requires i < |log.paths| && DepsRecordSize(|ids|) <= MAX_RECORD_SIZE && !UpdatePanics(i, |log.deps|)
    requires |ids| == |inputs|
    requires forall j :: 0 <= j < |inputs| ==> inputs[j] in log.pathIdx && ids[j] == log.pathIdx[inputs[j]]
    ensures var rec := DepsRec(i, mtime, ids);
            && ValidRecs(recs + [rec])
            && FileOf(recs + [rec]) == FileOf(recs) + EncodeDeps(i, mtime, ids)
            && ApplyAll(recs + [rec]).log == log.(deps := SetDeps(log.deps, i, DepsRecord(mtime, inputs)))
            && WfLog(log.(deps := SetDeps(log.deps, i, DepsRecord(mtime, inputs))))
  {
    hide FileOf, EncodeDeps;
    AppendRec(recs, DepsRec(i, mtime, ids));
    assert PathsOf(log.paths, ids) == inputs;
  }

  class DepsLog {
    var file: Bytes  // the bytes on disk
    ghost var recs: seq<Rec>  // the records they encode

    var paths: seq<Path>
    var pathIdx: map<Path, nat>
    var deps: array<Option<DepsRecord>>  // the slice's backing array
    var numDeps: nat  // the slice's length

    // read view
    var rPaths: seq<Path>
    var rPathIdx: map<Path, nat>
    var rDeps: array<Option<DepsRecord>>  // may be `deps` itself
    var rNumDeps: nat

    var needsRecompact: bool

    ghost predicate Shape()
      reads this, deps, rDeps
    {
      && numDeps <= deps.Length
      && deps.Length == TableCap(numDeps) <= LARGEST_TABLE
      && (forall j :: numDeps <= j < deps.Length ==> deps[j] == None)
      && rNumDeps <= rDeps.Length
      && (rDeps == deps ==> rNumDeps <= numDeps)
    }

    ghost function State(): LogState
      reads this, deps
    {
      LogState(paths, pathIdx, if numDeps <= deps.Length then deps[..numDeps] else [])
    }

    ghost function View(): LogState
      reads this, rDeps
    {
      LogState(rPaths, rPathIdx, if rNumDeps <= rDeps.Length then rDeps[..rNumDeps] else [])
    }

    /** File, history and memory agree. */
    ghost predicate Valid()
      reads this, deps, rDeps
    {
      && Shape()
      && ValidRecs(recs)
      && file == FileOf(recs)
      && State() == ApplyAll(recs).log
      && WfLog(State())
    }

    /** A log over a newly created file. */
    constructor ()
      ensures Valid() && fresh(deps) && fresh(rDeps)
      ensures State() == EMPTY_LOG && View() == EMPTY_LOG && file == FILE_HEADER && recs == []
      ensures deps == rDeps && !needsRecompact
    {
      file, recs := FILE_HEADER, [];
      paths, pathIdx, numDeps := [], map[], 0;
      rPaths, rPathIdx, rNumDeps := [], map[], 0;
      var empty := new Option<DepsRecord>[0];
      deps, rDeps := empty, empty;
      needsRecompact := false;
      new;
      assert file == FILE_HEADER + [];
    }

    /** `update`: store the record of output `outID`, growing the slice. Its
        arithmetic is in int32, and its answer is void when it panics. */
    method Update(outID: int, rec: DepsRecord) returns (existed: bool, panics: bool)
      requires Shape() && -TWO_31 <= outID < TWO_31
      modifies this`deps, this`numDeps, deps
      ensures Shape()
      ensures panics == UpdatePanics(outID, old(numDeps))
      ensures panics ==> State() == old(State()) && View() == old(View()) && deps == old(deps)
      ensures !panics ==>
                && existed == (outID < old(numDeps))
                && deps[..numDeps] == SetDeps(old(deps[..numDeps]), outID, rec)
      ensures deps == old(deps) || fresh(deps)
      // the read view shares the backing array, and sees an overwritten entry
      ensures rDeps[..rNumDeps] ==
              if !panics && rDeps == old(deps) && outID < rNumDeps then old(rDeps[..rNumDeps])[outID := Some(rec)]
              else old(rDeps[..rNumDeps])
    {
      hide TableCap, NewLen, NewCap;
      existed := outID < numDeps;
      if !existed {
        GrowthFits(outID, numDeps);
        var newLen := NewLen(outID);
        if outID < deps.Length {
          numDeps := newLen;
        } else {
          var newCap := NewCap(outID);
          if newLen < 0 || newCap < newLen {
            return existed, true;
          }
          var grown := new Option<DepsRecord>[newCap](_ => None);
          forall j | 0 <= j < numDeps {
            grown[j] := deps[j];
          }
          deps, numDeps := grown, newLen;
        }
      }
      if outID < 0 {
        return existed, true;
      }
      deps[outID] := Some(rec);
      panics := false;
    }

    /** The read loop of `NewDepsLog` over the bytes of an existing file; this
        log is newly constructed. Answers whether the process crashed. */
    method Load(f: Bytes, ghost history: seq<Rec>) returns (crashed: bool)
      requires Valid() && State() == EMPTY_LOG && View() == EMPTY_LOG && file == FILE_HEADER && recs == []
      requires deps == rDeps && !needsRecompact
      modifies this, deps
      ensures Decode(f) == None ==>
                !crashed && Valid() && State() == EMPTY_LOG && file == FILE_HEADER && recs == [] && !needsRecompact
      ensures crashed <==> Decode(f) == Some(Crashed)
      ensures Decode(f).Some? && Decode(f).value.Loaded? ==>
                && Shape() && file == f
                && State() == Decode(f).value.r.log
                && needsRecompact == NeedsRecompact(Decode(f).value.r, Decode(f).value.broken)
      ensures !crashed ==> Shape() && View() == State() && WfView(View())
      // reading back a written history gives a log that agrees with its file
      ensures ValidRecs(history) && ReadableRecs(history) && WfLog(ApplyAll(history).log) && f == FileOf(history) ==>
                !crashed && Valid() && recs == history
    {
      hide FileOf, ApplyAll, ValidRecs, ReadableRecs, ReadLoop, WfLog, WfView, InputsRecorded, NeedsRecompact;
      if ValidRecs(history) && ReadableRecs(history) && WfLog(ApplyAll(history).log) && f == FileOf(history) {
        LoadedHistory(history);
      }
      LoadedIsView(f);
      EmptyIsView();
      if |f| < 16 || f[..16] != FILE_HEADER {
        return false;
      }
      var total, unique, broken;
      total, unique, broken, crashed := ReadRecords(f);
      if crashed {
        return;
      }
      Open(f, total, unique, broken, history);
    }

    /** After the read loop: whether to compact, and what the readers see. */
    method Open(f: Bytes, total: nat, unique: nat, broken: bool, ghost history: seq<Rec>)
      requires Shape()
      modifies this`file, this`recs, this`needsRecompact, this`rPaths, this`rPathIdx, this`rDeps, this`rNumDeps
      ensures Shape() && View() == State() == old(State()) && file == f && recs == history
      ensures needsRecompact == NeedsRecompact(Reader(State(), total, unique), broken)
    {
      file := f;
      needsRecompact :=
        broken || (total > MIN_COMPACTION_ENTRY_COUNT && total > unique * COMPACTION_RATIO) || total == 0;
      rPaths, rPathIdx, rDeps, rNumDeps := paths, pathIdx, deps, numDeps;
      recs := history;
    }

    /** The loop itself: read records until the end of the file or an error. */
    method ReadRecords(f: Bytes) returns (total: nat, unique: nat, broken: bool, crashed: bool)
      requires |f| >= 16
      requires Shape() && State() == EMPTY_LOG && rNumDeps == 0
      modifies this`paths, this`pathIdx, this`deps, this`numDeps, deps
      ensures Shape()
      ensures deps == old(deps) || fresh(deps)
      ensures ReadLoop(f, 16, EMPTY_READER) ==
              if crashed then Crashed else Loaded(Reader(State(), total, unique), broken)
    {
      hide ReadStep, AddDeps, StepOf;
      var off := 16;
      total, unique, broken, crashed := 0, 0, false, false;
      ghost var outcome := ReadLoop(f, 16, EMPTY_READER);
      while true
        invariant 16 <= off <= |f|
        invariant Shape() && rNumDeps == 0
        invariant deps == old(deps) || fresh(deps)
        invariant outcome == ReadLoop(f, off, Reader(State(), total, unique))
        invariant !broken && !crashed
        decreases |f| - off
      {
        ghost var r := Reader(State(), total, unique);
        var item := ReadNext(f, off);
        if item.AtEof? || item.AtBroken? || item.AtCrash? {
          broken, crashed := item.AtBroken?, item.AtCrash?;
          StopsAt(item, r);
          return;
        }
        var added;
        added, crashed := Store(item, r);
        if crashed {
          return;
        }
        total := if item.ReadDeps? then total + 1 else total;
        unique := if item.ReadDeps? && added then unique + 1 else unique;
        off := item.next;
      }
    }

    /** The read loop's effect of one parsed record. */
    method Store(item: Item, ghost r: Reader) returns (added: bool, panics: bool)
      requires item.ReadSkipped? || item.ReadDeps? || item.ReadPath?
      requires item.ReadDeps? ==> -TWO_31 <= item.out < TWO_31
      requires Shape() && State() == r.log && rNumDeps == 0
      modifies this`paths, this`pathIdx, this`deps, this`numDeps, deps
      ensures Shape()
      ensures deps == old(deps) || fresh(deps)
      ensures panics == (item.ReadDeps? && UpdatePanics(item.out, old(numDeps)))
      ensures panics ==> StepOf(item, r) == Crash
      ensures !panics ==>
                && added == (item.ReadDeps? && item.out >= old(numDeps))
                && StepOf(item, r) ==
                   Next(item.next, Reader(State(), if item.ReadDeps? then r.total + 1 else r.total,
                                          if added then r.unique + 1 else r.unique))
    {
      hide SetDeps;
      added, panics := false, false;
      match item {
        case ReadDeps(_, out, rec) =>
          var existed;
          existed, panics := Update(out, rec);
          added := !existed;
        case ReadPath(_, path) =>
          pathIdx := pathIdx[path := |paths|];
          paths := paths + [path];
        case _ =>
      }
    }

    /** One record at `off`, parsed but not yet stored. */
    method ReadNext(f: Bytes, off: nat) returns (item: Item)
      requires off <= |f|
      ensures forall r: Reader :: r.log.paths == paths ==> ReadStep(f, off, r) == StepOf(item, r)
      ensures item.ReadSkipped? || item.ReadDeps? || item.ReadPath? ==> off < item.next <= |f|
      ensures item.ReadDeps? ==> -TWO_31 <= item.out < TWO_31
    {
      hide GetInt32, GetInt32s, LookupPaths, RecordSize, IsDepsRecord, StripPadding, JoinMtime;
      if off == |f| {
        return AtEof;
      }
      if |f| - off < 4 {
        return AtBroken;
      }
      var header := GetInt32(f[off..off + 4]);
      var size := RecordSize(header);
      if size > MAX_RECORD_SIZE || |f| - (off + 4) < size || off + 4 == |f| {
        return AtBroken;
      }
      var next := off + 4 + size;
      var buf := f[off + 4..next];
      if IsDepsRecord(header) {
        match ReadDepsRecord(buf, paths)
        case Short => return AtCrash;
        case Invalid => return ReadSkipped(next);
        case Parsed(out, rec) =>
          OutputInRange(buf, paths);
          return if out == -1 then ReadSkipped(next) else ReadDeps(next, out, rec);
      } else {
        match ReadPathRecord(buf, |paths|)
        case None => return AtBroken;
        case Some(path) => return ReadPath(next, path);
      }
    }

    /** `uniquePathIdx`. */
    method UniquePathIdx(path: Path) returns (i: nat, added: bool)
      requires numDeps <= deps.Length
      modifies this`paths, this`pathIdx
      ensures added == (path !in old(pathIdx))
      ensures State() == InternPath(old(State()), path)
      ensures path in pathIdx && i == pathIdx[path]
      ensures added ==> i == |old(paths)|
    {
      if path in pathIdx {
        return pathIdx[path], false;
      }
      paths := paths + [path];
      i := |paths| - 1;
      pathIdx := pathIdx[path := i];
      added := true;
    }

    /** `recordPath`: append the path record, if it fits. */
    method RecordPath(i: nat, path: Path) returns (ok: bool)
      modifies this`file
      ensures ok == Fits(PathRec(path))
      ensures file == if ok then old(file) + EncodePath(path, i) else old(file)
    {
      var pathSize := |path|;
      var padding := (4 - pathSize % 4) % 4;
      var size := pathSize + padding + 4;
      if size > MAX_RECORD_SIZE {
        return false;
      }
      var buf := PutInt32(size);
      buf := buf + path;
      buf := buf + Zeros(padding);
      buf := buf + PutInt32(Complement(i));
      assert buf == EncodePath(path, i);
      file := file + buf;
      ok := true;
    }

    /** `recordDeps`: append the deps record, if it fits. */
    method RecordDeps(i: nat, mtime: int64, inputs: seq<nat>) returns (ok: bool)
      modifies this`file
      ensures ok == Fits(DepsRec(i, mtime, inputs))
      ensures file == if ok then old(file) + EncodeDeps(i, mtime, inputs) else old(file)
    {
      var size := 4 + 4 + 4 + 4 * |inputs|;
      if size > MAX_RECORD_SIZE {
        return false;
      }
      var buf := PutInt32(DepsHeader(size));
      buf := buf + PutInt32s([i, MtimeLo(mtime), MtimeHi(mtime)] + inputs);
      file := file + buf;
      ok := true;
    }

    /** Intern one path and write its record when it is new. */
    method InternAndWrite(path: Path) returns (i: nat, added: bool, ok: bool)
      requires Valid()
      requires |InternPath(State(), path).paths| <= TWO_31
      modifies this`paths, this`pathIdx, this`file, this`recs
      ensures State() == InternPath(old(State()), path) && path in pathIdx && i == pathIdx[path]
      ensures added == (path !in old(pathIdx)) && |paths| == |old(paths)| + if added then 1 else 0
      ensures ok == (added ==> Fits(PathRec(path)))
      ensures ok ==> Valid() && recs == old(recs) + if added then [PathRec(path)] else []
      ensures Shape()
    {
      hide FileOf, EncodePath, ApplyAll, ValidRecs, WfLog, Fits;
      ghost var log := State();
      i, added := UniquePathIdx(path);
      ok := true;
      if added {
        ok := RecordPath(i, path);
        if ok {
          PathAppended(recs, log, path);
          recs := recs + [PathRec(path)];
        }
      }
    }

    /** `Record`: intern the output and the inputs, writing a path record for
        each new one, then write the deps record when anything changed. It fails
        iff some record of its own is too large, when memory runs ahead of the
        file, as in the source, or its table cannot grow to the output. */
    method Record(output: Path, mtime: int64, inputs: seq<Path>) returns (r: Result<bool, RecordError>)
      requires Valid()
      requires |InternAll(State(), [output] + inputs).paths| <= TWO_31
      modifies this`paths, this`pathIdx, this`deps, this`numDeps, this`file, this`recs, deps
      ensures r.Success? <==> && AllFit(NewRecs(old(State()), output, mtime, inputs))
                              && !RecordPanics(old(State()), output, mtime, inputs)
      ensures r == Failure(Panic) <==> && AllFit(NewPathRecs(old(State()), [output] + inputs))
                                       && RecordPanics(old(State()), output, mtime, inputs)
      ensures r.Success? ==>
                && Valid()
                && State() == Recorded(old(State()), output, mtime, inputs)
                && recs == old(recs) + NewRecs(old(State()), output, mtime, inputs)
                && r.value == WillUpdate(old(State()), output, mtime, inputs)
      ensures deps == old(deps) || fresh(deps)
    {
      hide FileOf, ApplyAll, NewRecs, NewPathRecs, InternAll, ValidRecs, WfLog, Recorded, WillUpdate, AllFit, SetDeps,
        UpdatePanics;
      ghost var log, recs0 := State(), recs;
      RecordParts(log, output, mtime, inputs);
      var i, depIDs, willUpdate, ok := InternAndWriteAll(output, inputs);
      if !ok {
        return Failure(TooLargeRecord);
      }
      if !willUpdate {
        willUpdate := StoredDiffers(i, mtime, inputs);
      }
      if !willUpdate {
        assert recs == recs0;
        return Success(false);
      }
      r := StoreAndWrite(i, mtime, depIDs, inputs);
      if r.Failure? {
        return;
      }
      assert depIDs == IdsOf(InternAll(log, [output] + inputs), inputs);
      assert recs == recs0 + (NewPathRecs(log, [output] + inputs) + [DepsRec(i, mtime, depIDs)]);
    }

    /** The second half of `Record`: store the deps in memory and write them. */
    method StoreAndWrite(i: nat, mtime: int64, depIDs: seq<nat>, inputs: seq<Path>)
      returns (r: Result<bool, RecordError>)
      requires Valid() && i < |paths| <= TWO_31
      requires |depIDs| == |inputs|
      requires forall j :: 0 <= j < |inputs| ==> inputs[j] in pathIdx && depIDs[j] == pathIdx[inputs[j]]
      modifies this`deps, this`numDeps, this`file, this`recs, deps
      ensures Shape()
      ensures r == if UpdatePanics(i, old(numDeps)) then Failure(Panic)
                   else if DepsRecordSize(|inputs|) > MAX_RECORD_SIZE then Failure(TooLargeRecord)
                   else Success(true)
      ensures r != Failure(Panic) ==>
                State() == old(State()).(deps := SetDeps(old(State()).deps, i, DepsRecord(mtime, inputs)))
      ensures r.Success? ==> Valid() && recs == old(recs) + [DepsRec(i, mtime, depIDs)]
      ensures deps == old(deps) || fresh(deps)
    {
      hide FileOf, ApplyAll, ValidRecs, EncodeDeps, WfLog, SetDeps, Fits, UpdatePanics, TableCap;
      ghost var log := State();
      var _, panics := Update(i, DepsRecord(mtime, inputs));
      if panics {
        return Failure(Panic);
      }
      var ok := WriteDeps(i, mtime, depIDs, inputs, log);
      r := if ok then Success(true) else Failure(TooLargeRecord);
    }

    /** The deps record of an entry that `log` does not have yet. */
    method WriteDeps(i: nat, mtime: int64, depIDs: seq<nat>, inputs: seq<Path>, ghost log: LogState)
      returns (ok: bool)
      requires ValidRecs(recs) && file == FileOf(recs) && log == ApplyAll(recs).log && WfLog(log)
      requires i < |log.paths| <= TWO_31 && !UpdatePanics(i, |log.deps|)
      requires |depIDs| == |inputs|
      requires forall j :: 0 <= j < |inputs| ==> inputs[j] in log.pathIdx && depIDs[j] == log.pathIdx[inputs[j]]
      modifies this`file, this`recs
      ensures ok == (DepsRecordSize(|inputs|) <= MAX_RECORD_SIZE)
      ensures ok ==>
                && recs == old(recs) + [DepsRec(i, mtime, depIDs)]
                && ValidRecs(recs) && file == FileOf(recs)
                && ApplyAll(recs).log == log.(deps := SetDeps(log.deps, i, DepsRecord(mtime, inputs)))
                && WfLog(ApplyAll(recs).log)
    {
      hide FileOf, ApplyAll, ValidRecs, EncodeDeps, WfLog, SetDeps, Fits, UpdatePanics, TableCap;
      ok := RecordDeps(i, mtime, depIDs);
      FitsDeps(i, mtime, depIDs);
      if ok {
        DepsAppended(recs, log, i, mtime, depIDs, inputs);
        recs := recs + [DepsRec(i, mtime, depIDs)];
      }
    }

    /** The first half of `Record`: intern the output and each input in turn. */
    method InternAndWriteAll(output: Path, inputs: seq<Path>)
      returns (i: nat, depIDs: seq<nat>, willUpdate: bool, ok: bool)
      requires Valid()
      requires |InternAll(State(), [output] + inputs).paths| <= TWO_31
      modifies this`paths, this`pathIdx, this`file, this`recs
      ensures ok <==> AllFit(NewPathRecs(old(State()), [output] + inputs))
      ensures ok ==>
                && Valid()
                && State() == InternAll(old(State()), [output] + inputs)
                && recs == old(recs) + NewPathRecs(old(State()), [output] + inputs)
                && willUpdate == (|paths| != |old(paths)|)
                && output in pathIdx && i == pathIdx[output]
                && |depIDs| == |inputs|
                && (forall j :: 0 <= j < |inputs| ==> inputs[j] in pathIdx && depIDs[j] == pathIdx[inputs[j]])
      ensures Shape()
    {
      hide Interned, InternAll, NewPathRecs, AllFit, WfLog, Valid, Shape, Prefix;
      ghost var log, ps, recs0 := State(), [output] + inputs, recs;
      InternStart(log);
      PrefixStep(output, inputs, 0);
      depIDs := [];
      i, willUpdate, ok := InternNext(output, log, [], ps, recs0, []);
      if !ok {
        return;
      }
      PrefixStep(i, depIDs, 0);
      for k := 0 to |inputs|
        invariant |depIDs| == k && ok && Shape()
        invariant Interned(log, Prefix(output, inputs, k), recs0, Prefix(i, depIDs, k))
        invariant |log.paths| <= |paths| && willUpdate == (|paths| != |log.paths|)
      {
        PrefixStep(output, inputs, k);
        var di, added;
        di, added, ok := InternNext(inputs[k], log, Prefix(output, inputs, k), ps, recs0, Prefix(i, depIDs, k));
        if !ok {
          return;
        }
        willUpdate := willUpdate || added;
        PrefixGrow(i, depIDs, di);
        depIDs := depIDs + [di];
      }
      PrefixStep(output, inputs, |inputs|);
      PrefixStep(i, depIDs, |inputs|);
      InternEnd(log, output, inputs, recs0, i, depIDs);
    }

    /** The paths `done` are interned into `log`, with these ids, and written
        after `recs0`. */
    ghost predicate Interned(log: LogState, done: seq<Path>, recs0: seq<Rec>, ids: seq<nat>)
      reads this, deps, rDeps
    {
      && Valid()
      && WfLog(log)
      && State() == InternAll(log, done)
      && recs == recs0 + NewPathRecs(log, done)
      && AllFit(NewPathRecs(log, done))
      && IdsMatch(State(), done, ids)
    }

    lemma InternStart(log: LogState)
      requires Valid() && log == State()
      ensures Interned(log, [], recs, []) && Shape()
    {
      assert recs + [] == recs;
    }

    lemma {:induction false} InternEnd(log: LogState, output: Path, inputs: seq<Path>, recs0: seq<Rec>, i: nat,
            depIDs: seq<nat>)
      requires Interned(log, [output] + inputs, recs0, [i] + depIDs)
      ensures Valid() && State() == InternAll(log, [output] + inputs)
      ensures recs == recs0 + NewPathRecs(log, [output] + inputs)
      ensures AllFit(NewPathRecs(log, [output] + inputs))
      ensures output in pathIdx && i == pathIdx[output]
      ensures |depIDs| == |inputs|
      ensures forall j :: 0 <= j < |inputs| ==> inputs[j] in pathIdx && depIDs[j] == pathIdx[inputs[j]]
    {
      hide InternAll, NewPathRecs, AllFit, WfLog, Valid;
      var ps, ids := [output] + inputs, [i] + depIDs;
      assert ps[0] == output && ids[0] == i;
      assert forall j :: 0 <= j < |inputs| ==> ps[j + 1] == inputs[j];
      assert forall j :: 0 <= j < |depIDs| ==> ids[j + 1] == depIDs[j];
    }

    /** One turn of the interning loop. */
    method InternNext(path: Path, ghost log: LogState, ghost done: seq<Path>, ghost ps: seq<Path>,
                      ghost recs0: seq<Rec>, ghost ids: seq<nat>)
      returns (i: nat, added: bool, ok: bool)
      requires done + [path] <= ps && Interned(log, done, recs0, ids)
      requires |InternAll(log, ps).paths| <= TWO_31
      modifies this`paths, this`pathIdx, this`file, this`recs
      ensures ok ==> Interned(log, done + [path], recs0, ids + [i])
      ensures !ok ==> !AllFit(NewPathRecs(log, ps))
      ensures Shape()
      ensures |old(paths)| <= |paths| && added == (|paths| != |old(paths)|)
    {
      hide FileOf, ApplyAll, Fits, AllFit, ValidRecs, InternAll, InternPath, NewPathRecs, WfLog, Valid, IdsMatch;
      Interning(log, done, path, ps);
      InterningFit(log, done, path, ps);
      IdsMatchSnoc(State(), done, ids, path);
      ghost var pre := NewPathRecs(log, done);
      assert State() == InternAll(log, done) && recs == recs0 + pre && State().pathIdx == pathIdx;
      i, added, ok := InternAndWrite(path);
      if ok {
        ghost var more := if added then [PathRec(path)] else [];
        assert recs == (recs0 + pre) + more == recs0 + (pre + more);
      }
    }

    /** "Verify the stored record": does it differ from the one to record? */
    method StoredDiffers(i: nat, mtime: int64, inputs: seq<Path>) returns (differs: bool)
      requires Shape()
      ensures differs == (Stored(State(), i) != Some(DepsRecord(mtime, inputs)))
    {
      if i >= numDeps || deps[i] == None {
        return true;
      }
      var dr := deps[i].value;
      if |inputs| != |dr.inputs| {
        return true;
      }
      if mtime != dr.mtime {
        return true;
      }
      differs := false;
      for k := 0 to |dr.inputs|
        invariant differs == (dr.inputs[..k] != inputs[..k])
      {
        assert dr.inputs[..k + 1] == dr.inputs[..k] + [dr.inputs[k]];
        assert inputs[..k + 1] == inputs[..k] + [inputs[k]];
        if dr.inputs[k] != inputs[k] {
          differs := true;
        }
      }
      assert dr.inputs[..|dr.inputs|] == dr.inputs && inputs[..|inputs|] == inputs;
    }

    /** `Get` on the read view. */
    method GetDeps(output: Path) returns (r: Result<DepsRecord, GetError>)
      requires Shape()
      ensures r == Get(View(), output)
    {
      if output !in rPathIdx {
        return Failure(NoPath);
      }
      var i := rPathIdx[output];
      if i >= |rPaths| {
        return Failure(NoPathEntry);
      }
      if rPaths[i] != output {
        return Failure(InconsistentPath);
      }
      if i >= rNumDeps || rDeps[i] == None {
        return Failure(NoEntry);
      }
      r := Success(rDeps[i].value);
    }

    /** `Reset`: the recorded entries become visible; old index keys stay. */
    method Reset()
      requires Shape()
      modifies this`rPaths, this`rPathIdx, this`rDeps, this`rNumDeps
      ensures Shape()
      ensures View() == State().(pathIdx := old(rPathIdx) + pathIdx)
      ensures old(Valid()) ==> Valid() && WfView(View()) && Distinct(View())
    {
      hide FileOf, ApplyAll, ValidRecs, WfLog, WfView, Distinct, InputsRecorded;
      if Valid() {
        HistoryInputs(recs);
        LogIsView(State(), rPathIdx);
      }
      rPaths, rPathIdx, rDeps, rNumDeps := paths, rPathIdx + pathIdx, deps, numDeps;
    }

    /** `Recompact`: re-record the live entries of the read view into a new file
        and switch to it. Every output answers as before; the new file holds one
        deps record per live output, if its paths are distinct. It does not
        succeed iff some record is too large, some entry has no path, or the
        table of the new log cannot grow to an output. */
    method Recompact() returns (ok: bool)
      requires Shape() && WfView(View())
      modifies this
      ensures ok <==> && AllFit(CompactedRecs(old(View()), old(rNumDeps)))
                      && !CompactionPanics(old(View()), old(rNumDeps))
      ensures !ok ==> Shape() && View() == old(View()) && file == old(file) && State() == old(State())
      ensures ok ==>
                && Valid() && WfView(View()) && Distinct(View())
                && View() == CompactedView(old(View()))
                && State() == Compacted(old(View()), old(rNumDeps))
                && (forall p :: Get(old(View()), p).Success? ==> Get(View(), p) == Get(old(View()), p))
                && (forall p :: Get(old(View()), p).Failure? ==>
                      (Get(View(), p).Failure? <==> !Hides(old(View()), p)))
                && (Distinct(old(View())) ==>
                      && (forall p :: !Hides(old(View()), p))
                      && RecordedOutputs(recs, paths) == LiveOutputs(old(View()), old(rNumDeps)))
                && !needsRecompact
    {
      hide Compacted, CompactedRecs, Get, FileOf, ApplyAll, NewRecs, Recorded, InternAll, AllFit, ValidRecs, WfLog,
        RecordedOutputs, LiveOutputs,
        RecordPanics, CompactionPanics, TableCap, LastLive, Hides, Distinct, InputsRecorded, LastIndexed;
      ghost var view := View();
      var nd := new DepsLog();
      CompactedStart(view);
      CompactedSize(view);
      for i := 0 to rNumDeps
        invariant Shape() && View() == view && nd != this && fresh(nd) && fresh(nd.deps) && fresh(nd.rDeps)
        invariant nd.Valid()
        invariant nd.State() == Compacted(view, i)
        invariant nd.recs == CompactedRecs(view, i)
        invariant AllFit(nd.recs) && !CompactionPanics(view, i)
        invariant unchanged(this) && unchanged(deps) && unchanged(rDeps)
      {
        CompactedStep(view, i);
        if rDeps[i].Some? {
          if i >= |rPaths| {
            // `rPaths[i]` panics
            return false;
          }
          var rec := rDeps[i].value;
          ghost var log0, nd0 := nd.State(), nd.recs;
          FitConcat(nd0, NewRecs(log0, rPaths[i], rec.mtime, rec.inputs));
          var r := nd.Record(rPaths[i], rec.mtime, rec.inputs);
          if r.Failure? {
            FitPrefix(CompactedRecs(view, i + 1), CompactedRecs(view, rNumDeps));
            return false;
          }
        }
      }
      Adopt(nd);
      forall p {
        CompactionPreservesGet(view, p);
      }
      if Distinct(view) {
        OneRecordPerLiveOutput(view, |view.deps|);
      }
      ok := true;
    }

    /** Take over the compacted log: its tables as the read view, over the old
        index keys, and its file and tables. */
    method Adopt(nd: DepsLog)
      requires nd != this && nd.Valid()
      modifies this
      ensures Valid()
      ensures State() == old(nd.State()) && file == nd.file && recs == nd.recs
      ensures View() == State().(pathIdx := old(rPathIdx) + pathIdx)
      ensures !needsRecompact
    {
      hide FileOf, ApplyAll, ValidRecs, WfLog, TableCap;
      rPaths, rPathIdx, rDeps, rNumDeps := nd.paths, rPathIdx + nd.pathIdx, nd.deps, nd.numDeps;
      AdoptTables(nd);
      needsRecompact := false;
    }

    method AdoptTables(nd: DepsLog)
      requires nd != this && nd.Valid()
      requires rDeps == nd.deps && rNumDeps == nd.numDeps
      modifies this`file, this`recs, this`paths, this`pathIdx, this`deps, this`numDeps
      ensures Valid()
      ensures State() == old(nd.State()) && file == nd.file && recs == nd.recs
    {
      hide FileOf, ApplyAll, ValidRecs, WfLog, TableCap;
      file, recs := nd.file, nd.recs;
      paths, pathIdx, deps, numDeps := nd.paths, nd.pathIdx, nd.deps, nd.numDeps;
    }
  }

  /** The log answers as `log` does, and has no other answers. */
  ghost predicate AnswersAs(d: DepsLog, log: LogState)
    reads d, d.rDeps
  {
    forall p :: if Get(log, p).Success? then Get(d.View(), p) == Get(log, p) else Get(d.View(), p).Failure?
  }

  /** The records of a history that a file cut at `cut` holds whole. */
  ghost function Survivors(recs: seq<Rec>, cut: nat): seq<Rec> {
    if cut < 16 then [] else recs[..WholeRecords(recs, cut - 16)]
  }

  /** What is left of a log after a crash that cut its file. */
  lemma CutLog(recs: seq<Rec>, cut: nat)
    requires ValidRecs(recs) && ReadableRecs(recs) && WfLog(ApplyAll(recs).log) && cut <= |FileOf(recs)|
    ensures var left, f := Survivors(recs, cut), FileOf(recs)[..cut];
            && ValidRecs(left) && ReadableRecs(left)
            && WfLog(ApplyAll(left).log) && InputsRecorded(ApplyAll(left).log) && ViewFits(ApplyAll(left).log)
            && |ApplyAll(left).log.paths| <= TWO_31
            && (cut < 16 ==> Decode(f) == None)
            && (cut >= 16 ==> Decode(f) == Some(Loaded(ApplyAll(left), f != FileOf(left))))
  {
    hide FileOf, ApplyAll, ValidRecs, WfLog, InputsRecorded, ViewFits, Decode, WholeRecords;
    var n := if cut < 16 then 0 else WholeRecords(recs, cut - 16);
    assert Survivors(recs, cut) == recs[..n];
    PrefixInOrder(recs, n);
    HistoryInputs(recs[..n]);
    HistoryFits(recs[..n]);
    CrashPrefix(recs, cut);
    FilePrefix(recs, n);
  }

  lemma FilePrefix(recs: seq<Rec>, n: nat)
    requires n <= |recs|
    ensures FileOf(recs[..n]) <= FileOf(recs)
  {
    hide Encode;
    EncodePrefix(recs, n);
  }

  /** `initDepsLog` after a crash that cut the file of a history anywhere: load
      what is left, and compact it when it is broken or mostly dead. This always
      succeeds, below the overflow of output numbers; the log then agrees with
      its file, which can be read again, and answers for exactly the records that
      were written whole. */
  method InitDepsLog(f: Bytes, ghost recs: seq<Rec>, ghost cut: nat) returns (d: DepsLog, ok: bool)
    requires ValidRecs(recs) && ReadableRecs(recs) && WfLog(ApplyAll(recs).log)
    requires cut <= |FileOf(recs)| && f == FileOf(recs)[..cut]
    ensures fresh(d)
    ensures var left := Survivors(recs, cut);
            && ValidRecs(left)
            && (|ApplyAll(left).log.paths| <= OVERFLOW_OUTPUT ==> ok)
            && (ok ==> d.Valid() && ReadableRecs(d.recs) && AnswersAs(d, ApplyAll(left).log))
  {
    hide FileOf, ApplyAll, ValidRecs, ReadableRecs, WfLog, WfView, InputsRecorded, ViewFits, Get, AllFit, Survivors,
      CompactionPanics, Compacted, CompactedRecs, CompactedView, Decode, LiveOutputs, RecordedOutputs, ReadablePaths;
    CutLog(recs, cut);
    ghost var left := Survivors(recs, cut);
    d := new DepsLog();
    var crashed := d.Load(f, left);
    if !d.needsRecompact {
      if cut < 16 {
        NoSurvivors(recs, cut);
      }
      return d, true;
    }
    CompactionFits(d.View(), d.rNumDeps);
    InOrderIsDistinct(d.View());
    if |d.paths| <= OVERFLOW_OUTPUT {
      CompactionPanicsIff(d.View(), d.rNumDeps);
    }
    ok := d.Recompact();
    if ok {
      RecordedPathsReadable(left);
      CompactedReadable(ApplyAll(left).log);
      RecordedPathsReadable(d.recs);
    }
  }

  lemma InOrderIsDistinct(log: LogState)
    requires WfLog(log)
    ensures Distinct(log) && forall i :: Live(log, i) ==> Named(log, i)
  {
  }

  /** Compaction records no new path. */
  lemma CompactedReadable(view: LogState)
    requires WfView(view) && ReadablePaths(view.paths)
    ensures ReadablePaths(Compacted(view, |view.deps|).paths)
  {
    hide Readable, Compacted, LastIndexed;
    CompactedGet(view, |view.deps|);
    var log := Compacted(view, |view.deps|);
    forall i | 0 <= i < |log.paths| ensures Readable(log.paths[i]) {
      assert log.paths[i] in view.paths;
    }
  }

  lemma NoSurvivors(recs: seq<Rec>, cut: nat)
    requires cut < 16
    ensures Survivors(recs, cut) == [] && ValidRecs([]) && ApplyAll([]).log == EMPTY_LOG
  {
  }

  lemma LoadedHistory(history: seq<Rec>)
    requires ValidRecs(history) && ReadableRecs(history) && WfLog(ApplyAll(history).log)
    ensures Decode(FileOf(history)) == Some(Loaded(ApplyAll(history), false))
  {
    hide FileOf, ApplyAll, ValidRecs, ReadableRecs, Decode, WfLog;
    FileRoundTrip(history);
  }

  lemma EmptyIsView()
    ensures WfView(EMPTY_LOG) && InputsRecorded(EMPTY_LOG)
  {
  }

  /** In every log kept by successful calls, the file reads back as the memory
      iff every path is one the format can hold. */
  lemma FileMatchesMemory(d: DepsLog)
    requires d.Valid()
    ensures ReadsBack(d.file, d.State()) <==> ReadablePaths(d.paths)
  {
    hide FileOf, ApplyAll, ReadsBack, ReadablePaths, ValidRecs;
    FileRoundTrip(d.recs);
    RecordedPathsReadable(d.recs);
  }

  /** What `ReadNext` finds. */
  datatype Item =
    | AtEof
    | AtBroken
    | AtCrash
    | ReadSkipped(next: nat)
    | ReadDeps(next: nat, out: int, rec: DepsRecord)
    | ReadPath(next: nat, path: Path)

  lemma OutputInRange(body: Bytes, paths: seq<Path>)
    ensures var parsed := ReadDepsRecord(body, paths); parsed.Parsed? ==> -TWO_31 <= parsed.out < TWO_31
  {
  }

  lemma StopsAt(item: Item, r: Reader)
    requires item.AtEof? || item.AtBroken? || item.AtCrash?
    ensures StepOf(item, r) == if item.AtEof? then Eof else if item.AtBroken? then Broken else Crash
  {
  }

  ghost function StepOf(item: Item, r: Reader): Step {
    match item
    case AtEof => Eof
    case AtBroken => Broken
    case AtCrash => Crash
    case ReadSkipped(next) => Next(next, r)
    case ReadDeps(next, out, rec) => if UpdatePanics(out, |r.log.deps|) then Crash else Next(next, AddDeps(r, out, rec))
    case ReadPath(next, path) => Next(next, r.(log := AddPath(r.log, path)))
  }
}
