/** What recording and querying a deps log mean, on log values. */
module DepsLogSpec {
  import opened Wrappers
  import opened GoInts
  import opened DepsFormat

  /** `paths` and `pathIdx` are inverse to each other; deps belong to paths. */
  ghost predicate WfLog(log: LogState) {
    && (forall i :: 0 <= i < |log.paths| ==> log.paths[i] in log.pathIdx && log.pathIdx[log.paths[i]] == i)
    && (forall p :: p in log.pathIdx ==> log.pathIdx[p] < |log.paths| && log.paths[log.pathIdx[p]] == p)
    && |log.deps| <= |log.paths|
  }

  // ------------------------------------------------------------------- Get

  datatype GetError = NoPath | NoPathEntry | InconsistentPath | NoEntry

  /** `Get` on a read view. The index may hold stale keys. */
  function Get(view: LogState, output: Path): Result<DepsRecord, GetError> {
    if output !in view.pathIdx then Failure(NoPath)
    else
      var i := view.pathIdx[output];
      if i >= |view.paths| then Failure(NoPathEntry)
      else if view.paths[i] != output then Failure(InconsistentPath)
      else if i >= |view.deps| then Failure(NoEntry)
      else match view.deps[i]
        case None => Failure(NoEntry)
        case Some(rec) => Success(rec)
  }

  // ---------------------------------------------------------------- Record

  function InternPath(log: LogState, p: Path): LogState {
    if p in log.pathIdx then log else AddPath(log, p)
  }

  function InternAll(log: LogState, ps: seq<Path>): LogState {
    if ps == [] then log
    else InternPath(InternAll(log, ps[..|ps| - 1]), ps[|ps| - 1])
  }

  /** The path records written while interning `ps`. */
  function NewPathRecs(log: LogState, ps: seq<Path>): seq<Rec> {
    if ps == [] then []
    else
      NewPathRecs(log, ps[..|ps| - 1]) +
      if ps[|ps| - 1] in InternAll(log, ps[..|ps| - 1]).pathIdx then [] else [PathRec(ps[|ps| - 1])]
  }

  function IdsOf(log: LogState, ps: seq<Path>): (ids: seq<nat>)
    requires forall k :: 0 <= k < |ps| ==> ps[k] in log.pathIdx
    ensures |ids| == |ps|
  {
    seq(|ps|, k requires 0 <= k < |ps| => log.pathIdx[ps[k]])
  }

  function Stored(log: LogState, i: nat): Option<DepsRecord> {
    if i < |log.deps| then log.deps[i] else None
  }

  /** Whether `Record` writes a deps record: a new path appeared, or the stored
      record differs. */
  predicate WillUpdate(log: LogState, output: Path, mtime: int64, inputs: seq<Path>) {
    var log' := InternAll(log, [output] + inputs);
    || log'.paths != log.paths
    || output !in log'.pathIdx
    || Stored(log', log'.pathIdx[output]) != Some(DepsRecord(mtime, inputs))
  }

  lemma {:induction false} InternAllFacts(log: LogState, ps: seq<Path>)
    requires WfLog(log)
    ensures var log' := InternAll(log, ps);
            && WfLog(log') && log.paths <= log'.paths && log'.deps == log.deps
            && (forall k :: 0 <= k < |ps| ==> ps[k] in log'.pathIdx)
            && (forall p :: p in log.pathIdx ==> p in log'.pathIdx && log'.pathIdx[p] == log.pathIdx[p])
            && (forall p :: p in log'.pathIdx ==> p in log.pathIdx || p in ps)
            && |log'.paths| <= |log.paths| + |ps|
            && (log'.paths == log.paths ==> log' == log)
  {
    if ps != [] {
      var init := ps[..|ps| - 1];
      InternAllFacts(log, init);
      assert ps == init + [ps[|ps| - 1]];
    }
  }

  function Recorded(log: LogState, output: Path, mtime: int64, inputs: seq<Path>): LogState {
    var log' := InternAll(log, [output] + inputs);
    if WillUpdate(log, output, mtime, inputs) && output in log'.pathIdx then
      log'.(deps := SetDeps(log'.deps, log'.pathIdx[output], DepsRecord(mtime, inputs)))
    else log
  }

  /** The records one `Record` call appends to the file. */
  function NewRecs(log: LogState, output: Path, mtime: int64, inputs: seq<Path>): seq<Rec> {
    var log' := InternAll(log, [output] + inputs);
    NewPathRecs(log, [output] + inputs) +
    if WillUpdate(log, output, mtime, inputs)
       && output in log'.pathIdx && (forall k :: 0 <= k < |inputs| ==> inputs[k] in log'.pathIdx)
    then [DepsRec(log'.pathIdx[output], mtime, IdsOf(log', inputs))] else []
  }

  /** Does `Record` come to an output its table cannot grow to? */
  predicate RecordPanics(log: LogState, output: Path, mtime: int64, inputs: seq<Path>) {
    var log' := InternAll(log, [output] + inputs);
    && WillUpdate(log, output, mtime, inputs)
    && output in log'.pathIdx && UpdatePanics(log'.pathIdx[output], |log.deps|)
  }

  predicate Fits(rec: Rec) {
    match rec
    case PathRec(path) => PathRecordSize(path) <= MAX_RECORD_SIZE
    case DepsRec(_, _, ids) => DepsRecordSize(|ids|) <= MAX_RECORD_SIZE
  }

  predicate AllFit(recs: seq<Rec>) {
    forall k :: 0 <= k < |recs| ==> Fits(recs[k])
  }

  /** Recording makes the output answer with exactly what was recorded and
      changes no other answer. */
  lemma RecordedGet(log: LogState, output: Path, mtime: int64, inputs: seq<Path>, p: Path)
    requires WfLog(log)
    ensures var log' := Recorded(log, output, mtime, inputs);
            && WfLog(log')
            && Get(log', output) == Success(DepsRecord(mtime, inputs))
            && (p != output && Get(log, p).Success? ==> Get(log', p) == Get(log, p))
            && (p != output && Get(log, p).Failure? ==> Get(log', p).Failure?)
  {
    var ps := [output] + inputs;
    InternAllFacts(log, ps);
    assert output == ps[0];
  }

  /** A call writes nothing iff the log answers with just that already and knows
      all the inputs; so the same call a second time writes nothing. */
  lemma NothingWrittenIff(log: LogState, output: Path, mtime: int64, inputs: seq<Path>)
    requires WfLog(log)
    ensures NewRecs(log, output, mtime, inputs) == []
       <==> Get(log, output) == Success(DepsRecord(mtime, inputs)) && forall p :: p in inputs ==> p in log.pathIdx
    ensures WfLog(Recorded(log, output, mtime, inputs))
    ensures NewRecs(Recorded(log, output, mtime, inputs), output, mtime, inputs) == []
  {
    hide NewRecs, Recorded, InternAll;
    RecordedGet(log, output, mtime, inputs, output);
    RecordedPaths(log, output, mtime, inputs);
    var log' := Recorded(log, output, mtime, inputs);
    InternAllFacts(log, [output] + inputs);
    InputsInterned(log, output, mtime, inputs);
    WrittenIff(log, output, mtime, inputs);
    WrittenIff(log', output, mtime, inputs);
  }

  lemma InputsInterned(log: LogState, output: Path, mtime: int64, inputs: seq<Path>)
    requires WfLog(log)
    ensures forall p :: p in inputs ==> p in Recorded(log, output, mtime, inputs).pathIdx
  {
    var ps := [output] + inputs;
    InternAllFacts(log, ps);
    assert forall p :: p in inputs ==> p in ps;
    assert output == ps[0];
  }

  lemma WrittenIff(log: LogState, output: Path, mtime: int64, inputs: seq<Path>)
    requires WfLog(log)
    ensures NewRecs(log, output, mtime, inputs) == []
       <==> Get(log, output) == Success(DepsRecord(mtime, inputs)) && forall p :: p in inputs ==> p in log.pathIdx
  {
    var ps := [output] + inputs;
    InternAllFacts(log, ps);
    assert output == ps[0];
    assert forall k :: 0 <= k < |inputs| ==> inputs[k] == ps[k + 1];
    NoneNewIff(log, ps);
    assert AllKnown(log, ps) <==> forall p :: p in ps ==> p in log.pathIdx;
    assert (forall p :: p in ps ==> p in log.pathIdx) <==>
           output in log.pathIdx && forall p :: p in inputs ==> p in log.pathIdx;
  }

  predicate AllKnown(log: LogState, ps: seq<Path>) {
    forall p :: p in ps ==> p in log.pathIdx
  }

  lemma KnownSnoc(log: LogState, ps: seq<Path>, p: Path)
    ensures AllKnown(log, ps + [p]) <==> AllKnown(log, ps) && p in log.pathIdx
  {
    if AllKnown(log, ps + [p]) {
      assert p in ps + [p];
      assert forall q :: q in ps ==> q in ps + [p];
    }
  }

  lemma {:induction false} NoneNewIff(log: LogState, ps: seq<Path>)
    requires WfLog(log)
    ensures NewPathRecs(log, ps) == [] <==> AllKnown(log, ps)
    ensures AllKnown(log, ps) ==> InternAll(log, ps) == log
    ensures !AllKnown(log, ps) ==> InternAll(log, ps).paths != log.paths
  {
    hide WfLog, AllKnown;
    if ps == [] {
      assert AllKnown(log, []) by { NoneToKnow(log); }
    } else {
      var init, last := ps[..|ps| - 1], ps[|ps| - 1];
      NoneNewIff(log, init);
      InternAllFacts(log, init);
      InternAllFacts(log, ps);
      assert ps == init + [last];
      KnownSnoc(log, init, last);
      PathsGrow(InternAll(log, init), last);
    }
  }

  lemma NoneToKnow(log: LogState)
    ensures AllKnown(log, [])
  {
  }

  lemma PathsGrow(log: LogState, p: Path)
    ensures InternPath(log, p).paths == log.paths + if p in log.pathIdx then [] else [p]
  {
  }

  lemma RecordedPaths(log: LogState, output: Path, mtime: int64, inputs: seq<Path>)
    requires WfLog(log)
    ensures var log' := Recorded(log, output, mtime, inputs);
            && log.paths <= log'.paths
            && log'.paths == InternAll(log, [output] + inputs).paths
            && (forall p :: p in log'.pathIdx ==> p in log.pathIdx || p == output || p in inputs)
  {
    var ps := [output] + inputs;
    InternAllFacts(log, ps);
    assert output == ps[0];
  }

  lemma {:induction false} NewPathRecsPrefix(log: LogState, ps: seq<Path>, k: nat)
    requires k <= |ps|
    ensures NewPathRecs(log, ps[..k]) <= NewPathRecs(log, ps)
  {
    if k == |ps| {
      assert ps[..k] == ps;
    } else {
      var init := ps[..|ps| - 1];
      assert init[..k] == ps[..k];
      NewPathRecsPrefix(log, init, k);
    }
  }

  /** One step of the interning loop of `Record`, towards `ps`. */
  lemma Interning(log: LogState, done: seq<Path>, p: Path, ps: seq<Path>)
    requires WfLog(log) && done + [p] <= ps
    ensures var before, after := InternAll(log, done), InternAll(log, done + [p]);
            && WfLog(before) && after == InternPath(before, p)
            && |after.paths| <= |InternAll(log, ps).paths|
    ensures NewPathRecs(log, done + [p]) ==
            NewPathRecs(log, done) + if p in InternAll(log, done).pathIdx then [] else [PathRec(p)]
    ensures NewPathRecs(log, done + [p]) <= NewPathRecs(log, ps)
  {
    var more := done + [p];
    assert more[..|more| - 1] == done;
    InternAllFacts(log, done);
    assert ps[..|more|] == more;
    InternAllMonotone(log, ps, |more|);
    NewPathRecsPrefix(log, ps, |more|);
  }

  lemma {:induction false} InternAllMonotone(log: LogState, ps: seq<Path>, k: nat)
    requires k <= |ps|
    ensures |InternAll(log, ps[..k]).paths| <= |InternAll(log, ps).paths|
  {
    if k == |ps| {
      assert ps[..k] == ps;
    } else {
      var init := ps[..|ps| - 1];
      assert init[..k] == ps[..k];
      InternAllMonotone(log, init, k);
    }
  }

  /** When all records of a `Record` call fit. */
  lemma NewRecsFit(log: LogState, output: Path, mtime: int64, inputs: seq<Path>)
    requires WfLog(log)
    ensures AllFit(NewRecs(log, output, mtime, inputs)) <==>
              && AllFit(NewPathRecs(log, [output] + inputs))
              && (WillUpdate(log, output, mtime, inputs) ==> DepsRecordSize(|inputs|) <= MAX_RECORD_SIZE)
    ensures WillUpdate(log, output, mtime, inputs) ==>
              var log' := InternAll(log, [output] + inputs);
              && output in log'.pathIdx && (forall k :: 0 <= k < |inputs| ==> inputs[k] in log'.pathIdx)
              && NewRecs(log, output, mtime, inputs) ==
                 NewPathRecs(log, [output] + inputs) + [DepsRec(log'.pathIdx[output], mtime, IdsOf(log', inputs))]
  {
    var ps := [output] + inputs;
    InternAllFacts(log, ps);
    assert ps[0] == output;
    assert forall k :: 0 <= k < |inputs| ==> inputs[k] == ps[k + 1];
    var pre, all := NewPathRecs(log, ps), NewRecs(log, output, mtime, inputs);
    assert pre <= all;
    assert forall k :: 0 <= k < |pre| ==> all[k] == pre[k];
    if WillUpdate(log, output, mtime, inputs) {
      assert all[|pre|].DepsRec?;
    }
  }

  // -------------------------------------------------------------- Recompact

  predicate Live(view: LogState, i: int) {
    0 <= i < |view.deps| && view.deps[i].Some?
  }

  /** A live entry whose output has a path. */
  predicate Named(view: LogState, i: int) {
    Live(view, i) && i < |view.paths|
  }

  /** A read view as `NewDepsLog`, `Reset` and `Recompact` leave it: a path is
      found where it stands last; other keys may be stale. */
  ghost predicate WfView(view: LogState) {
    && LastIndexed(view)
    && |view.paths| <= TWO_31
    && InputsRecorded(view)
  }

  ghost predicate LastIndexed(view: LogState) {
    forall i :: 0 <= i < |view.paths| ==>
      var p := view.paths[i];
      p in view.pathIdx && i <= view.pathIdx[p] < |view.paths| && view.paths[view.pathIdx[p]] == p
  }

  /** A view of a log this writer keeps: no path stands twice, and every entry
      has a path. */
  ghost predicate Distinct(view: LogState) {
    && (forall i :: 0 <= i < |view.paths| ==> view.paths[i] in view.pathIdx && view.pathIdx[view.paths[i]] == i)
    && |view.deps| <= |view.paths|
  }

  ghost predicate InputsRecorded(view: LogState) {
    forall i, k :: Live(view, i) && 0 <= k < |view.deps[i].value.inputs| ==>
      view.deps[i].value.inputs[k] in view.paths
  }

  /** Reading any record keeps the inputs among the paths. */
  lemma StepInputs(f: Bytes, off: nat, r: Reader)
    requires off <= |f| && InputsRecorded(r.log)
    ensures var s := ReadStep(f, off, r); s.Next? ==> InputsRecorded(s.r.log)
  {
    hide GetInt32, GetInt32s, RecordSize, ReadPathRecord, LookupPaths;
    var s := ReadStep(f, off, r);
    if s.Next? && s.r.log.deps != r.log.deps {
      var body := f[off + 4..s.off];
      LookedUp(GetInt32s(body, |body| / 4)[3..], r.log.paths);
    }
  }

  lemma {:induction false} LookedUp(ids: seq<int>, paths: seq<Path>)
    ensures var found := LookupPaths(ids, paths);
            found.Some? ==> forall k :: 0 <= k < |found.value| ==> found.value[k] in paths
  {
    if ids != [] {
      LookedUp(ids[1..], paths);
    }
  }

  lemma {:induction false} LoopInputs(f: Bytes, off: nat, r: Reader)
    requires off <= |f| && InputsRecorded(r.log)
    ensures var o := ReadLoop(f, off, r); o.Loaded? ==> InputsRecorded(o.r.log)
    decreases |f| - off
  {
    hide ReadStep, InputsRecorded;
    StepInputs(f, off, r);
    var s := ReadStep(f, off, r);
    if s.Next? {
      LoopInputs(f, s.off, s.r);
    }
  }

  lemma StepIndex(f: Bytes, off: nat, r: Reader)
    requires off <= |f| && LastIndexed(r.log) && |r.log.paths| <= TWO_31
    ensures var s := ReadStep(f, off, r); s.Next? ==> LastIndexed(s.r.log) && |s.r.log.paths| <= TWO_31
  {
    hide GetInt32s, RecordSize, LookupPaths, StripPadding;
  }

  lemma {:induction false} LoopIndex(f: Bytes, off: nat, r: Reader)
    requires off <= |f| && LastIndexed(r.log) && |r.log.paths| <= TWO_31
    ensures var o := ReadLoop(f, off, r); o.Loaded? ==> LastIndexed(o.r.log) && |o.r.log.paths| <= TWO_31
    decreases |f| - off
  {
    hide ReadStep, LastIndexed;
    StepIndex(f, off, r);
    var s := ReadStep(f, off, r);
    if s.Next? {
      LoopIndex(f, s.off, s.r);
    }
  }

  /** Whatever file is loaded, its records name known inputs only and its paths
      are found where they stand last: it is fit to be a read view. */
  lemma LoadedIsView(f: Bytes)
    ensures match Decode(f)
            case Some(Loaded(r, _)) => WfView(r.log)
            case _ => true
  {
    hide ReadLoop;
    if Decode(f).Some? {
      LoopInputs(f, 16, EMPTY_READER);
      LoopIndex(f, 16, EMPTY_READER);
    }
  }

  /** And so does every history the writer keeps. */
  lemma {:induction false} HistoryInputs(recs: seq<Rec>)
    requires ValidRecs(recs)
    ensures InputsRecorded(ApplyAll(recs).log) && |ApplyAll(recs).log.paths| <= TWO_31
  {
    hide UpdatePanics, PathRecordSize, DepsCount;
    if recs != [] {
      HistoryInputs(recs[..|recs| - 1]);
    }
  }

  /** A log whose paths are found is fit to be a read view, with any older keys
      left in the index. */
  lemma LogIsView(log: LogState, stale: map<Path, nat>)
    requires InputsRecorded(log) && |log.paths| <= TWO_31
    ensures LastIndexed(log) ==> WfView(log.(pathIdx := stale + log.pathIdx))
    ensures WfLog(log) ==>
              var view := log.(pathIdx := stale + log.pathIdx); WfView(view) && Distinct(view)
  {
  }

  /** The log after re-recording the live entries below `n` into an empty log. */
  function Compacted(view: LogState, n: nat): LogState
    requires n <= |view.deps|
  {
    if n == 0 then EMPTY_LOG
    else
      var log := Compacted(view, n - 1);
      if !Named(view, n - 1) then log
      else
        var rec := view.deps[n - 1].value;
        Recorded(log, view.paths[n - 1], rec.mtime, rec.inputs)
  }

  function CompactedRecs(view: LogState, n: nat): seq<Rec>
    requires n <= |view.deps|
  {
    if n == 0 then []
    else
      var log, recs := Compacted(view, n - 1), CompactedRecs(view, n - 1);
      if !Named(view, n - 1) then recs
      else
        var rec := view.deps[n - 1].value;
        recs + NewRecs(log, view.paths[n - 1], rec.mtime, rec.inputs)
  }

  /** Does re-recording the live entries below `n` stop the process? It does at
      an entry without a path, and where the new table cannot grow. */
  predicate CompactionPanics(view: LogState, n: nat)
    requires n <= |view.deps|
  {
    n > 0
    && (|| CompactionPanics(view, n - 1)
        || match view.deps[n - 1]
           case None => false
           case Some(rec) =>
             || n - 1 >= |view.paths|
             || RecordPanics(Compacted(view, n - 1), view.paths[n - 1], rec.mtime, rec.inputs))
  }

  /** The last live entry of a path below `n`. */
  function LastLive(view: LogState, p: Path, n: nat): (r: Option<nat>)
    requires n <= |view.deps|
    ensures r.Some? ==> r.value < n && Named(view, r.value) && view.paths[r.value] == p
    ensures forall i :: (if r.Some? then r.value < i < n else 0 <= i < n) && Named(view, i) ==> view.paths[i] != p
  {
    if n == 0 then None
    else if Named(view, n - 1) && view.paths[n - 1] == p then Some(n - 1)
    else LastLive(view, p, n - 1)
  }

  /** `log` answers with the last live entry of each path below `n`, and for no
      other path. */
  ghost predicate AnswersBelow(view: LogState, log: LogState, n: nat)
    requires n <= |view.deps|
  {
    forall p ::
      match LastLive(view, p, n)
      case Some(i) => Get(log, p) == Success(view.deps[i].value)
      case None => Get(log, p).Failure?
  }

  lemma RecordedAnswers(view: LogState, log: LogState, n: nat)
    requires n < |view.deps| && Named(view, n)
    requires WfLog(log) && AnswersBelow(view, log, n)
    ensures var rec := view.deps[n].value;
            AnswersBelow(view, Recorded(log, view.paths[n], rec.mtime, rec.inputs), n + 1)
  {
    hide Get, Recorded;
    var out, rec := view.paths[n], view.deps[n].value;
    var log' := Recorded(log, out, rec.mtime, rec.inputs);
    forall p
      ensures match LastLive(view, p, n + 1)
              case Some(i) => Get(log', p) == Success(view.deps[i].value)
              case None => Get(log', p).Failure?
    {
      RecordedGet(log, out, rec.mtime, rec.inputs, p);
    }
  }

  lemma EmptyAnswers(view: LogState)
    ensures WfLog(EMPTY_LOG) && AnswersBelow(view, EMPTY_LOG, 0)
  {
  }

  lemma {:induction false} CompactedGet(view: LogState, n: nat)
    requires InputsRecorded(view) && n <= |view.deps|
    ensures var log := Compacted(view, n);
            && WfLog(log) && AnswersBelow(view, log, n)
            && (forall p :: p in log.pathIdx ==> p in view.paths)
  {
    hide Recorded, InternAll, Get, AnswersBelow;
    EmptyAnswers(view);
    if n > 0 {
      CompactedGet(view, n - 1);
      if Named(view, n - 1) {
        var log, out, rec := Compacted(view, n - 1), view.paths[n - 1], view.deps[n - 1].value;
        RecordedAnswers(view, log, n - 1);
        RecordedGet(log, out, rec.mtime, rec.inputs, out);
        RecordedPaths(log, out, rec.mtime, rec.inputs);
      } else {
        AnswersSkip(view, Compacted(view, n - 1), n - 1);
      }
    }
  }

  lemma AnswersSkip(view: LogState, log: LogState, n: nat)
    requires n < |view.deps| && !Named(view, n) && AnswersBelow(view, log, n)
    ensures AnswersBelow(view, log, n + 1)
  {
    hide Get;
    assert forall p :: LastLive(view, p, n + 1) == LastLive(view, p, n);
  }

  /** The view after compaction: the new log, over the old index whose stale
      keys `maps.Copy` leaves in place. */
  function CompactedView(view: LogState): LogState {
    var log := Compacted(view, |view.deps|);
    log.(pathIdx := view.pathIdx + log.pathIdx)
  }

  /** Does an earlier entry of a path hide under a later, dead one? */
  predicate Hides(view: LogState, p: Path) {
    Get(view, p).Failure? && LastLive(view, p, |view.deps|).Some?
  }

  /** Compaction preserves `Get`: answers stay the same, and an error stays one
      iff no earlier entry of the path hides, stale index keys included. In a
      view with distinct paths none does. */
  lemma CompactionPreservesGet(view: LogState, p: Path)
    requires WfView(view)
    ensures WfView(CompactedView(view)) && Distinct(CompactedView(view))
    ensures Get(view, p).Success? ==> Get(CompactedView(view), p) == Get(view, p)
    ensures Get(view, p).Failure? ==> (Get(CompactedView(view), p).Failure? <==> !Hides(view, p))
    ensures Distinct(view) ==> !Hides(view, p)
  {
    var n := |view.deps|;
    var log, view' := Compacted(view, n), CompactedView(view);
    CompactedGet(view, n);
    CompactedInputs(view, n);
    CompactedSize(view);
    assert AnswersBelow(view, log, n);
    assert Get(view', p).Success? <==> Get(log, p).Success?;
    assert Get(log, p).Success? ==> Get(view', p) == Get(log, p);
    var live := LastLive(view, p, n);
    if Get(view, p).Success? {
      assert Named(view, view.pathIdx[p]);
    }
  }

  /** And an entry that hides comes back. */
  lemma HiddenComesBack(p: Path, rec: DepsRecord)
    requires rec.inputs == []
    ensures var view := LogState([p, p], map[p := 1], [Some(rec)]);
            && WfView(view) && Get(view, p) == Failure(NoEntry)
            && Get(CompactedView(view), p) == Success(rec)
  {
    var view := LogState([p, p], map[p := 1], [Some(rec)]);
    assert Named(view, 0);
    assert LastLive(view, p, 1) == Some(0);
    CompactedGet(view, 1);
    CompactionPreservesGet(view, p);
    assert AnswersBelow(view, Compacted(view, 1), 1);
  }

  lemma {:induction false} CompactedInputs(view: LogState, n: nat)
    requires InputsRecorded(view) && n <= |view.deps|
    ensures InputsRecorded(Compacted(view, n))
  {
    hide InputsRecorded, Recorded;
    if n > 0 {
      CompactedInputs(view, n - 1);
      CompactedGet(view, n - 1);
      if Named(view, n - 1) {
        var log, out, rec := Compacted(view, n - 1), view.paths[n - 1], view.deps[n - 1].value;
        RecordedInputs(log, out, rec.mtime, rec.inputs);
      }
    } else {
      NoInputs();
    }
  }

  lemma NoInputs()
    ensures InputsRecorded(EMPTY_LOG)
  {
  }

  lemma RecordedInputs(log: LogState, output: Path, mtime: int64, inputs: seq<Path>)
    requires WfLog(log) && InputsRecorded(log)
    ensures InputsRecorded(Recorded(log, output, mtime, inputs))
  {
    var ps := [output] + inputs;
    InternAllFacts(log, ps);
    var log' := Recorded(log, output, mtime, inputs);
    forall i, k | Live(log', i) && 0 <= k < |log'.deps[i].value.inputs|
      ensures log'.deps[i].value.inputs[k] in log'.paths
    {
      if i < |log.deps| && log'.deps[i] == log.deps[i] {
        assert Live(log, i);
        assert log.deps[i].value.inputs[k] in log.paths;
      } else {
        assert ps[k + 1] == inputs[k];
      }
    }
  }

  /** Distinct elements drawn from `big` are no more than `|big|`. */
  lemma {:induction false} DistinctFits<T>(small: seq<T>, big: seq<T>)
    requires forall i, j :: 0 <= i < j < |small| ==> small[i] != small[j]
    requires forall i :: 0 <= i < |small| ==> small[i] in big
    ensures |small| <= |big|
  {
    if small != [] {
      var last := |small| - 1;
      var at :| 0 <= at < |big| && big[at] == small[last];
      var rest := big[..at] + big[at + 1..];
      forall i | 0 <= i < last ensures small[..last][i] in rest {
        var j :| 0 <= j < |big| && big[j] == small[i];
        assert j != at;
        assert rest[if j < at then j else j - 1] == small[i];
      }
      DistinctFits(small[..last], rest);
    }
  }

  lemma CompactedSize(view: LogState)
    requires InputsRecorded(view)
    ensures forall n :: 0 <= n <= |view.deps| ==> |Compacted(view, n).paths| <= |view.paths|
  {
    forall n | 0 <= n <= |view.deps| ensures |Compacted(view, n).paths| <= |view.paths| {
      CompactedGet(view, n);
      DistinctFits(Compacted(view, n).paths, view.paths);
    }
  }

  lemma CompactedStart(view: LogState)
    ensures Compacted(view, 0) == EMPTY_LOG && CompactedRecs(view, 0) == [] && AllFit([])
    ensures !CompactionPanics(view, 0)
  {
  }

  /** One step of the compaction loop. */
  lemma CompactedStep(view: LogState, i: nat)
    requires WfView(view) && i < |view.deps|
    ensures view.deps[i] == None ==>
              && Compacted(view, i + 1) == Compacted(view, i) && CompactedRecs(view, i + 1) == CompactedRecs(view, i)
              && (CompactionPanics(view, i + 1) <==> CompactionPanics(view, i))
    ensures view.deps[i].Some? && i >= |view.paths| ==> CompactionPanics(view, i + 1)
    ensures Named(view, i) ==>
              var log, rec := Compacted(view, i), view.deps[i].value;
              && |InternAll(log, [view.paths[i]] + rec.inputs).paths| <= TWO_31
              && Compacted(view, i + 1) == Recorded(log, view.paths[i], rec.mtime, rec.inputs)
              && CompactedRecs(view, i + 1) == CompactedRecs(view, i)
                   + NewRecs(log, view.paths[i], rec.mtime, rec.inputs)
              && (CompactionPanics(view, i + 1) <==>
                    CompactionPanics(view, i) || RecordPanics(log, view.paths[i], rec.mtime, rec.inputs))
    ensures CompactedRecs(view, i + 1) <= CompactedRecs(view, |view.deps|)
    ensures CompactionPanics(view, i + 1) ==> CompactionPanics(view, |view.deps|)
  {
    hide NewRecs, Recorded, RecordPanics, LastIndexed;
    CompactedSize(view);
    CompactedGet(view, i);
    if Named(view, i) {
      var rec := view.deps[i].value;
      RecordedPaths(Compacted(view, i), view.paths[i], rec.mtime, rec.inputs);
      assert |Compacted(view, i + 1).paths| <= |view.paths|;
    }
    CompactedRecsPrefix(view, i + 1, |view.deps|);
  }

  lemma {:induction false} CompactedRecsPrefix(view: LogState, i: nat, n: nat)
    requires i <= n <= |view.deps|
    ensures CompactedRecs(view, i) <= CompactedRecs(view, n)
    ensures CompactionPanics(view, i) ==> CompactionPanics(view, n)
    decreases n
  {
    hide NewRecs, Recorded, RecordPanics;
    if i < n {
      CompactedRecsPrefix(view, i, n - 1);
    }
  }

  // The new file holds one deps record per live output.

  function LiveOutputs(view: LogState, n: nat): (outs: seq<Path>)
    requires n <= |view.deps|
  {
    if n == 0 then []
    else LiveOutputs(view, n - 1) + if Named(view, n - 1) then [view.paths[n - 1]] else []
  }

  /** The outputs of the deps records of a history, by name, in file order. */
  function RecordedOutputs(recs: seq<Rec>, paths: seq<Path>): seq<Path> {
    if recs == [] then []
    else
      var last := recs[|recs| - 1];
      RecordedOutputs(recs[..|recs| - 1], paths) +
      if last.DepsRec? && last.out < |paths| then [paths[last.out]] else []
  }

  lemma {:induction false} RecordedOutputsConcat(a: seq<Rec>, b: seq<Rec>, paths: seq<Path>)
    ensures RecordedOutputs(a + b, paths) == RecordedOutputs(a, paths) + RecordedOutputs(b, paths)
  {
    if b == [] {
      assert a + b == a;
    } else {
      assert (a + b)[..|a + b| - 1] == a + b[..|b| - 1];
      RecordedOutputsConcat(a, b[..|b| - 1], paths);
    }
  }

  lemma {:induction false} PathRecsOnly(log: LogState, ps: seq<Path>, paths: seq<Path>)
    ensures RecordedOutputs(NewPathRecs(log, ps), paths) == []
  {
    if ps != [] {
      PathRecsOnly(log, ps[..|ps| - 1], paths);
      RecordedOutputsConcat(NewPathRecs(log, ps[..|ps| - 1]),
        if ps[|ps| - 1] in InternAll(log, ps[..|ps| - 1]).pathIdx then [] else [PathRec(ps[|ps| - 1])], paths);
    }
  }

  /** Recording an output that had no deps writes one deps record, naming it. */
  lemma FreshOutputRecs(log: LogState, output: Path, mtime: int64, inputs: seq<Path>, paths: seq<Path>)
    requires WfLog(log) && Get(log, output).Failure?
    requires Recorded(log, output, mtime, inputs).paths <= paths
    ensures RecordedOutputs(NewRecs(log, output, mtime, inputs), paths) == [output]
  {
    hide RecordedOutputs, NewPathRecs, InternAll, Get, WfLog, IdsOf;
    FreshOutputDeps(log, output, mtime, inputs);
    NewRecsFit(log, output, mtime, inputs);
    RecordedPaths(log, output, mtime, inputs);
    var ps := [output] + inputs;
    var interned := InternAll(log, ps);
    InternAllFacts(log, ps);
    FoundAt(interned, output);
    var deps := DepsRec(interned.pathIdx[output], mtime, IdsOf(interned, inputs));
    assert paths[deps.out] == output;
    PathRecsOnly(log, ps, paths);
    RecordedOutputsConcat(NewPathRecs(log, ps), [deps], paths);
    OneOutput(deps, paths);
  }

  lemma FoundAt(log: LogState, p: Path)
    requires WfLog(log) && p in log.pathIdx
    ensures log.pathIdx[p] < |log.paths| && log.paths[log.pathIdx[p]] == p
  {
  }

  lemma OneOutput(rec: Rec, paths: seq<Path>)
    requires rec.DepsRec? && rec.out < |paths|
    ensures RecordedOutputs([rec], paths) == [paths[rec.out]]
  {
    assert [rec][..0] == [];
  }

  lemma FreshOutputDeps(log: LogState, output: Path, mtime: int64, inputs: seq<Path>)
    requires WfLog(log) && Get(log, output).Failure?
    ensures WillUpdate(log, output, mtime, inputs)
  {
    InternAllFacts(log, [output] + inputs);
  }

  /** The compacted file's deps records name each live output exactly once. */
  lemma {:induction false} OneRecordPerLiveOutput(view: LogState, n: nat)
    requires InputsRecorded(view) && Distinct(view) && n <= |view.deps|
    ensures RecordedOutputs(CompactedRecs(view, n), Compacted(view, |view.deps|).paths) == LiveOutputs(view, n)
  {
    hide NewRecs, Recorded;
    if n > 0 {
      OneRecordPerLiveOutput(view, n - 1);
      if Named(view, n - 1) {
        var final := Compacted(view, |view.deps|).paths;
        var log, out, rec := Compacted(view, n - 1), view.paths[n - 1], view.deps[n - 1].value;
        CompactedGet(view, n - 1);
        assert LastLive(view, out, n - 1) == None;
        CompactedGrows(view, n, |view.deps|);
        FreshOutputRecs(log, out, rec.mtime, rec.inputs, final);
        RecordedOutputsConcat(CompactedRecs(view, n - 1), NewRecs(log, out, rec.mtime, rec.inputs), final);
      }
    }
  }

  lemma {:induction false} CompactedGrows(view: LogState, n: nat, m: nat)
    requires InputsRecorded(view) && n <= m <= |view.deps|
    ensures Compacted(view, n).paths <= Compacted(view, m).paths
    decreases m
  {
    hide InternAll, WillUpdate, SetDeps;
    if n < m {
      CompactedGrows(view, n, m - 1);
      CompactedGet(view, m - 1);
      if Named(view, m - 1) {
        var rec := view.deps[m - 1].value;
        InternAllFacts(Compacted(view, m - 1), [view.paths[m - 1]] + rec.inputs);
      }
    }
  }

  // --------------------------------------------------------------- recovery

  /** Every key a history leaves in the index leads to its path. */
  ghost predicate IndexLeads(log: LogState) {
    && (forall p :: p in log.pathIdx ==> log.pathIdx[p] < |log.paths| && log.paths[log.pathIdx[p]] == p)
    && |log.deps| <= |log.paths|
  }

  lemma {:induction false} HistoryLeads(recs: seq<Rec>)
    requires ValidRecs(recs)
    ensures IndexLeads(ApplyAll(recs).log)
  {
    hide Encode;
    if recs != [] {
      HistoryLeads(recs[..|recs| - 1]);
    }
  }

  /** The index of a history is in order from its beginning on. */
  lemma {:induction false} PrefixInOrder(recs: seq<Rec>, n: nat)
    requires ValidRecs(recs) && n <= |recs| && WfLog(ApplyAll(recs).log)
    ensures ValidRecs(recs[..n]) && WfLog(ApplyAll(recs[..n]).log)
  {
    hide ValidRec;
    if n == |recs| {
      assert recs[..n] == recs;
    } else {
      var init := recs[..|recs| - 1];
      HistoryLeads(init);
      var log, log' := ApplyAll(init).log, ApplyAll(recs).log;
      assert log.paths <= log'.paths;
      forall i | 0 <= i < |log.paths| ensures log.paths[i] in log.pathIdx && log.pathIdx[log.paths[i]] == i {
        assert log'.paths[i] == log.paths[i];
      }
      PrefixInOrder(init, n);
      assert init[..n] == recs[..n];
    }
  }

  /** Every record that compaction could write fits. */
  ghost predicate ViewFits(view: LogState) {
    && (forall i :: 0 <= i < |view.paths| ==> Fits(PathRec(view.paths[i])))
    && (forall i :: Live(view, i) ==> DepsRecordSize(|view.deps[i].value.inputs|) <= MAX_RECORD_SIZE)
  }

  /** What was written once fits again. */
  lemma {:induction false} HistoryFits(recs: seq<Rec>)
    requires ValidRecs(recs)
    ensures ViewFits(ApplyAll(recs).log)
  {
    hide PathRecordSize, Encode, UpdatePanics;
    if recs != [] {
      var init := recs[..|recs| - 1];
      HistoryFits(init);
      var log, log' := ApplyAll(init).log, ApplyAll(recs).log;
      forall i | Live(log', i) ensures DepsRecordSize(|log'.deps[i].value.inputs|) <= MAX_RECORD_SIZE {
        if i < |log.deps| && log'.deps[i] == log.deps[i] {
          assert Live(log, i);
        }
      }
    }
  }

  lemma {:induction false} NewPathsFit(log: LogState, ps: seq<Path>)
    requires forall k :: 0 <= k < |ps| ==> Fits(PathRec(ps[k]))
    ensures AllFit(NewPathRecs(log, ps))
  {
    hide Fits, InternAll;
    if ps != [] {
      NewPathsFit(log, ps[..|ps| - 1]);
    }
  }

  lemma PathFits(view: LogState, p: Path)
    requires ViewFits(view) && p in view.paths
    ensures Fits(PathRec(p))
  {
  }

  lemma RecordingFits(view: LogState, log: LogState, i: nat)
    requires WfView(view) && ViewFits(view) && Named(view, i) && WfLog(log)
    ensures var rec := view.deps[i].value; AllFit(NewRecs(log, view.paths[i], rec.mtime, rec.inputs))
  {
    hide Fits, NewPathRecs, WillUpdate, NewRecs, InternAll;
    var rec := view.deps[i].value;
    var ps := [view.paths[i]] + rec.inputs;
    forall k | 0 <= k < |ps| ensures Fits(PathRec(ps[k])) {
      assert k > 0 ==> ps[k] == rec.inputs[k - 1];
      PathFits(view, ps[k]);
    }
    NewPathsFit(log, ps);
    NewRecsFit(log, view.paths[i], rec.mtime, rec.inputs);
  }

  /** Compaction of a view whose records fit comes to no record too large. */
  lemma {:induction false} CompactionFits(view: LogState, n: nat)
    requires WfView(view) && ViewFits(view) && n <= |view.deps|
    ensures AllFit(CompactedRecs(view, n))
  {
    hide Fits, NewRecs, Recorded, ViewFits, RecordPanics;
    if n > 0 {
      CompactionFits(view, n - 1);
      CompactedGet(view, n - 1);
      if Named(view, n - 1) {
        RecordingFits(view, Compacted(view, n - 1), n - 1);
      }
    }
  }

  /** As long as output numbers stay below the overflow, compaction stops the
      process iff some entry has no path. */
  lemma {:induction false} CompactionPanicsIff(view: LogState, n: nat)
    requires WfView(view) && |view.paths| <= OVERFLOW_OUTPUT && n <= |view.deps|
    ensures CompactionPanics(view, n) <==> exists i :: 0 <= i < n && Live(view, i) && !Named(view, i)
  {
    hide WfView, RecordPanics;
    if n > 0 {
      CompactionPanicsIff(view, n - 1);
      if Named(view, n - 1) {
        RecordingGrows(view, n - 1);
      } else if Live(view, n - 1) {
        assert !Named(view, n - 1);
      }
    }
  }

  /** Such an entry comes from a file whose deps record names an output that no
      path record introduced; a byte behind it asks for compaction. */
  lemma UnnamedOutputPanics(out: nat, lo: int, hi: int)
    requires out < OVERFLOW_OUTPUT && -TWO_31 <= lo < TWO_31 && -TWO_31 <= hi < TWO_31
    ensures var f := FILE_HEADER + (PutInt32(DepsHeader(12)) + PutInt32s([out, lo, hi])) + [0];
            match Decode(f)
            case Some(Loaded(r, broken)) => broken && CompactionPanics(r.log, |r.log.deps|)
            case _ => false
  {
    hide PutInt32, GetInt32, GetInt32s, RecordSize, IsDepsRecord, DepsHeader, Recorded, RecordPanics;
    var body := PutInt32s([out, lo, hi]);
    var f := FILE_HEADER + (PutInt32(DepsHeader(12)) + body) + [0];
    assert f[..16] == FILE_HEADER && |f| == 33;
    assert f[16..32] == PutInt32(DepsHeader(12)) + body;
    Framed(f, 16, DepsHeader(12), body);
    HeaderRoundTrip(12);
    Int32sRoundTrip([out, lo, hi]);
    assert [out, lo, hi][3..] == [];
    var r := AddDeps(EMPTY_READER, out, DepsRecord(JoinMtime(lo, hi), []));
    LoopEnds(f, 16, EMPTY_READER);
    LoopEnds(f, 32, r);
    assert ReadStep(f, 16, EMPTY_READER) == Next(32, r);
    assert ReadStep(f, 32, r) == Broken;
    assert ReadLoop(f, 16, EMPTY_READER) == Loaded(r, true);
    assert CompactionPanics(r.log, out + 1);
  }

  lemma RecordingGrows(view: LogState, i: nat)
    requires WfView(view) && |view.paths| <= OVERFLOW_OUTPUT && Named(view, i)
    ensures var rec := view.deps[i].value; !RecordPanics(Compacted(view, i), view.paths[i], rec.mtime, rec.inputs)
  {
    hide WillUpdate, SetDeps, InternAll, TableCap;
    var log, out, rec := Compacted(view, i), view.paths[i], view.deps[i].value;
    CompactedGet(view, i);
    CompactedSize(view);
    InternAllFacts(log, [out] + rec.inputs);
    RecordedPaths(log, out, rec.mtime, rec.inputs);
    assert Compacted(view, i + 1) == Recorded(log, out, rec.mtime, rec.inputs);
  }
}
