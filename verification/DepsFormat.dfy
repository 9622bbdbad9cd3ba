/** The deps log file format: record encoders, the record reader and the read
    loop, with the round trip and the crash-prefix theorems. */
module DepsFormat {
  import opened Wrappers
  import opened GoInts

  type Path = Bytes

  // "# ninjadeps\n"
  const FILE_SIGNATURE: Bytes := [35, 32, 110, 105, 110, 106, 97, 100, 101, 112, 115, 10]
  const CURRENT_VERSION := 4
  const MAX_RECORD_SIZE := 0x7_FFFF

  const FILE_HEADER: Bytes := FILE_SIGNATURE + PutInt32(CURRENT_VERSION)

  datatype DepsRecord = DepsRecord(mtime: int64, inputs: seq<Path>)

  /** The in-memory log: `paths`, its reverse index and the deps by output id. */
  datatype LogState = LogState(paths: seq<Path>, pathIdx: map<Path, nat>, deps: seq<Option<DepsRecord>>)

  const EMPTY_LOG := LogState([], map[], [])

  /** What the read loop carries: the log and its two record counters. */
  datatype Reader = Reader(log: LogState, total: nat, unique: nat)

  const EMPTY_READER := Reader(EMPTY_LOG, 0, 0)

  // ---------------------------------------------------------------- reading

  /** High bit of the signed header: `(h >> 31) != 0`. */
  predicate IsDepsRecord(header: int) {
    header < 0
  }

  /** `int(h) & 0x7FFFFFF`, on the sign-extended header. */
  function RecordSize(header: int): nat {
    header % 0x800_0000
  }

  /** Entry `i` becomes `rec`; the table grows with absent entries when needed. */
  function SetDeps(deps: seq<Option<DepsRecord>>, i: nat, rec: DepsRecord): (r: seq<Option<DepsRecord>>)
    ensures |r| == if i < |deps| then |deps| else i + 1
    ensures r[i] == Some(rec)
    ensures forall j :: 0 <= j < |r| && j != i ==> r[j] == if j < |deps| then deps[j] else None
  {
    if i < |deps| then deps[i := Some(rec)]
    else deps + seq(i - |deps|, _ => None) + [Some(rec)]
  }

  /** The first output number at which `update` cannot grow the table: rounding
      it up to the next multiple of 100 overflows an int32. */
  const OVERFLOW_OUTPUT := TWO_31 - 100

  /** The capacity of a table of `n` entries, which grows by the hundred. */
  function TableCap(n: nat): (c: nat)
    ensures n <= c < n + 100
  {
    (n + 99) / 100 * 100
  }

  /** Does `update` of an int32 `out` stop the process? It indexes a negative
      entry, or makes a slice whose capacity has overflown. */
  predicate UpdatePanics(out: int, numDeps: nat) {
    out < 0 || (TableCap(numDeps) <= out && OVERFLOW_OUTPUT <= out)
  }

  /** Up to `k` trailing zero bytes of `body[..n]` are dropped; running into the
      front of the record is the "path size is corrupted" error. */
  function StripPadding(body: Bytes, n: int, k: nat): Option<nat>
    requires n <= |body|
    decreases k
  {
    if k == 0 then (if n < 0 then None else Some(n))
    else if n - 1 < 0 then None
    else if body[n - 1] == 0 then StripPadding(body, n - 1, k - 1)
    else StripPadding(body, n, k - 1)
  }

  function ReadPathRecord(body: Bytes, numPaths: nat): Option<Path> {
    var stripped := StripPadding(body, |body| - 4, 3);
    if stripped.None? then None
    else
      var n := stripped.value;
      if n > |body| || |body| < 4 then None
      else
        var checksum := GetInt32(body[|body| - 4..]);
        if numPaths != Complement(checksum) then None
        else Some(body[..n])
  }

  /** What a deps record parses to. `Invalid` is skipped by the loop; `Short`
      indexes out of range in Go and stops the process. */
  datatype ParsedDeps = Short | Invalid | Parsed(out: int, rec: DepsRecord)

  function LookupPaths(ids: seq<int>, paths: seq<Path>): Option<seq<Path>> {
    if ids == [] then Some([])
    else if !(0 <= ids[0] < |paths|) then None
    else
      var rest := LookupPaths(ids[1..], paths);
      if rest.None? then None else Some([paths[ids[0]]] + rest.value)
  }

  function JoinMtime(lo: int, hi: int): int64 {
    ToInt64(ToUint32(hi) * TWO_32 + ToUint32(lo))
  }

  function ReadDepsRecord(body: Bytes, paths: seq<Path>): ParsedDeps {
    var rec := GetInt32s(body, |body| / 4);
    if |rec| < 3 then Short
    else
      var inputs := LookupPaths(rec[3..], paths);
      if inputs.None? then Invalid
      else Parsed(rec[0], DepsRecord(JoinMtime(rec[1], rec[2]), inputs.value))
  }

  datatype Step = Eof | Broken | Crash | Next(off: nat, r: Reader)

  function AddPath(log: LogState, path: Path): LogState {
    log.(pathIdx := log.pathIdx[path := |log.paths|], paths := log.paths + [path])
  }

  function AddDeps(r: Reader, out: nat, rec: DepsRecord): Reader {
    Reader(r.log.(deps := SetDeps(r.log.deps, out, rec)), r.total + 1,
           if out < |r.log.deps| then r.unique else r.unique + 1)
  }

  /** One iteration of the read loop at offset `off` of file `f`. */
  function ReadStep(f: Bytes, off: nat, r: Reader): (s: Step)
    requires off <= |f|
    ensures s.Next? ==> off < s.off <= |f|
  {
    if off == |f| then Eof
    else if |f| - off < 4 then Broken
    else
      var header := GetInt32(f[off..off + 4]);
      var size := RecordSize(header);
      if size > MAX_RECORD_SIZE then Broken
      // reading zero bytes at the end of the file reports EOF as well
      else if |f| - (off + 4) < size || off + 4 == |f| then Broken
      else
        var next := off + 4 + size;
        var body := f[off + 4..next];
        if IsDepsRecord(header) then
          match ReadDepsRecord(body, r.log.paths)
          case Short => Crash
          case Invalid => Next(next, r)
          case Parsed(out, rec) =>
            if out == -1 then Next(next, r)
            else if UpdatePanics(out, |r.log.deps|) then Crash
            else Next(next, AddDeps(r, out, rec))
        else
          match ReadPathRecord(body, |r.log.paths|)
          case None => Broken
          case Some(path) => Next(next, r.(log := AddPath(r.log, path)))
  }

  datatype Outcome = Loaded(r: Reader, broken: bool) | Crashed

  /** The read loop from offset `off` to the end of the file. */
  function ReadLoop(f: Bytes, off: nat, r: Reader): Outcome
    requires off <= |f|
    decreases |f| - off
  {
    match ReadStep(f, off, r)
    case Eof => Loaded(r, false)
    case Broken => Loaded(r, true)
    case Crash => Crashed
    case Next(next, r') => ReadLoop(f, next, r')
  }

  /** `NewDepsLog` on the bytes of an existing file; `None` when the signature
      or the version is wrong and the file is created anew. */
  function Decode(f: Bytes): Option<Outcome> {
    if |f| < 16 || f[..16] != FILE_HEADER then None
    else Some(ReadLoop(f, 16, EMPTY_READER))
  }

  // ---------------------------------------------------------------- writing

  function Padding(n: nat): nat {
    (4 - n % 4) % 4
  }

  function Zeros(n: nat): (b: Bytes)
    ensures |b| == n
  {
    seq(n, _ => 0)
  }

  function PathRecordSize(path: Path): nat {
    |path| + Padding(|path|) + 4
  }

  function DepsRecordSize(inputs: nat): nat {
    4 + 4 + 4 + 4 * inputs
  }

  function PathBody(path: Path, i: nat): Bytes {
    path + Zeros(Padding(|path|)) + PutInt32(Complement(i))
  }

  function EncodePath(path: Path, i: nat): Bytes {
    PutInt32(PathRecordSize(path)) + PathBody(path, i)
  }

  function MtimeLo(t: int64): int {
    ToInt32(t % TWO_32)
  }

  /** `int32(t >> 32)`; an arithmetic shift rounds down, as `/` does here. */
  function MtimeHi(t: int64): int {
    ToInt32(t / TWO_32)
  }

  function DepsBody(out: nat, mtime: int64, ids: seq<nat>): Bytes {
    PutInt32s([out, MtimeLo(mtime), MtimeHi(mtime)] + ids)
  }

  /** `int32(uint32(size) | 1<<31)`. */
  function DepsHeader(size: nat): int {
    ToInt32(size + TWO_31)
  }

  function EncodeDeps(out: nat, mtime: int64, ids: seq<nat>): Bytes {
    PutInt32(DepsHeader(DepsRecordSize(|ids|))) + DepsBody(out, mtime, ids)
  }

  // ------------------------------------------------------ record histories

  /** A record as the writer emits it. */
  datatype Rec = PathRec(path: Path) | DepsRec(out: nat, mtime: int64, ids: seq<nat>)

  function Encode(rec: Rec, numPaths: nat): Bytes {
    match rec
    case PathRec(path) => EncodePath(path, numPaths)
    case DepsRec(out, mtime, ids) => EncodeDeps(out, mtime, ids)
  }

  function PathsOf(paths: seq<Path>, ids: seq<nat>): (r: seq<Path>)
    requires forall k :: 0 <= k < |ids| ==> ids[k] < |paths|
    ensures |r| == |ids|
    ensures forall k :: 0 <= k < |ids| ==> r[k] == paths[ids[k]]
  {
    seq(|ids|, k requires 0 <= k < |ids| => paths[ids[k]])
  }

  /** The writer's own limits: the record fits, ids name recorded paths, and the
      table can hold the output. */
  predicate ValidRec(rec: Rec, numPaths: nat, numDeps: nat) {
    match rec
    case PathRec(path) => PathRecordSize(path) <= MAX_RECORD_SIZE && numPaths < TWO_31
    case DepsRec(out, mtime, ids) =>
      && DepsRecordSize(|ids|) <= MAX_RECORD_SIZE
      && out < numPaths <= TWO_31
      && !UpdatePanics(out, numDeps)
      && forall k :: 0 <= k < |ids| ==> ids[k] < numPaths
  }

  /** What a record means: the log after it. */
  function Apply(rec: Rec, r: Reader): Reader
    requires ValidRec(rec, |r.log.paths|, |r.log.deps|)
  {
    match rec
    case PathRec(path) => r.(log := AddPath(r.log, path))
    case DepsRec(out, mtime, ids) => AddDeps(r, out, DepsRecord(mtime, PathsOf(r.log.paths, ids)))
  }

  function PathCount(recs: seq<Rec>): nat {
    if recs == [] then 0
    else PathCount(recs[..|recs| - 1]) + if recs[|recs| - 1].PathRec? then 1 else 0
  }

  /** The length of the table after a history. */
  function DepsCount(recs: seq<Rec>): nat {
    if recs == [] then 0
    else
      var n := DepsCount(recs[..|recs| - 1]);
      CountWith(recs[|recs| - 1], n)
  }

  function CountWith(rec: Rec, n: nat): nat {
    match rec
    case PathRec(_) => n
    case DepsRec(out, _, _) => if out < n then n else out + 1
  }

  predicate ValidRecs(recs: seq<Rec>) {
    recs != [] ==>
      && ValidRecs(recs[..|recs| - 1])
      && ValidRec(recs[|recs| - 1], PathCount(recs[..|recs| - 1]), DepsCount(recs[..|recs| - 1]))
  }

  function EncodeAll(recs: seq<Rec>): Bytes {
    if recs == [] then []
    else EncodeAll(recs[..|recs| - 1]) + Encode(recs[|recs| - 1], PathCount(recs[..|recs| - 1]))
  }

  function ApplyAll(recs: seq<Rec>): (r: Reader)
    requires ValidRecs(recs)
    ensures |r.log.paths| == PathCount(recs) && |r.log.deps| == DepsCount(recs)
  {
    if recs == [] then EMPTY_READER
    else Apply(recs[|recs| - 1], ApplyAll(recs[..|recs| - 1]))
  }

  function FileOf(recs: seq<Rec>): Bytes {
    FILE_HEADER + EncodeAll(recs)
  }

  // -------------------------------------------------------------- round trip

  /** The paths the format can hold: stripping three bytes at most must undo
      exactly the padding. */
  predicate Readable(path: Path) {
    path != [] && (path[|path| - 1] != 0 || |path| % 4 == 1)
  }

  predicate ReadableRec(rec: Rec) {
    rec.PathRec? ==> Readable(rec.path)
  }

  predicate ReadableRecs(recs: seq<Rec>) {
    forall k :: 0 <= k < |recs| ==> ReadableRec(recs[k])
  }

  lemma MtimeRoundTrip(t: int64)
    ensures JoinMtime(MtimeLo(t), MtimeHi(t)) == t
  {
    assert ToUint32(MtimeLo(t)) == t % TWO_32;
    assert ToUint32(MtimeHi(t)) == (t / TWO_32) % TWO_32;
    var q := t / TWO_32;
    assert t == q * TWO_32 + t % TWO_32;
    assert -TWO_31 <= q < TWO_31;
    if q >= 0 {
      assert q % TWO_32 == q;
    } else {
      assert q % TWO_32 == q + TWO_32;
    }
  }

  lemma {:induction false} StripZeros(body: Bytes, n: int, k: nat)
    requires 0 <= n <= |body|
    ensures StripPadding(body, n, k).Some? ==>
              var m := StripPadding(body, n, k).value;
              && n - k <= m <= n
              && (forall j :: m <= j < n ==> body[j] == 0)
              && (n - k < m ==> m > 0 && body[m - 1] != 0)
    decreases k
  {
    if k > 0 && n > 0 {
      if body[n - 1] == 0 {
        StripZeros(body, n - 1, k - 1);
      } else {
        StripZeros(body, n, k - 1);
      }
    }
  }

  /** With a nonzero byte in sight, stripping finds it and does not fail. */
  lemma {:induction false} StripFinds(body: Bytes, m: nat, n: nat, k: nat)
    requires 0 < m <= n <= |body| && n - m <= k
    requires forall j :: m <= j < n ==> body[j] == 0
    requires body[m - 1] != 0 || n - m == k
    ensures StripPadding(body, n, k) == Some(m)
    decreases k
  {
    if k > 0 {
      if n > m {
        StripFinds(body, m, n - 1, k - 1);
      } else {
        StripFinds(body, m, n, k - 1);
      }
    }
  }

  /** A path record reads back as its own path iff the path is `Readable`;
      otherwise it is an error or another path. */
  lemma PathRecordRoundTrip(path: Path, i: nat)
    requires i < TWO_31
    ensures ReadPathRecord(PathBody(path, i), i) == Some(path) <==> Readable(path)
  {
    var body := PathBody(path, i);
    var n := |body| - 4;
    assert body[n..] == PutInt32(Complement(i));
    Int32RoundTrip(Complement(i));
    assert ToInt32(Complement(i)) == Complement(i);
    assert body[..|path|] == path;
    if Readable(path) {
      assert path[|path| - 1] == body[|path| - 1];
      StripFinds(body, |path|, n, 3);
    } else if path != [] {
      assert body[|path| - 1] == 0;
      StripZeros(body, n, 3);
    } else {
      assert n == 0;
    }
  }

  lemma {:induction false} LookupRecorded(ids: seq<nat>, paths: seq<Path>)
    requires forall k :: 0 <= k < |ids| ==> ids[k] < |paths|
    ensures LookupPaths(ids, paths) == Some(PathsOf(paths, ids))
  {
    if ids != [] {
      LookupRecorded(ids[1..], paths);
      assert PathsOf(paths, ids) == [paths[ids[0]]] + PathsOf(paths, ids[1..]);
    }
  }

  lemma DepsRecordRoundTrip(out: nat, mtime: int64, ids: seq<nat>, paths: seq<Path>)
    requires out < TWO_31 && |paths| <= TWO_31
    requires forall k :: 0 <= k < |ids| ==> ids[k] < |paths|
    ensures ReadDepsRecord(DepsBody(out, mtime, ids), paths) == Parsed(out, DepsRecord(mtime, PathsOf(paths, ids)))
  {
    var words := [out, MtimeLo(mtime), MtimeHi(mtime)] + ids;
    Int32sRoundTrip(words);
    MtimeRoundTrip(mtime);
    assert words[3..] == ids;
    LookupRecorded(ids, paths);
  }

  lemma HeaderBits(size: nat)
    requires size <= MAX_RECORD_SIZE
    ensures ToInt32(size) == size && RecordSize(size) == size
    ensures DepsHeader(size) == size - TWO_31 && RecordSize(size - TWO_31) == size
    ensures ToInt32(size - TWO_31) == size - TWO_31
  {
  }

  lemma HeaderRoundTrip(size: nat)
    requires size <= MAX_RECORD_SIZE
    ensures var h := GetInt32(PutInt32(size)); !IsDepsRecord(h) && RecordSize(h) == size
    ensures var h := GetInt32(PutInt32(DepsHeader(size))); IsDepsRecord(h) && RecordSize(h) == size
  {
    HeaderBits(size);
    Int32RoundTrip(size);
    Int32RoundTrip(DepsHeader(size));
  }

  /** Reading one emitted record at `off` applies it, iff its path is readable. */
  lemma ReadStepApplies(f: Bytes, off: nat, rec: Rec, r: Reader)
    requires ValidRec(rec, |r.log.paths|, |r.log.deps|)
    requires off + |Encode(rec, |r.log.paths|)| <= |f|
    requires f[off..off + |Encode(rec, |r.log.paths|)|] == Encode(rec, |r.log.paths|)
    ensures ReadableRec(rec) ==>
              ReadStep(f, off, r) == Next(off + |Encode(rec, |r.log.paths|)|, Apply(rec, r))
    ensures !ReadableRec(rec) ==>
              var s := ReadStep(f, off, r);
              s == Broken || (&& s.Next? && s.off == off + |Encode(rec, |r.log.paths|)|
                              && s.r.log.paths != r.log.paths + [rec.path] && |s.r.log.paths| == |r.log.paths| + 1
                              && s.r.log.deps == r.log.deps)
  {
    match rec
    case PathRec(path) => ReadStepPath(f, off, path, r);
    case DepsRec(out, mtime, ids) => ReadStepDeps(f, off, out, mtime, ids, r);
  }

  /** A record of `size` bytes is framed by its header at `off`. */
  lemma Framed(f: Bytes, off: nat, header: int, body: Bytes)
    requires off + 4 + |body| <= |f|
    requires f[off..off + 4 + |body|] == PutInt32(header) + body
    ensures f[off..off + 4] == PutInt32(header)
    ensures f[off + 4..off + 4 + |body|] == body
  {
    var window := f[off..off + 4 + |body|];
    assert f[off..off + 4] == window[..4];
    assert f[off + 4..off + 4 + |body|] == window[4..];
  }

  lemma ReadStepPath(f: Bytes, off: nat, path: Path, r: Reader)
    requires ValidRec(PathRec(path), |r.log.paths|, |r.log.deps|)
    requires off + |EncodePath(path, |r.log.paths|)| <= |f|
    requires f[off..off + |EncodePath(path, |r.log.paths|)|] == EncodePath(path, |r.log.paths|)
    ensures Readable(path) ==>
              ReadStep(f, off, r) == Next(off + |EncodePath(path, |r.log.paths|)|, r.(log := AddPath(r.log, path)))
    ensures !Readable(path) ==>
              var s := ReadStep(f, off, r);
              s == Broken || (&& s.Next? && s.off == off + |EncodePath(path, |r.log.paths|)|
                              && s.r.log.paths != r.log.paths + [path] && |s.r.log.paths| == |r.log.paths| + 1
                              && s.r.log.deps == r.log.deps)
  {
    hide PutInt32, GetInt32, PathBody, RecordSize, IsDepsRecord, ReadPathRecord, Padding;
    var body := PathBody(path, |r.log.paths|);
    PathBodyLength(path, |r.log.paths|);
    Framed(f, off, PathRecordSize(path), body);
    HeaderRoundTrip(PathRecordSize(path));
    PathRecordRoundTrip(path, |r.log.paths|);
    var read := ReadPathRecord(body, |r.log.paths|);
    if !Readable(path) && read.Some? {
      assert (r.log.paths + [read.value])[|r.log.paths|] == read.value;
      assert (r.log.paths + [path])[|r.log.paths|] == path;
    }
  }

  lemma PathBodyLength(path: Path, i: nat)
    ensures |PathBody(path, i)| == PathRecordSize(path)
  {
  }

  lemma {:induction false} ReadStepDeps(f: Bytes, off: nat, out: nat, mtime: int64, ids: seq<nat>, r: Reader)
    requires ValidRec(DepsRec(out, mtime, ids), |r.log.paths|, |r.log.deps|)
    requires off + |EncodeDeps(out, mtime, ids)| <= |f|
    requires f[off..off + |EncodeDeps(out, mtime, ids)|] == EncodeDeps(out, mtime, ids)
    ensures ReadStep(f, off, r) == Next(off + |EncodeDeps(out, mtime, ids)|, Apply(DepsRec(out, mtime, ids), r))
  {
    hide PutInt32, GetInt32, ReadDepsRecord, RecordSize, IsDepsRecord, DepsHeader, MtimeLo, MtimeHi;
    var body := DepsBody(out, mtime, ids);
    Framed(f, off, DepsHeader(DepsRecordSize(|ids|)), body);
    HeaderRoundTrip(DepsRecordSize(|ids|));
    DepsRecordRoundTrip(out, mtime, ids, r.log.paths);
  }

  lemma {:induction false} EncodePrefix(recs: seq<Rec>, n: nat)
    requires n <= |recs|
    ensures EncodeAll(recs[..n]) <= EncodeAll(recs)
    ensures n < |recs| ==> EncodeAll(recs[..n]) + Encode(recs[n], PathCount(recs[..n])) <= EncodeAll(recs)
    ensures PathCount(recs[..n]) <= PathCount(recs)
  {
    hide Encode;
    if n == |recs| {
      assert recs[..n] == recs;
    } else {
      var init := recs[..|recs| - 1];
      EncodePrefix(init, n);
      assert init[..n] == recs[..n];
      if n == |init| {
        assert init[..n] == init;
      }
    }
  }

  lemma {:induction false} PrefixRecs(recs: seq<Rec>, n: nat)
    requires n <= |recs| && ValidRecs(recs)
    ensures ValidRecs(recs[..n])
    ensures n < |recs| ==> ValidRec(recs[n], PathCount(recs[..n]), DepsCount(recs[..n]))
    ensures ApplyAll(recs[..n]).log.paths <= ApplyAll(recs).log.paths
  {
    if n == |recs| {
      assert recs[..n] == recs;
    } else {
      var init := recs[..|recs| - 1];
      PrefixRecs(init, n);
      assert init[..n] == recs[..n];
      if n == |init| {
        assert init[..n] == init;
      }
    }
  }

  /** The loop reads through whole readable records, whatever follows them. */
  lemma {:induction false} ReadsRecords(f: Bytes, recs: seq<Rec>)
    requires ValidRecs(recs) && ReadableRecs(recs)
    requires 16 + |EncodeAll(recs)| <= |f|
    requires f[16..16 + |EncodeAll(recs)|] == EncodeAll(recs)
    ensures ReadLoop(f, 16, EMPTY_READER) == ReadLoop(f, 16 + |EncodeAll(recs)|, ApplyAll(recs))
  {
    hide Encode, ReadStep, Apply;
    if recs != [] {
      var init, last := recs[..|recs| - 1], recs[|recs| - 1];
      var off := 16 + |EncodeAll(init)|;
      var e := Encode(last, PathCount(init));
      var all := f[16..off + |e|];
      assert f[16..off] == all[..off - 16] == EncodeAll(init);
      assert f[off..off + |e|] == all[off - 16..] == e;
      ReadsRecords(f, init);
      ReadStepApplies(f, off, last, ApplyAll(init));
    }
  }

  lemma {:induction false} ReadLoopKeepsPaths(f: Bytes, off: nat, r: Reader)
    requires off <= |f|
    ensures var o := ReadLoop(f, off, r); o.Loaded? ==> r.log.paths <= o.r.log.paths
    decreases |f| - off
  {
    var s := ReadStep(f, off, r);
    if s.Next? {
      ReadLoopKeepsPaths(f, s.off, s.r);
      assert r.log.paths <= s.r.log.paths;
    }
  }

  /** Where record number `n` and the records before it lie in a cut file. */
  lemma FileSlices(recs: seq<Rec>, n: nat, cut: nat)
    requires n <= |recs|
    requires 16 + |EncodeAll(recs[..n])| <= cut <= |FileOf(recs)|
    ensures var f, off := FileOf(recs)[..cut], 16 + |EncodeAll(recs[..n])|;
            && f[..16] == FILE_HEADER
            && f[16..off] == EncodeAll(recs[..n])
            && (n < |recs| ==>
                  var e := Encode(recs[n], PathCount(recs[..n]));
                  if cut < off + |e| then f[off..] == e[..cut - off] else f[off..off + |e|] == e)
  {
    hide Encode, EncodeAll, PathCount;
    EncodePrefix(recs, n);
    var e := if n < |recs| then Encode(recs[n], PathCount(recs[..n])) else [];
    assert EncodeAll(recs[..n]) + [] == EncodeAll(recs[..n]);
    SlicesOf(FILE_HEADER, EncodeAll(recs), EncodeAll(recs[..n]), e, cut);
  }

  lemma SlicesOf(head: Bytes, all: Bytes, pre: Bytes, e: Bytes, cut: nat)
    requires pre + e <= all && |head| + |pre| <= cut <= |head| + |all|
    ensures var f, off := (head + all)[..cut], |head| + |pre|;
            && f[..|head|] == head && f[|head|..off] == pre
            && if cut < off + |e| then f[off..] == e[..cut - off] else f[off..off + |e|] == e
  {
    var whole, off := head + all, |head| + |pre|;
    var f := whole[..cut];
    assert whole[|head|..] == all;
    assert f[|head|..off] == all[..|pre|] == (pre + e)[..|pre|];
    if cut < off + |e| {
      assert f[off..] == all[|pre|..cut - |head|] == (pre + e)[|pre|..cut - |head|];
    } else {
      assert f[off..off + |e|] == whole[off..off + |e|];
      assert whole[off..off + |e|] == all[|pre|..|pre| + |e|];
      assert all[..|pre| + |e|] == pre + e;
      assert all[|pre|..|pre| + |e|] == all[..|pre| + |e|][|pre|..];
    }
  }

  /** Once a wrong path is read, or the loop stops, the log never is `target`. */
  lemma Diverges(f: Bytes, off: nat, r: Reader, path: Path, target: Reader)
    requires off <= |f|
    requires r.log.paths + [path] <= target.log.paths
    requires var s := ReadStep(f, off, r);
             s == Broken || (s.Next? && s.r.log.paths != r.log.paths + [path] && |s.r.log.paths| == |r.log.paths| + 1)
    ensures var o := ReadLoop(f, off, r); o.Loaded? ==> o.r.log.paths != target.log.paths
  {
    hide ReadStep;
    var s := ReadStep(f, off, r);
    if s.Next? {
      ReadLoopKeepsPaths(f, s.off, s.r);
    }
  }

  /** The unreadable record number `k` makes the loop stop or read another path. */
  lemma UnreadableDiverges(recs: seq<Rec>, k: nat)
    requires ValidRecs(recs) && k < |recs|
    requires ReadableRecs(recs[..k]) && !ReadableRec(recs[k])
    ensures var o := ReadLoop(FileOf(recs), 16, EMPTY_READER); o.Loaded? ==> o.r.log.paths != ApplyAll(recs).log.paths
  {
    hide *;
    var f, pre := FileOf(recs), recs[..k];
    EncodePrefix(recs, k);
    PrefixRecs(recs, k);
    FileLength(recs, k);
    FileSlices(recs, k, |f|);
    assert f[..|f|] == f;
    ReadsRecords(f, pre);
    var off, r := 16 + |EncodeAll(pre)|, ApplyAll(pre);
    ReadStepApplies(f, off, recs[k], r);
    PathApplied(recs, k);
    Diverges(f, off, r, recs[k].path, ApplyAll(recs));
  }

  lemma FileLength(recs: seq<Rec>, n: nat)
    requires n <= |recs|
    ensures 16 + |EncodeAll(recs[..n])| <= |FileOf(recs)| == 16 + |EncodeAll(recs)|
    ensures n < |recs| ==>
              16 + |EncodeAll(recs[..n])| + |Encode(recs[n], PathCount(recs[..n]))| <= |FileOf(recs)|
  {
    hide Encode;
    EncodePrefix(recs, n);
  }

  lemma PathApplied(recs: seq<Rec>, k: nat)
    requires ValidRecs(recs) && k < |recs| && !ReadableRec(recs[k])
    ensures ValidRecs(recs[..k]) && recs[k].PathRec?
    ensures ApplyAll(recs[..k]).log.paths + [recs[k].path] <= ApplyAll(recs).log.paths
  {
    hide Encode, EncodeAll, ValidRec, DepsCount, Apply;
    PrefixRecs(recs, k);
    PrefixRecs(recs, k + 1);
    assert recs[..k + 1][..k] == recs[..k];
    assert ApplyAll(recs[..k + 1]) == Apply(recs[k], ApplyAll(recs[..k]));
    PathAdded(recs[k], ApplyAll(recs[..k]));
  }

  lemma PathAdded(rec: Rec, r: Reader)
    requires rec.PathRec? && ValidRec(rec, |r.log.paths|, |r.log.deps|)
    ensures Apply(rec, r).log.paths == r.log.paths + [rec.path]
  {
  }

  lemma FirstUnreadable(recs: seq<Rec>) returns (k: nat)
    requires !ReadableRecs(recs)
    ensures k < |recs| && !ReadableRec(recs[k]) && ReadableRecs(recs[..k])
  {
    k := 0;
    while ReadableRec(recs[k])
      invariant k < |recs| && ReadableRecs(recs[..k])
      decreases |recs| - k
    {
      k := k + 1;
      assert ReadableRecs(recs[..k]);
    }
  }

  /** Loading file `f` gives memory `log`. */
  predicate ReadsBack(f: Bytes, log: LogState) {
    match Decode(f)
    case Some(Loaded(r, _)) => r.log == log
    case _ => false
  }

  /** Reading a written file gives back the log that wrote it, with every path,
      index, dependency and 64-bit time, iff every recorded path is readable. */
  lemma FileRoundTrip(recs: seq<Rec>)
    requires ValidRecs(recs)
    ensures ReadableRecs(recs) ==> Decode(FileOf(recs)) == Some(Loaded(ApplyAll(recs), false))
    ensures ReadsBack(FileOf(recs), ApplyAll(recs).log) <==> ReadableRecs(recs)
  {
    var f := FileOf(recs);
    assert f[..16] == FILE_HEADER;
    assert f[16..] == EncodeAll(recs);
    if ReadableRecs(recs) {
      assert f[16..16 + |EncodeAll(recs)|] == f[16..];
      ReadsRecords(f, recs);
    } else {
      var k := FirstUnreadable(recs);
      UnreadableDiverges(recs, k);
    }
  }

  predicate ReadablePaths(paths: seq<Path>) {
    forall i :: 0 <= i < |paths| ==> Readable(paths[i])
  }

  lemma ReadablePathsSnoc(paths: seq<Path>, path: Path)
    ensures ReadablePaths(paths + [path]) <==> ReadablePaths(paths) && Readable(path)
  {
    hide Readable;
    assert forall i :: 0 <= i < |paths| ==> (paths + [path])[i] == paths[i];
    assert (paths + [path])[|paths|] == path;
  }

  lemma {:induction false} RecordedPathsReadable(recs: seq<Rec>)
    requires ValidRecs(recs)
    ensures ReadableRecs(recs) <==> ReadablePaths(ApplyAll(recs).log.paths)
  {
    hide Readable, Encode, ValidRec, ReadablePaths;
    if recs == [] {
      assert ReadablePaths([]) by { ReadNothing(); }
    } else {
      var init, last := recs[..|recs| - 1], recs[|recs| - 1];
      RecordedPathsReadable(init);
      assert ReadableRecs(recs) <==> ReadableRecs(init) && ReadableRec(last) by {
        assert forall k :: 0 <= k < |init| ==> recs[k] == init[k];
      }
      if last.PathRec? {
        ReadablePathsSnoc(ApplyAll(init).log.paths, last.path);
      }
    }
  }

  lemma ReadNothing()
    ensures ReadablePaths([])
  {
  }

  // ------------------------------------------------------------ crash prefix

  /** How many whole records the first `k` bytes of the body hold. */
  function WholeRecords(recs: seq<Rec>, k: nat): (n: nat)
    ensures n <= |recs|
  {
    if recs == [] then 0
    else if |EncodeAll(recs)| <= k then |recs|
    else WholeRecords(recs[..|recs| - 1], k)
  }

  lemma {:induction false} WholeRecordsLongest(recs: seq<Rec>, k: nat)
    ensures var n := WholeRecords(recs, k);
            && |EncodeAll(recs[..n])| <= k
            && forall m :: n < m <= |recs| ==> k < |EncodeAll(recs[..m])|
  {
    hide Encode;
    if recs != [] {
      assert recs[..|recs|] == recs;
      var init := recs[..|recs| - 1];
      assert forall m :: 0 <= m <= |init| ==> init[..m] == recs[..m];
      WholeRecordsLongest(init, k);
    }
  }

  lemma PartialRecord(f: Bytes, off: nat, rec: Rec, r: Reader)
    requires ValidRec(rec, |r.log.paths|, |r.log.deps|)
    requires off < |f| < off + |Encode(rec, |r.log.paths|)|
    requires f[off..] <= Encode(rec, |r.log.paths|)
    ensures ReadStep(f, off, r) == Broken
  {
    var e := Encode(rec, |r.log.paths|);
    if |f| - off >= 4 {
      assert f[off..off + 4] == f[off..][..4] == e[..4];
      match rec
      case PathRec(path) =>
        assert e[..4] == PutInt32(PathRecordSize(path));
        HeaderRoundTrip(PathRecordSize(path));
      case DepsRec(out, mtime, ids) =>
        assert e[..4] == PutInt32(DepsHeader(DepsRecordSize(|ids|)));
        HeaderRoundTrip(DepsRecordSize(|ids|));
    }
  }

  /** A cut inside record number `n`, or just before it. */
  lemma CutInRecord(recs: seq<Rec>, n: nat, cut: nat)
    requires ValidRecs(recs) && ReadableRecs(recs) && n <= |recs|
    requires 16 + |EncodeAll(recs[..n])| <= cut <= |FileOf(recs)|
    requires n < |recs| ==> cut < 16 + |EncodeAll(recs[..n + 1])|
    ensures ValidRecs(recs[..n])
    ensures Decode(FileOf(recs)[..cut]) == Some(Loaded(ApplyAll(recs[..n]), cut != |FileOf(recs[..n])|))
  {
    hide Encode, ReadStep, Apply;
    var f, pre := FileOf(recs)[..cut], recs[..n];
    var off := 16 + |EncodeAll(pre)|;
    PrefixRecs(recs, n);
    FileSlices(recs, n, cut);
    ReadsRecords(f, pre);
    if n == |recs| {
      assert pre == recs;
    } else {
      assert recs[..n + 1][..n] == pre;
      if off < cut {
        PartialRecord(f, off, recs[n], ApplyAll(pre));
      }
    }
    hide EncodeAll, ApplyAll;
    CutStep(f, off, ApplyAll(pre));
  }

  lemma CutStep(f: Bytes, off: nat, r: Reader)
    requires off <= |f|
    requires off < |f| ==> ReadStep(f, off, r) == Broken
    ensures ReadLoop(f, off, r) == Loaded(r, off < |f|)
  {
  }

  /** A file cut anywhere decodes to the longest whole-record prefix, and is
      broken iff the cut is inside a record; a cut inside the 16-byte file
      header makes the log start anew. */
  lemma CrashPrefix(recs: seq<Rec>, cut: nat)
    requires ValidRecs(recs) && ReadableRecs(recs)
    requires cut <= |FileOf(recs)|
    ensures cut < 16 ==> Decode(FileOf(recs)[..cut]) == None
    ensures cut >= 16 ==>
              var n := WholeRecords(recs, cut - 16);
              && ValidRecs(recs[..n])
              && Decode(FileOf(recs)[..cut]) ==
                 Some(Loaded(ApplyAll(recs[..n]), cut != |FileOf(recs[..n])|))
  {
    hide *;
    if cut >= 16 {
      WholeRecordsLongest(recs, cut - 16);
      CutInRecord(recs, WholeRecords(recs, cut - 16), cut);
    } else {
      ShortFile(FileOf(recs)[..cut]);
    }
  }

  lemma ShortFile(f: Bytes)
    requires |f| < 16
    ensures Decode(f) == None
  {
  }

  // ----------------------------------------------------------------- crashes

  predicate Names(ids: seq<int>, numPaths: nat) {
    forall k :: 0 <= k < |ids| ==> 0 <= ids[k] < numPaths
  }

  lemma {:induction false} LookupNames(ids: seq<int>, paths: seq<Path>)
    ensures LookupPaths(ids, paths).Some? <==> Names(ids, |paths|)
  {
    if ids != [] {
      LookupNames(ids[1..], paths);
      assert ids == [ids[0]] + ids[1..];
    }
  }

  /** The words of a record. */
  function Words(body: Bytes): (ws: seq<int>)
    ensures |ws| == |body| / 4
  {
    GetInt32s(body, |body| / 4)
  }

  /** A whole deps record at `off` that stops the process: too short to hold an
      output and a time; or, while all its inputs are known, for an output other
      than -1 that is negative or that the table cannot grow to. */
  predicate CrashesAt(f: Bytes, off: nat, numPaths: nat, numDeps: nat) {
    && off + 4 < |f|
    && var header := GetInt32(f[off..off + 4]);
       var size := RecordSize(header);
       && IsDepsRecord(header) && size <= MAX_RECORD_SIZE && off + 4 + size <= |f|
       && (|| size < 12
           || var ws := Words(f[off + 4..off + 4 + size]);
              ws[0] != -1 && UpdatePanics(ws[0], numDeps) && Names(ws[3..], numPaths))
  }

  lemma CrashStep(f: Bytes, off: nat, r: Reader)
    requires off <= |f|
    ensures ReadStep(f, off, r) == Crash <==> CrashesAt(f, off, |r.log.paths|, |r.log.deps|)
  {
    hide GetInt32, GetInt32s, RecordSize, Names, UpdatePanics;
    if off + 4 < |f| {
      var size := RecordSize(GetInt32(f[off..off + 4]));
      if off + 4 + size <= |f| && size >= 12 {
        LookupNames(Words(f[off + 4..off + 4 + size])[3..], r.log.paths);
      }
    }
  }

  /** Does the read loop that is at `off` with `r` come to `at` with `r'`? */
  predicate Reads(f: Bytes, off: nat, r: Reader, at: nat, r': Reader)
    requires off <= |f|
    decreases |f| - off
  {
    (off == at && r == r')
    || var s := ReadStep(f, off, r); s.Next? && Reads(f, s.off, s.r, at, r')
  }

  lemma {:induction false} LoopCrashes(f: Bytes, off: nat, r: Reader)
    requires off <= |f|
    ensures ReadLoop(f, off, r) == Crashed
       <==> exists at: nat, r': Reader ::
              at <= |f| && Reads(f, off, r, at, r') && CrashesAt(f, at, |r'.log.paths|, |r'.log.deps|)
    decreases |f| - off
  {
    hide ReadStep, CrashesAt;
    var s := ReadStep(f, off, r);
    CrashStep(f, off, r);
    if s == Crash {
      assert Reads(f, off, r, off, r);
    } else if s.Next? {
      LoopCrashes(f, s.off, s.r);
      forall at: nat, r': Reader | at <= |f| && CrashesAt(f, at, |r'.log.paths|, |r'.log.deps|)
        ensures Reads(f, off, r, at, r') <==> Reads(f, s.off, s.r, at, r')
      {
        assert !(off == at && r == r');
      }
    }
  }

  /** Exactly the files that stop the process: the read loop comes to a whole
      deps record that is too short, or that names an output the table cannot
      have an entry for. */
  lemma CrashedIff(f: Bytes)
    ensures Decode(f) == Some(Crashed)
       <==> && |f| >= 16 && f[..16] == FILE_HEADER
            && exists at: nat, r: Reader ::
                 at <= |f| && Reads(f, 16, EMPTY_READER, at, r) && CrashesAt(f, at, |r.log.paths|, |r.log.deps|)
  {
    hide ReadLoop, Reads, CrashesAt;
    if |f| >= 16 {
      LoopCrashes(f, 16, EMPTY_READER);
    }
  }

  /** One emitted record keeps the reader's table sizes the writer's, whether or
      not its path is readable. */
  lemma RecordCounted(f: Bytes, off: nat, rec: Rec, r: Reader)
    requires ValidRec(rec, |r.log.paths|, |r.log.deps|)
    requires off + |Encode(rec, |r.log.paths|)| <= |f|
    requires f[off..off + |Encode(rec, |r.log.paths|)|] == Encode(rec, |r.log.paths|)
    ensures var s := ReadStep(f, off, r);
            s == Broken || (&& s.Next? && s.off == off + |Encode(rec, |r.log.paths|)|
                            && |s.r.log.paths| == |r.log.paths| + (if rec.PathRec? then 1 else 0)
                            && |s.r.log.deps| == CountWith(rec, |r.log.deps|))
  {
    hide ReadStep, Encode;
    ReadStepApplies(f, off, rec, r);
  }

  lemma {:induction false} WrittenNeverCrashes(recs: seq<Rec>, cut: nat, k: nat, r: Reader)
    requires ValidRecs(recs) && k <= |recs|
    requires |r.log.paths| == PathCount(recs[..k]) && |r.log.deps| == DepsCount(recs[..k])
    requires 16 + |EncodeAll(recs[..k])| <= cut <= |FileOf(recs)|
    ensures ReadLoop(FileOf(recs)[..cut], 16 + |EncodeAll(recs[..k])|, r) != Crashed
    decreases |recs| - k
  {
    hide *;
    var f, off := FileOf(recs)[..cut], 16 + |EncodeAll(recs[..k])|;
    FileLength(recs, k);
    FileSlices(recs, k, cut);
    PrefixRecs(recs, k);
    if k == |recs| || off == cut {
      assert recs[..|recs|] == recs;
      LoopEnds(f, off, r);
    } else {
      var e := Encode(recs[k], PathCount(recs[..k]));
      NextRecord(recs, k);
      if cut < off + |e| {
        assert f[off..] <= e;
        PartialRecord(f, off, recs[k], r);
        LoopEnds(f, off, r);
      } else {
        RecordCounted(f, off, recs[k], r);
        var s := ReadStep(f, off, r);
        LoopEnds(f, off, r);
        if s.Next? {
          WrittenNeverCrashes(recs, cut, k + 1, s.r);
        }
      }
    }
  }

  lemma NextRecord(recs: seq<Rec>, k: nat)
    requires k < |recs|
    ensures |EncodeAll(recs[..k + 1])| == |EncodeAll(recs[..k])| + |Encode(recs[k], PathCount(recs[..k]))|
    ensures PathCount(recs[..k + 1]) == PathCount(recs[..k]) + if recs[k].PathRec? then 1 else 0
    ensures DepsCount(recs[..k + 1]) == CountWith(recs[k], DepsCount(recs[..k]))
  {
    hide Encode;
    assert recs[..k + 1][..k] == recs[..k];
  }

  lemma LoopEnds(f: Bytes, off: nat, r: Reader)
    requires off <= |f|
    ensures off == |f| ==> ReadLoop(f, off, r) == Loaded(r, false)
    ensures var s := ReadStep(f, off, r);
            && (s == Broken ==> ReadLoop(f, off, r) == Loaded(r, true))
            && (s.Next? ==> ReadLoop(f, off, r) == ReadLoop(f, s.off, s.r))
  {
  }

  /** No file the writer leaves, cut anywhere, stops the process, unreadable
      paths included. */
  lemma WriterNeverCrashesReader(recs: seq<Rec>, cut: nat)
    requires ValidRecs(recs) && cut <= |FileOf(recs)|
    ensures Decode(FileOf(recs)[..cut]) != Some(Crashed)
  {
    hide ReadLoop;
    if cut >= 16 {
      assert recs[..0] == [];
      WrittenNeverCrashes(recs, cut, 0, EMPTY_READER);
    }
  }

  /** A log that holds one deps record of less than twelve bytes does. */
  lemma ShortRecordCrashes(body: Bytes)
    requires 0 < |body| < 12
    ensures Decode(FILE_HEADER + (PutInt32(DepsHeader(|body|)) + body)) == Some(Crashed)
  {
    OneRecord(body);
  }

  /** And so does one with a deps record for a negative output other than -1. */
  lemma NegativeOutputCrashes(out: int, lo: int, hi: int)
    requires -TWO_31 <= out < -1 && -TWO_31 <= lo < TWO_31 && -TWO_31 <= hi < TWO_31
    ensures var body := PutInt32s([out, lo, hi]);
            Decode(FILE_HEADER + (PutInt32(DepsHeader(|body|)) + body)) == Some(Crashed)
  {
    OneOutputCrashes(out, lo, hi);
  }

  /** Or for an output so large that the capacity of its table overflows. */
  lemma HugeOutputCrashes(out: int, lo: int, hi: int)
    requires OVERFLOW_OUTPUT <= out < TWO_31 && -TWO_31 <= lo < TWO_31 && -TWO_31 <= hi < TWO_31
    ensures var body := PutInt32s([out, lo, hi]);
            Decode(FILE_HEADER + (PutInt32(DepsHeader(|body|)) + body)) == Some(Crashed)
  {
    OneOutputCrashes(out, lo, hi);
  }

  lemma OneOutputCrashes(out: int, lo: int, hi: int)
    requires -TWO_31 <= out < TWO_31 && -TWO_31 <= lo < TWO_31 && -TWO_31 <= hi < TWO_31
    requires out != -1 && UpdatePanics(out, 0)
    ensures var body := PutInt32s([out, lo, hi]);
            Decode(FILE_HEADER + (PutInt32(DepsHeader(|body|)) + body)) == Some(Crashed)
  {
    var body := PutInt32s([out, lo, hi]);
    Int32sRoundTrip([out, lo, hi]);
    OneRecord(body);
  }

  /** A log of one deps record. */
  lemma OneRecord(body: Bytes)
    requires 0 < |body| <= MAX_RECORD_SIZE
    requires |body| < 12 || (Words(body)[0] != -1 && UpdatePanics(Words(body)[0], 0) && Words(body)[3..] == [])
    ensures Decode(FILE_HEADER + (PutInt32(DepsHeader(|body|)) + body)) == Some(Crashed)
  {
    hide GetInt32, PutInt32, GetInt32s, RecordSize, IsDepsRecord, DepsHeader, UpdatePanics;
    var f := FILE_HEADER + (PutInt32(DepsHeader(|body|)) + body);
    assert f[..16] == FILE_HEADER;
    Framed(f, 16, DepsHeader(|body|), body);
    HeaderRoundTrip(|body|);
    CrashStep(f, 16, EMPTY_READER);
  }
}
