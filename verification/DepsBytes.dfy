/** The bytes of a deps log: what each field of a record is in the file. */
module DepsBytes {
  import opened Wrappers
  import opened GoInts
  import opened DepsFormat

  /** The number the bytes are, the lowest first. */
  function LittleEndian(b: Bytes): nat {
    if b == [] then 0 else b[0] + 0x100 * LittleEndian(b[1..])
  }

  lemma FourBytes(b: Bytes)
    requires |b| == 4
    ensures var b0: int, b1: int, b2: int, b3: int := b[0], b[1], b[2], b[3];
            LittleEndian(b) == b0 + 0x100 * b1 + 0x1_0000 * b2 + 0x100_0000 * b3
  {
    assert b[1..][1..] == b[2..] && b[2..][1..] == b[3..] && b[3..][1..] == [];
    assert LittleEndian(b[3..]) == b[3];
    assert LittleEndian(b[2..]) == b[2] + 0x100 * LittleEndian(b[3..]);
    assert LittleEndian(b[1..]) == b[1] + 0x100 * LittleEndian(b[2..]);
  }

  lemma EightBytes(b: Bytes)
    requires |b| == 8
    ensures LittleEndian(b) == LittleEndian(b[..4]) + TWO_32 * LittleEndian(b[4..])
  {
    FourBytes(b[..4]);
    FourBytes(b[4..]);
    var c := b[4..];
    assert b[1..][1..][1..][1..] == c;
    assert LittleEndian(b[1..][1..][1..]) == b[3] + 0x100 * LittleEndian(c);
    assert LittleEndian(b[1..][1..]) == b[2] + 0x100 * LittleEndian(b[1..][1..][1..]);
    assert LittleEndian(b[1..]) == b[1] + 0x100 * LittleEndian(b[1..][1..]);
  }

  /** A value is written as its 32 bits, the lowest byte first. */
  lemma Int32Bytes(v: int)
    ensures LittleEndian(PutInt32(v)) == v % TWO_32
  {
    hide LittleEndian;
    FourBytes(PutInt32(v));
    Digits(v % TWO_32);
  }

  lemma Digits(u: nat)
    ensures u == u % 0x100 + 0x100 * (u / 0x100 % 0x100) + 0x1_0000 * (u / 0x1_0000 % 0x100)
                 + 0x100_0000 * (u / 0x100_0000)
  {
    assert u / 0x100 == u / 0x100 % 0x100 + 0x100 * (u / 0x1_0000);
    assert u / 0x1_0000 == u / 0x1_0000 % 0x100 + 0x100 * (u / 0x100_0000);
  }

  lemma {:induction false} Int32sAt(vs: seq<int>, k: nat)
    requires k < |vs|
    ensures PutInt32s(vs)[4 * k..4 * k + 4] == PutInt32(vs[k])
  {
    hide PutInt32;
    var b := PutInt32s(vs);
    if k > 0 {
      Int32sAt(vs[1..], k - 1);
      assert b[4..] == PutInt32s(vs[1..]);
      assert b[4 * k..4 * k + 4] == b[4..][4 * (k - 1)..4 * (k - 1) + 4];
    }
  }

  /** A file starts with the signature and the version. */
  lemma FileHeaderBytes()
    ensures FILE_HEADER == seq(12, k requires 0 <= k < 12 => "# ninjadeps\n"[k] as int) + [4, 0, 0, 0]
  {
  }

  /** A log is started anew iff its file does not hold the signature and the
      version. */
  lemma StartsAnewIff(f: Bytes)
    ensures Decode(f) == None <==>
              !(&& |f| >= 16 && LittleEndian(f[12..16]) == 4
                && forall k :: 0 <= k < 12 ==> f[k] == "# ninjadeps\n"[k] as int)
  {
    hide ReadLoop, LittleEndian;
    FileHeaderBytes();
    if |f| >= 16 {
      FourBytes(f[12..16]);
      FourBytes([4, 0, 0, 0]);
      var v := f[12..16];
      assert LittleEndian(v) == 4 ==> v == [4, 0, 0, 0];
      assert f[..16] == f[..12] + v;
      assert forall k :: 0 <= k < 12 ==> f[..12][k] == f[k];
      var sig := seq(12, k requires 0 <= k < 12 => "# ninjadeps\n"[k] as int);
      assert f[..16] == FILE_HEADER <==> f[..12] == sig && v == [4, 0, 0, 0] by {
        HalvesEqual(f[..12], v, sig, [4, 0, 0, 0]);
      }
    }
  }

  lemma HalvesEqual(a: Bytes, b: Bytes, c: seq<int>, d: seq<int>)
    requires |a| == |c|
    ensures a + b == c + d <==> a == c && b == d
  {
    if a + b == c + d {
      assert a == (a + b)[..|a|] && c == (c + d)[..|a|];
      assert b == (a + b)[|a|..] && d == (c + d)[|a|..];
    }
  }

  /** A path record: its size, the path, as many zeros as fill up four bytes, and
      a number that adds up with the path's to all ones. */
  lemma PathRecordBytes(path: Path, i: nat)
    requires i < TWO_31 && |path| < MAX_RECORD_SIZE
    ensures var e, pad := EncodePath(path, i), |EncodePath(path, i)| - |path| - 8;
            && |e| % 4 == 0 && 0 <= pad < 4
            && LittleEndian(e[..4]) == |e| - 4
            && e[4..4 + |path|] == path
            && (forall k :: 4 + |path| <= k < |e| - 4 ==> e[k] == 0)
            && LittleEndian(e[|e| - 4..]) + i == TWO_32 - 1
  {
    hide PutInt32;
    var e := EncodePath(path, i);
    assert e[..4] == PutInt32(PathRecordSize(path));
    assert e[|e| - 4..] == PutInt32(Complement(i));
    Int32Bytes(PathRecordSize(path));
    Int32Bytes(Complement(i));
  }

  /** A deps record: its size with the highest bit set, the output, the time as
      64 bits, and the inputs. */
  lemma DepsRecordBytes(out: nat, mtime: int64, ids: seq<nat>)
    requires out < TWO_31 && DepsRecordSize(|ids|) <= MAX_RECORD_SIZE
    requires forall k :: 0 <= k < |ids| ==> ids[k] < TWO_31
    ensures var e := EncodeDeps(out, mtime, ids);
            && |e| == 16 + 4 * |ids| && DepsHeadBytes(out, mtime, ids)
            && forall k :: 0 <= k < |ids| ==> LittleEndian(e[16 + 4 * k..20 + 4 * k]) == ids[k]
  {
    DepsHead(out, mtime, ids);
    forall k | 0 <= k < |ids|
      ensures LittleEndian(EncodeDeps(out, mtime, ids)[16 + 4 * k..20 + 4 * k]) == ids[k]
    {
      InputBytes(out, mtime, ids, k);
    }
  }

  lemma InputBytes(out: nat, mtime: int64, ids: seq<nat>, k: nat)
    requires k < |ids| && ids[k] < TWO_31
    ensures LittleEndian(EncodeDeps(out, mtime, ids)[16 + 4 * k..20 + 4 * k]) == ids[k]
  {
    hide PutInt32, LittleEndian, MtimeLo, MtimeHi;
    var e := EncodeDeps(out, mtime, ids);
    var vs := [out, MtimeLo(mtime), MtimeHi(mtime)] + ids;
    Int32sAt(vs, 3 + k);
    assert e[4..] == PutInt32s(vs) && vs[3 + k] == ids[k];
    assert e[16 + 4 * k..20 + 4 * k] == e[4..][4 * (3 + k)..4 * (3 + k) + 4];
    Int32Bytes(ids[k]);
  }

  predicate DepsHeadBytes(out: nat, mtime: int64, ids: seq<nat>) {
    var e := EncodeDeps(out, mtime, ids);
    && |e| >= 16
    && LittleEndian(e[..4]) == TWO_31 + |e| - 4
    && LittleEndian(e[4..8]) == out
    && LittleEndian(e[8..16]) == mtime % TWO_64
  }

  lemma DepsHead(out: nat, mtime: int64, ids: seq<nat>)
    requires out < TWO_31 && DepsRecordSize(|ids|) <= MAX_RECORD_SIZE
    ensures DepsHeadBytes(out, mtime, ids)
  {
    hide PutInt32, LittleEndian, PutInt32s;
    var e := EncodeDeps(out, mtime, ids);
    var vs := [out, MtimeLo(mtime), MtimeHi(mtime)] + ids;
    var b := PutInt32s(vs);
    assert e[..4] == PutInt32(DepsHeader(DepsRecordSize(|ids|))) && e[4..] == b;
    Int32sAt(vs, 0);
    Int32sAt(vs, 1);
    Int32sAt(vs, 2);
    assert e[4..8] == b[0..4] && e[8..16][..4] == b[4..8] && e[8..16][4..] == b[8..12];
    Int32Bytes(DepsHeader(DepsRecordSize(|ids|)));
    Int32Bytes(out);
    Int32Bytes(MtimeLo(mtime));
    Int32Bytes(MtimeHi(mtime));
    EightBytes(e[8..16]);
    Halves(mtime);
  }

  lemma Halves(t: int64)
    ensures t % TWO_64 == MtimeLo(t) % TWO_32 + TWO_32 * (MtimeHi(t) % TWO_32)
  {
  }

  // ----------------------------------------------------------- reading bytes

  lemma Int32Read(b: Bytes)
    requires |b| == 4
    ensures GetInt32(b) == ToInt32(LittleEndian(b)) && 0 <= LittleEndian(b) < TWO_32
  {
    hide LittleEndian;
    FourBytes(b);
  }

  /** The `k`-th four bytes of a body, as a signed number. */
  function Word(body: Bytes, k: nat): int
    requires 4 * k + 4 <= |body|
  {
    ToInt32(LittleEndian(body[4 * k..4 * k + 4]))
  }

  lemma {:induction false} WordsRead(body: Bytes, n: nat, k: nat)
    requires 4 * n <= |body| && k < n
    ensures GetInt32s(body, n)[k] == Word(body, k)
    decreases n
  {
    hide GetInt32, LittleEndian;
    if k == 0 {
      Int32Read(body[..4]);
    } else {
      WordsRead(body[4..], n - 1, k - 1);
      assert body[4..][4 * (k - 1)..4 * (k - 1) + 4] == body[4 * k..4 * k + 4];
    }
  }

  /** A whole record lies at `off`: its header, and `size` bytes behind it that
      are not all the file may hold but at least one. */
  predicate Whole(f: Bytes, off: nat, header: nat, size: nat) {
    && off + 4 < |f| && header == LittleEndian(f[off..off + 4]) && size == header % 0x800_0000
    && size <= 0x7_FFFF && off + 4 + size <= |f|
  }

  lemma HeaderRead(h: int)
    requires 0 <= h < TWO_32
    ensures IsDepsRecord(ToInt32(h)) <==> h >= TWO_31
    ensures RecordSize(ToInt32(h)) == h % 0x800_0000
  {
    if h >= TWO_31 {
      assert (h - TWO_32) % 0x800_0000 == h % 0x800_0000;
    }
  }

  /** Without a whole record the loop is at its end, or the file is broken. */
  lemma NotWhole(f: Bytes, off: nat, r: Reader)
    requires off <= |f| && forall header, size :: !Whole(f, off, header, size)
    ensures ReadStep(f, off, r) == if off == |f| then Eof else Broken
  {
    hide GetInt32, LittleEndian, RecordSize, IsDepsRecord, ReadDepsRecord, ReadPathRecord;
    if |f| - off >= 4 {
      var h := LittleEndian(f[off..off + 4]);
      Int32Read(f[off..off + 4]);
      HeaderRead(h);
      assert !Whole(f, off, h, h % 0x800_0000);
    }
  }

  lemma WholeStep(f: Bytes, off: nat, r: Reader, header: nat, size: nat)
    requires Whole(f, off, header, size)
    ensures var next := off + 4 + size;
            var body := f[off + 4..next];
            ReadStep(f, off, r) ==
            if header >= TWO_31 then
              match ReadDepsRecord(body, r.log.paths)
              case Short => Crash
              case Invalid => Next(next, r)
              case Parsed(out, rec) =>
                if out == -1 then Next(next, r)
                else if UpdatePanics(out, |r.log.deps|) then Crash
                else Next(next, AddDeps(r, out, rec))
            else
              match ReadPathRecord(body, |r.log.paths|)
              case None => Broken
              case Some(path) => Next(next, r.(log := AddPath(r.log, path)))
  {
    hide GetInt32, LittleEndian, RecordSize, IsDepsRecord, ReadDepsRecord, ReadPathRecord;
    Int32Read(f[off..off + 4]);
    HeaderRead(header);
  }

  /** Are all inputs of a deps record known paths? */
  predicate InputsKnown(body: Bytes, numPaths: nat) {
    forall k :: 3 <= k < |body| / 4 ==> 0 <= Word(body, k) < numPaths
  }

  /** Every whole deps record, whoever wrote it: too short a one stops the process,
      one with an unknown input or the output -1 changes nothing, one the table
      cannot take stops the process, and any other is the only change to the
      table, with the paths its words name and the time its eight bytes are. */
  lemma DepsRecordRead(f: Bytes, off: nat, r: Reader, header: nat, size: nat)
    requires Whole(f, off, header, size) && header >= TWO_31
    ensures var step, next := ReadStep(f, off, r), off + 4 + size;
            var body := f[off + 4..next];
            if size < 12 then step == Crash
            else if !InputsKnown(body, |r.log.paths|) || Word(body, 0) == -1 then step == Next(next, r)
            else if UpdatePanics(Word(body, 0), |r.log.deps|) then step == Crash
            else
              step.Next? && step.off == next && Taken(r, step.r, body)
  {
    hide ReadStep, LittleEndian, UpdatePanics, SetDeps, Word;
    WholeStep(f, off, r, header, size);
    var body := f[off + 4..off + 4 + size];
    if size >= 12 {
      DepsParsed(body, r.log.paths);
      var parsed := ReadDepsRecord(body, r.log.paths);
      if parsed.Parsed? && !UpdatePanics(parsed.out, |r.log.deps|) {
        NotNegative(parsed.out, |r.log.deps|);
      }
    }
  }

  lemma NotNegative(out: int, n: nat)
    requires !UpdatePanics(out, n)
    ensures out >= 0
  {
  }

  predicate Taken(r: Reader, r': Reader, body: Bytes)
    requires |body| >= 12
  {
    var out := Word(body, 0);
    && r'.log.paths == r.log.paths && r'.log.pathIdx == r.log.pathIdx
    && 0 <= out < |r'.log.deps| == (if out < |r.log.deps| then |r.log.deps| else out + 1)
    && (forall j :: 0 <= j < |r'.log.deps| && j != out ==>
          r'.log.deps[j] == if j < |r.log.deps| then r.log.deps[j] else None)
    && r'.log.deps[out].Some? && Describes(r'.log.deps[out].value, body, r.log.paths)
    && r'.total == r.total + 1 && r'.unique == r.unique + if out < |r.log.deps| then 0 else 1
  }

  predicate Describes(rec: DepsRecord, body: Bytes, paths: seq<Path>)
    requires |body| >= 12
  {
    && |rec.inputs| == |body| / 4 - 3
    && rec.mtime % TWO_64 == LittleEndian(body[4..12])
    && forall k :: 0 <= k < |rec.inputs| ==>
         0 <= Word(body, k + 3) < |paths| && rec.inputs[k] == paths[Word(body, k + 3)]
  }

  lemma DepsParsed(body: Bytes, paths: seq<Path>)
    requires |body| >= 12
    ensures match ReadDepsRecord(body, paths)
            case Short => false
            case Invalid => !InputsKnown(body, |paths|)
            case Parsed(out, rec) =>
              InputsKnown(body, |paths|) && out == Word(body, 0) && Describes(rec, body, paths)
  {
    hide LittleEndian, GetInt32s, Word, LookupPaths, JoinMtime;
    var n := |body| / 4;
    var ws := GetInt32s(body, n);
    forall k | 0 <= k < n
      ensures ws[k] == Word(body, k)
    {
      WordsRead(body, n, k);
    }
    LookedUp(ws[3..], paths);
    assert forall k :: 3 <= k < n ==> ws[k] == ws[3..][k - 3];
    MtimeBytes(body);
  }

  lemma {:induction false} LookedUp(ids: seq<int>, paths: seq<Path>)
    ensures var found := LookupPaths(ids, paths);
            && (found.Some? <==> forall k :: 0 <= k < |ids| ==> 0 <= ids[k] < |paths|)
            && (found.Some? ==>
                  |found.value| == |ids| && forall k :: 0 <= k < |ids| ==> found.value[k] == paths[ids[k]])
  {
    if ids != [] {
      LookedUp(ids[1..], paths);
      assert forall k :: 0 <= k < |ids| ==> ids[k] == if k == 0 then ids[0] else ids[1..][k - 1];
    }
  }

  lemma MtimeBytes(body: Bytes)
    requires |body| >= 12
    ensures JoinMtime(Word(body, 1), Word(body, 2)) % TWO_64 == LittleEndian(body[4..12])
  {
    hide LittleEndian;
    EightBytes(body[4..12]);
    assert body[4..12][..4] == body[4..8] && body[4..12][4..] == body[8..12];
    Int32Read(body[4..8]);
    Int32Read(body[8..12]);
    Joined(LittleEndian(body[4..8]), LittleEndian(body[8..12]));
  }

  lemma Joined(lo: nat, hi: nat)
    requires lo < TWO_32 && hi < TWO_32
    ensures JoinMtime(ToInt32(lo), ToInt32(hi)) % TWO_64 == lo + TWO_32 * hi
  {
    assert ToUint32(ToInt32(lo)) == lo && ToUint32(ToInt32(hi)) == hi;
  }

  /** The bytes of a path in a body: all but the last four, and without the zeros
      among the last three of those. */
  predicate PathIn(path: Path, body: Bytes) {
    var n := |body| - 4;
    && n - 3 <= |path| <= n && path == body[..|path|]
    && (forall k :: |path| <= k < n ==> body[k] == 0)
    && (n - 3 < |path| ==> path != [] && path[|path| - 1] != 0)
  }

  /** Stripping fails when it comes to the front of the body first. */
  predicate Strips(body: Bytes, n: nat, k: nat)
    requires n <= |body|
  {
    n >= k || exists j :: 0 <= j < n && body[j] != 0
  }

  lemma {:induction false} StripsIff(body: Bytes, n: nat, k: nat)
    requires n <= |body|
    ensures StripPadding(body, n, k).Some? <==> Strips(body, n, k)
    decreases k
  {
    if k > 0 && n > 0 {
      StripsIff(body, if body[n - 1] == 0 then n - 1 else n, k - 1);
    }
  }

  lemma PathParsed(body: Bytes, n: nat)
    requires |body| >= 4
    ensures match ReadPathRecord(body, n)
            case None => !PathFits(body, n)
            case Some(path) => PathFits(body, n) && PathIn(path, body)
  {
    hide LittleEndian, StripPadding;
    Int32Read(body[|body| - 4..]);
    StripsIff(body, |body| - 4, 3);
    StripZeros(body, |body| - 4, 3);
  }

  /** The last number of a body fits the count of paths, and there is a path. */
  predicate PathFits(body: Bytes, n: nat)
    requires |body| >= 4
  {
    Strips(body, |body| - 4, 3) && n < TWO_31 && n + LittleEndian(body[|body| - 4..]) == TWO_32 - 1
  }

  lemma TooShort(body: Bytes, n: nat)
    requires |body| < 4
    ensures ReadPathRecord(body, n) == None
  {
  }

  /** Every whole path record: it is the next path, with the bytes before the
      padding, if its last number fits the count, or else the file is broken. */
  lemma PathRecordRead(f: Bytes, off: nat, r: Reader, header: nat, size: nat)
    requires Whole(f, off, header, size) && header < TWO_31
    ensures var step, next := ReadStep(f, off, r), off + 4 + size;
            var body := f[off + 4..next];
            if size >= 4 && PathFits(body, |r.log.paths|) then
              && step.Next? && step.off == next
              && exists path :: PathIn(path, body) && step.r == r.(log := AddPath(r.log, path))
            else step == Broken
  {
    hide ReadStep, LittleEndian, ReadPathRecord, PathIn, PathFits, AddPath;
    WholeStep(f, off, r, header, size);
    var body := f[off + 4..off + 4 + size];
    if size >= 4 {
      PathParsed(body, |r.log.paths|);
    } else {
      TooShort(body, |r.log.paths|);
    }
  }
}
