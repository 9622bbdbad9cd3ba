/** Building a Merkle tree of directories from entries named by paths.

    Serialising a directory and hashing the bytes is an injective function here:
    a digest is the term that was hashed. */
module Merkle {
  import opened Wrappers

  type Path = seq<string>

  datatype Digest = FileDigest(content: string) | DirDigest(dir: Directory)

  datatype FileNode = FileNode(name: string, digest: Digest, executable: bool)

  datatype SymlinkNode = SymlinkNode(name: string, target: string)

  /** The digest of a subdirectory is filled in when it is built. */
  datatype DirNode = DirNode(name: string, digest: Option<Digest>)

  datatype Directory = Directory(files: seq<FileNode>, symlinks: seq<SymlinkNode>, dirs: seq<DirNode>)

  const EMPTY := Directory([], [], [])

  /** The directories by path; the root is the empty path. */
  type Dirs = map<Path, Directory>

  // ------------------------------------------------------------------- names

  /** An entry, its name split at the slashes. No data and no target makes a
      directory. */
  datatype Entry = Entry(elems: seq<string>, data: Option<Digest>, executable: bool, target: string) {
    predicate IsSymlink() { data == None && target != "" }
  }

  datatype SetError = AbsPath | AmbigFileSymlink | BadPath

  predicate IsPlain(name: string) {
    name != "" && name != "." && name != ".."
  }

  /** One inner segment, at `p`. */
  function Enter(p: Path, name: string): Option<Path> {
    if name == "" || name == "." then Some(p)
    else if name == ".." then if p == [] then None else Some(p[..|p| - 1])
    else Some(p + [name])
  }

  /** Where the inner segments lead from `p`, or nowhere when they leave the root. */
  function Walk(p: Path, elems: seq<string>): Option<Path>
    decreases |elems|
  {
    if elems == [] then Some(p)
    else
      match Enter(p, elems[0])
      case None => None
      case Some(q) => Walk(q, elems[1..])
  }

  /** The directories passed on the way. */
  function Passed(p: Path, elems: seq<string>): set<Path>
    decreases |elems|
  {
    if elems == [] then {}
    else
      match Enter(p, elems[0])
      case None => {}
      case Some(q) => {q} + Passed(q, elems[1..])
  }

  /** How deep the segments lead, counting below the root too. */
  function Depth(elems: seq<string>): int {
    if elems == [] then 0
    else
      var last := elems[|elems| - 1];
      Depth(elems[..|elems| - 1]) + if IsPlain(last) then 1 else if last == ".." then -1 else 0
  }

  predicate LeavesRoot(elems: seq<string>) {
    exists k :: 0 <= k <= |elems| && Depth(elems[..k]) < 0
  }

  /** The segment at `i` is the last name that leads from level `j` down. */
  predicate LastDescent(elems: seq<string>, i: nat, j: int) {
    && i < |elems| && IsPlain(elems[i]) && Depth(elems[..i]) == j
    && forall k :: i < k < |elems| && IsPlain(elems[k]) ==> Depth(elems[..k]) != j
  }

  /** The lexically normalised location: at every level, the name that led down
      from it last. */
  ghost predicate Lands(elems: seq<string>, p: Path) {
    |p| == Depth(elems) && forall j :: 0 <= j < |p| ==> HasLevel(elems, p[j], j)
  }

  ghost predicate HasLevel(elems: seq<string>, name: string, j: int) {
    exists i: nat :: LastDescent(elems, i, j) && elems[i] == name
  }

  lemma {:induction false} WalkSnoc(p: Path, elems: seq<string>, name: string)
    ensures Walk(p, elems + [name])
         == match Walk(p, elems)
            case None => None
            case Some(q) => Enter(q, name)
    decreases |elems|
  {
    if elems == [] {
      assert [name][1..] == [];
      assert elems + [name] == [name];
    } else {
      assert (elems + [name])[1..] == elems[1..] + [name];
      match Enter(p, elems[0])
      case None =>
      case Some(q) => WalkSnoc(q, elems[1..], name);
    }
  }

  lemma LevelKept(init: seq<string>, last: string, name: string, j: nat)
    requires HasLevel(init, name, j) && (IsPlain(last) ==> Depth(init) != j)
    ensures HasLevel(init + [last], name, j)
  {
    var elems := init + [last];
    var i: nat :| LastDescent(init, i, j) && init[i] == name;
    assert forall k :: 0 <= k <= |init| ==> elems[..k] == init[..k];
    assert init[..|init|] == init;
    assert LastDescent(elems, i, j);
  }

  lemma LeavesSnoc(init: seq<string>, last: string)
    ensures LeavesRoot(init + [last]) <==> LeavesRoot(init) || Depth(init + [last]) < 0
  {
    var elems := init + [last];
    assert elems[..|elems|] == elems;
    assert forall k :: 0 <= k <= |init| ==> elems[..k] == init[..k];
    if LeavesRoot(init) {
      var k :| 0 <= k <= |init| && Depth(init[..k]) < 0;
      assert Depth(elems[..k]) < 0;
    }
  }

  /** A name lands at its lexically normalised location, and fails iff some
      prefix of it leaves the root. */
  lemma {:induction false} WalkIsLexical(elems: seq<string>)
    ensures Walk([], elems) == None <==> LeavesRoot(elems)
    ensures Walk([], elems).Some? ==> Lands(elems, Walk([], elems).value)
  {
    if elems == [] {
      assert forall k :: 0 <= k <= |elems| ==> elems[..k] == [];
    } else {
      var n := |elems| - 1;
      var init, last := elems[..n], elems[n];
      assert elems == init + [last];
      WalkIsLexical(init);
      WalkSnoc([], init, last);
      LeavesSnoc(init, last);
      if Walk([], init).Some? && Walk([], elems).Some? {
        var p, q := Walk([], init).value, Walk([], elems).value;
        forall j | 0 <= j < |q| ensures HasLevel(elems, q[j], j) {
          if j < |p| {
            LevelKept(init, last, q[j], j);
          } else {
            assert elems[..n] == init;
            assert LastDescent(elems, n, j);
          }
        }
      }
    }
  }

  // ---------------------------------------------------------------- the state

  predicate IsClean(p: Path) {
    forall k :: 0 <= k < |p| ==> IsPlain(p[k])
  }

  predicate HasDir(d: Directory, name: string) {
    exists k :: 0 <= k < |d.dirs| && d.dirs[k].name == name
  }

  /** Subdirectories are listed once each, without a digest. */
  predicate DirsFresh(d: Directory) {
    && (forall k :: 0 <= k < |d.dirs| ==> d.dirs[k].digest == None)
    && forall j, k :: 0 <= j < k < |d.dirs| ==> d.dirs[j].name != d.dirs[k].name
  }

  /** Every directory but the root is listed in its parent, and what is listed
      is there. */
  ghost predicate WellFormed(m: Dirs) {
    && [] in m
    && (forall p | p in m :: IsClean(p) && DirsFresh(m[p]))
    && (forall p | p in m && p != [] :: Parent(p) in m)
    && (forall p, name | p in m :: Listed(m, p, name))
  }

  function Parent(p: Path): Path
    requires p != []
  {
    p[..|p| - 1]
  }

  ghost predicate Listed(m: Dirs, p: Path, name: string)
    requires p in m
  {
    HasDir(m[p], name) <==> p + [name] in m
  }

  const NEW: Dirs := map[[] := EMPTY]

  /** `setDir`. */
  function SetDir(m: Dirs, p: Path, name: string): Dirs
    requires p in m
  {
    if p + [name] in m then m
    else m[p := m[p].(dirs := m[p].dirs + [DirNode(name, None)])][p + [name] := EMPTY]
  }

  lemma SetDirKeeps(m: Dirs, p: Path, name: string)
    requires WellFormed(m) && p in m && IsPlain(name)
    ensures WellFormed(SetDir(m, p, name))
    ensures SetDir(m, p, name).Keys == m.Keys + {p + [name]}
    ensures SameLeaves(m, SetDir(m, p, name))
  {
    hide HasDir, DirsFresh, Listed;
    var m' := SetDir(m, p, name);
    if p + [name] !in m {
      var q := p + [name];
      assert Parent(q) == p;
      assert Listed(m, p, name);
      SetDirLists(m, p, name);
      NewIsFresh();
      assert m'[q] == EMPTY;
    }
  }

  lemma NewIsFresh()
    ensures DirsFresh(EMPTY) && forall n :: !HasDir(EMPTY, n)
  {
  }

  lemma SetDirLists(m: Dirs, p: Path, name: string)
    requires WellFormed(m) && p in m && p + [name] !in m
    ensures var m' := SetDir(m, p, name); DirsFresh(m'[p]) && forall r, n | r in m' :: Listed(m', r, n)
  {
    hide HasDir, DirsFresh, IsClean;
    var m', q := SetDir(m, p, name), p + [name];
    assert Listed(m, p, name);
    SnocDirs(m[p], name);
    NewIsFresh();
    assert p != q;
    forall r, n | r in m' ensures Listed(m', r, n) {
      assert r in m ==> Listed(m, r, n);
      assert Parent(r + [n]) == r && Parent(q) == p && (r + [n])[|r|] == n && q[|p|] == name;
      if r == q {
        assert r + [n] !in m;
        assert |r + [n]| != |q|;
      }
    }
  }

  lemma SnocDirs(d: Directory, name: string)
    requires DirsFresh(d) && !HasDir(d, name)
    ensures var d' := d.(dirs := d.dirs + [DirNode(name, None)]);
            DirsFresh(d') && forall n :: HasDir(d', n) <==> HasDir(d, n) || n == name
  {
    var d' := d.(dirs := d.dirs + [DirNode(name, None)]);
    assert d'.dirs[|d.dirs|].name == name;
    forall n ensures HasDir(d', n) <==> HasDir(d, n) || n == name {
      if HasDir(d, n) {
        var k :| 0 <= k < |d.dirs| && d.dirs[k].name == n;
        assert d'.dirs[k].name == n;
      }
    }
  }

  predicate HasFile(m: Dirs, p: Path, f: FileNode) {
    p in m && f in m[p].files
  }

  predicate HasLink(m: Dirs, p: Path, l: SymlinkNode) {
    p in m && l in m[p].symlinks
  }

  /** No file or symlink is added or lost. */
  ghost predicate SameLeaves(m: Dirs, m': Dirs) {
    && (forall p, f :: HasFile(m', p, f) <==> HasFile(m, p, f))
    && (forall p, l :: HasLink(m', p, l) <==> HasLink(m, p, l))
  }

  lemma ParentIn(m: Dirs, p: Path)
    requires WellFormed(m) && p in m
    ensures p != [] ==> p[..|p| - 1] in m
  {
    if p != [] {
      assert Parent(p) in m;
    }
  }

  /** The directories that walking the inner segments creates. */
  ghost function MakeDirs(m: Dirs, p: Path, elems: seq<string>): Dirs
    requires WellFormed(m) && p in m
    decreases |elems|
  {
    if elems == [] then m
    else
      match Enter(p, elems[0])
      case None => m
      case Some(q) =>
        if IsPlain(elems[0]) then
          SetDirKeeps(m, p, elems[0]);
          MakeDirs(SetDir(m, p, elems[0]), q, elems[1..])
        else
          ParentIn(m, p);
          MakeDirs(m, q, elems[1..])
  }

  lemma {:induction false} MakeDirsKeeps(m: Dirs, p: Path, elems: seq<string>)
    requires WellFormed(m) && p in m
    ensures var m' := MakeDirs(m, p, elems);
            && WellFormed(m') && m'.Keys == m.Keys + Passed(p, elems) && SameLeaves(m, m')
            && (Walk(p, elems).Some? ==> Walk(p, elems).value in m')
    decreases |elems|
  {
    hide WellFormed, SetDir;
    if elems != [] {
      match Enter(p, elems[0])
      case None =>
      case Some(q) =>
        if IsPlain(elems[0]) {
          SetDirKeeps(m, p, elems[0]);
          MakeDirsKeeps(SetDir(m, p, elems[0]), q, elems[1..]);
        } else {
          ParentIn(m, p);
          MakeDirsKeeps(m, q, elems[1..]);
        }
    }
  }

  // ---------------------------------------------------------------------- Set

  /** The key an entry's name is looked up by before it is normalised. */
  function KeyOf(elems: seq<string>): Path {
    if elems == [""] then [] else elems
  }

  function Init(elems: seq<string>): seq<string>
    requires elems != []
  {
    elems[..|elems| - 1]
  }

  function Leaf(elems: seq<string>): string
    requires elems != []
  {
    elems[|elems| - 1]
  }

  predicate IsAbs(elems: seq<string>)
    requires elems != []
  {
    (elems[0] == "" && |elems| > 1) || "\\" <= elems[0]
  }

  function Rejected(e: Entry): Option<SetError>
    requires e.elems != []
  {
    if e.target != "" && e.data.Some? then Some(AmbigFileSymlink)
    else if IsAbs(e.elems) then Some(AbsPath)
    else None
  }

  /** The leaf of an entry without data, in directory `p`. */
  function SetLeaf(m: Dirs, p: Path, e: Entry): (Dirs, Option<SetError>)
    requires p in m && e.elems != []
  {
    var name := Leaf(e.elems);
    if name == "" || (name == ".." && p == []) then (m, Some(BadPath))
    else if name == "." || name == ".." then (m, None)
    else if e.IsSymlink() then
      (m[p := m[p].(symlinks := m[p].symlinks + [SymlinkNode(name, e.target)])], None)
    else (SetDir(m, p, name), None)
  }

  datatype State = State(m: Dirs, store: set<Digest>)

  /** The leaf of an entry with data. */
  function SetFile(s: State, p: Path, e: Entry): (State, Option<SetError>)
    requires p in s.m && e.elems != [] && e.data.Some?
  {
    var name := Leaf(e.elems);
    if name == "." || name == ".." then (s, Some(BadPath))
    else
      var d := s.m[p];
      var node := FileNode(name, e.data.value, e.executable);
      (State(s.m[p := d.(files := d.files + [node])], s.store + {e.data.value}), None)
  }

  /** `Set`: the new state and the error, if any. What was created before an
      error stays. */
  ghost function SetEntry(s: State, e: Entry): (State, Option<SetError>)
    requires WellFormed(s.m) && e.elems != []
  {
    if Rejected(e).Some? then (s, Rejected(e))
    else if e.data == None && KeyOf(e.elems) in s.m then (s, None)
    else
      var m := MakeDirs(s.m, [], Init(e.elems));
      MakeDirsKeeps(s.m, [], Init(e.elems));
      match Walk([], Init(e.elems))
      case None => (State(m, s.store), Some(BadPath))
      case Some(p) =>
        if e.data.Some? then SetFile(State(m, s.store), p, e)
        else
          var (m', err) := SetLeaf(m, p, e);
          (State(m', s.store), err)
  }

  // ----------------------------------------------- what an entry contributes

  predicate IsDirLeaf(e: Entry)
    requires e.elems != []
  {
    e.data == None && e.target == "" && IsPlain(Leaf(e.elems))
  }

  /** The directories an entry asks for. */
  function DirsOf(e: Entry): set<Path>
    requires e.elems != []
  {
    if Rejected(e).Some? then {}
    else
      var at := Walk([], Init(e.elems));
      Passed([], Init(e.elems)) + if at.Some? && IsDirLeaf(e) then {at.value + [Leaf(e.elems)]} else {}
  }

  /** The file an entry asks for, and its directory. */
  function FilesOf(e: Entry): set<(Path, FileNode)>
    requires e.elems != []
  {
    var at := Walk([], Init(e.elems));
    var name := Leaf(e.elems);
    if Rejected(e) == None && e.data.Some? && at.Some? && name != "." && name != ".." then
      {(at.value, FileNode(name, e.data.value, e.executable))}
    else {}
  }

  function LinksOf(e: Entry): set<(Path, SymlinkNode)>
    requires e.elems != []
  {
    var at := Walk([], Init(e.elems));
    if Rejected(e) == None && e.IsSymlink() && at.Some? && IsPlain(Leaf(e.elems)) then
      {(at.value, SymlinkNode(Leaf(e.elems), e.target))}
    else {}
  }

  /** The leaves of `m'` are those of `m` and these. */
  ghost predicate LeavesPlus(m: Dirs, m': Dirs, files: set<(Path, FileNode)>, links: set<(Path, SymlinkNode)>) {
    && (forall p, f :: HasFile(m', p, f) <==> HasFile(m, p, f) || (p, f) in files)
    && (forall p, l :: HasLink(m', p, l) <==> HasLink(m, p, l) || (p, l) in links)
  }

  /** An entry is skipped when its name is already a directory. */
  predicate Skipped(m: Dirs, e: Entry)
    requires e.elems != []
  {
    Rejected(e) == None && e.data == None && KeyOf(e.elems) in m
  }

  /** What setting one entry adds. */
  lemma SetAdds(s: State, e: Entry)
    requires WellFormed(s.m) && e.elems != []
    ensures var s' := SetEntry(s, e).0;
            && WellFormed(s'.m) && s'.m.Keys == s.m.Keys + DirsOf(e)
            && LeavesPlus(s.m, s'.m, FilesOf(e), if Skipped(s.m, e) then {} else LinksOf(e))
            && s'.store == s.store + set x | x in FilesOf(e) :: x.1.digest
  {
    hide WellFormed, SetDir, MakeDirs;
    if Rejected(e).Some? {
      assert FilesOf(e) == {} && LinksOf(e) == {};
    } else if e.data == None && KeyOf(e.elems) in s.m {
      SkippedAsksNothing(s.m, e);
    } else {
      RootIn(s.m);
      MakeDirsKeeps(s.m, [], Init(e.elems));
      var m := MakeDirs(s.m, [], Init(e.elems));
      var at := Walk([], Init(e.elems));
      if at.Some? {
        if e.data.Some? {
          AddFileKeeps(State(m, s.store), at.value, e);
        } else {
          SetLeafKeeps(m, at.value, e);
        }
      }
    }
  }

  lemma RootIn(m: Dirs)
    requires WellFormed(m)
    ensures [] in m
  {
  }

  lemma AddFileKeeps(s: State, p: Path, e: Entry)
    requires WellFormed(s.m) && p in s.m && e.elems != [] && e.data.Some? && Rejected(e) == None
    requires Walk([], Init(e.elems)) == Some(p)
    ensures var s' := SetFile(s, p, e).0;
            && WellFormed(s'.m) && s'.m.Keys == s.m.Keys
            && LeavesPlus(s.m, s'.m, FilesOf(e), {})
            && s'.store == s.store + set x | x in FilesOf(e) :: x.1.digest
  {
    var s' := SetFile(s, p, e).0;
    LeavesKeepForm(s.m, s'.m);
  }

  /** Changing files and symlinks only keeps the tree in form. */
  lemma LeavesKeepForm(m: Dirs, m': Dirs)
    requires WellFormed(m) && m'.Keys == m.Keys && forall p | p in m :: m'[p].dirs == m[p].dirs
    ensures WellFormed(m')
  {
    forall p, name | p in m' ensures Listed(m', p, name) {
      assert Listed(m, p, name);
    }
    forall p | p in m' ensures DirsFresh(m'[p]) {
      assert DirsFresh(m[p]);
    }
  }

  lemma SetLeafKeeps(m: Dirs, p: Path, e: Entry)
    requires WellFormed(m) && p in m && e.elems != [] && e.data == None && Rejected(e) == None
    requires Walk([], Init(e.elems)) == Some(p)
    ensures var m' := SetLeaf(m, p, e).0;
            && WellFormed(m')
            && m'.Keys == m.Keys + (if IsDirLeaf(e) then {p + [Leaf(e.elems)]} else {})
            && LeavesPlus(m, m', {}, LinksOf(e)) && FilesOf(e) == {}
  {
    hide SetDir;
    var name := Leaf(e.elems);
    var m' := SetLeaf(m, p, e).0;
    if IsPlain(name) {
      if e.IsSymlink() {
        LeavesKeepForm(m, m');
      } else {
        SetDirKeeps(m, p, name);
      }
    }
  }

  /** A name that is a key leads to that key, through keys. */
  lemma {:induction false} CleanWalk(m: Dirs, p: Path, elems: seq<string>)
    requires WellFormed(m) && p + elems in m
    ensures Walk(p, elems) == Some(p + elems) && Passed(p, elems) <= m.Keys
    decreases |elems|
  {
    if elems == [] {
      assert p + elems == p;
    } else {
      var all := p + elems;
      assert IsClean(all) && all[|p|] == elems[0];
      assert p + [elems[0]] + elems[1..] == all;
      PrefixIn(m, all, |p| + 1);
      assert all[..|p| + 1] == p + [elems[0]];
      CleanWalk(m, p + [elems[0]], elems[1..]);
    }
  }

  lemma {:induction false} PrefixIn(m: Dirs, p: Path, k: nat)
    requires WellFormed(m) && p in m && k <= |p|
    ensures p[..k] in m
    decreases |p| - k
  {
    if k == |p| {
      assert p[..k] == p;
    } else {
      PrefixIn(m, p, k + 1);
      assert Parent(p[..k + 1]) == p[..k];
    }
  }

  lemma SkippedAsksNothing(m: Dirs, e: Entry)
    requires WellFormed(m) && e.elems != [] && Skipped(m, e)
    ensures DirsOf(e) <= m.Keys && FilesOf(e) == {}
    ensures forall x :: x in LinksOf(e) ==> x.0 + [x.1.name] in m
  {
    if e.elems == [""] {
      assert Init(e.elems) == [];
    } else {
      var key := e.elems;
      assert key == Init(key) + [Leaf(key)];
      PrefixIn(m, key, |key| - 1);
      assert [] + Init(key) == Init(key);
      CleanWalk(m, [], Init(key));
    }
  }

  // ----------------------------------------------------------- many entries

  /** Setting entries one after another. */
  ghost function SetAll(es: seq<Entry>): (s: State)
    requires forall e <- es :: e.elems != []
    ensures WellFormed(s.m)
  {
    if es == [] then
      NewIsFormed();
      State(NEW, {})
    else
      var s := SetAll(es[..|es| - 1]);
      SetAdds(s, es[|es| - 1]);
      SetEntry(s, es[|es| - 1]).0
  }

  lemma NewIsFormed()
    ensures WellFormed(NEW)
  {
    assert NEW[[]] == EMPTY;
    forall p, name | p in NEW ensures Listed(NEW, p, name) {
      assert |p + [name]| == 1;
    }
  }

  ghost predicate AsksDir(es: seq<Entry>, p: Path)
    requires forall e <- es :: e.elems != []
  {
    p == [] || exists e <- es :: p in DirsOf(e)
  }

  ghost predicate AsksFile(es: seq<Entry>, p: Path, f: FileNode)
    requires forall e <- es :: e.elems != []
  {
    exists e <- es :: (p, f) in FilesOf(e)
  }

  ghost predicate AsksLink(es: seq<Entry>, p: Path, l: SymlinkNode)
    requires forall e <- es :: e.elems != []
  {
    exists e <- es :: (p, l) in LinksOf(e)
  }

  /** No two entries ask for different things at one place. */
  ghost predicate ConflictFree(es: seq<Entry>)
    requires forall e <- es :: e.elems != []
  {
    && (forall p, f, g | AsksFile(es, p, f) && AsksFile(es, p, g) && f.name == g.name :: f == g)
    && (forall p, l, k | AsksLink(es, p, l) && AsksLink(es, p, k) && l.name == k.name :: l == k)
    && (forall p, f, l | AsksFile(es, p, f) && AsksLink(es, p, l) :: f.name != l.name)
    && (forall p, f | AsksFile(es, p, f) :: !AsksDir(es, p + [f.name]))
    && (forall p, l | AsksLink(es, p, l) :: !AsksDir(es, p + [l.name]))
  }

  /** The tree holds what was asked for, whatever the order and the repetitions. */
  ghost predicate Holds(m: Dirs, es: seq<Entry>)
    requires forall e <- es :: e.elems != []
  {
    && (forall p :: p in m <==> AsksDir(es, p))
    && (forall p, f :: HasFile(m, p, f) <==> AsksFile(es, p, f))
    && (forall p, l :: HasLink(m, p, l) <==> AsksLink(es, p, l))
  }

  lemma {:induction false} SetAllHolds(es: seq<Entry>)
    requires (forall e <- es :: e.elems != []) && ConflictFree(es)
    ensures Holds(SetAll(es).m, es)
    ensures forall p, f | AsksFile(es, p, f) :: f.digest in SetAll(es).store
  {
    hide WellFormed, SetEntry, DirsOf, FilesOf, LinksOf, Skipped;
    if es == [] {
      assert SetAll(es) == State(NEW, {});
    } else {
      var init, e := es[..|es| - 1], es[|es| - 1];
      assert es == init + [e];
      Fewer(init, e);
      SetAllHolds(init);
      var s := SetAll(init);
      SetAdds(s, e);
      var s' := SetEntry(s, e).0;
      assert SetAll(es) == s';
      if Skipped(s.m, e) {
        SkippedAsksNothing(s.m, e);
        NoLinksSkipped(s.m, init, e);
      }
      assert Holds(s'.m, es);
    }
  }

  /** What one more entry asks for. */
  lemma Fewer(init: seq<Entry>, e: Entry)
    requires forall x <- init + [e] :: x.elems != []
    ensures forall x <- init :: x.elems != []
    ensures e.elems != []
    ensures forall p :: AsksDir(init + [e], p) <==> AsksDir(init, p) || p in DirsOf(e)
    ensures forall p, f :: AsksFile(init + [e], p, f) <==> AsksFile(init, p, f) || (p, f) in FilesOf(e)
    ensures forall p, l :: AsksLink(init + [e], p, l) <==> AsksLink(init, p, l) || (p, l) in LinksOf(e)
    ensures ConflictFree(init + [e]) ==> ConflictFree(init)
  {
    hide DirsOf, FilesOf, LinksOf;
    var es := init + [e];
    assert e in es;
    assert forall x :: x in es <==> x in init || x == e;
  }

  /** A symlink is never skipped for a directory when there is no conflict. */
  lemma NoLinksSkipped(m: Dirs, init: seq<Entry>, e: Entry)
    requires (forall x <- init + [e] :: x.elems != []) && ConflictFree(init + [e])
    requires forall p | p in m :: AsksDir(init + [e], p)
    requires forall x :: x in LinksOf(e) ==> x.0 + [x.1.name] in m
    ensures LinksOf(e) == {}
  {
    hide DirsOf, FilesOf, LinksOf;
    assert e in init + [e];
    assert forall x :: x in LinksOf(e) ==> AsksLink(init + [e], x.0, x.1);
    assert forall x :: x !in LinksOf(e);
  }

  // ------------------------------------------------------------------ sorting

  /** Go's order on strings. */
  predicate Less(a: string, b: string) {
    b != "" && (a == "" || a[0] < b[0] || (a[0] == b[0] && Less(a[1..], b[1..])))
  }

  lemma {:induction false} LessIsStrict(a: string, b: string)
    ensures !(Less(a, b) && Less(b, a)) && !Less(a, a)
    ensures a == b || Less(a, b) || Less(b, a)
    decreases |a|
  {
    if a != "" {
      LessIsStrict(a[1..], a[1..]);
      if b != "" {
        LessIsStrict(a[1..], b[1..]);
        assert a == [a[0]] + a[1..] && b == [b[0]] + b[1..];
      }
    }
  }

  lemma {:induction false} LessChains(a: string, b: string, c: string)
    requires Less(a, b) && Less(b, c)
    ensures Less(a, c)
  {
    if a != "" && a[0] == b[0] == c[0] {
      LessChains(a[1..], b[1..], c[1..]);
    }
  }

  predicate Sorted<T>(s: seq<T>, name: T -> string) {
    forall j, k :: 0 <= j < k < |s| ==> Less(name(s[j]), name(s[k]))
  }

  predicate Distinct<T>(s: seq<T>, name: T -> string) {
    forall j, k :: 0 <= j < k < |s| ==> name(s[j]) != name(s[k])
  }

  predicate SameElements<T(==)>(s: seq<T>, t: seq<T>) {
    (forall x <- s :: x in t) && (forall x <- t :: x in s)
  }

  /** `sort.Slice` by name, for distinct names: by insertion. */
  method SortByName<T(==)>(s: seq<T>, name: T -> string) returns (r: seq<T>)
    requires Distinct(s, name)
    ensures Sorted(r, name) && SameElements(r, s) && |r| == |s|
  {
    r := [];
    for i := 0 to |s|
      invariant Sorted(r, name) && |r| == i
      invariant forall x :: x in r <==> x in s[..i]
    {
      assert s[..i + 1] == s[..i] + [s[i]];
      assert forall j :: 0 <= j < i ==> name(s[j]) != name(s[i]);
      assert forall x <- r :: name(x) != name(s[i]);
      r := Insert(s[i], r, name);
    }
    assert s[..|s|] == s;
  }

  method Insert<T(==)>(x: T, s: seq<T>, name: T -> string) returns (r: seq<T>)
    requires Sorted(s, name) && forall y <- s :: name(y) != name(x)
    ensures Sorted(r, name) && |r| == |s| + 1 && forall y :: y in r <==> y in s || y == x
  {
    hide Less;
    var i := |s|;
    while i > 0 && Less(name(x), name(s[i - 1]))
      invariant 0 <= i <= |s|
      invariant i < |s| ==> Less(name(x), name(s[i]))
    {
      i := i - 1;
    }
    if i > 0 {
      LessIsStrict(name(x), name(s[i - 1]));
      assert s[i - 1] in s;
    }
    InsertSorts(x, s, i, name);
    r := s[..i] + [x] + s[i..];
    assert s == s[..i] + s[i..];
  }

  lemma InsertSorts<T>(x: T, s: seq<T>, i: nat, name: T -> string)
    requires Sorted(s, name) && i <= |s|
    requires i > 0 ==> Less(name(s[i - 1]), name(x))
    requires i < |s| ==> Less(name(x), name(s[i]))
    ensures Sorted(s[..i] + [x] + s[i..], name)
  {
    hide Less;
    forall k | 0 <= k < i ensures Less(name(s[k]), name(x)) {
      if k < i - 1 {
        LessChains(name(s[k]), name(s[i - 1]), name(x));
      }
    }
    forall k | i <= k < |s| ensures Less(name(x), name(s[k])) {
      if k > i {
        LessChains(name(x), name(s[i]), name(s[k]));
      }
    }
    var r := s[..i] + [x] + s[i..];
    forall j, k | 0 <= j < k < |r| ensures Less(name(r[j]), name(r[k])) {
      assert r[j] == if j < i then s[j] else if j == i then x else s[j - 1];
      assert r[k] == if k < i then s[k] else if k == i then x else s[k - 1];
    }
  }

  /** Two sorted sequences of the same elements are the same. */
  lemma {:induction false} SortedUnique<T>(s: seq<T>, t: seq<T>, name: T -> string)
    requires Sorted(s, name) && Sorted(t, name) && SameElements(s, t)
    ensures s == t
  {
    assert t == [] || t[0] in s;
    if s != [] {
      assert s[0] in t;
      var i :| 0 <= i < |t| && t[i] == s[0];
      var j :| 0 <= j < |s| && s[j] == t[0];
      LessIsStrict(name(s[0]), name(t[0]));
      assert i == 0;
      SortedRest(s, t, name);
      SortedRest(t, s, name);
      SortedUnique(s[1..], t[1..], name);
      assert s == [s[0]] + s[1..] && t == [t[0]] + t[1..];
    }
  }

  lemma SortedRest<T>(s: seq<T>, t: seq<T>, name: T -> string)
    requires Sorted(s, name) && s != [] && t != [] && s[0] == t[0] && SameElements(s, t)
    ensures Sorted(s[1..], name) && forall x <- s[1..] :: x in t[1..]
  {
    forall x | x in s[1..] ensures x in t[1..] {
      var k :| 0 <= k < |s[1..]| && s[1..][k] == x;
      assert s[k + 1] == x && Less(name(s[0]), name(x));
      LessIsStrict(name(x), name(x));
      assert x in t;
      var j :| 0 <= j < |t| && t[j] == x;
      assert t[1..][j - 1] == x;
    }
  }

  // ----------------------------------------------------------------- building

  datatype Node = FileN(file: FileNode) | LinkN(link: SymlinkNode) | DirN(dir: DirNode)

  datatype BuildError = DuplicateFile | DuplicateSymlink | DuplicateDir

  function FileName(f: FileNode): string { f.name }
  function LinkName(l: SymlinkNode): string { l.name }
  function DirName(d: DirNode): string { d.name }

  predicate Linked(d: Directory, name: string) {
    exists l <- d.symlinks :: l.name == name
  }

  predicate Filed(d: Directory, name: string) {
    exists f <- d.files :: f.name == name
  }

  predicate FilesAgree(d: Directory) {
    forall f, g :: f in d.files && g in d.files && f.name == g.name ==> f == g
  }

  predicate LinksAgree(d: Directory) {
    && (forall l <- d.symlinks :: !Filed(d, l.name))
    && forall l, k :: l in d.symlinks && k in d.symlinks && l.name == k.name ==> l == k
  }

  ghost predicate Height(m: Dirs, h: nat) {
    forall p | p in m :: |p| <= h
  }

  /** Building succeeds: no name stands for two different things, here and in
      every subdirectory that no symlink hides. */
  ghost predicate Buildable(m: Dirs, p: Path, h: nat)
    requires p in m && Height(m, h)
    decreases h - |p|
  {
    FilesAgree(m[p]) && LinksAgree(m[p]) && forall name | HasDir(m[p], name) :: ChildBuildable(m, p, name, h)
  }

  ghost predicate ChildBuildable(m: Dirs, p: Path, name: string, h: nat)
    requires p in m && Height(m, h)
    decreases h - |p|, 0
  {
    Linked(m[p], name) || (p + [name] in m && |p| < h && !Filed(m[p], name) && Buildable(m, p + [name], h))
  }

  /** `d` is the canonical directory of `p`: sorted, each name once, with the
      digests of canonical subdirectories. A symlink hides a directory. */
  ghost predicate Built(d: Directory, m: Dirs, p: Path)
    decreases d
  {
    && p in m
    && Sorted(d.files, FileName) && SameElements(d.files, m[p].files)
    && Sorted(d.symlinks, LinkName) && SameElements(d.symlinks, m[p].symlinks)
    && Sorted(d.dirs, DirName) && (forall name :: HasDir(d, name) <==> HasDir(m[p], name) && !Linked(m[p], name))
    && forall k :: 0 <= k < |d.dirs| ==>
         var g := d.dirs[k].digest;
         g.Some? && g.value.DirDigest? && Built(g.value.dir, m, p + [d.dirs[k].name])
  }

  /** Every directory digest reachable from `d` is stored. */
  predicate Complete(d: Directory, store: set<Digest>)
    decreases d
  {
    && DirDigest(d) in store
    && forall k :: 0 <= k < |d.dirs| ==>
         var g := d.dirs[k].digest;
         g.Some? && g.value.DirDigest? && Complete(g.value.dir, store)
  }

  /** Two canonical directories of trees that hold the same are equal. */
  lemma {:induction false} BuiltUnique(d: Directory, d': Directory, m: Dirs, m': Dirs, p: Path)
    requires Built(d, m, p) && Built(d', m', p)
    requires WellFormed(m) && WellFormed(m') && m.Keys == m'.Keys && SameLeaves(m, m')
    ensures d == d'
    decreases d
  {
    SameAt(m, m', p);
    forall x ensures x in d.files <==> x in d'.files {}
    SortedUnique(d.files, d'.files, FileName);
    SortedUnique(d.symlinks, d'.symlinks, LinkName);
    SameDirNames(d, d');
    forall k | 0 <= k < |d.dirs| ensures d.dirs[k] == d'.dirs[k] {
      BuiltUnique(d.dirs[k].digest.value.dir, d'.dirs[k].digest.value.dir, m, m', p + [d.dirs[k].name]);
    }
    assert d.dirs == d'.dirs;
  }

  lemma SameAt(m: Dirs, m': Dirs, p: Path)
    requires WellFormed(m) && WellFormed(m') && m.Keys == m'.Keys && SameLeaves(m, m') && p in m
    ensures forall f :: f in m[p].files <==> f in m'[p].files
    ensures forall l :: l in m[p].symlinks <==> l in m'[p].symlinks
    ensures forall name :: HasDir(m[p], name) <==> HasDir(m'[p], name)
    ensures forall name :: Linked(m[p], name) <==> Linked(m'[p], name)
  {
    hide HasDir;
    forall f ensures f in m[p].files <==> f in m'[p].files {
      assert HasFile(m, p, f) <==> HasFile(m', p, f);
    }
    forall l ensures l in m[p].symlinks <==> l in m'[p].symlinks {
      assert HasLink(m, p, l) <==> HasLink(m', p, l);
    }
    forall name ensures HasDir(m[p], name) <==> HasDir(m'[p], name) {
      assert Listed(m, p, name) && Listed(m', p, name);
    }
  }

  function Names(s: seq<DirNode>): (r: seq<string>)
    ensures |r| == |s| && forall k :: 0 <= k < |s| ==> r[k] == s[k].name
  {
    seq(|s|, k requires 0 <= k < |s| => s[k].name)
  }

  function Self(s: string): string { s }

  lemma SameDirNames(d: Directory, d': Directory)
    requires Sorted(d.dirs, DirName) && Sorted(d'.dirs, DirName)
    requires forall name :: HasDir(d, name) <==> HasDir(d', name)
    ensures |d.dirs| == |d'.dirs| && forall k :: 0 <= k < |d.dirs| ==> d.dirs[k].name == d'.dirs[k].name
  {
    var s, t := Names(d.dirs), Names(d'.dirs);
    forall name ensures name in s <==> name in t {
      assert name in s <==> HasDir(d, name);
      assert name in t <==> HasDir(d', name);
    }
    SortedUnique(s, t, Self);
    assert forall k :: 0 <= k < |s| ==> s[k] == t[k];
  }

  /** Every digest stored is one of the old ones, or of a directory built. */
  lemma {:induction false} CompleteGrows(d: Directory, store: set<Digest>, more: set<Digest>)
    requires Complete(d, store) && store <= more
    ensures Complete(d, more)
    decreases d
  {
    forall k | 0 <= k < |d.dirs|
      ensures var g := d.dirs[k].digest; g.Some? && g.value.DirDigest? && Complete(g.value.dir, more)
    {
      CompleteGrows(d.dirs[k].digest.value.dir, store, more);
    }
  }

  /** A subdirectory that is done: named in `cur`, not hidden, with its digest. */
  ghost predicate SubDone(sub: DirNode, cur: Directory, m: Dirs, p: Path, store: set<Digest>) {
    && HasDir(cur, sub.name) && !Linked(cur, sub.name)
    && sub.digest.Some? && sub.digest.value.DirDigest?
    && Built(sub.digest.value.dir, m, p + [sub.name]) && Complete(sub.digest.value.dir, store)
  }

  /** The branches of the walking loop. */
  lemma WalkStep(m: Dirs, p: Path, elems: seq<string>)
    requires WellFormed(m) && p in m && elems != []
    ensures var name, rest := elems[0], elems[1..];
            if name == "" || name == "." then
              MakeDirs(m, p, elems) == MakeDirs(m, p, rest) && Walk(p, elems) == Walk(p, rest)
            else if name == ".." then
              if p == [] then MakeDirs(m, p, elems) == m && Walk(p, elems) == None
              else
                var q := p[..|p| - 1];
                q in m && MakeDirs(m, p, elems) == MakeDirs(m, q, rest) && Walk(p, elems) == Walk(q, rest)
            else
              var m', q := SetDir(m, p, name), p + [name];
              && WellFormed(m') && q in m'
              && MakeDirs(m, p, elems) == MakeDirs(m', q, rest) && Walk(p, elems) == Walk(q, rest)
  {
    hide WellFormed, SetDir;
    ParentIn(m, p);
    if IsPlain(elems[0]) {
      SetDirKeeps(m, p, elems[0]);
    }
  }

  lemma WalkDone(m: Dirs, p: Path, elems: seq<string>)
    requires WellFormed(m) && p in m && elems == []
    ensures MakeDirs(m, p, elems) == m && Walk(p, elems) == Some(p)
  {
  }

  lemma {:induction false} SubsGrow(dirs: seq<DirNode>, cur: Directory, m: Dirs, p: Path, store: set<Digest>,
          more: set<Digest>)
    requires store <= more && forall sub <- dirs :: SubDone(sub, cur, m, p, store)
    ensures forall sub <- dirs :: SubDone(sub, cur, m, p, more)
  {
    forall sub | sub in dirs ensures SubDone(sub, cur, m, p, more) {
      CompleteGrows(sub.digest.value.dir, store, more);
    }
  }

  /** The canonical directory from its finished parts. */
  lemma {:induction false} Assembled(d: Directory, cur: Directory, m: Dirs, p: Path, dirs: seq<DirNode>,
          store: set<Digest>)
    requires p in m && cur == m[p]
    requires Sorted(d.files, FileName) && SameElements(d.files, cur.files)
    requires Sorted(d.symlinks, LinkName) && SameElements(d.symlinks, cur.symlinks)
    requires Sorted(d.dirs, DirName) && SameElements(d.dirs, dirs)
    requires forall sub <- dirs :: SubDone(sub, cur, m, p, store)
    requires forall n | HasDir(cur, n) && !Linked(cur, n) :: Named(dirs, n)
    ensures Built(d, m, p) && Complete(d, store + {DirDigest(d)})
  {
    hide HasDir, Linked;
    SubsGrow(dirs, cur, m, p, store, store + {DirDigest(d)});
    forall k | 0 <= k < |d.dirs| ensures SubDone(d.dirs[k], cur, m, p, store + {DirDigest(d)}) {
      assert d.dirs[k] in d.dirs;
    }
    forall n ensures HasDir(d, n) <==> HasDir(cur, n) && !Linked(cur, n) {
      HasDirIn(d, n);
    }
  }

  lemma HasDirIn(d: Directory, n: string)
    ensures HasDir(d, n) <==> exists sub <- d.dirs :: sub.name == n
  {
  }

  predicate Named(dirs: seq<DirNode>, n: string) {
    exists sub <- dirs :: sub.name == n
  }

  /** Is `q` at or below the child `name` of `p`? */
  predicate Under(p: Path, name: string, q: Path) {
    p + [name] <= q
  }

  /** Outside `p`, and at `p` itself, nothing changed. */
  ghost predicate Framed(before: Dirs, after: Dirs, m0: Dirs, p: Path) {
    && before.Keys == after.Keys == m0.Keys && p in m0
    && after[p] == before[p] && forall q | q in m0 && !(p <= q) :: after[q] == before[q]
  }

  /** The children from the `i`-th on are as they were set. */
  ghost predicate Intact(m: Dirs, m0: Dirs, p: Path, cur: Directory, i: nat) {
    && m.Keys == m0.Keys
    && forall j, q :: i <= j < |cur.dirs| && q in m0 && Under(p, cur.dirs[j].name, q) ==> m[q] == m0[q]
  }

  lemma FreshDirs(m0: Dirs, m: Dirs, p: Path)
    requires WellFormed(m0) && p in m0 && m.Keys == m0.Keys
    requires forall q | q in m0 && p <= q && p != q :: m[q] == m0[q]
    ensures DirsFresh(m0[p]) && Framed(m, m, m0, p) && Intact(m, m0, p, m0[p], 0)
  {
  }

  lemma LinkedChild(m: Dirs, p: Path, name: string, h: nat)
    requires p in m && Height(m, h) && Linked(m[p], name)
    ensures ChildBuildable(m, p, name, h)
  {
  }

  lemma ChildThere(m: Dirs, p: Path, name: string, h: nat)
    requires WellFormed(m) && p in m && Height(m, h) && HasDir(m[p], name)
    ensures p + [name] in m && |p| < h
  {
    assert Listed(m, p, name);
  }

  lemma NotLinkedChild(m: Dirs, p: Path, name: string, h: nat)
    requires p in m && Height(m, h) && !Linked(m[p], name) && p + [name] in m && |p| < h
    ensures ChildBuildable(m, p, name, h) <==> !Filed(m[p], name) && Buildable(m, p + [name], h)
  {
  }

  /** Building one child leaves the others alone. */
  lemma {:induction false} ChildKeeps(m0: Dirs, p: Path, cur: Directory, i: nat, start: Dirs, before: Dirs, after: Dirs)
    requires i < |cur.dirs| && DirsFresh(cur) && after.Keys == m0.Keys
    requires Framed(start, before, m0, p) && Intact(before, m0, p, cur, i)
    requires forall q | q in m0 && !(p + [cur.dirs[i].name] <= q) :: after[q] == before[q]
    ensures Framed(start, after, m0, p) && Intact(after, m0, p, cur, i + 1)
  {
    forall j, q | i < j < |cur.dirs| && q in m0 && Under(p, cur.dirs[j].name, q) ensures after[q] == m0[q] {
      assert q[|p|] == cur.dirs[j].name != cur.dirs[i].name;
    }
  }

  lemma ChildIntact(m0: Dirs, m: Dirs, p: Path, cur: Directory, i: nat)
    requires i < |cur.dirs| && Intact(m, m0, p, cur, i)
    ensures forall q | q in m0 && p + [cur.dirs[i].name] <= q :: m[q] == m0[q]
    ensures Intact(m, m0, p, cur, i + 1) && m.Keys == m0.Keys && HasDir(cur, cur.dirs[i].name)
  {
    forall q | q in m0 && p + [cur.dirs[i].name] <= q ensures m[q] == m0[q] {
      assert Under(p, cur.dirs[i].name, q);
    }
  }

  lemma NothingNamed()
    ensures Distinct<DirNode>([], DirName) && forall n :: !Named([], n)
  {
  }

  lemma FrameOf(before: Dirs, after: Dirs, m0: Dirs, p: Path)
    requires Framed(before, after, m0, p)
    ensures after.Keys == m0.Keys && after[p] == before[p] && forall q | q in m0 && !(p <= q) :: after[q] == before[q]
  {
  }

  lemma EveryChild(m: Dirs, p: Path, cur: Directory, dirs: seq<DirNode>, h: nat)
    requires p in m && Height(m, h)
    requires forall j :: 0 <= j < |cur.dirs| ==> Linked(cur, cur.dirs[j].name) || Named(dirs, cur.dirs[j].name)
    requires forall j :: 0 <= j < |cur.dirs| ==> ChildBuildable(m, p, cur.dirs[j].name, h)
    ensures forall n | HasDir(cur, n) :: ChildBuildable(m, p, n, h)
    ensures forall n | HasDir(cur, n) && !Linked(cur, n) :: Named(dirs, n)
  {
    hide ChildBuildable, Linked, Named;
  }

  lemma SameTrans<T>(a: seq<T>, b: seq<T>, c: seq<T>)
    requires SameElements(a, b) && SameElements(b, c)
    ensures SameElements(a, c)
  {
  }

  lemma {:induction false} NewSub(dirs: seq<DirNode>, node: DirNode, cur: Directory, m: Dirs, p: Path,
          store: set<Digest>)
    requires Distinct(dirs, DirName) && !Named(dirs, node.name) && forall sub <- dirs :: SubDone(sub, cur, m, p, store)
    requires HasDir(cur, node.name) && !Linked(cur, node.name)
    requires node.digest.Some? && node.digest.value.DirDigest?
    requires Built(node.digest.value.dir, m, p + [node.name]) && Complete(node.digest.value.dir, store)
    ensures Distinct(dirs + [node], DirName) && forall sub <- dirs + [node] :: SubDone(sub, cur, m, p, store)
    ensures forall n :: Named(dirs + [node], n) <==> Named(dirs, n) || n == node.name
  {
    forall k | 0 <= k < |dirs| ensures dirs[k].name != node.name {
      assert dirs[k] in dirs;
    }
    assert node in dirs + [node];
    assert forall x :: x in dirs ==> x in dirs + [node];
  }

  class MerkleTree {
    var m: Dirs
    var store: set<Digest>

    constructor ()
      ensures WellFormed(m) && m == NEW && store == {}
    {
      m, store := NEW, {};
      NewIsFormed();
    }

    /** `setDir`, on the path of the current directory. */
    method MakeDir(cur: Path, name: string) returns (next: Path)
      requires cur in m
      modifies this`m
      ensures m == SetDir(old(m), cur, name) && next == cur + [name]
    {
      next := cur + [name];
      if next !in m {
        m := m[cur := m[cur].(dirs := m[cur].dirs + [DirNode(name, None)])];
        m := m[next := EMPTY];
      }
    }

    /** `Set`. */
    method Set(e: Entry) returns (err: Option<SetError>)
      requires WellFormed(m) && e.elems != []
      modifies this
      ensures (State(m, store), err) == SetEntry(State(old(m), old(store)), e)
    {
      hide WellFormed, SetDir, MakeDirs, Walk, Enter, Passed, SetLeaf;
      if e.target != "" && e.data.Some? {
        return Some(AmbigFileSymlink);
      }
      if IsAbs(e.elems) {
        return Some(AbsPath);
      }
      if e.data == None && KeyOf(e.elems) in m {
        return None;
      }
      ghost var m0 := m;
      RootIn(m0);
      MakeDirsKeeps(m0, [], Init(e.elems));
      var cur: Path := [];
      var dirstack: seq<Path> := [];
      var i := 0;
      var inner := Init(e.elems);
      assert inner[0..] == inner;
      while i < |inner|
        invariant 0 <= i <= |inner| && store == old(store)
        invariant WellFormed(m) && cur in m && StackOf(dirstack, cur)
        invariant MakeDirs(m0, [], inner) == MakeDirs(m, cur, inner[i..])
        invariant Walk([], inner) == Walk(cur, inner[i..])
      {
        var name := inner[i];
        assert inner[i..][0] == name && inner[i..][1..] == inner[i + 1..];
        WalkStep(m, cur, inner[i..]);
        i := i + 1;
        if name == "" || name == "." {
          continue;
        }
        if name == ".." {
          if |dirstack| == 0 {
            return Some(BadPath);
          }
          cur, dirstack := dirstack[|dirstack| - 1], dirstack[..|dirstack| - 1];
          continue;
        }
        SetDirKeeps(m, cur, name);
        dirstack := dirstack + [cur];
        cur := MakeDir(cur, name);
      }
      assert inner[i..] == [];
      WalkDone(m, cur, inner[i..]);
      var leaf := Leaf(e.elems);
      if e.data == None {
        err := SetPlainLeaf(e, cur, leaf, |dirstack|);
        return;
      }
      if leaf == "." || leaf == ".." {
        return Some(BadPath);
      }
      store := store + {e.data.value};
      m := m[cur := m[cur].(files := m[cur].files + [FileNode(leaf, e.data.value, e.executable)])];
      return None;
    }

    /** The stack holds the directories above the current one. */
    ghost predicate StackOf(stack: seq<Path>, cur: Path) {
      |stack| == |cur| && forall k :: 0 <= k < |stack| ==> stack[k] == cur[..k]
    }

    method SetPlainLeaf(e: Entry, cur: Path, name: string, depth: nat) returns (err: Option<SetError>)
      requires cur in m && e.elems != [] && name == Leaf(e.elems) && e.data == None && depth == |cur|
      modifies this`m
      ensures (m, err) == SetLeaf(old(m), cur, e)
    {
      if name == "" {
        return Some(BadPath);
      }
      if name == "." {
        return None;
      }
      if name == ".." && depth == 0 {
        return Some(BadPath);
      }
      if name == ".." {
        return None;
      }
      if e.IsSymlink() {
        m := m[cur := m[cur].(symlinks := m[cur].symlinks + [SymlinkNode(name, e.target)])];
        return None;
      }
      var next := MakeDir(cur, name);
      return None;
    }

    /** `Build`: the digest of the canonical tree, when there is one. */
    method Build(ghost h: nat) returns (r: Result<Digest, BuildError>)
      requires WellFormed(m) && Height(m, h)
      modifies this
      ensures r.Success? <==> Buildable(old(m), [], h)
      ensures r.Success? ==>
                && r.value.DirDigest? && Built(r.value.dir, old(m), []) && Complete(r.value.dir, store)
                && [] in m && m[[]] == r.value.dir
      ensures m.Keys == old(m).Keys && old(store) <= store
    {
      r := BuildTree([], m, h);
    }

    /** `buildTree`. The tree below `p` is as it was set. */
    method BuildTree(p: Path, ghost m0: Dirs, ghost h: nat) returns (r: Result<Digest, BuildError>)
      requires WellFormed(m0) && Height(m0, h) && p in m0 && m.Keys == m0.Keys
      requires forall q | q in m0 && p <= q :: m[q] == m0[q]
      modifies this
      ensures m.Keys == m0.Keys && forall q | q in m0 && !(p <= q) :: m[q] == old(m)[q]
      ensures r.Success? <==> Buildable(m0, p, h)
      ensures r.Success? ==>
                && r.value.DirDigest? && Built(r.value.dir, m0, p) && Complete(r.value.dir, store)
                && m[p] == r.value.dir
      ensures old(store) <= store
      decreases h - |p|, 1
    {
      hide WellFormed, HasDir, Linked, Filed, FilesAgree, LinksAgree, Built, Complete, SameElements, Sorted, Distinct,
        ChildBuildable, SubDone;
      var cur := m[p];
      var files, names, fok := CollectFiles(cur);
      if !fok {
        return Failure(DuplicateFile);
      }
      ghost var collected := files;
      files := SortByName(files, FileName);
      SameTrans(files, collected, cur.files);
      m := m[p := m[p].(files := files)];
      var symlinks, lok;
      symlinks, names, lok := CollectLinks(cur, names);
      if !lok {
        return Failure(DuplicateSymlink);
      }
      ghost var links := symlinks;
      symlinks := SortByName(symlinks, LinkName);
      SameTrans(symlinks, links, cur.symlinks);
      m := m[p := m[p].(symlinks := symlinks)];
      var dirs := BuildDirs(p, cur, names, m0, h);
      if dirs.Failure? {
        return Failure(dirs.error);
      }
      var sorted := SortByName(dirs.value, DirName);
      m := m[p := m[p].(dirs := sorted)];
      var d := m[p];
      Assembled(d, cur, m0, p, dirs.value, store);
      store := store + {DirDigest(d)};
      return Success(DirDigest(d));
    }

    /** The loop over the files: an equal duplicate is dropped. */
    method CollectFiles(cur: Directory) returns (files: seq<FileNode>, names: map<string, Node>, ok: bool)
      ensures ok <==> FilesAgree(cur)
      ensures ok ==> Distinct(files, FileName) && SameElements(files, cur.files)
      ensures ok ==> forall n :: (n in names <==> Filed(cur, n)) && (n in names ==> names[n].FileN?)
    {
      files, names := [], map[];
      for i := 0 to |cur.files|
        invariant Distinct(files, FileName)
        invariant forall f :: f in files <==> f in cur.files[..i]
        invariant forall f :: f in files ==> f.name in names && names[f.name] == FileN(f)
        invariant forall n :: n in names ==> exists f <- files :: f.name == n
      {
        var f := cur.files[i];
        assert f in cur.files;
        assert cur.files[..i + 1] == cur.files[..i] + [f];
        if f.name in names {
          if names[f.name] != FileN(f) {
            var g :| g in files && g.name == f.name;
            assert g in cur.files;
            return [], map[], false;
          }
          continue;
        }
        names := names[f.name := FileN(f)];
        files := files + [f];
      }
      assert cur.files[..|cur.files|] == cur.files;
      ok := true;
    }

    method CollectLinks(cur: Directory, fileNames: map<string, Node>)
      returns (links: seq<SymlinkNode>, names: map<string, Node>, ok: bool)
      requires forall n :: (n in fileNames <==> Filed(cur, n)) && (n in fileNames ==> fileNames[n].FileN?)
      ensures ok <==> LinksAgree(cur)
      ensures ok ==> Distinct(links, LinkName) && SameElements(links, cur.symlinks)
      ensures ok ==> forall n :: (n in names <==> Filed(cur, n) || Linked(cur, n))
                              && (n in names ==> (names[n].LinkN? <==> Linked(cur, n)))
                              && (n in names ==> (names[n].FileN? <==> Filed(cur, n)))
    {
      links, names := [], fileNames;
      for i := 0 to |cur.symlinks|
        invariant Distinct(links, LinkName)
        invariant forall l :: l in links <==> l in cur.symlinks[..i]
        invariant forall l :: l in links ==> l.name in names && names[l.name] == LinkN(l) && !Filed(cur, l.name)
        invariant forall n :: n in names ==> Filed(cur, n) || exists l <- links :: l.name == n
        invariant forall n :: Filed(cur, n) ==> n in names && names[n].FileN?
      {
        var l := cur.symlinks[i];
        assert l in cur.symlinks;
        assert cur.symlinks[..i + 1] == cur.symlinks[..i] + [l];
        if l.name in names {
          if names[l.name] != LinkN(l) {
            if !Filed(cur, l.name) {
              var k :| k in links && k.name == l.name;
              assert k in cur.symlinks;
            }
            return [], map[], false;
          }
          continue;
        }
        names := names[l.name := LinkN(l)];
        links := links + [l];
      }
      assert cur.symlinks[..|cur.symlinks|] == cur.symlinks;
      ok := true;
    }

    /** The loop over the subdirectories. */
    method BuildDirs(p: Path, cur: Directory, fixed: map<string, Node>, ghost m0: Dirs, ghost h: nat)
      returns (r: Result<seq<DirNode>, BuildError>)
      requires WellFormed(m0) && Height(m0, h) && p in m0 && m.Keys == m0.Keys && cur == m0[p]
      requires forall q | q in m0 && p <= q && p != q :: m[q] == m0[q]
      requires forall n :: (n in fixed <==> Filed(cur, n) || Linked(cur, n))
                        && (n in fixed ==> (fixed[n].LinkN? <==> Linked(cur, n)))
                        && (n in fixed ==> (fixed[n].FileN? <==> Filed(cur, n)))
      modifies this
      ensures m.Keys == m0.Keys && m[p] == old(m)[p] && forall q | q in m0 && !(p <= q) :: m[q] == old(m)[q]
      ensures r.Success? <==> forall n | HasDir(cur, n) :: ChildBuildable(m0, p, n, h)
      ensures r.Success? ==> Distinct(r.value, DirName) && forall sub <- r.value :: SubDone(sub, cur, m0, p, store)
      ensures r.Success? ==> forall n | HasDir(cur, n) && !Linked(cur, n) :: Named(r.value, n)
      ensures old(store) <= store
      decreases h - |p|, 0
    {
      hide WellFormed, Linked, Filed, Built, Complete, ChildBuildable, SubDone, Buildable, Framed, Intact, HasDir,
        Named,
        Distinct, Height;
      var names := fixed;
      var dirs: seq<DirNode> := [];
      FreshDirs(m0, m, p);
      NothingNamed();
      for i := 0 to |cur.dirs|
        invariant Framed(old(m), m, m0, p) && Intact(m, m0, p, cur, i)
        invariant old(store) <= store
        invariant Distinct(dirs, DirName) && forall sub <- dirs :: SubDone(sub, cur, m0, p, store)
        invariant forall j :: i <= j < |cur.dirs| ==> !Named(dirs, cur.dirs[j].name)
        invariant forall j :: 0 <= j < i ==> Linked(cur, cur.dirs[j].name) || Named(dirs, cur.dirs[j].name)
        invariant forall j :: 0 <= j < i ==> ChildBuildable(m0, p, cur.dirs[j].name, h)
        invariant forall n :: n in names <==> n in fixed || Named(dirs, n)
        invariant forall n :: n in fixed ==> names[n] == fixed[n]
      {
        var sub := cur.dirs[i];
        ChildIntact(m0, m, p, cur, i);
        if sub.name in names && names[sub.name].LinkN? {
          LinkedChild(m0, p, sub.name, h);
          continue;
        }
        ChildThere(m0, p, sub.name, h);
        ghost var before, stored := m, store;
        var built := BuildTree(p + [sub.name], m0, h);
        ChildKeeps(m0, p, cur, i, old(m), before, m);
        NotLinkedChild(m0, p, sub.name, h);
        if built.Failure? {
          FrameOf(old(m), m, m0, p);
          return Failure(built.error);
        }
        SubsGrow(dirs, cur, m0, p, stored, store);
        if sub.name in names {
          FrameOf(old(m), m, m0, p);
          return Failure(DuplicateDir);
        }
        var node := sub.(digest := Some(built.value));
        NewSub(dirs, node, cur, m0, p, store);
        names := names[sub.name := DirN(node)];
        dirs := dirs + [node];
      }
      EveryChild(m0, p, cur, dirs, h);
      FrameOf(old(m), m, m0, p);
      return Success(dirs);
    }
  }

  // --------------------------------------------------------------- traversing

  datatype OutputFile = OutputFile(path: Path, digest: Digest, executable: bool)

  datatype OutputSymlink = OutputSymlink(path: Path, target: string)

  datatype Output = Output(files: seq<OutputFile>, symlinks: seq<OutputSymlink>, dirs: seq<Path>)

  function FileOut(base: Path, f: FileNode): OutputFile {
    OutputFile(base + [f.name], f.digest, f.executable)
  }

  function LinkOut(base: Path, l: SymlinkNode): OutputSymlink {
    OutputSymlink(base + [l.name], l.target)
  }

  function OwnFiles(base: Path, files: seq<FileNode>): seq<OutputFile> {
    seq(|files|, k requires 0 <= k < |files| => FileOut(base, files[k]))
  }

  function OwnLinks(base: Path, links: seq<SymlinkNode>): seq<OutputSymlink> {
    seq(|links|, k requires 0 <= k < |links| => LinkOut(base, links[k]))
  }

  /** A directory that the store can give back. */
  predicate Loadable(sub: DirNode, ds: set<Digest>) {
    sub.digest.Some? && sub.digest.value in ds && sub.digest.value.DirDigest?
  }

  /** What `Traverse` returns; directories that are not in the store are ignored. */
  function Traversed(base: Path, d: Directory, ds: set<Digest>): Output
    decreases d
  {
    var subs := TraversedSubs(base, d, ds, 0);
    Output(OwnFiles(base, d.files) + subs.files, OwnLinks(base, d.symlinks) + subs.symlinks, subs.dirs)
  }

  function TraversedSubs(base: Path, d: Directory, ds: set<Digest>, k: nat): Output
    requires k <= |d.dirs|
    decreases d, |d.dirs| - k
  {
    if k == |d.dirs| then Output([], [], [])
    else
      var rest := TraversedSubs(base, d, ds, k + 1);
      var path := base + [d.dirs[k].name];
      if Loadable(d.dirs[k], ds) then
        var sub := Traversed(path, d.dirs[k].digest.value.dir, ds);
        Output(sub.files + rest.files, sub.symlinks + rest.symlinks, [path] + sub.dirs + rest.dirs)
      else rest
  }

  /** `Traverse`. */
  method Traverse(base: Path, d: Directory, ds: set<Digest>) returns (r: Output)
    ensures r == Traversed(base, d, ds)
    decreases d
  {
    var files, symlinks, dirs: seq<Path> := [], [], [];
    for k := 0 to |d.files|
      invariant files == OwnFiles(base, d.files)[..k]
    {
      files := files + [FileOut(base, d.files[k])];
    }
    for k := 0 to |d.symlinks|
      invariant symlinks == OwnLinks(base, d.symlinks)[..k]
    {
      symlinks := symlinks + [LinkOut(base, d.symlinks[k])];
    }
    ghost var whole := Traversed(base, d, ds);
    for k := 0 to |d.dirs|
      invariant var rest := TraversedSubs(base, d, ds, k);
                && files + rest.files == whole.files && symlinks + rest.symlinks == whole.symlinks
                && dirs + rest.dirs == whole.dirs
    {
      var sub := d.dirs[k];
      if sub.digest == None || sub.digest.value !in ds {
        continue;
      }
      if sub.digest.value.FileDigest? {
        continue;
      }
      dirs := dirs + [base + [sub.name]];
      var s := Traverse(base + [sub.name], sub.digest.value.dir, ds);
      files := files + s.files;
      symlinks := symlinks + s.symlinks;
      dirs := dirs + s.dirs;
    }
    r := Output(files, symlinks, dirs);
  }

  // -------------------------------------------------------------- main results

  ghost predicate FileBelow(m: Dirs, p: Path, x: OutputFile) {
    exists q, f :: p <= q && HasFile(m, q, f) && x == FileOut(q, f)
  }

  ghost predicate LinkBelow(m: Dirs, p: Path, x: OutputSymlink) {
    exists q, l :: p <= q && HasLink(m, q, l) && x == LinkOut(q, l)
  }

  ghost predicate DirBelow(m: Dirs, p: Path, x: Path) {
    x in m && p <= x && p != x
  }

  /** No directory is hidden by a symlink. */
  ghost predicate NothingHidden(m: Dirs) {
    forall q, n | q in m && Linked(m[q], n) :: q + [n] !in m
  }

  /** The output is exactly what the tree holds at and below `p`. */
  ghost predicate Recovers(out: Output, m: Dirs, p: Path) {
    && (forall x :: x in out.files <==> FileBelow(m, p, x))
    && (forall x :: x in out.symlinks <==> LinkBelow(m, p, x))
    && (forall x :: x in out.dirs <==> DirBelow(m, p, x))
  }

  /** Below is: here, or below a child. */
  lemma FileBelowSplits(m: Dirs, p: Path, x: OutputFile)
    requires WellFormed(m) && p in m
    ensures FileBelow(m, p, x) <==>
              (exists f <- m[p].files :: x == FileOut(p, f)) || exists n :: p + [n] in m && FileBelow(m, p + [n], x)
  {
    hide WellFormed;
    if FileBelow(m, p, x) {
      var q, f :| p <= q && HasFile(m, q, f) && x == FileOut(q, f);
      ChildAbove(m, p, q);
    }
    if n :| p + [n] in m && FileBelow(m, p + [n], x) {
      var q, f :| p + [n] <= q && HasFile(m, q, f) && x == FileOut(q, f);
      assert p <= p + [n] <= q;
    }
    if f :| f in m[p].files && x == FileOut(p, f) {
      assert HasFile(m, p, f);
    }
  }

  lemma LinkBelowSplits(m: Dirs, p: Path, x: OutputSymlink)
    requires WellFormed(m) && p in m
    ensures LinkBelow(m, p, x) <==>
              (exists l <- m[p].symlinks :: x == LinkOut(p, l)) || exists n :: p + [n] in m && LinkBelow(m, p + [n], x)
  {
    hide WellFormed;
    if LinkBelow(m, p, x) {
      var q, l :| p <= q && HasLink(m, q, l) && x == LinkOut(q, l);
      ChildAbove(m, p, q);
    }
    if n :| p + [n] in m && LinkBelow(m, p + [n], x) {
      var q, l :| p + [n] <= q && HasLink(m, q, l) && x == LinkOut(q, l);
      assert p <= p + [n] <= q;
    }
    if l :| l in m[p].symlinks && x == LinkOut(p, l) {
      assert HasLink(m, p, l);
    }
  }

  lemma DirBelowSplits(m: Dirs, p: Path, x: Path)
    requires WellFormed(m) && p in m
    ensures DirBelow(m, p, x) <==> exists n :: p + [n] in m && (x == p + [n] || DirBelow(m, p + [n], x))
  {
    hide WellFormed;
    if DirBelow(m, p, x) {
      ChildAbove(m, p, x);
    }
    if n :| p + [n] in m && (x == p + [n] || DirBelow(m, p + [n], x)) {
      assert p <= p + [n] <= x;
    }
  }

  /** The child of `p` on the way to `q`. */
  lemma ChildAbove(m: Dirs, p: Path, q: Path)
    requires WellFormed(m) && p <= q && q in m
    ensures q != p ==> p + [q[|p|]] in m && p + [q[|p|]] <= q
  {
    if q != p {
      PrefixIn(m, q, |p| + 1);
      assert q[..|p| + 1] == p + [q[|p|]];
    }
  }

  /** What the subdirectories from the `k`-th on give. */
  lemma {:induction false} SubsFind(base: Path, d: Directory, ds: set<Digest>, k: nat)
    requires k <= |d.dirs| && forall j :: 0 <= j < |d.dirs| ==> Loadable(d.dirs[j], ds)
    ensures var out := TraversedSubs(base, d, ds, k);
            && (forall x :: x in out.files <==> exists j :: k <= j < |d.dirs| && x in SubOutput(base, d, ds, j).files)
            && (forall x :: x in out.symlinks <==>
                  exists j :: k <= j < |d.dirs| && x in SubOutput(base, d, ds, j).symlinks)
            && (forall x :: x in out.dirs <==> exists j :: k <= j < |d.dirs| && DirFrom(base, d, ds, j, x))
    decreases |d.dirs| - k
  {
    hide SubOutput, DirFrom;
    if k < |d.dirs| {
      SubsFind(base, d, ds, k + 1);
      FirstSub(base, d, ds, k);
      var sub := SubOutput(base, d, ds, k);
      var rest := TraversedSubs(base, d, ds, k + 1);
      var out := TraversedSubs(base, d, ds, k);
      forall x ensures x in out.files <==> exists j :: k <= j < |d.dirs| && x in SubOutput(base, d, ds, j).files {
        assert x in out.files <==> x in sub.files || x in rest.files;
      }
      forall x ensures x in out.symlinks <==> exists j :: k <= j < |d.dirs| && x in SubOutput(base, d, ds, j).symlinks {
        assert x in out.symlinks <==> x in sub.symlinks || x in rest.symlinks;
      }
      forall x ensures x in out.dirs <==> exists j :: k <= j < |d.dirs| && DirFrom(base, d, ds, j, x) {
        assert x in out.dirs <==> DirFrom(base, d, ds, k, x) || x in rest.dirs;
      }
    }
  }

  predicate DirFrom(base: Path, d: Directory, ds: set<Digest>, j: nat, x: Path)
    requires j < |d.dirs| && Loadable(d.dirs[j], ds)
  {
    x == base + [d.dirs[j].name] || x in SubOutput(base, d, ds, j).dirs
  }

  lemma FirstSub(base: Path, d: Directory, ds: set<Digest>, k: nat)
    requires k < |d.dirs| && Loadable(d.dirs[k], ds)
    ensures var sub, rest, out := SubOutput(base, d, ds, k), TraversedSubs(base, d, ds, k + 1),
                TraversedSubs(base, d, ds, k);
            && out.files == sub.files + rest.files && out.symlinks == sub.symlinks + rest.symlinks
            && forall x :: x in out.dirs <==> DirFrom(base, d, ds, k, x) || x in rest.dirs
  {
    hide Traversed;
    var sub, rest := SubOutput(base, d, ds, k), TraversedSubs(base, d, ds, k + 1);
    assert TraversedSubs(base, d, ds, k).dirs == [base + [d.dirs[k].name]] + sub.dirs + rest.dirs;
  }

  function SubOutput(base: Path, d: Directory, ds: set<Digest>, j: nat): Output
    requires j < |d.dirs| && Loadable(d.dirs[j], ds)
  {
    Traversed(base + [d.dirs[j].name], d.dirs[j].digest.value.dir, ds)
  }

  /** Every subdirectory is loaded and gives back what is below it. */
  ghost predicate SubsRecover(d: Directory, m: Dirs, p: Path, ds: set<Digest>) {
    forall j :: 0 <= j < |d.dirs| ==>
      Loadable(d.dirs[j], ds) && Recovers(SubOutput(p, d, ds, j), m, p + [d.dirs[j].name])
  }

  lemma FilesHereAndBelow(d: Directory, m: Dirs, p: Path, ds: set<Digest>)
    requires Built(d, m, p) && forall j :: 0 <= j < |d.dirs| ==> Loadable(d.dirs[j], ds)
    ensures p in m && forall x :: x in Traversed(p, d, ds).files <==>
                          (exists f <- m[p].files :: x == FileOut(p, f))
                          || exists j :: 0 <= j < |d.dirs| && x in SubOutput(p, d, ds, j).files
  {
    hide Traversed, TraversedSubs, SubOutput, DirFrom, Loadable;
    SubsFind(p, d, ds, 0);
    OwnFound(p, d, m[p]);
    OutputParts(p, d, ds);
  }

  lemma FilesRecovered(d: Directory, m: Dirs, p: Path, ds: set<Digest>)
    requires WellFormed(m) && Built(d, m, p) && NothingHidden(m) && SubsRecover(d, m, p, ds)
    ensures forall x :: x in Traversed(p, d, ds).files <==> FileBelow(m, p, x)
  {
    hide WellFormed, FileBelow, LinkBelow, DirBelow, HasDir, Linked, NothingHidden, Traversed, TraversedSubs,
      SubOutput, DirFrom,
      Loadable, Built;
    FilesHereAndBelow(d, m, p, ds);
    ChildrenListed(d, m, p);
    forall x ensures x in Traversed(p, d, ds).files <==> FileBelow(m, p, x) {
      FileBelowSplits(m, p, x);
      if j :| 0 <= j < |d.dirs| && x in SubOutput(p, d, ds, j).files {
        assert FileBelow(m, p + [d.dirs[j].name], x);
      }
      if n :| p + [n] in m && FileBelow(m, p + [n], x) {
        var j :| 0 <= j < |d.dirs| && d.dirs[j].name == n;
        assert x in SubOutput(p, d, ds, j).files;
      }
    }
  }

  lemma LinksHereAndBelow(d: Directory, m: Dirs, p: Path, ds: set<Digest>)
    requires Built(d, m, p) && forall j :: 0 <= j < |d.dirs| ==> Loadable(d.dirs[j], ds)
    ensures p in m && forall x :: x in Traversed(p, d, ds).symlinks <==>
                          (exists l <- m[p].symlinks :: x == LinkOut(p, l))
                          || exists j :: 0 <= j < |d.dirs| && x in SubOutput(p, d, ds, j).symlinks
  {
    hide Traversed, TraversedSubs, SubOutput, DirFrom, Loadable;
    SubsFind(p, d, ds, 0);
    OwnFound(p, d, m[p]);
    OutputParts(p, d, ds);
  }

  lemma LinksRecovered(d: Directory, m: Dirs, p: Path, ds: set<Digest>)
    requires WellFormed(m) && Built(d, m, p) && NothingHidden(m) && SubsRecover(d, m, p, ds)
    ensures forall x :: x in Traversed(p, d, ds).symlinks <==> LinkBelow(m, p, x)
  {
    hide WellFormed, FileBelow, LinkBelow, DirBelow, HasDir, Linked, NothingHidden, Traversed, TraversedSubs,
      SubOutput, DirFrom,
      Loadable, Built;
    LinksHereAndBelow(d, m, p, ds);
    ChildrenListed(d, m, p);
    forall x ensures x in Traversed(p, d, ds).symlinks <==> LinkBelow(m, p, x) {
      LinkBelowSplits(m, p, x);
      if j :| 0 <= j < |d.dirs| && x in SubOutput(p, d, ds, j).symlinks {
        assert LinkBelow(m, p + [d.dirs[j].name], x);
      }
      if n :| p + [n] in m && LinkBelow(m, p + [n], x) {
        var j :| 0 <= j < |d.dirs| && d.dirs[j].name == n;
        assert x in SubOutput(p, d, ds, j).symlinks;
      }
    }
  }

  lemma DirsRecovered(d: Directory, m: Dirs, p: Path, ds: set<Digest>)
    requires WellFormed(m) && Built(d, m, p) && NothingHidden(m) && SubsRecover(d, m, p, ds)
    ensures forall x :: x in Traversed(p, d, ds).dirs <==> DirBelow(m, p, x)
  {
    hide WellFormed, FileBelow, LinkBelow, DirBelow, HasDir, Linked, NothingHidden, Traversed, TraversedSubs, SubOutput;
    SubsFind(p, d, ds, 0);
    ChildrenListed(d, m, p);
    OutputParts(p, d, ds);
    forall x ensures x in Traversed(p, d, ds).dirs <==> DirBelow(m, p, x) {
      DirBelowSplits(m, p, x);
      if j :| 0 <= j < |d.dirs| && DirFrom(p, d, ds, j, x) {
        assert p + [d.dirs[j].name] in m;
        assert x == p + [d.dirs[j].name] || DirBelow(m, p + [d.dirs[j].name], x);
      }
      if n :| p + [n] in m && (x == p + [n] || DirBelow(m, p + [n], x)) {
        var j :| 0 <= j < |d.dirs| && d.dirs[j].name == n;
        assert DirFrom(p, d, ds, j, x);
      }
    }
  }

  /** Traversing a built tree gives back what was set. */
  lemma {:induction false} TraverseRecovers(d: Directory, m: Dirs, p: Path, store: set<Digest>)
    requires WellFormed(m) && Built(d, m, p) && Complete(d, store) && NothingHidden(m)
    ensures Recovers(Traversed(p, d, store), m, p)
    decreases d
  {
    hide WellFormed, FileBelow, LinkBelow, DirBelow, HasDir, Linked, NothingHidden, Traversed, TraversedSubs;
    forall j | 0 <= j < |d.dirs|
      ensures Loadable(d.dirs[j], store) && Recovers(SubOutput(p, d, store, j), m, p + [d.dirs[j].name])
    {
      SubStored(d, store, j);
      TraverseRecovers(d.dirs[j].digest.value.dir, m, p + [d.dirs[j].name], store);
    }
    FilesRecovered(d, m, p, store);
    LinksRecovered(d, m, p, store);
    DirsRecovered(d, m, p, store);
  }

  lemma SubStored(d: Directory, store: set<Digest>, j: nat)
    requires Complete(d, store) && j < |d.dirs|
    ensures Loadable(d.dirs[j], store) && Complete(d.dirs[j].digest.value.dir, store)
  {
  }

  lemma OutputParts(p: Path, d: Directory, store: set<Digest>)
    ensures var out, subs := Traversed(p, d, store), TraversedSubs(p, d, store, 0);
            && out.files == OwnFiles(p, d.files) + subs.files
            && out.symlinks == OwnLinks(p, d.symlinks) + subs.symlinks && out.dirs == subs.dirs
  {
    hide TraversedSubs;
  }

  lemma ChildrenListed(d: Directory, m: Dirs, p: Path)
    requires WellFormed(m) && Built(d, m, p) && NothingHidden(m)
    ensures forall n :: p + [n] in m <==> exists j :: 0 <= j < |d.dirs| && d.dirs[j].name == n
  {
    forall n ensures p + [n] in m <==> exists j :: 0 <= j < |d.dirs| && d.dirs[j].name == n {
      assert Listed(m, p, n);
      assert HasDir(d, n) <==> HasDir(m[p], n) && !Linked(m[p], n);
    }
  }

  lemma OwnFound(p: Path, d: Directory, cur: Directory)
    requires SameElements(d.files, cur.files) && SameElements(d.symlinks, cur.symlinks)
    ensures forall x :: x in OwnFiles(p, d.files) <==> exists f <- cur.files :: x == FileOut(p, f)
    ensures forall x :: x in OwnLinks(p, d.symlinks) <==> exists l <- cur.symlinks :: x == LinkOut(p, l)
  {
    forall x ensures x in OwnFiles(p, d.files) <==> exists f <- cur.files :: x == FileOut(p, f) {
      if x in OwnFiles(p, d.files) {
        var k :| 0 <= k < |d.files| && OwnFiles(p, d.files)[k] == x;
        assert d.files[k] in cur.files;
      }
      if exists f <- cur.files :: x == FileOut(p, f) {
        var f :| f in cur.files && x == FileOut(p, f);
        var k :| 0 <= k < |d.files| && d.files[k] == f;
        assert OwnFiles(p, d.files)[k] == x;
      }
    }
    forall x ensures x in OwnLinks(p, d.symlinks) <==> exists l <- cur.symlinks :: x == LinkOut(p, l) {
      if x in OwnLinks(p, d.symlinks) {
        var k :| 0 <= k < |d.symlinks| && OwnLinks(p, d.symlinks)[k] == x;
        assert d.symlinks[k] in cur.symlinks;
      }
      if exists l <- cur.symlinks :: x == LinkOut(p, l) {
        var l :| l in cur.symlinks && x == LinkOut(p, l);
        var k :| 0 <= k < |d.symlinks| && d.symlinks[k] == l;
        assert OwnLinks(p, d.symlinks)[k] == x;
      }
    }
  }

  ghost predicate WellNamed(es: seq<Entry>) {
    forall e <- es :: e.elems != []
  }

  /** The same entries, in any order, any number of times. */
  ghost predicate SameEntries(es: seq<Entry>, es': seq<Entry>) {
    forall e :: e in es <==> e in es'
  }

  /** Entries without conflicts always make a tree that can be built. */
  lemma ConflictFreeBuilds(es: seq<Entry>, h: nat)
    requires WellNamed(es) && ConflictFree(es) && Height(SetAll(es).m, h)
    ensures WellFormed(SetAll(es).m) && Buildable(SetAll(es).m, [], h) && NothingHidden(SetAll(es).m)
  {
    SetAllHolds(es);
    var m := SetAll(es).m;
    forall p | p in m ensures FilesAgree(m[p]) && LinksAgree(m[p]) && NoClash(m, p) {
      AgreeAt(m, es, p);
    }
    AllBuildable(m, [], h);
  }

  /** No file or symlink is named like a subdirectory. */
  ghost predicate NoClash(m: Dirs, p: Path)
    requires p in m
  {
    forall n | p + [n] in m :: !Filed(m[p], n) && !Linked(m[p], n)
  }

  lemma AgreeAt(m: Dirs, es: seq<Entry>, p: Path)
    requires WellNamed(es) && ConflictFree(es) && Holds(m, es) && p in m
    ensures FilesAgree(m[p]) && LinksAgree(m[p]) && NoClash(m, p)
  {
    hide AsksDir, AsksFile, AsksLink;
    forall f, g | f in m[p].files && g in m[p].files && f.name == g.name ensures f == g {
      assert HasFile(m, p, f) && HasFile(m, p, g);
    }
    forall l | l in m[p].symlinks ensures !Filed(m[p], l.name) {
      assert HasLink(m, p, l);
      assert forall f :: f in m[p].files ==> HasFile(m, p, f);
    }
    forall l, k | l in m[p].symlinks && k in m[p].symlinks && l.name == k.name ensures l == k {
      assert HasLink(m, p, l) && HasLink(m, p, k);
    }
    forall n | p + [n] in m ensures !Filed(m[p], n) && !Linked(m[p], n) {
      assert forall f :: f in m[p].files ==> HasFile(m, p, f);
      assert forall l :: l in m[p].symlinks ==> HasLink(m, p, l);
    }
  }

  lemma {:induction false} AllBuildable(m: Dirs, p: Path, h: nat)
    requires WellFormed(m) && Height(m, h) && p in m
    requires forall q | q in m :: FilesAgree(m[q]) && LinksAgree(m[q]) && NoClash(m, q)
    ensures Buildable(m, p, h)
    decreases h - |p|
  {
    hide FilesAgree, LinksAgree, WellFormed, HasDir;
    forall name | HasDir(m[p], name) ensures ChildBuildable(m, p, name, h) {
      ChildThere(m, p, name, h);
      AllBuildable(m, p + [name], h);
    }
  }

  /** The order of the entries and their repetition do not show in the digest. */
  lemma DigestIgnoresOrder(es: seq<Entry>, es': seq<Entry>, d: Directory, d': Directory)
    requires WellNamed(es) && WellNamed(es') && SameEntries(es, es') && ConflictFree(es)
    requires Built(d, SetAll(es).m, []) && Built(d', SetAll(es').m, [])
    ensures DirDigest(d) == DirDigest(d')
  {
    hide DirsOf, FilesOf, LinksOf;
    SameAsks(es, es');
    SetAllHolds(es);
    SetAllHolds(es');
    var m, m' := SetAll(es).m, SetAll(es').m;
    assert m.Keys == m'.Keys;
    BuiltUnique(d, d', m, m', []);
  }

  lemma SameAsks(es: seq<Entry>, es': seq<Entry>)
    requires WellNamed(es) && WellNamed(es') && SameEntries(es, es')
    ensures forall p :: AsksDir(es, p) <==> AsksDir(es', p)
    ensures forall p, f :: AsksFile(es, p, f) <==> AsksFile(es', p, f)
    ensures forall p, l :: AsksLink(es, p, l) <==> AsksLink(es', p, l)
    ensures ConflictFree(es) <==> ConflictFree(es')
  {
    hide DirsOf, FilesOf, LinksOf;
  }

  /** Every file digest below is stored. */
  ghost predicate FilesStored(d: Directory, store: set<Digest>)
    decreases d
  {
    && (forall f <- d.files :: f.digest in store)
    && forall k :: 0 <= k < |d.dirs| ==>
         var g := d.dirs[k].digest;
         g.Some? && g.value.DirDigest? && FilesStored(g.value.dir, store)
  }

  lemma {:induction false} FilesReached(d: Directory, m: Dirs, p: Path, store: set<Digest>)
    requires Built(d, m, p) && forall q, f | HasFile(m, q, f) :: f.digest in store
    ensures FilesStored(d, store)
    decreases d
  {
    forall f | f in d.files ensures f.digest in store {
      assert HasFile(m, p, f);
    }
    forall k | 0 <= k < |d.dirs|
      ensures var g := d.dirs[k].digest; g.Some? && g.value.DirDigest? && FilesStored(g.value.dir, store)
    {
      FilesReached(d.dirs[k].digest.value.dir, m, p + [d.dirs[k].name], store);
    }
  }

  /** Sorted by name, no name twice, at every level. */
  ghost predicate Canonical(d: Directory)
    decreases d
  {
    && Sorted(d.files, FileName) && Sorted(d.symlinks, LinkName) && Sorted(d.dirs, DirName)
    && (forall n :: !(Filed(d, n) && Linked(d, n)) && !(Filed(d, n) && HasDir(d, n)) && !(Linked(d, n) && HasDir(d, n)))
    && forall k :: 0 <= k < |d.dirs| ==>
         var g := d.dirs[k].digest;
         g.Some? && g.value.DirDigest? && Canonical(g.value.dir)
  }

  /** Whatever is built, with conflicts or without, is canonical. */
  lemma {:induction false} BuiltIsCanonical(d: Directory, m: Dirs, p: Path, h: nat)
    requires Built(d, m, p) && Height(m, h) && Buildable(m, p, h)
    ensures Canonical(d)
    decreases d
  {
    hide Sorted;
    var cur := m[p];
    NamesKept(d, cur);
    forall n ensures !(Filed(d, n) && Linked(d, n)) && !(Filed(d, n) && HasDir(d, n))
               && !(Linked(d, n) && HasDir(d, n)) {
      if HasDir(d, n) {
        assert ChildBuildable(m, p, n, h);
      }
    }
    forall k | 0 <= k < |d.dirs|
      ensures var g := d.dirs[k].digest; g.Some? && g.value.DirDigest? && Canonical(g.value.dir)
    {
      assert HasDir(d, d.dirs[k].name);
      assert ChildBuildable(m, p, d.dirs[k].name, h);
      BuiltIsCanonical(d.dirs[k].digest.value.dir, m, p + [d.dirs[k].name], h);
    }
  }

  lemma NamesKept(d: Directory, cur: Directory)
    requires SameElements(d.files, cur.files) && SameElements(d.symlinks, cur.symlinks)
    ensures forall n :: Filed(d, n) <==> Filed(cur, n)
    ensures forall n :: Linked(d, n) <==> Linked(cur, n)
  {
  }

  /** From entries to a store and back: after a build, the store can give back
      every directory and file below the root, and traversing it recovers
      exactly the files, symlinks and directories that were asked for, at their
      normalised places. */
  lemma BuildThenTraverse(es: seq<Entry>, d: Directory, store: set<Digest>)
    requires WellNamed(es) && ConflictFree(es)
    requires Built(d, SetAll(es).m, []) && Complete(d, store) && SetAll(es).store <= store
    ensures FilesStored(d, store)
    ensures var out := Traversed([], d, store);
            && (forall x :: x in out.files <==> exists p, f :: AsksFile(es, p, f) && x == FileOut(p, f))
            && (forall x :: x in out.symlinks <==> exists p, l :: AsksLink(es, p, l) && x == LinkOut(p, l))
            && (forall x :: x in out.dirs <==> x != [] && AsksDir(es, x))
  {
    hide AsksFile, AsksLink, AsksDir, Built, Complete;
    SetAllHolds(es);
    var m := SetAll(es).m;
    Hidden(es);
    TraverseRecovers(d, m, [], store);
    FilesReached(d, m, [], store);
    var out := Traversed([], d, store);
    forall x ensures x in out.files <==> exists p, f :: AsksFile(es, p, f) && x == FileOut(p, f) {
      assert x in out.files <==> FileBelow(m, [], x);
      if FileBelow(m, [], x) {
        var q, f :| [] <= q && HasFile(m, q, f) && x == FileOut(q, f);
        assert AsksFile(es, q, f);
      }
      if exists p, f :: AsksFile(es, p, f) && x == FileOut(p, f) {
        var p, f :| AsksFile(es, p, f) && x == FileOut(p, f);
        assert [] <= p && HasFile(m, p, f);
      }
    }
    forall x ensures x in out.symlinks <==> exists p, l :: AsksLink(es, p, l) && x == LinkOut(p, l) {
      assert x in out.symlinks <==> LinkBelow(m, [], x);
      if LinkBelow(m, [], x) {
        var q, l :| [] <= q && HasLink(m, q, l) && x == LinkOut(q, l);
        assert AsksLink(es, q, l);
      }
      if exists p, l :: AsksLink(es, p, l) && x == LinkOut(p, l) {
        var p, l :| AsksLink(es, p, l) && x == LinkOut(p, l);
        assert [] <= p && HasLink(m, p, l);
      }
    }
    forall x ensures x in out.dirs <==> x != [] && AsksDir(es, x) {
      assert x in out.dirs <==> DirBelow(m, [], x);
      assert [] <= x;
    }
  }

  lemma Hidden(es: seq<Entry>)
    requires WellNamed(es) && ConflictFree(es)
    ensures NothingHidden(SetAll(es).m)
  {
    var h := Tallest(SetAll(es).m);
    ConflictFreeBuilds(es, h);
  }

  lemma {:induction false} Tallest(m: Dirs) returns (h: nat)
    ensures Height(m, h)
    decreases |m.Keys|
  {
    if m.Keys == {} {
      h := 0;
    } else {
      var p :| p in m;
      var rest := m - {p};
      assert rest.Keys == m.Keys - {p};
      var h' := Tallest(rest);
      h := if |p| > h' then |p| else h';
      assert forall q :: q in m ==> q == p || q in rest;
    }
  }
}
