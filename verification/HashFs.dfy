/** The in-memory directory tree: looking up and storing entries by path through
    symlinks.

    Directories and entries are numbered cells, so that a cell can be shared, and
    trees may have cycles. An absolute path is the list of its names; "/" is the
    list of one empty name, which is how the root itself is looked up. */
module HashFs {
  import opened Wrappers

  type Path = seq<string>
  type DirRef = nat
  type EntRef = nat

  const ROOT: DirRef := 0
  const MAX_SYMLINKS := 40
  const MODE_DIR := 0x8000_0000 + 420
  const MODE_SYMLINK := 0x800_0000 + 420

  /** A symlink's target, split at the slashes. */
  datatype Link = Link(abs: bool, segs: seq<string>)

  datatype Digest = Digest(hash: string, size: int) {
    predicate IsZero() { hash == "" }
  }

  /** A symlink has a target, a directory a directory; an entry that records a
      missing file has an error. */
  datatype Entry = Entry(
    err: bool, target: Option<Link>, dir: Option<DirRef>, cmdhash: string, action: Option<string>,
    d: Digest, size: int, mode: int, mtime: int, updated: int, changed: bool, mtimeUpdated: bool)

  /** What the disk says about a path. */
  datatype Disk = Absent | DiskDir(mtime: int) | DiskLink(target: Option<Link>, mtime: int) | DiskOther

  type Oracle = Path -> Disk

  datatype State = State(dirs: Dirs, ents: map<EntRef, Entry>, nextDir: DirRef, nextEnt: EntRef)

  ghost predicate WellFormed(s: State) {
    && ROOT in s.dirs
    && (forall d | d in s.dirs :: d < s.nextDir && forall n | n in s.dirs[d] :: s.dirs[d][n] in s.ents)
    && (forall r | r in s.ents :: r < s.nextEnt && (s.ents[r].dir.Some? ==> s.ents[r].dir.value in s.dirs))
  }

  // -------------------------------------------------------------------- paths

  /** Lexical cleaning below the root. */
  function Clean(done: Path, segs: seq<string>): (r: Path)
    decreases |segs|
  {
    if segs == [] then done
    else
      var next :=
        if segs[0] == "" || segs[0] == "." then done
        else if segs[0] == ".." then if done == [] then [] else done[..|done| - 1]
        else done + [segs[0]];
      Clean(next, segs[1..])
  }

  /** `filepath.Join` of an absolute path's parts. */
  function Join(segs: seq<string>): (p: Path)
    ensures p != []
  {
    var c := Clean([], segs);
    if c == [] then [""] else c
  }

  /** Where a symlink found at the `i`-th name leads the whole path. */
  function Redirected(p: Path, i: nat, link: Link): Path
    requires i < |p|
  {
    Join((if link.abs then [] else p[..i]) + link.segs + p[i + 1..])
  }

  // ------------------------------------------------------------------- lookup

  /** One name on the way: a directory, a symlink to follow, or neither. */
  datatype Step = Enter(dir: DirRef) | Follow(link: Link) | Fail

  function StepOf(e: Entry): Step {
    if e.err then Fail
    else if e.target.Some? then Follow(e.target.value)
    else if e.dir.Some? then Enter(e.dir.value)
    else Fail
  }

  /** `lookupNextDir`. */
  function LookupStep(s: State, d: DirRef, elem: string): (r: Step)
    requires WellFormed(s) && d in s.dirs
    ensures r.Enter? ==> r.dir in s.dirs
  {
    if elem in s.dirs[d] then StepOf(s.ents[s.dirs[d][elem]]) else Fail
  }

  /** How one pass over a path ends. */
  datatype Walk = Landed(dir: DirRef, name: string) | Restart(path: Path) | Stuck

  function LookupWalk(s: State, d: DirRef, p: Path, i: nat): (w: Walk)
    requires WellFormed(s) && d in s.dirs && i < |p|
    ensures w.Landed? ==> w.dir in s.dirs
    ensures w.Restart? ==> w.path != []
    decreases |p| - i
  {
    if i == |p| - 1 then Landed(d, p[i])
    else
      match LookupStep(s, d, p[i])
      case Enter(dir) => LookupWalk(s, dir, p, i + 1)
      case Follow(link) => Restart(Redirected(p, i, link))
      case Fail => Stuck
  }

  /** The slots a pass goes through: a directory and a name in it. */
  function Slots(s: State, d: DirRef, p: Path, i: nat): set<(DirRef, string)>
    requires WellFormed(s) && d in s.dirs && i < |p|
    decreases |p| - i
  {
    if i == |p| - 1 then {}
    else
      {(d, p[i])} +
      match LookupStep(s, d, p[i]) {
        case Enter(dir) => Slots(s, dir, p, i + 1)
        case _ => {}
      }
  }

  /** Passing over the path until it lands, `n` times at most. */
  function Resolve(s: State, p: Path, n: nat): Option<(DirRef, string)>
    requires WellFormed(s) && p != []
    decreases n
  {
    if n == 0 then None
    else
      match LookupWalk(s, ROOT, p, 0)
      case Landed(dir, name) => Some((dir, name))
      case Restart(path) => Resolve(s, path, n - 1)
      case Stuck => None
  }

  /** The slots of all passes. */
  function AllSlots(s: State, p: Path, n: nat): set<(DirRef, string)>
    requires WellFormed(s) && p != []
    decreases n
  {
    if n == 0 then {}
    else
      Slots(s, ROOT, p, 0) +
      match LookupWalk(s, ROOT, p, 0) {
        case Restart(path) => AllSlots(s, path, n - 1)
        case _ => {}
      }
  }

  /** What `lookup` finds. */
  function Found(s: State, p: Path): Option<EntRef>
    requires WellFormed(s) && p != []
  {
    match Resolve(s, p, MAX_SYMLINKS)
    case None => None
    case Some(slot) =>
      if slot.0 in s.dirs && slot.1 in s.dirs[slot.0] then Some(s.dirs[slot.0][slot.1]) else None
  }

  // -------------------------------------------------------------------- store

  type Dirs = map<DirRef, map<string, EntRef>>

  function Put(dirs: Dirs, d: DirRef, elem: string, r: EntRef): Dirs
    requires d in dirs
  {
    var m: map<string, EntRef> := dirs[d][elem := r];
    dirs[d := m]
  }

  /** A new entry in a slot. */
  function AddEntry(s: State, d: DirRef, elem: string, e: Entry): State
    requires d in s.dirs
  {
    State(Put(s.dirs, d, elem, s.nextEnt), s.ents[s.nextEnt := e], s.nextDir, s.nextEnt + 1)
  }

  function NewLink(link: Link, mtime: int): Entry {
    Entry(false, Some(link), None, "", None, Digest("", 0), 0, MODE_SYMLINK, mtime, 0, false, false)
  }

  function NewDir(dir: DirRef, mtime: int): Entry {
    Entry(false, None, Some(dir), "", None, Digest("", 0), 0, MODE_DIR, mtime, 0, false, false)
  }

  function AddDir(s: State, d: DirRef, elem: string, mtime: int): State
    requires d in s.dirs
  {
    var s' := AddEntry(s, d, elem, NewDir(s.nextDir, mtime));
    var empty: map<string, EntRef> := map[];
    State(s'.dirs[s.nextDir := empty], s'.ents, s.nextDir + 1, s'.nextEnt)
  }

  function Drop(s: State, d: DirRef, elem: string): State
    requires d in s.dirs
  {
    var m: map<string, EntRef> := s.dirs[d] - {elem};
    s.(dirs := s.dirs[d := m])
  }

  /** `nextDir`: an entry with an error is dropped; a missing one is created
      after what is on the disk. `full` is the path up to and with `elem`. */
  function StoreStep(s: State, disk: Oracle, now: int, d: DirRef, full: Path, elem: string): (State, Step)
    requires WellFormed(s) && d in s.dirs
  {
    if elem in s.dirs[d] && !s.ents[s.dirs[d][elem]].err then (s, LookupStep(s, d, elem))
    else
      var s' := if elem in s.dirs[d] then Drop(s, d, elem) else s;
      match disk(full)
      case Absent => (AddDir(s', d, elem, now), Enter(s'.nextDir))
      case DiskDir(mtime) => (AddDir(s', d, elem, mtime), Enter(s'.nextDir))
      case DiskLink(None, _) => (s', Fail)
      case DiskLink(Some(link), mtime) => (AddEntry(s', d, elem, NewLink(link, mtime)), Follow(link))
      case DiskOther => (s', Fail)
  }

  /** The slots that lead on, and what is in them, stay. */
  ghost predicate Extends(s: State, s': State)
    requires WellFormed(s) && WellFormed(s')
  {
    && s.dirs.Keys <= s'.dirs.Keys && s.ents.Keys <= s'.ents.Keys
    && (forall r | r in s.ents :: s'.ents[r] == s.ents[r])
    && (forall d, n | d in s.dirs :: KeepsStep(s, s', d, n))
  }

  ghost predicate KeepsStep(s: State, s': State, d: DirRef, n: string)
    requires WellFormed(s) && WellFormed(s') && d in s.dirs && d in s'.dirs
  {
    LookupStep(s, d, n).Fail? || LookupStep(s', d, n) == LookupStep(s, d, n)
  }

  lemma AddEntryKeeps(s: State, d: DirRef, elem: string, e: Entry)
    requires WellFormed(s) && d in s.dirs && LookupStep(s, d, elem).Fail? && e.dir == None
    ensures var s' := AddEntry(s, d, elem, e);
            WellFormed(s') && Extends(s, s') && LookupStep(s', d, elem) == StepOf(e)
  {
    var s' := AddEntry(s, d, elem, e);
    forall c, n | c in s.dirs ensures KeepsStep(s, s', c, n) {
      if c != d || n != elem {
        assert n in s'.dirs[c] <==> n in s.dirs[c];
      }
    }
  }

  lemma AddDirKeeps(s: State, d: DirRef, elem: string, mtime: int)
    requires WellFormed(s) && d in s.dirs && LookupStep(s, d, elem).Fail?
    ensures var s' := AddDir(s, d, elem, mtime);
            WellFormed(s') && Extends(s, s') && LookupStep(s', d, elem) == Enter(s.nextDir)
  {
    var s' := AddDir(s, d, elem, mtime);
    assert s.nextDir !in s.dirs && s.nextEnt !in s.ents;
    forall c, n | c in s.dirs ensures KeepsStep(s, s', c, n) {
      if c != d || n != elem {
        assert n in s'.dirs[c] <==> n in s.dirs[c];
      }
    }
  }

  lemma DropKeeps(s: State, d: DirRef, elem: string)
    requires WellFormed(s) && d in s.dirs && LookupStep(s, d, elem).Fail?
    ensures WellFormed(Drop(s, d, elem)) && Extends(s, Drop(s, d, elem)) && LookupStep(Drop(s, d, elem), d, elem).Fail?
  {
    var s' := Drop(s, d, elem);
    forall c, n | c in s.dirs ensures KeepsStep(s, s', c, n) {
    }
  }

  lemma ExtendsChains(a: State, b: State, c: State)
    requires WellFormed(a) && WellFormed(b) && WellFormed(c) && Extends(a, b) && Extends(b, c)
    ensures Extends(a, c)
  {
    forall d, n | d in a.dirs ensures KeepsStep(a, c, d, n) {
      assert KeepsStep(a, b, d, n) && KeepsStep(b, c, d, n);
    }
  }

  lemma ExtendsItself(s: State)
    requires WellFormed(s)
    ensures Extends(s, s)
  {
  }

  /** What a step of `store` goes through, `lookup` goes through afterwards. */
  lemma {:induction false} StoreStepKeeps(s: State, disk: Oracle, now: int, d: DirRef, full: Path, elem: string)
    requires WellFormed(s) && d in s.dirs
    ensures var (s', step) := StoreStep(s, disk, now, d, full, elem);
            && WellFormed(s') && Extends(s, s')
            && (step.Enter? ==> step.dir in s'.dirs)
            && d in s'.dirs && LookupStep(s', d, elem) == step
  {
    hide Extends;
    ExtendsItself(s);
    if !(elem in s.dirs[d] && !s.ents[s.dirs[d][elem]].err) {
      var s0 := if elem in s.dirs[d] then Drop(s, d, elem) else s;
      if elem in s.dirs[d] {
        DropKeeps(s, d, elem);
      }
      match disk(full)
      case Absent =>
        AddDirKeeps(s0, d, elem, now);
        ExtendsChains(s, s0, AddDir(s0, d, elem, now));
      case DiskDir(mtime) =>
        AddDirKeeps(s0, d, elem, mtime);
        ExtendsChains(s, s0, AddDir(s0, d, elem, mtime));
      case DiskLink(Some(link), mtime) =>
        AddEntryKeeps(s0, d, elem, NewLink(link, mtime));
        ExtendsChains(s, s0, AddEntry(s0, d, elem, NewLink(link, mtime)));
      case _ =>
    }
  }

  /** One pass of `store`, up to the leaf. */
  ghost function StoreWalk(s: State, disk: Oracle, now: int, d: DirRef, p: Path, i: nat): (r: (State, Walk))
    requires WellFormed(s) && d in s.dirs && i < |p|
    ensures WellFormed(r.0)
    ensures r.1.Landed? ==> r.1.dir in r.0.dirs
    ensures r.1.Restart? ==> r.1.path != []
    decreases |p| - i
  {
    if i == |p| - 1 then (s, Landed(d, p[i]))
    else
      StoreStepKeeps(s, disk, now, d, p[..i + 1], p[i]);
      var (s', step) := StoreStep(s, disk, now, d, p[..i + 1], p[i]);
      match step
      case Enter(dir) => StoreWalk(s', disk, now, dir, p, i + 1)
      case Follow(link) => (s', Restart(Redirected(p, i, link)))
      case Fail => (s', Stuck)
  }

  /** A pass over a tree that grew goes the same way. */
  lemma {:induction false} WalkStays(s: State, s': State, d: DirRef, p: Path, i: nat)
    requires WellFormed(s) && WellFormed(s') && Extends(s, s') && d in s.dirs && i < |p|
    ensures !LookupWalk(s, d, p, i).Stuck? ==>
              LookupWalk(s', d, p, i) == LookupWalk(s, d, p, i) && Slots(s', d, p, i) == Slots(s, d, p, i)
    decreases |p| - i
  {
    hide WellFormed;
    if i < |p| - 1 {
      assert KeepsStep(s, s', d, p[i]);
      var step := LookupStep(s, d, p[i]);
      if step.Enter? {
        WalkStays(s, s', step.dir, p, i + 1);
      }
    }
  }

  /** After a pass of `store`, a pass of `lookup` ends the same way, stuck ones
      included. */
  lemma {:induction false} LookupFollowsStore(s: State, disk: Oracle, now: int, d: DirRef, p: Path, i: nat)
    requires WellFormed(s) && d in s.dirs && i < |p|
    ensures var (s', w) := StoreWalk(s, disk, now, d, p, i);
            Extends(s, s') && LookupWalk(s', d, p, i) == w
    decreases |p| - i
  {
    hide WellFormed, Extends, StoreStep, LookupStep;
    ExtendsItself(s);
    if i < |p| - 1 {
      StoreStepKeeps(s, disk, now, d, p[..i + 1], p[i]);
      var (s1, step) := StoreStep(s, disk, now, d, p[..i + 1], p[i]);
      if step.Enter? {
        LookupFollowsStore(s1, disk, now, step.dir, p, i + 1);
        var s2 := StoreWalk(s1, disk, now, step.dir, p, i + 1).0;
        ExtendsChains(s, s1, s2);
        StepStays(s1, s2, d, p[i]);
      }
    }
  }

  lemma StepStays(s: State, s': State, d: DirRef, n: string)
    requires WellFormed(s) && WellFormed(s') && Extends(s, s') && d in s.dirs && !LookupStep(s, d, n).Fail?
    ensures d in s'.dirs && LookupStep(s', d, n) == LookupStep(s, d, n)
  {
    assert KeepsStep(s, s', d, n);
  }

  datatype StoreEnd = At(dir: DirRef, name: string) | Loop | Failed

  /** The passes of `store`, up to the leaf, `n` at most. */
  ghost function StoreRun(s: State, disk: Oracle, now: int, p: Path, n: nat): (r: (State, StoreEnd))
    requires WellFormed(s) && p != []
    ensures WellFormed(r.0)
    ensures r.1.At? ==> r.1.dir in r.0.dirs
    decreases n
  {
    if n == 0 then (s, Loop)
    else
      var (s', w) := StoreWalk(s, disk, now, ROOT, p, 0);
      match w
      case Landed(dir, name) => (s', At(dir, name))
      case Restart(path) => StoreRun(s', disk, now, path, n - 1)
      case Stuck => (s', Failed)
  }

  /** `lookup` in the tree that `store` leaves reaches the leaf `store` reached,
      in as many passes; and none when `store` got stuck or ran out of passes, on
      any tree, with cycles of any shape. */
  lemma {:induction false} ResolveFollowsStore(s: State, disk: Oracle, now: int, p: Path, n: nat)
    requires WellFormed(s) && p != []
    ensures var (s', end) := StoreRun(s, disk, now, p, n);
            Extends(s, s') && Resolve(s', p, n) == (if end.At? then Some((end.dir, end.name)) else None)
    decreases n
  {
    hide Extends, LookupWalk, StoreWalk;
    ExtendsItself(s);
    if n > 0 {
      LookupFollowsStore(s, disk, now, ROOT, p, 0);
      var (s1, w) := StoreWalk(s, disk, now, ROOT, p, 0);
      if w.Restart? {
        ResolveFollowsStore(s1, disk, now, w.path, n - 1);
        var s2 := StoreRun(s1, disk, now, w.path, n - 1).0;
        ExtendsChains(s, s1, s2);
        WalkStays(s1, s2, ROOT, p, 0);
      }
    }
  }

  // --------------------------------------------------------------- the leaf

  /** What becomes of a leaf that is taken by another entry. */
  datatype Leaf = Replace | Refresh | Keep

  /** The new entry takes over the command of the old one when it has none. */
  function Inherit(was: Entry, e: Entry): Entry {
    if was.cmdhash != "" && e.cmdhash == "" && e.action == None then e.(cmdhash := was.cmdhash, action := was.action)
    else e
  }

  function Decide(was: Entry, e: Entry): Leaf {
    if e.target.Some? && was.target != e.target then Replace
    else if !e.d.IsZero() && was.d != e.d && was.d.size != 0 && e.d.size != 0 then Replace
    else if was.cmdhash != e.cmdhash || was.action != e.action then Replace
    else if was.target == e.target && was.size == e.size && was.mode == e.mode && (e.d.IsZero() || was.d == e.d)
    then Refresh
    else if was.dir.Some? && e.dir.Some? && ((was.cmdhash != "" && e.cmdhash == "") || was.cmdhash == e.cmdhash)
    then Keep
    else Replace
  }

  function Refreshed(was: Entry, e: Entry): Entry {
    was.(mtimeUpdated := was.mtime != e.mtime, mtime := e.mtime,
         updated := if was.updated < e.updated then e.updated else was.updated, changed := e.changed)
  }

  /** The leaf of `store`: the new state, and the entry that is there now. */
  function StoreLeaf(s: State, d: DirRef, name: string, r: EntRef): (State, EntRef)
    requires WellFormed(s) && d in s.dirs && r in s.ents
  {
    if name !in s.dirs[d] then (s.(dirs := Put(s.dirs, d, name, r)), r)
    else
      var q := s.dirs[d][name];
      if q == r then (s, r)
      else
        var was := s.ents[q];
        var e := Inherit(was, s.ents[r]);
        var s1 := s.(ents := s.ents[r := e]);
        match Decide(was, e)
        case Replace => (s1.(dirs := Put(s1.dirs, d, name, r)), r)
        case Refresh => (s1.(ents := s1.ents[q := Refreshed(was, e)]), q)
        case Keep => (s1, q)
  }

  /** Other slots than this one are as before. */
  ghost predicate OthersSame(s: State, s': State, d: DirRef, name: string)
    requires WellFormed(s) && WellFormed(s')
  {
    s'.dirs.Keys == s.dirs.Keys && forall c, n | c in s.dirs && (c, n) != (d, name) :: SameStep(s, s', c, n)
  }

  lemma EntryTouched(s: State, q: EntRef, e: Entry, d: DirRef, name: string)
    requires WellFormed(s) && q in s.ents && StepOf(e) == StepOf(s.ents[q]) && e.dir == s.ents[q].dir
    ensures var s' := s.(ents := s.ents[q := e]); WellFormed(s') && OthersSame(s, s', d, name)
  {
    var s' := s.(ents := s.ents[q := e]);
    assert forall r | r in s.ents :: StepOf(s'.ents[r]) == StepOf(s.ents[r]);
  }

  lemma SlotPut(s: State, d: DirRef, name: string, r: EntRef)
    requires WellFormed(s) && d in s.dirs && r in s.ents
    ensures var s' := s.(dirs := Put(s.dirs, d, name, r)); WellFormed(s') && OthersSame(s, s', d, name)
  {
    var s' := s.(dirs := Put(s.dirs, d, name, r));
    forall c, n | c in s.dirs && (c, n) != (d, name) ensures SameStep(s, s', c, n) {
      assert n in s'.dirs[c] <==> n in s.dirs[c];
    }
  }

  lemma OthersSameChains(a: State, b: State, c: State, d: DirRef, name: string)
    requires WellFormed(a) && WellFormed(b) && WellFormed(c) && OthersSame(a, b, d, name) && OthersSame(b, c, d, name)
    ensures OthersSame(a, c, d, name)
  {
    forall e, n | e in a.dirs && (e, n) != (d, name) ensures SameStep(a, c, e, n) {
      assert SameStep(a, b, e, n) && SameStep(b, c, e, n);
    }
  }

  lemma NothingTouched(s: State, d: DirRef, name: string)
    requires WellFormed(s)
    ensures OthersSame(s, s, d, name)
  {
  }

  /** Storing at a leaf changes what is in that slot, and nothing else that
      lookups depend on. */
  lemma LeafStays(s: State, d: DirRef, name: string, r: EntRef)
    requires WellFormed(s) && d in s.dirs && r in s.ents
    ensures var (s', x) := StoreLeaf(s, d, name, r);
            && WellFormed(s') && OthersSame(s, s', d, name)
            && name in s'.dirs[d] && s'.dirs[d][name] == x
  {
    hide OthersSame, Decide;
    NothingTouched(s, d, name);
    if name !in s.dirs[d] {
      SlotPut(s, d, name, r);
    } else if s.dirs[d][name] != r {
      var q := s.dirs[d][name];
      var e := Inherit(s.ents[q], s.ents[r]);
      EntryTouched(s, r, e, d, name);
      var s1 := s.(ents := s.ents[r := e]);
      match Decide(s.ents[q], e)
      case Replace =>
        SlotPut(s1, d, name, r);
        OthersSameChains(s, s1, s1.(dirs := Put(s1.dirs, d, name, r)), d, name);
      case Refresh =>
        var t := Refreshed(s.ents[q], e);
        EntryTouched(s1, q, t, d, name);
        OthersSameChains(s, s1, s1.(ents := s1.ents[q := t]), d, name);
      case Keep =>
    }
  }

  /** What is found at the leaf afterwards stands for what was stored: it is that
      entry, or an equal file or symlink with its time, or a directory like it;
      and the command that made the old entry is kept when the new one has
      none. */
  lemma StoredContent(s: State, d: DirRef, name: string, r: EntRef)
    requires WellFormed(s) && d in s.dirs && r in s.ents
    ensures var (s', x) := StoreLeaf(s, d, name, r);
            && r in s'.ents && x in s'.ents
            && var e, f := s'.ents[r], s'.ents[x];
               && s'.ents[r].(cmdhash := "", action := None) == s.ents[r].(cmdhash := "", action := None)
               && f.cmdhash == e.cmdhash && f.action == e.action
               && (x == r || x == s.dirs[d][name])
               && (|| x == r
                   || (f.target == e.target && f.size == e.size && f.mode == e.mode && (e.d.IsZero() || f.d == e.d)
                       && f.mtime == e.mtime && f.updated >= e.updated && f.changed == e.changed)
                   || (f.dir.Some? && e.dir.Some? && f == s.ents[x]))
    ensures name in s.dirs[d] && s.dirs[d][name] != r && s.ents[s.dirs[d][name]].cmdhash != ""
            && s.ents[r].cmdhash == "" && s.ents[r].action == None ==>
              var (s', x) := StoreLeaf(s, d, name, r);
              x in s'.ents && s'.ents[x].cmdhash == s.ents[s.dirs[d][name]].cmdhash
  {
    hide WellFormed;
    if name in s.dirs[d] {
      SlotHeld(s, d, name);
    }
  }

  /** The new entry brings the command of the old one, or none. */
  predicate SameCommand(was: Entry, e: Entry) {
    || (was.cmdhash == e.cmdhash && was.action == e.action)
    || (was.cmdhash != "" && e.cmdhash == "" && e.action == None)
  }

  /** Nothing the new entry says about target, digest and command is against the
      old one; a digest of an empty file, or none, is against nothing. */
  predicate Agrees(was: Entry, e: Entry) {
    && SameCommand(was, e) && (e.target == None || was.target == e.target)
    && (e.d.IsZero() || was.d == e.d || was.d.size == 0 || e.d.size == 0)
  }

  predicate SameContent(was: Entry, e: Entry) {
    was.target == e.target && was.size == e.size && was.mode == e.mode && (e.d.IsZero() || was.d == e.d)
  }

  /** Exactly when the entry at the leaf stays: the new one agrees with it, and
      has the same content or is a directory over a directory. */
  lemma LeafKeptIff(s: State, d: DirRef, name: string, r: EntRef)
    requires WellFormed(s) && d in s.dirs && r in s.ents && name in s.dirs[d] && s.dirs[d][name] != r
    ensures var q := s.dirs[d][name];
            q in s.ents
            && (StoreLeaf(s, d, name, r).1 == q
                <==> Agrees(s.ents[q], s.ents[r])
                     && (SameContent(s.ents[q], s.ents[r]) || (s.ents[q].dir.Some? && s.ents[r].dir.Some?)))
  {
    hide WellFormed;
    SlotHeld(s, d, name);
  }

  /** A directory stored over one it agrees with leaves every lookup as it was. */
  lemma DirectoryStays(s: State, d: DirRef, name: string, r: EntRef)
    requires WellFormed(s) && d in s.dirs && r in s.ents && name in s.dirs[d]
    requires var was, e := s.ents[s.dirs[d][name]], s.ents[r]; Agrees(was, e) && was.dir.Some? && e.dir.Some?
    ensures var s' := StoreLeaf(s, d, name, r).0;
            WellFormed(s') && s'.dirs == s.dirs && forall p :: p != [] ==> Found(s', p) == Found(s, p)
  {
    hide WellFormed, Found, AllSlots, LookupStep;
    LeafStays(s, d, name, r);
    SlotHeld(s, d, name);
    var s' := StoreLeaf(s, d, name, r).0;
    assert s'.dirs == s.dirs && SameStep(s, s', d, name) by {
      SameLeafStep(s, d, name, r);
    }
    forall p | p != []
      ensures Found(s', p) == Found(s, p)
    {
      ResolveAvoids(s, s', (d, name), p, MAX_SYMLINKS);
      SameSlots(s, s', p);
    }
  }

  lemma SameLeafStep(s: State, d: DirRef, name: string, r: EntRef)
    requires WellFormed(s) && d in s.dirs && r in s.ents && name in s.dirs[d] && s.dirs[d][name] in s.ents
    requires var was, e := s.ents[s.dirs[d][name]], s.ents[r]; Agrees(was, e) && was.dir.Some? && e.dir.Some?
    ensures var s' := StoreLeaf(s, d, name, r).0;
            WellFormed(s') && s'.dirs == s.dirs && LookupStep(s', d, name) == LookupStep(s, d, name)
  {
    hide WellFormed, OthersSame;
    LeafStays(s, d, name, r);
  }

  lemma SameSlots(s: State, s': State, p: Path)
    requires WellFormed(s) && WellFormed(s') && s'.dirs == s.dirs && p != []
    requires Resolve(s', p, MAX_SYMLINKS) == Resolve(s, p, MAX_SYMLINKS)
    ensures Found(s', p) == Found(s, p)
  {
  }

  lemma SlotHeld(s: State, d: DirRef, name: string)
    requires WellFormed(s) && d in s.dirs && name in s.dirs[d]
    ensures s.dirs[d][name] in s.ents
  {
  }

  ghost predicate SameStep(s: State, s': State, d: DirRef, n: string)
    requires WellFormed(s) && WellFormed(s') && d in s.dirs && d in s'.dirs
  {
    LookupStep(s', d, n) == LookupStep(s, d, n)
  }

  /** The slot is off the way, or leads on as before. */
  ghost predicate OffOrSame(s: State, s': State, slot: (DirRef, string), way: set<(DirRef, string)>)
    requires WellFormed(s) && WellFormed(s') && s'.dirs.Keys == s.dirs.Keys
  {
    slot !in way || (slot.0 in s.dirs && SameStep(s, s', slot.0, slot.1))
  }

  /** A pass does not notice a change in such a slot. */
  lemma {:induction false} WalkAvoids(s: State, s': State, slot: (DirRef, string), d: DirRef, p: Path, i: nat)
    requires WellFormed(s) && WellFormed(s') && s'.dirs.Keys == s.dirs.Keys && d in s.dirs && i < |p|
    requires forall c, n | c in s.dirs && (c, n) != slot :: SameStep(s, s', c, n)
    requires OffOrSame(s, s', slot, Slots(s, d, p, i))
    ensures LookupWalk(s', d, p, i) == LookupWalk(s, d, p, i)
    decreases |p| - i
  {
    hide WellFormed;
    if i < |p| - 1 {
      assert SameStep(s, s', d, p[i]);
      var step := LookupStep(s, d, p[i]);
      if step.Enter? {
        WalkAvoids(s, s', slot, step.dir, p, i + 1);
      }
    }
  }

  lemma {:induction false} ResolveAvoids(s: State, s': State, slot: (DirRef, string), p: Path, n: nat)
    requires WellFormed(s) && WellFormed(s') && s'.dirs.Keys == s.dirs.Keys && p != []
    requires forall c, n | c in s.dirs && (c, n) != slot :: SameStep(s, s', c, n)
    requires OffOrSame(s, s', slot, AllSlots(s, p, n))
    ensures Resolve(s', p, n) == Resolve(s, p, n)
    decreases n
  {
    hide SameStep, LookupWalk, Slots;
    if n > 0 {
      WalkAvoids(s, s', slot, ROOT, p, 0);
      var w := LookupWalk(s, ROOT, p, 0);
      if w.Restart? {
        ResolveAvoids(s, s', slot, w.path, n - 1);
      }
    }
  }

  datatype StoreError = ResolveFailed | TooManyLinks

  /** `store`. */
  ghost function Store(s: State, disk: Oracle, now: int, p: Path, r: EntRef): (State, Result<EntRef, StoreError>)
    requires WellFormed(s) && p != [] && r in s.ents
  {
    var (s', end) := StoreRun(s, disk, now, p, MAX_SYMLINKS);
    ResolveFollowsStore(s, disk, now, p, MAX_SYMLINKS);
    match end
    case Failed => (s', Failure(ResolveFailed))
    case Loop => (s', Failure(TooManyLinks))
    case At(dir, name) =>
      var (s'', x) := StoreLeaf(s', dir, name, r);
      (s'', Success(x))
  }

  /** `store` landed on a slot that its own resolution went through, and changed
      where that slot leads. */
  ghost predicate CutsItsWay(s: State, disk: Oracle, now: int, p: Path, r: EntRef)
    requires WellFormed(s) && p != [] && r in s.ents
  {
    var (s1, end) := StoreRun(s, disk, now, p, MAX_SYMLINKS);
    ResolveFollowsStore(s, disk, now, p, MAX_SYMLINKS);
    && end.At?
    && (end.dir, end.name) in AllSlots(s1, p, MAX_SYMLINKS)
    && (LeafStays(s1, end.dir, end.name, r);
        !SameStep(s1, StoreLeaf(s1, end.dir, end.name, r).0, end.dir, end.name))
  }

  /** What `store` returned is what `lookup` of the same path finds; when `store`
      failed, `lookup` finds nothing. */
  lemma LookupAfterStore(s: State, disk: Oracle, now: int, p: Path, r: EntRef)
    requires WellFormed(s) && p != [] && r in s.ents
    requires !CutsItsWay(s, disk, now, p, r)
    ensures var (s', x) := Store(s, disk, now, p, r);
            && (x.Success? ==> WellFormed(s') && Found(s', p) == Some(x.value))
            && (x.Failure? ==> WellFormed(s') && Found(s', p) == None)
  {
    hide WellFormed, StoreRun, Resolve, AllSlots, StoreLeaf;
    ResolveFollowsStore(s, disk, now, p, MAX_SYMLINKS);
    var (s1, end) := StoreRun(s, disk, now, p, MAX_SYMLINKS);
    if end.At? {
      EntryStays(s, s1, r);
      LeafStays(s1, end.dir, end.name, r);
      var s2 := StoreLeaf(s1, end.dir, end.name, r).0;
      ResolveAvoids(s1, s2, (end.dir, end.name), p, MAX_SYMLINKS);
    }
  }

  /** A pass that went through a slot that leads nowhere now is stuck there. */
  lemma {:induction false} WalkCut(s: State, s': State, slot: (DirRef, string), d: DirRef, p: Path, i: nat)
    requires WellFormed(s) && WellFormed(s') && s'.dirs.Keys == s.dirs.Keys && d in s.dirs && i < |p|
    requires forall c, n | c in s.dirs && (c, n) != slot :: SameStep(s, s', c, n)
    requires slot in Slots(s, d, p, i) && slot.0 in s.dirs && LookupStep(s', slot.0, slot.1).Fail?
    ensures LookupWalk(s', d, p, i).Stuck?
    decreases |p| - i
  {
    hide WellFormed;
    if i < |p| - 1 && (d, p[i]) != slot {
      assert SameStep(s, s', d, p[i]);
      var step := LookupStep(s, d, p[i]);
      if step.Enter? {
        WalkCut(s, s', slot, step.dir, p, i + 1);
      }
    }
  }

  lemma {:induction false} ResolveCut(s: State, s': State, slot: (DirRef, string), p: Path, n: nat)
    requires WellFormed(s) && WellFormed(s') && s'.dirs.Keys == s.dirs.Keys && p != []
    requires forall c, n | c in s.dirs && (c, n) != slot :: SameStep(s, s', c, n)
    requires slot in AllSlots(s, p, n) && slot.0 in s.dirs && LookupStep(s', slot.0, slot.1).Fail?
    ensures Resolve(s', p, n) == None
    decreases n
  {
    hide SameStep, LookupWalk, Slots, LookupStep;
    if n > 0 {
      if slot in Slots(s, ROOT, p, 0) {
        WalkCut(s, s', slot, ROOT, p, 0);
      } else {
        WalkAvoids(s, s', slot, ROOT, p, 0);
        var w := LookupWalk(s, ROOT, p, 0);
        if w.Restart? {
          ResolveCut(s, s', slot, w.path, n - 1);
        }
      }
    }
  }

  /** For a stored file, exactly: it is found again iff its slot was not on the
      way, or leads on as before. */
  lemma FileFoundIff(s: State, disk: Oracle, now: int, p: Path, r: EntRef)
    requires WellFormed(s) && p != [] && r in s.ents && StepOf(s.ents[r]).Fail?
    ensures var (s', x) := Store(s, disk, now, p, r);
            x.Success? ==> WellFormed(s') && (Found(s', p) == Some(x.value) <==> !CutsItsWay(s, disk, now, p, r))
  {
    hide WellFormed, StoreRun, Resolve, AllSlots, StoreLeaf;
    if !CutsItsWay(s, disk, now, p, r) {
      LookupAfterStore(s, disk, now, p, r);
    } else {
      ResolveFollowsStore(s, disk, now, p, MAX_SYMLINKS);
      var (s1, end) := StoreRun(s, disk, now, p, MAX_SYMLINKS);
      EntryStays(s, s1, r);
      LeafStays(s1, end.dir, end.name, r);
      FileEndsStep(s, s1, end.dir, end.name, r);
      ResolveCut(s1, StoreLeaf(s1, end.dir, end.name, r).0, (end.dir, end.name), p, MAX_SYMLINKS);
    }
  }

  /** A file that changes where a slot leads makes it lead nowhere. */
  lemma FileEndsStep(s: State, s1: State, d: DirRef, name: string, r: EntRef)
    requires WellFormed(s) && WellFormed(s1) && Extends(s, s1) && d in s1.dirs && r in s.ents && StepOf(s.ents[r]).Fail?
    ensures r in s1.ents
    ensures var s2 := StoreLeaf(s1, d, name, r).0;
            WellFormed(s2) && d in s2.dirs && (SameStep(s1, s2, d, name) || LookupStep(s2, d, name).Fail?)
  {
    LeafStays(s1, d, name, r);
    var (s2, x) := StoreLeaf(s1, d, name, r);
    assert s1.ents[r] == s.ents[r];
    assert x == r ==> StepOf(s2.ents[x]) == StepOf(s1.ents[r]);
  }

  lemma EntryStays(s: State, s': State, r: EntRef)
    requires WellFormed(s) && WellFormed(s') && Extends(s, s') && r in s.ents
    ensures r in s'.ents
  {
  }

  // ------------------------------------------------------- limits and failures

  const HERE := Entry(false, Some(Link(false, ["."])), None,
      "", None, Digest("", 0), 0, MODE_SYMLINK, 0, 0, false, false)
  const FILE := Entry(false, None, None, "", None, Digest("f", 1), 1, 420, 0, 0, false, false)

  /** A root with a symlink "a" to ".", and a file not stored yet. */
  function LinkHere(): State {
    var slots: map<string, EntRef> := map["a" := 0];
    State(map[ROOT := slots], map[0 := HERE, 1 := FILE], 1, 2)
  }

  /** Storing a file at "/a/a" replaces the symlink "/a" that the path went
      through, and is then not found there. */
  lemma StoreCutsItsWay(disk: Oracle, now: int)
    ensures WellFormed(LinkHere())
    ensures var (s', x) := Store(LinkHere(), disk, now, ["a", "a"], 1);
            x == Success(1) && WellFormed(s') && Found(s', ["a", "a"]) == None
  {
    var s, p := LinkHere(), ["a", "a"];
    CleanNames([], ["a"]);
    var segs := [".", "a"];
    assert segs[1..] == ["a"] && Clean([], segs) == Clean([], ["a"]);
    assert p[..0] + ["."] + p[1..] == segs;
    assert Redirected(p, 0, Link(false, ["."])) == ["a"];
    assert StoreStep(s, disk, now, ROOT, p[..1], "a") == (s, Follow(Link(false, ["."])));
    assert StoreWalk(s, disk, now, ROOT, p, 0) == (s, Restart(["a"]));
    assert StoreWalk(s, disk, now, ROOT, ["a"], 0) == (s, Landed(ROOT, "a"));
    assert StoreRun(s, disk, now, ["a"], MAX_SYMLINKS - 1) == (s, At(ROOT, "a"));
    assert StoreRun(s, disk, now, p, MAX_SYMLINKS) == (s, At(ROOT, "a"));
    LeafStays(s, ROOT, "a", 1);
    var (s', x) := StoreLeaf(s, ROOT, "a", 1);
    assert x == 1 && s'.ents[1] == FILE;
    assert LookupWalk(s', ROOT, p, 0) == Stuck;
    assert Resolve(s', p, MAX_SYMLINKS) == None;
  }

  /** The smallest loop, a symlink to itself: both give up after any number of
      passes, and nothing is stored. */
  lemma {:induction false} SelfLinkGivesUp(s: State, disk: Oracle, now: int, a: string, rest: Path, n: nat)
    requires WellFormed(s) && IsName(a) && rest != [] && forall k :: 0 <= k < |rest| ==> IsName(rest[k])
    requires LookupStep(s, ROOT, a) == Follow(Link(true, [a]))
    ensures Resolve(s, [a] + rest, n) == None
    ensures StoreRun(s, disk, now, [a] + rest, n) == (s, Loop)
    decreases n
  {
    if n > 0 {
      var p := [a] + rest;
      assert p[1..] == rest;
      CleanNames([], p);
      assert [] + [a] + p[1..] == p && [] + p == p;
      assert Redirected(p, 0, Link(true, [a])) == p;
      assert StoreStep(s, disk, now, ROOT, p[..1], a) == (s, Follow(Link(true, [a])));
      SelfLinkGivesUp(s, disk, now, a, rest, n - 1);
    }
  }

  predicate IsName(n: string) {
    n != "" && n != "." && n != ".."
  }

  lemma {:induction false} CleanNames(done: Path, segs: seq<string>)
    requires forall k :: 0 <= k < |segs| ==> IsName(segs[k])
    ensures Clean(done, segs) == done + segs
    decreases |segs|
  {
    if segs == [] {
      assert done + segs == done;
    } else {
      CleanNames(done + [segs[0]], segs[1..]);
      assert done + [segs[0]] + segs[1..] == done + segs;
    }
  }

  // ---------------------------------------------------------------- the methods

  /** The elements of a path, as they are collected: none by `lookup`, all with a
      leading "/" by `store`. */
  datatype PathElements = PathElements(orig: Path, n: nat, elems: seq<string>) {
    predicate Valid() {
      1 <= n <= |orig| && (elems == [] || elems == ["/"] + orig[..n])
    }
  }

  /** The path a symlink leads to, from the collected elements or, where their
      number does not match, from the original path taken apart again. */
  method Redirect(pe: PathElements, elem: string, link: Link, rest: Path) returns (p: Path)
    requires pe.Valid() && elem == pe.orig[pe.n - 1] && rest == pe.orig[pe.n..]
    ensures p == Redirected(pe.orig, pe.n - 1, link)
  {
    var elems := pe.elems;
    if |elems| != pe.n {
      elems := ["/"];
      for k := 0 to pe.n - 1
        invariant elems == ["/"] + pe.orig[..k]
      {
        elems := elems + [pe.orig[k]];
      }
      elems := elems + [elem];
    }
    if link.abs {
      assert [] + link.segs + rest == link.segs + rest;
      return Join(link.segs + rest);
    }
    var above := elems[1..|elems| - 1];
    assert above == pe.orig[..pe.n - 1];
    return Join(above + link.segs + rest);
  }

  class Tree {
    var dirs: Dirs
    var ents: map<EntRef, Entry>
    var nextDir: DirRef
    var nextEnt: EntRef
    const disk: Oracle
    const now: int

    function Now(): State
      reads this
    {
      State(dirs, ents, nextDir, nextEnt)
    }

    ghost predicate Valid()
      reads this
    {
      WellFormed(Now())
    }

    constructor (disk: Oracle, now: int)
      ensures Valid() && dirs == map[ROOT := map[]] && ents == map[]
      ensures this.disk == disk && this.now == now
    {
      this.disk, this.now := disk, now;
      dirs, ents, nextDir, nextEnt := map[ROOT := map[]], map[], 1, 0;
    }

    /** `lookupNextDir`. */
    method LookupNextDir(d: DirRef, elem: string) returns (dir: Option<DirRef>, target: Option<Link>, ok: bool)
      requires Valid() && d in dirs
      ensures LookupStep(Now(), d, elem) == StepIs(dir, target, ok)
      ensures ok ==> dir.Some? || target.Some?
    {
      if elem !in dirs[d] {
        return None, None, false;
      }
      var e := ents[dirs[d][elem]];
      if e.err {
        return None, None, false;
      }
      if e.dir == None && e.target == None {
        return None, None, false;
      }
      return e.dir, e.target, true;
    }

    /** `nextDir`. */
    method NextDir(d: DirRef, full: Path, elem: string) returns (dir: Option<DirRef>, target: Option<Link>, ok: bool)
      requires Valid() && d in dirs
      modifies this`dirs, this`ents, this`nextDir, this`nextEnt
      ensures (Now(), StepIs(dir, target, ok)) == StoreStep(old(Now()), disk, now, d, full, elem)
    {
      if elem in dirs[d] {
        var e := ents[dirs[d][elem]];
        if !e.err {
          if e.dir == None && e.target == None {
            return None, None, false;
          }
          return e.dir, e.target, true;
        }
        var m: map<string, EntRef> := dirs[d] - {elem};
        dirs := dirs[d := m];
      }
      var mtime := now;
      match disk(full) {
        case Absent =>
        case DiskDir(t) =>
          mtime := t;
        case DiskLink(None, _) =>
          return None, None, false;
        case DiskLink(Some(link), t) =>
          ents := ents[nextEnt := NewLink(link, t)];
          dirs := Put(dirs, d, elem, nextEnt);
          nextEnt := nextEnt + 1;
          return None, Some(link), true;
        case DiskOther =>
          return None, None, false;
      }
      var child := nextDir;
      ents := ents[nextEnt := NewDir(child, mtime)];
      dirs := Put(dirs, d, elem, nextEnt);
      var empty: map<string, EntRef> := map[];
      dirs := dirs[child := empty];
      nextDir, nextEnt := nextDir + 1, nextEnt + 1;
      return Some(child), None, true;
    }

    /** `lookupEntry`: one pass. */
    method LookupEntry(p: Path) returns (e: Option<EntRef>, dir: Option<DirRef>, resolved: Option<Path>)
      requires Valid() && p != []
      ensures match LookupWalk(Now(), ROOT, p, 0)
              case Landed(d, name) =>
                dir == Some(d) && resolved == None
                && e == if name in dirs[d] then Some(dirs[d][name]) else None
              case Restart(path) => e == None && dir == None && resolved == Some(path)
              case Stuck => e == None && dir == None && resolved == None
    {
      var d := ROOT;
      var i := 0;
      while i < |p| - 1
        invariant 0 <= i < |p| && d in dirs
        invariant LookupWalk(Now(), ROOT, p, 0) == LookupWalk(Now(), d, p, i)
      {
        var sub, target, ok := LookupNextDir(d, p[i]);
        if target.Some? {
          var path := Redirect(PathElements(p, i + 1, []), p[i], target.value, p[i + 1..]);
          return None, None, Some(path);
        }
        if !ok {
          return None, None, None;
        }
        d := sub.value;
        i := i + 1;
      }
      if p[i] !in dirs[d] {
        return None, Some(d), None;
      }
      return Some(dirs[d][p[i]]), Some(d), None;
    }

    /** `lookup`. */
    method Lookup(p: Path) returns (e: Option<EntRef>)
      requires Valid() && p != []
      ensures e == Found(Now(), p)
    {
      var path := p;
      for n := 0 to MAX_SYMLINKS
        invariant path != [] && Resolve(Now(), p, MAX_SYMLINKS) == Resolve(Now(), path, MAX_SYMLINKS - n)
      {
        var ent, dir, resolved := LookupEntry(path);
        if ent.Some? || dir.Some? {
          return ent;
        }
        if resolved == None {
          return None;
        }
        path := resolved.value;
      }
      return None;
    }

    /** One name of `storeEntry`: `resolveNextDir` with `nextDir`. */
    method StoreNext(d: DirRef, p: Path, i: nat) returns (sub: Option<DirRef>, resolved: Option<Path>)
      requires Valid() && d in dirs && i < |p| - 1
      modifies this`dirs, this`ents, this`nextDir, this`nextEnt
      ensures var (s', step) := StoreStep(old(Now()), disk, now, d, p[..i + 1], p[i]);
              && Now() == s' && Valid()
              && sub == (if step.Enter? then Some(step.dir) else None)
              && resolved == (if step.Follow? then Some(Redirected(p, i, step.link)) else None)
              && (sub.Some? ==> sub.value in dirs)
    {
      StoreStepKeeps(Now(), disk, now, d, p[..i + 1], p[i]);
      var target: Option<Link>, ok;
      sub, target, ok := NextDir(d, p[..i + 1], p[i]);
      if target.Some? {
        var pe := PathElements(p, i + 1, ["/"] + p[..i + 1]);
        var path := Redirect(pe, p[i], target.value, p[i + 1..]);
        return None, Some(path);
      }
      if !ok {
        return None, None;
      }
      return sub, None;
    }

    /** `storeEntry`: one pass, with the leaf when it gets there. */
    method StoreEntry(p: Path, r: EntRef) returns (e: Option<EntRef>, resolved: Option<Path>)
      requires Valid() && p != [] && r in ents
      modifies this`dirs, this`ents, this`nextDir, this`nextEnt
      ensures var (s', w) := StoreWalk(old(Now()), disk, now, ROOT, p, 0);
              Valid() && r in ents &&
              match w
              case Landed(d, name) =>
                resolved == None && r in s'.ents && e.Some? && (Now(), e.value) == StoreLeaf(s', d, name, r)
              case Restart(path) => Now() == s' && e == None && resolved == Some(path)
              case Stuck => Now() == s' && e == None && resolved == None
    {
      hide WellFormed, StoreStep, Extends;
      RootThere(Now());
      ghost var s0 := Now();
      LookupFollowsStore(s0, disk, now, ROOT, p, 0);
      ExtendsItself(s0);
      var d := ROOT;
      var i := 0;
      while i < |p| - 1
        invariant 0 <= i < |p| && Valid() && d in dirs && Extends(s0, Now())
        invariant StoreWalk(s0, disk, now, ROOT, p, 0) == StoreWalk(Now(), disk, now, d, p, i)
      {
        ghost var s1 := Now();
        StoreStepKeeps(s1, disk, now, d, p[..i + 1], p[i]);
        var sub;
        sub, resolved := StoreNext(d, p, i);
        ExtendsChains(s0, s1, Now());
        EntryStays(s0, Now(), r);
        if resolved.Some? {
          return None, resolved;
        }
        if sub == None {
          return None, None;
        }
        d := sub.value;
        i := i + 1;
      }
      EntryStays(s0, Now(), r);
      var x := StoreAtLeaf(d, p[i], r);
      return Some(x), None;
    }

    /** The leaf branch of `storeEntry`. */
    method StoreAtLeaf(d: DirRef, name: string, r: EntRef) returns (x: EntRef)
      requires Valid() && d in dirs && r in ents
      modifies this`dirs, this`ents
      ensures (Now(), x) == StoreLeaf(old(Now()), d, name, r) && Valid() && r in ents
    {
      LeafStays(Now(), d, name, r);
      if name !in dirs[d] {
        dirs := Put(dirs, d, name, r);
        return r;
      }
      var q := dirs[d][name];
      if q == r {
        return r;
      }
      var was := ents[q];
      if was.cmdhash != "" && ents[r].cmdhash == "" && ents[r].action == None {
        ents := ents[r := ents[r].(cmdhash := was.cmdhash, action := was.action)];
      }
      var e := ents[r];
      assert ents == old(ents)[r := e];
      if e.target.Some? && was.target != e.target {
      } else if !e.d.IsZero() && was.d != e.d && was.d.size != 0 && e.d.size != 0 {
      } else if was.cmdhash != e.cmdhash || was.action != e.action {
      } else if was.target == e.target && was.size == e.size && was.mode == e.mode && (e.d.IsZero() || was.d == e.d) {
        ents := ents[q := Refreshed(was, e)];
        return q;
      } else if was.dir.Some? && e.dir.Some? {
        if (was.cmdhash != "" && e.cmdhash == "") || was.cmdhash == e.cmdhash {
          return q;
        }
      }
      dirs := Put(dirs, d, name, r);
      return r;
    }

    /** `store`. */
    method StoreAt(p: Path, r: EntRef) returns (x: Result<EntRef, StoreError>)
      requires Valid() && p != [] && r in ents
      modifies this`dirs, this`ents, this`nextDir, this`nextEnt
      ensures Valid() && (Now(), x) == Store(old(Now()), disk, now, p, r)
    {
      hide WellFormed, StoreStep, Extends, StoreWalk, StoreLeaf;
      var path := p;
      ghost var s0 := Now();
      ExtendsItself(s0);
      for n := 0 to MAX_SYMLINKS
        invariant Valid() && r in ents && path != []
        invariant StoreRun(s0, disk, now, p, MAX_SYMLINKS) == StoreRun(Now(), disk, now, path, MAX_SYMLINKS - n)
      {
        var e, resolved := StoreEntry(path, r);
        if resolved.Some? {
          path := resolved.value;
          continue;
        }
        if e == None {
          return Failure(ResolveFailed);
        }
        return Success(e.value);
      }
      return Failure(TooManyLinks);
    }
  }

  function StepIs(dir: Option<DirRef>, target: Option<Link>, ok: bool): Step {
    if target.Some? then Follow(target.value) else if ok && dir.Some? then Enter(dir.value) else Fail
  }

  lemma RootThere(s: State)
    requires WellFormed(s)
    ensures ROOT in s.dirs
  {
  }
}
