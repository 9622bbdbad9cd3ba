/** What a pass of `store` leaves on its way: the entries that were there, and
    for the missing ones what the disk holds. */
module StoreWay {
  import opened Wrappers
  import opened HashFs

  /** The slot holds an entry that records no error. */
  predicate Lives(s: State, d: DirRef, n: string) {
    d in s.dirs && n in s.dirs[d] && s.dirs[d][n] in s.ents && !s.ents[s.dirs[d][n]].err
  }

  /** Something on the disk no directory can stand for. */
  predicate Bars(disk: Disk) {
    disk == DiskOther || (disk.DiskLink? && disk.target == None)
  }

  /** A fresh entry for what is on the disk, readable by all: its symlink, or a
      directory with the time of the one there, or with the present when there is
      nothing. */
  predicate Mirrors(e: Entry, disk: Disk, now: int) {
    && !e.err && e.cmdhash == "" && e.action == None && e.d.IsZero()
    && match disk
       case Absent => e.dir.Some? && e.target == None && e.mode == 0x8000_0000 + 420 && e.mtime == now
       case DiskDir(mtime) => e.dir.Some? && e.target == None && e.mode == 0x8000_0000 + 420 && e.mtime == mtime
       case DiskLink(target, mtime) =>
         e.dir == None && e.target == target != None && e.mode == 0x800_0000 + 420 && e.mtime == mtime
       case DiskOther => false
  }

  /** The slot at the `i`-th name, in the tree `s'` that was `s` before. */
  predicate SlotMade(s: State, s': State, disk: Oracle, now: int, d: DirRef, p: Path, i: nat)
    requires i < |p| && d in s'.dirs
  {
    var n, there := p[i], disk(p[..i + 1]);
    if Lives(s, d, n) then KeptSlot(s, s', d, n)
    else if Bars(there) then n !in s'.dirs[d]
    else
      && Lives(s', d, n) && s'.dirs[d][n] !in s.ents
      && var e := s'.ents[s'.dirs[d][n]];
      Mirrors(e, there, now) && (e.dir.Some? ==> e.dir.value !in s.dirs)
  }

  predicate KeptSlot(s: State, s': State, d: DirRef, n: string) {
    Lives(s, d, n) ==>
      Lives(s', d, n) && s'.dirs[d][n] == s.dirs[d][n] && s'.ents[s'.dirs[d][n]] == s.ents[s.dirs[d][n]]
  }

  /** All slots on the way of a path through `s'`. */
  predicate Way(s: State, s': State, disk: Oracle, now: int, d: DirRef, p: Path, i: nat)
    requires WellFormed(s') && d in s'.dirs && i < |p|
    decreases |p| - i
  {
    i == |p| - 1
    || (&& SlotMade(s, s', disk, now, d, p, i)
        && var step := LookupStep(s', d, p[i]);
        step.Enter? ==> Way(s, s', disk, now, step.dir, p, i + 1))
  }

  ghost predicate KeepsLiving(s: State, s': State) {
    s.dirs.Keys <= s'.dirs.Keys && forall d, n :: KeptSlot(s, s', d, n)
  }

  lemma KeepsChain(a: State, b: State, c: State)
    requires KeepsLiving(a, b) && KeepsLiving(b, c)
    ensures KeepsLiving(a, c)
  {
    forall d, n
      ensures KeptSlot(a, c, d, n)
    {
      assert KeptSlot(a, b, d, n) && KeptSlot(b, c, d, n);
    }
  }

  /** One step leaves living slots alone and makes the slot it is at. */
  lemma StepMakes(s: State, disk: Oracle, now: int, d: DirRef, p: Path, i: nat)
    requires WellFormed(s) && d in s.dirs && i < |p|
    ensures var (s', step) := StoreStep(s, disk, now, d, p[..i + 1], p[i]);
            && d in s'.dirs && KeepsLiving(s, s') && SlotMade(s, s', disk, now, d, p, i)
            && (step.Enter? && !Lives(s, d, p[i]) ==>
                  step.dir !in s.dirs && step.dir in s'.dirs && s'.dirs[step.dir] == map[])
  {
    hide KeepsLiving, SlotMade;
    StepKeeps(s, disk, now, d, p, i);
    StepSlot(s, disk, now, d, p, i);
  }

  lemma DropLives(s: State, d: DirRef, n: string)
    requires d in s.dirs && !Lives(s, d, n)
    ensures KeepsLiving(s, Drop(s, d, n)) && !Lives(Drop(s, d, n), d, n)
  {
  }

  lemma EntryLives(s: State, d: DirRef, n: string, e: Entry)
    requires d in s.dirs && !Lives(s, d, n) && s.nextEnt !in s.ents
    ensures KeepsLiving(s, AddEntry(s, d, n, e))
  {
  }

  lemma DirLives(s: State, d: DirRef, n: string, mtime: int)
    requires d in s.dirs && !Lives(s, d, n) && s.nextEnt !in s.ents && s.nextDir !in s.dirs
    ensures KeepsLiving(s, AddDir(s, d, n, mtime))
  {
  }

  lemma StepKeeps(s: State, disk: Oracle, now: int, d: DirRef, p: Path, i: nat)
    requires WellFormed(s) && d in s.dirs && i < |p|
    ensures KeepsLiving(s, StoreStep(s, disk, now, d, p[..i + 1], p[i]).0)
  {
    hide KeepsLiving, AddEntry, AddDir, LookupStep, NewLink;
    LivingStays(s);
    assert s.nextEnt !in s.ents && s.nextDir !in s.dirs;
    if !Lives(s, d, p[i]) {
      var s0 := if p[i] in s.dirs[d] then Drop(s, d, p[i]) else s;
      if p[i] in s.dirs[d] {
        DropLives(s, d, p[i]);
      }
      match disk(p[..i + 1])
      case Absent =>
        DirLives(s0, d, p[i], now);
        KeepsChain(s, s0, AddDir(s0, d, p[i], now));
      case DiskDir(mtime) =>
        DirLives(s0, d, p[i], mtime);
        KeepsChain(s, s0, AddDir(s0, d, p[i], mtime));
      case DiskLink(Some(link), mtime) =>
        EntryLives(s0, d, p[i], NewLink(link, mtime));
        KeepsChain(s, s0, AddEntry(s0, d, p[i], NewLink(link, mtime)));
      case _ =>
    }
  }

  lemma StepSlot(s: State, disk: Oracle, now: int, d: DirRef, p: Path, i: nat)
    requires WellFormed(s) && d in s.dirs && i < |p|
    ensures var s' := StoreStep(s, disk, now, d, p[..i + 1], p[i]).0;
            d in s'.dirs && SlotMade(s, s', disk, now, d, p, i)
  {
    assert s.nextEnt !in s.ents && s.nextDir !in s.dirs;
  }

  lemma {:induction false} WalkKeeps(s: State, disk: Oracle, now: int, d: DirRef, p: Path, i: nat)
    requires WellFormed(s) && d in s.dirs && i < |p|
    ensures KeepsLiving(s, StoreWalk(s, disk, now, d, p, i).0)
    decreases |p| - i
  {
    hide WellFormed, StoreStep, SlotMade, KeptSlot;
    if i == |p| - 1 {
      LivingStays(s);
    } else {
      StoreStepKeeps(s, disk, now, d, p[..i + 1], p[i]);
      StepMakes(s, disk, now, d, p, i);
      var (s1, step) := StoreStep(s, disk, now, d, p[..i + 1], p[i]);
      if step.Enter? {
        WalkKeeps(s1, disk, now, step.dir, p, i + 1);
        KeepsChain(s, s1, StoreWalk(s1, disk, now, step.dir, p, i + 1).0);
      }
    }
  }

  lemma LivingStays(s: State)
    ensures KeepsLiving(s, s)
  {
  }

  /** A directory that is new in `s1` is new in `s`, and so are those below it. */
  lemma {:induction false} NewWay(s: State, s1: State, s': State, disk: Oracle, now: int, d: DirRef, p: Path, i: nat)
    requires WellFormed(s') && d in s'.dirs && i < |p| && Way(s1, s', disk, now, d, p, i)
    requires s.dirs.Keys <= s1.dirs.Keys && s.ents.Keys <= s1.ents.Keys
    requires d !in s.dirs && forall n :: !Lives(s1, d, n)
    ensures Way(s, s', disk, now, d, p, i)
    decreases |p| - i
  {
    if i < |p| - 1 {
      var step := LookupStep(s', d, p[i]);
      if step.Enter? {
        NewWay(s, s1, s', disk, now, step.dir, p, i + 1);
      }
    }
  }

  /** What a slot is made of stays in the tree that grows on. */
  lemma SlotStays(s: State, s1: State, s2: State, disk: Oracle, now: int, d: DirRef, p: Path, i: nat)
    requires i < |p| && d in s1.dirs && SlotMade(s, s1, disk, now, d, p, i) && KeepsLiving(s1, s2)
    requires Lives(s1, d, p[i])
    ensures d in s2.dirs && SlotMade(s, s2, disk, now, d, p, i)
  {
    assert KeptSlot(s1, s2, d, p[i]);
  }

  /** What a pass of store finds and makes on its way, however far it comes. */
  lemma {:induction false} WayMade(s: State, disk: Oracle, now: int, d: DirRef, p: Path, i: nat)
    requires WellFormed(s) && d in s.dirs && i < |p|
    ensures var s' := StoreWalk(s, disk, now, d, p, i).0;
            d in s'.dirs && KeepsLiving(s, s') && Way(s, s', disk, now, d, p, i)
    decreases |p| - i
  {
    hide WellFormed, StoreStep, SlotMade, KeptSlot, Lives, Extends;
    WalkKeeps(s, disk, now, d, p, i);
    if i < |p| - 1 {
      StoreStepKeeps(s, disk, now, d, p[..i + 1], p[i]);
      StepMakes(s, disk, now, d, p, i);
      var (s1, step) := StoreStep(s, disk, now, d, p[..i + 1], p[i]);
      if step.Enter? {
        var s2 := StoreWalk(s1, disk, now, step.dir, p, i + 1).0;
        WayMade(s1, disk, now, step.dir, p, i + 1);
        LookupFollowsStore(s1, disk, now, step.dir, p, i + 1);
        StepStays(s1, s2, d, p[i]);
        EntersLiving(s1, d, p[i]);
        SlotStays(s, s1, s2, disk, now, d, p, i);
        if Lives(s, d, p[i]) {
          LivingStep(s, disk, now, d, p, i);
        } else {
          EmptyDir(s1, step.dir);
          ExtendsKeys(s, s1);
          NewWay(s, s1, s2, disk, now, step.dir, p, i + 1);
        }
      }
    }
  }

  lemma EntersLiving(s: State, d: DirRef, n: string)
    requires WellFormed(s) && d in s.dirs && LookupStep(s, d, n).Enter?
    ensures Lives(s, d, n)
  {
  }

  lemma LivingStep(s: State, disk: Oracle, now: int, d: DirRef, p: Path, i: nat)
    requires WellFormed(s) && d in s.dirs && i < |p| && Lives(s, d, p[i])
    ensures StoreStep(s, disk, now, d, p[..i + 1], p[i]).0 == s
  {
  }

  lemma EmptyDir(s: State, d: DirRef)
    requires d in s.dirs && s.dirs[d] == map[]
    ensures forall n :: !Lives(s, d, n)
  {
  }

  lemma ExtendsKeys(s: State, s1: State)
    requires WellFormed(s) && WellFormed(s1) && Extends(s, s1)
    ensures s.dirs.Keys <= s1.dirs.Keys && s.ents.Keys <= s1.ents.Keys
  {
  }

  // ------------------------------------------------------- where it gets to

  /** A slot that leads nowhere: it lives and is a file, or the disk bars it. */
  predicate Blocked(s: State, disk: Oracle, d: DirRef, p: Path, k: nat)
    requires k < |p|
  {
    if Lives(s, d, p[k]) then
      var e := s.ents[s.dirs[d][p[k]]];
      e.target == None && e.dir == None
    else Bars(disk(p[..k + 1]))
  }

  /** A slot that is the symlink `link`, in the tree or else on the disk. */
  predicate Linked(s: State, disk: Oracle, d: DirRef, p: Path, k: nat, link: Link)
    requires k < |p|
  {
    if Lives(s, d, p[k]) then s.ents[s.dirs[d][p[k]]].target == Some(link)
    else
      var there := disk(p[..k + 1]);
      there.DiskLink? && there.target == Some(link)
  }

  /** Where a pass ends: at the last name, or before it at a file or at a symlink,
      of the tree or of the disk, which leads on from there. */
  ghost predicate EndsWell(s: State, disk: Oracle, w: Walk, p: Path, at: DirRef, k: nat)
    requires k < |p|
  {
    match w
    case Landed(dir, name) => k == |p| - 1 && dir == at && name == p[k]
    case Stuck => k < |p| - 1 && Blocked(s, disk, at, p, k)
    case Restart(path) =>
      k < |p| - 1 && exists link :: Linked(s, disk, at, p, k, link) && path == Redirected(p, k, link)
  }

  lemma {:induction false} WayEnds(s: State, s': State, disk: Oracle, now: int, d: DirRef, p: Path, i: nat)
    returns (at: DirRef, k: nat)
    requires WellFormed(s') && d in s'.dirs && i < |p| && Way(s, s', disk, now, d, p, i)
    ensures i <= k < |p| && LookupWalk(s', d, p[..k + 1], i) == Landed(at, p[k])
    ensures EndsWell(s, disk, LookupWalk(s', d, p, i), p, at, k)
    decreases |p| - i
  {
    hide WellFormed, Redirected;
    at, k := d, i;
    if i < |p| - 1 {
      var step := LookupStep(s', d, p[i]);
      if step.Enter? {
        at, k := WayEnds(s, s', disk, now, step.dir, p, i + 1);
        assert p[..k + 1][i] == p[i];
      } else {
        SlotEnds(s, s', disk, now, d, p, i);
      }
    }
  }

  lemma SlotEnds(s: State, s': State, disk: Oracle, now: int, d: DirRef, p: Path, i: nat)
    requires WellFormed(s') && i < |p| && d in s'.dirs && SlotMade(s, s', disk, now, d, p, i)
    ensures match LookupStep(s', d, p[i])
            case Enter(_) => true
            case Fail => Blocked(s, disk, d, p, i)
            case Follow(link) => Linked(s, disk, d, p, i, link)
  {
  }

  /** One pass of store: living entries stay, the slots on its way are what was
      there or what the disk holds, and it ends where that leads. */
  lemma PassMakesWay(s: State, disk: Oracle, now: int, p: Path) returns (at: DirRef, k: nat)
    requires WellFormed(s) && p != []
    ensures k < |p|
    ensures var (s', w) := StoreWalk(s, disk, now, ROOT, p, 0);
            && KeepsLiving(s, s') && ROOT in s'.dirs && Way(s, s', disk, now, ROOT, p, 0)
            && LookupWalk(s', ROOT, p[..k + 1], 0) == Landed(at, p[k])
            && EndsWell(s, disk, w, p, at, k)
  {
    hide Way, EndsWell, LookupWalk, StoreWalk, KeepsLiving;
    assert ROOT in s.dirs;
    WayMade(s, disk, now, ROOT, p, 0);
    LookupFollowsStore(s, disk, now, ROOT, p, 0);
    at, k := WayEnds(s, StoreWalk(s, disk, now, ROOT, p, 0).0, disk, now, ROOT, p, 0);
  }
}
