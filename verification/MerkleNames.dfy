/** What setting an entry does, in terms of its name: when it fails, and what
    stands where afterwards. */
module MerkleNames {
  import opened Wrappers
  import opened Merkle

  /** The name whose elements these are. */
  function Joined(elems: seq<string>): string {
    if elems == [] then ""
    else if |elems| == 1 then elems[0]
    else elems[0] + "/" + Joined(elems[1..])
  }

  /** A name that starts with a slash or a backslash. */
  predicate StartsAtRoot(name: string) {
    name != "" && (name[0] == '/' || name[0] == '\\')
  }

  predicate NoSlash(elems: seq<string>) {
    forall k :: 0 <= k < |elems| ==> '/' !in elems[k]
  }

  lemma AbsIff(elems: seq<string>)
    requires elems != [] && NoSlash(elems)
    ensures IsAbs(elems) <==> StartsAtRoot(Joined(elems))
  {
    var first := elems[0];
    assert first != "" ==> first[0] in first && Joined(elems)[0] == first[0];
    assert "\\" <= first <==> first != "" && first[0] == '\\';
  }

  /** Exactly when setting an entry fails, in this order: as both a file and a
      symlink; by a name that starts at the root; by an inner part that leaves the
      root; and by a last part that cannot name a file, or anything at all. What
      has no data and names a directory that is there is no failure. */
  lemma SetFailsIff(s: State, e: Entry)
    requires WellFormed(s.m) && e.elems != [] && NoSlash(e.elems)
    ensures var err, leaf := SetEntry(s, e).1, Leaf(e.elems);
            err == if e.target != "" && e.data.Some? then Some(AmbigFileSymlink)
                   else if StartsAtRoot(Joined(e.elems)) then Some(AbsPath)
                   else if e.data == None && KeyOf(e.elems) in s.m then None
                   else if LeavesRoot(Init(e.elems)) then Some(BadPath)
                   else if e.data.Some? then if leaf == "." || leaf == ".." then Some(BadPath) else None
                   else if leaf == "" || Depth(e.elems) < 0 then Some(BadPath)
                   else None
  {
    hide SetDir, MakeDirs, WellFormed, IsAbs, Joined, LeavesRoot, Walk, Enter;
    AbsIff(e.elems);
    WalkIsLexical(Init(e.elems));
    assert e.elems == Init(e.elems) + [Leaf(e.elems)];
    var at := Walk([], Init(e.elems));
    if at.Some? {
      assert |at.value| == Depth(Init(e.elems));
      MakeDirsThere(s.m, e);
    }
  }

  lemma MakeDirsThere(m: Dirs, e: Entry)
    requires WellFormed(m) && e.elems != []
    ensures [] in m && MakeDirs(m, [], Init(e.elems)).Keys >= m.Keys
    ensures var at := Walk([], Init(e.elems)); at.Some? ==> at.value in MakeDirs(m, [], Init(e.elems))
  {
    hide SetDir, MakeDirs, Walk, Enter;
    RootIn(m);
    MakeDirsKeeps(m, [], Init(e.elems));
  }

  /** A file that is set stands in the directory its name leads to, with its
      digest and mode, and its contents are in the store. */
  lemma FileStands(s: State, e: Entry, p: Path)
    requires WellFormed(s.m) && e.elems != [] && NoSlash(e.elems)
    requires e.data.Some? && SetEntry(s, e).1 == None && Lands(Init(e.elems), p)
    ensures HasFile(SetEntry(s, e).0.m, p, FileNode(Leaf(e.elems), e.data.value, e.executable))
    ensures e.data.value in SetEntry(s, e).0.store
  {
    hide SetDir, MakeDirs, WellFormed, Joined, LeavesRoot, Walk, Enter, Lands;
    SetFailsIff(s, e);
    AbsIff(e.elems);
    WalkIsLexical(Init(e.elems));
    LandsOnce(Init(e.elems), p, Walk([], Init(e.elems)).value);
    SetAdds(s, e);
    var f := FileNode(Leaf(e.elems), e.data.value, e.executable);
    assert (p, f) in FilesOf(e);
    assert (p, f).1.digest in set x | x in FilesOf(e) :: x.1.digest;
  }

  /** A symlink stands there with its target, unless its name is a directory that
      is there. */
  lemma LinkStands(s: State, e: Entry, p: Path)
    requires WellFormed(s.m) && e.elems != [] && NoSlash(e.elems)
    requires e.data == None && e.target != "" && KeyOf(e.elems) !in s.m && IsPlain(Leaf(e.elems))
    requires SetEntry(s, e).1 == None && Lands(Init(e.elems), p)
    ensures HasLink(SetEntry(s, e).0.m, p, SymlinkNode(Leaf(e.elems), e.target))
  {
    hide SetDir, MakeDirs, WellFormed, Joined, LeavesRoot, Walk, Enter, Lands;
    SetFailsIff(s, e);
    AbsIff(e.elems);
    WalkIsLexical(Init(e.elems));
    LandsOnce(Init(e.elems), p, Walk([], Init(e.elems)).value);
    SetAdds(s, e);
    assert (p, SymlinkNode(Leaf(e.elems), e.target)) in LinksOf(e);
  }

  /** A directory stands where its whole name leads. */
  lemma DirStands(s: State, e: Entry, p: Path)
    requires WellFormed(s.m) && e.elems != [] && NoSlash(e.elems)
    requires e.data == None && e.target == "" && IsPlain(Leaf(e.elems))
    requires SetEntry(s, e).1 == None && Lands(Init(e.elems), p)
    ensures p + [Leaf(e.elems)] in SetEntry(s, e).0.m
  {
    hide SetDir, MakeDirs, WellFormed, Joined, LeavesRoot, Walk, Enter, Lands;
    SetFailsIff(s, e);
    AbsIff(e.elems);
    SetAdds(s, e);
    assert Rejected(e) == None;
    WalkIsLexical(Init(e.elems));
    if Skipped(s.m, e) {
      SkippedLands(s.m, e);
    }
    LandsOnce(Init(e.elems), p, Walk([], Init(e.elems)).value);
    assert p + [Leaf(e.elems)] in DirsOf(e);
  }

  lemma SkippedLands(m: Dirs, e: Entry)
    requires WellFormed(m) && e.elems != [] && Skipped(m, e) && IsPlain(Leaf(e.elems))
    ensures Walk([], Init(e.elems)).Some?
  {
    var key := e.elems;
    assert key == Init(key) + [Leaf(key)];
    PrefixIn(m, key, |key| - 1);
    assert [] + Init(key) == Init(key);
    CleanWalk(m, [], Init(key));
  }

  /** A name lands at one place. */
  lemma LandsOnce(elems: seq<string>, p: Path, q: Path)
    requires Lands(elems, p) && Lands(elems, q)
    ensures p == q
  {
    forall j | 0 <= j < |p|
      ensures p[j] == q[j]
    {
      assert HasLevel(elems, p[j], j) && HasLevel(elems, q[j], j);
      var i: nat :| LastDescent(elems, i, j) && elems[i] == p[j];
      var k: nat :| LastDescent(elems, k, j) && elems[k] == q[j];
      assert i == k;
    }
  }

  // ------------------------------------------------------------------- order

  /** The names part at `k`: there the first ends, or has the smaller character. */
  predicate PartsAt(a: string, b: string, k: nat) {
    k <= |a| && k < |b| && a[..k] == b[..k] && (k == |a| || a[k] < b[k])
  }

  /** The nodes of a directory are in the order of their names' first difference. */
  lemma {:induction false} LessIff(a: string, b: string)
    ensures Less(a, b) <==> exists k :: PartsAt(a, b, k)
  {
    if b != "" {
      if a == "" || a[0] < b[0] {
        assert PartsAt(a, b, 0);
      } else if a[0] == b[0] {
        LessIff(a[1..], b[1..]);
        if k: nat :| PartsAt(a[1..], b[1..], k) {
          assert a[..k + 1] == [a[0]] + a[1..][..k] && b[..k + 1] == [b[0]] + b[1..][..k];
          assert PartsAt(a, b, k + 1);
        }
        if k: nat :| PartsAt(a, b, k) {
          RestParts(a, b, k);
        }
      } else {
        forall k: nat
          ensures !PartsAt(a, b, k)
        {
          assert 0 < k <= |a| && k <= |b| ==> a[..k][0] == a[0] && b[..k][0] == b[0];
        }
      }
    }
  }

  lemma RestParts(a: string, b: string, k: nat)
    requires PartsAt(a, b, k) && a != "" && b != "" && a[0] == b[0]
    ensures k > 0 && PartsAt(a[1..], b[1..], k - 1)
  {
    assert a[1..][..k - 1] == a[..k][1..] && b[1..][..k - 1] == b[..k][1..];
  }
}
