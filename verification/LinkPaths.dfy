/** Where a symlink leads: the cleaning of a path by the rules for "", "." and
    "..", and what they make of absolute and relative targets. */
module LinkPaths {
  import opened Wrappers
  import opened HashFs

  predicate AllNames(segs: seq<string>) {
    forall k :: 0 <= k < |segs| ==> IsName(segs[k])
  }

  function Ups(n: nat): (r: seq<string>)
    ensures |r| == n && forall k :: 0 <= k < n ==> r[k] == ".."
  {
    if n == 0 then [] else [".."] + Ups(n - 1)
  }

  // -------------------------------------------------------------- the rules

  lemma OneSegment(done: Path, x: string)
    ensures Clean(done, [x]) ==
            if x == "" || x == "." then done
            else if x == ".." then if done == [] then [] else done[..|done| - 1]
            else done + [x]
  {
    assert [x][1..] == [];
  }

  lemma FirstSegment(done: Path, segs: seq<string>)
    requires segs != []
    ensures Clean(done, segs) == Clean(Clean(done, [segs[0]]), segs[1..])
  {
    OneSegment(done, segs[0]);
  }

  lemma {:induction false} CleanConcat(done: Path, a: seq<string>, b: seq<string>)
    ensures Clean(done, a + b) == Clean(Clean(done, a), b)
    decreases |a|
  {
    if a == [] {
      assert a + b == b;
    } else {
      CleanConcat(Clean(done, [a[0]]), a[1..], b);
      assert (a + b)[0] == a[0] && (a + b)[1..] == a[1..] + b;
      FirstSegment(done, a);
      FirstSegment(done, a + b);
    }
  }

  /** Only names are left. */
  lemma {:induction false} OnlyNamesLeft(done: Path, segs: seq<string>)
    requires AllNames(done)
    ensures AllNames(Clean(done, segs))
    decreases |segs|
  {
    if segs != [] {
      OneSegment(done, segs[0]);
      FirstSegment(done, segs);
      OnlyNamesLeft(Clean(done, [segs[0]]), segs[1..]);
    }
  }

  /** Does leaving `x` out not change what a path means? */
  ghost predicate Vanishes(x: seq<string>) {
    forall a, b :: SameAs(a, x, b)
  }

  ghost predicate SameAs(a: seq<string>, x: seq<string>, b: seq<string>) {
    Clean([], a + x + b) == Clean([], a + b)
  }

  lemma TwoSegments(done: Path, x: string, y: string)
    ensures Clean(done, [x, y]) == Clean(Clean(done, [x]), [y])
  {
    assert [x, y] == [x] + [y];
    CleanConcat(done, [x], [y]);
  }

  lemma Undone(a: seq<string>, x: seq<string>, b: seq<string>)
    requires Clean(Clean([], a), x) == Clean([], a)
    ensures SameAs(a, x, b)
  {
    CleanConcat([], a + x, b);
    CleanConcat([], a, x);
    CleanConcat([], a, b);
  }

  /** An empty element and "." go anywhere; ".." takes the name before it away. */
  lemma RulesHold(n: string)
    requires IsName(n)
    ensures Vanishes([""]) && Vanishes(["."]) && Vanishes([n, ".."])
  {
    forall a, b
      ensures SameAs(a, [""], b) && SameAs(a, ["."], b) && SameAs(a, [n, ".."], b)
    {
      var done := Clean([], a);
      OneSegment(done, "");
      OneSegment(done, ".");
      OneSegment(done, n);
      TwoSegments(done, n, "..");
      OneSegment(done + [n], "..");
      assert (done + [n])[..|done|] == done;
      Undone(a, [""], b);
      Undone(a, ["."], b);
      Undone(a, [n, ".."], b);
    }
  }

  /** There is nothing above the root. */
  lemma {:induction false} RootIsTop(u: nat, b: seq<string>)
    ensures Clean([], Ups(u) + b) == Clean([], b)
  {
    if u == 0 {
      assert Ups(u) + b == b;
    } else {
      RootIsTop(u - 1, b);
      assert (Ups(u) + b)[1..] == Ups(u - 1) + b;
    }
  }

  /** The rules are enough: a path that none of them shortens is a list of names,
      which stands for itself. */
  lemma RulesDecide(segs: seq<string>)
    ensures AllNames(segs)
         || (exists k :: 0 <= k < |segs| && (segs[k] == "" || segs[k] == "."))
         || segs[0] == ".."
         || (exists k :: 0 < k < |segs| && segs[k] == ".." && NameBefore(segs, k))
    ensures AllNames(segs) ==> Clean([], segs) == segs
  {
    if AllNames(segs) {
      CleanNames([], segs);
    } else if forall k :: 0 <= k < |segs| ==> segs[k] != "" && segs[k] != "." {
      var k := FirstUp(segs);
    }
  }

  predicate NameBefore(segs: seq<string>, k: int)
    requires 0 < k <= |segs|
  {
    IsName(segs[k - 1])
  }

  lemma FirstUp(segs: seq<string>) returns (k: nat)
    requires !AllNames(segs) && forall k :: 0 <= k < |segs| ==> segs[k] != "" && segs[k] != "."
    ensures k < |segs| && segs[k] == ".." && (k > 0 ==> NameBefore(segs, k))
  {
    k := 0;
    while segs[k] != ".."
      invariant k < |segs| && AllNames(segs[..k]) && exists j :: k <= j < |segs| && segs[j] == ".."
      decreases |segs| - k
    {
      assert segs[..k + 1] == segs[..k] + [segs[k]];
      k := k + 1;
    }
    assert k > 0 ==> segs[..k][k - 1] == segs[k - 1];
  }

  // ------------------------------------------------------------- the targets

  function AsPath(names: Path): Path {
    if names == [] then [""] else names
  }

  /** A target may be spelled in any way: what the rules leave out of it does not
      change where the path leads. */
  lemma LinkRespelled(p: Path, i: nat, abs: bool, a: seq<string>, x: seq<string>, b: seq<string>)
    requires i < |p| && Vanishes(x)
    ensures Redirected(p, i, Link(abs, a + x + b)) == Redirected(p, i, Link(abs, a + b))
  {
    var front, back := if abs then [] else p[..i], p[i + 1..];
    assert SameAs(front + a, x, b + back);
    assert front + (a + x + b) + back == front + a + x + (b + back);
    assert front + (a + b) + back == front + a + (b + back);
  }

  /** An absolute target starts at the root, whatever the symlink's own place. */
  lemma AbsoluteLink(p: Path, i: nat, u: nat, names: seq<string>)
    requires i < |p| && AllNames(names) && AllNames(p[i + 1..])
    ensures Redirected(p, i, Link(true, Ups(u) + names)) == AsPath(names + p[i + 1..])
  {
    var rest := names + p[i + 1..];
    assert [] + (Ups(u) + names) + p[i + 1..] == Ups(u) + rest;
    RootIsTop(u, rest);
    CleanNames([], rest);
    assert [] + rest == rest;
  }

  lemma {:induction false} Climbs(done: Path, u: nat)
    ensures Clean(done, Ups(u)) == if u <= |done| then done[..|done| - u] else []
    decreases u
  {
    if u == 0 {
      assert done[..|done|] == done;
    } else {
      assert Ups(u)[1..] == Ups(u - 1);
      var up := if done == [] then [] else done[..|done| - 1];
      Climbs(up, u - 1);
    }
  }

  /** A relative target starts at the directory that holds the symlink, each ".."
      one level higher, and no higher than the root; the rest of the path follows. */
  lemma RelativeLink(p: Path, i: nat, u: nat, names: seq<string>)
    requires i < |p| && AllNames(p) && AllNames(names)
    ensures Redirected(p, i, Link(false, Ups(u) + names))
         == AsPath(p[..if u <= i then i - u else 0] + names + p[i + 1..])
  {
    hide AllNames, Clean;
    var top, rest := p[..if u <= i then i - u else 0], names + p[i + 1..];
    assert AllNames(p[..i]) && AllNames(rest) && AllNames(top) by { SomeNames(p, i, top, names); }
    Regrouped(p[..i], Ups(u), names, p[i + 1..]);
    Climb(p[..i], u, rest);
    assert u <= i ==> p[..i][..i - u] == top;
    assert top + rest == top + names + p[i + 1..];
  }

  lemma Regrouped(a: Path, b: Path, c: Path, d: Path)
    ensures a + (b + c) + d == a + b + (c + d)
  {
  }

  lemma SomeNames(p: Path, i: nat, top: Path, names: seq<string>)
    requires i < |p| && AllNames(p) && AllNames(names) && top <= p
    ensures AllNames(p[..i]) && AllNames(names + p[i + 1..]) && AllNames(top)
  {
  }

  lemma Climb(dir: Path, u: nat, rest: seq<string>)
    requires AllNames(dir) && AllNames(rest)
    ensures Clean([], dir + Ups(u) + rest) == (if u <= |dir| then dir[..|dir| - u] else []) + rest
  {
    hide Clean;
    CleanConcat([], dir + Ups(u), rest);
    CleanConcat([], dir, Ups(u));
    CleanNames([], dir);
    assert [] + dir == dir;
    Climbs(dir, u);
    CleanNames(Clean(dir, Ups(u)), rest);
  }

  /** Wherever a symlink leads, it leads to a path of names, or to the root. */
  lemma LeadsToNames(p: Path, i: nat, link: Link)
    requires i < |p|
    ensures var q := Redirected(p, i, link); q == [""] || AllNames(q)
  {
    OnlyNamesLeft([], (if link.abs then [] else p[..i]) + link.segs + p[i + 1..]);
  }

  // ------------------------------------------------------------ many symlinks

  /** The path leads to the slot through `n` symlinks, one after another. */
  ghost predicate LeadsTo(s: State, p: Path, n: nat, slot: (DirRef, string))
    requires WellFormed(s) && p != []
    decreases n
  {
    match LookupWalk(s, ROOT, p, 0)
    case Landed(dir, name) => n == 0 && slot == (dir, name)
    case Restart(path) => n > 0 && LeadsTo(s, path, n - 1, slot)
    case Stuck => false
  }

  lemma {:induction false} PassesTaken(s: State, p: Path, n: nat, slot: (DirRef, string), k: nat)
    requires WellFormed(s) && p != [] && LeadsTo(s, p, n, slot)
    ensures Resolve(s, p, k) == if n < k then Some(slot) else None
    decreases n
  {
    hide LookupWalk;
    if k > 0 && n > 0 {
      PassesTaken(s, LookupWalk(s, ROOT, p, 0).path, n - 1, slot, k - 1);
    }
  }

  /** What lies behind fewer than forty symlinks is found, and behind forty or more not. */
  lemma FoundBehind(s: State, p: Path, n: nat, slot: (DirRef, string))
    requires WellFormed(s) && p != [] && LeadsTo(s, p, n, slot)
    requires slot.0 in s.dirs && slot.1 in s.dirs[slot.0]
    ensures Found(s, p) == if n < 40 then Some(s.dirs[slot.0][slot.1]) else None
  {
    hide WellFormed, LeadsTo, Resolve;
    PassesTaken(s, p, n, slot, 40);
  }
}
