/** One-row Levenshtein distance with a cutoff, against the recursive distance
    and the cheapest edit script. A Go string is a `string` of bytes. */
module EditDistance {
  import opened Wrappers

  function Min(a: int, b: int): int {
    if a <= b then a else b
  }

  /** The distance between the first `i` bytes of `s` and the first `j` of `t`. */
  function Lev(s: string, t: string, i: nat, j: nat): (d: nat)
    requires i <= |s| && j <= |t|
  {
    if i == 0 then j
    else if j == 0 then i
    else
      Min(Lev(s, t, i - 1, j - 1) + (if s[i - 1] == t[j - 1] then 0 else 1),
          Min(Lev(s, t, i, j - 1), Lev(s, t, i - 1, j)) + 1)
  }

  function Distance(s: string, t: string): nat {
    Lev(s, t, |s|, |t|)
  }

  // ------------------------------------------------------------ edit scripts

  /** What becomes of a string from left to right. */
  datatype Edit = Keep | Change(c: char) | Insert(c: char) | Delete

  /** The result of a script that consumes all of `s`. */
  function Edited(script: seq<Edit>, s: string): Option<string>
    decreases |script|
  {
    if script == [] then (if s == [] then Some([]) else None)
    else
      var init, last := script[..|script| - 1], script[|script| - 1];
      if !last.Insert? && s == [] then None
      else
        var before := Edited(init, if last.Insert? then s else s[..|s| - 1]);
        if before.None? then None
        else
          match last
          case Keep => Some(before.value + [s[|s| - 1]])
          case Change(c) => Some(before.value + [c])
          case Insert(c) => Some(before.value + [c])
          case Delete => before
  }

  function Cost(script: seq<Edit>): nat {
    if script == [] then 0
    else Cost(script[..|script| - 1]) + if script[|script| - 1] == Keep then 0 else 1
  }

  /** No script from `s[..i]` to `t[..j]` is cheaper than `Lev`. */
  lemma {:induction false} NoCheaperScript(s: string, t: string, i: nat, j: nat, script: seq<Edit>)
    requires i <= |s| && j <= |t| && Edited(script, s[..i]) == Some(t[..j])
    ensures Lev(s, t, i, j) <= Cost(script)
    decreases |script|
  {
    if script != [] {
      var init, last := script[..|script| - 1], script[|script| - 1];
      var i' := if last.Insert? then i else i - 1;
      var j' := if last.Delete? then j else j - 1;
      assert !last.Insert? ==> s[..i][..i - 1] == s[..i - 1];
      var before := Edited(init, s[..i']).value;
      assert !last.Delete? ==> t[..j][..j - 1] == before;
      assert !last.Delete? ==> t[..j][..j - 1] == t[..j - 1];
      assert !last.Delete? ==> t[..j][j - 1] == t[j - 1];
      NoCheaperScript(s, t, i', j', init);
    }
  }

  /** Some script costs exactly `Lev`. */
  lemma {:induction false} CheapestScript(s: string, t: string, i: nat, j: nat) returns (script: seq<Edit>)
    requires i <= |s| && j <= |t|
    ensures Edited(script, s[..i]) == Some(t[..j]) && Cost(script) == Lev(s, t, i, j)
  {
    if i == 0 && j == 0 {
      script := [];
    } else {
      var last: Edit;
      var i', j' := i, j;
      if i == 0 {
        last, j' := Insert(t[j - 1]), j - 1;
      } else if j == 0 {
        last, i' := Delete, i - 1;
      } else if Lev(s, t, i, j) == Lev(s, t, i, j - 1) + 1 {
        last, j' := Insert(t[j - 1]), j - 1;
      } else if Lev(s, t, i, j) == Lev(s, t, i - 1, j) + 1 {
        last, i' := Delete, i - 1;
      } else {
        last, i', j' := if s[i - 1] == t[j - 1] then Keep else Change(t[j - 1]), i - 1, j - 1;
      }
      var init := CheapestScript(s, t, i', j');
      script := init + [last];
      assert script[..|script| - 1] == init;
      assert i > 0 ==> s[..i][..i - 1] == s[..i - 1];
      assert j > 0 ==> t[..j] == t[..j - 1] + [t[j - 1]];
    }
  }

  /** `Distance` is the least cost of turning one string into the other. */
  lemma DistanceIsLeastCost(s: string, t: string)
    ensures forall script :: Edited(script, s) == Some(t) ==> Distance(s, t) <= Cost(script)
    ensures exists script :: Edited(script, s) == Some(t) && Cost(script) == Distance(s, t)
  {
    assert s[..|s|] == s && t[..|t|] == t;
    forall script | Edited(script, s) == Some(t) ensures Distance(s, t) <= Cost(script) {
      NoCheaperScript(s, t, |s|, |t|, script);
    }
    var script := CheapestScript(s, t, |s|, |t|);
  }

  // ------------------------------------------------------------- the one row

  /** When a whole row is above a bound, so are all later rows. */
  lemma {:induction false} RowMinimumGrows(s: string, t: string, bound: int, y: nat, i: nat, j: nat)
    requires y <= i <= |s| && j <= |t|
    requires forall x :: 0 <= x <= |t| ==> Lev(s, t, y, x) >= bound
    ensures Lev(s, t, i, j) >= bound
    decreases i, j
  {
    if i > y {
      RowMinimumGrows(s, t, bound, y, i - 1, j);
      if j > 0 {
        RowMinimumGrows(s, t, bound, y, i - 1, j - 1);
        RowMinimumGrows(s, t, bound, y, i, j - 1);
      } else {
        assert Lev(s, t, y, 0) == y;
      }
    }
  }

  lemma LevEdges(s: string, t: string)
    ensures forall x :: 0 <= x <= |t| ==> Lev(s, t, 0, x) == x
    ensures forall y :: 0 <= y <= |s| ==> Lev(s, t, y, 0) == y
  {
  }

  lemma LevStep(s: string, t: string, i: nat, j: nat)
    requires 0 < i <= |s| && 0 < j <= |t|
    ensures Lev(s, t, i, j) ==
            Min(Lev(s, t, i - 1, j - 1) + (if s[i - 1] == t[j - 1] then 0 else 1),
                Min(Lev(s, t, i, j - 1), Lev(s, t, i - 1, j)) + 1)
  {
  }

  ghost predicate IsRow(s: string, t: string, y: nat, row: seq<int>) {
    && y <= |s| && |row| == |t| + 1
    && forall x :: 0 <= x <= |t| ==> row[x] == Lev(s, t, y, x)
  }

  /** `editDistance`: exact without a cutoff; with one, exact up to it and one
      above it for anything beyond that it notices. */
  method Compute(s1: string, s2: string, max: int) returns (r: int)
    ensures max <= 0 ==> r == Distance(s1, s2)
    ensures max > 0 && Distance(s1, s2) <= max ==> r == Distance(s1, s2)
    ensures max > 0 && Distance(s1, s2) > max ==> r > max && (r == Distance(s1, s2) || r == max + 1)
  {
    hide Lev;
    LevEdges(s1, s2);
    var m, n := |s1|, |s2|;
    var row := new int[n + 1](i => i);
    for y := 1 to m + 1
      invariant IsRow(s1, s2, y - 1, row[..])
    {
      var bestThisRow := NextRow(s1, s2, y, row);
      if max > 0 && bestThisRow > max {
        RowMinimumGrows(s1, s2, max + 1, y, m, n);
        return max + 1;
      }
    }
    return row[n];
  }

  /** One turn of the outer loop: overwrite row `y - 1` with row `y`. */
  method NextRow(s1: string, s2: string, y: nat, row: array<int>) returns (bestThisRow: int)
    requires 0 < y <= |s1| && IsRow(s1, s2, y - 1, row[..])
    modifies row
    ensures IsRow(s1, s2, y, row[..])
    ensures forall x :: 0 <= x <= |s2| ==> bestThisRow <= Lev(s1, s2, y, x)
  {
    hide Lev;
    LevEdges(s1, s2);
    var n := |s2|;
    row[0] := y;
    bestThisRow := row[0];
    var previous := y - 1;
    for x := 1 to n + 1
      invariant forall k :: 0 <= k < x ==> row[k] == Lev(s1, s2, y, k)
      invariant forall k :: x <= k <= n ==> row[k] == Lev(s1, s2, y - 1, k)
      invariant previous == Lev(s1, s2, y - 1, x - 1)
      invariant forall k :: 0 <= k < x ==> bestThisRow <= row[k]
    {
      LevStep(s1, s2, y, x);
      var oldRow := row[x];
      var p := previous;
      if s1[y - 1] != s2[x - 1] {
        p := p + 1;
      }
      row[x] := Min(p, Min(row[x - 1], row[x]) + 1);
      previous := oldRow;
      bestThisRow := Min(bestThisRow, row[x]);
    }
  }
}
