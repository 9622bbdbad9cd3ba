/** The sharded list of a file's variable bindings, set in any order, and why the
    order does not matter. */
module Bindings {
  import opened Wrappers
  import opened Eval

  /** A binding that a lookup at `pos` may see. */
  predicate Visible(d: Decl, pos: int, key: string) {
    d.name == key && (pos < 0 || d.value.pos < pos)
  }

  /** The answer a lookup owes: the visible binding of the largest position. */
  ghost predicate IsLatest(list: seq<Decl>, pos: int, key: string, r: Option<EvalString>) {
    match r
    case None => forall d | d in list :: !Visible(d, pos, key)
    case Some(value) =>
      && Decl(key, value) in list && Visible(Decl(key, value), pos, key)
      && forall d | d in list && Visible(d, pos, key) :: d.value.pos <= value.pos
  }

  /** Every lookup is answered so. */
  ghost predicate Answers(env: Env, list: seq<Decl>) {
    forall pos, key :: IsLatest(list, pos, key, env(pos, key))
  }

  /** The bindings that one shard holds. */
  function OfShard(list: seq<Decl>, hash: string -> nat, size: nat, k: nat): (r: seq<Decl>)
    requires k < size
    ensures forall d :: d in r <==> d in list && hash(d.name) % size == k
  {
    if list == [] then []
    else
      var init, last := list[..|list| - 1], list[|list| - 1];
      assert list == init + [last];
      OfShard(init, hash, size, k) + (if hash(last.name) % size == k then [last] else [])
  }

  class ShardBindings {
    const hash: string -> nat
    const shards: array<seq<Decl>>
    /** Everything set so far, in the order of the calls. */
    ghost var all: seq<Decl>

    ghost predicate Valid()
      reads this, shards
    {
      && shards.Length > 0
      && forall k :: 0 <= k < shards.Length ==> shards[k] == OfShard(all, hash, shards.Length, k)
    }

    /** `init`: doubles the shard count until fewer than eight of the `n`
        expected bindings fall on one. */
    constructor (hash: string -> nat, n: nat)
      ensures Valid() && fresh(shards) && all == [] && this.hash == hash
      ensures n / shards.Length < 8
      ensures shards.Length > 1 ==> shards.Length % 2 == 0 && n / (shards.Length / 2) >= 8
    {
      var size := 1;
      while n / size >= 8
        invariant size > 0
        invariant size > 1 ==> size % 2 == 0 && n / (size / 2) >= 8
        decreases n - size
      {
        HalfLess(n, size);
        size := size * 2;
      }
      this.hash := hash;
      this.shards := new seq<Decl>[size](_ => []);
      this.all := [];
    }

    /** `set`: appends to the shard of the key. */
    method Set(key: string, value: EvalString)
      requires Valid()
      modifies this, shards
      ensures Valid() && all == old(all) + [Decl(key, value)]
    {
      var k := if shards.Length == 1 then 0 else hash(key) % shards.Length;
      shards[k] := shards[k] + [Decl(key, value)];
      all := all + [Decl(key, value)];
      assert all[..|all| - 1] == old(all);
      forall j | 0 <= j < shards.Length ensures shards[j] == OfShard(all, hash, shards.Length, j) {
        assert hash(key) % shards.Length == j <==> j == k;
      }
    }

    /** `get`: a backward scan of one shard, whatever order it is in, finds the
        latest binding of the whole map. */
    method Get(pos: int, key: string) returns (r: Option<EvalString>)
      requires Valid()
      ensures IsLatest(all, pos, key, r)
    {
      var k := if shards.Length == 1 then 0 else hash(key) % shards.Length;
      var list := shards[k];
      r := None;
      var i := |list|;
      while i > 0
        invariant 0 <= i <= |list|
        invariant IsLatest(list[i..], pos, key, r)
      {
        i := i - 1;
        assert list[i..] == [list[i]] + list[i + 1..];
        if pos >= 0 && list[i].value.pos >= pos {
          continue;
        }
        if r.Some? && list[i].value.pos < r.value.pos {
          continue;
        }
        if list[i].name == key {
          r := Some(list[i].value);
        }
      }
      assert list[0..] == list;
    }
  }

  lemma HalfLess(n: nat, size: nat)
    requires size > 0 && n / size >= 8
    ensures size < n
  {
    assert n == n / size * size + n % size;
    assert n / size * size >= 8 * size;
  }

  /** Bindings set in any order answer like the declarations of the file, read
      in order. */
  lemma {:induction false} LatestIsLast(all: seq<Decl>, decls: seq<Decl>, pos: int, key: string, r: Option<EvalString>)
    requires multiset(all) == multiset(decls) && InOrder(decls)
    requires IsLatest(all, pos, key, r)
    ensures r == LastBefore(decls, pos, key)
  {
    forall d ensures d in all <==> d in decls {
      assert d in all <==> d in multiset(all);
      assert d in decls <==> d in multiset(decls);
    }
    assert IsLatest(decls, pos, key, r);
    LastIsLatest(decls, pos, key);
    LatestUnique(decls, pos, key, r, LastBefore(decls, pos, key));
  }

  lemma {:induction false} LastIsLatest(decls: seq<Decl>, pos: int, key: string)
    requires InOrder(decls)
    ensures IsLatest(decls, pos, key, LastBefore(decls, pos, key))
  {
    if decls != [] {
      var init := decls[..|decls| - 1];
      assert decls == init + [decls[|decls| - 1]];
      LastIsLatest(init, pos, key);
    }
  }

  lemma LatestUnique(decls: seq<Decl>, pos: int, key: string, r: Option<EvalString>, r': Option<EvalString>)
    requires InOrder(decls)
    requires IsLatest(decls, pos, key, r) && IsLatest(decls, pos, key, r')
    ensures r == r'
  {
    if r.Some? && r'.Some? {
      var i :| 0 <= i < |decls| && decls[i] == Decl(key, r.value);
      var j :| 0 <= j < |decls| && decls[j] == Decl(key, r'.value);
      assert decls[i].value.pos == decls[j].value.pos;
      assert i == j;
    }
  }

  /** The whole claim: with a file's declarations set in any order, over any
      number of shards, a lazy evaluation at a position gives the text that
      evaluating the earlier declarations one after another gives, and fails
      exactly when that fails or references nest too deep. */
  lemma ShardedLazyIsEager(env: Env, all: seq<Decl>, decls: seq<Decl>, val: EvalString)
    requires multiset(all) == multiset(decls) && InOrder(decls)
    requires Answers(env, all)
    ensures var lazy := Evaluate(env, val);
            var eager := EagerExpand(EagerRun(Earlier(decls, val.pos)), val);
            && (lazy.Success? <==> eager.result.Success? && eager.depth <= 256)
            && (lazy.Success? ==> lazy == eager.result)
  {
    forall pos, name ensures env(pos, name) == LastBefore(decls, pos, name) {
      LatestIsLast(all, decls, pos, name, env(pos, name));
    }
    LazyIsEager(env, decls, val);
  }
}
