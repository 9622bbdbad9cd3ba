/** The node map as a resource: a goroutine that runs alone returns, and no slab
    cell is lost. */
module NodeMapProgress {
  import opened Wrappers
  import opened NodeMap

  // ------------------------------------------------------------ running alone

  /** How many nodes of the chain lie from `r` to its end. */
  function Depth(chain: seq<Ref>, r: Option<Ref>): (d: nat)
    ensures d <= |chain|
  {
    if chain == [] then 0
    else if r == Some(chain[0]) then |chain|
    else Depth(chain[1..], r)
  }

  lemma {:induction false} DepthFromEnd(chain: seq<Ref>, d: nat)
    requires d <= |chain| && forall p, q :: 0 <= p < q < |chain| ==> chain[p] != chain[q]
    ensures Depth(chain, FromEnd(chain, d)) == d
  {
    if chain != [] && d < |chain| {
      if d > 0 {
        assert FromEnd(chain, d) == FromEnd(chain[1..], d);
        assert chain[0] != chain[|chain| - d];
      }
      DepthFromEnd(chain[1..], d);
    }
  }

  /** A bound on the steps of a goroutine up to its return. A head that the slot
      does not have any more costs another turn of the loop. */
  function Work(h: Hash, s: State, chain: seq<Ref>, th: Thread): (w: nat)
    requires |s.slots| > 0
    ensures w <= 2 * |chain| + 12
  {
    var head := s.slots[SlotOf(h, |s.slots|, th.key)];
    var again := |chain| + 7;
    match th.pc
    case Idle => 0
    case Load => |chain| + 6
    case Search(had, cur) => Depth(chain, cur) + 5 + if had == head then 0 else again
    case Ensure(had) => 4 + if had == head then 0 else again
    case Link(had) => 3 + if had == head then 0 else again
    case Swap(had) => 2 + if had == head then 0 else again
    case CountUp => 1
  }

  /** In a call there is always a next step. */
  lemma CanAct(h: Hash, s: State, chains: seq<seq<Ref>>, t: nat) returns (s': State)
    requires Inv(h, s, chains) && t < |s.threads| && s.threads[t].pc != Idle
    ensures Act(h, s, t, s')
  {
    hide IsChain, Published, Inserted, Searched, Reaches, TotalLength, Counting, DistinctKeys, SearchedBelow;
    var th := s.threads[t];
    var slot := SlotOf(h, |s.slots|, th.key);
    assert ThreadInv(h, s, chains, t) && ChainInv(h, s, slot, chains[slot]);
    match th.pc
    case Load => s' := WithThread(s, t, th.(pc := Search(s.slots[slot], s.slots[slot])));
    case Search(head, cur) =>
      WalkFacts(s.heap, chains[slot], th.key, s.slots[slot], head, cur);
      if cur == None {
        s' := WithThread(s, t, th.(pc := Ensure(head)));
      } else if s.heap[cur.value].path == th.key {
        var slab := if th.newHead.Some? then SlabUnnew(th.slab) else th.slab;
        s' := WithThread(s, t, th.(pc := Idle, newHead := None, slab := slab))
              .(returned := s.returned + {(th.key, cur.value)});
      } else {
        s' := WithThread(s, t, th.(pc := Search(head, s.heap[cur.value].next)));
      }
    case Ensure(head) =>
      if th.newHead.Some? {
        s' := WithThread(s, t, th.(pc := Link(head)));
      } else {
        var (cell, slab) := SlabNew(t, th.slab);
        var stale := if cell in s.heap then s.heap[cell].next else None;
        s' := WithThread(s, t, th.(pc := Link(head), newHead := Some(cell), slab := slab))
              .(heap := s.heap[cell := Node(th.key, stale)]);
      }
    case Link(head) =>
      s' := WithThread(s, t, th.(pc := Swap(head)))
            .(heap := s.heap[th.newHead.value := s.heap[th.newHead.value].(next := head)]);
    case Swap(head) =>
      s' := if s.slots[slot] == head
            then WithThread(s, t, th.(pc := CountUp)).(slots := s.slots[slot := th.newHead])
            else WithThread(s, t, th.(pc := Load));
    case CountUp =>
      s' := WithThread(s, t, th.(pc := Idle, newHead := None))
            .(n := s.n + 1, returned := s.returned + {(th.key, th.newHead.value)});
  }

  /** What a goroutine's own step does for its call: it gives back a node of the
      key, new in its slot or found there, or it comes nearer to that. */
  ghost predicate Nearer(h: Hash, s: State, t: nat, s': State, chain: seq<Ref>, chain': seq<Ref>)
    requires t < |s.threads| && |s'.threads| == |s.threads| && |s.slots| == |s'.slots| > 0
  {
    var th, th' := s.threads[t], s'.threads[t];
    && (th'.pc != Idle ==> th'.key == th.key && s'.returned == s.returned
                           && Work(h, s', chain', th') < Work(h, s, chain, th))
    && (th'.pc == Idle ==> exists r :: r in chain && r in s.heap && s.heap[r].path == th.key
                                       && s'.returned == s.returned + {(th.key, r)})
  }

  lemma SearchDepth(heap: map<Ref, Node>, chain: seq<Ref>, key: Key, slotHead: Option<Ref>, head: Option<Ref>,
                    cur: Option<Ref>)
    requires IsChain(heap, slotHead, chain) && DistinctKeys(heap, chain) && SearchInv(heap, chain, key, head, cur)
    ensures cur.Some? ==> cur.value in heap && Depth(chain, heap[cur.value].next) < Depth(chain, cur)
  {
    hide Depth;
    var d, e :| 0 <= e <= d <= |chain| && head == FromEnd(chain, d) && cur == FromEnd(chain, e)
                && Searched(heap, chain, key, d, e);
    assert forall p, q :: 0 <= p < q < |chain| ==> chain[p] != chain[q];
    if e > 0 {
      assert LinkAt(heap, chain, |chain| - e);
      DepthFromEnd(chain, e);
      DepthFromEnd(chain, e - 1);
    }
  }

  lemma HeadDepth(heap: map<Ref, Node>, chain: seq<Ref>, head: Option<Ref>)
    requires IsChain(heap, head, chain) && DistinctKeys(heap, chain)
    ensures Depth(chain, head) <= |chain|
  {
  }

  /** Every own step of a goroutine counts, if the chain is as it was. */
  lemma OwnStepNearer(h: Hash, s: State, chains: seq<seq<Ref>>, t: nat, s': State) returns (chains': seq<seq<Ref>>)
    requires Inv(h, s, chains) && Act(h, s, t, s')
    ensures Inv(h, s', chains') && Grown(chains, chains')
    ensures |s'.threads| == |s.threads| && |chains| == |chains'| == |s.slots| == |s'.slots|
    ensures var slot := SlotOf(h, |s.slots|, s.threads[t].key);
            && chains' == (if Swaps(h, s, t) then chains[slot := [s.threads[t].newHead.value] + chains[slot]]
                           else chains)
            && Nearer(h, s, t, s', chains[slot], chains'[slot])
  {
    hide IsChain, Published, Inserted, Searched, Reaches, TotalLength, Counting, DistinctKeys, SearchedBelow, SearchInv,
      SlotOf, Nearer, Grown;
    chains' := ActKeepsInv(h, s, chains, t, s');
    var th := s.threads[t];
    var slot := SlotOf(h, |s.slots|, th.key);
    assert ThreadInv(h, s, chains, t) && ChainInv(h, s, slot, chains[slot]);
    if th.pc.Search? {
      WalkFacts(s.heap, chains[slot], th.key, s.slots[slot], th.pc.head, th.pc.cur);
      SearchDepth(s.heap, chains[slot], th.key, s.slots[slot], th.pc.head, th.pc.cur);
    }
    StepNearer(h, s, chains[slot], t, s', chains'[slot]);
  }

  /** What the invariant says of a goroutine and the chain of its slot. */
  predicate KnowsWay(s: State, chain: seq<Ref>, th: Thread) {
    && (th.pc.Search? && th.pc.cur.Some? ==>
          var cur := th.pc.cur.value;
          cur in s.heap && cur in chain && Depth(chain, s.heap[cur].next) < Depth(chain, Some(cur)))
    && (th.pc == CountUp || th.pc.Swap? ==> th.newHead.Some?)
    && (th.pc == CountUp ==>
          var r := th.newHead.value;
          r in chain && r in s.heap && s.heap[r].path == th.key)
  }

  lemma StepNearer(h: Hash, s: State, chain: seq<Ref>, t: nat, s': State, chain': seq<Ref>)
    requires Act(h, s, t, s') && (Swaps(h, s, t) || chain' == chain)
    requires KnowsWay(s, chain, s.threads[t])
    ensures |s'.threads| == |s.threads| && |s'.slots| == |s.slots| > 0
    ensures Nearer(h, s, t, s', chain, chain')
  {
    hide Depth, SlotOf;
    var th, th' := s.threads[t], s'.threads[t];
    if th'.pc != Idle {
      assert th'.key == th.key && s'.returned == s.returned;
    }
  }

  /** From state `j` to `k` only goroutine `t` goes on, and it is in a call. */
  ghost predicate Alone(h: Hash, run: seq<State>, j: nat, k: nat, t: nat) {
    && j <= k < |run|
    && (forall m :: j <= m < k ==> Act(h, run[m], t, run[m + 1]))
    && (forall m :: j <= m <= k ==> t < |run[m].threads| && run[m].threads[t].pc != Idle)
  }

  lemma {:induction false} AloneWorks(h: Hash, run: seq<State>, j: nat, k: nat, t: nat, chains: seq<seq<Ref>>)
    returns (chains': seq<seq<Ref>>)
    requires Alone(h, run, j, k, t) && Inv(h, run[j], chains)
    ensures Inv(h, run[k], chains') && |run[k].slots| == |run[j].slots| > 0
    ensures |chains| == |chains'| == |run[j].slots|
    ensures var th, th' := run[j].threads[t], run[k].threads[t];
            var slot := SlotOf(h, |run[j].slots|, th.key);
            th'.key == th.key
            && k - j + Work(h, run[k], chains'[slot], th') <= Work(h, run[j], chains[slot], th)
    decreases k
  {
    hide SlotOf, Work, Act;
    assert |chains| == |run[j].slots| > 0;
    if j == k {
      chains' := chains;
    } else {
      hide Inv;
      var last := k - 1;
      var before := AloneWorks(h, run, j, last, t, chains);
      assert Act(h, run[last], t, run[last + 1]);
      chains' := OwnStepNearer(h, run[last], before, t, run[k]);
    }
  }

  /** A goroutine that runs alone returns, however far it was: it takes no more
      than two steps for each node of its chain, and twelve. */
  lemma AloneReturns(h: Hash, run: seq<State>, j: nat, k: nat, t: nat) returns (chain: seq<Ref>)
    requires Run(h, run) && Alone(h, run, j, k, t)
    ensures |run[j].slots| > 0
    ensures IsChain(run[j].heap, run[j].slots[SlotOf(h, |run[j].slots|, run[j].threads[t].key)], chain)
    ensures k - j <= 2 * |chain| + 12
  {
    hide IsChain, Alone, Act;
    assert k < |run| && j <= k by { AloneInRun(h, run, j, k, t); }
    var chains := RunInv(h, run, j);
    var _ := AloneWorks(h, run, j, k, t, chains);
    assert t < |run[j].threads| by { AloneInRun(h, run, j, k, t); }
    var slot := SlotOf(h, |run[j].slots|, run[j].threads[t].key);
    chain := chains[slot];
    assert ChainInv(h, run[j], slot, chain);
  }

  lemma AloneInRun(h: Hash, run: seq<State>, j: nat, k: nat, t: nat)
    requires Alone(h, run, j, k, t)
    ensures j <= k < |run| && t < |run[j].threads|
  {
  }

  // ------------------------------------------------------------ slab cells

  /** The cell is on a chain, or it is the new head a goroutine still holds. */
  ghost predicate InUse(s: State, chains: seq<seq<Ref>>, r: Ref)
  {
    || (exists i :: 0 <= i < |chains| && r in chains[i])
    || (r.tid < |s.threads| && s.threads[r.tid].newHead == Some(r))
  }

  /** A cell of goroutine `r.tid` that its slab handed out since its allocation
      number `from`, and has not taken back. */
  predicate Out(th: Thread, from: nat, r: Ref) {
    from <= r.gen && r.idx < th.slab.size && HandedOut(th.slab, r)
  }

  /** No such cell of goroutine `t` is lost, and its new head lies in the slab. */
  ghost predicate Keeps(s: State, chains: seq<seq<Ref>>, from: seq<nat>, t: nat)
    requires t < |s.threads| == |from|
  {
    && (forall g, i :: Out(s.threads[t], from[t], Cell(t, g, i)) ==> InUse(s, chains, Cell(t, g, i)))
    && (s.threads[t].newHead.Some? ==> s.threads[t].newHead.value.idx < s.threads[t].slab.size)
  }

  ghost predicate NoneLost(s: State, chains: seq<seq<Ref>>, from: seq<nat>) {
    && |from| == |s.threads|
    && forall t :: 0 <= t < |s.threads| ==> Keeps(s, chains, from, t)
  }

  /** A goroutine's cells do not depend on the others' steps. */
  lemma OtherKeeps(s: State, chains: seq<seq<Ref>>, from: seq<nat>, t: nat, s': State, chains': seq<seq<Ref>>)
    requires t < |s.threads| == |from| == |s'.threads| && s'.threads[t] == s.threads[t]
    requires Keeps(s, chains, from, t) && Grown(chains, chains')
    ensures Keeps(s', chains', from, t)
  {
    hide Out;
    forall g, i | Out(s'.threads[t], from[t], Cell(t, g, i))
      ensures InUse(s', chains', Cell(t, g, i))
    {
      assert InUse(s, chains, Cell(t, g, i));
      StillInUse(chains, chains', Cell(t, g, i));
    }
  }

  lemma StillInUse(chains: seq<seq<Ref>>, chains': seq<seq<Ref>>, r: Ref)
    requires Grown(chains, chains')
    ensures (exists i :: 0 <= i < |chains| && r in chains[i]) ==> exists i :: 0 <= i < |chains'| && r in chains'[i]
  {
    if i :| 0 <= i < |chains| && r in chains[i] {
      var d := |chains'[i]| - |chains[i]|;
      assert r in chains'[i][d..];
    }
  }

  /** Its own step hands out a cell, takes back one, or publishes the new head. */
  lemma OwnKeeps(h: Hash, s: State, chains: seq<seq<Ref>>, from: seq<nat>, t: nat, s': State, chains': seq<seq<Ref>>)
    requires Inv(h, s, chains) && Act(h, s, t, s') && Grown(chains, chains') && |from| == |s.threads|
    requires Swaps(h, s, t) ==> exists i :: 0 <= i < |chains'| && s.threads[t].newHead.value in chains'[i]
    requires Keeps(s, chains, from, t)
    ensures |s'.threads| == |s.threads| && Keeps(s', chains', from, t)
  {
    hide SlotOf, IsChain, Published, Inserted, Searched, Reaches, TotalLength, Counting, DistinctKeys, SearchedBelow,
      SearchInv, ChainInv, Grown;
    assert ThreadInv(h, s, chains, t);
    var th, th' := s.threads[t], s'.threads[t];
    forall g, i | Out(th', from[t], Cell(t, g, i))
      ensures InUse(s', chains', Cell(t, g, i))
    {
      var r := Cell(t, g, i);
      StillInUse(chains, chains', r);
      assert Out(th, from[t], r) ==> InUse(s, chains, r);
    }
  }

  /** Where the slabs were at the start. */
  function StartGens(s: State): (from: seq<nat>)
    ensures |from| == |s.threads|
  {
    seq(|s.threads|, t requires 0 <= t < |s.threads| => s.threads[t].slab.gen)
  }

  lemma {:induction false} RunKeeps(h: Hash, run: seq<State>, k: nat) returns (chains: seq<seq<Ref>>)
    requires Run(h, run) && k < |run|
    ensures Inv(h, run[k], chains) && NoneLost(run[k], chains, StartGens(run[0]))
  {
    hide Inv, Act, Call, Keeps;
    if k == 0 {
      InitInv(h, run[0]);
      chains := seq(|run[0].slots|, _ => []);
      StartKeeps(run[0], chains);
    } else {
      var last := k - 1;
      var before := RunKeeps(h, run, last);
      assert Next(h, run[last], run[last + 1]);
      var s, s', from := run[last], run[k], StartGens(run[0]);
      if t: nat, key :| Call(s, t, key, s') {
        CallKeepsInv(h, s, before, t, key, s');
        chains := before;
        CallKeeps(h, s, chains, from, t, key, s');
      } else {
        var t: nat :| Act(h, s, t, s');
        chains := ActKeepsInv(h, s, before, t, s');
        ActKeeps(h, s, before, from, t, s', chains);
      }
    }
  }

  lemma StartKeeps(s: State, chains: seq<seq<Ref>>)
    requires Init(s)
    ensures NoneLost(s, chains, StartGens(s))
  {
  }

  lemma CallKeeps(h: Hash, s: State, chains: seq<seq<Ref>>, from: seq<nat>, t: nat, key: Key, s': State)
    requires Inv(h, s, chains) && Call(s, t, key, s') && NoneLost(s, chains, from)
    ensures NoneLost(s', chains, from)
  {
    hide ChainInv, Published, Inserted, Reaches, TotalLength, Counting, InUse, Grown;
    assert ThreadInv(h, s, chains, t);
    GrownItself(chains);
    forall u | 0 <= u < |s'.threads|
      ensures Keeps(s', chains, from, u)
    {
      assert Keeps(s, chains, from, u);
      if u != t {
        OtherKeeps(s, chains, from, u, s', chains);
      } else {
        CallerKeeps(s, chains, from, t, s');
      }
    }
  }

  lemma CallerKeeps(s: State, chains: seq<seq<Ref>>, from: seq<nat>, t: nat, s': State)
    requires t < |s.threads| == |from| == |s'.threads| && Keeps(s, chains, from, t)
    requires s.threads[t].newHead == None == s'.threads[t].newHead && s'.threads[t].slab == s.threads[t].slab
    ensures Keeps(s', chains, from, t)
  {
    forall g, i | Out(s'.threads[t], from[t], Cell(t, g, i))
      ensures InUse(s', chains, Cell(t, g, i))
    {
      assert InUse(s, chains, Cell(t, g, i));
    }
  }

  lemma OneChainASlot(h: Hash, s: State, chains: seq<seq<Ref>>)
    requires Inv(h, s, chains)
    ensures |chains| == |s.slots| > 0
  {
  }

  lemma ActKeeps(h: Hash, s: State, chains: seq<seq<Ref>>, from: seq<nat>, t: nat, s': State, chains': seq<seq<Ref>>)
    requires Inv(h, s, chains) && Act(h, s, t, s') && NoneLost(s, chains, from) && Grown(chains, chains')
    requires var slot := SlotOf(h, |s.slots|, s.threads[t].key);
             chains' == if Swaps(h, s, t) then chains[slot := [s.threads[t].newHead.value] + chains[slot]]
                        else chains
    ensures NoneLost(s', chains', from)
  {
    hide Inv, Keeps, SlotOf, Grown;
    assert Keeps(s, chains, from, t);
    OneChainASlot(h, s, chains);
    if Swaps(h, s, t) {
      assert s.threads[t].newHead.value in chains'[SlotOf(h, |s.slots|, s.threads[t].key)];
    }
    OwnKeeps(h, s, chains, from, t, s', chains');
    forall u | 0 <= u < |s'.threads|
      ensures Keeps(s', chains', from, u)
    {
      if u != t {
        assert Keeps(s, chains, from, u);
        OtherKeeps(s, chains, from, u, s', chains');
      }
    }
  }

  /** When no call is under way, the cells the slabs have handed out are exactly
      those on the chains: none is lost, and each lies in its slab. */
  lemma NoCellLost(h: Hash, run: seq<State>, k: nat, r: Ref) returns (chains: seq<seq<Ref>>)
    requires Run(h, run) && k < |run| && Quiescent(run[k])
    requires r.tid < |run[k].threads| == |run[0].threads| && run[0].threads[r.tid].slab.gen <= r.gen
    requires r.idx < run[k].threads[r.tid].slab.size
    ensures Inv(h, run[k], chains)
    ensures HandedOut(run[k].threads[r.tid].slab, r) <==> exists i :: 0 <= i < |chains| && r in chains[i]
  {
    hide ChainInv, Inserted, Reaches, TotalLength, Counting;
    chains := RunKeeps(h, run, k);
    var s, t := run[k], r.tid;
    assert ThreadInv(h, s, chains, t) && Keeps(s, chains, StartGens(run[0]), t);
    assert r == Cell(t, r.gen, r.idx);
    assert forall i :: 0 <= i < |chains| ==> Published(s, chains[i]);
    if HandedOut(s.threads[t].slab, r) {
      assert Out(s.threads[t], StartGens(run[0])[t], r);
      assert InUse(s, chains, Cell(t, r.gen, r.idx));
    }
  }
}
