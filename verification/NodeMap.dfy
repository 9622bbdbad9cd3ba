/** The lock-free node map: any number of goroutines insert into hash chains
    with compare-and-swap, each allocating from a slab of its own. */
module NodeMap {
  import opened Wrappers

  type Key = string

  /** A slab cell: whose slab, which of its allocations, which element. */
  datatype Ref = Cell(tid: nat, gen: nat, idx: nat)

  datatype Node = Node(path: Key, next: Option<Ref>)

  datatype Slab = Slab(gen: nat, size: nat, next: nat)

  /** Where a goroutine is inside `nodeMap.node`. */
  datatype Pc =
    | Idle
    | Load
    | Search(head: Option<Ref>, cur: Option<Ref>)
    | Ensure(head: Option<Ref>)  // newHead = lm.new(key), unless it has one
    | Link(head: Option<Ref>)  // newHead.next = head
    | Swap(head: Option<Ref>)  // slot.CompareAndSwap(head, newHead)
    | CountUp  // nm.n.Add(1), then return newHead

  datatype Thread = Thread(pc: Pc, key: Key, newHead: Option<Ref>, slab: Slab)

  /** `returned` remembers which node each finished call gave for its key. */
  datatype State = State(slots: seq<Option<Ref>>, heap: map<Ref, Node>, threads: seq<Thread>, n: nat,
                         returned: set<(Key, Ref)>)

  type Hash = Key -> nat

  /** `h & (nodeMapArraySize-1)`, for any positive number of slots. */
  function SlotOf(h: Hash, slots: nat, key: Key): (i: nat)
    requires slots > 0
    ensures i < slots
  {
    h(key) % slots
  }

  // -------------------------------------------------------------------- slab

  /** `slab.new`: the cell handed out, and the slab after it. */
  function SlabNew(tid: nat, s: Slab): (r: (Ref, Slab)) {
    if s.next >= s.size then (Cell(tid, s.gen + 1, 0), Slab(s.gen + 1, s.size, 1))
    else (Cell(tid, s.gen, s.next), s.(next := s.next + 1))
  }

  /** `slab.unnew`. */
  function SlabUnnew(s: Slab): Slab {
    if s.next == 0 then s else s.(next := s.next - 1)
  }

  /** Has the slab handed this cell out and not taken it back? */
  predicate HandedOut(s: Slab, r: Ref) {
    r.gen < s.gen || (r.gen == s.gen && r.idx < s.next)
  }

  // ------------------------------------------------------------------- steps

  ghost predicate Init(s: State) {
    && |s.slots| > 0
    && (forall i :: 0 <= i < |s.slots| ==> s.slots[i] == None)
    && s.heap == map[] && s.n == 0 && s.returned == {}
    && forall t :: 0 <= t < |s.threads| ==>
         s.threads[t].pc == Idle && s.threads[t].newHead == None && s.threads[t].slab.next == 0
         && s.threads[t].slab.size > 0
  }

  function WithThread(s: State, t: nat, th: Thread): State
    requires t < |s.threads|
  {
    s.(threads := s.threads[t := th])
  }

  /** Goroutine `t` calls `node(key)`. */
  ghost predicate Call(s: State, t: nat, key: Key, s': State) {
    && t < |s.threads| && s.threads[t].pc == Idle
    && s' == WithThread(s, t, s.threads[t].(pc := Load, key := key, newHead := None))
  }

  /** Goroutine `t`, inside a call, takes its next step. */
  ghost predicate Act(h: Hash, s: State, t: nat, s': State) {
    && t < |s.threads| && |s.slots| > 0
    && var th := s.threads[t];
       var slot := SlotOf(h, |s.slots|, th.key);
       match th.pc
       case Idle => false
       case Load => s' == WithThread(s, t, th.(pc := Search(s.slots[slot], s.slots[slot])))
       case Search(head, cur) =>
         if cur == None then s' == WithThread(s, t, th.(pc := Ensure(head)))
         else
           && cur.value in s.heap
           && if s.heap[cur.value].path == th.key then
                var slab := if th.newHead.Some? then SlabUnnew(th.slab) else th.slab;
                s' == WithThread(s, t, th.(pc := Idle, newHead := None, slab := slab))
                      .(returned := s.returned + {(th.key, cur.value)})
              else s' == WithThread(s, t, th.(pc := Search(head, s.heap[cur.value].next)))
       case Ensure(head) =>
         if th.newHead.Some? then s' == WithThread(s, t, th.(pc := Link(head)))
         else
           var (cell, slab) := SlabNew(t, th.slab);
           var stale := if cell in s.heap then s.heap[cell].next else None;
           s' == WithThread(s, t, th.(pc := Link(head), newHead := Some(cell), slab := slab))
                 .(heap := s.heap[cell := Node(th.key, stale)])
       case Link(head) =>
         && th.newHead.Some? && th.newHead.value in s.heap
         && s' == WithThread(s, t, th.(pc := Swap(head)))
                  .(heap := s.heap[th.newHead.value := s.heap[th.newHead.value].(next := head)])
       case Swap(head) =>
         if s.slots[slot] == head then
           s' == WithThread(s, t, th.(pc := CountUp)).(slots := s.slots[slot := th.newHead])
         else s' == WithThread(s, t, th.(pc := Load))
       case CountUp =>
         && th.newHead.Some?
         && s' == WithThread(s, t, th.(pc := Idle, newHead := None))
                  .(n := s.n + 1, returned := s.returned + {(th.key, th.newHead.value)})
  }

  ghost predicate Next(h: Hash, s: State, s': State) {
    || (exists t: nat, key :: Call(s, t, key, s'))
    || (exists t: nat :: Act(h, s, t, s'))
  }

  ghost predicate Run(h: Hash, run: seq<State>) {
    && run != [] && Init(run[0])
    && forall k :: 0 <= k < |run| - 1 ==> Next(h, run[k], run[k + 1])
  }

  // --------------------------------------------------------------- invariant

  /** The element `d` places before the end of the chain; none at its end. */
  function FromEnd(chain: seq<Ref>, d: nat): Option<Ref>
    requires d <= |chain|
  {
    if d == 0 then None else Some(chain[|chain| - d])
  }

  /** Following `next` from `head` visits exactly `chain` and stops. */
  ghost predicate IsChain(heap: map<Ref, Node>, head: Option<Ref>, chain: seq<Ref>) {
    && head == FromEnd(chain, |chain|)
    && forall q :: 0 <= q < |chain| ==> LinkAt(heap, chain, q)
  }

  ghost predicate LinkAt(heap: map<Ref, Node>, chain: seq<Ref>, q: nat)
    requires q < |chain|
  {
    chain[q] in heap && heap[chain[q]].next == FromEnd(chain, |chain| - q - 1)
  }

  ghost predicate DistinctKeys(heap: map<Ref, Node>, chain: seq<Ref>) {
    && (forall q :: 0 <= q < |chain| ==> chain[q] in heap)
    && forall p, q :: 0 <= p < q < |chain| ==> heap[chain[p]].path != heap[chain[q]].path
  }

  /** The chain of slot `i`, all of whose keys hash there. */
  ghost predicate ChainInv(h: Hash, s: State, i: nat, chain: seq<Ref>)
    requires i < |s.slots|
  {
    && IsChain(s.heap, s.slots[i], chain)
    && DistinctKeys(s.heap, chain)
    && forall q :: 0 <= q < |chain| ==> SlotOf(h, |s.slots|, s.heap[chain[q]].path) == i
  }

  /** Published cells were handed out by their slab, and are not a pending new
      head. */
  ghost predicate Published(s: State, chain: seq<Ref>) {
    forall q :: 0 <= q < |chain| ==>
      && chain[q].tid < |s.threads|
      && var th := s.threads[chain[q].tid];
         && HandedOut(th.slab, chain[q])
         && (th.newHead == Some(chain[q]) ==> th.pc == CountUp)
  }

  /** From `from` down to `to` places before the end, no key is `key`. */
  ghost predicate Searched(heap: map<Ref, Node>, chain: seq<Ref>, key: Key, from: nat, to: nat) {
    && to <= from <= |chain|
    && forall q :: |chain| - from <= q < |chain| - to ==> chain[q] in heap && heap[chain[q]].path != key
  }

  /** `head` was the slot's head at some time, and all below it was searched. */
  ghost predicate SearchedBelow(heap: map<Ref, Node>, chain: seq<Ref>, key: Key, head: Option<Ref>) {
    exists d :: 0 <= d <= |chain| && head == FromEnd(chain, d) && Searched(heap, chain, key, d, 0)
  }

  ghost predicate SearchInv(heap: map<Ref, Node>, chain: seq<Ref>, key: Key, head: Option<Ref>, cur: Option<Ref>) {
    exists d, e :: 0 <= e <= d <= |chain| && head == FromEnd(chain, d) && cur == FromEnd(chain, e)
                   && Searched(heap, chain, key, d, e)
  }

  ghost predicate ThreadInv(h: Hash, s: State, chains: seq<seq<Ref>>, t: nat)
    requires t < |s.threads| && |chains| == |s.slots| > 0
  {
    var th := s.threads[t];
    var chain := chains[SlotOf(h, |s.slots|, th.key)];
    && th.slab.size > 0
    && (th.newHead.Some? ==>
          && th.slab.next > 0
          && th.newHead.value == Cell(t, th.slab.gen, th.slab.next - 1)
          && th.newHead.value in s.heap && s.heap[th.newHead.value].path == th.key)
    && match th.pc
       case Idle => th.newHead == None
       case Load => true
       case Search(head, cur) => SearchInv(s.heap, chain, th.key, head, cur)
       case Ensure(head) => SearchedBelow(s.heap, chain, th.key, head)
       case Link(head) => th.newHead.Some? && SearchedBelow(s.heap, chain, th.key, head)
       case Swap(head) =>
         th.newHead.Some? && s.heap[th.newHead.value].next == head && SearchedBelow(s.heap, chain, th.key, head)
       case CountUp => th.newHead.Some? && th.newHead.value in chain
  }

  ghost predicate Reaches(h: Hash, s: State, chains: seq<seq<Ref>>, key: Key, r: Ref)
    requires |chains| == |s.slots| > 0
  {
    r in chains[SlotOf(h, |s.slots|, key)] && r in s.heap && s.heap[r].path == key
  }

  function TotalLength(chains: seq<seq<Ref>>): nat {
    if chains == [] then 0 else TotalLength(chains[..|chains| - 1]) + |chains[|chains| - 1]|
  }

  function Counting(threads: seq<Thread>): nat {
    if threads == [] then 0
    else Counting(threads[..|threads| - 1]) + if threads[|threads| - 1].pc == CountUp then 1 else 0
  }

  /** Each inserted node has been returned, or is about to be. */
  ghost predicate Inserted(s: State, chain: seq<Ref>) {
    forall q :: 0 <= q < |chain| ==>
      && chain[q] in s.heap
      && ((s.heap[chain[q]].path, chain[q]) in s.returned
          || exists t :: 0 <= t < |s.threads| && s.threads[t].pc == CountUp && s.threads[t].newHead == Some(chain[q]))
  }

  ghost predicate Inv(h: Hash, s: State, chains: seq<seq<Ref>>) {
    && |chains| == |s.slots| > 0
    && (forall i :: 0 <= i < |s.slots| ==>
          ChainInv(h, s, i, chains[i]) && Published(s, chains[i]) && Inserted(s, chains[i]))
    && (forall t :: 0 <= t < |s.threads| ==> ThreadInv(h, s, chains, t))
    && (forall key, r :: (key, r) in s.returned ==> Reaches(h, s, chains, key, r))
    && TotalLength(chains) == s.n + Counting(s.threads)
  }

  // -------------------------------------------------------------- preservation

  lemma {:induction false} LengthUpdate(chains: seq<seq<Ref>>, i: nat, r: Ref)
    requires i < |chains|
    ensures TotalLength(chains[i := [r] + chains[i]]) == TotalLength(chains) + 1
  {
    var more := chains[i := [r] + chains[i]];
    var n := |chains| - 1;
    if i < n {
      LengthUpdate(chains[..n], i, r);
      assert more[..n] == chains[..n][i := [r] + chains[..n][i]];
    } else {
      assert more[..n] == chains[..n];
    }
  }

  lemma {:induction false} CountingUpdate(threads: seq<Thread>, t: nat, th: Thread)
    requires t < |threads|
    ensures Counting(threads[t := th]) ==
            Counting(threads) - (if threads[t].pc == CountUp then 1 else 0) + (if th.pc == CountUp then 1 else 0)
  {
    var more := threads[t := th];
    var n := |threads| - 1;
    if t < n {
      CountingUpdate(threads[..n], t, th);
      assert more[..n] == threads[..n][t := th];
    } else {
      assert more[..n] == threads[..n];
    }
  }

  lemma {:induction false} NoLength(chains: seq<seq<Ref>>)
    requires forall i :: 0 <= i < |chains| ==> chains[i] == []
    ensures TotalLength(chains) == 0
  {
    if chains != [] {
      NoLength(chains[..|chains| - 1]);
    }
  }

  lemma {:induction false} NoCounting(threads: seq<Thread>)
    requires forall t :: 0 <= t < |threads| ==> threads[t].pc == Idle
    ensures Counting(threads) == 0
  {
    if threads != [] {
      NoCounting(threads[..|threads| - 1]);
    }
  }

  lemma InitInv(h: Hash, s: State)
    requires Init(s)
    ensures Inv(h, s, seq(|s.slots|, _ => []))
  {
    var chains: seq<seq<Ref>> := seq(|s.slots|, _ => []);
    NoLength(chains);
    NoCounting(s.threads);
  }

  /** A cell outside every chain. */
  ghost predicate Private(chains: seq<seq<Ref>>, r: Ref) {
    forall i :: 0 <= i < |chains| ==> r !in chains[i]
  }

  /** A pending new head is private, and so is the cell a slab hands out next. */
  lemma PendingPrivate(h: Hash, s: State, chains: seq<seq<Ref>>, t: nat)
    requires Inv(h, s, chains) && t < |s.threads|
    ensures s.threads[t].newHead.Some? && s.threads[t].pc != CountUp ==> Private(chains, s.threads[t].newHead.value)
    ensures s.threads[t].newHead == None ==> Private(chains, SlabNew(t, s.threads[t].slab).0)
  {
    hide ChainInv, Inserted, Reaches, SearchInv, SearchedBelow;
    var th := s.threads[t];
    assert ThreadInv(h, s, chains, t);
    forall i | 0 <= i < |chains|
      ensures th.newHead.Some? && th.pc != CountUp ==> th.newHead.value !in chains[i]
      ensures th.newHead == None ==> SlabNew(t, th.slab).0 !in chains[i]
    {
      assert Published(s, chains[i]);
    }
  }

  /** Writing a private cell disturbs no chain and no search. */
  lemma {:induction false} PrivateWrite(h: Hash, s: State, chains: seq<seq<Ref>>, r: Ref, node: Node,
          heap': map<Ref, Node>)
    requires |chains| == |s.slots| > 0 && Private(chains, r) && heap' == s.heap[r := node]
    requires forall i :: 0 <= i < |s.slots| ==> ChainInv(h, s, i, chains[i])
    ensures forall i :: 0 <= i < |s.slots| ==> ChainInv(h, s.(heap := heap'), i, chains[i])
    ensures forall i, key, head, cur :: 0 <= i < |chains| && SearchInv(s.heap, chains[i], key, head, cur) ==>
              SearchInv(heap', chains[i], key, head, cur)
    ensures forall i, key, head :: 0 <= i < |chains| && SearchedBelow(s.heap, chains[i], key, head) ==>
              SearchedBelow(heap', chains[i], key, head)
  {
    forall i | 0 <= i < |chains|
      ensures forall q :: 0 <= q < |chains[i]| ==>
                chains[i][q] in s.heap && chains[i][q] in heap' && heap'[chains[i][q]] == s.heap[chains[i][q]]
      ensures IsChain(heap', s.slots[i], chains[i])
    {
      assert ChainInv(h, s, i, chains[i]);
      assert forall q :: 0 <= q < |chains[i]| ==> chains[i][q] in chains[i];
      forall q | 0 <= q < |chains[i]| ensures LinkAt(heap', chains[i], q) {
        assert LinkAt(s.heap, chains[i], q);
      }
    }
    forall i, key, head, cur | 0 <= i < |chains| && SearchInv(s.heap, chains[i], key, head, cur)
      ensures SearchInv(heap', chains[i], key, head, cur)
    {
      var d, e :| 0 <= e <= d <= |chains[i]| && head == FromEnd(chains[i], d) && cur == FromEnd(chains[i], e)
                  && Searched(s.heap, chains[i], key, d, e);
      assert Searched(heap', chains[i], key, d, e);
    }
    forall i, key, head | 0 <= i < |chains| && SearchedBelow(s.heap, chains[i], key, head)
      ensures SearchedBelow(heap', chains[i], key, head)
    {
      var d :| 0 <= d <= |chains[i]| && head == FromEnd(chains[i], d) && Searched(s.heap, chains[i], key, d, 0);
      assert Searched(heap', chains[i], key, d, 0);
    }
  }

  /** A step that changes only goroutine `t`, its slab and the answers. */
  lemma {:induction false} LocalStep(h: Hash, s: State, chains: seq<seq<Ref>>, t: nat, th: Thread,
          returned: set<(Key, Ref)>)
    requires Inv(h, s, chains) && t < |s.threads|
    requires s.threads[t].pc != CountUp && th.pc != CountUp
    requires th.slab == s.threads[t].slab
             || (th.slab == SlabUnnew(s.threads[t].slab) && s.threads[t].newHead.Some? && th.newHead == None)
    requires th.newHead == None || th.newHead == s.threads[t].newHead
    requires var s' := WithThread(s, t, th).(returned := returned); ThreadInv(h, s', chains, t)
    requires s.returned <= returned
    requires forall key, r :: (key, r) in returned ==> Reaches(h, s, chains, key, r)
    ensures Inv(h, WithThread(s, t, th).(returned := returned), chains)
  {
    hide IsChain, DistinctKeys, SearchInv, SearchedBelow, SlotOf;
    var s' := WithThread(s, t, th).(returned := returned);
    CountingUpdate(s.threads, t, th);
    forall i | 0 <= i < |s.slots|
      ensures ChainInv(h, s', i, chains[i]) && Published(s', chains[i]) && Inserted(s', chains[i])
    {
      assert ChainInv(h, s, i, chains[i]) && Published(s, chains[i]) && Inserted(s, chains[i]);
      LocalPublished(h, s, chains, t, th, returned, i);
      LocalInserted(s, chains[i], t, th, returned);
    }
    forall u | 0 <= u < |s'.threads| ensures ThreadInv(h, s', chains, u) {
      assert ThreadInv(h, s, chains, u);
    }
  }

  lemma {:induction false} LocalPublished(h: Hash, s: State, chains: seq<seq<Ref>>, t: nat, th: Thread,
          returned: set<(Key, Ref)>, i: nat)
    requires Inv(h, s, chains) && t < |s.threads| && i < |chains|
    requires s.threads[t].pc != CountUp && th.pc != CountUp
    requires th.slab == s.threads[t].slab
             || (th.slab == SlabUnnew(s.threads[t].slab) && s.threads[t].newHead.Some? && th.newHead == None)
    requires th.newHead == None || th.newHead == s.threads[t].newHead
    ensures Published(WithThread(s, t, th).(returned := returned), chains[i])
  {
    hide ChainInv, Inserted, Reaches, SearchInv, SearchedBelow, SlotOf;
    assert Published(s, chains[i]) && ThreadInv(h, s, chains, t);
  }

  lemma LocalInserted(s: State, chain: seq<Ref>, t: nat, th: Thread, returned: set<(Key, Ref)>)
    requires t < |s.threads| && Inserted(s, chain) && s.returned <= returned
    requires s.threads[t].pc != CountUp
    ensures Inserted(WithThread(s, t, th).(returned := returned), chain)
  {
    var s' := WithThread(s, t, th).(returned := returned);
    forall q | 0 <= q < |chain|
      ensures (s.heap[chain[q]].path, chain[q]) in s'.returned
              || exists u :: 0 <= u < |s'.threads| && s'.threads[u].pc == CountUp
                   && s'.threads[u].newHead == Some(chain[q])
    {
      if (s.heap[chain[q]].path, chain[q]) !in s.returned {
        var u :| 0 <= u < |s.threads| && s.threads[u].pc == CountUp && s.threads[u].newHead == Some(chain[q]);
        assert s'.threads[u] == s.threads[u];
      }
    }
  }

  /** A step that also writes a private cell of goroutine `t`. */
  lemma {:induction false} WriteStep(h: Hash, s: State, chains: seq<seq<Ref>>, t: nat, th: Thread, r: Ref, node: Node)
    requires Inv(h, s, chains) && t < |s.threads| && Private(chains, r) && r.tid == t
    requires s.threads[t].pc != CountUp && th.pc != CountUp
    requires th.newHead == Some(r)
    requires (th.slab == s.threads[t].slab && s.threads[t].newHead == Some(r))
             || (s.threads[t].newHead == None && SlabNew(t, s.threads[t].slab) == (r, th.slab))
    requires var s' := WithThread(s, t, th).(heap := s.heap[r := node]); ThreadInv(h, s', chains, t)
    ensures Inv(h, WithThread(s, t, th).(heap := s.heap[r := node]), chains)
  {
    hide IsChain, DistinctKeys, SearchInv, SearchedBelow, SlotOf, Searched;
    var heap' := s.heap[r := node];
    var s' := WithThread(s, t, th).(heap := heap');
    CountingUpdate(s.threads, t, th);
    PrivateWrite(h, s, chains, r, node, heap');
    forall i | 0 <= i < |s.slots|
      ensures ChainInv(h, s', i, chains[i]) && Published(s', chains[i]) && Inserted(s', chains[i])
    {
      assert ChainInv(h, s.(heap := heap'), i, chains[i]);
      assert Published(s, chains[i]) && Inserted(s, chains[i]) && r !in chains[i];
      WritePublished(s, chains[i], t, th, r, heap');
      WriteInserted(s, chains[i], t, th, r, heap');
    }
    forall u | 0 <= u < |s'.threads| ensures ThreadInv(h, s', chains, u) {
      assert ThreadInv(h, s, chains, u);
    }
    forall key, k | (key, k) in s'.returned ensures Reaches(h, s', chains, key, k) {
      assert Reaches(h, s, chains, key, k);
      var i := SlotOf(h, |s.slots|, key);
      assert r !in chains[i];
    }
  }

  lemma {:induction false} WritePublished(s: State, chain: seq<Ref>, t: nat, th: Thread, r: Ref, heap': map<Ref, Node>)
    requires t < |s.threads| && Published(s, chain) && r !in chain && th.newHead == Some(r)
    requires th.slab == s.threads[t].slab || SlabNew(t, s.threads[t].slab) == (r, th.slab)
    ensures Published(WithThread(s, t, th).(heap := heap'), chain)
  {
    forall q | 0 <= q < |chain| ensures chain[q] != r {
      assert chain[q] in chain;
    }
  }

  lemma {:induction false} WriteInserted(s: State, chain: seq<Ref>, t: nat, th: Thread, r: Ref, heap': map<Ref, Node>)
    requires t < |s.threads| && Inserted(s, chain) && r !in chain && s.threads[t].pc != CountUp
    requires forall k :: k in s.heap && k != r ==> k in heap' && heap'[k] == s.heap[k]
    ensures Inserted(WithThread(s, t, th).(heap := heap'), chain)
  {
    LocalInserted(s, chain, t, th, s.returned);
    forall q | 0 <= q < |chain| ensures chain[q] in heap' && heap'[chain[q]] == s.heap[chain[q]] {
      assert chain[q] in chain;
    }
  }

  /** A search that saw a whole suffix saw all of the chain if the head has not
      moved since. */
  lemma HeadUnmoved(heap: map<Ref, Node>, chain: seq<Ref>, key: Key, head: Option<Ref>)
    requires IsChain(heap, head, chain) && DistinctKeys(heap, chain)
    requires SearchedBelow(heap, chain, key, head)
    ensures forall q :: 0 <= q < |chain| ==> chain[q] in heap && heap[chain[q]].path != key
  {
    var d :| 0 <= d <= |chain| && head == FromEnd(chain, d) && Searched(heap, chain, key, d, 0);
    assert d > 0 ==> chain[|chain| - d] in chain;
  }

  /** Prepending the new head to its chain. */
  lemma {:induction false} PrependChain(h: Hash, s: State, i: nat, chain: seq<Ref>, r: Ref, s': State)
    requires i < |s.slots| && ChainInv(h, s, i, chain)
    requires r in s.heap && s.heap[r].next == s.slots[i] && SlotOf(h, |s.slots|, s.heap[r].path) == i
    requires forall q :: 0 <= q < |chain| ==> chain[q] in s.heap && s.heap[chain[q]].path != s.heap[r].path
    requires s'.heap == s.heap && s'.slots == s.slots[i := Some(r)]
    ensures ChainInv(h, s', i, [r] + chain)
  {
    hide SlotOf;
    var more := [r] + chain;
    assert forall d :: 0 <= d <= |chain| ==> FromEnd(more, d) == FromEnd(chain, d);
    assert forall q :: 1 <= q < |more| ==> more[q] == chain[q - 1];
    assert LinkAt(s.heap, more, 0);
    forall q | 1 <= q < |more| ensures LinkAt(s.heap, more, q) {
      assert LinkAt(s.heap, chain, q - 1);
    }
  }

  /** A grown chain keeps every search position. */
  lemma {:induction false} GrownSearch(heap: map<Ref, Node>, chain: seq<Ref>, r: Ref, key: Key,
          head: Option<Ref>, cur: Option<Ref>)
    ensures SearchInv(heap, chain, key, head, cur) ==> SearchInv(heap, [r] + chain, key, head, cur)
    ensures SearchedBelow(heap, chain, key, head) ==> SearchedBelow(heap, [r] + chain, key, head)
  {
    var more := [r] + chain;
    assert forall d :: 0 <= d <= |chain| ==> FromEnd(more, d) == FromEnd(chain, d);
    assert forall q :: 1 <= q < |more| ==> more[q] == chain[q - 1];
    if SearchInv(heap, chain, key, head, cur) {
      var d, e :| 0 <= e <= d <= |chain| && head == FromEnd(chain, d) && cur == FromEnd(chain, e)
                  && Searched(heap, chain, key, d, e);
      assert Searched(heap, more, key, d, e);
    }
    if SearchedBelow(heap, chain, key, head) {
      var d :| 0 <= d <= |chain| && head == FromEnd(chain, d) && Searched(heap, chain, key, d, 0);
      assert Searched(heap, more, key, d, 0);
    }
  }

  /** The successful compare-and-swap. */
  lemma SwapStep(h: Hash, s: State, chains: seq<seq<Ref>>, t: nat, s': State)
    requires Inv(h, s, chains) && t < |s.threads| && s.threads[t].pc.Swap?
    requires var th := s.threads[t];
             var slot := SlotOf(h, |s.slots|, th.key);
             && s.slots[slot] == th.pc.head
             && s' == WithThread(s, t, th.(pc := CountUp)).(slots := s.slots[slot := th.newHead])
    ensures var slot := SlotOf(h, |s.slots|, s.threads[t].key);
            s.threads[t].newHead.Some? && Inv(h, s', chains[slot := [s.threads[t].newHead.value] + chains[slot]])
  {
    hide IsChain, DistinctKeys, SearchInv, SearchedBelow, Searched, SlotOf, TotalLength, Counting;
    var th := s.threads[t];
    var slot := SlotOf(h, |s.slots|, th.key);
    assert ThreadInv(h, s, chains, t);
    var r := th.newHead.value;
    var chains' := chains[slot := [r] + chains[slot]];
    PendingPrivate(h, s, chains, t);
    assert ChainInv(h, s, slot, chains[slot]);
    HeadUnmoved(s.heap, chains[slot], th.key, th.pc.head);
    PrependChain(h, s, slot, chains[slot], r, s');
    LengthUpdate(chains, slot, r);
    CountingUpdate(s.threads, t, th.(pc := CountUp));
    forall i | 0 <= i < |s'.slots|
      ensures ChainInv(h, s', i, chains'[i]) && Published(s', chains'[i]) && Inserted(s', chains'[i])
    {
      assert ChainInv(h, s, i, chains[i]) && Published(s, chains[i]) && Inserted(s, chains[i]);
      SwapPublished(s, chains[i], t, r);
      SwapInserted(s, chains[i], t, r);
      OtherSlot(h, s, s', i, chains[i], slot);
    }
    forall u | 0 <= u < |s'.threads| ensures ThreadInv(h, s', chains', u) {
      assert ThreadInv(h, s, chains, u);
      var thu := s.threads[u];
      if SlotOf(h, |s.slots|, thu.key) == slot {
        match thu.pc
        case Search(head, cur) => GrownSearch(s.heap, chains[slot], r, thu.key, head, cur);
        case Ensure(head) => GrownSearch(s.heap, chains[slot], r, thu.key, head, None);
        case Link(head) => GrownSearch(s.heap, chains[slot], r, thu.key, head, None);
        case Swap(head) => GrownSearch(s.heap, chains[slot], r, thu.key, head, None);
        case _ =>
      }
    }
    forall key, k | (key, k) in s'.returned ensures Reaches(h, s', chains', key, k) {
      assert Reaches(h, s, chains, key, k);
    }
  }

  lemma {:induction false} OtherSlot(h: Hash, s: State, s': State, i: nat, chain: seq<Ref>, slot: nat)
    requires i < |s.slots| == |s'.slots| && i != slot ==> ChainInv(h, s, i, chain)
    requires i < |s.slots| == |s'.slots| && s'.heap == s.heap
    requires i != slot ==> s'.slots[i] == s.slots[i]
    ensures i != slot ==> ChainInv(h, s', i, chain)
  {
  }

  lemma SwapPublished(s: State, chain: seq<Ref>, t: nat, r: Ref)
    requires t < |s.threads| && Published(s, chain)
    requires s.threads[t].newHead == Some(r) && r.tid == t && HandedOut(s.threads[t].slab, r)
    ensures forall slots :: Published(WithThread(s, t, s.threads[t].(pc := CountUp)).(slots := slots), chain)
    ensures forall slots :: Published(WithThread(s, t, s.threads[t].(pc := CountUp)).(slots := slots), [r] + chain)
  {
    assert forall q :: 1 <= q < |[r] + chain| ==> ([r] + chain)[q] == chain[q - 1];
  }

  lemma SwapInserted(s: State, chain: seq<Ref>, t: nat, r: Ref)
    requires t < |s.threads| && Inserted(s, chain) && s.threads[t].pc != CountUp
    requires s.threads[t].newHead == Some(r) && r in s.heap
    ensures forall slots :: Inserted(WithThread(s, t, s.threads[t].(pc := CountUp)).(slots := slots), chain)
    ensures forall slots :: Inserted(WithThread(s, t, s.threads[t].(pc := CountUp)).(slots := slots), [r] + chain)
  {
    var more := [r] + chain;
    assert forall q :: 1 <= q < |more| ==> more[q] == chain[q - 1];
    var th := s.threads[t].(pc := CountUp);
    LocalInserted(s, chain, t, th, s.returned);
    forall slots
      ensures Inserted(WithThread(s, t, th).(slots := slots), chain)
      ensures Inserted(WithThread(s, t, th).(slots := slots), more)
    {
      var s' := WithThread(s, t, th).(slots := slots);
      assert Inserted(WithThread(s, t, th).(returned := s.returned), chain);
      assert s'.threads[t].pc == CountUp && s'.threads[t].newHead == Some(more[0]);
    }
  }

  /** Returning the inserted node. */
  lemma CountUpStep(h: Hash, s: State, chains: seq<seq<Ref>>, t: nat, s': State)
    requires Inv(h, s, chains) && t < |s.threads| && s.threads[t].pc == CountUp
    requires var th := s.threads[t];
             && th.newHead.Some?
             && s' == WithThread(s, t, th.(pc := Idle, newHead := None))
                      .(n := s.n + 1, returned := s.returned + {(th.key, th.newHead.value)})
    ensures Inv(h, s', chains)
  {
    hide IsChain, DistinctKeys, SearchInv, SearchedBelow, Searched, SlotOf, TotalLength, Counting;
    var th := s.threads[t];
    assert ThreadInv(h, s, chains, t);
    CountingUpdate(s.threads, t, th.(pc := Idle, newHead := None));
    forall i | 0 <= i < |s'.slots|
      ensures ChainInv(h, s', i, chains[i]) && Published(s', chains[i]) && Inserted(s', chains[i])
    {
      assert ChainInv(h, s, i, chains[i]) && Published(s, chains[i]) && Inserted(s, chains[i]);
      CountUpInserted(s, chains[i], t, s');
    }
    forall u | 0 <= u < |s'.threads| ensures ThreadInv(h, s', chains, u) {
      assert ThreadInv(h, s, chains, u);
    }
  }

  lemma CountUpInserted(s: State, chain: seq<Ref>, t: nat, s': State)
    requires t < |s.threads| && Inserted(s, chain) && s.threads[t].newHead.Some?
    requires s.threads[t].newHead.value in s.heap
    requires s.heap[s.threads[t].newHead.value].path == s.threads[t].key
    requires s'.heap == s.heap && s'.returned == s.returned + {(s.threads[t].key, s.threads[t].newHead.value)}
    requires |s'.threads| == |s.threads| && forall u :: 0 <= u < |s.threads| && u != t ==> s'.threads[u] == s.threads[u]
    ensures Inserted(s', chain)
  {
    forall q | 0 <= q < |chain| && (s.heap[chain[q]].path, chain[q]) !in s'.returned
      ensures exists u :: 0 <= u < |s'.threads| && s'.threads[u].pc == CountUp
                     && s'.threads[u].newHead == Some(chain[q])
    {
      var u :| 0 <= u < |s.threads| && s.threads[u].pc == CountUp && s.threads[u].newHead == Some(chain[q]);
      assert u != t && s'.threads[u] == s.threads[u];
    }
  }

  /** Every chain of `chains` is still there, maybe with new nodes before it. */
  ghost predicate Grown(chains: seq<seq<Ref>>, chains': seq<seq<Ref>>) {
    && |chains'| == |chains|
    && forall i :: 0 <= i < |chains| ==>
         |chains[i]| <= |chains'[i]| && chains'[i][|chains'[i]| - |chains[i]|..] == chains[i]
  }

  lemma GrownItself(chains: seq<seq<Ref>>)
    ensures Grown(chains, chains)
  {
  }

  lemma {:induction false} CallKeepsInv(h: Hash, s: State, chains: seq<seq<Ref>>, t: nat, key: Key, s': State)
    requires Inv(h, s, chains) && Call(s, t, key, s')
    ensures Inv(h, s', chains)
  {
    hide IsChain, DistinctKeys, ChainInv, Published, Inserted, SearchInv, SearchedBelow, Reaches;
    assert ThreadInv(h, s, chains, t);
    var th := s.threads[t].(pc := Load, key := key, newHead := None);
    assert s' == WithThread(s, t, th).(returned := s.returned);
    LocalStep(h, s, chains, t, th, s.returned);
  }

  /** What a search knows about the node it stands on. */
  lemma {:induction false} WalkFacts(heap: map<Ref, Node>, chain: seq<Ref>, key: Key, slotHead: Option<Ref>,
          head: Option<Ref>, cur: Option<Ref>)
    requires IsChain(heap, slotHead, chain) && SearchInv(heap, chain, key, head, cur)
    ensures cur == None ==> SearchedBelow(heap, chain, key, head)
    ensures cur.Some? ==>
              && cur.value in heap && cur.value in chain
              && (heap[cur.value].path != key ==> SearchInv(heap, chain, key, head, heap[cur.value].next))
  {
    var d, e :| 0 <= e <= d <= |chain| && head == FromEnd(chain, d) && cur == FromEnd(chain, e)
                && Searched(heap, chain, key, d, e);
    if e > 0 {
      var q := |chain| - e;
      assert LinkAt(heap, chain, q);
      if heap[chain[q]].path != key {
        assert Searched(heap, chain, key, d, e - 1);
      }
    }
  }

  /** Walking one node further, or finding the key. */
  lemma SearchStep(h: Hash, s: State, chains: seq<seq<Ref>>, t: nat, s': State)
    requires Inv(h, s, chains) && Act(h, s, t, s') && s.threads[t].pc.Search?
    ensures Inv(h, s', chains)
  {
    hide DistinctKeys, Published, Inserted, TotalLength, Counting, SlotOf, IsChain, SearchInv, SearchedBelow;
    var th := s.threads[t];
    var slot := SlotOf(h, |s.slots|, th.key);
    var head, cur := th.pc.head, th.pc.cur;
    assert ThreadInv(h, s, chains, t) && ChainInv(h, s, slot, chains[slot]);
    WalkFacts(s.heap, chains[slot], th.key, s.slots[slot], head, cur);
    if cur == None {
      var th' := th.(pc := Ensure(head));
      assert s' == WithThread(s, t, th').(returned := s.returned);
      LocalStep(h, s, chains, t, th', s.returned);
    } else if s.heap[cur.value].path == th.key {
      var th' := th.(pc := Idle, newHead := None, slab := if th.newHead.Some? then SlabUnnew(th.slab) else th.slab);
      assert Reaches(h, s, chains, th.key, cur.value);
      LocalStep(h, s, chains, t, th', s.returned + {(th.key, cur.value)});
    } else {
      var th' := th.(pc := Search(head, s.heap[cur.value].next));
      assert s' == WithThread(s, t, th').(returned := s.returned);
      LocalStep(h, s, chains, t, th', s.returned);
    }
  }

  /** Goroutine `t` is about to swap in its new head. */
  predicate Swaps(h: Hash, s: State, t: nat) {
    && t < |s.threads| && |s.slots| > 0
    && var th := s.threads[t];
       th.pc.Swap? && th.newHead.Some? && s.slots[SlotOf(h, |s.slots|, th.key)] == th.pc.head
  }

  lemma ActKeepsInv(h: Hash, s: State, chains: seq<seq<Ref>>, t: nat, s': State) returns (chains': seq<seq<Ref>>)
    requires Inv(h, s, chains) && Act(h, s, t, s')
    ensures Inv(h, s', chains') && Grown(chains, chains')
    ensures var slot := SlotOf(h, |s.slots|, s.threads[t].key);
            chains' == if Swaps(h, s, t) then chains[slot := [s.threads[t].newHead.value] + chains[slot]] else chains
  {
    hide IsChain, DistinctKeys, Published, Inserted, Searched, Reaches, TotalLength, Counting, SlotOf;
    chains' := chains;
    var th := s.threads[t];
    var slot := SlotOf(h, |s.slots|, th.key);
    assert ThreadInv(h, s, chains, t) && ChainInv(h, s, slot, chains[slot]);
    match th.pc {
      case Load =>
        var th' := th.(pc := Search(s.slots[slot], s.slots[slot]));
        StartSearch(s.heap, chains[slot], th.key, s.slots[slot]);
        assert s' == WithThread(s, t, th').(returned := s.returned);
        LocalStep(h, s, chains, t, th', s.returned);
      case Search(head, cur) =>
        SearchStep(h, s, chains, t, s');
      case Ensure(head) =>
        if th.newHead.Some? {
          var th' := th.(pc := Link(head));
          assert s' == WithThread(s, t, th').(returned := s.returned);
          LocalStep(h, s, chains, t, th', s.returned);
        } else {
          EnsureStep(h, s, chains, t, s');
        }
      case Link(head) =>
        LinkStep(h, s, chains, t, s');
      case Swap(head) =>
        if s.slots[slot] == head {
          SwapStep(h, s, chains, t, s');
          chains' := chains[slot := [th.newHead.value] + chains[slot]];
        } else {
          var th' := th.(pc := Load);
          assert s' == WithThread(s, t, th').(returned := s.returned);
          LocalStep(h, s, chains, t, th', s.returned);
        }
      case CountUp =>
        CountUpStep(h, s, chains, t, s');
    }
  }

  lemma StartSearch(heap: map<Ref, Node>, chain: seq<Ref>, key: Key, head: Option<Ref>)
    requires IsChain(heap, head, chain)
    ensures SearchInv(heap, chain, key, head, head)
  {
    assert Searched(heap, chain, key, |chain|, |chain|);
  }

  lemma EnsureStep(h: Hash, s: State, chains: seq<seq<Ref>>, t: nat, s': State)
    requires Inv(h, s, chains) && Act(h, s, t, s') && s.threads[t].pc.Ensure? && s.threads[t].newHead == None
    ensures Inv(h, s', chains)
  {
    hide IsChain, DistinctKeys, Published, Inserted, Searched, SearchedBelow, Reaches, TotalLength, Counting, SlotOf;
    var th := s.threads[t];
    var (cell, slab) := SlabNew(t, th.slab);
    var node := Node(th.key, if cell in s.heap then s.heap[cell].next else None);
    var th' := th.(pc := Link(th.pc.head), newHead := Some(cell), slab := slab);
    assert ThreadInv(h, s, chains, t);
    PendingPrivate(h, s, chains, t);
    PrivateWrite(h, s, chains, cell, node, s.heap[cell := node]);
    assert s' == WithThread(s, t, th').(heap := s.heap[cell := node]);
    WriteStep(h, s, chains, t, th', cell, node);
  }

  lemma LinkStep(h: Hash, s: State, chains: seq<seq<Ref>>, t: nat, s': State)
    requires Inv(h, s, chains) && Act(h, s, t, s') && s.threads[t].pc.Link?
    ensures Inv(h, s', chains)
  {
    hide IsChain, DistinctKeys, Published, Inserted, Searched, SearchedBelow, Reaches, TotalLength, Counting, SlotOf;
    var th := s.threads[t];
    assert ThreadInv(h, s, chains, t);
    var cell := th.newHead.value;
    var node := s.heap[cell].(next := th.pc.head);
    var th' := th.(pc := Swap(th.pc.head));
    PendingPrivate(h, s, chains, t);
    PrivateWrite(h, s, chains, cell, node, s.heap[cell := node]);
    assert s' == WithThread(s, t, th').(heap := s.heap[cell := node]);
    WriteStep(h, s, chains, t, th', cell, node);
  }

  lemma NextKeepsInv(h: Hash, s: State, chains: seq<seq<Ref>>, s': State) returns (chains': seq<seq<Ref>>)
    requires Inv(h, s, chains) && Next(h, s, s')
    ensures Inv(h, s', chains') && Grown(chains, chains')
    ensures s.returned <= s'.returned && |s'.slots| == |s.slots|
  {
    hide Inv, Swaps, SlotOf, Grown;
    if t: nat, key :| Call(s, t, key, s') {
      CallKeepsInv(h, s, chains, t, key, s');
      chains' := chains;
      GrownItself(chains);
    } else {
      var t: nat :| Act(h, s, t, s');
      chains' := ActKeepsInv(h, s, chains, t, s');
    }
  }

  lemma {:induction false} RunInv(h: Hash, run: seq<State>, k: nat) returns (chains: seq<seq<Ref>>)
    requires Run(h, run) && k < |run|
    ensures Inv(h, run[k], chains)
  {
    hide Inv, Next;
    if k == 0 {
      InitInv(h, run[0]);
      chains := seq(|run[0].slots|, _ => []);
    } else {
      var before := RunInv(h, run, k - 1);
      assert Next(h, run[k - 1], run[k - 1 + 1]);
      chains := NextKeepsInv(h, run[k - 1], before, run[k]);
    }
  }

  // --------------------------------------------------------------- theorems

  /** In every state of every run, each slot heads a finite, acyclic chain of
      nodes with distinct keys, all hashing to that slot. */
  lemma ChainsSound(h: Hash, run: seq<State>, k: nat, i: nat) returns (chain: seq<Ref>)
    requires Run(h, run) && k < |run| && i < |run[k].slots|
    ensures IsChain(run[k].heap, run[k].slots[i], chain)
    ensures forall p, q :: 0 <= p < q < |chain| ==> chain[p] != chain[q]
    ensures DistinctKeys(run[k].heap, chain)
    ensures forall q :: 0 <= q < |chain| ==> SlotOf(h, |run[k].slots|, run[k].heap[chain[q]].path) == i
  {
    var chains := RunInv(h, run, k);
    chain := chains[i];
    assert ChainInv(h, run[k], i, chain);
  }

  lemma {:induction false} RunGrows(h: Hash, run: seq<State>, j: nat, k: nat)
    requires Run(h, run) && j <= k < |run|
    ensures run[j].returned <= run[k].returned && |run[j].slots| == |run[k].slots|
    decreases k
  {
    hide Inv, Next;
    if j < k {
      RunGrows(h, run, j, k - 1);
      var before := RunInv(h, run, k - 1);
      assert Next(h, run[k - 1], run[k - 1 + 1]);
      var _ := NextKeepsInv(h, run[k - 1], before, run[k]);
    }
  }

  /** Calls with equal keys get the same node, whenever they return. */
  lemma {:induction false} SameKeySameNode(h: Hash, run: seq<State>, j: nat, k: nat, key: Key, r1: Ref, r2: Ref)
    requires Run(h, run) && j < |run| && k < |run|
    requires (key, r1) in run[j].returned && (key, r2) in run[k].returned
    ensures r1 == r2
  {
    var last := if j < k then k else j;
    RunGrows(h, run, j, last);
    RunGrows(h, run, k, last);
    var chains := RunInv(h, run, last);
    var s := run[last];
    assert Reaches(h, s, chains, key, r1) && Reaches(h, s, chains, key, r2);
    var i := SlotOf(h, |s.slots|, key);
    assert ChainInv(h, s, i, chains[i]);
    var p :| 0 <= p < |chains[i]| && chains[i][p] == r1;
    var q :| 0 <= q < |chains[i]| && chains[i][q] == r2;
  }

  /** A node once returned is, in every later state, on the chain of its key's
      slot under that key; and calls with different keys got different nodes. */
  lemma {:induction false} ReturnedStays(h: Hash, run: seq<State>, j: nat, k: nat, key: Key, r: Ref)
    returns (chain: seq<Ref>)
    requires Run(h, run) && j <= k < |run| && (key, r) in run[j].returned
    ensures |run[k].slots| > 0
    ensures IsChain(run[k].heap, run[k].slots[SlotOf(h, |run[k].slots|, key)], chain)
    ensures r in chain && r in run[k].heap && run[k].heap[r].path == key
  {
    RunGrows(h, run, j, k);
    var chains := RunInv(h, run, k);
    assert Reaches(h, run[k], chains, key, r);
    chain := chains[SlotOf(h, |run[k].slots|, key)];
    assert ChainInv(h, run[k], SlotOf(h, |run[k].slots|, key), chain);
  }

  /** No chain ever holds a cell its slab has free, whether never handed out or
      taken back; in particular the cell `unnew` takes back. */
  lemma FreeCellUnpublished(h: Hash, run: seq<State>, k: nat, t: nat, r: Ref) returns (chains: seq<seq<Ref>>)
    requires Run(h, run) && k < |run| && t < |run[k].threads| && r.tid == t
    requires !HandedOut(run[k].threads[t].slab, r)
             || (run[k].threads[t].newHead == Some(r) && run[k].threads[t].pc != CountUp)
    ensures |chains| == |run[k].slots|
    ensures forall i :: 0 <= i < |chains| ==> IsChain(run[k].heap, run[k].slots[i], chains[i])
    ensures Private(chains, r)
  {
    chains := RunInv(h, run, k);
    forall i | 0 <= i < |chains| ensures IsChain(run[k].heap, run[k].slots[i], chains[i]) && r !in chains[i] {
      assert ChainInv(h, run[k], i, chains[i]) && Published(run[k], chains[i]);
    }
  }

  // ---------------------------------------------------------------- progress

  /** The head a goroutine loaded and has not compared yet. */
  function Loaded(pc: Pc): Option<Option<Ref>> {
    match pc
    case Search(head, _) => Some(head)
    case Ensure(head) => Some(head)
    case Link(head) => Some(head)
    case Swap(head) => Some(head)
    case _ => None
  }

  /** Goroutine `u` publishes its node in slot `i`. */
  ghost predicate Publishes(h: Hash, s: State, u: nat, i: nat, s': State) {
    && u < |s.threads| && |s.slots| > 0 && i < |s.slots| && Act(h, s, u, s')
    && s.threads[u].pc == Swap(s.slots[i]) && SlotOf(h, |s.slots|, s.threads[u].key) == i
    && u < |s'.threads| && s'.threads[u].pc == CountUp
  }

  lemma ChangeIsPublished(h: Hash, s: State, i: nat, s': State) returns (u: nat)
    requires |s.slots| > 0 && i < |s.slots| && Next(h, s, s') && (i < |s'.slots| ==> s'.slots[i] != s.slots[i])
    ensures Publishes(h, s, u, i, s')
  {
    u :| Act(h, s, u, s');
  }

  /** What goroutine `t` has loaded, across a step. */
  ghost predicate KeepsLoaded(h: Hash, s: State, t: nat, s': State)
    requires |s.slots| > 0 && t < |s'.threads|
  {
    && t < |s.threads| && s.threads[t].key == s'.threads[t].key && |s'.slots| == |s.slots|
    && (|| Loaded(s.threads[t].pc) == Loaded(s'.threads[t].pc)
        || (s.threads[t].pc == Load
            && Loaded(s'.threads[t].pc) == Some(s.slots[SlotOf(h, |s.slots|, s.threads[t].key)])))
  }

  lemma OwnStep(h: Hash, s: State, t: nat, s': State)
    requires Act(h, s, t, s') && t < |s'.threads| && Loaded(s'.threads[t].pc).Some?
    ensures KeepsLoaded(h, s, t, s')
  {
    hide SlotOf, SlabNew, SlabUnnew;
  }

  lemma StepOfThread(h: Hash, s: State, t: nat, s': State)
    requires Next(h, s, s') && t < |s'.threads| && |s.slots| > 0 && Loaded(s'.threads[t].pc).Some?
    ensures KeepsLoaded(h, s, t, s')
  {
    hide SlotOf, SlabNew, SlabUnnew;
    if exists u: nat :: Act(h, s, u, s') {
      var u: nat :| Act(h, s, u, s');
      if u == t {
        OwnStep(h, s, t, s');
      }
    }
  }

  /** Since when a goroutine holds the head it loaded. */
  lemma {:induction false} LoadedAt(h: Hash, run: seq<State>, k: nat, t: nat) returns (j: nat)
    requires Run(h, run) && k < |run| && t < |run[k].threads| && Loaded(run[k].threads[t].pc).Some?
    ensures j < k && 0 < |run[j].slots| == |run[k].slots|
    ensures t < |run[j].threads| && run[j].threads[t].pc == Load && run[j].threads[t].key == run[k].threads[t].key
    ensures Loaded(run[k].threads[t].pc) == Some(run[j].slots[SlotOf(h, |run[j].slots|, run[j].threads[t].key)])
    ensures forall i :: j < i <= k ==> t < |run[i].threads| && Loaded(run[i].threads[t].pc).Some?
    decreases k
  {
    hide Next, SlotOf;
    if k > 0 {
      RunGrows(h, run, 0, k - 1);
      assert Next(h, run[k - 1], run[k - 1 + 1]);
      StepOfThread(h, run[k - 1], t, run[k]);
      if Loaded(run[k - 1].threads[t].pc) == Loaded(run[k].threads[t].pc) {
        j := LoadedAt(h, run, k - 1, t);
      } else {
        j := k - 1;
      }
    }
  }

  /** Some step changed what differs. */
  lemma {:induction false} SlotChanged(h: Hash, run: seq<State>, i: nat, j: nat, k: nat) returns (m: nat)
    requires Run(h, run) && j <= k < |run| && i < |run[j].slots| == |run[k].slots| && run[j].slots[i] != run[k].slots[i]
    ensures j <= m < k && i < |run[m].slots| == |run[m + 1].slots| && run[m].slots[i] != run[m + 1].slots[i]
    decreases k
  {
    hide Next;
    assert j < k;
    RunGrows(h, run, k - 1, k);
    if run[k - 1].slots[i] != run[k].slots[i] {
      m := k - 1;
    } else {
      m := SlotChanged(h, run, i, j, k - 1);
    }
  }

  /** The map is lock-free: when a goroutine's swap fails, another goroutine has
      published its node in that slot since the head was loaded. */
  lemma FailedSwapIsProgress(h: Hash, run: seq<State>, k: nat, t: nat) returns (j: nat, m: nat, u: nat)
    requires Run(h, run) && k < |run| && t < |run[k].threads| && |run[k].slots| > 0
    requires run[k].threads[t].pc.Swap?
    requires run[k].threads[t].pc.head != run[k].slots[SlotOf(h, |run[k].slots|, run[k].threads[t].key)]
    ensures j <= m < k && t < |run[j].threads| && run[j].threads[t].pc == Load
    ensures forall i :: j < i <= k ==> t < |run[i].threads| && Loaded(run[i].threads[t].pc).Some?
    ensures u != t && Publishes(h, run[m], u, SlotOf(h, |run[k].slots|, run[k].threads[t].key), run[m + 1])
  {
    hide Next, SlotOf, Act;
    j := LoadedAt(h, run, k, t);
    var i := SlotOf(h, |run[k].slots|, run[k].threads[t].key);
    m := SlotChanged(h, run, i, j, k);
    assert Next(h, run[m], run[m + 1]);
    u := ChangeIsPublished(h, run[m], i, run[m + 1]);
  }

  // ------------------------------------------------------------------ lookup

  /** `lookup`: the node of the key, if the map has one. */
  method Lookup(h: Hash, s: State, key: Key, ghost chains: seq<seq<Ref>>) returns (r: Option<Ref>)
    requires Inv(h, s, chains)
    ensures r.Some? ==> Reaches(h, s, chains, key, r.value)
    ensures r == None ==>
              forall k :: k in s.heap && s.heap[k].path == key ==> forall i :: 0 <= i < |chains| ==> k !in chains[i]
  {
    hide Published, Inserted, ThreadInv, TotalLength, Counting;
    ghost var slot := SlotOf(h, |s.slots|, key);
    ghost var chain := chains[slot];
    assert ChainInv(h, s, slot, chain);
    r := s.slots[SlotOf(h, |s.slots|, key)];
    ghost var d := |chain|;
    while r.Some?
      invariant 0 <= d <= |chain| && r == FromEnd(chain, d)
      invariant Searched(s.heap, chain, key, |chain|, d)
      decreases d
    {
      assert LinkAt(s.heap, chain, |chain| - d);
      if s.heap[r.value].path == key {
        return;
      }
      r := s.heap[r.value].next;
      d := d - 1;
    }
    forall k, i | k in s.heap && s.heap[k].path == key && 0 <= i < |chains|
      ensures k !in chains[i]
    {
      assert ChainInv(h, s, i, chains[i]);
      assert Searched(s.heap, chain, key, |chain|, 0);
    }
  }

  // ------------------------------------------------------------------ freeze

  ghost predicate Quiescent(s: State) {
    forall t :: 0 <= t < |s.threads| ==> s.threads[t].pc == Idle
  }

  /** The nodes of the map in `freeze` order. */
  function AllNodes(chains: seq<seq<Ref>>): (r: seq<Ref>)
    ensures |r| == TotalLength(chains)
  {
    if chains == [] then [] else AllNodes(chains[..|chains| - 1]) + chains[|chains| - 1]
  }

  /** `freeze`: number the nodes from 1, slot by slot. */
  method Freeze(h: Hash, s: State, ghost chains: seq<seq<Ref>>) returns (nodes: seq<Option<Ref>>, ids: map<Ref, nat>)
    requires Inv(h, s, chains)
    ensures nodes == [None] + Somes(AllNodes(chains))
    ensures forall r :: r in ids <==> r in AllNodes(chains)
    ensures forall r :: r in ids ==> 1 <= ids[r] < |nodes| && nodes[ids[r]] == Some(r)
    ensures forall id :: 1 <= id < |nodes| ==> nodes[id].Some? && nodes[id].value in ids && ids[nodes[id].value] == id
  {
    hide Inv, TotalLength, AllNodes, ChainInv;
    nodes, ids := [None], map[];
    FreezeStart(h, s, chains);
    for i := 0 to |s.slots|
      invariant |chains| == |s.slots|
      invariant Numbered(AllNodes(chains[..i]), nodes, ids)
    {
      nodes, ids := FreezeSlot(h, s, i, chains, nodes, ids);
    }
    assert chains[..|chains|] == chains;
  }

  function Somes(rs: seq<Ref>): (r: seq<Option<Ref>>)
    ensures |r| == |rs|
    ensures forall k :: 0 <= k < |rs| ==> r[k] == Some(rs[k])
  {
    seq(|rs|, k requires 0 <= k < |rs| => Some(rs[k]))
  }

  /** `ids` numbers `done` from 1, and `nodes` lists it from place 1. */
  ghost predicate Numbered(done: seq<Ref>, nodes: seq<Option<Ref>>, ids: map<Ref, nat>) {
    && nodes == [None] + Somes(done)
    && (forall r :: r in ids <==> r in done)
    && (forall r :: r in ids ==> 1 <= ids[r] < |nodes| && nodes[ids[r]] == Some(r))
    && (forall id :: 1 <= id < |nodes| ==> nodes[id].Some? && nodes[id].value in ids && ids[nodes[id].value] == id)
  }

  lemma FreezeStart(h: Hash, s: State, chains: seq<seq<Ref>>)
    requires Inv(h, s, chains)
    ensures |chains| == |s.slots|
    ensures Numbered(AllNodes(chains[..0]), [None], map[])
  {
    assert [None] + Somes([]) == [None];
  }

  method FreezeSlot(h: Hash, s: State, i: nat, ghost chains: seq<seq<Ref>>, nodes0: seq<Option<Ref>>,
          ids0: map<Ref, nat>)
    returns (nodes: seq<Option<Ref>>, ids: map<Ref, nat>)
    requires Inv(h, s, chains) && i < |s.slots|
    requires Numbered(AllNodes(chains[..i]), nodes0, ids0)
    ensures Numbered(AllNodes(chains[..i + 1]), nodes, ids)
  {
    hide Published, Inserted, ThreadInv, TotalLength, Counting, Numbered, DistinctKeys, SlotOf;
    ghost var chain, before := chains[i], AllNodes(chains[..i]);
    assert ChainInv(h, s, i, chain);
    nodes, ids := nodes0, ids0;
    var n := s.slots[i];
    ghost var d := |chain|;
    assert before + chain[..0] == before;
    while n.Some?
      invariant 0 <= d <= |chain| && n == FromEnd(chain, d)
      invariant Numbered(before + chain[..|chain| - d], nodes, ids)
      decreases d
    {
      ghost var q := |chain| - d;
      assert LinkAt(s.heap, chain, q);
      FreshNode(h, s, chains, i, q);
      NumberOne(before + chain[..q], nodes, ids, n.value);
      assert before + chain[..q] + [chain[q]] == before + chain[..q + 1];
      ids := ids[n.value := |nodes|];
      nodes := nodes + [n];
      n := s.heap[n.value].next;
      d := d - 1;
    }
    assert chain[..|chain|] == chain && chains[..i + 1][..i] == chains[..i];
  }

  lemma NumberOne(done: seq<Ref>, nodes: seq<Option<Ref>>, ids: map<Ref, nat>, r: Ref)
    requires Numbered(done, nodes, ids) && r !in done
    ensures Numbered(done + [r], nodes + [Some(r)], ids[r := |nodes|])
  {
    assert Somes(done + [r]) == Somes(done) + [Some(r)];
  }

  lemma {:induction false} NodeSlot(chains: seq<seq<Ref>>, i: nat, r: Ref)
    requires i <= |chains|
    ensures r in AllNodes(chains[..i]) <==> exists j :: 0 <= j < i && r in chains[j]
  {
    if i > 0 {
      NodeSlot(chains, i - 1, r);
      assert chains[..i][..i - 1] == chains[..i - 1];
    }
  }

  /** No node is on two chains, or twice on one. */
  lemma FreshNode(h: Hash, s: State, chains: seq<seq<Ref>>, i: nat, q: nat)
    requires Inv(h, s, chains) && i < |chains| && q < |chains[i]|
    ensures chains[i][q] !in AllNodes(chains[..i]) + chains[i][..q]
  {
    hide Published, Inserted, ThreadInv, TotalLength, Counting, SlotOf;
    var r := chains[i][q];
    assert ChainInv(h, s, i, chains[i]);
    NodeSlot(chains, i, r);
    forall j | 0 <= j < i ensures r !in chains[j] {
      assert ChainInv(h, s, j, chains[j]);
    }
    assert forall p :: 0 <= p < q ==> s.heap[chains[i][p]].path != s.heap[r].path;
  }

  /** After quiescence the numbering is one-to-one with the keys ever inserted,
      and the map's own counter is the number of nodes. */
  lemma FrozenKeys(h: Hash, s: State, chains: seq<seq<Ref>>)
    requires Inv(h, s, chains) && Quiescent(s)
    ensures |AllNodes(chains)| == s.n
    ensures forall r :: r in AllNodes(chains) ==> r in s.heap && (s.heap[r].path, r) in s.returned
    ensures forall key, r :: (key, r) in s.returned ==> r in AllNodes(chains) && s.heap[r].path == key
    ensures forall r1, r2 :: r1 in AllNodes(chains) && r2 in AllNodes(chains) && s.heap[r1].path == s.heap[r2].path ==>
              r1 == r2
  {
    hide Published, ThreadInv, SlotOf, TotalLength, Counting, IsChain;
    NoCounting(s.threads);
    assert chains[..|chains|] == chains;
    forall r | r in AllNodes(chains) ensures r in s.heap && (s.heap[r].path, r) in s.returned {
      NodeSlot(chains, |chains|, r);
      var j :| 0 <= j < |chains| && r in chains[j];
      assert Inserted(s, chains[j]);
    }
    forall key, r | (key, r) in s.returned ensures r in AllNodes(chains) && s.heap[r].path == key {
      assert Reaches(h, s, chains, key, r);
      NodeSlot(chains, |chains|, r);
    }
    forall r1, r2 | r1 in AllNodes(chains) && r2 in AllNodes(chains) && s.heap[r1].path == s.heap[r2].path
      ensures r1 == r2
    {
      NodeSlot(chains, |chains|, r1);
      NodeSlot(chains, |chains|, r2);
      SameSlot(h, s, chains, r1, r2);
    }
  }

  lemma SameSlot(h: Hash, s: State, chains: seq<seq<Ref>>, r1: Ref, r2: Ref)
    requires Inv(h, s, chains)
    requires exists j :: 0 <= j < |chains| && r1 in chains[j]
    requires exists j :: 0 <= j < |chains| && r2 in chains[j]
    requires r1 in s.heap && r2 in s.heap && s.heap[r1].path == s.heap[r2].path
    ensures r1 == r2
  {
    hide Published, ThreadInv, Inserted, SlotOf, TotalLength, Counting, IsChain;
    var i :| 0 <= i < |chains| && r1 in chains[i];
    var j :| 0 <= j < |chains| && r2 in chains[j];
    assert ChainInv(h, s, i, chains[i]) && ChainInv(h, s, j, chains[j]);
    var p :| 0 <= p < |chains[i]| && chains[i][p] == r1;
    var q :| 0 <= q < |chains[j]| && chains[j][q] == r2;
    assert i == j;
  }
}
