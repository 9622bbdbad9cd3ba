/** How calls of `UploadAll` end: which errors they return, and what they leave
    in the known digests. The statements are about the steps of a run. */
module CasOutcome {
  import opened Wrappers
  import opened CasUpload

  /** Step `j` of the run is step `e` of call `t`. */
  ghost predicate Took(run: seq<State>, j: int, t: nat, e: Event) {
    0 <= j < |run| - 1 && Can(run[j], t, e) && run[j + 1] == Apply(run[j], t, e)
  }

  // ------------------------------------------------------------------ errors

  /** A step in which something goes wrong for call `t`: a failed query or send,
      a lost or refused answer, a cancellation, or a wait for an operation that
      was closed with an error or unfinished. */
  predicate Fails(s: State, t: nat, e: Event)
    requires Can(s, t, e)
  {
    var th := s.threads[t];
    match e
    case QueryFails => true
    case SendFails(_) => true
    case Answer(d, lost) => lost || d !in th.pc.ok
    case WaitOne(d) => s.ops[th.pending[d]].err != Nil
    case Cancelled => true
    case _ => false
  }

  ghost predicate Failing(run: seq<State>, j: int, t: nat, e: Event) {
    Took(run, j, t, e) && Fails(run[j], t, e)
  }

  /** Has something gone wrong for call `t` before state `k`? */
  ghost predicate HasFailed(run: seq<State>, k: nat, t: nat) {
    exists j: int, e: Event :: j < k && Failing(run, j, t, e)
  }

  /** The call will return an error. */
  predicate Doomed(th: Thread) {
    th.err || th.pc.CloseAll? || (th.pc.Responses? && th.pc.failed)
  }

  lemma DoomedStep(s: State, t: nat, e: Event)
    requires Can(s, t, e)
    ensures t < |s.threads| == |Apply(s, t, e).threads|
    ensures Doomed(Apply(s, t, e).threads[t]) <==> Doomed(s.threads[t]) || Fails(s, t, e)
    ensures forall u :: 0 <= u < |s.threads| && u != t ==> Apply(s, t, e).threads[u] == s.threads[u]
  {
    hide Apply;
    ApplyThreads(s, t, e);
  }

  lemma {:induction false} DoomedIff(run: seq<State>, k: nat, t: nat)
    requires Run(run) && k < |run| && t < |run[k].threads|
    ensures Doomed(run[k].threads[t]) <==> HasFailed(run, k, t)
    decreases k
  {
    hide Doomed, Can, Apply, Fails, Init;
    if k == 0 {
      NotDoomed(run[0], t);
    } else {
      var s, s' := run[k - 1], run[k - 1 + 1];
      assert Steps(s, s') || Grows(s, s');
      var last := k - 1;
      if exists e: Event :: Failing(run, last, t, e) {
        var e: Event :| Failing(run, last, t, e);
        DoomedStep(s, t, e);
      } else if Grows(s, s') {
        DoomedIff(run, k - 1, t);
      } else {
        var u: nat, e: Event :| Can(s, u, e) && s' == Apply(s, u, e);
        DoomedStep(s, u, e);
        assert Took(run, last, u, e);
        assert u == t ==> !Failing(run, last, t, e);
        DoomedIff(run, k - 1, t);
      }
    }
  }

  lemma NotDoomed(s: State, t: nat)
    requires Init(s) && t < |s.threads|
    ensures !Doomed(s.threads[t])
  {
  }

  /** A call that has returned has returned an error iff something went wrong for
      it: an upload by another call that succeeded is no error. */
  lemma ErrorIff(run: seq<State>, k: nat, t: nat)
    requires Run(run) && k < |run| && t < |run[k].threads| && run[k].threads[t].pc == Returned
    ensures run[k].threads[t].err <==> HasFailed(run, k, t)
  {
    hide HasFailed;
    DoomedIff(run, k, t);
  }

  /** What goes wrong outside: a failed query, send or stream, a lost or refused
      answer, or a cancellation. */
  predicate Disturbs(s: State, t: nat, e: Event)
    requires Can(s, t, e)
  {
    match e
    case QueryFails => true
    case SendFails(_) => true
    case Answer(d, lost) => lost || d !in s.threads[t].pc.ok
    case StreamOne(_, sent) => !sent
    case Cancelled => true
    case _ => false
  }

  /** Nothing does, before state `k`. */
  ghost predicate Undisturbed(run: seq<State>, k: nat) {
    forall j: int, t: nat, e: Event :: j < k && Took(run, j, t, e) ==> !Disturbs(run[j], t, e)
  }

  ghost predicate AllWell(s: State) {
    && (forall t :: 0 <= t < |s.threads| ==> !Doomed(s.threads[t]) && s.threads[t].failedStreams == {})
    && (forall op :: op in s.ops ==> s.ops[op].err != Failed)
  }

  lemma WellStep(s: State, t: nat, e: Event)
    requires Inv(s) && AllWell(s) && Can(s, t, e) && !Disturbs(s, t, e)
    ensures AllWell(Apply(s, t, e))
  {
    hide Apply, Can, Inv, AllWell, Disturbs;
    ApplyThreads(s, t, e);
    if e.WaitOne? {
      WellWait(s, t, e);
    }
    WellThread(s, t, e);
    WellOps(s, t, e);
    var s' := Apply(s, t, e);
    forall u | 0 <= u < |s'.threads| ensures !Doomed(s'.threads[u]) && s'.threads[u].failedStreams == {} {
      WellAt(s, u);
    }
    assert AllWell(s') by { WellAll(s'); }
  }

  lemma WellAll(s: State)
    requires forall t :: 0 <= t < |s.threads| ==> !Doomed(s.threads[t]) && s.threads[t].failedStreams == {}
    requires forall op :: op in s.ops ==> s.ops[op].err != Failed
    ensures AllWell(s)
  {
  }

  lemma WellAt(s: State, t: nat)
    requires AllWell(s)
    ensures t < |s.threads| ==> !Doomed(s.threads[t]) && s.threads[t].failedStreams == {}
    ensures forall op :: op in s.ops ==> s.ops[op].err != Failed
  {
  }

  /** A closed operation was closed without error. */
  lemma WellWait(s: State, t: nat, e: Event)
    requires Inv(s) && AllWell(s) && Can(s, t, e) && e.WaitOne?
    ensures s.ops[s.threads[t].pending[e.d]].err == Nil
  {
    hide KnownInv, ThreadInv;
    assert OpInv(s, s.threads[t].pending[e.d]);
  }

  lemma WellThread(s: State, t: nat, e: Event)
    requires AllWell(s) && Can(s, t, e) && !Disturbs(s, t, e)
    requires e.WaitOne? ==> s.ops[s.threads[t].pending[e.d]].err == Nil
    ensures t < |s.threads|
    ensures var th := NextThread(s, s.threads[t], e); !Doomed(th) && th.failedStreams == {}
  {
  }

  lemma WellOps(s: State, t: nat, e: Event)
    requires Inv(s) && AllWell(s) && Can(s, t, e) && !Disturbs(s, t, e)
    ensures forall op :: op in Apply(s, t, e).ops ==> Apply(s, t, e).ops[op].err != Failed
  {
    hide Inv, NextThread;
  }

  lemma {:induction false} WellRun(run: seq<State>, k: nat)
    requires Run(run) && k < |run| && Undisturbed(run, k)
    ensures AllWell(run[k])
  {
    hide Can, Apply, Init, Inv, AllWell, Disturbs;
    if k == 0 {
      StartsWell(run[0]);
    } else {
      WellRun(run, k - 1);
      RunInv(run, k - 1);
      var s, s' := run[k - 1], run[k - 1 + 1];
      assert Steps(s, s') || Grows(s, s');
      if Grows(s, s') {
        WellGrows(s, s');
      } else {
        var t: nat, e: Event :| Can(s, t, e) && s' == Apply(s, t, e);
        assert Took(run, k - 1, t, e);
        WellStep(s, t, e);
      }
    }
  }

  lemma StartsWell(s: State)
    requires Init(s)
    ensures AllWell(s)
  {
  }

  lemma WellGrows(s: State, s': State)
    requires AllWell(s) && Grows(s, s')
    ensures AllWell(s')
  {
  }

  /** When nothing goes wrong outside, every call that has returned has returned
      nil, and all its blobs are in the store. */
  lemma UndisturbedStoresAll(run: seq<State>, k: nat, t: nat)
    requires Run(run) && k < |run| && t < |run[k].threads| && run[k].threads[t].pc == Returned
    requires Undisturbed(run, k)
    ensures !run[k].threads[t].err && BlobSet(run[k].threads[t].blobs) <= run[k].cas
  {
    hide Run, Undisturbed, BlobSet;
    WellRun(run, k);
    NilMeansStored(run, k, t);
  }

  // ---------------------------------------------------------- needless calls

  /** A call asks the server only when it has new blobs, and sends only what the
      server misses. */
  predicate Thrifty(th: Thread) {
    match th.pc
    case Query => th.news != map[]
    case Batch(smalls) => th.missing != {} && smalls + th.larges <= th.missing
    case Responses(todo, _, smalls, _) => th.missing != {} && todo + smalls + th.larges <= th.missing
    case Stream(todo) => th.missing != {} && todo <= th.missing
    case _ => true
  }

  predicate Answered(pc: Pc) {
    pc.MarkFound? || pc.Batch? || pc.Responses? || pc.Stream?
  }

  /** The server has told call `t` before state `k` that it misses `missing`. */
  ghost predicate Asked(run: seq<State>, k: nat, t: nat, missing: set<Digest>) {
    exists j: int :: j < k && Took(run, j, t, QueryAnswers(missing))
  }

  lemma ThriftyStep(s: State, t: nat, e: Event)
    requires Can(s, t, e) && Thrifty(s.threads[t])
    ensures Thrifty(NextThread(s, s.threads[t], e))
    ensures Answered(NextThread(s, s.threads[t], e).pc) ==>
              if e.QueryAnswers? then NextThread(s, s.threads[t], e).missing == e.missing
              else Answered(s.threads[t].pc) && NextThread(s, s.threads[t], e).missing == s.threads[t].missing
  {
  }

  /** What a call sends is new to it and was reported as missing to it. */
  lemma {:induction false} SendsOnlyMissing(run: seq<State>, k: nat, t: nat)
    requires Run(run) && k < |run| && t < |run[k].threads|
    ensures Thrifty(run[k].threads[t])
    ensures Answered(run[k].threads[t].pc) ==> Asked(run, k, t, run[k].threads[t].missing)
    decreases k
  {
    hide Thrifty, Answered, Can, Apply, Init, NextThread;
    if k == 0 {
      StartsThrifty(run[0], t);
    } else {
      var s, s' := run[k - 1], run[k - 1 + 1];
      assert Steps(s, s') || Grows(s, s');
      if Grows(s, s') {
        SendsOnlyMissing(run, k - 1, t);
      } else {
        var u: nat, e: Event :| Can(s, u, e) && s' == Apply(s, u, e);
        ApplyThreads(s, u, e);
        SendsOnlyMissing(run, k - 1, t);
        if u == t {
          ThriftyStep(s, t, e);
          assert Took(run, k - 1, t, e);
        }
      }
    }
  }

  lemma StartsThrifty(s: State, t: nat)
    requires Init(s) && t < |s.threads|
    ensures Thrifty(s.threads[t]) && !Answered(s.threads[t].pc)
  {
  }

  // ------------------------------------------------------- the known digests

  /** Does the owner still answer for the entry of its operation? */
  predicate Held(s: State, op: OpId) {
    && op in s.ops && s.ops[op].owner < |s.threads|
    && var th, d := s.threads[s.ops[op].owner], s.ops[op].digest;
       d in th.news && th.news[d] == op && Holds(th, d)
  }

  /** The deferred function finds an operation that was never closed. */
  predicate Leaves(s: State, t: nat, e: Event, op: OpId)
    requires Can(s, t, e)
  {
    e.DeferOne? && s.threads[t].news[e.d] == op && s.ops[op].err == NotFinished
  }

  /** Entries in flight belong to calls that still answer for them, or were left
      behind; digests stored without error are memoised. */
  ghost predicate Kept(s: State, left: set<OpId>) {
    && (forall d :: d in s.known && s.known[d].InFlight? ==> s.known[d].op in left || Held(s, s.known[d].op))
    && (forall op :: op in left ==> LeftOver(s, op))
    && (forall op :: op in s.ops && s.ops[op].err == Nil ==> Held(s, op) || Memoised(s, s.ops[op].digest))
    && (forall t :: 0 <= t < |s.threads| ==> SwapSeen(s, t))
  }

  predicate Memoised(s: State, d: Digest) {
    d in s.known && s.known[d] == Present
  }

  predicate LeftOver(s: State, op: OpId) {
    op in s.ops && !Held(s, op) && s.ops[op].digest in s.known && s.known[s.ops[op].digest] == InFlight(op)
  }

  predicate SwapSeen(s: State, t: nat)
    requires t < |s.threads|
  {
    var pc := s.threads[t].pc;
    pc.MarkFound? && pc.swapped.Some? ==> Memoised(s, pc.swapped.value)
  }

  function NowLeft(s: State, t: nat, e: Event, left: set<OpId>): set<OpId>
    requires Can(s, t, e)
  {
    if e.DeferOne? && s.ops[s.threads[t].news[e.d]].err == NotFinished then left + {s.threads[t].news[e.d]} else left
  }

  /** Steps that change neither operations nor known digests. */
  predicate Quiet(e: Event) {
    match e
    case LoadOrStore(_) => false
    case CloseOne(_) => false
    case SwapFound(_) => false
    case FinishFound => false
    case Answer(_, _) => false
    case StreamOne(_, _) => false
    case DeferOne(_) => false
    case _ => true
  }

  lemma QuietKeeps(s: State, t: nat, e: Event, left: set<OpId>)
    requires Can(s, t, e) && Kept(s, left) && Quiet(e)
    ensures Kept(Apply(s, t, e), NowLeft(s, t, e, left))
  {
    hide Can, Apply, NextThread, Quiet;
    QuietIs(s, t, e);
    var s' := Apply(s, t, e);
    forall op ensures Held(s', op) <==> Held(s, op) {
    }
    forall u | 0 <= u < |s'.threads| ensures SwapSeen(s', u) {
      assert SwapSeen(s, u);
    }
    forall op | op in left ensures LeftOver(s', op) {
      assert LeftOver(s, op);
    }
  }

  lemma QuietIs(s: State, t: nat, e: Event)
    requires Can(s, t, e) && Quiet(e)
    ensures t < |s.threads|
    ensures var s', th, th' := Apply(s, t, e), s.threads[t], Apply(s, t, e).threads[t];
            && s'.threads == s.threads[t := th'] && s'.ops == s.ops && s'.known == s.known
            && th'.news == th.news && (forall d :: d in th.news ==> (Holds(th', d) <==> Holds(th, d)))
            && !(th'.pc.MarkFound? && th'.pc.swapped.Some?)
            && !e.DeferOne?
  {
  }

  /** Steps that close an operation the call still answers for. */
  lemma CloseKeeps(s: State, t: nat, e: Event, left: set<OpId>)
    requires Inv(s) && Can(s, t, e) && Kept(s, left) && (e.CloseOne? || e.Answer? || e.StreamOne?)
    ensures Kept(Apply(s, t, e), NowLeft(s, t, e, left))
  {
    hide Can, Apply, NextThread, Inv, Held;
    CloseIs(s, t, e);
    CloseHolds(s, t, e);
    InFlightDigests(s);
    var s' := Apply(s, t, e);
    forall op | op in left ensures LeftOver(s', op) {
      assert LeftOver(s, op);
    }
    forall u | 0 <= u < |s'.threads| ensures SwapSeen(s', u) {
      assert SwapSeen(s, u);
    }
  }

  lemma CloseHolds(s: State, t: nat, e: Event)
    requires Inv(s) && Can(s, t, e) && (e.CloseOne? || e.Answer? || e.StreamOne?)
    ensures t < |s.threads| && e.d in s.threads[t].news && Held(s, s.threads[t].news[e.d])
    ensures forall op :: Held(Apply(s, t, e), op) <==> Held(s, op)
  {
    hide Can, Apply, NextThread, OpInv, KnownInv, Owed, MayBeOpen, MustBeOpen, BlobSet, From, Before;
    CloseIs(s, t, e);
    assert ThreadInv(s, t);
  }

  lemma CloseIs(s: State, t: nat, e: Event)
    requires Can(s, t, e) && (e.CloseOne? || e.Answer? || e.StreamOne?)
    ensures t < |s.threads| && e.d in s.threads[t].news && s.threads[t].news[e.d] in s.ops
    ensures var s', th, th', op := Apply(s, t, e), s.threads[t], Apply(s, t, e).threads[t], s.threads[t].news[e.d];
            && s'.threads == s.threads[t := th'] && s'.known == s.known && th'.news == th.news
            && (s'.ops == s.ops || exists err :: s'.ops == Done(s.ops, op, err))
            && (forall d :: Holds(th', d) && Holds(th, d))
            && !(th'.pc.MarkFound? && th'.pc.swapped.Some?)
  {
    if e.CloseOne? || (e.Answer? && !e.lost) || e.StreamOne? {
      var op := s.threads[t].news[e.d];
      assert Apply(s, t, e).ops == Done(s.ops, op, Apply(s, t, e).ops[op].err);
    }
  }

  lemma InFlightDigests(s: State)
    requires Inv(s)
    ensures forall d :: d in s.known && s.known[d].InFlight? ==>
              s.known[d].op in s.ops && s.ops[s.known[d].op].digest == d
  {
    hide OpInv, ThreadInv;
  }

  lemma FoundHolds(s: State, t: nat, e: Event)
    requires Inv(s) && Can(s, t, e) && e.SwapFound?
    ensures t < |s.threads| && e.d in s.threads[t].news
    ensures var own := s.threads[t].news[e.d];
            && e.d in s.known && s.known[e.d] == InFlight(own) && Held(s, own)
            && (forall op :: Held(Apply(s, t, e), op) <==> Held(s, op) && op != own)
  {
    hide Can, Apply, NextThread, OpInv, KnownInv, Owed, MayBeOpen, MustBeOpen, BlobSet, From, Before;
    SwapFoundIs(s, t, e.d);
    assert ThreadInv(s, t);
  }

  lemma FoundKeeps(s: State, t: nat, e: Event, left: set<OpId>)
    requires Inv(s) && Can(s, t, e) && Kept(s, left) && e.SwapFound?
    ensures Kept(Apply(s, t, e), NowLeft(s, t, e, left))
  {
    hide Can, Apply, NextThread, Inv, Held;
    SwapFoundIs(s, t, e.d);
    FoundHolds(s, t, e);
    InFlightDigests(s);
    var s' := Apply(s, t, e);
    forall op | op in left ensures LeftOver(s', op) {
      assert LeftOver(s, op);
    }
    forall u | 0 <= u < |s'.threads| ensures SwapSeen(s', u) {
      assert SwapSeen(s, u);
    }
  }

  lemma FinishKeeps(s: State, t: nat, e: Event, left: set<OpId>)
    requires Inv(s) && Can(s, t, e) && Kept(s, left) && e.FinishFound?
    ensures Kept(Apply(s, t, e), NowLeft(s, t, e, left))
  {
    hide Can, Apply, NextThread, Inv, Held;
    FinishFoundIs(s, t);
    FinishHolds(s, t, e);
    InFlightDigests(s);
    assert SwapSeen(s, t);
    var s' := Apply(s, t, e);
    forall op | op in left ensures LeftOver(s', op) {
      assert LeftOver(s, op);
    }
    forall u | 0 <= u < |s'.threads| ensures SwapSeen(s', u) {
      assert SwapSeen(s, u);
    }
  }

  lemma FinishHolds(s: State, t: nat, e: Event)
    requires Inv(s) && Can(s, t, e) && e.FinishFound?
    ensures t < |s.threads| && s.threads[t].pc.MarkFound? && s.threads[t].pc.swapped.Some?
    ensures var d := s.threads[t].pc.swapped.value;
            && d in s.threads[t].news && s.threads[t].news[d] in s.ops && s.ops[s.threads[t].news[d]].digest == d
    ensures forall op :: Held(Apply(s, t, e), op) <==> Held(s, op)
  {
    hide Can, Apply, NextThread, OpInv, KnownInv, Owed, MayBeOpen, MustBeOpen, BlobSet, From, Before;
    FinishFoundIs(s, t);
    assert ThreadInv(s, t);
  }

  lemma StoreKeeps(s: State, t: nat, e: Event, left: set<OpId>)
    requires Inv(s) && Can(s, t, e) && Kept(s, left) && e.LoadOrStore?
    ensures Kept(Apply(s, t, e), NowLeft(s, t, e, left))
  {
    hide Can, Apply, NextThread, Inv;
    StoreIs(s, t, e);
    InFlightDigests(s);
    var s' := Apply(s, t, e);
    StoreHolds(s, t, e);
    forall op | op in left ensures LeftOver(s', op) {
      assert LeftOver(s, op);
    }
    forall u | 0 <= u < |s'.threads| ensures SwapSeen(s', u) {
      assert SwapSeen(s, u);
    }
  }

  lemma StoreHolds(s: State, t: nat, e: Event)
    requires Inv(s) && Can(s, t, e) && e.LoadOrStore?
    ensures forall op :: op in s.ops ==> (Held(Apply(s, t, e), op) <==> Held(s, op))
    ensures forall op :: op in Apply(s, t, e).ops && op !in s.ops ==> Held(Apply(s, t, e), op)
  {
    hide Can, Apply, NextThread, OpInv, KnownInv, Owed, MayBeOpen, MustBeOpen, BlobSet, From, Before;
    StoreIs(s, t, e);
    assert ThreadInv(s, t);
    var th := s.threads[t];
    if th.blobs[th.pc.i] !in s.known {
      NewIsNew(s, t);
    }
  }

  /** A digest that nobody knows is not among the new ones. */
  lemma NewIsNew(s: State, t: nat)
    requires Inv(s) && t < |s.threads|
    ensures forall d :: d in s.threads[t].news && s.threads[t].pc.Partition? ==> d in s.known
  {
    hide OpInv, KnownInv, Owed, MayBeOpen, MustBeOpen, BlobSet, From, Before;
    assert ThreadInv(s, t);
  }

  lemma StoreIs(s: State, t: nat, e: Event)
    requires Can(s, t, e) && e.LoadOrStore?
    ensures t < |s.threads| && s.threads[t].pc.Partition? && s.threads[t].pc.i < |s.threads[t].blobs| && e.op !in s.ops
    ensures var s', th, th' := Apply(s, t, e), s.threads[t], Apply(s, t, e).threads[t];
            var d := th.blobs[th.pc.i];
            && s'.threads == s.threads[t := th'] && th'.pc == Partition(th.pc.i + 1)
            && if d in s.known then s'.ops == s.ops && s'.known == s.known && th'.news == th.news
               else && th'.news == th.news[d := e.op] && s'.known == s.known[d := InFlight(e.op)]
                    && s'.ops == s.ops[e.op := Op(t, d, NotFinished, 0)]
  {
  }

  lemma DeferIs(s: State, t: nat, e: Event)
    requires Can(s, t, e) && e.DeferOne?
    ensures t < |s.threads|
    ensures var s', th, d := Apply(s, t, e), s.threads[t], e.d;
            && th.pc.Defer? && d in th.pc.todo && d in th.news && th.news[d] in s.ops
            && s'.threads == s.threads[t := th.(pc := Defer(th.pc.todo - {d}))]
            && match s.ops[th.news[d]].err
               case Nil => s'.known == SwapKnown(s.known, d, th.news[d]) && s'.ops == s.ops
               case Failed => s'.known == DeleteKnown(s.known, d, th.news[d]) && s'.ops == s.ops
               case NotFinished =>
                 && s'.known == s.known
                 && s'.ops == Done(s.ops, th.news[d], if th.err then Failed else NotFinished)
  {
  }

  lemma DeferHolds(s: State, t: nat, e: Event)
    requires Inv(s) && Can(s, t, e) && e.DeferOne?
    ensures t < |s.threads| && e.d in s.threads[t].news
    ensures var own := s.threads[t].news[e.d];
            && own in s.ops && s.ops[own].digest == e.d
            && e.d in s.known && s.known[e.d] == InFlight(own) && Held(s, own)
            && (forall op :: Held(Apply(s, t, e), op) <==> Held(s, op) && op != own)
            && (s.ops[own].err == NotFinished ==> Apply(s, t, e).ops[own].err != Nil)
  {
    hide Can, Apply, NextThread, OpInv, KnownInv, Owed, MayBeOpen, MustBeOpen, BlobSet, From, Before;
    DeferIs(s, t, e);
    assert ThreadInv(s, t);
  }

  lemma DeferKeeps(s: State, t: nat, e: Event, left: set<OpId>)
    requires Inv(s) && Can(s, t, e) && Kept(s, left) && e.DeferOne?
    ensures Kept(Apply(s, t, e), NowLeft(s, t, e, left))
  {
    hide Can, Apply, NextThread, Inv, Held;
    DeferIs(s, t, e);
    DeferHolds(s, t, e);
    InFlightDigests(s);
    var s' := Apply(s, t, e);
    forall op | op in left ensures LeftOver(s', op) {
      assert LeftOver(s, op);
    }
    forall u | 0 <= u < |s'.threads| ensures SwapSeen(s', u) {
      assert SwapSeen(s, u);
    }
  }

  lemma KeptStep(s: State, t: nat, e: Event, left: set<OpId>)
    requires Inv(s) && Can(s, t, e) && Kept(s, left)
    ensures Kept(Apply(s, t, e), NowLeft(s, t, e, left))
  {
    hide Can, Apply, Inv, Kept, NowLeft;
    match e
    case LoadOrStore(_) => StoreKeeps(s, t, e, left);
    case CloseOne(_) => CloseKeeps(s, t, e, left);
    case SwapFound(_) => FoundKeeps(s, t, e, left);
    case FinishFound => FinishKeeps(s, t, e, left);
    case Answer(_, _) => CloseKeeps(s, t, e, left);
    case StreamOne(_, _) => CloseKeeps(s, t, e, left);
    case DeferOne(_) => DeferKeeps(s, t, e, left);
    case _ => QuietKeeps(s, t, e, left);
  }

  /** The deferred function of its owner found operation `op` unfinished. */
  ghost predicate LeftAt(run: seq<State>, j: int, op: OpId) {
    exists t: nat, d: Digest :: Took(run, j, t, DeferOne(d)) && Leaves(run[j], t, DeferOne(d), op)
  }

  ghost predicate WasLeft(run: seq<State>, k: nat, op: OpId) {
    exists j: int :: j < k && LeftAt(run, j, op)
  }

  lemma DeferTwice(s: State, t: nat, e: Event, u: nat, d: Digest)
    requires Can(s, t, e) && Can(s, u, DeferOne(d)) && Apply(s, t, e) == Apply(s, u, DeferOne(d))
    ensures t == u && e == DeferOne(d)
  {
    hide Apply, NextThread;
    DeferIs(s, u, DeferOne(d));
    ApplyThreads(s, t, e);
    assert Apply(s, t, e).threads[u] != s.threads[u];
    if e.DeferOne? {
      DeferIs(s, t, e);
    } else {
      DeferOnly(s, t, e);
    }
  }

  lemma DeferOnly(s: State, t: nat, e: Event)
    requires Can(s, t, e) && !e.DeferOne?
    ensures t < |s.threads| && (s.threads[t].pc.Defer? ==> Apply(s, t, e).threads[t].pc == Returned)
  {
  }

  lemma {:induction false} KeptRun(run: seq<State>, k: nat) returns (left: set<OpId>)
    requires Run(run) && k < |run|
    ensures Kept(run[k], left)
    ensures forall op :: op in left <==> WasLeft(run, k, op)
  {
    hide Can, Apply, Init, Inv, Kept, Leaves, NowLeft;
    if k == 0 {
      left := {};
      StartsKept(run[0]);
    } else {
      var before := KeptRun(run, k - 1);
      RunInv(run, k - 1);
      var s, s' := run[k - 1], run[k - 1 + 1];
      assert Steps(s, s') || Grows(s, s');
      if exists t: nat, e: Event :: Can(s, t, e) && s' == Apply(s, t, e) {
        var t: nat, e: Event :| Can(s, t, e) && s' == Apply(s, t, e);
        KeptStep(s, t, e, before);
        left := NowLeft(s, t, e, before);
        LeftNow(run, k - 1, t, e, before, left);
      } else {
        KeptGrows(s, s', before);
        left := before;
        forall op ensures WasLeft(run, k, op) <==> WasLeft(run, k - 1, op) {
          assert !LeftAt(run, k - 1, op);
        }
      }
    }
  }

  lemma LeftNow(run: seq<State>, last: nat, t: nat, e: Event, before: set<OpId>, left: set<OpId>)
    requires Took(run, last, t, e) && left == NowLeft(run[last], t, e, before)
    requires forall op :: op in before <==> WasLeft(run, last, op)
    ensures forall op :: op in left <==> WasLeft(run, last + 1, op)
  {
    hide Can, Apply;
    var s := run[last];
    forall op ensures LeftAt(run, last, op) <==> Leaves(s, t, e, op) {
      if u: nat, d: Digest :| Took(run, last, u, DeferOne(d)) && Leaves(s, u, DeferOne(d), op) {
        DeferTwice(s, t, e, u, d);
      }
    }
    if e.DeferOne? {
      DeferIs(s, t, e);
    }
    forall op ensures WasLeft(run, last + 1, op) <==> WasLeft(run, last, op) || LeftAt(run, last, op) {
    }
  }

  lemma StartsKept(s: State)
    requires Init(s)
    ensures Kept(s, {})
  {
  }

  lemma KeptGrows(s: State, s': State, left: set<OpId>)
    requires Kept(s, left) && Grows(s, s')
    ensures Kept(s', left)
  {
    forall op ensures Held(s', op) <==> Held(s, op) {
    }
    forall op | op in left ensures LeftOver(s', op) {
      assert LeftOver(s, op);
    }
    forall u | 0 <= u < |s'.threads| ensures SwapSeen(s', u) {
      assert SwapSeen(s, u);
    }
  }

  /** When the owner of an operation has returned, the digest is memoised if the
      operation was closed without error, and else forgotten, so that it can be
      tried again; but for the operations that the deferred function closed
      itself, whose entries stay for ever. */
  lemma AfterReturn(run: seq<State>, k: nat, op: OpId)
    requires Run(run) && k < |run| && op in run[k].ops
    requires run[k].ops[op].owner < |run[k].threads| && run[k].threads[run[k].ops[op].owner].pc == Returned
    ensures var s, d := run[k], run[k].ops[op].digest;
            && (s.ops[op].err == Nil ==> Memoised(s, d))
            && (d in s.known && s.known[d] == InFlight(op) <==> WasLeft(run, k, op))
  {
    hide Run, WasLeft;
    var left := KeptRun(run, k);
    assert !Held(run[k], op);
    assert WasLeft(run, k, op) ==> LeftOver(run[k], op);
  }
}
