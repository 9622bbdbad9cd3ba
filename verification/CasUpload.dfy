/** `UploadAll`: any number of calls share the known digests and the per-digest
    upload operations, against a content-addressed store that only grows. */
module CasUpload {
  import opened Wrappers

  type Digest = nat
  type OpId = nat

  datatype OpErr = Nil | NotFinished | Failed

  /** An `uploadOp`: its outcome, and how often its channel was closed. */
  datatype Op = Op(owner: nat, digest: Digest, err: OpErr, closed: nat)

  /** An entry of `knownDigests`. */
  datatype Known = Present | InFlight(op: OpId)

  /** Where a call of `UploadAll` is. */
  datatype Pc =
    | Partition(i: nat)  // LoadOrStore of blobs[i]
    | Query  // FindMissing
    | CloseAll(todo: set<Digest>)  // FindMissing failed: done(err) on each new op
    | MarkFound(todo: set<Digest>, swapped: Option<Digest>)
    | Batch(smalls: set<Digest>)  // small blobs not sent yet
    | Responses(todo: set<Digest>, ok: set<Digest>, smalls: set<Digest>, failed: bool)
    | Stream(todo: set<Digest>)  // large blobs being streamed
    | Wait(todo: set<Digest>)  // pending ops not waited for yet
    | Defer(todo: set<Digest>)  // the deferred loop over newBlobs
    | Returned

  datatype Thread = Thread(blobs: seq<Digest>, pc: Pc, news: map<Digest, OpId>, pending: map<Digest, OpId>,
                           missing: set<Digest>, larges: set<Digest>, err: bool, failedStreams: set<Digest>)

  datatype State = State(threads: seq<Thread>, known: map<Digest, Known>, ops: map<OpId, Op>, cas: set<Digest>)

  /** The choices the environment makes in a step. */
  datatype Event =
    | LoadOrStore(op: OpId)
    | EndPartition
    | QueryFails
    | QueryAnswers(missing: set<Digest>)
    | CloseOne(d: Digest)
    | EndClose
    | SwapFound(d: Digest)
    | FinishFound
    | EndFound(smalls: set<Digest>)
    | SendFails(stored: set<Digest>)
    | SendAnswers(batch: set<Digest>, ok: set<Digest>, stored: set<Digest>)
    | Answer(d: Digest, lost: bool)
    | EndResponses
    | EndBatch
    | StreamOne(d: Digest, sent: bool)
    | EndStream
    | WaitOne(d: Digest)
    | Cancelled
    | EndWait
    | DeferOne(d: Digest)
    | EndDefer

  /** Whether call `t` can take step `e`. The server answers each blob of a
      batch once, and reports as missing only digests it was asked about; what
      it does not report is in the store. */
  predicate Can(s: State, t: nat, e: Event) {
    && t < |s.threads|
    && var th := s.threads[t];
       match e
       case LoadOrStore(op) => th.pc.Partition? && th.pc.i < |th.blobs| && op !in s.ops
       case EndPartition => th.pc.Partition? && th.pc.i >= |th.blobs|
       case QueryFails => th.pc.Query?
       case QueryAnswers(missing) => th.pc.Query? && missing <= th.news.Keys && th.news.Keys - missing <= s.cas
       case CloseOne(d) => th.pc.CloseAll? && d in th.pc.todo && d in th.news && th.news[d] in s.ops
       case EndClose => th.pc.CloseAll? && th.pc.todo == {}
       case SwapFound(d) => th.pc.MarkFound? && th.pc.swapped == None && d in th.pc.todo && d in th.news
       case FinishFound =>
         th.pc.MarkFound? && th.pc.swapped.Some? && th.pc.swapped.value in th.news
         && th.news[th.pc.swapped.value] in s.ops
       case EndFound(smalls) => th.pc.MarkFound? && th.pc.swapped == None && th.pc.todo == {} && smalls <= th.missing
       case SendFails(stored) => th.pc.Batch? && th.pc.smalls != {}
       case SendAnswers(batch, ok, stored) => th.pc.Batch? && {} < batch <= th.pc.smalls && ok <= batch
       case Answer(d, lost) => th.pc.Responses? && d in th.pc.todo && d in th.news && th.news[d] in s.ops
       case EndResponses => th.pc.Responses? && th.pc.todo == {}
       case EndBatch => th.pc.Batch? && th.pc.smalls == {}
       case StreamOne(d, sent) => th.pc.Stream? && d in th.pc.todo && d in th.news && th.news[d] in s.ops
       case EndStream => th.pc.Stream? && th.pc.todo == {}
       case WaitOne(d) =>
         th.pc.Wait? && d in th.pc.todo && d in th.pending && th.pending[d] in s.ops
         && s.ops[th.pending[d]].closed > 0
       case Cancelled => th.pc.Wait?
       case EndWait => th.pc.Wait? && th.pc.todo == {}
       case DeferOne(d) => th.pc.Defer? && d in th.pc.todo && d in th.news && th.news[d] in s.ops
       case EndDefer => th.pc.Defer? && th.pc.todo == {}
  }

  /** `uploadOp.done`. */
  function Done(ops: map<OpId, Op>, op: OpId, err: OpErr): map<OpId, Op>
    requires op in ops
  {
    ops[op := ops[op].(err := err, closed := ops[op].closed + 1)]
  }

  /** `knownDigests.CompareAndSwap(d, op, true)`. */
  function SwapKnown(known: map<Digest, Known>, d: Digest, op: OpId): map<Digest, Known> {
    if d in known && known[d] == InFlight(op) then known[d := Present] else known
  }

  /** `knownDigests.CompareAndDelete(d, op)`. */
  function DeleteKnown(known: map<Digest, Known>, d: Digest, op: OpId): map<Digest, Known> {
    if d in known && known[d] == InFlight(op) then known - {d} else known
  }

  function Set(s: State, t: nat, th: Thread): State
    requires t < |s.threads|
  {
    s.(threads := s.threads[t := th])
  }

  /** Leaving the body: the deferred loop runs over what is left in newBlobs. */
  function Leave(th: Thread, err: bool): Thread {
    th.(pc := Defer(th.news.Keys), err := err)
  }

  /** The call itself after the step. */
  function NextThread(s: State, th: Thread, e: Event): Thread {
    match e
    case LoadOrStore(op) =>
      if !th.pc.Partition? || th.pc.i >= |th.blobs| then th
      else
        var d := th.blobs[th.pc.i];
        var th' := th.(pc := Partition(th.pc.i + 1));
        if d !in s.known then th'.(news := th.news[d := op])
        else if s.known[d].InFlight? then th'.(pending := th.pending[d := s.known[d].op])
        else th'
    case EndPartition => th.(pc := if th.news == map[] then Wait(th.pending.Keys) else Query)
    case QueryFails => th.(pc := CloseAll(th.news.Keys), err := true)
    case QueryAnswers(missing) => th.(pc := MarkFound(th.news.Keys - missing, None), missing := missing)
    case CloseOne(d) => if th.pc.CloseAll? then th.(pc := CloseAll(th.pc.todo - {d})) else th
    case EndClose => Leave(th, true)
    case SwapFound(d) => if th.pc.MarkFound? then th.(pc := MarkFound(th.pc.todo, Some(d))) else th
    case FinishFound =>
      if th.pc.MarkFound? && th.pc.swapped.Some? then
        var d := th.pc.swapped.value;
        th.(pc := MarkFound(th.pc.todo - {d}, None), news := th.news - {d})
      else th
    case EndFound(smalls) =>
      if th.missing == {} then th.(pc := Wait(th.pending.Keys))
      else th.(pc := Batch(smalls), larges := th.missing - smalls)
    case SendFails(_) => Leave(th, true)
    case SendAnswers(batch, ok, _) =>
      if th.pc.Batch? then th.(pc := Responses(batch, ok, th.pc.smalls - batch, false)) else th
    case Answer(d, lost) =>
      if th.pc.Responses? then
        var Responses(todo, ok, smalls, failed) := th.pc;
        th.(pc := Responses(todo - {d}, ok, smalls, failed || lost || d !in ok))
      else th
    case EndResponses =>
      if !th.pc.Responses? then th
      else if th.pc.failed then Leave(th, true)
      else th.(pc := Batch(th.pc.smalls))
    case EndBatch => th.(pc := Stream(th.larges))
    case StreamOne(d, sent) =>
      if !th.pc.Stream? then th
      else th.(pc := Stream(th.pc.todo - {d}), failedStreams := th.failedStreams + if sent then {} else {d})
    case EndStream => th.(pc := Wait(th.pending.Keys))  // the streaming error is dropped
    case WaitOne(d) =>
      if th.pc.Wait? && d in th.pending && th.pending[d] in s.ops && s.ops[th.pending[d]].err == Nil then
        th.(pc := Wait(th.pc.todo - {d}))
      else Leave(th, true)
    case Cancelled => Leave(th, true)
    case EndWait => Leave(th, th.err)
    case DeferOne(d) => if th.pc.Defer? then th.(pc := Defer(th.pc.todo - {d})) else th
    case EndDefer => th.(pc := Returned)
  }

  /** The step: the call, and what it does to the shared state. */
  function Apply(s: State, t: nat, e: Event): State
    requires Can(s, t, e)
  {
    var th := s.threads[t];
    var s' := Set(s, t, NextThread(s, th, e));
    match e
    case LoadOrStore(op) =>
      var d := th.blobs[th.pc.i];
      if d in s.known then s'
      else s'.(known := s.known[d := InFlight(op)], ops := s.ops[op := Op(t, d, NotFinished, 0)])
    case CloseOne(d) => s'.(ops := Done(s.ops, th.news[d], Failed))
    case SwapFound(d) => s'.(known := SwapKnown(s.known, d, th.news[d]))
    case FinishFound => s'.(ops := Done(s.ops, th.news[th.pc.swapped.value], Nil))
    case SendFails(stored) => s'.(cas := s.cas + stored)
    case SendAnswers(_, ok, stored) => s'.(cas := s.cas + ok + stored)
    case Answer(d, lost) =>
      if lost then s' else s'.(ops := Done(s.ops, th.news[d], if d in th.pc.ok then Nil else Failed))
    case StreamOne(d, sent) =>
      s'.(cas := if sent then s.cas + {d} else s.cas,
          ops := Done(s.ops, th.news[d], if sent then Nil else Failed))
    case DeferOne(d) =>
      var op := th.news[d];
      (match s.ops[op].err
       case Nil => s'.(known := SwapKnown(s.known, d, op))
       case NotFinished => s'.(ops := Done(s.ops, op, if th.err then Failed else NotFinished))
       case Failed => s'.(known := DeleteKnown(s.known, d, op)))
    case _ => s'
  }

  ghost predicate Init(s: State) {
    && s.known == map[] && s.ops == map[]
    && forall t :: 0 <= t < |s.threads| ==>
         var th := s.threads[t];
         && th == Thread(th.blobs, Partition(0), map[], map[], {}, {}, false, {})
         && Distinct(th.blobs)
  }

  ghost predicate Distinct(blobs: seq<Digest>) {
    forall i, j :: 0 <= i < j < |blobs| ==> blobs[i] != blobs[j]
  }

  ghost predicate Steps(s: State, s': State) {
    exists t: nat, e: Event :: Can(s, t, e) && s' == Apply(s, t, e)
  }

  /** Another client stores blobs. */
  ghost predicate Grows(s: State, s': State) {
    s.cas <= s'.cas && s' == s.(cas := s'.cas)
  }

  ghost predicate Run(run: seq<State>) {
    && run != [] && Init(run[0])
    && forall k :: 0 <= k < |run| - 1 ==> Steps(run[k], run[k + 1]) || Grows(run[k], run[k + 1])
  }

  // --------------------------------------------------------------- invariant

  function BlobSet(blobs: seq<Digest>): set<Digest> {
    From(blobs, 0)
  }

  /** The blobs from place `i` on. */
  function From(blobs: seq<Digest>, i: nat): set<Digest> {
    set k | i <= k < |blobs| :: blobs[k]
  }

  /** The blobs before place `i`. */
  function Before(blobs: seq<Digest>, i: nat): set<Digest> {
    set k | 0 <= k < i && k < |blobs| :: blobs[k]
  }

  lemma Split(blobs: seq<Digest>, i: nat)
    requires i < |blobs| && Distinct(blobs)
    ensures blobs[i] in BlobSet(blobs) && blobs[i] !in Before(blobs, i)
    ensures From(blobs, i) == {blobs[i]} + From(blobs, i + 1)
    ensures Before(blobs, i + 1) == Before(blobs, i) + {blobs[i]}
  {
  }

  lemma NoneLeft(blobs: seq<Digest>, i: nat)
    requires i >= |blobs|
    ensures From(blobs, i) == {}
  {
  }

  /** New digests whose operation is certainly not closed yet. */
  function MustBeOpen(th: Thread): set<Digest> {
    match th.pc
    case Partition(_) => th.news.Keys
    case Query => th.news.Keys
    case CloseAll(todo) => todo
    case MarkFound(todo, _) => todo + th.missing
    case Batch(smalls) => smalls + th.larges
    case Responses(todo, _, smalls, _) => todo + smalls + th.larges
    case Stream(todo) => todo
    case _ => {}
  }

  /** New digests whose operation may still be open. */
  function MayBeOpen(th: Thread): set<Digest> {
    match th.pc
    case Responses(_, _, _, failed) => if failed then th.news.Keys else MustBeOpen(th)
    case Defer(todo) => if th.err then todo else {}
    case _ => MustBeOpen(th)
  }

  /** Digests of the call not yet known to be stored. */
  function Owed(th: Thread): set<Digest> {
    match th.pc
    case Partition(i) => th.news.Keys + th.pending.Keys + From(th.blobs, i)
    case Query => th.news.Keys + th.pending.Keys
    case MarkFound(todo, _) => todo + th.missing + th.pending.Keys
    case Batch(smalls) => smalls + th.larges + th.pending.Keys
    case Responses(todo, _, smalls, failed) =>
      if failed then BlobSet(th.blobs) else todo + smalls + th.larges + th.pending.Keys
    case Stream(todo) => todo + th.pending.Keys
    case Wait(todo) => todo
    case _ => {}
  }

  /** Does the call still hold the shared entry of new digest `d`? */
  predicate Holds(th: Thread, d: Digest) {
    match th.pc
    case MarkFound(_, swapped) => swapped != Some(d)
    case Defer(todo) => d in todo
    case Returned => false
    case _ => true
  }

  ghost predicate PcInv(s: State, th: Thread) {
    match th.pc
    case Partition(i) =>
      && th.news.Keys + th.pending.Keys <= Before(th.blobs, i)
      && !th.err
    case Query => !th.err
    case CloseAll(todo) => todo <= th.news.Keys && th.err
    case MarkFound(todo, swapped) =>
      && todo + th.missing == th.news.Keys && todo !! th.missing && todo <= s.cas
      && (swapped.Some? ==> swapped.value in todo) && !th.err
    case Batch(smalls) => smalls + th.larges <= th.news.Keys && smalls !! th.larges && !th.err
    case Responses(todo, ok, smalls, _) =>
      && todo + smalls + th.larges <= th.news.Keys && ok <= s.cas && !th.err
      && todo !! smalls && todo !! th.larges && smalls !! th.larges
    case Stream(todo) => todo <= th.news.Keys && !th.err
    case Wait(todo) => todo <= th.pending.Keys && !th.err
    case Defer(todo) => todo <= th.news.Keys
    case Returned => true
  }

  ghost predicate NewsInv(s: State, t: nat)
    requires t < |s.threads|
  {
    var th := s.threads[t];
    forall d :: d in th.news ==>
      var op := th.news[d];
      && op in s.ops && s.ops[op].owner == t && s.ops[op].digest == d
      && (Holds(th, d) ==> d in s.known && s.known[d] == InFlight(op))
      && (d in MustBeOpen(th) ==> s.ops[op].closed == 0)
  }

  ghost predicate ThreadInv(s: State, t: nat)
    requires t < |s.threads|
  {
    var th := s.threads[t];
    && Distinct(th.blobs)
    && th.news.Keys + th.pending.Keys <= BlobSet(th.blobs)
    && PcInv(s, th)
    && NewsInv(s, t)
    && (forall d :: d in th.pending ==> th.pending[d] in s.ops && s.ops[th.pending[d]].digest == d)
    && th.failedStreams <= BlobSet(th.blobs)
    && (th.err || BlobSet(th.blobs) <= s.cas + th.failedStreams + Owed(th))
  }

  ghost predicate OpInv(s: State, op: OpId)
    requires op in s.ops
  {
    var o := s.ops[op];
    && o.owner < |s.threads|
    && o.closed == (if o.err == NotFinished then 0 else 1)
    && (o.err == Nil ==> o.digest in s.cas)
    && (o.closed == 0 ==>
          var th := s.threads[o.owner];
          o.digest in th.news && th.news[o.digest] == op && o.digest in MayBeOpen(th))
  }

  ghost predicate KnownInv(s: State) {
    forall d :: d in s.known ==>
      match s.known[d]
      case Present => d in s.cas
      case InFlight(op) => op in s.ops && s.ops[op].digest == d
  }

  ghost predicate Inv(s: State) {
    && (forall t :: 0 <= t < |s.threads| ==> ThreadInv(s, t))
    && (forall op :: op in s.ops ==> OpInv(s, op))
    && KnownInv(s)
  }

  lemma InitInv(s: State)
    requires Init(s)
    ensures Inv(s)
  {
    forall t | 0 <= t < |s.threads| ensures ThreadInv(s, t) {
      var th := s.threads[t];
      assert Owed(th) == {} + {} + From(th.blobs, 0);
    }
  }

  lemma GrowsKeepsInv(s: State, s': State)
    requires Inv(s) && Grows(s, s')
    ensures Inv(s')
  {
    forall t | 0 <= t < |s'.threads| ensures ThreadInv(s', t) {
      assert ThreadInv(s, t);
    }
    forall op | op in s'.ops ensures OpInv(s', op) {
      assert OpInv(s, op);
    }
  }

  /** A step that leaves the operations and the entries of others alone. */
  ghost predicate Frame(s: State, t: nat, s': State)
    requires t < |s.threads|
  {
    && |s'.threads| == |s.threads|
    && (forall u :: 0 <= u < |s.threads| && u != t ==> s'.threads[u] == s.threads[u])
    && s.cas <= s'.cas
    && (forall op :: op in s.ops ==>
          op in s'.ops && s'.ops[op].owner == s.ops[op].owner && s'.ops[op].digest == s.ops[op].digest
                                     && (s.ops[op].owner != t ==> s'.ops[op] == s.ops[op]))
    && (forall d, op :: d in s.known && s.known[d] == InFlight(op) && op in s.ops && s.ops[op].owner != t ==>
          d in s'.known && s'.known[d] == InFlight(op))
  }

  lemma OthersKeep(s: State, t: nat, s': State, u: nat)
    requires t < |s.threads| && Frame(s, t, s') && u < |s.threads| && u != t
    requires ThreadInv(s, u)
    ensures ThreadInv(s', u)
  {
    hide MustBeOpen, MayBeOpen, Owed, Holds, BlobSet;
    var th := s.threads[u];
    forall d | d in th.news
      ensures var op := th.news[d];
              && op in s'.ops && s'.ops[op].owner == u && s'.ops[op].digest == d
              && (Holds(th, d) ==> d in s'.known && s'.known[d] == InFlight(op))
              && (d in MustBeOpen(th) ==> s'.ops[op].closed == 0)
    {
    }
  }

  /** What remains to show for a step of `t`. */
  lemma StepKeepsInv(s: State, t: nat, s': State)
    requires Inv(s) && t < |s.threads| && Frame(s, t, s')
    requires ThreadInv(s', t)
    requires forall op :: op in s'.ops && (op !in s.ops || s.ops[op].owner == t) ==> OpInv(s', op)
    requires KnownInv(s')
    ensures Inv(s')
  {
    hide ThreadInv, MustBeOpen, MayBeOpen, KnownInv;
    forall u | 0 <= u < |s'.threads| ensures ThreadInv(s', u) {
      if u != t {
        OthersKeep(s, t, s', u);
      }
    }
    forall op | op in s'.ops ensures OpInv(s', op) {
      if op in s.ops && s.ops[op].owner != t {
        assert OpInv(s, op);
      }
    }
  }

  /** A step that changes neither operations nor known digests. */
  lemma QuietStep(s: State, t: nat, th: Thread, stored: set<Digest>)
    requires Inv(s) && t < |s.threads|
    requires var s' := Set(s, t, th).(cas := s.cas + stored);
             && ThreadInv(s', t)
             && th.news == s.threads[t].news && MayBeOpen(s.threads[t]) <= MayBeOpen(th)
    ensures Inv(Set(s, t, th).(cas := s.cas + stored))
  {
    hide ThreadInv, MayBeOpen;
    var s' := Set(s, t, th).(cas := s.cas + stored);
    forall op | op in s'.ops && s.ops[op].owner == t ensures OpInv(s', op) {
      assert OpInv(s, op);
    }
    StepKeepsInv(s, t, s');
  }

  /** A step that closes one open operation of `t`. */
  lemma {:induction false} CloseStep(s: State, t: nat, d: Digest, err: OpErr, th: Thread, stored: set<Digest>)
    requires Inv(s) && t < |s.threads| && d in s.threads[t].news
    requires var op := s.threads[t].news[d];
             && op in s.ops && s.ops[op].closed == 0
             && s.ops[op].digest == d && s.ops[op].owner == t
             && err != NotFinished && (err == Nil ==> d in s.cas + stored)
             && th.news.Keys >= MayBeOpen(s.threads[t]) - {d}
             && (forall k :: k in th.news ==> k in s.threads[t].news && th.news[k] == s.threads[t].news[k])
             && MayBeOpen(s.threads[t]) - {d} <= MayBeOpen(th)
             && ThreadInv(Set(s, t, th).(cas := s.cas + stored, ops := Done(s.ops, op, err)), t)
    ensures var op := s.threads[t].news[d];
            Inv(Set(s, t, th).(cas := s.cas + stored, ops := Done(s.ops, op, err)))
  {
    hide ThreadInv, MayBeOpen;
    var op := s.threads[t].news[d];
    var s' := Set(s, t, th).(cas := s.cas + stored, ops := Done(s.ops, op, err));
    forall k | k in s'.ops && s.ops[k].owner == t ensures OpInv(s', k) {
      assert OpInv(s, k);
      if k != op && s.ops[k].closed == 0 {
        assert s.ops[k].digest != d;
      }
    }
    StepKeepsInv(s, t, s');
  }

  lemma LoadOrStoreStep(s: State, t: nat, e: Event)
    requires Inv(s) && Can(s, t, e) && e.LoadOrStore?
    ensures Inv(Apply(s, t, e))
  {
    hide BlobSet, From, Before;
    var th, s' := s.threads[t], Apply(s, t, e);
    var i := th.pc.i;
    var d := th.blobs[i];
    assert ThreadInv(s, t);
    Split(th.blobs, i);
    if d in s.known {
      assert s' == Set(s, t, s'.threads[t]).(cas := s.cas + {});
      QuietStep(s, t, s'.threads[t], {});
    } else {
      StoredStep(s, t, e);
    }
  }

  /** The entry was free: a new operation. */
  lemma StoredStep(s: State, t: nat, e: Event)
    requires Inv(s) && Can(s, t, e) && e.LoadOrStore?
    requires s.threads[t].blobs[s.threads[t].pc.i] !in s.known
    ensures Inv(Apply(s, t, e))
  {
    hide ThreadInv, KnownInv;
    var s' := Apply(s, t, e);
    StoredThread(s, t, e);
    StoredKnown(s, t, e);
    forall op | op in s'.ops && (op !in s.ops || s.ops[op].owner == t) ensures OpInv(s', op) {
      if op in s.ops {
        assert OpInv(s, op);
      }
    }
    StepKeepsInv(s, t, s');
  }

  lemma StoredIs(s: State, t: nat, e: Event)
    requires Can(s, t, e) && e.LoadOrStore? && s.threads[t].blobs[s.threads[t].pc.i] !in s.known
    ensures t < |s.threads|
    ensures var th := s.threads[t];
            && th.pc.Partition? && th.pc.i < |th.blobs| && e.op !in s.ops
            && var d := th.blobs[th.pc.i];
               Apply(s, t, e)
               == Set(s, t, th.(pc := Partition(th.pc.i + 1), news := th.news[d := e.op]))
                  .(known := s.known[d := InFlight(e.op)], ops := s.ops[e.op := Op(t, d, NotFinished, 0)])
  {
  }

  lemma StoredThread(s: State, t: nat, e: Event)
    requires Inv(s) && Can(s, t, e) && e.LoadOrStore?
    requires s.threads[t].blobs[s.threads[t].pc.i] !in s.known
    ensures ThreadInv(Apply(s, t, e), t)
    ensures s.threads[t].blobs[s.threads[t].pc.i] !in s.threads[t].news
  {
    hide BlobSet, From, Before, OpInv, KnownInv, Apply, NextThread, Can;
    StoredIs(s, t, e);
    assert ThreadInv(s, t);
    Split(s.threads[t].blobs, s.threads[t].pc.i);
  }

  lemma StoredKnown(s: State, t: nat, e: Event)
    requires Inv(s) && Can(s, t, e) && e.LoadOrStore?
    requires s.threads[t].blobs[s.threads[t].pc.i] !in s.known
    ensures KnownInv(Apply(s, t, e))
  {
    hide ThreadInv, OpInv;
  }

  lemma SendEvents(s: State, t: nat, e: Event)
    requires Inv(s) && Can(s, t, e) && (e.SendFails? || e.SendAnswers?)
    ensures Inv(Apply(s, t, e))
  {
    if e.SendFails? {
      SendFailsStep(s, t, e);
    } else {
      SendAnswersStep(s, t, e);
    }
  }

  lemma SendFailsStep(s: State, t: nat, e: Event)
    requires Inv(s) && Can(s, t, e) && e.SendFails?
    ensures Inv(Apply(s, t, e))
  {
    hide BlobSet, KnownInv, From, Before;
    var s' := Apply(s, t, e);
    assert ThreadInv(s, t);
    assert s' == Set(s, t, s'.threads[t]).(cas := s.cas + e.stored);
    QuietStep(s, t, s'.threads[t], e.stored);
  }

  lemma SendAnswersStep(s: State, t: nat, e: Event)
    requires Inv(s) && Can(s, t, e) && e.SendAnswers?
    ensures Inv(Apply(s, t, e))
  {
    hide BlobSet, KnownInv, From, Before;
    var s' := Apply(s, t, e);
    assert ThreadInv(s, t);
    assert s' == Set(s, t, s'.threads[t]).(cas := s.cas + (e.ok + e.stored));
    QuietStep(s, t, s'.threads[t], e.ok + e.stored);
  }

  lemma EndBatchStep(s: State, t: nat)
    requires Inv(s) && Can(s, t, EndBatch)
    ensures Inv(Apply(s, t, EndBatch))
  {
    hide BlobSet, KnownInv, From, Before;
    var s' := Apply(s, t, EndBatch);
    assert ThreadInv(s, t);
    assert s' == Set(s, t, s'.threads[t]).(cas := s.cas + {});
    QuietStep(s, t, s'.threads[t], {});
  }

  lemma EndResponsesStep(s: State, t: nat)
    requires Inv(s) && Can(s, t, EndResponses)
    ensures Inv(Apply(s, t, EndResponses))
  {
    hide BlobSet, KnownInv, From, Before;
    var s' := Apply(s, t, EndResponses);
    assert ThreadInv(s, t);
    assert s' == Set(s, t, s'.threads[t]).(cas := s.cas + {});
    QuietStep(s, t, s'.threads[t], {});
  }

  lemma QueryEvents(s: State, t: nat, e: Event)
    requires Inv(s) && Can(s, t, e)
    requires e.EndPartition? || e.QueryFails? || e.QueryAnswers?
    ensures Inv(Apply(s, t, e))
  {
    hide KnownInv, From, Before, BlobSet;
    var th, s' := s.threads[t], Apply(s, t, e);
    assert ThreadInv(s, t);
    assert s' == Set(s, t, s'.threads[t]).(cas := s.cas + {});
    if e.EndPartition? {
      NoneLeft(th.blobs, th.pc.i);
    }
    QuietStep(s, t, s'.threads[t], {});
  }

  lemma FoundEvents(s: State, t: nat, e: Event)
    requires Inv(s) && Can(s, t, e)
    requires e.EndFound?
    ensures Inv(Apply(s, t, e))
  {
    hide KnownInv, From, Before, BlobSet;
    var th, s' := s.threads[t], Apply(s, t, e);
    assert ThreadInv(s, t);
    assert s' == Set(s, t, s'.threads[t]).(cas := s.cas + {});
    QuietStep(s, t, s'.threads[t], {});
  }

  lemma EndListEvents(s: State, t: nat, e: Event)
    requires Inv(s) && Can(s, t, e)
    requires e.EndClose? || e.EndStream?
    ensures Inv(Apply(s, t, e))
  {
    hide KnownInv, From, Before, BlobSet;
    var th, s' := s.threads[t], Apply(s, t, e);
    assert ThreadInv(s, t);
    assert s' == Set(s, t, s'.threads[t]).(cas := s.cas + {});
    QuietStep(s, t, s'.threads[t], {});
  }

  lemma EndEvents(s: State, t: nat, e: Event)
    requires Inv(s) && Can(s, t, e)
    requires e.Cancelled? || e.EndWait? || e.EndDefer?
    ensures Inv(Apply(s, t, e))
  {
    hide KnownInv, From, Before, BlobSet;
    var th, s' := s.threads[t], Apply(s, t, e);
    assert ThreadInv(s, t);
    assert s' == Set(s, t, s'.threads[t]).(cas := s.cas + {});
    QuietStep(s, t, s'.threads[t], {});
  }

  lemma CloseOneStep(s: State, t: nat, e: Event)
    requires Inv(s) && Can(s, t, e) && e.CloseOne?
    ensures Inv(Apply(s, t, e))
  {
    hide KnownInv, BlobSet;
    var th, s' := s.threads[t], Apply(s, t, e);
    assert ThreadInv(s, t);
    assert s' == Set(s, t, s'.threads[t]).(cas := s.cas + {}, ops := Done(s.ops, th.news[e.d], Failed));
    CloseStep(s, t, e.d, Failed, s'.threads[t], {});
  }

  lemma FinishFoundIs(s: State, t: nat)
    requires Can(s, t, FinishFound)
    ensures t < |s.threads|
    ensures var th := s.threads[t];
            && th.pc.MarkFound? && th.pc.swapped.Some?
            && var d := th.pc.swapped.value;
               && d in th.news && th.news[d] in s.ops
               && Apply(s, t, FinishFound)
                  == Set(s, t, th.(pc := MarkFound(th.pc.todo - {d}, None), news := th.news - {d}))
                     .(cas := s.cas + {}, ops := Done(s.ops, th.news[d], Nil))
  {
  }

  lemma FinishFoundStep(s: State, t: nat, e: Event)
    requires Inv(s) && Can(s, t, e) && e.FinishFound?
    ensures Inv(Apply(s, t, e))
  {
    hide KnownInv, BlobSet, From, Before, Apply, NextThread, Can;
    FinishFoundIs(s, t);
    var s' := Apply(s, t, e);
    assert ThreadInv(s, t);
    CloseStep(s, t, s.threads[t].pc.swapped.value, Nil, s'.threads[t], {});
  }

  lemma SwapFoundIs(s: State, t: nat, d: Digest)
    requires Can(s, t, SwapFound(d))
    ensures t < |s.threads|
    ensures var th := s.threads[t];
            && th.pc.MarkFound? && th.pc.swapped == None && d in th.pc.todo && d in th.news
            && Apply(s, t, SwapFound(d))
               == Set(s, t, th.(pc := MarkFound(th.pc.todo, Some(d)))).(known := SwapKnown(s.known, d, th.news[d]))
  {
  }

  lemma SwapFoundThread(s: State, t: nat, e: Event)
    requires Inv(s) && Can(s, t, e) && e.SwapFound?
    ensures ThreadInv(Apply(s, t, e), t)
    ensures forall op :: op in s.ops && s.ops[op].owner == t ==> OpInv(Apply(s, t, e), op)
  {
    hide BlobSet, From, Before, Apply, NextThread, Can, KnownInv;
    SwapFoundIs(s, t, e.d);
    assert ThreadInv(s, t);
    forall op | op in s.ops && s.ops[op].owner == t ensures OpInv(Apply(s, t, e), op) {
      assert OpInv(s, op);
    }
  }

  lemma SwapFoundStep(s: State, t: nat, e: Event)
    requires Inv(s) && Can(s, t, e) && e.SwapFound?
    ensures Inv(Apply(s, t, e))
  {
    hide BlobSet, From, Before, Apply, NextThread, Can, OpInv, MayBeOpen, MustBeOpen, Owed;
    SwapFoundIs(s, t, e.d);
    SwapFoundThread(s, t, e);
    assert ThreadInv(s, t);
    StepKeepsInv(s, t, Apply(s, t, e));
  }

  lemma AnswerStep(s: State, t: nat, e: Event)
    requires Inv(s) && Can(s, t, e) && e.Answer?
    ensures Inv(Apply(s, t, e))
  {
    if e.lost {
      AnswerLost(s, t, e);
    } else {
      AnswerTaken(s, t, e);
    }
  }

  lemma AnswerLost(s: State, t: nat, e: Event)
    requires Inv(s) && Can(s, t, e) && e.Answer? && e.lost
    ensures Inv(Apply(s, t, e))
  {
    hide KnownInv, BlobSet;
    var s' := Apply(s, t, e);
    assert ThreadInv(s, t);
    assert s' == Set(s, t, s'.threads[t]).(cas := s.cas + {});
    QuietStep(s, t, s'.threads[t], {});
  }

  lemma AnswerTaken(s: State, t: nat, e: Event)
    requires Inv(s) && Can(s, t, e) && e.Answer? && !e.lost
    ensures Inv(Apply(s, t, e))
  {
    hide KnownInv, BlobSet;
    var th, s' := s.threads[t], Apply(s, t, e);
    assert ThreadInv(s, t);
    var err := if e.d in th.pc.ok then Nil else Failed;
    assert s' == Set(s, t, s'.threads[t]).(cas := s.cas + {}, ops := Done(s.ops, th.news[e.d], err));
    CloseStep(s, t, e.d, err, s'.threads[t], {});
  }

  lemma StreamOneStep(s: State, t: nat, e: Event)
    requires Inv(s) && Can(s, t, e) && e.StreamOne?
    ensures Inv(Apply(s, t, e))
  {
    if e.sent {
      StreamSent(s, t, e);
    } else {
      StreamFailed(s, t, e);
    }
  }

  lemma StreamSent(s: State, t: nat, e: Event)
    requires Inv(s) && Can(s, t, e) && e.StreamOne? && e.sent
    ensures Inv(Apply(s, t, e))
  {
    hide KnownInv, BlobSet, From, Before;
    var th, s' := s.threads[t], Apply(s, t, e);
    assert ThreadInv(s, t);
    assert s' == Set(s, t, s'.threads[t]).(cas := s.cas + {e.d}, ops := Done(s.ops, th.news[e.d], Nil));
    CloseStep(s, t, e.d, Nil, s'.threads[t], {e.d});
  }

  lemma StreamFailed(s: State, t: nat, e: Event)
    requires Inv(s) && Can(s, t, e) && e.StreamOne? && !e.sent
    ensures Inv(Apply(s, t, e))
  {
    hide KnownInv, BlobSet, From, Before;
    var th, s' := s.threads[t], Apply(s, t, e);
    assert ThreadInv(s, t);
    assert s' == Set(s, t, s'.threads[t]).(cas := s.cas + {}, ops := Done(s.ops, th.news[e.d], Failed));
    CloseStep(s, t, e.d, Failed, s'.threads[t], {});
  }

  lemma WaitOneStep(s: State, t: nat, e: Event)
    requires Inv(s) && Can(s, t, e) && e.WaitOne?
    ensures Inv(Apply(s, t, e))
  {
    hide KnownInv;
    var th, s' := s.threads[t], Apply(s, t, e);
    assert ThreadInv(s, t) && OpInv(s, th.pending[e.d]);
    assert s' == Set(s, t, s'.threads[t]).(cas := s.cas + {});
    QuietStep(s, t, s'.threads[t], {});
  }

  lemma DeferOneStep(s: State, t: nat, e: Event)
    requires Inv(s) && Can(s, t, e) && e.DeferOne?
    ensures Inv(Apply(s, t, e))
  {
    hide BlobSet, From, Before, KnownInv;
    var th, s' := s.threads[t], Apply(s, t, e);
    var op := th.news[e.d];
    assert ThreadInv(s, t) && OpInv(s, op);
    if s.ops[op].err == NotFinished {
      assert s' == Set(s, t, s'.threads[t]).(cas := s.cas + {}, ops := Done(s.ops, op, Failed));
      CloseStep(s, t, e.d, Failed, s'.threads[t], {});
    } else {
      DeferKnown(s, t, e);
    }
  }

  /** The deferred loop memoises a finished operation or forgets a failed one. */
  lemma DeferKnown(s: State, t: nat, e: Event)
    requires Inv(s) && Can(s, t, e) && e.DeferOne?
    requires s.ops[s.threads[t].news[e.d]].err != NotFinished
    ensures Inv(Apply(s, t, e))
  {
    hide ThreadInv, KnownInv;
    var th, s' := s.threads[t], Apply(s, t, e);
    DeferThread(s, t, e);
    forall k | k in s'.ops && s.ops[k].owner == t ensures OpInv(s', k) {
      assert OpInv(s, k) && OpInv(s, th.news[e.d]);
    }
    StepKeepsInv(s, t, s');
  }

  lemma DeferThread(s: State, t: nat, e: Event)
    requires Inv(s) && Can(s, t, e) && e.DeferOne?
    requires s.ops[s.threads[t].news[e.d]].err != NotFinished
    ensures ThreadInv(Apply(s, t, e), t) && KnownInv(Apply(s, t, e))
    ensures s.ops[s.threads[t].news[e.d]].owner == t
  {
    hide BlobSet, From, Before;
    assert ThreadInv(s, t) && OpInv(s, s.threads[t].news[e.d]);
  }

  lemma ApplyKeepsInv(s: State, t: nat, e: Event)
    requires Inv(s) && Can(s, t, e)
    ensures Inv(Apply(s, t, e))
  {
    hide Inv, Can, Apply;
    match e
    case LoadOrStore(_) => LoadOrStoreStep(s, t, e);
    case EndPartition => QueryEvents(s, t, e);
    case QueryFails => QueryEvents(s, t, e);
    case QueryAnswers(_) => QueryEvents(s, t, e);
    case CloseOne(_) => CloseOneStep(s, t, e);
    case EndClose => EndListEvents(s, t, e);
    case SwapFound(_) => SwapFoundStep(s, t, e);
    case FinishFound => FinishFoundStep(s, t, e);
    case EndFound(_) => FoundEvents(s, t, e);
    case SendFails(_) => SendEvents(s, t, e);
    case SendAnswers(_, _, _) => SendEvents(s, t, e);
    case Answer(_, _) => AnswerStep(s, t, e);
    case EndResponses => EndResponsesStep(s, t);
    case EndBatch => EndBatchStep(s, t);
    case StreamOne(_, _) => StreamOneStep(s, t, e);
    case EndStream => EndListEvents(s, t, e);
    case WaitOne(_) => WaitOneStep(s, t, e);
    case Cancelled => EndEvents(s, t, e);
    case EndWait => EndEvents(s, t, e);
    case DeferOne(_) => DeferOneStep(s, t, e);
    case EndDefer => EndEvents(s, t, e);
  }

  lemma {:induction false} RunInv(run: seq<State>, k: nat)
    requires Run(run) && k < |run|
    ensures Inv(run[k])
  {
    hide Inv, Can, Apply, Init, Grows;
    if k == 0 {
      InitInv(run[0]);
    } else {
      RunInv(run, k - 1);
      var s, s' := run[k - 1], run[k - 1 + 1];
      assert Steps(s, s') || Grows(s, s');
      if Grows(s, s') {
        GrowsKeepsInv(s, s');
      } else {
        var t: nat, e: Event :| Can(s, t, e) && s' == Apply(s, t, e);
        ApplyKeepsInv(s, t, e);
      }
    }
  }

  // ------------------------------------------------------------------ safety

  /** In every interleaving: a memoised digest and a digest whose operation was
      closed without error are really in the store. */
  lemma MemoisedIsStored(run: seq<State>, k: nat, d: Digest)
    requires Run(run) && k < |run|
    ensures d in run[k].known && run[k].known[d] == Present ==> d in run[k].cas
    ensures forall op :: op in run[k].ops && run[k].ops[op].closed > 0 && run[k].ops[op].err == Nil ==>
              run[k].ops[op].digest in run[k].cas
  {
    hide Run, ThreadInv;
    RunInv(run, k);
    forall op | op in run[k].ops && run[k].ops[op].closed > 0 && run[k].ops[op].err == Nil
      ensures run[k].ops[op].digest in run[k].cas
    {
      assert OpInv(run[k], op);
    }
  }

  /** A call is uploading a digest from its query on, until the operation is
      closed. */
  predicate Uploading(th: Thread, d: Digest) {
    (th.pc.Batch? || th.pc.Responses? || th.pc.Stream?) && d in MustBeOpen(th)
  }

  /** No two calls upload the same digest at the same time. */
  lemma NoDoubleUpload(run: seq<State>, k: nat, t: nat, u: nat, d: Digest)
    requires Run(run) && k < |run| && t < |run[k].threads| && u < |run[k].threads|
    requires Uploading(run[k].threads[t], d) && Uploading(run[k].threads[u], d)
    ensures t == u
  {
    hide Run, OpInv, KnownInv, Owed, MayBeOpen;
    RunInv(run, k);
    assert ThreadInv(run[k], t) && ThreadInv(run[k], u);
  }

  /** What a call that returned nil did not leave in the store is what it failed
      to stream and nobody else has stored since. So it left all its blobs there
      iff those it failed to stream are. */
  lemma NilMeansStored(run: seq<State>, k: nat, t: nat)
    requires Run(run) && k < |run| && t < |run[k].threads|
    requires run[k].threads[t].pc == Returned && !run[k].threads[t].err
    ensures var th, cas := run[k].threads[t], run[k].cas;
            && BlobSet(th.blobs) - cas == th.failedStreams - cas
            && (BlobSet(th.blobs) <= cas <==> th.failedStreams <= cas)
  {
    hide Run, OpInv, KnownInv, BlobSet;
    RunInv(run, k);
    assert ThreadInv(run[k], t);
  }

  /** The condition on streamed uploads is needed: their error is dropped, and a
      call can return nil with its blob missing. */
  lemma DroppedStreamError() returns (run: seq<State>)
    ensures Run(run)
    ensures var s := run[|run| - 1];
            && |s.threads| == 1 && s.threads[0].blobs == [7]
            && s.threads[0].pc == Returned && !s.threads[0].err && s.threads[0].failedStreams == {7} && 7 !in s.cas
  {
    hide Init, Can, Apply;
    var s0 := State([Thread([7], Partition(0), map[], map[], {}, {}, false, {})], map[], map[], {});
    StartsEmpty(s0);
    var s1, s2, s3 := DroppedQuery(s0);
    var s4, s5, s6 := DroppedStream(s3);
    var s7, s8, s9, s10 := DroppedReturn(s6);
    run := [s0, s1, s2, s3, s4, s5, s6, s7, s8, s9, s10];
  }

  lemma StartsEmpty(s: State)
    requires s == State([Thread([7], Partition(0), map[], map[], {}, {}, false, {})], map[], map[], {})
    ensures Init(s)
  {
  }

  /** The only call is at `pc`, its operation 0 for digest 7. */
  ghost predicate Alone(s: State, pc: Pc, failed: set<Digest>) {
    && |s.threads| == 1 && s.cas == {} && 0 in s.ops
    && var th := s.threads[0];
       && th.blobs == [7] && th.pc == pc && th.news == map[7 := 0] && th.pending == map[]
       && !th.err && th.failedStreams == failed
  }

  lemma DroppedStore(s0: State) returns (s1: State)
    requires s0 == State([Thread([7], Partition(0), map[], map[], {}, {}, false, {})], map[], map[], {})
    ensures Steps(s0, s1) && s1 == Apply(s0, 0, LoadOrStore(0))
    ensures s1.threads == [Thread([7], Partition(1), map[7 := 0], map[], {}, {}, false, {})]
  {
    assert Can(s0, 0, LoadOrStore(0));
    s1 := Apply(s0, 0, LoadOrStore(0));
  }

  lemma DroppedQuery(s0: State) returns (s1: State, s2: State, s3: State)
    requires s0 == State([Thread([7], Partition(0), map[], map[], {}, {}, false, {})], map[], map[], {})
    ensures Steps(s0, s1) && Steps(s1, s2) && Steps(s2, s3)
    ensures Alone(s3, MarkFound({}, None), {}) && s3.threads[0].missing == {7}
  {
    s1 := DroppedStore(s0);
    assert Can(s1, 0, EndPartition);
    s2 := Apply(s1, 0, EndPartition);
    assert s2.threads[0].news.Keys == {7};
    assert Can(s2, 0, QueryAnswers({7}));
    s3 := Apply(s2, 0, QueryAnswers({7}));
  }

  lemma DroppedStream(s3: State) returns (s4: State, s5: State, s6: State)
    requires Alone(s3, MarkFound({}, None), {}) && s3.threads[0].missing == {7}
    ensures Steps(s3, s4) && Steps(s4, s5) && Steps(s5, s6)
    ensures Alone(s6, Stream({}), {7})
  {
    hide Apply, Can, Steps;
    s4 := AloneFound(s3);
    s5 := AloneBatch(s4);
    s6 := AloneStream(s5);
  }

  lemma AloneFound(s: State) returns (s': State)
    requires Alone(s, MarkFound({}, None), {}) && s.threads[0].missing == {7}
    ensures Steps(s, s') && Alone(s', Batch({}), {}) && s'.threads[0].larges == {7}
  {
    assert Can(s, 0, EndFound({}));
    s' := Apply(s, 0, EndFound({}));
    assert {7} - {} == {7};
  }

  lemma AloneBatch(s: State) returns (s': State)
    requires Alone(s, Batch({}), {}) && s.threads[0].larges == {7}
    ensures Steps(s, s') && Alone(s', Stream({7}), {})
  {
    assert Can(s, 0, EndBatch);
    s' := Apply(s, 0, EndBatch);
  }

  lemma AloneStream(s: State) returns (s': State)
    requires Alone(s, Stream({7}), {})
    ensures Steps(s, s') && Alone(s', Stream({}), {7})
  {
    assert Can(s, 0, StreamOne(7, false));
    s' := Apply(s, 0, StreamOne(7, false));
    assert {7} - {7} == {};
  }

  lemma DroppedReturn(s6: State) returns (s7: State, s8: State, s9: State, s10: State)
    requires Alone(s6, Stream({}), {7})
    ensures Steps(s6, s7) && Steps(s7, s8) && Steps(s8, s9) && Steps(s9, s10)
    ensures Alone(s10, Returned, {7})
  {
    hide Apply, Can, Steps;
    s7 := AloneWait(s6);
    s8 := AloneLeave(s7);
    s9 := AloneDefer(s8);
    s10 := AloneReturn(s9);
  }

  lemma AloneWait(s: State) returns (s': State)
    requires Alone(s, Stream({}), {7})
    ensures Steps(s, s') && Alone(s', Wait({}), {7})
  {
    assert Can(s, 0, EndStream);
    s' := Apply(s, 0, EndStream);
  }

  lemma AloneLeave(s: State) returns (s': State)
    requires Alone(s, Wait({}), {7})
    ensures Steps(s, s') && Alone(s', Defer({7}), {7})
  {
    assert Can(s, 0, EndWait);
    s' := Apply(s, 0, EndWait);
  }

  lemma AloneDefer(s: State) returns (s': State)
    requires Alone(s, Defer({7}), {7})
    ensures Steps(s, s') && Alone(s', Defer({}), {7})
  {
    assert Can(s, 0, DeferOne(7));
    s' := Apply(s, 0, DeferOne(7));
    assert {7} - {7} == {};
  }

  lemma AloneReturn(s: State) returns (s': State)
    requires Alone(s, Defer({}), {7})
    ensures Steps(s, s') && Alone(s', Returned, {7})
  {
    assert Can(s, 0, EndDefer);
    s' := Apply(s, 0, EndDefer);
  }

  // -------------------------------------------------------- closing, waiting

  /** Each operation is closed at most once, exactly once by the time its owner
      returns; and only its owner ever holds it as new. */
  lemma ClosedExactlyOnce(run: seq<State>, k: nat, op: OpId)
    requires Run(run) && k < |run| && op in run[k].ops
    ensures run[k].ops[op].closed <= 1
    ensures run[k].ops[op].owner < |run[k].threads|
    ensures run[k].threads[run[k].ops[op].owner].pc == Returned ==> run[k].ops[op].closed == 1
    ensures forall t, d ::
              0 <= t < |run[k].threads| && d in run[k].threads[t].news && run[k].threads[t].news[d] == op ==>
              t == run[k].ops[op].owner
  {
    hide Run, KnownInv, Owed;
    RunInv(run, k);
    var s := run[k];
    assert OpInv(s, op);
    forall t, d | 0 <= t < |s.threads| && d in s.threads[t].news && s.threads[t].news[d] == op
      ensures t == s.ops[op].owner
    {
      assert ThreadInv(s, t);
    }
  }

  /** A call that waits for others owns no open operation. */
  lemma WaitersOwnNothingOpen(run: seq<State>, k: nat, t: nat, op: OpId)
    requires Run(run) && k < |run| && t < |run[k].threads| && run[k].threads[t].pc.Wait?
    requires op in run[k].ops && run[k].ops[op].owner == t
    ensures run[k].ops[op].closed == 1
  {
    hide Run, KnownInv, ThreadInv, Owed;
    RunInv(run, k);
    assert OpInv(run[k], op);
  }

  /** A step the call can take without being cancelled. */
  ghost predicate Enabled(s: State, t: nat) {
    exists e: Event :: e != Cancelled && Can(s, t, e)
  }

  lemma FreshOp(ops: map<OpId, Op>) returns (op: OpId)
    ensures op !in ops
  {
    op := FreshIn(ops.Keys);
  }

  lemma {:induction false} FreshIn(keys: set<OpId>) returns (op: OpId)
    ensures forall k :: k in keys ==> k < op
    decreases |keys|
  {
    if keys == {} {
      op := 0;
    } else {
      var k :| k in keys;
      var rest := FreshIn(keys - {k});
      assert forall x :: x in keys ==> x == k || x in keys - {k};
      op := if rest > k then rest else k + 1;
    }
  }

  /** A call working through a set has a next element, or is through. */
  lemma TodoCanStep(s: State, t: nat, todo: set<Digest>, none: Event, some: Digest -> Event)
    requires todo == {} ==> Can(s, t, none)
    requires forall d :: d in todo ==> Can(s, t, some(d))
    requires none != Cancelled && forall d :: some(d) != Cancelled
    ensures Enabled(s, t)
  {
    if todo != {} {
      var d :| d in todo;
      assert Can(s, t, some(d));
    }
  }

  lemma QueryCanStep(s: State, t: nat)
    requires Inv(s) && t < |s.threads|
    requires var pc := s.threads[t].pc; pc.Partition? || pc.Query? || pc.Batch?
    ensures Enabled(s, t)
  {
    hide Inv;
    var th := s.threads[t];
    match th.pc {
      case Partition(i) =>
        var op := FreshOp(s.ops);
        assert if i < |th.blobs| then Can(s, t, LoadOrStore(op)) else Can(s, t, EndPartition);
      case Query =>
        assert Can(s, t, QueryFails);
      case Batch(smalls) =>
        assert if smalls == {} then Can(s, t, EndBatch) else Can(s, t, SendAnswers(smalls, smalls, {}));
    }
  }

  lemma MarkingCanStep(s: State, t: nat)
    requires Inv(s) && t < |s.threads| && s.threads[t].pc.MarkFound?
    ensures Enabled(s, t)
  {
    hide KnownInv, OpInv, Owed, MayBeOpen, MustBeOpen, Holds, BlobSet, From, Before, Enabled;
    assert ThreadInv(s, t);
    if s.threads[t].pc.swapped.Some? {
      TodoCanStep(s, t, {}, FinishFound, (d: Digest) => SwapFound(d));
    } else {
      TodoCanStep(s, t, s.threads[t].pc.todo, EndFound({}), (d: Digest) => SwapFound(d));
    }
  }

  /** Away from `Wait`, a call can always go on. */
  lemma ActiveCanStep(s: State, t: nat)
    requires Inv(s) && t < |s.threads| && s.threads[t].pc != Returned && !s.threads[t].pc.Wait?
    ensures Enabled(s, t)
  {
    hide KnownInv, OpInv, Owed, MayBeOpen, MustBeOpen, Holds, BlobSet, From, Before, Enabled;
    var th := s.threads[t];
    assert ThreadInv(s, t);
    match th.pc {
      case CloseAll(todo) =>
        TodoCanStep(s, t, todo, EndClose, (d: Digest) => CloseOne(d));
      case MarkFound(_, _) =>
        MarkingCanStep(s, t);
      case Responses(todo, _, _, _) =>
        TodoCanStep(s, t, todo, EndResponses, (d: Digest) => Answer(d, false));
      case Stream(todo) =>
        TodoCanStep(s, t, todo, EndStream, (d: Digest) => StreamOne(d, true));
      case Defer(todo) =>
        TodoCanStep(s, t, todo, EndDefer, (d: Digest) => DeferOne(d));
      case _ =>
        QueryCanStep(s, t);
    }
  }

  /** Crossing new and pending sets never deadlock: while some call has not
      returned, some call can go on by itself. */
  lemma NeverDeadlocks(run: seq<State>, k: nat, t: nat)
    requires Run(run) && k < |run| && t < |run[k].threads| && run[k].threads[t].pc != Returned
    ensures exists u :: 0 <= u < |run[k].threads| && run[k].threads[u].pc != Returned && Enabled(run[k], u)
  {
    hide Run, KnownInv, Owed, BlobSet, From, Before;
    RunInv(run, k);
    var s := run[k];
    var th := s.threads[t];
    if !th.pc.Wait? {
      ActiveCanStep(s, t);
    } else if th.pc.todo == {} {
      assert Can(s, t, EndWait);
    } else {
      var d :| d in th.pc.todo;
      assert ThreadInv(s, t);
      var op := th.pending[d];
      assert OpInv(s, op);
      if s.ops[op].closed > 0 {
        assert Can(s, t, WaitOne(d));
      } else {
        ActiveCanStep(s, s.ops[op].owner);
      }
    }
  }

  // ------------------------------------------------------------- termination

  /** An upper bound on the steps a call has left. */
  function Work(th: Thread): nat {
    var n := |BlobSet(th.blobs)|;
    var k := 3 * n + 3;
    match th.pc
    case Partition(i) => 8 * k + (if i <= |th.blobs| then |th.blobs| - i else 0)
    case Query => 7 * k
    case CloseAll(todo) => 6 * k + |todo|
    case MarkFound(todo, swapped) => 6 * k + 2 * |todo| + if swapped.Some? then 0 else 1
    case Batch(smalls) => 4 * k + 3 * |smalls|
    case Responses(todo, _, smalls, _) => 4 * k + 3 * |smalls| + |todo| + 1
    case Stream(todo) => 3 * k + |todo|
    case Wait(todo) => 2 * k + |todo|
    case Defer(todo) => k + |todo|
    case Returned => 0
  }

  function TotalWork(threads: seq<Thread>): nat {
    if threads == [] then 0
    else TotalWork(threads[..|threads| - 1]) + Work(threads[|threads| - 1])
  }

  lemma {:induction false} WorkUpdate(threads: seq<Thread>, t: nat, th: Thread)
    requires t < |threads|
    ensures TotalWork(threads[t := th]) == TotalWork(threads) - Work(threads[t]) + Work(th)
  {
    hide Work;
    var more, n := threads[t := th], |threads| - 1;
    if t < n {
      WorkUpdate(threads[..n], t, th);
      assert more[..n] == threads[..n][t := th];
    } else {
      assert more[..n] == threads[..n];
    }
  }

  lemma {:induction false} SubsetSize(a: set<Digest>, b: set<Digest>)
    requires a <= b
    ensures |a| <= |b|
    decreases |a|
  {
    if a != {} {
      var x :| x in a;
      SubsetSize(a - {x}, b - {x});
    }
  }

  /** The sets a call works through are no larger than its blobs. */
  ghost predicate Sized(th: Thread) {
    var n := |BlobSet(th.blobs)|;
    && |th.news.Keys| <= n && |th.pending.Keys| <= n
    && match th.pc
       case CloseAll(todo) => |todo| <= n
       case MarkFound(todo, swapped) =>
         |todo| <= n && |th.missing| <= n && (swapped.Some? ==> swapped.value in todo)
       case Batch(smalls) => |smalls| <= n && |th.larges| <= n
       case Responses(todo, _, smalls, _) => |smalls| <= n && |todo| <= n && |todo| + |smalls| <= n
       case Stream(todo) => |todo| <= n
       case Wait(todo) => |todo| <= n
       case Defer(todo) => |todo| <= n
       case _ => true
  }

  /** The set a call is working through. */
  function Todo(pc: Pc): set<Digest> {
    match pc
    case CloseAll(todo) => todo
    case MarkFound(todo, _) => todo
    case Batch(smalls) => smalls
    case Responses(todo, _, smalls, _) => todo + smalls
    case Stream(todo) => todo
    case Wait(todo) => todo
    case Defer(todo) => todo
    case _ => {}
  }

  lemma TodoSubset(s: State, t: nat)
    requires Inv(s) && t < |s.threads|
    ensures var th := s.threads[t];
            var all := BlobSet(th.blobs);
            && th.news.Keys <= all && th.pending.Keys <= all && Todo(th.pc) <= all
            && (th.pc.MarkFound? ==> th.missing <= all && (th.pc.swapped.Some? ==> th.pc.swapped.value in th.pc.todo))
            && (th.pc.Batch? ==> th.larges <= all)
            && (th.pc.Responses? ==> th.pc.todo !! th.pc.smalls)
  {
    hide KnownInv, OpInv, Owed, MayBeOpen, MustBeOpen, Holds, BlobSet, NewsInv;
    assert ThreadInv(s, t);
  }

  lemma TodoSizes(s: State, t: nat)
    requires Inv(s) && t < |s.threads|
    ensures Sized(s.threads[t])
  {
    hide Inv, BlobSet;
    TodoSubset(s, t);
    var th := s.threads[t];
    var all := BlobSet(th.blobs);
    SubsetSize(th.news.Keys, all);
    SubsetSize(th.pending.Keys, all);
    SubsetSize(Todo(th.pc), all);
    match th.pc {
      case MarkFound(_, _) => SubsetSize(th.missing, all);
      case Batch(_) => SubsetSize(th.larges, all);
      case Responses(todo, _, smalls, _) => assert |todo + smalls| == |todo| + |smalls|;
      case _ =>
    }
  }

  /** Every step of a call is a step towards its end, so with `NeverDeadlocks`
      every call returns, however the calls are scheduled. */
  lemma StepsDecreaseWork(run: seq<State>, k: nat, t: nat, e: Event)
    requires Run(run) && k < |run| && Can(run[k], t, e)
    ensures TotalWork(Apply(run[k], t, e).threads) < TotalWork(run[k].threads)
  {
    hide Run, Inv, Can, Apply, NextThread, Work, TotalWork;
    RunInv(run, k);
    ApplyThreads(run[k], t, e);
    ApplyLowersWork(run[k], t, e);
    WorkUpdate(run[k].threads, t, NextThread(run[k], run[k].threads[t], e));
  }

  lemma ApplyThreads(s: State, t: nat, e: Event)
    requires Can(s, t, e)
    ensures t < |s.threads| && Apply(s, t, e).threads == s.threads[t := NextThread(s, s.threads[t], e)]
    ensures NextThread(s, s.threads[t], e).blobs == s.threads[t].blobs
  {
  }

  lemma Removed(todo: set<Digest>, d: Digest)
    requires d in todo
    ensures |todo - {d}| == |todo| - 1
  {
  }

  lemma ApplyLowersWork(s: State, t: nat, e: Event)
    requires Inv(s) && Can(s, t, e)
    ensures t < |s.threads| && Work(NextThread(s, s.threads[t], e)) < Work(s.threads[t])
  {
    hide Inv, Sized, Work, Can, Apply, NextThread;
    ApplyThreads(s, t, e);
    TodoSizes(s, t);
    ApplyKeepsInv(s, t, e);
    TodoSizes(Apply(s, t, e), t);
    if e.CloseOne? || e.FinishFound? || e.Answer? || e.StreamOne? || e.WaitOne? || e.DeferOne? {
      OneLowersWork(s, t, e);
    } else if s.threads[t].pc.Partition? || s.threads[t].pc.Query? {
      StartLowersWork(s, t, e);
    } else if s.threads[t].pc.CloseAll? || s.threads[t].pc.MarkFound? {
      FoundLowersWork(s, t, e);
    } else if s.threads[t].pc.Batch? {
      BatchLowersWork(s, t, e);
    } else if s.threads[t].pc.Responses? {
      ResponsesLowerWork(s, t, e);
    } else {
      EndLowersWork(s, t, e);
    }
  }

  lemma OneLowersWork(s: State, t: nat, e: Event)
    requires Can(s, t, e) && Sized(s.threads[t]) && Sized(NextThread(s, s.threads[t], e))
    requires e.CloseOne? || e.FinishFound? || e.Answer? || e.StreamOne? || e.WaitOne? || e.DeferOne?
    ensures Work(NextThread(s, s.threads[t], e)) < Work(s.threads[t])
  {
    hide Can, Sized, Work, NextThread;
    match e {
      case CloseOne(_) => FoundOneLowersWork(s, t, e);
      case FinishFound => FoundOneLowersWork(s, t, e);
      case Answer(_, _) => SentOneLowersWork(s, t, e);
      case StreamOne(_, _) => SentOneLowersWork(s, t, e);
      case WaitOne(_) => WaitOneLowersWork(s, t, e);
      case DeferOne(_) => DeferOneLowersWork(s, t, e);
    }
  }

  lemma FoundOneLowersWork(s: State, t: nat, e: Event)
    requires Can(s, t, e) && (e.CloseOne? || e.FinishFound?) && Sized(s.threads[t])
    ensures Work(NextThread(s, s.threads[t], e)) < Work(s.threads[t])
  {
    hide BlobSet, Apply;
    Removed(s.threads[t].pc.todo, if e.FinishFound? then s.threads[t].pc.swapped.value else e.d);
  }

  lemma SentOneLowersWork(s: State, t: nat, e: Event)
    requires Can(s, t, e) && (e.Answer? || e.StreamOne?)
    ensures Work(NextThread(s, s.threads[t], e)) < Work(s.threads[t])
  {
    hide BlobSet, Apply;
    Removed(s.threads[t].pc.todo, e.d);
  }

  lemma WaitOneLowersWork(s: State, t: nat, e: Event)
    requires Can(s, t, e) && e.WaitOne? && Sized(NextThread(s, s.threads[t], e))
    ensures Work(NextThread(s, s.threads[t], e)) < Work(s.threads[t])
  {
    hide BlobSet, Apply;
    Removed(s.threads[t].pc.todo, e.d);
  }

  lemma DeferOneLowersWork(s: State, t: nat, e: Event)
    requires Can(s, t, e) && (e.DeferOne?)
    ensures Work(NextThread(s, s.threads[t], e)) < Work(s.threads[t])
  {
    hide BlobSet, Apply;
    Removed(s.threads[t].pc.todo, e.d);
  }

  lemma StartLowersWork(s: State, t: nat, e: Event)
    requires Can(s, t, e) && Sized(s.threads[t]) && Sized(NextThread(s, s.threads[t], e))
    requires !(e.CloseOne? || e.FinishFound? || e.Answer? || e.StreamOne? || e.WaitOne? || e.DeferOne?)
    requires s.threads[t].pc.Partition? || s.threads[t].pc.Query?
    ensures Work(NextThread(s, s.threads[t], e)) < Work(s.threads[t])
  {
    hide BlobSet, Apply;
  }

  lemma FoundLowersWork(s: State, t: nat, e: Event)
    requires Can(s, t, e) && Sized(s.threads[t]) && Sized(NextThread(s, s.threads[t], e))
    requires !(e.CloseOne? || e.FinishFound? || e.Answer? || e.StreamOne? || e.WaitOne? || e.DeferOne?)
    requires s.threads[t].pc.CloseAll? || s.threads[t].pc.MarkFound?
    ensures Work(NextThread(s, s.threads[t], e)) < Work(s.threads[t])
  {
    hide BlobSet, Apply;
  }

  lemma BatchLowersWork(s: State, t: nat, e: Event)
    requires Can(s, t, e) && Sized(s.threads[t]) && Sized(NextThread(s, s.threads[t], e))
    requires !(e.CloseOne? || e.FinishFound? || e.Answer? || e.StreamOne? || e.WaitOne? || e.DeferOne?)
    requires s.threads[t].pc.Batch?
    ensures Work(NextThread(s, s.threads[t], e)) < Work(s.threads[t])
  {
    hide BlobSet, Apply;
    if e.SendAnswers? {
      Batched(s.threads[t].pc.smalls, e.batch);
    }
  }

  lemma ResponsesLowerWork(s: State, t: nat, e: Event)
    requires Can(s, t, e) && Sized(s.threads[t]) && Sized(NextThread(s, s.threads[t], e))
    requires !(e.CloseOne? || e.FinishFound? || e.Answer? || e.StreamOne? || e.WaitOne? || e.DeferOne?)
    requires s.threads[t].pc.Responses?
    ensures Work(NextThread(s, s.threads[t], e)) < Work(s.threads[t])
  {
    hide BlobSet, Apply;
  }

  lemma EndLowersWork(s: State, t: nat, e: Event)
    requires Can(s, t, e) && Sized(s.threads[t]) && Sized(NextThread(s, s.threads[t], e))
    requires !(e.CloseOne? || e.FinishFound? || e.Answer? || e.StreamOne? || e.WaitOne? || e.DeferOne?)
    requires s.threads[t].pc.Stream? || s.threads[t].pc.Wait? || s.threads[t].pc.Defer? || s.threads[t].pc.Returned?
    ensures Work(NextThread(s, s.threads[t], e)) < Work(s.threads[t])
  {
    hide BlobSet, Apply;
  }

  lemma Batched(smalls: set<Digest>, batch: set<Digest>)
    requires {} < batch <= smalls
    ensures |smalls - batch| + |batch| == |smalls| && |batch| > 0
  {
    assert smalls == batch + (smalls - batch);
  }
}
