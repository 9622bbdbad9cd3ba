/** Splitting blobs between the batch and the streaming call, and bundling the
    small ones into batches. */
module CasBatch {

  datatype Blob = Blob(hash: string, size: nat)

  const BATCH_BLOB_UPLOAD_LIMIT := 1000

  // -------------------------------------------------- protobuf message sizes

  function VarintLen(n: nat): nat {
    if n < 0x80 then 1 else 1 + VarintLen(n / 0x80)
  }

  /** A length-delimited field of `n` bytes, with a one-byte tag. */
  function LenField(n: nat): nat {
    1 + VarintLen(n) + n
  }

  /** A string or bytes field; an empty one is not sent. */
  function BytesField(n: nat): nat {
    if n == 0 then 0 else LenField(n)
  }

  function DigestSize(b: Blob): nat {
    BytesField(|b.hash|) + if b.size == 0 then 0 else 1 + VarintLen(b.size)
  }

  /** `proto.Size` of a request holding only the entry of `b`. */
  function EntrySize(b: Blob): nat {
    LenField(LenField(DigestSize(b)) + BytesField(b.size))
  }

  /** `proto.Size` of a request with the instance name and no entries. */
  function BaseSize(instance: string): nat {
    BytesField(|instance|)
  }

  function EntriesSize(batch: seq<Blob>): nat {
    if batch == [] then 0 else EntrySize(batch[0]) + EntriesSize(batch[1..])
  }

  lemma {:induction false} VarintMonotone(m: nat, n: nat)
    requires m <= n
    ensures VarintLen(m) <= VarintLen(n)
  {
    if n >= 0x80 && m >= 0x80 {
      VarintMonotone(m / 0x80, n / 0x80);
    }
  }

  lemma EntryMonotone(a: Blob, b: Blob)
    requires |a.hash| == |b.hash| && a.size <= b.size
    ensures b.size <= EntrySize(b)
    ensures EntrySize(a) <= EntrySize(b)
  {
    hide VarintLen;
    VarintMonotone(a.size, b.size);
    assert DigestSize(a) <= DigestSize(b) by { assert VarintLen(b.size) >= 0; }
    VarintMonotone(DigestSize(a), DigestSize(b));
    var innerA := LenField(DigestSize(a)) + BytesField(a.size);
    var innerB := LenField(DigestSize(b)) + BytesField(b.size);
    assert innerA <= innerB;
    VarintMonotone(innerA, innerB);
  }

  // ----------------------------------------------------------- separateBlobs

  /** The size test of the binary search. */
  predicate TooLarge(instance: string, b: Blob, byteLimit: int) {
    b.size >= byteLimit || BaseSize(instance) + EntrySize(b) >= byteLimit
  }

  predicate Ordered(blobs: seq<Blob>) {
    forall i, j :: 0 <= i < j < |blobs| ==> blobs[i].size <= blobs[j].size
  }

  predicate SameHashLength(blobs: seq<Blob>) {
    forall i, j :: 0 <= i < |blobs| && 0 <= j < |blobs| ==> |blobs[i].hash| == |blobs[j].hash|
  }

  function Insert(b: Blob, sorted: seq<Blob>): (r: seq<Blob>)
    ensures multiset(r) == multiset(sorted) + multiset{b}
  {
    if sorted == [] then [b]
    else if b.size < sorted[0].size then [b] + sorted
    else
      assert sorted == [sorted[0]] + sorted[1..];
      [sorted[0]] + Insert(b, sorted[1..])
  }

  lemma {:induction false} InsertOrdered(b: Blob, sorted: seq<Blob>)
    requires Ordered(sorted)
    ensures Ordered(Insert(b, sorted))
  {
    if sorted != [] && b.size >= sorted[0].size {
      InsertOrdered(b, sorted[1..]);
      var rest := Insert(b, sorted[1..]);
      forall k | 0 <= k < |rest| ensures sorted[0].size <= rest[k].size {
        assert rest[k] in multiset(rest);
        assert rest[k] == b || rest[k] in sorted[1..];
      }
    }
  }

  /** `sort.Slice` by size. */
  method SortBySize(blobs: seq<Blob>) returns (sorted: seq<Blob>)
    ensures Ordered(sorted)
    ensures multiset(sorted) == multiset(blobs)
  {
    hide Insert, Ordered;
    NothingOrdered();
    sorted := [];
    for i := 0 to |blobs|
      invariant Ordered(sorted)
      invariant multiset(sorted) == multiset(blobs[..i])
    {
      assert blobs[..i + 1] == blobs[..i] + [blobs[i]];
      InsertOrdered(blobs[i], sorted);
      sorted := Insert(blobs[i], sorted);
    }
    assert blobs[..|blobs|] == blobs;
  }

  lemma NothingOrdered()
    ensures Ordered([])
  {
  }

  /** `separateBlobs`: after sorting, a binary search for the first blob whose
      single request would reach the limit. */
  method SeparateBlobs(instance: string, blobs: seq<Blob>, byteLimit: int)
    returns (smalls: seq<Blob>, larges: seq<Blob>)
    ensures multiset(smalls) + multiset(larges) == multiset(blobs)
    ensures Ordered(smalls + larges)
    // hashes of one length: exactly the blobs that fit a request are small
    ensures SameHashLength(blobs) ==>
              && (forall b :: b in smalls ==> BaseSize(instance) + EntrySize(b) < byteLimit)
              && (forall b :: b in larges ==> BaseSize(instance) + EntrySize(b) >= byteLimit)
  {
    hide EntrySize, BaseSize;
    if |blobs| == 0 {
      return [], [];
    }
    var sorted := SortBySize(blobs);
    var i, j := 0, |sorted|;
    while i < j
      invariant 0 <= i <= j <= |sorted|
      invariant i > 0 ==> !TooLarge(instance, sorted[i - 1], byteLimit)
      invariant j < |sorted| ==> TooLarge(instance, sorted[j], byteLimit)
    {
      var h := (i + j) / 2;
      if !TooLarge(instance, sorted[h], byteLimit) {
        i := h + 1;
      } else {
        j := h;
      }
    }
    smalls, larges := sorted[..i], sorted[i..];
    assert sorted == smalls + larges;
    if SameHashLength(blobs) {
      SplitExact(instance, blobs, sorted, i, byteLimit);
    }
  }

  lemma SplitExact(instance: string, blobs: seq<Blob>, sorted: seq<Blob>, i: nat, byteLimit: int)
    requires SameHashLength(blobs) && Ordered(sorted) && multiset(sorted) == multiset(blobs) && i <= |sorted|
    requires i > 0 ==> !TooLarge(instance, sorted[i - 1], byteLimit)
    requires i < |sorted| ==> TooLarge(instance, sorted[i], byteLimit)
    ensures forall b :: b in sorted[..i] ==> BaseSize(instance) + EntrySize(b) < byteLimit
    ensures forall b :: b in sorted[i..] ==> BaseSize(instance) + EntrySize(b) >= byteLimit
  {
    hide EntrySize, BaseSize;
    forall k | 0 <= k < |sorted|
      ensures TooLarge(instance, sorted[k], byteLimit) <==> k >= i
      ensures TooLarge(instance, sorted[k], byteLimit) <==> BaseSize(instance) + EntrySize(sorted[k]) >= byteLimit
    {
      EntryMonotone(sorted[k], sorted[k]);
      if k < i {
        SameHashes(blobs, sorted, k, i - 1);
        EntryMonotone(sorted[k], sorted[i - 1]);
      } else {
        SameHashes(blobs, sorted, i, k);
        EntryMonotone(sorted[i], sorted[k]);
      }
    }
  }

  lemma SameHashes(blobs: seq<Blob>, sorted: seq<Blob>, i: nat, k: nat)
    requires SameHashLength(blobs) && multiset(sorted) == multiset(blobs) && i < |sorted| && k < |sorted|
    ensures |sorted[i].hash| == |sorted[k].hash|
  {
    assert sorted[i] in multiset(blobs) && sorted[k] in multiset(blobs);
  }

  // ---------------------------------------- createBatchUpdateBlobsRequests

  function Flatten(batches: seq<seq<Blob>>): seq<Blob> {
    if batches == [] then [] else batches[0] + Flatten(batches[1..])
  }

  /** The limits of one batch request; `byteLimit <= 0` means none on bytes. */
  predicate Fits(base: nat, batch: seq<Blob>, byteLimit: int) {
    && |batch| <= BATCH_BLOB_UPLOAD_LIMIT
    && (byteLimit > 0 ==> base + EntriesSize(batch) <= byteLimit)
  }

  /** No batch could also have taken the next one's first blob. */
  predicate Greedy(base: nat, batches: seq<seq<Blob>>, byteLimit: int) {
    forall k :: 1 <= k < |batches| ==>
      batches[k] != [] && !Fits(base, batches[k - 1] + [batches[k][0]], byteLimit)
  }

  /** `createBatchUpdateBlobsRequests`. */
  method CreateBatches(instance: string, reqs: seq<Blob>, byteLimit: int) returns (batches: seq<seq<Blob>>)
    ensures Flatten(batches) == reqs
    ensures forall k :: 0 <= k < |batches| ==> batches[k] != []
    ensures Greedy(BaseSize(instance), batches, byteLimit)
    // every batch keeps the limits when every single blob does
    ensures (forall b :: b in reqs ==> Fits(BaseSize(instance), [b], byteLimit)) ==>
              forall k :: 0 <= k < |batches| ==> Fits(BaseSize(instance), batches[k], byteLimit)
  {
    hide EntrySize, Flatten, EntriesSize, BaseSize;
    batches := [];
    var base := BaseSize(instance);
    var size := base;
    var lastOffset := 0;
    ghost var singlesFit := forall b :: b in reqs ==> Fits(base, [b], byteLimit);
    FlattenNone();
    EntriesNone(reqs, 0);
    for i := 0 to |reqs|
      invariant lastOffset <= i && size == base + EntriesSize(reqs[lastOffset..i])
      invariant i == |reqs| ==> lastOffset == i
      invariant Flatten(batches) == reqs[..lastOffset]
      invariant forall k :: 0 <= k < |batches| ==> batches[k] != []
      invariant Greedy(base, batches, byteLimit)
      invariant batches != [] && lastOffset < |reqs| ==>
                  !Fits(base, batches[|batches| - 1] + [reqs[lastOffset]], byteLimit)
      invariant singlesFit ==> forall k :: 0 <= k < |batches| ==> Fits(base, batches[k], byteLimit)
      invariant lastOffset < i ==> i - lastOffset < BATCH_BLOB_UPLOAD_LIMIT
      invariant lastOffset < i && i < |reqs| && byteLimit > 0 ==> size + EntrySize(reqs[i]) <= byteLimit
    {
      Grow(reqs, lastOffset, i);
      size := size + EntrySize(reqs[i]);
      var batch := reqs[lastOffset..i + 1];
      if singlesFit {
        BatchFits(base, reqs, lastOffset, i, byteLimit);
      }
      if i + 1 < |reqs| {
        assert reqs[lastOffset..i + 2] == batch + [reqs[i + 1]];
        Grow(reqs, lastOffset, i + 1);
      }
      if i == |reqs| - 1
         || i + 1 == lastOffset + BATCH_BLOB_UPLOAD_LIMIT
         || (byteLimit > 0 && size + EntrySize(reqs[i + 1]) > byteLimit) {
        FlattenSnoc(batches, batch);
        assert reqs[..i + 1] == reqs[..lastOffset] + batch;
        assert batches != [] ==> batch[0] == reqs[lastOffset];
        batches := batches + [batch];
        size := base;
        lastOffset := i + 1;
        EntriesNone(reqs, i + 1);
      }
    }
    assert reqs[..|reqs|] == reqs;
  }

  lemma FlattenNone()
    ensures Flatten([]) == []
  {
  }

  lemma EntriesNone(reqs: seq<Blob>, i: nat)
    requires i <= |reqs|
    ensures EntriesSize(reqs[i..i]) == 0
  {
  }

  lemma {:induction false} FlattenSnoc(batches: seq<seq<Blob>>, batch: seq<Blob>)
    ensures Flatten(batches + [batch]) == Flatten(batches) + batch
  {
    if batches != [] {
      assert (batches + [batch])[1..] == batches[1..] + [batch];
      FlattenSnoc(batches[1..], batch);
    }
  }

  lemma {:induction false} EntriesConcat(a: seq<Blob>, b: seq<Blob>)
    ensures EntriesSize(a + b) == EntriesSize(a) + EntriesSize(b)
  {
    if a == [] {
      assert a + b == b;
    } else {
      assert (a + b)[1..] == a[1..] + b;
      EntriesConcat(a[1..], b);
    }
  }

  lemma Grow(reqs: seq<Blob>, from: nat, i: nat)
    requires from <= i < |reqs|
    ensures EntriesSize(reqs[from..i + 1]) == EntriesSize(reqs[from..i]) + EntrySize(reqs[i])
  {
    hide EntrySize;
    assert reqs[from..i + 1] == reqs[from..i] + [reqs[i]];
    EntriesConcat(reqs[from..i], [reqs[i]]);
    assert [reqs[i]][1..] == [];
  }

  lemma BatchFits(base: nat, reqs: seq<Blob>, from: nat, i: nat, byteLimit: int)
    requires from <= i < |reqs| && Fits(base, [reqs[i]], byteLimit)
    requires from < i ==> i - from < BATCH_BLOB_UPLOAD_LIMIT
    requires from < i && byteLimit > 0 ==> base + EntriesSize(reqs[from..i]) + EntrySize(reqs[i]) <= byteLimit
    ensures Fits(base, reqs[from..i + 1], byteLimit)
  {
    hide EntrySize;
    if from == i {
      assert reqs[from..i + 1] == [reqs[i]];
    } else {
      Grow(reqs, from, i);
    }
  }

  // ------------------------------------------------------------- optimality

  /** A stretch of a batch that fits, fits. */
  lemma StretchFits(base: nat, before: seq<Blob>, stretch: seq<Blob>, after: seq<Blob>, byteLimit: int)
    requires Fits(base, before + stretch + after, byteLimit)
    ensures Fits(base, stretch, byteLimit)
  {
    EntriesConcat(before + stretch, after);
    EntriesConcat(before, stretch);
  }

  /** The greedy batches of a tail are no more than any fitting batches of a
      list that ends in that tail. */
  lemma {:induction false} FewestOfTail(base: nat, greedy: seq<seq<Blob>>, other: seq<seq<Blob>>,
          lead: seq<Blob>, byteLimit: int)
    requires lead + Flatten(greedy) == Flatten(other)
    requires Greedy(base, greedy, byteLimit)
    requires forall k :: 0 <= k < |greedy| ==> greedy[k] != []
    requires forall k :: 0 <= k < |other| ==> Fits(base, other[k], byteLimit)
    ensures |greedy| <= |other|
    decreases |other|
  {
    if greedy != [] {
      assert Flatten(greedy) != [];
      assert other != [];
      var all := Flatten(other);
      var first, rest := other[0], Flatten(other[1..]);
      var g, more := greedy[0], Flatten(greedy[1..]);
      assert all == first + rest == lead + (g + more);
      FirstCovered(base, greedy, first, lead, rest, byteLimit);
      var lead' := rest[..|rest| - |more|];
      assert rest[|rest| - |more|..] == all[|all| - |more|..] == more;
      assert forall k :: 0 <= k < |greedy[1..]| ==> greedy[1..][k] == greedy[k + 1];
      FewestOfTail(base, greedy[1..], other[1..], lead', byteLimit);
    }
  }

  /** The first greedy batch reaches at least as far as a batch that fits:
      otherwise it and the next blob would lie inside that batch. */
  lemma {:induction false} FirstCovered(base: nat, greedy: seq<seq<Blob>>, first: seq<Blob>, lead: seq<Blob>,
          rest: seq<Blob>, byteLimit: int)
    requires greedy != [] && Greedy(base, greedy, byteLimit)
    requires first + rest == lead + Flatten(greedy)
    requires Fits(base, first, byteLimit)
    ensures |first| <= |lead| + |greedy[0]|
  {
    hide Fits;
    var g, tail := greedy[0], Flatten(greedy);
    assert |tail| == |first| + |rest| - |lead|;
    if |greedy| == 1 {
      assert greedy[1..] == [];
      assert tail == g + [];
    } else if |lead| + |g| < |first| {
      var next, n := greedy[1][0], |lead| + |g|;
      assert !Fits(base, greedy[1 - 1] + [next], byteLimit);
      assert tail == g + (greedy[1] + Flatten(greedy[1..][1..]));
      var whole := first + rest;
      assert first == whole[..|first|];
      assert tail[|g|] == next;
      assert tail[..|g| + 1] == g + [next];
      assert whole[|lead|..n + 1] == tail[..|g| + 1] by { assert whole == lead + tail; }
      assert first[|lead|..n + 1] == whole[|lead|..n + 1];
      assert first == first[..|lead|] + (g + [next]) + first[n + 1..];
      StretchFits(base, first[..|lead|], g + [next], first[n + 1..], byteLimit);
    }
  }

  /** No order-preserving split into fitting batches uses fewer of them. */
  lemma FewestBatches(base: nat, batches: seq<seq<Blob>>, other: seq<seq<Blob>>, byteLimit: int)
    requires Flatten(other) == Flatten(batches) && Greedy(base, batches, byteLimit)
    requires forall k :: 0 <= k < |batches| ==> batches[k] != []
    requires forall k :: 0 <= k < |other| ==> Fits(base, other[k], byteLimit)
    ensures |batches| <= |other|
  {
    assert [] + Flatten(batches) == Flatten(batches);
    FewestOfTail(base, batches, other, [], byteLimit);
  }

  /** `separateBlobs` and the batching together: smalls always fit a batch. */
  lemma SmallsFit(instance: string, b: Blob, byteLimit: int)
    requires BaseSize(instance) + EntrySize(b) < byteLimit
    ensures Fits(BaseSize(instance), [b], byteLimit)
  {
    hide EntrySize, BaseSize;
    assert EntriesSize([b]) == EntrySize(b) + EntriesSize([b][1..]);
  }
}
