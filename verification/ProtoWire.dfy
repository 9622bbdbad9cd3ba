/** The bytes of a batch request in the protobuf wire format, whose number is
    what blobs are separated and bundled by. */
module ProtoWire {
  import opened CasBatch

  type Wire = seq<int>

  // ----------------------------------------------------------------- varints

  /** Seven bits a byte, the lowest first; the highest bit says that more follow. */
  function Varint(n: nat): (w: Wire)
    ensures w != []
  {
    if n < 0x80 then [n] else [0x80 + n % 0x80] + Varint(n / 0x80)
  }

  /** The number a varint at the start of `w` is, and how long it is. */
  function ReadVarint(w: Wire): (int, nat) {
    if w == [] then (0, 0)
    else if w[0] < 0x80 then (w[0], 1)
    else
      var (high, n) := ReadVarint(w[1..]);
      (w[0] - 0x80 + 0x80 * high, n + 1)
  }

  /** A varint reads back, whatever follows it, and is as long as it is said to be. */
  lemma {:induction false} VarintRoundTrip(n: nat, rest: Wire)
    ensures forall x <- Varint(n) :: 0 <= x < 0x100
    ensures ReadVarint(Varint(n) + rest) == (n, |Varint(n)|)
    ensures |Varint(n)| == VarintLen(n)
  {
    if n >= 0x80 {
      VarintRoundTrip(n / 0x80, rest);
      assert (Varint(n) + rest)[1..] == Varint(n / 0x80) + rest;
    }
  }

  // ---------------------------------------------------------------- messages

  /** Field `number` with a payload of bytes: wire type 2. */
  function Field(number: nat, payload: Wire): Wire {
    Varint(8 * number + 2) + Varint(|payload|) + payload
  }

  /** A string or bytes field is left out when it is empty. */
  function Optional(number: nat, payload: Wire): Wire {
    if payload == [] then [] else Field(number, payload)
  }

  /** Field `number` with a number: wire type 0, left out when it is zero. */
  function Number(number: nat, n: nat): Wire {
    if n == 0 then [] else Varint(8 * number) + Varint(n)
  }

  function TextBytes(s: string): (w: Wire)
    ensures |w| == |s|
  {
    seq(|s|, k requires 0 <= k < |s| => s[k] as int)
  }

  /** `Digest`: the hash is field 1, the size field 2. */
  function DigestMessage(b: Blob): Wire {
    Optional(1, TextBytes(b.hash)) + Number(2, b.size)
  }

  /** An entry of the request: the digest is field 1, the contents field 2. */
  function EntryMessage(b: Blob, data: Wire): Wire {
    Field(1, DigestMessage(b)) + Optional(2, data)
  }

  function EntryMessages(batch: seq<Blob>, data: seq<Wire>): Wire
    requires |batch| == |data|
  {
    if batch == [] then [] else Field(2, EntryMessage(batch[0], data[0])) + EntryMessages(batch[1..], data[1..])
  }

  /** `BatchUpdateBlobsRequest`: the instance is field 1, the entries field 2. */
  function Request(instance: string, batch: seq<Blob>, data: seq<Wire>): Wire
    requires |batch| == |data|
  {
    Optional(1, TextBytes(instance)) + EntryMessages(batch, data)
  }

  lemma FieldLength(number: nat, payload: Wire)
    requires 0 < number < 16
    ensures |Field(number, payload)| == LenField(|payload|)
    ensures |Optional(number, payload)| == BytesField(|payload|)
  {
    VarintRoundTrip(8 * number + 2, []);
    VarintRoundTrip(|payload|, []);
  }

  lemma EntryLength(b: Blob, data: Wire)
    requires |data| == b.size
    ensures |Field(2, EntryMessage(b, data))| == EntrySize(b)
  {
    hide Varint, VarintLen, Field, Optional, LenField, BytesField;
    FieldLength(1, TextBytes(b.hash));
    NumberLength(2, b.size);
    FieldLength(1, DigestMessage(b));
    FieldLength(2, data);
    FieldLength(2, EntryMessage(b, data));
  }

  lemma NumberLength(number: nat, n: nat)
    requires 0 < number < 16
    ensures |Number(number, n)| == if n == 0 then 0 else 1 + VarintLen(n)
  {
    VarintRoundTrip(8 * number, []);
    VarintRoundTrip(n, []);
  }

  predicate AreContents(batch: seq<Blob>, data: seq<Wire>) {
    |batch| == |data| && forall k :: 0 <= k < |batch| ==> |data[k]| == batch[k].size
  }

  lemma {:induction false} EntriesLength(batch: seq<Blob>, data: seq<Wire>)
    requires AreContents(batch, data)
    ensures |EntryMessages(batch, data)| == EntriesSize(batch)
  {
    hide Field, EntrySize, EntryMessage;
    if batch != [] {
      EntryLength(batch[0], data[0]);
      EntriesLength(batch[1..], data[1..]);
    }
  }

  /** A request with the contents of its blobs is as many bytes as it is counted. */
  lemma RequestLength(instance: string, batch: seq<Blob>, data: seq<Wire>)
    requires AreContents(batch, data)
    ensures |Request(instance, batch, data)| == BaseSize(instance) + EntriesSize(batch)
  {
    FieldLength(1, TextBytes(instance));
    EntriesLength(batch, data);
  }

  /** So every request that is made fits: at most a thousand entries, and with a
      positive limit at most that many bytes, when every blob alone does. */
  method BundledFit(instance: string, reqs: seq<Blob>, byteLimit: int) returns (batches: seq<seq<Blob>>)
    requires forall b, data | b in reqs && |data| == b.size ::
               byteLimit > 0 ==> |Request(instance, [b], [data])| <= byteLimit
    ensures Flatten(batches) == reqs
    ensures forall k, data | 0 <= k < |batches| && AreContents(batches[k], data) ::
              && |batches[k]| <= 1000
              && (byteLimit > 0 ==> |Request(instance, batches[k], data)| <= byteLimit)
  {
    hide BaseSize, EntriesSize, Request;
    forall b | b in reqs
      ensures Fits(BaseSize(instance), [b], byteLimit)
    {
      var data := seq(b.size, _ => 0);
      assert byteLimit > 0 ==> |Request(instance, [b], [data])| <= byteLimit;
      RequestLength(instance, [b], [data]);
    }
    batches := CreateBatches(instance, reqs, byteLimit);
    forall k, data | 0 <= k < |batches| && AreContents(batches[k], data)
      ensures |batches[k]| <= 1000 && (byteLimit > 0 ==> |Request(instance, batches[k], data)| <= byteLimit)
    {
      RequestLength(instance, batches[k], data);
      assert Fits(BaseSize(instance), batches[k], byteLimit);
    }
  }
}
