/** Go's sized integers and their little-endian byte form. */
module GoInts {

  type byte = b: int | 0 <= b < 0x100
  type Bytes = seq<byte>

  const TWO_31 := 0x8000_0000
  const TWO_32 := 0x1_0000_0000
  const TWO_63 := 0x8000_0000_0000_0000
  const TWO_64 := 0x1_0000_0000_0000_0000

  type int64 = x: int | -TWO_63 <= x < TWO_63

  /** Go's conversion `int32(v)`: keep 32 bits, read them as two's complement. */
  function ToInt32(v: int): int {
    var u := v % TWO_32;
    if u < TWO_31 then u else u - TWO_32
  }

  /** Go's conversion `uint32(v)`. */
  function ToUint32(v: int): nat {
    v % TWO_32
  }

  /** Go's conversion `int64(v)`. */
  function ToInt64(v: int): int64 {
    var u := v % TWO_64;
    if u < TWO_63 then u else u - TWO_64
  }

  /** Go's `v / d`, which truncates towards zero. */
  function Quotient(v: int, d: nat): int
    requires d > 0
  {
    if v >= 0 then v / d else -(-v / d)
  }

  /** Go's complement `^v`. */
  function Complement(v: int): int {
    -v - 1
  }

  /** `binary.Write(buf, binary.LittleEndian, int32(v))`. */
  function PutInt32(v: int): (b: Bytes)
    ensures |b| == 4
  {
    var u := ToUint32(v);
    [u % 0x100, u / 0x100 % 0x100, u / 0x1_0000 % 0x100, u / 0x100_0000]
  }

  /** `binary.Read(r, binary.LittleEndian, &v)` for an int32 `v`. */
  function GetInt32(b: Bytes): int
    requires |b| == 4
  {
    var b0: int, b1: int, b2: int, b3: int := b[0], b[1], b[2], b[3];
    ToInt32(b0 + 0x100 * b1 + 0x1_0000 * b2 + 0x100_0000 * b3)
  }

  /** Reading back the four bytes gives the value truncated to int32. */
  lemma Int32RoundTrip(v: int)
    ensures GetInt32(PutInt32(v)) == ToInt32(v)
  {
    var u := ToUint32(v);
    assert u == u % 0x100 + 0x100 * (u / 0x100);
    assert u / 0x100 == u / 0x100 % 0x100 + 0x100 * (u / 0x1_0000);
    assert u / 0x1_0000 == u / 0x1_0000 % 0x100 + 0x100 * (u / 0x100_0000);
    assert ToInt32(u) == ToInt32(v);
  }

  /** A run of int32 values, as `binary.Write` of each in turn. */
  function PutInt32s(vs: seq<int>): (b: Bytes)
    ensures |b| == 4 * |vs|
  {
    if vs == [] then [] else PutInt32(vs[0]) + PutInt32s(vs[1..])
  }

  /** `binary.Read` into a slice of `n` int32 values. */
  function GetInt32s(b: Bytes, n: nat): (vs: seq<int>)
    requires 4 * n <= |b|
    ensures |vs| == n
  {
    if n == 0 then [] else [GetInt32(b[..4])] + GetInt32s(b[4..], n - 1)
  }

  lemma {:induction false} Int32sRoundTrip(vs: seq<int>)
    requires forall k :: 0 <= k < |vs| ==> -TWO_31 <= vs[k] < TWO_31
    ensures GetInt32s(PutInt32s(vs), |vs|) == vs
  {
    hide PutInt32, GetInt32;
    if vs != [] {
      var b := PutInt32s(vs);
      assert b[..4] == PutInt32(vs[0]);
      assert b[4..] == PutInt32s(vs[1..]);
      Int32RoundTrip(vs[0]);
      Int32sRoundTrip(vs[1..]);
    }
  }
}
