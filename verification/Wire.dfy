/** Fixed-width little-endian integers, as xorbs and shards store them. */
module Wire {
  import opened Common
  import opened HashText

  type Data = seq<U8>
  type Word = x: int | 0 <= x < TWO32
  type Long = x: int | 0 <= x < TWO64

  function U24(v: nat): (b: Data)
    ensures |b| == 3
  {
    [v % 256, v / 256 % 256, v / 65536 % 256]
  }

  function GetU24(b: Data): (v: nat)
    requires |b| >= 3
    ensures v < TWO24
  {
    (b[0] as int) + 256 * (b[1] as int) + 65536 * (b[2] as int)
  }

  function U32(v: nat): (b: Data)
    ensures |b| == 4
  {
    [v % 256, v / 256 % 256, v / 65536 % 256, v / 16777216 % 256]
  }

  function GetU32(b: Data): (v: nat)
    requires |b| >= 4
    ensures v < TWO32
  {
    (b[0] as int) + 256 * (b[1] as int) + 65536 * (b[2] as int) + 16777216 * (b[3] as int)
  }

  function U64(v: nat): (b: Data)
    ensures |b| == 8
  {
    U32(v % TWO32) + U32(v / TWO32)
  }

  function GetU64(b: Data): (v: nat)
    requires |b| >= 8
    ensures v < TWO64
  {
    GetU32(b) + TWO32 * GetU32(b[4..])
  }

  lemma U24RoundTrip(v: nat)
    requires v < TWO24
    ensures GetU24(U24(v)) == v
  {
    assert v == v % 256 + 256 * (v / 256);
    assert v / 256 == v / 256 % 256 + 256 * (v / 65536);
  }

  lemma U32RoundTrip(v: nat)
    requires v < TWO32
    ensures GetU32(U32(v)) == v
  {
    assert v == v % 256 + 256 * (v / 256);
    assert v / 256 == v / 256 % 256 + 256 * (v / 65536);
    assert v / 65536 == v / 65536 % 256 + 256 * (v / 16777216);
  }

  lemma U64RoundTrip(v: nat)
    requires v < TWO64
    ensures GetU64(U64(v)) == v
  {
    U32RoundTrip(v % TWO32);
    U32RoundTrip(v / TWO32);
    assert U64(v)[4..] == U32(v / TWO32);
  }

  /** The value at the start of a longer stream. */
  lemma U32Prefix(v: nat, rest: Data)
    requires v < TWO32
    ensures GetU32(U32(v) + rest) == v && (U32(v) + rest)[4..] == rest
  {
    U32RoundTrip(v);
  }

  lemma U64Prefix(v: nat, rest: Data)
    requires v < TWO64
    ensures GetU64(U64(v) + rest) == v && (U64(v) + rest)[8..] == rest
  {
    U64RoundTrip(v);
    assert (U64(v) + rest)[4..][..4] == U64(v)[4..];
  }

  /** A list of 32-bit values. */
  function U32s(vs: seq<nat>): Data { if vs == [] then [] else U32(vs[0]) + U32s(vs[1..]) }

  lemma {:induction false} U32sLength(vs: seq<nat>)
    ensures |U32s(vs)| == 4 * |vs|
  {
    if vs != [] { U32sLength(vs[1..]); }
  }

  lemma {:induction false} U32sAt(vs: seq<nat>, i: nat)
    requires i < |vs| && vs[i] < TWO32
    ensures |U32s(vs)| == 4 * |vs| && GetU32(U32s(vs)[4 * i..]) == vs[i]
  {
    U32sLength(vs);
    if i == 0 {
      U32Prefix(vs[0], U32s(vs[1..]));
    } else {
      U32sAt(vs[1..], i - 1);
      assert U32s(vs)[4 * i..] == U32s(vs[1..])[4 * (i - 1)..];
    }
  }
}
