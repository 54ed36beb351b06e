/** Byte grouping: bytes regrouped by their position within four-byte groups, and back. */
module ByteGrouping {
  import opened Common
  import opened HashText
  import opened Wire

  /** Where plane k of n bytes starts: plane k holds byte k of every group and, below the tail, one byte of the partial
      group. */
  function PlaneStart(n: nat, k: nat): nat
    requires k < 4
  {
    var groups, tail := n / 4, n % 4;
    if k == 0 then 0 else if k == 1 then groups + Min(1, tail) else if k == 2 then 2 * groups + Min(2, tail)
      else 3 * groups + Min(3, tail)
  }

  /** Where byte i of n goes. */
  function Position(n: nat, i: nat): (p: nat)
    requires i < n
    ensures p < n
  {
    PlaneStart(n, i % 4) + i / 4
  }

  /** Which byte is at position p of n. */
  function Origin(n: nat, p: nat): (i: nat)
    requires p < n
    ensures i < n && Position(n, i) == p
  {
    if p < PlaneStart(n, 1) then 4 * p
    else if p < PlaneStart(n, 2) then 4 * (p - PlaneStart(n, 1)) + 1
    else if p < PlaneStart(n, 3) then 4 * (p - PlaneStart(n, 2)) + 2
    else 4 * (p - PlaneStart(n, 3)) + 3
  }

  /** No two bytes go to the same place. */
  lemma PositionInjective(n: nat, i: nat, j: nat)
    requires i < n && j < n && Position(n, i) == Position(n, j)
    ensures i == j
  {}

  function Grouped(data: Data): (r: Data)
    ensures |r| == |data|
  {
    seq(|data|, p requires 0 <= p < |data| => data[Origin(|data|, p)])
  }

  function Ungrouped(data: Data): (r: Data)
    ensures |r| == |data|
  {
    seq(|data|, i requires 0 <= i < |data| => data[Position(|data|, i)])
  }

  /** Grouping and ungrouping undo each other, for every length. */
  lemma GroupingInverse(data: Data)
    ensures Ungrouped(Grouped(data)) == data && Grouped(Ungrouped(data)) == data
  {
    var n := |data|;
    forall i | 0 <= i < n ensures Ungrouped(Grouped(data))[i] == data[i] && Grouped(Ungrouped(data))[i] == data[i] {
      PositionInjective(n, Origin(n, Position(n, i)), i);
    }
  }

  /** Grouping only moves bytes. */
  lemma GroupedAt(data: Data, i: nat)
    requires i < |data|
    ensures Grouped(data)[Position(|data|, i)] == data[i] && Ungrouped(data)[i] == data[Position(|data|, i)]
  {
    PositionInjective(|data|, Origin(|data|, Position(|data|, i)), i);
  }

  /** Byte k of each of the first n groups. */
  function Plane(src: Data, n: nat, k: nat): (r: Data)
    requires 4 * n <= |src| && k < 4
    ensures |r| == n && forall g :: 0 <= g < n ==> r[g] == src[4 * g + k]
  {
    seq(n, g requires 0 <= g < n => src[4 * g + k])
  }

  /** Planes of n bytes at the given starts, in order, within length bytes. */
  predicate Apart(s1: nat, s2: nat, s3: nat, n: nat, length: nat) {
    n <= s1 && s1 + n <= s2 && s2 + n <= s3 && s3 + n <= length
  }

  /** The planes at 0, s1, s2 and s3 hold the first n groups of src. */
  ghost predicate HoldsPlanes(dst: Data, s1: nat, s2: nat, s3: nat, src: Data, n: nat)
    requires Apart(s1, s2, s3, n, |dst|) && 4 * n <= |src|
  {
    && dst[..n] == Plane(src, n, 0) && dst[s1..s1 + n] == Plane(src, n, 1)
    && dst[s2..s2 + n] == Plane(src, n, 2) && dst[s3..s3 + n] == Plane(src, n, 3)
  }

  lemma PlaneNext(before: Data, after: Data, s: nat, src: Data, i: nat, k: nat)
    requires |before| == |after| && s + i < |after| && 4 * i + 4 <= |src| && k < 4 &&
      before[s..s + i] == Plane(src, i, k)
    requires (forall p :: s <= p < s + i ==> after[p] == before[p]) && after[s + i] == src[4 * i + k]
    ensures after[s..s + i + 1] == Plane(src, i + 1, k)
  {
    assert after[s..s + i] == before[s..s + i];
    assert after[s..s + i + 1] == after[s..s + i] + [after[s + i]];
  }

  /** One more group written to the planes. */
  function WithGroup(dst: Data, s1: nat, s2: nat, s3: nat, src: Data, n: nat, i: nat): (r: Data)
    requires Apart(s1, s2, s3, n, |dst|) && 4 * n <= |src| && i < n
    ensures |r| == |dst|
  {
    var a: Data := dst[i := src[4 * i]];
    var b: Data := a[s1 + i := src[4 * i + 1]];
    var c: Data := b[s2 + i := src[4 * i + 2]];
    c[s3 + i := src[4 * i + 3]]
  }

  lemma PlanesNext(before: Data, s1: nat, s2: nat, s3: nat, src: Data, n: nat, i: nat)
    requires Apart(s1, s2, s3, n, |before|) && 4 * n <= |src| && i < n && HoldsPlanes(before, s1, s2, s3, src, i)
    ensures HoldsPlanes(WithGroup(before, s1, s2, s3, src, n, i), s1, s2, s3, src, i + 1)
  {
    var after := WithGroup(before, s1, s2, s3, src, n, i);
    assert before[0..i] == before[..i] && after[0..i + 1] == after[..i + 1];
    PlaneNext(before, after, 0, src, i, 0);
    PlaneNext(before, after, s1, src, i, 1);
    PlaneNext(before, after, s2, src, i, 2);
    PlaneNext(before, after, s3, src, i, 3);
  }

  /** Sets byte g of each plane from group g of src. */
  method Deinterleave4(dst: array<U8>, s1: nat, s2: nat, s3: nat, src: Data, n: nat)
    requires Apart(s1, s2, s3, n, dst.Length) && 4 * n <= |src|
    modifies dst
    ensures HoldsPlanes(dst[..], s1, s2, s3, src, n)
  {
    for i := 0 to n
      invariant HoldsPlanes(dst[..], s1, s2, s3, src, i)
    {
      ghost var before := dst[..];
      dst[i], dst[s1 + i], dst[s2 + i], dst[s3 + i] := src[4 * i], src[4 * i + 1], src[4 * i + 2], src[4 * i + 3];
      PlanesNext(before, s1, s2, s3, src, n, i);
      assert dst[..] == WithGroup(before, s1, s2, s3, src, n, i);
    }
  }

  /** Where byte k of the partial group goes: past the whole groups of its plane. */
  lemma TailPosition(n: nat, k: nat)
    requires k < n % 4
    ensures Position(n, n / 4 * 4 + k) == (k + 1) * (n / 4) + k
  {
    assert (n / 4 * 4 + k) / 4 == n / 4 && (n / 4 * 4 + k) % 4 == k;
    if k == 1 { assert (k + 1) * (n / 4) == 2 * (n / 4); }
    if k == 2 { assert (k + 1) * (n / 4) == 3 * (n / 4); }
  }

  /** Every byte of a whole group is in its plane. */
  lemma PlanesHold(planes: Data, data: Data, i: nat)
    requires |planes| == |data| && i < |data| / 4 * 4
    requires HoldsPlanes(planes, PlaneStart(|data|, 1), PlaneStart(|data|, 2), PlaneStart(|data|, 3), data, |data| / 4)
    ensures planes[Position(|data|, i)] == data[i]
  {
    var n, g, k := |data|, i / 4, i % 4;
    var s := PlaneStart(n, k);
    assert i == 4 * g + k;
    assert planes[s..s + n / 4][g] == Plane(data, n / 4, k)[g];
  }

  lemma AllInPlace(dst: Data, data: Data)
    requires |dst| == |data| && forall i :: 0 <= i < |data| ==> dst[Position(|data|, i)] == data[i]
    ensures dst == Grouped(data)
  {
    forall p | 0 <= p < |data| ensures dst[p] == Grouped(data)[p] {
      assert dst[Position(|data|, Origin(|data|, p))] == data[Origin(|data|, p)];
    }
  }

  /** The first m bytes are where they belong. */
  ghost predicate InPlace(dst: Data, data: Data, m: nat)
    requires |dst| == |data| && m <= |data|
  {
    forall i :: 0 <= i < m ==> dst[Position(|data|, i)] == data[i]
  }

  lemma PlaceOne(dst: Data, data: Data, m: nat)
    requires |dst| == |data| && m < |data| && InPlace(dst, data, m)
    ensures InPlace(dst[Position(|data|, m) := data[m]], data, m + 1)
  {
    forall i | 0 <= i < m ensures Position(|data|, i) != Position(|data|, m) {
      if Position(|data|, i) == Position(|data|, m) { PositionInjective(|data|, i, m); }
    }
  }

  /** Regroups data into dst. */
  method ApplyByteGrouping4(dst: array<U8>, data: Data)
    requires dst.Length == |data|
    modifies dst
    ensures dst[..] == Grouped(data)
  {
    var n := |data|;
    var groups, tail := n / 4, n % 4;
    Deinterleave4(dst, PlaneStart(n, 1), PlaneStart(n, 2), PlaneStart(n, 3), data, groups);
    forall i | 0 <= i < groups * 4 ensures dst[..][Position(n, i)] == data[i] { PlanesHold(dst[..], data, i); }
    for k := 0 to tail
      invariant InPlace(dst[..], data, groups * 4 + k)
    {
      TailPosition(n, k);
      PlaceOne(dst[..], data, groups * 4 + k);
      ghost var before := dst[..];
      dst[(k + 1) * groups + k] := data[4 * groups + k];
      assert dst[..] == before[Position(n, groups * 4 + k) := data[groups * 4 + k]];
    }
    AllInPlace(dst[..], data);
  }

  /** Sets group g of dst from byte g of each plane. */
  method Interleave4(dst: array<U8>, src: Data, s1: nat, s2: nat, s3: nat, n: nat)
    requires Apart(s1, s2, s3, n, |src|) && 4 * n <= dst.Length
    modifies dst
    ensures HoldsPlanes(src, s1, s2, s3, dst[..], n)
  {
    for i := 0 to n
      invariant HoldsPlanes(src, s1, s2, s3, dst[..], i)
    {
      ghost var before := dst[..];
      dst[4 * i], dst[4 * i + 1], dst[4 * i + 2], dst[4 * i + 3] := src[i], src[s1 + i], src[s2 + i], src[s3 + i];
      GroupNext(before, dst[..], src, 0, i, 0);
      GroupNext(before, dst[..], src, s1, i, 1);
      GroupNext(before, dst[..], src, s2, i, 2);
      GroupNext(before, dst[..], src, s3, i, 3);
    }
  }

  lemma GroupNext(before: Data, after: Data, src: Data, s: nat, i: nat, k: nat)
    requires |before| == |after| && 4 * i + 4 <= |after| && k < 4 && s + i < |src| &&
      src[s..s + i] == Plane(before, i, k)
    requires (forall p :: 0 <= p < 4 * i ==> after[p] == before[p]) && after[4 * i + k] == src[s + i]
    ensures src[s..s + i + 1] == Plane(after, i + 1, k)
  {
    assert src[s..s + i + 1] == src[s..s + i] + [src[s + i]];
    assert Plane(after, i + 1, k)[..i] == Plane(before, i, k);
  }

  /** The first m bytes are back. */
  ghost predicate Restored(dst: Data, data: Data, m: nat)
    requires |dst| == |data| && m <= |data|
  {
    forall i :: 0 <= i < m ==> dst[i] == data[Position(|data|, i)]
  }

  lemma RestoreOne(dst: Data, data: Data, m: nat)
    requires |dst| == |data| && m < |data| && Restored(dst, data, m)
    ensures Restored(dst[m := data[Position(|data|, m)]], data, m + 1)
  {
  }

  lemma AllRestored(dst: Data, data: Data)
    requires |dst| == |data| && Restored(dst, data, |data|)
    ensures dst == Ungrouped(data)
  {
  }

  /** Ungroups data into dst. */
  method ReverseByteGrouping4(dst: array<U8>, data: Data)
    requires dst.Length == |data|
    modifies dst
    ensures dst[..] == Ungrouped(data)
  {
    var n := |data|;
    var groups, tail := n / 4, n % 4;
    Interleave4(dst, data, PlaneStart(n, 1), PlaneStart(n, 2), PlaneStart(n, 3), groups);
    forall i | 0 <= i < groups * 4 ensures dst[..][i] == data[Position(n, i)] { PlanesHold(data, dst[..], i); }
    for k := 0 to tail
      invariant Restored(dst[..], data, groups * 4 + k)
    {
      TailPosition(n, k);
      RestoreOne(dst[..], data, groups * 4 + k);
      ghost var before := dst[..];
      dst[4 * groups + k] := data[(k + 1) * groups + k];
      assert dst[..] == before[groups * 4 + k := data[Position(n, groups * 4 + k)]];
    }
    AllRestored(dst[..], data);
  }
}
