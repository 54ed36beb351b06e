/** Content-defined chunking: the buffered scan against the byte-at-a-time definition. Everything is stated for an
    arbitrary table; `Gear` is the one in use. */
module Chunker {
  import opened Common

  type Table = Byte -> nat

  const MIN_CHUNK_SIZE: nat := 8192

  /** One step of the hash: 64-bit shift and add, wrapping around. */
  function Step(gear: Table, h: nat, b: Byte): (r: nat)
    ensures r < TWO64
  {
    (2 * h + gear(b)) % TWO64
  }

  /** The mask keeps the top sixteen bits. */
  predicate Passes(h: nat) { h < 0x1_0000_0000_0000 }

  lemma PassesIsMaskTest(h: bv64)
    ensures Passes(h as nat) <==> h & 0xFFFF_0000_0000_0000 == 0
    ensures (h as nat) < 0x1_0000_0000_0000 <==> h & 0xFFFF_0000_0000_0000 == 0
  {}

  /** The rolling hash after all of s, starting from h. */
  function Hash(gear: Table, h: nat, s: Bytes): nat {
    if s == [] then h else Step(gear, Hash(gear, h, s[..|s| - 1]), s[|s| - 1])
  }

  /** A chunk may end after n bytes: it is long enough and its hash passes the mask. */
  predicate Boundary(gear: Table, data: Bytes, n: nat) {
    MIN_CHUNK_SIZE <= n <= |data| && Passes(Hash(gear, 0, data[..n]))
  }

  /** The first place after n where the chunk starting data ends. */
  function CutFrom(gear: Table, data: Bytes, n: nat): (r: nat)
    requires n <= |data| && n <= MAX_CHUNK_SIZE
    ensures n <= r <= |data| && r <= MAX_CHUNK_SIZE
    ensures forall m :: n < m < r ==> !Boundary(gear, data, m)
    ensures r == |data| || r == MAX_CHUNK_SIZE || (Boundary(gear, data, r) && n < r)
    decreases |data| - n
  {
    if n == |data| || n == MAX_CHUNK_SIZE then n
    else if Boundary(gear, data, n + 1) then n + 1
    else CutFrom(gear, data, n + 1)
  }

  /** The length of the first chunk. */
  function CutLen(gear: Table, data: Bytes): nat { CutFrom(gear, data, 0) }

  /** The chunks of a stream. */
  function Chunks(gear: Table, data: Bytes): seq<Bytes> {
    if data == [] then [] else
    var c := CutLen(gear, data);
    if c == 0 then assert false; [] else [data[..c]] + Chunks(gear, data[c..])
  }

  // ---------------------------------------------------------------- what chunking guarantees

  /** Nothing is lost or reordered; every chunk but the last is between the minimum and the maximum size. */
  lemma {:induction false} ChunksPartition(gear: Table, data: Bytes)
    ensures Flatten(Chunks(gear, data)) == data
    ensures forall i :: 0 <= i < |Chunks(gear, data)| ==> 0 < |Chunks(gear, data)[i]| <= MAX_CHUNK_SIZE
    ensures forall i :: 0 <= i < |Chunks(gear, data)| - 1 ==> MIN_CHUNK_SIZE <= |Chunks(gear, data)[i]|
  {
    if data != [] {
      var c := CutLen(gear, data);
      ChunksPartition(gear, data[c..]);
      assert data == data[..c] + data[c..];
      assert |Chunks(gear, data)| > 1 ==> c < |data|;
    }
  }

  /** Every chunk but the last takes its minimum. */
  lemma {:induction false} ChunkCount(gear: Table, data: Bytes)
    ensures data != [] ==> (|Chunks(gear, data)| - 1) * MIN_CHUNK_SIZE < |data|
  {
    if data != [] {
      var c := CutLen(gear, data);
      ChunkCount(gear, data[c..]);
      if c < |data| { ChunksPartition(gear, data); }
    }
  }

  lemma {:induction false} CutIgnoresTail(gear: Table, data: Bytes, more: Bytes, n: nat)
    requires n <= |data| && n <= MAX_CHUNK_SIZE && CutFrom(gear, data, n) < |data|
    ensures CutFrom(gear, data + more, n) == CutFrom(gear, data, n)
    decreases |data| - n
  {
    if n != MAX_CHUNK_SIZE {
      assert (data + more)[..n + 1] == data[..n + 1];
      if !Boundary(gear, data, n + 1) { CutIgnoresTail(gear, data, more, n + 1); }
    }
  }

  /** All chunks but the last of a prefix are chunks of every extension. */
  lemma {:induction false} PrefixStable(gear: Table, data: Bytes, more: Bytes)
    ensures data != [] ==> Chunks(gear, data)[..|Chunks(gear, data)| - 1] <= Chunks(gear, data + more)
    decreases |data|
  {
    if data != [] {
      var c := CutLen(gear, data);
      if c < |data| {
        CutIgnoresTail(gear, data, more, 0);
        assert (data + more)[..c] == data[..c];
        assert (data + more)[c..] == data[c..] + more;
        PrefixStable(gear, data[c..], more);
        var rest := Chunks(gear, data[c..]);
        assert Chunks(gear, data)[..|Chunks(gear, data)| - 1] == [data[..c]] + rest[..|rest| - 1];
      } else {
        assert data[c..] == [];
        assert |Chunks(gear, data)| == 1;
      }
    }
  }

  function Pow2(n: nat): nat { if n == 0 then 1 else 2 * Pow2(n - 1) }

  lemma DoubleProduct(d: int, p: int)
    ensures d * (2 * p) == 2 * (d * p)
  {}

  /** Two runs over the same bytes differ by the shifted difference of their starting hashes, modulo 2^64. */
  lemma {:induction false} HashDifference(gear: Table, a: nat, b: nat, s: Bytes) returns (k: int)
    ensures Hash(gear, a, s) - Hash(gear, b, s) == (a - b) * Pow2(|s|) + k * TWO64
  {
    if s == [] {
      k := 0;
    } else {
      var init, g := s[..|s| - 1], gear(s[|s| - 1]);
      var j := HashDifference(gear, a, b, init);
      DoubleProduct(a - b, Pow2(|init|));
      k := 2 * j - (2 * Hash(gear, a, init) + g) / TWO64 + (2 * Hash(gear, b, init) + g) / TWO64;
    }
  }

  lemma {:induction false} HashAppend(gear: Table, h: nat, a: Bytes, b: Bytes)
    ensures Hash(gear, h, a + b) == Hash(gear, Hash(gear, h, a), b)
  {
    if b == [] {
      assert a + b == a;
    } else {
      assert (a + b)[..|a + b| - 1] == a + b[..|b| - 1];
      HashAppend(gear, h, a, b[..|b| - 1]);
    }
  }

  /** Wrap-around forgets everything before the last 64 bytes. */
  lemma HashWindow(gear: Table, s: Bytes)
    requires |s| >= 64
    ensures Hash(gear, 0, s) == Hash(gear, 0, s[|s| - 64..])
  {
    var earlier, window := s[..|s| - 64], s[|s| - 64..];
    assert s == earlier + window;
    HashAppend(gear, 0, earlier, window);
    var h := Hash(gear, 0, earlier);
    HashBelow(gear, 0, earlier);
    HashBelow(gear, h, window);
    HashBelow(gear, 0, window);
    var k := HashDifference(gear, h, 0, window);
    SameResidue(Hash(gear, h, window), Hash(gear, 0, window), h, k);
  }

  lemma {:induction false} Pow2Sum(a: nat, b: nat)
    ensures Pow2(a + b) == Pow2(a) * Pow2(b)
  {
    if a > 0 { Pow2Sum(a - 1, b); }
  }

  lemma Pow2Of64()
    ensures Pow2(64) == TWO64
  {
    assert Pow2(2) == 2 * Pow2(1) && Pow2(1) == 2;
    assert Pow2(4) == 16 by { Pow2Sum(2, 2); }
    assert Pow2(8) == 256 by { Pow2Sum(4, 4); }
    assert Pow2(16) == 0x1_0000 by { Pow2Sum(8, 8); }
    assert Pow2(32) == 0x1_0000_0000 by { Pow2Sum(16, 16); }
    Pow2Sum(32, 32);
  }

  lemma SameResidue(x: nat, y: nat, h: nat, k: int)
    requires x < TWO64 && y < TWO64 && x - y == (h - 0) * Pow2(64) + k * TWO64
    ensures x == y
  {
    Pow2Of64();
    assert (h - 0) * Pow2(64) == h * TWO64;
    assert x - y == (h + k) * TWO64;
  }

  lemma HashBelow(gear: Table, h: nat, s: Bytes)
    requires h < TWO64
    ensures Hash(gear, h, s) < TWO64
  {}

  /** Whether a chunk may end at a place past the minimum depends on the 64 bytes before it alone. */
  lemma BoundaryIsLocal(gear: Table, a: Bytes, m: nat, b: Bytes, n: nat)
    requires MIN_CHUNK_SIZE <= m <= |a| && MIN_CHUNK_SIZE <= n <= |b| && a[m - 64..m] == b[n - 64..n]
    ensures Boundary(gear, a, m) <==> Boundary(gear, b, n)
  {
    HashWindow(gear, a[..m]);
    HashWindow(gear, b[..n]);
    assert a[..m][m - 64..] == a[m - 64..m];
    assert b[..n][n - 64..] == b[n - 64..n];
  }

  // ---------------------------------------------------------------- the cuts, spelled out

  /** The 64-bit hash after each byte: doubled, the byte's table entry added, wrapped around. */
  ghost predicate Rolls(gear: Table, data: Bytes, hs: seq<nat>) {
    && |hs| == |data| + 1 && hs[0] == 0
    && forall i {:trigger data[i]} :: 0 <= i < |data| ==>
      hs[i + 1] == (2 * hs[i] + gear(data[i])) % 0x1_0000_0000_0000_0000
  }

  /** A chunk ends with the stream, at 131072 bytes, or with the shortest prefix of at least 8192 bytes whose hash has
      its top sixteen bits clear. */
  ghost predicate EndsAt(hs: seq<nat>, n: nat) {
    && n < |hs| && n <= 131072
    && (forall m :: 8192 <= m < n ==> hs[m] >= 0x1_0000_0000_0000)
    && (n == |hs| - 1 || n == 131072 || (n >= 8192 && hs[n] < 0x1_0000_0000_0000))
  }

  ghost predicate FirstChunk(gear: Table, data: Bytes, n: nat) {
    exists hs :: Rolls(gear, data, hs) && EndsAt(hs, n)
  }

  /** The chunks of a stream, cut off one after the other. */
  ghost predicate Chunked(gear: Table, data: Bytes, chunks: seq<Bytes>) {
    && Flatten(chunks) == data && (forall i :: 0 <= i < |chunks| ==> chunks[i] != [])
    && forall i :: 0 <= i < |chunks| ==> ChunkAt(gear, chunks, i)
  }

  ghost predicate ChunkAt(gear: Table, chunks: seq<Bytes>, i: nat)
    requires i < |chunks|
  {
    FirstChunk(gear, Flatten(chunks[i..]), |chunks[i]|)
  }

  lemma RollsOn(gear: Table, data: Bytes) returns (hs: seq<nat>)
    ensures Rolls(gear, data, hs) && forall n :: 0 <= n <= |data| ==> hs[n] == Hash(gear, 0, data[..n])
  {
    hs := seq(|data| + 1, n requires 0 <= n <= |data| => Hash(gear, 0, data[..n]));
    forall i | 0 <= i < |data| ensures hs[i + 1] == (2 * hs[i] + gear(data[i])) % 0x1_0000_0000_0000_0000 {
      HashStep(gear, data, i);
    }
  }

  lemma CutIsFirst(gear: Table, data: Bytes)
    ensures FirstChunk(gear, data, CutLen(gear, data))
  {
    var hs := RollsOn(gear, data);
    var n := CutLen(gear, data);
    forall m | 8192 <= m < n ensures hs[m] >= 0x1_0000_0000_0000 { assert !Boundary(gear, data, m); }
    assert EndsAt(hs, n);
  }

  lemma {:induction false} ChunksAre(gear: Table, data: Bytes)
    ensures Chunked(gear, data, Chunks(gear, data))
  {
    ChunksPartition(gear, data);
    if data != [] {
      var c, chunks := CutLen(gear, data), Chunks(gear, data);
      CutIsFirst(gear, data);
      ChunksAre(gear, data[c..]);
      var rest := Chunks(gear, data[c..]);
      forall i | 0 <= i < |chunks| ensures ChunkAt(gear, chunks, i) {
        if i == 0 {
          assert chunks[0..] == chunks;
        } else {
          assert ChunkAt(gear, rest, i - 1) && chunks[i..] == rest[i - 1..];
        }
      }
    }
  }

  // ---------------------------------------------------------------- the buffered scan

  datatype Status = More | AtEof | Failed

  /** A buffered reader: how much of the unread stream sits in its buffer is up to the source below it, and so is
      whether reading fails, unless the source is reliable. */
  class BufReader {
    const reliable: bool
    var rest: Bytes
    var buffered: nat

    ghost predicate Valid()
      reads this
    {
      buffered <= |rest|
    }

    constructor (data: Bytes, reliable: bool)
      ensures Valid() && rest == data && this.reliable == reliable
    {
      this.reliable := reliable;
      rest, buffered := data, 0;
    }

    /** Makes at least one byte available, unless the stream is over or the source fails. */
    method Fill() returns (s: Status)
      requires Valid()
      modifies this`buffered
      ensures Valid()
      ensures s.More? ==> buffered > 0
      ensures s.AtEof? ==> rest == []
      ensures s.Failed? ==> !reliable
    {
      if buffered > 0 { return More; }
      var broken: bool := *;
      if broken && !reliable { return Failed; }
      if rest == [] { return AtEof; }
      var n: nat :| 0 < n <= |rest|;
      buffered := n;
      return More;
    }

    method Discard(n: nat)
      requires Valid() && n <= buffered
      modifies this
      ensures Valid() && rest == old(rest)[n..] && buffered == old(buffered) - n
    {
      rest, buffered := rest[n..], buffered - n;
    }
  }

  lemma HashStep(gear: Table, data: Bytes, n: nat)
    requires n < |data|
    ensures Hash(gear, 0, data[..n + 1]) == Step(gear, Hash(gear, 0, data[..n]), data[n])
  {
    assert data[..n + 1][..n] == data[..n];
  }

  /** Below the minimum size no test is made. */
  method SkipMinimum(gear: Table, data: Bytes, size: nat, avail: nat, hash0: nat) returns (hash: nat, end: nat)
    requires size < avail <= |data| && avail <= MAX_CHUNK_SIZE && hash0 == Hash(gear, 0, data[..size])
    ensures size <= end <= avail && hash == Hash(gear, 0, data[..end]) && (end < avail ==> end >= MIN_CHUNK_SIZE - 1)
    ensures CutFrom(gear, data, size) == CutFrom(gear, data, end)
  {
    hash, end := hash0, size;
    while end < avail && end < MIN_CHUNK_SIZE - 1
      invariant size <= end <= avail && hash == Hash(gear, 0, data[..end])
      invariant CutFrom(gear, data, size) == CutFrom(gear, data, end)
    {
      HashStep(gear, data, end);
      hash := Step(gear, hash, data[end]);
      end := end + 1;
    }
  }

  /** Scans what is buffered for the end of the chunk whose first size bytes are already taken: data is the chunk's
      stream from its start, avail the end of the buffered part (capped at the maximum size). */
  method ScanBuffer(gear: Table, data: Bytes, size: nat, avail: nat, hash0: nat)
    returns (hash: nat, end: nat, found: bool)
    requires size < avail <= |data| && avail <= MAX_CHUNK_SIZE && hash0 == Hash(gear, 0, data[..size])
    ensures size < end <= avail && hash == Hash(gear, 0, data[..end])
    ensures found ==> CutFrom(gear, data, size) == end
    ensures !found ==> end == avail && CutFrom(gear, data, size) == CutFrom(gear, data, end)
  {
    found := false;
    hash, end := SkipMinimum(gear, data, size, avail, hash0);
    while end < avail
      invariant size <= end <= avail && hash == Hash(gear, 0, data[..end])
      invariant end < avail ==> end >= MIN_CHUNK_SIZE - 1
      invariant CutFrom(gear, data, size) == CutFrom(gear, data, end)
    {
      HashStep(gear, data, end);
      hash := Step(gear, hash, data[end]);
      end := end + 1;
      if Passes(hash) {
        found := true;
        return;
      }
    }
  }

  /** Copies data[from..upTo] behind what was copied before. */
  method CopyPart(buf: array<Byte>, data: Bytes, from: nat, upTo: nat)
    requires from <= upTo <= |data| && upTo <= buf.Length && buf[..from] == data[..from]
    modifies buf
    ensures buf[..upTo] == data[..upTo]
  {
    for i := from to upTo
      invariant buf[..i] == data[..i]
    {
      buf[i] := data[i];
      assert buf[..i + 1] == buf[..i] + [data[i]] && data[..i + 1] == data[..i] + [data[i]];
    }
  }

  /** Fills buf with the next chunk and returns its size, which is where the definition cuts however the stream is
      buffered; the stream ended inside the chunk if and only if the status says so. */
  method FindChunkBoundary(gear: Table, r: BufReader, buf: array<Byte>) returns (size: nat, status: Status)
    requires r.Valid() && buf.Length >= MAX_CHUNK_SIZE
    modifies r, buf
    ensures r.Valid()
    ensures !status.Failed? ==>
      && size == CutLen(gear, old(r.rest)) && size <= |old(r.rest)|
      && buf[..size] == old(r.rest)[..size] && r.rest == old(r.rest)[size..]
    ensures !status.Failed? ==> FirstChunk(gear, old(r.rest), size)
    ensures status.AtEof? ==> r.rest == []
    ensures status.More? ==> size > 0
    ensures status.Failed? ==> !r.reliable
  {
    var data := r.rest;
    CutIsFirst(gear, data);
    var hash := 0;
    size := 0;
    while size < MAX_CHUNK_SIZE
      invariant r.Valid() && size <= |data| && size <= MAX_CHUNK_SIZE && r.rest == data[size..]
      invariant buf[..size] == data[..size] && hash == Hash(gear, 0, data[..size])
      invariant CutLen(gear, data) == CutFrom(gear, data, size)
      decreases MAX_CHUNK_SIZE - size
    {
      status := r.Fill();
      if status.AtEof? { return; }
      if status.Failed? { return 0, status; }
      var avail := Min(size + r.buffered, MAX_CHUNK_SIZE);
      var end, found;
      hash, end, found := ScanBuffer(gear, data, size, avail, hash);
      CopyPart(buf, data, size, end);
      assert data[size..][end - size..] == data[end..];
      r.Discard(end - size);
      size := end;
      if found { return size, More; }
    }
    return size, More;
  }

  lemma ChunksStep(gear: Table, data: Bytes)
    requires data != []
    ensures 0 < CutLen(gear, data) <= |data|
    ensures Chunks(gear, data) == [data[..CutLen(gear, data)]] + Chunks(gear, data[CutLen(gear, data)..])
  {}

  /** Each chunk's offset is the length of what comes before it. */
  ghost predicate OffsetsOf(offsets: seq<nat>, chunks: seq<Bytes>) {
    |offsets| == |chunks| && forall i {:trigger offsets[i]} :: 0 <= i < |chunks| ==>
      offsets[i] == |Flatten(chunks[..i])|
  }

  lemma NextChunk(gear: Table, chunks: seq<Bytes>, offsets: seq<nat>, data: Bytes, n: nat)
    requires data != [] && n == CutLen(gear, data) && OffsetsOf(offsets, chunks)
    ensures 0 < n <= |data|
    ensures chunks + Chunks(gear, data) == chunks + [data[..n]] + Chunks(gear, data[n..])
    ensures OffsetsOf(offsets + [|Flatten(chunks)|], chunks + [data[..n]])
    ensures |Flatten(chunks + [data[..n]])| == |Flatten(chunks)| + n
  {
    ChunksStep(gear, data);
    FlattenSnoc(chunks, data[..n]);
    forall i | 0 <= i <= |chunks| ensures (chunks + [data[..n]])[..i] == chunks[..i] { }
    assert chunks[..|chunks|] == chunks;
  }

  /** Cuts a whole stream, handing over each chunk with its offset; a failing source stops it after whole chunks. */
  method ChunkData(gear: Table, data: Bytes, reliable: bool) returns (ok: bool, offsets: seq<nat>, chunks: seq<Bytes>)
    ensures reliable ==> ok
    ensures ok ==> chunks == Chunks(gear, data) && Chunked(gear, data, chunks)
    ensures !ok ==> chunks <= Chunks(gear, data)
    ensures OffsetsOf(offsets, chunks)
  {
    ChunksAre(gear, data);
    var r := new BufReader(data, reliable);
    var buf := new Byte[MAX_CHUNK_SIZE];
    var offset := 0;
    offsets, chunks := [], [];
    while true
      invariant r.Valid() && r.reliable == reliable && fresh(r) && fresh(buf) && buf.Length == MAX_CHUNK_SIZE
      invariant chunks + Chunks(gear, r.rest) == Chunks(gear, data) && offset == |Flatten(chunks)|
      invariant OffsetsOf(offsets, chunks)
      decreases |r.rest|
    {
      var before := r.rest;
      var size, status := FindChunkBoundary(gear, r, buf);
      if status.Failed? { return false, offsets, chunks; }
      if size == 0 { return true, offsets, chunks; }
      NextChunk(gear, chunks, offsets, before, size);
      offsets, chunks := offsets + [offset], chunks + [buf[..size]];
      offset := offset + size;
      if status.AtEof? { return true, offsets, chunks; }
    }
  }

  /** The same, one chunk at a time. */
  class ChunkIterator {
    const gear: Table
    const reader: BufReader
    var offset: nat
    var done: bool
    const buf: array<Byte>

    ghost predicate Valid()
      reads this, reader
    {
      reader.Valid() && buf.Length == MAX_CHUNK_SIZE && (done ==> reader.rest == [])
    }

    constructor (gear: Table, data: Bytes, reliable: bool)
      ensures Valid() && this.gear == gear && reader.rest == data && reader.reliable == reliable && offset == 0 && !done
      ensures fresh(reader) && fresh(buf)
    {
      this.gear := gear;
      reader := new BufReader(data, reliable);
      offset, done := 0, false;
      buf := new Byte[MAX_CHUNK_SIZE];
    }

    /** Returns the next chunk of the definition with its offset, or end of stream when there is none. */
    method Chunk() returns (status: Status, at: nat, chunk: Bytes)
      requires Valid()
      modifies this, reader, buf
      ensures if status.Failed? then !reader.reliable else Valid()
      ensures status.AtEof? ==> Chunks(gear, old(reader.rest)) == [] && done
      ensures status.More? ==>
        && Chunks(gear, old(reader.rest)) == [chunk] + Chunks(gear, reader.rest)
        && at == old(offset) && offset == at + |chunk|
    {
      if done { return AtEof, 0, []; }
      at := offset;
      var before := reader.rest;
      var size;
      size, status := FindChunkBoundary(gear, reader, buf);
      if status.Failed? { return status, 0, []; }
      if size == 0 {
        done := true;
        return AtEof, 0, [];
      }
      ChunksStep(gear, before);
      offset := offset + size;
      if status.AtEof? { done := true; }
      return More, at, buf[..size];
    }
  }
}
