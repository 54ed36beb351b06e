/** The stored formats byte by byte: where every field of a chunk frame, a xorb footer, a shard and a cache file is. */
module Layout {
  import opened Common
  import opened HashText
  import opened Wire
  import B = ByteGrouping
  import X = XorbFormat
  import F = XorbFooter
  import S = ShardFormat
  import C = ShardCodec
  import K = CacheFile

  // ---------------------------------------------------------------- numbers

  /** A number of n bytes at offset k, the least significant first. */
  ghost predicate Le(b: Data, k: nat, n: nat, v: int) { k + n <= |b| && v == LittleEndian(b[k..k + n]) }

  ghost predicate Le24(b: Data, k: nat, v: int) { Le(b, k, 3, v) }

  ghost predicate Le32(b: Data, k: nat, v: int) { Le(b, k, 4, v) }

  ghost predicate Le64(b: Data, k: nat, v: int) { Le(b, k, 8, v) }

  ghost predicate Zeros(b: Data, from: nat, upTo: nat) { upTo <= |b| && forall i :: from <= i < upTo ==> b[i] == 0 }

  /** The bytes at offset k. */
  ghost predicate At(b: Data, k: nat, part: Data) { k + |part| <= |b| && b[k..k + |part|] == part }

  lemma NumberOf(b: Data, x: U8, rest: Data)
    requires b == [x] + rest
    ensures LittleEndian(b) == x + 0x100 * LittleEndian(rest)
  {
    assert b[1..] == rest;
  }

  lemma U24Is(v: nat)
    requires v < TWO24
    ensures LittleEndian(U24(v)) == v
  {
    U24RoundTrip(v);
    var b := U24(v);
    NumberOf(b[2..], b[2], []);
    NumberOf(b[1..], b[1], b[2..]);
    NumberOf(b, b[0], b[1..]);
  }

  lemma U32Is(v: nat)
    requires v < TWO32
    ensures LittleEndian(U32(v)) == v
  {
    U32RoundTrip(v);
    var b := U32(v);
    NumberOf(b[3..], b[3], []);
    NumberOf(b[2..], b[2], b[3..]);
    NumberOf(b[1..], b[1], b[2..]);
    NumberOf(b, b[0], b[1..]);
  }

  lemma U64Is(v: nat)
    requires v < TWO64
    ensures LittleEndian(U64(v)) == v
  {
    var low, high := U32(v % TWO32), U32(v / TWO32);
    U32Is(v % TWO32);
    U32Is(v / TWO32);
    var b := low + high;
    NumberOf(low[3..], low[3], []);
    NumberOf(low[2..], low[2], low[3..]);
    NumberOf(low[1..], low[1], low[2..]);
    NumberOf(low, low[0], low[1..]);
    NumberOf(low[3..] + high, low[3], high);
    NumberOf(low[2..] + high, low[2], low[3..] + high);
    NumberOf(low[1..] + high, low[1], low[2..] + high);
    NumberOf(b, low[0], low[1..] + high);
  }

  lemma U24At(b: Data, k: nat, v: nat)
    requires At(b, k, U24(v)) && v < TWO24
    ensures Le24(b, k, v)
  {
    U24Is(v);
  }

  lemma U32At(b: Data, k: nat, v: nat)
    requires At(b, k, U32(v)) && v < TWO32
    ensures Le32(b, k, v)
  {
    U32Is(v);
  }

  lemma U64At(b: Data, k: nat, v: nat)
    requires At(b, k, U64(v)) && v < TWO64
    ensures Le64(b, k, v)
  {
    U64Is(v);
  }

  lemma AtHalves(b: Data, k: nat, x: Data, y: Data)
    requires At(b, k, x + y)
    ensures At(b, k, x) && At(b, k + |x|, y)
  {
    var s := b[k..k + |x + y|];
    assert s[..|x|] == x && s[|x|..] == y;
    assert b[k..k + |x|] == s[..|x|] && b[k + |x|..k + |x| + |y|] == s[|x|..];
  }

  lemma AtIn(b: Data, k: nat, s: Data, j: nat, part: Data)
    requires At(b, k, s) && At(s, j, part)
    ensures At(b, k + j, part)
  {
    F.Sub(b, k, |s|, j, |part|);
  }

  lemma WordIn(b: Data, k: nat, s: Data, j: nat, v: nat)
    requires At(b, k, s) && At(s, j, U32(v)) && v < TWO32
    ensures Le32(b, k + j, v)
  {
    AtIn(b, k, s, j, U32(v));
    U32At(b, k + j, v);
  }

  // ---------------------------------------------------------------- chunk frames

  /** Where byte i of n goes when bytes are grouped by their place among four: behind those of the places before its
      own. */
  function Place(n: nat, i: nat): nat {
    i / 4 + if i % 4 == 0 then 0 else if i % 4 == 1 then (n + 3) / 4 else if i % 4 == 2 then (n + 3) / 4 + (n + 2) / 4
      else (n + 3) / 4 + (n + 2) / 4 + (n + 1) / 4
  }

  ghost predicate IsGrouping(g: Data, d: Data) {
    |g| == |d| && forall i :: 0 <= i < |d| ==> Place(|d|, i) < |d| && g[Place(|d|, i)] == d[i]
  }

  lemma PlaceIs(n: nat, i: nat)
    requires i < n
    ensures Place(n, i) == B.Position(n, i)
  {
    Quarters(n, n / 4, n % 4);
  }

  /** How many of the numbers below n leave a remainder below one, two or three by four. */
  lemma Quarters(n: nat, groups: nat, tail: nat)
    requires n == 4 * groups + tail && tail < 4
    ensures (n + 3) / 4 == groups + Min(1, tail) && (n + 2) / 4 == groups + (if tail >= 2 then 1 else 0)
    ensures (n + 1) / 4 == groups + (if tail >= 3 then 1 else 0)
  {
  }

  lemma GroupingIs(d: Data)
    ensures IsGrouping(B.Grouped(d), d)
  {
    forall i | 0 <= i < |d| ensures Place(|d|, i) < |d| && B.Grouped(d)[Place(|d|, i)] == d[i] {
      PlaceIs(|d|, i);
      B.GroupedAt(d, i);
    }
  }

  /** How the body of a frame holds the chunk: as it is, or compressed if that is shorter, or grouped and compressed if
      that is shorter still. */
  ghost predicate Holds(c: X.Codec, kind: U8, body: Data, chunk: Data) {
    exists g :: IsGrouping(g, chunk) && Shortest(kind, body, chunk, c.compress(chunk), c.compress(g))
  }

  ghost predicate Shortest(kind: U8, body: Data, chunk: Data, plain: Option<Data>, grouped: Option<Data>) {
    && (kind == 0 ==> body == chunk)
    && (kind == 1 ==> plain == Some(body) && |body| < |chunk|)
    && (kind == 2 ==> grouped == Some(body) && |body| < |chunk| && (plain.Some? ==> |body| < |plain.value|))
    && kind <= 2 && (plain.Some? ==> |body| <= |plain.value|) && (grouped.Some? ==> |body| <= |grouped.value|)
  }

  /** A frame: a zero, the packed size, the kind, the chunk's size, and the body. */
  ghost predicate IsFrame(c: X.Codec, f: Data, chunk: Data) {
    && |f| >= 8 && f[0] == 0 && Le24(f, 1, |f| - 8) && Le24(f, 5, |chunk|)
    && Holds(c, f[4], f[8..], chunk)
  }

  lemma HeaderIs(h: X.Header)
    requires h.compressed < TWO24 && h.size < TWO24
    ensures var b := X.HeaderBytes(h);
      |b| == 8 && b[0] == 0 && Le24(b, 1, h.compressed) && b[4] == h.kind && Le24(b, 5, h.size)
  {
    var b := X.HeaderBytes(h);
    assert At(b, 1, U24(h.compressed)) && At(b, 5, U24(h.size));
    U24At(b, 1, h.compressed);
    U24At(b, 5, h.size);
  }

  lemma FrameIs(c: X.Codec, chunk: Data)
    requires |chunk| <= 131072
    ensures IsFrame(c, X.Frame(c, chunk), chunk)
  {
    var h, p, f := X.HeaderOf(c, chunk), X.SelectBestCompression(c, chunk), X.Frame(c, chunk);
    HeaderIs(h);
    GroupingIs(chunk);
    var b := X.HeaderBytes(h);
    assert f[8..] == p.body && f[1..4] == b[1..4] && f[5..8] == b[5..8];
    assert Shortest(f[4], f[8..], chunk, c.compress(chunk), c.compress(B.Grouped(chunk)));
  }

  /** What an encoder writes: the frames of the chunks, one after the other, and the footer if it is asked for. */
  lemma StreamIs(c: X.Codec, chunks: seq<Data>, withFooter: bool, nonce: Data) returns (frames: seq<Data>, footer: Data)
    requires |nonce| == 4 && X.Accepted(chunks)
    ensures X.Encoded(c, chunks, withFooter, nonce) == Flatten(frames) + footer && (!withFooter ==> footer == [])
    ensures |frames| == |chunks| && forall i :: 0 <= i < |chunks| ==> IsFrame(c, frames[i], chunks[i])
    ensures withFooter ==> IsFooter(footer, c.xorbHash(X.HashesOf(c, chunks), Lengths(chunks)), X.HashesOf(c, chunks),
      X.Ends(frames), X.Ends(chunks), nonce)
  {
    frames := X.FrameList(c, chunks);
    footer := [];
    X.FramesFlatten(c, chunks);
    forall i | 0 <= i < |chunks| ensures IsFrame(c, frames[i], chunks[i]) { FrameIs(c, chunks[i]); }
    if withFooter {
      X.PackedAreEnds(c, chunks);
      forall i | 0 <= i < |chunks| ensures X.PackedEnds(c, chunks)[i] < TWO32 && X.Ends(chunks)[i] < TWO32 {
        X.CastsLossless(c, chunks, i);
      }
      footer := F.Footer(X.XorbHash(c, chunks), X.HashesOf(c, chunks), X.PackedEnds(c, chunks), X.Ends(chunks), nonce);
      FooterIs(X.XorbHash(c, chunks), X.HashesOf(c, chunks), X.PackedEnds(c, chunks), X.Ends(chunks), nonce);
    }
  }

  // ---------------------------------------------------------------- the xorb footer

  ghost predicate IsMain(f: Data, hash: Digest) {
    At(f, 0, [0x58, 0x45, 0x54, 0x42, 0x4C, 0x4F, 0x42, 1]) && At(f, 8, hash)
  }

  ghost predicate IsHashes(f: Data, k: nat, hashes: seq<Digest>) {
    && At(f, k, [0x58, 0x42, 0x4C, 0x42, 0x48, 0x53, 0x48, 0]) && Le32(f, k + 8, |hashes|)
    && forall i :: 0 <= i < |hashes| ==> At(f, k + 12 + 32 * i, hashes[i])
  }

  ghost predicate IsBoundaries(f: Data, k: nat, packed: seq<nat>, unpacked: seq<nat>) {
    && At(f, k, [0x58, 0x42, 0x4C, 0x42, 0x42, 0x4E, 0x44, 1]) && Le32(f, k + 8, |packed|)
    && AreWords(f, k + 12, packed) && AreWords(f, k + 12 + 4 * |packed|, unpacked)
  }

  ghost predicate AreWords(f: Data, k: nat, vs: seq<nat>) {
    forall i :: 0 <= i < |vs| ==> Le32(f, k + 4 * i, vs[i])
  }

  ghost predicate IsTrailer(f: Data, k: nat, n: nat, nonce: Data) {
    && Le32(f, k, n) && Le32(f, k + 4, 52 + 40 * n) && Le32(f, k + 8, 40 + 8 * n) && At(f, k + 12, nonce)
    && Zeros(f, k + 16, k + 28)
  }

  /** The footer: the xorb hash, the chunk hashes, the end of every chunk packed and unpacked, and what lies how far
      from the end. */
  ghost predicate IsFooter(f: Data, hash: Digest, hashes: seq<Digest>, packed: seq<nat>, unpacked: seq<nat>,
                           nonce: Data) {
    var n := |hashes|;
    && |f| == 96 + 40 * n && |packed| == |unpacked| == n && |nonce| == 4
    && IsMain(f, hash) && IsHashes(f, 40, hashes) && IsBoundaries(f, 52 + 32 * n, packed, unpacked)
    && IsTrailer(f, 64 + 40 * n, n, nonce) && Le32(f, 92 + 40 * n, 92 + 40 * n)
  }

  lemma {:induction false} HashesAt(hs: seq<Digest>, i: nat)
    requires i < |hs|
    ensures At(F.Bytes32(hs), 32 * i, hs[i])
  {
    F.Bytes32At(hs, i);
  }

  lemma {:induction false} WordsAt(vs: seq<nat>, i: nat)
    requires i < |vs|
    ensures At(U32s(vs), 4 * i, U32(vs[i]))
  {
    U32sLength(vs);
    if i > 0 {
      WordsAt(vs[1..], i - 1);
      AtLater(U32(vs[0]), U32s(vs[1..]), 4 * (i - 1), U32(vs[i]));
    }
  }

  lemma AtLater(a: Data, b: Data, k: nat, part: Data)
    requires At(b, k, part)
    ensures At(a + b, |a| + k, part)
  {
    assert (a + b)[|a| + k..|a| + k + |part|] == b[k..k + |part|];
  }

  lemma HashSectionIs(f: Data, k: nat, hashes: seq<Digest>)
    requires At(f, k, F.HashSection(hashes)) && |hashes| < TWO32
    ensures IsHashes(f, k, hashes)
  {
    var s := F.HashSection(hashes);
    assert At(s, 0, [0x58, 0x42, 0x4C, 0x42, 0x48, 0x53, 0x48, 0]);
    AtIn(f, k, s, 0, [0x58, 0x42, 0x4C, 0x42, 0x48, 0x53, 0x48, 0]);
    WordIn(f, k, s, 8, |hashes|);
    forall i | 0 <= i < |hashes| ensures At(f, k + 12 + 32 * i, hashes[i]) {
      HashesAt(hashes, i);
      AtLater(F.HASH_IDENT + [0] + U32(|hashes|), F.Bytes32(hashes), 32 * i, hashes[i]);
      AtIn(f, k, s, 12 + 32 * i, hashes[i]);
    }
  }

  ghost predicate Words(vs: seq<nat>) { forall i :: 0 <= i < |vs| ==> vs[i] < TWO32 }

  lemma BoundarySectionIs(f: Data, k: nat, packed: seq<nat>, unpacked: seq<nat>)
    requires At(f, k, F.BoundarySection(packed, unpacked)) && |packed| < TWO32 && Words(packed) && Words(unpacked)
    ensures IsBoundaries(f, k, packed, unpacked)
  {
    var s, a, b := F.BoundarySection(packed, unpacked), U32s(packed), U32s(unpacked);
    var ident := [0x58, 0x42, 0x4C, 0x42, 0x42, 0x4E, 0x44, 1];
    var head := ident + U32(|packed|);
    assert s == head + a + b;
    U32sLength(packed);
    ThreeParts(f, k, head, a, b);
    AtIn(f, k, head, 0, ident);
    WordIn(f, k, head, 8, |packed|);
    WordsIn(f, k + 12, packed);
    WordsIn(f, k + 12 + 4 * |packed|, unpacked);
  }

  lemma ThreeParts(f: Data, k: nat, x: Data, y: Data, z: Data)
    requires At(f, k, x + y + z)
    ensures At(f, k, x) && At(f, k + |x|, y) && At(f, k + |x| + |y|, z)
  {
    AtHalves(f, k, x + y, z);
    AtHalves(f, k, x, y);
  }

  lemma WordsIn(f: Data, k: nat, vs: seq<nat>)
    requires At(f, k, U32s(vs)) && Words(vs)
    ensures AreWords(f, k, vs)
  {
    forall i | 0 <= i < |vs| ensures Le32(f, k + 4 * i, vs[i]) {
      WordsAt(vs, i);
      WordIn(f, k, U32s(vs), 4 * i, vs[i]);
    }
  }

  lemma TrailerIs(f: Data, k: nat, n: nat, nonce: Data)
    requires |nonce| == 4 && n <= 8192 && At(f, k, F.Trailer(n, nonce))
    ensures IsTrailer(f, k, n, nonce)
  {
    var s := F.Trailer(n, nonce);
    assert At(s, 0, U32(n)) && At(s, 4, U32(52 + 40 * n)) && At(s, 8, U32(40 + 8 * n)) && At(s, 12, nonce);
    WordIn(f, k, s, 0, n);
    WordIn(f, k, s, 4, 52 + 40 * n);
    WordIn(f, k, s, 8, 40 + 8 * n);
    AtIn(f, k, s, 12, nonce);
    forall i | k + 16 <= i < k + 28 ensures f[i] == 0 { assert f[i] == f[k..k + 28][i - k] == s[i - k]; }
  }

  lemma MainIs(f: Data, hash: Digest)
    requires At(f, 0, F.MainHeader(hash))
    ensures IsMain(f, hash)
  {
    var main := F.MainHeader(hash);
    assert At(main, 0, [0x58, 0x45, 0x54, 0x42, 0x4C, 0x4F, 0x42, 1]) && At(main, 8, hash);
    AtIn(f, 0, main, 0, [0x58, 0x45, 0x54, 0x42, 0x4C, 0x4F, 0x42, 1]);
    AtIn(f, 0, main, 8, hash);
  }

  lemma FooterIs(hash: Digest, hashes: seq<Digest>, packed: seq<nat>, unpacked: seq<nat>, nonce: Data)
    requires |nonce| == 4 && |packed| == |unpacked| == |hashes| <= 8192 && Words(packed) && Words(unpacked)
    ensures IsFooter(F.Footer(hash, hashes, packed, unpacked, nonce), hash, hashes, packed, unpacked, nonce)
  {
    var f, n := F.Footer(hash, hashes, packed, unpacked, nonce), |hashes|;
    SectionsAt(f, hash, hashes, packed, unpacked, nonce);
    FooterFrom(f, hash, hashes, packed, unpacked, nonce, n, 52 + 32 * n, 64 + 40 * n, 92 + 40 * n);
  }

  lemma FooterFrom(f: Data, hash: Digest, hashes: seq<Digest>, packed: seq<nat>, unpacked: seq<nat>, nonce: Data,
                   n: nat, k: nat, m: nat, end: nat)
    requires |nonce| == 4 && |packed| == |unpacked| == |hashes| == n <= 8192 && Words(packed) && Words(unpacked)
    requires |f| == end + 4 && k == 52 + 32 * n && m == 64 + 40 * n && end == 92 + 40 * n
    requires At(f, 0, F.MainHeader(hash)) && At(f, 40, F.HashSection(hashes))
    requires At(f, k, F.BoundarySection(packed, unpacked)) && At(f, m, F.Trailer(n, nonce)) && At(f, end, U32(end))
    ensures IsFooter(f, hash, hashes, packed, unpacked, nonce)
  {
    FrontIs(f, hash, hashes);
    BackIs(f, k, m, packed, unpacked, nonce, end);
    FooterOf(f, hash, hashes, packed, unpacked, nonce, n);
  }

  lemma FooterOf(f: Data, hash: Digest, hashes: seq<Digest>, packed: seq<nat>, unpacked: seq<nat>, nonce: Data, n: nat)
    requires |f| == 96 + 40 * n && |hashes| == |packed| == |unpacked| == n && |nonce| == 4
    requires IsMain(f, hash) && IsHashes(f, 40, hashes) && IsBoundaries(f, 52 + 32 * n, packed, unpacked)
    requires IsTrailer(f, 64 + 40 * n, n, nonce) && Le32(f, 92 + 40 * n, 92 + 40 * n)
    ensures IsFooter(f, hash, hashes, packed, unpacked, nonce)
  {
  }

  lemma FrontIs(f: Data, hash: Digest, hashes: seq<Digest>)
    requires At(f, 0, F.MainHeader(hash)) && At(f, 40, F.HashSection(hashes)) && |hashes| < TWO32
    ensures IsMain(f, hash) && IsHashes(f, 40, hashes)
  {
    MainIs(f, hash);
    HashSectionIs(f, 40, hashes);
  }

  lemma BackIs(f: Data, k: nat, m: nat, packed: seq<nat>, unpacked: seq<nat>, nonce: Data, end: nat)
    requires |nonce| == 4 && |packed| <= 8192 && Words(packed) && Words(unpacked) && end < TWO32
    requires At(f, k, F.BoundarySection(packed, unpacked)) && At(f, m, F.Trailer(|packed|, nonce)) &&
      At(f, end, U32(end))
    ensures IsBoundaries(f, k, packed, unpacked) && IsTrailer(f, m, |packed|, nonce) && Le32(f, end, end)
  {
    BoundarySectionIs(f, k, packed, unpacked);
    TrailerIs(f, m, |packed|, nonce);
    U32At(f, end, end);
  }

  lemma SectionsAt(f: Data, hash: Digest, hashes: seq<Digest>, packed: seq<nat>, unpacked: seq<nat>, nonce: Data)
    requires |nonce| == 4 && |packed| == |unpacked| == |hashes| && f == F.Footer(hash, hashes, packed, unpacked, nonce)
    ensures var n := |hashes|;
      && |f| == 96 + 40 * n && At(f, 0, F.MainHeader(hash)) && At(f, 40, F.HashSection(hashes))
      && At(f, 52 + 32 * n, F.BoundarySection(packed, unpacked)) && At(f, 64 + 40 * n, F.Trailer(n, nonce))
      && At(f, 92 + 40 * n, U32(92 + 40 * n))
  {
    F.SectionLengths(hashes, packed, unpacked);
    F.FooterSections(hash, hashes, packed, unpacked, nonce);
  }

  // ---------------------------------------------------------------- shards

  /** A record: a hash and four numbers. */
  ghost predicate IsRecord(b: Data, k: nat, hash: Digest, v0: int, v1: int, v2: int, v3: int) {
    && k + 48 <= |b| && At(b, k, hash)
    && Le32(b, k + 32, v0) && Le32(b, k + 36, v1) && Le32(b, k + 40, v2) && Le32(b, k + 44, v3)
  }

  lemma RecordIs(hash: Digest, v0: Word, v1: Word, v2: Word, v3: Word)
    ensures IsRecord(hash + U32(v0) + U32(v1) + U32(v2) + U32(v3), 0, hash, v0, v1, v2, v3)
  {
    var b := hash + U32(v0) + U32(v1) + U32(v2) + U32(v3);
    assert At(b, 32, U32(v0)) && At(b, 36, U32(v1)) && At(b, 40, U32(v2)) && At(b, 44, U32(v3));
    U32At(b, 32, v0);
    U32At(b, 36, v1);
    U32At(b, 40, v2);
    U32At(b, 44, v3);
  }

  lemma RecordIn(b: Data, k: nat, r: Data, hash: Digest, v0: Word, v1: Word, v2: Word, v3: Word)
    requires |r| == 48 && At(b, k, r) && IsRecord(r, 0, hash, v0, v1, v2, v3)
    ensures IsRecord(b, k, hash, v0, v1, v2, v3)
  {
    AtIn(b, k, r, 0, hash);
    F.Sub(b, k, 48, 32, 4);
    F.Sub(b, k, 48, 36, 4);
    F.Sub(b, k, 48, 40, 4);
    F.Sub(b, k, 48, 44, 4);
  }

  /** The records of the shard format. */
  lemma RecordsAre(e: S.FileEntry, c: S.ChunkEntry, h: Digest)
    ensures IsRecord(S.EntryBytes(e), 0, e.xorb, e.flags, e.bytes, e.start, e.end)
    ensures IsRecord(S.ChunkBytes(c), 0, c.hash, c.start, c.bytes, c.flags, 0)
    ensures IsRecord(S.HashRecord(h), 0, h, 0, 0, 0, 0)
    ensures IsRecord(S.BOOKEND, 0, S.ONES, 0, 0, 0, 0) && forall i :: 0 <= i < 32 ==> S.ONES[i] == 255
  {
    ZeroWord();
    RecordIs(e.xorb, e.flags, e.bytes, e.start, e.end);
    RecordIs(c.hash, c.start, c.bytes, c.flags, 0);
    RecordIs(h, 0, 0, 0, 0);
    RecordIs(S.ONES, 0, 0, 0, 0);
    FourZeros(h);
    FourZeros(S.ONES);
    OnesAre();
  }

  lemma OnesAre()
    ensures forall i :: 0 <= i < 32 ==> S.ONES[i] == 255
  {
  }

  lemma ZeroWord()
    ensures U32(0) == S.ZERO4
  {
  }

  lemma FourZeros(h: Digest)
    ensures h + U32(0) + U32(0) + U32(0) + U32(0) == h + S.ZERO16
  {
    ZeroWord();
  }

  /** A file block: a header with its flags and number of terms, the terms, a verification hash for each if the flags
      have bit 31, and the SHA-256, eight bytes at a time reversed, if they have bit 30. */
  ghost predicate IsFileBlock(b: Data, fb: S.FileBlock) {
    var n := |fb.entries|;
    var verified, stamped := fb.flags >= 0x8000_0000, fb.flags % 0x8000_0000 >= 0x4000_0000;
    && |b| == 48 * (1 + n + (if verified then n else 0) + if stamped then 1 else 0)
    && IsRecord(b, 0, fb.hash, fb.flags, n, 0, 0)
    && AreEntries(b, 48, fb.entries)
    && (verified ==> |fb.verification| == n && AreHashes(b, 48 + 48 * n, fb.verification))
    && (stamped ==> fb.sha.Some? && IsStamp(b, |b| - 48, fb.sha.value))
  }

  ghost predicate IsStamp(b: Data, k: int, sha: Digest) {
    && 0 <= k && k + 48 <= |b| && Zeros(b, k + 32, k + 48)
    && forall i {:trigger sha[i / 8 * 8 + 7 - i % 8]} :: 0 <= i < 32 ==> b[k + i] == sha[i / 8 * 8 + 7 - i % 8]
  }

  /** A block of a xorb: a header with its flags, number of chunks and sizes, and the chunks. */
  ghost predicate IsCasBlock(b: Data, cb: S.CasBlock) {
    var n := |cb.chunks|;
    && |b| == 48 * (1 + n) && IsRecord(b, 0, cb.hash, cb.flags, n, cb.inCas, cb.onDisk)
    && forall i :: 0 <= i < n ==> IsChunkAt(b, 48 + 48 * i, cb.chunks[i])
  }

  lemma PackedAre<T>(items: seq<T>, bytes: T -> S.Record, i: nat)
    requires i < |items|
    ensures At(S.Packed(items, bytes), 48 * i, bytes(items[i]))
  {
    S.PackedAt(items, bytes, [], i);
    assert S.Packed(items, bytes) + [] == S.Packed(items, bytes);
  }

  ghost predicate IsEntryAt(b: Data, k: nat, e: S.FileEntry) {
    IsRecord(b, k, e.xorb, e.flags, e.bytes, e.start, e.end)
  }

  ghost predicate AreEntries(b: Data, k: nat, entries: seq<S.FileEntry>) {
    forall i :: 0 <= i < |entries| ==> IsEntryAt(b, k + 48 * i, entries[i])
  }

  ghost predicate AreHashes(b: Data, k: nat, hashes: seq<Digest>) {
    forall i :: 0 <= i < |hashes| ==> IsRecord(b, k + 48 * i, hashes[i], 0, 0, 0, 0)
  }

  ghost predicate IsChunkAt(b: Data, k: nat, c: S.ChunkEntry) {
    IsRecord(b, k, c.hash, c.start, c.bytes, c.flags, 0)
  }

  lemma ItemIn<T>(b: Data, k: nat, items: seq<T>, bytes: T -> S.Record, i: nat) returns (p: nat)
    requires At(b, k, S.Packed(items, bytes)) && i < |items|
    ensures p == k + 48 * i && At(b, p, bytes(items[i]))
  {
    p := k + 48 * i;
    PackedAre(items, bytes, i);
    AtIn(b, k, S.Packed(items, bytes), 48 * i, bytes(items[i]));
  }

  lemma OneChunk(b: Data, k: nat, c: S.ChunkEntry)
    requires At(b, k, S.ChunkBytes(c))
    ensures IsChunkAt(b, k, c)
  {
    RecordsAre(S.FileEntry(c.hash, 0, 0, 0, 0), c, c.hash);
    RecordIn(b, k, S.ChunkBytes(c), c.hash, c.start, c.bytes, c.flags, 0);
  }

  lemma OneEntry(b: Data, k: nat, e: S.FileEntry)
    requires At(b, k, S.EntryBytes(e))
    ensures IsEntryAt(b, k, e)
  {
    RecordsAre(e, S.ChunkEntry(e.xorb, 0, 0, 0), e.xorb);
    RecordIn(b, k, S.EntryBytes(e), e.xorb, e.flags, e.bytes, e.start, e.end);
  }

  lemma OneHash(b: Data, k: nat, h: Digest)
    requires At(b, k, S.HashRecord(h))
    ensures IsRecord(b, k, h, 0, 0, 0, 0)
  {
    RecordsAre(S.FileEntry(h, 0, 0, 0, 0), S.ChunkEntry(h, 0, 0, 0), h);
    RecordIn(b, k, S.HashRecord(h), h, 0, 0, 0, 0);
  }

  lemma CasBlockIs(cb: S.CasBlock)
    requires S.CasOk(cb)
    ensures IsCasBlock(S.CasBytes(cb), cb)
  {
    var b, head, n := S.CasBytes(cb), S.CasHeader(cb), |cb.chunks|;
    S.PackedLength(cb.chunks, S.ChunkBytes);
    RecordIs(cb.hash, cb.flags, n, cb.inCas, cb.onDisk);
    assert b[0..|b|] == b;
    AtHalves(b, 0, head, S.Packed(cb.chunks, S.ChunkBytes));
    RecordIn(b, 0, head, cb.hash, cb.flags, n, cb.inCas, cb.onDisk);
    forall i | 0 <= i < n ensures IsChunkAt(b, 48 + 48 * i, cb.chunks[i]) {
      var p := ItemIn(b, 48, cb.chunks, S.ChunkBytes, i);
      OneChunk(b, p, cb.chunks[i]);
    }
  }

  /** The parts of a file block and where they are. */
  lemma FileParts(fb: S.FileBlock)
    requires S.FileOk(fb)
    ensures var b, n := S.FileBytes(fb), |fb.entries|;
      && |b| == 48 + 48 * n + |S.VerificationBytes(fb)| + |S.MetadataBytes(fb)|
      && At(b, 0, S.FileHeader(fb)) && At(b, 48, S.Packed(fb.entries, S.EntryBytes))
      && At(b, 48 + 48 * n, S.VerificationBytes(fb))
      && At(b, |b| - |S.MetadataBytes(fb)|, S.MetadataBytes(fb))
  {
    var b, n := S.FileBytes(fb), |fb.entries|;
    var e, v, m := S.Packed(fb.entries, S.EntryBytes), S.VerificationBytes(fb), S.MetadataBytes(fb);
    S.PackedLength(fb.entries, S.EntryBytes);
    assert b[0..|b|] == b;
    AtHalves(b, 0, S.FileHeader(fb), e + (v + m));
    AtHalves(b, 48, e, v + m);
    AtHalves(b, 48 + 48 * n, v, m);
  }

  lemma EntriesIn(b: Data, k: nat, entries: seq<S.FileEntry>)
    requires At(b, k, S.Packed(entries, S.EntryBytes))
    ensures AreEntries(b, k, entries)
  {
    forall i | 0 <= i < |entries| ensures IsEntryAt(b, k + 48 * i, entries[i]) {
      var p := ItemIn(b, k, entries, S.EntryBytes, i);
      OneEntry(b, p, entries[i]);
    }
  }

  lemma HashesIn(b: Data, k: nat, hashes: seq<Digest>)
    requires At(b, k, S.Packed(hashes, S.HashRecord))
    ensures AreHashes(b, k, hashes)
  {
    forall i | 0 <= i < |hashes| ensures IsRecord(b, k + 48 * i, hashes[i], 0, 0, 0, 0) {
      var p := ItemIn(b, k, hashes, S.HashRecord, i);
      OneHash(b, p, hashes[i]);
    }
  }

  lemma FlagBits(flags: Word)
    ensures S.WithVerification(flags) <==> flags >= 0x8000_0000
    ensures S.WithMetadata(flags) <==> flags % 0x8000_0000 >= 0x4000_0000
  {
  }

  lemma FileBlockIs(fb: S.FileBlock)
    requires S.FileOk(fb)
    ensures IsFileBlock(S.FileBytes(fb), fb)
  {
    var b := S.FileBytes(fb);
    FlagBits(fb.flags);
    FileParts(fb);
    FileSizes(fb);
    FileFront(b, fb);
    FileBack(b, fb);
  }

  lemma FileFront(b: Data, fb: S.FileBlock)
    requires At(b, 0, S.FileHeader(fb)) && At(b, 48, S.Packed(fb.entries, S.EntryBytes)) && |fb.entries| < TWO32
    ensures IsRecord(b, 0, fb.hash, fb.flags, |fb.entries|, 0, 0) && AreEntries(b, 48, fb.entries)
  {
    FileHeaderIs(b, fb);
    EntriesIn(b, 48, fb.entries);
  }

  lemma FileBack(b: Data, fb: S.FileBlock)
    requires S.FileOk(fb) && At(b, 48 + 48 * |fb.entries|, S.VerificationBytes(fb))
    requires |b| >= 48 && At(b, |b| - |S.MetadataBytes(fb)|, S.MetadataBytes(fb))
    ensures S.WithVerification(fb.flags) ==> AreHashes(b, 48 + 48 * |fb.entries|, fb.verification)
    ensures S.WithMetadata(fb.flags) ==> IsStamp(b, |b| - 48, fb.sha.value)
  {
    if S.WithVerification(fb.flags) { HashesIn(b, 48 + 48 * |fb.entries|, fb.verification); }
    if S.WithMetadata(fb.flags) { StampIs(b, |b| - 48, fb.sha.value); }
  }

  lemma FileSizes(fb: S.FileBlock)
    requires S.FileOk(fb)
    ensures |S.VerificationBytes(fb)| == if S.WithVerification(fb.flags) then 48 * |fb.entries| else 0
    ensures |S.MetadataBytes(fb)| == if S.WithMetadata(fb.flags) then 48 else 0
  {
    S.PackedLength(fb.verification, S.HashRecord);
  }

  lemma FileHeaderIs(b: Data, fb: S.FileBlock)
    requires At(b, 0, S.FileHeader(fb)) && |fb.entries| < TWO32
    ensures IsRecord(b, 0, fb.hash, fb.flags, |fb.entries|, 0, 0)
  {
    var n := |fb.entries|;
    ZeroWord();
    RecordIs(fb.hash, fb.flags, n, 0, 0);
    assert S.FileHeader(fb) == fb.hash + U32(fb.flags) + U32(n) + U32(0) + U32(0);
    RecordIn(b, 0, S.FileHeader(fb), fb.hash, fb.flags, n, 0, 0);
  }

  lemma StampIs(b: Data, k: nat, sha: Digest)
    requires At(b, k, S.HashRecord(S.Transform(sha))) && |b| == k + 48
    ensures IsStamp(b, k, sha)
  {
    var r := S.HashRecord(S.Transform(sha));
    forall i | 0 <= i < 48 ensures b[k + i] == r[i] { assert b[k..k + 48][i] == b[k + i]; }
    forall i | k + 32 <= i < k + 48 ensures b[i] == 0 { assert b[k + (i - k)] == r[i - k]; }
  }

  // ---------------------------------------------------------------- whole shards

  /** The first 48 bytes: the identifier, a zero, the magic bytes, version 2, and the size of the footer. */
  lemma ShardHeaderIs(footerSize: Long)
    ensures var b := C.HeaderBytes(footerSize);
      && At(b, 0, [0x48, 0x46, 0x52, 0x65, 0x70, 0x6f, 0x4d, 0x65, 0x74, 0x61, 0x44, 0x61, 0x74, 0x61, 0])
      && At(b, 15, [0x55, 0x69, 0x67, 0x45, 0x6a, 0x7b, 0x81, 0x57, 0x83, 0xa5, 0xbd, 0xd9, 0x5c, 0xcd, 0xd1, 0x4a,
        0xa9])
      && |b| == 48 && Le64(b, 32, 2) && Le64(b, 40, footerSize)
  {
    var b := C.HeaderBytes(footerSize);
    TagsAre(b, S.APPLICATION_ID + [0] + S.MAGIC, U64(2), U64(footerSize));
    U64At(b, 32, 2);
    U64At(b, 40, footerSize);
  }

  lemma TagsAre(b: Data, tags: Data, x: Data, y: Data)
    requires b == tags + x + y && tags == S.APPLICATION_ID + [0] + S.MAGIC && |x| == 8 == |y|
    ensures At(b, 0, [0x48, 0x46, 0x52, 0x65, 0x70, 0x6f, 0x4d, 0x65, 0x74, 0x61, 0x44, 0x61, 0x74, 0x61, 0])
    ensures At(b, 15, [0x55, 0x69, 0x67, 0x45, 0x6a, 0x7b, 0x81, 0x57, 0x83, 0xa5, 0xbd, 0xd9, 0x5c, 0xcd, 0xd1, 0x4a,
      0xa9])
    ensures |b| == 48 && At(b, 32, x) && At(b, 40, y)
  {
  }

  ghost predicate AreLongs(b: Data, k: nat, vs: seq<Long>) {
    forall i :: 0 <= i < |vs| ==> Le64(b, k + 8 * i, vs[i])
  }

  lemma {:induction false} LongsAt(vs: seq<Long>, i: nat)
    requires i < |vs|
    ensures At(C.Longs(vs), 8 * i, U64(vs[i]))
  {
    C.LongsLength(vs);
    if i > 0 {
      LongsAt(vs[1..], i - 1);
      AtLater(U64(vs[0]), C.Longs(vs[1..]), 8 * (i - 1), U64(vs[i]));
    }
  }

  lemma LongsIn(b: Data, k: nat, vs: seq<Long>)
    requires At(b, k, C.Longs(vs))
    ensures AreLongs(b, k, vs)
  {
    forall i | 0 <= i < |vs| ensures Le64(b, k + 8 * i, vs[i]) {
      LongsAt(vs, i);
      AtIn(b, k, C.Longs(vs), 8 * i, U64(vs[i]));
      U64At(b, k + 8 * i, vs[i]);
    }
  }

  /** The last 200 bytes of a shard with a footer. */
  lemma ShardFooterIs(f: C.Footer)
    ensures var b := C.FooterBytes(f);
      && |b| == 200 && At(b, 72, f.key) && At(b, 120, f.reserved)
      && AreLongs(b, 0, [f.version, f.fileInfo, f.casInfo, f.fileLookup, f.fileLookups, f.casLookup, f.casLookups,
        f.chunkLookup, f.chunkLookups])
      && AreLongs(b, 104, [f.created, f.expiry])
      && AreLongs(b, 168, [f.storedOnDisk, f.materialized, f.stored, f.footerOffset])
  {
    var b := C.FooterBytes(f);
    var x, y, z := C.Longs(C.First(f)), C.Longs(C.Times(f)), C.Longs(C.Totals(f));
    C.LongsLength(C.First(f));
    C.LongsLength(C.Times(f));
    C.LongsLength(C.Totals(f));
    assert b[0..|b|] == b;
    AtHalves(b, 0, x, f.key + (y + (f.reserved + z)));
    AtHalves(b, 72, f.key, y + (f.reserved + z));
    AtHalves(b, 104, y, f.reserved + z);
    AtHalves(b, 120, f.reserved, z);
    LongsIn(b, 0, C.First(f));
    LongsIn(b, 104, C.Times(f));
    LongsIn(b, 168, C.Totals(f));
  }

  // ---------------------------------------------------------------- cache files

  /** The sum after each byte. */
  ghost predicate Sums(mix: K.Mixer, data: Data, sums: seq<Word>) {
    && |sums| == |data| + 1 && sums[0] == 0
    && forall i {:trigger data[i]} :: 0 <= i < |data| ==> sums[i + 1] == mix(sums[i], data[i])
  }

  /** One more than the chunks, where each starts and the last ends, and their bytes, before four more. */
  ghost predicate HoldsChunks(file: Data, chunks: seq<Data>, k: nat) {
    && |file| == k + |Flatten(chunks)| + 4 && Le32(file, 0, |chunks| + 1) && AreStarts(file, 4, chunks)
    && At(file, k, Flatten(chunks))
  }

  ghost predicate AreStarts(file: Data, k: nat, chunks: seq<Data>) {
    forall i :: 0 <= i <= |chunks| ==> Le32(file, k + 4 * i, |Flatten(chunks[..i])|)
  }

  ghost predicate IsSum(mix: K.Mixer, file: Data, k: nat, data: Data) {
    exists sums :: Sums(mix, data, sums) && Le32(file, k, sums[|sums| - 1])
  }

  lemma {:induction false} SumsOf(mix: K.Mixer, data: Data) returns (sums: seq<Word>)
    ensures Sums(mix, data, sums) && sums[|sums| - 1] == K.Update(mix, 0, data)
  {
    if data == [] {
      sums := [0];
    } else {
      var n := |data| - 1;
      var init := SumsOf(mix, data[..n]);
      sums := init + [mix(init[n], data[n])];
      assert data == data[..n] + [data[n]] && [data[n]][1..] == [];
      K.UpdateAppend(mix, 0, data[..n], [data[n]]);
      forall i | 0 <= i < |data| ensures sums[i + 1] == mix(sums[i], data[i]) {
        if i < n { assert data[..n][i] == data[i]; }
      }
    }
  }

  lemma TableIs(file: Data, chunks: seq<Data>)
    requires |chunks| <= 8192 && K.Buffered(chunks) && At(file, 0, K.Header(K.Table(chunks)))
    ensures Le32(file, 0, |chunks| + 1) && AreStarts(file, 4, chunks)
  {
    var n, table := |chunks|, K.Table(chunks);
    AtHalves(file, 0, U32(n + 1), U32s(table));
    U32At(file, 0, n + 1);
    forall i | 0 <= i < |table| ensures table[i] < TWO32 { K.OffsetsFit(chunks, i); }
    WordsIn(file, 4, table);
    forall i | 0 <= i <= n ensures Le32(file, 4 + 4 * i, |Flatten(chunks[..i])|) { assert table[i] == K.At(chunks, i); }
  }

  lemma SumIs(mix: K.Mixer, file: Data, header: Data, data: Data, end: nat)
    requires At(file, end, U32(K.Checksum(mix, header, data)))
    ensures IsSum(mix, file, end, data + header)
  {
    var sums := SumsOf(mix, data + header);
    K.UpdateAppend(mix, 0, data, header);
    U32At(file, end, K.Checksum(mix, header, data));
  }

  lemma WholeOfThree(b: Data, x: Data, y: Data, z: Data)
    requires b == x + y + z
    ensures |b| == |x| + |y| + |z| && At(b, 0, x) && At(b, |x|, y) && At(b, |x| + |y|, z)
  {
    assert b[0..|b|] == b;
    ThreeParts(b, 0, x, y, z);
  }

  /** A sealed file holds its chunks behind their table. */
  lemma SealedIs(mix: K.Mixer, chunks: seq<Data>)
    requires |chunks| <= 8192 && K.Buffered(chunks)
    ensures HoldsChunks(K.SealedFile(mix, chunks), chunks, 8 + 4 * |chunks|)
  {
    var header := K.Header(K.Table(chunks));
    SealedHolds(chunks, header, U32(K.Checksum(mix, header, Flatten(chunks))), K.SealedFile(mix, chunks));
  }

  /** Its last four bytes are a checksum of the bytes of the chunks and then of all before them. */
  lemma SealedSum(mix: K.Mixer, chunks: seq<Data>, file: Data, k: nat)
    requires file == K.SealedFile(mix, chunks) && k == 8 + 4 * |chunks|
    ensures |file| >= k + 4 && IsSum(mix, file, |file| - 4, Flatten(chunks) + file[..k])
  {
    var header, data := K.Header(K.Table(chunks)), Flatten(chunks);
    K.HeaderLength(K.Table(chunks));
    SumsUp(mix, file, header, data, K.Checksum(mix, header, data), k);
  }

  lemma SumsUp(mix: K.Mixer, file: Data, header: Data, data: Data, sum: Word, k: nat)
    requires sum == K.Checksum(mix, header, data) && file == header + data + U32(sum) && k == |header|
    ensures |file| >= k + 4 && IsSum(mix, file, |file| - 4, data + file[..k])
  {
    SealedSums(mix, file, header, data, U32(sum));
  }

  lemma SealedSums(mix: K.Mixer, file: Data, header: Data, data: Data, tail: Data)
    requires file == header + data + tail && tail == U32(K.Checksum(mix, header, data))
    ensures IsSum(mix, file, |file| - 4, data + header) && file[..|header|] == header
  {
    WholeOfThree(file, header, data, tail);
    SumIs(mix, file, header, data, |header| + |data|);
  }

  lemma SealedHolds(chunks: seq<Data>, header: Data, tail: Data, file: Data)
    requires |chunks| <= 8192 && K.Buffered(chunks) && header == K.Header(K.Table(chunks)) && |tail| == 4
    requires file == header + Flatten(chunks) + tail
    ensures HoldsChunks(file, chunks, 8 + 4 * |chunks|)
  {
    K.HeaderLength(K.Table(chunks));
    assert header[0..|header|] == header;
    TableIs(header, chunks);
    WholeOfThree(file, header, Flatten(chunks), tail);
    SealedBody(file, header, |header|, chunks);
  }

  lemma SealedBody(file: Data, header: Data, k: nat, chunks: seq<Data>)
    requires |header| == k == 8 + 4 * |chunks| && |file| == k + |Flatten(chunks)| + 4
    requires At(file, 0, header) && At(file, k, Flatten(chunks))
    requires Le32(header, 0, |chunks| + 1) && AreStarts(header, 4, chunks)
    ensures HoldsChunks(file, chunks, k)
  {
    StartsMove(file, header, chunks);
  }

  lemma StartsMove(file: Data, header: Data, chunks: seq<Data>)
    requires At(file, 0, header) && Le32(header, 0, |chunks| + 1) && AreStarts(header, 4, chunks)
    ensures Le32(file, 0, |chunks| + 1) && AreStarts(file, 4, chunks)
  {
    NumberMoves(file, header, 0, |chunks| + 1);
    forall i | 0 <= i <= |chunks| ensures Le32(file, 4 + 4 * i, |Flatten(chunks[..i])|) {
      NumberMoves(file, header, 4 + 4 * i, |Flatten(chunks[..i])|);
    }
  }

  lemma NumberMoves(file: Data, header: Data, k: nat, v: int)
    requires At(file, 0, header) && Le32(header, k, v)
    ensures Le32(file, k, v)
  {
    assert header[k..k + 4] == file[k..k + 4];
  }
}
