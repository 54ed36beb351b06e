/** Xorbs as bytes: chunk frames, the encoder, the decoder, validation and chunk ranges. LZ4 and the hash functions are
    parameters. */
module XorbFormat {
  import opened Common
  import opened HashText
  import opened Wire
  import opened ByteGrouping
  import opened XorbFooter
  import P = Planning

  datatype Codec = Codec(compress: Data -> Option<Data>, decompress: Data -> Option<Data>,
                         chunkHash: Data -> Digest, xorbHash: (seq<Digest>, seq<nat>) -> Digest)

  /** Decompressing undoes compressing. */
  ghost predicate Lawful(c: Codec) {
    forall x {:trigger c.compress(x)} :: c.compress(x).Some? ==> c.decompress(c.compress(x).value) == Some(x)
  }

  // ---------------------------------------------------------------- one chunk

  const NONE: nat := 0
  const LZ4: nat := 1
  const GROUPED_LZ4: nat := 2

  datatype Header = Header(compressed: nat, size: nat, kind: U8)

  function HeaderBytes(h: Header): (b: Data)
    ensures |b| == 8
  {
    [0] + U24(h.compressed) + [h.kind] + U24(h.size)
  }

  function ParseChunkHeader(b: Data): (h: Option<Header>)
    ensures h.Some? ==> h.value.compressed < TWO24 && h.value.size <= MAX_CHUNK_SIZE
  {
    if |b| < 8 || b[0] != 0 then None else
    var h := Header(GetU24(b[1..4]), GetU24(b[5..8]), b[4]);
    if h.size > MAX_CHUNK_SIZE then None else Some(h)
  }

  /** Parsing a header returns it: 24 bits hold every size a chunk can have. */
  lemma HeaderRoundTrip(h: Header)
    requires h.compressed < TWO24 && h.size <= MAX_CHUNK_SIZE
    ensures ParseChunkHeader(HeaderBytes(h)) == Some(h)
  {
    var b := HeaderBytes(h);
    assert b[1..4] == U24(h.compressed) && b[5..8] == U24(h.size);
    U24RoundTrip(h.compressed);
    U24RoundTrip(h.size);
  }

  function Inflate(c: Codec, body: Data, size: nat): (r: Option<Data>)
    ensures r.Some? ==> |r.value| == size
  {
    match c.decompress(body)
    case None => None
    case Some(d) => if |d| == size then Some(d) else None
  }

  function DecodeChunk(c: Codec, h: Header, body: Data): (r: Option<Data>)
    ensures r.Some? ==> |r.value| == h.size
  {
    if |body| != h.compressed || h.size > MAX_CHUNK_SIZE then None
    else if h.kind == NONE then if |body| == h.size then Some(body) else None
    else if h.kind == LZ4 then Inflate(c, body, h.size)
    else if h.kind == GROUPED_LZ4 then match Inflate(c, body, h.size) case None => None case Some(d) =>
      Some(Ungrouped(d))
    else None
  }

  datatype Packed = Packed(kind: U8, body: Data)

  /** The smallest of the chunk itself, its compression and the compression of its grouping, the earlier on a tie. */
  function SelectBestCompression(c: Codec, data: Data): (r: Packed)
    ensures |r.body| <= |data|
    ensures c.compress(data).Some? ==> |r.body| <= |c.compress(data).value|
    ensures c.compress(Grouped(data)).Some? ==> |r.body| <= |c.compress(Grouped(data)).value|
  {
    var lz4, bg4 := c.compress(data), c.compress(Grouped(data));
    var best := if lz4.Some? && |lz4.value| < |data| then Packed(LZ4, lz4.value) else Packed(NONE, data);
    if bg4.Some? && |bg4.value| < |best.body| then Packed(GROUPED_LZ4, bg4.value) else best
  }

  function HeaderOf(c: Codec, chunk: Data): Header {
    var p := SelectBestCompression(c, chunk);
    Header(|p.body|, |chunk|, p.kind)
  }

  /** A chunk as stored: its header and its packed body. */
  function Frame(c: Codec, chunk: Data): (r: Data)
    ensures |r| == 8 + HeaderOf(c, chunk).compressed
  {
    HeaderBytes(HeaderOf(c, chunk)) + SelectBestCompression(c, chunk).body
  }

  /** Whatever way a chunk was packed, it decodes to itself. */
  lemma SelectDecodes(c: Codec, chunk: Data)
    requires Lawful(c) && |chunk| <= MAX_CHUNK_SIZE
    ensures DecodeChunk(c, HeaderOf(c, chunk), SelectBestCompression(c, chunk).body) == Some(chunk)
  {
    GroupingInverse(chunk);
  }

  // ---------------------------------------------------------------- reading a stream

  /** What comes next in a stream: its end, a torn header, a footer, something invalid, or a chunk and its packed
      size. */
  datatype Item = End | Torn | FooterStart | Invalid | Chunk(data: Data, packed: nat)

  /** room bounds the packed size; count and raw are the chunks and bytes read so far. */
  function NextItem(c: Codec, rest: Data, count: nat, raw: nat, room: nat): (r: Item)
    ensures r.Chunk? ==>
      8 <= r.packed <= |rest| && |r.data| <= MAX_CHUNK_SIZE && count < MAX_CHUNKS && raw + |r.data| <= MAX_XORB_SIZE
    ensures r.FooterStart? ==> |rest| >= 8
  {
    if rest == [] then End
    else if |rest| < 8 then Torn
    else if rest[..7] == IDENT then FooterStart
    else match ParseChunkHeader(rest[..8])
      case None => Invalid
      case Some(h) =>
        if h.compressed > room || count >= MAX_CHUNKS || raw > MAX_XORB_SIZE || h.size > MAX_XORB_SIZE - raw ||
          |rest| < 8 + h.compressed then Invalid
        else match DecodeChunk(c, h, rest[8..8 + h.compressed])
          case None => Invalid
          case Some(d) => Chunk(d, 8 + h.compressed)
  }

  /** A stored chunk is read back, whatever follows it. */
  lemma FrameNext(c: Codec, chunk: Data, rest: Data, count: nat, raw: nat, room: nat)
    requires Lawful(c) && |chunk| <= MAX_CHUNK_SIZE <= room && count < MAX_CHUNKS && raw + |chunk| <= MAX_XORB_SIZE
    ensures NextItem(c, Frame(c, chunk) + rest, count, raw, room) == Chunk(chunk, |Frame(c, chunk)|)
  {
    var h, body := HeaderOf(c, chunk), SelectBestCompression(c, chunk).body;
    var s := Frame(c, chunk) + rest;
    HeaderRoundTrip(h);
    SelectDecodes(c, chunk);
    FrameParts(s, HeaderBytes(h), body, rest);
    assert s[0] == 0 && s[..7][0] == 0 && IDENT[0] == 0x58;
  }

  lemma FrameParts(s: Data, header: Data, body: Data, rest: Data)
    requires s == (header + body) + rest && |header| == 8
    ensures s[..8] == header && s[8..8 + |body|] == body && s[8 + |body|..] == rest && |s| == 8 + |body| + |rest|
  {}

  function Frames(c: Codec, chunks: seq<Data>): Data {
    if chunks == [] then [] else Frame(c, chunks[0]) + Frames(c, chunks[1..])
  }

  /** What an encoder accepts. */
  ghost predicate Accepted(chunks: seq<Data>) {
    |chunks| <= MAX_CHUNKS && |Flatten(chunks)| <= MAX_XORB_SIZE && forall i :: 0 <= i < |chunks| ==>
      |chunks[i]| <= MAX_CHUNK_SIZE
  }

  lemma {:induction false} FramesAppend(c: Codec, a: seq<Data>, b: seq<Data>)
    ensures Frames(c, a + b) == Frames(c, a) + Frames(c, b)
  {
    if a == [] {
      assert a + b == b;
    } else {
      assert (a + b)[1..] == a[1..] + b;
      FramesAppend(c, a[1..], b);
    }
  }

  lemma FramesSnoc(c: Codec, a: seq<Data>, x: Data)
    ensures Frames(c, a + [x]) == Frames(c, a) + Frame(c, x)
  {
    FramesAppend(c, a, [x]);
    assert Frames(c, [x]) == Frame(c, x) + Frames(c, []);
  }

  /** Prefix sums of frame sizes: the packed end of every chunk. */
  function PackedEnds(c: Codec, chunks: seq<Data>): (r: seq<nat>)
    ensures |r| == |chunks| && forall i :: 0 <= i < |chunks| ==> r[i] == |Frames(c, chunks[..i + 1])|
  {
    seq(|chunks|, i requires 0 <= i < |chunks| => |Frames(c, chunks[..i + 1])|)
  }

  /** Prefix sums of sizes: the end of every chunk, or of every frame. */
  function Ends(parts: seq<Data>): (r: seq<nat>)
    ensures |r| == |parts| && forall i :: 0 <= i < |parts| ==> r[i] == |Flatten(parts[..i + 1])|
  {
    seq(|parts|, i requires 0 <= i < |parts| => |Flatten(parts[..i + 1])|)
  }

  function FrameList(c: Codec, chunks: seq<Data>): (r: seq<Data>)
    ensures |r| == |chunks| && forall i :: 0 <= i < |chunks| ==> r[i] == Frame(c, chunks[i])
  {
    seq(|chunks|, i requires 0 <= i < |chunks| => Frame(c, chunks[i]))
  }

  lemma {:induction false} FramesFlatten(c: Codec, chunks: seq<Data>)
    ensures Flatten(FrameList(c, chunks)) == Frames(c, chunks)
  {
    if chunks != [] {
      FramesFlatten(c, chunks[1..]);
      assert FrameList(c, chunks)[1..] == FrameList(c, chunks[1..]);
    }
  }

  lemma PackedAreEnds(c: Codec, chunks: seq<Data>)
    ensures Ends(FrameList(c, chunks)) == PackedEnds(c, chunks)
  {
    var fs := FrameList(c, chunks);
    forall i | 0 <= i < |chunks| ensures Ends(fs)[i] == PackedEnds(c, chunks)[i] {
      assert fs[..i + 1] == FrameList(c, chunks[..i + 1]);
      FramesFlatten(c, chunks[..i + 1]);
    }
  }

  lemma PackedEndsSnoc(c: Codec, chunks: seq<Data>, x: Data)
    ensures PackedEnds(c, chunks + [x]) == PackedEnds(c, chunks) + [|Frames(c, chunks)| + |Frame(c, x)|]
  {
    var all, n := chunks + [x], |chunks|;
    FramesSnoc(c, chunks, x);
    assert all[..n + 1] == all;
    forall i | 0 <= i < n ensures PackedEnds(c, all)[i] ==
      PackedEnds(c, chunks)[i] { assert all[..i + 1] == chunks[..i + 1]; }
  }

  lemma EndsSnoc(chunks: seq<Data>, x: Data)
    ensures Ends(chunks + [x]) == Ends(chunks) + [|Flatten(chunks)| + |x|]
  {
    var all, n := chunks + [x], |chunks|;
    FlattenSnoc(chunks, x);
    assert all[..n + 1] == all;
    forall i | 0 <= i < n ensures Ends(all)[i] ==
      Ends(chunks)[i] { assert all[..i + 1] == chunks[..i + 1]; }
  }

  function HashesOf(c: Codec, chunks: seq<Data>): (r: seq<Digest>)
    ensures |r| == |chunks| && forall i :: 0 <= i < |chunks| ==> r[i] == c.chunkHash(chunks[i])
  {
    seq(|chunks|, i requires 0 <= i < |chunks| => c.chunkHash(chunks[i]))
  }

  function XorbHash(c: Codec, chunks: seq<Data>): Digest { c.xorbHash(HashesOf(c, chunks), Lengths(chunks)) }

  /** A finished xorb. */
  function Encoded(c: Codec, chunks: seq<Data>, withFooter: bool, nonce: Data): Data
    requires |nonce| == 4
  {
    Frames(c, chunks) + if withFooter
      then Footer(XorbHash(c, chunks), HashesOf(c, chunks), PackedEnds(c, chunks), Ends(chunks), nonce) else []
  }

  // ---------------------------------------------------------------- no cast loses bits

  lemma {:induction false} FramesBound(c: Codec, chunks: seq<Data>)
    ensures |Frames(c, chunks)| <= |Flatten(chunks)| + 8 * |chunks|
  {
    if chunks != [] { FramesBound(c, chunks[1..]); }
  }

  lemma PrefixShorter(chunks: seq<Data>, i: nat)
    requires i <= |chunks|
    ensures |Flatten(chunks[..i])| <= |Flatten(chunks)|
  {
    assert chunks == chunks[..i] + chunks[i..];
    FlattenAppend(chunks[..i], chunks[i..]);
  }

  /** Every size and offset of an accepted xorb fits its field. */
  lemma CastsLossless(c: Codec, chunks: seq<Data>, i: nat)
    requires Accepted(chunks) && i < |chunks|
    ensures HeaderOf(c, chunks[i]).compressed < TWO24 && |chunks[i]| < TWO24
    ensures PackedEnds(c, chunks)[i] < TWO32 && Ends(chunks)[i] < TWO32 && 92 + 40 * |chunks| < TWO32
  {
    FramesBound(c, chunks[..i + 1]);
    PrefixShorter(chunks, i + 1);
  }

  /** Ends step by a frame each. */
  lemma EndsSpaced(c: Codec, chunks: seq<Data>)
    ensures Spaced(PackedEnds(c, chunks)) &&
      (chunks != [] ==> PackedEnds(c, chunks)[|chunks| - 1] == |Frames(c, chunks)|)
  {
    var offs := PackedEnds(c, chunks);
    forall i | 0 <= i < |offs| ensures Gap(offs, i) {
      assert chunks[..i + 1] == chunks[..i] + [chunks[i]];
      FramesSnoc(c, chunks[..i], chunks[i]);
    }
    assert chunks[..|chunks|] == chunks;
  }

  /** Footer offsets are the prefix sums of frame sizes. */
  lemma FooterOffsets(c: Codec, chunks: seq<Data>, nonce: Data)
    requires Accepted(chunks) && |nonce| == 4
    ensures Offsets(Encoded(c, chunks, true, nonce)) == Some(PackedEnds(c, chunks))
  {
    EndsSpaced(c, chunks);
    forall i | 0 <= i < |chunks| ensures PackedEnds(c, chunks)[i] < TWO32 { CastsLossless(c, chunks, i); }
    FullOffsets(Encoded(c, chunks, true, nonce), Frames(c, chunks), XorbHash(c, chunks), HashesOf(c, chunks),
      PackedEnds(c, chunks), Ends(chunks), nonce);
  }

  // ---------------------------------------------------------------- the encoder

  /** What an encoder has accumulated. */
  datatype Totals = Totals(hashes: seq<Digest>, sizes: seq<nat>, offsets: seq<nat>, unpackedOffsets: seq<nat>,
    packedPos: nat, unpackedPos: nat)

  ghost predicate Counts(c: Codec, chunks: seq<Data>, withFooter: bool, t: Totals) {
    Adds(c, chunks, t) && (withFooter ==> Marks(c, chunks, t))
  }

  ghost predicate Adds(c: Codec, chunks: seq<Data>, t: Totals) {
    && t.hashes == HashesOf(c, chunks) && t.sizes == Lengths(chunks)
    && t.packedPos == |Frames(c, chunks)| && t.unpackedPos == |Flatten(chunks)|
  }

  ghost predicate Marks(c: Codec, chunks: seq<Data>, t: Totals) {
    t.offsets == PackedEnds(c, chunks) && t.unpackedOffsets == Ends(chunks)
  }

  /** The totals after one more chunk, packed into compressed bytes. */
  function Count(t: Totals, withFooter: bool, hash: Digest, compressed: nat, size: nat): Totals {
    var packedPos, unpackedPos := t.packedPos + 8 + compressed, t.unpackedPos + size;
    var offsets := if withFooter then t.offsets + [packedPos] else t.offsets;
    var unpackedOffsets := if withFooter then t.unpackedOffsets + [unpackedPos] else t.unpackedOffsets;
    Totals(t.hashes + [hash], t.sizes + [size], offsets, unpackedOffsets, packedPos, unpackedPos)
  }

  lemma CountsOne(c: Codec, chunks: seq<Data>, withFooter: bool, t: Totals, chunk: Data)
    requires Counts(c, chunks, withFooter, t)
    ensures Counts(c, chunks + [chunk], withFooter,
      Count(t, withFooter, c.chunkHash(chunk), HeaderOf(c, chunk).compressed, |chunk|))
  {
    CountsFrame(c, chunks, withFooter, t, chunk, HeaderOf(c, chunk).compressed);
  }

  lemma CountsFrame(c: Codec, chunks: seq<Data>, withFooter: bool, t: Totals, chunk: Data, compressed: nat)
    requires Counts(c, chunks, withFooter, t) && |Frame(c, chunk)| == 8 + compressed
    ensures Counts(c, chunks + [chunk], withFooter, Count(t, withFooter, c.chunkHash(chunk), compressed, |chunk|))
  {
    var u := Count(t, withFooter, c.chunkHash(chunk), compressed, |chunk|);
    AddsOne(c, chunks, t, chunk, u);
    if withFooter { MarksOne(c, chunks, t, chunk, u); }
  }

  lemma AddsOne(c: Codec, chunks: seq<Data>, t: Totals, chunk: Data, u: Totals)
    requires Adds(c, chunks, t) && u.hashes == t.hashes + [c.chunkHash(chunk)] && u.sizes == t.sizes + [|chunk|]
    requires u.packedPos == t.packedPos + |Frame(c, chunk)| && u.unpackedPos == t.unpackedPos + |chunk|
    ensures Adds(c, chunks + [chunk], u)
  {
    FramesSnoc(c, chunks, chunk);
    FlattenSnoc(chunks, chunk);
    ListsGrow(c, chunks, chunk);
  }

  lemma MarksOne(c: Codec, chunks: seq<Data>, t: Totals, chunk: Data, u: Totals)
    requires Marks(c, chunks, t)
    requires u.offsets == t.offsets + [|Frames(c, chunks)| + |Frame(c, chunk)|]
    requires u.unpackedOffsets == t.unpackedOffsets + [|Flatten(chunks)| + |chunk|]
    ensures Marks(c, chunks + [chunk], u)
  {
    PackedEndsSnoc(c, chunks, chunk);
    EndsSnoc(chunks, chunk);
  }

  lemma ListsGrow(c: Codec, chunks: seq<Data>, chunk: Data)
    ensures HashesOf(c, chunks + [chunk]) == HashesOf(c, chunks) + [c.chunkHash(chunk)]
    ensures Lengths(chunks + [chunk]) == Lengths(chunks) + [|chunk|]
  {
  }

  class Encoder {
    const c: Codec
    const withFooter: bool
    var out: Data
    var nonce: Data
    var tally: Totals
    var finalized: bool
    var failed: bool
    ghost var chunks: seq<Data>

    /** The bytes written so far are the frames of the chunks accepted so far, followed by their footer once closed. */
    ghost predicate Valid()
      reads this
    {
      && |nonce| == 4 && Accepted(chunks) && Counts(c, chunks, withFooter, tally)
      && out == Encoded(c, chunks, withFooter && finalized, nonce)
    }

    constructor (c: Codec, withFooter: bool)
      ensures Valid() && this.c == c && this.withFooter == withFooter && chunks == [] && !finalized && !failed
    {
      this.c, this.withFooter := c, withFooter;
      out, nonce, tally := [], [0, 0, 0, 0], Totals([], [], [], [], 0, 0);
      finalized, failed, chunks := false, false, [];
    }

    method SetUniquenessNonce(n: Data) returns (ok: bool)
      requires Valid() && |n| == 4
      modifies `nonce
      ensures Valid() && ok == (!failed && !finalized) && nonce == if ok then n else old(nonce)
    {
      if failed || finalized { return false; }
      nonce := n;
      return true;
    }

    /** Takes a chunk unless that would break a limit; a refusal is final. */
    method Write(chunk: Data) returns (ok: bool)
      requires Valid()
      modifies `out, `tally, `failed, `chunks
      ensures Valid()
      ensures ok <==> !old(failed) && !finalized && Accepted(old(chunks) + [chunk])
      ensures chunks == if ok then old(chunks) + [chunk] else old(chunks)
      ensures failed == !ok
    {
      Accepts(chunks, chunk);
      if failed { return false; }
      if finalized || |chunk| > MAX_CHUNK_SIZE || |tally.hashes| >= MAX_CHUNKS || tally.unpackedPos > MAX_XORB_SIZE ||
        |chunk| > MAX_XORB_SIZE - tally.unpackedPos {
        failed := true;
        return false;
      }
      var packed := SelectBestCompression(c, chunk);
      var frame := HeaderBytes(Header(|packed.body|, |chunk|, packed.kind)) + packed.body;
      EncodedGrows(c, chunks, chunk, nonce);
      CountsOne(c, chunks, withFooter, tally, chunk);
      out := out + frame;
      tally := Count(tally, withFooter, c.chunkHash(chunk), |packed.body|, |chunk|);
      chunks := chunks + [chunk];
      return true;
    }

    /** Writes the footer once. */
    method Close() returns (ok: bool)
      requires Valid()
      modifies `out, `finalized
      ensures Valid() && ok == !failed && (ok ==> finalized)
    {
      if failed { return false; }
      if finalized { return true; }
      finalized := true;
      if withFooter {
        var hash := c.xorbHash(tally.hashes, tally.sizes);
        out := out + Footer(hash, tally.hashes, tally.offsets, tally.unpackedOffsets, nonce);
      }
      return true;
    }
  }

  lemma EncodedGrows(c: Codec, chunks: seq<Data>, chunk: Data, nonce: Data)
    requires |nonce| == 4
    ensures Encoded(c, chunks + [chunk], false, nonce) == Encoded(c, chunks, false, nonce) + Frame(c, chunk)
  {
    FramesSnoc(c, chunks, chunk);
  }

  lemma Accepts(chunks: seq<Data>, chunk: Data)
    requires Accepted(chunks)
    ensures Accepted(chunks + [chunk]) <==>
      |chunk| <= MAX_CHUNK_SIZE && |chunks| < MAX_CHUNKS && |Flatten(chunks)| + |chunk| <= MAX_XORB_SIZE
  {
    FlattenSnoc(chunks, chunk);
    assert (chunks + [chunk])[|chunks|] == chunk;
  }

  lemma Wrote(c: Codec, chunks: seq<Data>, chunk: Data, frame: Data)
    requires frame == HeaderBytes(HeaderOf(c, chunk)) + SelectBestCompression(c, chunk).body
    ensures Frames(c, chunks + [chunk]) == Frames(c, chunks) + frame &&
      |Flatten(chunks + [chunk])| == |Flatten(chunks)| + |chunk|
    ensures HashesOf(c, chunks + [chunk]) == HashesOf(c, chunks) + [c.chunkHash(chunk)] &&
      Lengths(chunks + [chunk]) == Lengths(chunks) + [|chunk|]
  {
    FramesSnoc(c, chunks, chunk);
    FlattenSnoc(chunks, chunk);
  }

  // ---------------------------------------------------------------- the decoder

  datatype ReadResult = Got(data: Data) | EndOfChunks | Failure

  class Decoder {
    const c: Codec
    const withFooter: bool
    var rest: Data
    var hashes: seq<Digest>
    var sizes: seq<nat>
    var rawSize: nat
    var done: bool
    var failed: bool

    constructor (c: Codec, data: Data, withFooter: bool)
      ensures this.c == c && this.withFooter == withFooter && rest == data && hashes == [] && sizes == [] &&
        rawSize == 0 && !done && !failed
    {
      this.c, this.withFooter := c, withFooter;
      rest, hashes, sizes, rawSize, done, failed := data, [], [], 0, false, false;
    }

    /** Reads the next chunk into a buffer of room bytes; without a footer asked for, anything torn or footer-like ends
        the chunks. */
    method Read(room: nat) returns (r: ReadResult)
      modifies this
      ensures old(failed) ==> r.Failure? && failed
      ensures !old(failed) && old(done) ==> r.EndOfChunks? && rest == old(rest) && done && !failed
      ensures !old(failed) && !old(done) ==>
        match NextItem(c, old(rest), |old(hashes)|, old(rawSize), room)
        case Chunk(d, n) =>
          && hashes == old(hashes) + [c.chunkHash(d)] && sizes == old(sizes) + [|d|] && rawSize == old(rawSize) + |d| &&
            rest == old(rest)[n..]
          && (if |d| <= room then r == Got(d) && !failed && !done else r.Failure? && failed)
        case FooterStart =>
          var ok := !withFooter ||
            FooterOk(old(rest)[7], old(rest)[8..], c.xorbHash(old(hashes), old(sizes)), old(hashes));
          r == (if ok then EndOfChunks else Failure) && done == ok && failed == !ok && hashes == old(hashes) &&
            sizes == old(sizes)
        case Invalid => r.Failure? && failed
        case _ =>
          r == (if withFooter then Failure else EndOfChunks) && failed == withFooter && done == !withFooter &&
          hashes == old(hashes) && sizes == old(sizes)
    {
      if failed { return Failure; }
      if done { return EndOfChunks; }
      match NextItem(c, rest, |hashes|, rawSize, room) {
        case Chunk(d, n) =>
          hashes, sizes, rawSize, rest := hashes + [c.chunkHash(d)], sizes + [|d|], rawSize + |d|, rest[n..];
          if |d| > room { failed := true; return Failure; }
          return Got(d);
        case FooterStart =>
          var ok := true;
          if withFooter { ok := ValidateWithFooter(rest[7], rest[8..], c.xorbHash(hashes, sizes), hashes); }
          done, failed := ok, !ok;
          return if ok then EndOfChunks else Failure;
        case Invalid =>
          failed := true;
          return Failure;
        case _ =>
          done, failed := !withFooter, withFooter;
          return if withFooter then Failure else EndOfChunks;
      }
    }
  }

  /** The decoder after k chunks of a stream of frames. */
  ghost predicate AtChunk(d: Decoder, chunks: seq<Data>, k: nat, tail: Data)
    reads d
    requires k <= |chunks|
  {
    && !d.failed && !d.done && d.rest == Frames(d.c, chunks[k..]) + tail
    && d.hashes == HashesOf(d.c, chunks[..k]) && d.sizes == Lengths(chunks[..k]) && d.rawSize == |Flatten(chunks[..k])|
  }

  lemma FramesNext(c: Codec, chunks: seq<Data>, k: nat, tail: Data, room: nat)
    requires Lawful(c) && Accepted(chunks) && k < |chunks| && MAX_CHUNK_SIZE <= room
    ensures var rest := Frames(c, chunks[k..]) + tail;
      && NextItem(c, rest, k, |Flatten(chunks[..k])|, room) == Chunk(chunks[k], |Frame(c, chunks[k])|)
      && |Frame(c, chunks[k])| <= |rest| && rest[|Frame(c, chunks[k])|..] == Frames(c, chunks[k + 1..]) + tail
  {
    var x := chunks[k];
    assert chunks[k..][1..] == chunks[k + 1..];
    assert chunks[..k + 1] == chunks[..k] + [x];
    FlattenSnoc(chunks[..k], x);
    PrefixShorter(chunks, k + 1);
    var more := Frames(c, chunks[k + 1..]) + tail;
    assert Frames(c, chunks[k..]) + tail == Frame(c, x) + more;
    FrameNext(c, x, more, k, |Flatten(chunks[..k])|, room);
  }

  /** What follows the frames: nothing, or the footer that goes with them. */
  ghost predicate IsTail(c: Codec, chunks: seq<Data>, tail: Data) {
    tail == [] || exists nonce: Data ::
      |nonce| == 4 && tail ==
      Footer(XorbHash(c, chunks), HashesOf(c, chunks), PackedEnds(c, chunks), Ends(chunks), nonce)
  }

  lemma TailItem(c: Codec, chunks: seq<Data>, tail: Data, count: nat, raw: nat, room: nat)
    requires IsTail(c, chunks, tail) && |chunks| <= MAX_CHUNKS
    ensures tail == [] ==> NextItem(c, tail, count, raw, room).End?
    ensures tail != [] ==>
      NextItem(c, tail, count, raw, room).FooterStart? && |tail| >= 8 &&
      FooterOk(tail[7], tail[8..], XorbHash(c, chunks), HashesOf(c, chunks))
  {
    if tail != [] {
      var nonce: Data :| |nonce| == 4 &&
        tail == Footer(XorbHash(c, chunks), HashesOf(c, chunks), PackedEnds(c, chunks), Ends(chunks), nonce);
      FooterAccepted(XorbHash(c, chunks), HashesOf(c, chunks), PackedEnds(c, chunks), Ends(chunks), nonce);
    }
  }

  lemma PrefixNext(c: Codec, chunks: seq<Data>, k: nat)
    requires k < |chunks|
    ensures HashesOf(c, chunks[..k + 1]) == HashesOf(c, chunks[..k]) + [c.chunkHash(chunks[k])]
    ensures Lengths(chunks[..k + 1]) == Lengths(chunks[..k]) + [|chunks[k]|] &&
      |Flatten(chunks[..k + 1])| == |Flatten(chunks[..k])| + |chunks[k]|
  {
    assert chunks[..k + 1] == chunks[..k] + [chunks[k]];
    Wrote(c, chunks[..k], chunks[k], Frame(c, chunks[k]));
  }

  /** Decoding an encoded xorb returns its chunks, for any buffer that holds a chunk. A footer is required when one is
      asked for. */
  method DecodeAll(c: Codec, data: Data, withFooter: bool, room: nat, ghost chunks: seq<Data>, ghost tail: Data)
    returns (out: seq<Data>, ok: bool)
    requires Lawful(c) && Accepted(chunks) && data == Frames(c, chunks) + tail && IsTail(c, chunks, tail) &&
      MAX_CHUNK_SIZE <= room
    ensures out == chunks && ok == (!withFooter || tail != [])
  {
    var d := new Decoder(c, data, withFooter);
    out := [];
    assert chunks[0..] == chunks && chunks[..0] == [];
    while true
      invariant d.c == c && d.withFooter == withFooter && fresh(d)
      invariant |out| <= |chunks| && out == chunks[..|out|] && AtChunk(d, chunks, |out|, tail)
      decreases |chunks| - |out|
    {
      var r := ReadNext(d, room, chunks, |out|, tail);
      match r {
        case Got(x) =>
          assert |out| < |chunks|;
          PrefixGrows(chunks, |out|);
          out := out + [x];
        case EndOfChunks => return out, true;
        case Failure => return out, false;
      }
    }
  }

  lemma PrefixGrows(chunks: seq<Data>, k: nat)
    requires k < |chunks|
    ensures chunks[..k + 1] == chunks[..k] + [chunks[k]]
  {
  }

  method ReadNext(d: Decoder, room: nat, ghost chunks: seq<Data>, ghost k: nat, ghost tail: Data)
    returns (r: ReadResult)
    requires Lawful(d.c) && Accepted(chunks) && k <= |chunks| && AtChunk(d, chunks, k, tail) &&
      IsTail(d.c, chunks, tail) && MAX_CHUNK_SIZE <= room
    modifies d
    ensures k < |chunks| ==> r == Got(chunks[k]) && AtChunk(d, chunks, k + 1, tail)
    ensures k == |chunks| ==> r == if !d.withFooter || tail != [] then EndOfChunks else Failure
  {
    if k < |chunks| {
      FramesNext(d.c, chunks, k, tail, room);
      PrefixNext(d.c, chunks, k);
    } else {
      PastFrames(d, chunks, tail);
      TailItem(d.c, chunks, tail, k, d.rawSize, room);
    }
    r := d.Read(room);
  }

  lemma PastFrames(d: Decoder, chunks: seq<Data>, tail: Data)
    requires AtChunk(d, chunks, |chunks|, tail)
    ensures d.rest == tail && d.hashes == HashesOf(d.c, chunks) && d.sizes == Lengths(chunks)
  {
    assert chunks[|chunks|..] == [] && chunks[..|chunks|] == chunks;
  }

  // ---------------------------------------------------------------- validation

  /** What is left of a stream after reading exactly these chunks from it; None if they are not what it starts with. */
  ghost function RestAfter(c: Codec, data: Data, chunks: seq<Data>, room: nat): Option<Data> {
    if chunks == [] then Some(data) else
    var k := |chunks| - 1;
    match RestAfter(c, data, chunks[..k], room)
    case None => None
    case Some(mid) =>
      match NextItem(c, mid, k, |Flatten(chunks[..k])|, room)
      case Chunk(x, n) => if x == chunks[k] then Some(mid[n..]) else None
      case _ => None
  }

  lemma RestNext(c: Codec, data: Data, chunks: seq<Data>, room: nat, x: Data, n: nat)
    requires RestAfter(c, data, chunks, room).Some?
    requires NextItem(c, RestAfter(c, data, chunks, room).value, |chunks|, |Flatten(chunks)|, room) == Chunk(x, n)
    ensures RestAfter(c, data, chunks + [x], room) == Some(RestAfter(c, data, chunks, room).value[n..])
  {
    assert (chunks + [x])[..|chunks|] == chunks;
  }

  /** The stream starts with these chunks and nothing that reads as a chunk follows. */
  ghost predicate AllChunks(c: Codec, data: Data, chunks: seq<Data>, room: nat) {
    var rest := RestAfter(c, data, chunks, room);
    rest.Some? && !NextItem(c, rest.value, |chunks|, |Flatten(chunks)|, room).Chunk?
  }

  lemma {:induction false} Prefixes(c: Codec, data: Data, chunks: seq<Data>, room: nat, k: nat)
    requires RestAfter(c, data, chunks, room).Some? && k <= |chunks|
    ensures RestAfter(c, data, chunks[..k], room).Some?
    ensures k < |chunks| ==>
      var i := NextItem(c, RestAfter(c, data, chunks[..k], room).value, k, |Flatten(chunks[..k])|, room);
        i.Chunk? && i.data == chunks[k]
    decreases |chunks|
  {
    if k == |chunks| {
      assert chunks[..k] == chunks;
    } else if k < |chunks| - 1 {
      var init := chunks[..|chunks| - 1];
      Prefixes(c, data, init, room, k);
      assert init[..k] == chunks[..k];
    }
  }

  /** A stream holds one list of chunks. */
  lemma {:induction false} SamePrefix(c: Codec, data: Data, a: seq<Data>, b: seq<Data>, room: nat, k: nat)
    requires RestAfter(c, data, a, room).Some? && RestAfter(c, data, b, room).Some? && k <= |a| && k <= |b|
    ensures a[..k] == b[..k]
  {
    if k > 0 {
      SamePrefix(c, data, a, b, room, k - 1);
      SameNext(c, data, a, b, room, k - 1);
      Extend(a, b, k);
    }
  }

  lemma Extend(a: seq<Data>, b: seq<Data>, k: nat)
    requires 0 < k <= |a| && k <= |b| && a[..k - 1] == b[..k - 1] && a[k - 1] == b[k - 1]
    ensures a[..k] == b[..k]
  {
    assert a[..k] == a[..k - 1] + [a[k - 1]] && b[..k] == b[..k - 1] + [b[k - 1]];
  }

  lemma SameNext(c: Codec, data: Data, a: seq<Data>, b: seq<Data>, room: nat, k: nat)
    requires RestAfter(c, data, a, room).Some? && RestAfter(c, data, b, room).Some? && k < |a| && k < |b| &&
      a[..k] == b[..k]
    ensures a[k] == b[k]
  {
    Prefixes(c, data, a, room, k);
    Prefixes(c, data, b, room, k);
  }

  lemma ChunksUnique(c: Codec, data: Data, a: seq<Data>, b: seq<Data>, room: nat)
    requires AllChunks(c, data, a, room) && AllChunks(c, data, b, room)
    ensures a == b
  {
    var k := Min(|a|, |b|);
    SamePrefix(c, data, a, b, room, k);
    Prefixes(c, data, a, room, k);
    Prefixes(c, data, b, room, k);
    assert a[..|a|] == a && b[..|b|] == b;
  }

  /** The stream ends there, or a footer agreeing with the chunks does. */
  ghost predicate ProperEnd(c: Codec, rest: Data, hash: Digest, chunks: seq<Data>) {
    rest == [] || (|rest| >= 8 && rest[..7] == IDENT && FooterOk(rest[7], rest[8..], hash, HashesOf(c, chunks)))
  }

  /** These are the stream's chunks, they hash to the claimed hash, and the stream ends properly after them. */
  ghost predicate HoldsXorb(c: Codec, data: Data, hash: Digest, chunks: seq<Data>) {
    && AllChunks(c, data, chunks, BUFFER_SIZE) && XorbHash(c, chunks) == hash
    && ProperEnd(c, RestAfter(c, data, chunks, BUFFER_SIZE).value, hash, chunks)
  }

  /** Accepts a stream exactly when it holds a xorb of the claimed hash. */
  method Validate(c: Codec, data: Data, hash: Digest) returns (ok: bool)
    ensures ok <==> exists chunks :: HoldsXorb(c, data, hash, chunks)
  {
    ghost var chunks;
    ok, chunks := CheckChunks(c, data, hash);
    forall other | HoldsXorb(c, data, hash, other) ensures other ==
      chunks { ChunksUnique(c, data, other, chunks, BUFFER_SIZE); }
  }

  /** Reads the stream chunk by chunk to its end. */
  method CheckChunks(c: Codec, data: Data, hash: Digest) returns (ok: bool, ghost chunks: seq<Data>)
    ensures AllChunks(c, data, chunks, BUFFER_SIZE)
    ensures ok <==> HoldsXorb(c, data, hash, chunks)
  {
    var rest := data;
    var hashes: seq<Digest>, sizes: seq<nat>, raw := [], [], 0;
    chunks := [];
    while true
      invariant RestAfter(c, data, chunks, BUFFER_SIZE) == Some(rest)
      invariant hashes == HashesOf(c, chunks) && sizes == Lengths(chunks) && raw == |Flatten(chunks)|
      decreases |rest|
    {
      match NextItem(c, rest, |hashes|, raw, BUFFER_SIZE) {
        case End => return c.xorbHash(hashes, sizes) == hash, chunks;
        case FooterStart =>
          if c.xorbHash(hashes, sizes) != hash { return false, chunks; }
          ok := ValidateWithFooter(rest[7], rest[8..], hash, hashes);
          return;
        case Chunk(x, n) =>
          RestNext(c, data, chunks, BUFFER_SIZE, x, n);
          Wrote(c, chunks, x, Frame(c, x));
          rest, hashes, sizes, raw, chunks := rest[n..], hashes + [c.chunkHash(x)], sizes + [|x|], raw + |x|,
            chunks + [x];
        case _ => return false, chunks;
      }
    }
  }

  lemma {:induction false} FramesRest(c: Codec, chunks: seq<Data>, tail: Data, room: nat, k: nat)
    requires Lawful(c) && Accepted(chunks) && k <= |chunks| && MAX_CHUNK_SIZE <= room
    ensures RestAfter(c, Frames(c, chunks) + tail, chunks[..k], room) == Some(Frames(c, chunks[k..]) + tail)
  {
    if k == 0 {
      assert chunks[0..] == chunks;
    } else {
      FramesRest(c, chunks, tail, room, k - 1);
      FramesNext(c, chunks, k - 1, tail, room);
      RestGrows(c, Frames(c, chunks) + tail, chunks, room, k - 1, Frames(c, chunks[k - 1..]) + tail,
        |Frame(c, chunks[k - 1])|);
    }
  }

  lemma RestGrows(c: Codec, data: Data, cs: seq<Data>, room: nat, k: nat, rest: Data, n: nat)
    requires k < |cs| && RestAfter(c, data, cs[..k], room) == Some(rest)
    requires NextItem(c, rest, k, |Flatten(cs[..k])|, room) == Chunk(cs[k], n)
    ensures RestAfter(c, data, cs[..k + 1], room) == Some(rest[n..])
  {
    RestNext(c, data, cs[..k], room, cs[k], n);
    assert cs[..k + 1] == cs[..k] + [cs[k]];
  }

  /** An encoded xorb holds the chunks it was made of. */
  lemma EncodedChunks(c: Codec, chunks: seq<Data>, tail: Data)
    requires Lawful(c) && Accepted(chunks) && IsTail(c, chunks, tail)
    ensures AllChunks(c, Frames(c, chunks) + tail, chunks, BUFFER_SIZE)
    ensures RestAfter(c, Frames(c, chunks) + tail, chunks, BUFFER_SIZE) == Some(tail)
    ensures ProperEnd(c, tail, XorbHash(c, chunks), chunks)
  {
    FramesRest(c, chunks, tail, BUFFER_SIZE, |chunks|);
    assert chunks[..|chunks|] == chunks && chunks[|chunks|..] == [] && [] + tail == tail;
    TailItem(c, chunks, tail, |chunks|, |Flatten(chunks)|, BUFFER_SIZE);
  }

  /** An encoded xorb is valid under its hash and no other. */
  method ValidateEncoded(c: Codec, data: Data, hash: Digest, ghost chunks: seq<Data>, ghost tail: Data)
    returns (ok: bool)
    requires Lawful(c) && Accepted(chunks) && data == Frames(c, chunks) + tail && IsTail(c, chunks, tail)
    ensures ok <==> hash == XorbHash(c, chunks)
  {
    ok := Validate(c, data, hash);
    EncodedChunks(c, chunks, tail);
    forall other | HoldsXorb(c, data, hash, other) ensures other ==
      chunks { ChunksUnique(c, data, other, chunks, BUFFER_SIZE); }
    assert hash == XorbHash(c, chunks) ==> HoldsXorb(c, data, hash, chunks);
  }

  // ---------------------------------------------------------------- scanning and chunk ranges

  /** The packed ends found by hopping from header to header, without looking at bodies. */
  function ScanFrom(data: Data, pos: nat, count: nat): Option<seq<nat>>
    decreases |data| - pos
  {
    if pos >= |data| then Some([])
    else if |data| - pos < 8 then None
    else if data[pos..pos + 7] == IDENT then Some([])
    else if count >= MAX_CHUNKS then None
    else
      var end := pos + 8 + GetU24(data[pos + 1..pos + 4]);
      match ScanFrom(data, end, count + 1) case None => None case Some(r) => Some([end] + r)
  }

  function ScanAfter(offs: seq<nat>, more: Option<seq<nat>>): Option<seq<nat>> {
    if more.None? then None else Some(offs + more.value)
  }

  lemma ScanAfterLaws(offs: seq<nat>, end: nat, more: Option<seq<nat>>)
    ensures ScanAfter([], more) == more && ScanAfter(offs, Some([])) == Some(offs) &&
      ScanAfter(offs + [end], more) == ScanAfter(offs, ScanAfter([end], more))
  {
    if more.Some? {
      assert [] + more.value == more.value && offs + ([end] + more.value) == (offs + [end]) + more.value;
    }
    assert offs + [] == offs;
  }

  method ScanChunkOffsets(data: Data) returns (r: Option<seq<nat>>)
    ensures r == ScanFrom(data, 0, 0)
  {
    var offsets: seq<nat>, offset := [], 0;
    ScanAfterLaws([], 0, ScanFrom(data, 0, 0));
    while true
      invariant ScanFrom(data, 0, 0) == ScanAfter(offsets, ScanFrom(data, offset, |offsets|))
      decreases |data| - offset
    {
      ScanAfterLaws(offsets, 0, None);
      if offset >= |data| { return Some(offsets); }
      if |data| - offset < 8 { return None; }
      if data[offset..offset + 7] == IDENT { return Some(offsets); }
      if |offsets| >= MAX_CHUNKS { return None; }
      offset := offset + 8 + GetU24(data[offset + 1..offset + 4]);
      ScanAfterLaws(offsets, offset, ScanFrom(data, offset, |offsets| + 1));
      offsets := offsets + [offset];
    }
  }

  /** A frame a scan hops over. */
  predicate Hoppable(f: Data) { |f| >= 8 && f[..7] != IDENT && |f| == 8 + GetU24(f[1..4]) }

  lemma FrameHoppable(c: Codec, chunk: Data)
    requires |chunk| <= MAX_CHUNK_SIZE
    ensures Hoppable(Frame(c, chunk))
  {
    var f, h := Frame(c, chunk), HeaderOf(c, chunk);
    assert f[1..4] == U24(h.compressed);
    U24RoundTrip(h.compressed);
    assert f[..7][0] == 0 && IDENT[0] == 0x58;
  }

  lemma FrameHop(f: Data, s: Data, pos: nat)
    requires Hoppable(f) && pos + |f| <= |s| && s[pos..pos + |f|] == f
    ensures |s| - pos >= 8 && s[pos..pos + 7] != IDENT && 8 + GetU24(s[pos + 1..pos + 4]) == |f|
  {
    Sub(s, pos, |f|, 1, 3);
    Sub(s, pos, |f|, 0, 7);
    assert f[0..7] == f[..7];
  }

  /** The bytes up to frame k, the frame itself and what follows. */
  lemma FrameCut(fs: seq<Data>, k: nat, tail: Data)
    requires k < |fs|
    ensures var a := |Flatten(fs[..k])|;
      && |Flatten(fs[..k + 1])| == a + |fs[k]| <= |Flatten(fs)| && (Flatten(fs) + tail)[a..a + |fs[k]|] == fs[k]
  {
    assert fs == (fs[..k] + [fs[k]]) + fs[k + 1..] && fs[..k + 1] == fs[..k] + [fs[k]];
    FlattenAppend(fs[..k] + [fs[k]], fs[k + 1..]);
    FlattenSnoc(fs[..k], fs[k]);
    Middle(Flatten(fs[..k]), fs[k], Flatten(fs[k + 1..]), tail);
  }

  lemma Middle(a: Data, b: Data, d: Data, e: Data)
    ensures (a + b + d + e)[|a|..|a| + |b|] == b
  {}

  lemma ScanEnds(frames: Data, tail: Data, count: nat)
    requires tail == [] || (|tail| >= 8 && tail[..7] == IDENT)
    ensures ScanFrom(frames + tail, |frames|, count) == Some([])
  {
    if tail != [] { assert (frames + tail)[|frames|..|frames| + 7] == tail[..7]; }
  }

  lemma ScanHops(s: Data, pos: nat, count: nat, end: nat)
    requires |s| - pos >= 8 && s[pos..pos + 7] != IDENT && count < MAX_CHUNKS &&
      end == pos + 8 + GetU24(s[pos + 1..pos + 4])
    ensures ScanFrom(s, end, count + 1).Some? ==>
      ScanFrom(s, pos, count) == Some([end] + ScanFrom(s, end, count + 1).value)
  {}

  lemma ScanStep(s: Data, pos: nat, k: nat, ends: seq<nat>)
    requires k < |ends| && k < MAX_CHUNKS && |s| - pos >= 8 && s[pos..pos + 7] != IDENT &&
      ends[k] == pos + 8 + GetU24(s[pos + 1..pos + 4])
    requires ScanFrom(s, ends[k], k + 1) == Some(ends[k + 1..])
    ensures ScanFrom(s, pos, k) == Some(ends[k..])
  {
    ScanHops(s, pos, k, ends[k]);
    assert ends[k..] == [ends[k]] + ends[k + 1..];
  }

  ghost predicate AllHoppable(fs: seq<Data>) { forall i {:trigger fs[i]} :: 0 <= i < |fs| ==> Hoppable(fs[i]) }

  /** Scanning frames, whoever made them, finds where they end. */
  lemma {:induction false} ScanFrames(fs: seq<Data>, tail: Data, k: nat)
    requires AllHoppable(fs) && |fs| <= MAX_CHUNKS && k <= |fs| && (tail == [] || (|tail| >= 8 && tail[..7] == IDENT))
    ensures ScanFrom(Flatten(fs) + tail, |Flatten(fs[..k])|, k) == Some(Ends(fs)[k..])
    decreases |fs| - k
  {
    if k == |fs| {
      assert fs[..k] == fs && Ends(fs)[k..] == [];
      ScanEnds(Flatten(fs), tail, k);
    } else {
      ScanFrames(fs, tail, k + 1);
      FrameCut(fs, k, tail);
      FrameHop(fs[k], Flatten(fs) + tail, |Flatten(fs[..k])|);
      ScanStep(Flatten(fs) + tail, |Flatten(fs[..k])|, k, Ends(fs));
    }
  }

  lemma ScanEncoded(c: Codec, chunks: seq<Data>, tail: Data)
    requires Accepted(chunks) && IsTail(c, chunks, tail)
    ensures ScanFrom(Frames(c, chunks) + tail, 0, 0) == Some(PackedEnds(c, chunks))
  {
    var fs := FrameList(c, chunks);
    forall i | 0 <= i < |fs| ensures Hoppable(fs[i]) { FrameHoppable(c, chunks[i]); }
    TailItem(c, chunks, tail, 0, 0, 0);
    ScanFrames(fs, tail, 0);
    FramesFlatten(c, chunks);
    PackedAreEnds(c, chunks);
    assert fs[..0] == [] && Ends(fs)[0..] == Ends(fs);
  }

  /** Footer offsets, scanned offsets and prefix sums of frame sizes are the same. */
  lemma OffsetsAgree(c: Codec, chunks: seq<Data>, nonce: Data)
    requires Accepted(chunks) && |nonce| == 4
    ensures Offsets(Encoded(c, chunks, true, nonce)) == ScanFrom(Encoded(c, chunks, true, nonce), 0, 0)
         == ScanFrom(Encoded(c, chunks, false, nonce), 0, 0) == Some(PackedEnds(c, chunks))
  {
    FooterOffsets(c, chunks, nonce);
    ScanEncoded(c, chunks, []);
    ScanEncoded(c, chunks,
      Footer(XorbHash(c, chunks), HashesOf(c, chunks), PackedEnds(c, chunks), Ends(chunks), nonce));
  }

  /** The next frame of a scan that succeeds. */
  lemma ScanOne(data: Data, pos: nat, k: nat, ends: seq<nat>)
    requires k <= |ends| && ScanFrom(data, pos, k) == Some(ends[k..]) && |data| - pos >= 8 &&
      data[pos..pos + 7] != IDENT
    ensures k < |ends| && ends[k] == pos + 8 + GetU24(data[pos + 1..pos + 4]) &&
      ScanFrom(data, ends[k], k + 1) == Some(ends[k + 1..])
  {
    var end := pos + 8 + GetU24(data[pos + 1..pos + 4]);
    var rest := ScanFrom(data, end, k + 1);
    assert rest.Some? && ends[k..] == [end] + rest.value;
    assert |ends[k..]| == 1 + |rest.value|;
    assert ends[k..][0] == ends[k] && ends[k..][1..] == ends[k + 1..];
  }

  /** After idx frames a scan that succeeds is at this offset. */
  ghost predicate Hopped(data: Data, scan: seq<nat>, idx: nat, offset: nat) {
    idx <= |scan| && offset == P.StartByte(scan, idx) && ScanFrom(data, offset, idx) == Some(scan[idx..])
  }

  lemma HopsOn(data: Data, scan: seq<nat>, idx: nat, offset: nat)
    requires Hopped(data, scan, idx, offset) && |data| - offset >= 8 && data[offset..offset + 7] != IDENT
    ensures idx < |scan| && scan[idx] == offset + 8 + GetU24(data[offset + 1..offset + 4])
    ensures Hopped(data, scan, idx + 1, scan[idx])
  {
    ScanOne(data, offset, idx, scan);
  }

  /** The byte range of chunks [from, to), by hopping only as far as needed: the one the offsets give. */
  method ChunkDataRange(data: Data, from: nat, to: nat) returns (r: Option<(int, int)>)
    ensures ScanFrom(data, 0, 0).Some? ==> r == P.DataRange(ScanFrom(data, 0, 0).value, from, to)
  {
    if from >= to { return None; }
    var offset, start, idx := 0, 0, 0;
    ghost var scan := ScanFrom(data, 0, 0);
    while true
      invariant scan.Some? ==> Hopped(data, scan.value, idx, offset)
      invariant scan.Some? && from < idx ==> start == P.StartByte(scan.value, from)
      invariant idx < to
      decreases |data| - offset
    {
      if |data| < offset + 8 { return None; }
      if data[offset..offset + 7] == IDENT { return None; }
      var headerStart := offset;
      offset := offset + 8 + GetU24(data[offset + 1..offset + 4]);
      if scan.Some? { HopsOn(data, scan.value, idx, headerStart); }
      if idx == from { start := headerStart; }
      if idx == to - 1 { return Some((start, offset - 1)); }
      idx := idx + 1;
    }
  }

  /** The offsets at both ends of a range. */
  lemma RangeEnds(c: Codec, chunks: seq<Data>, from: nat, to: nat)
    requires from < to <= |chunks|
    ensures P.DataRange(PackedEnds(c, chunks), from, to) ==
      Some((|Frames(c, chunks[..from])|, |Frames(c, chunks[..to])| - 1))
  {
    if from > 0 { assert PackedEnds(c, chunks)[from - 1] == |Frames(c, chunks[..from - 1 + 1])|; }
      else { assert chunks[..from] == []; }
    assert PackedEnds(c, chunks)[to - 1] == |Frames(c, chunks[..to - 1 + 1])|;
  }

  lemma AcceptedPart(x: seq<Data>, y: seq<Data>, z: seq<Data>)
    requires Accepted((x + y) + z) && y != []
    ensures Accepted(y)
  {
    FlattenAppend(x + y, z);
    FlattenAppend(x, y);
    assert forall i :: 0 <= i < |y| ==> y[i] == ((x + y) + z)[|x| + i];
  }

  /** The bytes of a chunk range are the frames of those chunks, so they decode to exactly those chunks. */
  lemma RangeSlice(c: Codec, chunks: seq<Data>, tail: Data, from: nat, to: nat)
    requires Accepted(chunks) && from < to <= |chunks|
    ensures var (a, b) := P.DataRange(PackedEnds(c, chunks), from, to).value;
      0 <= a <= b + 1 <= |Frames(c, chunks) + tail| && (Frames(c, chunks) + tail)[a..b + 1] ==
        Frames(c, chunks[from..to]) && Accepted(chunks[from..to])
  {
    var x, y, z := chunks[..from], chunks[from..to], chunks[to..];
    assert chunks == (x + y) + z && chunks[..to] == x + y;
    FramesAppend(c, x + y, z);
    FramesAppend(c, x, y);
    Middle(Frames(c, x), Frames(c, y), Frames(c, z), tail);
    AcceptedPart(x, y, z);
    RangeEnds(c, chunks, from, to);
  }
}
