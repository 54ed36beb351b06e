/** Xorb streams as stores hold them, from any encoder: the frames in them, the offset table their readers go by, and
    when that table leads readers right. */
module XorbStream {
  import opened Common
  import opened HashText
  import opened Wire
  import opened XorbFooter
  import opened XorbFormat
  import P = Planning

  // ---------------------------------------------------------------- reading a stream from its start

  /** What comes next in a stream, by the chunks and bytes read so far. */
  type Next = (Data, nat, nat) -> Item

  /** The chunks a stream starts with, and what is left after them. */
  function ReadAll(next: Next, rest: Data, count: nat, raw: nat): (r: (seq<Data>, Data))
    ensures |r.1| <= |rest|
    decreases |rest|
  {
    match next(rest, count, raw)
    case Chunk(x, n) =>
      if 0 < n <= |rest| then var more := ReadAll(next, rest[n..], count + 1, raw + |x|);
        ([x] + more.0, more.1) else ([], rest)
    case _ => ([], rest)
  }

  predicate Fits(count: nat, raw: nat, x: Data) { count < MAX_CHUNKS && raw + |x| <= MAX_XORB_SIZE }

  /** f is read as x, whatever follows it, as long as the limits allow. */
  ghost predicate Reads(next: Next, f: Data, x: Data) {
    && f != []
    && forall rest, count, raw {:trigger next(f + rest, count, raw)} ::
         Fits(count, raw, x) ==> next(f + rest, count, raw) == Chunk(x, |f|)
  }

  ghost predicate AllRead(next: Next, fs: seq<Data>, cs: seq<Data>) {
    |fs| == |cs| && forall i {:trigger fs[i]} :: 0 <= i < |fs| ==> Reads(next, fs[i], cs[i])
  }

  lemma SplitFirst(f: Data, fs: seq<Data>, tail: Data)
    ensures Flatten([f] + fs) + tail == f + (Flatten(fs) + tail) &&
      (f + (Flatten(fs) + tail))[|f|..] == Flatten(fs) + tail
  {
    assert ([f] + fs)[1..] == fs;
  }

  lemma FirstAndRest(fs: seq<Data>)
    requires fs != []
    ensures fs == [fs[0]] + fs[1..] && |Flatten(fs)| == |fs[0]| + |Flatten(fs[1..])|
  {}

  /** Frames are read back as their chunks up to what follows them. */
  lemma {:induction false} ReadFrames(next: Next, fs: seq<Data>, cs: seq<Data>, tail: Data, count: nat, raw: nat)
    requires AllRead(next, fs, cs) && count + |cs| <= MAX_CHUNKS && raw + |Flatten(cs)| <= MAX_XORB_SIZE
    requires !next(tail, count + |cs|, raw + |Flatten(cs)|).Chunk?
    ensures ReadAll(next, Flatten(fs) + tail, count, raw) == (cs, tail)
    decreases |fs|
  {
    if fs == [] {
      assert Flatten(fs) + tail == tail;
    } else {
      FirstAndRest(fs);
      FirstAndRest(cs);
      SplitFirst(fs[0], fs[1..], tail);
      assert Fits(count, raw, cs[0]) && Reads(next, fs[0], cs[0]);
      assert AllRead(next, fs[1..], cs[1..]) by { LaterRead(next, fs, cs); }
      ReadFrames(next, fs[1..], cs[1..], tail, count + 1, raw + |cs[0]|);
    }
  }

  lemma LaterRead(next: Next, fs: seq<Data>, cs: seq<Data>)
    requires fs != [] && AllRead(next, fs, cs)
    ensures AllRead(next, fs[1..], cs[1..])
  {
    forall i | 0 <= i < |fs[1..]| ensures Reads(next, fs[1..][i], cs[1..][i]) { assert fs[1..][i] == fs[i + 1]; }
  }

  /** What is read is a frame, of whichever kind. */
  ghost predicate Yields(next: Next, kind: (Data, Data) -> bool) {
    forall rest, count, raw {:trigger next(rest, count, raw)} :: next(rest, count, raw).Chunk? ==>
      var i := next(rest, count, raw);
        0 < i.packed <= |rest| && Fits(count, raw, i.data) && kind(rest[..i.packed], i.data)
  }

  ghost predicate AllOf(kind: (Data, Data) -> bool, fs: seq<Data>, cs: seq<Data>) {
    |fs| == |cs| && forall i {:trigger fs[i]} :: 0 <= i < |fs| ==> kind(fs[i], cs[i])
  }

  /** A stream is the frames of these chunks, within the limits, and a rest that does not start with a chunk. */
  ghost predicate Unframed(next: Next, kind: (Data, Data) -> bool, data: Data, count: nat, raw: nat,
                           fs: seq<Data>, cs: seq<Data>, tail: Data)
  {
    && AllOf(kind, fs, cs) && data == Flatten(fs) + tail
    && (cs != [] ==> count + |cs| <= MAX_CHUNKS && raw + |Flatten(cs)| <= MAX_XORB_SIZE)
    && !next(tail, count + |cs|, raw + |Flatten(cs)|).Chunk?
  }

  lemma UnframedMore(next: Next, kind: (Data, Data) -> bool, f: Data, x: Data, data: Data, whole: Data, count: nat,
                     raw: nat,
                     fs: seq<Data>, cs: seq<Data>, tail: Data)
    requires kind(f, x) && Fits(count, raw, x) && Unframed(next, kind, data, count + 1, raw + |x|, fs, cs, tail)
    requires whole == f + data
    ensures Unframed(next, kind, whole, count, raw, [f] + fs, [x] + cs, tail)
  {
    SplitFirst(f, fs, tail);
    OneMoreFrame(kind, f, x, fs, cs);
  }

  lemma UnframeStep(next: Next, kind: (Data, Data) -> bool, rest: Data, count: nat, raw: nat, x: Data, n: nat,
                    fs: seq<Data>)
    requires next(rest, count, raw) == Chunk(x, n) && 0 < n <= |rest| && Fits(count, raw, x) && kind(rest[..n], x)
    requires var r := ReadAll(next, rest[n..], count + 1, raw + |x|);
      Unframed(next, kind, rest[n..], count + 1, raw + |x|, fs, r.0, r.1)
    ensures var r := ReadAll(next, rest, count, raw); Unframed(next, kind, rest, count, raw, [rest[..n]] + fs, r.0, r.1)
  {
    var r := ReadAll(next, rest[n..], count + 1, raw + |x|);
    assert rest == rest[..n] + rest[n..];
    UnframedMore(next, kind, rest[..n], x, rest[n..], rest, count, raw, fs, r.0, r.1);
    ReadStep(next, rest, count, raw, x, n);
  }

  lemma ReadStep(next: Next, rest: Data, count: nat, raw: nat, x: Data, n: nat)
    requires next(rest, count, raw) == Chunk(x, n) && 0 < n <= |rest|
    ensures var r := ReadAll(next, rest[n..], count + 1, raw + |x|); ReadAll(next, rest, count, raw) == ([x] + r.0, r.1)
  {
  }

  /** Whatever is read of a stream, it consists of the frames of the chunks read and what is left. */
  lemma {:induction false} Unframe(next: Next, kind: (Data, Data) -> bool, rest: Data, count: nat, raw: nat)
    returns (fs: seq<Data>)
    requires Yields(next, kind)
    ensures var r := ReadAll(next, rest, count, raw); Unframed(next, kind, rest, count, raw, fs, r.0, r.1)
    decreases |rest|
  {
    var i := next(rest, count, raw);
    if i.Chunk? {
      var more := Unframe(next, kind, rest[i.packed..], count + 1, raw + |i.data|);
      fs := [rest[..i.packed]] + more;
      UnframeStep(next, kind, rest, count, raw, i.data, i.packed, more);
    } else {
      fs := [];
      assert Flatten(fs) + rest == rest;
    }
  }

  lemma OneMoreFrame(kind: (Data, Data) -> bool, f: Data, x: Data, fs: seq<Data>, cs: seq<Data>)
    requires kind(f, x) && AllOf(kind, fs, cs)
    ensures AllOf(kind, [f] + fs, [x] + cs) && |Flatten([x] + cs)| == |x| + |Flatten(cs)|
  {
    assert ([x] + cs)[1..] == cs;
    forall i | 0 <= i < |[f] + fs| ensures kind(([f] + fs)[i], ([x] + cs)[i]) {
      if i > 0 { assert ([f] + fs)[i] == fs[i - 1] && ([x] + cs)[i] == cs[i - 1]; }
    }
  }

  // ---------------------------------------------------------------- frames

  /** f is one whole frame, with a body of at most room bytes that unpacks to x. */
  predicate FrameOf(c: Codec, f: Data, x: Data, room: nat) {
    && |f| >= 8 && f[..7] != IDENT
    && var h := ParseChunkHeader(f[..8]);
       h.Some? && |f| == 8 + h.value.compressed && h.value.compressed <= room &&
         DecodeChunk(c, h.value, f[8..]) == Some(x)
  }

  function Reader(c: Codec, room: nat): Next {
    (rest: Data, count: nat, raw: nat) => NextItem(c, rest, count, raw, room)
  }

  function FrameKind(c: Codec, room: nat): (Data, Data) -> bool { (f: Data, x: Data) => FrameOf(c, f, x, room) }

  ghost predicate Framed(c: Codec, fs: seq<Data>, cs: seq<Data>, room: nat) { AllOf(FrameKind(c, room), fs, cs) }

  lemma FrameThen(f: Data, rest: Data, s: Data)
    requires s == f + rest && |f| >= 8
    ensures |s| >= 8 && s[..7] == f[..7] && s[..8] == f[..8] && s[8..|f|] == f[8..] && s[|f|..] == rest
  {}

  /** A whole frame is read, whatever follows it, if the limits and the buffer allow, and is an error otherwise. */
  lemma FrameIsNext(c: Codec, f: Data, x: Data, rest: Data, count: nat, raw: nat, room: nat, small: nat)
    requires FrameOf(c, f, x, room)
    ensures var i := NextItem(c, f + rest, count, raw, small);
      if Fits(count, raw, x) && |f| <= 8 + small then i == Chunk(x, |f|) else i.Invalid?
  {
    FrameThen(f, rest, f + rest);
  }

  lemma FrameReads(c: Codec, f: Data, x: Data, room: nat)
    requires FrameOf(c, f, x, room)
    ensures Reads(Reader(c, room), f, x)
  {
    forall rest, count, raw | Fits(count, raw, x) ensures Reader(c, room)(f + rest, count, raw) == Chunk(x, |f|) {
      FrameIsNext(c, f, x, rest, count, raw, room, room);
    }
  }

  lemma FramedReads(c: Codec, fs: seq<Data>, cs: seq<Data>, room: nat)
    requires Framed(c, fs, cs, room)
    ensures AllRead(Reader(c, room), fs, cs)
  {
    forall i | 0 <= i < |fs| ensures Reads(Reader(c, room), fs[i], cs[i]) {
      assert FrameKind(c, room)(fs[i], cs[i]);
      FrameReads(c, fs[i], cs[i], room);
    }
  }

  /** What is read as a chunk is a whole frame. */
  lemma NextIsFrame(c: Codec, rest: Data, count: nat, raw: nat, room: nat)
    requires NextItem(c, rest, count, raw, room).Chunk?
    ensures var i := NextItem(c, rest, count, raw, room);
      Fits(count, raw, i.data) && FrameOf(c, rest[..i.packed], i.data, room)
  {
    var n := NextItem(c, rest, count, raw, room).packed;
    var f := rest[..n];
    assert f[..7] == rest[..7] && f[..8] == rest[..8] && f[8..] == rest[8..n];
  }

  lemma ReaderYields(c: Codec, room: nat)
    ensures Yields(Reader(c, room), FrameKind(c, room))
  {
    forall rest, count, raw | Reader(c, room)(rest, count, raw).Chunk?
      ensures var i := Reader(c, room)(rest, count, raw);
        0 < i.packed <= |rest| && Fits(count, raw, i.data) && FrameKind(c, room)(rest[..i.packed], i.data)
    {
      NextIsFrame(c, rest, count, raw, room);
    }
  }

  // ---------------------------------------------------------------- what validation finds

  function Read(c: Codec, data: Data, room: nat): (seq<Data>, Data) { ReadAll(Reader(c, room), data, 0, 0) }

  predicate EndsWell(c: Codec, tail: Data, cs: seq<Data>) {
    tail == [] || (|tail| >= 8 && tail[..7] == IDENT && FooterOk(tail[7], tail[8..], XorbHash(c, cs), HashesOf(c, cs)))
  }

  /** The chunks of a stream that is valid under their hash. */
  function Decoded(c: Codec, data: Data): Option<seq<Data>> {
    var r := Read(c, data, BUFFER_SIZE);
    if EndsWell(c, r.1, r.0) then Some(r.0) else None
  }

  /** What validation reads of a stream: all of it, or up to the end of the footer. */
  function Kept(c: Codec, data: Data): Data {
    var r := Read(c, data, BUFFER_SIZE);
    if r.1 == [] || !EndsWell(c, r.1, r.0) then data else data[..|data| - |r.1| + Min(96 + 40 * |r.0|, |r.1|)]
  }

  /** A valid stream: the frames of its chunks, and either nothing or a footer that agrees with them. */
  ghost predicate Stream(c: Codec, data: Data, fs: seq<Data>, cs: seq<Data>, tail: Data) {
    Framed(c, fs, cs, BUFFER_SIZE) && Accepted(cs) && data == Flatten(fs) + tail && EndsWell(c, tail, cs)
  }

  lemma FramesSmall(c: Codec, fs: seq<Data>, cs: seq<Data>, room: nat)
    requires Framed(c, fs, cs, room)
    ensures forall i :: 0 <= i < |cs| ==> |cs[i]| <= MAX_CHUNK_SIZE
  {
    forall i | 0 <= i < |cs| ensures |cs[i]| <= MAX_CHUNK_SIZE { assert FrameKind(c, room)(fs[i], cs[i]); }
  }

  lemma EndIsNoChunk(c: Codec, tail: Data, cs: seq<Data>, count: nat, raw: nat, room: nat)
    requires EndsWell(c, tail, cs)
    ensures !NextItem(c, tail, count, raw, room).Chunk? && !NextItem(c, tail, count, raw, room).Invalid?
  {}

  /** Reading frames, with a buffer that holds them, gives their chunks back. */
  lemma ReadStream(c: Codec, fs: seq<Data>, cs: seq<Data>, tail: Data, room: nat)
    requires Framed(c, fs, cs, room) && Accepted(cs) && !NextItem(c, tail, |cs|, |Flatten(cs)|, room).Chunk?
    ensures Read(c, Flatten(fs) + tail, room) == (cs, tail)
  {
    FramedReads(c, fs, cs, room);
    ReadFrames(Reader(c, room), fs, cs, tail, 0, 0);
  }

  lemma StreamDecodes(c: Codec, data: Data, fs: seq<Data>, cs: seq<Data>, tail: Data)
    requires Stream(c, data, fs, cs, tail)
    ensures Decoded(c, data) == Some(cs) && Read(c, data, BUFFER_SIZE) == (cs, tail)
  {
    EndIsNoChunk(c, tail, cs, |cs|, |Flatten(cs)|, BUFFER_SIZE);
    ReadStream(c, fs, cs, tail, BUFFER_SIZE);
  }

  lemma DecodedStream(c: Codec, data: Data) returns (fs: seq<Data>, tail: Data)
    requires Decoded(c, data).Some?
    ensures Stream(c, data, fs, Decoded(c, data).value, tail)
  {
    ReaderYields(c, BUFFER_SIZE);
    fs := Unframe(Reader(c, BUFFER_SIZE), FrameKind(c, BUFFER_SIZE), data, 0, 0);
    tail := Read(c, data, BUFFER_SIZE).1;
    FramesSmall(c, fs, Decoded(c, data).value, BUFFER_SIZE);
  }

  lemma FramesPrefix(c: Codec, fs: seq<Data>, cs: seq<Data>, room: nat, k: nat)
    requires Framed(c, fs, cs, room) && k < |fs|
    ensures FrameOf(c, fs[k], cs[k], room) && Flatten(fs[k..]) == fs[k] + Flatten(fs[k + 1..])
  {
    assert FrameKind(c, room)(fs[k], cs[k]);
    assert fs[k..][1..] == fs[k + 1..];
  }

  lemma {:induction false} RestOfFrames(c: Codec, fs: seq<Data>, cs: seq<Data>, tail: Data, room: nat, k: nat)
    requires Framed(c, fs, cs, room) && Accepted(cs) && k <= |cs|
    ensures RestAfter(c, Flatten(fs) + tail, cs[..k], room) == Some(Flatten(fs[k..]) + tail)
  {
    if k == 0 {
      assert fs[0..] == fs && cs[..0] == [];
    } else {
      RestOfFrames(c, fs, cs, tail, room, k - 1);
      NextOfFrames(c, fs, cs, tail, room, k - 1);
      RestGrows(c, Flatten(fs) + tail, cs, room, k - 1, Flatten(fs[k - 1..]) + tail, |fs[k - 1]|);
    }
  }

  /** After k chunks, the next is chunk k. */
  lemma NextOfFrames(c: Codec, fs: seq<Data>, cs: seq<Data>, tail: Data, room: nat, k: nat)
    requires Framed(c, fs, cs, room) && Accepted(cs) && k < |cs|
    ensures var rest := Flatten(fs[k..]) + tail;
      && NextItem(c, rest, k, |Flatten(cs[..k])|, room) == Chunk(cs[k], |fs[k]|)
      && |fs[k]| <= |rest| && rest[|fs[k]|..] == Flatten(fs[k + 1..]) + tail
  {
    FramesPrefix(c, fs, cs, room, k);
    var f, more := fs[k], Flatten(fs[k + 1..]) + tail;
    assert Flatten(fs[k..]) + tail == f + more;
    assert (f + more)[|f|..] == more;
    PrefixShorter(cs, k + 1);
    PrefixNext(c, cs, k);
    FrameIsNext(c, f, cs[k], more, k, |Flatten(cs[..k])|, room, room);
  }

  /** Validation accepts a stream under a hash if and only if the chunks found in it have that hash. */
  lemma DecodedIsValid(c: Codec, data: Data, hash: Digest, cs: seq<Data>)
    ensures HoldsXorb(c, data, hash, cs) <==> Decoded(c, data) == Some(cs) && XorbHash(c, cs) == hash
  {
    ReaderYields(c, BUFFER_SIZE);
    var fs := Unframe(Reader(c, BUFFER_SIZE), FrameKind(c, BUFFER_SIZE), data, 0, 0);
    var r := Read(c, data, BUFFER_SIZE);
    FramesSmall(c, fs, r.0, BUFFER_SIZE);
    RestOfFrames(c, fs, r.0, r.1, BUFFER_SIZE, |r.0|);
    assert r.0[..|r.0|] == r.0 && fs[|r.0|..] == [] && [] + r.1 == r.1;
    assert AllChunks(c, data, r.0, BUFFER_SIZE);
    if HoldsXorb(c, data, hash, cs) { ChunksUnique(c, data, cs, r.0, BUFFER_SIZE); }
  }

  // ---------------------------------------------------------------- what is kept of a stream

  /** A footer is checked up to its own end only. */
  lemma FooterLocal(version: U8, rest: Data, hash: Digest, hashes: seq<Digest>)
    requires FooterOk(version, rest, hash, hashes)
    ensures |rest| >= 88 + 40 * |hashes| && FooterOk(version, rest[..88 + 40 * |hashes|], hash, hashes)
  {
    var n := |hashes|;
    var part := rest[..88 + 40 * n];
    assert part[..44] == rest[..44] && part[40..44] == rest[40..44] && part[44..88 + 40 * n] == rest[44..88 + 40 * n];
  }

  lemma ShorterTail(c: Codec, tail: Data, cs: seq<Data>)
    requires EndsWell(c, tail, cs) && tail != []
    ensures |tail| >= 96 + 40 * |cs| && EndsWell(c, tail[..96 + 40 * |cs|], cs)
  {
    FooterLocal(tail[7], tail[8..], XorbHash(c, cs), HashesOf(c, cs));
    var end := tail[..96 + 40 * |cs|];
    assert end[..7] == tail[..7] && end[7] == tail[7] && end[8..] == tail[8..][..88 + 40 * |cs|];
  }

  lemma CutTail(a: Data, tail: Data, n: nat)
    requires n <= |tail|
    ensures (a + tail)[..|a + tail| - |tail| + n] == a + tail[..n]
  {}

  /** What is kept has the same chunks, and nothing after its footer. */
  lemma KeptStream(c: Codec, data: Data, fs: seq<Data>, cs: seq<Data>, tail: Data) returns (end: Data)
    requires Stream(c, data, fs, cs, tail)
    ensures Stream(c, Kept(c, data), fs, cs, end) && (end == [] || |end| == 96 + 40 * |cs|)
  {
    StreamDecodes(c, data, fs, cs, tail);
    end := tail;
    if tail != [] {
      ShorterTail(c, tail, cs);
      end := tail[..96 + 40 * |cs|];
      CutTail(Flatten(fs), tail, 96 + 40 * |cs|);
      assert Kept(c, data) == Flatten(fs) + end;
    }
  }

  /** Dropping what validation did not read changes nothing about validity. */
  lemma KeptDecodes(c: Codec, data: Data)
    ensures Decoded(c, Kept(c, data)) == Decoded(c, data)
  {
    if Decoded(c, data).Some? {
      var fs, tail := DecodedStream(c, data);
      var end := KeptStream(c, data, fs, Decoded(c, data).value, tail);
      StreamDecodes(c, Kept(c, data), fs, Decoded(c, data).value, end);
    }
  }

  // ---------------------------------------------------------------- the offset table

  /** Scanning a valid stream finds where its frames end. */
  lemma Scanned(c: Codec, data: Data, fs: seq<Data>, cs: seq<Data>, tail: Data)
    requires Stream(c, data, fs, cs, tail)
    ensures ScanFrom(data, 0, 0) == Some(Ends(fs))
  {
    forall i | 0 <= i < |fs| ensures Hoppable(fs[i]) {
      assert FrameKind(c, BUFFER_SIZE)(fs[i], cs[i]);
      assert fs[i][..8][1..4] == fs[i][1..4];
    }
    ScanFrames(fs, tail, 0);
    assert fs[..0] == [] && Ends(fs)[0..] == Ends(fs);
  }

  /** The packed chunk ends readers go by: those a footer lists, if one can be read, and scanned ones otherwise. */
  function Table(data: Data): Option<seq<nat>> {
    if Offsets(data).Some? then Offsets(data) else ScanFrom(data, 0, 0)
  }

  /** No footer to read, or one whose offsets are where the frames end. */
  predicate TrueTable(data: Data) { Offsets(data).None? || Offsets(data) == ScanFrom(data, 0, 0) }

  /** The bytes a table gives for chunks [from, to). */
  function BytesBy(offs: seq<nat>, data: Data, from: nat, to: nat): Option<Data> {
    match P.DataRange(offs, from, to)
    case None => None
    case Some(r) => if 0 <= r.0 <= r.1 then Some(data[Min(r.0, |data|)..Min(r.1 + 1, |data|)]) else None
  }

  /** The bytes readers get for chunks [from, to). */
  function RangeBytes(data: Data, from: nat, to: nat): Option<Data> {
    if Table(data).None? then None else BytesBy(Table(data).value, data, from, to)
  }

  /** The frames of chunks [from, to). */
  function FrameBytes(fs: seq<Data>, from: nat, to: nat): Option<Data> {
    if from < to <= |fs| then Some(Flatten(fs[from..to])) else None
  }

  lemma FramesCut(fs: seq<Data>, from: nat, to: nat, tail: Data)
    requires from < to <= |fs|
    ensures var a, b := |Flatten(fs[..from])|, |Flatten(fs[..to])|;
      a <= b <= |Flatten(fs)| && (Flatten(fs) + tail)[a..b] == Flatten(fs[from..to])
  {
    var x, y, z := fs[..from], fs[from..to], fs[to..];
    assert fs == (x + y) + z && fs[..to] == x + y;
    FlattenAppend(x + y, z);
    FlattenAppend(x, y);
    Middle(Flatten(x), Flatten(y), Flatten(z), tail);
  }

  lemma EndsAround(fs: seq<Data>, from: nat, to: nat)
    requires from < to <= |fs|
    ensures P.DataRange(Ends(fs), from, to) == Some((|Flatten(fs[..from])|, |Flatten(fs[..to])| - 1))
  {
    if from > 0 { assert Ends(fs)[from - 1] == |Flatten(fs[..from - 1 + 1])|; } else { assert fs[..from] == []; }
    assert Ends(fs)[to - 1] == |Flatten(fs[..to - 1 + 1])|;
  }

  lemma FramesLong(c: Codec, fs: seq<Data>, cs: seq<Data>, room: nat, from: nat, to: nat)
    requires Framed(c, fs, cs, room) && from < to <= |fs|
    ensures |Flatten(fs[..from])| + 8 <= |Flatten(fs[..to])|
  {
    assert FrameKind(c, room)(fs[from], cs[from]);
    FrameCut(fs, from, []);
    assert fs[..to] == fs[..from + 1] + fs[from + 1..to];
    FlattenAppend(fs[..from + 1], fs[from + 1..to]);
  }

  /** By the true table, every range gets its own frames. */
  lemma TrueRange(c: Codec, data: Data, fs: seq<Data>, cs: seq<Data>, tail: Data, room: nat, from: nat, to: nat)
    requires Framed(c, fs, cs, room) && data == Flatten(fs) + tail
    ensures BytesBy(Ends(fs), data, from, to) == FrameBytes(fs, from, to)
  {
    if from < to <= |fs| {
      EndsAround(fs, from, to);
      FramesLong(c, fs, cs, room, from, to);
      FramesCut(fs, from, to, tail);
    }
  }

  lemma {:induction false} SpacedAt(offs: seq<nat>, i: nat, j: nat)
    requires Spaced(offs) && i <= j < |offs|
    ensures offs[i] + 8 * (j - i) <= offs[j] && offs[i] >= 8
  {
    assert Gap(offs, i);
    if i < j { SpacedAt(offs, i, j - 1); assert Gap(offs, j); }
    else if i > 0 { SpacedAt(offs, i - 1, i - 1); }
  }

  lemma FooterTable(data: Data)
    requires Offsets(data).Some?
    ensures Spaced(Offsets(data).value) && forall i :: 0 <= i < |Offsets(data).value| ==>
      8 <= Offsets(data).value[i] <= |data|
  {
    SpacedWithin(Offsets(data).value, |data|);
  }

  lemma SpacedWithin(offs: seq<nat>, n: nat)
    requires Spaced(offs) && (offs != [] ==> offs[|offs| - 1] <= n)
    ensures forall i :: 0 <= i < |offs| ==> 8 <= offs[i] <= n
  {
    forall i | 0 <= i < |offs| ensures 8 <= offs[i] <= n { SpacedAt(offs, i, |offs| - 1); }
  }

  /** A table whose ranges start before they end, inside the stream. */
  ghost predicate Ordered(offs: seq<nat>, data: Data) {
    forall from: nat, to: nat {:trigger OrderedAt(offs, data, from, to)} :: from < to <= |offs| ==>
      OrderedAt(offs, data, from, to)
  }

  predicate OrderedAt(offs: seq<nat>, data: Data, from: nat, to: nat)
    requires from < to <= |offs|
  {
    P.StartByte(offs, from) + 8 <= offs[to - 1] <= |data|
  }

  lemma SpacedRange(offs: seq<nat>, from: nat, to: nat)
    requires Spaced(offs) && from < to <= |offs|
    ensures P.StartByte(offs, from) + 8 <= offs[to - 1]
  {
    if from > 0 { SpacedAt(offs, from - 1, to - 1); } else { SpacedAt(offs, 0, to - 1); }
  }

  lemma FooterOrdered(data: Data)
    requires Offsets(data).Some?
    ensures Ordered(Offsets(data).value, data)
  {
    FooterTable(data);
    var offs := Offsets(data).value;
    forall from: nat, to: nat | from < to <= |offs| ensures OrderedAt(offs, data, from, to) {
      SpacedRange(offs, from, to);
    }
  }

  lemma EndsOrdered(c: Codec, data: Data, fs: seq<Data>, cs: seq<Data>, tail: Data, room: nat)
    requires Framed(c, fs, cs, room) && data == Flatten(fs) + tail
    ensures Ordered(Ends(fs), data)
  {
    var offs := Ends(fs);
    forall from: nat, to: nat | from < to <= |offs| ensures OrderedAt(offs, data, from, to) {
      EndsAround(fs, from, to);
      FramesLong(c, fs, cs, room, from, to);
      FramesCut(fs, from, to, tail);
    }
  }

  lemma TableOrdered(c: Codec, data: Data, fs: seq<Data>, cs: seq<Data>, tail: Data)
    requires Stream(c, data, fs, cs, tail)
    ensures Table(data).Some? && Ordered(Table(data).value, data)
  {
    if Offsets(data).Some? {
      FooterOrdered(data);
    } else {
      Scanned(c, data, fs, cs, tail);
      EndsOrdered(c, data, fs, cs, tail, BUFFER_SIZE);
    }
  }

  lemma OrderedRange(offs: seq<nat>, data: Data, from: nat, to: nat)
    requires from < to <= |offs| && OrderedAt(offs, data, from, to)
    ensures BytesBy(offs, data, from, to) == Some(data[P.StartByte(offs, from)..offs[to - 1]])
    ensures |BytesBy(offs, data, from, to).value| == offs[to - 1] - P.StartByte(offs, from) >= 8
  {
  }

  lemma RightRangesMeanTrueTable(offs: seq<nat>, data: Data, fs: seq<Data>)
    requires Ordered(offs, data) && forall from, to :: BytesBy(offs, data, from, to) == FrameBytes(fs, from, to)
    ensures offs == Ends(fs)
  {
    assert BytesBy(offs, data, 0, |fs|) == FrameBytes(fs, 0, |fs|);
    if |fs| < |offs| { OrderedRange(offs, data, |fs|, |fs| + 1); }
    forall i | 0 <= i < |fs| ensures offs[i] == Ends(fs)[i] {
      OrderedRange(offs, data, 0, i + 1);
      assert BytesBy(offs, data, 0, i + 1) == FrameBytes(fs, 0, i + 1);
      assert fs[0..i + 1] == fs[..i + 1];
    }
  }

  /** For every valid stream, every range gets its own frames and no others if and only if readers find no footer or the
      offsets in it are where the frames end. */
  lemma TableIsTrue(c: Codec, data: Data, fs: seq<Data>, cs: seq<Data>, tail: Data)
    requires Stream(c, data, fs, cs, tail)
    ensures Table(data) == Some(Ends(fs)) <==> TrueTable(data)
    ensures Table(data) == Some(Ends(fs)) <==> forall from, to :: RangeBytes(data, from, to) == FrameBytes(fs, from, to)
  {
    Scanned(c, data, fs, cs, tail);
    TableOrdered(c, data, fs, cs, tail);
    var offs := Table(data).value;
    if offs == Ends(fs) {
      forall from, to ensures RangeBytes(data, from, to) == FrameBytes(fs, from, to) {
        TrueRange(c, data, fs, cs, tail, BUFFER_SIZE, from, to);
      }
    }
    if forall from, to :: RangeBytes(data, from, to) == FrameBytes(fs, from, to) {
      forall from, to ensures BytesBy(offs, data, from, to) == FrameBytes(fs, from, to) {
        assert RangeBytes(data, from, to) == FrameBytes(fs, from, to);
      }
      RightRangesMeanTrueTable(offs, data, fs);
    }
  }

  // ---------------------------------------------------------------- reading ranges

  /** What decoding some bytes without asking for a footer gives; nothing if it fails. */
  function Chunks(c: Codec, data: Data, room: nat): Option<seq<Data>> {
    var r := Read(c, data, room);
    if NextItem(c, r.1, |r.0|, |Flatten(r.0)|, room).Invalid? then None else Some(r.0)
  }

  /** What a reader gets for chunks [from, to), through the offset table and a buffer of the largest chunk size. */
  function Span(c: Codec, data: Data, from: nat, to: nat): Option<seq<Data>> {
    match RangeBytes(data, from, to) case None => None case Some(s) => Chunks(c, s, MAX_CHUNK_SIZE)
  }

  /** After these chunks, this is left to read. */
  ghost predicate SoFar(next: Next, data: Data, out: seq<Data>, rest: Data) {
    var more := ReadAll(next, rest, |out|, |Flatten(out)|);
    ReadAll(next, data, 0, 0) == (out + more.0, more.1)
  }

  lemma SoFarNext(next: Next, data: Data, out: seq<Data>, rest: Data, x: Data, n: nat)
    requires SoFar(next, data, out, rest) && next(rest, |out|, |Flatten(out)|) == Chunk(x, n) && 0 < n <= |rest|
    ensures |Flatten(out + [x])| == |Flatten(out)| + |x| && SoFar(next, data, out + [x], rest[n..])
  {
    FlattenSnoc(out, x);
    ReadStep(next, rest, |out|, |Flatten(out)|, x, n);
    var more := ReadAll(next, rest[n..], |out| + 1, |Flatten(out)| + |x|);
    assert out + ([x] + more.0) == (out + [x]) + more.0;
  }

  lemma SoFarEnd(next: Next, data: Data, out: seq<Data>, rest: Data)
    requires SoFar(next, data, out, rest) && !next(rest, |out|, |Flatten(out)|).Chunk?
    ensures ReadAll(next, data, 0, 0) == (out, rest)
  {
    assert out + [] == out;
  }

  lemma SoFarNothing(next: Next, data: Data)
    ensures SoFar(next, data, [], data)
  {
    var more := ReadAll(next, data, 0, 0);
    assert [] + more.0 == more.0;
  }

  /** A decoder run to its end. */
  method DecodeBytes(c: Codec, data: Data, room: nat) returns (r: Option<seq<Data>>)
    requires MAX_CHUNK_SIZE <= room
    ensures r == Chunks(c, data, room)
  {
    var d := new Decoder(c, data, false);
    var out: seq<Data> := [];
    SoFarNothing(Reader(c, room), data);
    while true
      invariant d.c == c && !d.withFooter && !d.failed && !d.done && fresh(d)
      invariant |d.hashes| == |out| && d.rawSize == |Flatten(out)| && SoFar(Reader(c, room), data, out, d.rest)
      decreases |d.rest|
    {
      ghost var rest := d.rest;
      ghost var next := NextItem(c, rest, |out|, |Flatten(out)|, room);
      assert Reader(c, room)(rest, |out|, |Flatten(out)|) == next;
      if next.Chunk? { SoFarNext(Reader(c, room), data, out, rest, next.data, next.packed); }
      else { SoFarEnd(Reader(c, room), data, out, rest); }
      var item := d.Read(room);
      match item {
        case Got(x) => out := out + [x];
        case EndOfChunks => return Some(out);
        case Failure => return None;
      }
    }
  }

  /** No body outgrows the largest chunk. */
  ghost predicate Handy(fs: seq<Data>) { forall i {:trigger fs[i]} :: 0 <= i < |fs| ==> |fs[i]| <= 8 + MAX_CHUNK_SIZE }

  lemma FramedPart(c: Codec, fs: seq<Data>, cs: seq<Data>, room: nat, from: nat, to: nat)
    requires Framed(c, fs, cs, room) && Accepted(cs) && from <= to <= |fs|
    ensures Framed(c, fs[from..to], cs[from..to], room) && Accepted(cs[from..to])
  {
    forall i | 0 <= i < to - from ensures FrameKind(c, room)(fs[from..to][i], cs[from..to][i]) {
      assert fs[from..to][i] == fs[from + i];
    }
    assert cs == (cs[..from] + cs[from..to]) + cs[to..];
    if from < to { AcceptedPart(cs[..from], cs[from..to], cs[to..]); }
  }

  lemma FramedHandy(c: Codec, fs: seq<Data>, cs: seq<Data>)
    requires Framed(c, fs, cs, BUFFER_SIZE) && Handy(fs)
    ensures Framed(c, fs, cs, MAX_CHUNK_SIZE)
  {
    forall i | 0 <= i < |fs|
      ensures FrameKind(c, MAX_CHUNK_SIZE)(fs[i], cs[i]) { assert FrameKind(c, BUFFER_SIZE)(fs[i], cs[i]); }
  }

  lemma HandyReads(c: Codec, fs: seq<Data>, cs: seq<Data>)
    requires Framed(c, fs, cs, BUFFER_SIZE) && Accepted(cs) && Handy(fs)
    ensures Chunks(c, Flatten(fs), MAX_CHUNK_SIZE) == Some(cs)
  {
    FramedHandy(c, fs, cs);
    ReadStream(c, fs, cs, [], MAX_CHUNK_SIZE);
    assert Flatten(fs) + [] == Flatten(fs);
  }

  /** Up to the first frame that is too long. */
  lemma UnhandyFails(c: Codec, fs: seq<Data>, cs: seq<Data>, j: nat)
    requires Framed(c, fs, cs, BUFFER_SIZE) && Accepted(cs) && j < |fs| && |fs[j]| > 8 + MAX_CHUNK_SIZE &&
      Handy(fs[..j])
    ensures Chunks(c, Flatten(fs), MAX_CHUNK_SIZE) == None
  {
    FramedPart(c, fs, cs, BUFFER_SIZE, 0, j);
    assert fs[0..j] == fs[..j] && cs[0..j] == cs[..j] && fs == fs[..j] + fs[j..];
    FramesPrefix(c, fs, cs, BUFFER_SIZE, j);
    FlattenAppend(fs[..j], fs[j..]);
    BigFrameFails(c, fs[..j], cs[..j], fs[j], cs[j], Flatten(fs[j + 1..]));
  }

  lemma BigFrameFails(c: Codec, fs: seq<Data>, cs: seq<Data>, f: Data, x: Data, rest: Data)
    requires Framed(c, fs, cs, BUFFER_SIZE) && Accepted(cs) && Handy(fs) && FrameOf(c, f, x, BUFFER_SIZE) &&
      |f| > 8 + MAX_CHUNK_SIZE
    ensures Chunks(c, Flatten(fs) + (f + rest), MAX_CHUNK_SIZE) == None
  {
    FramedHandy(c, fs, cs);
    FrameIsNext(c, f, x, rest, |cs|, |Flatten(cs)|, BUFFER_SIZE, MAX_CHUNK_SIZE);
    ReadStream(c, fs, cs, f + rest, MAX_CHUNK_SIZE);
  }

  lemma {:induction false} FirstUnhandy(fs: seq<Data>) returns (j: nat)
    requires !Handy(fs)
    ensures j < |fs| && |fs[j]| > 8 + MAX_CHUNK_SIZE && Handy(fs[..j])
  {
    var init := fs[..|fs| - 1];
    if Handy(init) {
      j := |fs| - 1;
      assert forall i {:trigger fs[i]} :: 0 <= i < |fs| - 1 ==> fs[i] == init[i];
    } else {
      j := FirstUnhandy(init);
      assert init[..j] == fs[..j];
    }
  }

  /** By the true table, a range reads as its chunks if and only if none of its bodies outgrows the largest chunk, and
      not at all otherwise. */
  lemma TrueTableReads(c: Codec, data: Data, fs: seq<Data>, cs: seq<Data>, tail: Data, from: nat, to: nat)
    requires Stream(c, data, fs, cs, tail) && Table(data) == Some(Ends(fs)) && from < to <= |cs|
    ensures Span(c, data, from, to) == if Handy(fs[from..to]) then Some(cs[from..to]) else None
  {
    TrueRange(c, data, fs, cs, tail, BUFFER_SIZE, from, to);
    FramedPart(c, fs, cs, BUFFER_SIZE, from, to);
    if Handy(fs[from..to]) {
      HandyReads(c, fs[from..to], cs[from..to]);
    } else {
      var j := FirstUnhandy(fs[from..to]);
      UnhandyFails(c, fs[from..to], cs[from..to], j);
    }
  }

  lemma HandyPart(fs: seq<Data>, from: nat, to: nat)
    requires Handy(fs) && from <= to <= |fs|
    ensures Handy(fs[from..to])
  {
    var part := fs[from..to];
    assert forall i {:trigger part[i]} :: 0 <= i < |part| ==> part[i] == fs[from + i];
  }

  /** A range the table does not have is not read. */
  lemma OutOfTable(c: Codec, data: Data, offs: seq<nat>, from: nat, to: nat)
    requires Table(data) == Some(offs) && !(from < to <= |offs|)
    ensures Span(c, data, from, to) == None
  {
    assert P.DataRange(offs, from, to) == None;
  }

  // ---------------------------------------------------------------- reading frame by frame

  /** A frame read by itself: its header must account for all of it. */
  function FrameRead(c: Codec, f: Data): Option<Data> {
    if |f| < 8 || |f| > 8 + MAX_CHUNK_SIZE then None else
    match ParseChunkHeader(f[..8])
    case None => None
    case Some(h) => if h.compressed + 8 == |f| then DecodeChunk(c, h, f[8..]) else None
  }

  lemma FrameReadIs(c: Codec, f: Data, x: Data)
    ensures FrameRead(c, f) == Some(x) <==> FrameOf(c, f, x, MAX_CHUNK_SIZE)
  {
    if FrameRead(c, f) == Some(x) { assert f[..7][0] == f[..8][0] == 0 && IDENT[0] == 0x58; }
  }

  /** What is read for chunk i by a table. */
  function FrameReadBy(c: Codec, offs: seq<nat>, data: Data, i: nat): Option<Data> {
    match BytesBy(offs, data, i, i + 1) case None => None case Some(f) => FrameRead(c, f)
  }

  /** The table lists as many chunks as there are, and each of them is read by itself. */
  ghost predicate FramesReadBy(c: Codec, offs: seq<nat>, data: Data, cs: seq<Data>) {
    |offs| == |cs| && forall i {:trigger FrameReadBy(c, offs, data, i)} :: 0 <= i < |cs| ==>
      FrameReadBy(c, offs, data, i) == Some(cs[i])
  }

  ghost predicate FramesRead(c: Codec, data: Data, cs: seq<Data>) {
    Table(data).Some? && FramesReadBy(c, Table(data).value, data, cs)
  }

  lemma Heads(s: Data, start: nat, a: nat, b: nat)
    requires start + 8 <= a <= |s| && start + 8 <= b <= |s|
    ensures s[start..a][..8] == s[start..b][..8]
  {
    Sub(s, start, a - start, 0, 8);
    Sub(s, start, b - start, 0, 8);
  }

  /** A frame that starts in the right place and accounts for all of itself is the right one. */
  lemma SameFrame(c: Codec, data: Data, fs: seq<Data>, tail: Data, x: Data, y: Data, i: nat, end: nat)
    requires i < |fs| && data == Flatten(fs) + tail && FrameOf(c, fs[i], x, BUFFER_SIZE)
    requires var start := |Flatten(fs[..i])|; start <= end <= |data| && FrameRead(c, data[start..end]) == Some(y)
    ensures end == Ends(fs)[i] && data[|Flatten(fs[..i])|..end] == fs[i] && x == y
  {
    FrameCut(fs, i, tail);
    var start := |Flatten(fs[..i])|;
    FrameReadIs(c, data[start..end], y);
    Heads(data, start, end, start + |fs[i]|);
  }

  /** A table by which frames can be read one after the other is the true one. */
  lemma {:induction false} FrameEnds(c: Codec, data: Data, fs: seq<Data>, cs: seq<Data>, tail: Data, offs: seq<nat>,
                                     k: nat)
    requires Framed(c, fs, cs, BUFFER_SIZE) && data == Flatten(fs) + tail && k <= |fs|
    requires Ordered(offs, data) && FramesReadBy(c, offs, data, cs)
    ensures offs[..k] == Ends(fs)[..k]
  {
    if k > 0 {
      FrameEnds(c, data, fs, cs, tail, offs, k - 1);
      NextEnd(c, data, fs, cs, tail, offs, k - 1);
      assert offs[..k] == offs[..k - 1] + [offs[k - 1]] && Ends(fs)[..k] == Ends(fs)[..k - 1] + [Ends(fs)[k - 1]];
    }
  }

  lemma NextEnd(c: Codec, data: Data, fs: seq<Data>, cs: seq<Data>, tail: Data, offs: seq<nat>, i: nat)
    requires Framed(c, fs, cs, BUFFER_SIZE) && data == Flatten(fs) + tail && i < |fs|
    requires Ordered(offs, data) && FramesReadBy(c, offs, data, cs) && offs[..i] == Ends(fs)[..i]
    ensures offs[i] == Ends(fs)[i] && |fs[i]| <= 8 + MAX_CHUNK_SIZE
  {
    assert FrameKind(c, BUFFER_SIZE)(fs[i], cs[i]);
    assert FrameReadBy(c, offs, data, i) == Some(cs[i]);
    assert OrderedAt(offs, data, i, i + 1);
    OrderedRange(offs, data, i, i + 1);
    StartsAgree(fs, offs, i);
    SameFrame(c, data, fs, tail, cs[i], cs[i], i, offs[i]);
  }

  lemma StartsAgree(fs: seq<Data>, offs: seq<nat>, i: nat)
    requires |offs| == |fs| && i < |fs| && offs[..i] == Ends(fs)[..i]
    ensures P.StartByte(offs, i) == |Flatten(fs[..i])|
  {
    if i > 0 { assert offs[..i][i - 1] == Ends(fs)[..i][i - 1]; } else { assert fs[..i] == []; }
  }

  lemma OneFrame(fs: seq<Data>, i: nat)
    requires i < |fs|
    ensures FrameBytes(fs, i, i + 1) == Some(fs[i])
  {
    assert fs[i..i + 1] == [fs[i]];
    FlattenSnoc([], fs[i]);
    assert [] + [fs[i]] == [fs[i]] && Flatten<U8>([]) + fs[i] == fs[i];
  }

  lemma TrueFrame(c: Codec, data: Data, fs: seq<Data>, cs: seq<Data>, tail: Data, i: nat)
    requires Framed(c, fs, cs, BUFFER_SIZE) && data == Flatten(fs) + tail && Handy(fs) && i < |cs|
    ensures FrameReadBy(c, Ends(fs), data, i) == Some(cs[i])
  {
    TrueRange(c, data, fs, cs, tail, BUFFER_SIZE, i, i + 1);
    OneFrame(fs, i);
    assert FrameKind(c, BUFFER_SIZE)(fs[i], cs[i]);
    FrameReadIs(c, fs[i], cs[i]);
  }

  lemma FramesReadExactly(c: Codec, data: Data, fs: seq<Data>, cs: seq<Data>, tail: Data, offs: seq<nat>)
    requires Framed(c, fs, cs, BUFFER_SIZE) && data == Flatten(fs) + tail && Ordered(offs, data)
    ensures FramesReadBy(c, offs, data, cs) <==> offs == Ends(fs) && Handy(fs)
  {
    if offs == Ends(fs) && Handy(fs) {
      forall i | 0 <= i < |cs| ensures FrameReadBy(c, offs, data, i) ==
        Some(cs[i]) { TrueFrame(c, data, fs, cs, tail, i); }
    }
    if FramesReadBy(c, offs, data, cs) {
      FrameEnds(c, data, fs, cs, tail, offs, |fs|);
      assert offs[..|fs|] == offs && Ends(fs)[..|fs|] == Ends(fs);
      forall i | 0 <= i < |fs| ensures |fs[i]| <= 8 + MAX_CHUNK_SIZE { NextEnd(c, data, fs, cs, tail, offs, i); }
    }
  }

  /** For every valid stream: all of its frames can be read one by one, as downloads do, if and only if the table is
      true and no body outgrows the largest chunk. */
  lemma FramewiseExact(c: Codec, data: Data, fs: seq<Data>, cs: seq<Data>, tail: Data)
    requires Stream(c, data, fs, cs, tail)
    ensures FramesRead(c, data, cs) <==> Table(data) == Some(Ends(fs)) && Handy(fs)
  {
    TableOrdered(c, data, fs, cs, tail);
    FramesReadExactly(c, data, fs, cs, tail, Table(data).value);
  }

  // ---------------------------------------------------------------- what encoders write

  lemma EncoderFrame(c: Codec, x: Data)
    requires Lawful(c) && |x| <= MAX_CHUNK_SIZE
    ensures FrameOf(c, Frame(c, x), x, MAX_CHUNK_SIZE) && |Frame(c, x)| <= 8 + MAX_CHUNK_SIZE
  {
    FrameNext(c, x, [], 0, 0, MAX_CHUNK_SIZE);
    assert Frame(c, x) + [] == Frame(c, x);
    NextIsFrame(c, Frame(c, x), 0, 0, MAX_CHUNK_SIZE);
    assert Frame(c, x)[..|Frame(c, x)|] == Frame(c, x);
  }

  /** What an encoder writes, with or without footer, is a valid stream of handy frames. */
  lemma EncodedStream(c: Codec, cs: seq<Data>, tail: Data)
    requires Lawful(c) && Accepted(cs) && IsTail(c, cs, tail)
    ensures Stream(c, Frames(c, cs) + tail, FrameList(c, cs), cs, tail) && Handy(FrameList(c, cs)) &&
      Ends(FrameList(c, cs)) == PackedEnds(c, cs)
  {
    var fs := FrameList(c, cs);
    FramesFlatten(c, cs);
    forall i | 0 <= i < |fs| ensures FrameKind(c, BUFFER_SIZE)(fs[i], cs[i]) &&
      |fs[i]| <= 8 + MAX_CHUNK_SIZE { EncoderFrame(c, cs[i]); }
    TailItem(c, cs, tail, 0, 0, 0);
    PackedAreEnds(c, cs);
  }

  /** A stream that ends with its footer is kept whole. */
  lemma KeptWhole(c: Codec, data: Data, fs: seq<Data>, cs: seq<Data>, tail: Data)
    requires Stream(c, data, fs, cs, tail) && (tail == [] || |tail| == 96 + 40 * |cs|)
    ensures Kept(c, data) == data
  {
    StreamDecodes(c, data, fs, cs, tail);
    assert data[..|data|] == data;
  }

  function FooterFor(c: Codec, cs: seq<Data>, nonce: Data): (r: Data)
    requires |nonce| == 4
    ensures IsTail(c, cs, r)
  {
    Footer(XorbHash(c, cs), HashesOf(c, cs), PackedEnds(c, cs), Ends(cs), nonce)
  }

  /** What an encoder writes is kept whole, decodes to its chunks, and has a true table. */
  lemma EncodedDecodes(c: Codec, cs: seq<Data>, nonce: Data)
    requires Lawful(c) && Accepted(cs) && |nonce| == 4
    ensures var data := Encoded(c, cs, true, nonce);
      Kept(c, data) == data && Stream(c, data, FrameList(c, cs), cs, FooterFor(c, cs, nonce)) &&
        Table(data) == Some(Ends(FrameList(c, cs)))
  {
    EncodedStream(c, cs, FooterFor(c, cs, nonce));
    FooterSections(XorbHash(c, cs), HashesOf(c, cs), PackedEnds(c, cs), Ends(cs), nonce);
    KeptWhole(c, Encoded(c, cs, true, nonce), FrameList(c, cs), cs, FooterFor(c, cs, nonce));
    OffsetsAgree(c, cs, nonce);
  }

  // ---------------------------------------------------------------- a table that misleads

  /** A footer that puts the end of the first of two chunks after its header. */
  function CrookedTail(c: Codec, cs: seq<Data>, nonce: Data): Data
    requires |nonce| == 4
  {
    Footer(XorbHash(c, cs), HashesOf(c, cs), [8, |Frames(c, cs)|], Ends(cs), nonce)
  }

  function Crooked(c: Codec, x: Data, y: Data, nonce: Data): Data
    requires |nonce| == 4
  {
    Frames(c, [x, y]) + CrookedTail(c, [x, y], nonce)
  }

  lemma TwoFrames(c: Codec, x: Data, y: Data)
    ensures Frames(c, [x, y]) == Frame(c, x) + Frame(c, y)
  {
    assert [x, y][1..] == [y] && [y][1..] == [] && Frames(c, [y]) == Frame(c, y) + [];
  }

  lemma TwoAccepted(x: Data, y: Data)
    requires |x| <= MAX_CHUNK_SIZE && |y| <= MAX_CHUNK_SIZE
    ensures Accepted([x, y])
  {
    FlattenLength([x, y]);
    assert Lengths([x, y]) == [|x|, |y|] && [|x|, |y|][1..] == [|y|] && [|y|][1..] == [];
    assert Sum([|x|, |y|]) == |x| + Sum([|y|]) && Sum([|y|]) == |y| + Sum([]);
  }

  lemma CrookedStream(c: Codec, x: Data, y: Data, nonce: Data)
    requires Lawful(c) && |x| <= MAX_CHUNK_SIZE && |y| <= MAX_CHUNK_SIZE && |nonce| == 4
    ensures Accepted([x, y]) &&
      Stream(c, Crooked(c, x, y, nonce), FrameList(c, [x, y]), [x, y], CrookedTail(c, [x, y], nonce))
  {
    var cs := [x, y];
    TwoAccepted(x, y);
    FooterAccepted(XorbHash(c, cs), HashesOf(c, cs), [8, |Frames(c, cs)|], Ends(cs), nonce);
    EncodedStream(c, cs, []);
    FramesFlatten(c, cs);
  }

  lemma CrookedTable(c: Codec, x: Data, y: Data, nonce: Data)
    requires Accepted([x, y]) && |nonce| == 4
    ensures Table(Crooked(c, x, y, nonce)) == Some([8, |Frames(c, [x, y])|])
  {
    var cs := [x, y];
    var offs := [8, |Frames(c, cs)|];
    TwoFrames(c, x, y);
    FramesBound(c, cs);
    assert Gap(offs, 0) && Gap(offs, 1);
    FullOffsets(Crooked(c, x, y, nonce), Frames(c, cs), XorbHash(c, cs), HashesOf(c, cs), offs, Ends(cs),
      nonce);
  }

  /** The header of a frame without its body is an error. */
  lemma HeaderAlone(c: Codec, f: Data, x: Data, room: nat)
    requires FrameOf(c, f, x, room) && |f| > 8
    ensures FrameRead(c, f[..8]) == None && Chunks(c, f[..8], room) == None
  {
    var s := f[..8];
    assert s[..8] == s && s[..7] == f[..7];
    assert NextItem(c, s, 0, 0, room).Invalid?;
    assert Read(c, s, room) == ([], s);
  }

  lemma TwoEntries(data: Data, n: nat)
    requires 8 <= n <= |data|
    ensures BytesBy([8, n], data, 0, 1) == Some(data[..8]) && BytesBy([8, n], data, 0, 2) == Some(data[..n])
  {}

  /** What readers get of a crooked stream. */
  lemma CrookedRanges(c: Codec, x: Data, y: Data, data: Data, n: nat)
    requires Lawful(c) && |x| <= MAX_CHUNK_SIZE && |y| <= MAX_CHUNK_SIZE && HeaderOf(c, x).compressed > 0
    requires n == |Frames(c, [x, y])| && Frames(c, [x, y]) <= data
    ensures 8 <= n && BytesBy([8, n], data, 0, 1) == Some(data[..8]) && BytesBy([8, n], data, 0, 2) == Some(data[..n])
    ensures FrameRead(c, data[..8]) == None && Chunks(c, data[..8], MAX_CHUNK_SIZE) == None
    ensures Chunks(c, data[..n], MAX_CHUNK_SIZE) == Some([x, y])
  {
    TwoFrames(c, x, y);
    TwoEntries(data, n);
    EncoderFrame(c, x);
    HeaderAlone(c, Frame(c, x), x, MAX_CHUNK_SIZE);
    assert data[..8] == Frame(c, x)[..8];
    TwoAccepted(x, y);
    EncodedStream(c, [x, y], []);
    FramesFlatten(c, [x, y]);
    HandyReads(c, FrameList(c, [x, y]), [x, y]);
    assert data[..n] == Frames(c, [x, y]);
  }

  /** Validation accepts this stream, and a reader of the whole gets both chunks; but the first chunk by itself cannot
      be read, neither as a range nor as a frame. */
  lemma FooterMisleads(c: Codec, x: Data, y: Data, nonce: Data)
    requires Lawful(c) && |x| <= MAX_CHUNK_SIZE && |y| <= MAX_CHUNK_SIZE && |nonce| == 4 &&
      HeaderOf(c, x).compressed > 0
    ensures var data := Crooked(c, x, y, nonce);
      && HoldsXorb(c, data, XorbHash(c, [x, y]), [x, y]) && Decoded(c, data) == Some([x, y])
      && Span(c, data, 0, 2) == Some([x, y]) && Span(c, data, 0, 1) == None && !FramesRead(c, data, [x, y])
  {
    var data, cs := Crooked(c, x, y, nonce), [x, y];
    CrookedStream(c, x, y, nonce);
    StreamDecodes(c, data, FrameList(c, cs), cs, CrookedTail(c, cs, nonce));
    DecodedIsValid(c, data, XorbHash(c, cs), cs);
    CrookedTable(c, x, y, nonce);
    CrookedRanges(c, x, y, data, |Frames(c, cs)|);
    assert FrameReadBy(c, [8, |Frames(c, cs)|], data, 0) == None;
  }
}
