/** One file of the decoded-chunk cache: a table of chunk offsets, the chunk data, a checksum over both. */
module CacheFile {
  import opened Common
  import opened HashText
  import opened Wire

  /** How the checksum takes in one byte. */
  type Mixer = (Word, U8) -> Word

  function Update(mix: Mixer, sum: Word, data: Data): Word
    decreases |data|
  {
    if data == [] then sum else Update(mix, mix(sum, data[0]), data[1..])
  }

  /** The checksum of a whole does not depend on how it is cut into pieces. */
  lemma {:induction false} UpdateAppend(mix: Mixer, sum: Word, a: Data, b: Data)
    ensures Update(mix, sum, a + b) == Update(mix, Update(mix, sum, a), b)
    decreases |a|
  {
    if a == [] {
      assert a + b == b;
    } else {
      assert (a + b)[1..] == a[1..] + b;
      UpdateAppend(mix, mix(sum, a[0]), a[1..], b);
    }
  }

  // ---------------------------------------------------------------- what a sealed file holds

  predicate ValidRange(start: nat, end: nat) { start < end <= MAX_CHUNKS }

  /** Chunks as they come out of the pooled buffer. */
  predicate Buffered(chunks: seq<Data>) { forall i :: 0 <= i < |chunks| ==> |chunks[i]| <= BUFFER_SIZE }

  /** Where chunk i starts in the data region. */
  function At(chunks: seq<Data>, i: nat): nat
    requires i <= |chunks|
  {
    |Flatten(chunks[..i])|
  }

  function Table(chunks: seq<Data>): (r: seq<nat>)
    ensures |r| == |chunks| + 1
    ensures forall i :: 0 <= i <= |chunks| ==> r[i] == At(chunks, i)
  {
    seq(|chunks| + 1, i requires 0 <= i <= |chunks| => At(chunks, i))
  }

  function HeaderSize(n: nat): nat { 4 + 4 * (n + 1) }

  function Header(table: seq<nat>): Data { U32(|table|) + U32s(table) }

  /** The checksum covers the data first and the header after it. */
  function Checksum(mix: Mixer, header: Data, data: Data): Word { Update(mix, Update(mix, 0, data), header) }

  function SealedFile(mix: Mixer, chunks: seq<Data>): Data {
    var header, data := Header(Table(chunks)), Flatten(chunks);
    header + data + U32(Checksum(mix, header, data))
  }

  lemma HeaderLength(table: seq<nat>)
    ensures |Header(table)| == 4 + 4 * |table|
  {
    U32sLength(table);
  }

  /** One chunk further on. */
  lemma AtNext(chunks: seq<Data>, i: nat)
    requires i < |chunks|
    ensures At(chunks, i + 1) == At(chunks, i) + |chunks[i]|
  {
    assert chunks[..i + 1] == chunks[..i] + [chunks[i]];
    FlattenSnoc(chunks[..i], chunks[i]);
  }

  /** Chunk i lies between its own start and the next one. */
  lemma ChunkSlice(chunks: seq<Data>, i: nat)
    requires i < |chunks|
    ensures At(chunks, i) <= At(chunks, i + 1) <= |Flatten(chunks)|
    ensures Flatten(chunks)[At(chunks, i)..At(chunks, i + 1)] == chunks[i]
  {
    AtNext(chunks, i);
    assert chunks == chunks[..i] + ([chunks[i]] + chunks[i + 1..]);
    FlattenAppend(chunks[..i], [chunks[i]] + chunks[i + 1..]);
    FlattenAppend([chunks[i]], chunks[i + 1..]);
    assert Flatten([chunks[i]]) == chunks[i] + Flatten([]);
  }

  lemma {:induction false} AtBound(chunks: seq<Data>, i: nat)
    requires i <= |chunks| && Buffered(chunks)
    ensures At(chunks, i) <= i * BUFFER_SIZE
  {
    if i > 0 {
      AtBound(chunks, i - 1);
      AtNext(chunks, i - 1);
    }
  }

  /** Every offset of a cache file fits the 32 bits it is stored in. */
  lemma OffsetsFit(chunks: seq<Data>, i: nat)
    requires i <= |chunks| <= MAX_CHUNKS && Buffered(chunks)
    ensures At(chunks, i) < TWO32
  {
    AtBound(chunks, i);
    assert i * BUFFER_SIZE <= MAX_CHUNKS * BUFFER_SIZE;
  }

  // ---------------------------------------------------------------- reading a file

  datatype Layout = Layout(count: nat, headerBytes: nat, dataBytes: nat, crc: Word)

  /** The size arithmetic a file must satisfy to be taken for sealed. */
  function ReadLayout(file: Data, start: nat, end: nat): (r: Option<Layout>)
    ensures r.Some? ==> ValidRange(start, end) && r.value.count == end - start + 1
    ensures r.Some? ==> r.value.headerBytes == HeaderSize(end - start)
    ensures r.Some? ==> |file| == r.value.headerBytes + r.value.dataBytes + 4
  {
    if !ValidRange(start, end) then None
    else
      var h := HeaderSize(end - start);
      if |file| < h + 4 || GetU32(file) != end - start + 1 then None
      else
        var d := GetU32(file[h - 4..]);
        if |file| != h + d + 4 then None else Some(Layout(end - start + 1, h, d, GetU32(file[h + d..])))
  }

  predicate Laid(file: Data, l: Layout) {
    |file| == l.headerBytes + l.dataBytes + 4 && l.headerBytes == 4 + 4 * l.count
  }

  /** The stored checksum is that of the file's own data and header. */
  predicate CrcOk(mix: Mixer, file: Data, l: Layout)
    requires Laid(file, l)
  {
    Checksum(mix, file[..l.headerBytes], file[l.headerBytes..l.headerBytes + l.dataBytes]) == l.crc
  }

  /** The file is read a buffer at a time; the verdict is that on the whole file. */
  method VerifyCrc(mix: Mixer, file: Data, l: Layout) returns (ok: bool)
    requires Laid(file, l)
    ensures ok == CrcOk(mix, file, l)
  {
    var sum: Word := 0;
    var end := l.headerBytes + l.dataBytes;
    var off := l.headerBytes;
    while off < end
      invariant l.headerBytes <= off <= end
      invariant sum == Update(mix, 0, file[l.headerBytes..off])
    {
      var n := Min(BUFFER_SIZE, end - off);
      assert file[l.headerBytes..off + n] == file[l.headerBytes..off] + file[off..off + n];
      UpdateAppend(mix, 0, file[l.headerBytes..off], file[off..off + n]);
      sum := Update(mix, sum, file[off..off + n]);
      off := off + n;
    }
    sum := Update(mix, sum, file[..l.headerBytes]);
    ok := sum == l.crc;
  }

  /** Where a decoded chunk lies in its file. */
  datatype Ref = Ref(offset: nat, size: nat)

  /** Entry i of the offset table. */
  function Stored(file: Data, i: nat): nat
    requires 4 + 4 * i + 4 <= |file|
  {
    GetU32(file[4 + 4 * i..])
  }

  predicate GoodPair(file: Data, l: Layout, i: nat)
    requires Laid(file, l) && i + 1 < l.count
  {
    Stored(file, i) <= Stored(file, i + 1) <= l.dataBytes
  }

  ghost predicate TableOk(file: Data, l: Layout, lo: nat, hi: nat)
    requires Laid(file, l) && hi < l.count
  {
    forall i: nat {:trigger GoodPair(file, l, i)} :: lo <= i < hi ==> GoodPair(file, l, i)
  }

  /** The refs of the chunks the offset table puts at positions lo up to hi. */
  ghost predicate RefsOf(file: Data, l: Layout, lo: nat, hi: nat, metas: seq<Ref>)
    requires Laid(file, l) && lo <= hi < l.count
  {
    && |metas| == hi - lo
    && forall i: nat {:trigger metas[i]} :: i < hi - lo ==> IsRef(file, l, lo + i, metas[i])
  }

  /** The place of a chunk, by its pair of offsets. */
  ghost predicate IsRef(file: Data, l: Layout, i: nat, ref: Ref)
    requires Laid(file, l) && i + 1 < l.count
  {
    GoodPair(file, l, i) && ref == Ref(l.headerBytes + Stored(file, i), Stored(file, i + 1) - Stored(file, i))
  }

  function RefAt(file: Data, l: Layout, i: nat): (r: Ref)
    requires Laid(file, l) && i + 1 < l.count && GoodPair(file, l, i)
    ensures IsRef(file, l, i, r)
  {
    Ref(l.headerBytes + Stored(file, i), Stored(file, i + 1) - Stored(file, i))
  }

  lemma TableGrows(file: Data, l: Layout, lo: nat, i: nat)
    requires Laid(file, l) && lo <= i && i + 1 < l.count && TableOk(file, l, lo, i) && GoodPair(file, l, i)
    ensures TableOk(file, l, lo, i + 1)
  {
  }

  lemma RefsGrow(file: Data, l: Layout, lo: nat, i: nat, metas: seq<Ref>, ref: Ref)
    requires Laid(file, l) && lo <= i && i + 1 < l.count && RefsOf(file, l, lo, i, metas) && IsRef(file, l, i, ref)
    ensures RefsOf(file, l, lo, i + 1, metas + [ref])
  {
    var more := metas + [ref];
    forall k: nat | k < i + 1 - lo ensures IsRef(file, l, lo + k, more[k]) {
      if k < i - lo { assert IsRef(file, l, lo + k, metas[k]); } else { assert lo + k == i; }
    }
  }

  /** Chunks start up to end of a file that begins at chunk first. */
  method ReadMetas(file: Data, l: Layout, first: nat, start: nat, end: nat) returns (r: Option<seq<Ref>>)
    requires Laid(file, l)
    ensures r.None? <==>
      start < first || end < start || end - first >= l.count || !TableOk(file, l, start - first, end - first)
    ensures r.Some? ==> RefsOf(file, l, start - first, end - first, r.value)
  {
    if start < first || end < start { return None; }
    var lo, hi := start - first, end - first;
    if hi >= l.count { return None; }
    var metas: seq<Ref> := [];
    while |metas| < hi - lo
      invariant |metas| <= hi - lo
      invariant TableOk(file, l, lo, lo + |metas|)
      invariant RefsOf(file, l, lo, lo + |metas|, metas)
    {
      var i := lo + |metas|;
      if !GoodPair(file, l, i) { return None; }
      var ref := RefAt(file, l, i);
      RefsGrow(file, l, lo, i, metas, ref);
      TableGrows(file, l, lo, i);
      metas := metas + [ref];
    }
    r := Some(metas);
  }

  // ---------------------------------------------------------------- accepted files

  /** What a reader demands before it serves from a file: the size arithmetic, the checksum and an ordered table. */
  ghost predicate Accepted(mix: Mixer, file: Data, start: nat, end: nat) {
    && ReadLayout(file, start, end).Some?
    && CrcOk(mix, file, ReadLayout(file, start, end).value)
    && TableOk(file, ReadLayout(file, start, end).value, 0, end - start)
  }

  /** The bytes an accepted file holds for chunk k. */
  ghost function ChunkIn(file: Data, start: nat, end: nat, k: nat): Data
    requires ReadLayout(file, start, end).Some? && start <= k < end
    requires GoodPair(file, ReadLayout(file, start, end).value, k - start)
  {
    var h := HeaderSize(end - start);
    file[h + Stored(file, k - start)..h + Stored(file, k - start + 1)]
  }

  /** The file gives these bytes for the chunk at place i of its range. */
  ghost predicate Serves(file: Data, start: nat, end: nat, i: nat, bytes: Data) {
    && ReadLayout(file, start, end).Some? && i < end - start
    && GoodPair(file, ReadLayout(file, start, end).value, i)
    && ChunkIn(file, start, end, start + i) == bytes
  }

  /** Reading a value inside the middle one of three parts. */
  lemma PartAt(a: Data, b: Data, c: Data, i: nat)
    requires i + 4 <= |b|
    ensures (a + b + c)[|a| + i..][..4] == b[i..][..4]
    ensures GetU32((a + b + c)[|a| + i..]) == GetU32(b[i..])
  {
    assert forall j :: 0 <= j < 4 ==> (a + b + c)[|a| + i..][j] == b[i..][j];
  }

  lemma HeaderStored(table: seq<nat>, rest: Data, i: nat)
    requires i < |table| && table[i] < TWO32
    ensures |Header(table)| == 4 + 4 * |table| && Stored(Header(table) + rest, i) == table[i]
  {
    HeaderLength(table);
    U32sAt(table, i);
    PartAt(U32(|table|), U32s(table), rest, 4 * i);
  }

  /** The count, the last offset and the trailer of a file put together from header, data and checksum. */
  lemma Assembled(table: seq<nat>, data: Data, tail: Data, start: nat, end: nat)
    requires ValidRange(start, end) && |table| == end - start + 1 && table[end - start] < TWO32
    ensures |Header(table)| == HeaderSize(end - start)
    ensures var file := Header(table) + data + tail;
      && GetU32(file) == end - start + 1
      && GetU32(file[HeaderSize(end - start) - 4..]) == table[end - start]
  {
    HeaderLength(table);
    U32Prefix(|table|, U32s(table) + data + tail);
    assert Header(table) + data + tail == U32(|table|) + (U32s(table) + data + tail);
    HeaderStored(table, data + tail, end - start);
    assert Header(table) + data + tail == Header(table) + (data + tail);
  }

  /** The slice of the data that the table gives to chunk i, found in the whole file. */
  lemma TableSlice(table: seq<nat>, data: Data, tail: Data, i: nat)
    requires i + 1 < |table| && table[i] <= table[i + 1] <= |data| && table[i + 1] < TWO32
    ensures var file, h := Header(table) + data + tail, 4 + 4 * |table|;
      && |file| == h + |data| + |tail|
      && Stored(file, i) == table[i] && Stored(file, i + 1) == table[i + 1]
      && file[h + table[i]..h + table[i + 1]] == data[table[i]..table[i + 1]]
  {
    assert Header(table) + data + tail == Header(table) + (data + tail);
    HeaderStored(table, data + tail, i);
    HeaderStored(table, data + tail, i + 1);
  }

  /** What the table gives to chunk i. */
  function Piece(table: seq<nat>, data: Data, i: nat): Data {
    if i + 1 < |table| && table[i] <= table[i + 1] <= |data| then data[table[i]..table[i + 1]] else []
  }

  predicate Ordered(table: seq<nat>, size: nat) {
    && (forall i {:trigger table[i]} :: 0 <= i < |table| ==> table[i] <= size < TWO32)
    && (forall i, j {:trigger table[i], table[j]} :: 0 <= i < |table| && j == i + 1 < |table| ==> table[i] <= table[j])
  }

  lemma TableLayout(table: seq<nat>, data: Data, crc: Word, start: nat, end: nat)
    requires ValidRange(start, end) && |table| == end - start + 1 && table[end - start] == |data| < TWO32
    ensures var file, l := Header(table) + data + U32(crc),
      Layout(end - start + 1, HeaderSize(end - start), |data|, crc);
      && ReadLayout(file, start, end) == Some(l)
      && file[..l.headerBytes] == Header(table)
      && file[l.headerBytes..l.headerBytes + l.dataBytes] == data
  {
    Assembled(table, data, U32(crc), start, end);
    U32RoundTrip(crc);
    assert (Header(table) + data + U32(crc))[HeaderSize(end - start) + |data|..] == U32(crc);
  }

  lemma ServesWhen(file: Data, l: Layout, start: nat, end: nat, i: nat, lo: nat, hi: nat)
    requires ReadLayout(file, start, end) == Some(l) && i < end - start
    requires Stored(file, i) == lo && Stored(file, i + 1) == hi && lo <= hi <= l.dataBytes
    ensures Serves(file, start, end, i, file[l.headerBytes + lo..l.headerBytes + hi])
  {
  }

  lemma TableChunk(table: seq<nat>, data: Data, crc: Word, start: nat, end: nat, i: nat)
    requires ValidRange(start, end) && |table| == end - start + 1 && table[end - start] == |data| < TWO32
    requires i < end - start && table[i] <= table[i + 1] <= |data|
    ensures Serves(Header(table) + data + U32(crc), start, end, i, Piece(table, data, i))
  {
    TableLayout(table, data, crc, start, end);
    TableSlice(table, data, U32(crc), i);
    ServesPiece(Header(table) + data + U32(crc), Layout(end - start + 1, HeaderSize(end - start), |data|, crc),
      start, end, i, table[i], table[i + 1], Piece(table, data, i));
  }

  lemma ServesPiece(file: Data, l: Layout, start: nat, end: nat, i: nat, lo: nat, hi: nat, piece: Data)
    requires ReadLayout(file, start, end) == Some(l) && i < end - start && l.headerBytes + hi <= |file|
    requires Stored(file, i) == lo && Stored(file, i + 1) == hi && lo <= hi <= l.dataBytes
    requires piece == file[l.headerBytes + lo..l.headerBytes + hi]
    ensures Serves(file, start, end, i, piece)
  {
    ServesWhen(file, l, start, end, i, lo, hi);
  }

  /** An ordered table, its data and their checksum make an accepted file. */
  lemma TableAccepted(mix: Mixer, table: seq<nat>, data: Data, start: nat, end: nat)
    requires ValidRange(start, end) && |table| == end - start + 1 && Ordered(table, |data|) &&
      table[end - start] == |data|
    ensures var file := Header(table) + data + U32(Checksum(mix, Header(table), data));
      && Accepted(mix, file, start, end)
      && forall i: nat {:trigger Piece(table, data, i)} :: i < end - start ==>
        Serves(file, start, end, i, Piece(table, data, i))
  {
    var crc := Checksum(mix, Header(table), data);
    var file := Header(table) + data + U32(crc);
    TableLayout(table, data, crc, start, end);
    var l := ReadLayout(file, start, end).value;
    forall i: nat | i < end - start ensures Serves(file, start, end, i, Piece(table, data, i)) {
      var j := i + 1;
      assert table[i] <= table[j];
      TableChunk(table, data, crc, start, end, i);
    }
    forall i: nat | i < end - start ensures GoodPair(file, l, i) {
      assert Serves(file, start, end, i, Piece(table, data, i));
    }
  }

  lemma {:induction false} AtWithin(chunks: seq<Data>, i: nat)
    requires i <= |chunks|
    ensures At(chunks, i) <= |Flatten(chunks)|
  {
    assert chunks == chunks[..i] + chunks[i..];
    FlattenAppend(chunks[..i], chunks[i..]);
  }

  lemma TableOrdered(chunks: seq<Data>)
    requires |chunks| <= MAX_CHUNKS && Buffered(chunks)
    ensures Ordered(Table(chunks), |Flatten(chunks)|) && Table(chunks)[|chunks|] == |Flatten(chunks)|
  {
    assert chunks[..|chunks|] == chunks;
    OffsetsFit(chunks, |chunks|);
    forall i: nat | i <= |chunks| ensures At(chunks, i) <= |Flatten(chunks)| { AtWithin(chunks, i); }
    forall i: nat, j: nat | i < |chunks| && j == i + 1 ensures At(chunks, i) <= At(chunks, j) { AtNext(chunks, i); }
  }

  /** A sealed file is accepted, and gives back each chunk that was sealed into it. */
  lemma SealedAccepted(mix: Mixer, chunks: seq<Data>, start: nat, end: nat)
    requires ValidRange(start, end) && |chunks| == end - start && Buffered(chunks)
    ensures Accepted(mix, SealedFile(mix, chunks), start, end)
    ensures forall i: nat {:trigger chunks[i]} :: i < |chunks| ==>
      Serves(SealedFile(mix, chunks), start, end, i, chunks[i])
  {
    var table := Table(chunks);
    TableOrdered(chunks);
    TableAccepted(mix, table, Flatten(chunks), start, end);
    forall i: nat | i < |chunks| ensures Piece(table, Flatten(chunks), i) == chunks[i] {
      var j := i + 1;
      assert table[i] == At(chunks, i) && table[j] == At(chunks, j);
      ChunkSlice(chunks, i);
    }
  }

  // ---------------------------------------------------------------- files that are not sealed

  /** The table of n chunks before any size is known. */
  function Blank(n: nat): (r: seq<nat>)
    ensures |r| == n + 1 && forall i :: 0 <= i <= n ==> r[i] == 0
  {
    seq(n + 1, _ => 0)
  }

  /** A file whose writer has stored some data and not yet patched the table. */
  function Unsealed(n: nat, data: Data): Data { Header(Blank(n)) + data }

  lemma UnsealedShape(n: nat, data: Data, start: nat, end: nat)
    requires ValidRange(start, end) && n == end - start
    ensures |Header(Blank(n))| == HeaderSize(n)
    ensures GetU32(Unsealed(n, data)) == n + 1 && GetU32(Unsealed(n, data)[HeaderSize(n) - 4..]) == 0
  {
    Assembled(Blank(n), data, [], start, end);
    assert Header(Blank(n)) + data + [] == Unsealed(n, data);
  }

  /** Size alone does not tell a file being written from a sealed one: it is fooled by exactly four bytes of data. */
  lemma UnsealedLooksSealed(n: nat, data: Data, start: nat, end: nat)
    requires ValidRange(start, end) && n == end - start
    ensures ReadLayout(Unsealed(n, data), start, end).Some? <==> |data| == 4
  {
    UnsealedShape(n, data, start, end);
  }

  /** Size and checksum together accept it only when the four bytes are the checksum of the empty table. */
  lemma UnsealedAccepted(mix: Mixer, n: nat, data: Data, start: nat, end: nat)
    requires ValidRange(start, end) && n == end - start
    ensures Accepted(mix, Unsealed(n, data), start, end) <==>
      |data| == 4 && GetU32(data) == Checksum(mix, Header(Blank(n)), [])
  {
    UnsealedShape(n, data, start, end);
    if |data| == 4 {
      var file := Unsealed(n, data);
      var l := ReadLayout(file, start, end).value;
      assert file[l.headerBytes..] == data;
      assert file[..l.headerBytes] == Header(Blank(n));
      assert file[l.headerBytes..l.headerBytes] == [];
      forall i: nat | i < n ensures GoodPair(file, l, i) {
        HeaderStored(Blank(n), data, i);
        HeaderStored(Blank(n), data, i + 1);
      }
    }
  }

  lemma NoTrailer(table: seq<nat>, data: Data, start: nat, end: nat)
    requires ValidRange(start, end) && |table| == end - start + 1 && table[end - start] == |data| < TWO32
    ensures ReadLayout(Header(table) + data, start, end).None?
  {
    Assembled(table, data, [], start, end);
    assert Header(table) + data + [] == Header(table) + data;
  }

  /** A file whose table is patched but whose checksum is not yet written fails the size arithmetic. */
  lemma HalfSealedRejected(chunks: seq<Data>, start: nat, end: nat)
    requires ValidRange(start, end) && |chunks| == end - start && Buffered(chunks)
    ensures ReadLayout(Header(Table(chunks)) + Flatten(chunks), start, end).None?
  {
    TableEnds(chunks);
    NoTrailer(Table(chunks), Flatten(chunks), start, end);
  }

  /** The last entry of a table is the size of the data. */
  lemma TableEnds(chunks: seq<Data>)
    requires |chunks| <= MAX_CHUNKS && Buffered(chunks)
    ensures |Table(chunks)| == |chunks| + 1 && Table(chunks)[|chunks|] == |Flatten(chunks)| < TWO32
  {
    OffsetsFit(chunks, |chunks|);
    assert chunks[..|chunks|] == chunks;
  }
}
