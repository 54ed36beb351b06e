/** Shards as bytes: 48-byte records in two sections, each closed by a bookend, and an optional footer. */
module ShardFormat {
  import opened Common
  import opened HashText
  import opened Wire

  datatype FileEntry = FileEntry(xorb: Digest, flags: Word, bytes: Word, start: Word, end: Word)
  datatype FileBlock = FileBlock(hash: Digest, flags: Word, entries: seq<FileEntry>, verification: seq<Digest>,
    sha: Option<Digest>)
  datatype ChunkEntry = ChunkEntry(hash: Digest, start: Word, bytes: Word, flags: Word)
  datatype CasBlock = CasBlock(hash: Digest, flags: Word, chunks: seq<ChunkEntry>, inCas: Word, onDisk: Word)
  datatype Shard = Shard(files: seq<FileBlock>, cas: seq<CasBlock>)

  const ZERO4: Data := [0, 0, 0, 0]
  const ZERO8: Data := [0, 0, 0, 0, 0, 0, 0, 0]
  const ZERO16: Data := [0, 0, 0, 0, 0, 0, 0, 0, 0, 0, 0, 0, 0, 0, 0, 0]
  const ONES8: Data := [255, 255, 255, 255, 255, 255, 255, 255]
  const ONES: Digest := ONES8 + (ONES8 + (ONES8 + ONES8))
  const BOOKEND: Data := ONES + ZERO16

  /** Everything but the header and the footer comes in records of 48 bytes. */
  type Record = b: Data | |b| == 48 witness BOOKEND

  /** The application identifier and the magic sequence. */
  const APPLICATION_ID: Data := [0x48, 0x46, 0x52, 0x65, 0x70, 0x6f, 0x4d, 0x65, 0x74, 0x61, 0x44, 0x61, 0x74, 0x61]
  const MAGIC: Data := [0x55, 0x69, 0x67, 0x45, 0x6a, 0x7b, 0x81, 0x57, 0x83, 0xa5, 0xbd, 0xd9, 0x5c, 0xcd, 0xd1, 0x4a,
    0xa9]

  predicate WithVerification(flags: Word) { flags / 0x8000_0000 % 2 == 1 }

  predicate WithMetadata(flags: Word) { flags / 0x4000_0000 % 2 == 1 }

  // ---------------------------------------------------------------- SHA-256 byte order

  /** Reverses each eight-byte segment. */
  function Transform(h: Digest): (r: Digest)
    ensures forall i :: 0 <= i < 32 ==> r[i] == h[i / 8 * 8 + 7 - i % 8]
  {
    seq(32, i requires 0 <= i < 32 => h[i / 8 * 8 + 7 - i % 8])
  }

  /** The transformation is its own inverse. */
  lemma TransformInvolution(h: Digest)
    ensures Transform(Transform(h)) == h
  {
    forall i | 0 <= i < 32 ensures Transform(Transform(h))[i] == h[i] {
      var j := i / 8 * 8 + 7 - i % 8;
      assert j / 8 == i / 8 && j % 8 == 7 - i % 8;
    }
  }

  method TransformSha256ByteOrder(h: Digest) returns (r: Digest)
    ensures r == Transform(h)
  {
    var a := new U8[32](i => 0);
    for segment := 0 to 4
      invariant forall i :: 0 <= i < 8 * segment ==> a[i] == Transform(h)[i]
    {
      var start := segment * 8;
      for offset := 0 to 8
        invariant forall i :: 0 <= i < start + offset ==> a[i] == Transform(h)[i]
      {
        assert (start + offset) / 8 == segment && (start + offset) % 8 == offset;
        a[start + offset] := h[start + 7 - offset];
      }
    }
    r := a[..];
  }

  // ---------------------------------------------------------------- records

  function EntryBytes(e: FileEntry): Record {
    e.xorb + U32(e.flags) + U32(e.bytes) + U32(e.start) + U32(e.end)
  }

  function ParseEntry(b: Record): FileEntry {
    FileEntry(b[..32], GetU32(b[32..36]), GetU32(b[36..40]), GetU32(b[40..44]), GetU32(b[44..48]))
  }

  function ChunkBytes(e: ChunkEntry): Record {
    e.hash + U32(e.start) + U32(e.bytes) + U32(e.flags) + ZERO4
  }

  function ParseChunk(b: Record): ChunkEntry {
    ChunkEntry(b[..32], GetU32(b[32..36]), GetU32(b[36..40]), GetU32(b[40..44]))
  }

  function HashRecord(h: Digest): Record { h + ZERO16 }

  function ParseHash32(b: Record): Digest { b[..32] }

  lemma EntryRoundTrip(e: FileEntry)
    ensures ParseEntry(EntryBytes(e)) == e
  {
    var b := EntryBytes(e);
    assert b[32..36] == U32(e.flags) && b[36..40] == U32(e.bytes) && b[40..44] == U32(e.start) &&
      b[44..48] == U32(e.end);
    U32RoundTrip(e.flags);
    U32RoundTrip(e.bytes);
    U32RoundTrip(e.start);
    U32RoundTrip(e.end);
  }

  lemma ChunkRoundTrip(e: ChunkEntry)
    ensures ParseChunk(ChunkBytes(e)) == e
  {
    var b := ChunkBytes(e);
    assert b[32..36] == U32(e.start) && b[36..40] == U32(e.bytes) && b[40..44] == U32(e.flags);
    U32RoundTrip(e.start);
    U32RoundTrip(e.bytes);
    U32RoundTrip(e.flags);
  }

  // ---------------------------------------------------------------- lists of records

  /** Records one after the other. */
  function Packed<T>(items: seq<T>, bytes: T -> Record): Data {
    if items == [] then [] else bytes(items[0]) + Packed(items[1..], bytes)
  }

  lemma {:induction false} PackedLength<T>(items: seq<T>, bytes: T -> Record)
    ensures |Packed(items, bytes)| == 48 * |items|
  {
    if items != [] { PackedLength(items[1..], bytes); }
  }

  lemma {:induction false} PackedAt<T>(items: seq<T>, bytes: T -> Record, rest: Data, i: nat)
    requires i < |items|
    ensures |Packed(items, bytes)| == 48 * |items| && (Packed(items, bytes) + rest)[48 * i..48 * i + 48] ==
      bytes(items[i])
  {
    PackedLength(items, bytes);
    var s := Packed(items, bytes) + rest;
    if i == 0 {
      assert s[0..48] == bytes(items[0]);
    } else {
      PackedAt(items[1..], bytes, rest, i - 1);
      var t := Packed(items[1..], bytes) + rest;
      assert s == bytes(items[0]) + t;
      assert s[48 * i..48 * i + 48] == t[48 * (i - 1)..48 * (i - 1) + 48];
    }
  }

  /** The first n records of a stream, parsed. */
  function Parsed<T>(rest: Data, n: nat, parse: Record -> T): (r: seq<T>)
    requires 48 * n <= |rest|
    ensures |r| == n && forall i :: 0 <= i < n ==> r[i] == parse(rest[48 * i..48 * i + 48])
  {
    seq(n, i requires 0 <= i < n => parse(rest[48 * i..48 * i + 48]))
  }

  /** Parsing packed records returns them. */
  lemma PackedRoundTrip<T>(items: seq<T>, bytes: T -> Record, parse: Record -> T, rest: Data)
    requires forall i :: 0 <= i < |items| ==> parse(bytes(items[i])) == items[i]
    ensures |Packed(items, bytes)| == 48 * |items| && Parsed(Packed(items, bytes) + rest, |items|, parse) == items
    ensures (Packed(items, bytes) + rest)[48 * |items|..] == rest
  {
    PackedLength(items, bytes);
    forall i | 0 <= i < |items| ensures Parsed(Packed(items, bytes) + rest, |items|, parse)[i] ==
      items[i] { PackedAt(items, bytes, rest, i); }
  }

  /** Reads n records one by one. */
  method ReadRecords<T>(rest: Data, n: nat, parse: Record -> T) returns (r: Option<seq<T>>)
    ensures r == if 48 * n <= |rest| then Some(Parsed(rest, n, parse)) else None
  {
    var items: seq<T> := [];
    for i := 0 to n
      invariant 48 * i <= |rest| && items == Parsed(rest, i, parse)
    {
      if |rest| < 48 * i + 48 { return None; }
      items := items + [parse(rest[48 * i..48 * i + 48])];
    }
    r := Some(items);
  }

  // ---------------------------------------------------------------- blocks

  function FileHeader(fb: FileBlock): Record { fb.hash + U32(fb.flags) + U32(|fb.entries|) + ZERO8 }

  function MetadataBytes(fb: FileBlock): Data {
    if WithMetadata(fb.flags) && fb.sha.Some? then HashRecord(Transform(fb.sha.value)) else []
  }

  function VerificationBytes(fb: FileBlock): Data {
    if WithVerification(fb.flags) then Packed(fb.verification, HashRecord) else []
  }

  function FileBytes(fb: FileBlock): Data {
    FileHeader(fb) + (Packed(fb.entries, EntryBytes) + (VerificationBytes(fb) + MetadataBytes(fb)))
  }

  function CasHeader(cb: CasBlock): Record {
    cb.hash + U32(cb.flags) + U32(|cb.chunks|) + U32(cb.inCas) + U32(cb.onDisk)
  }

  function CasBytes(cb: CasBlock): Data { CasHeader(cb) + Packed(cb.chunks, ChunkBytes) }

  /** A file block past its header, entries and verification hashes. */
  function ParseMetadata(rest: Data, flags: Word): Option<(Option<Digest>, Data)> {
    if !WithMetadata(flags) then Some((None, rest))
    else if |rest| < 48 then None
    else Some((Some(Transform(ParseHash32(rest[..48]))), rest[48..]))
  }

  function ParseVerification(rest: Data, flags: Word, n: nat): (r: Option<(seq<Digest>, Data)>)
    ensures r.Some? ==> |r.value.1| <= |rest|
  {
    if !WithVerification(flags) then Some(([], rest))
    else if |rest| < 48 * n then None
    else Some((Parsed(rest, n, ParseHash32), rest[48 * n..]))
  }

  function ParseFile(rest: Data): (r: Option<(FileBlock, Data)>)
    ensures r.Some? ==> |r.value.1| < |rest|
  {
    if |rest| < 48 then None else
    var flags, n := GetU32(rest[32..36]), GetU32(rest[36..40]);
    var r1 := rest[48..];
    if |r1| < 48 * n then None else
    match ParseVerification(r1[48 * n..], flags, n)
    case None => None
    case Some(v) =>
      match ParseMetadata(v.1, flags)
      case None => None
      case Some(m) => Some((FileBlock(rest[..32], flags, Parsed(r1, n, ParseEntry), v.0, m.0), m.1))
  }

  function ParseCas(rest: Data): (r: Option<(CasBlock, Data)>)
    ensures r.Some? ==> |r.value.1| < |rest|
  {
    if |rest| < 48 then None else
    var n := GetU32(rest[36..40]);
    var r1 := rest[48..];
    if |r1| < 48 * n then None
    else Some((CasBlock(rest[..32], GetU32(rest[32..36]), Parsed(r1, n, ParseChunk), GetU32(rest[40..44]),
      GetU32(rest[44..48])), r1[48 * n..]))
  }

  /** As many verification hashes as announced, and a count of entries that fits its field. */
  predicate Counted(fb: FileBlock) {
    && |fb.entries| < TWO32
    && (if WithVerification(fb.flags) then |fb.verification| == |fb.entries| else fb.verification == [])
  }

  /** What validation demands of a file block, as far as its bytes go. */
  predicate FileOk(fb: FileBlock) { Counted(fb) && (WithMetadata(fb.flags) <==> fb.sha.Some?) }

  predicate CasOk(cb: CasBlock) { |cb.chunks| < TWO32 }

  lemma MetadataRoundTrip(fb: FileBlock, rest: Data)
    requires FileOk(fb)
    ensures ParseMetadata(MetadataBytes(fb) + rest, fb.flags) == Some((fb.sha, rest))
  {
    if fb.sha.Some? {
      var b := HashRecord(Transform(fb.sha.value));
      assert (b + rest)[..48] == b && (b + rest)[48..] == rest;
      TransformInvolution(fb.sha.value);
    } else {
      assert [] + rest == rest;
    }
  }

  lemma VerificationRoundTrip(fb: FileBlock, rest: Data)
    requires FileOk(fb)
    ensures ParseVerification(VerificationBytes(fb) + rest, fb.flags, |fb.entries|) == Some((fb.verification, rest))
  {
    if WithVerification(fb.flags) {
      PackedRoundTrip(fb.verification, HashRecord, ParseHash32, rest);
    } else {
      assert [] + rest == rest;
    }
  }

  lemma FileHeaderParts(fb: FileBlock, more: Data)
    requires |fb.entries| < TWO32
    ensures var s := FileHeader(fb) + more;
      && |s| >= 48 && s[..32] == fb.hash && GetU32(s[32..36]) == fb.flags && GetU32(s[36..40]) == |fb.entries| &&
        s[48..] == more
  {
    var s := FileHeader(fb) + more;
    assert s[32..36] == U32(fb.flags) && s[36..40] == U32(|fb.entries|);
    U32RoundTrip(fb.flags);
    U32RoundTrip(|fb.entries|);
  }

  /** The parts of a file block make the block. */
  lemma PartsMakeFile(fb: FileBlock, s: Data, a: Data, b: Data, c: Data, rest: Data)
    requires |s| >= 48 && s[..32] == fb.hash && GetU32(s[32..36]) == fb.flags && GetU32(s[36..40]) == |fb.entries|
    requires s[48..] == a && |a| >= 48 * |fb.entries| && Parsed(a, |fb.entries|, ParseEntry) == fb.entries
    requires a[48 * |fb.entries|..] == b
    requires ParseVerification(b, fb.flags, |fb.entries|) == Some((fb.verification, c))
    requires ParseMetadata(c, fb.flags) == Some((fb.sha, rest))
    ensures ParseFile(s) == Some((fb, rest))
  {
  }

  lemma EntriesRoundTrip(entries: seq<FileEntry>, rest: Data)
    ensures var a := Packed(entries, EntryBytes) + rest;
      |a| >= 48 * |entries| && Parsed(a, |entries|, ParseEntry) == entries && a[48 * |entries|..] == rest
  {
    forall i | 0 <= i < |entries| ensures ParseEntry(EntryBytes(entries[i])) == entries[i] {
      EntryRoundTrip(entries[i]);
    }
    PackedRoundTrip(entries, EntryBytes, ParseEntry, rest);
  }

  /** A file block is read back, whatever follows it. */
  lemma FileRoundTrip(fb: FileBlock, rest: Data)
    requires FileOk(fb)
    ensures |FileBytes(fb) + rest| >= 48 && ParseFile(FileBytes(fb) + rest) == Some((fb, rest))
  {
    var c := MetadataBytes(fb) + rest;
    var b := VerificationBytes(fb) + c;
    var a := Packed(fb.entries, EntryBytes) + b;
    assert FileBytes(fb) + rest == FileHeader(fb) + a;
    FileHeaderParts(fb, a);
    EntriesRoundTrip(fb.entries, b);
    VerificationRoundTrip(fb, c);
    MetadataRoundTrip(fb, rest);
    PartsMakeFile(fb, FileHeader(fb) + a, a, b, c, rest);
  }

  lemma CasRoundTrip(cb: CasBlock, rest: Data)
    requires CasOk(cb)
    ensures |CasBytes(cb) + rest| >= 48 && ParseCas(CasBytes(cb) + rest) == Some((cb, rest))
  {
    var a := Packed(cb.chunks, ChunkBytes) + rest;
    var s := CasBytes(cb) + rest;
    assert s == CasHeader(cb) + a;
    assert s[..32] == cb.hash && s[32..36] == U32(cb.flags) && s[36..40] == U32(|cb.chunks|) &&
      s[40..44] == U32(cb.inCas) && s[44..48] == U32(cb.onDisk);
    U32RoundTrip(cb.flags);
    U32RoundTrip(|cb.chunks|);
    U32RoundTrip(cb.inCas);
    U32RoundTrip(cb.onDisk);
    forall i | 0 <= i < |cb.chunks| ensures ParseChunk(ChunkBytes(cb.chunks[i])) ==
      cb.chunks[i] { ChunkRoundTrip(cb.chunks[i]); }
    PackedRoundTrip(cb.chunks, ChunkBytes, ParseChunk, rest);
    assert s[48..] == a;
  }

  // ---------------------------------------------------------------- sections

  /** Blocks up to a record equal to end. */
  function ParseBlocks<T>(rest: Data, end: Record, parse: Data -> Option<(T, Data)>): (r: Option<(seq<T>, Data)>)
    decreases |rest|
  {
    if |rest| < 48 then None
    else if rest[..48] == end then Some(([], rest[48..]))
    else match parse(rest)
      case None => None
      case Some(b) =>
        if |b.1| >= |rest| then None
        else match ParseBlocks(b.1, end, parse) case None => None case Some(m) => Some(([b.0] + m.0, m.1))
  }

  function BlocksBytes<T>(items: seq<T>, bytes: T -> Data): Data {
    if items == [] then [] else bytes(items[0]) + BlocksBytes(items[1..], bytes)
  }

  /** The block starts with its header and is read back, whatever follows it. */
  ghost predicate Readable<T>(x: T, bytes: T -> Data, head: T -> Record, parse: Data -> Option<(T, Data)>) {
    |bytes(x)| >= 48 && bytes(x)[..48] == head(x) && forall more: Data :: parse(bytes(x) + more) == Some((x, more))
  }

  lemma FileReadable(fb: FileBlock)
    requires FileOk(fb)
    ensures Readable(fb, FileBytes, FileHeader, ParseFile)
  {
    forall more: Data ensures ParseFile(FileBytes(fb) + more) == Some((fb, more)) { FileRoundTrip(fb, more); }
    HeadRecord(FileHeader(fb), Packed(fb.entries, EntryBytes) + (VerificationBytes(fb) + MetadataBytes(fb)));
  }

  lemma CasReadable(cb: CasBlock)
    requires CasOk(cb)
    ensures Readable(cb, CasBytes, CasHeader, ParseCas)
  {
    forall more: Data ensures ParseCas(CasBytes(cb) + more) == Some((cb, more)) { CasRoundTrip(cb, more); }
    HeadRecord(CasHeader(cb), Packed(cb.chunks, ChunkBytes));
  }

  lemma HeadRecord(h: Record, rest: Data)
    ensures (h + rest)[..48] == h && (h + rest)[48..] == rest
  {}

  lemma Assoc(a: Data, b: Data, c: Data)
    ensures (a + b) + c == a + (b + c)
  {}

  lemma NextBlock<T>(x: T, more: Data, end: Record, bytes: T -> Data, head: T -> Record,
                     parse: Data -> Option<(T, Data)>)
    requires Readable(x, bytes, head, parse)
    ensures head(x) == end ==> ParseBlocks(bytes(x) + more, end, parse) == Some(([], (bytes(x) + more)[48..]))
    ensures head(x) != end ==>
      ParseBlocks(bytes(x) + more, end, parse) == match ParseBlocks(more, end, parse) case None => None case Some(m) =>
        Some(([x] + m.0, m.1))
  {
    assert (bytes(x) + more)[..48] == bytes(x)[..48];
    assert parse(bytes(x) + more) == Some((x, more));
  }

  /** A section is read back when no header in it equals the end record. */
  lemma {:induction false} BlocksRoundTrip<T>(items: seq<T>, end: Record, rest: Data, bytes: T -> Data,
                                              head: T -> Record, parse: Data -> Option<(T, Data)>)
    requires forall i :: 0 <= i < |items| ==> Readable(items[i], bytes, head, parse) && head(items[i]) != end
    ensures ParseBlocks(BlocksBytes(items, bytes) + (end + rest), end, parse) == Some((items, rest))
  {
    HeadRecord(end, rest);
    if items == [] {
      assert [] + (end + rest) == end + rest;
    } else {
      var more := BlocksBytes(items[1..], bytes) + (end + rest);
      Assoc(bytes(items[0]), BlocksBytes(items[1..], bytes), end + rest);
      BlocksRoundTrip(items[1..], end, rest, bytes, head, parse);
      NextBlock(items[0], more, end, bytes, head, parse);
      assert [items[0]] + items[1..] == items;
    }
  }

  /** A header equal to the end record ends the section early. */
  lemma {:induction false} BlocksCutShort<T>(items: seq<T>, end: Record, rest: Data, bytes: T -> Data,
                                             head: T -> Record, parse: Data -> Option<(T, Data)>, k: nat)
    requires (forall i :: 0 <= i < |items| ==> Readable(items[i], bytes, head, parse)) && k < |items| &&
      head(items[k]) == end
    ensures var r := ParseBlocks(BlocksBytes(items, bytes) + rest, end, parse); r.Some? ==> |r.value.0| <= k
  {
    var more := BlocksBytes(items[1..], bytes) + rest;
    Assoc(bytes(items[0]), BlocksBytes(items[1..], bytes), rest);
    NextBlock(items[0], more, end, bytes, head, parse);
    if head(items[0]) != end { BlocksCutShort(items[1..], end, rest, bytes, head, parse, k - 1); }
  }
}
