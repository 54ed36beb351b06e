/** Whole shards: header, sections and footer; the decoder, the exact size and the streaming encoder. */
module ShardCodec {
  import opened Common
  import opened HashText
  import opened Wire
  import opened ShardFormat

  /** The 200-byte footer. */
  datatype Footer = Footer(
    version: Long, fileInfo: Long, casInfo: Long, fileLookup: Long, fileLookups: Long, casLookup: Long,
      casLookups: Long,
    chunkLookup: Long, chunkLookups: Long, key: Digest, created: Long, expiry: Long, reserved: Record,
    storedOnDisk: Long, materialized: Long, stored: Long, footerOffset: Long)

  const FOOTER_SIZE: Long := 200

  // ---------------------------------------------------------------- the footer

  function Longs(vs: seq<Long>): Data { if vs == [] then [] else U64(vs[0]) + Longs(vs[1..]) }

  lemma {:induction false} LongsAt(vs: seq<Long>, rest: Data, i: nat)
    requires i < |vs|
    ensures |Longs(vs)| == 8 * |vs| && GetU64((Longs(vs) + rest)[8 * i..]) == vs[i]
  {
    LongsLength(vs);
    var s := Longs(vs) + rest;
    if i == 0 {
      assert s == U64(vs[0]) + (Longs(vs[1..]) + rest);
      U64Prefix(vs[0], Longs(vs[1..]) + rest);
      assert s[0..] == s;
    } else {
      LongsAt(vs[1..], rest, i - 1);
      assert s[8 * i..] == (Longs(vs[1..]) + rest)[8 * (i - 1)..];
    }
  }

  lemma {:induction false} LongsLength(vs: seq<Long>)
    ensures |Longs(vs)| == 8 * |vs|
  {
    if vs != [] { LongsLength(vs[1..]); }
  }

  function First(f: Footer): (r: seq<Long>)
    ensures |r| == 9
  {
    [f.version, f.fileInfo, f.casInfo, f.fileLookup, f.fileLookups, f.casLookup, f.casLookups, f.chunkLookup,
      f.chunkLookups]
  }

  function Times(f: Footer): (r: seq<Long>)
    ensures |r| == 2
  {
    [f.created, f.expiry]
  }

  function Totals(f: Footer): (r: seq<Long>)
    ensures |r| == 4
  {
    [f.storedOnDisk, f.materialized, f.stored, f.footerOffset]
  }

  function FooterBytes(f: Footer): Data {
    Longs(First(f)) + (f.key + (Longs(Times(f)) + (f.reserved + Longs(Totals(f)))))
  }

  function LongAt(b: Data, i: nat): Long
    requires 8 * i + 8 <= |b|
  {
    GetU64(b[8 * i..])
  }

  function ParseFooter(b: Data): Option<Footer>
    requires |b| >= 200
  {
    var c, d := b[104..], b[168..];
    if LongAt(b, 0) != 1 then None
    else Some(Footer(LongAt(b, 0), LongAt(b, 1), LongAt(b, 2), LongAt(b, 3), LongAt(b, 4), LongAt(b, 5), LongAt(b, 6),
      LongAt(b, 7), LongAt(b, 8),
                     b[72..104], LongAt(c, 0), LongAt(c, 1), b[120..168], LongAt(d, 0), LongAt(d, 1), LongAt(d, 2),
                       LongAt(d, 3)))
  }

  lemma FooterLength(f: Footer)
    ensures |FooterBytes(f)| == 200
  {
    LongsLength(First(f));
    LongsLength(Times(f));
    LongsLength(Totals(f));
  }

  /** A footer of the supported version is read back. */
  lemma FooterRoundTrip(f: Footer, rest: Data)
    requires f.version == 1
    ensures |FooterBytes(f)| == 200 && ParseFooter(FooterBytes(f) + rest) == Some(f)
  {
    LongsLength(First(f));
    LongsLength(Times(f));
    LongsLength(Totals(f));
    var e := Longs(Totals(f)) + rest;
    var d := f.reserved + e;
    var c := Longs(Times(f)) + d;
    var a := f.key + c;
    var s := FooterBytes(f) + rest;
    FooterParts(Longs(First(f)), f.key, Longs(Times(f)), f.reserved, Longs(Totals(f)), rest);
    forall i | 0 <= i < 9 ensures GetU64(s[8 * i..]) == First(f)[i] { LongsAt(First(f), a, i); }
    forall i | 0 <= i < 2 ensures GetU64(s[104..][8 * i..]) == Times(f)[i] { LongsAt(Times(f), d, i); }
    forall i | 0 <= i < 4 ensures GetU64(s[168..][8 * i..]) == Totals(f)[i] { LongsAt(Totals(f), rest, i); }
    FirstFields(f, s);
    TimeFields(f, s[104..]);
    TotalFields(f, s[168..]);
  }

  lemma FooterParts(a: Data, b: Digest, c: Data, d: Record, e: Data, rest: Data)
    requires |a| == 72 && |c| == 16 && |e| == 32
    ensures var s := (a + (b + (c + (d + e)))) + rest;
      && |s| == 200 + |rest| && s == a + (b + (c + (d + (e + rest)))) && s[72..104] == b &&
        s[104..] == c + (d + (e + rest))
      && s[120..168] == d && s[168..] == e + rest
  {}

  lemma FirstFields(f: Footer, s: Data)
    requires |s| >= 72 && forall i :: 0 <= i < 9 ==> GetU64(s[8 * i..]) == First(f)[i]
    ensures LongAt(s, 0) == f.version && LongAt(s, 1) == f.fileInfo && LongAt(s, 2) == f.casInfo &&
      LongAt(s, 3) == f.fileLookup && LongAt(s, 4) == f.fileLookups
    ensures LongAt(s, 5) == f.casLookup && LongAt(s, 6) == f.casLookups && LongAt(s, 7) == f.chunkLookup &&
      LongAt(s, 8) == f.chunkLookups
  {}

  lemma TimeFields(f: Footer, s: Data)
    requires |s| >= 16 && forall i :: 0 <= i < 2 ==> GetU64(s[8 * i..]) == Times(f)[i]
    ensures LongAt(s, 0) == f.created && LongAt(s, 1) == f.expiry
  {}

  lemma TotalFields(f: Footer, s: Data)
    requires |s| >= 32 && forall i :: 0 <= i < 4 ==> GetU64(s[8 * i..]) == Totals(f)[i]
    ensures LongAt(s, 0) == f.storedOnDisk && LongAt(s, 1) == f.materialized && LongAt(s, 2) == f.stored &&
      LongAt(s, 3) == f.footerOffset
  {}

  // ---------------------------------------------------------------- whole shards

  function HeaderBytes(footerSize: Long): Record { APPLICATION_ID + [0] + MAGIC + U64(2) + U64(footerSize) }

  /** Header, files, bookend, CAS blocks, bookend. */
  function Body(s: Shard, footerSize: Long): Data {
    HeaderBytes(footerSize) + (BlocksBytes(s.files, FileBytes) + (BOOKEND + (BlocksBytes(s.cas, CasBytes) + BOOKEND)))
  }

  function CasStart(s: Shard): nat { 96 + |BlocksBytes(s.files, FileBytes)| }

  function FooterStart(s: Shard): nat { 144 + |BlocksBytes(s.files, FileBytes)| + |BlocksBytes(s.cas, CasBytes)| }

  /** The footer with the offsets of the sections; empty lookup tables start at the footer. */
  function Placed(f: Footer, fileInfo: Long, casInfo: Long, footerOffset: Long): Footer {
    f.(fileInfo := fileInfo, casInfo := casInfo, footerOffset := footerOffset,
       fileLookup := if f.fileLookups == 0 then footerOffset else f.fileLookup,
       casLookup := if f.casLookups == 0 then footerOffset else f.casLookup,
       chunkLookup := if f.chunkLookups == 0 then footerOffset else f.chunkLookup)
  }

  /** The bytes of a shard, with a footer if one is given. */
  function Encoding(s: Shard, footer: Option<Footer>): Data
    requires FooterStart(s) < TWO64
  {
    if footer.None? then Body(s, 0)
    else Body(s, FOOTER_SIZE) + FooterBytes(Placed(footer.value, 48, CasStart(s), FooterStart(s)))
  }

  /** The offsets a footer carries are where the sections start. */
  lemma OffsetsTrue(s: Shard, footer: Footer)
    requires FooterStart(s) < TWO64
    ensures var e, f := Encoding(s, Some(footer)), Placed(footer, 48, CasStart(s), FooterStart(s));
      && f.fileInfo <= f.casInfo <= f.footerOffset == |e| - |FooterBytes(f)|
      && e[f.fileInfo..f.casInfo] == BlocksBytes(s.files, FileBytes) + BOOKEND
      && e[f.casInfo..f.footerOffset] == BlocksBytes(s.cas, CasBytes) + BOOKEND
      && e[f.footerOffset..] == FooterBytes(f)
  {
    var f := Placed(footer, 48, CasStart(s), FooterStart(s));
    SectionsAt(HeaderBytes(FOOTER_SIZE), BlocksBytes(s.files, FileBytes), BOOKEND, BlocksBytes(s.cas, CasBytes),
      FooterBytes(f));
  }

  lemma SectionsAt(a: Record, b: Data, end: Record, c: Data, d: Data)
    ensures var e := (a + (b + (end + (c + end)))) + d; var k, n := 96 + |b|, 144 + |b| + |c|;
      && |e| == n + |d| && e[48..k] == b + end && e[k..n] == c + end && e[n..] == d
  {}

  // ---------------------------------------------------------------- decoding

  /** The file and CAS sections. */
  function ParseSections(rest: Data, end: Record): Option<(Shard, Data)> {
    match ParseBlocks(rest, end, ParseFile)
    case None => None
    case Some(f) =>
      match ParseBlocks(f.1, end, ParseCas)
      case None => None
      case Some(c) => Some((Shard(f.0, c.0), c.1))
  }

  /** A 64-bit pattern as a signed integer. */
  function Signed64(v: int): int { var r := v % TWO64; if r < TWO63 then r else r - TWO64 }

  /** How much of a footer longer than 200 bytes is skipped: its size less 200 in signed arithmetic, nothing if that is
      negative. */
  function Skipped(footerSize: Long): nat {
    if footerSize <= 200 then 0 else Max(Signed64(Signed64(footerSize) - 200), 0)
  }

  /** The subtraction wraps around just above two to the 63rd, where more is skipped than any stream has; beyond,
      nothing is. */
  lemma SkippedIs(footerSize: Long)
    ensures Skipped(footerSize) == if 200 < footerSize < TWO63 + 200 then footerSize - 200 else 0
  {
  }

  function ParseTail(rest: Data, footerSize: Long): Option<Option<Footer>> {
    if footerSize == 0 then Some(None)
    else if footerSize < 200 || |rest| < 200 then None
    else match ParseFooter(rest)
      case None => None
      case Some(f) => if |rest| - 200 < Skipped(footerSize) then None else Some(Some(f))
  }

  function Decode(data: Data, withFooter: bool): Option<(Shard, Option<Footer>)> {
    if |data| < 48 || data[15..32] != MAGIC || GetU64(data[32..40]) != 2 then None else
    var footerSize := GetU64(data[40..48]);
    if withFooter != (footerSize != 0) then None else DecodeBody(data[48..], footerSize)
  }

  /** Everything past the header. */
  function DecodeBody(body: Data, footerSize: Long): Option<(Shard, Option<Footer>)> {
    match ParseSections(body, BOOKEND)
    case None => None
    case Some(p) => match ParseTail(p.1, footerSize) case None => None case Some(f) => Some((p.0, f))
  }

  lemma DecodePastHeader(footerSize: Long, body: Data)
    ensures Decode(HeaderBytes(footerSize) + body, footerSize != 0) == DecodeBody(body, footerSize)
  {
    HeaderParts(footerSize, body);
  }

  lemma HeaderParts(footerSize: Long, rest: Data)
    ensures var s := HeaderBytes(footerSize) + rest;
      s[15..32] == MAGIC && GetU64(s[32..40]) == 2 && GetU64(s[40..48]) == footerSize && s[48..] == rest
  {
    var s := HeaderBytes(footerSize) + rest;
    assert s[32..40] == U64(2) && s[40..48] == U64(footerSize);
    U64RoundTrip(2);
    U64RoundTrip(footerSize);
  }

  ghost predicate BlocksOk(s: Shard) {
    (forall i :: 0 <= i < |s.files| ==> FileOk(s.files[i])) && (forall i :: 0 <= i < |s.cas| ==> CasOk(s.cas[i]))
  }

  ghost predicate Encodable(s: Shard) { BlocksOk(s) && FooterStart(s) < TWO64 }

  /** No block header looks like the end record. */
  ghost predicate NoBookend(s: Shard, end: Record) {
    (forall i :: 0 <= i < |s.files| ==> FileHeader(s.files[i]) != end) &&
      (forall i :: 0 <= i < |s.cas| ==> CasHeader(s.cas[i]) != end)
  }

  lemma AllReadable(s: Shard)
    requires BlocksOk(s)
    ensures forall i :: 0 <= i < |s.files| ==> Readable(s.files[i], FileBytes, FileHeader, ParseFile)
    ensures forall i :: 0 <= i < |s.cas| ==> Readable(s.cas[i], CasBytes, CasHeader, ParseCas)
  {
    forall i | 0 <= i < |s.files|
      ensures Readable(s.files[i], FileBytes, FileHeader, ParseFile) { FileReadable(s.files[i]); }
    forall i | 0 <= i < |s.cas| ensures Readable(s.cas[i], CasBytes, CasHeader, ParseCas) { CasReadable(s.cas[i]); }
  }

  lemma SectionsRoundTrip(s: Shard, end: Record, rest: Data)
    requires BlocksOk(s) && NoBookend(s, end)
    ensures ParseSections(BlocksBytes(s.files, FileBytes) + (end + (BlocksBytes(s.cas, CasBytes) + (end + rest))),
      end) == Some((s, rest))
  {
    AllReadable(s);
    BlocksRoundTrip(s.cas, end, rest, CasBytes, CasHeader, ParseCas);
    BlocksRoundTrip(s.files, end, BlocksBytes(s.cas, CasBytes) + (end + rest), FileBytes, FileHeader, ParseFile);
  }

  lemma FilesDiffer(s: Shard, end: Record, tail: Data, k: nat)
    requires Encodable(s) && k < |s.files| && FileHeader(s.files[k]) == end
    ensures var r := ParseSections(BlocksBytes(s.files, FileBytes) + tail, end); r.Some? ==> r.value.0 != s
  {
    AllReadable(s);
    BlocksCutShort(s.files, end, tail, FileBytes, FileHeader, ParseFile, k);
  }

  lemma CasDiffer(s: Shard, end: Record, tail: Data, k: nat)
    requires Encodable(s) && (forall i :: 0 <= i < |s.files| ==> FileHeader(s.files[i]) != end) && k < |s.cas| &&
      CasHeader(s.cas[k]) == end
    ensures var r := ParseSections(BlocksBytes(s.files, FileBytes) + (end + (BlocksBytes(s.cas, CasBytes) + tail)),
      end); r.Some? ==> r.value.0 != s
  {
    AllReadable(s);
    BlocksRoundTrip(s.files, end, BlocksBytes(s.cas, CasBytes) + tail, FileBytes, FileHeader, ParseFile);
    BlocksCutShort(s.cas, end, tail, CasBytes, CasHeader, ParseCas, k);
  }

  /** With a header that looks like the end record, something else comes back. */
  lemma SectionsDiffer(s: Shard, end: Record, rest: Data)
    requires Encodable(s) && !NoBookend(s, end)
    ensures var r := ParseSections(BlocksBytes(s.files, FileBytes)
      + (end + (BlocksBytes(s.cas, CasBytes) + (end + rest))), end); r.Some? ==> r.value.0 != s
  {
    if k :| 0 <= k < |s.files| && FileHeader(s.files[k]) == end {
      FilesDiffer(s, end, end + (BlocksBytes(s.cas, CasBytes) + (end + rest)), k);
    } else {
      var k :| 0 <= k < |s.cas| && CasHeader(s.cas[k]) == end;
      CasDiffer(s, end, end + rest, k);
    }
  }

  /** What a decoder sees of an encoding past its header. */
  lemma EncodingSplits(s: Shard, footer: Option<Footer>)
    requires FooterStart(s) < TWO64
    ensures var e := Encoding(s, footer);
      var tail := if footer.None? then [] else FooterBytes(Placed(footer.value, 48, CasStart(s), FooterStart(s)));
      e == HeaderBytes(if footer.None? then 0 else FOOTER_SIZE)
        + (BlocksBytes(s.files, FileBytes) + (BOOKEND + (BlocksBytes(s.cas, CasBytes) + (BOOKEND + tail))))
  {
    var tail := if footer.None? then [] else FooterBytes(Placed(footer.value, 48, CasStart(s), FooterStart(s)));
    Regroup(HeaderBytes(if footer.None? then 0 else FOOTER_SIZE), BlocksBytes(s.files, FileBytes), BOOKEND,
      BlocksBytes(s.cas, CasBytes), tail);
  }

  lemma Regroup(a: Data, b: Data, end: Data, c: Data, tail: Data)
    ensures (a + (b + (end + (c + end)))) + tail == a + (b + (end + (c + (end + tail)))) &&
      (tail == [] ==> (a + (b + (end + (c + end)))) + tail == a + (b + (end + (c + end))))
  {}

  /** For every shard whose blocks are consistent, decoding its encoding returns the same files and CAS blocks, and its
      footer, if and only if no block header equals the bookend. */
  lemma DecodeEncoding(s: Shard, footer: Option<Footer>)
    requires Encodable(s) && (footer.Some? ==> footer.value.version == 1)
    ensures var r := Decode(Encoding(s, footer), footer.Some?);
      && (NoBookend(s, BOOKEND) <==> r.Some? && r.value.0 == s)
      && (NoBookend(s, BOOKEND) ==> r.value.1 == if footer.None? then None
        else Some(Placed(footer.value, 48, CasStart(s), FooterStart(s))))
  {
    var size: Long := if footer.None? then 0 else FOOTER_SIZE;
    var tail := if footer.None? then [] else FooterBytes(Placed(footer.value, 48, CasStart(s), FooterStart(s)));
    var rest := BlocksBytes(s.files, FileBytes) + (BOOKEND + (BlocksBytes(s.cas, CasBytes) + (BOOKEND + tail)));
    EncodingSplits(s, footer);
    DecodePastHeader(size, rest);
    if NoBookend(s, BOOKEND) {
      SectionsRoundTrip(s, BOOKEND, tail);
      TailRoundTrip(s, footer, size, tail);
    } else {
      SectionsDiffer(s, BOOKEND, tail);
    }
  }

  lemma TailRoundTrip(s: Shard, footer: Option<Footer>, size: Long, tail: Data)
    requires FooterStart(s) < TWO64 && (footer.Some? ==> footer.value.version == 1) &&
      size == if footer.None? then 0 else FOOTER_SIZE
    requires tail == if footer.None? then [] else FooterBytes(Placed(footer.value, 48, CasStart(s), FooterStart(s)))
    ensures ParseTail(tail, size) ==
      Some(if footer.None? then None else Some(Placed(footer.value, 48, CasStart(s), FooterStart(s))))
  {
    if footer.Some? {
      FooterRoundTrip(Placed(footer.value, 48, CasStart(s), FooterStart(s)), []);
      assert tail + [] == tail;
    }
  }

  /** Shards no header of which equals the bookend have different bodies. */
  lemma BodyInjective(a: Shard, b: Shard)
    requires BlocksOk(a) && NoBookend(a, BOOKEND) && BlocksOk(b) && NoBookend(b, BOOKEND) && Body(a, 0) == Body(b, 0)
    ensures a == b
  {
    BodySections(a);
    BodySections(b);
  }

  lemma BodySections(s: Shard)
    requires BlocksOk(s) && NoBookend(s, BOOKEND)
    ensures ParseSections(Body(s, 0)[48..], BOOKEND) == Some((s, []))
  {
    Regroup(HeaderBytes(0), BlocksBytes(s.files, FileBytes), BOOKEND, BlocksBytes(s.cas, CasBytes), []);
    var rest := BlocksBytes(s.files, FileBytes) + (BOOKEND + (BlocksBytes(s.cas, CasBytes) + (BOOKEND + [])));
    HeadRecord(HeaderBytes(0), rest);
    SectionsRoundTrip(s, BOOKEND, []);
  }

  // ---------------------------------------------------------------- the exact size

  function FileSize(fb: FileBlock): nat {
    48 + 48 * |fb.entries| + (if WithVerification(fb.flags) then 48 * |fb.verification| else 0)
      + (if WithMetadata(fb.flags) then 48 else 0)
  }

  /** A file that announces metadata it does not have. */
  predicate Hollow(fb: FileBlock) { WithMetadata(fb.flags) && fb.sha.None? }

  lemma FileSizeIs(fb: FileBlock)
    ensures FileSize(fb) == |FileBytes(fb)| + if Hollow(fb) then 48 else 0
  {
    PackedLength(fb.entries, EntryBytes);
    PackedLength(fb.verification, HashRecord);
  }

  function SizesOf<T>(items: seq<T>, size: T -> nat): nat {
    if items == [] then 0 else size(items[0]) + SizesOf(items[1..], size)
  }

  function CasSize(cb: CasBlock): nat { 48 + 48 * |cb.chunks| }

  function ExactSize(s: Shard, withFooter: bool): nat {
    48 + SizesOf(s.files, FileSize) + 48 + SizesOf(s.cas, CasSize) + 48 + if withFooter then 200 else 0
  }

  lemma {:induction false} SizesSnoc<T>(items: seq<T>, size: T -> nat, i: nat)
    requires i < |items|
    ensures SizesOf(items[..i + 1], size) == SizesOf(items[..i], size) + size(items[i])
  {
    if i > 0 {
      SizesSnoc(items[1..], size, i - 1);
      assert items[..i + 1][1..] == items[1..][..i] && items[..i][1..] == items[1..][..i - 1];
    } else {
      assert items[..1][1..] == [] && items[..0] == [];
    }
  }

  method EncodedSize(s: Shard, withFooter: bool) returns (size: nat)
    ensures size == ExactSize(s, withFooter)
  {
    size := 48;
    for i := 0 to |s.files|
      invariant size == 48 + SizesOf(s.files[..i], FileSize)
    {
      SizesSnoc(s.files, FileSize, i);
      var fb := s.files[i];
      size := size + 48 + |fb.entries| * 48;
      if WithVerification(fb.flags) { size := size + |fb.verification| * 48; }
      if WithMetadata(fb.flags) { size := size + 48; }
    }
    assert s.files[..|s.files|] == s.files;
    size := size + 48;
    ghost var files := size;
    for i := 0 to |s.cas|
      invariant size == files + SizesOf(s.cas[..i], CasSize)
    {
      SizesSnoc(s.cas, CasSize, i);
      size := size + 48 + |s.cas[i].chunks| * 48;
    }
    assert s.cas[..|s.cas|] == s.cas;
    size := size + 48;
    if withFooter { size := size + 200; }
  }

  function HollowCount(fs: seq<FileBlock>): nat {
    if fs == [] then 0 else (if Hollow(fs[0]) then 1 else 0) + HollowCount(fs[1..])
  }

  lemma {:induction false} FilesSize(fs: seq<FileBlock>)
    ensures SizesOf(fs, FileSize) == |BlocksBytes(fs, FileBytes)| + 48 * HollowCount(fs)
    ensures HollowCount(fs) == 0 <==> forall i :: 0 <= i < |fs| ==> !Hollow(fs[i])
  {
    if fs != [] {
      FilesSize(fs[1..]);
      FileSizeIs(fs[0]);
      assert (forall i :: 0 <= i < |fs| ==> !Hollow(fs[i])) ==> forall i :: 0 <= i < |fs[1..]| ==> !Hollow(fs[1..][i]);
      assert (forall i :: 0 <= i < |fs[1..]| ==> !Hollow(fs[1..][i])) && !Hollow(fs[0]) ==>
        forall i :: 0 <= i < |fs| ==> !Hollow(fs[i]) by {
        assert forall i :: 0 < i < |fs| ==> fs[i] == fs[1..][i - 1];
      }
    }
  }

  lemma {:induction false} CasSizes(cs: seq<CasBlock>)
    ensures SizesOf(cs, CasSize) == |BlocksBytes(cs, CasBytes)|
  {
    if cs != [] {
      CasSizes(cs[1..]);
      PackedLength(cs[0].chunks, ChunkBytes);
    }
  }

  /** The announced size is the number of bytes encoded if and only if no file announces metadata it lacks. */
  lemma SizeIsExact(s: Shard, footer: Option<Footer>)
    requires FooterStart(s) < TWO64
    ensures ExactSize(s, footer.Some?) == |Encoding(s, footer)| <==> forall i :: 0 <= i < |s.files| ==>
      !Hollow(s.files[i])
  {
    FilesSize(s.files);
    CasSizes(s.cas);
    if footer.Some? { FooterLength(Placed(footer.value, 48, CasStart(s), FooterStart(s))); }
  }
}
