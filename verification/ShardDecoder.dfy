/** Reading shards record by record, and checking their structure. */
module ShardDecoder {
  import opened Common
  import opened HashText
  import opened Wire
  import opened ShardFormat
  import opened ShardCodec
  import ShardStream

  // ---------------------------------------------------------------- decoding

  method DecodeFile(rest: Data) returns (r: Option<(FileBlock, Data)>)
    ensures r == ParseFile(rest)
  {
    if |rest| < 48 { return None; }
    var flags, n := GetU32(rest[32..36]), GetU32(rest[36..40]);
    var r1 := rest[48..];
    var entries := ReadRecords(r1, n, ParseEntry);
    if entries.None? { return None; }
    var r2, verification := r1[48 * n..], [];
    if WithVerification(flags) {
      var v := ReadRecords(r2, n, ParseHash32);
      if v.None? { return None; }
      verification, r2 := v.value, r2[48 * n..];
    }
    var sha := None;
    if WithMetadata(flags) {
      if |r2| < 48 { return None; }
      var wire := TransformSha256ByteOrder(ParseHash32(r2[..48]));
      sha, r2 := Some(wire), r2[48..];
    }
    r := Some((FileBlock(rest[..32], flags, entries.value, verification, sha), r2));
  }

  method DecodeCas(rest: Data) returns (r: Option<(CasBlock, Data)>)
    ensures r == ParseCas(rest)
  {
    if |rest| < 48 { return None; }
    var n := GetU32(rest[36..40]);
    var chunks := ReadRecords(rest[48..], n, ParseChunk);
    if chunks.None? { return None; }
    r := Some((CasBlock(rest[..32], GetU32(rest[32..36]), chunks.value, GetU32(rest[40..44]), GetU32(rest[44..48])),
      rest[48..][48 * n..]));
  }

  /** Blocks already read, before those still to come. */
  function Prepend<T>(items: seq<T>, more: Option<(seq<T>, Data)>): Option<(seq<T>, Data)> {
    if more.None? then None else Some((items + more.value.0, more.value.1))
  }

  lemma Nothing<T>(more: Option<(seq<T>, Data)>)
    ensures Prepend([], more) == more
  {
    if more.Some? { assert [] + more.value.0 == more.value.0; }
  }

  lemma NoMore<T>(items: seq<T>, rest: Data)
    ensures Prepend(items, Some(([], rest))) == Some((items, rest))
  {
    assert items + [] == items;
  }

  lemma PrependOne<T>(items: seq<T>, x: T, more: Option<(seq<T>, Data)>)
    ensures Prepend(items + [x], more) == Prepend(items, Prepend([x], more))
  {
    if more.Some? { assert items + ([x] + more.value.0) == (items + [x]) + more.value.0; }
  }

  method DecodeFiles(data: Data, end: Record) returns (r: Option<(seq<FileBlock>, Data)>)
    ensures r == ParseBlocks(data, end, ParseFile)
  {
    var files: seq<FileBlock>, rest := [], data;
    ghost var all := ParseBlocks(data, end, ParseFile);
    Nothing(all);
    while true
      invariant all == Prepend(files, ParseBlocks(rest, end, ParseFile))
      decreases |rest|
    {
      if |rest| < 48 { return None; }
      if rest[..48] == end {
        NoMore(files, rest[48..]);
        return Some((files, rest[48..]));
      }
      var fb := DecodeFile(rest);
      if fb.None? { return None; }
      PrependOne(files, fb.value.0, ParseBlocks(fb.value.1, end, ParseFile));
      files, rest := files + [fb.value.0], fb.value.1;
    }
  }

  method DecodeCasBlocks(data: Data, end: Record) returns (r: Option<(seq<CasBlock>, Data)>)
    ensures r == ParseBlocks(data, end, ParseCas)
  {
    var blocks: seq<CasBlock>, rest := [], data;
    ghost var all := ParseBlocks(data, end, ParseCas);
    Nothing(all);
    while true
      invariant all == Prepend(blocks, ParseBlocks(rest, end, ParseCas))
      decreases |rest|
    {
      if |rest| < 48 { return None; }
      if rest[..48] == end {
        NoMore(blocks, rest[48..]);
        return Some((blocks, rest[48..]));
      }
      var cb := DecodeCas(rest);
      if cb.None? { return None; }
      PrependOne(blocks, cb.value.0, ParseBlocks(cb.value.1, end, ParseCas));
      blocks, rest := blocks + [cb.value.0], cb.value.1;
    }
  }

  method DecodeShard(data: Data, withFooter: bool) returns (r: Option<(Shard, Option<Footer>)>)
    ensures r == Decode(data, withFooter)
  {
    if |data| < 48 || data[15..32] != MAGIC || GetU64(data[32..40]) != 2 { return None; }
    var footerSize := GetU64(data[40..48]);
    if withFooter && footerSize == 0 { return None; }
    if !withFooter && footerSize != 0 { return None; }
    var files := DecodeFiles(data[48..], BOOKEND);
    if files.None? { return None; }
    var cas := DecodeCasBlocks(files.value.1, BOOKEND);
    if cas.None? { return None; }
    var footer := ParseTail(cas.value.1, footerSize);
    if footer.None? { return None; }
    r := Some((Shard(files.value.0, cas.value.0), footer.value));
  }

  /** Encodes a shard, reading the encoder with buffers of any sizes, and decodes what was read. Once the buffers
      suffice for all of it, the same files and CAS blocks and the footer come back if and only if no header looks like
      a bookend. */
  method Lossless(s: Shard, footer: Option<Footer>, sizes: seq<nat>) returns (r: Option<(Shard, Option<Footer>)>)
    requires Encodable(s) && (footer.Some? ==> footer.value.version == 1)
    ensures Sum(sizes) >= |Encoding(s, footer)| ==>
      && (NoBookend(s, BOOKEND) <==> r.Some? && r.value.0 == s)
      && (NoBookend(s, BOOKEND) ==> r.value.1 == if footer.None? then None
        else Some(Placed(footer.value, 48, CasStart(s), FooterStart(s))))
  {
    var bytes := ShardStream.ReadWith(s, footer, sizes);
    if Sum(sizes) >= |Encoding(s, footer)| {
      assert bytes == Encoding(s, footer);
      DecodeEncoding(s, footer);
    }
    r := DecodeShard(bytes, footer.Some?);
  }

  // ---------------------------------------------------------------- validation

  /** The sizes of chunks [lo, hi), as 32-bit additions leave it. */
  function Sum32(chunks: seq<ChunkEntry>, lo: nat, hi: nat): nat
    requires lo <= hi <= |chunks|
    decreases hi
  {
    if lo == hi then 0 else (Sum32(chunks, lo, hi - 1) + (chunks[hi - 1].bytes as int)) % TWO32
  }

  ghost predicate CasValid(cb: CasBlock) {
    && cb.flags == 0 && cb.inCas == Sum32(cb.chunks, 0, |cb.chunks|)
    && forall j :: 0 <= j < |cb.chunks| ==>
      cb.chunks[j].flags % 0x8000_0000 == 0 && cb.chunks[j].start == Sum32(cb.chunks, 0, j)
  }

  /** Entries may name CAS blocks the shard does not carry; the others must lie within them and add up. */
  ghost predicate EntryValid(e: FileEntry, cas: seq<CasBlock>) {
    && e.flags == 0 && e.start < e.end
    && forall k :: 0 <= k < |cas| && cas[k].hash == e.xorb ==>
      e.end <= |cas[k].chunks| % TWO32 && e.bytes == Sum32(cas[k].chunks, e.start, e.end)
  }

  ghost predicate FileValid(fb: FileBlock, cas: seq<CasBlock>) {
    && fb.flags % 0x4000_0000 == 0
    && (if WithVerification(fb.flags) then |fb.verification| == |fb.entries| else fb.verification == [])
    && (WithMetadata(fb.flags) <==> fb.sha.Some?)
    && forall j :: 0 <= j < |fb.entries| ==> EntryValid(fb.entries[j], cas)
  }

  ghost predicate Distinct(cas: seq<CasBlock>) { forall i, j :: 0 <= i < j < |cas| ==> cas[i].hash != cas[j].hash }

  ghost predicate ShardValid(s: Shard) {
    && Distinct(s.cas) && (forall i :: 0 <= i < |s.cas| ==> CasValid(s.cas[i]))
    && (forall i :: 0 <= i < |s.files| ==> FileValid(s.files[i], s.cas))
  }

  method ValidateCas(cb: CasBlock) returns (ok: bool)
    ensures ok <==> CasValid(cb)
  {
    if cb.flags != 0 { return false; }
    var offset: int := 0;
    for j := 0 to |cb.chunks|
      invariant offset == Sum32(cb.chunks, 0, j)
      invariant forall i :: 0 <= i < j ==>
        cb.chunks[i].flags % 0x8000_0000 == 0 && cb.chunks[i].start == Sum32(cb.chunks, 0, i)
    {
      if cb.chunks[j].flags % 0x8000_0000 != 0 || cb.chunks[j].start != offset { return false; }
      offset := (offset + (cb.chunks[j].bytes as int)) % TWO32;
    }
    ok := offset == cb.inCas;
  }

  /** Where each CAS hash is, unless one repeats. */
  method IndexCas(cas: seq<CasBlock>) returns (index: Option<map<Digest, nat>>)
    ensures index.Some? <==> Distinct(cas)
    ensures index.Some? ==> forall h :: h in index.value ==> index.value[h] < |cas| && cas[index.value[h]].hash == h
    ensures index.Some? ==> forall i :: 0 <= i < |cas| ==> cas[i].hash in index.value
  {
    var m: map<Digest, nat> := map[];
    for i := 0 to |cas|
      invariant Distinct(cas[..i])
      invariant forall h :: h in m ==> m[h] < i && cas[m[h]].hash == h
      invariant forall j :: 0 <= j < i ==> cas[j].hash in m
    {
      if cas[i].hash in m {
        assert cas[m[cas[i].hash]].hash == cas[i].hash;
        return None;
      }
      m := m[cas[i].hash := i];
    }
    assert cas[..|cas|] == cas;
    index := Some(m);
  }

  method ValidateEntry(e: FileEntry, cas: seq<CasBlock>, index: map<Digest, nat>) returns (ok: bool)
    requires Distinct(cas) && (forall h :: h in index ==> index[h] < |cas| && cas[index[h]].hash == h) && forall i ::
      0 <= i < |cas| ==> cas[i].hash in index
    ensures ok <==> EntryValid(e, cas)
  {
    if e.flags != 0 || e.end <= e.start { return false; }
    if e.xorb !in index { return true; }
    var k := index[e.xorb];
    var chunks := cas[k].chunks;
    assert forall i :: 0 <= i < |cas| && cas[i].hash == e.xorb ==> i == k;
    if e.end > |chunks| % TWO32 { return false; }
    var total: int := 0;
    var lo: int, hi: int := e.start, e.end;
    for i := lo to hi
      invariant total == Sum32(chunks, lo, i)
    {
      total := (total + (chunks[i].bytes as int)) % TWO32;
    }
    ok := total == e.bytes;
  }

  method ValidateFile(fb: FileBlock, cas: seq<CasBlock>, index: map<Digest, nat>) returns (ok: bool)
    requires Distinct(cas) && (forall h :: h in index ==> index[h] < |cas| && cas[index[h]].hash == h) && forall i ::
      0 <= i < |cas| ==> cas[i].hash in index
    ensures ok <==> FileValid(fb, cas)
  {
    if fb.flags % 0x4000_0000 != 0 { return false; }
    if WithVerification(fb.flags) {
      if |fb.verification| != |fb.entries| { return false; }
    } else if |fb.verification| != 0 {
      return false;
    }
    if WithMetadata(fb.flags) != fb.sha.Some? { return false; }
    for j := 0 to |fb.entries|
      invariant forall i :: 0 <= i < j ==> EntryValid(fb.entries[i], cas)
    {
      var valid := ValidateEntry(fb.entries[j], cas, index);
      if !valid { return false; }
    }
    ok := true;
  }

  method Validate(s: Shard) returns (ok: bool)
    ensures ok <==> ShardValid(s)
  {
    var index := IndexCas(s.cas);
    if index.None? { return false; }
    for i := 0 to |s.cas|
      invariant forall j :: 0 <= j < i ==> CasValid(s.cas[j])
    {
      var valid := ValidateCas(s.cas[i]);
      if !valid { return false; }
    }
    for i := 0 to |s.files|
      invariant forall j :: 0 <= j < i ==> FileValid(s.files[j], s.cas)
    {
      var valid := ValidateFile(s.files[i], s.cas, index.value);
      if !valid { return false; }
    }
    ok := true;
  }

  /** A valid shard whose counts and size fit their fields can be encoded, exactly in its announced size. */
  lemma ValidIsEncodable(s: Shard)
    requires ShardValid(s) && FooterStart(s) < TWO64
    requires (forall i :: 0 <= i < |s.files| ==> |s.files[i].entries| < TWO32) &&
      (forall i :: 0 <= i < |s.cas| ==> |s.cas[i].chunks| < TWO32)
    ensures Encodable(s) && forall i :: 0 <= i < |s.files| ==> !Hollow(s.files[i])
  {
    forall i | 0 <= i < |s.files| ensures FileOk(s.files[i]) &&
      !Hollow(s.files[i]) { assert FileValid(s.files[i], s.cas); }
  }

  /** A shard with a CAS block of no chunks whose hash is all ones passes validation, and does not survive being
      encoded: its header is taken for the bookend. */
  lemma MarkerIsLost(footer: Option<Footer>)
    requires footer.Some? ==> footer.value.version == 1
    ensures var s := Shard([], [CasBlock(ONES, 0, [], 0, 0)]);
      && ShardValid(s) && Encodable(s) && !NoBookend(s, BOOKEND)
      && var r := Decode(Encoding(s, footer), footer.Some?); !(r.Some? && r.value.0 == s)
  {
    var cb := CasBlock(ONES, 0, [], 0, 0);
    var s := Shard([], [cb]);
    MarkerHeader();
    assert s.cas[0] == cb && CasHeader(s.cas[0]) == BOOKEND;
    assert CasBytes(cb) == CasHeader(cb) + [];
    assert BlocksBytes(s.cas, CasBytes) == CasBytes(cb) + [];
    DecodeEncoding(s, footer);
  }

  lemma MarkerHeader()
    ensures CasHeader(CasBlock(ONES, 0, [], 0, 0)) == BOOKEND
  {
    assert U32(0) == ZERO4 && ZERO4 + ZERO4 + ZERO4 + ZERO4 == ZERO16;
  }

  /** A file that announces metadata it does not have is announced 48 bytes longer than it is encoded. */
  lemma HollowIsShorter(hash: Digest)
    ensures var s := Shard([FileBlock(hash, 0x4000_0000, [], [], None)], []);
      FooterStart(s) < TWO64 && ExactSize(s, false) == |Encoding(s, None)| + 48
  {
    var fb := FileBlock(hash, 0x4000_0000, [], [], None);
    var s := Shard([fb], []);
    assert Hollow(fb) && s.files[0] == fb && s.files[1..] == [];
    FilesSize(s.files);
    CasSizes(s.cas);
    assert HollowCount(s.files) == 1 + HollowCount([]);
    assert SizesOf(s.files, FileSize) == FileSize(fb) + SizesOf([], FileSize);
  }
}
