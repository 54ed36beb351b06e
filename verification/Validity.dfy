/** The shards built for stored files pass the structural check. */
module Validity {
  import opened Common
  import opened HashText
  import opened Wire
  import opened ShardFormat
  import opened Store
  import opened Backend
  import opened Ingest
  import D = ShardDecoder

  // ---------------------------------------------------------------- blocks

  lemma {:induction false} Sum32Is(chunks: seq<ChunkEntry>, lo: nat, hi: nat)
    requires lo <= hi <= |chunks|
    ensures IsMod32(D.Sum32(chunks, lo, hi), Sum(EntrySizes(chunks)[lo..hi]))
    decreases hi
  {
    if lo < hi {
      Sum32Is(chunks, lo, hi - 1);
      SumSnoc(EntrySizes(chunks), lo, hi - 1);
      ModAgain(D.Sum32(chunks, lo, hi - 1), Sum(EntrySizes(chunks)[lo..hi - 1]), chunks[hi - 1].bytes);
    }
  }

  lemma ModAgain(a: nat, v: nat, b: nat)
    requires IsMod32(a, v)
    ensures (a + b) % TWO32 == (v + b) % TWO32
  {
  }

  lemma EntryFlags(e: ChunkEntry, c: ChunkInfo, first: set<Digest>)
    requires IsEntry(e, c, first)
    ensures e.flags % 0x8000_0000 == 0
  {
  }

  lemma EntryFlagged(chunks: seq<ChunkInfo>, first: set<Digest>, cb: CasBlock, j: nat)
    requires IsBlock(chunks, first, cb) && j < |cb.chunks|
    ensures cb.chunks[j].flags % 0x8000_0000 == 0
  {
    var places :| ListsFresh(chunks, first, cb.hash, |chunks|, cb.chunks, places);
    EntryFlags(cb.chunks[j], chunks[places[j]], first);
  }

  lemma EntryStart(entries: seq<ChunkEntry>, j: nat)
    requires LaidOut(entries) && j < |entries|
    ensures entries[j].start == D.Sum32(entries, 0, j)
  {
    Sum32Is(entries, 0, j);
    assert EntrySizes(entries)[0..j] == EntrySizes(entries)[..j];
  }

  lemma EntriesTotal(entries: seq<ChunkEntry>, total: Word)
    requires IsMod32(total, Sum(EntrySizes(entries)))
    ensures total == D.Sum32(entries, 0, |entries|)
  {
    var n, sizes := |entries|, EntrySizes(entries);
    Sum32Is(entries, 0, n);
    WholeSum(sizes);
    SameMod(total, D.Sum32(entries, 0, n), Sum(sizes), Sum(sizes[0..n]));
  }

  lemma WholeSum(sizes: seq<nat>)
    ensures Sum(sizes[0..|sizes|]) == Sum(sizes)
  {
    assert sizes[0..|sizes|] == sizes;
  }

  lemma SameMod(a: nat, b: nat, v: nat, w: nat)
    requires IsMod32(a, v) && IsMod32(b, w) && v == w
    ensures a == b
  {
  }

  lemma BlockValid(chunks: seq<ChunkInfo>, first: set<Digest>, cb: CasBlock)
    requires IsBlock(chunks, first, cb)
    ensures D.CasValid(cb)
  {
    EntriesTotal(cb.chunks, cb.inCas);
    forall j | 0 <= j < |cb.chunks|
      ensures cb.chunks[j].flags % 0x8000_0000 == 0 && cb.chunks[j].start == D.Sum32(cb.chunks, 0, j)
    {
      EntryFlagged(chunks, first, cb, j);
      EntryStart(cb.chunks, j);
    }
  }

  lemma BlocksDistinct(chunks: seq<ChunkInfo>, first: set<Digest>, cas: seq<CasBlock>)
    requires AreBlocks(chunks, first, cas)
    ensures D.Distinct(cas)
  {
    forall i, j | 0 <= i < j < |cas| ensures cas[i].hash != cas[j].hash {
      assert TextBefore(cas[i].hash, cas[j].hash);
    }
  }

  // ---------------------------------------------------------------- files

  lemma {:induction false} TermDenotes(pr: Protocol, ts: seq<FileEntry>, xs: map<Digest, Stored<Bytes>>, t: nat)
    requires Denote(pr, ts, xs).Some? && t < |ts|
    ensures TermChunks(SliceOf(pr), ts[t], xs).Some?
  {
    if t > 0 { TermDenotes(pr, ts[1..], xs, t - 1); }
  }

  /** A term that denotes chunks lies within the block of its xorb and adds up. */
  lemma TermInBlock(pr: Protocol, e: FileEntry, xs: map<Digest, Stored<Bytes>>, cb: CasBlock)
    requires TermChunks(SliceOf(pr), e, xs).Some? && CasMatches(pr, cb, xs) && cb.hash == e.xorb
    requires ValidXorb(pr, cb.hash, xs[cb.hash].value)
    ensures e.start < e.end <= |cb.chunks| % TWO32 && e.bytes == D.Sum32(cb.chunks, e.start, e.end)
  {
    var cs := pr.decode(xs[e.xorb].value).value;
    assert TotalSize(cs[e.start..e.end]) == e.bytes;
    SliceAddsUp(cb.chunks, cs, e.start, e.end, e.bytes);
  }

  lemma SliceAddsUp(entries: seq<ChunkEntry>, cs: Xorb, from: nat, upTo: nat, total: Word)
    requires from <= upTo <= |cs| == |entries| && forall j :: 0 <= j < |cs| ==> entries[j].bytes == |cs[j]|
    requires TotalSize(cs[from..upTo]) == total
    ensures total == D.Sum32(entries, from, upTo)
  {
    assert Lengths(cs[from..upTo]) == EntrySizes(entries)[from..upTo];
    Sum32Is(entries, from, upTo);
    SameMod(total, D.Sum32(entries, from, upTo), total, Sum(EntrySizes(entries)[from..upTo]));
  }

  lemma EntryIsValid(pr: Protocol, e: FileEntry, xs: map<Digest, Stored<Bytes>>, cas: seq<CasBlock>)
    requires TermChunks(SliceOf(pr), e, xs).Some? && e.flags == 0
    requires forall b :: 0 <= b < |cas| ==>
      CasMatches(pr, cas[b], xs) && ValidXorb(pr, cas[b].hash, xs[cas[b].hash].value)
    ensures D.EntryValid(e, cas)
  {
    forall k | 0 <= k < |cas| && cas[k].hash == e.xorb
      ensures e.end <= |cas[k].chunks| % TWO32 && e.bytes == D.Sum32(cas[k].chunks, e.start, e.end)
    {
      TermInBlock(pr, e, xs, cas[k]);
    }
  }

  lemma FileIsValid(pr: Protocol, file: FileInfo, chunks: seq<ChunkInfo>, fb: FileBlock, xs: map<Digest, Stored<Bytes>>,
                    cas: seq<CasBlock>)
    requires forall i :: 0 <= i < |file.indices| ==> file.indices[i] < |chunks|
    requires IsDescription(pr, file, chunks, fb) && Denote(pr, fb.entries, xs).Some?
    requires forall b :: 0 <= b < |cas| ==>
      CasMatches(pr, cas[b], xs) && ValidXorb(pr, cas[b].hash, xs[cas[b].hash].value)
    ensures D.FileValid(fb, cas)
  {
    var hashes, runs :| AreTerms(Pick(chunks, file.indices), fb.entries, hashes, runs) &&
      AreVerified(pr, hashes, fb.verification);
    forall j | 0 <= j < |fb.entries| ensures D.EntryValid(fb.entries[j], cas) {
      assert TermAt(fb.entries, hashes, runs, j);
      TermDenotes(pr, fb.entries, xs, j);
      EntryIsValid(pr, fb.entries[j], xs, cas);
    }
  }

  // ---------------------------------------------------------------- validation, spelled out

  /** A block without reserved flags that lists its chunks one behind the other and carries their total. */
  ghost predicate IsValidBlock(cb: CasBlock) {
    && cb.flags == 0 && IsMod32(cb.inCas, Sum(EntrySizes(cb.chunks))) && LaidOut(cb.chunks)
    && forall j :: 0 <= j < |cb.chunks| ==> cb.chunks[j].flags == 0 || cb.chunks[j].flags == 0x8000_0000
  }

  /** A term that names chunks and, where the shard lists them, lies within the list and adds up. */
  ghost predicate IsValidTerm(e: FileEntry, cas: seq<CasBlock>) {
    e.flags == 0 && e.start < e.end && forall k :: 0 <= k < |cas| && cas[k].hash == e.xorb ==> Spans(e, cas[k].chunks)
  }

  ghost predicate Spans(e: FileEntry, chunks: seq<ChunkEntry>) {
    && e.start < e.end && IsBelow32(e.end, |chunks|)
    && e.end <= |chunks| && IsMod32(e.bytes, Sum(EntrySizes(chunks)[e.start..e.end]))
  }

  predicate IsBelow32(v: nat, n: nat) { v <= n % 0x1_0000_0000 }

  /** A file with a verification hash for each term if bit 31 of its flags says so, a SHA-256 if bit 30 does, and no
      other flags. */
  ghost predicate IsValidFile(fb: FileBlock, cas: seq<CasBlock>) {
    && fb.flags in {0, 0x4000_0000, 0x8000_0000, 0xC000_0000}
    && |fb.verification| == (if fb.flags >= 0x8000_0000 then |fb.entries| else 0)
    && (fb.sha.Some? <==> fb.flags in {0x4000_0000, 0xC000_0000})
    && forall j :: 0 <= j < |fb.entries| ==> IsValidTerm(fb.entries[j], cas)
  }

  lemma FlagValues(flags: Word)
    ensures flags % 0x8000_0000 == 0 <==> flags in {0, 0x8000_0000}
    ensures flags % 0x4000_0000 == 0 <==> flags in {0, 0x4000_0000, 0x8000_0000, 0xC000_0000}
  {
  }

  lemma BlockValidIs(cb: CasBlock)
    ensures D.CasValid(cb) <==> IsValidBlock(cb)
  {
    TotalIs(cb.chunks, cb.inCas);
    forall j | 0 <= j < |cb.chunks|
      ensures cb.chunks[j].start == D.Sum32(cb.chunks, 0, j) <==>
        IsMod32(cb.chunks[j].start, Sum(EntrySizes(cb.chunks)[..j]))
      ensures cb.chunks[j].flags % 0x8000_0000 == 0 <==> cb.chunks[j].flags in {0, 0x8000_0000}
    {
      FlagValues(cb.chunks[j].flags);
      StartIs(cb.chunks, j);
    }
  }

  lemma TotalIs(entries: seq<ChunkEntry>, total: Word)
    ensures total == D.Sum32(entries, 0, |entries|) <==> IsMod32(total, Sum(EntrySizes(entries)))
  {
    if IsMod32(total, Sum(EntrySizes(entries))) {
      EntriesTotal(entries, total);
    } else if total == D.Sum32(entries, 0, |entries|) {
      Sum32Is(entries, 0, |entries|);
      WholeSum(EntrySizes(entries));
    }
  }

  lemma StartIs(entries: seq<ChunkEntry>, j: nat)
    requires j < |entries|
    ensures entries[j].start == D.Sum32(entries, 0, j) <==> IsMod32(entries[j].start, Sum(EntrySizes(entries)[..j]))
  {
    Sum32Is(entries, 0, j);
    assert EntrySizes(entries)[0..j] == EntrySizes(entries)[..j];
  }

  lemma TermValidIs(e: FileEntry, cas: seq<CasBlock>)
    ensures D.EntryValid(e, cas) <==> IsValidTerm(e, cas)
  {
    forall k | 0 <= k < |cas| && e.start < e.end && e.end <= |cas[k].chunks|
      ensures IsMod32(D.Sum32(cas[k].chunks, e.start, e.end), Sum(EntrySizes(cas[k].chunks)[e.start..e.end]))
    {
      Sum32Is(cas[k].chunks, e.start, e.end);
    }
  }

  lemma FileValidIs(fb: FileBlock, cas: seq<CasBlock>)
    ensures D.FileValid(fb, cas) <==> IsValidFile(fb, cas)
  {
    FlagValues(fb.flags);
    forall j | 0 <= j < |fb.entries| ensures D.EntryValid(fb.entries[j], cas) <==> IsValidTerm(fb.entries[j], cas) {
      TermValidIs(fb.entries[j], cas);
    }
  }

  /** What validation accepts. */
  lemma ShardValidIs(s: Shard)
    ensures D.ShardValid(s) <==>
      && (forall i, j :: 0 <= i < j < |s.cas| ==> s.cas[i].hash != s.cas[j].hash)
      && (forall i :: 0 <= i < |s.cas| ==> IsValidBlock(s.cas[i]))
      && (forall i :: 0 <= i < |s.files| ==> IsValidFile(s.files[i], s.cas))
  {
    forall i | 0 <= i < |s.cas| ensures D.CasValid(s.cas[i]) <==> IsValidBlock(s.cas[i]) { BlockValidIs(s.cas[i]); }
    forall i | 0 <= i < |s.files| ensures D.FileValid(s.files[i], s.cas) <==> IsValidFile(s.files[i], s.cas) {
      FileValidIs(s.files[i], s.cas);
    }
  }

  // ---------------------------------------------------------------- shards

  /** The shard describes these files over these chunks. */
  ghost predicate Builds(pr: Protocol, files: seq<FileInfo>, chunks: seq<ChunkInfo>, first: set<Digest>, sh: Shard)
    requires forall f, i :: 0 <= f < |files| && 0 <= i < |files[f].indices| ==> files[f].indices[i] < |chunks|
  {
    && AreBlocks(chunks, first, sh.cas) && |sh.files| == |files|
    && forall f :: 0 <= f < |files| ==> IsDescription(pr, files[f], chunks, sh.files[f])
  }

  /** Over stored xorbs that its blocks match and its terms can be read from, a built shard passes validation. */
  lemma BuiltIsValid(pr: Protocol, files: seq<FileInfo>, chunks: seq<ChunkInfo>, first: set<Digest>, sh: Shard,
                     xs: map<Digest, Stored<Bytes>>)
    requires forall f, i :: 0 <= f < |files| && 0 <= i < |files[f].indices| ==> files[f].indices[i] < |chunks|
    requires Builds(pr, files, chunks, first, sh)
    requires forall b :: 0 <= b < |sh.cas| ==>
      CasMatches(pr, sh.cas[b], xs) && ValidXorb(pr, sh.cas[b].hash, xs[sh.cas[b].hash].value)
    requires forall f :: 0 <= f < |files| ==> Denote(pr, sh.files[f].entries, xs).Some?
    ensures D.ShardValid(sh)
  {
    BlocksDistinct(chunks, first, sh.cas);
    forall b | 0 <= b < |sh.cas| ensures D.CasValid(sh.cas[b]) { BlockValid(chunks, first, sh.cas[b]); }
    forall f | 0 <= f < |sh.files| ensures D.FileValid(sh.files[f], sh.cas) {
      FileIsValid(pr, files[f], chunks, sh.files[f], xs, sh.cas);
    }
  }

  /** Stamping its files with their SHA-256 keeps a shard valid. */
  lemma PreparedIsValid(pr: Protocol, sh: Shard, xs: map<Digest, Stored<Bytes>>)
    requires D.ShardValid(sh) && Acceptable(pr, sh, xs)
    ensures D.ShardValid(Prepared(pr, sh, xs))
  {
    var p := Prepared(pr, sh, xs);
    forall f | 0 <= f < |p.files| ensures D.FileValid(p.files[f], p.cas) {
      assert D.FileValid(sh.files[f], sh.cas);
      StampedFlags(sh.files[f].flags);
    }
  }

  lemma StampedFlags(flags: Word)
    requires flags % 0x4000_0000 == 0
    ensures SetMetadata(flags) % 0x4000_0000 == 0
  {
  }
}
