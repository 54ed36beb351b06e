/** From stored xorbs to delivered bytes: what a decode pipeline finds in a store, and that a file stored is the file
    read. */
module Delivery {
  import opened Common
  import opened HashText
  import opened Wire
  import opened ShardFormat
  import opened Store
  import opened Backend
  import opened XorbStream
  import opened Deployed
  import C = Chunker
  import G = GearTable
  import P = Pipeline
  import PF = PutFile
  import R = ReconstructedFile
  import X = XorbFormat

  /** A frame as the fetcher takes it: its header must be readable and account for all of it. */
  function Taken(f: Data): Option<P.Packed> {
    if |f| < 8 || |f| > 8 + MAX_CHUNK_SIZE then None else
    match X.ParseChunkHeader(f[..8])
    case None => None
    case Some(h) => if h.compressed + 8 == |f| then Some(P.Packed(h.size, h.kind != X.NONE, f)) else None
  }

  /** What a worker makes of a packed chunk. */
  function Unpacked(c: X.Codec, p: P.Packed): Option<Bytes> {
    match FrameRead(c, p.body) case None => None case Some(x) => if |x| == p.size then Some(x) else None
  }

  /** A frame that can be taken and unpacked is one that can be read by itself. */
  lemma TakenUnpacks(c: X.Codec, f: Data, x: Data)
    requires FrameRead(c, f) == Some(x)
    ensures Taken(f).Some? && Unpacked(c, Taken(f).value) == Some(x)
  {
  }

  /** The k-th frame of a term, by the offset table of its xorb. */
  function FrameOfTerm(xs: map<Digest, Stored<Bytes>>, t: FileEntry, k: nat): Option<P.Packed> {
    if t.xorb !in xs then None else FrameIn(xs[t.xorb].value, t.start, t.end, t.start + k)
  }

  /** Frame i of a stream, on behalf of a reader of chunks [from, to). */
  function FrameIn(data: Data, from: nat, to: nat, i: nat): Option<P.Packed> {
    if RangeBytes(data, from, to).None? then None else
    match RangeBytes(data, i, i + 1) case None => None case Some(f) => Taken(f)
  }

  function Segments(ts: seq<FileEntry>): (r: seq<P.Segment>)
    ensures |r| == |ts| && forall i :: 0 <= i < |ts| ==> r[i] == P.Segment(ts[i].bytes, Max(ts[i].end - ts[i].start, 0))
  {
    seq(|ts|, i requires 0 <= i < |ts| => P.Segment(ts[i].bytes, Max(ts[i].end - ts[i].start, 0)))
  }

  /** What a pipeline over the terms of a file has to do with a store. */
  function ConfigOf(c: X.Codec, xs: map<Digest, Stored<Bytes>>, ts: seq<FileEntry>, workers: nat): P.Config {
    P.Config(Segments(ts), workers,
             (i: nat, k: nat) => if i < |ts| then FrameOfTerm(xs, ts[i], k) else None,
             (p: P.Packed) => Unpacked(c, p))
  }

  lemma ConfigWorks(c: X.Codec, xs: map<Digest, Stored<Bytes>>, ts: seq<FileEntry>, workers: nat)
    requires workers > 0
    ensures R.Workable(ConfigOf(c, xs, ts, workers))
  {
  }

  // ---------------------------------------------------------------- a stored file can be delivered

  /** The term lies in a legible xorb, holds these chunks there, and declares their size. */
  ghost predicate Present(c: X.Codec, xs: map<Digest, Stored<Bytes>>, t: FileEntry, cs: Xorb) {
    && t.xorb in xs && Decoded(c, xs[t.xorb].value).Some? && Legible(xs[t.xorb].value)
    && t.start < t.end <= |Decoded(c, xs[t.xorb].value).value|
    && cs == Decoded(c, xs[t.xorb].value).value[t.start..t.end] && TotalSize(cs) == t.bytes
  }

  /** A legible stream's frames can be fetched and unpacked one by one, and its ranges located. */
  lemma LegibleFrames(c: X.Codec, data: Data, from: nat, to: nat, i: nat)
    requires Decoded(c, data).Some? && Legible(data) && from <= i < to <= |Decoded(c, data).value|
    ensures var f := FrameIn(data, from, to, i); f.Some? && Unpacked(c, f.value) == Some(Decoded(c, data).value[i])
  {
    var all := Decoded(c, data).value;
    var fs, tail := DecodedStream(c, data);
    LegibleIs(c, data, fs, all, tail);
    TrueRange(c, data, fs, all, tail, BUFFER_SIZE, from, to);
    TrueFrame(c, data, fs, all, tail, i);
    TakenUnpacks(c, RangeBytes(data, i, i + 1).value, all[i]);
  }

  lemma PresentFrame(c: X.Codec, xs: map<Digest, Stored<Bytes>>, t: FileEntry, cs: Xorb, k: nat)
    requires Present(c, xs, t, cs) && k < |cs|
    ensures var f := FrameOfTerm(xs, t, k); f.Some? && Unpacked(c, f.value) == Some(cs[k])
  {
    LegibleFrames(c, xs[t.xorb].value, t.start, t.end, t.start + k);
  }

  /** The chunks read of a term: none of one that declares no bytes. */
  function ReadPart(t: FileEntry, cs: Xorb): Xorb { if t.bytes == 0 then [] else cs }

  lemma PresentTerm(c: X.Codec, xs: map<Digest, Stored<Bytes>>, ts: seq<FileEntry>, workers: nat, i: nat, cs: Xorb)
    requires i < |ts| && Present(c, xs, ts[i], cs)
    ensures R.HoldsTerm(ConfigOf(c, xs, ts, workers), i, ReadPart(ts[i], cs))
    ensures Flatten(ReadPart(ts[i], cs)) == Flatten(cs)
  {
    FlattenLength(cs);
    if ts[i].bytes > 0 {
      var cfg := ConfigOf(c, xs, ts, workers);
      forall k | 0 <= k < |cs| ensures cfg.frame(i, k).Some? && cfg.decode(cfg.frame(i, k).value) == Some(cs[k]) {
        PresentFrame(c, xs, ts[i], cs, k);
      }
    }
  }

  /** The chunks of each term. */
  ghost predicate PresentAll(c: X.Codec, xs: map<Digest, Stored<Bytes>>, ts: seq<FileEntry>, css: seq<Xorb>) {
    |css| == |ts| && forall i {:trigger css[i]} :: 0 <= i < |ts| ==> Present(c, xs, ts[i], css[i])
  }

  ghost function ReadParts(ts: seq<FileEntry>, css: seq<Xorb>): (r: seq<Xorb>)
    requires |css| == |ts|
    ensures |r| == |ts| && forall i :: 0 <= i < |ts| ==> r[i] == ReadPart(ts[i], css[i])
  {
    seq(|ts|, i requires 0 <= i < |ts| => ReadPart(ts[i], css[i]))
  }

  lemma {:induction false} SameBytes(a: seq<Xorb>, b: seq<Xorb>)
    requires |a| == |b| && forall i :: 0 <= i < |a| ==> Flatten(a[i]) == Flatten(b[i])
    ensures Flatten(Flatten(a)) == Flatten(Flatten(b))
  {
    if a != [] {
      SameBytes(a[1..], b[1..]);
      FlattenAppend(a[0], Flatten(a[1..]));
      FlattenAppend(b[0], Flatten(b[1..]));
    }
  }

  lemma PresentIsStored(c: X.Codec, xs: map<Digest, Stored<Bytes>>, ts: seq<FileEntry>, workers: nat, css: seq<Xorb>)
    requires PresentAll(c, xs, ts, css)
    ensures R.Stores(ConfigOf(c, xs, ts, workers), Flatten(Flatten(css)))
  {
    var parts := ReadParts(ts, css);
    forall i | 0 <= i < |ts|
      ensures R.HoldsTerm(ConfigOf(c, xs, ts, workers), i, parts[i]) && Flatten(parts[i]) == Flatten(css[i])
    {
      PresentTerm(c, xs, ts, workers, i, css[i]);
    }
    assert R.HoldsParts(ConfigOf(c, xs, ts, workers), parts);
    SameBytes(parts, css);
  }

  /** Terms that read back, in a store of legible xorbs, are present. */
  lemma {:induction false} ReconstructedIsPresent(k: Keys, o: Objects, ts: seq<FileEntry>) returns (css: seq<Xorb>)
    requires XorbsIntact(ProtocolOf(k), o) && AllLegible(o.xorbs) && Denote(ProtocolOf(k), ts, o.xorbs).Some?
    ensures PresentAll(CodecOf(k), o.xorbs, ts, css) && Denote(ProtocolOf(k), ts, o.xorbs) == Some(Flatten(css))
    decreases |ts|
  {
    css := [];
    if ts != [] {
      var rest := ReconstructedIsPresent(k, o, ts[1..]);
      var first := TermChunks(SliceOf(ProtocolOf(k)), ts[0], o.xorbs).value;
      assert Legible(o.xorbs[ts[0].xorb].value);
      css := [first] + rest;
      assert css[1..] == rest;
      forall i | 0 <= i < |ts| ensures Present(CodecOf(k), o.xorbs, ts[i], css[i]) {
        if i > 0 { assert ts[1..][i - 1] == ts[i] && css[i] == rest[i - 1]; }
      }
    }
  }

  /** A file whose terms denote content, in a store of legible xorbs, can be delivered. */
  lemma StoredFileIsDeliverable(k: Keys, o: Objects, ts: seq<FileEntry>, workers: nat, cs: Xorb)
    requires XorbsIntact(ProtocolOf(k), o) && AllLegible(o.xorbs) && Denote(ProtocolOf(k), ts, o.xorbs) == Some(cs)
    ensures R.Stores(ConfigOf(CodecOf(k), o.xorbs, ts, workers), Flatten(cs))
  {
    var css := ReconstructedIsPresent(k, o, ts);
    PresentIsStored(CodecOf(k), o.xorbs, ts, workers, css);
  }

  // ---------------------------------------------------------------- there and back

  /** What may come of the pipelines of any file. */
  ghost predicate AnyRuns(runs: P.Config -> (nat, nat) -> R.Stream) {
    forall cfg {:trigger runs(cfg)} :: R.Possible(cfg, runs(cfg))
  }

  /** Opens the file with the given terms and reads all of it at once. */
  method ReadFile(k: Keys, st: Storage, ts: seq<FileEntry>, workers: nat, runs: P.Config -> (nat, nat) -> R.Stream,
                  ghost cs: Xorb)
    returns (out: Bytes, r: R.Outcome)
    requires st.Valid() && st.pr == ProtocolOf(k) && AllLegible(st.o.xorbs) && workers > 0 && AnyRuns(runs)
    requires Denote(st.pr, ts, st.o.xorbs) == Some(cs)
    ensures var cfg := ConfigOf(CodecOf(k), st.o.xorbs, ts, workers);
      R.ReadAs(cfg, runs(cfg)(0, R.FirstTerm(cfg)), Flatten(cs), out, r)
  {
    var cfg := ConfigOf(CodecOf(k), st.o.xorbs, ts, workers);
    assert Integrity(st.pr, st.o);
    StoredFileIsDeliverable(k, st.o, ts, workers, cs);
    ConfigWorks(CodecOf(k), st.o.xorbs, ts, workers);
    assert R.Possible(cfg, runs(cfg));
    out, r := R.ReadAll(cfg, runs(cfg), Flatten(cs));
  }

  /** The first block of a file in a shard. */
  method FindFile(sh: Shard, d: Digest) returns (i: nat)
    requires HasFile(sh, d)
    ensures i < |sh.files| && sh.files[i].hash == d
  {
    i := 0;
    while sh.files[i].hash != d
      invariant i < |sh.files| && forall j :: 0 <= j < i ==> sh.files[j].hash != d
      decreases |sh.files| - i
    {
      i := i + 1;
    }
  }

  /** The file blocks of the shard a file hash is indexed under. */
  function FilesUnder(o: Objects, d: Digest): seq<FileBlock> {
    if FileKey(d) in o.index && o.index[FileKey(d)] in o.shards then o.shards[o.index[FileKey(d)]].value.files else []
  }

  /** What is read of a file block through the pipeline that is started first. */
  ghost predicate ReadThrough(k: Keys, o: Objects, f: FileBlock, workers: nat,
                              runs: P.Config -> (nat, nat) -> R.Stream, cs: Xorb, out: Bytes, r: R.Outcome) {
    var cfg := ConfigOf(CodecOf(k), o.xorbs, f.entries, workers);
    R.ReadAs(cfg, runs(cfg)(0, R.FirstTerm(cfg)), Flatten(cs), out, r)
  }

  /** Looks a file up by its hash and reads it: whatever the threads of its pipeline do, and whichever reads of the
      storage fail, what comes is the file from its start, as far as the pipeline delivers; and without a failure it is
      all of the file. */
  method ReadStored(k: Keys, st: Storage, d: Digest, workers: nat, runs: P.Config -> (nat, nat) -> R.Stream,
                    ghost cs: Xorb)
    returns (out: Bytes, r: R.Outcome)
    requires st.Valid() && st.pr == ProtocolOf(k) && AllLegible(st.o.xorbs) && workers > 0 && AnyRuns(runs)
    requires PF.ReadsBack(st.pr, st.o, d, cs)
    ensures exists f :: f in FilesUnder(st.o, d) && f.hash == d && ReadThrough(k, st.o, f, workers, runs, cs, out, r)
  {
    var sh := st.ShardByName(FileKey(d));
    var i := FindFile(sh.value, d);
    assert Integrity(st.pr, st.o);
    AllStraightIfLegible(k, st.o);
    StraightTermsRebuild(st.pr, sh.value.files[i].entries, st.o.xorbs);
    assert sh.value.files[i] in FilesUnder(st.o, d);
    out, r := ReadFile(k, st, sh.value.files[i].entries, workers, runs, cs);
  }
}
