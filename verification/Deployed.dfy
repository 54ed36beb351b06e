/** The store with the formats it is deployed with: xorb streams, Merkle roots, shard bytes. Only the primitive hash
    functions and LZ4 are parameters, and results assume of the hash functions only that they do not collide on what
    is at hand. */
module Deployed {
  import opened Common
  import opened HashText
  import opened Wire
  import opened ShardFormat
  import opened Store
  import opened Backend
  import opened PutFile
  import opened Upload
  import opened XorbStream
  import C = Chunker
  import G = GearTable
  import M = Merkle
  import S = ShardCodec
  import Ingest
  import Sweep
  import X = XorbFormat
  import P = Planning

  /** The keyed hashes of chunks, of tree nodes and of file roots, SHA-256, the verification hash, and LZ4. */
  datatype Keys = Keys(
    leaf: Data -> Digest,
    node: string -> Digest,
    last: Digest -> Digest,
    sha: Data -> Digest,
    verification: seq<Digest> -> Digest,
    compress: Data -> Option<Data>,
    decompress: Data -> Option<Data>)

  function Nodes(list: seq<(Digest, nat)>): (r: seq<M.Node>)
    ensures |r| == |list| && forall i :: 0 <= i < |list| ==> r[i] == M.Node(list[i].0, list[i].1 % TWO64)
  {
    seq(|list|, i requires 0 <= i < |list| => M.Node(list[i].0, list[i].1 % TWO64))
  }

  function Zip(hashes: seq<Digest>, sizes: seq<nat>): (r: seq<(Digest, nat)>)
    ensures |hashes| == |sizes| ==> |r| == |sizes| && forall i :: 0 <= i < |sizes| ==> r[i] == (hashes[i], sizes[i])
  {
    seq(Min(|hashes|, |sizes|), i requires 0 <= i < |hashes| && i < |sizes| => (hashes[i], sizes[i]))
  }

  function CodecOf(k: Keys): X.Codec {
    X.Codec(k.compress, k.decompress, k.leaf,
            (hashes: seq<Digest>, sizes: seq<nat>) => M.Root(k.node, Nodes(Zip(hashes, sizes))))
  }

  const NONCE: Data := [0, 0, 0, 0]

  function ProtocolOf(k: Keys): Protocol {
    var c := CodecOf(k);
    Protocol(k.leaf,
             (list: seq<(Digest, nat)>) => M.Root(k.node, Nodes(list)),
             (list: seq<(Digest, nat)>) => M.FileRoot(k.node, k.last, Nodes(list)),
             k.sha,
             (sh: Shard) => k.sha(S.Body(sh, 0)),
             k.verification,
             (cs: seq<Data>) => X.Encoded(c, cs, true, NONCE),
             (data: Data) => Kept(c, data),
             (data: Data) => Decoded(c, data),
             (data: Data, from: nat, to: nat) => Span(c, data, from, to))
  }

  // ---------------------------------------------------------------- no collision among what is hashed

  function Leaves(k: Keys, cs: Xorb): (r: seq<M.Node>)
    ensures |r| == |cs| && forall i :: 0 <= i < |cs| ==> r[i].hash == k.leaf(cs[i])
  {
    Nodes(ChunkList(ProtocolOf(k), cs))
  }

  /** Every string hashed for the trees over the chunk lists. */
  ghost function TreeInputs(k: Keys, lists: set<Xorb>): set<string> {
    set cs, s | cs in lists && s in M.Inputs(k.node, Leaves(k, cs)) :: s
  }

  /** No collision of chunk or node hashes, or between them, and no zero, among all that is hashed for the trees over
      the chunk lists. */
  ghost predicate TreesApart(k: Keys, lists: set<Xorb>) {
    && Injective(k.leaf, ChunksOf(lists)) && M.CollisionFree(k.node, TreeInputs(k, lists))
    && (forall c, s :: c in ChunksOf(lists) && s in TreeInputs(k, lists) ==> k.leaf(c) != k.node(s))
    && (forall c :: c in ChunksOf(lists) ==> k.leaf(c) != ZERO_DIGEST)
    && (forall s :: s in TreeInputs(k, lists) ==> k.node(s) != ZERO_DIGEST)
  }

  function RootOf(k: Keys, cs: Xorb): Digest { M.Root(k.node, Leaves(k, cs)) }

  /** No collision of the last hash among the roots of the contents, and no zero. */
  ghost predicate RootsApart(k: Keys, contents: set<Xorb>) {
    && (forall x, y :: x in contents && y in contents && k.last(RootOf(k, x)) == k.last(RootOf(k, y)) ==>
      RootOf(k, x) == RootOf(k, y))
    && (forall x :: x in contents ==> k.last(RootOf(k, x)) != ZERO_DIGEST)
  }

  lemma ChunkIn(lists: set<Xorb>, x: Xorb, i: nat)
    requires x in lists && i < |x|
    ensures x[i] in ChunksOf(lists)
  {
    assert x[i] in x;
  }

  lemma InputsIn(k: Keys, lists: set<Xorb>, x: Xorb)
    requires x in lists
    ensures M.Inputs(k.node, Leaves(k, x)) <= TreeInputs(k, lists)
  {
  }

  /** The same leaves come from the same chunks. */
  lemma LeavesBind(k: Keys, lists: set<Xorb>, x: Xorb, y: Xorb)
    requires x in lists && y in lists && Injective(k.leaf, ChunksOf(lists)) && Leaves(k, x) == Leaves(k, y)
    ensures x == y
  {
    assert |x| == |y|;
    forall i | 0 <= i < |x| ensures x[i] == y[i] {
      ChunkIn(lists, x, i);
      ChunkIn(lists, y, i);
      assert Leaves(k, x)[i] == Leaves(k, y)[i];
    }
  }

  lemma LeavesSeparated(k: Keys, lists: set<Xorb>, x: Xorb)
    requires x in lists && TreesApart(k, lists)
    ensures M.Separated(k.node, Leaves(k, x), TreeInputs(k, lists))
  {
    forall i, s | 0 <= i < |x| && s in TreeInputs(k, lists) ensures Leaves(k, x)[i].hash != k.node(s) {
      ChunkIn(lists, x, i);
    }
  }

  lemma TreesBind(k: Keys, lists: set<Xorb>, x: Xorb, y: Xorb)
    requires x in lists && y in lists && |x| >= 2 && |y| >= 2 && TreesApart(k, lists) && RootOf(k, x) == RootOf(k, y)
    ensures Leaves(k, x) == Leaves(k, y)
  {
    InputsIn(k, lists, x);
    InputsIn(k, lists, y);
    LeavesSeparated(k, lists, x);
    LeavesSeparated(k, lists, y);
    M.RootBinds(k.node, Leaves(k, x), Leaves(k, y));
  }

  /** A list of at most one chunk has a root of its own. */
  lemma SmallBinds(k: Keys, lists: set<Xorb>, x: Xorb, y: Xorb)
    requires x in lists && y in lists && |x| < 2 && TreesApart(k, lists) && RootOf(k, x) == RootOf(k, y)
    ensures x == y
  {
    if x != [] { ChunkIn(lists, x, 0); }
    if y != [] { ChunkIn(lists, y, 0); }
    if |y| >= 2 {
      var s := M.RootIsNodeHash(k.node, Leaves(k, y));
      InputsIn(k, lists, y);
    }
  }

  /** Without a collision among all that is hashed for their trees, chunk lists with one root are the same. */
  lemma RootsBind(k: Keys, lists: set<Xorb>, x: Xorb, y: Xorb)
    requires x in lists && y in lists && TreesApart(k, lists) && RootOf(k, x) == RootOf(k, y)
    ensures x == y
  {
    if |x| >= 2 && |y| >= 2 {
      TreesBind(k, lists, x, y);
      LeavesBind(k, lists, x, y);
    } else if |x| < 2 {
      SmallBinds(k, lists, x, y);
    } else {
      SmallBinds(k, lists, y, x);
    }
  }

  /** Nor do contents then have one file hash. */
  lemma FilesBind(k: Keys, contents: set<Xorb>, x: Xorb, y: Xorb)
    requires x in contents && y in contents && TreesApart(k, contents) && RootsApart(k, contents)
    requires FileHash(ProtocolOf(k), x) == FileHash(ProtocolOf(k), y)
    ensures x == y
  {
    if x != [] && y != [] { RootsBind(k, contents, x, y); }
  }

  lemma PartApart(k: Keys, lists: set<Xorb>, part: set<Xorb>)
    requires TreesApart(k, lists) && part <= lists
    ensures TreesApart(k, part)
  {
    assert ChunksOf(part) <= ChunksOf(lists);
    assert TreeInputs(k, part) <= TreeInputs(k, lists);
  }

  // ---------------------------------------------------------------- shard names

  lemma FlagsShow(flags: Word)
    requires WithMetadata(flags)
    ensures U32(flags) != ZERO4
  {
    U32RoundTrip(flags);
    assert GetU32(ZERO4) == 0;
  }

  lemma FileHeaderIsNoBookend(fb: FileBlock)
    requires WithMetadata(fb.flags)
    ensures FileHeader(fb) != BOOKEND
  {
    FlagsShow(fb.flags);
    assert FileHeader(fb)[32..36] == U32(fb.flags) && BOOKEND[32..36] == ZERO4;
  }

  lemma CasHeaderIsNoBookend(cb: CasBlock)
    requires |cb.chunks| < TWO32 && (cb.chunks == [] ==> cb.hash == ZERO_DIGEST)
    ensures CasHeader(cb) != BOOKEND
  {
    U32RoundTrip(|cb.chunks|);
    var h := CasHeader(cb);
    assert h[36..40] == U32(|cb.chunks|) && h[0] == cb.hash[0];
    BookendStarts();
    assert BOOKEND[36..40] == ZERO4;
    ZeroWord();
    if cb.chunks == [] { assert h[0] == 0; } else { assert h[36..40] != ZERO4; }
  }

  lemma BookendStarts()
    ensures BOOKEND[0] == 255
  {}

  lemma ZeroWord()
    ensures GetU32(ZERO4) == 0
  {}

  /** The CAS blocks of a sound shard list at most as many chunks as a xorb may have, and only the xorb named zero
      none. */
  lemma SoundCas(k: Keys, o: Objects, sh: Shard, b: nat)
    requires XorbsIntact(ProtocolOf(k), o) && Sound(ProtocolOf(k), sh, o.xorbs) && b < |sh.cas|
    ensures |sh.cas[b].chunks| < TWO32 && (sh.cas[b].chunks == [] ==> sh.cas[b].hash == ZERO_DIGEST)
  {
    var pr, cb := ProtocolOf(k), sh.cas[b];
    assert CasMatches(pr, sh.cas[b], o.xorbs);
    assert ValidXorb(pr, cb.hash, o.xorbs[cb.hash].value);
    var cs := pr.decode(o.xorbs[cb.hash].value).value;
    assert |cs| == 0 ==> Nodes(ChunkList(pr, cs)) == [];
  }

  lemma SoundEncodes(k: Keys, o: Objects, sh: Shard)
    requires XorbsIntact(ProtocolOf(k), o) && Sound(ProtocolOf(k), sh, o.xorbs)
    ensures S.BlocksOk(sh) && S.NoBookend(sh, BOOKEND)
  {
    forall i | 0 <= i < |sh.files| ensures FileOk(sh.files[i]) && FileHeader(sh.files[i]) != BOOKEND {
      assert FileMatches(ProtocolOf(k), sh.files[i], o.xorbs);
      FileHeaderIsNoBookend(sh.files[i]);
    }
    forall i | 0 <= i < |sh.cas| ensures CasOk(sh.cas[i]) && CasHeader(sh.cas[i]) != BOOKEND {
      SoundCas(k, o, sh, i);
      CasHeaderIsNoBookend(sh.cas[i]);
    }
  }

  /** Sound shards have different encodings. */
  lemma ShardsBind(k: Keys, o: Objects, p: Shard, mid: Objects, q: Shard)
    requires XorbsIntact(ProtocolOf(k), o) && Sound(ProtocolOf(k), p, o.xorbs)
    requires XorbsIntact(ProtocolOf(k), mid) && Sound(ProtocolOf(k), q, mid.xorbs)
    ensures S.Body(p, 0) == S.Body(q, 0) <==> p == q
  {
    SoundEncodes(k, o, p);
    SoundEncodes(k, mid, q);
    if S.Body(p, 0) == S.Body(q, 0) { S.BodyInjective(p, q); }
  }

  /** The shard's encoding does not share its SHA-256 with that of another stored shard. */
  ghost predicate BodyApart(k: Keys, o: Objects, p: Shard) {
    forall q :: q in StoredShards(o) && k.sha(S.Body(q, 0)) == k.sha(S.Body(p, 0)) ==> S.Body(q, 0) == S.Body(p, 0)
  }

  lemma NoOtherShard(k: Keys, o: Objects, mid: Objects, p: Shard, q: Shard)
    requires Integrity(ProtocolOf(k), o) && XorbsIntact(ProtocolOf(k), mid) && Sound(ProtocolOf(k), p, mid.xorbs)
    requires q in StoredShards(o) && BodyApart(k, o, p) && ProtocolOf(k).shard(p) == ProtocolOf(k).shard(q)
    ensures p == q
  {
    var h :| h in o.shards && o.shards[h].value == q;
    assert Sound(ProtocolOf(k), o.shards[h].value, o.xorbs);
    ShardsBind(k, o, q, mid, p);
  }

  /** A run of the store goes on as long as the encoding of a shard to commit does not collide with a stored one. */
  lemma RunsGoOn(k: Keys, o: Objects, op: Sweep.Op)
    requires Integrity(ProtocolOf(k), o) && Sweep.Proper(op)
    requires op.PutShardOp? && Acceptable(ProtocolOf(k), op.sh, o.xorbs) ==>
      BodyApart(k, o, Prepared(ProtocolOf(k), op.sh, o.xorbs))
    ensures Sweep.Safe(ProtocolOf(k), o, op)
  {
    var pr := ProtocolOf(k);
    if op.PutShardOp? && Acceptable(pr, op.sh, o.xorbs) {
      var p := Prepared(pr, op.sh, o.xorbs);
      PreparedSound(pr, op.sh, o.xorbs);
      var h := pr.shard(p);
      if h in o.shards {
        assert Sound(pr, o.shards[h].value, o.xorbs);
        assert o.shards[h].value in StoredShards(o);
        NoOtherShard(k, o, o, p, o.shards[h].value);
      }
    }
  }

  /** In every intact store, so in every state of every run: what has an indexed file hash is what reads back under it,
      if nothing hashed for it and for the stored files collides. */
  lemma StoredFileReadsBack(k: Keys, o: Objects, data: Xorb)
    requires Integrity(ProtocolOf(k), o) && FileKey(FileHash(ProtocolOf(k), data)) in o.index
    requires var contents := {data} + StoredContents(ProtocolOf(k), o);
      TreesApart(k, contents) && RootsApart(k, contents)
    ensures ReadsBack(ProtocolOf(k), o, FileHash(ProtocolOf(k), data), data)
  {
    var pr := ProtocolOf(k);
    var contents := {data} + StoredContents(pr, o);
    forall cs | cs in StoredContents(pr, o) && FileHash(pr, cs) == FileHash(pr, data) ensures cs == data {
      FilesBind(k, contents, cs, data);
    }
    IndexedReadsBack(pr, o, data);
  }

  // ---------------------------------------------------------------- reading what is stored

  /** Scanned frames all fit the buffer readers use. */
  predicate SmallFrames(data: Data) {
    var scan := X.ScanFrom(data, 0, 0);
    scan.Some? && forall i :: 0 <= i < |scan.value| ==> scan.value[i] - P.StartByte(scan.value, i) <= 8 + MAX_CHUNK_SIZE
  }

  /** Something a server could check before it stores a stream. */
  predicate Legible(data: Data) { TrueTable(data) && SmallFrames(data) }

  lemma GapIsFrame(fs: seq<Data>, i: nat)
    requires i < |fs|
    ensures X.Ends(fs)[i] - P.StartByte(X.Ends(fs), i) == |fs[i]|
  {
    X.FrameCut(fs, i, []);
    if i > 0 { assert X.Ends(fs)[i - 1] == |Flatten(fs[..i - 1 + 1])|; } else { assert fs[..i] == []; }
  }

  lemma LegibleIs(c: X.Codec, data: Data, fs: seq<Data>, cs: seq<Data>, tail: Data)
    requires Stream(c, data, fs, cs, tail)
    ensures Legible(data) <==> Table(data) == Some(X.Ends(fs)) && Handy(fs)
  {
    Scanned(c, data, fs, cs, tail);
    TableIsTrue(c, data, fs, cs, tail);
    forall i | 0 <= i < |fs| ensures X.Ends(fs)[i] - P.StartByte(X.Ends(fs), i) == |fs[i]| { GapIsFrame(fs, i); }
    if Legible(data) {
      forall i | 0 <= i < |fs| ensures |fs[i]| <= 8 + MAX_CHUNK_SIZE {
        assert X.Ends(fs)[i] - P.StartByte(X.Ends(fs), i) <= 8 + MAX_CHUNK_SIZE;
      }
    }
  }

  /** Downloads, which read frame by frame, get every chunk of a valid stream if and only if it is legible. */
  lemma DownloadsRead(c: X.Codec, data: Data)
    requires Decoded(c, data).Some?
    ensures FramesRead(c, data, Decoded(c, data).value) <==> Legible(data)
  {
    var fs, tail := DecodedStream(c, data);
    LegibleIs(c, data, fs, Decoded(c, data).value, tail);
    FramewiseExact(c, data, fs, Decoded(c, data).value, tail);
  }

  /** Readers of ranges get every range of a legible stream, and nothing else. */
  lemma LegibleIsStraight(k: Keys, data: Data)
    requires Decoded(CodecOf(k), data).Some? && Legible(data)
    ensures Straight(ProtocolOf(k), data)
  {
    var pr, c := ProtocolOf(k), CodecOf(k);
    var cs := Decoded(c, data).value;
    var fs, tail := DecodedStream(c, data);
    LegibleIs(c, data, fs, cs, tail);
    forall from: nat, to: nat ensures pr.span(data, from, to) == Slice(pr, data, from, to) {
      StraightRange(c, data, fs, cs, tail, from, to);
    }
  }

  lemma StraightRange(c: X.Codec, data: Data, fs: seq<Data>, cs: seq<Data>, tail: Data, from: nat, to: nat)
    requires Stream(c, data, fs, cs, tail) && Table(data) == Some(X.Ends(fs)) && Handy(fs)
    ensures Span(c, data, from, to) == if from < to <= |cs| then Some(cs[from..to]) else None
  {
    if from < to <= |cs| {
      HandyPart(fs, from, to);
      TrueTableReads(c, data, fs, cs, tail, from, to);
    } else {
      OutOfTable(c, data, X.Ends(fs), from, to);
    }
  }

  lemma LimitsAgree(cs: Xorb)
    requires WithinLimits(cs)
    ensures X.Accepted(cs)
  {
    FlattenLength(cs);
  }

  /** The deployed encoder is faithful. */
  lemma FaithfulProtocol(k: Keys)
    requires X.Lawful(CodecOf(k))
    ensures Faithful(ProtocolOf(k))
  {
    var pr, c := ProtocolOf(k), CodecOf(k);
    forall cs | WithinLimits(cs)
      ensures var data := pr.kept(pr.encode(cs)); pr.decode(data) == Some(cs) && Straight(pr, data)
    {
      LimitsAgree(cs);
      EncodedStraight(k, cs);
    }
  }

  lemma EncodedStraight(k: Keys, cs: Xorb)
    requires X.Lawful(CodecOf(k)) && X.Accepted(cs)
    ensures var pr, data := ProtocolOf(k), X.Encoded(CodecOf(k), cs, true, NONCE);
      pr.kept(data) == data && pr.decode(data) == Some(cs) && Legible(data) && Straight(pr, data)
  {
    var c := CodecOf(k);
    var data, tail, fs := X.Encoded(c, cs, true, NONCE), FooterFor(c, cs, NONCE), X.FrameList(c, cs);
    EncodedDecodes(c, cs, NONCE);
    EncodedStream(c, cs, tail);
    StreamDecodes(c, data, fs, cs, tail);
    LegibleIs(c, data, fs, cs, tail);
    LegibleIsStraight(k, data);
  }

  lemma DecodedWithinLimits(c: X.Codec, data: Data)
    requires Decoded(c, data).Some?
    ensures WithinLimits(Decoded(c, data).value)
  {
    var fs, tail := DecodedStream(c, data);
    FlattenLength(Decoded(c, data).value);
  }

  /** A xorb is accepted under a name exactly when validation accepts its stream, and what is stored holds the same
      chunks. */
  lemma ValidXorbIsValidated(k: Keys, name: Digest, data: Data)
    ensures ProtocolOf(k).decode(Kept(CodecOf(k), data)) == Decoded(CodecOf(k), data)
    ensures ValidXorb(ProtocolOf(k), name, Kept(CodecOf(k), data)) <==>
      exists cs :: X.HoldsXorb(CodecOf(k), data, name, cs)
  {
    var c := CodecOf(k);
    KeptDecodes(c, data);
    var found := Decoded(c, data);
    if found.Some? {
      DecodedWithinLimits(c, data);
      SameXorbHash(k, found.value);
      DecodedIsValid(c, data, name, found.value);
    }
    if cs :| X.HoldsXorb(c, data, name, cs) { DecodedIsValid(c, data, name, cs); }
  }

  lemma SameXorbHash(k: Keys, cs: Xorb)
    ensures X.XorbHash(CodecOf(k), cs) == ProtocolOf(k).xorb(ChunkList(ProtocolOf(k), cs))
  {
    assert Zip(X.HashesOf(CodecOf(k), cs), Lengths(cs)) == ChunkList(ProtocolOf(k), cs);
  }

  // ---------------------------------------------------------------- storing a file

  ghost predicate AllLegible(xs: map<Digest, Stored<Bytes>>) {
    forall x {:trigger Legible(xs[x].value)} :: x in xs ==> Legible(xs[x].value)
  }

  /** None of the primitive hash functions collides among the finitely many inputs of an upload and of what it is
      compared with: chunks, tree nodes and roots over the lists and contents at hand, and shard encodings. */
  ghost predicate Unbroken(k: Keys, o: Objects, data: Xorb, now: int) {
    var pr := ProtocolOf(k);
    && TreesApart(k, ListsAtHand(pr, o, data) + ContentsAtHand(pr, o, data, now))
    && RootsApart(k, ContentsAtHand(pr, o, data, now))
    && forall p :: WillStore(pr, o, data, now, p) ==> BodyApart(k, o, p)
  }

  lemma ListsBind(k: Keys, lists: set<Xorb>)
    requires TreesApart(k, lists)
    ensures XorbsDiffer(ProtocolOf(k), lists)
  {
    forall a, b | a in lists && b in lists && XorbName(ProtocolOf(k), a) == XorbName(ProtocolOf(k), b) ensures a == b {
      RootsBind(k, lists, a, b);
    }
  }

  lemma ContentsBind(k: Keys, contents: set<Xorb>)
    requires TreesApart(k, contents) && RootsApart(k, contents)
    ensures FilesDiffer(ProtocolOf(k), contents)
  {
    forall a, b | a in contents && b in contents && FileHash(ProtocolOf(k), a) == FileHash(ProtocolOf(k), b)
      ensures a == b
    {
      FilesBind(k, contents, a, b);
    }
  }

  lemma WillStoreSound(k: Keys, o: Objects, data: Xorb, now: int, p: Shard)
    requires X.Lawful(CodecOf(k)) && XorbsIntact(ProtocolOf(k), o) && Small(data) && |data| < TWO32
    requires WillStore(ProtocolOf(k), o, data, now, p)
    ensures XorbsIntact(ProtocolOf(k), Stocked(ProtocolOf(k), o, data, now))
    ensures Sound(ProtocolOf(k), p, XorbsAfter(ProtocolOf(k), o, data, now))
  {
    var pr := ProtocolOf(k);
    FaithfulProtocol(k);
    StockedIntact(pr, o, data, now);
    var sh :| IsShard(pr, o, data, sh) && Acceptable(pr, sh, XorbsAfter(pr, o, data, now)) &&
      p == Prepared(pr, sh, XorbsAfter(pr, o, data, now));
    ShardCounted(pr, o, data, sh);
    PreparedSound(pr, sh, XorbsAfter(pr, o, data, now));
  }

  /** Where no primitive collides at hand, nothing at hand is ambiguous. */
  lemma UnbrokenIsUnambiguous(k: Keys, o: Objects, data: Xorb, now: int)
    requires X.Lawful(CodecOf(k)) && Integrity(ProtocolOf(k), o) && Small(data) && |data| < TWO32
    requires Unbroken(k, o, data, now)
    ensures Unambiguous(ProtocolOf(k), o, data, now)
  {
    var pr := ProtocolOf(k);
    var lists, contents := ListsAtHand(pr, o, data), ContentsAtHand(pr, o, data, now);
    PartApart(k, lists + contents, lists);
    PartApart(k, lists + contents, contents);
    ListsBind(k, lists);
    ContentsBind(k, contents);
    ChunksBind(k, lists + contents, StoredLists(pr, o.xorbs) + {data});
    forall p, q | WillStore(pr, o, data, now, p) && q in StoredShards(o) && pr.shard(p) == pr.shard(q) ensures p == q {
      WillStoreSound(k, o, data, now, p);
      NoOtherShard(k, o, Stocked(pr, o, data, now), p, q);
    }
  }

  lemma ChunksBind(k: Keys, lists: set<Xorb>, part: set<Xorb>)
    requires TreesApart(k, lists) && part <= lists
    ensures Injective(ProtocolOf(k).chunk, ChunksOf(part))
  {
    PartApart(k, lists, part);
  }

  /** Stores the bytes of a file. It fails only if its source does, or if it is not indexed yet and a xorb stored before
      is not legible; otherwise it can be read back byte for byte, or a primitive is broken at what is at hand. */
  method StoreFile(k: Keys, st: Storage, content: Bytes, reliable: bool, now: int)
    returns (r: Option<Digest>, sourced: bool)
    requires st.Valid() && st.pr == ProtocolOf(k) && X.Lawful(CodecOf(k)) && |content| < (TWO32 - 1) * C.MIN_CHUNK_SIZE
    modifies st
    ensures st.Traced() && old(st.trace) <= st.trace
    ensures Keeps(old(st.o), st.o) && (AllLegible(old(st.o).xorbs) ==> AllLegible(st.o.xorbs))
    ensures reliable ==> sourced
    ensures !sourced ==> r.None? && st.Valid() && st.o == old(st.o)
    ensures content == [] && sourced ==> r == Some(ZERO_DIGEST) && st.Valid() && st.o == old(st.o)
    ensures content != [] && sourced && Unbroken(k, old(st.o), C.Chunks(G.Gear, content), now) ==>
      && st.Valid() && BytesStored(st.pr, old(st.o), st.o, content, r)
      && (AllLegible(old(st.o).xorbs) ==> r.Some?)
  {
    FaithfulProtocol(k);
    ghost var o0 := st.o;
    assert Integrity(st.pr, o0);
    C.ChunksPartition(G.Gear, content);
    C.ChunkCount(G.Gear, content);
    if Unbroken(k, o0, C.Chunks(G.Gear, content), now) {
      UnbrokenIsUnambiguous(k, o0, C.Chunks(G.Gear, content), now);
    }
    if AllLegible(o0.xorbs) { AllStraightIfLegible(k, o0); }
    r, sourced := PutBytes(st, content, reliable, now);
    if AllLegible(o0.xorbs) { StillLegible(k, o0.xorbs, st.o.xorbs); }
  }

  lemma StillLegible(k: Keys, xs: map<Digest, Stored<Bytes>>, ys: map<Digest, Stored<Bytes>>)
    requires X.Lawful(CodecOf(k)) && AllLegible(xs) && Added(ProtocolOf(k), xs, ys)
    ensures AllLegible(ys)
  {
    var pr := ProtocolOf(k);
    forall x | x in ys ensures Legible(ys[x].value) {
      if x in xs {
        assert Legible(xs[x].value);
      } else {
        assert FromEncoder(pr, ys[x].value);
        var cs :| WithinLimits(cs) && ys[x].value == pr.kept(pr.encode(cs));
        LimitsAgree(cs);
        EncodedStraight(k, cs);
      }
    }
  }

  lemma AllStraightIfLegible(k: Keys, o: Objects)
    requires XorbsIntact(ProtocolOf(k), o) && AllLegible(o.xorbs)
    ensures AllStraight(ProtocolOf(k), o.xorbs)
  {
    forall x | x in o.xorbs ensures Straight(ProtocolOf(k), o.xorbs[x].value) {
      assert ValidXorb(ProtocolOf(k), x, o.xorbs[x].value);
      assert Legible(o.xorbs[x].value);
      LegibleIsStraight(k, o.xorbs[x].value);
    }
  }

  /** A xorb that a server accepts, and whose first chunk no file can then be stored with. */
  lemma CrookedRefuses(k: Keys, x: Data, y: Data, o: Objects)
    requires X.Lawful(CodecOf(k)) && |x| <= MAX_CHUNK_SIZE && |y| <= MAX_CHUNK_SIZE &&
      X.HeaderOf(CodecOf(k), x).compressed > 0
    requires var name := X.XorbHash(CodecOf(k), [x, y]);
      name in o.xorbs && o.xorbs[name].value == Crooked(CodecOf(k), x, y, NONCE)
    ensures var pr, name := ProtocolOf(k), X.XorbHash(CodecOf(k), [x, y]);
      var t := FileEntry(name, 0, |x|, 0, 1);
      && ValidXorb(pr, name, o.xorbs[name].value) && !Legible(o.xorbs[name].value)
      && Denote(pr, [t], o.xorbs) == Some([x]) && Reconstruct(pr, [t], o.xorbs) == None
  {
    var name := X.XorbHash(CodecOf(k), [x, y]);
    var data := o.xorbs[name].value;
    FooterMisleads(CodecOf(k), x, y, NONCE);
    DecodedWithinLimits(CodecOf(k), data);
    SameXorbHash(k, [x, y]);
    DownloadsRead(CodecOf(k), data);
    FirstOfTwo(ProtocolOf(k), x, y, name, o.xorbs);
  }

  /** A term for the first of two chunks, where the range cannot be read. */
  lemma FirstOfTwo(pr: Protocol, x: Data, y: Data, name: Digest, xs: map<Digest, Stored<Bytes>>)
    requires |x| <= MAX_CHUNK_SIZE && name in xs && pr.decode(xs[name].value) == Some([x, y]) &&
      pr.span(xs[name].value, 0, 1) == None
    ensures var t := FileEntry(name, 0, |x|, 0, 1); Denote(pr, [t], xs) == Some([x]) && Reconstruct(pr, [t], xs) == None
  {
    var t := FileEntry(name, 0, |x|, 0, 1);
    RebuildOne(pr.span, t, xs);
    RebuildOne(SliceOf(pr), t, xs);
    assert [x, y][0..1] == [x];
    Ingest.TotalSizeOne(x);
  }
}
