/** The content-addressed store: objects, the commit protocol, and referential integrity.

    The protocol is a parameter: the hash functions, the xorb encoder, and the two ways a stored xorb is read. */
module Store {
  import opened Common
  import opened HashText
  import opened Wire
  import opened ShardFormat

  /** The chunks of a xorb. */
  type Xorb = seq<Bytes>

  datatype Stored<T> = Stored(value: T, modTime: int)

  /** A name in one of the three indexes. */
  datatype Key = FileKey(d: Digest) | ShaKey(d: Digest) | ChunkKey(d: Digest)

  /** Everything a store holds: xorbs as the byte streams they came as, shards, and the index, which maps each name to
      the shard owning it. */
  datatype Objects = Objects(
    xorbs: map<Digest, Stored<Bytes>>,
    shards: map<Digest, Stored<Shard>>,
    index: map<Key, Digest>)

  const EMPTY: Objects := Objects(map[], map[], map[])

  /** Hashes of a chunk, of a chunk list as (hash, size) pairs, of a byte string, of a shard and of a term's chunk
      hashes; the stream an encoder makes of chunks; the chunks validation finds in a stream, reading it from its start;
      and the chunks a reader gets from a stream for a chunk range, whose bytes it looks up in the stream's offset
      table. Of a stream to be stored, what validation does not read is not kept. */
  datatype Protocol = Protocol(
    chunk: Bytes -> Digest,
    xorb: seq<(Digest, nat)> -> Digest,
    file: seq<(Digest, nat)> -> Digest,
    sha: Bytes -> Digest,
    shard: Shard -> Digest,
    verification: seq<Digest> -> Digest,
    encode: Xorb -> Bytes,
    kept: Bytes -> Bytes,
    decode: Bytes -> Option<Xorb>,
    span: (Bytes, nat, nat) -> Option<Xorb>)

  // ---------------------------------------------------------------- shards

  /** The low ten bits of the last eight bytes are zero. */
  predicate Sampled(h: Digest) { h[24] == 0 && h[25] % 4 == 0 }

  /** One chunk in 1024 is sampled, by the little-endian value of its hash's last eight bytes. */
  lemma SampledByValue(h: Digest)
    ensures Sampled(h) <==> LittleEndian(h[24..32]) % 1024 == 0
  {
    var b := h[24..32];
    var rest := LittleEndian(b[2..]);
    assert b[1..][1..] == b[2..];
    assert LittleEndian(b) == b[0] + 256 * (b[1] + 256 * rest);
    LowBits(b[0], b[1], rest);
  }

  lemma LowBits(a: Byte, b: Byte, rest: nat)
    ensures (a + 256 * (b + 256 * rest)) % 1024 == 0 <==> a == 0 && b % 4 == 0
  {
    assert a + 256 * (b + 256 * rest) == a + 256 * (b % 4) + 1024 * (b / 4 + 64 * rest);
  }

  const ELIGIBLE: Word := 0x8000_0000

  /** The top bit is set. */
  predicate Flagged(flags: Word) { flags >= ELIGIBLE }

  ghost predicate StartsFile(sh: Shard, xorb: Digest, i: nat) {
    exists f :: 0 <= f < |sh.files| && |sh.files[f].entries| > 0
      && sh.files[f].entries[0].xorb == xorb && sh.files[f].entries[0].start == i
  }

  /** Whether a probe may ask the shard for chunk i of its CAS block b. */
  ghost predicate EligibleAt(sh: Shard, b: nat, i: nat)
    requires b < |sh.cas| && i < |sh.cas[b].chunks|
  {
    var c := sh.cas[b].chunks[i];
    StartsFile(sh, sh.cas[b].hash, i) || Flagged(c.flags) || Sampled(c.hash)
  }

  ghost predicate Eligible(sh: Shard, d: Digest) {
    exists b, i :: 0 <= b < |sh.cas| && 0 <= i < |sh.cas[b].chunks|
      && sh.cas[b].chunks[i].hash == d && EligibleAt(sh, b, i)
  }

  ghost predicate HasFile(sh: Shard, d: Digest) {
    exists f :: 0 <= f < |sh.files| && sh.files[f].hash == d
  }

  ghost predicate HasSha(sh: Shard, d: Digest) {
    exists f :: 0 <= f < |sh.files| && sh.files[f].sha == Some(d)
  }

  /** The names a shard owns once committed. */
  ghost predicate Names(sh: Shard, k: Key) {
    match k
    case FileKey(d) => HasFile(sh, d)
    case ShaKey(d) => HasSha(sh, d)
    case ChunkKey(d) => Eligible(sh, d)
  }

  /** The names of a shard, spelled out: its files' hashes and SHA-256, and the hashes of listed chunks that are
      sampled, flagged, or where the first term of a file starts. */
  lemma NamesAre(sh: Shard, d: Digest)
    ensures Names(sh, FileKey(d)) <==> exists f :: 0 <= f < |sh.files| && sh.files[f].hash == d
    ensures Names(sh, ShaKey(d)) <==> exists f :: 0 <= f < |sh.files| && sh.files[f].sha == Some(d)
    ensures Names(sh, ChunkKey(d)) <==> exists b, i ::
      0 <= b < |sh.cas| && 0 <= i < |sh.cas[b].chunks| && sh.cas[b].chunks[i].hash == d &&
      (LittleEndian(d[24..32]) % 1024 == 0 || sh.cas[b].chunks[i].flags >= 0x8000_0000 || exists f ::
        0 <= f < |sh.files| && |sh.files[f].entries| > 0 && sh.files[f].entries[0].xorb == sh.cas[b].hash &&
        sh.files[f].entries[0].start == i)
  {
    SampledByValue(d);
  }

  /** The xorbs a shard references, through file terms or CAS blocks. */
  ghost predicate RefersTo(sh: Shard, x: Digest) {
    || (exists b :: 0 <= b < |sh.cas| && sh.cas[b].hash == x)
    || (exists f, t :: 0 <= f < |sh.files| && 0 <= t < |sh.files[f].entries| && sh.files[f].entries[t].xorb == x)
  }

  // ---------------------------------------------------------------- content

  function ChunkList(pr: Protocol, cs: Xorb): (r: seq<(Digest, nat)>)
    ensures |r| == |cs|
    ensures forall i :: 0 <= i < |cs| ==> r[i] == (pr.chunk(cs[i]), |cs[i]|)
  {
    seq(|cs|, i requires 0 <= i < |cs| => (pr.chunk(cs[i]), |cs[i]| as nat))
  }

  /** No chunks have the zero hash. */
  function FileHash(pr: Protocol, cs: Xorb): Digest {
    if cs == [] then ZERO_DIGEST else pr.file(ChunkList(pr, cs))
  }

  /** A file without terms has the zero digest in place of a SHA-256. */
  function ShaHash(pr: Protocol, ts: seq<FileEntry>, cs: Xorb): Digest {
    if ts == [] then ZERO_DIGEST else pr.sha(Flatten(cs))
  }

  function TotalSize(cs: Xorb): nat { Sum(Lengths(cs)) }

  /** What a way of reading chunk ranges makes of one term; nothing if its xorb is missing, its range cannot be read, or
      what is read has another size. */
  function TermChunks(read: (Bytes, nat, nat) -> Option<Xorb>, t: FileEntry, xs: map<Digest,
                      Stored<Bytes>>): Option<Xorb> {
    if t.xorb !in xs then None else
    match read(xs[t.xorb].value, t.start, t.end)
    case None => None
    case Some(cs) => if TotalSize(cs) == t.bytes then Some(cs) else None
  }

  function Join(a: Option<Xorb>, b: Option<Xorb>): Option<Xorb> {
    if a.Some? && b.Some? then Some(a.value + b.value) else None
  }

  /** What reading the terms in order yields. */
  function Rebuild(read: (Bytes, nat, nat) -> Option<Xorb>, ts: seq<FileEntry>, xs: map<Digest,
                   Stored<Bytes>>): Option<Xorb> {
    if ts == [] then Some([]) else Join(TermChunks(read, ts[0], xs), Rebuild(read, ts[1..], xs))
  }

  /** What readers get for the terms. */
  function Reconstruct(pr: Protocol, ts: seq<FileEntry>, xs: map<Digest, Stored<Bytes>>): Option<Xorb> {
    Rebuild(pr.span, ts, xs)
  }

  /** Chunks [from, to) of those validation finds. */
  function Slice(pr: Protocol, data: Bytes, from: nat, to: nat): Option<Xorb> {
    var cs := pr.decode(data);
    if cs.Some? && from < to <= |cs.value| then Some(cs.value[from..to]) else None
  }

  function SliceOf(pr: Protocol): (Bytes, nat, nat) -> Option<Xorb> { (data, from, to) => Slice(pr, data, from, to) }

  /** What the terms denote: the chunks at their indices. */
  function Denote(pr: Protocol, ts: seq<FileEntry>, xs: map<Digest, Stored<Bytes>>): Option<Xorb> {
    Rebuild(SliceOf(pr), ts, xs)
  }

  /** The stream's offset table leads every range to its own chunks, and no others. */
  ghost predicate Straight(pr: Protocol, data: Bytes) {
    forall from: nat, to: nat {:trigger pr.span(data, from, to)} :: pr.span(data, from, to) == Slice(pr, data, from, to)
  }

  ghost predicate AllStraight(pr: Protocol, xs: map<Digest, Stored<Bytes>>) {
    forall x {:trigger Straight(pr, xs[x].value)} :: x in xs ==> Straight(pr, xs[x].value)
  }

  /** A reader gets for the term what it denotes. */
  ghost predicate ReadsRight(pr: Protocol, t: FileEntry, xs: map<Digest, Stored<Bytes>>) {
    TermChunks(pr.span, t, xs) == TermChunks(SliceOf(pr), t, xs)
  }

  lemma JoinAssociates(a: Option<Xorb>, b: Option<Xorb>, c: Option<Xorb>)
    ensures Join(Join(a, b), c) == Join(a, Join(b, c))
    ensures Join(Some([]), a) == a && Join(a, Some([])) == a
  {
    if a.Some? && b.Some? && c.Some? { assert a.value + b.value + c.value == a.value + (b.value + c.value); }
    if a.Some? { assert [] + a.value == a.value && a.value + [] == a.value; }
  }

  lemma {:induction false} RebuildAppend(read: (Bytes, nat, nat) -> Option<Xorb>, a: seq<FileEntry>, b: seq<FileEntry>,
                                         xs: map<Digest, Stored<Bytes>>)
    ensures Rebuild(read, a + b, xs) == Join(Rebuild(read, a, xs), Rebuild(read, b, xs))
  {
    if a == [] {
      assert a + b == b;
      JoinAssociates(Rebuild(read, b, xs), None, None);
    } else {
      assert (a + b)[1..] == a[1..] + b;
      RebuildAppend(read, a[1..], b, xs);
      JoinAssociates(TermChunks(read, a[0], xs), Rebuild(read, a[1..], xs), Rebuild(read, b, xs));
    }
  }

  lemma RebuildOne(read: (Bytes, nat, nat) -> Option<Xorb>, t: FileEntry, xs: map<Digest, Stored<Bytes>>)
    ensures Rebuild(read, [t], xs) == TermChunks(read, t, xs)
  {
    assert [t][1..] == [];
    JoinAssociates(TermChunks(read, t, xs), None, None);
  }

  /** Terms that read right read back as what they denote. */
  lemma {:induction false} RightTermsRebuild(pr: Protocol, ts: seq<FileEntry>, xs: map<Digest, Stored<Bytes>>)
    requires forall t {:trigger ts[t]} :: 0 <= t < |ts| ==> ReadsRight(pr, ts[t], xs)
    ensures Reconstruct(pr, ts, xs) == Denote(pr, ts, xs)
  {
    if ts != [] {
      assert forall t {:trigger ts[1..][t]} :: 0 <= t < |ts[1..]| ==> ts[1..][t] == ts[t + 1];
      RightTermsRebuild(pr, ts[1..], xs);
    }
  }

  /** In a store of straight xorbs, terms read back as what they denote. */
  lemma StraightTermsRebuild(pr: Protocol, ts: seq<FileEntry>, xs: map<Digest, Stored<Bytes>>)
    requires AllStraight(pr, xs)
    ensures Reconstruct(pr, ts, xs) == Denote(pr, ts, xs)
  {
    forall t | 0 <= t < |ts| ensures ReadsRight(pr, ts[t], xs) {
      if ts[t].xorb in xs {
        assert Straight(pr, xs[ts[t].xorb].value);
        assert pr.span(xs[ts[t].xorb].value, ts[t].start, ts[t].end) ==
          Slice(pr, xs[ts[t].xorb].value, ts[t].start, ts[t].end);
      }
    }
    RightTermsRebuild(pr, ts, xs);
  }

  lemma TotalSizeAppend(a: Xorb, b: Xorb)
    ensures TotalSize(a + b) == TotalSize(a) + TotalSize(b)
  {
    assert Lengths(a + b) == Lengths(a) + Lengths(b);
    SumAppend(Lengths(a), Lengths(b));
  }

  ghost predicate NoneEmpty(cs: Xorb) { forall i :: 0 <= i < |cs| ==> cs[i] != [] }

  /** Without empty chunks, a part of a list is known by its size. */
  lemma SizeCuts(a: Xorb, b: Xorb, rest: Xorb, more: Xorb)
    requires a + rest == b + more && NoneEmpty(a + rest) && TotalSize(a) == TotalSize(b)
    ensures a == b && rest == more
  {
    var cs := a + rest;
    assert a == cs[..|a|] && b == cs[..|b|] && rest == cs[|a|..] && more == cs[|b|..];
    assert |a| < |b| ==> b[..|a|] == a;
    assert |b| < |a| ==> a[..|b|] == b;
    if |a| < |b| { LongerIsLarger(b, |a|); }
    if |b| < |a| { LongerIsLarger(a, |b|); }
  }

  lemma LongerIsLarger(b: Xorb, n: nat)
    requires n < |b| && NoneEmpty(b)
    ensures TotalSize(b[..n]) < TotalSize(b)
  {
    assert b == b[..n] + b[n..] && b[n..] == [b[n]] + b[n + 1..];
    TotalSizeAppend(b[..n], b[n..]);
    TotalSizeAppend([b[n]], b[n + 1..]);
    assert Lengths([b[n]])[0] == |b[n]| > 0;
  }

  /** Terms that denote chunks, none of them empty, read back as those if and only if every one of them reads right. */
  lemma {:induction false} MisreadingShows(pr: Protocol, ts: seq<FileEntry>, xs: map<Digest, Stored<Bytes>>, cs: Xorb)
    requires Denote(pr, ts, xs) == Some(cs) && NoneEmpty(cs)
    ensures Reconstruct(pr, ts, xs) == Some(cs) <==> forall t {:trigger ts[t]} :: 0 <= t < |ts| ==>
      ReadsRight(pr, ts[t], xs)
  {
    if forall t {:trigger ts[t]} :: 0 <= t < |ts| ==> ReadsRight(pr, ts[t], xs) {
      RightTermsRebuild(pr, ts, xs);
    }
    if ts != [] && Reconstruct(pr, ts, xs) == Some(cs) {
      var more := Rebuild(SliceOf(pr), ts[1..], xs).value;
      FirstReadsRight(pr, ts, xs, cs);
      MisreadingShows(pr, ts[1..], xs, more);
      forall t | 0 <= t < |ts| ensures ReadsRight(pr, ts[t], xs) {
        if t > 0 { assert ts[1..][t - 1] == ts[t]; }
      }
    }
  }

  lemma FirstReadsRight(pr: Protocol, ts: seq<FileEntry>, xs: map<Digest, Stored<Bytes>>, cs: Xorb)
    requires ts != [] && Denote(pr, ts, xs) == Some(cs) == Reconstruct(pr, ts, xs) && NoneEmpty(cs)
    ensures ReadsRight(pr, ts[0], xs) && Denote(pr, ts[1..], xs).Some? && NoneEmpty(Denote(pr, ts[1..], xs).value)
    ensures Reconstruct(pr, ts[1..], xs) == Denote(pr, ts[1..], xs)
  {
    var a, b := TermChunks(pr.span, ts[0], xs).value, TermChunks(SliceOf(pr), ts[0], xs).value;
    var rest, more := Rebuild(pr.span, ts[1..], xs).value, Rebuild(SliceOf(pr), ts[1..], xs).value;
    SizeCuts(a, b, rest, more);
    assert forall i :: 0 <= i < |more| ==> more[i] == cs[|b| + i];
  }

  /** A CAS block lists exactly the chunks of its stored xorb. */
  predicate CasMatches(pr: Protocol, cb: CasBlock, xs: map<Digest, Stored<Bytes>>) {
    cb.hash in xs && Lists(pr, cb.chunks, pr.decode(xs[cb.hash].value))
  }

  predicate Lists(pr: Protocol, entries: seq<ChunkEntry>, cs: Option<Xorb>) {
    && cs.Some? && |entries| == |cs.value|
    && forall j :: 0 <= j < |entries| ==> entries[j].hash == pr.chunk(cs.value[j]) && entries[j].bytes == |cs.value[j]|
  }

  /** A file block is read back, to content with its file hash and its SHA-256, and encodes losslessly. */
  predicate FileMatches(pr: Protocol, f: FileBlock, xs: map<Digest, Stored<Bytes>>) {
    var cs := Reconstruct(pr, f.entries, xs);
    && cs.Some? && f.hash == FileHash(pr, cs.value)
    && f.sha == Some(ShaHash(pr, f.entries, cs.value)) && FileOk(f)
  }

  ghost predicate Sound(pr: Protocol, sh: Shard, xs: map<Digest, Stored<Bytes>>) {
    && (forall b {:trigger CasMatches(pr, sh.cas[b], xs)} :: 0 <= b < |sh.cas| ==> CasMatches(pr, sh.cas[b], xs))
    && (forall f {:trigger FileMatches(pr, sh.files[f], xs)} :: 0 <= f < |sh.files| ==>
      FileMatches(pr, sh.files[f], xs))
  }

  // ---------------------------------------------------------------- integrity

  ghost predicate IndexIntact(o: Objects) {
    forall k {:trigger Names(o.shards[o.index[k]].value, k)} {:trigger o.index[k] in o.shards} ::
      k in o.index ==> o.index[k] in o.shards && Names(o.shards[o.index[k]].value, k)
  }

  ghost predicate ShardsIntact(pr: Protocol, o: Objects) {
    forall h {:trigger Sound(pr, o.shards[h].value, o.xorbs)} ::
      h in o.shards ==> h == pr.shard(o.shards[h].value) && Sound(pr, o.shards[h].value, o.xorbs)
  }

  /** The limits on a xorb. */
  predicate WithinLimits(x: Xorb) {
    |x| <= MAX_CHUNKS && TotalSize(x) <= MAX_XORB_SIZE && forall i :: 0 <= i < |x| ==> |x[i]| <= MAX_CHUNK_SIZE
  }

  /** A stream may be stored under the hash of the chunks it holds only. */
  predicate ValidXorb(pr: Protocol, name: Digest, data: Bytes) {
    var cs := pr.decode(data);
    cs.Some? && WithinLimits(cs.value) && name == pr.xorb(ChunkList(pr, cs.value))
  }

  ghost predicate XorbsIntact(pr: Protocol, o: Objects) {
    forall x {:trigger ValidXorb(pr, x, o.xorbs[x].value)} :: x in o.xorbs ==> ValidXorb(pr, x, o.xorbs[x].value)
  }

  /** Referential integrity: every index entry points at a stored shard that owns the name, every stored shard
      agrees with the stored xorbs it references, and every object is stored under its own hash. */
  ghost predicate Integrity(pr: Protocol, o: Objects) {
    IndexIntact(o) && ShardsIntact(pr, o) && XorbsIntact(pr, o)
  }

  /** What `Integrity` means for a reader: an indexed file resolves, its xorbs are all stored, and its terms
      read back as chunks with that very file hash. */
  lemma IndexedFileReconstructs(pr: Protocol, o: Objects, d: Digest) returns (f: nat)
    requires Integrity(pr, o) && FileKey(d) in o.index
    ensures o.index[FileKey(d)] in o.shards
    ensures var sh := o.shards[o.index[FileKey(d)]].value;
      && f < |sh.files| && sh.files[f].hash == d
      && (forall x :: RefersTo(sh, x) ==> x in o.xorbs)
      && var cs := Reconstruct(pr, sh.files[f].entries, o.xorbs);
      && cs.Some? && d == (if cs.value == [] then ZEROS else pr.file(ChunkList(pr, cs.value)))
      && sh.files[f].sha == Some(if sh.files[f].entries == [] then ZEROS else pr.sha(Flatten(cs.value)))
  {
    var sh := o.shards[o.index[FileKey(d)]].value;
    assert Names(sh, FileKey(d));
    f :| 0 <= f < |sh.files| && sh.files[f].hash == d;
    assert Sound(pr, o.shards[o.index[FileKey(d)]].value, o.xorbs);
    assert FileMatches(pr, sh.files[f], o.xorbs);
    ReferencedXorbsStored(pr, o, o.index[FileKey(d)]);
  }

  lemma {:induction false} RebuildNeedsXorbs(read: (Bytes, nat, nat) -> Option<Xorb>, ts: seq<FileEntry>,
                                             xs: map<Digest, Stored<Bytes>>, t: nat)
    requires Rebuild(read, ts, xs).Some? && t < |ts|
    ensures ts[t].xorb in xs
  {
    if t > 0 { RebuildNeedsXorbs(read, ts[1..], xs, t - 1); }
  }

  lemma ReferencedXorbsStored(pr: Protocol, o: Objects, h: Digest)
    requires ShardsIntact(pr, o) && h in o.shards
    ensures forall x :: RefersTo(o.shards[h].value, x) ==> x in o.xorbs
  {
    var sh := o.shards[h].value;
    assert Sound(pr, o.shards[h].value, o.xorbs);
    forall x | RefersTo(sh, x) ensures x in o.xorbs {
      if b :| 0 <= b < |sh.cas| && sh.cas[b].hash == x {
        assert CasMatches(pr, sh.cas[b], o.xorbs);
      } else {
        var f, t :| 0 <= f < |sh.files| && 0 <= t < |sh.files[f].entries| && sh.files[f].entries[t].xorb == x;
        assert FileMatches(pr, sh.files[f], o.xorbs);
        RebuildNeedsXorbs(pr.span, sh.files[f].entries, o.xorbs, t);
      }
    }
  }

  // ---------------------------------------------------------------- framing

  /** Soundness only looks at the referenced xorbs. */
  ghost predicate SameOn(sh: Shard, xs: map<Digest, Stored<Bytes>>, ys: map<Digest, Stored<Bytes>>) {
    forall x :: RefersTo(sh, x) ==> x in xs && x in ys && xs[x].value == ys[x].value
  }

  lemma {:induction false} RebuildFrame(read: (Bytes, nat, nat) -> Option<Xorb>, ts: seq<FileEntry>,
                                        xs: map<Digest, Stored<Bytes>>, ys: map<Digest, Stored<Bytes>>)
    requires forall t :: 0 <= t < |ts| ==>
      ts[t].xorb in xs && ts[t].xorb in ys && xs[ts[t].xorb].value == ys[ts[t].xorb].value
    ensures Rebuild(read, ts, xs) == Rebuild(read, ts, ys)
  {
    if ts != [] {
      assert forall t :: 0 <= t < |ts[1..]| ==> ts[1..][t] == ts[t + 1];
      RebuildFrame(read, ts[1..], xs, ys);
      assert ts[0].xorb in xs;
      assert TermChunks(read, ts[0], xs) == TermChunks(read, ts[0], ys);
    }
  }

  lemma SoundFrame(pr: Protocol, sh: Shard, xs: map<Digest, Stored<Bytes>>, ys: map<Digest, Stored<Bytes>>)
    requires Sound(pr, sh, xs) && SameOn(sh, xs, ys)
    ensures Sound(pr, sh, ys)
  {
    forall b | 0 <= b < |sh.cas| ensures CasMatches(pr, sh.cas[b], ys) {
      assert RefersTo(sh, sh.cas[b].hash);
      assert CasMatches(pr, sh.cas[b], xs);
    }
    forall f | 0 <= f < |sh.files| ensures FileMatches(pr, sh.files[f], ys) {
      forall t | 0 <= t < |sh.files[f].entries| ensures RefersTo(sh, sh.files[f].entries[t].xorb) {}
      RebuildFrame(pr.span, sh.files[f].entries, xs, ys);
      assert FileMatches(pr, sh.files[f], xs);
    }
  }

  // ---------------------------------------------------------------- micro-steps

  /** Every storage call that changes something: one write of an absent object or entry, or one deletion. */
  datatype Change =
    | AddXorb(x: Digest, data: Bytes, t: int)
    | AddShard(h: Digest, shard: Shard, t: int)
    | AddEntry(k: Key, owner: Digest)
    | DropEntry(k: Key)
    | DropShard(h: Digest)
    | DropXorb(x: Digest)

  function Apply(o: Objects, c: Change): Objects {
    match c
    case AddXorb(x, data, t) => if x in o.xorbs then o else o.(xorbs := o.xorbs[x := Stored(data, t)])
    case AddShard(h, sh, t) => if h in o.shards then o else o.(shards := o.shards[h := Stored(sh, t)])
    case AddEntry(k, owner) => if k in o.index then o else o.(index := o.index[k := owner])
    case DropEntry(k) => o.(index := o.index - {k})
    case DropShard(h) => o.(shards := o.shards - {h})
    case DropXorb(x) => o.(xorbs := o.xorbs - {x})
  }

  /** When a change is harmless: what it adds is backed, what it removes is unreferenced. */
  ghost predicate Harmless(pr: Protocol, o: Objects, c: Change) {
    match c
    case AddXorb(x, data, _) => ValidXorb(pr, x, data)
    case AddShard(h, sh, _) => h == pr.shard(sh) && Sound(pr, sh, o.xorbs)
    case AddEntry(k, owner) => owner in o.shards && Names(o.shards[owner].value, k)
    case DropEntry(k) => true
    case DropShard(h) => forall k :: k in o.index ==> o.index[k] != h
    case DropXorb(x) => forall h :: h in o.shards ==> !RefersTo(o.shards[h].value, x)
  }

  /** Shards stay sound while the xorbs they refer to stay. */
  lemma XorbsChanged(pr: Protocol, o: Objects, ys: map<Digest, Stored<Bytes>>)
    requires ShardsIntact(pr, o)
    requires forall h :: h in o.shards ==> SameOn(o.shards[h].value, o.xorbs, ys)
    ensures ShardsIntact(pr, o.(xorbs := ys))
  {
    var after := o.(xorbs := ys);
    forall h | h in after.shards ensures h == pr.shard(after.shards[h].value) &&
      Sound(pr, after.shards[h].value, after.xorbs) {
      assert Sound(pr, o.shards[h].value, o.xorbs);
      SoundFrame(pr, o.shards[h].value, o.xorbs, ys);
    }
  }

  lemma AddXorbKeeps(pr: Protocol, o: Objects, x: Digest, data: Bytes, t: int)
    requires Integrity(pr, o) && ValidXorb(pr, x, data)
    ensures Integrity(pr, Apply(o, AddXorb(x, data, t)))
  {
    if x !in o.xorbs {
      var after := Apply(o, AddXorb(x, data, t));
      forall h | h in o.shards
        ensures SameOn(o.shards[h].value, o.xorbs, after.xorbs) { ReferencedXorbsStored(pr, o, h); }
      XorbsChanged(pr, o, after.xorbs);
      forall y | y in after.xorbs ensures ValidXorb(pr, y, after.xorbs[y].value) {
        if y in o.xorbs { assert ValidXorb(pr, y, o.xorbs[y].value); }
      }
    }
  }

  lemma DropXorbKeeps(pr: Protocol, o: Objects, x: Digest)
    requires Integrity(pr, o) && Harmless(pr, o, DropXorb(x))
    ensures Integrity(pr, Apply(o, DropXorb(x)))
  {
    var after := Apply(o, DropXorb(x));
    forall h | h in o.shards
      ensures SameOn(o.shards[h].value, o.xorbs, after.xorbs) { ReferencedXorbsStored(pr, o, h); }
    XorbsChanged(pr, o, after.xorbs);
    forall y | y in after.xorbs ensures ValidXorb(pr, y, after.xorbs[y].value) {
      assert ValidXorb(pr, y, o.xorbs[y].value);
    }
  }

  lemma AddShardKeeps(pr: Protocol, o: Objects, h: Digest, sh: Shard, t: int)
    requires Integrity(pr, o) && Harmless(pr, o, AddShard(h, sh, t))
    ensures Integrity(pr, Apply(o, AddShard(h, sh, t)))
  {
    if h !in o.shards {
      var after := Apply(o, AddShard(h, sh, t));
      forall g | g in after.shards ensures g == pr.shard(after.shards[g].value) &&
        Sound(pr, after.shards[g].value, after.xorbs) {
        if g in o.shards { assert Sound(pr, o.shards[g].value, o.xorbs); }
      }
      forall k | k in after.index ensures after.index[k] in after.shards &&
        Names(after.shards[after.index[k]].value, k) {
        assert Names(o.shards[o.index[k]].value, k);
      }
      assert XorbsIntact(pr, after);
    }
  }

  lemma DropShardKeeps(pr: Protocol, o: Objects, h: Digest)
    requires Integrity(pr, o) && Harmless(pr, o, DropShard(h))
    ensures Integrity(pr, Apply(o, DropShard(h)))
  {
    var after := Apply(o, DropShard(h));
    forall g | g in after.shards ensures g == pr.shard(after.shards[g].value) &&
      Sound(pr, after.shards[g].value, after.xorbs) {
      assert Sound(pr, o.shards[g].value, o.xorbs);
    }
    forall k | k in after.index ensures after.index[k] in after.shards && Names(after.shards[after.index[k]].value, k) {
      assert Names(o.shards[o.index[k]].value, k);
    }
    assert XorbsIntact(pr, after);
  }

  lemma EntriesKeep(pr: Protocol, o: Objects, index: map<Key, Digest>)
    requires Integrity(pr, o)
    requires forall k :: k in index && !(k in o.index && index[k] == o.index[k]) ==>
      index[k] in o.shards && Names(o.shards[index[k]].value, k)
    ensures Integrity(pr, o.(index := index))
  {
    var after := o.(index := index);
    forall k | k in index ensures index[k] in o.shards && Names(o.shards[index[k]].value, k) {
      if k in o.index && index[k] == o.index[k] { assert Names(o.shards[o.index[k]].value, k); }
    }
    forall h | h in after.shards ensures h == pr.shard(after.shards[h].value) &&
      Sound(pr, after.shards[h].value, after.xorbs) {
      assert Sound(pr, o.shards[h].value, o.xorbs);
    }
    assert XorbsIntact(pr, after);
  }

  lemma HarmlessKeepsIntegrity(pr: Protocol, o: Objects, c: Change)
    requires Integrity(pr, o) && Harmless(pr, o, c)
    ensures Integrity(pr, Apply(o, c))
  {
    match c
    case AddXorb(x, data, t) => AddXorbKeeps(pr, o, x, data, t);
    case AddShard(h, sh, t) => AddShardKeeps(pr, o, h, sh, t);
    case AddEntry(k, owner) => if k !in o.index { EntriesKeep(pr, o, o.index[k := owner]); }
    case DropEntry(k) => EntriesKeep(pr, o, o.index - {k});
    case DropShard(h) => DropShardKeeps(pr, o, h);
    case DropXorb(x) => DropXorbKeeps(pr, o, x);
  }
}
