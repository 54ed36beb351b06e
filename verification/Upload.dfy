/** What an upload will do, as a function of the store it finds and the chunks of the file. */
module Upload {
  import opened Common
  import opened HashText
  import opened Wire
  import opened ShardFormat
  import opened Store
  import opened Backend
  import opened Ingest

  // ---------------------------------------------------------------- unique chunks

  /** The number of the first body with the hash, or how many there are. */
  function NumberOf(pr: Protocol, bodies: Xorb, h: Digest): (r: nat)
    ensures r <= |bodies| && (r < |bodies| ==> pr.chunk(bodies[r]) == h)
    ensures forall j :: 0 <= j < r ==> pr.chunk(bodies[j]) != h
  {
    if bodies == [] || pr.chunk(bodies[0]) == h then 0 else 1 + NumberOf(pr, bodies[1..], h)
  }

  /** One body per chunk hash of the file, in the order of first occurrence. */
  function Unique(pr: Protocol, data: Xorb): Xorb {
    if data == [] then [] else
    var init, c := Unique(pr, data[..|data| - 1]), data[|data| - 1];
    if NumberOf(pr, init, pr.chunk(c)) < |init| then init else init + [c]
  }

  /** The number each chunk of the file has among those. */
  function Numbers(pr: Protocol, data: Xorb): (r: seq<nat>)
    ensures |r| == |data| && forall i :: 0 <= i < |r| ==> r[i] < |Unique(pr, data)|
  {
    if data == [] then [] else
    var init, c := data[..|data| - 1], data[|data| - 1];
    Numbers(pr, init) + [NumberOf(pr, Unique(pr, init), pr.chunk(c))]
  }

  function Truncate(n: nat): Word { if n < TWO32 then n else n % TWO32 }

  /** The chunks as they are listed, without a place. */
  function Listed(pr: Protocol, bodies: Xorb): (r: seq<ChunkInfo>)
    ensures |r| == |bodies|
    ensures forall j :: 0 <= j < |r| ==>
      r[j] == ChunkInfo(pr.chunk(bodies[j]), Truncate(|bodies[j]|), false, ZERO_DIGEST, 0)
  {
    seq(|bodies|, j requires 0 <= j < |bodies| =>
      ChunkInfo(pr.chunk(bodies[j]), Truncate(|bodies[j]|), false, ZERO_DIGEST, 0))
  }

  // ---------------------------------------------------------------- places the index gives

  type Places = map<Digest, Location>

  /** Where the first n chunks of a block are; a later one with the same hash takes over. */
  function BlockPlaces(cb: CasBlock, n: nat): Places
    requires n <= |cb.chunks|
  {
    if n == 0 then map[] else BlockPlaces(cb, n - 1)[cb.chunks[n - 1].hash := Location(cb.hash, Truncate(n - 1))]
  }

  /** The places the first n blocks give, over those already known. */
  function ShardPlaces(cas: seq<CasBlock>, n: nat): Places
    requires n <= |cas|
  {
    if n == 0 then map[] else ShardPlaces(cas, n - 1) + BlockPlaces(cas[n - 1], |cas[n - 1].chunks|)
  }

  /** The shard to ask about a chunk, if one owns its name. */
  function Asked(o: Objects, h: Digest): Option<Shard> {
    if ChunkKey(h) in o.index && o.index[ChunkKey(h)] in o.shards then Some(o.shards[o.index[ChunkKey(h)]].value)
    else None
  }

  /** The places known after the first n chunks: each that has none yet, and is the first or sampled, is asked for, and
      all that the shard holding it says is kept. */
  function Known(o: Objects, chunks: seq<ChunkInfo>, n: nat): Places
    requires n <= |chunks|
  {
    if n == 0 then map[] else
    var known, h := Known(o, chunks, n - 1), chunks[n - 1].hash;
    if h in known || !(n == 1 || Sampled(h)) || Asked(o, h).None? then known
    else var cas := Asked(o, h).value.cas; ShardPlaces(cas, |cas|) + known
  }

  /** The places known in the end. */
  function AllKnown(o: Objects, chunks: seq<ChunkInfo>): Places { Known(o, chunks, |chunks|) }

  // ---------------------------------------------------------------- which places those are

  /** Entry i of block b has the hash. */
  ghost predicate EntryIs(cas: seq<CasBlock>, b: nat, i: nat, h: Digest) {
    b < |cas| && i < |cas[b].chunks| && cas[b].chunks[i].hash == h
  }

  /** One of the first n blocks lists the hash. */
  ghost predicate ListsHash(cas: seq<CasBlock>, n: nat, h: Digest) {
    exists b: nat, i: nat :: b < n && EntryIs(cas, b, i, h)
  }

  /** Of the first n blocks, entry i of block b is the last with the hash. */
  ghost predicate LastWith(cas: seq<CasBlock>, n: nat, h: Digest, b: nat, i: nat) {
    && b < n && EntryIs(cas, b, i, h)
    && forall c: nat, j: nat :: c < n && (c > b || (c == b && j > i)) ==> !EntryIs(cas, c, j, h)
  }

  ghost predicate PlaceOf(cas: seq<CasBlock>, n: nat, h: Digest, loc: Location) {
    exists b: nat, i: nat :: LastWith(cas, n, h, b, i) && loc == Location(cas[b].hash, i % TWO32)
  }

  /** In the first n chunks of a block, chunk i is the last with the hash. */
  ghost predicate LastOfBlock(cb: CasBlock, n: nat, h: Digest, i: nat)
    requires n <= |cb.chunks|
  {
    i < n && cb.chunks[i].hash == h && forall j {:trigger cb.chunks[j]} :: i < j < n ==> cb.chunks[j].hash != h
  }

  lemma {:induction false} BlockPlacesAre(cb: CasBlock, n: nat, h: Digest) returns (i: nat)
    requires n <= |cb.chunks|
    ensures h in BlockPlaces(cb, n) ==>
      LastOfBlock(cb, n, h, i) && BlockPlaces(cb, n)[h] == Location(cb.hash, i % TWO32)
    ensures h !in BlockPlaces(cb, n) ==> forall j {:trigger cb.chunks[j]} :: 0 <= j < n ==> cb.chunks[j].hash != h
  {
    i := 0;
    if n > 0 {
      if cb.chunks[n - 1].hash == h { i := n - 1; } else { i := BlockPlacesAre(cb, n - 1, h); }
    }
  }

  lemma {:induction false} ShardPlacesAre(cas: seq<CasBlock>, n: nat, h: Digest)
    requires n <= |cas|
    ensures h in ShardPlaces(cas, n) ==> PlaceOf(cas, n, h, ShardPlaces(cas, n)[h])
    ensures h in ShardPlaces(cas, n) <==> ListsHash(cas, n, h)
  {
    if n > 0 {
      ShardPlacesAre(cas, n - 1, h);
      var cb := cas[n - 1];
      var i := BlockPlacesAre(cb, |cb.chunks|, h);
      if h in BlockPlaces(cb, |cb.chunks|) {
        LastInBlock(cas, n - 1, h, i);
      } else {
        NotInBlock(cas, n - 1, h);
      }
    }
  }

  lemma LastInBlock(cas: seq<CasBlock>, n: nat, h: Digest, i: nat)
    requires n < |cas| && LastOfBlock(cas[n], |cas[n].chunks|, h, i)
    ensures PlaceOf(cas, n + 1, h, Location(cas[n].hash, i % TWO32)) && ListsHash(cas, n + 1, h)
  {
    assert EntryIs(cas, n, i, h);
    assert LastWith(cas, n + 1, h, n, i);
  }

  lemma NotInBlock(cas: seq<CasBlock>, n: nat, h: Digest)
    requires n < |cas| && forall j {:trigger cas[n].chunks[j]} :: 0 <= j < |cas[n].chunks| ==>
      cas[n].chunks[j].hash != h
    ensures ListsHash(cas, n + 1, h) <==> ListsHash(cas, n, h)
    ensures forall loc {:trigger PlaceOf(cas, n + 1, h, loc)} :: PlaceOf(cas, n, h, loc) ==> PlaceOf(cas, n + 1, h, loc)
  {
    forall j: nat ensures !EntryIs(cas, n, j, h) {}
    forall loc | PlaceOf(cas, n, h, loc) ensures PlaceOf(cas, n + 1, h, loc) {
      var b: nat, i: nat :| LastWith(cas, n, h, b, i) && loc == Location(cas[b].hash, i % TWO32);
      assert LastWith(cas, n + 1, h, b, i);
    }
  }

  /** The chunk with this number is one an upload asks for: the first, or one whose hash, read as a little-endian number
      from its twenty-fifth byte on, is a multiple of 1024. */
  predicate Asks(hashes: seq<Digest>, j: nat)
    requires j < |hashes|
  {
    j == 0 || LittleEndian(hashes[j][24..32]) % 1024 == 0
  }

  /** The blocks of the shard that owns a chunk's name. */
  ghost function Owned(o: Objects, h: Digest): seq<CasBlock>
    requires ChunkKey(h) in o.index && o.index[ChunkKey(h)] in o.shards
  {
    o.shards[o.index[ChunkKey(h)]].value.cas
  }

  /** The shard that owns the name of one chunk lists another. */
  ghost predicate OwnerLists(o: Objects, owned: Digest, h: Digest) {
    && ChunkKey(owned) in o.index && o.index[ChunkKey(owned)] in o.shards
    && ListsHash(Owned(o, owned), |Owned(o, owned)|, h)
  }

  /** A shard asked for one of these chunks lists the hash. */
  ghost predicate Answered(o: Objects, hashes: seq<Digest>, asked: set<nat>, h: Digest)
    requires forall j :: j in asked ==> j < |hashes|
  {
    exists j: nat :: j in asked && OwnerLists(o, hashes[j], h)
  }

  /** The numbers, among the first n, of the chunks a shard is asked for: one owns the chunk's name, and none asked
      before lists it. */
  ghost function AskedFor(o: Objects, hashes: seq<Digest>, n: nat): (r: set<nat>)
    requires n <= |hashes|
    ensures forall j :: j in r ==> j < n
  {
    if n == 0 then {} else
    var asked, h := AskedFor(o, hashes, n - 1), hashes[n - 1];
    if Asks(hashes, n - 1) && ChunkKey(h) in o.index && o.index[ChunkKey(h)] in o.shards &&
      !Answered(o, hashes, asked, h)
    then asked + {n - 1} else asked
  }

  /** The place is that of the last entry with the hash in the first shard asked that lists it. */
  ghost predicate GivenBy(o: Objects, hashes: seq<Digest>, asked: set<nat>, j: nat, h: Digest, loc: Location)
    requires forall j :: j in asked ==> j < |hashes|
  {
    && j in asked && OwnerLists(o, hashes[j], h) && PlaceOf(Owned(o, hashes[j]), |Owned(o, hashes[j])|, h, loc)
    && forall i :: i in asked && i < j ==> !OwnerLists(o, hashes[i], h)
  }

  ghost predicate Given(o: Objects, hashes: seq<Digest>, asked: set<nat>, h: Digest, loc: Location)
    requires forall j :: j in asked ==> j < |hashes|
  {
    exists j: nat :: GivenBy(o, hashes, asked, j, h, loc)
  }

  /** The places are exactly those the shards asked give. */
  ghost predicate PlacesFound(o: Objects, hashes: seq<Digest>, asked: set<nat>, places: Places)
    requires forall j :: j in asked ==> j < |hashes|
  {
    && (forall h {:trigger Answered(o, hashes, asked, h)} {:trigger h in places} ::
      h in places <==> Answered(o, hashes, asked, h))
    && (forall h {:trigger h in places} :: h in places ==> Given(o, hashes, asked, h, places[h]))
  }

  ghost predicate KnownRight(o: Objects, chunks: seq<ChunkInfo>, n: nat) {
    n <= |chunks| ==> PlacesFound(o, Hashes(chunks), AskedFor(o, Hashes(chunks), n), Known(o, chunks, n))
  }

  lemma KnownStep(o: Objects, chunks: seq<ChunkInfo>, n: nat, m: nat)
    requires KnownRight(o, chunks, n) && m == n + 1
    ensures KnownRight(o, chunks, m)
  {
    if m <= |chunks| {
      KnownNext(o, Hashes(chunks), n, AskedFor(o, Hashes(chunks), n), AskedFor(o, Hashes(chunks), m),
        Known(o, chunks, n), Known(o, chunks, m));
    }
  }

  lemma KnownFirst(o: Objects, chunks: seq<ChunkInfo>, n: nat)
    requires n == 0
    ensures KnownRight(o, chunks, n)
  {
  }

  /** What an upload knows of places in the store. */
  lemma {:induction false} KnownIs(o: Objects, chunks: seq<ChunkInfo>, n: nat)
    ensures KnownRight(o, chunks, n)
  {
    if n == 0 {
      KnownFirst(o, chunks, n);
    } else {
      KnownIs(o, chunks, n - 1);
      KnownStep(o, chunks, n - 1, n);
    }
  }

  lemma KnownNext(o: Objects, hashes: seq<Digest>, n: nat, asked: set<nat>, more: set<nat>, known: Places, next: Places)
    requires n < |hashes| && (forall j :: j in asked ==> j < n) && PlacesFound(o, hashes, asked, known)
    requires more == if Asks(hashes, n) && ChunkKey(hashes[n]) in o.index && o.index[ChunkKey(hashes[n])] in o.shards &&
      !Answered(o, hashes, asked, hashes[n]) then asked + {n} else asked
    requires next == if hashes[n] in known || !(n == 0 || Sampled(hashes[n])) || Asked(o, hashes[n]).None? then known
      else var cas := Asked(o, hashes[n]).value.cas; ShardPlaces(cas, |cas|) + known
    ensures PlacesFound(o, hashes, more, next)
  {
    SampledByValue(hashes[n]);
    assert hashes[n] in known <==> Answered(o, hashes, asked, hashes[n]);
    if more != asked {
      forall h ensures h in next <==> Answered(o, hashes, more, h)
        ensures h in next ==> Given(o, hashes, more, h, next[h])
      {
        assert h in known <==> Answered(o, hashes, asked, h);
        ShardPlacesAre(Owned(o, hashes[n]), |Owned(o, hashes[n])|, h);
        KnownOne(o, hashes, n, asked, h, if h in known then Some(known[h]) else None,
          if h in next then Some(next[h]) else None);
      }
    }
  }

  /** The same for one hash. */
  lemma KnownOne(o: Objects, hashes: seq<Digest>, n: nat, asked: set<nat>, h: Digest, was: Option<Location>,
                 now: Option<Location>)
    requires n < |hashes| && (forall j :: j in asked ==> j < n) && (was.Some? <==> Answered(o, hashes, asked, h))
    requires was.Some? ==> Given(o, hashes, asked, h, was.value) && now == was
    requires was.None? ==> (now.Some? <==> OwnerLists(o, hashes[n], h))
    requires was.None? && now.Some? ==> PlaceOf(Owned(o, hashes[n]), |Owned(o, hashes[n])|, h, now.value)
    ensures now.Some? <==> Answered(o, hashes, asked + {n}, h)
    ensures now.Some? ==> Given(o, hashes, asked + {n}, h, now.value)
  {
    if was.Some? {
      var j: nat :| GivenBy(o, hashes, asked, j, h, was.value);
      assert GivenBy(o, hashes, asked + {n}, j, h, now.value);
    } else if now.Some? {
      assert GivenBy(o, hashes, asked + {n}, n, h, now.value);
    }
  }

  /** In an intact store, the place of a chunk is found if it is asked for and its name is taken; and what the shard
      that owns the first chunk's name lists is found. */
  lemma {:induction false} AskedIsFound(o: Objects, hashes: seq<Digest>, n: nat, j: nat)
    requires IndexIntact(o) && j < n <= |hashes| && Asks(hashes, j) && ChunkKey(hashes[j]) in o.index
    ensures Answered(o, hashes, AskedFor(o, hashes, n), hashes[j])
    ensures j == 0 ==> 0 in AskedFor(o, hashes, n)
  {
    if j < n - 1 {
      AskedIsFound(o, hashes, n - 1, j);
    } else {
      OwnerListsOwn(o, hashes[j]);
      assert j == 0 ==> AskedFor(o, hashes, n - 1) == {};
    }
  }

  lemma OwnerListsOwn(o: Objects, h: Digest)
    requires IndexIntact(o) && ChunkKey(h) in o.index
    ensures OwnerLists(o, h, h)
  {
    assert Names(o.shards[o.index[ChunkKey(h)]].value, ChunkKey(h));
    var cas := o.shards[o.index[ChunkKey(h)]].value.cas;
    var b, i :| 0 <= b < |cas| && 0 <= i < |cas[b].chunks| && cas[b].chunks[i].hash == h;
    assert EntryIs(cas, b, i, h);
  }

  // ---------------------------------------------------------------- what is left to pack

  function Move(c: ChunkInfo, loc: Location): ChunkInfo { c.(xorb := loc.xorb, index := loc.index) }

  function AssignOne(c: ChunkInfo, known: Places): ChunkInfo { if c.hash in known then Move(c, known[c.hash]) else c }

  function AssignAll(chunks: seq<ChunkInfo>, known: Places): (r: seq<ChunkInfo>)
    ensures |r| == |chunks| && forall j :: 0 <= j < |r| ==> r[j] == AssignOne(chunks[j], known)
  {
    seq(|chunks|, j requires 0 <= j < |chunks| => AssignOne(chunks[j], known))
  }

  ghost predicate Increasing(s: seq<nat>) { forall i, j :: 0 <= i < j < |s| ==> s[i] < s[j] }

  /** The numbers, among the first n, of the chunks without a place. */
  function Missing(chunks: seq<ChunkInfo>, known: Places, n: nat): (r: seq<nat>)
    requires n <= |chunks|
    ensures forall k :: 0 <= k < |r| ==> r[k] < n
  {
    if n == 0 then [] else Missing(chunks, known, n - 1) + if chunks[n - 1].hash in known then [] else [n - 1]
  }

  lemma {:induction false} MissingRight(chunks: seq<ChunkInfo>, known: Places, n: nat)
    requires n <= |chunks|
    ensures Increasing(Missing(chunks, known, n))
    ensures forall j :: 0 <= j < n ==> (j in Missing(chunks, known, n) <==> chunks[j].hash !in known)
  {
    if n > 0 { MissingRight(chunks, known, n - 1); }
  }

  /** What is to be packed: the unique chunks with their bodies, and the numbers of those no stored xorb holds. */
  datatype Job = Job(chunks: seq<ChunkInfo>, bodies: Xorb, missing: seq<nat>)

  predicate InRange(job: Job) {
    |job.chunks| == |job.bodies| && forall k :: 0 <= k < |job.missing| ==> job.missing[k] < |job.bodies|
  }

  function JobOf(pr: Protocol, o: Objects, data: Xorb): (job: Job)
    ensures InRange(job) && |job.bodies| == |Unique(pr, data)|
  {
    var bodies := Unique(pr, data);
    var chunks := Listed(pr, bodies);
    var known := Known(o, chunks, |chunks|);
    Job(AssignAll(chunks, known), bodies, Missing(chunks, known, |chunks|))
  }

  // ---------------------------------------------------------------- xorbs

  /** The bodies of missing chunks lo..hi-1. */
  function GroupBodies(bodies: Xorb, missing: seq<nat>, lo: nat, hi: nat): (r: Xorb)
    requires lo <= hi <= |missing| && forall k :: 0 <= k < |missing| ==> missing[k] < |bodies|
    ensures |r| == hi - lo && forall k :: 0 <= k < |r| ==> r[k] == bodies[missing[lo + k]]
  {
    seq(hi - lo, k requires 0 <= k < hi - lo => bodies[missing[lo + k]])
  }

  function MissingSizes(job: Job): (r: seq<nat>)
    requires InRange(job)
    ensures |r| == |job.missing| && forall k :: 0 <= k < |r| ==> r[k] == job.chunks[job.missing[k]].size
  {
    seq(|job.missing|, k requires 0 <= k < |job.missing| => job.chunks[job.missing[k]].size)
  }

  /** The numbers of missing chunks at which a xorb ends and the next begins. */
  function CutsOf(job: Job): (r: seq<nat>)
    requires InRange(job)
    ensures Climbs(r, |job.missing|)
  {
    Cuts(MissingSizes(job), MAX_XORB_SIZE)
  }

  /** Cuts from the first missing chunk to the last. */
  ghost predicate Cutting(job: Job, cuts: seq<nat>) { InRange(job) && Climbs(cuts, |job.missing|) }

  /** The chunks of xorb g. */
  function Group(job: Job, cuts: seq<nat>, g: nat): Xorb
    requires Cutting(job, cuts) && g + 1 < |cuts|
  {
    assert Rises(cuts, g);
    GroupBodies(job.bodies, job.missing, cuts[g], cuts[g + 1])
  }

  function XorbName(pr: Protocol, cs: Xorb): Digest { pr.xorb(ChunkList(pr, cs)) }

  function PlaceIn(c: ChunkInfo, x: Digest, index: Word): ChunkInfo { c.(isNew := true, xorb := x, index := index) }

  /** The missing chunks lo..hi-1 pointing at their xorb. */
  function PlaceGroup(chunks: seq<ChunkInfo>, missing: seq<nat>, lo: nat, hi: nat, name: Digest): (r: seq<ChunkInfo>)
    requires lo <= hi <= |missing| && forall k :: 0 <= k < |missing| ==> missing[k] < |chunks|
    ensures |r| == |chunks|
    decreases hi
  {
    if lo == hi then chunks else
    var init, j := PlaceGroup(chunks, missing, lo, hi - 1, name), missing[hi - 1];
    init[j := PlaceIn(init[j], name, Truncate(hi - 1 - lo))]
  }

  /** The chunks once the first n groups are packed. */
  function PlaceGroups(pr: Protocol, job: Job, cuts: seq<nat>, n: nat): (r: seq<ChunkInfo>)
    requires Cutting(job, cuts) && n < |cuts|
    ensures |r| == |job.chunks|
  {
    if n == 0 then job.chunks else
    assert Rises(cuts, n - 1);
    PlaceGroup(PlaceGroups(pr, job, cuts, n - 1), job.missing, cuts[n - 1], cuts[n],
      XorbName(pr, Group(job, cuts, n - 1)))
  }

  type Xorbs = map<Digest, Stored<Bytes>>

  /** A xorb is stored unless there is one of its name. */
  function AddGroup(pr: Protocol, xs: Xorbs, cs: Xorb, now: int): Xorbs {
    var name := XorbName(pr, cs);
    if name in xs then xs else xs[name := Stored(pr.kept(pr.encode(cs)), now)]
  }

  /** The xorbs once the first n groups are stored. */
  function AddGroups(pr: Protocol, xs: Xorbs, job: Job, cuts: seq<nat>, n: nat, now: int): Xorbs
    requires Cutting(job, cuts) && n < |cuts|
  {
    if n == 0 then xs else AddGroup(pr, AddGroups(pr, xs, job, cuts, n - 1, now), Group(job, cuts, n - 1), now)
  }

  // ---------------------------------------------------------------- the shard

  function PlacedChunks(pr: Protocol, o: Objects, data: Xorb): (r: seq<ChunkInfo>)
    ensures |r| == |Unique(pr, data)|
  {
    var job := JobOf(pr, o, data); PlaceGroups(pr, job, CutsOf(job), |CutsOf(job)| - 1)
  }

  function XorbsAfter(pr: Protocol, o: Objects, data: Xorb, now: int): Xorbs {
    var job := JobOf(pr, o, data); AddGroups(pr, o.xorbs, job, CutsOf(job), |CutsOf(job)| - 1, now)
  }

  /** The terms the file will have. */
  ghost function FileTerms(pr: Protocol, o: Objects, data: Xorb): seq<FileEntry> {
    Terms(Pick(PlacedChunks(pr, o, data), Numbers(pr, data)))
  }

  ghost function Info(pr: Protocol, data: Xorb): FileInfo {
    FileInfo(FileHash(pr, data), ZERO_DIGEST, Numbers(pr, data))
  }

  /** The shard that will describe the file. There is only one, as the blocks are sorted. */
  ghost predicate IsShard(pr: Protocol, o: Objects, data: Xorb, sh: Shard) {
    var out := PlacedChunks(pr, o, data);
    && sh.files == [Describe(pr, Info(pr, data), out)]
    && CasListing(out, if data == [] then {} else {out[Numbers(pr, data)[0]].hash}, sh.cas)
  }

  lemma OneShard(pr: Protocol, o: Objects, data: Xorb, p: Shard, q: Shard)
    requires IsShard(pr, o, data, p) && IsShard(pr, o, data, q)
    ensures p == q
  {
    var out := PlacedChunks(pr, o, data);
    OneListing(out, if data == [] then {} else {out[Numbers(pr, data)[0]].hash}, p.cas, q.cas);
  }

  // ---------------------------------------------------------------- what is hashed

  /** No two of the values have one hash. */
  ghost predicate Injective<T(!new)>(f: T -> Digest, s: set<T>) {
    forall a, b :: a in s && b in s && f(a) == f(b) ==> a == b
  }

  ghost predicate XorbsDiffer(pr: Protocol, lists: set<Xorb>) {
    forall a, b :: a in lists && b in lists && XorbName(pr, a) == XorbName(pr, b) ==> a == b
  }

  ghost predicate FilesDiffer(pr: Protocol, contents: set<Xorb>) {
    forall a, b :: a in contents && b in contents && FileHash(pr, a) == FileHash(pr, b) ==> a == b
  }

  /** The chunk lists of the stored xorbs. */
  ghost function StoredLists(pr: Protocol, xs: Xorbs): set<Xorb> {
    set x | x in xs && pr.decode(xs[x].value).Some? :: pr.decode(xs[x].value).value
  }

  /** What the stored files read as. */
  ghost function StoredContents(pr: Protocol, o: Objects): set<Xorb> {
    set h, f | h in o.shards && f in o.shards[h].value.files && Reconstruct(pr, f.entries, o.xorbs).Some? ::
      Reconstruct(pr, f.entries, o.xorbs).value
  }

  ghost function StoredShards(o: Objects): set<Shard> { set h | h in o.shards :: o.shards[h].value }

  ghost function ChunksOf(lists: set<Xorb>): set<Bytes> { set cs, c | cs in lists && c in cs :: c }

  ghost function Groups(job: Job, cuts: seq<nat>): set<Xorb>
    requires Cutting(job, cuts)
  {
    set g: nat | g < |cuts| - 1 :: Group(job, cuts, g)
  }

  /** The chunk lists an upload hashes or finds under their hash: those of the stored xorbs and its own groups. */
  ghost function ListsAtHand(pr: Protocol, o: Objects, data: Xorb): set<Xorb> {
    var job := JobOf(pr, o, data); StoredLists(pr, o.xorbs) + Groups(job, CutsOf(job))
  }

  /** The file, what the stored files read as, and what its own terms read as. */
  ghost function ContentsWith(pr: Protocol, o: Objects, data: Xorb, read: Option<Xorb>): set<Xorb> {
    {data} + StoredContents(pr, o) + if read.Some? then {read.value} else {}
  }

  /** The contents an upload hashes or finds under their hash. */
  ghost function ContentsAtHand(pr: Protocol, o: Objects, data: Xorb, now: int): set<Xorb> {
    ContentsWith(pr, o, data, Reconstruct(pr, FileTerms(pr, o, data), XorbsAfter(pr, o, data, now)))
  }

  /** Shard p, as it would be stored: every file stamped. */
  ghost predicate WillStore(pr: Protocol, o: Objects, data: Xorb, now: int, p: Shard) {
    exists sh :: IsShard(pr, o, data, sh) && Acceptable(pr, sh, XorbsAfter(pr, o, data, now)) &&
      p == Prepared(pr, sh, XorbsAfter(pr, o, data, now))
  }

  /** No shard stored already has the name of the one to come, unless it is that one. */
  ghost predicate ShardsDiffer(pr: Protocol, o: Objects, data: Xorb, now: int) {
    forall p, q :: WillStore(pr, o, data, now, p) && q in StoredShards(o) && pr.shard(p) == pr.shard(q) ==> p == q
  }

  /** No two different things an upload hashes, or finds in the store under a hash, have the same hash. They are
      finitely many and known beforehand. */
  ghost predicate Unambiguous(pr: Protocol, o: Objects, data: Xorb, now: int) {
    && Injective(pr.chunk, ChunksOf(StoredLists(pr, o.xorbs) + {data}))
    && XorbsDiffer(pr, ListsAtHand(pr, o, data))
    && FilesDiffer(pr, ContentsAtHand(pr, o, data, now))
    && ShardsDiffer(pr, o, data, now)
  }
}
