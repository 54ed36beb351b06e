/** Storing a whole file, and why reading it back returns the same bytes. */
module PutFile {
  import opened Common
  import opened HashText
  import opened Wire
  import opened ShardFormat
  import opened Store
  import opened Backend
  import opened Ingest
  import opened Upload
  import Chunker
  import D = ShardDecoder
  import V = Validity
  import GearTable

  /** What an encoder makes of chunks holds them, and its offset table is straight. */
  ghost predicate Faithful(pr: Protocol) {
    forall cs {:trigger pr.encode(cs)} :: WithinLimits(cs) ==>
      var data := pr.kept(pr.encode(cs)); pr.decode(data) == Some(cs) && Straight(pr, data)
  }

  // ---------------------------------------------------------------- unique chunks

  ghost predicate Describes(pr: Protocol, c: ChunkInfo, body: Bytes) {
    c.hash == pr.chunk(body) && c.size == |body|
  }

  ghost predicate HashesDiffer(cs: seq<ChunkInfo>) {
    forall i, j :: 0 <= i < j < |cs| ==> cs[i].hash != cs[j].hash
  }

  ghost predicate Small(data: Xorb) { forall i :: 0 <= i < |data| ==> |data[i]| <= MAX_CHUNK_SIZE }

  /** The map says of each hash which body has it. */
  ghost predicate Numbering(pr: Protocol, unique: map<Digest, nat>, bodies: Xorb) {
    forall h: Digest ::
      if NumberOf(pr, bodies, h) < |bodies| then h in unique && unique[h] == NumberOf(pr, bodies, h) else h !in unique
  }

  lemma {:induction false} NumberOfSnoc(pr: Protocol, bodies: Xorb, c: Bytes, h: Digest)
    ensures var n := NumberOf(pr, bodies, h);
      NumberOf(pr, bodies + [c], h) == if n < |bodies| then n else if pr.chunk(c) == h then |bodies| else |bodies| + 1
  {
    if bodies != [] {
      assert (bodies + [c])[1..] == bodies[1..] + [c];
      NumberOfSnoc(pr, bodies[1..], c, h);
    }
  }

  lemma NumberingSnoc(pr: Protocol, unique: map<Digest, nat>, bodies: Xorb, c: Bytes)
    requires Numbering(pr, unique, bodies) && pr.chunk(c) !in unique
    ensures Numbering(pr, unique[pr.chunk(c) := |bodies|], bodies + [c])
  {
    forall h: Digest ensures
      var n := NumberOf(pr, bodies + [c], h);
      if n < |bodies| + 1 then h in unique[pr.chunk(c) := |bodies|] && unique[pr.chunk(c) := |bodies|][h] == n
      else h !in unique[pr.chunk(c) := |bodies|]
    {
      NumberOfSnoc(pr, bodies, c, h);
    }
  }

  lemma ListedSnoc(pr: Protocol, bodies: Xorb, c: Bytes)
    ensures Listed(pr, bodies + [c]) == Listed(pr, bodies) +
      [ChunkInfo(pr.chunk(c), Truncate(|c|), false, ZERO_DIGEST, 0)]
  {
  }

  lemma OneMoreUnique(pr: Protocol, data: Xorb, n: nat)
    requires n < |data|
    ensures var init, k := Unique(pr, data[..n]), NumberOf(pr, Unique(pr, data[..n]), pr.chunk(data[n]));
      && Unique(pr, data[..n + 1]) == (if k < |init| then init else init + [data[n]])
      && Numbers(pr, data[..n + 1]) == Numbers(pr, data[..n]) + [k]
  {
    assert data[..n + 1][..n] == data[..n];
  }

  /** Lists the unique chunks in first-occurrence order, with the chunk number of every chunk of the file. */
  method UniqueChunks(pr: Protocol, data: Xorb) returns (chunks: seq<ChunkInfo>, bodies: Xorb, indices: seq<nat>)
    ensures bodies == Unique(pr, data) && chunks == Listed(pr, bodies) && indices == Numbers(pr, data)
  {
    chunks, bodies, indices := [], [], [];
    var unique: map<Digest, nat> := map[];
    for n := 0 to |data|
      invariant bodies == Unique(pr, data[..n]) && chunks == Listed(pr, bodies) && indices == Numbers(pr, data[..n])
      invariant Numbering(pr, unique, bodies)
    {
      OneMoreUnique(pr, data, n);
      var h := pr.chunk(data[n]);
      assert h in unique <==> NumberOf(pr, bodies, h) < |bodies|;
      if h in unique {
        indices := indices + [unique[h]];
      } else {
        NumberingSnoc(pr, unique, bodies, data[n]);
        ListedSnoc(pr, bodies, data[n]);
        unique := unique[h := |chunks|];
        indices := indices + [|chunks|];
        chunks := chunks + [ChunkInfo(h, Truncate(|data[n]|), false, ZERO_DIGEST, 0)];
        bodies := bodies + [data[n]];
      }
    }
    assert data[..|data|] == data;
  }

  lemma {:induction false} UniqueDiffer(pr: Protocol, data: Xorb)
    ensures HashesDiffer(Listed(pr, Unique(pr, data))) && (data != [] ==> Unique(pr, data) != [])
    ensures |Unique(pr, data)| <= |data| && forall j :: 0 <= j < |Unique(pr, data)| ==> Unique(pr, data)[j] in data
  {
    if data != [] {
      UniqueDiffer(pr, data[..|data| - 1]);
    }
  }

  /** Every chunk of the file has the hash of the listed chunk with its number. */
  lemma {:induction false} NumbersRight(pr: Protocol, data: Xorb, i: nat)
    requires i < |data|
    ensures pr.chunk(Unique(pr, data)[Numbers(pr, data)[i]]) == pr.chunk(data[i])
  {
    var n := |data| - 1;
    if i < n {
      assert data[..n][i] == data[i];
      NumbersRight(pr, data[..n], i);
      assert Unique(pr, data)[..|Unique(pr, data[..n])|] == Unique(pr, data[..n]);
    }
  }

  // ---------------------------------------------------------------- chunks a stored shard already holds

  /** The stored xorb has, at the location, a chunk with this hash. */
  ghost predicate Holds(pr: Protocol, xs: map<Digest, Stored<Bytes>>, h: Digest, loc: Location) {
    && loc.xorb in xs
    && var x := pr.decode(xs[loc.xorb].value); x.Some? && loc.index < |x.value| && pr.chunk(x.value[loc.index]) == h
  }

  /** All the places are right. */
  ghost predicate AllHold(pr: Protocol, xs: Xorbs, places: Places) {
    forall h :: h in places ==> Holds(pr, xs, h, places[h])
  }

  /** Every chunk a shard lists, with where it stores it. */
  method ChunkLocations(sh: Shard) returns (r: Places)
    ensures r == ShardPlaces(sh.cas, |sh.cas|)
  {
    r := map[];
    for b := 0 to |sh.cas|
      invariant r == ShardPlaces(sh.cas, b)
    {
      for i := 0 to |sh.cas[b].chunks|
        invariant r == ShardPlaces(sh.cas, b) + BlockPlaces(sh.cas[b], i)
      {
        r := r[sh.cas[b].chunks[i].hash := Location(sh.cas[b].hash, Truncate(i))];
      }
    }
  }

  lemma {:induction false} BlockPlacesHold(pr: Protocol, o: Objects, cb: CasBlock, n: nat)
    requires CasMatches(pr, cb, o.xorbs) && XorbsIntact(pr, o) && n <= |cb.chunks|
    ensures AllHold(pr, o.xorbs, BlockPlaces(cb, n))
  {
    if n > 0 {
      BlockPlacesHold(pr, o, cb, n - 1);
      assert ValidXorb(pr, cb.hash, o.xorbs[cb.hash].value);
    }
  }

  lemma {:induction false} ShardPlacesHold(pr: Protocol, o: Objects, sh: Shard, n: nat)
    requires Sound(pr, sh, o.xorbs) && XorbsIntact(pr, o) && n <= |sh.cas|
    ensures AllHold(pr, o.xorbs, ShardPlaces(sh.cas, n))
  {
    if n > 0 {
      ShardPlacesHold(pr, o, sh, n - 1);
      assert CasMatches(pr, sh.cas[n - 1], o.xorbs);
      BlockPlacesHold(pr, o, sh.cas[n - 1], |sh.cas[n - 1].chunks|);
    }
  }

  /** In an intact store every place the index gives holds a chunk with the hash. */
  lemma {:induction false} KnownHold(pr: Protocol, o: Objects, chunks: seq<ChunkInfo>, n: nat)
    requires Integrity(pr, o) && n <= |chunks|
    ensures AllHold(pr, o.xorbs, Known(o, chunks, n))
  {
    if n > 0 {
      KnownHold(pr, o, chunks, n - 1);
      var asked := Asked(o, chunks[n - 1].hash);
      if asked.Some? {
        assert Sound(pr, o.shards[o.index[ChunkKey(chunks[n - 1].hash)]].value, o.xorbs);
        ShardPlacesHold(pr, o, asked.value, |asked.value.cas|);
      }
    }
  }

  /** The places are exactly those the shards asked give. */
  ghost predicate PlacesAre(o: Objects, chunks: seq<ChunkInfo>, located: Places) {
    PlacesFound(o, Hashes(chunks), AskedFor(o, Hashes(chunks), |chunks|), located)
  }

  /** Every chunk an upload asks for that is indexed has a place. */
  ghost predicate AskedLocated(o: Objects, chunks: seq<ChunkInfo>, located: Places) {
    forall j :: 0 <= j < |chunks| && Asks(Hashes(chunks), j) && ChunkKey(chunks[j].hash) in o.index ==>
      chunks[j].hash in located
  }

  /** Everything that the shard owning the first chunk's name lists has a place. */
  ghost predicate OwnerLocated(o: Objects, chunks: seq<ChunkInfo>, located: Places) {
    |chunks| > 0 ==> forall h :: OwnerLists(o, chunks[0].hash, h) ==> h in located
  }

  /** Asks the store for a shard holding each probe-able chunk and keeps every location those shards give. */
  method Locate(st: Storage, chunks: seq<ChunkInfo>) returns (located: Places)
    requires st.Valid()
    ensures located == AllKnown(st.o, chunks) && AllHold(st.pr, st.o.xorbs, located)
    ensures PlacesAre(st.o, chunks, located) && AskedLocated(st.o, chunks, located)
    ensures OwnerLocated(st.o, chunks, located)
  {
    located := map[];
    for i := 0 to |chunks|
      invariant located == Known(st.o, chunks, i)
    {
      var h := chunks[i].hash;
      if h in located || !(i == 0 || Sampled(h)) { continue; }
      var sh := st.ShardByName(ChunkKey(h));
      if sh.None? { continue; }
      var more := ChunkLocations(sh.value);
      located := more + located;
    }
    assert Integrity(st.pr, st.o);
    KnownHold(st.pr, st.o, chunks, |chunks|);
    KnownIs(st.o, chunks, |chunks|);
    forall j | 0 <= j < |chunks| && Asks(Hashes(chunks), j) && ChunkKey(chunks[j].hash) in st.o.index
      ensures chunks[j].hash in located
    {
      AskedIsFound(st.o, Hashes(chunks), |chunks|, j);
    }
    if |chunks| > 0 && ChunkKey(chunks[0].hash) in st.o.index { AskedIsFound(st.o, Hashes(chunks), |chunks|, 0); }
  }

  // ---------------------------------------------------------------- packing the rest

  ghost predicate AssignedUpTo(chunks: seq<ChunkInfo>, located: Places, out: seq<ChunkInfo>, missing: seq<nat>, j: nat)
  {
    && j <= |chunks| && |out| == j && missing == Missing(chunks, located, j)
    && forall i {:trigger out[i]} :: 0 <= i < j ==> out[i] == AssignOne(chunks[i], located)
  }

  lemma AssignedNext(chunks: seq<ChunkInfo>, located: Places, out: seq<ChunkInfo>, missing: seq<nat>, j: nat)
    requires AssignedUpTo(chunks, located, out, missing, j) && j < |chunks|
    ensures AssignedUpTo(chunks, located, out + [AssignOne(chunks[j], located)],
      if chunks[j].hash in located then missing else missing + [j], j + 1)
  {
  }

  /** Copies known locations into the chunk list and returns the numbers of the chunks left to store. */
  method Assign(chunks: seq<ChunkInfo>, located: Places) returns (out: seq<ChunkInfo>, missing: seq<nat>)
    ensures out == AssignAll(chunks, located) && missing == Missing(chunks, located, |chunks|)
  {
    out, missing := [], [];
    for j := 0 to |chunks|
      invariant AssignedUpTo(chunks, located, out, missing, j)
    {
      AssignedNext(chunks, located, out, missing, j);
      if chunks[j].hash in located {
        out := out + [Move(chunks[j], located[chunks[j].hash])];
      } else {
        out, missing := out + [chunks[j]], missing + [j];
      }
    }
    assert out == AssignAll(chunks, located);
  }

  ghost predicate BodiesDiffer(bodies: Xorb) { forall i, j :: 0 <= i < j < |bodies| ==> bodies[i] != bodies[j] }

  ghost predicate Packable(pr: Protocol, job: Job) {
    && |job.chunks| == |job.bodies| && HashesDiffer(job.chunks) && Small(job.bodies) && Increasing(job.missing)
    && (forall k :: 0 <= k < |job.missing| ==> job.missing[k] < |job.chunks|)
    && forall j {:trigger job.chunks[j]} :: 0 <= j < |job.chunks| ==>
         Describes(pr, job.chunks[j], job.bodies[j]) && !job.chunks[j].isNew
  }

  /** Different hashes come from different bodies. */
  lemma DifferentBodies(pr: Protocol, job: Job)
    requires Packable(pr, job)
    ensures BodiesDiffer(job.bodies)
  {
    forall i, j | 0 <= i < j < |job.bodies| ensures job.bodies[i] != job.bodies[j] {
      assert Describes(pr, job.chunks[i], job.bodies[i]) && Describes(pr, job.chunks[j], job.bodies[j]);
    }
  }

  ghost predicate Grown(a: Objects, b: Objects) {
    && b.shards == a.shards && b.index == a.index
    && forall x :: x in a.xorbs ==> x in b.xorbs && b.xorbs[x] == a.xorbs[x]
  }

  /** A stream an encoder made. */
  ghost predicate FromEncoder(pr: Protocol, data: Bytes) {
    exists cs {:trigger pr.encode(cs)} :: WithinLimits(cs) && data == pr.kept(pr.encode(cs))
  }

  /** Nothing stored was touched, and what was added an encoder made. */
  ghost predicate Added(pr: Protocol, xs: map<Digest, Stored<Bytes>>, ys: map<Digest, Stored<Bytes>>) {
    && (forall x {:trigger x in ys} :: x in xs ==> x in ys && ys[x] == xs[x])
    && (forall x {:trigger x in ys} :: x in ys && x !in xs ==> FromEncoder(pr, ys[x].value))
  }

  /** Xorbs were added, all of them by the encoder. */
  ghost predicate Extended(pr: Protocol, a: Objects, b: Objects) { Grown(a, b) && Added(pr, a.xorbs, b.xorbs) }

  lemma ExtendedStraight(pr: Protocol, a: Objects, b: Objects)
    requires Faithful(pr) && Extended(pr, a, b) && AllStraight(pr, a.xorbs)
    ensures AllStraight(pr, b.xorbs)
  {
    forall x | x in b.xorbs ensures Straight(pr, b.xorbs[x].value) {
      if x in a.xorbs {
        assert Straight(pr, a.xorbs[x].value);
      } else {
        var cs :| WithinLimits(cs) && b.xorbs[x].value == pr.kept(pr.encode(cs));
      }
    }
  }

  lemma ExtendedTwice(pr: Protocol, a: Objects, b: Objects, c: Objects)
    requires Extended(pr, a, b) && Extended(pr, b, c)
    ensures Extended(pr, a, c)
  {
  }

  lemma AddGroupExtends(pr: Protocol, o: Objects, cs: Xorb, now: int)
    requires WithinLimits(cs)
    ensures Extended(pr, o, o.(xorbs := AddGroup(pr, o.xorbs, cs, now)))
  {
    assert FromEncoder(pr, pr.kept(pr.encode(cs)));
  }

  /** Stores one group as a xorb, unless there is one of its name. */
  method StoreXorb(st: Storage, content: Xorb, now: int) returns (name: Digest)
    requires st.Valid() && Faithful(st.pr) && WithinLimits(content)
    modifies st
    ensures st.Valid() && old(st.trace) <= st.trace && name == XorbName(st.pr, content)
    ensures st.o == old(st.o).(xorbs := AddGroup(st.pr, old(st.o).xorbs, content, now))
  {
    name := XorbName(st.pr, content);
    ghost var data := st.pr.kept(st.pr.encode(content));
    assert st.pr.decode(data) == Some(content);
    var ok, inserted := st.PutXorb(name, st.pr.encode(content), now);
  }

  /** Where among the missing chunks each stored group begins and ends. */
  type Spans = map<Digest, (nat, nat)>

  /** Missing chunk k has been given its place in its group's xorb. */
  ghost predicate Packed(pr: Protocol, job: Job, out: seq<ChunkInfo>, groups: Spans, k: nat)
    requires Packable(pr, job) && k < |job.missing| && |out| == |job.chunks|
  {
    var j := job.missing[k];
    var x := out[j].xorb;
    && x in groups && groups[x].0 <= k < groups[x].1 && k - groups[x].0 < TWO32
    && out[j] == PlaceIn(job.chunks[j], x, k - groups[x].0)
  }

  /** Xorb x holds the missing chunks of its group, which all point at it. */
  ghost predicate GroupStored(pr: Protocol, job: Job, out: seq<ChunkInfo>, groups: Spans,
                              xs: map<Digest, Stored<Bytes>>, n: nat, x: Digest)
    requires Packable(pr, job) && |out| == |job.chunks| && n <= |job.missing| && x in groups
  {
    var (lo, hi) := groups[x];
    && lo < hi <= n && x in xs && pr.decode(xs[x].value) == Some(GroupBodies(job.bodies, job.missing, lo, hi))
    && forall k {:trigger job.missing[k]} :: lo <= k < hi ==> out[job.missing[k]].xorb == x
  }

  /** The state after the first n missing chunks were packed. */
  ghost predicate PackedUpTo(pr: Protocol, job: Job, out: seq<ChunkInfo>, groups: Spans,
                             xs: map<Digest, Stored<Bytes>>, n: nat)
  {
    && Packable(pr, job) && |out| == |job.chunks| && n <= |job.missing|
    && (forall k {:trigger job.missing[k]} {:trigger Packed(pr, job, out, groups, k)} ::
          0 <= k < n ==> Packed(pr, job, out, groups, k))
    && (forall x {:trigger GroupStored(pr, job, out, groups, xs, n, x)} ::
          x in groups ==> GroupStored(pr, job, out, groups, xs, n, x))
    && (forall j {:trigger out[j]} :: 0 <= j < |out| && j !in job.missing[..n] ==> out[j] == job.chunks[j])
  }

  /** The chunks of group [lo, hi) point at their xorb and nothing else has changed. */
  ghost predicate GroupPlaced(job: Job, before: seq<ChunkInfo>, out: seq<ChunkInfo>, lo: nat, hi: nat, name: Digest) {
    && |out| == |before| == |job.chunks| && lo <= hi <= |job.missing| && hi - lo <= MAX_CHUNKS
    && (forall k :: 0 <= k < |job.missing| ==> job.missing[k] < |job.chunks|)
    && (forall k {:trigger job.missing[k]} :: lo <= k < hi ==>
          out[job.missing[k]] == PlaceIn(before[job.missing[k]], name, k - lo))
    && (forall j {:trigger out[j]} :: 0 <= j < |out| && j !in job.missing[lo..hi] ==> out[j] == before[j])
  }

  /** Chunks outside the group stay. */
  lemma {:induction false} PlacedElsewhere(chunks: seq<ChunkInfo>, missing: seq<nat>, lo: nat, hi: nat, name: Digest,
                                           j: nat)
    requires lo <= hi <= |missing| && (forall k :: 0 <= k < |missing| ==> missing[k] < |chunks|) && j < |chunks|
    requires forall k {:trigger missing[k]} :: lo <= k < hi ==> missing[k] != j
    ensures PlaceGroup(chunks, missing, lo, hi, name)[j] == chunks[j]
    decreases hi
  {
    if lo < hi { PlacedElsewhere(chunks, missing, lo, hi - 1, name, j); }
  }

  /** Chunk k of the group gets its place. */
  lemma {:induction false} PlacedThere(chunks: seq<ChunkInfo>, missing: seq<nat>, lo: nat, hi: nat, name: Digest,
                                       k: nat)
    requires lo <= k < hi <= |missing| && Increasing(missing) && forall k :: 0 <= k < |missing| ==>
      missing[k] < |chunks|
    ensures PlaceGroup(chunks, missing, lo, hi, name)[missing[k]] == PlaceIn(chunks[missing[k]], name, Truncate(k - lo))
    decreases hi
  {
    NotEarlier(missing, lo, hi - 1);
    if k == hi - 1 {
      PlacedElsewhere(chunks, missing, lo, hi - 1, name, missing[k]);
    } else {
      PlacedThere(chunks, missing, lo, hi - 1, name, k);
    }
  }

  lemma GroupIsPlaced(job: Job, before: seq<ChunkInfo>, lo: nat, hi: nat, name: Digest)
    requires Increasing(job.missing) && InRange(job) && |before| == |job.chunks| && lo <= hi <= |job.missing| &&
      hi - lo <= MAX_CHUNKS
    ensures GroupPlaced(job, before, PlaceGroup(before, job.missing, lo, hi, name), lo, hi, name)
  {
    var out := PlaceGroup(before, job.missing, lo, hi, name);
    forall k | lo <= k < hi ensures out[job.missing[k]] == PlaceIn(before[job.missing[k]], name, k - lo) {
      PlacedThere(before, job.missing, lo, hi, name, k);
    }
    forall j | 0 <= j < |out| && j !in job.missing[lo..hi] ensures out[j] == before[j] {
      forall k | lo <= k < hi ensures job.missing[k] != j { assert job.missing[lo..hi][k - lo] == job.missing[k]; }
      PlacedElsewhere(before, job.missing, lo, hi, name, j);
    }
  }

  lemma NotEarlier(missing: seq<nat>, lo: nat, k: nat)
    requires Increasing(missing) && lo <= k < |missing|
    ensures missing[k] !in missing[..k] && missing[k] !in missing[lo..k]
    ensures forall i {:trigger missing[i]} :: lo <= i < k ==> missing[i] != missing[k]
  {
    forall j | 0 <= j < k ensures missing[..k][j] != missing[k] { assert missing[j] < missing[k]; }
  }

  lemma NewGroupName(pr: Protocol, job: Job, out: seq<ChunkInfo>, groups: Spans, xs: map<Digest, Stored<Bytes>>,
                     lo: nat, hi: nat, name: Digest)
    requires PackedUpTo(pr, job, out, groups, xs, lo) && lo < hi <= |job.missing|
    requires name in xs && pr.decode(xs[name].value) == Some(GroupBodies(job.bodies, job.missing, lo, hi))
    ensures name !in groups
  {
    DifferentBodies(pr, job);
    if name in groups {
      assert GroupStored(pr, job, out, groups, xs, lo, name);
      GroupsDiffer(job.bodies, job.missing, groups[name].0, groups[name].1, lo, hi);
      assert false;
    }
  }

  lemma GroupsDiffer(bodies: Xorb, missing: seq<nat>, l: nat, h: nat, lo: nat, hi: nat)
    requires l < h <= lo < hi <= |missing| && Increasing(missing) && BodiesDiffer(bodies)
    requires forall k :: 0 <= k < |missing| ==> missing[k] < |bodies|
    ensures GroupBodies(bodies, missing, l, h) != GroupBodies(bodies, missing, lo, hi)
  {
    assert missing[l] < missing[lo];
    assert GroupBodies(bodies, missing, l, h)[0] == bodies[missing[l]];
    assert GroupBodies(bodies, missing, lo, hi)[0] == bodies[missing[lo]];
  }

  lemma PackedGrows(pr: Protocol, job: Job, out: seq<ChunkInfo>, groups: Spans, a: Objects, b: Objects, n: nat)
    requires PackedUpTo(pr, job, out, groups, a.xorbs, n) && Grown(a, b)
    ensures PackedUpTo(pr, job, out, groups, b.xorbs, n)
  {
    forall x | x in groups ensures GroupStored(pr, job, out, groups, b.xorbs, n, x) {
      assert GroupStored(pr, job, out, groups, a.xorbs, n, x);
    }
  }

  /** Chunks outside the group are as before. */
  lemma OthersKept(pr: Protocol, job: Job, before: seq<ChunkInfo>, out: seq<ChunkInfo>, lo: nat, hi: nat, name: Digest,
                   k: nat)
    requires Packable(pr, job) && GroupPlaced(job, before, out, lo, hi, name) && k < lo
    ensures out[job.missing[k]] == before[job.missing[k]]
  {
    forall i | 0 <= i < hi - lo ensures job.missing[lo..hi][i] != job.missing[k] {
      assert job.missing[k] < job.missing[lo + i];
    }
  }

  lemma PackedOneMore(pr: Protocol, job: Job, before: seq<ChunkInfo>, out: seq<ChunkInfo>, groups: Spans,
                      xs: map<Digest, Stored<Bytes>>, lo: nat, hi: nat, name: Digest)
    requires PackedUpTo(pr, job, before, groups, xs, lo) && lo < hi <= |job.missing| && name !in groups
    requires name in xs && pr.decode(xs[name].value) == Some(GroupBodies(job.bodies, job.missing, lo, hi))
    requires GroupPlaced(job, before, out, lo, hi, name)
    ensures PackedUpTo(pr, job, out, groups[name := (lo, hi)], xs, hi)
  {
    var grown := groups[name := (lo, hi)];
    forall k | 0 <= k < hi ensures Packed(pr, job, out, grown, k) {
      if k < lo {
        assert Packed(pr, job, before, groups, k);
        OthersKept(pr, job, before, out, lo, hi, name, k);
      } else {
        NotEarlier(job.missing, lo, k);
        assert job.missing[k] !in job.missing[..lo];
        assert before[job.missing[k]] == job.chunks[job.missing[k]];
      }
    }
    forall x | x in grown ensures GroupStored(pr, job, out, grown, xs, hi, x) {
      if x != name { EarlierGroupKept(pr, job, before, out, groups, xs, lo, hi, name, x); }
    }
    forall j | 0 <= j < |out| && j !in job.missing[..hi] ensures out[j] == job.chunks[j] {
      assert job.missing[..hi] == job.missing[..lo] + job.missing[lo..hi];
      assert before[j] == job.chunks[j];
    }
  }

  lemma EarlierGroupKept(pr: Protocol, job: Job, before: seq<ChunkInfo>, out: seq<ChunkInfo>, groups: Spans,
                         xs: map<Digest, Stored<Bytes>>, lo: nat, hi: nat, name: Digest, x: Digest)
    requires PackedUpTo(pr, job, before, groups, xs, lo) && lo < hi <= |job.missing| && x in groups && x != name
    requires GroupPlaced(job, before, out, lo, hi, name)
    ensures GroupStored(pr, job, out, groups[name := (lo, hi)], xs, hi, x)
  {
    assert GroupStored(pr, job, before, groups, xs, lo, x);
    forall k | groups[x].0 <= k < groups[x].1 ensures out[job.missing[k]].xorb == x {
      OthersKept(pr, job, before, out, lo, hi, name, k);
      assert before[job.missing[k]].xorb == x;
    }
  }

  /** The sizes of the missing chunks, as the grouping sees them. */
  ghost predicate SizesOf(bodies: Xorb, missing: seq<nat>, sizes: seq<nat>) {
    |sizes| == |missing| && forall k :: 0 <= k < |missing| ==> missing[k] < |bodies| && sizes[k] == |bodies[missing[k]]|
  }

  lemma SizesRight(pr: Protocol, job: Job)
    requires Packable(pr, job)
    ensures InRange(job) && SizesOf(job.bodies, job.missing, MissingSizes(job))
  {
    forall k | 0 <= k < |job.missing| ensures MissingSizes(job)[k] == |job.bodies[job.missing[k]]| {
      assert Describes(pr, job.chunks[job.missing[k]], job.bodies[job.missing[k]]);
    }
  }

  method CollectSizes(job: Job) returns (sizes: seq<nat>)
    requires InRange(job)
    ensures sizes == MissingSizes(job)
  {
    sizes := [];
    for k := 0 to |job.missing|
      invariant sizes == MissingSizes(job)[..k]
    {
      sizes := sizes + [job.chunks[job.missing[k]].size];
    }
  }

  lemma GroupWithinLimits(bodies: Xorb, missing: seq<nat>, sizes: seq<nat>, lo: nat, hi: nat)
    requires SizesOf(bodies, missing, sizes) && Packs(sizes, lo, hi, MAX_XORB_SIZE) && Small(bodies)
    ensures WithinLimits(GroupBodies(bodies, missing, lo, hi))
  {
    var content := GroupBodies(bodies, missing, lo, hi);
    assert Lengths(content) == sizes[lo..hi];
    if hi - lo == 1 {
      assert content == [bodies[missing[lo]]];
      TotalSizeOne(bodies[missing[lo]]);
    }
  }

  /** Group g fits a xorb. */
  ghost predicate FitsAt(job: Job, cuts: seq<nat>, g: nat)
    requires Cutting(job, cuts) && g + 1 < |cuts|
  {
    WithinLimits(Group(job, cuts, g)) && cuts[g] < cuts[g + 1] <= cuts[g] + MAX_CHUNKS
  }

  ghost predicate Fitting(job: Job, cuts: seq<nat>) {
    && Cutting(job, cuts)
    && forall g {:trigger FitsAt(job, cuts, g)} :: 0 <= g < |cuts| - 1 ==> FitsAt(job, cuts, g)
  }

  lemma CutsFit(pr: Protocol, job: Job)
    requires Packable(pr, job) && InRange(job)
    ensures Fitting(job, CutsOf(job))
  {
    var cuts := CutsOf(job);
    SizesRight(pr, job);
    forall g | 0 <= g < |cuts| - 1 ensures FitsAt(job, cuts, g) {
      CutPacks(MissingSizes(job), MAX_XORB_SIZE, g);
      GroupWithinLimits(job.bodies, job.missing, MissingSizes(job), cuts[g], cuts[g + 1]);
    }
  }

  /** Points the chunks of one stored group at their xorb. */
  method PointAt(chunks: seq<ChunkInfo>, missing: seq<nat>, group: seq<nat>, ghost lo: nat, ghost hi: nat, name: Digest)
    returns (out: seq<ChunkInfo>)
    requires lo <= hi <= |missing| && group == Ingest.Span(lo, hi)
    requires forall k :: 0 <= k < |missing| ==> missing[k] < |chunks|
    ensures out == PlaceGroup(chunks, missing, lo, hi, name)
  {
    out := chunks;
    for j := 0 to |group|
      invariant out == PlaceGroup(chunks, missing, lo, lo + j, name)
    {
      var c := missing[group[j]];
      out := out[c := PlaceIn(out[c], name, Truncate(j))];
    }
  }

  /** Gathers the bodies of a group. */
  method Gather(job: Job, group: seq<nat>, ghost lo: nat, ghost hi: nat) returns (content: Xorb)
    requires InRange(job) && lo <= hi <= |job.missing| && group == Ingest.Span(lo, hi)
    ensures content == GroupBodies(job.bodies, job.missing, lo, hi)
  {
    content := [];
    for j := 0 to |group|
      invariant content == GroupBodies(job.bodies, job.missing, lo, hi)[..j]
    {
      content := content + [job.bodies[job.missing[group[j]]]];
    }
  }

  /** The state of the store and the chunks once the first g groups are packed. */
  ghost predicate StoredUpTo(pr: Protocol, before: Objects, job: Job, cuts: seq<nat>, g: nat, now: int, after: Objects,
                             out: seq<ChunkInfo>) {
    && Cutting(job, cuts) && g < |cuts| && out == PlaceGroups(pr, job, cuts, g)
    && after == before.(xorbs := AddGroups(pr, before.xorbs, job, cuts, g, now)) && Extended(pr, before, after)
  }

  lemma StoredNext(pr: Protocol, before: Objects, job: Job, cuts: seq<nat>, g: nat, now: int, mid: Objects,
                   chunks: seq<ChunkInfo>)
    requires StoredUpTo(pr, before, job, cuts, g, now, mid, chunks) && g + 1 < |cuts| &&
      WithinLimits(Group(job, cuts, g))
    ensures StoredUpTo(pr, before, job, cuts, g + 1, now,
      mid.(xorbs := AddGroup(pr, mid.xorbs, Group(job, cuts, g), now)),
      PlaceGroup(chunks, job.missing, cuts[g], cuts[g + 1], XorbName(pr, Group(job, cuts, g))))
  {
    AddGroupExtends(pr, mid, Group(job, cuts, g), now);
    ExtendedTwice(pr, before, mid, mid.(xorbs := AddGroup(pr, mid.xorbs, Group(job, cuts, g), now)));
  }

  /** Packs and stores a group and points its chunks at it. */
  method PackGroup(st: Storage, job: Job, chunks: seq<ChunkInfo>, group: seq<nat>, ghost lo: nat, ghost hi: nat,
                   now: int)
    returns (out: seq<ChunkInfo>)
    requires st.Valid() && Faithful(st.pr) && InRange(job) && |chunks| == |job.chunks|
    requires lo <= hi <= |job.missing| && group == Ingest.Span(lo, hi)
    requires WithinLimits(GroupBodies(job.bodies, job.missing, lo, hi))
    modifies st
    ensures var cs := GroupBodies(job.bodies, job.missing, lo, hi);
      && st.Valid() && old(st.trace) <= st.trace
      && st.o == old(st.o).(xorbs := AddGroup(st.pr, old(st.o).xorbs, cs, now))
      && out == PlaceGroup(chunks, job.missing, lo, hi, XorbName(st.pr, cs))
  {
    var content := Gather(job, group, lo, hi);
    var name := StoreXorb(st, content, now);
    out := PointAt(chunks, job.missing, group, lo, hi, name);
  }

  method StoreGroup(st: Storage, job: Job, chunks: seq<ChunkInfo>, group: seq<nat>, now: int, ghost cuts: seq<nat>,
                    ghost g: nat, ghost before: Objects)
    returns (out: seq<ChunkInfo>)
    requires st.Valid() && Faithful(st.pr) && Fitting(job, cuts)
    requires StoredUpTo(st.pr, before, job, cuts, g, now, st.o, chunks) && g + 1 < |cuts|
    requires cuts[g] <= cuts[g + 1] && group == Ingest.Span(cuts[g], cuts[g + 1])
    modifies st
    ensures st.Valid() && old(st.trace) <= st.trace && StoredUpTo(st.pr, before, job, cuts, g + 1, now, st.o, out)
  {
    assert FitsAt(job, cuts, g);
    StoredNext(st.pr, before, job, cuts, g, now, st.o, chunks);
    out := PackGroup(st, job, chunks, group, cuts[g], cuts[g + 1], now);
  }

  lemma NoneStored(pr: Protocol, before: Objects, job: Job, cuts: seq<nat>, now: int)
    requires Cutting(job, cuts)
    ensures StoredUpTo(pr, before, job, cuts, 0, now, before, job.chunks)
  {
    assert before.(xorbs := before.xorbs) == before;
  }

  /** Packs the missing chunks into xorbs, group by group, and points each chunk at its place. */
  method StoreGroups(st: Storage, job: Job, now: int) returns (out: seq<ChunkInfo>)
    requires st.Valid() && Faithful(st.pr) && Packable(st.pr, job) && InRange(job)
    modifies st
    ensures st.Valid() && old(st.trace) <= st.trace
    ensures StoredUpTo(st.pr, old(st.o), job, CutsOf(job), |CutsOf(job)| - 1, now, st.o, out)
  {
    var sizes := CollectSizes(job);
    var numbers := GroupChunkIndicesBySize(sizes, MAX_XORB_SIZE);
    ghost var cuts, before := CutsOf(job), st.o;
    CutsFit(st.pr, job);
    NoneStored(st.pr, st.o, job, cuts, now);
    out := job.chunks;
    for g := 0 to |numbers|
      invariant st.Valid() && old(st.trace) <= st.trace
      invariant StoredUpTo(st.pr, before, job, cuts, g, now, st.o, out)
    {
      out := StoreGroup(st, job, out, numbers[g], now, cuts, g, before);
    }
  }

  // ---------------------------------------------------------------- every group is where its chunks point

  /** Whatever is stored in the end was stored before or is a group. */
  ghost predicate FromGroups(pr: Protocol, xs: Xorbs, ys: Xorbs, job: Job, cuts: seq<nat>)
    requires Cutting(job, cuts)
  {
    StoredLists(pr, ys) <= StoredLists(pr, xs) + Groups(job, cuts)
  }

  /** The xorb under the name of a group holds that group. */
  lemma GroupHeld(pr: Protocol, o: Objects, ys: Xorbs, job: Job, cuts: seq<nat>, g: nat, now: int)
    requires Faithful(pr) && Cutting(job, cuts) && g + 1 < |cuts| && WithinLimits(Group(job, cuts, g))
    requires XorbsIntact(pr, o.(xorbs := ys)) && FromGroups(pr, o.xorbs, ys, job, cuts)
    requires XorbsDiffer(pr, StoredLists(pr, o.xorbs) + Groups(job, cuts))
    ensures var zs, name := AddGroup(pr, ys, Group(job, cuts, g), now), XorbName(pr, Group(job, cuts, g));
      && name in zs && pr.decode(zs[name].value) == Some(Group(job, cuts, g))
      && XorbsIntact(pr, o.(xorbs := zs)) && FromGroups(pr, o.xorbs, zs, job, cuts)
  {
    var cs := Group(job, cuts, g);
    var name := XorbName(pr, cs);
    var zs := AddGroup(pr, ys, cs, now);
    assert cs in Groups(job, cuts);
    if name in ys {
      assert ValidXorb(pr, name, o.(xorbs := ys).xorbs[name].value);
      var there := pr.decode(ys[name].value).value;
      assert there in StoredLists(pr, ys);
      assert XorbName(pr, there) == XorbName(pr, cs);
    } else {
      OneIntact(pr, o, ys, cs, now);
      forall l | l in StoredLists(pr, zs) ensures l in StoredLists(pr, o.xorbs) + Groups(job, cuts) {
        var x :| x in zs && pr.decode(zs[x].value) == Some(l);
        if x in ys { assert l in StoredLists(pr, ys); }
      }
    }
  }

  /** The first n groups are packed, and nothing else was stored. */
  ghost predicate PackedAfter(pr: Protocol, o: Objects, job: Job, cuts: seq<nat>, n: nat, out: seq<ChunkInfo>,
                              ys: Xorbs,
                              groups: Spans) {
    && Packable(pr, job) && Fitting(job, cuts) && n < |cuts|
    && PackedUpTo(pr, job, out, groups, ys, cuts[n])
    && XorbsIntact(pr, o.(xorbs := ys)) && FromGroups(pr, o.xorbs, ys, job, cuts)
  }

  lemma NothingPacked(pr: Protocol, o: Objects, job: Job, cuts: seq<nat>)
    requires Packable(pr, job) && Fitting(job, cuts) && XorbsIntact(pr, o)
    ensures PackedAfter(pr, o, job, cuts, 0, job.chunks, o.xorbs, map[])
  {
    assert o.(xorbs := o.xorbs) == o;
  }

  /** Where among the missing chunks each of the first n groups begins and ends. */
  ghost function SpansOf(pr: Protocol, job: Job, cuts: seq<nat>, n: nat): Spans
    requires Cutting(job, cuts) && n < |cuts|
  {
    if n == 0 then map[] else
    SpansOf(pr, job, cuts, n - 1)[XorbName(pr, Group(job, cuts, n - 1)) := (cuts[n - 1], cuts[n])]
  }

  /** Nothing at hand is in the way of packing. */
  ghost predicate Packing(pr: Protocol, o: Objects, job: Job, cuts: seq<nat>) {
    && Faithful(pr) && XorbsIntact(pr, o) && Packable(pr, job) && Fitting(job, cuts)
    && XorbsDiffer(pr, StoredLists(pr, o.xorbs) + Groups(job, cuts))
  }

  /** Unless something is, the first n groups end up in the xorbs their chunks point at. */
  ghost predicate PackedTo(pr: Protocol, o: Objects, job: Job, cuts: seq<nat>, now: int, n: nat) {
    Packing(pr, o, job, cuts) && n < |cuts| ==> PackedAfter(pr, o, job, cuts, n, PlaceGroups(pr, job, cuts, n),
      AddGroups(pr, o.xorbs, job, cuts, n, now), SpansOf(pr, job, cuts, n))
  }

  lemma NonePacked(pr: Protocol, o: Objects, job: Job, cuts: seq<nat>, now: int, n: nat)
    requires n == 0
    ensures PackedTo(pr, o, job, cuts, now, n)
  {
    if Packing(pr, o, job, cuts) { NothingPacked(pr, o, job, cuts); }
  }

  lemma OneMorePacked(pr: Protocol, o: Objects, job: Job, cuts: seq<nat>, now: int, n: nat, m: nat)
    requires PackedTo(pr, o, job, cuts, now, n) && m == n + 1
    ensures PackedTo(pr, o, job, cuts, now, m)
  {
    if Packing(pr, o, job, cuts) && m < |cuts| {
      NextPacked(pr, o, job, cuts, n, now, PlaceGroups(pr, job, cuts, n), AddGroups(pr, o.xorbs, job, cuts, n, now),
        SpansOf(pr, job, cuts, n), PlaceGroups(pr, job, cuts, m), AddGroups(pr, o.xorbs, job, cuts, m, now),
        SpansOf(pr, job, cuts, m));
    }
  }

  /** If no two chunk lists at hand have one name, every group ends up in the xorb its chunks point at. */
  lemma {:induction false} GroupsPacked(pr: Protocol, o: Objects, job: Job, cuts: seq<nat>, now: int, n: nat)
    ensures PackedTo(pr, o, job, cuts, now, n)
  {
    if n == 0 {
      NonePacked(pr, o, job, cuts, now, n);
    } else {
      GroupsPacked(pr, o, job, cuts, now, n - 1);
      OneMorePacked(pr, o, job, cuts, now, n - 1, n);
    }
  }

  lemma NextPacked(pr: Protocol, o: Objects, job: Job, cuts: seq<nat>, g: nat, now: int, before: seq<ChunkInfo>,
                   ys: Xorbs, groups: Spans, out: seq<ChunkInfo>, zs: Xorbs, grown: Spans)
    requires Faithful(pr) && PackedAfter(pr, o, job, cuts, g, before, ys, groups) && g + 1 < |cuts|
    requires XorbsDiffer(pr, StoredLists(pr, o.xorbs) + Groups(job, cuts))
    requires zs == AddGroup(pr, ys, Group(job, cuts, g), now)
    requires out == PlaceGroup(before, job.missing, cuts[g], cuts[g + 1], XorbName(pr, Group(job, cuts, g)))
    requires grown == groups[XorbName(pr, Group(job, cuts, g)) := (cuts[g], cuts[g + 1])]
    ensures PackedAfter(pr, o, job, cuts, g + 1, out, zs, grown)
  {
    var lo, hi, name := cuts[g], cuts[g + 1], XorbName(pr, Group(job, cuts, g));
    assert FitsAt(job, cuts, g);
    GroupHeld(pr, o, ys, job, cuts, g, now);
    PackedGrows(pr, job, before, groups, o.(xorbs := ys), o.(xorbs := zs), lo);
    NewGroupName(pr, job, before, groups, zs, lo, hi, name);
    GroupIsPlaced(job, before, lo, hi, name);
    PackedOneMore(pr, job, before, out, groups, zs, lo, hi, name);
  }

  // ---------------------------------------------------------------- the shard describes the file

  /** A new chunk is one of the missing ones. */
  lemma NewIsMissing(pr: Protocol, job: Job, out: seq<ChunkInfo>, groups: Spans, xs: map<Digest, Stored<Bytes>>,
                     i: nat)
    returns (k: nat)
    requires PackedUpTo(pr, job, out, groups, xs, |job.missing|) && i < |out| && out[i].isNew
    ensures k < |job.missing| && job.missing[k] == i && Packed(pr, job, out, groups, k)
  {
    assert job.missing[..|job.missing|] == job.missing;
    assert !job.chunks[i].isNew;
    assert i in job.missing;
    k :| 0 <= k < |job.missing| && job.missing[k] == i;
  }

  lemma GroupPositions(pr: Protocol, job: Job, out: seq<ChunkInfo>, groups: Spans, xs: map<Digest, Stored<Bytes>>,
                       x: Digest)
    requires PackedUpTo(pr, job, out, groups, xs, |job.missing|) && x in groups
    ensures groups[x].0 < groups[x].1 <= |job.missing|
    ensures Positions(out, x, |out|, job.missing[groups[x].0..groups[x].1])
  {
    var (lo, hi) := groups[x];
    assert GroupStored(pr, job, out, groups, xs, |job.missing|, x);
    var ps := job.missing[lo..hi];
    forall k | 0 <= k < |ps| ensures ps[k] < |out| && out[ps[k]].isNew && out[ps[k]].xorb == x {
      assert ps[k] == job.missing[lo + k];
      assert Packed(pr, job, out, groups, lo + k);
    }
    forall i | 0 <= i < |out| && out[i].isNew && out[i].xorb == x ensures i in ps {
      var k := NewIsMissing(pr, job, out, groups, xs, i);
      assert ps[k - lo] == i;
    }
  }

  lemma KeptIsNew(cs: seq<ChunkInfo>)
    requires HashesDiffer(cs)
    ensures NewAreKept(cs)
  {}

  /** A block's entries are those of the group stored under its xorb. */
  lemma BlockIsGroup(pr: Protocol, job: Job, out: seq<ChunkInfo>, groups: Spans, xs: map<Digest, Stored<Bytes>>,
                     first: set<Digest>, x: Digest)
    requires PackedUpTo(pr, job, out, groups, xs, |job.missing|) && HashesDiffer(out) &&
      Select(out, first, x, |out|) != []
    ensures x in groups && GroupStored(pr, job, out, groups, xs, |job.missing|, x)
    ensures Positions(out, x, |out|, job.missing[groups[x].0..groups[x].1])
    ensures Select(out, first, x, |out|) == Entries(out, first, job.missing[groups[x].0..groups[x].1])
  {
    var i := SelectNonEmpty(out, first, x, |out|);
    var k := NewIsMissing(pr, job, out, groups, xs, i);
    assert GroupStored(pr, job, out, groups, xs, |job.missing|, x);
    GroupPositions(pr, job, out, groups, xs, x);
    KeptIsNew(out);
    SelectIs(out, first, x, |out|, job.missing[groups[x].0..groups[x].1]);
  }

  lemma BlockMatches(pr: Protocol, job: Job, out: seq<ChunkInfo>, groups: Spans, xs: map<Digest, Stored<Bytes>>,
                     first: set<Digest>, cb: CasBlock)
    requires PackedUpTo(pr, job, out, groups, xs, |job.missing|)
    requires HashesDiffer(out) && Block(cb, Select(out, first, cb.hash, |out|))
    ensures CasMatches(pr, cb, xs)
  {
    var x := cb.hash;
    BlockIsGroup(pr, job, out, groups, xs, first, x);
    var (lo, hi) := groups[x];
    var content := GroupBodies(job.bodies, job.missing, lo, hi);
    forall j | 0 <= j < |cb.chunks| ensures cb.chunks[j].hash == pr.chunk(content[j]) &&
      cb.chunks[j].bytes == |content[j]| {
      assert job.missing[lo..hi][j] == job.missing[lo + j];
      assert Packed(pr, job, out, groups, lo + j);
      assert Describes(pr, job.chunks[job.missing[lo + j]], job.bodies[job.missing[lo + j]]);
    }
  }

  /** Every chunk ends up pointing at its bytes, whether found in a stored xorb or packed anew. */
  lemma ChunkPlaced(pr: Protocol, o: Objects, job: Job, out: seq<ChunkInfo>, groups: Spans, j: nat)
    requires XorbsIntact(pr, o) && PackedUpTo(pr, job, out, groups, o.xorbs, |job.missing|) && j < |job.chunks|
    requires j !in job.missing ==> Placed(pr, job.chunks[j], job.bodies[j], o.xorbs)
    ensures Placed(pr, out[j], job.bodies[j], o.xorbs)
  {
    assert job.missing[..|job.missing|] == job.missing;
    if j in job.missing {
      var k :| 0 <= k < |job.missing| && job.missing[k] == j;
      PackedPlaced(pr, o, job, out, groups, k);
    }
  }

  lemma PackedPlaced(pr: Protocol, o: Objects, job: Job, out: seq<ChunkInfo>, groups: Spans, k: nat)
    requires XorbsIntact(pr, o) && PackedUpTo(pr, job, out, groups, o.xorbs, |job.missing|) && k < |job.missing|
    ensures Placed(pr, out[job.missing[k]], job.bodies[job.missing[k]], o.xorbs)
  {
    var j := job.missing[k];
    var lo, hi := GroupOf(pr, job, out, groups, o.xorbs, k);
    assert Describes(pr, job.chunks[j], job.bodies[j]);
    assert ValidXorb(pr, out[j].xorb, o.xorbs[out[j].xorb].value);
    PlacedInGroup(pr, job.chunks[j], job.bodies[j], out[j], o.xorbs, GroupBodies(job.bodies, job.missing, lo, hi),
      k - lo);
  }

  /** The group a packed chunk is in. */
  lemma GroupOf(pr: Protocol, job: Job, out: seq<ChunkInfo>, groups: Spans, xs: map<Digest, Stored<Bytes>>, k: nat)
    returns (lo: nat, hi: nat)
    requires PackedUpTo(pr, job, out, groups, xs, |job.missing|) && k < |job.missing|
    ensures lo <= k < hi <= |job.missing| && k - lo < TWO32 && out[job.missing[k]].xorb in xs
    ensures out[job.missing[k]] == PlaceIn(job.chunks[job.missing[k]], out[job.missing[k]].xorb, k - lo)
    ensures pr.decode(xs[out[job.missing[k]].xorb].value) == Some(GroupBodies(job.bodies, job.missing, lo, hi))
  {
    assert Packed(pr, job, out, groups, k);
    var x := out[job.missing[k]].xorb;
    assert GroupStored(pr, job, out, groups, xs, |job.missing|, x);
    lo, hi := groups[x].0, groups[x].1;
  }

  lemma PlacedInGroup(pr: Protocol, c: ChunkInfo, body: Bytes, placed: ChunkInfo, xs: map<Digest, Stored<Bytes>>,
                      group: Xorb, i: nat)
    requires c.size == |body| && i < |group| && i < TWO32 && group[i] == body && WithinLimits(group)
    requires placed == PlaceIn(c, placed.xorb, i) && placed.xorb in xs &&
      pr.decode(xs[placed.xorb].value) == Some(group)
    ensures Placed(pr, placed, body, xs)
  {
  }

  lemma HashesKept(pr: Protocol, job: Job, out: seq<ChunkInfo>, groups: Spans, xs: map<Digest, Stored<Bytes>>)
    requires PackedUpTo(pr, job, out, groups, xs, |job.missing|)
    ensures HashesDiffer(out)
  {
    forall j | 0 <= j < |out| ensures out[j].hash == job.chunks[j].hash {
      assert job.missing[..|job.missing|] == job.missing;
      if j in job.missing {
        var k :| 0 <= k < |job.missing| && job.missing[k] == j;
        assert Packed(pr, job, out, groups, k);
      }
    }
  }

  /** The file's chunks are the listed ones, and those not missing sit where they are said to. */
  ghost predicate Planned(pr: Protocol, data: Xorb, job: Job, indices: seq<nat>, xs: map<Digest, Stored<Bytes>>) {
    && Packable(pr, job) && |indices| == |data|
    && (forall i :: 0 <= i < |data| ==> indices[i] < |job.chunks| && job.bodies[indices[i]] == data[i])
    && (forall j {:trigger job.chunks[j]} :: 0 <= j < |job.chunks| && j !in job.missing ==>
          Placed(pr, job.chunks[j], job.bodies[j], xs))
  }

  /** The shard built for a packed file lists its new xorbs rightly, and its terms denote the file. */
  lemma ShardDescribes(pr: Protocol, o: Objects, data: Xorb, job: Job, indices: seq<nat>, out: seq<ChunkInfo>,
                       groups: Spans, first: set<Digest>, cas: seq<CasBlock>)
    requires XorbsIntact(pr, o) && Planned(pr, data, job, indices, o.xorbs)
    requires PackedUpTo(pr, job, out, groups, o.xorbs, |job.missing|) && CasListing(out, first, cas)
    ensures forall b :: 0 <= b < |cas| ==> CasMatches(pr, cas[b], o.xorbs)
    ensures Denote(pr, Terms(Pick(out, indices)), o.xorbs) == Some(data)
  {
    HashesKept(pr, job, out, groups, o.xorbs);
    forall b | 0 <= b < |cas| ensures CasMatches(pr, cas[b], o.xorbs) {
      BlockMatches(pr, job, out, groups, o.xorbs, first, cas[b]);
    }
    var cs := Pick(out, indices);
    forall i | 0 <= i < |cs| ensures Placed(pr, cs[i], data[i], o.xorbs) {
      assert job.chunks[indices[i]] == job.chunks[indices[i]];
      ChunkPlaced(pr, o, job, out, groups, indices[i]);
    }
    TermsDenote(pr, cs, data, o.xorbs);
  }

  // ---------------------------------------------------------------- the plan is right

  lemma JobPackable(pr: Protocol, o: Objects, data: Xorb)
    requires Small(data)
    ensures Packable(pr, JobOf(pr, o, data)) && (data != [] ==> JobOf(pr, o, data).chunks != [])
  {
    UniqueDiffer(pr, data);
    var job, unique := JobOf(pr, o, data), Listed(pr, Unique(pr, data));
    MissingRight(unique, Known(o, unique, |unique|), |unique|);
    forall j | 0 <= j < |job.chunks|
      ensures job.chunks[j].hash == unique[j].hash && Describes(pr, job.chunks[j], job.bodies[j])
      ensures !job.chunks[j].isNew && |job.bodies[j]| <= MAX_CHUNK_SIZE
    {
      assert job.bodies[j] in data;
    }
  }

  lemma ChunkAtHand(pr: Protocol, o: Objects, data: Xorb, cs: Xorb, c: Bytes)
    requires cs == data || cs in StoredLists(pr, o.xorbs)
    requires c in cs
    ensures c in ChunksOf(StoredLists(pr, o.xorbs) + {data})
  {
    var lists := StoredLists(pr, o.xorbs) + {data};
    assert cs in lists;
  }

  /** A chunk with a known place has its own bytes there, unless two chunks at hand have one hash. */
  lemma KnownIsPlaced(pr: Protocol, o: Objects, data: Xorb, j: nat)
    requires Integrity(pr, o) && Small(data) && Injective(pr.chunk, ChunksOf(StoredLists(pr, o.xorbs) + {data}))
    requires j < |JobOf(pr, o, data).chunks| && j !in JobOf(pr, o, data).missing
    ensures Placed(pr, JobOf(pr, o, data).chunks[j], JobOf(pr, o, data).bodies[j], o.xorbs)
  {
    var job := JobOf(pr, o, data);
    JobPackable(pr, o, data);
    UniqueDiffer(pr, data);
    var unique := Listed(pr, job.bodies);
    KnownHold(pr, o, unique, |unique|);
    MissingRight(unique, Known(o, unique, |unique|), |unique|);
    var c := job.chunks[j];
    assert Describes(pr, c, job.bodies[j]);
    assert Holds(pr, o.xorbs, unique[j].hash, Known(o, unique, |unique|)[unique[j].hash]);
    assert ValidXorb(pr, c.xorb, o.xorbs[c.xorb].value);
    var cs := pr.decode(o.xorbs[c.xorb].value).value;
    ChunkAtHand(pr, o, data, cs, cs[c.index]);
    ChunkAtHand(pr, o, data, data, job.bodies[j]);
  }

  lemma JobPlanned(pr: Protocol, o: Objects, data: Xorb)
    requires Integrity(pr, o) && Small(data) && Injective(pr.chunk, ChunksOf(StoredLists(pr, o.xorbs) + {data}))
    ensures Planned(pr, data, JobOf(pr, o, data), Numbers(pr, data), o.xorbs)
  {
    var job := JobOf(pr, o, data);
    JobPackable(pr, o, data);
    UniqueDiffer(pr, data);
    forall i | 0 <= i < |data| ensures job.bodies[Numbers(pr, data)[i]] == data[i] {
      NumbersRight(pr, data, i);
      ChunkAtHand(pr, o, data, data, job.bodies[Numbers(pr, data)[i]]);
      ChunkAtHand(pr, o, data, data, data[i]);
    }
    forall j | 0 <= j < |job.chunks| && j !in job.missing ensures Placed(pr, job.chunks[j], job.bodies[j], o.xorbs) {
      KnownIsPlaced(pr, o, data, j);
    }
  }

  lemma StillPlanned(pr: Protocol, data: Xorb, job: Job, indices: seq<nat>, a: Objects, b: Objects)
    requires Planned(pr, data, job, indices, a.xorbs) && Grown(a, b)
    ensures Planned(pr, data, job, indices, b.xorbs)
  {
    forall j | 0 <= j < |job.chunks| && j !in job.missing ensures Placed(pr, job.chunks[j], job.bodies[j], b.xorbs) {
      assert Placed(pr, job.chunks[j], job.bodies[j], a.xorbs);
    }
  }

  lemma {:induction false} TermsFew(cs: seq<ChunkInfo>)
    ensures |Terms(cs)| <= |cs|
  {
    if cs != [] { TermsFew(cs[..|cs| - 1]); }
  }

  /** The shard counts its terms right, whatever collides. */
  lemma ShardCounted(pr: Protocol, o: Objects, data: Xorb, sh: Shard)
    requires IsShard(pr, o, data, sh) && |data| < TWO32
    ensures AllCounted(sh)
  {
    DescriptionCounted(pr, Info(pr, data), PlacedChunks(pr, o, data));
  }

  lemma DescriptionCounted(pr: Protocol, file: FileInfo, chunks: seq<ChunkInfo>)
    requires |file.indices| < TWO32 && forall i :: 0 <= i < |file.indices| ==> file.indices[i] < |chunks|
    ensures Counted(Describe(pr, file, chunks))
  {
    TermsFew(Pick(chunks, file.indices));
  }

  // ---------------------------------------------------------------- nothing found is stored again

  /** An upload does not find the chunk in the store: the shard that owns the first chunk's name does not list it, and
      if it is sampled nothing owns its name. */
  ghost predicate NotFound(pr: Protocol, o: Objects, data: Xorb, c: Bytes)
    requires data != []
  {
    && !OwnerLists(o, pr.chunk(data[0]), pr.chunk(c))
    && (LittleEndian(pr.chunk(c)[24..32]) % 1024 == 0 ==> ChunkKey(pr.chunk(c)) !in o.index)
  }

  /** The stream holds chunks of the file that are not found, none twice. */
  ghost predicate PackedAnew(pr: Protocol, o: Objects, data: Xorb, stream: Bytes) {
    var cs := pr.decode(stream);
    && cs.Some? && cs.value != [] && data != []
    && (forall i :: 0 <= i < |cs.value| ==> cs.value[i] in data && NotFound(pr, o, data, cs.value[i]))
    && forall i, j :: 0 <= i < j < |cs.value| ==> pr.chunk(cs.value[i]) != pr.chunk(cs.value[j])
  }

  lemma {:induction false} UniqueFirst(pr: Protocol, data: Xorb)
    requires data != []
    ensures Unique(pr, data) != [] && Unique(pr, data)[0] == data[0]
  {
    if |data| > 1 { UniqueFirst(pr, data[..|data| - 1]); } else { assert data[..0] == []; }
  }

  /** A missing chunk is not found. */
  lemma MissingNotFound(pr: Protocol, o: Objects, data: Xorb, j: nat)
    requires Integrity(pr, o) && data != [] && j in JobOf(pr, o, data).missing
    ensures j < |Unique(pr, data)| && Unique(pr, data)[j] in data && NotFound(pr, o, data, Unique(pr, data)[j])
  {
    var bodies := Unique(pr, data);
    var chunks := Listed(pr, bodies);
    UniqueDiffer(pr, data);
    UniqueFirst(pr, data);
    MissingRight(chunks, Known(o, chunks, |chunks|), |chunks|);
    KnownIs(o, chunks, |chunks|);
    NotAmong(o, chunks, j);
  }

  lemma NotAmong(o: Objects, chunks: seq<ChunkInfo>, j: nat)
    requires IndexIntact(o) && j < |chunks| && KnownRight(o, chunks, |chunks|)
    requires chunks[j].hash !in Known(o, chunks, |chunks|)
    ensures !OwnerLists(o, chunks[0].hash, chunks[j].hash)
    ensures LittleEndian(chunks[j].hash[24..32]) % 1024 == 0 ==> ChunkKey(chunks[j].hash) !in o.index
  {
    var hashes := Hashes(chunks);
    if LittleEndian(chunks[j].hash[24..32]) % 1024 == 0 && ChunkKey(chunks[j].hash) in o.index {
      AskedIsFound(o, hashes, |chunks|, j);
    }
    if OwnerLists(o, chunks[0].hash, chunks[j].hash) {
      AskedIsFound(o, hashes, |chunks|, 0);
    }
  }

  lemma GroupNotFound(pr: Protocol, o: Objects, data: Xorb, g: nat)
    requires Integrity(pr, o) && Small(data) && data != [] && g + 1 < |CutsOf(JobOf(pr, o, data))|
    ensures var job := JobOf(pr, o, data); var cs := Group(job, CutsOf(job), g);
      && cs != [] && (forall i :: 0 <= i < |cs| ==> cs[i] in data && NotFound(pr, o, data, cs[i]))
      && forall i, j :: 0 <= i < j < |cs| ==> pr.chunk(cs[i]) != pr.chunk(cs[j])
  {
    var job := JobOf(pr, o, data);
    var cuts := CutsOf(job);
    var cs := Group(job, cuts, g);
    JobPackable(pr, o, data);
    assert Rises(cuts, g);
    forall i | 0 <= i < |cs| ensures cs[i] in data && NotFound(pr, o, data, cs[i]) {
      MissingNotFound(pr, o, data, job.missing[cuts[g] + i]);
    }
    forall i, j | 0 <= i < j < |cs| ensures pr.chunk(cs[i]) != pr.chunk(cs[j]) {
      var a, b := job.missing[cuts[g] + i], job.missing[cuts[g] + j];
      assert a < b;
      assert Describes(pr, job.chunks[a], job.bodies[a]) && Describes(pr, job.chunks[b], job.bodies[b]);
    }
  }

  lemma {:induction false} AddedIsGroup(pr: Protocol, xs: Xorbs, job: Job, cuts: seq<nat>, n: nat, now: int, x: Digest)
    returns (g: nat)
    requires Cutting(job, cuts) && n < |cuts| && x in AddGroups(pr, xs, job, cuts, n, now) && x !in xs
    ensures g < n && AddGroups(pr, xs, job, cuts, n, now)[x].value == pr.kept(pr.encode(Group(job, cuts, g)))
  {
    if x in AddGroups(pr, xs, job, cuts, n - 1, now) {
      g := AddedIsGroup(pr, xs, job, cuts, n - 1, now, x);
    } else {
      g := n - 1;
    }
  }

  /** Whatever an upload adds holds chunks of the file that were not found. */
  lemma AddedAnew(pr: Protocol, o: Objects, data: Xorb, now: int, x: Digest)
    requires Faithful(pr) && Integrity(pr, o) && Small(data) && x in XorbsAfter(pr, o, data, now) && x !in o.xorbs
    ensures PackedAnew(pr, o, data, XorbsAfter(pr, o, data, now)[x].value)
  {
    var job := JobOf(pr, o, data);
    var cuts := CutsOf(job);
    var g := AddedIsGroup(pr, o.xorbs, job, cuts, |cuts| - 1, now, x);
    JobPackable(pr, o, data);
    CutsFit(pr, job);
    assert FitsAt(job, cuts, g);
    if data == [] { NothingMissing(pr, o, data, now); }
    GroupNotFound(pr, o, data, g);
  }

  lemma AllAnew(pr: Protocol, o: Objects, data: Xorb, now: int)
    requires Faithful(pr) && Integrity(pr, o) && Small(data) && Grown(o, Stocked(pr, o, data, now))
    ensures forall x :: x in XorbsAfter(pr, o, data, now) && x !in o.xorbs ==>
      PackedAnew(pr, o, data, XorbsAfter(pr, o, data, now)[x].value)
    ensures data != [] && (forall c :: c in data ==> OwnerLists(o, pr.chunk(data[0]), pr.chunk(c))) ==>
      XorbsAfter(pr, o, data, now) == o.xorbs
  {
    forall x | x in XorbsAfter(pr, o, data, now) && x !in o.xorbs
      ensures PackedAnew(pr, o, data, XorbsAfter(pr, o, data, now)[x].value)
    {
      AddedAnew(pr, o, data, now, x);
    }
    if data != [] && forall c :: c in data ==> OwnerLists(o, pr.chunk(data[0]), pr.chunk(c)) {
      FoundAddsNothing(pr, o, data, XorbsAfter(pr, o, data, now));
    }
  }

  lemma PackedLacked(pr: Protocol, o: Objects, data: Xorb, stream: Bytes) returns (c: Bytes)
    requires PackedAnew(pr, o, data, stream)
    ensures c in data && !OwnerLists(o, pr.chunk(data[0]), pr.chunk(c))
  {
    c := pr.decode(stream).value[0];
  }

  /** A file whose chunks the shard owning its first chunk's name lists adds nothing. */
  lemma FoundAddsNothing(pr: Protocol, o: Objects, data: Xorb, xs: Xorbs)
    requires forall x :: x in o.xorbs ==> x in xs && xs[x] == o.xorbs[x]
    requires forall x :: x in xs && x !in o.xorbs ==> PackedAnew(pr, o, data, xs[x].value)
    requires data != [] && forall c :: c in data ==> OwnerLists(o, pr.chunk(data[0]), pr.chunk(c))
    ensures xs == o.xorbs
  {
    forall x | x in xs ensures x in o.xorbs {
      if x !in o.xorbs { var c := PackedLacked(pr, o, data, xs[x].value); }
    }
  }

  // ---------------------------------------------------------------- how the rest is packed

  /** No chunk before chunk j of the file has its hash. */
  ghost predicate FirstSeen(pr: Protocol, data: Xorb, j: nat) {
    j < |data| && forall i :: 0 <= i < j ==> pr.chunk(data[i]) != pr.chunk(data[j])
  }

  /** The bodies are the chunks of the file at these places. */
  ghost predicate TakenAt(data: Xorb, bodies: Xorb, places: seq<nat>) {
    |places| == |bodies| && Increasing(places) && forall k :: 0 <= k < |places| ==>
      places[k] < |data| && bodies[k] == data[places[k]]
  }

  ghost predicate AllFirstSeen(pr: Protocol, data: Xorb, places: seq<nat>) {
    forall j: nat :: j in places <==> FirstSeen(pr, data, j)
  }

  lemma SeenNext(pr: Protocol, data: Xorb, n: nat, bodies: Xorb, places: seq<nat>)
    requires n < |data| && TakenAt(data[..n], bodies, places) && AllFirstSeen(pr, data[..n], places)
    ensures (exists i :: 0 <= i < |bodies| && pr.chunk(bodies[i]) == pr.chunk(data[n])) <==> !FirstSeen(pr, data, n)
  {
    if i :| 0 <= i < |bodies| && pr.chunk(bodies[i]) == pr.chunk(data[n]) {
      assert data[places[i]] == bodies[i];
    }
    if !FirstSeen(pr, data, n) {
      var i := EarliestSeen(pr, data, n);
      assert data[..n][i] == data[i] && FirstSeen(pr, data[..n], i);
      assert i in places;
      var k :| 0 <= k < |places| && places[k] == i;
      assert bodies[k] == data[i];
    }
  }

  lemma EarliestSeen(pr: Protocol, data: Xorb, n: nat) returns (i: nat)
    requires n < |data| && !FirstSeen(pr, data, n)
    ensures i < n && pr.chunk(data[i]) == pr.chunk(data[n]) && FirstSeen(pr, data, i)
  {
    i := 0;
    while pr.chunk(data[i]) != pr.chunk(data[n])
      invariant i < n && forall j :: 0 <= j < i ==> pr.chunk(data[j]) != pr.chunk(data[n])
      decreases n - i
    {
      i := i + 1;
    }
  }

  lemma SeenPrefix(pr: Protocol, data: Xorb, n: nat, j: nat)
    requires n <= |data| && j < n
    ensures FirstSeen(pr, data[..n], j) <==> FirstSeen(pr, data, j)
  {
    assert forall i :: 0 <= i <= j ==> data[..n][i] == data[i];
  }

  lemma TakenLonger(data: Xorb, n: nat, bodies: Xorb, places: seq<nat>)
    requires n < |data| && TakenAt(data[..n], bodies, places)
    ensures TakenAt(data, bodies, places) && TakenAt(data, bodies + [data[n]], places + [n])
  {
    forall k | 0 <= k < |places| ensures places[k] < n && bodies[k] == data[places[k]] {
      assert bodies[k] == data[..n][places[k]];
    }
  }

  lemma SeenLonger(pr: Protocol, data: Xorb, n: nat, init: seq<nat>, places: seq<nat>)
    requires n + 1 == |data| && AllFirstSeen(pr, data[..n], init)
    requires places == if FirstSeen(pr, data, n) then init + [n] else init
    ensures AllFirstSeen(pr, data, places)
  {
    forall j: nat ensures j in places <==> FirstSeen(pr, data, j) {
      if j < n { SeenPrefix(pr, data, n, j); }
    }
  }

  /** The unique chunks are the first of every hash, in order. */
  lemma {:induction false} UniquePlaces(pr: Protocol, data: Xorb) returns (places: seq<nat>)
    ensures TakenAt(data, Unique(pr, data), places) && AllFirstSeen(pr, data, places)
  {
    if data == [] {
      places := [];
    } else {
      var n := |data| - 1;
      var init := UniquePlaces(pr, data[..n]);
      SeenNext(pr, data, n, Unique(pr, data[..n]), init);
      TakenLonger(data, n, Unique(pr, data[..n]), init);
      places := if FirstSeen(pr, data, n) then init + [n] else init;
      SeenLonger(pr, data, n, init, places);
    }
  }

  /** The places an upload finds. */
  ghost function FoundPlaces(pr: Protocol, o: Objects, data: Xorb): Places {
    AllKnown(o, Listed(pr, Unique(pr, data)))
  }

  /** The bodies are, in order, the chunks of the file without a place, once for every hash. */
  ghost predicate AreLacked(pr: Protocol, o: Objects, data: Xorb, bodies: Xorb, places: seq<nat>) {
    TakenAt(data, bodies, places) && AllLacked(pr, data, FoundPlaces(pr, o, data), places)
  }

  ghost predicate AreMissing(pr: Protocol, bodies: Xorb, known: Places, missing: seq<nat>) {
    && Increasing(missing) && (forall k :: 0 <= k < |missing| ==> missing[k] < |bodies|)
    && forall j :: 0 <= j < |bodies| ==> (j in missing <==> pr.chunk(bodies[j]) !in known)
  }

  ghost predicate AllLacked(pr: Protocol, data: Xorb, known: Places, places: seq<nat>) {
    forall j: nat :: j in places <==> FirstSeen(pr, data, j) && pr.chunk(data[j]) !in known
  }

  ghost function PickPlaces(all: seq<nat>, missing: seq<nat>): (r: seq<nat>)
    requires forall k :: 0 <= k < |missing| ==> missing[k] < |all|
    ensures |r| == |missing| && forall k :: 0 <= k < |r| ==> r[k] == all[missing[k]]
  {
    seq(|missing|, k requires 0 <= k < |missing| => all[missing[k]])
  }

  lemma PickedTaken(data: Xorb, bodies: Xorb, all: seq<nat>, missing: seq<nat>)
    requires TakenAt(data, bodies, all) && Increasing(missing)
    requires forall k :: 0 <= k < |missing| ==> missing[k] < |bodies|
    ensures TakenAt(data, GroupBodies(bodies, missing, 0, |missing|), PickPlaces(all, missing))
  {
    var places := PickPlaces(all, missing);
    forall i, j | 0 <= i < j < |places| ensures places[i] < places[j] { assert missing[i] < missing[j]; }
  }

  lemma PickedOne(pr: Protocol, data: Xorb, bodies: Xorb, all: seq<nat>, known: Places, missing: seq<nat>, j: nat)
    requires TakenAt(data, bodies, all) && AllFirstSeen(pr, data, all) && AreMissing(pr, bodies, known, missing)
    ensures j in PickPlaces(all, missing) <==> FirstSeen(pr, data, j) && pr.chunk(data[j]) !in known
  {
    var places := PickPlaces(all, missing);
    if j in places {
      var k :| 0 <= k < |places| && places[k] == j;
      assert missing[k] in missing && all[missing[k]] in all;
    }
    if FirstSeen(pr, data, j) && pr.chunk(data[j]) !in known {
      var i :| 0 <= i < |all| && all[i] == j;
      assert bodies[i] == data[j] && i in missing;
      var k :| 0 <= k < |missing| && missing[k] == i;
      assert places[k] == j;
    }
  }

  lemma MissingAre(pr: Protocol, o: Objects, data: Xorb)
    ensures AreMissing(pr, Unique(pr, data), FoundPlaces(pr, o, data), JobOf(pr, o, data).missing)
  {
    var chunks := Listed(pr, Unique(pr, data));
    MissingRight(chunks, FoundPlaces(pr, o, data), |chunks|);
  }

  lemma LackedAre(pr: Protocol, o: Objects, data: Xorb) returns (places: seq<nat>)
    ensures var job := JobOf(pr, o, data);
      AreLacked(pr, o, data, GroupBodies(job.bodies, job.missing, 0, |job.missing|), places)
  {
    var all := UniquePlaces(pr, data);
    MissingAre(pr, o, data);
    var bodies, known, missing := Unique(pr, data), FoundPlaces(pr, o, data), JobOf(pr, o, data).missing;
    places := PickPlaces(all, missing);
    PickedTaken(data, bodies, all, missing);
    forall j: nat ensures j in places <==> FirstSeen(pr, data, j) && pr.chunk(data[j]) !in known {
      PickedOne(pr, data, bodies, all, known, missing, j);
    }
  }

  /** Every xorb takes as many chunks as the limits allow. */
  ghost predicate WellFilled(groups: seq<Xorb>) { forall g :: 0 <= g < |groups| ==> FilledAt(groups, g) }

  ghost predicate FilledAt(groups: seq<Xorb>, g: nat)
    requires g < |groups|
  {
    && 0 < |groups[g]| <= 8192 && TotalSize(groups[g]) <= 67108864
    && (g + 1 < |groups| && groups[g + 1] != [] ==>
      |groups[g]| == 8192 || TotalSize(groups[g]) + |groups[g + 1][0]| > 67108864)
  }

  /** Each group is stored as the encoder writes it under its hash, unless something was there; nothing else is. */
  ghost predicate StoresAll(pr: Protocol, xs: Xorbs, groups: seq<Xorb>, now: int, ys: Xorbs) {
    && (forall x :: x in xs ==> x in ys && ys[x] == xs[x])
    && (forall g :: 0 <= g < |groups| ==> pr.xorb(ChunkList(pr, groups[g])) in ys)
    && (forall x :: x in ys && x !in xs ==> IsStoredGroup(pr, groups, now, x, ys[x]))
  }

  ghost predicate IsStoredGroup(pr: Protocol, groups: seq<Xorb>, now: int, x: Digest, stored: Stored<Bytes>) {
    exists g :: 0 <= g < |groups| && x == pr.xorb(ChunkList(pr, groups[g])) &&
      stored == Stored(pr.kept(pr.encode(groups[g])), now)
  }

  ghost function GroupList(job: Job, cuts: seq<nat>, n: nat): (r: seq<Xorb>)
    requires Cutting(job, cuts) && n < |cuts|
    ensures |r| == n && forall g :: 0 <= g < n ==> r[g] == Group(job, cuts, g)
  {
    if n == 0 then [] else GroupList(job, cuts, n - 1) + [Group(job, cuts, n - 1)]
  }

  lemma {:induction false} GroupsFlat(job: Job, cuts: seq<nat>, n: nat)
    requires Cutting(job, cuts) && n < |cuts|
    ensures cuts[n] <= |job.missing|
    ensures Flatten(GroupList(job, cuts, n)) == GroupBodies(job.bodies, job.missing, 0, cuts[n])
  {
    if n > 0 {
      GroupsFlat(job, cuts, n - 1);
      assert Rises(cuts, n - 1);
      FlattenSnoc(GroupList(job, cuts, n - 1), Group(job, cuts, n - 1));
    }
  }

  lemma {:induction false} GroupsStored(pr: Protocol, xs: Xorbs, job: Job, cuts: seq<nat>, n: nat, now: int)
    requires Cutting(job, cuts) && n < |cuts|
    ensures StoresAll(pr, xs, GroupList(job, cuts, n), now, AddGroups(pr, xs, job, cuts, n, now))
  {
    if n > 0 {
      GroupsStored(pr, xs, job, cuts, n - 1, now);
      OneStored(pr, xs, GroupList(job, cuts, n - 1), AddGroups(pr, xs, job, cuts, n - 1, now), Group(job, cuts, n - 1),
        now);
    }
  }

  lemma OneStored(pr: Protocol, xs: Xorbs, groups: seq<Xorb>, ys: Xorbs, group: Xorb, now: int)
    requires StoresAll(pr, xs, groups, now, ys)
    ensures StoresAll(pr, xs, groups + [group], now, AddGroup(pr, ys, group, now))
  {
    var zs, all := AddGroup(pr, ys, group, now), groups + [group];
    assert all[|groups|] == group;
    forall x | x in zs && x !in xs ensures IsStoredGroup(pr, all, now, x, zs[x]) {
      if x in ys {
        var g :| 0 <= g < |groups| && x == pr.xorb(ChunkList(pr, groups[g])) &&
          ys[x] == Stored(pr.kept(pr.encode(groups[g])), now);
        assert all[g] == groups[g];
      }
    }
  }

  lemma GroupsFilled(pr: Protocol, job: Job)
    requires Packable(pr, job) && InRange(job)
    ensures WellFilled(GroupList(job, CutsOf(job), |CutsOf(job)| - 1))
  {
    var cuts, sizes := CutsOf(job), MissingSizes(job);
    var groups := GroupList(job, cuts, |cuts| - 1);
    CutsFit(pr, job);
    SizesRight(pr, job);
    forall g | 0 <= g < |groups| ensures FilledAt(groups, g) {
      CutPacks(sizes, MAX_XORB_SIZE, g);
      assert FitsAt(job, cuts, g) && Rises(cuts, g);
      assert groups[g] == Group(job, cuts, g);
      if g + 1 < |groups| { NextDoesNotFit(job, cuts, g, groups[g], groups[g + 1]); }
    }
  }

  lemma NextDoesNotFit(job: Job, cuts: seq<nat>, g: nat, group: Xorb, next: Xorb)
    requires Cutting(job, cuts) && g + 2 < |cuts| && group == Group(job, cuts, g) && next == Group(job, cuts, g + 1)
    requires SizesOf(job.bodies, job.missing, MissingSizes(job))
    requires Packs(MissingSizes(job), cuts[g], cuts[g + 1], MAX_XORB_SIZE)
    ensures next != [] && (|group| == 8192 || TotalSize(group) + |next[0]| > 67108864)
  {
    var sizes, lo, hi := MissingSizes(job), cuts[g], cuts[g + 1];
    assert Rises(cuts, g) && Rises(cuts, g + 1);
    assert Lengths(group) == sizes[lo..hi];
    assert next[0] == job.bodies[job.missing[hi]];
  }

  /** What an upload adds to the stored xorbs: the chunks it does not find, in order, as many to a xorb as fit. */
  ghost predicate PacksUp(pr: Protocol, o: Objects, data: Xorb, now: int, xs: Xorbs) {
    exists groups, places ::
      AreLacked(pr, o, data, Flatten(groups), places) && WellFilled(groups) && StoresAll(pr, o.xorbs, groups, now, xs)
  }

  lemma PacksIs(pr: Protocol, o: Objects, data: Xorb, now: int)
    requires Small(data)
    ensures PacksUp(pr, o, data, now, XorbsAfter(pr, o, data, now))
  {
    var job := JobOf(pr, o, data);
    var n := |CutsOf(job)| - 1;
    JobPackable(pr, o, data);
    var places := LackedAre(pr, o, data);
    GroupsFlat(job, CutsOf(job), n);
    GroupsFilled(pr, job);
    GroupsStored(pr, o.xorbs, job, CutsOf(job), n, now);
  }

  /** The state once the groups are stored. */
  ghost function Stocked(pr: Protocol, o: Objects, data: Xorb, now: int): Objects {
    o.(xorbs := XorbsAfter(pr, o, data, now))
  }

  lemma {:induction false} AddedIntact(pr: Protocol, o: Objects, job: Job, cuts: seq<nat>, n: nat, now: int)
    requires Faithful(pr) && XorbsIntact(pr, o) && Fitting(job, cuts) && n < |cuts|
    ensures XorbsIntact(pr, o.(xorbs := AddGroups(pr, o.xorbs, job, cuts, n, now)))
  {
    if n == 0 {
      assert o.(xorbs := o.xorbs) == o;
    } else {
      AddedIntact(pr, o, job, cuts, n - 1, now);
      assert FitsAt(job, cuts, n - 1);
      OneIntact(pr, o, AddGroups(pr, o.xorbs, job, cuts, n - 1, now), Group(job, cuts, n - 1), now);
    }
  }

  lemma OneIntact(pr: Protocol, o: Objects, ys: Xorbs, cs: Xorb, now: int)
    requires Faithful(pr) && XorbsIntact(pr, o.(xorbs := ys)) && WithinLimits(cs)
    ensures XorbsIntact(pr, o.(xorbs := AddGroup(pr, ys, cs, now)))
  {
    var zs := AddGroup(pr, ys, cs, now);
    assert pr.decode(pr.kept(pr.encode(cs))) == Some(cs);
    forall x | x in zs ensures ValidXorb(pr, x, zs[x].value) {
      if x in ys { assert ValidXorb(pr, x, o.(xorbs := ys).xorbs[x].value); }
    }
  }

  /** Whatever collides, the groups are stored under their own hashes. */
  lemma StockedIntact(pr: Protocol, o: Objects, data: Xorb, now: int)
    requires Faithful(pr) && XorbsIntact(pr, o) && Small(data)
    ensures XorbsIntact(pr, Stocked(pr, o, data, now))
  {
    JobPackable(pr, o, data);
    JobIntact(pr, o, JobOf(pr, o, data), now);
  }

  lemma JobIntact(pr: Protocol, o: Objects, job: Job, now: int)
    requires Faithful(pr) && XorbsIntact(pr, o) && Packable(pr, job) && InRange(job)
    ensures XorbsIntact(pr, o.(xorbs := AddGroups(pr, o.xorbs, job, CutsOf(job), |CutsOf(job)| - 1, now)))
  {
    CutsFit(pr, job);
    AddedIntact(pr, o, job, CutsOf(job), |CutsOf(job)| - 1, now);
  }

  lemma JobPacking(pr: Protocol, o: Objects, job: Job)
    requires Faithful(pr) && XorbsIntact(pr, o) && Packable(pr, job) && InRange(job)
    requires XorbsDiffer(pr, StoredLists(pr, o.xorbs) + Groups(job, CutsOf(job)))
    ensures Packing(pr, o, job, CutsOf(job))
  {
    CutsFit(pr, job);
  }

  lemma AllPacked(pr: Protocol, o: Objects, job: Job, cuts: seq<nat>, now: int, n: nat)
    requires Packing(pr, o, job, cuts) && n + 1 == |cuts|
    ensures var ys := AddGroups(pr, o.xorbs, job, cuts, n, now);
      && PackedUpTo(pr, job, PlaceGroups(pr, job, cuts, n), SpansOf(pr, job, cuts, n), ys, |job.missing|)
      && XorbsIntact(pr, o.(xorbs := ys))
  {
    GroupsPacked(pr, o, job, cuts, now, n);
  }

  /** Unless something at hand collides, the shard lists its xorbs rightly and its terms denote the file. */
  lemma ShardRight(pr: Protocol, o: Objects, data: Xorb, now: int, sh: Shard)
    requires Faithful(pr) && Integrity(pr, o) && Small(data) && Unambiguous(pr, o, data, now)
    requires Grown(o, Stocked(pr, o, data, now)) && IsShard(pr, o, data, sh)
    ensures forall b :: 0 <= b < |sh.cas| ==> CasMatches(pr, sh.cas[b], XorbsAfter(pr, o, data, now))
    ensures Denote(pr, FileTerms(pr, o, data), XorbsAfter(pr, o, data, now)) == Some(data)
  {
    var job, after := JobOf(pr, o, data), Stocked(pr, o, data, now);
    JobPackable(pr, o, data);
    JobPlanned(pr, o, data);
    JobPacking(pr, o, job);
    AllPacked(pr, o, job, CutsOf(job), now, |CutsOf(job)| - 1);
    var groups := SpansOf(pr, job, CutsOf(job), |CutsOf(job)| - 1);
    var out := PlacedChunks(pr, o, data);
    StockedDescribes(pr, o, after, data, job, Numbers(pr, data), out, groups,
      if data == [] then {} else {out[Numbers(pr, data)[0]].hash}, sh.cas);
  }

  lemma StockedDescribes(pr: Protocol, o: Objects, after: Objects, data: Xorb, job: Job, indices: seq<nat>,
                         out: seq<ChunkInfo>, groups: Spans, first: set<Digest>, cas: seq<CasBlock>)
    requires XorbsIntact(pr, after) && Grown(o, after) && Planned(pr, data, job, indices, o.xorbs)
    requires PackedUpTo(pr, job, out, groups, after.xorbs, |job.missing|) && CasListing(out, first, cas)
    ensures forall b :: 0 <= b < |cas| ==> CasMatches(pr, cas[b], after.xorbs)
    ensures Denote(pr, Terms(Pick(out, indices)), after.xorbs) == Some(data)
  {
    StillPlanned(pr, data, job, indices, o, after);
    ShardDescribes(pr, after, data, job, indices, out, groups, first, cas);
  }

  // ---------------------------------------------------------------- the theorem

  /** Looking the hash up and reading any block recorded under it yields exactly the chunks. */
  ghost predicate ReadsBack(pr: Protocol, o: Objects, d: Digest, data: Xorb) {
    && FileKey(d) in o.index && o.index[FileKey(d)] in o.shards
    && var sh := o.shards[o.index[FileKey(d)]].value;
    && HasFile(sh, d)
    && forall f :: 0 <= f < |sh.files| && sh.files[f].hash == d ==>
      Reconstruct(pr, sh.files[f].entries, o.xorbs) == Some(data)
  }

  /** In every intact store, so in every state of every run: a file hash that is indexed reads back the content with
      that hash, unless that and what a stored file reads as collide. */
  lemma IndexedReadsBack(pr: Protocol, o: Objects, data: Xorb)
    requires Integrity(pr, o) && FileKey(FileHash(pr, data)) in o.index
    requires forall cs :: cs in StoredContents(pr, o) && FileHash(pr, cs) == FileHash(pr, data) ==> cs == data
    ensures ReadsBack(pr, o, FileHash(pr, data), data)
  {
    var d := FileHash(pr, data);
    var h := o.index[FileKey(d)];
    assert Names(o.shards[o.index[FileKey(d)]].value, FileKey(d));
    assert Sound(pr, o.shards[h].value, o.xorbs);
    var sh := o.shards[h].value;
    forall f | 0 <= f < |sh.files| && sh.files[f].hash == d
      ensures Reconstruct(pr, sh.files[f].entries, o.xorbs) == Some(data)
    {
      assert FileMatches(pr, sh.files[f], o.xorbs);
      var cs := Reconstruct(pr, sh.files[f].entries, o.xorbs).value;
      assert sh.files[f] in sh.files;
      assert cs in StoredContents(pr, o) && FileHash(pr, cs) == FileHash(pr, data);
    }
  }

  /** Nothing stored goes away. */
  ghost predicate Keeps(a: Objects, b: Objects) {
    && (forall k :: k in a.index ==> k in b.index && b.index[k] == a.index[k])
    && (forall h :: h in a.shards ==> h in b.shards && b.shards[h] == a.shards[h])
    && (forall x :: x in a.xorbs ==> x in b.xorbs && b.xorbs[x] == a.xorbs[x])
  }

  /** What a stored file reads as stays. */
  lemma StillReads(pr: Protocol, a: Objects, b: Objects, h: Digest, f: nat)
    requires ShardsIntact(pr, a) && Keeps(a, b) && h in a.shards && f < |a.shards[h].value.files|
    ensures var ts := a.shards[h].value.files[f].entries; Reconstruct(pr, ts, b.xorbs) == Reconstruct(pr, ts, a.xorbs)
  {
    var sh := a.shards[h].value;
    var ts := sh.files[f].entries;
    ReferencedXorbsStored(pr, a, h);
    forall t | 0 <= t < |ts| ensures ts[t].xorb in a.xorbs { assert RefersTo(sh, ts[t].xorb); }
    RebuildFrame(pr.span, ts, a.xorbs, b.xorbs);
  }

  lemma StillReadsBack(pr: Protocol, a: Objects, b: Objects, d: Digest, data: Xorb)
    requires ShardsIntact(pr, a) && Keeps(a, b) && ReadsBack(pr, a, d, data)
    ensures ReadsBack(pr, b, d, data)
  {
    var h := a.index[FileKey(d)];
    var sh := a.shards[h].value;
    forall f | 0 <= f < |sh.files| && sh.files[f].hash == d
      ensures Reconstruct(pr, sh.files[f].entries, b.xorbs) == Some(data)
    {
      StillReads(pr, a, b, h, f);
    }
  }

  /** How storing a file ends, unless something at hand collides: its terms denote it, and it is refused if and only if
      it is not indexed yet and readers get something else for those terms; otherwise it reads back. */
  ghost predicate Outcome(pr: Protocol, before: Objects, after: Objects, data: Xorb, terms: seq<FileEntry>,
                          stored: bool) {
    var d := FileHash(pr, data);
    && Denote(pr, terms, after.xorbs) == Some(data)
    && (!stored <==> FileKey(d) !in before.index && Reconstruct(pr, terms, after.xorbs) != Some(data))
    && (stored ==> ReadsBack(pr, after, d, data))
    && (!stored ==> after.shards == before.shards && after.index == before.index)
    && (AllStraight(pr, before.xorbs) ==> stored)
  }

  /** Committing the shard meets no other of its name. */
  lemma ShardNameable(pr: Protocol, o: Objects, data: Xorb, now: int, sh: Shard)
    requires ShardsIntact(pr, o) && ShardsDiffer(pr, o, data, now) && IsShard(pr, o, data, sh)
    ensures Nameable(pr, Stocked(pr, o, data, now), sh)
  {
    var xs := XorbsAfter(pr, o, data, now);
    if Acceptable(pr, sh, xs) {
      var p := Prepared(pr, sh, xs);
      assert WillStore(pr, o, data, now, p);
      NoOther(pr, o, p, data, now);
    }
  }

  lemma NoOther(pr: Protocol, o: Objects, p: Shard, data: Xorb, now: int)
    requires ShardsIntact(pr, o) && ShardsDiffer(pr, o, data, now) && WillStore(pr, o, data, now, p)
    ensures pr.shard(p) in o.shards ==> o.shards[pr.shard(p)].value == p
  {
    var h := pr.shard(p);
    if h in o.shards {
      assert Sound(pr, o.shards[h].value, o.xorbs);
      assert o.shards[h].value in StoredShards(o);
    }
  }

  /** The state after a shard describing one file was put. */
  ghost predicate WasPut(pr: Protocol, before: Objects, sh: Shard, now: int, put: PutResult, after: Objects) {
    && (put.AlreadyIndexed? <==> AllIndexed(before, sh))
    && (put.Rejected? <==> !put.AlreadyIndexed? && !Acceptable(pr, sh, before.xorbs))
    && (!put.Committed? ==> after == before)
    && (put.Committed? ==> var p := Prepared(pr, sh, before.xorbs); IsCommit(before, p, put.h, now, after))
  }

  lemma FileNamed(pr: Protocol, before: Objects, sh: Shard, now: int, put: PutResult, after: Objects)
    requires WasPut(pr, before, sh, now, put, after) && |sh.files| == 1 && !put.Rejected?
    ensures FileKey(sh.files[0].hash) in after.index
  {
    if put.Committed? {
      var p := Prepared(pr, sh, before.xorbs);
      assert p.files[0].hash == sh.files[0].hash;
      assert Names(p, FileKey(sh.files[0].hash));
    }
  }

  /** What a stored file reads as after the commit, one did before, or the committed one does. */
  lemma ContentKnown(pr: Protocol, o: Objects, mid: Objects, now: int, sh: Shard, put: PutResult, after: Objects,
                     cs: Xorb)
    requires Integrity(pr, o) && Keeps(o, mid) && mid.shards == o.shards && |sh.files| == 1
    requires WasPut(pr, mid, sh, now, put, after) && cs in StoredContents(pr, after)
    ensures cs in StoredContents(pr, o) || Reconstruct(pr, sh.files[0].entries, mid.xorbs) == Some(cs)
  {
    var h, f :| h in after.shards && f in after.shards[h].value.files &&
      Reconstruct(pr, f.entries, after.xorbs) == Some(cs);
    if h in o.shards {
      var i :| 0 <= i < |o.shards[h].value.files| && o.shards[h].value.files[i] == f;
      StillReads(pr, o, mid, h, i);
      assert cs in StoredContents(pr, o);
    }
  }

  /** A file without SHA-256, over blocks that match, is accepted for what readers get for its terms. */
  lemma AcceptedAsRead(pr: Protocol, sh: Shard, xs: Xorbs, data: Xorb)
    requires |sh.files| == 1 && sh.files[0].sha.None? && sh.files[0].hash == FileHash(pr, data)
    requires forall b :: 0 <= b < |sh.cas| ==> CasMatches(pr, sh.cas[b], xs)
    requires var cs := Reconstruct(pr, sh.files[0].entries, xs);
      cs.Some? && FileHash(pr, cs.value) == FileHash(pr, data) ==> cs.value == data
    ensures Acceptable(pr, sh, xs) <==> Reconstruct(pr, sh.files[0].entries, xs) == Some(data)
  {
    assert FileAcceptable(pr, sh.files[0], xs) ==> forall f :: 0 <= f < |sh.files| ==>
      FileAcceptable(pr, sh.files[f], xs);
  }

  /** What a stored file or the new terms read as is the file, or has another hash. */
  ghost predicate OneContent(pr: Protocol, o: Objects, data: Xorb, read: Option<Xorb>) {
    && (forall cs :: cs in StoredContents(pr, o) && FileHash(pr, cs) == FileHash(pr, data) ==> cs == data)
    && (read.Some? && FileHash(pr, read.value) == FileHash(pr, data) ==> read.value == data)
  }

  lemma Concluded(pr: Protocol, o: Objects, mid: Objects, data: Xorb, now: int, sh: Shard, put: PutResult,
                  after: Objects)
    requires Faithful(pr) && Integrity(pr, o) && Extended(pr, o, mid) && Integrity(pr, after)
    requires |sh.files| == 1 && sh.files[0].sha.None? && sh.files[0].hash == FileHash(pr, data)
    requires forall b :: 0 <= b < |sh.cas| ==> CasMatches(pr, sh.cas[b], mid.xorbs)
    requires Denote(pr, sh.files[0].entries, mid.xorbs) == Some(data)
    requires OneContent(pr, o, data, Reconstruct(pr, sh.files[0].entries, mid.xorbs)) &&
      WasPut(pr, mid, sh, now, put, after)
    ensures Outcome(pr, o, after, data, sh.files[0].entries, !put.Rejected?)
  {
    AcceptedAsRead(pr, sh, mid.xorbs, data);
    if AllStraight(pr, o.xorbs) { StillStraight(pr, o, mid, sh.files[0].entries); }
    if !put.Rejected? {
      FileNamed(pr, mid, sh, now, put, after);
      forall cs | cs in StoredContents(pr, after) && FileHash(pr, cs) == FileHash(pr, data) ensures cs == data {
        ContentKnown(pr, o, mid, now, sh, put, after, cs);
      }
      IndexedReadsBack(pr, after, data);
    }
  }

  lemma ReadsApart(pr: Protocol, o: Objects, data: Xorb, read: Option<Xorb>)
    requires FilesDiffer(pr, ContentsWith(pr, o, data, read))
    ensures OneContent(pr, o, data, read)
  {
    var contents := ContentsWith(pr, o, data, read);
    assert data in contents;
    forall cs | cs in StoredContents(pr, o) && FileHash(pr, cs) == FileHash(pr, data) ensures cs == data {
      assert cs in contents;
    }
    if read.Some? { assert read.value in contents; }
  }

  lemma StillStraight(pr: Protocol, o0: Objects, o1: Objects, ts: seq<FileEntry>)
    requires Faithful(pr) && Extended(pr, o0, o1) && AllStraight(pr, o0.xorbs)
    ensures Reconstruct(pr, ts, o1.xorbs) == Denote(pr, ts, o1.xorbs)
  {
    ExtendedStraight(pr, o0, o1);
    StraightTermsRebuild(pr, ts, o1.xorbs);
  }

  /** The shard of the file passes validation. */
  lemma FileShardValid(pr: Protocol, o: Objects, after: Objects, data: Xorb, sh: Shard)
    requires IsShard(pr, o, data, sh) && XorbsIntact(pr, after)
    requires forall b :: 0 <= b < |sh.cas| ==> CasMatches(pr, sh.cas[b], after.xorbs)
    requires Denote(pr, FileTerms(pr, o, data), after.xorbs).Some?
    ensures D.ShardValid(sh)
  {
    var out, file := PlacedChunks(pr, o, data), Info(pr, data);
    var first := if data == [] then {} else {out[Numbers(pr, data)[0]].hash};
    BlocksAre(out, first, sh.cas);
    DescribeIs(pr, file, out);
    forall b | 0 <= b < |sh.cas| ensures ValidXorb(pr, sh.cas[b].hash, after.xorbs[sh.cas[b].hash].value) {
      assert CasMatches(pr, sh.cas[b], after.xorbs);
    }
    V.BuiltIsValid(pr, [file], out, first, sh, after.xorbs);
  }

  ghost predicate NewShardsValid(a: Objects, b: Objects) {
    forall h :: h in b.shards && h !in a.shards ==> D.ShardValid(b.shards[h].value)
  }

  /** The blocks recorded under the hash carry the SHA-256 of the content. */
  ghost predicate ShaRecorded(pr: Protocol, o: Objects, d: Digest, content: Bytes) {
    && FileKey(d) in o.index && o.index[FileKey(d)] in o.shards
    && var sh := o.shards[o.index[FileKey(d)]].value;
      forall f :: 0 <= f < |sh.files| && sh.files[f].hash == d ==> sh.files[f].sha == Some(pr.sha(content))
  }

  lemma ShaRecords(pr: Protocol, o: Objects, d: Digest, data: Xorb)
    requires Integrity(pr, o) && ReadsBack(pr, o, d, data) && data != []
    ensures ShaRecorded(pr, o, d, Flatten(data))
  {
    var h := o.index[FileKey(d)];
    var sh := o.shards[h].value;
    assert Sound(pr, o.shards[h].value, o.xorbs);
    forall f | 0 <= f < |sh.files| && sh.files[f].hash == d ensures sh.files[f].sha == Some(pr.sha(Flatten(data))) {
      assert FileMatches(pr, sh.files[f], o.xorbs);
    }
  }

  /** A commit names the file's SHA-256. */
  lemma ShaNamed(pr: Protocol, before: Objects, sh: Shard, now: int, put: PutResult, after: Objects, data: Xorb)
    requires WasPut(pr, before, sh, now, put, after) && put.Committed? && |sh.files| == 1 && data != []
    requires Reconstruct(pr, sh.files[0].entries, before.xorbs) == Some(data)
    ensures ShaKey(pr.sha(Flatten(data))) in after.index
  {
    var p := Prepared(pr, sh, before.xorbs);
    assert p.files[0].sha == Some(pr.sha(Flatten(data)));
    NamesAre(p, pr.sha(Flatten(data)));
  }

  lemma PutNamesSha(pr: Protocol, o: Objects, mid: Objects, sh: Shard, now: int, put: PutResult, after: Objects,
                    data: Xorb)
    requires WasPut(pr, mid, sh, now, put, after) && mid.index == o.index && |sh.files| == 1 && data != []
    requires sh.files[0].hash == FileHash(pr, data) && after.xorbs == mid.xorbs && Integrity(pr, after)
    requires Outcome(pr, o, after, data, sh.files[0].entries, !put.Rejected?)
    ensures !put.Rejected? ==> ShaRecorded(pr, after, FileHash(pr, data), Flatten(data))
    ensures !put.Rejected? && FileKey(FileHash(pr, data)) !in o.index ==> ShaKey(pr.sha(Flatten(data))) in after.index
  {
    if !put.Rejected? {
      ShaRecords(pr, after, FileHash(pr, data), data);
      if FileKey(FileHash(pr, data)) !in o.index { ShaNamed(pr, mid, sh, now, put, after, data); }
    }
  }

  lemma PutValid(pr: Protocol, before: Objects, sh: Shard, now: int, put: PutResult, after: Objects)
    requires WasPut(pr, before, sh, now, put, after) && D.ShardValid(sh)
    ensures NewShardsValid(before, after)
  {
    if put.Committed? { V.PreparedIsValid(pr, sh, before.xorbs); }
  }

  /** Commits a shard, in terms of states. */
  method Commit(st: Storage, sh: Shard, now: int) returns (put: PutResult)
    requires st.Valid() && AllCounted(sh)
    modifies st
    ensures st.Traced() && old(st.trace) <= st.trace && WasPut(st.pr, old(st.o), sh, now, put, st.o)
    ensures Nameable(st.pr, old(st.o), sh) ==> st.Valid()
    ensures Keeps(old(st.o), st.o) && st.o.xorbs == old(st.o).xorbs
  {
    put := st.PutShard(sh, now);
  }

  /** Cuts the work: the unique chunks with the places already known, and the numbers of those to store. */
  method PlanChunks(st: Storage, data: Xorb) returns (job: Job, indices: seq<nat>)
    requires st.Valid()
    ensures job == JobOf(st.pr, st.o, data) && indices == Numbers(st.pr, data)
  {
    var unique, bodies;
    unique, bodies, indices := UniqueChunks(st.pr, data);
    var located := Locate(st, unique);
    var chunks, missing := Assign(unique, located);
    job := Job(chunks, bodies, missing);
  }

  /** Builds the shard of the file over packed chunks. */
  method BuildFileShard(pr: Protocol, ghost o: Objects, data: Xorb, indices: seq<nat>, out: seq<ChunkInfo>)
    returns (sh: Shard)
    requires indices == Numbers(pr, data) && out == PlacedChunks(pr, o, data)
    ensures IsShard(pr, o, data, sh)
  {
    var file := FileInfo(FileHash(pr, data), ZERO_DIGEST, indices);
    ghost var first;
    sh, first := BuildShard(pr, [file], out);
    ShardOfOne(pr, o, data, file, out, first, sh);
  }

  lemma ShardOfOne(pr: Protocol, o: Objects, data: Xorb, file: FileInfo, out: seq<ChunkInfo>, first: set<Digest>,
                   sh: Shard)
    requires out == PlacedChunks(pr, o, data) && file == Info(pr, data)
    requires |sh.files| == 1 && sh.files[0] == Describe(pr, file, out)
    requires FirstChunks([file], out, 1, first) && CasListing(out, first, sh.cas)
    ensures IsShard(pr, o, data, sh)
  {
    FirstOfOne(file, out, first);
    ShardOfFile(pr, o, data, out, first, sh);
  }

  lemma ShardOfFile(pr: Protocol, o: Objects, data: Xorb, out: seq<ChunkInfo>, first: set<Digest>, sh: Shard)
    requires out == PlacedChunks(pr, o, data) && sh.files == [Describe(pr, Info(pr, data), out)]
    requires first == (if Numbers(pr, data) == [] then {} else {out[Numbers(pr, data)[0]].hash}) &&
      CasListing(out, first, sh.cas)
    ensures IsShard(pr, o, data, sh)
  {
  }

  lemma FirstOfOne(file: FileInfo, chunks: seq<ChunkInfo>, first: set<Digest>)
    requires forall i :: 0 <= i < |file.indices| ==> file.indices[i] < |chunks|
    requires FirstChunks([file], chunks, 1, first)
    ensures first == if file.indices == [] then {} else {chunks[file.indices[0]].hash}
  {
    var files := [file];
    if file.indices != [] {
      assert files[0].indices != [] && chunks[files[0].indices[0]].hash == chunks[file.indices[0]].hash;
    }
  }

  /** Stores the file cut into data. */
  method PutFile(st: Storage, data: Xorb, now: int) returns (r: Option<Digest>)
    requires st.Valid() && Faithful(st.pr) && Small(data) && |data| < TWO32
    modifies st
    ensures st.Traced() && old(st.trace) <= st.trace
    ensures r.Some? ==> r.value == FileHash(st.pr, data)
    ensures data == [] ==> r.Some? && st.Valid() && st.o == old(st.o)
    ensures Keeps(old(st.o), st.o) && Added(st.pr, old(st.o).xorbs, st.o.xorbs)
    ensures st.o.xorbs == XorbsAfter(st.pr, old(st.o), data, now)
    ensures forall x :: x in st.o.xorbs && x !in old(st.o).xorbs ==>
      PackedAnew(st.pr, old(st.o), data, st.o.xorbs[x].value)
    ensures PacksUp(st.pr, old(st.o), data, now, st.o.xorbs)
    ensures data != [] && (forall c :: c in data ==> OwnerLists(old(st.o), st.pr.chunk(data[0]), st.pr.chunk(c))) ==>
      st.o.xorbs == old(st.o).xorbs
    ensures Unambiguous(st.pr, old(st.o), data, now) ==>
      st.Valid() && (data != [] ==> Outcome(st.pr, old(st.o), st.o, data, FileTerms(st.pr, old(st.o), data), r.Some?))
    ensures Unambiguous(st.pr, old(st.o), data, now) ==> NewShardsValid(old(st.o), st.o)
    ensures Unambiguous(st.pr, old(st.o), data, now) && data != [] && r.Some? ==>
      && ShaRecorded(st.pr, st.o, r.value, Flatten(data))
      && (FileKey(r.value) !in old(st.o).index ==> ShaKey(st.pr.sha(Flatten(data))) in st.o.index)
  {
    ghost var before := st.o;
    assert Integrity(st.pr, before);
    var job, indices := PlanChunks(st, data);
    var hash := FileHash(st.pr, data);
    JobPackable(st.pr, st.o, data);
    var out := StoreGroups(st, job, now);
    AllAnew(st.pr, before, data, now);
    PacksIs(st.pr, before, data, now);
    if |job.chunks| == 0 {
      NothingMissing(st.pr, before, data, now);
      return Some(hash);
    }
    var sh := BuildFileShard(st.pr, before, data, indices, out);
    ShardCounted(st.pr, before, data, sh);
    var put := Commit(st, sh, now);
    r := if put.Rejected? then None else Some(hash);
    if Unambiguous(st.pr, before, data, now) {
      ShardNameable(st.pr, before, data, now, sh);
      assert Integrity(st.pr, st.o);
      ShardRight(st.pr, before, data, now, sh);
      ReadsApart(st.pr, before, data, Reconstruct(st.pr, FileTerms(st.pr, before, data), st.o.xorbs));
      Concluded(st.pr, before, Stocked(st.pr, before, data, now), data, now, sh, put, st.o);
      FileShardValid(st.pr, before, Stocked(st.pr, before, data, now), data, sh);
      PutValid(st.pr, Stocked(st.pr, before, data, now), sh, now, put, st.o);
      PutNamesSha(st.pr, before, Stocked(st.pr, before, data, now), sh, now, put, st.o, data);
    }
  }

  lemma NothingMissing(pr: Protocol, o: Objects, data: Xorb, now: int)
    requires Small(data) && JobOf(pr, o, data).chunks == []
    ensures data == [] && XorbsAfter(pr, o, data, now) == o.xorbs
  {
    JobPackable(pr, o, data);
    var job := JobOf(pr, o, data);
  }

  // ---------------------------------------------------------------- from bytes to bytes

  /** Readers get something else than some term of the file denotes, through the offset table of a xorb stored
      before. */
  ghost predicate Misread(pr: Protocol, o: Objects, data: Xorb) {
    exists t :: t in FileTerms(pr, o, data) && t.xorb in o.xorbs && !ReadsRight(pr, t, o.xorbs)
  }

  /** Only what was stored before can be misread. */
  lemma MisreadBefore(pr: Protocol, o: Objects, after: Objects, data: Xorb)
    requires Faithful(pr) && Keeps(o, after) && Added(pr, o.xorbs, after.xorbs) && NoneEmpty(data)
    requires Denote(pr, FileTerms(pr, o, data), after.xorbs) == Some(data)
    ensures Reconstruct(pr, FileTerms(pr, o, data), after.xorbs) != Some(data) <==> Misread(pr, o, data)
  {
    var ts := FileTerms(pr, o, data);
    MisreadingShows(pr, ts, after.xorbs, data);
    forall t | 0 <= t < |ts| ensures ReadsRight(pr, ts[t], after.xorbs) <==>
      (ts[t].xorb in o.xorbs ==> ReadsRight(pr, ts[t], o.xorbs)) {
      RebuildNeedsXorbs(SliceOf(pr), ts, after.xorbs, t);
      if ts[t].xorb !in o.xorbs { NewReadsRight(pr, ts[t], after.xorbs); }
    }
  }

  lemma NewReadsRight(pr: Protocol, t: FileEntry, xs: Xorbs)
    requires Faithful(pr) && t.xorb in xs && FromEncoder(pr, xs[t.xorb].value)
    ensures ReadsRight(pr, t, xs)
  {
    var cs :| WithinLimits(cs) && xs[t.xorb].value == pr.kept(pr.encode(cs));
    assert Straight(pr, xs[t.xorb].value);
    assert pr.span(xs[t.xorb].value, t.start, t.end) == Slice(pr, xs[t.xorb].value, t.start, t.end);
  }

  /** How storing the bytes of a file ends, unless something at hand collides: it is refused if and only if it is not
      indexed yet and would be misread, and otherwise reads back. */
  ghost predicate BytesStored(pr: Protocol, before: Objects, after: Objects, content: Bytes, r: Option<Digest>) {
    var cs := Chunker.Chunks(GearTable.Gear, content);
    var d := FileHash(pr, cs);
    && Flatten(cs) == content
    && (r.Some? ==> r.value == d && ReadsBack(pr, after, d, cs) && ShaRecorded(pr, after, d, content))
    && (r.Some? && FileKey(d) !in before.index ==> ShaKey(pr.sha(content)) in after.index)
    && (r.None? <==> FileKey(d) !in before.index && Misread(pr, before, cs))
    && (r.None? ==> after.shards == before.shards && after.index == before.index)
    && (AllStraight(pr, before.xorbs) ==> r.Some?)
  }

  /** The whole path from bytes to bytes. A file from a reliable source is refused if and only if it is not indexed yet
      and some term of it would be misread through the offset table of a xorb stored before; otherwise reading its terms
      back and concatenating yields the uploaded bytes. A source that fails leaves the store as it was. */
  method PutBytes(st: Storage, content: Bytes, reliable: bool, now: int) returns (r: Option<Digest>, sourced: bool)
    requires st.Valid() && Faithful(st.pr) && |content| < (TWO32 - 1) * Chunker.MIN_CHUNK_SIZE
    modifies st
    ensures st.Traced() && old(st.trace) <= st.trace
    ensures Keeps(old(st.o), st.o) && Added(st.pr, old(st.o).xorbs, st.o.xorbs)
    ensures reliable ==> sourced
    ensures !sourced ==> r.None? && st.Valid() && st.o == old(st.o)
    ensures content == [] && sourced ==> r == Some(ZERO_DIGEST) && st.Valid() && st.o == old(st.o)
    ensures content != [] && sourced && Unambiguous(st.pr, old(st.o), Chunker.Chunks(GearTable.Gear, content), now) ==>
      st.Valid() && BytesStored(st.pr, old(st.o), st.o, content, r)
  {
    ghost var before := st.o;
    var data, offsets;
    sourced, offsets, data := Chunker.ChunkData(GearTable.Gear, content, reliable);
    if !sourced { return None, false; }
    Chunker.ChunksPartition(GearTable.Gear, content);
    Chunker.ChunkCount(GearTable.Gear, content);
    r := PutFile(st, data, now);
    if content != [] && Unambiguous(st.pr, before, data, now) { MisreadBefore(st.pr, before, st.o, data); }
  }
}
