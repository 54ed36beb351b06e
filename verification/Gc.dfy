/** The mark-and-sweep collector. Clock reads and unreadable shards are parameters or arbitrary choices. */
module Gc {
  import opened Common
  import opened HashText
  import opened ShardFormat
  import opened Store
  import opened Backend

  datatype Anchor = AnchorBoth | AnchorFiles | AnchorSha256

  datatype SweepResult = SweepResult(
    sweptShards: seq<Digest>, sweptXorbs: seq<Digest>, unreadable: set<Digest>,
    dangling: set<Key>, done: bool, remainingShards: nat, remainingXorbs: nat)

  const SECOND: int := 1_000_000_000
  const DEFAULT_GRACE: int := 3600 * SECOND

  /** Objects written at or after the cutoff are shielded; rounding it down to a second only widens the shield. */
  function Cutoff(now: int, grace: int): (r: int)
    ensures var g := if grace == 0 then 3_600_000_000_000 else grace;
      && r <= now - g && now - g - r < 1_000_000_000
      && if grace < 0 then r == now - g else r % 1_000_000_000 == 0
  {
    var g := if grace == 0 then DEFAULT_GRACE else grace;
    if g > 0 then (now - g) - (now - g) % SECOND else now - g
  }

  // ---------------------------------------------------------------- what a sweep should remove

  ghost predicate Points(o: Objects, k: Key, h: Digest) { k in o.index && o.index[k] == h }

  predicate Anchors(a: Anchor, k: Key) {
    match k
    case FileKey(_) => a != AnchorSha256
    case ShaKey(d) => a != AnchorFiles && d != ZERO_DIGEST
    case ChunkKey(_) => false
  }

  ghost predicate Anchored(o: Objects, a: Anchor, h: Digest) { exists k :: Points(o, k, h) && Anchors(a, k) }

  ghost predicate FileReferenced(o: Objects, h: Digest) { exists d :: Points(o, FileKey(d), h) }

  ghost predicate Unanchorable(sh: Shard) {
    exists f :: 0 <= f < |sh.files| && (sh.files[f].sha.None? || sh.files[f].sha == Some(ZERO_DIGEST))
  }

  /** SHA-256 mode keeps a file-referenced shard with a file no SHA-256 name can anchor. */
  ghost predicate Spared(o: Objects, a: Anchor, h: Digest) {
    a == AnchorSha256 && h in o.shards && Unanchorable(o.shards[h].value) && FileReferenced(o, h)
  }

  ghost predicate Dead(o: Objects, a: Anchor, cutoff: int, h: Digest) {
    h in o.shards && !Anchored(o, a, h) && o.shards[h].modTime < cutoff
  }

  ghost predicate Sweepable(o: Objects, a: Anchor, cutoff: int, bad: set<Digest>, h: Digest) {
    Dead(o, a, cutoff, h) && h !in bad && !Spared(o, a, h)
  }

  ghost function DeadShards(o: Objects, a: Anchor, cutoff: int): set<Digest> {
    set h | h in o.shards && Dead(o, a, cutoff, h)
  }

  ghost function SweepableShards(o: Objects, a: Anchor, cutoff: int, bad: set<Digest>): set<Digest> {
    set h | h in o.shards && Sweepable(o, a, cutoff, bad, h)
  }

  /** The store without the shards in gone and without every name they own. */
  ghost function Without(o: Objects, gone: set<Digest>): Objects {
    Objects(o.xorbs, o.shards - gone, map k | k in o.index && o.index[k] !in gone :: o.index[k])
  }

  ghost predicate Referenced(o: Objects, except: set<Digest>, x: Digest) {
    exists h :: h in o.shards && h !in except && RefersTo(o.shards[h].value, x)
  }

  /** Xorbs no stored shard (outside except) references, old enough to go. */
  ghost function Garbage(o: Objects, except: set<Digest>, cutoff: int): set<Digest> {
    set x | x in o.xorbs && o.xorbs[x].modTime < cutoff && !Referenced(o, except, x)
  }

  ghost predicate SomeUnreadable(o: Objects, bad: set<Digest>) { exists h :: h in bad && h in o.shards }

  /** The whole collection in one expression: dead shards and their names go; then, unless some stored shard
      cannot be read, so do the xorbs nothing references any more. */
  ghost function Collected(o: Objects, a: Anchor, cutoff: int, bad: set<Digest>): Objects {
    var o1 := Without(o, SweepableShards(o, a, cutoff, bad));
    if SomeUnreadable(o1, bad) then o1 else o1.(xorbs := o1.xorbs - Garbage(o1, {}, cutoff))
  }

  // ---------------------------------------------------------------- partial sweeps do not change the outcome

  lemma WithoutPoints(o: Objects, gone: set<Digest>, h: Digest)
    requires h !in gone
    ensures forall k :: Points(Without(o, gone), k, h) <==> Points(o, k, h)
  {}

  lemma SweepableAfter(o: Objects, a: Anchor, cutoff: int, bad: set<Digest>, gone: set<Digest>)
    ensures forall h :: h !in gone ==>
      (Sweepable(Without(o, gone), a, cutoff, bad, h) <==> Sweepable(o, a, cutoff, bad, h))
    ensures forall h :: h !in gone ==> (Anchored(Without(o, gone), a, h) <==> Anchored(o, a, h))
    ensures SweepableShards(Without(o, gone), a, cutoff, bad) == SweepableShards(o, a, cutoff, bad) - gone
  {
    var o' := Without(o, gone);
    forall h | h !in gone
      ensures Sweepable(o', a, cutoff, bad, h) <==> Sweepable(o, a, cutoff, bad, h)
      ensures Anchored(o', a, h) <==> Anchored(o, a, h)
    {
      WithoutPoints(o, gone, h);
      assert Anchored(o', a, h) <==> Anchored(o, a, h);
      assert FileReferenced(o', h) <==> FileReferenced(o, h);
      assert h in o'.shards <==> h in o.shards;
    }
  }

  lemma WithoutTwice(o: Objects, s: set<Digest>, t: set<Digest>)
    ensures Without(Without(o, s), t) == Without(o, s + t)
  {
    assert o.shards - s - t == o.shards - (s + t);
  }

  /** Sweeping some of the dead shards first leads to the same final store. */
  lemma PartialShardSweep(o: Objects, a: Anchor, cutoff: int, bad: set<Digest>, gone: set<Digest>)
    requires gone <= SweepableShards(o, a, cutoff, bad)
    ensures Collected(Without(o, gone), a, cutoff, bad) == Collected(o, a, cutoff, bad)
  {
    var all := SweepableShards(o, a, cutoff, bad);
    SweepableAfter(o, a, cutoff, bad, gone);
    WithoutTwice(o, gone, all - gone);
    assert gone + (all - gone) == all;
  }

  /** Deleting some of the garbage xorbs first leads to the same final store. */
  lemma PartialXorbSweep(o: Objects, a: Anchor, cutoff: int, bad: set<Digest>, gone: set<Digest>)
    requires SweepableShards(o, a, cutoff, bad) == {} && !SomeUnreadable(o, bad) && gone <= Garbage(o, {}, cutoff)
    ensures Collected(o.(xorbs := o.xorbs - gone), a, cutoff, bad) == Collected(o, a, cutoff, bad)
  {
    var o' := o.(xorbs := o.xorbs - gone);
    forall h ensures Sweepable(o', a, cutoff, bad, h) <==> Sweepable(o, a, cutoff, bad, h) {
      assert forall k :: Points(o', k, h) <==> Points(o, k, h);
      assert Anchored(o', a, h) <==> Anchored(o, a, h);
      assert FileReferenced(o', h) <==> FileReferenced(o, h);
    }
    assert SweepableShards(o', a, cutoff, bad) == {};
    NothingSwept(o);
    NothingSwept(o');
    assert forall x :: Referenced(o', {}, x) <==> Referenced(o, {}, x);
    assert Garbage(o', {}, cutoff) == Garbage(o, {}, cutoff) - gone;
    assert o'.xorbs - Garbage(o', {}, cutoff) == o.xorbs - Garbage(o, {}, cutoff);
  }

  lemma NothingSwept(o: Objects)
    ensures Without(o, {}) == o
  {
    assert o.shards - {} == o.shards;
    assert (map k | k in o.index && o.index[k] !in {} :: o.index[k]) == o.index;
  }

  // ---------------------------------------------------------------- one dead shard

  /** Whether a files name of the shard still points at it. */
  method FileEntryPointsAt(st: Storage, sh: Shard, h: Digest) returns (r: bool)
    requires st.Valid() && h in st.o.shards && st.o.shards[h].value == sh
    ensures r <==> FileReferenced(st.o, h)
  {
    assert Integrity(st.pr, st.o);
    assert forall d :: Points(st.o, FileKey(d), h) ==> Names(sh, FileKey(d));
    for i := 0 to |sh.files|
      invariant forall j :: 0 <= j < i ==> !Points(st.o, FileKey(sh.files[j].hash), h)
    {
      if FileKey(sh.files[i].hash) in st.o.index && st.o.index[FileKey(sh.files[i].hash)] == h {
        assert Points(st.o, FileKey(sh.files[i].hash), h);
        return true;
      }
    }
    return false;
  }

  ghost predicate ShaReferenced(o: Objects, h: Digest) { exists d :: d != ZERO_DIGEST && Points(o, ShaKey(d), h) }

  /** Whether a non-zero SHA-256 name of the shard still points at it. */
  method Sha256EntryPointsAt(st: Storage, sh: Shard, h: Digest) returns (r: bool)
    requires st.Valid() && h in st.o.shards && st.o.shards[h].value == sh
    ensures r <==> ShaReferenced(st.o, h)
  {
    assert Integrity(st.pr, st.o);
    assert forall d :: Points(st.o, ShaKey(d), h) ==> Names(sh, ShaKey(d));
    for i := 0 to |sh.files|
      invariant forall j :: 0 <= j < i && sh.files[j].sha.Some? && sh.files[j].sha.value != ZERO_DIGEST ==>
        !Points(st.o, ShaKey(sh.files[j].sha.value), h)
    {
      var sha := sh.files[i].sha;
      if sha.None? || sha.value == ZERO_DIGEST { continue; }
      if ShaKey(sha.value) in st.o.index && st.o.index[ShaKey(sha.value)] == h {
        assert Points(st.o, ShaKey(sha.value), h);
        return true;
      }
    }
    return false;
  }

  method HasUnanchorableFile(sh: Shard) returns (r: bool)
    ensures r <==> Unanchorable(sh)
  {
    for i := 0 to |sh.files|
      invariant forall j :: 0 <= j < i ==> sh.files[j].sha.Some? && sh.files[j].sha.value != ZERO_DIGEST
    {
      if sh.files[i].sha.None? || sh.files[i].sha.value == ZERO_DIGEST { return true; }
    }
    return false;
  }

  /** idx' is idx less some entries owned by h. */
  ghost predicate Trims(idx: map<Key, Digest>, h: Digest, idx': map<Key, Digest>) {
    && (forall k :: k in idx' ==> k in idx && idx'[k] == idx[k])
    && (forall k :: k in idx && k !in idx' ==> idx[k] == h)
  }

  /** Deletes, one by one, those of the names that still point at h. */
  method DropOwned(st: Storage, names: seq<Key>, h: Digest)
    requires st.Valid()
    modifies st
    ensures st.Valid() && old(st.trace) <= st.trace
    ensures st.o == old(st.o).(index := st.o.index) && Trims(old(st.o).index, h, st.o.index)
    ensures forall k :: k in names ==> !Points(st.o, k, h)
    ensures forall k :: k in old(st.o).index && k !in names ==> k in st.o.index
  {
    for i := 0 to |names|
      invariant st.Valid() && old(st.trace) <= st.trace
      invariant st.o == old(st.o).(index := st.o.index) && Trims(old(st.o).index, h, st.o.index)
      invariant forall j :: 0 <= j < i ==> !Points(st.o, names[j], h)
      invariant forall k :: k in old(st.o).index && k !in names ==> k in st.o.index
    {
      ghost var before := st.o;
      if names[i] in st.o.index && st.o.index[names[i]] == h {
        st.Write(DropEntry(names[i]));
      }
      assert st.o.index == before.index || st.o.index == before.index - {names[i]};
      StillNotPointing(before, st.o, names[..i], h);
      assert !Points(st.o, names[i], h);
    }
  }

  lemma StillNotPointing(a: Objects, b: Objects, names: seq<Key>, h: Digest)
    requires forall k :: k in b.index ==> k in a.index && a.index[k] == b.index[k]
    requires forall j :: 0 <= j < |names| ==> !Points(a, names[j], h)
    ensures forall j :: 0 <= j < |names| ==> !Points(b, names[j], h)
  {}

  method FileNames(sh: Shard) returns (r: seq<Key>)
    ensures forall k :: k in r <==> k.FileKey? && Names(sh, k)
  {
    r := [];
    for i := 0 to |sh.files|
      invariant forall k :: k in r <==> k.FileKey? && exists j :: 0 <= j < i && sh.files[j].hash == k.d
    {
      r := r + [FileKey(sh.files[i].hash)];
    }
  }

  method NonZeroShaNames(sh: Shard) returns (r: seq<Key>)
    ensures forall k :: k in r <==> k.ShaKey? && k.d != ZERO_DIGEST && Names(sh, k)
  {
    r := [];
    for i := 0 to |sh.files|
      invariant forall k :: k in r <==> k.ShaKey? && k.d != ZERO_DIGEST && exists j ::
        0 <= j < i && sh.files[j].sha == Some(k.d)
    {
      if sh.files[i].sha.Some? && sh.files[i].sha.value != ZERO_DIGEST { r := r + [ShaKey(sh.files[i].sha.value)]; }
    }
  }

  /** Nothing but h's names gone, and all of those: what the store looks like once h itself goes. */
  lemma Trimmed(o: Objects, idx: map<Key, Digest>, h: Digest)
    requires Trims(o.index, h, idx) && forall k :: k in idx ==> idx[k] != h
    ensures Objects(o.xorbs, o.shards - {h}, idx) == Without(o, {h})
  {
    assert idx == Without(o, {h}).index;
  }

  /** Deletes the stale files names (SHA-256 mode) or the SHA-256 names (files mode) of a shard that is not anchored.
      In SHA-256 mode the guard runs once more after the files names went; with no other writer it cannot fire. */
  method DropAnchorNames(st: Storage, a: Anchor, sh: Shard, h: Digest)
    requires st.Valid() && h in st.o.shards && st.o.shards[h].value == sh
    requires !Anchored(st.o, a, h)
    modifies st
    ensures st.Valid() && old(st.trace) <= st.trace
    ensures st.o == old(st.o).(index := st.o.index) && Trims(old(st.o).index, h, st.o.index)
    ensures forall k :: Points(st.o, k, h) ==> k.ChunkKey? || k == ShaKey(ZERO_DIGEST)
  {
    AnchoredBy(st.o, a, h);
    assert Integrity(st.pr, st.o);
    OwnedAreNamed(st.o, h);
    ghost var owned := iset k | Points(st.o, k, h);
    var fileNames := FileNames(sh);
    if a == AnchorSha256 {
      DropOwned(st, fileNames, h);
      var refd := Sha256EntryPointsAt(st, sh, h);
      assert !refd;
    }
    owned := StillOwned(old(st.o), st.o, owned, h);
    assert forall k :: k in owned ==> !k.FileKey?;
    ghost var o1 := st.o;
    var shaNames := NonZeroShaNames(sh);
    if a == AnchorFiles { DropOwned(st, shaNames, h); }
    owned := StillOwned(o1, st.o, owned, h);
    assert forall k :: k in owned ==> k.ChunkKey? || k == ShaKey(ZERO_DIGEST);
  }

  /** Deletes the rest: the empty-file marker, then the chunk names. */
  method DropOtherNames(st: Storage, sh: Shard, h: Digest)
    requires st.Valid() && h in st.o.shards && st.o.shards[h].value == sh
    requires forall k :: Points(st.o, k, h) ==> k.ChunkKey? || k == ShaKey(ZERO_DIGEST)
    modifies st
    ensures st.Valid() && old(st.trace) <= st.trace
    ensures st.o == old(st.o).(index := st.o.index) && Trims(old(st.o).index, h, st.o.index)
    ensures forall k :: k in st.o.index ==> st.o.index[k] != h
  {
    assert Integrity(st.pr, st.o);
    OwnedAreNamed(st.o, h);
    ghost var owned := iset k | Points(st.o, k, h);
    var unanchorable := HasUnanchorableFile(sh);
    if unanchorable { DropOwned(st, [ShaKey(ZERO_DIGEST)], h); }
    owned := StillOwned(old(st.o), st.o, owned, h);
    assert forall k :: k in owned ==> k.ChunkKey?;
    ghost var o1 := st.o;
    var chunkNames := ChunkNames(sh);
    DropOwned(st, chunkNames, h);
    owned := StillOwned(o1, st.o, owned, h);
    assert owned == iset{};
    assert forall k :: k in st.o.index && st.o.index[k] == h ==> k in owned;
  }

  method ChunkNames(sh: Shard) returns (r: seq<Key>)
    ensures forall k :: k in r <==> k.ChunkKey? && Names(sh, k)
  {
    var eligible := EligibleChunks(sh);
    r := [];
    for i := 0 to |eligible|
      invariant forall k :: k in r <==> k.ChunkKey? && k.d in eligible[..i]
    {
      assert eligible[..i + 1] == eligible[..i] + [eligible[i]];
      r := r + [ChunkKey(eligible[i])];
    }
    assert eligible[..|eligible|] == eligible;
  }

  lemma OwnedAreNamed(o: Objects, h: Digest)
    requires IndexIntact(o) && h in o.shards
    ensures forall k :: Points(o, k, h) ==> Names(o.shards[h].value, k)
  {
    forall k | Points(o, k, h) ensures Names(o.shards[h].value, k) {
      assert Names(o.shards[o.index[k]].value, k);
    }
  }

  lemma StillOwned(a: Objects, b: Objects, owned: iset<Key>, h: Digest) returns (r: iset<Key>)
    requires Trims(a.index, h, b.index) && owned == iset k | Points(a, k, h)
    ensures r == (iset k | Points(b, k, h)) && r <= owned
  {
    r := iset k | Points(b, k, h);
  }

  /** Deletes one dead shard with the names it owns, in reverse of the commit order: files, SHA-256, chunks, shard.
      It re-checks liveness on fresh reads, and touches nothing unless it goes through. */
  method SweepShard(st: Storage, a: Anchor, bad: set<Digest>, h: Digest) returns (swept: bool, unreadable: bool)
    requires st.Valid()
    modifies st
    ensures st.Valid() && old(st.trace) <= st.trace
    ensures unreadable <==> h in old(st.o).shards && h in bad
    ensures swept <==> h in old(st.o).shards && h !in bad && !Anchored(old(st.o), a, h) && !Spared(old(st.o), a, h)
    ensures st.o == if swept then Without(old(st.o), {h}) else old(st.o)
  {
    if h !in st.o.shards { return false, false; }
    if h in bad { return false, true; }
    var sh := st.o.shards[h].value;
    AnchoredBy(st.o, a, h);
    if a == AnchorSha256 {
      var unanchorable := HasUnanchorableFile(sh);
      if unanchorable {
        var refd := FileEntryPointsAt(st, sh, h);
        if refd { return false, false; }
      }
    } else {
      var refd := FileEntryPointsAt(st, sh, h);
      if refd { return false, false; }
    }
    if a != AnchorFiles {
      var refd := Sha256EntryPointsAt(st, sh, h);
      if refd { return false, false; }
    }
    DropAnchorNames(st, a, sh, h);
    DropOtherNames(st, sh, h);
    Trimmed(old(st.o), st.o.index, h);
    st.Write(DropShard(h));
    return true, false;
  }

  lemma AnchoredBy(o: Objects, a: Anchor, h: Digest)
    ensures Anchored(o, a, h) <==>
      (a != AnchorSha256 && FileReferenced(o, h)) || (a != AnchorFiles && ShaReferenced(o, h))
  {
    if Anchored(o, a, h) {
      var k :| Points(o, k, h) && Anchors(a, k);
      match k {
        case FileKey(d) => assert Points(o, FileKey(d), h);
        case ShaKey(d) => assert Points(o, ShaKey(d), h);
        case ChunkKey(_) =>
      }
    }
    if d :| Points(o, FileKey(d), h) { assert a != AnchorSha256 ==> Anchors(a, FileKey(d)); }
    if d :| d != ZERO_DIGEST && Points(o, ShaKey(d), h) { assert a != AnchorFiles ==> Anchors(a, ShaKey(d)); }
  }
}
