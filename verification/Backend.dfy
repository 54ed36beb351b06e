/** The in-memory backend: commits and index reads over a store whose every intermediate state is recorded. */
module Backend {
  import opened Common
  import opened HashText
  import opened Wire
  import opened ShardFormat
  import opened Store

  datatype PutResult = AlreadyIndexed | Rejected | Committed(h: Digest, inserted: bool)

  // ---------------------------------------------------------------- admission

  predicate FileAcceptable(pr: Protocol, f: FileBlock, xs: map<Digest, Stored<Bytes>>) {
    var cs := Reconstruct(pr, f.entries, xs);
    && cs.Some? && f.hash == FileHash(pr, cs.value)
    && (f.sha.Some? ==> f.sha.value == ShaHash(pr, f.entries, cs.value))
  }

  /** A shard is admitted when it has files and agrees with the stored xorbs. */
  predicate Acceptable(pr: Protocol, sh: Shard, xs: map<Digest, Stored<Bytes>>) {
    && sh.files != []
    && (forall b :: 0 <= b < |sh.cas| ==> CasMatches(pr, sh.cas[b], xs))
    && (forall f :: 0 <= f < |sh.files| ==> FileAcceptable(pr, sh.files[f], xs))
  }

  function SetMetadata(flags: Word): (r: Word)
    ensures WithMetadata(r) && (WithVerification(r) <==> WithVerification(flags))
  {
    if WithMetadata(flags) then flags else flags + 0x4000_0000
  }

  /** The file with its SHA-256 and the flag that announces it. */
  function Stamp(pr: Protocol, f: FileBlock, xs: map<Digest, Stored<Bytes>>): FileBlock
    requires FileAcceptable(pr, f, xs)
  {
    f.(sha := Some(ShaHash(pr, f.entries, Reconstruct(pr, f.entries, xs).value)), flags := SetMetadata(f.flags))
  }

  /** The admitted form of a shard: every file stamped. */
  function Prepared(pr: Protocol, sh: Shard, xs: map<Digest, Stored<Bytes>>): (p: Shard)
    requires Acceptable(pr, sh, xs)
    ensures p.cas == sh.cas && |p.files| == |sh.files|
    ensures forall f :: 0 <= f < |sh.files| ==>
      FileAcceptable(pr, sh.files[f], xs) && p.files[f] == Stamp(pr, sh.files[f], xs)
  {
    Shard(seq(|sh.files|, f requires 0 <= f < |sh.files| &&
      FileAcceptable(pr, sh.files[f], xs) => Stamp(pr, sh.files[f], xs)),
          sh.cas)
  }

  predicate AllCounted(sh: Shard) { forall f :: 0 <= f < |sh.files| ==> Counted(sh.files[f]) }

  /** What is admitted is sound, if its counts are right. */
  lemma PreparedSound(pr: Protocol, sh: Shard, xs: map<Digest, Stored<Bytes>>)
    requires Acceptable(pr, sh, xs) && AllCounted(sh)
    ensures Sound(pr, Prepared(pr, sh, xs), xs)
  {
    var p := Prepared(pr, sh, xs);
    forall f | 0 <= f < |p.files| ensures FileMatches(pr, p.files[f], xs) {
      assert p.files[f] == Stamp(pr, sh.files[f], xs);
    }
  }

  /** The shard agrees with the chunks its terms denote. */
  predicate ContentAgrees(pr: Protocol, sh: Shard, xs: map<Digest, Stored<Bytes>>) {
    && sh.files != []
    && (forall b :: 0 <= b < |sh.cas| ==> CasMatches(pr, sh.cas[b], xs))
    && (forall f :: 0 <= f < |sh.files| ==> DenotesRight(pr, sh.files[f], xs))
  }

  predicate DenotesRight(pr: Protocol, f: FileBlock, xs: map<Digest, Stored<Bytes>>) {
    var cs := Denote(pr, f.entries, xs);
    && cs.Some? && f.hash == FileHash(pr, cs.value)
    && (f.sha.Some? ==> f.sha.value == ShaHash(pr, f.entries, cs.value))
  }

  /** Over straight xorbs, a shard is admitted for what its terms denote. */
  lemma StraightAdmission(pr: Protocol, sh: Shard, xs: map<Digest, Stored<Bytes>>)
    requires AllStraight(pr, xs)
    ensures Acceptable(pr, sh, xs) <==> ContentAgrees(pr, sh, xs)
  {
    forall f | 0 <= f < |sh.files| ensures FileAcceptable(pr, sh.files[f], xs) <==> DenotesRight(pr, sh.files[f], xs) {
      StraightTermsRebuild(pr, sh.files[f].entries, xs);
    }
  }

  predicate AllIndexed(o: Objects, sh: Shard) {
    sh.files != [] && forall f :: 0 <= f < |sh.files| ==> FileKey(sh.files[f].hash) in o.index
  }

  /** Committing the shard finds no other shard under the name of its admitted form. */
  predicate Nameable(pr: Protocol, o: Objects, sh: Shard) {
    !AllIndexed(o, sh) && Acceptable(pr, sh, o.xorbs) ==>
      var p := Prepared(pr, sh, o.xorbs); pr.shard(p) in o.shards ==> o.shards[pr.shard(p)].value == p
  }

  /** The state after committing p under h: names already taken keep their first owner. */
  ghost predicate IsCommit(o: Objects, p: Shard, h: Digest, now: int, o': Objects) {
    && o'.xorbs == o.xorbs
    && o'.shards == (if h in o.shards then o.shards else o.shards[h := Stored(p, now)])
    && (forall k :: k in o'.index <==> k in o.index || Names(p, k))
    && (forall k :: k in o'.index ==> o'.index[k] == if k in o.index then o.index[k] else h)
  }

  /** A state while names are written: none is gone and no other has come. */
  ghost predicate Between(before: Objects, names: seq<Key>, o: Objects) {
    && (forall k :: k in before.index ==> k in o.index)
    && (forall k :: k in o.index ==> k in before.index || k in names)
  }

  /** Once a new files name is there, so is every other name of the shard. */
  ghost predicate FilesLast(before: Objects, p: Shard, o: Objects) {
    forall d :: FileKey(d) in o.index && FileKey(d) !in before.index ==>
      forall k :: Names(p, k) && !k.FileKey? ==> k in o.index
  }

  /** idx' is idx with the missing names added, owned by h. */
  ghost predicate Indexed(idx: map<Key, Digest>, names: seq<Key>, h: Digest, idx': map<Key, Digest>) {
    && (forall k :: k in idx' <==> k in idx || k in names)
    && (forall k :: k in idx' ==> idx'[k] == if k in idx then idx[k] else h)
  }

  lemma NamesListed(p: Shard, eligible: seq<Digest>, chunkNames: seq<Key>, shaNames: seq<Key>, fileNames: seq<Key>)
    requires forall d :: d in eligible <==> Eligible(p, d)
    requires forall f :: 0 <= f < |p.files| ==> p.files[f].sha.Some?
    requires |chunkNames| == |eligible| && forall i :: 0 <= i < |eligible| ==> chunkNames[i] == ChunkKey(eligible[i])
    requires |shaNames| == |p.files| && forall i :: 0 <= i < |p.files| ==> shaNames[i] == ShaKey(p.files[i].sha.value)
    requires |fileNames| == |p.files| && forall i :: 0 <= i < |p.files| ==> fileNames[i] == FileKey(p.files[i].hash)
    ensures forall k :: Names(p, k) <==> k in chunkNames || k in shaNames || k in fileNames
  {
    forall k ensures Names(p, k) <==> k in chunkNames || k in shaNames || k in fileNames {
      match k {
        case ChunkKey(d) =>
          if d in eligible { var i :| 0 <= i < |eligible| && eligible[i] == d; assert chunkNames[i] == k; }
        case ShaKey(d) =>
          if HasSha(p, d) { var f :| 0 <= f < |p.files| && p.files[f].sha == Some(d); assert shaNames[f] == k; }
        case FileKey(d) =>
          if HasFile(p, d) { var f :| 0 <= f < |p.files| && p.files[f].hash == d; assert fileNames[f] == k; }
      }
    }
  }

  ghost predicate SingleChange(a: Objects, b: Objects) { exists c :: b == Apply(a, c) }

  class Storage {
    const pr: Protocol
    var o: Objects
    /** Every state the store has been in, the current one last; kept for the specification only. */
    var trace: seq<Objects>

    /** The current state is the last of a chain of single changes. */
    ghost predicate Traced()
      reads this
    {
      && trace != [] && trace[|trace| - 1] == o
      && (forall i :: 0 < i < |trace| ==> SingleChange(trace[i - 1], trace[i]))
    }

    /** Integrity holds now and held after every single write or deletion. */
    ghost predicate Valid()
      reads this
    {
      Traced() && forall i {:trigger Integrity(pr, trace[i])} :: 0 <= i < |trace| ==> Integrity(pr, trace[i])
    }

    constructor (pr: Protocol)
      ensures Valid() && this.pr == pr && o == EMPTY && trace == [EMPTY]
    {
      this.pr := pr;
      o := EMPTY;
      trace := [EMPTY];
    }

    /** A process that restarts on whatever a crash left behind. */
    constructor Recover(pr: Protocol, left: Objects)
      requires Integrity(pr, left)
      ensures Valid() && this.pr == pr && o == left && trace == [left]
    {
      this.pr := pr;
      o := left;
      trace := [left];
    }

    /** One locked put or delete. */
    method Write(c: Change)
      requires Traced()
      modifies this
      ensures Traced() && o == Apply(old(o), c) && trace == old(trace) + [o]
      ensures old(Valid()) && Harmless(pr, old(o), c) ==> Valid()
    {
      ghost var before := o;
      if Integrity(pr, o) && Harmless(pr, o, c) { HarmlessKeepsIntegrity(pr, o, c); }
      o := Apply(o, c);
      trace := trace + [o];
      assert SingleChange(before, o);
    }

    /** Stores a stream that holds a xorb of the claimed hash. */
    method PutXorb(x: Digest, data: Bytes, now: int) returns (ok: bool, inserted: bool)
      requires Valid()
      modifies this
      ensures Valid() && old(trace) <= trace
      ensures inserted <==> x !in old(o).xorbs && ValidXorb(pr, x, pr.kept(data))
      ensures ok <==> x in old(o).xorbs || inserted
      ensures inserted ==> o == old(o).(xorbs := old(o).xorbs[x := Stored(pr.kept(data), now)])
      ensures !inserted ==> o == old(o)
    {
      if x in o.xorbs { return true, false; }
      if !ValidXorb(pr, x, pr.kept(data)) { return false, false; }
      Write(AddXorb(x, pr.kept(data), now));
      return true, true;
    }

    /** Compares a declared chunk sequence with every chunk of the stored xorb. */
    method VerifyCasBlock(cb: CasBlock) returns (ok: bool)
      ensures ok <==> CasMatches(pr, cb, o.xorbs)
    {
      if cb.hash !in o.xorbs { return false; }
      var decoded := pr.decode(o.xorbs[cb.hash].value);
      if decoded.None? { return false; }
      var stored := decoded.value;
      var i := 0;
      while true
        invariant 0 <= i <= |stored| && i <= |cb.chunks|
        invariant forall j :: 0 <= j < i ==>
          cb.chunks[j].hash == pr.chunk(stored[j]) && cb.chunks[j].bytes == |stored[j]|
        decreases |stored| - i
      {
        var eof := i == |stored|;
        if eof != (i == |cb.chunks|) { return false; }
        if eof { return true; }
        if pr.chunk(stored[i]) != cb.chunks[i].hash { return false; }
        if |stored[i]| != cb.chunks[i].bytes { return false; }
        i := i + 1;
      }
    }

    /** Reads the terms in order through the offset tables of their xorbs, failing on the first that does not come at
        its declared size. What comes is what the terms denote wherever those tables are straight. */
    method ReadTerms(ts: seq<FileEntry>) returns (cs: Option<Xorb>)
      ensures cs == Reconstruct(pr, ts, o.xorbs)
      ensures AllStraight(pr, o.xorbs) ==> cs == Denote(pr, ts, o.xorbs)
    {
      var acc: Xorb := [];
      for i := 0 to |ts|
        invariant Rebuild(pr.span, ts[..i], o.xorbs) == Some(acc)
      {
        var part := TermChunks(pr.span, ts[i], o.xorbs);
        assert ts[..i + 1] == ts[..i] + [ts[i]];
        RebuildAppend(pr.span, ts[..i], [ts[i]], o.xorbs);
        RebuildOne(pr.span, ts[i], o.xorbs);
        if part.None? {
          assert ts == ts[..i + 1] + ts[i + 1..];
          RebuildAppend(pr.span, ts[..i + 1], ts[i + 1..], o.xorbs);
          cs := None;
          if AllStraight(pr, o.xorbs) { StraightTermsRebuild(pr, ts, o.xorbs); }
          return;
        }
        acc := acc + part.value;
      }
      assert ts[..|ts|] == ts;
      cs := Some(acc);
      if AllStraight(pr, o.xorbs) { StraightTermsRebuild(pr, ts, o.xorbs); }
    }

    /** Reads one file back, checks its hashes and stamps it. */
    method PrepareFile(f: FileBlock) returns (r: Option<FileBlock>)
      ensures r.Some? <==> FileAcceptable(pr, f, o.xorbs)
      ensures r.Some? ==> r.value == Stamp(pr, f, o.xorbs)
    {
      var cs := ReadTerms(f.entries);
      if cs.None? { return None; }
      var computed := ShaHash(pr, f.entries, cs.value);
      if f.sha.Some? && f.sha.value != computed { return None; }
      if f.hash != FileHash(pr, cs.value) { return None; }
      return Some(f.(sha := Some(computed), flags := SetMetadata(f.flags)));
    }

    /** Admits a shard and stamps each file with its SHA-256. */
    method PrepareShard(sh: Shard) returns (p: Option<Shard>)
      ensures p.Some? <==> Acceptable(pr, sh, o.xorbs)
      ensures AllStraight(pr, o.xorbs) ==> (p.Some? <==> ContentAgrees(pr, sh, o.xorbs))
      ensures p.Some? ==> p.value == Prepared(pr, sh, o.xorbs) && (AllCounted(sh) ==> Sound(pr, p.value, o.xorbs))
    {
      if AllStraight(pr, o.xorbs) { StraightAdmission(pr, sh, o.xorbs); }
      if sh.files == [] { return None; }
      for b := 0 to |sh.cas|
        invariant forall j :: 0 <= j < b ==> CasMatches(pr, sh.cas[j], o.xorbs)
      {
        var ok := VerifyCasBlock(sh.cas[b]);
        if !ok { return None; }
      }
      var files: seq<FileBlock> := [];
      for f := 0 to |sh.files|
        invariant |files| == f
        invariant forall j :: 0 <= j < f ==>
          FileAcceptable(pr, sh.files[j], o.xorbs) && files[j] == Stamp(pr, sh.files[j], o.xorbs)
      {
        var file := PrepareFile(sh.files[f]);
        if file.None? { return None; }
        files := files + [file.value];
      }
      assert files == Prepared(pr, sh, o.xorbs).files;
      if AllCounted(sh) { PreparedSound(pr, sh, o.xorbs); }
      p := Some(Shard(files, sh.cas));
    }

    /** Writes names owned by h one after the other; a name already taken keeps its owner. */
    method PutNames(names: seq<Key>, h: Digest)
      requires Traced()
      modifies this
      ensures Traced() && old(trace) <= trace
      ensures old(Valid()) && h in old(o).shards && (forall k :: k in names ==> Names(old(o).shards[h].value, k)) ==>
        Valid()
      ensures o == old(o).(index := o.index) && Indexed(old(o).index, names, h, o.index)
      ensures forall i :: |old(trace)| <= i < |trace| ==> Between(old(o), names, trace[i])
    {
      ghost var backed := Valid() && h in o.shards && forall k :: k in names ==> Names(o.shards[h].value, k);
      for i := 0 to |names|
        invariant Traced() && old(trace) <= trace && (backed ==> Valid())
        invariant o == old(o).(index := o.index) && Indexed(old(o).index, names[..i], h, o.index)
        invariant forall j :: |old(trace)| <= j < |trace| ==> Between(old(o), names, trace[j])
      {
        assert names[..i + 1] == names[..i] + [names[i]];
        assert names[i] in names;
        if names[i] !in o.index { Write(AddEntry(names[i], h)); }
      }
      assert names[..|names|] == names;
    }

    /** Chunk names first, then SHA-256 names, files names last, so that a partial commit stays retryable. */
    method PutShardIndexes(p: Shard, h: Digest)
      requires Traced()
      requires forall f :: 0 <= f < |p.files| ==> p.files[f].sha.Some?
      modifies this
      ensures Traced() && old(trace) <= trace
      ensures old(Valid()) && h in old(o).shards && old(o).shards[h].value == p ==> Valid()
      ensures o.xorbs == old(o).xorbs && o.shards == old(o).shards
      ensures forall k :: k in o.index <==> k in old(o).index || Names(p, k)
      ensures forall k :: k in o.index ==> o.index[k] == if k in old(o).index then old(o).index[k] else h
      ensures forall i :: |old(trace)| <= i < |trace| ==> FilesLast(old(o), p, trace[i])
    {
      var eligible := EligibleChunks(p);
      var chunkNames := seq(|eligible|, i requires 0 <= i < |eligible| => ChunkKey(eligible[i]));
      var shaNames := seq(|p.files|, i requires 0 <= i < |p.files| &&
        p.files[i].sha.Some? => ShaKey(p.files[i].sha.value));
      var fileNames := seq(|p.files|, i requires 0 <= i < |p.files| => FileKey(p.files[i].hash));
      NamesListed(p, eligible, chunkNames, shaNames, fileNames);
      PutNames(chunkNames, h);
      PutNames(shaNames, h);
      ghost var others, mid := trace, o;
      assert forall i :: |old(trace)| <= i < |trace| ==> FilesLast(old(o), p, trace[i]);
      PutNames(fileNames, h);
      forall i | |others| <= i < |trace| ensures FilesLast(old(o), p, trace[i]) {
        assert Between(mid, fileNames, trace[i]);
      }
    }

    /** Whether the shard has files and every one of them is indexed. */
    method EveryFileIndexed(sh: Shard) returns (indexed: bool)
      ensures indexed <==> AllIndexed(o, sh)
    {
      indexed := |sh.files| > 0;
      for f := 0 to |sh.files|
        invariant indexed == (|sh.files| > 0)
        invariant forall j :: 0 <= j < f ==> FileKey(sh.files[j].hash) in o.index
      {
        if FileKey(sh.files[f].hash) !in o.index { return false; }
      }
    }

    /** Commits a shard: a no-op when every file is indexed, an error when it disagrees with the stored xorbs,
        otherwise the shard object and then its names. Integrity is kept for a shard whose counts are right, unless
        another one has the same name. */
    method PutShard(sh: Shard, now: int) returns (r: PutResult)
      requires Valid()
      modifies this
      ensures Traced() && old(trace) <= trace
      ensures AllCounted(sh) && Nameable(pr, old(o), sh) ==> Valid()
      ensures r.AlreadyIndexed? <==> AllIndexed(old(o), sh)
      ensures r.Rejected? <==> !r.AlreadyIndexed? && !Acceptable(pr, sh, old(o).xorbs)
      ensures !r.Committed? ==> o == old(o)
      ensures r.Committed? ==>
        var p := Prepared(pr, sh, old(o).xorbs);
        r.h == pr.shard(p) && r.inserted == (r.h !in old(o).shards) && IsCommit(old(o), p, r.h, now, o)
      ensures r.Committed? ==> forall i :: |old(trace)| <= i < |trace| ==>
        FilesLast(old(o), Prepared(pr, sh, old(o).xorbs), trace[i])
    {
      var alreadyExists := EveryFileIndexed(sh);
      if alreadyExists { return AlreadyIndexed; }
      var p := PrepareShard(sh);
      if p.None? { return Rejected; }
      var h := pr.shard(p.value);
      var inserted := h !in o.shards;
      if inserted { Write(AddShard(h, p.value, now)); }
      PutShardIndexes(p.value, h);
      return Committed(h, inserted);
    }

    /** Removes one files name, reporting whether it existed. */
    method Unlink(file: Digest) returns (existed: bool)
      requires Valid()
      modifies this
      ensures Valid() && old(trace) <= trace
      ensures existed == (FileKey(file) in old(o).index)
      ensures o == old(o).(index := old(o).index - {FileKey(file)})
    {
      existed := FileKey(file) in o.index;
      Write(DropEntry(FileKey(file)));
    }

    /** Removes one SHA-256 name; the zero digest is the shared empty-file marker and is refused. */
    method UnlinkSha256(sha: Digest) returns (ok: bool, existed: bool)
      requires Valid()
      modifies this
      ensures Valid() && old(trace) <= trace
      ensures ok == (sha != ZERO_DIGEST) && existed == (ok && ShaKey(sha) in old(o).index)
      ensures o == if ok then old(o).(index := old(o).index - {ShaKey(sha)}) else old(o)
    {
      if sha == ZERO_DIGEST { return false, false; }
      existed := ShaKey(sha) in o.index;
      Write(DropEntry(ShaKey(sha)));
      return true, existed;
    }

    /** Resolves a name to the shard owning it. */
    method ShardByName(k: Key) returns (sh: Option<Shard>)
      requires Valid()
      ensures sh.Some? <==> k in o.index
      ensures sh.Some? ==>
        && o.index[k] in o.shards && sh.value == o.shards[o.index[k]].value
        && Names(sh.value, k) && Sound(pr, sh.value, o.xorbs)
    {
      if k !in o.index { return None; }
      assert Integrity(pr, o);
      return Some(o.shards[o.index[k]].value);
    }
  }

  /** The probe-able chunks of a shard: file starts within its own xorbs, flagged chunks, sampled hashes. */
  method EligibleChunks(sh: Shard) returns (r: seq<Digest>)
    ensures forall d :: d in r <==> Eligible(sh, d)
    ensures forall i, j :: 0 <= i < j < |r| ==> r[i] != r[j]
  {
    var starts: set<(Digest, nat)> := {};
    for f := 0 to |sh.files|
      invariant forall x, i: nat :: (x, i) in starts <==>
        exists g ::
          0 <= g < f && |sh.files[g].entries| > 0 && sh.files[g].entries[0].xorb == x &&
          sh.files[g].entries[0].start == i
    {
      if |sh.files[f].entries| > 0 {
        starts := starts + {(sh.files[f].entries[0].xorb, sh.files[f].entries[0].start)};
      }
    }
    assert forall x, i: nat :: (x, i) in starts <==> StartsFile(sh, x, i);
    r := [];
    for b := 0 to |sh.cas|
      invariant forall d :: d in r <==> ListedBefore(sh, b, 0, d)
      invariant forall i, j :: 0 <= i < j < |r| ==> r[i] != r[j]
    {
      for i := 0 to |sh.cas[b].chunks|
        invariant forall d :: d in r <==> ListedBefore(sh, b, i, d)
        invariant forall i, j :: 0 <= i < j < |r| ==> r[i] != r[j]
      {
        var c := sh.cas[b].chunks[i];
        var eligible := (sh.cas[b].hash, i) in starts || Flagged(c.flags) || Sampled(c.hash);
        assert eligible == EligibleAt(sh, b, i);
        ghost var before := r;
        if eligible && c.hash !in r { r := r + [c.hash]; }
        forall d ensures d in r <==> ListedBefore(sh, b, i + 1, d) {
          assert d in r <==> d in before || (eligible && d == c.hash);
        }
      }
    }
  }

  /** d is the hash of an eligible chunk before position (b, i) in listing order. */
  ghost predicate ListedBefore(sh: Shard, b: nat, i: nat, d: Digest) {
    exists c, j :: 0 <= c < |sh.cas| && 0 <= j < |sh.cas[c].chunks| && (c < b || (c == b && j < i))
      && sh.cas[c].chunks[j].hash == d && EligibleAt(sh, c, j)
  }
}
