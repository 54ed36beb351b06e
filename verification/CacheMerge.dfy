/** Compacting the cache files of one xorb: runs of touching files become one. */
module CacheMerge {
  import opened Common
  import opened HashText
  import opened Wire
  import opened CacheFile
  import opened CacheDirectory
  import opened ChunkWriter

  /** Everything the reader of a directory relies on. */
  ghost predicate Healthy(mix: Mixer, files: Files, verified: set<Name>, xorb: nat -> Data) {
    Sound(mix, files) && Holds(mix, files, xorb) && Trusted(mix, files, verified)
  }

  ghost predicate SameCover(mix: Mixer, before: Files, after: Files) {
    forall k {:trigger Covered(mix, before, k)} {:trigger Covered(mix, after, k)} :: Covered(mix, before, k) <==>
      Covered(mix, after, k)
  }

  /** No chunk that could be read is lost. */
  ghost predicate KeepsCover(mix: Mixer, before: Files, after: Files) {
    forall k {:trigger Covered(mix, before, k)} {:trigger Covered(mix, after, k)} :: Covered(mix, before, k) ==>
      Covered(mix, after, k)
  }

  /** Only the file under one name may differ. */
  predicate SameBut(before: Files, after: Files, name: Name) {
    && (forall n {:trigger n in after} :: n in after && n != name ==> n in before && after[n] == before[n])
    && (forall n {:trigger n in before} :: n in before && n != name ==> n in after)
  }

  /** A file that is not complete is not seen: changing it to another such file, or to none, changes nothing. */
  lemma Unseen(mix: Mixer, before: Files, after: Files, name: Name, verified: set<Name>, xorb: nat -> Data)
    requires Healthy(mix, before, verified, xorb) && SameBut(before, after, name)
    requires !Complete(before, name) && !Complete(after, name)
    ensures Healthy(mix, after, verified, xorb) && SameCover(mix, before, after)
    ensures forall n {:trigger Complete(after, n)} {:trigger Complete(before, n)} :: Complete(after, n) <==>
      Complete(before, n)
  {
    forall n ensures Genuine(mix, after, n) <==> Genuine(mix, before, n) {
      if n != name { assert n in before <==> n in after; }
    }
    forall n ensures Complete(after, n) <==> Complete(before, n) {
      if n != name { assert n in before <==> n in after; }
    }
  }

  // ---------------------------------------------------------------- writing the merged entry

  /** No name is listed twice. */
  ghost predicate Once(names: seq<Name>) { forall n {:trigger multiset(names)[n]} :: multiset(names)[n] <= 1 }

  lemma OnceDiffers(names: seq<Name>, i: nat, j: nat)
    requires Once(names) && i < j < |names|
    ensures names[i] != names[j]
  {
    assert names == names[..i] + [names[i]] + names[i + 1..];
    assert names[i + 1..][j - i - 1] == names[j];
    assert multiset(names)[names[i]] <= 1;
  }

  method ListDir(files: Files) returns (listing: seq<Name>)
    ensures Once(listing) && forall n :: n in listing <==> n in files
  {
    listing := [];
    var todo := files.Keys;
    while todo != {}
      invariant todo <= files.Keys && Once(listing)
      invariant forall n :: n in listing <==> n in files && n !in todo
      decreases |todo|
    {
      var n :| n in todo;
      listing, todo := listing + [n], todo - {n};
    }
  }

  /** The chunks of an opened range, read back one by one until a read fails or a chunk is too large for the buffer. */
  method ReadChunks(mix: Mixer, files: Files, names: seq<Name>, metas: seq<Meta>, a: nat, readable: nat,
                    ghost xorb: nat -> Data) returns (chunks: seq<Data>)
    requires AllPlaced(mix, files, names, metas, a)
    ensures |chunks| <= Min(readable, |metas|) && Buffered(chunks)
    ensures Sound(mix, files) && Holds(mix, files, xorb) ==>
      |chunks| == Min(readable, |metas|) && forall i: nat {:trigger chunks[i]} :: i < |chunks| ==>
        chunks[i] == xorb(a + i)
  {
    chunks := [];
    while |chunks| < Min(readable, |metas|)
      invariant |chunks| <= Min(readable, |metas|) && Buffered(chunks)
      invariant Sound(mix, files) && Holds(mix, files, xorb) ==> forall i: nat {:trigger chunks[i]} :: i < |chunks| ==>
        chunks[i] == xorb(a + i)
    {
      var x := ReadOne(mix, files, names, metas, a, |chunks|, xorb);
      if x.None? { return; }
      chunks := chunks + [x.value];
    }
  }

  /** One chunk of an opened range, if it fits the buffer. */
  method ReadOne(mix: Mixer, files: Files, names: seq<Name>, metas: seq<Meta>, a: nat, i: nat, ghost xorb: nat -> Data)
    returns (x: Option<Data>)
    requires AllPlaced(mix, files, names, metas, a) && i < |metas|
    ensures x.Some? ==> |x.value| <= BUFFER_SIZE
    ensures Sound(mix, files) && Holds(mix, files, xorb) ==> x == Some(xorb(a + i))
  {
    var m := metas[i];
    PlacedBytes(mix, files, names, m, a + i);
    if Sound(mix, files) && Holds(mix, files, xorb) { OpenedBytes(mix, files, xorb, names, metas, a, i); }
    if m.ref.size > BUFFER_SIZE { return None; }
    x := Some(files[names[m.file]][m.ref.offset..m.ref.offset + m.ref.size]);
  }

  /** Rewriting a range as one file: of the others, at most a corrupt one that overlaps the range is gone, and then the
      rewriting did not succeed. */
  ghost predicate Wrote(mix: Mixer, before: Files, after: Files, name: Name, ok: bool) {
    && (forall n {:trigger n in after} :: n in after && n != name ==> n in before && after[n] == before[n])
    && (forall n {:trigger n in before} :: n in before && n != name && n !in after ==>
          !ok && Complete(before, n) && !Genuine(mix, before, n) && Meets(n, name.start, name.end))
    && (if ok then Genuine(mix, after, name) else !Complete(after, name))
  }

  /** Rewriting loses nothing. */
  lemma WroteKeeps(mix: Mixer, before: Files, after: Files, name: Name, ok: bool)
    requires Wrote(mix, before, after, name, ok) && !Complete(before, name)
    ensures KeepsCover(mix, before, after)
  {
    forall k | Covered(mix, before, k) ensures Covered(mix, after, k) {
      var n :| Genuine(mix, before, n) && Spans(n, k);
      assert n != name && n in after;
      assert Genuine(mix, after, n);
    }
  }

  /** The file gives x for chunk k, and x fits the buffer. */
  ghost predicate Right(file: Data, n: Name, k: nat, x: Data)
    requires Spans(n, k)
  {
    Serves(file, n.start, n.end, k - n.start, x) && |x| <= BUFFER_SIZE
  }

  /** The file holds the xorb's chunks of the range its name gives. */
  ghost predicate Fits(mix: Mixer, file: Data, name: Name, xorb: nat -> Data) {
    && Accepted(mix, file, name.start, name.end)
    && forall k: nat {:trigger Spans(name, k)} :: Spans(name, k) ==> Right(file, name, k, xorb(k))
  }

  ghost predicate ServesAll(file: Data, name: Name, chunks: seq<Data>) {
    forall i: nat {:trigger chunks[i]} :: i < |chunks| ==> Serves(file, name.start, name.end, i, chunks[i])
  }

  ghost predicate PartOf(xorb: nat -> Data, start: nat, chunks: seq<Data>) {
    forall i: nat {:trigger chunks[i]} :: i < |chunks| ==> chunks[i] == xorb(start + i)
  }

  lemma FitsWhen(mix: Mixer, file: Data, name: Name, chunks: seq<Data>, xorb: nat -> Data)
    requires Accepted(mix, file, name.start, name.end) && |chunks| == name.end - name.start && Buffered(chunks)
    requires ServesAll(file, name, chunks) && PartOf(xorb, name.start, chunks)
    ensures Fits(mix, file, name, xorb)
  {
    forall k: nat | Spans(name, k) ensures Right(file, name, k, xorb(k)) { ServesOne(file, name, chunks, xorb, k); }
  }

  lemma ServesOne(file: Data, name: Name, chunks: seq<Data>, xorb: nat -> Data, k: nat)
    requires ServesAll(file, name, chunks) && PartOf(xorb, name.start, chunks) && Buffered(chunks) &&
      |chunks| == name.end - name.start && Spans(name, k)
    ensures Right(file, name, k, xorb(k))
  {
    var i := k - name.start;
    assert chunks[i] == xorb(name.start + i);
    assert name.start + i == k;
  }

  lemma SealedFits(mix: Mixer, name: Name, chunks: seq<Data>, xorb: nat -> Data)
    requires ValidRange(name.start, name.end) && |chunks| == name.end - name.start && Buffered(chunks)
    requires forall i: nat {:trigger chunks[i]} :: i < |chunks| ==> chunks[i] == xorb(name.start + i)
    ensures Fits(mix, SealedFile(mix, chunks), name, xorb)
  {
    SealedAccepted(mix, chunks, name.start, name.end);
    assert ServesAll(SealedFile(mix, chunks), name, chunks);
    FitsWhen(mix, SealedFile(mix, chunks), name, chunks, xorb);
  }

  lemma JoinedGenuine(mix: Mixer, before: Files, name: Name, file: Data, n: Name)
    requires Accepted(mix, file, name.start, name.end)
    ensures Genuine(mix, before[name := file], n) <==> n == name || Genuine(mix, before, n)
  {
  }

  lemma JoinedCover(mix: Mixer, before: Files, name: Name, file: Data)
    requires Accepted(mix, file, name.start, name.end) && AllCovered(mix, before, name.start, name.end)
    ensures SameCover(mix, before, before[name := file])
  {
    var after := before[name := file];
    forall k ensures Covered(mix, before, k) <==> Covered(mix, after, k) {
      if Covered(mix, after, k) {
        var n :| Genuine(mix, after, n) && Spans(n, k);
        JoinedGenuine(mix, before, name, file, n);
        assert n == name ==> Covered(mix, before, k);
      }
      if Covered(mix, before, k) {
        var n :| Genuine(mix, before, n) && Spans(n, k);
        JoinedGenuine(mix, before, name, file, n);
      }
    }
  }

  lemma JoinedSound(mix: Mixer, before: Files, name: Name, file: Data)
    requires Sound(mix, before) && Accepted(mix, file, name.start, name.end)
    ensures Sound(mix, before[name := file])
  {
    var after := before[name := file];
    forall n | Complete(after, n) ensures Genuine(mix, after, n) {
      JoinedGenuine(mix, before, name, file, n);
      if n != name { assert Complete(before, n); }
    }
  }

  lemma JoinedServes(mix: Mixer, before: Files, name: Name, file: Data, xorb: nat -> Data, n: Name, k: nat)
    requires Holds(mix, before, xorb) && Fits(mix, file, name, xorb) && Genuine(mix, before[name := file], n) &&
      Spans(n, k)
    ensures Right(before[name := file][n], n, k, xorb(k))
  {
    if n == name {
      assert Right(file, name, k, xorb(k));
    } else {
      HeldRight(mix, before, xorb, n, k);
    }
  }

  lemma HeldRight(mix: Mixer, files: Files, xorb: nat -> Data, n: Name, k: nat)
    requires Holds(mix, files, xorb) && Genuine(mix, files, n) && Spans(n, k)
    ensures Right(files[n], n, k, xorb(k))
  {
  }

  lemma JoinedHolds(mix: Mixer, before: Files, name: Name, file: Data, xorb: nat -> Data)
    requires Holds(mix, before, xorb) && Fits(mix, file, name, xorb)
    ensures Holds(mix, before[name := file], xorb)
  {
    var after := before[name := file];
    forall n, k: nat | Genuine(mix, after, n) && Spans(n, k)
      ensures Serves(after[n], n.start, n.end, k - n.start, xorb(k)) && |xorb(k)| <= BUFFER_SIZE {
      JoinedServes(mix, before, name, file, xorb, n, k);
      assert Right(after[n], n, k, xorb(k));
    }
  }

  lemma JoinedTrusted(mix: Mixer, before: Files, name: Name, file: Data, verified: set<Name>)
    requires Trusted(mix, before, verified) && Accepted(mix, file, name.start, name.end)
    ensures Trusted(mix, before[name := file], verified + {name})
  {
  }

  /** Seals the chunks if they are all there, and leaves an empty file otherwise. */
  method SealChunks(mix: Mixer, n: nat, chunks: seq<Data>) returns (file: Data, ok: bool)
    requires 0 < n <= MAX_CHUNKS && |chunks| <= n && Buffered(chunks)
    ensures ok <==> |chunks| == n
    ensures file == if ok then SealedFile(mix, chunks) else []
  {
    var merged := new ChunkCache(mix, n, chunks, |chunks| < n);
    assert merged.loaded + merged.rest == chunks && chunks[..|chunks|] == chunks;
    ok := merged.LoadAll();
    merged.Finish();
    file := merged.file;
  }

  /** The covered chunks are read back and sealed under one name; a read that fails leaves an empty file. */
  method Rewrite(mix: Mixer, files: Files, name: Name, names: seq<Name>, metas: seq<Meta>, readable: nat,
                 ghost xorb: nat -> Data) returns (file: Data, ok: bool)
    requires ValidRange(name.start, name.end) && |metas| == name.end - name.start &&
      AllPlaced(mix, files, names, metas, name.start)
    ensures if ok then Accepted(mix, file, name.start, name.end) else file == []
    ensures Sound(mix, files) && Holds(mix, files, xorb) ==>
      (ok <==> readable >= name.end - name.start) && (ok ==> Fits(mix, file, name, xorb))
  {
    var chunks := ReadChunks(mix, files, names, metas, name.start, readable, xorb);
    file, ok := SealChunks(mix, name.end - name.start, chunks);
    if ok {
      SealedAccepted(mix, chunks, name.start, name.end);
      if Sound(mix, files) && Holds(mix, files, xorb) { SealedFits(mix, name, chunks, xorb); }
    }
  }

  /** Opening the range for rewriting: a corrupt entry met on the way is removed, unless somebody else has it locked. */
  method OpenSource(mix: Mixer, files: Files, name: Name, verified: set<Name>)
    returns (source: Opened, after: Files, known: set<Name>)
    requires Trusted(mix, files, verified) && name in files && !Complete(files, name) &&
      ValidRange(name.start, name.end)
    ensures Trusted(mix, files, known) && Answers(mix, files, name.start, name.end, source)
    ensures Sound(mix, files) ==> (source.Opened? <==> AllCovered(mix, files, name.start, name.end))
    ensures source.Opened? ==> after == files
    ensures !source.Opened? ==> Wrote(mix, files, after, name, false) && name !in after
    ensures Sound(mix, files) && !source.Opened? ==> after == files - {name}
  {
    var listing := ListDir(files);
    source, known := OpenCachedRange(mix, files, listing, verified, name.start, name.end);
    after := files;
    if !source.Opened? {
      after := files - {name};
      var locked: bool := *;
      if source.Corrupt? && !locked { after := after - {source.name}; }
    }
  }

  lemma FewerTrusted(mix: Mixer, before: Files, after: Files, verified: set<Name>)
    requires Trusted(mix, before, verified) && forall n {:trigger n in after} :: n in after && Complete(after, n) ==>
      n in before && after[n] == before[n]
    ensures Trusted(mix, after, verified)
  {
    forall n | n in verified && Complete(after, n)
      ensures CrcOk(mix, after[n], ReadLayout(after[n], n.start, n.end).value) {
      assert n in after;
    }
  }

  /** Locks the entry: an empty file unless there is one. */
  function Locked(files: Files, name: Name): Files { if name in files then files else files[name := []] }

  method WriteMergedEntry(mix: Mixer, files: Files, name: Name, verified: set<Name>, readable: nat,
                          ghost xorb: nat -> Data)
    returns (after: Files, ok: bool, known: set<Name>)
    requires Trusted(mix, files, verified) && ValidRange(name.start, name.end)
    ensures Trusted(mix, after, known)
    ensures Complete(files, name) ==> after == files && ok
    ensures !Complete(files, name) ==> Wrote(mix, files, after, name, ok)
    ensures Healthy(mix, files, verified, xorb) ==> Healthy(mix, after, known, xorb) && SameCover(mix, files, after)
    ensures Healthy(mix, files, verified, xorb) && !Complete(files, name) ==>
      (ok <==> AllCovered(mix, files, name.start, name.end) && readable >= name.end - name.start)
  {
    known := verified;
    var locked := Locked(files, name);
    if Complete(locked, name) { return locked, true, known; }
    FewerTrusted(mix, files, locked, verified);
    if Healthy(mix, files, verified, xorb) { Unseen(mix, files, locked, name, verified, xorb); }
    var source, left;
    source, left, known := OpenSource(mix, locked, name, verified);
    if !source.Opened? {
      after, ok := left, false;
      FewerTrusted(mix, locked, after, known);
      WroteFromLocked(mix, files, after, name, false);
      if Healthy(mix, files, verified, xorb) { Unseen(mix, locked, after, name, known, xorb); }
      return;
    }
    after, ok, known := Install(mix, locked, name, source, readable, known, xorb);
    WroteFromLocked(mix, files, after, name, ok);
  }

  lemma WroteFromLocked(mix: Mixer, files: Files, after: Files, name: Name, ok: bool)
    requires !Complete(files, name) && Wrote(mix, Locked(files, name), after, name, ok)
    ensures Wrote(mix, files, after, name, ok)
  {
    var locked := Locked(files, name);
    forall n | n in files && n != name && n !in after ensures !ok && Complete(files, n) && !Genuine(mix, files, n) &&
      Meets(n, name.start, name.end) {
      assert n in locked && locked[n] == files[n];
    }
  }

  /** Rewrites an opened range under a locked name. */
  method Install(mix: Mixer, locked: Files, name: Name, source: Opened, readable: nat, verified: set<Name>,
                 ghost xorb: nat -> Data)
    returns (after: Files, ok: bool, known: set<Name>)
    requires Trusted(mix, locked, verified) && ValidRange(name.start, name.end) && name in locked &&
      !Complete(locked, name)
    requires source.Opened? && Answers(mix, locked, name.start, name.end, source)
    requires Sound(mix, locked) ==> AllCovered(mix, locked, name.start, name.end)
    ensures Trusted(mix, after, known) && Wrote(mix, locked, after, name, ok)
    ensures Healthy(mix, locked, verified, xorb) ==>
      Healthy(mix, after, known, xorb) && SameCover(mix, locked, after) && (ok <==> readable >= name.end - name.start)
  {
    var file;
    file, ok := Rewrite(mix, locked, name, source.names, source.metas, readable, xorb);
    after, known := locked[name := file], verified;
    if ok {
      JoinedTrusted(mix, locked, name, file, verified);
      known := known + {name};
      if Healthy(mix, locked, verified, xorb) {
        JoinedSound(mix, locked, name, file);
        JoinedHolds(mix, locked, name, file, xorb);
        JoinedCover(mix, locked, name, file);
      }
    } else {
      FewerTrusted(mix, locked, after, verified);
      if Healthy(mix, locked, verified, xorb) { Unseen(mix, locked, after, name, verified, xorb); }
    }
  }

  // ---------------------------------------------------------------- one run of touching entries

  /** The directory once the members of a run that nobody uses are gone, except the covering one. */
  function Dropped(files: Files, run: seq<Name>, c: Name, idle: set<Name>): Files {
    map n | n in files && !(n in run && n != c && n in idle) :: files[n]
  }

  method DropIdle(files: Files, run: seq<Name>, c: Name, idle: set<Name>, verified: set<Name>)
    returns (after: Files, kept: bool, known: set<Name>)
    ensures after == Dropped(files, run, c, idle) && known <= verified
    ensures kept <==> exists n :: n in run && n != c && n !in idle
  {
    after, kept, known := files, false, verified;
    for i := 0 to |run|
      invariant after == Dropped(files, run[..i], c, idle) && known <= verified
      invariant kept <==> exists n :: n in run[..i] && n != c && n !in idle
    {
      var n := run[i];
      assert run[..i + 1] == run[..i] + [n];
      if n != c {
        if n in idle {
          after, known := after - {n}, known - {n};
        } else {
          kept := true;
        }
      }
    }
    assert run[..|run|] == run;
  }

  /** Fewer files are no less healthy. */
  lemma DroppedHealthy(mix: Mixer, files: Files, run: seq<Name>, c: Name, idle: set<Name>, verified: set<Name>,
                       known: set<Name>, xorb: nat -> Data)
    requires Healthy(mix, files, verified, xorb) && known <= verified
    ensures Healthy(mix, Dropped(files, run, c, idle), known, xorb)
  {
    var after := Dropped(files, run, c, idle);
    forall n ensures Genuine(mix, after, n) <==> n in after && Genuine(mix, files, n) { }
    forall n | Complete(after, n) ensures Complete(files, n) { }
  }

  /** A genuine covering entry makes the other members of its run redundant. */
  lemma DroppedCover(mix: Mixer, files: Files, run: seq<Name>, c: Name, idle: set<Name>)
    requires Genuine(mix, files, c) && forall n :: n in run ==> c.start <= n.start && n.end <= c.end
    ensures SameCover(mix, files, Dropped(files, run, c, idle))
  {
    var after := Dropped(files, run, c, idle);
    assert Genuine(mix, after, c);
    forall k ensures Covered(mix, files, k) <==> Covered(mix, after, k) {
      if Covered(mix, files, k) {
        var n :| Genuine(mix, files, n) && Spans(n, k);
        assert if n in after then Genuine(mix, after, n) else Spans(c, k);
      }
      if Covered(mix, after, k) {
        var n :| Genuine(mix, after, n) && Spans(n, k);
        assert Genuine(mix, files, n);
      }
    }
  }

  predicate Ranges(n: Name, start: nat, end: nat) { n.start == start && n.end == end }

  /** The first member of the run that covers all of it, and the bytes the run came from. */
  method Covering(run: seq<Name>, start: nat, end: nat) returns (c: Option<Name>, bytesStart: nat, bytesEnd: nat)
    requires |run| > 0
    ensures c.Some? ==> c.value in run && Ranges(c.value, start, end)
    ensures c.None? ==> forall n :: n in run ==> !Ranges(n, start, end)
    ensures forall n :: n in run ==> bytesStart <= n.bytesStart && n.bytesEnd <= bytesEnd
  {
    c, bytesStart, bytesEnd := None, run[0].bytesStart, run[0].bytesEnd;
    for i := 0 to |run|
      invariant c.Some? ==> c.value in run && Ranges(c.value, start, end)
      invariant c.None? ==> forall n :: n in run[..i] ==> !Ranges(n, start, end)
      invariant forall n :: n in run[..i] ==> bytesStart <= n.bytesStart && n.bytesEnd <= bytesEnd
    {
      bytesStart, bytesEnd := Min(bytesStart, run[i].bytesStart), Max(bytesEnd, run[i].bytesEnd);
      if c.None? && Ranges(run[i], start, end) { c := Some(run[i]); }
    }
    assert run[..|run|] == run;
  }

  /** What a run's compaction does to the complete entries; c is the entry the run is to shrink to. */
  ghost predicate Shrunk(before: Files, after: Files, run: seq<Name>, c: Name, single: bool) {
    && (forall n {:trigger Complete(after, n)} :: Complete(after, n) ==>
      n == c || (Complete(before, n) && (n in run ==> !single)))
    && (forall n {:trigger Complete(before, n)} :: Complete(before, n) && n !in run ==> Complete(after, n))
  }

  lemma ShrunkBy(before: Files, wrote: Files, run: seq<Name>, c: Name, idle: set<Name>, kept: bool)
    requires wrote == before || SameBut(before, wrote, c)
    requires kept <==> exists n :: n in run && n != c && n !in idle
    requires Complete(wrote, c)
    ensures Shrunk(before, Dropped(wrote, run, c, idle), run, c, !kept)
  {
    var after := Dropped(wrote, run, c, idle);
    forall n | Complete(after, n) ensures n == c || (Complete(before, n) && (n in run ==> kept)) { }
    forall n | Complete(before, n) && n !in run ensures Complete(after, n) { }
  }

  /** What lies outside a run is as before, except the entry it is to shrink to. */
  ghost predicate OutsideSame(before: Files, after: Files, run: seq<Name>, c: Name) {
    && (forall n {:trigger n in after} :: n in after && n !in run && n != c ==> n in before && after[n] == before[n])
    && (forall n {:trigger n in before} :: n in before && n !in run && n != c ==> n in after)
  }

  /** A run as the pass finds it: complete entries inside the stretch, and all complete entries that overlap it. */
  ghost predicate IsRun(files: Files, run: seq<Name>, start: nat, end: nat) {
    && |run| > 0 && ValidRange(start, end)
    && (forall n :: n in run ==> Complete(files, n) && start <= n.start && n.end <= end)
    && (forall n {:trigger Complete(files, n)} :: Complete(files, n) && Meets(n, start, end) ==> n in run)
  }

  /** Nothing was there under the name, and the run was rewritten under it, or not. */
  lemma RunWritten(mix: Mixer, files: Files, wrote: Files, run: seq<Name>, c: Name, ok: bool)
    requires IsRun(files, run, c.start, c.end) && c !in run && !Complete(files, c) && Wrote(mix, files, wrote, c, ok)
    ensures KeepsCover(mix, files, wrote) && OutsideSame(files, wrote, run, c)
    ensures ok ==> SameBut(files, wrote, c) && Complete(wrote, c)
    ensures !ok ==> Shrunk(files, wrote, run, c, false)
  {
    WroteKeeps(mix, files, wrote, c, ok);
    if !ok {
      forall n | Complete(files, n) && n !in run ensures Complete(wrote, n) { assert n in wrote; }
    }
  }

  /** Dropping the members of a run for a genuine entry that covers them. */
  lemma RunDropped(mix: Mixer, before: Files, wrote: Files, run: seq<Name>, c: Name, idle: set<Name>)
    requires KeepsCover(mix, before, wrote) && Genuine(mix, wrote, c) && forall n :: n in run ==>
      c.start <= n.start && n.end <= c.end
    ensures KeepsCover(mix, before, Dropped(wrote, run, c, idle))
  {
    DroppedCover(mix, wrote, run, c, idle);
    forall k | Covered(mix, before, k)
      ensures Covered(mix, Dropped(wrote, run, c, idle), k) { assert Covered(mix, wrote, k); }
  }

  lemma CoveringIsNew(files: Files, run: seq<Name>, c: Name)
    requires IsRun(files, run, c.start, c.end) && forall n :: n in run ==> !Ranges(n, c.start, c.end)
    ensures c !in run && !Complete(files, c)
  {
    assert Ranges(c, c.start, c.end);
    assert Meets(c, c.start, c.end);
  }

  /** Replaces a run by one entry that covers it, when that can be had; reused says that a member of the run was taken
      for that entry as it was. */
  method MergeRun(mix: Mixer, files: Files, run: seq<Name>, start: nat, end: nat, idle: set<Name>,
                  readable: Name -> nat, verified: set<Name>, ghost xorb: nat -> Data)
    returns (after: Files, kept: bool, ok: bool, known: set<Name>, ghost c: Name, ghost reused: bool)
    requires Trusted(mix, files, verified) && IsRun(files, run, start, end)
    ensures Trusted(mix, after, known) && Ranges(c, start, end) && OutsideSame(files, after, run, c)
    ensures Shrunk(files, after, run, c, ok && !kept)
    ensures kept <==> ok && exists n :: n in run && n != c && n !in idle
    ensures ok ==> forall n :: n in run && n != c && n in idle ==> n !in after
    ensures reused ==> ok && c in run && after == Dropped(files, run, c, idle)
    ensures !reused ==> KeepsCover(mix, files, after) && forall n :: n in run ==> !Ranges(n, start, end)
    ensures Healthy(mix, files, verified, xorb) && AllCovered(mix, files, start, end) ==>
      Healthy(mix, after, known, xorb) && SameCover(mix, files, after) &&
        (ok <==> Complete(files, c) || readable(c) >= end - start)
  {
    var found, bytesStart, bytesEnd := Covering(run, start, end);
    if found.Some? {
      c, reused, ok := found.value, true, true;
      after, kept, known := Shrink(mix, files, run, found.value, idle, verified, xorb);
      ShrunkBy(files, files, run, c, idle, kept);
      return;
    }
    var cover := Name(start, end, bytesStart, bytesEnd);
    c, reused := cover, false;
    CoveringIsNew(files, run, cover);
    var wrote;
    wrote, ok, known := WriteMergedEntry(mix, files, cover, verified, readable(cover), xorb);
    RunWritten(mix, files, wrote, run, cover, ok);
    if !ok { return wrote, false, false, known, c, reused; }
    after, kept, known := Shrink(mix, wrote, run, cover, idle, known, xorb);
    RunDropped(mix, files, wrote, run, cover, idle);
    ShrunkBy(files, wrote, run, cover, idle, kept);
  }

  /** Drops the idle members of a run for the entry that covers it. */
  method Shrink(mix: Mixer, files: Files, run: seq<Name>, c: Name, idle: set<Name>, verified: set<Name>,
                ghost xorb: nat -> Data)
    returns (after: Files, kept: bool, known: set<Name>)
    requires Trusted(mix, files, verified) && Complete(files, c) && forall n :: n in run ==>
      c.start <= n.start && n.end <= c.end
    ensures after == Dropped(files, run, c, idle) && Trusted(mix, after, known)
    ensures kept <==> exists n :: n in run && n != c && n !in idle
    ensures Healthy(mix, files, verified, xorb) ==> Healthy(mix, after, known, xorb) && SameCover(mix, files, after)
  {
    after, kept, known := DropIdle(files, run, c, idle, verified);
    FewerTrusted(mix, files, after, known);
    if Healthy(mix, files, verified, xorb) {
      DroppedHealthy(mix, files, run, c, idle, verified, known, xorb);
      DroppedCover(mix, files, run, c, idle);
    }
  }

  // ---------------------------------------------------------------- the whole directory

  /** By start; of two that start together the longer first. */
  predicate ByRange(x: Name, y: Name) { x.start < y.start || (x.start == y.start && x.end >= y.end) }

  predicate Apart(n: Name, m: Name) { n.end < m.start || m.end < n.start }

  method CompleteEntries(files: Files) returns (cands: seq<Name>)
    ensures Sorted(ByRange, cands) && Once(cands)
    ensures forall n :: n in cands <==> Complete(files, n)
  {
    var listing := ListDir(files);
    var found := [];
    for i := 0 to |listing|
      invariant forall n :: n in found <==> n in listing[..i] && Complete(files, n)
      invariant forall n :: multiset(found)[n] <= multiset(listing[..i])[n]
    {
      assert listing[..i + 1] == listing[..i] + [listing[i]];
      if Complete(files, listing[i]) { found := found + [listing[i]]; }
    }
    assert listing[..|listing|] == listing;
    cands := Sort(ByRange, found);
    SortSorts(ByRange, found);
    forall n ensures n in cands <==> n in found { SameNames(ByRange, found, n); }
    forall n ensures multiset(cands)[n] <= 1 { assert multiset(listing)[n] <= 1; }
  }

  /** Covered stretches that touch make one covered stretch. */
  lemma Touching(mix: Mixer, files: Files, n: Name, start: nat, end: nat)
    requires AllCovered(mix, files, start, end) && Genuine(mix, files, n) && n.start <= end
    ensures AllCovered(mix, files, start, Max(end, n.end))
  {
    forall k | start <= k < Max(end, n.end) ensures Covered(mix, files, k) {
      if k >= end { assert Spans(n, k); }
    }
  }

  lemma CompleteRange(files: Files, n: Name)
    requires Complete(files, n)
    ensures ValidRange(n.start, n.end)
  {
  }

  /** Extends a covered stretch by an entry that touches it. */
  lemma RunGrows(mix: Mixer, files: Files, n: Name, start: nat, end: nat)
    requires Complete(files, n) && start <= n.start <= end
    requires start == end || (ValidRange(start, end) && (Sound(mix, files) ==> AllCovered(mix, files, start, end)))
    ensures ValidRange(start, Max(end, n.end)) && (Sound(mix, files) ==> AllCovered(mix, files, start, Max(end, n.end)))
  {
    CompleteRange(files, n);
    if Sound(mix, files) { Touching(mix, files, n, start, end); }
  }

  ghost predicate AllComplete(files: Files, cands: seq<Name>, i: nat) {
    forall k {:trigger Complete(files, cands[k])} :: i <= k < |cands| ==> Complete(files, cands[k])
  }

  /** Entries i up to j cover one stretch of chunks that ends at end. */
  ghost predicate Stretch(mix: Mixer, files: Files, cands: seq<Name>, i: nat, j: nat, end: nat) {
    && i < j <= |cands| && ValidRange(cands[i].start, end) &&
      (Sound(mix, files) ==> AllCovered(mix, files, cands[i].start, end))
    && (forall k {:trigger cands[k]} :: i <= k < j ==> cands[i].start <= cands[k].start && cands[k].end <= end)
    && (j == i + 1 ==> end == cands[i].end)
  }

  lemma StretchStarts(mix: Mixer, files: Files, cands: seq<Name>, i: nat)
    requires AllComplete(files, cands, i) && i < |cands|
    ensures Stretch(mix, files, cands, i, i + 1, cands[i].end)
  {
    assert Complete(files, cands[i]);
    CompleteRange(files, cands[i]);
    RunGrows(mix, files, cands[i], cands[i].start, cands[i].start);
  }

  lemma StretchGrows(mix: Mixer, files: Files, cands: seq<Name>, i: nat, j: nat, end: nat)
    requires AllComplete(files, cands, i) && Sorted(ByRange, cands)
    requires Stretch(mix, files, cands, i, j, end) && j < |cands| && cands[j].start <= end
    ensures Stretch(mix, files, cands, i, j + 1, Max(end, cands[j].end))
  {
    assert Complete(files, cands[j]);
    assert ByRange(cands[i], cands[j]);
    RunGrows(mix, files, cands[j], cands[i].start, end);
  }

  /** Entries i up to j hang together, each touching what comes before, and some entry ends where they all do. */
  ghost predicate Chain(cands: seq<Name>, i: nat, j: nat, end: nat) {
    && i < j <= |cands| && (exists q :: i <= q < j && cands[q].end == end)
    && forall p {:trigger Follows(cands, i, p)} :: i < p < j ==> Follows(cands, i, p)
  }

  ghost predicate Follows(cands: seq<Name>, i: nat, p: nat)
    requires p < |cands|
  {
    exists q :: i <= q < p && cands[p].start <= cands[q].end
  }

  lemma ChainGrows(cands: seq<Name>, i: nat, j: nat, end: nat)
    requires Chain(cands, i, j, end) && j < |cands| && cands[j].start <= end
    ensures Chain(cands, i, j + 1, Max(end, cands[j].end))
  {
    var q :| i <= q < j && cands[q].end == end;
    assert cands[j].start <= cands[q].end;
    assert Follows(cands, i, j);
    assert cands[if end < cands[j].end then j else q].end == Max(end, cands[j].end);
  }

  /** A maximal run of touching entries: where it stops, and where its chunks end. */
  method RunEnd(cands: seq<Name>, i: nat, ghost mix: Mixer, ghost files: Files) returns (j: nat, end: nat)
    requires i < |cands| && Sorted(ByRange, cands) && AllComplete(files, cands, i)
    ensures Stretch(mix, files, cands, i, j, end) && Chain(cands, i, j, end)
    ensures j < |cands| ==> end < cands[j].start
  {
    StretchStarts(mix, files, cands, i);
    j, end := i + 1, cands[i].end;
    while j < |cands| && cands[j].start <= end
      invariant Stretch(mix, files, cands, i, j, end) && Chain(cands, i, j, end)
    {
      ChainGrows(cands, i, j, end);
      StretchGrows(mix, files, cands, i, j, end);
      end := Max(end, cands[j].end);
      j := j + 1;
    }
  }

  /** Entries before position i are done with; they lie apart from the rest and, if all went well, from each other. */
  ghost predicate Walked(files: Files, cands: seq<Name>, i: nat, tidy: bool)
    requires i <= |cands|
  {
    && AllComplete(files, cands, i)
    && (forall n {:trigger Complete(files, n)} :: Complete(files, n) && n !in cands[i..] && i < |cands| ==>
      n.end < cands[i].start)
    && (tidy ==> forall n, m {:trigger Complete(files, n), Complete(files, m)} ::
          Complete(files, n) && Complete(files, m) && n != m && n !in cands[i..] && m !in cands[i..] ==> Apart(n, m))
  }

  /** The entries behind a run are not touched by its compaction. */
  lemma RestStays(mix: Mixer, before: Files, after: Files, cands: seq<Name>, i: nat, j: nat, end: nat, c: Name,
                  single: bool, k: nat)
    requires Stretch(mix, before, cands, i, j, end) && Sorted(ByRange, cands) && AllComplete(before, cands, i)
    requires Shrunk(before, after, cands[i..j], c, single)
    requires j <= k < |cands| && end < cands[j].start
    ensures Complete(after, cands[k])
  {
    assert Complete(before, cands[k]);
    assert k > j ==> ByRange(cands[j], cands[k]);
    CompleteRange(before, cands[k]);
    assert cands[k] !in cands[i..j];
  }

  /** What is complete after a run and does not lie behind it. */
  lemma WhatIsDone(before: Files, after: Files, cands: seq<Name>, i: nat, j: nat, c: Name, tidy: bool, single: bool,
                   n: Name)
    requires i < j <= |cands| && Walked(before, cands, i, tidy) && Shrunk(before, after, cands[i..j], c, single)
    requires Complete(after, n) && n !in cands[j..]
    ensures n == c || (n in cands[i..j] && !single) ||
      (Complete(before, n) && n !in cands[i..] && n.end < cands[i].start)
  {
    if n in cands[i..] {
      assert cands[i..] == cands[i..j] + cands[j..];
    }
  }

  lemma WalkedOn(mix: Mixer, before: Files, after: Files, cands: seq<Name>, i: nat, j: nat, end: nat, c: Name,
                 tidy: bool, single: bool)
    requires i < j <= |cands| && Sorted(ByRange, cands) && Walked(before, cands, i, tidy) &&
      Stretch(mix, before, cands, i, j, end)
    requires Shrunk(before, after, cands[i..j], c, single) && Ranges(c, cands[i].start, end)
    requires j < |cands| ==> end < cands[j].start
    ensures Walked(after, cands, j, tidy && single)
  {
    forall k | j <= k < |cands|
      ensures Complete(after, cands[k]) { RestStays(mix, before, after, cands, i, j, end, c, single, k); }
    forall n | Complete(after, n) && n !in cands[j..]
      ensures n == c || (n in cands[i..j] && !single) ||
        (Complete(before, n) && n !in cands[i..] && n.end < cands[i].start)
    {
      WhatIsDone(before, after, cands, i, j, c, tidy, single, n);
    }
  }

  /** Every read of every merged entry succeeds. */
  ghost predicate Readable(readable: Name -> nat) { forall n {:trigger readable(n)} :: readable(n) >= n.end - n.start }

  /** A stretch of the walk is a run: what overlaps it is in it. */
  lemma StretchIsRun(mix: Mixer, files: Files, cands: seq<Name>, i: nat, j: nat, end: nat, tidy: bool)
    requires i < |cands| && Sorted(ByRange, cands) && Walked(files, cands, i, tidy) &&
      Stretch(mix, files, cands, i, j, end)
    requires j < |cands| ==> end < cands[j].start
    ensures IsRun(files, cands[i..j], cands[i].start, end)
  {
    var run := cands[i..j];
    forall n | n in run ensures Complete(files, n) && cands[i].start <= n.start && n.end <= end {
      var k :| i <= k < j && cands[k] == n;
      assert Complete(files, cands[k]);
    }
    forall n | Complete(files, n) && Meets(n, cands[i].start, end)
      ensures n in run { InRun(files, cands, i, j, end, tidy, n); }
  }

  lemma InRun(files: Files, cands: seq<Name>, i: nat, j: nat, end: nat, tidy: bool, n: Name)
    requires i < j <= |cands| && Sorted(ByRange, cands) && Walked(files, cands, i, tidy) &&
      (j < |cands| ==> end < cands[j].start)
    requires Complete(files, n) && Meets(n, cands[i].start, end)
    ensures n in cands[i..j]
  {
    assert n in cands[i..];
    var k :| i <= k < |cands| && cands[k] == n;
    assert j < k ==> ByRange(cands[j], cands[k]);
    assert k < j;
    assert cands[i..j][k - i] == n;
  }

  /** What compacting one run does to the directory. */
  ghost predicate Compacted(mix: Mixer, before: Files, after: Files, run: seq<Name>, c: Name, reused: bool,
                            idle: set<Name>) {
    && OutsideSame(before, after, run, c)
    && (reused ==> c in run && after == Dropped(before, run, c, idle))
    && (!reused ==> KeepsCover(mix, before, after))
  }

  ghost predicate SomeInUse(cands: seq<Name>, idle: set<Name>) { exists n :: n in cands && n !in idle }

  /** Takes the run that starts at entry i to its end, and compacts it if it has more than one entry. */
  method MergeNext(mix: Mixer, files: Files, cands: seq<Name>, i: nat, idle: set<Name>, readable: Name -> nat,
                   verified: set<Name>, ghost xorb: nat -> Data, ghost tidy: bool)
    returns (after: Files, kept: bool, ok: bool, known: set<Name>, j: nat, ghost end: nat, ghost c: Name,
      ghost reused: bool)
    requires Trusted(mix, files, verified) && i < |cands| && Sorted(ByRange, cands) && Walked(files, cands, i, tidy)
    ensures Trusted(mix, after, known)
    ensures i < j <= |cands| && Walked(after, cands, j, tidy && ok && !kept) && (j < |cands| ==> end < cands[j].start)
    ensures IsRun(files, cands[i..j], cands[i].start, end) && Ranges(c, cands[i].start, end)
    ensures Compacted(mix, files, after, cands[i..j], c, reused, idle)
    ensures Chain(cands, i, j, end) && (reused ==> j - i >= 2)
    ensures j - i >= 2 && !reused ==> forall n :: n in cands[i..j] ==> !Ranges(n, cands[i].start, end)
    ensures Healthy(mix, files, verified, xorb) ==>
      Healthy(mix, after, known, xorb) && SameCover(mix, files, after) && (Readable(readable) ==> ok)
    ensures kept ==> SomeInUse(cands, idle)
  {
    var upTo;
    j, upTo := RunEnd(cands, i, mix, files);
    end := upTo;
    StretchIsRun(mix, files, cands, i, j, end, tidy);
    if j - i < 2 {
      c, reused := cands[i], false;
      WalkedOn(mix, files, files, cands, i, j, end, cands[i], tidy, true);
      return files, false, true, verified, j, end, c, reused;
    }
    after, kept, ok, known, c,
      reused := MergeRun(mix, files, cands[i..j], cands[i].start, upTo, idle, readable, verified, xorb);
    WalkedOn(mix, files, after, cands, i, j, end, c, tidy, ok && !kept);
    if kept {
      ghost var n :| n in cands[i..j] && n !in idle;
      assert n in cands;
    }
  }

  lemma CoverChain(mix: Mixer, a: Files, b: Files, c: Files)
    requires SameCover(mix, a, b) && SameCover(mix, b, c)
    ensures SameCover(mix, a, c)
  {
    forall k ensures Covered(mix, a, k) <==> Covered(mix, c, k) {
      assert Covered(mix, a, k) <==> Covered(mix, b, k);
    }
  }

  // ---------------------------------------------------------------- when nothing is lost

  predicate Inside(s: Name, c: Name) { c.start <= s.start && s.end <= c.end }

  /** An entry that may stand for the others inside it: it is genuine, or none of those is. */
  ghost predicate Fine(mix: Mixer, files: Files, c: Name) {
    Genuine(mix, files, c) || forall s {:trigger Genuine(mix, files, s)} :: Genuine(mix, files, s) && s != c ==>
      !Inside(s, c)
  }

  ghost predicate AllFine(mix: Mixer, files: Files, reused: set<Name>) {
    forall c {:trigger c in reused} :: c in reused ==> Fine(mix, files, c)
  }

  /** Entries from position i on are as they were. */
  ghost predicate Ahead(first: Files, files: Files, cands: seq<Name>, i: nat)
    requires i <= |cands|
  {
    forall n {:trigger n in cands[i..]} :: n in cands[i..] ==> n in first && n in files && files[n] == first[n]
  }

  predicate Below(cands: seq<Name>, i: nat, k: nat)
    requires i <= |cands|
  {
    i < |cands| ==> k < cands[i].start
  }

  /** Chunk k could be read at first, lies before entry i and cannot be read any more. */
  ghost predicate Lost(mix: Mixer, first: Files, files: Files, cands: seq<Name>, i: nat, k: nat)
    requires i <= |cands|
  {
    Below(cands, i, k) && Covered(mix, first, k) && !Covered(mix, files, k)
  }

  lemma AheadOn(mix: Mixer, first: Files, files: Files, after: Files, cands: seq<Name>, i: nat, j: nat, end: nat,
                c: Name)
    requires i < j <= |cands| && Sorted(ByRange, cands) && Ahead(first, files, cands, i) &&
      (j < |cands| ==> end < cands[j].start)
    requires IsRun(files, cands[i..j], cands[i].start, end) && Ranges(c, cands[i].start, end) &&
      OutsideSame(files, after, cands[i..j], c)
    ensures Ahead(first, after, cands, j)
  {
    assert cands[i..] == cands[i..j] + cands[j..];
    forall n | n in cands[j..] ensures n in first && n in after && after[n] == first[n] {
      assert n in cands[i..];
      BehindRun(files, cands, i, j, end, n);
    }
  }

  /** An entry behind a run starts after its end. */
  lemma BehindRun(files: Files, cands: seq<Name>, i: nat, j: nat, end: nat, n: Name)
    requires i < j <= |cands| && Sorted(ByRange, cands) && (j < |cands| ==> end < cands[j].start)
    requires IsRun(files, cands[i..j], cands[i].start, end) && n in cands[j..]
    ensures n.start > end && n !in cands[i..j]
  {
    var k :| j <= k < |cands| && cands[k] == n;
    assert j < k ==> ByRange(cands[j], cands[k]);
    if n in cands[i..j] { CompleteRange(files, n); }
  }

  /** A run whose covering entry is fine loses nothing. */
  lemma FineKeeps(mix: Mixer, first: Files, files: Files, after: Files, cands: seq<Name>, i: nat, j: nat, end: nat,
                  c: Name, idle: set<Name>)
    requires i < j <= |cands| && Ahead(first, files, cands, i) && IsRun(files, cands[i..j], cands[i].start, end)
    requires Ranges(c, cands[i].start, end) && c in cands[i..j] && after == Dropped(files, cands[i..j], c, idle) &&
      Fine(mix, first, c)
    ensures KeepsCover(mix, files, after)
  {
    var run := cands[i..j];
    forall n | n in run ensures Genuine(mix, files, n) <==>
      Genuine(mix, first, n) { SameAhead(mix, first, files, cands, i, j, n); }
    if Genuine(mix, files, c) {
      DroppedCover(mix, files, run, c, idle);
    } else {
      forall k | Covered(mix, files, k) ensures Covered(mix, after, k) {
        var n :| Genuine(mix, files, n) && Spans(n, k);
        assert n in run ==> Inside(n, c);
        assert Genuine(mix, after, n);
      }
    }
  }

  lemma SameAhead(mix: Mixer, first: Files, files: Files, cands: seq<Name>, i: nat, j: nat, n: Name)
    requires i < j <= |cands| && Ahead(first, files, cands, i) && n in cands[i..j]
    ensures n in cands[i..] && n in first && (Genuine(mix, files, n) <==> Genuine(mix, first, n))
  {
    assert cands[i..] == cands[i..j] + cands[j..];
  }

  /** A run whose covering entry is not fine loses a chunk once its other members are dropped. */
  lemma NotFineLoses(mix: Mixer, first: Files, files: Files, after: Files, cands: seq<Name>, i: nat, j: nat, end: nat,
                     c: Name, idle: set<Name>) returns (k: nat)
    requires i < j <= |cands| && Ahead(first, files, cands, i) && IsRun(files, cands[i..j], cands[i].start, end) &&
      (j < |cands| ==> end < cands[j].start)
    requires Ranges(c, cands[i].start, end) && c in cands[i..j] && after == Dropped(files, cands[i..j], c, idle) &&
      !Fine(mix, first, c)
    requires first.Keys <= idle
    ensures Lost(mix, first, after, cands, j, k)
  {
    var run := cands[i..j];
    var s :| Genuine(mix, first, s) && s != c && Inside(s, c);
    CompleteRange(first, s);
    k := s.start;
    assert Spans(s, k);
    SameAhead(mix, first, files, cands, i, j, c);
    forall n | Genuine(mix, after, n) ensures !Spans(n, k) {
      assert n in after && Genuine(mix, files, n) && Complete(files, n);
      if Spans(n, k) {
        assert Meets(n, cands[i].start, end);
        SameAhead(mix, first, files, cands, i, j, n);
      }
    }
  }

  /** What was lost in an earlier run stays lost. */
  lemma StaysLost(mix: Mixer, first: Files, files: Files, after: Files, cands: seq<Name>, i: nat, j: nat, end: nat,
                  c: Name, k: nat)
    requires i < j <= |cands| && Sorted(ByRange, cands) && Lost(mix, first, files, cands, i, k) &&
      IsRun(files, cands[i..j], cands[i].start, end)
    requires Ranges(c, cands[i].start, end) && OutsideSame(files, after, cands[i..j], c)
    ensures Lost(mix, first, after, cands, j, k)
  {
    if j < |cands| { assert ByRange(cands[i], cands[j]); }
    forall n | Genuine(mix, after, n) ensures !Spans(n, k) {
      if n !in cands[i..j] && n != c { assert n in after && Genuine(mix, files, n); }
    }
  }

  /** How the pass stands before entry i: with only fine entries reused nothing is lost, and with all sources idle
      something is lost otherwise. */
  ghost predicate Account(mix: Mixer, first: Files, files: Files, cands: seq<Name>, i: nat, reused: set<Name>,
                          idle: set<Name>)
    requires i <= |cands|
  {
    && (AllFine(mix, first, reused) ==> KeepsCover(mix, first, files))
    && (!AllFine(mix, first, reused) && first.Keys <= idle ==>
      exists k {:trigger Covered(mix, first, k)} :: Lost(mix, first, files, cands, i, k))
  }

  function With(reused: set<Name>, c: Name, more: bool): set<Name> { if more then reused + {c} else reused }

  lemma AccountOn(mix: Mixer, first: Files, files: Files, after: Files, cands: seq<Name>, i: nat, j: nat, end: nat,
                  c: Name, more: bool, reused: set<Name>, idle: set<Name>)
    requires i < j <= |cands| && Sorted(ByRange, cands) && Ahead(first, files, cands, i) &&
      (j < |cands| ==> end < cands[j].start)
    requires IsRun(files, cands[i..j], cands[i].start, end) && Ranges(c, cands[i].start, end)
    requires Compacted(mix, files, after, cands[i..j], c, more, idle) &&
      Account(mix, first, files, cands, i, reused, idle)
    ensures Account(mix, first, after, cands, j, With(reused, c, more), idle)
  {
    var grown := With(reused, c, more);
    if AllFine(mix, first, grown) {
      assert AllFine(mix, first, reused);
      if more {
        assert c in grown;
        FineKeeps(mix, first, files, after, cands, i, j, end, c, idle);
      }
      forall k | Covered(mix, first, k) ensures Covered(mix, after, k) { assert Covered(mix, files, k); }
    } else if first.Keys <= idle {
      var k: nat;
      if AllFine(mix, first, reused) {
        k := NotFineLoses(mix, first, files, after, cands, i, j, end, c, idle);
      } else {
        k :| Lost(mix, first, files, cands, i, k);
        StaysLost(mix, first, files, after, cands, i, j, end, c, k);
      }
      assert Covered(mix, first, k);
    }
  }

  ghost predicate Standing(mix: Mixer, first: Files, files: Files, cands: seq<Name>, i: nat, reused: set<Name>,
                           idle: set<Name>)
    requires i <= |cands|
  {
    Ahead(first, files, cands, i) && Account(mix, first, files, cands, i, reused, idle)
  }

  lemma StandingOn(mix: Mixer, first: Files, files: Files, after: Files, cands: seq<Name>, i: nat, j: nat, end: nat,
                   c: Name, more: bool, reused: set<Name>, idle: set<Name>)
    requires i < j <= |cands| && Sorted(ByRange, cands) && (j < |cands| ==> end < cands[j].start)
    requires IsRun(files, cands[i..j], cands[i].start, end) && Ranges(c, cands[i].start, end)
    requires Compacted(mix, files, after, cands[i..j], c, more, idle) &&
      Standing(mix, first, files, cands, i, reused, idle)
    ensures Standing(mix, first, after, cands, j, With(reused, c, more), idle)
  {
    AheadOn(mix, first, files, after, cands, i, j, end, c);
    AccountOn(mix, first, files, after, cands, i, j, end, c, more, reused, idle);
  }

  // ---------------------------------------------------------------- which entries are reused

  /** A complete entry that spans a stretch: every other complete entry that touches it lies inside it, and there is
      one. */
  ghost predicate Spanning(files: Files, c: Name) {
    && Complete(files, c)
    && (forall n {:trigger Complete(files, n)} :: Complete(files, n) && !Apart(n, c) ==> Inside(n, c))
    && (exists n {:trigger Complete(files, n)} :: Complete(files, n) && n != c && Inside(n, c))
  }

  ghost function Spanners(files: Files): set<Name> { set c | c in files && Spanning(files, c) }

  /** Of all that were seen, one for every range of chunks, and no others. */
  ghost predicate Picks(all: set<Name>, seen: seq<Name>, reused: set<Name>) {
    && (forall c {:trigger c in reused} :: c in reused ==> c in all && c in seen)
    && (forall c {:trigger c in all} :: c in all && c in seen ==> Picked(reused, c))
    && (forall c, d {:trigger c in reused, d in reused} :: c in reused && d in reused && Ranges(d, c.start, c.end) ==>
      c == d)
  }

  ghost predicate Picked(reused: set<Name>, c: Name) { exists d :: d in reused && Ranges(d, c.start, c.end) }

  /** One entry for every stretch that is spanned by entries, and no others. */
  ghost predicate Chosen(files: Files, reused: set<Name>) {
    && reused <= Spanners(files) &&
      (forall c {:trigger c in Spanners(files)} :: c in Spanners(files) ==> Picked(reused, c))
    && (forall c, d {:trigger c in reused, d in reused} :: c in reused && d in reused && Ranges(d, c.start, c.end) ==>
      c == d)
  }

  lemma PicksAll(files: Files, cands: seq<Name>, reused: set<Name>)
    requires Picks(Spanners(files), cands, reused) && forall n :: n in cands <==> Complete(files, n)
    ensures Chosen(files, reused)
  {
    forall c | c in Spanners(files) ensures Picked(reused, c) { assert c in cands; }
  }

  /** The candidates before position i end before the next one starts. */
  ghost predicate Behind(cands: seq<Name>, i: nat)
    requires i <= |cands|
  {
    forall k {:trigger cands[k]} :: 0 <= k < i < |cands| ==> cands[k].end < cands[i].start
  }

  /** A run that starts before an entry, or ends behind it, has a member that touches the entry and sticks out. */
  lemma RunWithin(files: Files, cands: seq<Name>, i: nat, j: nat, end: nat, k: nat)
    requires Sorted(ByRange, cands) && Chain(cands, i, j, end) && i <= k < j
    requires (forall n :: n in cands <==> Complete(files, n)) && Spanning(files, cands[k])
    ensures cands[i].start == cands[k].start
  {
    if cands[i].start < cands[k].start {
      var p := LastBefore(cands, i, k);
      assert Follows(cands, i, p + 1);
      var q :| i <= q < p + 1 && cands[p + 1].start <= cands[q].end;
      assert q < p ==> ByRange(cands[q], cands[p]);
      assert p + 1 < k ==> ByRange(cands[p + 1], cands[k]);
      SticksOut(files, cands, q, k);
    } else {
      assert i < k ==> ByRange(cands[i], cands[k]);
    }
  }

  /** An entry that touches a spanning one lies inside it. */
  lemma SticksOut(files: Files, cands: seq<Name>, q: nat, k: nat)
    requires q < |cands| && k < |cands| && (forall n :: n in cands <==> Complete(files, n)) && Spanning(files, cands[k])
    ensures Apart(cands[q], cands[k]) || Inside(cands[q], cands[k])
  {
    assert cands[q] in cands;
  }

  /** The last entry that starts before entry k. */
  lemma LastBefore(cands: seq<Name>, i: nat, k: nat) returns (p: nat)
    requires i < k < |cands| && cands[i].start < cands[k].start
    ensures i <= p < k && cands[p].start < cands[k].start <= cands[p + 1].start
  {
    p := k - 1;
    while cands[p].start >= cands[k].start
      invariant i <= p < k && cands[k].start <= cands[p + 1].start
      decreases p
    {
      p := p - 1;
    }
  }

  lemma RunEndsThere(files: Files, cands: seq<Name>, i: nat, j: nat, end: nat, k: nat)
    requires Sorted(ByRange, cands) && Chain(cands, i, j, end) && i <= k < j && cands[i].start == cands[k].start
    requires (forall n :: n in cands <==> Complete(files, n)) && Spanning(files, cands[k])
    ensures forall p {:trigger cands[p]} :: i <= p < j ==> cands[p].end <= cands[k].end
  {
    CompleteRange(files, cands[k]);
    var m := i;
    while m < j
      invariant i <= m <= j && forall p {:trigger cands[p]} :: i <= p < m ==> cands[p].end <= cands[k].end
    {
      assert cands[m] in cands;
      CompleteRange(files, cands[m]);
      if i < m {
        assert Follows(cands, i, m) && ByRange(cands[i], cands[m]);
      }
      SticksOut(files, cands, m, k);
      m := m + 1;
    }
  }

  /** A spanning entry covers its run. */
  lemma SpansRun(files: Files, cands: seq<Name>, i: nat, j: nat, end: nat, k: nat)
    requires Sorted(ByRange, cands) && Chain(cands, i, j, end) && i <= k < j
    requires (forall n :: n in cands <==> Complete(files, n)) && Spanning(files, cands[k])
    requires cands[k].end <= end
    ensures Ranges(cands[k], cands[i].start, end)
  {
    RunWithin(files, cands, i, j, end, k);
    RunEndsThere(files, cands, i, j, end, k);
  }

  /** An entry that covers its run, not alone, is a spanning one. */
  lemma CoveringSpans(files: Files, cands: seq<Name>, i: nat, j: nat, end: nat, c: Name)
    requires Sorted(ByRange, cands) && Once(cands) && i + 2 <= j <= |cands| && Behind(cands, i) &&
      (j < |cands| ==> end < cands[j].start)
    requires forall n :: n in cands <==> Complete(files, n)
    requires forall k {:trigger cands[k]} :: i <= k < j ==> cands[i].start <= cands[k].start && cands[k].end <= end
    requires c in cands[i..j] && Ranges(c, cands[i].start, end)
    ensures Spanning(files, c)
  {
    forall n | Complete(files, n) && !Apart(n, c) ensures Inside(n, c) {
      assert n in cands;
      var k :| 0 <= k < |cands| && cands[k] == n;
    }
    OnceDiffers(cands, i, i + 1);
    var other := if cands[i] == c then cands[i + 1] else cands[i];
    assert other in cands;
    assert Complete(files, other) && Inside(other, c);
  }

  /** A spanning entry is not alone in its run. */
  lemma NotAlone(files: Files, cands: seq<Name>, i: nat, j: nat, end: nat, k: nat)
    requires Sorted(ByRange, cands) && i <= k < j <= |cands| && Behind(cands, i) &&
      (j < |cands| ==> end < cands[j].start)
    requires (forall n :: n in cands <==> Complete(files, n)) && Spanning(files, cands[k]) && cands[k].end <= end
    requires cands[i].start <= cands[k].start
    ensures j - i >= 2
  {
    var n :| Complete(files, n) && n != cands[k] && Inside(n, cands[k]);
    CompleteRange(files, n);
    assert n in cands;
    var m :| 0 <= m < |cands| && cands[m] == n;
  }

  lemma BehindOn(cands: seq<Name>, i: nat, j: nat, end: nat)
    requires i < j <= |cands| && Behind(cands, i) && Sorted(ByRange, cands) && (j < |cands| ==> end < cands[j].start)
    requires forall k {:trigger cands[k]} :: i <= k < j ==> cands[k].end <= end
    ensures Behind(cands, j)
  {
    if j < |cands| {
      assert ByRange(cands[i], cands[j]);
    }
  }

  /** What a run adds to the choice. */
  ghost predicate RunChoice(files: Files, cands: seq<Name>, i: nat, j: nat, end: nat, c: Name, more: bool)
    requires i < j <= |cands|
  {
    && (more ==> j - i >= 2 && c in cands[i..j] && Ranges(c, cands[i].start, end))
    && (j - i >= 2 && !more ==> forall n :: n in cands[i..j] ==> !Ranges(n, cands[i].start, end))
  }

  lemma ChosenInRun(files: Files, cands: seq<Name>, i: nat, j: nat, end: nat, c: Name, more: bool, d: Name)
    requires Sorted(ByRange, cands) && Chain(cands, i, j, end) && Behind(cands, i) &&
      (j < |cands| ==> end < cands[j].start)
    requires forall n :: n in cands <==> Complete(files, n)
    requires forall k {:trigger cands[k]} :: i <= k < j ==> cands[i].start <= cands[k].start && cands[k].end <= end
    requires RunChoice(files, cands, i, j, end, c, more) && d in cands[i..j] && Spanning(files, d)
    ensures more && Ranges(c, d.start, d.end)
  {
    var k :| i <= k < j && cands[k] == d;
    NotAlone(files, cands, i, j, end, k);
    SpansRun(files, cands, i, j, end, k);
  }

  lemma NotChosenYet(files: Files, cands: seq<Name>, i: nat, c: Name, d: Name)
    requires i < |cands| && Behind(cands, i) && d in cands[..i] && Complete(files, c) && cands[i].start <= c.start
    ensures !Ranges(d, c.start, c.end) && !Ranges(c, d.start, d.end)
  {
    CompleteRange(files, c);
    var k :| 0 <= k < i && cands[k] == d;
    assert cands[k].end < cands[i].start;
  }

  lemma ChosenOn(files: Files, cands: seq<Name>, i: nat, j: nat, end: nat, c: Name, more: bool, reused: set<Name>)
    requires Sorted(ByRange, cands) && Once(cands) && Chain(cands, i, j, end) && Behind(cands, i) &&
      (j < |cands| ==> end < cands[j].start)
    requires forall n :: n in cands <==> Complete(files, n)
    requires forall k {:trigger cands[k]} :: i <= k < j ==> cands[i].start <= cands[k].start && cands[k].end <= end
    requires RunChoice(files, cands, i, j, end, c, more) && Picks(Spanners(files), cands[..i], reused)
    ensures Picks(Spanners(files), cands[..j], With(reused, c, more))
  {
    if more {
      CoveringSpans(files, cands, i, j, end, c);
      forall d | d in reused ensures !Ranges(d, c.start, c.end) && !Ranges(c, d.start, d.end) {
        NotChosenYet(files, cands, i, c, d);
      }
    }
    forall d | d in cands[i..j] && d in Spanners(files) ensures more && Ranges(c, d.start, d.end) {
      ChosenInRun(files, cands, i, j, end, c, more, d);
    }
    PicksJoin(Spanners(files), cands[..i], cands[i..j], c, more, reused);
    assert cands[..j] == cands[..i] + cands[i..j];
  }

  lemma PicksJoin(all: set<Name>, seen: seq<Name>, run: seq<Name>, c: Name, more: bool, reused: set<Name>)
    requires Picks(all, seen, reused) && (more ==> c in run && c in all)
    requires forall d {:trigger d in all} :: d in run && d in all ==> more && Ranges(c, d.start, d.end)
    requires more ==> forall d {:trigger d in reused} :: d in reused ==>
      !Ranges(d, c.start, c.end) && !Ranges(c, d.start, d.end)
    ensures Picks(all, seen + run, With(reused, c, more))
  {
    var grown := With(reused, c, more);
    forall d | d in all && d in seen + run ensures Picked(grown, d) {
      if d in seen {
        var e :| e in reused && Ranges(e, d.start, d.end);
        assert e in grown;
      } else {
        assert c in grown;
      }
    }
  }

  /**
   * Compaction of a directory, whatever is in it. The entries reused are those that span a stretch, one for each.
   * No chunk that could be read is lost if every one of them is genuine or has no genuine entry inside it, and with no
   * source in use only then; which can be told beforehand unless two entries are for the same chunks. In a directory
   * with no corrupt entry every chunk can be read after as before, with the same bytes. When no source is in use and
   * every read succeeds, no two of the entries that remain touch or overlap.
   */
  method MergeHashDir(mix: Mixer, files: Files, idle: set<Name>, readable: Name -> nat, verified: set<Name>,
                      ghost xorb: nat -> Data)
    returns (after: Files, retry: bool, clean: bool, known: set<Name>, ghost reused: set<Name>)
    requires Trusted(mix, files, verified)
    ensures Trusted(mix, after, known)
    ensures Chosen(files, reused) && (AllFine(mix, files, reused) ==> KeepsCover(mix, files, after))
    ensures files.Keys <= idle ==> (KeepsCover(mix, files, after) <==> AllFine(mix, files, reused))
    ensures SpanningFine(mix, files) ==> KeepsCover(mix, files, after)
    ensures files.Keys <= idle && NoTwins(files) ==> (KeepsCover(mix, files, after) <==> SpanningFine(mix, files))
    ensures Healthy(mix, files, verified, xorb) ==> Healthy(mix, after, known, xorb) && SameCover(mix, files, after)
    ensures clean && !retry ==> forall n, m {:trigger Complete(after, n), Complete(after, m)} ::
      Complete(after, n) && Complete(after, m) && n != m ==> n.end < m.start || m.end < n.start
    ensures Healthy(mix, files, verified, xorb) && Readable(readable) ==> clean
    ensures files.Keys <= idle ==> !retry
  {
    var cands := CompleteEntries(files);
    if |cands| < 2 {
      FewEntries(files, cands);
      NoneSpanning(files);
      return files, false, true, verified, {};
    }
    after, retry, clean, known, reused := MergeAll(mix, files, cands, idle, readable, verified, xorb);
    StandingEnds(mix, files, after, cands, reused, idle);
    PicksAll(files, cands, reused);
    ChosenFine(mix, files, reused);
    if clean && !retry { AllApart(after, cands); }
    if files.Keys <= idle { NoneInUse(files, cands, idle); }
  }

  lemma FewEntries(files: Files, cands: seq<Name>)
    requires |cands| < 2 && forall n :: n in cands <==> Complete(files, n)
    ensures forall n, m {:trigger Complete(files, n), Complete(files, m)} ::
      Complete(files, n) && Complete(files, m) ==> n == m
  {
    forall n, m | Complete(files, n) && Complete(files, m) ensures n == m { assert n in cands && m in cands; }
  }

  lemma NoneSpanning(files: Files)
    requires forall n, m {:trigger Complete(files, n), Complete(files, m)} ::
      Complete(files, n) && Complete(files, m) ==> n == m
    ensures Chosen(files, {})
  {
  }

  /** No two complete entries are for the same chunks. */
  ghost predicate NoTwins(files: Files) {
    forall n, m {:trigger Complete(files, n), Complete(files, m)} ::
      Complete(files, n) && Complete(files, m) && Ranges(n, m.start, m.end) ==> n == m
  }

  /** Every entry that spans a stretch is genuine or has no genuine entry inside it. */
  ghost predicate SpanningFine(mix: Mixer, files: Files) {
    forall c {:trigger Spanning(files, c)} :: Spanning(files, c) ==> Fine(mix, files, c)
  }

  lemma ChosenFine(mix: Mixer, files: Files, reused: set<Name>)
    requires Chosen(files, reused)
    ensures SpanningFine(mix, files) ==> AllFine(mix, files, reused)
    ensures NoTwins(files) && AllFine(mix, files, reused) ==> SpanningFine(mix, files)
  {
    if NoTwins(files) && AllFine(mix, files, reused) {
      forall c | Spanning(files, c) ensures Fine(mix, files, c) {
        assert c in Spanners(files);
        var d :| d in reused && Ranges(d, c.start, c.end);
        assert d in Spanners(files);
      }
    }
  }

  lemma NoneInUse(files: Files, cands: seq<Name>, idle: set<Name>)
    requires files.Keys <= idle && forall n :: n in cands <==> Complete(files, n)
    ensures !SomeInUse(cands, idle)
  {
    forall n | n in cands ensures n in idle { assert n in files.Keys; }
  }

  lemma AllApart(files: Files, cands: seq<Name>)
    requires Walked(files, cands, |cands|, true)
    ensures forall n, m {:trigger Complete(files, n), Complete(files, m)} ::
      Complete(files, n) && Complete(files, m) && n != m ==> Apart(n, m)
  {
    assert cands[|cands|..] == [];
  }

  /** How a pass over a directory with no corrupt entry goes. */
  ghost predicate Well(mix: Mixer, first: Files, files: Files, known: set<Name>, xorb: nat -> Data,
                       readable: Name -> nat, clean: bool) {
    Healthy(mix, files, known, xorb) && SameCover(mix, first, files) && (Readable(readable) ==> clean)
  }

  /** Where the pass is before entry i. */
  ghost predicate Passing(mix: Mixer, first: Files, files: Files, cands: seq<Name>, i: nat, reused: set<Name>,
                          idle: set<Name>)
    requires i <= |cands|
  {
    && Standing(mix, first, files, cands, i, reused, idle) && Behind(cands, i)
    && Picks(Spanners(first), cands[..i], reused)
  }

  lemma PassOn(mix: Mixer, first: Files, files: Files, after: Files, cands: seq<Name>, i: nat, j: nat, end: nat,
               c: Name, more: bool, reused: set<Name>, idle: set<Name>)
    requires Sorted(ByRange, cands) && Once(cands) && Chain(cands, i, j, end) && (j < |cands| ==> end < cands[j].start)
    requires forall n :: n in cands <==> Complete(first, n)
    requires IsRun(files, cands[i..j], cands[i].start, end) && Ranges(c, cands[i].start, end)
    requires Compacted(mix, files, after, cands[i..j], c, more, idle) && (more ==> j - i >= 2)
    requires j - i >= 2 && !more ==> forall n :: n in cands[i..j] ==> !Ranges(n, cands[i].start, end)
    requires Passing(mix, first, files, cands, i, reused, idle)
    ensures Passing(mix, first, after, cands, j, With(reused, c, more), idle)
  {
    StandingOn(mix, first, files, after, cands, i, j, end, c, more, reused, idle);
    RunMembers(files, cands, i, j, end);
    ChosenOn(first, cands, i, j, end, c, more, reused);
    BehindOn(cands, i, j, end);
  }

  /** Compacts run after run. */
  method MergeAll(mix: Mixer, files: Files, cands: seq<Name>, idle: set<Name>, readable: Name -> nat,
                  verified: set<Name>, ghost xorb: nat -> Data)
    returns (after: Files, retry: bool, clean: bool, known: set<Name>, ghost reused: set<Name>)
    requires Trusted(mix, files, verified) && Sorted(ByRange, cands) && Once(cands)
    requires forall n :: n in cands <==> Complete(files, n)
    ensures Trusted(mix, after, known) && Walked(after, cands, |cands|, clean && !retry)
    ensures Standing(mix, files, after, cands, |cands|, reused, idle) && Picks(Spanners(files), cands, reused)
    ensures Healthy(mix, files, verified, xorb) ==>
      Healthy(mix, after, known, xorb) && SameCover(mix, files, after) && (Readable(readable) ==> clean)
    ensures retry ==> SomeInUse(cands, idle)
  {
    after, retry, clean, known, reused := files, false, true, verified, {};
    var i := 0;
    while i < |cands|
      invariant i <= |cands| && Walked(after, cands, i, clean && !retry) && Trusted(mix, after, known)
      invariant Passing(mix, files, after, cands, i, reused, idle)
      invariant Healthy(mix, files, verified, xorb) ==> Well(mix, files, after, known, xorb, readable, clean)
      invariant retry ==> SomeInUse(cands, idle)
    {
      ghost var before := after;
      ghost var from, end, c, more := i, 0, cands[i], false;
      var kept, ok;
      after, kept, ok, known, i, end, c,
        more := MergeNext(mix, after, cands, i, idle, readable, known, xorb, clean && !retry);
      PassOn(mix, files, before, after, cands, from, i, end, c, more, reused, idle);
      if Healthy(mix, files, verified, xorb) { CoverChain(mix, files, before, after); }
      reused := With(reused, c, more);
      clean := clean && ok;
      retry := retry || kept;
    }
    assert cands[..|cands|] == cands;
  }

  lemma RunMembers(files: Files, cands: seq<Name>, i: nat, j: nat, end: nat)
    requires i < j <= |cands| && IsRun(files, cands[i..j], cands[i].start, end)
    ensures forall k {:trigger cands[k]} :: i <= k < j ==> cands[i].start <= cands[k].start && cands[k].end <= end
  {
    forall k | i <= k < j ensures cands[i].start <= cands[k].start && cands[k].end <= end {
      assert cands[i..j][k - i] == cands[k];
    }
  }

  lemma StandingEnds(mix: Mixer, first: Files, files: Files, cands: seq<Name>, reused: set<Name>, idle: set<Name>)
    requires Standing(mix, first, files, cands, |cands|, reused, idle)
    ensures AllFine(mix, first, reused) ==> KeepsCover(mix, first, files)
    ensures first.Keys <= idle ==> (KeepsCover(mix, first, files) <==> AllFine(mix, first, reused))
  {
    if first.Keys <= idle && !AllFine(mix, first, reused) {
      var k :| Lost(mix, first, files, cands, |cands|, k);
      assert Covered(mix, first, k) && !Covered(mix, files, k);
    }
  }

  // ---------------------------------------------------------------- entries that only look complete

  /**
   * A run that holds an entry covering all of it is compacted without a look at that entry's checksum.
   * Whatever sources are in use, no chunk is lost exactly when the covering entry is genuine.
   */
  lemma CompactionSafe(mix: Mixer, files: Files, run: seq<Name>, c: Name)
    requires c in run && forall n :: n in run ==> c.start <= n.start && n.end <= c.end
    requires forall n {:trigger Genuine(mix, files, n)} :: Genuine(mix, files, n) && n !in run ==>
      n.end <= c.start || c.end <= n.start
    requires exists n {:trigger Genuine(mix, files, n)} :: n in run && n != c && Genuine(mix, files, n)
    ensures (forall idle {:trigger Dropped(files, run, c, idle)} ::
      SameCover(mix, files, Dropped(files, run, c, idle))) <==> Genuine(mix, files, c)
  {
    if Genuine(mix, files, c) {
      forall idle ensures SameCover(mix, files, Dropped(files, run, c, idle)) {
        DroppedCover(mix, files, run, c, idle);
      }
    } else {
      var idle := set n | n in run;
      var after := Dropped(files, run, c, idle);
      var s :| s in run && s != c && Genuine(mix, files, s);
      CompleteRange(files, s);
      var k := s.start;
      assert Covered(mix, files, k) by { assert Spans(s, k); }
      forall n | Genuine(mix, after, n) ensures !Spans(n, k) {
        assert n in after && Genuine(mix, files, n);
      }
      assert !Covered(mix, after, k);
    }
  }

  const LEFT := Name(0, 1, 0, 8)
  const RIGHT := Name(1, 2, 9, 17)
  const BOTH := Name(0, 2, 0, 17)

  function Trio(left: Data, right: Data, both: Data): Files { map[LEFT := left, RIGHT := right, BOTH := both] }

  /** Compaction gives up both halves for an entry that is not genuine. */
  lemma HalvesLost(mix: Mixer, left: Data, right: Data, both: Data)
    requires Accepted(mix, left, 0, 1) && Accepted(mix, right, 1, 2)
    requires ReadLayout(both, 0, 2).Some? && !Accepted(mix, both, 0, 2)
    ensures var files := Trio(left, right, both); var after := Dropped(files, [BOTH, LEFT, RIGHT], BOTH, files.Keys);
      && Complete(files, LEFT) && Complete(files, RIGHT) && Complete(files, BOTH) && !Sound(mix, files)
      && Covered(mix, files, 0) && Covered(mix, files, 1) && !Covered(mix, after, 0) && !Covered(mix, after, 1)
  {
    var files := Trio(left, right, both);
    assert Genuine(mix, files, LEFT) && Spans(LEFT, 0);
    assert Genuine(mix, files, RIGHT) && Spans(RIGHT, 1);
    assert Complete(files, BOTH) && !Genuine(mix, files, BOTH);
    var after := Dropped(files, [BOTH, LEFT, RIGHT], BOTH, files.Keys);
    forall n ensures !Genuine(mix, after, n) { assert n in after ==> n == BOTH; }
  }

  /**
   * Such an entry exists: a file for two chunks whose writer stopped after four bytes of data passes the
   * size arithmetic, and compaction then gives up the two sealed files it seems to cover.
   */
  lemma FourBytesLoseChunks(mix: Mixer) returns (data: Data)
    ensures |data| == 4
    ensures var files := Trio(SealedFile(mix, [[7]]), SealedFile(mix, [[9]]), Unsealed(2, data));
      var after := Dropped(files, [BOTH, LEFT, RIGHT], BOTH, files.Keys);
      && Complete(files, LEFT) && Complete(files, RIGHT) && Complete(files, BOTH) && !Sound(mix, files)
      && Covered(mix, files, 0) && Covered(mix, files, 1) && !Covered(mix, after, 0) && !Covered(mix, after, 1)
  {
    var v := if Checksum(mix, Header(Blank(2)), []) == 0 then 1 else 0;
    data := U32(v);
    U32RoundTrip(v);
    UnsealedLooksSealed(2, data, 0, 2);
    UnsealedAccepted(mix, 2, data, 0, 2);
    SealedAccepted(mix, [[7]], 0, 1);
    SealedAccepted(mix, [[9]], 1, 2);
    HalvesLost(mix, SealedFile(mix, [[7]]), SealedFile(mix, [[9]]), Unsealed(2, data));
  }

  lemma TrioSpanned(mix: Mixer, left: Data, right: Data, both: Data)
    requires Accepted(mix, left, 0, 1) && Accepted(mix, right, 1, 2)
    requires ReadLayout(both, 0, 2).Some? && !Accepted(mix, both, 0, 2)
    ensures var files := Trio(left, right, both); NoTwins(files) && !SpanningFine(mix, files)
  {
    var files := Trio(left, right, both);
    assert Genuine(mix, files, LEFT) && Inside(LEFT, BOTH) && LEFT != BOTH;
    assert Complete(files, LEFT) && Complete(files, BOTH);
    assert Spanning(files, BOTH);
    assert !Genuine(mix, files, BOTH);
  }

  /** The pass itself loses a chunk of that directory. */
  method FourBytesMerged(mix: Mixer, readable: Name -> nat, ghost xorb: nat -> Data)
    returns (files: Files, after: Files, ghost data: Data)
    ensures |data| == 4 && files == Trio(SealedFile(mix, [[7]]), SealedFile(mix, [[9]]), Unsealed(2, data))
    ensures !KeepsCover(mix, files, after)
  {
    var v := if Checksum(mix, Header(Blank(2)), []) == 0 then 1 else 0;
    data := U32(v);
    U32RoundTrip(v);
    UnsealedLooksSealed(2, data, 0, 2);
    UnsealedAccepted(mix, 2, data, 0, 2);
    SealedAccepted(mix, [[7]], 0, 1);
    SealedAccepted(mix, [[9]], 1, 2);
    TrioSpanned(mix, SealedFile(mix, [[7]]), SealedFile(mix, [[9]]), Unsealed(2, data));
    files := Trio(SealedFile(mix, [[7]]), SealedFile(mix, [[9]]), Unsealed(2, U32(v)));
    var retry, clean, known;
    ghost var reused;
    after, retry, clean, known, reused := MergeHashDir(mix, files, files.Keys, readable, {}, xorb);
  }
}
