/** Storing a file: deduplicate its chunks, pack the new ones into xorbs, describe it in a shard, commit. */
module Ingest {
  import opened Common
  import opened HashText
  import opened Wire
  import opened ShardFormat
  import opened Store
  import opened Backend

  datatype ChunkInfo = ChunkInfo(hash: Digest, size: Word, isNew: bool, xorb: Digest, index: Word)

  /** A file as chunk numbers; a zero SHA-256 means it is not known. */
  datatype FileInfo = FileInfo(hash: Digest, sha: Digest, indices: seq<nat>)

  datatype Location = Location(xorb: Digest, index: Word)

  // ---------------------------------------------------------------- grouping chunks into xorbs

  /** The numbers from, from+1, ..., to-1. */
  function Span(from: nat, to: nat): (r: seq<nat>)
    requires from <= to
    ensures |r| == to - from
    ensures forall i :: 0 <= i < |r| ==> r[i] == from + i
  {
    seq(to - from, i => from + i)
  }

  /** Chunks [lo, hi) fit one xorb and, unless they are the last, could not take the next chunk as well. */
  ghost predicate Packs(sizes: seq<nat>, lo: nat, hi: nat, target: nat) {
    && lo < hi <= |sizes| && hi - lo <= MAX_CHUNKS
    && (hi - lo == 1 || Sum(sizes[lo..hi]) <= target)
    && (hi < |sizes| ==> hi - lo == MAX_CHUNKS || Sum(sizes[lo..hi]) + sizes[hi] > target)
  }

  /** Consecutive numbers that fill a xorb. */
  ghost predicate IsGroup(sizes: seq<nat>, group: seq<nat>, target: nat) {
    group != [] && group == Span(group[0], group[0] + |group|) && Packs(sizes, group[0], group[0] + |group|, target)
  }

  /** The groups follow each other from the first number to the last. */
  ghost predicate InOrder(groups: seq<seq<nat>>, n: nat) {
    && (forall g :: 0 <= g < |groups| ==> groups[g] != [])
    && (if groups == [] then n == 0 else groups[0][0] == 0 && groups[|groups| - 1][0] + |groups[|groups| - 1]| == n)
    && (forall g, h {:trigger groups[g], groups[h]} :: 0 <= g < |groups| && h == g + 1 < |groups| ==>
      groups[h][0] == groups[g][0] + |groups[g]|)
  }

  /** Number i does not fit the group that starts at lo. */
  predicate Full(sizes: seq<nat>, lo: nat, i: nat, target: nat)
    requires lo <= i < |sizes|
  {
    Sum(sizes[lo..i]) + sizes[i] > target || i - lo >= MAX_CHUNKS
  }

  predicate Rises(cuts: seq<nat>, g: nat)
    requires g + 1 < |cuts|
  {
    cuts[g] < cuts[g + 1]
  }

  /** Each cut lies behind the one before, from zero on. */
  ghost predicate Rising(cuts: seq<nat>) {
    && |cuts| > 0 && cuts[0] == 0 && (forall g {:trigger cuts[g]} :: 0 <= g < |cuts| ==> cuts[g] <= cuts[|cuts| - 1])
    && forall g {:trigger Rises(cuts, g)} :: 0 <= g < |cuts| - 1 ==> Rises(cuts, g)
  }

  lemma RisingSnoc(cuts: seq<nat>, i: nat)
    requires Rising(cuts) && cuts[|cuts| - 1] < i
    ensures Rising(cuts + [i])
  {
    forall g | 0 <= g < |cuts| ensures Rises(cuts + [i], g) {
      if g < |cuts| - 1 { assert Rises(cuts, g); }
    }
  }

  /** The numbers at which groups of the first i sizes end so far, zero first. */
  function OpenCuts(sizes: seq<nat>, target: nat, i: nat): (r: seq<nat>)
    requires i <= |sizes|
    ensures Rising(r) && r[|r| - 1] <= i && (r[|r| - 1] == i ==> i == 0)
  {
    if i == 0 then [0] else
    var cuts := OpenCuts(sizes, target, i - 1);
    var lo := cuts[|cuts| - 1];
    if lo < i - 1 && Full(sizes, lo, i - 1, target) then RisingSnoc(cuts, i - 1); cuts + [i - 1] else cuts
  }

  /** Cuts from zero up to n. */
  ghost predicate Climbs(cuts: seq<nat>, n: nat) {
    Rising(cuts) && cuts[|cuts| - 1] == n
  }

  /** Group g is made of the numbers from cut g up to cut g+1. */
  function Cuts(sizes: seq<nat>, target: nat): (r: seq<nat>)
    ensures Climbs(r, |sizes|)
  {
    if sizes == [] then [0] else
    RisingSnoc(OpenCuts(sizes, target, |sizes|), |sizes|);
    OpenCuts(sizes, target, |sizes|) + [|sizes|]
  }

  /** The chunks after the last cut fit a xorb as well. */
  ghost predicate Fits(sizes: seq<nat>, lo: nat, i: nat, target: nat)
    requires lo <= i <= |sizes|
  {
    i - lo <= MAX_CHUNKS && (i - lo <= 1 || Sum(sizes[lo..i]) <= target)
  }

  ghost predicate PacksAt(sizes: seq<nat>, cuts: seq<nat>, g: nat, target: nat)
    requires g + 1 < |cuts|
  {
    Packs(sizes, cuts[g], cuts[g + 1], target)
  }

  /** Every group between two of the cuts fills a xorb, and the one after the last fits one. */
  ghost predicate WellCut(sizes: seq<nat>, cuts: seq<nat>, i: nat, target: nat) {
    && cuts != [] && cuts[|cuts| - 1] <= i <= |sizes| && Fits(sizes, cuts[|cuts| - 1], i, target)
    && forall g {:trigger PacksAt(sizes, cuts, g, target)} :: 0 <= g < |cuts| - 1 ==> PacksAt(sizes, cuts, g, target)
  }

  lemma {:induction false} OpenCutsPack(sizes: seq<nat>, target: nat, i: nat)
    requires i <= |sizes|
    ensures WellCut(sizes, OpenCuts(sizes, target, i), i, target)
  {
    if i > 0 {
      OpenCutsPack(sizes, target, i - 1);
      OneMoreCut(sizes, OpenCuts(sizes, target, i - 1), i - 1, target, OpenCuts(sizes, target, i));
    }
  }

  lemma OneMoreCut(sizes: seq<nat>, cuts: seq<nat>, i: nat, target: nat, next: seq<nat>)
    requires i < |sizes| && WellCut(sizes, cuts, i, target)
    requires next == if cuts[|cuts| - 1] < i && Full(sizes, cuts[|cuts| - 1], i, target) then cuts + [i] else cuts
    ensures WellCut(sizes, next, i + 1, target)
  {
    if cuts[|cuts| - 1] < i && Full(sizes, cuts[|cuts| - 1], i, target) {
      CutWell(sizes, cuts, i, target);
    } else {
      StillFits(sizes, cuts, i, target);
    }
  }

  lemma StillFits(sizes: seq<nat>, cuts: seq<nat>, i: nat, target: nat)
    requires i < |sizes| && WellCut(sizes, cuts, i, target)
    requires cuts[|cuts| - 1] == i || !Full(sizes, cuts[|cuts| - 1], i, target)
    ensures WellCut(sizes, cuts, i + 1, target)
  {
    SumSnoc(sizes, cuts[|cuts| - 1], i);
  }

  lemma CutWell(sizes: seq<nat>, cuts: seq<nat>, i: nat, target: nat)
    requires i < |sizes| && WellCut(sizes, cuts, i, target) && cuts[|cuts| - 1] < i
    requires Full(sizes, cuts[|cuts| - 1], i, target)
    ensures WellCut(sizes, cuts + [i], i + 1, target)
  {
    forall g | 0 <= g < |cuts| ensures PacksAt(sizes, cuts + [i], g, target) {
      if g < |cuts| - 1 { assert PacksAt(sizes, cuts, g, target); }
    }
  }

  /** Each group is as long as the limits allow. */
  lemma CutPacks(sizes: seq<nat>, target: nat, g: nat)
    requires g + 1 < |Cuts(sizes, target)|
    ensures Packs(sizes, Cuts(sizes, target)[g], Cuts(sizes, target)[g + 1], target)
  {
    OpenCutsPack(sizes, target, |sizes|);
    var cuts := OpenCuts(sizes, target, |sizes|);
    if g + 1 < |cuts| { assert PacksAt(sizes, cuts, g, target); }
  }

  /** Group g is made of the numbers from cut g up to cut g+1. */
  ghost predicate CutInto(groups: seq<seq<nat>>, cuts: seq<nat>) {
    && |cuts| == |groups| + 1
    && forall g {:trigger groups[g]} :: 0 <= g < |groups| ==>
      cuts[g] <= cuts[g + 1] && groups[g] == Span(cuts[g], cuts[g + 1])
  }

  lemma CutSnoc(groups: seq<seq<nat>>, cuts: seq<nat>, i: nat)
    requires CutInto(groups, cuts) && cuts[|groups|] <= i
    ensures CutInto(groups + [Span(cuts[|groups|], i)], cuts + [i])
  {
    var more, longer := groups + [Span(cuts[|groups|], i)], cuts + [i];
    forall g | 0 <= g < |more| ensures longer[g] <= longer[g + 1] && more[g] == Span(longer[g], longer[g + 1]) {
      if g < |groups| { assert more[g] == groups[g] && longer[g] == cuts[g] && longer[g + 1] == cuts[g + 1]; }
    }
  }

  lemma CutsGroup(sizes: seq<nat>, groups: seq<seq<nat>>, target: nat)
    requires CutInto(groups, Cuts(sizes, target))
    ensures InOrder(groups, |sizes|) && forall g :: 0 <= g < |groups| ==> IsGroup(sizes, groups[g], target)
  {
    forall g | 0 <= g < |groups| ensures IsGroup(sizes, groups[g], target) {
      CutPacks(sizes, target, g);
      PackedIsGroup(sizes, groups, Cuts(sizes, target), target, g);
    }
    CutInOrder(groups, Cuts(sizes, target), |sizes|);
  }

  lemma PackedIsGroup(sizes: seq<nat>, groups: seq<seq<nat>>, cuts: seq<nat>, target: nat, g: nat)
    requires CutInto(groups, cuts) && g < |groups| && Packs(sizes, cuts[g], cuts[g + 1], target)
    ensures IsGroup(sizes, groups[g], target)
  {
    assert groups[g] == Span(cuts[g], cuts[g + 1]);
  }

  lemma CutInOrder(groups: seq<seq<nat>>, cuts: seq<nat>, n: nat)
    requires CutInto(groups, cuts) && Climbs(cuts, n)
    ensures InOrder(groups, n)
  {
    forall g | 0 <= g < |groups| ensures cuts[g] < cuts[g + 1] && groups[g][0] == cuts[g] &&
      cuts[g] + |groups[g]| == cuts[g + 1] {
      assert Rises(cuts, g);
    }
  }

  /** Where the grouping is before number i. */
  ghost predicate Grouping(sizes: seq<nat>, groups: seq<seq<nat>>, current: seq<nat>, currentSize: nat, target: nat,
                           i: nat) {
    && i <= |sizes|
    && var cuts := OpenCuts(sizes, target, i); var lo := cuts[|cuts| - 1];
    CutInto(groups, cuts) && current == Span(lo, i) && currentSize == Sum(sizes[lo..i])
  }

  lemma GroupGoesOn(sizes: seq<nat>, groups: seq<seq<nat>>, current: seq<nat>, currentSize: nat, target: nat, i: nat)
    requires i < |sizes| && Grouping(sizes, groups, current, currentSize, target, i)
    requires |current| == 0 || (currentSize + sizes[i] <= target && |current| < MAX_CHUNKS)
    ensures Grouping(sizes, groups, current + [i], currentSize + sizes[i], target, i + 1)
  {
    var cuts := OpenCuts(sizes, target, i);
    SumSnoc(sizes, cuts[|cuts| - 1], i);
    assert OpenCuts(sizes, target, i + 1) == cuts;
  }

  lemma GroupEnds(sizes: seq<nat>, groups: seq<seq<nat>>, current: seq<nat>, currentSize: nat, target: nat, i: nat)
    requires i < |sizes| && Grouping(sizes, groups, current, currentSize, target, i) && |current| > 0
    requires currentSize + sizes[i] > target || |current| >= MAX_CHUNKS
    ensures Grouping(sizes, groups + [current], [] + [i], 0 + sizes[i], target, i + 1)
  {
    var cuts := OpenCuts(sizes, target, i);
    SumSnoc(sizes, i, i);
    CutSnoc(groups, cuts, i);
    assert OpenCuts(sizes, target, i + 1) == cuts + [i];
  }

  lemma GroupNext(sizes: seq<nat>, groups: seq<seq<nat>>, current: seq<nat>, currentSize: nat, target: nat, i: nat)
    requires i < |sizes| && Grouping(sizes, groups, current, currentSize, target, i)
    ensures if |current| > 0 && (currentSize + sizes[i] > target || |current| >= MAX_CHUNKS)
      then Grouping(sizes, groups + [current], [] + [i], 0 + sizes[i], target, i + 1)
      else Grouping(sizes, groups, current + [i], currentSize + sizes[i], target, i + 1)
  {
    if |current| > 0 && (currentSize + sizes[i] > target || |current| >= MAX_CHUNKS) {
      GroupEnds(sizes, groups, current, currentSize, target, i);
    } else {
      GroupGoesOn(sizes, groups, current, currentSize, target, i);
    }
  }

  lemma LastGroup(sizes: seq<nat>, groups: seq<seq<nat>>, current: seq<nat>, currentSize: nat, target: nat)
    requires Grouping(sizes, groups, current, currentSize, target, |sizes|)
    ensures CutInto(if |current| > 0 then groups + [current] else groups, Cuts(sizes, target))
  {
    if |current| > 0 { CutSnoc(groups, OpenCuts(sizes, target, |sizes|), |sizes|); }
  }

  lemma NothingGrouped(sizes: seq<nat>, target: nat)
    ensures Grouping(sizes, [], [], 0, target, 0)
  {
  }

  /** Takes number i into the current group, or starts the next one with it. */
  method GroupOne(sizes: seq<nat>, target: nat, i: nat, before: seq<seq<nat>>, open: seq<nat>, openSize: nat)
    returns (groups: seq<seq<nat>>, current: seq<nat>, currentSize: nat)
    requires i < |sizes| && Grouping(sizes, before, open, openSize, target, i)
    ensures Grouping(sizes, groups, current, currentSize, target, i + 1)
  {
    GroupNext(sizes, before, open, openSize, target, i);
    groups, current, currentSize := before, open, openSize;
    if |current| > 0 && (currentSize + sizes[i] > target || |current| >= MAX_CHUNKS) {
      groups := groups + [current];
      current, currentSize := [], 0;
    }
    current := current + [i];
    currentSize := currentSize + sizes[i];
  }

  /** Groups chunk numbers in order, as the cuts say. */
  method GroupByCuts(sizes: seq<nat>, target: nat) returns (groups: seq<seq<nat>>)
    ensures CutInto(groups, Cuts(sizes, target))
  {
    groups := [];
    var current: seq<nat> := [];
    var currentSize: nat := 0;
    NothingGrouped(sizes, target);
    for i := 0 to |sizes|
      invariant Grouping(sizes, groups, current, currentSize, target, i)
    {
      groups, current, currentSize := GroupOne(sizes, target, i, groups, current, currentSize);
    }
    LastGroup(sizes, groups, current, currentSize, target);
    if |current| > 0 { groups := groups + [current]; }
  }

  /** The groups cover all numbers in order, each as long as the limits allow. */
  method GroupChunkIndicesBySize(sizes: seq<nat>, target: nat) returns (groups: seq<seq<nat>>)
    ensures InOrder(groups, |sizes|) && forall g :: 0 <= g < |groups| ==> IsGroup(sizes, groups[g], target)
    ensures CutInto(groups, Cuts(sizes, target))
  {
    groups := GroupByCuts(sizes, target);
    CutsGroup(sizes, groups, target);
  }

  lemma SumSnoc(s: seq<nat>, lo: nat, i: nat)
    requires lo <= i < |s|
    ensures Sum(s[lo..i + 1]) == Sum(s[lo..i]) + s[i]
  {
    assert s[lo..i + 1] == s[lo..i] + [s[i]] && [s[i]][1..] == [];
    SumAppend(s[lo..i], [s[i]]);
  }

  // ---------------------------------------------------------------- runs of chunks into terms

  /** 32-bit addition. */
  function Add32(a: Word, b: Word): Word { if a + b < TWO32 then a + b else a + b - TWO32 }

  function NewTerm(c: ChunkInfo): FileEntry { FileEntry(c.xorb, 0, c.size, c.index, Add32(c.index, 1)) }

  function Longer(t: FileEntry, c: ChunkInfo): FileEntry {
    FileEntry(t.xorb, 0, Add32(t.bytes, c.size), t.start, Add32(t.end, 1))
  }

  predicate Continues(t: FileEntry, c: ChunkInfo) { t.xorb == c.xorb && t.end == c.index }

  /** Appends a chunk to a term list: to the last term if it continues its run, else as a new term. */
  function AddChunk(ts: seq<FileEntry>, c: ChunkInfo): seq<FileEntry> {
    var n := |ts| - 1;
    if n >= 0 && Continues(ts[n], c) then ts[..n] + [Longer(ts[n], c)] else ts + [NewTerm(c)]
  }

  function Terms(cs: seq<ChunkInfo>): seq<FileEntry> {
    if cs == [] then [] else AddChunk(Terms(cs[..|cs| - 1]), cs[|cs| - 1])
  }

  /** The chunk hashes of each term. */
  function TermHashes(cs: seq<ChunkInfo>): (r: seq<seq<Digest>>)
    ensures |r| == |Terms(cs)|
  {
    if cs == [] then [] else
    var n, c := |cs| - 1, cs[|cs| - 1];
    var ts, r := Terms(cs[..n]), TermHashes(cs[..n]);
    if ts != [] && Continues(ts[|ts| - 1], c) then AppendLast(r, c.hash) else r + [[c.hash]]
  }

  function Hashes(cs: seq<ChunkInfo>): (r: seq<Digest>)
    ensures |r| == |cs| && forall i :: 0 <= i < |cs| ==> r[i] == cs[i].hash
  {
    seq(|cs|, i requires 0 <= i < |cs| => cs[i].hash)
  }

  /** The terms share out the chunk hashes in order. */
  lemma {:induction false} TermHashesPartition(cs: seq<ChunkInfo>)
    ensures Flatten(TermHashes(cs)) == Hashes(cs)
  {
    if cs != [] {
      var n, c := |cs| - 1, cs[|cs| - 1];
      TermHashesPartition(cs[..n]);
      assert Hashes(cs) == Hashes(cs[..n]) + [c.hash];
      var r := TermHashes(cs[..n]);
      FlattenSnoc(r, [c.hash]);
      if r != [] { AppendLastFlat(r, c.hash); }
    }
  }

  function Verifications(pr: Protocol, hashes: seq<seq<Digest>>): (r: seq<Digest>)
    ensures |r| == |hashes| && forall i :: 0 <= i < |r| ==> r[i] == pr.verification(hashes[i])
  {
    if hashes == [] then [] else [pr.verification(hashes[0])] + Verifications(pr, hashes[1..])
  }

  lemma TermsStep(cs: seq<ChunkInfo>, i: nat)
    requires i < |cs|
    ensures Terms(cs[..i + 1]) == AddChunk(Terms(cs[..i]), cs[i])
  {
    assert cs[..i + 1][..i] == cs[..i];
  }

  ghost function Pick(chunks: seq<ChunkInfo>, indices: seq<nat>): (r: seq<ChunkInfo>)
    requires forall i :: 0 <= i < |indices| ==> indices[i] < |chunks|
    ensures |r| == |indices| && forall i :: 0 <= i < |r| ==> r[i] == chunks[indices[i]]
  {
    seq(|indices|, i requires 0 <= i < |indices| => chunks[indices[i]])
  }

  // ---------------------------------------------------------------- the terms, spelled out

  function InfoSizes(cs: seq<ChunkInfo>): (r: seq<nat>)
    ensures |r| == |cs| && forall i :: 0 <= i < |cs| ==> r[i] == cs[i].size
  {
    seq(|cs|, i requires 0 <= i < |cs| => cs[i].size)
  }

  /** Sums and indices are 32 bits wide. */
  predicate IsMod32(r: nat, v: nat) { r == v % 0x1_0000_0000 }

  /** Consecutive chunks of one xorb. */
  ghost predicate IsRun(run: seq<ChunkInfo>) {
    run != [] && forall k :: 0 <= k < |run| ==> run[k].xorb == run[0].xorb && IsMod32(run[k].index, run[0].index + k)
  }

  /** The term of a run names its xorb and its chunk range and carries the sum of its sizes. */
  ghost predicate IsTerm(t: FileEntry, run: seq<ChunkInfo>) {
    && IsRun(run) && t.xorb == run[0].xorb && t.flags == 0
    && t.start == run[0].index && IsMod32(t.end, run[0].index + |run|) && IsMod32(t.bytes, Sum(InfoSizes(run)))
  }

  ghost predicate TermAt(terms: seq<FileEntry>, hashes: seq<seq<Digest>>, runs: seq<seq<ChunkInfo>>, t: nat)
    requires t < |terms| == |hashes| == |runs|
  {
    && IsTerm(terms[t], runs[t]) && hashes[t] == Hashes(runs[t])
    && (t > 0 ==> runs[t][0].xorb != terms[t - 1].xorb || runs[t][0].index != terms[t - 1].end)
  }

  /** The chunks fall into runs that are as long as they can be, one term each. */
  ghost predicate AreTerms(cs: seq<ChunkInfo>, terms: seq<FileEntry>, hashes: seq<seq<Digest>>,
                           runs: seq<seq<ChunkInfo>>) {
    && Flatten(runs) == cs && |terms| == |hashes| == |runs|
    && forall t :: 0 <= t < |runs| ==> TermAt(terms, hashes, runs, t)
  }

  lemma Mod32Add(a: Word, v: nat, b: Word)
    requires IsMod32(a, v)
    ensures IsMod32(Add32(a, b), v + b)
  {
  }

  lemma RunStarts(c: ChunkInfo)
    ensures IsTerm(NewTerm(c), [c]) && Hashes([c]) == [c.hash]
  {
    assert InfoSizes([c]) == [c.size] && Sum([c.size]) == c.size + Sum([]);
    Mod32Add(c.index, c.index, 1);
  }

  lemma RunGrows(t: FileEntry, run: seq<ChunkInfo>, c: ChunkInfo)
    requires IsTerm(t, run) && Continues(t, c)
    ensures IsTerm(Longer(t, c), run + [c]) && Hashes(run + [c]) == Hashes(run) + [c.hash]
  {
    assert InfoSizes(run + [c]) == InfoSizes(run) + [c.size] && Sum([c.size]) == c.size + Sum([]);
    SumAppend(InfoSizes(run), [c.size]);
    Mod32Add(t.bytes, Sum(InfoSizes(run)), c.size);
    Mod32Add(t.end, run[0].index + |run|, 1);
  }

  /** One more chunk behind the terms of those before it. */
  lemma TermsGrow(cs: seq<ChunkInfo>, c: ChunkInfo, terms: seq<FileEntry>, hashes: seq<seq<Digest>>,
                  runs: seq<seq<ChunkInfo>>)
    returns (more: seq<seq<ChunkInfo>>)
    requires AreTerms(cs, terms, hashes, runs)
    ensures if terms != [] && Continues(terms[|terms| - 1], c)
      then AreTerms(cs + [c], AddChunk(terms, c), AppendLast(hashes, c.hash), more)
      else AreTerms(cs + [c], AddChunk(terms, c), hashes + [[c.hash]], more)
  {
    var n := |terms| - 1;
    if terms != [] && Continues(terms[n], c) {
      assert TermAt(terms, hashes, runs, n);
      RunGrows(terms[n], runs[n], c);
      more := AppendLast(runs, c);
      AppendLastFlat(runs, c);
      var ts, hs := AddChunk(terms, c), AppendLast(hashes, c.hash);
      forall t | 0 <= t < |more| ensures TermAt(ts, hs, more, t) { assert TermAt(terms, hashes, runs, t); }
    } else {
      RunStarts(c);
      more := runs + [[c]];
      FlattenSnoc(runs, [c]);
      var ts, hs := AddChunk(terms, c), hashes + [[c.hash]];
      forall t | 0 <= t < |more| ensures TermAt(ts, hs, more, t) {
        if t < |runs| { assert TermAt(terms, hashes, runs, t); }
      }
    }
  }

  lemma {:induction false} TermsAre(cs: seq<ChunkInfo>) returns (runs: seq<seq<ChunkInfo>>)
    ensures AreTerms(cs, Terms(cs), TermHashes(cs), runs)
  {
    if cs == [] {
      runs := [];
    } else {
      var n := |cs| - 1;
      var init := TermsAre(cs[..n]);
      runs := TermsGrow(cs[..n], cs[n], Terms(cs[..n]), TermHashes(cs[..n]), init);
      assert cs == cs[..n] + [cs[n]];
    }
  }

  /** The open term with the terms before it, and the chunk hashes of each. */
  ghost predicate Gathers(cs: seq<ChunkInfo>, terms: seq<FileEntry>, cur: FileEntry, hashes: seq<seq<Digest>>,
                          open: seq<Digest>) {
    Terms(cs) == terms + [cur] && TermHashes(cs) == hashes + [open]
  }

  /** One more chunk either lengthens the open term or closes it. */
  lemma GatherOne(cs: seq<ChunkInfo>, i: nat, terms: seq<FileEntry>, cur: FileEntry, hashes: seq<seq<Digest>>,
                  open: seq<Digest>)
    requires i < |cs| && Gathers(cs[..i], terms, cur, hashes, open)
    ensures var c := cs[i];
      if Continues(cur, c) then Gathers(cs[..i + 1], terms, Longer(cur, c), hashes, open + [c.hash])
      else Gathers(cs[..i + 1], terms + [cur], NewTerm(c), hashes + [open], [c.hash])
  {
    TermsStep(cs, i);
    assert cs[..i + 1][..i] == cs[..i];
    assert (terms + [cur])[..|terms|] == terms;
    assert (hashes + [open])[..|hashes|] == hashes;
  }

  method BuildTerms(indices: seq<nat>, chunks: seq<ChunkInfo>) returns (terms: seq<FileEntry>, hashes: seq<seq<Digest>>)
    requires forall i :: 0 <= i < |indices| ==> indices[i] < |chunks|
    ensures terms == Terms(Pick(chunks, indices)) && hashes == TermHashes(Pick(chunks, indices))
    ensures exists runs :: AreTerms(Pick(chunks, indices), terms, hashes, runs)
  {
    ghost var cs := Pick(chunks, indices);
    ghost var runs := TermsAre(cs);
    terms, hashes := [], [];
    if |indices| == 0 { return; }
    var cur, open := NewTerm(chunks[indices[0]]), [chunks[indices[0]].hash];
    FirstTerm(cs);
    for i := 1 to |indices|
      invariant Gathers(cs[..i], terms, cur, hashes, open)
    {
      GatherOne(cs, i, terms, cur, hashes, open);
      var c := chunks[indices[i]];
      if c.xorb != cur.xorb || c.index != cur.end {
        terms, hashes := terms + [cur], hashes + [open];
        cur, open := NewTerm(c), [c.hash];
      } else {
        cur, open := Longer(cur, c), open + [c.hash];
      }
    }
    terms, hashes := terms + [cur], hashes + [open];
    assert cs[..|indices|] == cs;
  }

  lemma FirstTerm(cs: seq<ChunkInfo>)
    requires cs != []
    ensures Gathers(cs[..1], [], NewTerm(cs[0]), [], [cs[0].hash])
  {
    TermsStep(cs, 0);
    assert cs[..1][..0] == [];
  }

  /** The chunk information points at the chunk's bytes. */
  ghost predicate Placed(pr: Protocol, c: ChunkInfo, body: Bytes, xs: map<Digest, Stored<Bytes>>) {
    && c.size == |body| && c.xorb in xs
    && var x := pr.decode(xs[c.xorb].value);
      x.Some? && WithinLimits(x.value) && c.index < |x.value| && x.value[c.index] == body
  }

  lemma {:induction false} SumSlice(s: seq<nat>, i: nat, j: nat)
    requires i <= j <= |s|
    ensures Sum(s[i..j]) <= Sum(s)
  {
    assert s == s[..i] + s[i..j] + s[j..];
    SumAppend(s[..i] + s[i..j], s[j..]);
    SumAppend(s[..i], s[i..j]);
  }

  lemma TotalSizeSlice(x: Xorb, i: nat, j: nat)
    requires i <= j <= |x|
    ensures TotalSize(x[i..j]) <= TotalSize(x)
  {
    assert Lengths(x[i..j]) == Lengths(x)[i..j];
    SumSlice(Lengths(x), i, j);
  }

  lemma TotalSizeOne(c: Bytes)
    ensures TotalSize([c]) == |c|
  {
    assert Lengths([c])[1..] == [];
    assert Sum(Lengths([c])) == |c| + Sum([]);
  }

  lemma TermExtends(pr: Protocol, t: FileEntry, c: ChunkInfo, body: Bytes, xs: map<Digest, Stored<Bytes>>)
    requires TermChunks(SliceOf(pr), t, xs).Some? && Placed(pr, c, body, xs) && Continues(t, c)
    ensures TermChunks(SliceOf(pr), Longer(t, c), xs) == Some(TermChunks(SliceOf(pr), t, xs).value + [body])
  {
    OneMoreChunk(pr.decode(xs[c.xorb].value).value, t.start, t.end, body);
  }

  lemma OneMoreChunk(x: Xorb, start: nat, end: nat, body: Bytes)
    requires start <= end < |x| && x[end] == body
    ensures x[start..end + 1] == x[start..end] + [body]
    ensures TotalSize(x[start..end + 1]) == TotalSize(x[start..end]) + |body| <= TotalSize(x)
  {
    assert x[start..end + 1] == x[start..end] + [body];
    TotalSizeAppend(x[start..end], [body]);
    TotalSizeOne(body);
    TotalSizeSlice(x, start, end + 1);
  }

  lemma TermStarts(pr: Protocol, c: ChunkInfo, body: Bytes, xs: map<Digest, Stored<Bytes>>)
    requires Placed(pr, c, body, xs)
    ensures TermChunks(SliceOf(pr), NewTerm(c), xs) == Some([body])
  {
    var x := pr.decode(xs[c.xorb].value).value;
    assert x[c.index..c.index + 1] == [body];
    TotalSizeOne(body);
  }

  lemma AddChunkDenotes(pr: Protocol, ts: seq<FileEntry>, c: ChunkInfo, body: Bytes, xs: map<Digest, Stored<Bytes>>,
                        sofar: Xorb)
    requires Denote(pr, ts, xs) == Some(sofar) && Placed(pr, c, body, xs)
    ensures Denote(pr, AddChunk(ts, c), xs) == Some(sofar + [body])
  {
    var m := |ts| - 1;
    var read := SliceOf(pr);
    if m >= 0 && Continues(ts[m], c) {
      var init, t := ts[..m], ts[m];
      assert ts == init + [t];
      RebuildAppend(read, init, [t], xs);
      RebuildOne(read, t, xs);
      TermExtends(pr, t, c, body, xs);
      RebuildAppend(read, init, [Longer(t, c)], xs);
      RebuildOne(read, Longer(t, c), xs);
      JoinAssociates(Rebuild(read, init, xs), TermChunks(read, t, xs), Some([body]));
    } else {
      TermStarts(pr, c, body, xs);
      RebuildAppend(read, ts, [NewTerm(c)], xs);
      RebuildOne(read, NewTerm(c), xs);
    }
  }

  ghost predicate AllPlaced(pr: Protocol, cs: seq<ChunkInfo>, bodies: Xorb, xs: map<Digest, Stored<Bytes>>) {
    && |cs| == |bodies|
    && forall i {:trigger Placed(pr, cs[i], bodies[i], xs)} :: 0 <= i < |cs| ==> Placed(pr, cs[i], bodies[i], xs)
  }

  lemma {:induction false} TermsUpTo(pr: Protocol, cs: seq<ChunkInfo>, bodies: Xorb, xs: map<Digest, Stored<Bytes>>,
                                     n: nat)
    requires AllPlaced(pr, cs, bodies, xs) && n <= |cs|
    ensures Denote(pr, Terms(cs[..n]), xs) == Some(bodies[..n])
  {
    if n > 0 {
      TermsUpTo(pr, cs, bodies, xs, n - 1);
      assert Placed(pr, cs[n - 1], bodies[n - 1], xs);
      OneMoreTerm(pr, cs, bodies, xs, n - 1);
    }
  }

  lemma OneMoreTerm(pr: Protocol, cs: seq<ChunkInfo>, bodies: Xorb, xs: map<Digest, Stored<Bytes>>, n: nat)
    requires n < |cs| == |bodies| && Placed(pr, cs[n], bodies[n], xs) &&
      Denote(pr, Terms(cs[..n]), xs) == Some(bodies[..n])
    ensures Denote(pr, Terms(cs[..n + 1]), xs) == Some(bodies[..n + 1])
  {
    TermsStep(cs, n);
    PrefixSnoc(bodies, n);
    AddedDenotes(pr, Terms(cs[..n]), cs[n], bodies[n], xs, bodies[..n], Terms(cs[..n + 1]), bodies[..n + 1]);
  }

  lemma PrefixSnoc<T>(s: seq<T>, n: nat)
    requires n < |s|
    ensures s[..n + 1] == s[..n] + [s[n]]
  {
  }

  lemma AddedDenotes(pr: Protocol, ts: seq<FileEntry>, c: ChunkInfo, body: Bytes, xs: map<Digest, Stored<Bytes>>,
                     sofar: Xorb,
                     longer: seq<FileEntry>, all: Xorb)
    requires Denote(pr, ts, xs) == Some(sofar) && Placed(pr, c, body, xs) && longer == AddChunk(ts, c) &&
      all == sofar + [body]
    ensures Denote(pr, longer, xs) == Some(all)
  {
    AddChunkDenotes(pr, ts, c, body, xs, sofar);
  }

  /** The terms denote the chunks, in order, however they were placed. */
  lemma TermsDenote(pr: Protocol, cs: seq<ChunkInfo>, bodies: Xorb, xs: map<Digest, Stored<Bytes>>)
    requires AllPlaced(pr, cs, bodies, xs)
    ensures Denote(pr, Terms(cs), xs) == Some(bodies)
  {
    TermsUpTo(pr, cs, bodies, xs, |cs|);
    assert cs[..|cs|] == cs && bodies[..|bodies|] == bodies;
  }

  // ---------------------------------------------------------------- CAS blocks

  /** New and not listed before. */
  ghost predicate Kept(cs: seq<ChunkInfo>, i: nat)
    requires i < |cs|
  {
    cs[i].isNew && forall j :: 0 <= j < i && cs[j].isNew ==> cs[j].hash != cs[i].hash
  }

  /** The unpacked size of the chunks listed so far. */
  function Filled(entries: seq<ChunkEntry>): Word {
    if entries == [] then 0 else var last := entries[|entries| - 1]; Add32(last.start, last.bytes)
  }

  /** Lists one more chunk, after those before it. */
  function Append(entries: seq<ChunkEntry>, c: ChunkInfo, first: set<Digest>): seq<ChunkEntry> {
    entries + [ChunkEntry(c.hash, Filled(entries), c.size, if c.hash in first || Sampled(c.hash) then ELIGIBLE else 0)]
  }

  /** The new chunks among the first n that sit in xorb x, in order. */
  ghost function Select(cs: seq<ChunkInfo>, first: set<Digest>, x: Digest, n: nat): seq<ChunkEntry>
    requires n <= |cs|
  {
    if n == 0 then []
    else
      var init := Select(cs, first, x, n - 1);
      if Kept(cs, n - 1) && cs[n - 1].xorb == x then Append(init, cs[n - 1], first) else init
  }

  /** String order. */
  predicate Less(a: string, b: string) { b != "" && (a == "" || a[0] < b[0] || (a[0] == b[0] && Less(a[1..], b[1..]))) }

  lemma {:induction false} LessTotal(a: string, b: string)
    ensures a == b || Less(a, b) || Less(b, a)
  {
    if a != "" && b != "" && a[0] == b[0] {
      LessTotal(a[1..], b[1..]);
      assert a[1..] == b[1..] ==> a == [a[0]] + a[1..] == [b[0]] + b[1..] == b;
    }
  }

  lemma {:induction false} LessTransitive(a: string, b: string, c: string)
    requires Less(a, b) && Less(b, c)
    ensures Less(a, c)
  {
    if a != "" && a[0] == b[0] == c[0] { LessTransitive(a[1..], b[1..], c[1..]); }
  }

  /** The order of the hashes' text. */
  predicate Earlier(x: Digest, y: Digest) { Less(Format(x), Format(y)) }

  ghost predicate Ordered(cas: seq<CasBlock>) {
    forall b, c :: 0 <= b < c < |cas| ==> Earlier(cas[b].hash, cas[c].hash)
  }

  ghost predicate CasListing(cs: seq<ChunkInfo>, first: set<Digest>, cas: seq<CasBlock>) {
    && (forall b :: 0 <= b < |cas| ==> Block(cas[b], Select(cs, first, cas[b].hash, |cs|)))
    && Ordered(cas)
    && (forall i {:trigger Kept(cs, i)} :: 0 <= i < |cs| && Kept(cs, i) ==>
      exists b :: 0 <= b < |cas| && cas[b].hash == cs[i].xorb)
  }

  predicate Block(cb: CasBlock, entries: seq<ChunkEntry>) {
    entries != [] && cb == CasBlock(cb.hash, 0, entries, Filled(entries), 0)
  }

  ghost predicate Sorted(hashes: seq<Digest>) { forall b, c :: 0 <= b < c < |hashes| ==> Earlier(hashes[b], hashes[c]) }

  lemma {:induction false} LessIrreflexive(a: string)
    ensures !Less(a, a)
  {
    if a != "" { LessIrreflexive(a[1..]); }
  }

  lemma EarlierOnce(x: Digest, y: Digest)
    requires Earlier(x, y)
    ensures x != y && !Earlier(y, x)
  {
    LessIrreflexive(Format(x));
    if Earlier(y, x) { LessTransitive(Format(x), Format(y), Format(x)); }
  }

  /** Sorted lists with the same members are the same. */
  lemma {:induction false} SortedOnce(a: seq<Digest>, b: seq<Digest>)
    requires Sorted(a) && Sorted(b) && forall x :: x in a <==> x in b
    ensures a == b
  {
    if a == [] || b == [] {
      FirstIsMember(a);
      FirstIsMember(b);
    } else {
      SameFirst(a, b);
      SameRest(a, b);
      SortedOnce(a[1..], b[1..]);
      assert a == [a[0]] + a[1..] && b == [b[0]] + b[1..];
    }
  }

  lemma FirstIsMember<T>(s: seq<T>)
    ensures s != [] ==> s[0] in s
  {
  }

  lemma SameFirst(a: seq<Digest>, b: seq<Digest>)
    requires a != [] && b != [] && Sorted(a) && Sorted(b) && forall x :: x in a <==> x in b
    ensures a[0] == b[0]
  {
    assert a[0] in b && b[0] in a;
    var i :| 0 <= i < |b| && b[i] == a[0];
    var j :| 0 <= j < |a| && a[j] == b[0];
    if i > 0 && j > 0 {
      assert Earlier(a[0], a[j]) && Earlier(b[0], b[i]);
      EarlierOnce(a[0], b[0]);
    }
  }

  lemma SameRest(a: seq<Digest>, b: seq<Digest>)
    requires a != [] && b != [] && Sorted(a) && Sorted(b) && a[0] == b[0] && forall x :: x in a <==> x in b
    ensures forall x :: x in a[1..] <==> x in b[1..]
  {
    forall x | x in a[1..] ensures x in b[1..] { InRest(a, b, x); }
    forall x | x in b[1..] ensures x in a[1..] { InRest(b, a, x); }
  }

  lemma InRest(a: seq<Digest>, b: seq<Digest>, x: Digest)
    requires a != [] && b != [] && Sorted(a) && a[0] == b[0] && x in a[1..] && x in b
    ensures x in b[1..]
  {
    var i :| 0 <= i < |a[1..]| && a[1..][i] == x;
    assert Earlier(a[0], a[i + 1]);
    EarlierOnce(a[0], x);
    var j :| 0 <= j < |b| && b[j] == x;
    assert b[1..][j - 1] == x;
  }

  ghost function BlockHashes(cas: seq<CasBlock>): (r: seq<Digest>)
    ensures |r| == |cas| && forall b :: 0 <= b < |cas| ==> r[b] == cas[b].hash
  {
    seq(|cas|, b requires 0 <= b < |cas| => cas[b].hash)
  }

  /** Some selected chunk is kept. */
  lemma {:induction false} SelectNonEmpty(cs: seq<ChunkInfo>, first: set<Digest>, x: Digest, n: nat) returns (i: nat)
    requires n <= |cs| && Select(cs, first, x, n) != []
    ensures i < n && Kept(cs, i) && cs[i].xorb == x
  {
    if Kept(cs, n - 1) && cs[n - 1].xorb == x { i := n - 1; } else { i := SelectNonEmpty(cs, first, x, n - 1); }
  }

  lemma ListedHash(cs: seq<ChunkInfo>, first: set<Digest>, p: seq<CasBlock>, q: seq<CasBlock>, x: Digest)
    requires CasListing(cs, first, p) && CasListing(cs, first, q) && x in BlockHashes(p)
    ensures x in BlockHashes(q)
  {
    var b :| 0 <= b < |p| && BlockHashes(p)[b] == x;
    assert Block(p[b], Select(cs, first, p[b].hash, |cs|));
    var i := SelectNonEmpty(cs, first, x, |cs|);
    assert Kept(cs, i);
    var c :| 0 <= c < |q| && q[c].hash == cs[i].xorb;
    assert BlockHashes(q)[c] == x;
  }

  /** The layout of a shard is determined by its chunks. */
  lemma OneListing(cs: seq<ChunkInfo>, first: set<Digest>, p: seq<CasBlock>, q: seq<CasBlock>)
    requires CasListing(cs, first, p) && CasListing(cs, first, q)
    ensures p == q
  {
    forall x ensures x in BlockHashes(p) <==> x in BlockHashes(q) {
      if x in BlockHashes(p) { ListedHash(cs, first, p, q, x); }
      if x in BlockHashes(q) { ListedHash(cs, first, q, p, x); }
    }
    SortedOnce(BlockHashes(p), BlockHashes(q));
    forall b | 0 <= b < |p| ensures p[b] == q[b] {
      assert BlockHashes(p)[b] == BlockHashes(q)[b];
      assert Block(p[b], Select(cs, first, p[b].hash, |cs|)) && Block(q[b], Select(cs, first, q[b].hash, |cs|));
    }
  }

  lemma SelectStep(cs: seq<ChunkInfo>, first: set<Digest>, i: nat)
    requires i < |cs|
    ensures !Kept(cs, i) ==> forall x :: Select(cs, first, x, i + 1) == Select(cs, first, x, i)
    ensures Kept(cs, i) ==>
      Select(cs, first, cs[i].xorb, i + 1) == Append(Select(cs, first, cs[i].xorb, i), cs[i], first)
    ensures Kept(cs, i) ==> forall x :: x != cs[i].xorb ==> Select(cs, first, x, i + 1) == Select(cs, first, x, i)
  {}

  // ---------------------------------------------------------------- the blocks, spelled out

  function EntrySizes(entries: seq<ChunkEntry>): (r: seq<nat>)
    ensures |r| == |entries| && forall i :: 0 <= i < |entries| ==> r[i] == entries[i].bytes
  {
    seq(|entries|, i requires 0 <= i < |entries| => entries[i].bytes)
  }

  /** Every chunk starts where those before it end. */
  ghost predicate LaidOut(entries: seq<ChunkEntry>) {
    forall j :: 0 <= j < |entries| ==> IsMod32(entries[j].start, Sum(EntrySizes(entries)[..j]))
  }

  lemma FilledIs(entries: seq<ChunkEntry>)
    requires LaidOut(entries)
    ensures IsMod32(Filled(entries), Sum(EntrySizes(entries)))
  {
    if entries != [] {
      var n, sizes := |entries| - 1, EntrySizes(entries);
      Mod32Add(entries[n].start, Sum(sizes[..n]), entries[n].bytes);
      SumSnoc(sizes, 0, n);
      assert sizes[0..n] == sizes[..n] && sizes[0..n + 1] == sizes;
    }
  }

  lemma AppendLaidOut(entries: seq<ChunkEntry>, c: ChunkInfo, first: set<Digest>)
    requires LaidOut(entries)
    ensures LaidOut(Append(entries, c, first))
  {
    FilledIs(entries);
    var longer := Append(entries, c, first);
    forall j | 0 <= j < |longer| ensures IsMod32(longer[j].start, Sum(EntrySizes(longer)[..j])) {
      assert EntrySizes(longer)[..j] == EntrySizes(entries)[..j];
      assert EntrySizes(entries)[..|entries|] == EntrySizes(entries);
    }
  }

  /** New, and no new chunk before it has the same hash. */
  ghost predicate Fresh(cs: seq<ChunkInfo>, i: nat) {
    i < |cs| && cs[i].isNew && forall j :: 0 <= j < i ==> !(cs[j].isNew && cs[j].hash == cs[i].hash)
  }

  /** An entry describes a chunk; it is eligible for deduplication when it starts a file or its hash is sampled. */
  ghost predicate IsEntry(e: ChunkEntry, c: ChunkInfo, first: set<Digest>) {
    && e.hash == c.hash && e.bytes == c.size
    && e.flags == if c.hash in first || LittleEndian(c.hash[24..32]) % 1024 == 0 then 0x8000_0000 else 0
  }

  /** The entries describe, in order, the fresh chunks among the first n that sit in x. */
  ghost predicate ListsFresh(cs: seq<ChunkInfo>, first: set<Digest>, x: Digest, n: nat, entries: seq<ChunkEntry>,
                             places: seq<nat>) {
    && |places| == |entries| && (forall i, j :: 0 <= i < j < |places| ==> places[i] < places[j])
    && (forall k :: 0 <= k < |places| ==> places[k] < n <= |cs| && IsEntry(entries[k], cs[places[k]], first))
    && (forall i :: i in places <==> 0 <= i < n && Fresh(cs, i) && cs[i].xorb == x)
  }

  lemma OneMoreListed(cs: seq<ChunkInfo>, first: set<Digest>, x: Digest, n: nat, entries: seq<ChunkEntry>,
                      places: seq<nat>)
    returns (more: seq<nat>)
    requires n < |cs| && ListsFresh(cs, first, x, n, entries, places)
    ensures if Fresh(cs, n) && cs[n].xorb == x then ListsFresh(cs, first, x, n + 1, Append(entries, cs[n], first), more)
      else ListsFresh(cs, first, x, n + 1, entries, more)
  {
    more := places;
    if Fresh(cs, n) && cs[n].xorb == x {
      more := places + [n];
      EntryAppended(entries, cs[n], first);
      PlacesGrow(places, n, more);
      var longer := Append(entries, cs[n], first);
      forall k | 0 <= k < |more| ensures more[k] < n + 1 <= |cs| && IsEntry(longer[k], cs[more[k]], first) {
        if k < |places| { assert IsEntry(entries[k], cs[places[k]], first); }
      }
    }
  }

  lemma EntryAppended(entries: seq<ChunkEntry>, c: ChunkInfo, first: set<Digest>)
    ensures IsEntry(Append(entries, c, first)[|entries|], c, first)
  {
    SampledByValue(c.hash);
  }

  lemma PlacesGrow(places: seq<nat>, n: nat, more: seq<nat>)
    requires more == places + [n] && forall i :: i in places ==> i < n
    requires forall i, j :: 0 <= i < j < |places| ==> places[i] < places[j]
    ensures forall i, j :: 0 <= i < j < |more| ==> more[i] < more[j]
    ensures forall i :: i in more <==> i in places || i == n
  {
    forall i, j | 0 <= i < j < |more| ensures more[i] < more[j] { assert places[i] in places; }
  }

  lemma {:induction false} SelectLists(cs: seq<ChunkInfo>, first: set<Digest>, x: Digest, n: nat)
    returns (places: seq<nat>)
    requires n <= |cs|
    ensures ListsFresh(cs, first, x, n, Select(cs, first, x, n), places) && LaidOut(Select(cs, first, x, n))
  {
    if n == 0 {
      places := [];
    } else {
      var init := SelectLists(cs, first, x, n - 1);
      SelectOnce(cs, first, x, n - 1, Select(cs, first, x, n - 1), Select(cs, first, x, n));
      places := OneMoreListed(cs, first, x, n - 1, Select(cs, first, x, n - 1), init);
      AppendLaidOut(Select(cs, first, x, n - 1), cs[n - 1], first);
    }
  }

  lemma SelectOnce(cs: seq<ChunkInfo>, first: set<Digest>, x: Digest, n: nat, entries: seq<ChunkEntry>,
                   more: seq<ChunkEntry>)
    requires n < |cs| && entries == Select(cs, first, x, n) && more == Select(cs, first, x, n + 1)
    ensures more == if Fresh(cs, n) && cs[n].xorb == x then Append(entries, cs[n], first) else entries
  {
    assert Kept(cs, n) <==> Fresh(cs, n);
  }

  /** A block lists the fresh chunks of its xorb, one behind the other, and carries their total size. */
  ghost predicate IsBlock(cs: seq<ChunkInfo>, first: set<Digest>, cb: CasBlock) {
    && cb.flags == 0 && cb.onDisk == 0 && cb.chunks != []
    && (exists places :: ListsFresh(cs, first, cb.hash, |cs|, cb.chunks, places))
    && LaidOut(cb.chunks) && IsMod32(cb.inCas, Sum(EntrySizes(cb.chunks)))
  }

  /** The first digit in which the hashes' text differs is the smaller one. */
  ghost predicate TextBefore(x: Digest, y: Digest) { exists k :: FirstSmaller(Format(x), Format(y), k) }

  predicate FirstSmaller(a: string, b: string, k: nat) { k < |a| && k < |b| && a[..k] == b[..k] && a[k] < b[k] }

  lemma {:induction false} LessIs(a: string, b: string) returns (k: nat)
    requires |a| == |b| && Less(a, b)
    ensures FirstSmaller(a, b, k)
  {
    if a[0] < b[0] {
      k := 0;
    } else {
      var i := LessIs(a[1..], b[1..]);
      k := i + 1;
      assert a[..k] == [a[0]] + a[1..][..i] && b[..k] == [b[0]] + b[1..][..i];
    }
  }

  /** Every xorb with fresh chunks has its block, in the order of the hashes' text. */
  ghost predicate AreBlocks(cs: seq<ChunkInfo>, first: set<Digest>, cas: seq<CasBlock>) {
    && (forall b :: 0 <= b < |cas| ==> IsBlock(cs, first, cas[b]))
    && (forall b, c :: 0 <= b < c < |cas| ==> TextBefore(cas[b].hash, cas[c].hash))
    && (forall i: nat :: Fresh(cs, i) ==> HasBlock(cas, cs[i].xorb))
  }

  ghost predicate HasBlock(cas: seq<CasBlock>, x: Digest) { exists b :: 0 <= b < |cas| && cas[b].hash == x }

  lemma BlockIs(cs: seq<ChunkInfo>, first: set<Digest>, cb: CasBlock)
    requires Block(cb, Select(cs, first, cb.hash, |cs|))
    ensures IsBlock(cs, first, cb)
  {
    var places := SelectLists(cs, first, cb.hash, |cs|);
    FilledIs(cb.chunks);
  }

  lemma BlocksInOrder(cas: seq<CasBlock>)
    requires Ordered(cas)
    ensures forall b, c :: 0 <= b < c < |cas| ==> TextBefore(cas[b].hash, cas[c].hash)
  {
    forall b, c | 0 <= b < c < |cas| ensures TextBefore(cas[b].hash, cas[c].hash) {
      var k := LessIs(Format(cas[b].hash), Format(cas[c].hash));
    }
  }

  lemma BlocksAre(cs: seq<ChunkInfo>, first: set<Digest>, cas: seq<CasBlock>)
    requires CasListing(cs, first, cas)
    ensures AreBlocks(cs, first, cas)
  {
    forall b | 0 <= b < |cas| ensures IsBlock(cs, first, cas[b]) { BlockIs(cs, first, cas[b]); }
    BlocksInOrder(cas);
    forall i: nat | Fresh(cs, i) ensures HasBlock(cas, cs[i].xorb) { assert Kept(cs, i); }
  }

  /** What the loop over the chunks has gathered after the first i. */
  ghost predicate Gathered(cs: seq<ChunkInfo>, first: set<Digest>, i: nat, blocks: map<Digest, seq<ChunkEntry>>)
    requires i <= |cs|
  {
    && (forall x :: x in blocks ==> blocks[x] == Select(cs, first, x, i) && blocks[x] != [])
    && (forall x :: x !in blocks ==> Select(cs, first, x, i) == [])
  }

  method CollectBlocks(cs: seq<ChunkInfo>, first: set<Digest>) returns (blocks: map<Digest, seq<ChunkEntry>>)
    ensures Gathered(cs, first, |cs|, blocks)
    ensures forall j {:trigger Kept(cs, j)} :: 0 <= j < |cs| && Kept(cs, j) ==> cs[j].xorb in blocks
  {
    blocks := map[];
    var seen: set<Digest> := {};
    for i := 0 to |cs|
      invariant forall j :: 0 <= j < i && cs[j].isNew ==> cs[j].hash in seen
      invariant forall h :: h in seen ==> exists j :: 0 <= j < i && cs[j].isNew && cs[j].hash == h
      invariant Gathered(cs, first, i, blocks)
      invariant forall j {:trigger Kept(cs, j)} :: 0 <= j < i && Kept(cs, j) ==> cs[j].xorb in blocks
    {
      var c := cs[i];
      assert Kept(cs, i) <==> c.isNew && c.hash !in seen;
      SelectStep(cs, first, i);
      if c.isNew && c.hash !in seen {
        seen := seen + {c.hash};
        blocks := blocks[c.xorb := Append(if c.xorb in blocks then blocks[c.xorb] else [], c, first)];
      }
    }
  }

  /** The hash whose text comes first. */
  method Earliest(hashes: set<Digest>) returns (x: Digest)
    requires hashes != {}
    ensures x in hashes && forall y :: y in hashes && y != x ==> Earlier(x, y)
  {
    x :| x in hashes;
    var todo := hashes - {x};
    while todo != {}
      invariant x in hashes && x !in todo && todo <= hashes
      invariant forall y :: y in hashes && y !in todo && y != x ==> Earlier(x, y)
      decreases |todo|
    {
      var y :| y in todo;
      LessTotal(Format(x), Format(y));
      if Format(x) == Format(y) { FormatInjective(x, y); }
      if Earlier(y, x) {
        forall z | z in hashes && z !in todo && z != x
          ensures Earlier(y, z) { LessTransitive(Format(y), Format(x), Format(z)); }
        x := y;
      }
      todo := todo - {y};
    }
  }

  method SortHashes(hashes: set<Digest>) returns (r: seq<Digest>)
    ensures Sorted(r) && forall x :: x in r <==> x in hashes
  {
    r := [];
    var todo := hashes;
    while todo != {}
      invariant todo <= hashes && forall x :: x in r <==> x in hashes && x !in todo
      invariant Sorted(r) && forall b, x :: 0 <= b < |r| && x in todo ==> Earlier(r[b], x)
      decreases |todo|
    {
      var x := Earliest(todo);
      r, todo := r + [x], todo - {x};
    }
  }

  /** The blocks in the order of their hashes' text. */
  method ListBlocks(blocks: map<Digest, seq<ChunkEntry>>) returns (cas: seq<CasBlock>)
    ensures forall b :: 0 <= b < |cas| ==>
      cas[b].hash in blocks && cas[b] == CasBlock(cas[b].hash, 0, blocks[cas[b].hash], Filled(blocks[cas[b].hash]), 0)
    ensures forall x :: x in blocks ==> exists b :: 0 <= b < |cas| && cas[b].hash == x
    ensures Ordered(cas)
  {
    var hashes := SortHashes(blocks.Keys);
    cas := seq(|hashes|, b requires 0 <= b < |hashes| && hashes[b] in blocks =>
      CasBlock(hashes[b], 0, blocks[hashes[b]], Filled(blocks[hashes[b]]), 0));
    forall x | x in blocks ensures exists b :: 0 <= b < |cas| && cas[b].hash == x {
      var b :| 0 <= b < |hashes| && hashes[b] == x;
      assert cas[b].hash == x;
    }
  }

  method BuildCas(cs: seq<ChunkInfo>, first: set<Digest>) returns (cas: seq<CasBlock>)
    ensures CasListing(cs, first, cas)
    ensures AreBlocks(cs, first, cas)
  {
    var blocks := CollectBlocks(cs, first);
    cas := ListBlocks(blocks);
    BlocksAre(cs, first, cas);
  }

  const WITH_VERIFICATION: Word := 0x8000_0000
  const WITH_BOTH: Word := 0xC000_0000

  /** A file as a shard describes it: its terms, a verification hash for each, and its SHA-256 if known. */
  ghost function Describe(pr: Protocol, file: FileInfo, chunks: seq<ChunkInfo>): FileBlock
    requires forall i :: 0 <= i < |file.indices| ==> file.indices[i] < |chunks|
  {
    var cs := Pick(chunks, file.indices);
    FileBlock(file.hash, if file.sha == ZERO_DIGEST then WITH_VERIFICATION else WITH_BOTH, Terms(cs),
              Verifications(pr, TermHashes(cs)), if file.sha == ZERO_DIGEST then None else Some(file.sha))
  }

  /** The description of a file: a term and a verification hash for each run of its chunks, the SHA-256 unless it is
      zero, and the flags that say which of these are there. */
  ghost predicate IsDescription(pr: Protocol, file: FileInfo, chunks: seq<ChunkInfo>, fb: FileBlock)
    requires forall i :: 0 <= i < |file.indices| ==> file.indices[i] < |chunks|
  {
    && fb.hash == file.hash
    && (if forall i :: 0 <= i < 32 ==> file.sha[i] == 0 then fb.flags == 0x8000_0000 && fb.sha == None
        else fb.flags == 0xC000_0000 && fb.sha == Some(file.sha))
    && (exists hashes, runs ::
      AreTerms(Pick(chunks, file.indices), fb.entries, hashes, runs) && AreVerified(pr, hashes, fb.verification))
  }

  ghost predicate AreVerified(pr: Protocol, hashes: seq<seq<Digest>>, verification: seq<Digest>) {
    |verification| == |hashes| && forall t :: 0 <= t < |hashes| ==> verification[t] == pr.verification(hashes[t])
  }

  lemma DescribeIs(pr: Protocol, file: FileInfo, chunks: seq<ChunkInfo>)
    requires forall i :: 0 <= i < |file.indices| ==> file.indices[i] < |chunks|
    ensures IsDescription(pr, file, chunks, Describe(pr, file, chunks))
  {
    var cs := Pick(chunks, file.indices);
    var runs := TermsAre(cs);
    assert AreVerified(pr, TermHashes(cs), Verifications(pr, TermHashes(cs)));
    ZeroIs(file.sha);
  }

  lemma ZeroIs(d: Digest)
    ensures d == ZERO_DIGEST <==> forall i :: 0 <= i < 32 ==> d[i] == 0
  {
    assert forall i :: 0 <= i < 32 ==> ZERO_DIGEST[i] == 0;
  }

  /** The first chunk of every file. */
  ghost predicate FirstChunks(files: seq<FileInfo>, chunks: seq<ChunkInfo>, n: nat, first: set<Digest>)
    requires n <= |files|
    requires forall f, i :: 0 <= f < |files| && 0 <= i < |files[f].indices| ==> files[f].indices[i] < |chunks|
  {
    forall h :: h in first <==> exists f ::
      0 <= f < n && files[f].indices != [] && chunks[files[f].indices[0]].hash == h
  }

  /** Describes files over placed chunks: terms for every file, CAS blocks for the new chunks. */
  method BuildShard(pr: Protocol, files: seq<FileInfo>, chunks: seq<ChunkInfo>)
    returns (sh: Shard, ghost first: set<Digest>)
    requires forall f, i :: 0 <= f < |files| && 0 <= i < |files[f].indices| ==> files[f].indices[i] < |chunks|
    ensures |sh.files| == |files| && forall f :: 0 <= f < |files| ==> sh.files[f] == Describe(pr, files[f], chunks)
    ensures FirstChunks(files, chunks, |files|, first) && CasListing(chunks, first, sh.cas)
    ensures forall f :: 0 <= f < |files| ==> IsDescription(pr, files[f], chunks, sh.files[f])
    ensures AreBlocks(chunks, first, sh.cas)
  {
    var firsts := FindFirstChunks(files, chunks);
    first := firsts;
    var blocks := DescribeFiles(pr, files, chunks);
    var cas := BuildCas(chunks, firsts);
    sh := Shard(blocks, cas);
    forall f | 0 <= f < |files| ensures IsDescription(pr, files[f], chunks, sh.files[f]) {
      DescribeIs(pr, files[f], chunks);
    }
  }

  method DescribeFile(pr: Protocol, file: FileInfo, chunks: seq<ChunkInfo>) returns (block: FileBlock)
    requires forall i :: 0 <= i < |file.indices| ==> file.indices[i] < |chunks|
    ensures block == Describe(pr, file, chunks)
  {
    var terms, hashes := BuildTerms(file.indices, chunks);
    block := FileBlock(file.hash, WITH_VERIFICATION, terms, Verifications(pr, hashes), None);
    if file.sha != ZERO_DIGEST { block := block.(sha := Some(file.sha), flags := WITH_BOTH); }
  }

  method DescribeFiles(pr: Protocol, files: seq<FileInfo>, chunks: seq<ChunkInfo>) returns (blocks: seq<FileBlock>)
    requires forall f, i :: 0 <= f < |files| && 0 <= i < |files[f].indices| ==> files[f].indices[i] < |chunks|
    ensures |blocks| == |files| && forall f :: 0 <= f < |files| ==> blocks[f] == Describe(pr, files[f], chunks)
  {
    blocks := [];
    for f := 0 to |files|
      invariant |blocks| == f
      invariant forall g :: 0 <= g < f ==> blocks[g] == Describe(pr, files[g], chunks)
    {
      var block := DescribeFile(pr, files[f], chunks);
      blocks := blocks + [block];
    }
  }

  method FindFirstChunks(files: seq<FileInfo>, chunks: seq<ChunkInfo>) returns (first: set<Digest>)
    requires forall f, i :: 0 <= f < |files| && 0 <= i < |files[f].indices| ==> files[f].indices[i] < |chunks|
    ensures FirstChunks(files, chunks, |files|, first)
  {
    first := {};
    for f := 0 to |files|
      invariant FirstChunks(files, chunks, f, first)
    {
      if |files[f].indices| > 0 { first := first + {chunks[files[f].indices[0]].hash}; }
    }
  }

  ghost predicate Positions(cs: seq<ChunkInfo>, x: Digest, n: nat, ps: seq<nat>)
    requires n <= |cs|
  {
    && (forall i, j :: 0 <= i < j < |ps| ==> ps[i] < ps[j])
    && (forall k :: 0 <= k < |ps| ==> ps[k] < n && cs[ps[k]].isNew && cs[ps[k]].xorb == x)
    && (forall i {:trigger i in ps} :: 0 <= i < n && cs[i].isNew && cs[i].xorb == x ==> i in ps)
  }

  lemma {:induction false} IncreasingBound(ps: seq<nat>, k: nat)
    requires k < |ps| && forall i, j :: 0 <= i < j < |ps| ==> ps[i] < ps[j]
    ensures ps[k] >= k
  {
    if k > 0 { IncreasingBound(ps, k - 1); }
  }

  lemma PositionsFew(cs: seq<ChunkInfo>, x: Digest, n: nat, ps: seq<nat>)
    requires n <= |cs| && Positions(cs, x, n, ps)
    ensures |ps| <= n
  {
    if |ps| > 0 { IncreasingBound(ps, |ps| - 1); }
  }

  lemma PositionsInit(cs: seq<ChunkInfo>, x: Digest, n: nat, ps: seq<nat>) returns (init: seq<nat>)
    requires 0 < n <= |cs| && Positions(cs, x, n, ps) && cs[n - 1].isNew && cs[n - 1].xorb == x
    ensures Positions(cs, x, n - 1, init) && ps == init + [n - 1]
  {
    assert n - 1 in ps;
    var last := |ps| - 1;
    assert ps[last] == n - 1 by {
      var k :| 0 <= k < |ps| && ps[k] == n - 1;
      assert ps[k] <= ps[last] < n;
    }
    init := ps[..last];
    assert ps == init + [n - 1];
    forall i | 0 <= i < n - 1 && cs[i].isNew && cs[i].xorb == x ensures i in init { assert i in ps; }
  }

  lemma PositionsStep(cs: seq<ChunkInfo>, x: Digest, n: nat, ps: seq<nat>) returns (init: seq<nat>)
    requires 0 < n <= |cs| && Positions(cs, x, n, ps)
    ensures Positions(cs, x, n - 1, init)
    ensures ps == if cs[n - 1].isNew && cs[n - 1].xorb == x then init + [n - 1] else init
  {
    init := ps;
    if cs[n - 1].isNew && cs[n - 1].xorb == x {
      init := PositionsInit(cs, x, n, ps);
    }
  }

  /** The entries of the chunks at the given positions. */
  ghost function Entries(cs: seq<ChunkInfo>, first: set<Digest>, ps: seq<nat>): (r: seq<ChunkEntry>)
    requires forall k :: 0 <= k < |ps| ==> ps[k] < |cs|
    ensures |r| == |ps|
    ensures forall j {:trigger r[j]} :: 0 <= j < |ps| ==> r[j].hash == cs[ps[j]].hash && r[j].bytes == cs[ps[j]].size
  {
    if ps == [] then [] else Append(Entries(cs, first, ps[..|ps| - 1]), cs[ps[|ps| - 1]], first)
  }

  /** No hash repeats among the new chunks. */
  ghost predicate NewAreKept(cs: seq<ChunkInfo>) {
    forall i {:trigger Kept(cs, i)} :: 0 <= i < |cs| ==> (Kept(cs, i) <==> cs[i].isNew)
  }

  /** The selection lists just the chunks at these positions, if they are the right ones. */
  ghost predicate SelectsAt(cs: seq<ChunkInfo>, first: set<Digest>, x: Digest, n: nat, ps: seq<nat>) {
    n <= |cs| && NewAreKept(cs) && Positions(cs, x, n, ps) ==> Select(cs, first, x, n) == Entries(cs, first, ps)
  }

  lemma SelectsNone(cs: seq<ChunkInfo>, first: set<Digest>, x: Digest, n: nat, ps: seq<nat>)
    requires n == 0
    ensures SelectsAt(cs, first, x, n, ps)
  {
    if Positions(cs, x, n, ps) { PositionsFew(cs, x, n, ps); }
  }

  lemma SelectsNext(cs: seq<ChunkInfo>, first: set<Digest>, x: Digest, n: nat, ps: seq<nat>) returns (init: seq<nat>)
    requires n > 0
    ensures SelectsAt(cs, first, x, n - 1, init) ==> SelectsAt(cs, first, x, n, ps)
  {
    init := [];
    if n <= |cs| && NewAreKept(cs) && Positions(cs, x, n, ps) {
      init := PositionsStep(cs, x, n, ps);
      if SelectsAt(cs, first, x, n - 1, init) {
        assert Kept(cs, n - 1) <==> cs[n - 1].isNew;
        SelectNext(cs, first, x, n, init, ps);
      }
    }
  }

  lemma {:induction false} SelectsAll(cs: seq<ChunkInfo>, first: set<Digest>, x: Digest, n: nat, ps: seq<nat>)
    ensures SelectsAt(cs, first, x, n, ps)
    decreases n
  {
    if n == 0 {
      SelectsNone(cs, first, x, n, ps);
    } else {
      var init := SelectsNext(cs, first, x, n, ps);
      SelectsAll(cs, first, x, n - 1, init);
    }
  }

  /** If ps are, in increasing order, exactly the positions below n of new chunks in x, and no hash repeats, the
      selection lists just those. */
  lemma SelectIs(cs: seq<ChunkInfo>, first: set<Digest>, x: Digest, n: nat, ps: seq<nat>)
    requires n <= |cs| && NewAreKept(cs) && Positions(cs, x, n, ps)
    ensures Select(cs, first, x, n) == Entries(cs, first, ps)
  {
    SelectsAll(cs, first, x, n, ps);
  }

  lemma SelectNext(cs: seq<ChunkInfo>, first: set<Digest>, x: Digest, n: nat, init: seq<nat>, ps: seq<nat>)
    requires 0 < n <= |cs| && (Kept(cs, n - 1) <==> cs[n - 1].isNew)
    requires (forall k :: 0 <= k < |init| ==> init[k] < |cs|) && Select(cs, first, x, n - 1) == Entries(cs, first, init)
    requires ps == if cs[n - 1].isNew && cs[n - 1].xorb == x then init + [n - 1] else init
    ensures (forall k :: 0 <= k < |ps| ==> ps[k] < |cs|) && Select(cs, first, x, n) == Entries(cs, first, ps)
  {
    if cs[n - 1].isNew && cs[n - 1].xorb == x {
      SelectTaken(cs, first, x, n);
      EntriesSnoc(cs, first, init, n - 1);
    }
  }

  lemma SelectTaken(cs: seq<ChunkInfo>, first: set<Digest>, x: Digest, n: nat)
    requires 0 < n <= |cs| && Kept(cs, n - 1) && cs[n - 1].xorb == x
    ensures Select(cs, first, x, n) == Append(Select(cs, first, x, n - 1), cs[n - 1], first)
  {
  }

  lemma EntriesSnoc(cs: seq<ChunkInfo>, first: set<Digest>, ps: seq<nat>, p: nat)
    requires p < |cs| && forall k :: 0 <= k < |ps| ==> ps[k] < |cs|
    ensures Entries(cs, first, ps + [p]) == Append(Entries(cs, first, ps), cs[p], first)
  {
    assert (ps + [p])[..|ps|] == ps;
  }
}
