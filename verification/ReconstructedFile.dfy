/** A stored file as a seekable reader over decode pipelines, restarted wherever a read needs bytes. */
module ReconstructedFile {
  import opened Common
  import P = Pipeline

  /** What one pipeline delivers: decoded chunks in file order, then a clean end or an error. */
  datatype Stream = Stream(chunks: seq<Bytes>, clean: bool)

  /** A running pipeline: the term it started at, what it delivers, and how many chunks were taken from it. */
  datatype Pipe = Pipe(start: nat, stream: Stream, at: nat)

  datatype Outcome = Done | EndOfFile | Failed | Closed

  datatype Whence = SeekStart | SeekCurrent | SeekEnd | Invalid

  /** Bytes of the first n chunks. */
  function Length(chunks: seq<Bytes>, n: nat): nat
    requires n <= |chunks|
  {
    |Flatten(chunks[..n])|
  }

  lemma LengthNext(chunks: seq<Bytes>, n: nat)
    requires n < |chunks|
    ensures Length(chunks, n + 1) == Length(chunks, n) + |chunks[n]| <= |Flatten(chunks)|
    ensures Flatten(chunks)[Length(chunks, n)..Length(chunks, n + 1)] == chunks[n]
  {
    var a, x, b := chunks[..n], chunks[n], chunks[n + 1..];
    assert chunks[..n + 1] == a + [x] && chunks == a + [x] + b;
    FlattenSnoc(a, x);
    FlattenAppend(a + [x], b);
  }

  /** The first term that ends after a position. */
  function TermHolding(entries: seq<nat>, position: nat): (t: nat)
    ensures t <= |entries|
  {
    if entries == [] || position < entries[0] then 0 else 1 + TermHolding(entries[1..], position - entries[0])
  }

  lemma {:induction false} HoldingIs(entries: seq<nat>, position: nat)
    ensures var t := TermHolding(entries, position);
      && Sum(entries[..t]) <= position
      && (position < Sum(entries) ==> t < |entries| && position < Sum(entries[..t + 1]))
  {
    if entries != [] {
      var t, rest := TermHolding(entries, position), entries[1..];
      if position < entries[0] {
        assert entries[..1] == [entries[0]] && Sum([entries[0]]) == entries[0] + Sum([]);
      } else {
        HoldingIs(rest, position - entries[0]);
        assert entries[..t][1..] == rest[..t - 1];
        if t < |entries| { assert entries[..t + 1][1..] == rest[..t]; }
      }
    }
  }

  /** The term holding a position, and its file offset. */
  method TermAt(entries: seq<nat>, position: nat) returns (term: nat, off: nat)
    ensures term == TermHolding(entries, position) && off == Sum(entries[..term]) <= position
    ensures position < Sum(entries) ==> term < |entries| && position < off + entries[term]
  {
    term, off := 0, 0;
    assert entries[0..] == entries;
    while term < |entries|
      invariant term <= |entries| && off == Sum(entries[..term]) <= position
      invariant TermHolding(entries, position) == term + TermHolding(entries[term..], position - off)
    {
      assert entries[..term + 1] == entries[..term] + [entries[term]];
      SumAppend(entries[..term], [entries[term]]);
      var end := off + entries[term];
      if position < end { return; }
      assert entries[term..][1..] == entries[term + 1..];
      off, term := end, term + 1;
    }
    assert entries[..term] == entries;
  }

  lemma PartOf(F: Bytes, off: nat, data: Bytes, from: nat, n: nat)
    requires off + |data| <= |F| && F[off..off + |data|] == data && from + n <= |data|
    ensures data[from..from + n] == F[off + from..off + from + n]
  {
    var a, b := data[from..from + n], F[off + from..off + from + n];
    forall i | 0 <= i < n ensures a[i] == b[i] {
      assert a[i] == F[off..off + |data|][from + i];
    }
    assert a == b;
  }

  // ---------------------------------------------------------------- what pipelines deliver

  function SegmentBytes(terms: seq<P.Segment>): (r: seq<nat>)
    ensures |r| == |terms| && forall i :: 0 <= i < |r| ==> r[i] == terms[i].bytes
  {
    seq(|terms|, i requires 0 <= i < |terms| => terms[i].bytes)
  }

  /** Decoding returns as many bytes as the chunk's header declares. */
  ghost predicate DecodesToSize(decode: P.Packed -> Option<Bytes>) {
    forall p :: decode(p).Some? ==> |decode(p).value| == p.size
  }

  lemma {:induction false} SizesAppend(a: seq<P.Packed>, b: seq<P.Packed>)
    ensures P.Sizes(a + b) == P.Sizes(a) + P.Sizes(b)
  {
    if a == [] {
      assert a + b == b;
    } else {
      assert (a + b)[1..] == a[1..] + b;
      SizesAppend(a[1..], b);
    }
  }

  lemma {:induction false} DoneSizes(terms: seq<P.Segment>, done: seq<seq<P.Packed>>)
    requires P.Finished(terms, done)
    ensures P.Sizes(Flatten(done)) == Sum(SegmentBytes(terms)[..|done|])
    decreases |done|
  {
    if done != [] {
      SizesAppend(done[0], Flatten(done[1..]));
      DoneSizes(terms[1..], done[1..]);
      assert SegmentBytes(terms)[..|done|][1..] == SegmentBytes(terms[1..])[..|done[1..]|];
    }
  }

  lemma {:induction false} OutputSizes(decode: P.Packed -> Option<Bytes>, fetched: seq<P.Packed>, output: seq<Bytes>)
    requires DecodesToSize(decode) && |output| <= |fetched| && forall i :: 0 <= i < |output| ==>
      decode(fetched[i]) == Some(output[i])
    ensures |Flatten(output)| == P.Sizes(fetched[..|output|])
    decreases |output|
  {
    if output != [] {
      assert decode(fetched[0]) == Some(output[0]);
      OutputSizes(decode, fetched[1..], output[1..]);
      assert fetched[..|output|][1..] == fetched[1..][..|output[1..]|];
    }
  }

  /** Whatever the storage, no run of a pipeline delivers more bytes than its terms declare. */
  lemma DeliversAtMost(cfg: P.Config, s: P.State)
    requires P.Inv(cfg, s) && DecodesToSize(cfg.decode)
    ensures |Flatten(s.output)| <= Sum(SegmentBytes(cfg.terms))
  {
    var f := P.Fetched(s);
    OutputSizes(cfg.decode, f, s.output);
    assert f == f[..|s.output|] + f[|s.output|..];
    SizesAppend(f[..|s.output|], f[|s.output|..]);
    FetchedAtMost(cfg, s);
  }

  lemma FetchedAtMost(cfg: P.Config, s: P.State)
    requires P.Progress(cfg, s)
    ensures P.Sizes(P.Fetched(s)) <= Sum(SegmentBytes(cfg.terms))
  {
    var bytes, n := SegmentBytes(cfg.terms), |s.done|;
    SizesAppend(Flatten(s.done), s.partial);
    DoneSizes(cfg.terms, s.done);
    assert bytes == bytes[..n] + bytes[n..];
    SumAppend(bytes[..n], bytes[n..]);
  }

  /** Whatever the storage, a reader that drained a pipeline to a clean end was given exactly the bytes its terms
      declare. */
  lemma DrainedDeliversAll(cfg: P.Config, s: P.State)
    requires P.Inv(cfg, s) && DecodesToSize(cfg.decode)
    requires s.orderedClosed && !s.failed && !s.readerDone && s.board.ordered == [] && s.board.waiting.None?
    ensures |Flatten(s.output)| == Sum(SegmentBytes(cfg.terms))
  {
    P.CleanEnd(cfg, s);
    var f := P.Fetched(s);
    OutputSizes(cfg.decode, f, s.output);
    assert f[..|s.output|] == f;
    DoneSizes(cfg.terms, s.done);
    assert SegmentBytes(cfg.terms)[..|s.done|] == SegmentBytes(cfg.terms);
  }

  // ---------------------------------------------------------------- runs as streams

  /** The file from a term on. */
  function From(cfg: P.Config, t: nat): P.Config
    requires t <= |cfg.terms|
  {
    P.Config(cfg.terms[t..], cfg.workers, (i: nat, k: nat) => cfg.frame(t + i, k), cfg.decode)
  }

  /** A reader that emptied the closed channel, without an error anywhere. */
  predicate Drained(s: P.State) {
    s.orderedClosed && !s.failed && !s.readerDone && s.board.ordered == [] && s.board.waiting.None?
  }

  /** The reader gets no more: the channel is closed and empty, or it met an error. */
  predicate Over(s: P.State) {
    s.readerDone || (s.orderedClosed && s.board.ordered == [] && s.board.waiting.None?)
  }

  /** Some run of the pipeline's threads delivers this. */
  ghost predicate Delivers(cfg: P.Config, st: Stream) {
    exists trace: seq<(P.Step, P.State)> {:trigger Run(P.Steps(cfg), P.Init(P.WINDOW), trace)} ::
      Run(P.Steps(cfg), P.Init(P.WINDOW), trace) && EndsIn(st, Before(P.Init(P.WINDOW), trace, |trace|))
  }

  predicate EndsIn(st: Stream, s: P.State) { Over(s) && st.chunks == s.output && st.clean == Drained(s) }

  /** Whatever the pipelines of a file do, some run of their threads does it. */
  ghost predicate Possible(cfg: P.Config, runs: (nat, nat) -> Stream) {
    forall n: nat, t: nat {:trigger runs(n, t)} :: t <= |cfg.terms| ==> Delivers(From(cfg, t), runs(n, t))
  }

  /** A reader that is cancelled at once gets nothing. */
  lemma CancelledAtOnce(cfg: P.Config)
    ensures Delivers(cfg, Stream([], false))
  {
    var s := P.Init(P.WINDOW);
    var t := s.(cancelled := true);
    var u := t.(readerDone := true);
    var trace := [(P.Cancel, t), (P.ReaderCancelled, u)];
    assert P.Next(cfg, s, P.Cancel, t) && P.Next(cfg, t, P.ReaderCancelled, u);
    assert Run(P.Steps(cfg), P.Init(P.WINDOW), trace);
    assert EndsIn(Stream([], false), u);
  }

  ghost predicate Workable(cfg: P.Config) { cfg.workers > 0 && DecodesToSize(cfg.decode) }

  /** Whatever the storage, a stream has no more bytes than the terms declare, and ends cleanly only with exactly
      those. */
  lemma StreamFits(cfg: P.Config, st: Stream)
    requires Workable(cfg) && Delivers(cfg, st)
    ensures |Flatten(st.chunks)| <= Sum(SegmentBytes(cfg.terms)) &&
      (st.clean ==> |Flatten(st.chunks)| == Sum(SegmentBytes(cfg.terms)))
  {
    var trace: seq<(P.Step, P.State)> :| Run(P.Steps(cfg), P.Init(P.WINDOW), trace) &&
      EndsIn(st, Before(P.Init(P.WINDOW), trace, |trace|));
    P.RunsKeepSourced(cfg, trace, |trace|);
    var s := Before(P.Init(P.WINDOW), trace, |trace|);
    DeliversAtMost(cfg, s);
    if st.clean { DrainedDeliversAll(cfg, s); }
  }

  // ---------------------------------------------------------------- a storage that holds a file

  /** The packed chunks decode to these. */
  ghost predicate Unpacks(cfg: P.Config, ps: seq<P.Packed>, cs: seq<Bytes>) {
    |ps| == |cs| && forall k {:trigger ps[k]} {:trigger cs[k]} :: 0 <= k < |ps| ==> cfg.decode(ps[k]) == Some(cs[k])
  }

  /** The storage has these chunks for the term, of the size the term declares; a term without bytes is not read. */
  ghost predicate HoldsTerm(cfg: P.Config, i: nat, cs: seq<Bytes>)
    requires i < |cfg.terms|
  {
    && |Flatten(cs)| == cfg.terms[i].bytes && |cs| == (if cfg.terms[i].bytes == 0 then 0 else cfg.terms[i].chunks)
    && forall k {:trigger cs[k]} :: 0 <= k < |cs| ==>
      cfg.frame(i, k).Some? && cfg.decode(cfg.frame(i, k).value) == Some(cs[k])
  }

  /** The chunks the storage has for the terms, one list for each. */
  ghost predicate HoldsParts(cfg: P.Config, parts: seq<seq<Bytes>>) {
    |parts| == |cfg.terms| && forall i {:trigger parts[i]} :: 0 <= i < |parts| ==> HoldsTerm(cfg, i, parts[i])
  }

  lemma {:induction false} UnpacksAll(cfg: P.Config, done: seq<seq<P.Packed>>, parts: seq<seq<Bytes>>)
    requires |done| <= |parts| && forall j {:trigger done[j]} :: 0 <= j < |done| ==> Unpacks(cfg, done[j], parts[j])
    ensures Unpacks(cfg, Flatten(done), Flatten(parts[..|done|]))
    decreases |done|
  {
    if done != [] {
      var n := |done| - 1;
      var init := done[..n];
      forall j | 0 <= j < |init| ensures Unpacks(cfg, init[j], parts[j]) { assert init[j] == done[j]; }
      UnpacksAll(cfg, init, parts);
      assert done == init + [done[n]] && parts[..|done|] == parts[..n] + [parts[n]];
      FlattenSnoc(init, done[n]);
      FlattenSnoc(parts[..n], parts[n]);
      UnpacksMore(cfg, Flatten(init), Flatten(parts[..n]), done[n], parts[n]);
    }
  }

  lemma UnpacksMore(cfg: P.Config, ps: seq<P.Packed>, cs: seq<Bytes>, qs: seq<P.Packed>, ds: seq<Bytes>)
    requires Unpacks(cfg, ps, cs) && Unpacks(cfg, qs, ds)
    ensures Unpacks(cfg, ps + qs, cs + ds)
  {
    forall k | 0 <= k < |ps + qs| ensures cfg.decode((ps + qs)[k]) == Some((cs + ds)[k]) {
      if k >= |ps| { assert (ps + qs)[k] == qs[k - |ps|]; }
    }
  }

  lemma {:induction false} FlattenPrefix(parts: seq<seq<Bytes>>, n: nat, cs: seq<Bytes>)
    requires n <= |parts| && (cs == [] || (n < |parts| && cs <= parts[n]))
    ensures Flatten(parts[..n]) + cs <= Flatten(parts)
  {
    assert parts == parts[..n] + parts[n..];
    FlattenAppend(parts[..n], parts[n..]);
    if n < |parts| { assert parts[n..][0] == parts[n]; }
  }

  /** In every run over a storage that has these chunks, what was fetched unpacks to them, in order, as far as it
      goes. */
  lemma FetchedUnpacks(cfg: P.Config, s: P.State, parts: seq<seq<Bytes>>) returns (cs: seq<Bytes>)
    requires P.Sourced(cfg, s) && HoldsParts(cfg, parts)
    ensures Unpacks(cfg, P.Fetched(s), cs) && cs <= Flatten(parts)
    ensures |s.done| == |cfg.terms| && s.partial == [] ==> cs == Flatten(parts)
  {
    forall j | 0 <= j < |s.done| ensures Unpacks(cfg, s.done[j], parts[j]) { DoneUnpacks(cfg, s, parts, j); }
    UnpacksAll(cfg, s.done, parts);
    var n := |s.done|;
    var last := if s.partial == [] then [] else parts[n][..|s.partial|];
    assert s.partial != [] ==> HoldsTerm(cfg, n, parts[n]);
    forall k | 0 <= k < |s.partial| ensures cfg.decode(s.partial[k]) == Some(last[k]) { assert last[k] == parts[n][k]; }
    cs := Flatten(parts[..n]) + last;
    UnpacksMore(cfg, Flatten(s.done), Flatten(parts[..n]), s.partial, last);
    FlattenPrefix(parts, n, last);
    if n == |parts| { assert parts[..n] == parts; }
  }

  lemma DoneUnpacks(cfg: P.Config, s: P.State, parts: seq<seq<Bytes>>, j: nat)
    requires P.Sourced(cfg, s) && HoldsParts(cfg, parts) && j < |s.done|
    ensures Unpacks(cfg, s.done[j], parts[j])
  {
    assert P.WholeTerm(cfg, j, s.done[j]) && HoldsTerm(cfg, j, parts[j]);
    forall k | 0 <= k < |s.done[j]| ensures cfg.decode(s.done[j][k]) == Some(parts[j][k]) {
      assert cfg.frame(j, k) == Some(s.done[j][k]);
      assert parts[j][k] == parts[j][k];
    }
  }

  /** Over a storage that has these chunks, every stream is a part of them from the start, and a clean one is all of
      them. */
  lemma StreamRight(cfg: P.Config, st: Stream, parts: seq<seq<Bytes>>)
    requires Workable(cfg) && Delivers(cfg, st) && HoldsParts(cfg, parts)
    ensures st.chunks <= Flatten(parts) && (st.clean ==> st.chunks == Flatten(parts))
  {
    var trace: seq<(P.Step, P.State)> :| Run(P.Steps(cfg), P.Init(P.WINDOW), trace) &&
      EndsIn(st, Before(P.Init(P.WINDOW), trace, |trace|));
    P.RunsKeepSourced(cfg, trace, |trace|);
    var s := Before(P.Init(P.WINDOW), trace, |trace|);
    var cs := FetchedUnpacks(cfg, s, parts);
    OutputPrefix(cfg, s, cs);
    if st.clean { P.CleanEnd(cfg, s); }
  }

  lemma OutputPrefix(cfg: P.Config, s: P.State, cs: seq<Bytes>)
    requires P.OutputRight(cfg, s) && Unpacks(cfg, P.Fetched(s), cs)
    ensures s.output <= cs && (|s.output| == |P.Fetched(s)| ==> s.output == cs)
  {
    forall i | 0 <= i < |s.output| ensures s.output[i] == cs[i] {
      assert cfg.decode(P.Fetched(s)[i]) == Some(s.output[i]);
    }
  }

  lemma PartsFrom(cfg: P.Config, parts: seq<seq<Bytes>>, t: nat)
    requires HoldsParts(cfg, parts) && t <= |cfg.terms|
    ensures HoldsParts(From(cfg, t), parts[t..])
  {
    var c := From(cfg, t);
    forall i | 0 <= i < |parts| - t ensures HoldsTerm(c, i, parts[t..][i]) {
      assert parts[t..][i] == parts[t + i] && HoldsTerm(cfg, t + i, parts[t + i]);
      assert c.terms[i] == cfg.terms[t + i];
      forall k | 0 <= k < |parts[t + i]| ensures c.frame(i, k).Some? &&
        c.decode(c.frame(i, k).value) == Some(parts[t + i][k]) {
        assert parts[t + i][k] == parts[t + i][k];
      }
    }
  }

  // ---------------------------------------------------------------- the file

  /** The storage holds the bytes F for the terms of the file. */
  ghost predicate Stores(cfg: P.Config, F: Bytes) {
    exists parts: seq<seq<Bytes>> :: HoldsParts(cfg, parts) && F == Flatten(Flatten(parts))
  }

  /** A stream from term t on has no more than the terms declare, and ends cleanly only with exactly that. */
  predicate Legit(entries: seq<nat>, t: nat, st: Stream) {
    && t <= |entries| && |Flatten(st.chunks)| <= Sum(entries[t..])
    && (st.clean ==> |Flatten(st.chunks)| == Sum(entries[t..]))
  }

  /** A stream from term t on is a part of F from that term on, and all the rest of F if it ends cleanly. */
  ghost predicate Yields(entries: seq<nat>, t: nat, st: Stream, F: Bytes) {
    && t <= |entries| && |F| == Sum(entries) && Sum(entries[..t]) <= |F|
    && var rest := F[Sum(entries[..t])..];
       Flatten(st.chunks) <= rest && (st.clean ==> Flatten(st.chunks) == rest)
  }

  lemma {:induction false} FlattenMonotone(a: seq<Bytes>, b: seq<Bytes>)
    requires a <= b
    ensures Flatten(a) <= Flatten(b)
  {
    assert b == a + b[|a|..];
    FlattenAppend(a, b[|a|..]);
  }

  lemma {:induction false} PartSizes(cfg: P.Config, parts: seq<seq<Bytes>>, n: nat)
    requires HoldsParts(cfg, parts) && n <= |parts|
    ensures |Flatten(Flatten(parts[..n]))| == Sum(SegmentBytes(cfg.terms)[..n])
  {
    var bytes := SegmentBytes(cfg.terms);
    if n > 0 {
      PartSizes(cfg, parts, n - 1);
      assert HoldsTerm(cfg, n - 1, parts[n - 1]);
      assert parts[..n] == parts[..n - 1] + [parts[n - 1]] && bytes[..n] == bytes[..n - 1] + [bytes[n - 1]];
      FlattenSnoc(parts[..n - 1], parts[n - 1]);
      FlattenAppend(Flatten(parts[..n - 1]), parts[n - 1]);
      SumAppend(bytes[..n - 1], [bytes[n - 1]]);
      assert [bytes[n - 1]][1..] == [];
    }
  }

  lemma SplitFile(cfg: P.Config, parts: seq<seq<Bytes>>, t: nat)
    requires HoldsParts(cfg, parts) && t <= |parts|
    ensures var F, entries := Flatten(Flatten(parts)), SegmentBytes(cfg.terms);
      |F| == Sum(entries) && Sum(entries[..t]) <= |F| && F[Sum(entries[..t])..] == Flatten(Flatten(parts[t..]))
  {
    PartSizes(cfg, parts, t);
    PartSizes(cfg, parts, |parts|);
    assert parts == parts[..t] + parts[t..] && parts[..|parts|] == parts;
    FlattenAppend(parts[..t], parts[t..]);
    FlattenAppend(Flatten(parts[..t]), Flatten(parts[t..]));
    assert SegmentBytes(cfg.terms)[..|parts|] == SegmentBytes(cfg.terms);
  }

  /** Every pipeline over a storage that holds F yields F, as far as it goes. */
  lemma PipelinesYield(cfg: P.Config, t: nat, st: Stream, F: Bytes)
    requires Workable(cfg) && t <= |cfg.terms| && Delivers(From(cfg, t), st) && Stores(cfg, F)
    ensures Yields(SegmentBytes(cfg.terms), t, st, F)
  {
    var parts: seq<seq<Bytes>> :| HoldsParts(cfg, parts) && F == Flatten(Flatten(parts));
    PartsFrom(cfg, parts, t);
    StreamRight(From(cfg, t), st, parts[t..]);
    FlattenMonotone(st.chunks, Flatten(parts[t..]));
    SplitFile(cfg, parts, t);
  }

  lemma StoredSize(cfg: P.Config, F: Bytes)
    requires Stores(cfg, F)
    ensures |F| == Sum(SegmentBytes(cfg.terms))
  {
    var parts: seq<seq<Bytes>> :| HoldsParts(cfg, parts) && F == Flatten(Flatten(parts));
    SplitFile(cfg, parts, 0);
  }

  lemma PipelinesLegit(cfg: P.Config, t: nat, st: Stream)
    requires Workable(cfg) && t <= |cfg.terms| && Delivers(From(cfg, t), st)
    ensures Legit(SegmentBytes(cfg.terms), t, st)
  {
    StreamFits(From(cfg, t), st);
    assert SegmentBytes(From(cfg, t).terms) == SegmentBytes(cfg.terms)[t..];
  }

  /** What all pipelines of a file have in common; content is what the storage holds for the file, if it does hold all
      of it. */
  ghost predicate Sane(entries: seq<nat>, runs: (nat, nat) -> Stream, content: Option<Bytes>) {
    forall n: nat, t: nat {:trigger runs(n, t)} :: t <= |entries| ==> Proper(entries, t, runs(n, t), content)
  }

  ghost predicate Proper(entries: seq<nat>, t: nat, st: Stream, content: Option<Bytes>) {
    Legit(entries, t, st) && (content.Some? ==> Yields(entries, t, st, content.value))
  }

  lemma PossibleIsSane(cfg: P.Config, runs: (nat, nat) -> Stream, content: Option<Bytes>)
    requires Workable(cfg) && Possible(cfg, runs) && (content.Some? ==> Stores(cfg, content.value))
    ensures Sane(SegmentBytes(cfg.terms), runs, content)
  {
    forall n: nat, t: nat | t <= |cfg.terms| ensures Proper(SegmentBytes(cfg.terms), t, runs(n, t), content) {
      PipelinesLegit(cfg, t, runs(n, t));
      if content.Some? { PipelinesYield(cfg, t, runs(n, t), content.value); }
    }
  }

  /** The file offset at which chunk k of a pipeline lies. */
  function OffsetOf(entries: seq<nat>, p: Pipe, k: nat): nat
    requires p.start <= |entries| && k <= |p.stream.chunks|
  {
    Sum(entries[..p.start]) + Length(p.stream.chunks, k)
  }

  lemma OffsetNext(entries: seq<nat>, p: Pipe, k: nat)
    requires Legit(entries, p.start, p.stream) && k < |p.stream.chunks|
    ensures OffsetOf(entries, p, k + 1) == OffsetOf(entries, p, k) + |p.stream.chunks[k]| <= Sum(entries)
  {
    LengthNext(p.stream.chunks, k);
    assert entries == entries[..p.start] + entries[p.start..];
    SumAppend(entries[..p.start], entries[p.start..]);
  }

  /** Chunk k of a pipeline that yields F is the part of F at its offset. */
  lemma ChunkOfFile(entries: seq<nat>, p: Pipe, F: Bytes, k: nat)
    requires Yields(entries, p.start, p.stream, F) && k < |p.stream.chunks|
    ensures var off := OffsetOf(entries, p, k);
      off + |p.stream.chunks[k]| <= |F| && F[off..off + |p.stream.chunks[k]|] == p.stream.chunks[k]
  {
    LengthNext(p.stream.chunks, k);
    PrefixPart(F, Sum(entries[..p.start]), Flatten(p.stream.chunks), Length(p.stream.chunks, k), |p.stream.chunks[k]|);
  }

  lemma PrefixPart(F: Bytes, base: nat, part: Bytes, from: nat, n: nat)
    requires base <= |F| && part <= F[base..] && from + n <= |part|
    ensures base + from + n <= |F| && F[base + from..base + from + n] == part[from..from + n]
  {
    var a, b := F[base + from..base + from + n], part[from..from + n];
    forall i | 0 <= i < n ensures a[i] == b[i] { assert b[i] == part[from + i] == F[base..][from + i]; }
    assert a == b;
  }

  // ---------------------------------------------------------------- how far a pipeline serves

  /** How far chunks from an offset on reach, without the first that would complete the file. */
  function Reach(off: nat, chunks: seq<Bytes>, size: nat): nat
    decreases |chunks|
  {
    if chunks == [] || off + |chunks[0]| >= size then off else Reach(off + |chunks[0]|, chunks[1..], size)
  }

  /** How far a pipeline that starts at a term serves: to the end of the file, or, if it fails, as far as it delivers,
      except for the chunk that would complete the file. */
  function Limit(entries: seq<nat>, start: nat, st: Stream): nat
    requires start <= |entries|
  {
    if st.clean then Sum(entries) else Reach(Sum(entries[..start]), st.chunks, Sum(entries))
  }

  lemma {:induction false} ReachBounds(off: nat, chunks: seq<Bytes>, size: nat)
    ensures off <= Reach(off, chunks, size) && (off <= size ==> Reach(off, chunks, size) <= size)
    decreases |chunks|
  {
    if chunks != [] && off + |chunks[0]| < size { ReachBounds(off + |chunks[0]|, chunks[1..], size); }
  }

  /** How far chunks from offset off on are served: to the end of the file if the stream is clean; else to the end of
      the last whole chunk that leaves some of the file to come. */
  ghost predicate ServesTo(off: nat, st: Stream, size: nat, limit: nat) {
    if st.clean then limit == size
    else exists k: nat :: ServesChunks(off, st.chunks, size, k) && limit == off + |Flatten(st.chunks[..k])|
  }

  ghost predicate ServesChunks(off: nat, chunks: seq<Bytes>, size: nat, k: nat) {
    && k <= |chunks| && (k > 0 ==> off + |Flatten(chunks[..k])| < size)
    && (k < |chunks| ==> off + |Flatten(chunks[..k + 1])| >= size)
  }

  lemma {:induction false} ReachIs(off: nat, chunks: seq<Bytes>, size: nat) returns (k: nat)
    ensures ServesChunks(off, chunks, size, k) && Reach(off, chunks, size) == off + |Flatten(chunks[..k])|
    decreases |chunks|
  {
    k := 0;
    if chunks != [] {
      var head, rest := chunks[0], chunks[1..];
      assert chunks[..1] == [head] && Flatten([head]) == head + Flatten([]);
      if off + |head| < size {
        var j := ReachIs(off + |head|, rest, size);
        k := j + 1;
        assert chunks[..k] == [head] + rest[..j];
        if j < |rest| { assert chunks[..k + 1] == [head] + rest[..j + 1]; }
      }
    }
  }

  lemma LimitIs(entries: seq<nat>, start: nat, st: Stream)
    requires start <= |entries|
    ensures ServesTo(Sum(entries[..start]), st, Sum(entries), Limit(entries, start, st))
  {
    if !st.clean { var k := ReachIs(Sum(entries[..start]), st.chunks, Sum(entries)); }
  }

  /** How far the pipeline serves is how far the chunks not taken yet reach. */
  ghost predicate Ahead(entries: seq<nat>, p: Pipe)
    requires p.start <= |entries| && p.at <= |p.stream.chunks|
  {
    !p.stream.clean ==>
      Limit(entries, p.start, p.stream) == Reach(OffsetOf(entries, p, p.at), p.stream.chunks[p.at..], Sum(entries))
  }

  lemma AheadFirst(entries: seq<nat>, p: Pipe)
    requires p.start <= |entries| && p.at == 0
    ensures Ahead(entries, p)
  {
    assert p.stream.chunks[..0] == [] && p.stream.chunks[0..] == p.stream.chunks;
  }

  /** The next chunk of a pipeline that fails lies within what it serves, unless it would complete the file, or it is
      where that ends. */
  lemma AheadNext(entries: seq<nat>, p: Pipe)
    requires Legit(entries, p.start, p.stream) && p.at < |p.stream.chunks| && Ahead(entries, p) && !p.stream.clean
    ensures var end, limit := OffsetOf(entries, p, p.at + 1), Limit(entries, p.start, p.stream);
      if end >= Sum(entries) then limit == OffsetOf(entries, p, p.at)
      else Ahead(entries, p.(at := p.at + 1)) && end <= limit
  {
    OffsetNext(entries, p, p.at);
    var q := p.(at := p.at + 1);
    assert p.stream.chunks[p.at..][1..] == p.stream.chunks[q.at..];
    ReachBounds(OffsetOf(entries, q, q.at), q.stream.chunks[q.at..], Sum(entries));
  }

  lemma AheadLast(entries: seq<nat>, p: Pipe)
    requires Legit(entries, p.start, p.stream) && p.at == |p.stream.chunks| && Ahead(entries, p)
    ensures Limit(entries, p.start, p.stream) == OffsetOf(entries, p, p.at)
  {
    if p.stream.clean {
      assert p.stream.chunks[..p.at] == p.stream.chunks;
      assert entries == entries[..p.start] + entries[p.start..];
      SumAppend(entries[..p.start], entries[p.start..]);
    }
  }

  lemma LimitBounds(entries: seq<nat>, t: nat, st: Stream)
    requires t <= |entries|
    ensures Limit(entries, t, st) <= Sum(entries)
  {
    assert entries == entries[..t] + entries[t..];
    SumAppend(entries[..t], entries[t..]);
    ReachBounds(Sum(entries[..t]), st.chunks, Sum(entries));
  }

  class File {
    const cfg: P.Config
    /** What comes of the n-th pipeline started, if it starts at term t: any run of its threads, with any error, each
        time. */
    const runs: (nat, nat) -> Stream
    const entries: seq<nat>
    const size: nat
    /** The file's bytes, if the storage holds them. */
    ghost const content: Option<Bytes>
    var position: nat
    var closed: bool
    var failed: bool
    var pipe: Option<Pipe>
    var cur: Option<Bytes>
    var chunkOff: nat
    ghost var index: nat
    var starts: nat

    /** off is where the pipeline's chunk k starts. */
    ghost predicate At(k: nat, off: nat)
      reads `pipe
    {
      && pipe.Some? && pipe.value.start <= |entries| && k <= |pipe.value.stream.chunks|
      && off == OffsetOf(entries, pipe.value, k)
    }

    /** The running pipeline is the last one started. */
    ghost predicate Running()
      reads `pipe, `starts
    {
      && size == Sum(entries) && Sane(entries, runs, content) && (content.Some? ==> |content.value| == size)
      && (pipe.Some? ==>
            && Proper(entries, pipe.value.start, pipe.value.stream, content)
            && starts > 0 && pipe.value.stream == runs(starts - 1, pipe.value.start))
    }

    /** cur is the chunk at index of the running pipeline and holds position. */
    ghost predicate Serving()
      reads `pipe, `cur, `chunkOff, `index, `position
    {
      && cur.Some? && At(index, chunkOff) && index < pipe.value.at <= |pipe.value.stream.chunks|
      && cur.value == pipe.value.stream.chunks[index] && chunkOff <= position <= chunkOff + |cur.value|
    }

    /** Of the chunks, those up to the served one are taken; a chunk reaching the end of the file is held only once the
        pipeline has ended cleanly. */
    ghost predicate Valid()
      reads this
    {
      && Running() && (pipe.Some? <==> cur.Some?) && (pipe.Some? ==> Serving())
      && (pipe.Some? && chunkOff + |cur.value| < size ==> pipe.value.at == index + 1 && Ahead(entries, pipe.value))
      && (pipe.Some? && chunkOff + |cur.value| >= size ==> pipe.value.stream.clean)
    }

    /** How far the pipeline serves that runs, or that the next read starts. */
    ghost function Served(): nat
      requires pipe.Some? ==> pipe.value.start <= |entries|
      reads `pipe, `starts, `position
    {
      if pipe.Some? then Limit(entries, pipe.value.start, pipe.value.stream) else
      var t := TermHolding(entries, position); Limit(entries, t, runs(starts, t))
    }

    /** What that is, spelled out: the chunks of the running pipeline, or of one that starts at the term holding the
        position, are served from the start of its first term on. */
    lemma ServedIs()
      requires Valid() && position < size
      ensures pipe.Some? ==> ServesTo(Sum(entries[..pipe.value.start]), pipe.value.stream, Sum(entries), Served())
      ensures pipe.None? ==> exists t ::
        0 <= t < |entries| && Sum(entries[..t]) <= position < Sum(entries[..t + 1]) &&
        ServesTo(Sum(entries[..t]), runs(starts, t), Sum(entries), Served())
    {
      if pipe.Some? {
        LimitIs(entries, pipe.value.start, pipe.value.stream);
      } else {
        var t := TermHolding(entries, position);
        HoldingIs(entries, position);
        LimitIs(entries, t, runs(starts, t));
      }
    }

    constructor (cfg: P.Config, runs: (nat, nat) -> Stream, ghost content: Option<Bytes>)
      requires Workable(cfg) && Possible(cfg, runs) && (content.Some? ==> Stores(cfg, content.value))
      ensures Valid() && this.cfg == cfg && this.runs == runs && this.content == content &&
        entries == SegmentBytes(cfg.terms)
      ensures position == 0 && !closed && !failed && starts == 0 && pipe.None?
    {
      PossibleIsSane(cfg, runs, content);
      if content.Some? { StoredSize(cfg, content.value); }
      this.cfg, this.runs, this.content, this.entries := cfg, runs, content, SegmentBytes(cfg.terms);
      var all := SegmentBytes(cfg.terms);
      var total, i := 0, 0;
      while i < |all|
        invariant 0 <= i <= |all| && total == Sum(all[..i])
      {
        assert all[..i + 1] == all[..i] + [all[i]];
        SumAppend(all[..i], [all[i]]);
        total, i := total + all[i], i + 1;
      }
      assert all[..|all|] == all;
      size := total;
      position, closed, failed, pipe, cur, chunkOff := 0, false, false, None, None, 0;
      index, starts := 0, 0;
    }

    /** Tears the pipeline down. */
    method StopPipe()
      modifies `pipe, `cur
      ensures pipe.None? && cur.None?
    {
      pipe, cur := None, None;
    }

    /** Starts a pipeline at the term holding position. */
    method Start()
      requires Running() && pipe.None? && position < size
      modifies `pipe, `chunkOff, `starts
      ensures Running() && pipe.Some? && At(pipe.value.at, chunkOff) && chunkOff <= position
      ensures var t := TermHolding(entries, position); pipe.value == Pipe(t, runs(old(starts), t), 0)
      ensures starts == old(starts) + 1 && Ahead(entries, pipe.value)
    {
      var term, off := TermAt(entries, position);
      var st := runs(starts, term);
      assert st.chunks[..0] == [];
      chunkOff := off;
      pipe := Some(Pipe(term, st, 0));
      starts := starts + 1;
      AheadFirst(entries, pipe.value);
    }

    /** A pipeline runs and its next chunk begins at or before position. */
    ghost predicate Ready()
      reads `pipe, `starts, `chunkOff, `cur, `position
    {
      && Running() && pipe.Some? && At(pipe.value.at, chunkOff) && chunkOff <= position < size && cur.None?
      && Ahead(entries, pipe.value)
    }

    /** Releases the served chunk, or starts a pipeline. */
    method Prepare()
      requires Valid() && position < size && (cur.None? || position == chunkOff + |cur.value|)
      modifies `pipe, `cur, `chunkOff, `starts
      ensures Ready() && Served() == old(Served())
    {
      if cur.Some? {
        OffsetNext(entries, pipe.value, index);
        chunkOff := chunkOff + |cur.value|;
        cur := None;
      }
      if pipe.None? { Start(); }
    }

    /** Takes the next chunk of the running pipeline, if there is one. */
    method Take() returns (data: Option<Bytes>)
      requires Running() && pipe.Some? && At(pipe.value.at, chunkOff) && Ahead(entries, pipe.value)
      modifies `pipe
      ensures Running() && pipe.Some? && pipe.value == old(pipe.value).(at := pipe.value.at)
      ensures data.None? ==> Served() == chunkOff
      ensures data.Some? ==> var k := old(pipe.value.at);
        && k < |pipe.value.stream.chunks| && pipe.value.at == k + 1 && data.value == pipe.value.stream.chunks[k]
        && At(k, chunkOff) && At(k + 1, chunkOff + |data.value|)
        && (chunkOff + |data.value| < size ==> Ahead(entries, pipe.value) && chunkOff + |data.value| <= Served())
        && (chunkOff + |data.value| >= size && !pipe.value.stream.clean ==> Served() == chunkOff)
    {
      var p := pipe.value;
      if p.at == |p.stream.chunks| {
        AheadLast(entries, p);
        return None;
      }
      OffsetNext(entries, p, p.at);
      if !p.stream.clean { AheadNext(entries, p); }
      pipe := Some(p.(at := p.at + 1));
      return Some(p.stream.chunks[p.at]);
    }

    /** The chunk just taken holds position; it is within what the pipeline serves, or would complete the file. */
    ghost predicate Found()
      requires pipe.Some? ==> pipe.value.start <= |entries|
      reads `pipe, `cur, `chunkOff, `index, `position, `starts
    {
      && Serving() && position < chunkOff + |cur.value| && pipe.value.at == index + 1
      && (chunkOff + |cur.value| < size ==> Ahead(entries, pipe.value) && chunkOff + |cur.value| <= Served())
      && (chunkOff + |cur.value| >= size && !pipe.value.stream.clean ==> Served() <= position)
    }

    /** Takes one chunk and makes it cur if it holds position. */
    method TakeOne() returns (more: bool, ok: bool)
      requires Ready()
      modifies `pipe, `cur, `chunkOff, `index
      ensures Running() && pipe.Some? && pipe.value == old(pipe.value).(at := pipe.value.at)
      ensures more ==> Ready() && pipe.value.at == old(pipe.value.at) + 1
      ensures !more ==> if ok then Found() else Served() <= position
    {
      var data := Take();
      if data.None? { return false, false; }
      if position >= chunkOff + |data.value| {
        chunkOff := chunkOff + |data.value|;
        return true, false;
      }
      cur, index := data, pipe.value.at - 1;
      return false, true;
    }

    /** Takes chunks up to the one holding position and makes it cur. */
    method Discard() returns (ok: bool)
      requires Ready()
      modifies `pipe, `cur, `chunkOff, `index
      ensures Running() && pipe.Some? && pipe.value == old(pipe.value).(at := pipe.value.at)
      ensures if ok then Found() else Served() <= position
    {
      ghost var p := pipe.value;
      var more := true;
      ok := false;
      while more
        invariant Running() && pipe.Some? && pipe.value == p.(at := pipe.value.at)
        invariant if more then Ready() else if ok then Found() else Served() <= position
        decreases more, |p.stream.chunks| - pipe.value.at
      {
        more, ok := TakeOne();
      }
    }

    /** Makes cur the next chunk holding position; fails exactly when the pipeline does not deliver that far. */
    method Advance() returns (ok: bool)
      requires Valid() && position < size && (cur.None? || position == chunkOff + |cur.value|)
      modifies `pipe, `cur, `chunkOff, `index, `starts
      ensures Running() && pipe.Some? && Served() == old(Served())
      ensures if ok then Found() else Served() <= position
    {
      Prepare();
      ok := Discard();
    }

    /** Takes what is left of the pipeline and reports whether it ended cleanly. */
    method Drain() returns (ok: bool)
      requires Running() && Serving()
      modifies `pipe
      ensures Running() && Serving() && ok == pipe.value.stream.clean
      ensures pipe.value == old(pipe.value).(at := pipe.value.at)
    {
      var p := pipe.value;
      pipe := Some(p.(at := |p.stream.chunks|));
      ok := p.stream.clean;
    }

    /** Makes the chunk holding position available; the final one only after the pipeline has ended cleanly. Fails
        exactly where the pipeline serves no more. */
    method Need() returns (ok: bool, drained: bool)
      requires Valid() && position < size
      modifies `pipe, `cur, `chunkOff, `index, `starts
      ensures Running() && pipe.Some? && Served() == old(Served())
      ensures ok ==> Valid() && position < chunkOff + |cur.value| <= Max(size, Served())
      ensures ok ==> Min(chunkOff + |cur.value|, size) <= Served()
      ensures !ok ==> Served() <= position
    {
      drained := false;
      if cur.Some? && position != chunkOff + |cur.value| {
        HeldIsServed();
        return true, drained;
      }
      ok := Advance();
      if !ok { return; }
      OffsetNext(entries, pipe.value, index);
      if chunkOff + |cur.value| >= size {
        drained := true;
        ok := Drain();
      }
    }

    /** What is held was served. */
    lemma HeldIsServed()
      requires Valid() && pipe.Some?
      ensures Min(chunkOff + |cur.value|, size) <= Served() <= size && chunkOff + |cur.value| <= size
    {
      var p := pipe.value;
      OffsetNext(entries, p, index);
      LimitBounds(entries, p.start, p.stream);
      if !p.stream.clean { ReachBounds(OffsetOf(entries, p, p.at), p.stream.chunks[p.at..], size); }
    }

    /** Copies up to n bytes of the served chunk from position on. */
    method Copy(n: nat) returns (out: Bytes)
      requires Valid() && pipe.Some? && position < chunkOff + |cur.value|
      modifies `position
      ensures Valid() && position == old(position) + |out| <= size &&
        |out| == Min(n, chunkOff + |cur.value| - old(position))
      ensures content.Some? ==> out == content.value[old(position)..position]
    {
      var from := position - chunkOff;
      var copied := Min(n, |cur.value| - from);
      out := cur.value[from..from + copied];
      OffsetNext(entries, pipe.value, index);
      if content.Some? {
        ChunkOfFile(entries, pipe.value, content.value, index);
        PartOf(content.value, chunkOff, cur.value, from, copied);
      }
      position := position + copied;
    }

    method Fail()
      modifies `pipe, `cur, `failed
      ensures pipe.None? && cur.None? && failed
    {
      StopPipe();
      failed := true;
    }

    /** Reads some bytes of the chunk holding position, or fails for good. */
    method ReadChunk(n: nat) returns (out: Bytes, ok: bool, drained: bool)
      requires Valid() && !failed && n > 0 && position < size
      modifies `position, `pipe, `cur, `chunkOff, `index, `failed, `starts
      ensures Valid() && failed == !ok
      ensures ok ==> position == old(position) + |out| <= size && 0 < |out| <= n && pipe.Some?
      ensures ok ==> position <= Served() == old(Served())
      ensures ok && position == size ==> pipe.value.stream.clean
      ensures ok && content.Some? ==> out == content.value[old(position)..position]
      ensures !ok ==> out == [] && position == old(position) && old(Served()) <= position
    {
      out := [];
      ok, drained := Need();
      if !ok {
        Fail();
        return;
      }
      out := Copy(n);
    }

    /** The read loop of a live file with something left to read. */
    method ReadSome(n: nat) returns (out: Bytes, r: Outcome)
      requires Valid() && !closed && !failed && n > 0 && position < size
      modifies `position, `pipe, `cur, `chunkOff, `index, `failed, `starts
      ensures Valid() && (r.Done? || r.Failed?) && position == old(position) + |out| <= size && |out| <= n
      ensures position == Max(old(position), Min(old(position) + n, old(Served())))
      ensures failed <==> position < Min(old(position) + n, size)
      ensures r.Failed? ==> failed
      ensures r.Done? && failed ==> out != []
      ensures |out| > 0 && position == size ==> pipe.Some? && pipe.value.stream.clean
      ensures content.Some? ==> out == content.value[old(position)..position]
    {
      out, r := [], Done;
      ghost var limit := Served();
      while |out| < n && position < size
        invariant Valid() && !failed && position == old(position) + |out| <= size && |out| <= n
        invariant Served() == limit && (|out| > 0 ==> position <= limit)
        invariant |out| > 0 && position == size ==> pipe.Some? && pipe.value.stream.clean
        invariant content.Some? ==> out == content.value[old(position)..position]
        decreases size - position
      {
        ghost var at := position;
        var data, ok, drained := ReadChunk(n - |out|);
        if !ok {
          r := if drained && |out| > 0 then Done else Failed;
          return;
        }
        if content.Some? { Join(content.value, old(position), at, position); }
        out := out + data;
      }
      ServedBounded();
    }

    lemma ServedBounded()
      requires Valid()
      ensures Served() <= size
    {
      if pipe.Some? {
        LimitBounds(entries, pipe.value.start, pipe.value.stream);
      } else {
        var t := TermHolding(entries, position);
        LimitBounds(entries, t, runs(starts, t));
      }
    }

    /** Reads up to n bytes at position. How much is returned is exact: as much as was asked for and the file has, as
        far as the pipeline serves that runs or is started for the call; it fails for good if and only if that is less
        than was asked for and the file has. Over a storage that holds the file, what is returned are its bytes
        there. */
    method Read(n: nat) returns (out: Bytes, r: Outcome)
      requires Valid()
      modifies `position, `pipe, `cur, `chunkOff, `index, `failed, `starts
      ensures Valid() && position == old(position) + |out| && |out| <= n
      ensures closed ==> r.Closed? && out == [] && failed == old(failed)
      ensures !closed && n == 0 ==> r.Done? && failed == old(failed)
      ensures !closed && n > 0 && old(failed) ==> r.Failed? && out == [] && failed
      ensures !closed && n > 0 && !old(failed) && old(position) >= size ==> r.EndOfFile? && out == [] && !failed
      ensures !closed && n > 0 && !old(failed) && old(position) < size ==>
        && position == Max(old(position), Min(old(position) + n, old(Served())))
        && (failed <==> position < Min(old(position) + n, size))
        && (r.Done? || r.Failed?) && (r.Failed? ==> failed) && (r.Done? && failed ==> out != [])
      ensures |out| > 0 ==> position <= size && (position == size ==> pipe.Some? && pipe.value.stream.clean)
      ensures content.Some? && |out| > 0 ==>
        position <= |content.value| && out == content.value[old(position)..position]
    {
      out := [];
      if closed { return out, Closed; }
      if n == 0 { return out, Done; }
      if failed { return out, Failed; }
      if position >= size { return out, EndOfFile; }
      out, r := ReadSome(n);
    }

    /** Moves position; a sticky error is cleared by moving away from the served chunk. */
    method Seek(offset: int, whence: Whence) returns (next: int, ok: bool)
      requires Valid()
      modifies `position, `pipe, `cur, `failed
      ensures Valid()
      ensures var target := match whence case SeekStart => offset case SeekCurrent =>
        old(position) + offset case SeekEnd => size + offset case Invalid => -1;
        ok == (!closed && target >= 0) && (if ok then next == position == target else position == old(position))
      ensures !old(failed) || position == old(position) ==> failed == old(failed)
      ensures old(cur.None?) && position != old(position) ==> !failed && pipe.None?
    {
      if closed { return 0, false; }
      match whence {
        case SeekStart => next := offset;
        case SeekCurrent => next := position + offset;
        case SeekEnd => next := size + offset;
        case Invalid => return 0, false;
      }
      if next < 0 { return 0, false; }
      ok := true;
      if next == position { return; }
      if cur.None? || next < chunkOff || next > chunkOff + |cur.value| {
        StopPipe();
        failed := false;
      }
      position := next;
    }

    method Close()
      requires Valid()
      modifies `closed, `pipe, `cur
      ensures Valid() && closed && pipe.None?
    {
      closed := true;
      StopPipe();
    }
  }

  lemma Join(F: Bytes, a: nat, b: nat, c: nat)
    requires a <= b <= c <= |F|
    ensures F[a..b] + F[b..c] == F[a..c]
  {
  }

  /** The first term with bytes, where reading a file begins. */
  function FirstTerm(cfg: P.Config): (t: nat)
    ensures t <= |cfg.terms|
  {
    TermHolding(SegmentBytes(cfg.terms), 0)
  }

  /** How much of a file is read at once if this comes of the pipeline started for it: all of it, unless the pipeline
      fails. */
  ghost function Readable(cfg: P.Config, st: Stream): nat { Limit(SegmentBytes(cfg.terms), FirstTerm(cfg), st) }

  /** What is read of the content through a pipeline. */
  ghost predicate ReadAs(cfg: P.Config, st: Stream, content: Bytes, out: Bytes, r: Outcome) {
    && Readable(cfg, st) <= |content| && out == content[..Readable(cfg, st)]
    && (st.clean ==> out == content && r.Done?)
    && (r.Failed? ==> !st.clean && |out| < |content|)
  }

  /** Opens a file that the storage holds and reads all of it at once. */
  method ReadAll(cfg: P.Config, runs: (nat, nat) -> Stream, ghost content: Bytes) returns (out: Bytes, r: Outcome)
    requires Workable(cfg) && Possible(cfg, runs) && Stores(cfg, content)
    ensures ReadAs(cfg, runs(0, FirstTerm(cfg)), content, out, r)
    ensures Readable(cfg, runs(0, FirstTerm(cfg))) == |out| <= |content| && out == content[..|out|]
    ensures ServesTo(0, runs(0, FirstTerm(cfg)), |content|, |out|)
  {
    var f := new File(cfg, runs, Some(content));
    f.ServedBounded();
    out, r := f.Read(f.size);
    HoldingIs(SegmentBytes(cfg.terms), 0);
    LimitIs(SegmentBytes(cfg.terms), FirstTerm(cfg), runs(0, FirstTerm(cfg)));
  }
}
