/** The reader that executes a response: one deduplicated download per byte range, chunks taken on demand. */
module Reader {
  import opened Common
  import opened Planning
  import opened Reading
  import opened XorbStream
  import X = XorbFormat

  datatype Key = Key(xorb: Name, from: int, to: int)

  function KeyOf(s: Selected): Key { Key(s.xorb, s.from, s.to) }

  ghost predicate InContent(s: Selected, c: Content) { s.xorb in c && s.start <= s.end <= |c[s.xorb]| }

  /** The download under the selection's key holds exactly the selection's chunks. */
  ghost predicate Downloaded(caches: map<Key, seq<Bytes>>, s: Selected, c: Content) {
    InContent(s, c) && KeyOf(s) in caches && caches[KeyOf(s)] == c[s.xorb][s.start..s.end]
  }

  /** Two selections of one byte range share its download. */
  lemma SharedDownload(r: Response, offsets: Offsets, url: Name -> string, caches: map<Key, seq<Bytes>>, a: Selected,
                       b: Selected, c: Content)
    requires Planned(r, offsets, url) && TablesOk(offsets) && FromPlan(r.fetch, a) && FromPlan(r.fetch, b) &&
      KeyOf(a) == KeyOf(b)
    requires Downloaded(caches, a, c) && InContent(b, c)
    ensures Downloaded(caches, b, c)
  {
    SameKeySameChunks(r, offsets, url, a, b);
  }

  /** Every selection taken from the response's own fetch entries and inside the content. */
  ghost predicate Takeable(r: Response, plan: seq<Selected>, c: Content) {
    forall i {:trigger plan[i]} :: 0 <= i < |plan| ==> FromPlan(r.fetch, plan[i]) && InContent(plan[i], c)
  }

  /** The first i selections are downloaded; first says which of them asked for each byte range. */
  ghost predicate Fetched(caches: map<Key, seq<Bytes>>, first: map<Key, nat>, plan: seq<Selected>, c: Content, i: nat) {
    && i <= |plan| && first.Keys == caches.Keys
    && (forall j {:trigger plan[j]} :: 0 <= j < i ==> Downloaded(caches, plan[j], c))
    && (forall k {:trigger k in first} :: k in first ==> first[k] < i && KeyOf(plan[first[k]]) == k)
  }

  lemma FetchedAgain(r: Response, offsets: Offsets, url: Name -> string, caches: map<Key, seq<Bytes>>, first: map<Key,
                     nat>, plan: seq<Selected>, c: Content, i: nat)
    requires Planned(r, offsets, url) && TablesOk(offsets) && Takeable(r, plan, c)
    requires i < |plan| && Fetched(caches, first, plan, c, i) && KeyOf(plan[i]) in caches
    ensures Fetched(caches, first, plan, c, i + 1)
  {
    SharedDownload(r, offsets, url, caches, plan[first[KeyOf(plan[i])]], plan[i], c);
  }

  lemma FetchedAnew(caches: map<Key, seq<Bytes>>, first: map<Key, nat>, plan: seq<Selected>, c: Content, i: nat)
    requires i < |plan| && Fetched(caches, first, plan, c, i) && KeyOf(plan[i]) !in caches && InContent(plan[i], c)
    ensures var s := plan[i];
      Fetched(caches[KeyOf(s) := c[s.xorb][s.start..s.end]], first[KeyOf(s) := i], plan, c, i + 1)
  {
    var s := plan[i];
    var after := caches[KeyOf(s) := c[s.xorb][s.start..s.end]];
    forall j | 0 <= j < i ensures Downloaded(after, plan[j], c) { assert Downloaded(caches, plan[j], c); }
  }

  // ---------------------------------------------------------------- downloads

  /** The stored stream of every xorb. */
  type Streams = map<Name, Bytes>

  /** Bytes from to to, inclusive, as far as there are any. */
  function Part(data: Bytes, from: int, to: int): Bytes {
    if 0 <= from <= to then data[Min(from, |data|)..Min(to + 1, |data|)] else []
  }

  /** What a download gives: its bytes, decoded, if they make as many chunks as expected. */
  function Gets(codec: X.Codec, data: Bytes, s: Selected): Option<seq<Bytes>> {
    var chunks := Chunks(codec, Part(data, s.from, s.to), BUFFER_SIZE);
    if chunks.Some? && |chunks.value| == s.end - s.start then chunks else None
  }

  method Download(codec: X.Codec, data: Bytes, s: Selected) returns (r: Option<seq<Bytes>>)
    ensures r == Gets(codec, data, s)
  {
    r := DecodeBytes(codec, Part(data, s.from, s.to), BUFFER_SIZE);
    if r.Some? && |r.value| != s.end - s.start { return None; }
  }

  /** The streams hold the content, and the tables are theirs and true. */
  ghost predicate Holds(codec: X.Codec, data: Bytes, chunks: seq<Bytes>, offs: seq<nat>) {
    Decoded(codec, data) == Some(chunks) && Table(data) == Some(offs) && TrueTable(data)
  }

  ghost predicate World(codec: X.Codec, streams: Streams, offsets: Offsets, c: Content) {
    && streams.Keys == offsets.Keys == c.Keys
    && forall x {:trigger Holds(codec, streams[x], c[x], offsets[x])} :: x in c ==>
      Holds(codec, streams[x], c[x], offsets[x])
  }

  /** The bytes of a chunk range, by the table, decode to its chunks. */
  lemma RightDownload(codec: X.Codec, data: Bytes, chunks: seq<Bytes>, offs: seq<nat>, s: Selected)
    requires Holds(codec, data, chunks, offs) && DataRange(offs, s.start, s.end) == Some((s.from, s.to))
    ensures s.end <= |chunks| && Gets(codec, data, s) == Some(chunks[s.start..s.end])
  {
    var fs, tail := DecodedStream(codec, data);
    TableIsTrue(codec, data, fs, chunks, tail);
    DownloadByEnds(codec, data, fs, chunks, tail, s);
  }

  lemma DownloadByEnds(codec: X.Codec, data: Bytes, fs: seq<Bytes>, chunks: seq<Bytes>, tail: Bytes, s: Selected)
    requires Framed(codec, fs, chunks, BUFFER_SIZE) && X.Accepted(chunks) && data == Flatten(fs) + tail
    requires DataRange(X.Ends(fs), s.start, s.end) == Some((s.from, s.to))
    ensures s.end <= |chunks| && Gets(codec, data, s) == Some(chunks[s.start..s.end])
  {
    TrueRange(codec, data, fs, chunks, tail, BUFFER_SIZE, s.start, s.end);
    assert Part(data, s.from, s.to) == Flatten(fs[s.start..s.end]);
    RangeDecodes(codec, fs, chunks, s.start, s.end);
  }

  lemma RangeDecodes(codec: X.Codec, fs: seq<Bytes>, chunks: seq<Bytes>, from: nat, to: nat)
    requires Framed(codec, fs, chunks, BUFFER_SIZE) && X.Accepted(chunks) && from < to <= |fs|
    ensures Chunks(codec, Flatten(fs[from..to]), BUFFER_SIZE) == Some(chunks[from..to])
  {
    FramedPart(codec, fs, chunks, BUFFER_SIZE, from, to);
    ReadStream(codec, fs[from..to], chunks[from..to], [], BUFFER_SIZE);
    assert Flatten(fs[from..to]) + [] == Flatten(fs[from..to]);
  }

  lemma TrueTablesAscend(codec: X.Codec, data: Bytes, chunks: seq<Bytes>, offs: seq<nat>)
    requires Holds(codec, data, chunks, offs)
    ensures |offs| == |chunks| <= MAX_CHUNKS && Ascending(offs)
  {
    var fs, tail := DecodedStream(codec, data);
    TableIsTrue(codec, data, fs, chunks, tail);
    EndsOrdered(codec, data, fs, chunks, tail, BUFFER_SIZE);
    forall i | 0 <= i < |offs| ensures offs[i] > 0 { assert OrderedAt(offs, data, 0, i + 1); }
    forall i, j | 0 <= i < j < |offs| ensures offs[i] < offs[j] { assert OrderedAt(offs, data, i + 1, j + 1); }
  }

  lemma WorldTables(codec: X.Codec, streams: Streams, offsets: Offsets, c: Content)
    requires World(codec, streams, offsets, c)
    ensures TablesOk(offsets) && forall x {:trigger TableFor(offsets, c, x)} :: x in c ==> TableFor(offsets, c, x)
  {
    forall x | x in offsets ensures x in c && TableFor(offsets, c, x) && Ascending(offsets[x]) &&
      |offsets[x]| <= MAX_CHUNKS {
      assert x in c.Keys;
      assert Holds(codec, streams[x], c[x], offsets[x]);
      TrueTablesAscend(codec, streams[x], c[x], offsets[x]);
    }
    forall x | x in c ensures TableFor(offsets, c, x) { assert x in offsets.Keys; }
  }

  lemma SelectedDownload(codec: X.Codec, streams: Streams, offsets: Offsets, c: Content, r: Response,
                         url: Name -> string, s: Selected)
    requires World(codec, streams, offsets, c) && Planned(r, offsets, url) && FromPlan(r.fetch, s) && InContent(s, c)
    ensures Gets(codec, streams[s.xorb], s) == Some(c[s.xorb][s.start..s.end])
  {
    var e :| e in r.fetch[s.xorb] && e.from == s.from && e.to == s.to && e.start == s.start && e.end == s.end;
    assert EntryRight(offsets, url, s.xorb, e);
    assert Holds(codec, streams[s.xorb], c[s.xorb], offsets[s.xorb]);
    RightDownload(codec, streams[s.xorb], c[s.xorb], offsets[s.xorb], s);
  }

  /** Downloads the bytes of each range once, whichever selection names it first, and decodes them. */
  method Prefetch(codec: X.Codec, streams: Streams, r: Response, plan: seq<Selected>, ghost offsets: Offsets,
                  ghost c: Content,
                  ghost url: Name -> string)
    returns (caches: Option<map<Key, seq<Bytes>>>)
    requires World(codec, streams, offsets, c) && Planned(r, offsets, url) && Takeable(r, plan, c)
    ensures caches.Some? && forall i {:trigger plan[i]} :: 0 <= i < |plan| ==> Downloaded(caches.value, plan[i], c)
  {
    WorldTables(codec, streams, offsets, c);
    var sofar: map<Key, seq<Bytes>> := map[];
    ghost var first: map<Key, nat> := map[];
    for i := 0 to |plan|
      invariant Fetched(sofar, first, plan, c, i)
    {
      var s := plan[i];
      if KeyOf(s) in sofar {
        FetchedAgain(r, offsets, url, sofar, first, plan, c, i);
      } else {
        SelectedDownload(codec, streams, offsets, c, r, url, s);
        var chunks := Download(codec, streams[s.xorb], s);
        if chunks.None? { return None; }
        FetchedAnew(sofar, first, plan, c, i);
        sofar := sofar[KeyOf(s) := chunks.value];
        first := first[KeyOf(s) := i];
      }
    }
    caches := Some(sofar);
  }

  lemma DropAcross(a: Bytes, b: Bytes, n: int)
    ensures Drop(a + b, n) == if 0 < n < |a| then a[n..] + b else if n <= 0 then a + b else Drop(b, n - |a|)
  {}

  /** Where a reader stands: the term, whether it is loaded, the chunk of its download, the bytes still to skip. */
  datatype Cursor = Cursor(term: nat, loaded: bool, chunk: nat, skip: int)

  ghost predicate Ready(terms: seq<Term>, plan: seq<Selected>, caches: map<Key, seq<Bytes>>, c: Content, i: nat)
    requires i < |terms| == |plan|
  {
    Faithful(terms[i], c) && FitsIn(terms[i], plan[i]) && Downloaded(caches, plan[i], c)
  }

  ghost predicate AllReady(terms: seq<Term>, plan: seq<Selected>, caches: map<Key, seq<Bytes>>, c: Content) {
    && |plan| == |terms| && AllFaithful(terms, c)
    && forall i {:trigger Ready(terms, plan, caches, c, i)} :: 0 <= i < |terms| ==> Ready(terms, plan, caches, c, i)
  }

  ghost predicate Positioned(terms: seq<Term>, plan: seq<Selected>, p: Cursor) {
    && p.term <= |terms| == |plan|
    && (p.loaded ==> p.term < |terms| && terms[p.term].start <= plan[p.term].start + p.chunk <= terms[p.term].end)
  }

  /** The current term's bytes not yet taken, before skipping. */
  ghost function Pending(terms: seq<Term>, plan: seq<Selected>, c: Content, p: Cursor): Bytes
    requires AllFaithful(terms, c) && Positioned(terms, plan, p) && p.term < |terms|
  {
    var t := terms[p.term];
    assert Faithful(t, c);
    if p.loaded then Flatten(c[t.xorb][plan[p.term].start + p.chunk..t.end]) else TermBytes(t, c)
  }

  /** What is still to be taken; bytes are skipped only in term 0. */
  ghost function Untaken(terms: seq<Term>, plan: seq<Selected>, c: Content, p: Cursor): Bytes
    requires AllFaithful(terms, c) && Positioned(terms, plan, p)
  {
    if p.term == |terms| then []
    else Skipped(p, Pending(terms, plan, c, p)) + BytesOf(terms[p.term + 1..], c)
  }

  lemma LoadKeeps(terms: seq<Term>, plan: seq<Selected>, caches: map<Key, seq<Bytes>>, c: Content, p: Cursor)
    requires AllReady(terms, plan, caches, c) && Positioned(terms, plan, p) && p.term < |terms| && !p.loaded
    ensures Ready(terms, plan, caches, c, p.term)
    ensures var q := p.(loaded := true, chunk := terms[p.term].start - plan[p.term].start);
      Positioned(terms, plan, q) && Untaken(terms, plan, c, q) == Untaken(terms, plan, c, p)
  {
    assert Ready(terms, plan, caches, c, p.term);
    LoadedUntaken(terms, plan, caches, c, p);
  }

  lemma LoadedUntaken(terms: seq<Term>, plan: seq<Selected>, caches: map<Key, seq<Bytes>>, c: Content, p: Cursor)
    requires AllFaithful(terms, c) && |plan| == |terms| && Positioned(terms, plan, p) && p.term < |terms| && !p.loaded
    requires Ready(terms, plan, caches, c, p.term)
    ensures var q := p.(loaded := true, chunk := terms[p.term].start - plan[p.term].start);
      Positioned(terms, plan, q) && Untaken(terms, plan, c, q) == Untaken(terms, plan, c, p)
  {
    var t := terms[p.term];
    var q := p.(loaded := true, chunk := t.start - plan[p.term].start);
    assert plan[p.term].start + q.chunk == t.start;
    assert Pending(terms, plan, c, q) == Pending(terms, plan, c, p);
  }

  lemma FinishKeeps(terms: seq<Term>, plan: seq<Selected>, caches: map<Key, seq<Bytes>>, c: Content, p: Cursor)
    requires AllReady(terms, plan, caches, c) && Positioned(terms, plan, p) && p.loaded &&
      plan[p.term].start + p.chunk >= terms[p.term].end
    ensures var q := p.(loaded := false, term := p.term + 1);
      Positioned(terms, plan, q) && Untaken(terms, plan, c, q) == Untaken(terms, plan, c, p)
  {
    assert Ready(terms, plan, caches, c, p.term);
    assert Pending(terms, plan, c, p) == [];
    var rest := terms[p.term + 1..];
    if rest != [] { assert rest[1..] == terms[p.term + 2..]; }
  }

  /** How much of the next chunk is skipped. */
  function SkipOf(p: Cursor, data: Bytes): nat { if p.term == 0 && p.skip > 0 then Min(p.skip, |data|) else 0 }

  function After(p: Cursor, data: Bytes): Cursor { p.(chunk := p.chunk + 1, skip := p.skip - SkipOf(p, data)) }

  function Skipped(p: Cursor, bytes: Bytes): Bytes { if p.term == 0 then Drop(bytes, p.skip) else bytes }

  lemma SkipOne(p: Cursor, data: Bytes, rest: Bytes, tail: Bytes)
    ensures Skipped(p, data + rest) + tail == data[SkipOf(p, data)..] + (Skipped(After(p, data), rest) + tail)
  {
    DropAcross(data, rest, p.skip);
    assert data[0..] == data;
  }

  lemma TakeKeeps(terms: seq<Term>, plan: seq<Selected>, caches: map<Key, seq<Bytes>>, c: Content, p: Cursor,
                  data: Bytes)
    requires AllReady(terms, plan, caches, c) && Positioned(terms, plan, p) && p.loaded &&
      plan[p.term].start + p.chunk < terms[p.term].end
    requires Ready(terms, plan, caches, c, p.term) && data == caches[KeyOf(plan[p.term])][p.chunk]
    ensures Positioned(terms, plan, After(p, data))
    ensures Untaken(terms, plan, c, p) == data[SkipOf(p, data)..] + Untaken(terms, plan, c, After(p, data))
  {
    PendingStep(terms, plan, caches, c, p);
    SamePending(terms, plan, c, p.(chunk := p.chunk + 1), After(p, data));
    SkipUntaken(terms, plan, c, p, data);
  }

  lemma SkipUntaken(terms: seq<Term>, plan: seq<Selected>, c: Content, p: Cursor, data: Bytes)
    requires AllFaithful(terms, c) && Positioned(terms, plan, p) && Positioned(terms, plan, After(p, data)) &&
      p.term < |terms|
    requires Pending(terms, plan, c, p) == data + Pending(terms, plan, c, After(p, data))
    ensures Untaken(terms, plan, c, p) == data[SkipOf(p, data)..] + Untaken(terms, plan, c, After(p, data))
  {
    SkipOne(p, data, Pending(terms, plan, c, After(p, data)), BytesOf(terms[p.term + 1..], c));
  }

  /** What is pending does not depend on what is to be skipped. */
  lemma SamePending(terms: seq<Term>, plan: seq<Selected>, c: Content, p: Cursor, q: Cursor)
    requires AllFaithful(terms, c) && Positioned(terms, plan, p) && p.term < |terms| && q == p.(skip := q.skip)
    ensures Positioned(terms, plan, q) && Pending(terms, plan, c, q) == Pending(terms, plan, c, p)
  {
  }

  lemma PendingStep(terms: seq<Term>, plan: seq<Selected>, caches: map<Key, seq<Bytes>>, c: Content, p: Cursor)
    requires AllReady(terms, plan, caches, c) && Positioned(terms, plan, p) && p.loaded &&
      plan[p.term].start + p.chunk < terms[p.term].end
    requires Ready(terms, plan, caches, c, p.term)
    ensures Pending(terms, plan, c, p) == caches[KeyOf(plan[p.term])][p.chunk]
      + Pending(terms, plan, c, p.(chunk := p.chunk + 1))
  {
    var t, s := terms[p.term], plan[p.term];
    assert c[t.xorb][s.start + p.chunk..t.end][1..] == c[t.xorb][s.start + p.chunk + 1..t.end];
  }

  lemma NothingTaken(terms: seq<Term>, plan: seq<Selected>, c: Content, offset: int)
    requires AllFaithful(terms, c) && |plan| == |terms|
    ensures Untaken(terms, plan, c, Cursor(0, false, 0, offset)) == Emission(terms, c, offset)
    ensures [] + Emission(terms, c, offset) == Emission(terms, c, offset)
  {
  }

  class ChunkReader {
    const terms: seq<Term>
    const plan: seq<Selected>
    const caches: map<Key, seq<Bytes>>
    ghost const c: Content
    var at: Cursor
    var localEnd: nat
    var chunk: Bytes
    ghost var rest: Bytes

    /** chunk is at hand and rest is still to be taken. */
    ghost predicate Valid()
      reads `at, `localEnd, `rest
    {
      && AllReady(terms, plan, caches, c) && Positioned(terms, plan, at)
      && (at.loaded ==> plan[at.term].start + localEnd == terms[at.term].end)
      && rest == Untaken(terms, plan, c, at)
    }

    constructor (terms: seq<Term>, offset: int, plan: seq<Selected>, caches: map<Key, seq<Bytes>>, ghost c: Content)
      requires AllReady(terms, plan, caches, c)
      ensures Valid() && chunk + rest == Emission(terms, c, offset)
    {
      this.terms, this.plan, this.caches, this.c := terms, plan, caches, c;
      at, localEnd, chunk := Cursor(0, false, 0, offset), 0, [];
      rest := Emission(terms, c, offset);
      new;
      NothingTaken(terms, plan, c, offset);
    }

    /** Local indices: the term's place within its download. */
    method LoadTerm()
      requires Valid() && at.term < |terms| && !at.loaded
      modifies `at, `localEnd
      ensures Valid() && at.loaded && at.term == old(at.term)
    {
      LoadKeeps(terms, plan, caches, c, at);
      localEnd := terms[at.term].end - plan[at.term].start;
      at := at.(loaded := true, chunk := terms[at.term].start - plan[at.term].start);
    }

    method FinishTerm()
      requires Valid() && at.loaded && at.chunk >= localEnd
      modifies `at
      ensures Valid() && !at.loaded && at.term == old(at.term) + 1
    {
      FinishKeeps(terms, plan, caches, c, at);
      at := at.(loaded := false, term := at.term + 1);
    }

    /** Takes the next chunk of the current term; the skip may span several leading chunks of term 0. */
    method TakeChunk()
      requires Valid() && at.loaded && at.chunk < localEnd && chunk == []
      modifies `at, `chunk, `rest
      ensures Valid() && old(rest) == chunk + rest
      ensures at.loaded && at.term == old(at.term) && at.chunk == old(at.chunk) + 1
    {
      assert Ready(terms, plan, caches, c, at.term);
      var data := caches[KeyOf(plan[at.term])][at.chunk];
      TakeKeeps(terms, plan, caches, c, at, data);
      chunk := data[SkipOf(at, data)..];
      at := After(at, data);
      rest := Untaken(terms, plan, c, at);
    }

    /** Makes a non-empty chunk available unless everything was delivered. */
    method Fill() returns (eof: bool)
      requires Valid()
      modifies `at, `localEnd, `chunk, `rest
      ensures Valid() && chunk + rest == old(chunk + rest)
      ensures eof ==> chunk + rest == []
      ensures !eof ==> chunk != []
    {
      while chunk == []
        invariant Valid() && chunk + rest == old(chunk + rest)
        decreases |terms| - at.term, !at.loaded, localEnd - at.chunk
      {
        if at.term >= |terms| { return true; }
        if !at.loaded {
          LoadTerm();
        } else if at.chunk >= localEnd {
          FinishTerm();
        } else {
          TakeChunk();
        }
      }
      return false;
    }

    /** Fills a buffer of n bytes; end of file only when fewer than n bytes were left. */
    method Read(n: nat) returns (out: Bytes, eof: bool)
      requires Valid()
      modifies `at, `localEnd, `chunk, `rest
      ensures Valid() && old(chunk + rest) == out + (chunk + rest)
      ensures |out| == Min(n, |old(chunk + rest)|)
      ensures eof <==> |old(chunk + rest)| < n
    {
      out := [];
      while |out| < n
        invariant Valid() && |out| <= n && old(chunk + rest) == out + (chunk + rest)
      {
        eof := Fill();
        if eof { return; }
        var copied := Min(n - |out|, |chunk|);
        Regroup(out, chunk, rest, copied);
        out, chunk := out + chunk[..copied], chunk[copied..];
      }
      eof := false;
    }

    /** Writes everything left, a chunk at a time. */
    method WriteTo() returns (out: Bytes)
      requires Valid()
      modifies `at, `localEnd, `chunk, `rest
      ensures Valid() && out == old(chunk + rest) && chunk + rest == []
    {
      out := [];
      while true
        invariant Valid() && old(chunk + rest) == out + (chunk + rest)
        decreases |chunk + rest|
      {
        var eof := Fill();
        if eof { return; }
        Regroup(out, chunk, rest, |chunk|);
        out, chunk := out + chunk[..|chunk|], chunk[|chunk|..];
      }
    }
  }

  lemma Regroup(out: Bytes, chunk: Bytes, rest: Bytes, k: nat)
    requires k <= |chunk|
    ensures out + (chunk + rest) == (out + chunk[..k]) + (chunk[k..] + rest)
  {
    assert chunk == chunk[..k] + chunk[k..];
  }

  /** The shard lists the chunk sizes of every xorb the segments name. */
  ghost predicate AllListed(cas: seq<ChunkSizes>, segs: seq<Term>) {
    forall i :: 0 <= i < |segs| ==> IsListed(cas, segs[i].xorb)
  }

  ghost predicate IsListed(cas: seq<ChunkSizes>, x: Name) { exists k :: 0 <= k < |cas| && cas[k].xorb == x }

  /** The bytes up to upTo end with a chunk that starts no later than byte last. */
  ghost predicate EndsIn(F: Bytes, upTo: int, last: int, c: Content, x: Name, j: nat) {
    && x in c && j < |c[x]| && |c[x][j]| <= upTo <= |F|
    && F[upTo - |c[x][j]|..upTo] == c[x][j] && upTo - |c[x][j]| <= last
  }

  lemma ListedAgree(cas: seq<ChunkSizes>, segs: seq<Term>, c: Content)
    requires AllListed(cas, segs) && AllFaithful(segs, c) && Truthful(cas, c)
    ensures AllAgree(cas, segs)
  {
    forall i | 0 <= i < |segs| ensures Agrees(cas, segs[i]) {
      assert Faithful(segs[i], c);
      OneAgrees(cas, segs[i], c);
    }
  }

  lemma OneAgrees(cas: seq<ChunkSizes>, seg: Term, c: Content)
    requires IsListed(cas, seg.xorb) && Faithful(seg, c) && Truthful(cas, c)
    ensures Agrees(cas, seg)
  {
    var k := FirstOf(cas, seg.xorb);
    assert cas[k].sizes == Lengths(c[seg.xorb]);
    assert Lengths(TermChunks(seg, c)) == cas[k].sizes[seg.start..seg.end];
    FlattenLength(TermChunks(seg, c));
    assert AgreesAt(cas, seg, k);
  }

  lemma FirstOf(cas: seq<ChunkSizes>, x: Name) returns (k: nat)
    requires IsListed(cas, x)
    ensures IsFirstBlock(cas, x, k)
  {
    k := 0;
    while cas[k].xorb != x
      invariant k < |cas| && forall j :: 0 <= j < k ==> cas[j].xorb != x
      decreases |cas| - k
    {
      k := k + 1;
    }
  }

  ghost predicate EndsWith(a: Bytes, b: Bytes) { |b| <= |a| && a[|a| - |b|..] == b }

  lemma EndsWithLast(a: Bytes, x: Bytes, y: Bytes)
    requires EndsWith(x, y)
    ensures EndsWith(a + x, y)
  {
  }

  lemma TermEnds(t: Term, c: Content)
    requires InBounds(t, c)
    ensures EndsWith(TermBytes(t, c), c[t.xorb][t.end - 1])
  {
    var init, last := c[t.xorb][t.start..t.end - 1], c[t.xorb][t.end - 1];
    assert TermChunks(t, c) == init + [last];
    FlattenSnoc(init, last);
    EndsWithLast(Flatten(init), last, last);
  }

  lemma {:induction false} LastChunk(ts: seq<Term>, c: Content)
    requires AllFaithful(ts, c) && ts != []
    ensures Faithful(ts[|ts| - 1], c)
    ensures var t := ts[|ts| - 1]; EndsWith(BytesOf(ts, c), c[t.xorb][t.end - 1])
  {
    assert Faithful(ts[0], c);
    if |ts| == 1 {
      TermEnds(ts[0], c);
      assert BytesOf(ts, c) == TermBytes(ts[0], c) + [] == TermBytes(ts[0], c);
    } else {
      LastChunk(ts[1..], c);
      var t := ts[|ts| - 1];
      EndsWithLast(TermBytes(ts[0], c), BytesOf(ts[1..], c), c[t.xorb][t.end - 1]);
    }
  }

  lemma EndsWithChunk(ts: seq<Term>, c: Content, F: Bytes, rng: ByteRange, offset: int, upTo: int)
    requires Denotes(ts, c, F, rng, offset, upTo) && Tight(ts, c, rng, offset, upTo) && upTo > rng.end
    ensures upTo == rng.end + 1 || exists x, j :: EndsIn(F, upTo, rng.end, c, x, j)
  {
    var t := ts[|ts| - 1];
    LastChunk(ts, c);
    var last, all := c[t.xorb][t.end - 1], F[rng.start - offset..upTo];
    assert all[|all| - |last|..] == F[upTo - |last|..upTo];
    if upTo != rng.end + 1 { assert EndsIn(F, upTo, rng.end, c, t.xorb, t.end - 1); }
  }

  /** The whole path: build a response for a range of a file, plan it, download the bytes it names from the stored
      streams, decode them and read on. What comes out are the file's bytes from the start of the range to the end of
      the last chunk the range touches. */
  method ReadRange(codec: X.Codec, streams: Streams, cas: seq<ChunkSizes>, segs: seq<Term>, rng: ByteRange,
                   offsets: Offsets,
                   url: Name -> string, ghost c: Content)
    returns (out: Bytes, announced: int, ghost upTo: int)
    requires World(codec, streams, offsets, c) && AllFaithful(segs, c) && Truthful(cas, c) &&
      |BytesOf(segs, c)| <= MAX_INT64
    requires 0 <= rng.start <= rng.end < |BytesOf(segs, c)|
    ensures rng.end < upTo <= |BytesOf(segs, c)| && out == BytesOf(segs, c)[rng.start..upTo]
    ensures announced == |out|
    ensures AllListed(cas, segs) ==> upTo == rng.end + 1 || exists x, j ::
      EndsIn(BytesOf(segs, c), upTo, rng.end, c, x, j)
  {
    WorldTables(codec, streams, offsets, c);
    forall i | 0 <= i < |segs| ensures Fetchable(offsets, segs[i]) {
      assert Faithful(segs[i], c);
      Stored(segs, cas, offsets, c, segs[i]);
    }
    var r;
    r, upTo := BuildResponse(cas, segs, rng, offsets, url, c);
    var response := r.value;
    BuiltResponseEmits(response.terms, c, BytesOf(segs, c), rng, response.offset, upTo);
    announced := ComputeExpectedLength(response.terms, response.offset);
    AnnouncedRight(response.terms, c, BytesOf(segs, c), rng, response.offset, upTo);
    if AllListed(cas, segs) {
      ListedAgree(cas, segs, c);
      EndsWithChunk(response.terms, c, BytesOf(segs, c), rng, response.offset, upTo);
    }
    out := Execute(codec, streams, response, offsets, url, c);
  }

  /** Plans a response, downloads what it names and reads it to its end. */
  method Execute(codec: X.Codec, streams: Streams, response: Response, ghost offsets: Offsets,
                 ghost url: Name -> string, ghost c: Content)
    returns (out: Bytes)
    requires World(codec, streams, offsets, c) && Planned(response, offsets, url) && AllFaithful(response.terms, c)
    ensures out == Emission(response.terms, c, response.offset)
  {
    WorldTables(codec, streams, offsets, c);
    var plan := MakePlan(response, offsets, url, c);
    var caches := Prefetch(codec, streams, response, plan, offsets, c, url);
    AllSet(response.terms, plan, caches.value, c);
    var reader := new ChunkReader(response.terms, response.offset, plan, caches.value, c);
    out := reader.WriteTo();
  }

  lemma AllSet(terms: seq<Term>, plan: seq<Selected>, caches: map<Key, seq<Bytes>>, c: Content)
    requires AllFaithful(terms, c) && |plan| == |terms|
    requires forall i :: 0 <= i < |plan| ==> FitsIn(terms[i], plan[i])
    requires forall i :: 0 <= i < |plan| ==> Downloaded(caches, plan[i], c)
    ensures AllReady(terms, plan, caches, c)
  {
    forall i | 0 <= i < |terms| ensures Ready(terms, plan, caches, c, i) {
      assert Faithful(terms[i], c);
    }
  }

  lemma AnnouncedRight(ts: seq<Term>, c: Content, F: Bytes, rng: ByteRange, offset: int, upTo: int)
    requires Denotes(ts, c, F, rng, offset, upTo) && |F| <= MAX_INT64
    ensures ExpectedLength(ts, offset) == |Emission(ts, c, offset)|
  {
    TotalLengthIsBytes(ts, c);
    ExpectedLengthIsExact(ts, c, offset);
  }

  /** Planning a built response succeeds, within the stored xorbs. */
  method MakePlan(r: Response, ghost offsets: Offsets, ghost url: Name -> string, ghost c: Content)
    returns (plan: seq<Selected>)
    requires Planned(r, offsets, url) && TablesOk(offsets) && AllFaithful(r.terms, c)
    requires forall x {:trigger TableFor(offsets, c, x)} :: x in c ==> TableFor(offsets, c, x)
    ensures |plan| == |r.terms|
    ensures forall i :: 0 <= i < |plan| ==>
      FitsIn(r.terms[i], plan[i]) && FromPlan(r.fetch, plan[i]) && InContent(plan[i], c)
  {
    forall i | 0 <= i < |r.terms| ensures Plannable(r.fetch, r.terms[i]) {
      assert Faithful(r.terms[i], c);
      PlannedIsPlannable(r, offsets, url, i);
    }
    var p := PlanReader(r);
    plan := p.value;
    forall i | 0 <= i < |plan| ensures InContent(plan[i], c) {
      assert FitsIn(r.terms[i], plan[i]) && FromPlan(r.fetch, plan[i]) && Faithful(r.terms[i], c);
      PlanInContent(r, offsets, url, plan[i], c);
    }
  }

  lemma PlanInContent(r: Response, offsets: Offsets, url: Name -> string, s: Selected, c: Content)
    requires Planned(r, offsets, url) && FromPlan(r.fetch, s) && s.xorb in c && TableFor(offsets, c, s.xorb)
    ensures InContent(s, c)
  {
    var e :| e in r.fetch[s.xorb] && e.from == s.from && e.to == s.to && e.start == s.start && e.end == s.end;
    assert EntryRight(offsets, url, s.xorb, e);
  }
}
