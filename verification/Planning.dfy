/** Reconstruction planning: a file and a byte range compile to terms, an offset and a fetch plan. */
module Planning {
  import opened Common

  type Name = string

  /** Chunks [start, end) of a xorb, holding length unpacked bytes: a file's data sequence entry, or a response term. */
  datatype Term = Term(xorb: Name, length: nat, start: nat, end: nat)

  /** A shard's list of the unpacked chunk sizes of one xorb. */
  datatype ChunkSizes = ChunkSizes(xorb: Name, sizes: seq<nat>)

  /** Bytes start to end, both inclusive. */
  datatype ByteRange = ByteRange(start: int, end: int)

  /** The chunk bytes of every stored xorb. */
  type Content = map<Name, seq<Bytes>>

  /** The cumulative packed chunk ends of every stored xorb. */
  type Offsets = map<Name, seq<nat>>

  // ---------------------------------------------------------------- what terms denote

  ghost predicate InBounds(t: Term, c: Content) { t.xorb in c && t.start < t.end <= |c[t.xorb]| }

  ghost function TermChunks(t: Term, c: Content): seq<Bytes>
    requires InBounds(t, c)
  {
    c[t.xorb][t.start..t.end]
  }

  ghost function TermBytes(t: Term, c: Content): Bytes
    requires InBounds(t, c)
  {
    Flatten(TermChunks(t, c))
  }

  /** The term names existing chunks and states their size. */
  ghost predicate Faithful(t: Term, c: Content) { InBounds(t, c) && t.length == |TermBytes(t, c)| }

  ghost predicate AllFaithful(ts: seq<Term>, c: Content) { forall i :: 0 <= i < |ts| ==> Faithful(ts[i], c) }

  /** The chunks a term list names, in order. */
  ghost function Refs(ts: seq<Term>): seq<(Name, nat)> {
    if ts == [] then [] else TermRefs(ts[0]) + Refs(ts[1..])
  }

  ghost function TermRefs(t: Term): (r: seq<(Name, nat)>)
    ensures |r| == (if t.start <= t.end then t.end - t.start else 0)
    ensures forall i :: 0 <= i < |r| ==> r[i] == (t.xorb, t.start + i)
  {
    seq(if t.start <= t.end then t.end - t.start else 0, i requires 0 <= i => (t.xorb, t.start + i))
  }

  /** The bytes a term list denotes. */
  ghost function BytesOf(ts: seq<Term>, c: Content): Bytes
    requires AllFaithful(ts, c)
  {
    if ts == [] then [] else TermBytes(ts[0], c) + BytesOf(ts[1..], c)
  }

  lemma {:induction false} BytesAppend(a: seq<Term>, b: seq<Term>, c: Content)
    requires AllFaithful(a, c) && AllFaithful(b, c)
    ensures AllFaithful(a + b, c) && BytesOf(a + b, c) == BytesOf(a, c) + BytesOf(b, c)
  {
    if a == [] {
      assert a + b == b;
    } else {
      assert (a + b)[1..] == a[1..] + b;
      BytesAppend(a[1..], b, c);
    }
  }

  lemma BytesOfOne(t: Term, c: Content)
    requires Faithful(t, c)
    ensures BytesOf([t], c) == TermBytes(t, c)
  {
    assert [t][1..] == [];
  }

  lemma {:induction false} RefsAppend(a: seq<Term>, b: seq<Term>)
    ensures Refs(a + b) == Refs(a) + Refs(b)
  {
    if a == [] {
      assert a + b == b;
    } else {
      assert (a + b)[1..] == a[1..] + b;
      RefsAppend(a[1..], b);
    }
  }

  // ---------------------------------------------------------------- trimming a segment

  ghost predicate IsFirstBlock(cas: seq<ChunkSizes>, x: Name, k: nat) {
    k < |cas| && cas[k].xorb == x && forall j :: 0 <= j < k ==> cas[j].xorb != x
  }

  /** The shard's first block of a xorb. */
  method FindBlock(cas: seq<ChunkSizes>, x: Name) returns (k: int)
    ensures k >= 0 ==> IsFirstBlock(cas, x, k)
    ensures k < 0 ==> forall j :: 0 <= j < |cas| ==> cas[j].xorb != x
  {
    for i := 0 to |cas|
      invariant forall j :: 0 <= j < i ==> cas[j].xorb != x
    {
      if cas[i].xorb == x { return i; }
    }
    return -1;
  }

  /** Every block lists the sizes its xorb really has. */
  ghost predicate Truthful(cas: seq<ChunkSizes>, c: Content) {
    forall b {:trigger cas[b]} :: 0 <= b < |cas| ==> cas[b].xorb in c && cas[b].sizes == Lengths(c[cas[b].xorb])
  }

  /** The sizes of chunks [lo, hi). */
  function Span(sizes: seq<nat>, lo: nat, hi: nat): nat
    requires lo <= hi <= |sizes|
  {
    Sum(sizes[lo..hi])
  }

  lemma SpanSplit(sizes: seq<nat>, lo: nat, mid: nat, hi: nat)
    requires lo <= mid <= hi <= |sizes|
    ensures Span(sizes, lo, hi) == Span(sizes, lo, mid) + Span(sizes, mid, hi)
  {
    assert sizes[lo..hi] == sizes[lo..mid] + sizes[mid..hi];
    SumAppend(sizes[lo..mid], sizes[mid..hi]);
  }

  lemma SpanNext(sizes: seq<nat>, lo: nat, hi: nat)
    requires lo <= hi < |sizes|
    ensures Span(sizes, lo, hi + 1) == Span(sizes, lo, hi) + sizes[hi]
  {
    SpanSplit(sizes, lo, hi, hi + 1);
    assert sizes[hi..hi + 1] == [sizes[hi]] && [sizes[hi]][1..] == [];
    assert Sum([sizes[hi]]) == sizes[hi] + Sum([]);
  }

  /** Block k is the shard's block of the segment's xorb and adds up to the segment. */
  ghost predicate AgreesAt(cas: seq<ChunkSizes>, seg: Term, k: nat) {
    && IsFirstBlock(cas, seg.xorb, k) && seg.start <= seg.end <= |cas[k].sizes|
    && Span(cas[k].sizes, seg.start, seg.end) == seg.length
  }

  ghost predicate Agrees(cas: seq<ChunkSizes>, seg: Term) { exists k :: AgreesAt(cas, seg, k) }

  ghost predicate AllAgree(cas: seq<ChunkSizes>, segs: seq<Term>) {
    forall i :: 0 <= i < |segs| ==> Agrees(cas, segs[i])
  }

  /** t is seg cut to the chunks holding bytes of rng: the first kept chunk is the first to end past rng.start, the last
      the last to start by rng.end. */
  ghost predicate Trimmed(sizes: seq<nat>, seg: Term, start: int, rng: ByteRange, t: Term, skipped: nat) {
    && t.xorb == seg.xorb && seg.start <= t.start < t.end <= seg.end <= |sizes|
    && t.length == Span(sizes, t.start, t.end) && skipped == Span(sizes, seg.start, t.start)
    && (t.start > seg.start ==> start + skipped <= rng.start)
    && start + skipped + sizes[t.start] > rng.start
    && start + Span(sizes, seg.start, t.end - 1) <= rng.end
    && (t.end < seg.end ==> start + Span(sizes, seg.start, t.end) > rng.end)
  }

  /** The segment is cut to the chunks that hold requested bytes, or whole: it has no others, or the shard does not
      tell. */
  ghost predicate IsTrim(cas: seq<ChunkSizes>, seg: Term, start: int, rng: ByteRange, t: Term, skipped: nat) {
    || (t == seg && skipped == 0 &&
      (rng.start > rng.end || (start >= rng.start && start + seg.length - 1 <= rng.end) || !Agrees(cas, seg)))
    || exists k: nat {:trigger AgreesAt(cas, seg, k)} ::
      AgreesAt(cas, seg, k) && Trimmed(cas[k].sizes, seg, start, rng, t, skipped)
  }

  /** Cuts seg, which starts at file offset start, to the chunks holding bytes of rng, when the shard lists the chunk
      sizes of its xorb and they agree with it. */
  method TrimSegment(cas: seq<ChunkSizes>, seg: Term, start: int, rng: ByteRange)
    returns (t: Term, skipped: nat, ghost k: int)
    requires start + seg.length > rng.start && start <= rng.end
    ensures IsTrim(cas, seg, start, rng, t, skipped)
    ensures k < 0 ==> t == seg && skipped == 0
    ensures k >= 0 ==> AgreesAt(cas, seg, k) && Trimmed(cas[k].sizes, seg, start, rng, t, skipped)
    ensures k < 0 && rng.start <= rng.end ==>
      (start >= rng.start && start + seg.length - 1 <= rng.end) || !Agrees(cas, seg)
  {
    var end := start + seg.length;
    if start >= rng.start && end - 1 <= rng.end { return seg, 0, -1; }
    var b := FindBlock(cas, seg.xorb);
    if b < 0 || seg.end > |cas[b].sizes| { return seg, 0, -1; }
    var sizes := cas[b].sizes;
    var first, last, from, to, at := ScanSegment(sizes, seg, start, rng);
    if seg.start < seg.end && at == end && rng.start <= rng.end { SomeKept(sizes, seg, start, rng, first, last, at); }
    if at != end || first >= last {
      assert forall j: nat :: AgreesAt(cas, seg, j) ==> j == b;
      if seg.start == seg.end { assert sizes[seg.start..seg.end] == []; }
      return seg, 0, -1;
    }
    SpanSplit(sizes, seg.start, first, last);
    t, skipped, k := Term(seg.xorb, to - from, first, last), from - start, b;
    assert AgreesAt(cas, seg, b);
  }

  /** What one pass over chunks [seg.start, c) leaves: [first, last) hold bytes of rng, from and to bound them in the
      file. */
  ghost predicate Scanned(sizes: seq<nat>, seg: Term, start: int, rng: ByteRange, c: nat, first: nat, last: nat,
                          from: int, to: int, at: int) {
    && seg.start <= c <= |sizes| && seg.start <= first <= c && seg.start <= last <= c
    && at == start + Span(sizes, seg.start, c)
    && from == start + Span(sizes, seg.start, first) && to == start + Span(sizes, seg.start, last)
    && (first > seg.start ==> from <= rng.start)
    && (first < c ==> from + sizes[first] > rng.start)
    && (last > seg.start ==> start + Span(sizes, seg.start, last - 1) <= rng.end)
    && (last < c ==> to > rng.end)
  }

  method ScanSegment(sizes: seq<nat>, seg: Term, start: int, rng: ByteRange)
    returns (first: nat, last: nat, from: int, to: int, at: int)
    requires seg.end <= |sizes|
    ensures seg.start < seg.end ==> Scanned(sizes, seg, start, rng, seg.end, first, last, from, to, at)
    ensures seg.start >= seg.end ==> first == last && at == start
  {
    first, last := seg.start, seg.start;
    from, to, at := start, start, start;
    if seg.start >= seg.end { return; }
    assert sizes[seg.start..seg.start] == [];
    for c := seg.start to seg.end
      invariant Scanned(sizes, seg, start, rng, c, first, last, from, to, at)
    {
      SpanNext(sizes, seg.start, c);
      if first < c { SpanNext(sizes, seg.start, first); SpanSplit(sizes, seg.start, first + 1, c); }
      if last < c { SpanSplit(sizes, seg.start, last, c); }
      var next := at + sizes[c];
      if next <= rng.start { first, from := c + 1, next; }
      if at <= rng.end { last, to := c + 1, next; }
      at := next;
    }
  }

  /** When the sizes agree, some chunk is always kept. */
  lemma SomeKept(sizes: seq<nat>, seg: Term, start: int, rng: ByteRange, first: nat, last: nat, at: int)
    requires seg.start <= first <= seg.end <= |sizes| && seg.start <= last <= seg.end && seg.start < seg.end
    requires at == start + Span(sizes, seg.start, seg.end)
    requires first > seg.start ==> start + Span(sizes, seg.start, first) <= rng.start
    requires last < seg.end ==> start + Span(sizes, seg.start, last) > rng.end
    requires at > rng.start && start <= rng.end && rng.start <= rng.end
    ensures first < last
  {
    if last <= first { SpanSplit(sizes, seg.start, last, first); }
  }

  // ---------------------------------------------------------------- fetch ranges

  /** Chunks [start, end) of a xorb are its packed bytes from to to, inclusive. */
  datatype Fetch = Fetch(start: nat, end: nat, from: int, to: int, url: string)

  /** Packed ends strictly increase: every chunk has at least its header. */
  ghost predicate Ascending(offs: seq<nat>) {
    && (forall i :: 0 <= i < |offs| ==> offs[i] > 0)
    && (forall i, j :: 0 <= i < j < |offs| ==> offs[i] < offs[j])
  }

  /** The inclusive packed byte range of chunks [s, e). */
  function DataRange(offs: seq<nat>, s: nat, e: nat): Option<(int, int)> {
    if s >= e || e > |offs| then None else Some((StartByte(offs, s), EndByte(offs, e)))
  }

  function StartByte(offs: seq<nat>, s: nat): int
    requires s <= |offs|
  {
    if s > 0 then offs[s - 1] else 0
  }

  function EndByte(offs: seq<nat>, e: nat): int
    requires 0 < e <= |offs|
  {
    offs[e - 1] as int - 1
  }

  lemma AscendingInjective(offs: seq<nat>, i: nat, j: nat)
    requires Ascending(offs) && i < |offs| && j < |offs| && offs[i] == offs[j]
    ensures i == j
  {}

  /** Different chunk ranges have different byte ranges. */
  lemma DataRangeInjective(offs: seq<nat>, s: nat, e: nat, s': nat, e': nat)
    requires Ascending(offs) && DataRange(offs, s, e).Some? && DataRange(offs, s, e) == DataRange(offs, s', e')
    ensures s == s' && e == e'
  {
    AscendingInjective(offs, e - 1, e' - 1);
    if s > 0 && s' > 0 { AscendingInjective(offs, s - 1, s' - 1); }
  }

  /** Of the ranges sharing a start chunk the longest is kept. */
  function KeepLongest(es: seq<Fetch>, e: Fetch): seq<Fetch> {
    if es == [] then [e]
    else if es[0].start == e.start then [if e.end > es[0].end then e else es[0]] + es[1..]
    else [es[0]] + KeepLongest(es[1..], e)
  }

  /** Some entry starts where the term does and reaches at least as far. */
  ghost predicate CoveredBy(es: seq<Fetch>, start: nat, end: nat) {
    exists k :: 0 <= k < |es| && es[k].start == start && es[k].end >= end
  }

  lemma {:induction false} KeepLongestCovers(es: seq<Fetch>, e: Fetch)
    ensures CoveredBy(KeepLongest(es, e), e.start, e.end)
    ensures forall s, f :: CoveredBy(es, s, f) ==> CoveredBy(KeepLongest(es, e), s, f)
    ensures forall g :: g in KeepLongest(es, e) ==> g in es || g == e
  {
    var r := KeepLongest(es, e);
    if es == [] {
      assert r[0] == e;
    } else if es[0].start == e.start {
      assert r[0].start == e.start && r[0].end >= e.end;
      forall s, f | CoveredBy(es, s, f) ensures CoveredBy(r, s, f) {
        var k :| 0 <= k < |es| && es[k].start == s && es[k].end >= f;
        assert r[k].start == s && r[k].end >= f;
      }
    } else {
      var rest := KeepLongest(es[1..], e);
      KeepLongestCovers(es[1..], e);
      var k :| 0 <= k < |rest| && rest[k].start == e.start && rest[k].end >= e.end;
      assert r[k + 1] == rest[k];
      forall s, f | CoveredBy(es, s, f) ensures CoveredBy(r, s, f) {
        var k :| 0 <= k < |es| && es[k].start == s && es[k].end >= f;
        if k == 0 {
          assert r[0] == es[0];
        } else {
          assert es[1..][k - 1] == es[k] && CoveredBy(es[1..], s, f);
          var j :| 0 <= j < |rest| && rest[j].start == s && rest[j].end >= f;
          assert r[j + 1] == rest[j];
        }
      }
    }
  }

  type FetchMap = map<Name, seq<Fetch>>

  /** The entry's byte range is that of its chunks. */
  ghost predicate EntryRight(offsets: Offsets, url: Name -> string, x: Name, e: Fetch) {
    x in offsets && DataRange(offsets[x], e.start, e.end) == Some((e.from, e.to)) && e.url == url(x)
  }

  ghost predicate PlanRight(fetch: FetchMap, offsets: Offsets, url: Name -> string) {
    forall x, e :: x in fetch && e in fetch[x] ==> EntryRight(offsets, url, x, e)
  }

  ghost predicate Covers(fetch: FetchMap, ts: seq<Term>) {
    forall i :: 0 <= i < |ts| ==> ts[i].xorb in fetch && CoveredBy(fetch[ts[i].xorb], ts[i].start, ts[i].end)
  }

  datatype Response = Response(offset: int, terms: seq<Term>, fetch: FetchMap)

  /** No two ranges of a xorb start at the same chunk, and each is that of a term. */
  ghost predicate Lean(fetch: FetchMap, ts: seq<Term>) {
    && (forall x, i, j :: x in fetch && 0 <= i < j < |fetch[x]| ==> fetch[x][i].start != fetch[x][j].start)
    && (forall x, e :: x in fetch && e in fetch[x] ==> IsTermRange(ts, x, e))
  }

  ghost predicate IsTermRange(ts: seq<Term>, x: Name, e: Fetch) {
    exists i :: 0 <= i < |ts| && ts[i].xorb == x && ts[i].start == e.start && ts[i].end == e.end
  }

  ghost predicate StartsDiffer(es: seq<Fetch>) { forall i, j :: 0 <= i < j < |es| ==> es[i].start != es[j].start }

  lemma {:induction false} KeepLongestLean(es: seq<Fetch>, e: Fetch)
    requires StartsDiffer(es)
    ensures StartsDiffer(KeepLongest(es, e))
    ensures forall k :: 0 <= k < |KeepLongest(es, e)| ==>
      KeepLongest(es, e)[k].start == e.start || exists i :: 0 <= i < |es| && es[i].start == KeepLongest(es, e)[k].start
  {
    if es != [] && es[0].start != e.start {
      var rest := KeepLongest(es[1..], e);
      KeepLongestLean(es[1..], e);
      forall k | 0 <= k < |rest|
        ensures rest[k].start == e.start || exists i :: 0 < i < |es| && es[i].start == rest[k].start
      {
        if i :| 0 <= i < |es[1..]| && es[1..][i].start == rest[k].start { assert es[i + 1].start == rest[k].start; }
      }
    }
  }

  lemma LeanNext(fetch: FetchMap, ts: seq<Term>, t: Term, e: Fetch, es: seq<Fetch>)
    requires Lean(fetch, ts) && e.start == t.start && e.end == t.end
    requires es == if t.xorb in fetch then fetch[t.xorb] else []
    ensures Lean(fetch[t.xorb := KeepLongest(es, e)], ts + [t])
  {
    var more, all := fetch[t.xorb := KeepLongest(es, e)], ts + [t];
    KeepLongestLean(es, e);
    KeepLongestCovers(es, e);
    forall x, g | x in more && g in more[x] ensures IsTermRange(all, x, g) {
      if x == t.xorb && g == e {
        assert all[|ts|] == t;
      } else {
        assert x in fetch && g in fetch[x];
        var i :| 0 <= i < |ts| && ts[i].xorb == x && ts[i].start == g.start && ts[i].end == g.end;
        assert all[i] == ts[i];
      }
    }
  }

  /** Adds the fetch entry of one more term. */
  method AddFetch(fetch: FetchMap, t: Term, offsets: Offsets, url: Name -> string, ghost ts: seq<Term>)
    returns (r: Option<FetchMap>)
    requires PlanRight(fetch, offsets, url) && Covers(fetch, ts)
    ensures r.Some? <==> t.xorb in offsets && t.start < t.end <= |offsets[t.xorb]|
    ensures r.Some? ==> PlanRight(r.value, offsets, url) && Covers(r.value, ts + [t])
    ensures r.Some? && Lean(fetch, ts) ==> Lean(r.value, ts + [t])
  {
    if t.xorb !in offsets { return None; }
    var range := DataRange(offsets[t.xorb], t.start, t.end);
    if range.None? { return None; }
    var e := Fetch(t.start, t.end, range.value.0, range.value.1, url(t.xorb));
    var es := if t.xorb in fetch then fetch[t.xorb] else [];
    KeepLongestCovers(es, e);
    r := Some(fetch[t.xorb := KeepLongest(es, e)]);
    if Lean(fetch, ts) { LeanNext(fetch, ts, t, e, es); }
    forall x, g | x in r.value && g in r.value[x] ensures EntryRight(offsets, url, x, g) {
      if x == t.xorb && g != e { assert g in es; }
    }
    forall i | 0 <= i < |ts + [t]| ensures (ts + [t])[i].xorb in r.value &&
      CoveredBy(r.value[(ts + [t])[i].xorb], (ts + [t])[i].start, (ts + [t])[i].end) {
      if i < |ts| { assert CoveredBy(fetch[ts[i].xorb], ts[i].start, ts[i].end); }
    }
  }

  // ---------------------------------------------------------------- building the response

  /** The stored world a shard describes: terms match content, chunk tables match xorbs, listed sizes are real. */
  ghost predicate Consistent(segs: seq<Term>, cas: seq<ChunkSizes>, offsets: Offsets, c: Content) {
    && AllFaithful(segs, c) && Truthful(cas, c)
    && forall x {:trigger TableFor(offsets, c, x)} :: x in c ==> TableFor(offsets, c, x)
  }

  ghost predicate TableFor(offsets: Offsets, c: Content, x: Name)
    requires x in c
  {
    x in offsets && |offsets[x]| == |c[x]|
  }

  lemma ChunkSpan(all: seq<Bytes>, lo: nat, hi: nat)
    requires lo <= hi <= |all|
    ensures |Flatten(all[lo..hi])| == Span(Lengths(all), lo, hi)
  {
    assert Lengths(all[lo..hi]) == Lengths(all)[lo..hi];
    FlattenLength(all[lo..hi]);
  }

  /** The bytes of chunks [s, e) within those of chunks [lo, hi). */
  lemma ChunkSlice(all: seq<Bytes>, lo: nat, s: nat, e: nat, hi: nat)
    requires lo <= s <= e <= hi <= |all|
    ensures var k, n := Span(Lengths(all), lo, s), Span(Lengths(all), s, e);
      && k + n <= |Flatten(all[lo..hi])| && Flatten(all[lo..hi])[k..k + n] == Flatten(all[s..e])
  {
    var a, b, d := all[lo..s], all[s..e], all[e..hi];
    assert all[lo..hi] == a + b + d;
    FlattenAppend(a + b, d);
    FlattenAppend(a, b);
    ChunkSpan(all, lo, s);
    ChunkSpan(all, s, e);
  }

  lemma TrimDenotes(cas: seq<ChunkSizes>, seg: Term, start: int, rng: ByteRange, t: Term, skipped: nat, k: nat,
                    c: Content)
    requires Truthful(cas, c) && Faithful(seg, c) && AgreesAt(cas, seg, k) &&
      Trimmed(cas[k].sizes, seg, start, rng, t, skipped)
    ensures Faithful(t, c) && skipped + t.length <= seg.length
    ensures TermBytes(t, c) == TermBytes(seg, c)[skipped..skipped + t.length]
  {
    assert cas[k].sizes == Lengths(c[seg.xorb]);
    ChunkSlice(c[seg.xorb], seg.start, t.start, t.end, seg.end);
    ChunkSpan(c[seg.xorb], t.start, t.end);
  }

  /** What the terms so far denote within the file F: its bytes from rng.start - offset up to upTo. */
  ghost predicate Denotes(ts: seq<Term>, c: Content, F: Bytes, rng: ByteRange, offset: int, upTo: int) {
    && AllFaithful(ts, c) && 0 <= offset <= rng.start && rng.start < upTo <= |F|
    && BytesOf(ts, c) == F[rng.start - offset..upTo]
    && ts != [] && offset < ts[0].length
  }

  /** Placing segment i in the file. */
  lemma SegmentInFile(segs: seq<Term>, i: nat, c: Content)
    requires AllFaithful(segs, c) && i < |segs|
    ensures AllFaithful(segs[..i], c) && AllFaithful(segs[..i + 1], c)
    ensures |BytesOf(segs[..i + 1], c)| == |BytesOf(segs[..i], c)| + segs[i].length <= |BytesOf(segs, c)|
    ensures var at := |BytesOf(segs[..i], c)|; BytesOf(segs, c)[at..at + segs[i].length] == TermBytes(segs[i], c)
  {
    var a, t, b := segs[..i], segs[i], segs[i + 1..];
    assert segs[..i + 1] == a + [t] && segs == a + [t] + b;
    BytesOfOne(t, c);
    BytesAppend(a, [t], c);
    BytesAppend(a + [t], b, c);
  }

  lemma ExtendDenotation(ts: seq<Term>, c: Content, F: Bytes, rng: ByteRange, offset: int, at: int, t: Term)
    requires Denotes(ts, c, F, rng, offset, at) && Faithful(t, c) && at + t.length <= |F| &&
      TermBytes(t, c) == F[at..at + t.length]
    ensures Denotes(ts + [t], c, F, rng, offset, at + t.length)
  {
    BytesOfOne(t, c);
    BytesAppend(ts, [t], c);
    assert F[rng.start - offset..at] + F[at..at + t.length] == F[rng.start - offset..at + t.length];
  }

  lemma StartDenotation(c: Content, F: Bytes, rng: ByteRange, offset: int, t: Term, from: int)
    requires Faithful(t, c) && 0 <= from <= rng.start == from + offset && rng.start < from + t.length <= |F|
    requires TermBytes(t, c) == F[from..from + t.length]
    ensures Denotes([t], c, F, rng, offset, from + t.length)
  {
    BytesOfOne(t, c);
    assert F[rng.start - offset..from + t.length] == F[from..from + t.length];
  }

  ghost predicate FrontTight(t: Term, offset: int, c: Content)
    requires InBounds(t, c)
  {
    offset == 0 || offset < |c[t.xorb][t.start]|
  }

  ghost predicate BackTight(t: Term, upTo: int, rng: ByteRange, c: Content)
    requires InBounds(t, c)
  {
    upTo == rng.end + 1 || upTo - |c[t.xorb][t.end - 1]| <= rng.end
  }

  lemma TrimIsTight(cas: seq<ChunkSizes>, seg: Term, start: int, rng: ByteRange, t: Term, skipped: nat, k: nat,
                    c: Content)
    requires Truthful(cas, c) && Faithful(seg, c) && AgreesAt(cas, seg, k) &&
      Trimmed(cas[k].sizes, seg, start, rng, t, skipped)
    ensures InBounds(t, c)
    ensures start + skipped <= rng.start ==> FrontTight(t, rng.start - (start + skipped), c)
    ensures BackTight(t, start + skipped + t.length, rng, c)
  {
    assert cas[k].sizes == Lengths(c[seg.xorb]);
    if start + skipped <= rng.start { TrimFront(cas[k].sizes, seg, start, rng, t, skipped); }
    TrimBack(cas[k].sizes, seg, start, rng, t, skipped);
  }

  /** The range starts before the end of the first chunk kept. */
  lemma TrimFront(sizes: seq<nat>, seg: Term, start: int, rng: ByteRange, t: Term, skipped: nat)
    requires Trimmed(sizes, seg, start, rng, t, skipped) && start + skipped <= rng.start
    ensures rng.start - (start + skipped) == 0 || rng.start - (start + skipped) < sizes[t.start]
  {
  }

  /** The range ends after the start of the last chunk kept. */
  lemma TrimBack(sizes: seq<nat>, seg: Term, start: int, rng: ByteRange, t: Term, skipped: nat)
    requires Trimmed(sizes, seg, start, rng, t, skipped)
    ensures start + skipped + t.length == rng.end + 1 || start + skipped + t.length - sizes[t.end - 1] <= rng.end
  {
    SpanSplit(sizes, seg.start, t.start, t.end - 1);
    SpanNext(sizes, t.start, t.end - 1);
  }

  lemma SliceOfSlice(s: Bytes, at: nat, len: nat, k: nat, n: nat)
    requires at + len <= |s| && k + n <= len
    ensures s[at..at + len][k..k + n] == s[at + k..at + k + n]
  {
    var a, b := s[at..at + len][k..k + n], s[at + k..at + k + n];
    assert |a| == |b| && forall i :: 0 <= i < |a| ==> a[i] == b[i];
  }

  lemma TrimBounds(sizes: seq<nat>, seg: Term, at: int, rng: ByteRange, t: Term, skipped: nat)
    requires Trimmed(sizes, seg, at, rng, t, skipped) && Span(sizes, seg.start, seg.end) == seg.length
    ensures skipped > 0 ==> at + skipped <= rng.start
    ensures at + skipped + t.length > rng.start
    ensures skipped + t.length < seg.length ==> at + skipped + t.length > rng.end
  {
    SpanSplit(sizes, seg.start, t.start, t.end);
    SpanNext(sizes, t.start, t.start);
    SpanSplit(sizes, t.start, t.start + 1, t.end);
  }

  /** The shard describes stored content and segment i starts at byte at of the file. */
  ghost predicate InWorld(cas: seq<ChunkSizes>, segs: seq<Term>, i: nat, at: int, rng: ByteRange, c: Content) {
    i < |segs| && AllFaithful(segs, c) && AllFaithful(segs[..i], c) && Truthful(cas, c) &&
      at == |BytesOf(segs[..i], c)| && 0 <= rng.start
  }

  /** The term taken from segment i is the file's bytes from at + skipped on, cut no shorter than the range needs. */
  ghost predicate Taken(segs: seq<Term>, i: nat, at: int, rng: ByteRange, c: Content, t: Term, skipped: nat) {
    && i < |segs| && AllFaithful(segs, c) && Faithful(t, c)
    && 0 <= at && skipped + t.length <= segs[i].length && at + segs[i].length <= |BytesOf(segs, c)|
    && TermBytes(t, c) == BytesOf(segs, c)[at + skipped..at + skipped + t.length]
    && (skipped > 0 ==> at + skipped <= rng.start)
    && at + skipped + t.length > rng.start
    && (skipped + t.length < segs[i].length ==> at + skipped + t.length > rng.end)
  }

  predicate Within(t: Term, whole: Term) { t.xorb == whole.xorb && whole.start <= t.start && t.end <= whole.end }

  /** One segment that overlaps the range: trims it and finds where its bytes are in the file. */
  method TakeSegment(cas: seq<ChunkSizes>, segs: seq<Term>, i: nat, at: int, rng: ByteRange, ghost c: Content)
    returns (t: Term, skipped: nat)
    requires i < |segs| && at + segs[i].length > rng.start && at <= rng.end
    ensures Within(t, segs[i]) && (segs[i].start < segs[i].end ==> t.start < t.end)
    ensures InWorld(cas, segs, i, at, rng, c) ==> Taken(segs, i, at, rng, c, t, skipped)
    ensures InWorld(cas, segs, i, at, rng, c) && rng.start <= rng.end && Agrees(cas, segs[i]) ==>
      && (at + skipped <= rng.start ==> FrontTight(t, rng.start - (at + skipped), c))
      && (at + skipped + t.length > rng.end ==> BackTight(t, at + skipped + t.length, rng, c))
  {
    var seg := segs[i];
    ghost var k;
    t, skipped, k := TrimSegment(cas, seg, at, rng);
    if InWorld(cas, segs, i, at, rng, c) {
      if k >= 0 {
        TrimTaken(cas, segs, i, at, rng, c, t, skipped, k);
        TrimIsTight(cas, segs[i], at, rng, t, skipped, k, c);
      } else {
        WholeTaken(cas, segs, i, at, rng, c);
      }
    }
  }

  lemma WholeTaken(cas: seq<ChunkSizes>, segs: seq<Term>, i: nat, at: int, rng: ByteRange, c: Content)
    requires InWorld(cas, segs, i, at, rng, c) && at + segs[i].length > rng.start
    ensures Taken(segs, i, at, rng, c, segs[i], 0)
  {
    SegmentInFile(segs, i, c);
  }

  lemma TrimTaken(cas: seq<ChunkSizes>, segs: seq<Term>, i: nat, at: int, rng: ByteRange, c: Content, t: Term,
                  skipped: nat, k: nat)
    requires InWorld(cas, segs, i, at, rng, c) && AgreesAt(cas, segs[i], k) &&
      Trimmed(cas[k].sizes, segs[i], at, rng, t, skipped)
    ensures Taken(segs, i, at, rng, c, t, skipped)
  {
    SegmentInFile(segs, i, c);
    TrimFits(cas, segs[i], at, rng, c, t, skipped, k);
    PartTaken(segs, i, at, rng, c, t, skipped);
  }

  /** The term kept of a segment is part of it, and reaches as far as the range needs. */
  ghost predicate Kept(seg: Term, at: int, rng: ByteRange, c: Content, t: Term, skipped: nat) {
    && Faithful(seg, c) && Faithful(t, c) && skipped + t.length <= seg.length
    && TermBytes(t, c) == TermBytes(seg, c)[skipped..skipped + t.length]
    && (skipped > 0 ==> at + skipped <= rng.start) && at + skipped + t.length > rng.start
    && (skipped + t.length < seg.length ==> at + skipped + t.length > rng.end)
  }

  lemma TrimFits(cas: seq<ChunkSizes>, seg: Term, at: int, rng: ByteRange, c: Content, t: Term, skipped: nat, k: nat)
    requires Truthful(cas, c) && Faithful(seg, c) && AgreesAt(cas, seg, k) &&
      Trimmed(cas[k].sizes, seg, at, rng, t, skipped)
    ensures Kept(seg, at, rng, c, t, skipped)
  {
    TrimDenotes(cas, seg, at, rng, t, skipped, k, c);
    TrimBounds(cas[k].sizes, seg, at, rng, t, skipped);
  }

  lemma PartTaken(segs: seq<Term>, i: nat, at: int, rng: ByteRange, c: Content, t: Term, skipped: nat)
    requires i < |segs| && AllFaithful(segs, c) && 0 <= at && at + segs[i].length <= |BytesOf(segs, c)|
    requires TermBytes(segs[i], c) == BytesOf(segs, c)[at..at + segs[i].length]
    requires Kept(segs[i], at, rng, c, t, skipped)
    ensures Taken(segs, i, at, rng, c, t, skipped)
  {
    SubTerm(BytesOf(segs, c), at, segs[i].length, skipped, t.length, TermBytes(segs[i], c), TermBytes(t, c));
  }

  lemma SubTerm(file: Bytes, at: nat, len: nat, k: nat, n: nat, whole: Bytes, part: Bytes)
    requires at + len <= |file| && k + n <= len && whole == file[at..at + len] && part == whole[k..k + n]
    ensures part == file[at + k..at + k + n]
  {
    SliceOfSlice(file, at, len, k, n);
  }

  /** The builder's state before segment i: nothing taken yet, or the terms taken denote the file up to upTo, which is
      where segment i starts unless the range is already exhausted. */
  ghost predicate Building(segs: seq<Term>, c: Content, rng: ByteRange, at: int, terms: seq<Term>, offset: int,
                           upTo: int) {
    && AllFaithful(segs, c) && AllFaithful(terms, c)
    && (terms == [] ==> at <= rng.start && offset == 0)
    && (terms != [] ==>
      Denotes(terms, c, BytesOf(segs, c), rng, offset, upTo) && (upTo == at || (upTo > rng.end && at > rng.end)))
  }

  ghost predicate Tight(terms: seq<Term>, c: Content, rng: ByteRange, offset: int, upTo: int) {
    && AllFaithful(terms, c)
    && (terms != [] ==> FrontTight(terms[0], offset, c))
    && (terms != [] && upTo > rng.end ==> BackTight(terms[|terms| - 1], upTo, rng, c))
  }

  lemma Took(segs: seq<Term>, i: nat, c: Content, rng: ByteRange, at: int, end: int, terms: seq<Term>, offset: int,
             upTo: int, t: Term, skipped: nat, offset': int)
    requires Building(segs, c, rng, at, terms, offset, upTo) && 0 <= at <= rng.end && 0 <= rng.start
    requires i < |segs| && end == at + segs[i].length && Taken(segs, i, at, rng, c, t, skipped)
    requires offset' == if terms == [] && at + skipped < rng.start then rng.start - (at + skipped) else offset
    ensures Building(segs, c, rng, end, terms + [t], offset', at + skipped + t.length)
  {
    if terms == [] {
      assert terms + [t] == [t];
      StartDenotation(c, BytesOf(segs, c), rng, offset', t, at + skipped);
    } else {
      TookNext(segs, i, c, rng, at, terms, offset, upTo, t, skipped);
    }
  }

  lemma TookNext(segs: seq<Term>, i: nat, c: Content, rng: ByteRange, at: int, terms: seq<Term>, offset: int, upTo: int,
                 t: Term, skipped: nat)
    requires AllFaithful(segs, c) && Denotes(terms, c, BytesOf(segs, c), rng, offset, upTo) && upTo == at
    requires i < |segs| && Taken(segs, i, at, rng, c, t, skipped)
    ensures skipped == 0 && Denotes(terms + [t], c, BytesOf(segs, c), rng, offset, at + t.length)
  {
    ExtendDenotation(terms, c, BytesOf(segs, c), rng, offset, upTo, t);
  }

  lemma TookTight(segs: seq<Term>, c: Content, rng: ByteRange, at: int, terms: seq<Term>, offset: int, upTo: int,
                  t: Term, skipped: nat, offset': int)
    requires Building(segs, c, rng, at, terms, offset, upTo) && Tight(terms, c, rng, offset, upTo) && at <= rng.end
    requires Faithful(t, c)
    requires at + skipped <= rng.start ==> FrontTight(t, rng.start - (at + skipped), c)
    requires at + skipped + t.length > rng.end ==> BackTight(t, at + skipped + t.length, rng, c)
    requires offset' == if terms == [] && at + skipped < rng.start then rng.start - (at + skipped) else offset
    ensures Tight(terms + [t], c, rng, offset', at + skipped + t.length)
  {
    if terms != [] { assert (terms + [t])[0] == terms[0]; }
  }

  ghost predicate Planned(r: Response, offsets: Offsets, url: Name -> string) {
    PlanRight(r.fetch, offsets, url) && Covers(r.fetch, r.terms)
  }

  /** Records a term and its fetch entry. */
  method Record(before: Response, offset: int, t: Term, offsets: Offsets, url: Name -> string)
    returns (r: Option<Response>)
    requires Planned(before, offsets, url)
    ensures r.Some? <==> t.xorb in offsets && t.start < t.end <= |offsets[t.xorb]|
    ensures r.Some? ==>
      r.value.offset == offset && r.value.terms == before.terms + [t] && Planned(r.value, offsets, url)
    ensures r.Some? && Lean(before.fetch, before.terms) ==> Lean(r.value.fetch, r.value.terms)
  {
    var fetch := AddFetch(before.fetch, t, offsets, url, before.terms);
    if fetch.None? { return None; }
    r := Some(Response(offset, before.terms + [t], fetch.value));
  }

  /** One more term taken from segment i: the terms still denote a part of the file, as tightly as before. */
  ghost predicate PlacedNext(cas: seq<ChunkSizes>, segs: seq<Term>, i: nat, at: int, rng: ByteRange, before: Response,
                             reached: int, c: Content, t: Term, offset: int, upTo: int)
    requires i < |segs|
  {
    && Building(segs, c, rng, at + segs[i].length, before.terms + [t], offset, upTo)
    && (rng.start <= rng.end && Agrees(cas, segs[i]) && Tight(before.terms, c, rng, before.offset, reached) ==>
      Tight(before.terms + [t], c, rng, offset, upTo))
  }

  /** Trims segment i, which overlaps the range, and computes the offset if it is the first taken. */
  method PlaceTerm(cas: seq<ChunkSizes>, segs: seq<Term>, i: nat, at: int, rng: ByteRange, before: Response,
                   ghost reached: int, ghost c: Content)
    returns (t: Term, offset: int, ghost upTo: int)
    requires i < |segs| && at + segs[i].length > rng.start && at <= rng.end
    ensures Within(t, segs[i]) && (segs[i].start < segs[i].end ==> t.start < t.end)
    ensures InWorld(cas, segs, i, at, rng, c) && Building(segs, c, rng, at, before.terms, before.offset, reached) ==>
      PlacedNext(cas, segs, i, at, rng, before, reached, c, t, offset, upTo)
  {
    var skipped;
    t, skipped := TakeSegment(cas, segs, i, at, rng, c);
    offset := if before.terms == [] && at + skipped < rng.start then rng.start - (at + skipped) else before.offset;
    upTo := at + skipped + t.length;
    if InWorld(cas, segs, i, at, rng, c) && Building(segs, c, rng, at, before.terms, before.offset, reached) {
      Placing(cas, segs, i, at, rng, before, reached, c, t, skipped, offset);
    }
  }

  lemma Placing(cas: seq<ChunkSizes>, segs: seq<Term>, i: nat, at: int, rng: ByteRange, before: Response, reached: int,
                c: Content, t: Term, skipped: nat, offset: int)
    requires i < |segs| && at + segs[i].length > rng.start && at <= rng.end
    requires InWorld(cas, segs, i, at, rng, c) && Building(segs, c, rng, at, before.terms, before.offset, reached)
    requires Taken(segs, i, at, rng, c, t, skipped)
    requires rng.start <= rng.end && Agrees(cas, segs[i]) ==>
      && (at + skipped <= rng.start ==> FrontTight(t, rng.start - (at + skipped), c))
      && (at + skipped + t.length > rng.end ==> BackTight(t, at + skipped + t.length, rng, c))
    requires offset == if before.terms == [] && at + skipped < rng.start then rng.start - (at + skipped)
      else before.offset
    ensures PlacedNext(cas, segs, i, at, rng, before, reached, c, t, offset, at + skipped + t.length)
  {
    Took(segs, i, c, rng, at, at + segs[i].length, before.terms, before.offset, reached, t, skipped, offset);
    if rng.start <= rng.end && Agrees(cas, segs[i]) && Tight(before.terms, c, rng, before.offset, reached) {
      TookTight(segs, c, rng, at, before.terms, before.offset, reached, t, skipped, offset);
    }
  }

  /** The xorb is stored and has the term's chunks. */
  predicate Fetchable(offsets: Offsets, t: Term) { t.xorb in offsets && t.start < t.end <= |offsets[t.xorb]| }

  /** The builder's whole state before segment i, on a consistent store. */
  ghost predicate Built(cas: seq<ChunkSizes>, segs: seq<Term>, c: Content, rng: ByteRange, i: nat, at: int, r: Response,
                        upTo: int) {
    && i <= |segs| && AllFaithful(segs[..i], c) && at == |BytesOf(segs[..i], c)|
    && Building(segs, c, rng, at, r.terms, r.offset, upTo)
    && (r.terms != [] ==> |BytesOf(segs, c)| > rng.start)
    && (rng.start <= rng.end && AllAgree(cas, segs) ==> Tight(r.terms, c, rng, r.offset, upTo))
  }

  lemma BuiltNext(cas: seq<ChunkSizes>, segs: seq<Term>, c: Content, rng: ByteRange, i: nat, at: int, r: Response,
                  upTo: int)
    requires AllFaithful(segs, c) && Built(cas, segs, c, rng, i, at, r, upTo) && i < |segs|
    ensures |BytesOf(segs[..i], c)| <= |BytesOf(segs, c)|
    ensures AllFaithful(segs[..i + 1], c) && at + segs[i].length == |BytesOf(segs[..i + 1], c)| <= |BytesOf(segs, c)|
    ensures at + segs[i].length <= rng.start ==> Built(cas, segs, c, rng, i + 1, at + segs[i].length, r, upTo)
  {
    SegmentInFile(segs, i, c);
  }

  /** The loop both response builders run: skip what ends before the range, stop at what starts past it, trim, record.
      It fails only when a segment's chunks are not in its xorb's table. On a consistent store the terms denote the
      file's bytes from the range's start less the offset to upTo, past the range's end. */
  method BuildResponse(cas: seq<ChunkSizes>, segs: seq<Term>, rng: ByteRange, offsets: Offsets, url: Name -> string,
                       ghost c: Content)
    returns (r: Option<Response>, ghost upTo: int)
    ensures (forall i :: 0 <= i < |segs| ==> Fetchable(offsets, segs[i])) ==> r.Some?
    ensures r.Some? ==> Planned(r.value, offsets, url) && Lean(r.value.fetch, r.value.terms)
    ensures r.Some? && Consistent(segs, cas, offsets, c) && 0 <= rng.start ==> Answers(cas, segs, rng, c, r.value, upTo)
  {
    var response := Response(0, [], map[]);
    var at, i := 0, 0;
    upTo := 0;
    assert segs[..0] == [];
    while i < |segs|
      invariant 0 <= i <= |segs| && Planned(response, offsets, url) && Lean(response.fetch, response.terms)
      invariant Consistent(segs, cas, offsets, c) && 0 <= rng.start ==> Built(cas, segs, c, rng, i, at, response, upTo)
    {
      if Consistent(segs, cas, offsets, c) && 0 <= rng.start { BuiltNext(cas, segs, c, rng, i, at, response, upTo); }
      var end := at + segs[i].length;
      if end <= rng.start {
        at, i := end, i + 1;
        continue;
      }
      if at > rng.end { break; }
      var t, offset;
      t, offset, upTo := PlaceTerm(cas, segs, i, at, rng, response, upTo, c);
      var next := Record(response, offset, t, offsets, url);
      if next.None? { return None, upTo; }
      response, at, i := next.value, end, i + 1;
    }
    if Consistent(segs, cas, offsets, c) && 0 <= rng.start { BuildEnds(cas, segs, c, rng, i, at, response, upTo); }
    r := Some(response);
  }

  /** What a response to a range means: nothing for a range past the file; otherwise the file's bytes around the range,
      all of it that exists, and as little more as chunks allow when the shard's sizes agree. */
  ghost predicate Answers(cas: seq<ChunkSizes>, segs: seq<Term>, rng: ByteRange, c: Content, r: Response, upTo: int)
    requires AllFaithful(segs, c)
  {
    var F := BytesOf(segs, c);
    && AllFaithful(r.terms, c)
    && (rng.start >= |F| ==> r.terms == [] && r.offset == 0)
    && (rng.start <= rng.end && rng.start < |F| ==>
      Denotes(r.terms, c, F, rng, r.offset, upTo) && (rng.end < |F| ==> upTo > rng.end))
    && (rng.start <= rng.end && AllAgree(cas, segs) ==> Tight(r.terms, c, rng, r.offset, upTo))
  }

  lemma BuildEnds(cas: seq<ChunkSizes>, segs: seq<Term>, c: Content, rng: ByteRange, i: nat, at: int, r: Response,
                  upTo: int)
    requires AllFaithful(segs, c) && 0 <= rng.start && Built(cas, segs, c, rng, i, at, r, upTo)
    requires i == |segs| || at > rng.end
    ensures Answers(cas, segs, rng, c, r, upTo)
  {
    if i == |segs| { assert segs[..i] == segs; } else { SegmentInFile(segs, i, c); }
  }

  lemma Stored(segs: seq<Term>, cas: seq<ChunkSizes>, offsets: Offsets, c: Content, t: Term)
    requires Consistent(segs, cas, offsets, c) && Faithful(t, c)
    ensures t.xorb in offsets && t.start < t.end <= |offsets[t.xorb]|
  {
    assert TableFor(offsets, c, t.xorb);
  }
}
