/** Executing a response: choosing fetch entries, reading chunks on demand, expected lengths. */
module Reading {
  import opened Common
  import opened Planning

  // ---------------------------------------------------------------- what a reader should emit

  function Drop(s: Bytes, n: int): Bytes { if n <= 0 then s else if n >= |s| then [] else s[n..] }

  /** The offset is skipped in the first term only. */
  ghost function Emission(ts: seq<Term>, c: Content, offset: int): Bytes
    requires AllFaithful(ts, c)
  {
    if ts == [] then [] else Drop(TermBytes(ts[0], c), offset) + BytesOf(ts[1..], c)
  }

  lemma DropFirst(a: Bytes, b: Bytes, n: int)
    requires n <= |a|
    ensures Drop(a + b, n) == Drop(a, n) + b
  {
  }

  lemma DropSlice(s: Bytes, lo: nat, mid: nat, hi: nat)
    requires lo <= mid < hi <= |s|
    ensures Drop(s[lo..hi], mid - lo) == s[mid..hi]
  {
  }

  /** A built response emits the file from the start of the range to the end of its last chunk. */
  lemma BuiltResponseEmits(ts: seq<Term>, c: Content, F: Bytes, rng: ByteRange, offset: int, upTo: int)
    requires Denotes(ts, c, F, rng, offset, upTo)
    ensures Emission(ts, c, offset) == F[rng.start..upTo]
  {
    assert Faithful(ts[0], c);
    DropFirst(TermBytes(ts[0], c), BytesOf(ts[1..], c), offset);
    DropSlice(F, rng.start - offset, rng.start, upTo);
  }

  const MAX_INT64: nat := 0x7FFF_FFFF_FFFF_FFFF

  function TotalLength(ts: seq<Term>): nat { if ts == [] then 0 else ts[0].length + TotalLength(ts[1..]) }

  /** The length a response announces: 64-bit sums, saturating. */
  function ExpectedLength(ts: seq<Term>, offset: int): int {
    var total := TotalLength(ts) % TWO64;
    var remaining := if offset <= 0 then total else if offset >= total then 0 else total - offset;
    if remaining > MAX_INT64 then MAX_INT64 else remaining
  }

  method ComputeExpectedLength(ts: seq<Term>, offset: int) returns (n: int)
    ensures n == ExpectedLength(ts, offset)
  {
    var total: nat := 0;
    for i := 0 to |ts|
      invariant total < TWO64 && (total + TotalLength(ts[i..])) % TWO64 == TotalLength(ts) % TWO64
    {
      assert ts[i..][1..] == ts[i + 1..];
      WrapSum(total + ts[i].length, TotalLength(ts[i + 1..]));
      total := (total + ts[i].length) % TWO64;
    }
    assert ts[|ts|..] == [];
    if offset <= 0 { return if total > MAX_INT64 then MAX_INT64 else total; }
    if offset >= total { return 0; }
    var remaining := total - offset;
    return if remaining > MAX_INT64 then MAX_INT64 else remaining;
  }

  lemma WrapSum(a: nat, b: nat)
    ensures (a % TWO64 + b) % TWO64 == (a + b) % TWO64
  {}

  lemma {:induction false} TotalLengthIsBytes(ts: seq<Term>, c: Content)
    requires AllFaithful(ts, c)
    ensures TotalLength(ts) == |BytesOf(ts, c)|
  {
    if ts != [] { TotalLengthIsBytes(ts[1..], c); }
  }

  lemma EmissionLength(ts: seq<Term>, c: Content, offset: int)
    requires AllFaithful(ts, c) && ts != []
    ensures |Emission(ts, c, offset)| == Max(ts[0].length - Max(offset, 0), 0) + (TotalLength(ts) - ts[0].length)
  {
    TotalLengthIsBytes(ts[1..], c);
    assert Faithful(ts[0], c);
  }

  /** The announced length is what is emitted if and only if the offset stays within the first term, or the other terms
      are empty. */
  lemma ExpectedLengthIsExact(ts: seq<Term>, c: Content, offset: int)
    requires AllFaithful(ts, c) && ts != [] && TotalLength(ts) <= MAX_INT64
    ensures ExpectedLength(ts, offset) == |Emission(ts, c, offset)| <==>
      offset <= ts[0].length || TotalLength(ts) == ts[0].length
  {
    ExpectedOf(ts, offset);
    EmissionLength(ts, c, offset);
    ExactWhen(TotalLength(ts), ts[0].length, offset, ExpectedLength(ts, offset), |Emission(ts, c, offset)|);
  }

  /** Two terms of one byte each and an offset of two: nothing is announced, and a byte is emitted. */
  lemma OffsetPastFirstTerm(x: Name, a: Byte, b: Byte)
    ensures var c: Content := map[x := [[a], [b]]]; var ts := [Term(x, 1, 0, 1), Term(x, 1, 1, 2)];
      AllFaithful(ts, c) && ExpectedLength(ts, 2) == 0 && Emission(ts, c, 2) == [b]
  {
    var c: Content := map[x := [[a], [b]]];
    var ts := [Term(x, 1, 0, 1), Term(x, 1, 1, 2)];
    assert c[x][0..1] == [[a]] && c[x][1..2] == [[b]];
    FlattenSnoc([], [a]);
    FlattenSnoc([], [b]);
    assert [] + [[a]] == [[a]] && [] + [[b]] == [[b]];
    assert ts[1..] == [ts[1]] && [ts[1]][1..] == [];
    assert TotalLength(ts) == 1 + TotalLength([ts[1]]) && TotalLength([ts[1]]) == 1 + TotalLength([]);
    BytesOfOne(ts[1], c);
  }

  lemma ExactWhen(total: nat, first: nat, offset: int, announced: int, emitted: int)
    requires first <= total
    requires announced == Max(total - Max(offset, 0), 0) && emitted == Max(first - Max(offset, 0), 0) + (total - first)
    ensures announced == emitted <==> offset <= first || total == first
  {}

  lemma ExpectedOf(ts: seq<Term>, offset: int)
    requires TotalLength(ts) <= MAX_INT64
    ensures ExpectedLength(ts, offset) == Max(TotalLength(ts) - Max(offset, 0), 0)
  {
    assert TotalLength(ts) % TWO64 == TotalLength(ts);
  }

  // ---------------------------------------------------------------- choosing fetch entries

  predicate Holds(e: Fetch, t: Term) { e.start <= t.start && t.end <= e.end }

  /** The smallest entry holding the term, the first among equals. */
  method SelectFetch(es: seq<Fetch>, t: Term) returns (k: int)
    ensures k < 0 <==> forall i :: 0 <= i < |es| ==> !Holds(es[i], t)
    ensures k >= 0 ==> k < |es| && Holds(es[k], t)
    ensures k >= 0 ==> forall i :: 0 <= i < |es| && Holds(es[i], t) ==>
      es[k].to - es[k].from < es[i].to - es[i].from || (es[k].to - es[k].from == es[i].to - es[i].from && k <= i)
  {
    k := -1;
    for i := 0 to |es|
      invariant k < i && (k < 0 <==> forall j :: 0 <= j < i ==> !Holds(es[j], t))
      invariant k >= 0 ==> Holds(es[k], t)
      invariant k >= 0 ==> forall j :: 0 <= j < i && Holds(es[j], t) ==>
        es[k].to - es[k].from < es[j].to - es[j].from || (es[k].to - es[k].from == es[j].to - es[j].from && k <= j)
    {
      if Holds(es[i], t) && (k < 0 || es[i].to - es[i].from < es[k].to - es[k].from) { k := i; }
    }
  }

  /** What is checked before a cache file is sized from a server-supplied range. */
  predicate RangeOk(t: Term, e: Fetch) {
    t.start < t.end && e.start < e.end <= MAX_CHUNKS && 0 <= e.from <= e.to
  }

  datatype Selected = Selected(xorb: Name, from: int, to: int, start: nat, end: nat)

  /** Tables of chunk ends, as stored xorbs have them. */
  ghost predicate TablesOk(offsets: Offsets) {
    forall x {:trigger offsets[x]} :: x in offsets ==> Ascending(offsets[x]) && |offsets[x]| <= MAX_CHUNKS
  }

  /** One download per term; a term's chunks lie within it. */
  method PlanReader(r: Response) returns (plan: Option<seq<Selected>>)
    ensures plan.Some? ==> |plan.value| == |r.terms|
    ensures plan.Some? ==> forall i :: 0 <= i < |r.terms| ==> FitsIn(r.terms[i], plan.value[i])
    ensures plan.Some? ==> forall i :: 0 <= i < |r.terms| ==> FromPlan(r.fetch, plan.value[i])
    ensures plan.None? ==> exists i :: 0 <= i < |r.terms| && !Plannable(r.fetch, r.terms[i])
  {
    var sel: seq<Selected> := [];
    for i := 0 to |r.terms|
      invariant |sel| == i
      invariant forall j :: 0 <= j < i ==> FitsIn(r.terms[j], sel[j])
      invariant forall j :: 0 <= j < i ==> FromPlan(r.fetch, sel[j])
    {
      var t := r.terms[i];
      if t.xorb !in r.fetch || r.fetch[t.xorb] == [] { return None; }
      var es := r.fetch[t.xorb];
      var k := SelectFetch(es, t);
      if k < 0 { return None; }
      if !RangeOk(t, es[k]) { return None; }
      sel := sel + [Selected(t.xorb, es[k].from, es[k].to, es[k].start, es[k].end)];
    }
    plan := Some(sel);
  }

  ghost predicate FitsIn(t: Term, s: Selected) { s.xorb == t.xorb && s.start <= t.start < t.end <= s.end }

  ghost predicate FromPlan(fetch: FetchMap, s: Selected) {
    s.xorb in fetch && exists e ::
      e in fetch[s.xorb] && e.from == s.from && e.to == s.to && e.start == s.start && e.end == s.end
  }

  /** Some entry holds the term, and every entry that does is acceptable. */
  ghost predicate Plannable(fetch: FetchMap, t: Term) {
    && t.xorb in fetch && (exists e :: e in fetch[t.xorb] && Holds(e, t))
    && forall e :: e in fetch[t.xorb] && Holds(e, t) ==> RangeOk(t, e)
  }

  /** Planning a built or split response never fails. */
  lemma PlannedIsPlannable(r: Response, offsets: Offsets, url: Name -> string, i: nat)
    requires Planned(r, offsets, url) && TablesOk(offsets) && i < |r.terms| && r.terms[i].start < r.terms[i].end
    ensures Plannable(r.fetch, r.terms[i])
  {
    var t := r.terms[i];
    var es := r.fetch[t.xorb];
    var k :| 0 <= k < |es| && es[k].start == t.start && es[k].end >= t.end;
    assert es[k] in es && Holds(es[k], t);
    forall e | e in es && Holds(e, t) ensures RangeOk(t, e) {
      assert EntryRight(offsets, url, t.xorb, e);
      var offs := offsets[t.xorb];
      assert Ascending(offs);
      if e.start > 0 { assert offs[e.start - 1] < offs[e.end - 1]; }
    }
  }

  /** Two selections with the same download key are the same chunk range. */
  lemma SameKeySameChunks(r: Response, offsets: Offsets, url: Name -> string, a: Selected, b: Selected)
    requires Planned(r, offsets, url) && TablesOk(offsets) && FromPlan(r.fetch, a) && FromPlan(r.fetch, b)
    requires a.xorb == b.xorb && a.from == b.from && a.to == b.to
    ensures a == b
  {
    var e :| e in r.fetch[a.xorb] && e.from == a.from && e.to == a.to && e.start == a.start && e.end == a.end;
    var f :| f in r.fetch[b.xorb] && f.from == b.from && f.to == b.to && f.start == b.start && f.end == b.end;
    assert EntryRight(offsets, url, a.xorb, e) && EntryRight(offsets, url, b.xorb, f);
    assert Ascending(offsets[a.xorb]);
    DataRangeInjective(offsets[a.xorb], e.start, e.end, f.start, f.end);
  }

  // ---------------------------------------------------------------- the second response format

  datatype RangeDescriptor = RangeDescriptor(start: nat, end: nat, from: int, to: int)

  /** Several ranges of one xorb behind one URL. */
  datatype MultiFetch = MultiFetch(url: string, ranges: seq<RangeDescriptor>)

  datatype ResponseV2 = ResponseV2(offset: int, terms: seq<Term>, xorbs: map<Name, seq<MultiFetch>>)

  function Descriptors(es: seq<Fetch>): (r: seq<RangeDescriptor>)
    ensures |r| == |es| && forall i :: 0 <= i < |es| ==>
      r[i] == RangeDescriptor(es[i].start, es[i].end, es[i].from, es[i].to)
  {
    seq(|es|, i requires 0 <= i < |es| => RangeDescriptor(es[i].start, es[i].end, es[i].from, es[i].to))
  }

  /** One multi-range fetch per xorb, with all its ranges. */
  function ToV2(r: Response, url: Name -> string): ResponseV2 {
    ResponseV2(r.offset, r.terms, map x | x in r.fetch :: [MultiFetch(url(x), Descriptors(r.fetch[x]))])
  }

  /** The smallest range holding the term over all fetches of its xorb, the first among equals. */
  method SelectFetchV2(fs: seq<MultiFetch>, t: Term) returns (i: int, j: int)
    ensures i < 0 <==> forall a, b :: 0 <= a < |fs| && 0 <= b < |fs[a].ranges| ==> !HoldsV2(fs[a].ranges[b], t)
    ensures i >= 0 ==> i < |fs| && 0 <= j < |fs[i].ranges| && HoldsV2(fs[i].ranges[j], t)
    ensures i >= 0 ==> forall a, b :: 0 <= a < |fs| && 0 <= b < |fs[a].ranges| && HoldsV2(fs[a].ranges[b], t) ==>
      Width(fs[i].ranges[j]) < Width(fs[a].ranges[b])
      || (Width(fs[i].ranges[j]) == Width(fs[a].ranges[b]) && (i < a || (i == a && j <= b)))
  {
    i, j := -1, -1;
    for a := 0 to |fs|
      invariant i < a && (i < 0 <==> forall p, q :: 0 <= p < a && 0 <= q < |fs[p].ranges| ==>
        !HoldsV2(fs[p].ranges[q], t))
      invariant i >= 0 ==> 0 <= j < |fs[i].ranges| && HoldsV2(fs[i].ranges[j], t)
      invariant i >= 0 ==> forall p, q :: 0 <= p < a && 0 <= q < |fs[p].ranges| && HoldsV2(fs[p].ranges[q], t) ==>
        Width(fs[i].ranges[j]) < Width(fs[p].ranges[q])
        || (Width(fs[i].ranges[j]) == Width(fs[p].ranges[q]) && (i < p || (i == p && j <= q)))
    {
      for b := 0 to |fs[a].ranges|
        invariant i <= a && (i == a ==> j < b)
        invariant i < 0 <==> forall p, q :: 0 <= p <= a && 0 <= q < |fs[p].ranges| && (p < a || q < b) ==>
          !HoldsV2(fs[p].ranges[q], t)
        invariant i >= 0 ==> 0 <= j < |fs[i].ranges| && HoldsV2(fs[i].ranges[j], t)
        invariant i >= 0 ==> forall p, q ::
          0 <= p <= a && 0 <= q < |fs[p].ranges| && (p < a || q < b) && HoldsV2(fs[p].ranges[q], t) ==>
          Width(fs[i].ranges[j]) < Width(fs[p].ranges[q])
          || (Width(fs[i].ranges[j]) == Width(fs[p].ranges[q]) && (i < p || (i == p && j <= q)))
      {
        if HoldsV2(fs[a].ranges[b], t) && (i < 0 || Width(fs[a].ranges[b]) < Width(fs[i].ranges[j])) { i, j := a, b; }
      }
    }
  }

  predicate HoldsV2(d: RangeDescriptor, t: Term) { d.start <= t.start && t.end <= d.end }

  function Width(d: RangeDescriptor): int { d.to - d.from }

  /** Both formats of a response make a reader choose the same chunk and byte range for every term. */
  method SelectionsAgree(r: Response, url: Name -> string, t: Term) returns (k: int, j: int)
    requires t.xorb in r.fetch
    ensures k == j && (k >= 0 ==> k < |r.fetch[t.xorb]| && Holds(r.fetch[t.xorb][k], t))
    ensures k >= 0 ==>
      ToV2(r, url).xorbs[t.xorb][0].ranges[j] ==
        RangeDescriptor(r.fetch[t.xorb][k].start, r.fetch[t.xorb][k].end, r.fetch[t.xorb][k].from,
        r.fetch[t.xorb][k].to)
  {
    var es, fs := r.fetch[t.xorb], ToV2(r, url).xorbs[t.xorb];
    k := SelectFetch(es, t);
    var i;
    i, j := SelectFetchV2(fs, t);
    var d := fs[0].ranges;
    assert forall b :: 0 <= b < |es| ==>
      (HoldsV2(d[b], t) <==> Holds(es[b], t)) && Width(d[b]) == es[b].to - es[b].from;
    if k >= 0 {
      assert HoldsV2(fs[0].ranges[k], t);
      assert i == 0 && HoldsV2(fs[0].ranges[j], t);
      assert Holds(es[j], t);
      assert Width(fs[0].ranges[j]) <= Width(fs[0].ranges[k]);
    } else {
      k, j := -1, -1;
    }
  }
}
