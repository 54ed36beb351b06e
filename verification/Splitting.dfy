/** Splitting a response into more terms without changing what it means. */
module Splitting {
  import opened Common
  import opened Planning
  import opened Reading

  /** The requested bytes [lo, hi) of a response and the fewest a piece may keep. */
  datatype Window = Window(lo: int, hi: int, floor: int)

  /** A term at response offset start, a part of input term src, with its chosen cut: chunk cut at response offset at,
      cut 0 for none. sizes lists its xorb's chunks when the shard has them. */
  datatype Piece = Piece(term: Term, src: nat, sizes: Option<seq<nat>>, start: int, split: bool, want: int, cut: nat,
    at: int)

  function Wanted(w: Window, start: int, end: int): int { Max(Min(end, w.hi) - Max(start, w.lo), 0) }

  // ---------------------------------------------------------------- choosing a cut

  /** The response offset of chunk boundary c of the piece. */
  function Boundary(p: Piece, c: nat): int
    requires p.sizes.Some? && p.term.start <= c <= |p.sizes.value|
  {
    p.start + Span(p.sizes.value, p.term.start, c)
  }

  /** A cut at chunk c lies strictly inside the window and leaves the floor on both sides. */
  predicate Admissible(w: Window, p: Piece, c: nat) {
    && p.sizes.Some? && p.term.start < c < p.term.end <= |p.sizes.value|
    && w.lo < Boundary(p, c) < w.hi
    && Wanted(w, p.start, Boundary(p, c)) >= w.floor && Wanted(w, Boundary(p, c), p.start + p.term.length) >= w.floor
  }

  function Middle2(w: Window, p: Piece): int { Max(p.start, w.lo) + Min(p.start + p.term.length, w.hi) }

  function Distance(w: Window, p: Piece, at: int): int { Max(2 * at - Middle2(w, p), Middle2(w, p) - 2 * at) }

  /** Cut c is at least as near the middle as cut d, and the lower when they are equally near. */
  predicate Nearer(w: Window, p: Piece, c: nat, d: nat)
    requires Admissible(w, p, c) && Admissible(w, p, d)
  {
    var x, y := Distance(w, p, Boundary(p, c)), Distance(w, p, Boundary(p, d));
    x < y || (x == y && c <= d)
  }

  /** Of the admissible cuts below n, cut is the nearest to the middle of the requested bytes; 0 for none. */
  ghost predicate Best(w: Window, p: Piece, n: nat, cut: nat) {
    if cut == 0 then forall c: nat :: c < n ==> !Admissible(w, p, c)
    else cut < n && Admissible(w, p, cut) && forall c: nat :: c < n && Admissible(w, p, c) ==> Nearer(w, p, cut, c)
  }

  lemma BestNext(w: Window, p: Piece, n: nat, cut: nat)
    requires 0 < n && Best(w, p, n, cut)
    ensures Admissible(w, p, n) && cut == 0 ==> Best(w, p, n + 1, n)
    ensures Admissible(w, p, n) && cut > 0 && Distance(w, p, Boundary(p, n)) < Distance(w, p, Boundary(p, cut)) ==>
      Best(w, p, n + 1, n)
    ensures Admissible(w, p, n) && cut > 0 && Distance(w, p, Boundary(p, n)) >= Distance(w, p, Boundary(p, cut)) ==>
      Best(w, p, n + 1, cut)
    ensures !Admissible(w, p, n) ==> Best(w, p, n + 1, cut)
  {}

  /** The piece's requested bytes are known, and its cut. */
  ghost predicate WellPlanned(w: Window, p: Piece) {
    && p.want == Wanted(w, p.start, p.start + p.term.length)
    && Best(w, p, p.term.end, p.cut)
    && (p.cut > 0 ==> p.at == Boundary(p, p.cut))
  }

  method Plan(w: Window, p: Piece) returns (q: Piece)
    requires p.sizes.Some? ==> p.term.end <= |p.sizes.value|
    ensures q == p.(want := q.want, cut := q.cut, at := q.at) && WellPlanned(w, q)
    ensures if q.cut == 0 then forall c, at :: !CanCut(w, p, c, at)
      else CanCut(w, p, q.cut, q.at) && forall c, at :: CanCut(w, p, c, at) ==> NoFarther(w, p, q.cut, q.at, c, at)
  {
    var want, cut, where := Wanted(w, p.start, p.start + p.term.length), 0, p.at;
    if p.sizes.Some? && p.term.start < p.term.end { cut, where := FindCut(w, p); }
    q := p.(want := want, cut := cut, at := where);
    SamePlan(w, p, q);
    forall c, at | CanCut(w, p, c, at) ensures q.cut > 0 && NoFarther(w, p, q.cut, q.at, c, at) { CutIs(w, p, c); }
    if q.cut > 0 { CutIs(w, p, q.cut); }
  }

  /** Chunk c of the piece starts at response offset at, inside the window, and at least the floor of requested bytes
      lies on both sides. */
  ghost predicate CanCut(w: Window, p: Piece, c: nat, at: int) {
    && p.sizes.Some? && p.term.start < c < p.term.end <= |p.sizes.value|
    && at == p.start + Sum(p.sizes.value[p.term.start..c]) && w.lo < at < w.hi
    && w.floor <= Min(at - p.start, at - w.lo)
    && w.floor <= Max(0, Min(p.start + p.term.length - at, w.hi - at))
  }

  /** Offset at is no farther from the middle of the requested bytes than offset other, and below it when they are as
      far. */
  ghost predicate NoFarther(w: Window, p: Piece, c: nat, at: int, d: nat, other: int) {
    var middle := Max(p.start, w.lo) + Min(p.start + p.term.length, w.hi);
    var x, y := 2 * at - middle, 2 * other - middle;
    Max(x, -x) < Max(y, -y) || (Max(x, -x) == Max(y, -y) && c <= d)
  }

  lemma CutIs(w: Window, p: Piece, c: nat)
    ensures Admissible(w, p, c) <==> exists at :: CanCut(w, p, c, at)
    ensures Admissible(w, p, c) ==> CanCut(w, p, c, Boundary(p, c))
  {
    if p.sizes.Some? && p.term.start < c < p.term.end <= |p.sizes.value| {
      assert Admissible(w, p, c) <==> CanCut(w, p, c, Boundary(p, c));
    }
  }

  method FindCut(w: Window, p: Piece) returns (cut: nat, where: int)
    requires p.sizes.Some? && p.term.start < p.term.end <= |p.sizes.value|
    ensures Best(w, p, p.term.end, cut) && (cut > 0 ==> where == Boundary(p, cut))
  {
    cut, where := 0, p.at;
    var end := p.start + p.term.length;
    var best, at := -1, p.start;
    assert p.sizes.value[p.term.start..p.term.start] == [];
    for c := p.term.start + 1 to p.term.end
      invariant at == Boundary(p, c - 1)
      invariant Best(w, p, c, cut)
      invariant if cut == 0 then best < 0 else where == Boundary(p, cut) && best == Distance(w, p, where)
    {
      SpanNext(p.sizes.value, p.term.start, c - 1);
      BestNext(w, p, c, cut);
      at := at + p.sizes.value[c - 1];
      if at <= w.lo || at >= w.hi || Wanted(w, p.start, at) < w.floor || Wanted(w, at, end) < w.floor { continue; }
      var d := Distance(w, p, at);
      if best < 0 || d < best { best, cut, where := d, c, at; }
    }
  }

  /** The chosen cut does not enter what is admissible. */
  lemma SamePlan(w: Window, p: Piece, q: Piece)
    requires q == p.(want := q.want, cut := q.cut, at := q.at)
    ensures forall c :: Admissible(w, p, c) == Admissible(w, q, c)
    ensures forall c :: Admissible(w, p, c) ==> Boundary(p, c) == Boundary(q, c)
    ensures forall a :: Distance(w, p, a) == Distance(w, q, a)
  {}

  // ---------------------------------------------------------------- pieces of a response

  function TermsOf(ps: seq<Piece>): (ts: seq<Term>)
    ensures |ts| == |ps| && forall i :: 0 <= i < |ps| ==> ts[i] == ps[i].term
  {
    seq(|ps|, i requires 0 <= i < |ps| => ps[i].term)
  }

  /** The chunk sizes the shard's first block of a xorb lists. */
  function BlockSizes(cas: seq<ChunkSizes>, x: Name): Option<seq<nat>> {
    if cas == [] then None else if cas[0].xorb == x then Some(cas[0].sizes) else BlockSizes(cas[1..], x)
  }

  function ChunkSum(sizes: seq<nat>, s: nat, e: nat): nat
    requires e <= |sizes|
  {
    if s <= e then Span(sizes, s, e) else 0
  }

  /** The shard lists no chunks of the term's xorb, or its list covers the term and adds up to it. */
  predicate Matches(cas: seq<ChunkSizes>, t: Term) {
    var b := BlockSizes(cas, t.xorb);
    b.None? || (t.end <= |b.value| && ChunkSum(b.value, t.start, t.end) == t.length)
  }

  /** What holds of every piece. A cut piece starts before the window ends and keeps at least the floor of requested
      bytes. */
  ghost predicate PieceOk(cas: seq<ChunkSizes>, terms: seq<Term>, w: Window, p: Piece) {
    && p.src < |terms| && Within(p.term, terms[p.src])
    && p.sizes == BlockSizes(cas, p.term.xorb) && Matches(cas, p.term)
    && (!p.split ==> p.term == terms[p.src])
    && (p.split ==>
      p.sizes.Some? && p.term.start < p.term.end && p.start < w.hi &&
      Wanted(w, p.start, p.start + p.term.length) >= w.floor)
    && WellPlanned(w, p)
  }

  ghost predicate AllOk(cas: seq<ChunkSizes>, terms: seq<Term>, w: Window, ps: seq<Piece>) {
    forall p {:trigger PieceOk(cas, terms, w, p)} :: p in ps ==> PieceOk(cas, terms, w, p)
  }

  /** Pieces follow each other in the response from offset at. */
  ghost predicate StartsFrom(ps: seq<Piece>, at: int) {
    ps != [] ==> ps[0].start == at && StartsFrom(ps[1..], at + ps[0].term.length)
  }

  /** ps is a way to cut the terms: the same chunks in the same order, the same total, at the right offsets. */
  ghost predicate PiecesOf(ps: seq<Piece>, terms: seq<Term>) {
    Refs(TermsOf(ps)) == Refs(terms) && TotalLength(TermsOf(ps)) == TotalLength(terms) && StartsFrom(ps, 0)
  }

  /** One piece per term, unless the shard contradicts a term. */
  method MakePieces(cas: seq<ChunkSizes>, terms: seq<Term>, w: Window) returns (r: Option<seq<Piece>>)
    ensures r.Some? <==> forall i :: 0 <= i < |terms| ==> Matches(cas, terms[i])
    ensures r.Some? ==> TermsOf(r.value) == terms && PiecesOf(r.value, terms) && AllOk(cas, terms, w, r.value)
  {
    var ps: seq<Piece> := [];
    var size := 0;
    for i := 0 to |terms|
      invariant forall j :: 0 <= j < i ==> Matches(cas, terms[j])
      invariant TermsOf(ps) == terms[..i] && size == TotalLength(terms[..i]) && StartsFrom(ps, 0)
      invariant AllOk(cas, terms, w, ps)
    {
      var t := terms[i];
      if !Matches(cas, t) { return None; }
      var p := Plan(w, Piece(t, i, BlockSizes(cas, t.xorb), size, false, 0, 0, 0));
      assert PieceOk(cas, terms, w, p);
      assert terms[..i + 1] == terms[..i] + [t];
      TotalAppend(terms[..i], [t]);
      StartsAppend(ps, [p], 0);
      ps, size := ps + [p], size + t.length;
    }
    assert terms[..|terms|] == terms;
    r := Some(ps);
  }

  lemma {:induction false} TotalAppend(a: seq<Term>, b: seq<Term>)
    ensures TotalLength(a + b) == TotalLength(a) + TotalLength(b)
    ensures b != [] && |b| == 1 ==> TotalLength(b) == b[0].length
  {
    if a == [] {
      assert a + b == b;
    } else {
      assert (a + b)[1..] == a[1..] + b;
      TotalAppend(a[1..], b);
    }
  }

  lemma {:induction false} StartsAppend(a: seq<Piece>, b: seq<Piece>, at: int)
    ensures StartsFrom(a + b, at) <==> StartsFrom(a, at) && StartsFrom(b, at + TotalLength(TermsOf(a)))
  {
    if a == [] {
      assert a + b == b;
    } else {
      assert (a + b)[1..] == a[1..] + b && TermsOf(a)[1..] == TermsOf(a[1..]);
      StartsAppend(a[1..], b, at + a[0].term.length);
    }
  }

  // ---------------------------------------------------------------- cutting a piece

  function HeadTerm(p: Piece): Term
    requires p.start <= p.at
  {
    p.term.(end := p.cut, length := p.at - p.start)
  }

  function TailTerm(p: Piece): Term
    requires p.start <= p.at <= p.start + p.term.length
  {
    p.term.(start := p.cut, length := p.term.length - (p.at - p.start))
  }

  /** Cutting at the planned chunk: both halves match the shard and keep the floor, and the tail starts in the
      window. */
  lemma CutFits(cas: seq<ChunkSizes>, terms: seq<Term>, w: Window, p: Piece)
    requires PieceOk(cas, terms, w, p) && p.cut > 0
    ensures p.start <= p.at <= p.start + p.term.length && w.lo < p.at < w.hi
    ensures p.term.start < p.cut < p.term.end && p.sizes.Some?
    ensures Matches(cas, HeadTerm(p)) && Matches(cas, TailTerm(p))
    ensures Wanted(w, p.start, p.at) >= w.floor && Wanted(w, p.at, p.start + p.term.length) >= w.floor
  {
    SpanSplit(p.sizes.value, p.term.start, p.cut, p.term.end);
  }

  /** Replacing a piece by its two halves. */
  lemma CutKeepsPieces(a: seq<Piece>, p: Piece, head: Piece, tail: Piece, b: seq<Piece>, terms: seq<Term>)
    requires PiecesOf(a + [p] + b, terms) && p.start <= p.at <= p.start + p.term.length &&
      p.term.start < p.cut < p.term.end
    requires head.term == HeadTerm(p) && head.start == p.start && tail.term == TailTerm(p) && tail.start == p.at
    ensures PiecesOf(a + [head, tail] + b, terms)
  {
    CutRefs(TermsOf(a), p.term, head.term, tail.term, TermsOf(b));
    CutTotals(TermsOf(a), p.term, head.term, tail.term, TermsOf(b));
    assert TermsOf(a + [p] + b) == TermsOf(a) + [p.term] + TermsOf(b);
    assert TermsOf(a + [head, tail] + b) == TermsOf(a) + [head.term, tail.term] + TermsOf(b);
    CutStarts(a, p, head, tail, b);
  }

  lemma CutStarts(a: seq<Piece>, p: Piece, head: Piece, tail: Piece, b: seq<Piece>)
    requires StartsFrom(a + [p] + b, 0)
    requires head.start == p.start && tail.start == p.start + head.term.length &&
      head.term.length + tail.term.length == p.term.length
    ensures StartsFrom(a + [head, tail] + b, 0)
  {
    var at := TotalLength(TermsOf(a));
    assert a + [p] + b == a + ([p] + b) && a + [head, tail] + b == a + ([head, tail] + b);
    StartsAppend(a, [p] + b, 0);
    StartsAppend(a, [head, tail] + b, 0);
    assert ([p] + b)[1..] == b;
    assert ([head, tail] + b)[1..] == [tail] + b && ([tail] + b)[1..] == b;
  }

  lemma CutRefs(a: seq<Term>, p: Term, head: Term, tail: Term, b: seq<Term>)
    requires head.xorb == p.xorb == tail.xorb && p.start == head.start <= head.end == tail.start <= tail.end == p.end
    ensures Refs(a + [head, tail] + b) == Refs(a + [p] + b)
  {
    RefsAppend(a + [p], b);
    RefsAppend(a, [p]);
    RefsAppend(a + [head, tail], b);
    RefsAppend(a, [head, tail]);
    HalvesRefs(p, head, tail);
  }

  lemma HalvesRefs(p: Term, head: Term, tail: Term)
    requires head.xorb == p.xorb == tail.xorb && p.start == head.start <= head.end == tail.start <= tail.end == p.end
    ensures Refs([head, tail]) == Refs([p])
  {
    assert [p][1..] == [] && [head, tail][1..] == [tail] && [tail][1..] == [];
    assert TermRefs(p) == TermRefs(head) + TermRefs(tail);
  }

  lemma CutTotals(a: seq<Term>, p: Term, head: Term, tail: Term, b: seq<Term>)
    requires p.length == head.length + tail.length
    ensures TotalLength(a + [head, tail] + b) == TotalLength(a + [p] + b)
  {
    TotalAppend(a + [p], b);
    TotalAppend(a, [p]);
    TotalAppend(a + [head, tail], b);
    TotalAppend(a, [head, tail]);
    assert [head, tail][1..] == [tail];
    TotalAppend([], [tail]);
  }

  // ---------------------------------------------------------------- the splitting loop

  /** Piece k is the first with the most requested bytes among those that can be cut. */
  predicate Chosen(ps: seq<Piece>, k: nat) {
    && k < |ps| && ps[k].cut > 0
    && forall i :: 0 <= i < |ps| && ps[i].cut > 0 ==> ps[i].want < ps[k].want || (ps[i].want == ps[k].want && k <= i)
  }

  /** next is ps with piece k replaced by its two halves. */
  ghost predicate CutAt(ps: seq<Piece>, k: nat, next: seq<Piece>) {
    && k < |ps| && ps[k].start <= ps[k].at <= ps[k].start + ps[k].term.length && |next| == |ps| + 1
    && next == ps[..k] + [next[k], next[k + 1]] + ps[k + 1..]
    && next[k].term == HeadTerm(ps[k]) && next[k + 1].term == TailTerm(ps[k])
  }

  ghost predicate StepOf(ps: seq<Piece>, next: seq<Piece>) { exists k :: Chosen(ps, k) && CutAt(ps, k, next) }

  /** Every step of the run halves the chosen piece. */
  ghost predicate CutRun(trace: seq<seq<Piece>>) {
    forall i, j {:trigger trace[i], trace[j]} :: 0 <= i && j == i + 1 && j < |trace| ==> StepOf(trace[i], trace[j])
  }

  /** The first piece still holds the whole offset, which readers skip in the first term only. */
  ghost predicate FirstHolds(ps: seq<Piece>, offset: int) { ps != [] ==> ps[0].term.length > offset }

  method Choose(ps: seq<Piece>) returns (k: int)
    ensures k < 0 <==> forall i :: 0 <= i < |ps| ==> ps[i].cut == 0
    ensures k >= 0 ==> Chosen(ps, k)
  {
    k := -1;
    for i := 0 to |ps|
      invariant k < i && (k < 0 <==> forall j :: 0 <= j < i ==> ps[j].cut == 0)
      invariant k >= 0 ==> Chosen(ps[..i], k)
    {
      if ps[i].cut > 0 && (k < 0 || ps[i].want > ps[k].want) { k := i; }
    }
    assert ps[..|ps|] == ps;
  }

  method Halve(cas: seq<ChunkSizes>, terms: seq<Term>, w: Window, p: Piece) returns (head: Piece, tail: Piece)
    requires PieceOk(cas, terms, w, p) && p.cut > 0
    ensures PieceOk(cas, terms, w, head) && PieceOk(cas, terms, w, tail)
    ensures p.start <= p.at <= p.start + p.term.length && p.term.start < p.cut < p.term.end && w.lo < p.at
    ensures head.term == HeadTerm(p) && head.start == p.start && tail.term == TailTerm(p) && tail.start == p.at
  {
    CutFits(cas, terms, w, p);
    head := Plan(w, p.(term := HeadTerm(p), split := true));
    tail := Plan(w, p.(term := TailTerm(p), start := p.at, split := true));
  }

  method CutOnce(cas: seq<ChunkSizes>, terms: seq<Term>, w: Window, ps: seq<Piece>, k: nat) returns (next: seq<Piece>)
    requires AllOk(cas, terms, w, ps) && PiecesOf(ps, terms) && k < |ps| && ps[k].cut > 0
    ensures AllOk(cas, terms, w, next) && PiecesOf(next, terms) && CutAt(ps, k, next)
    ensures FirstHolds(ps, w.lo) ==> FirstHolds(next, w.lo)
  {
    assert PieceOk(cas, terms, w, ps[k]);
    var head, tail := Halve(cas, terms, w, ps[k]);
    ghost var a, b := ps[..k], ps[k + 1..];
    assert ps == a + [ps[k]] + b;
    CutKeepsPieces(a, ps[k], head, tail, b, terms);
    next := ps[..k] + [head, tail] + ps[k + 1..];
    forall p | p in next ensures PieceOk(cas, terms, w, p) {
      if p != head && p != tail { assert p in a || p in b; assert p in ps; }
    }
    assert next[k] == head && next[k + 1] == tail;
    if k > 0 { assert next[0] == ps[0]; }
  }

  /** Halves the term with the most requested bytes until there are minTerms terms or nothing can be cut. */
  method CutPieces(cas: seq<ChunkSizes>, terms: seq<Term>, w: Window, first: seq<Piece>, minTerms: int)
    returns (ps: seq<Piece>, ghost trace: seq<seq<Piece>>)
    requires AllOk(cas, terms, w, first) && PiecesOf(first, terms) && |first| < minTerms
    ensures AllOk(cas, terms, w, ps) && PiecesOf(ps, terms) && (FirstHolds(first, w.lo) ==> FirstHolds(ps, w.lo))
    ensures |ps| == minTerms || (|ps| < minTerms && forall i :: 0 <= i < |ps| ==> ps[i].cut == 0)
    ensures |trace| > 0 && trace[0] == first && trace[|trace| - 1] == ps && CutRun(trace) &&
      |ps| == |first| + |trace| - 1
  {
    ps, trace := first, [first];
    while |ps| < minTerms
      invariant AllOk(cas, terms, w, ps) && PiecesOf(ps, terms) && |ps| <= minTerms
      invariant FirstHolds(first, w.lo) ==> FirstHolds(ps, w.lo)
      invariant |trace| > 0 && trace[0] == first && trace[|trace| - 1] == ps && CutRun(trace) &&
        |ps| == |first| + |trace| - 1
    {
      var k := Choose(ps);
      if k < 0 { break; }
      var next := CutOnce(cas, terms, w, ps, k);
      assert StepOf(ps, next);
      ExtendRun(trace, next);
      ps, trace := next, trace + [next];
    }
  }

  lemma ExtendRun(trace: seq<seq<Piece>>, next: seq<Piece>)
    requires |trace| > 0 && CutRun(trace) && StepOf(trace[|trace| - 1], next)
    ensures CutRun(trace + [next])
  {}

  // ---------------------------------------------------------------- the new fetch plan

  /** By start chunk, the longest first. */
  predicate Precedes(a: Fetch, b: Fetch) { a.start < b.start || (a.start == b.start && a.end >= b.end) }

  ghost predicate Sorted(es: seq<Fetch>) { forall i, j :: 0 <= i < j < |es| ==> Precedes(es[i], es[j]) }

  function Insert(es: seq<Fetch>, e: Fetch): seq<Fetch> {
    if es != [] && Precedes(es[0], e) then [es[0]] + Insert(es[1..], e) else [e] + es
  }

  function Sort(es: seq<Fetch>): seq<Fetch> {
    if es == [] then [] else Insert(Sort(es[..|es| - 1]), es[|es| - 1])
  }

  lemma {:induction false} InsertSorts(es: seq<Fetch>, e: Fetch)
    requires Sorted(es)
    ensures Sorted(Insert(es, e)) && multiset(Insert(es, e)) == multiset(es) + multiset{e}
  {
    if es != [] && Precedes(es[0], e) {
      InsertSorts(es[1..], e);
      var rest := Insert(es[1..], e);
      assert es == [es[0]] + es[1..];
      forall j | 0 <= j < |rest| ensures Precedes(es[0], rest[j]) {
        assert rest[j] in multiset(rest);
        assert rest[j] in es[1..] || rest[j] == e;
      }
    }
  }

  lemma {:induction false} SortSorts(es: seq<Fetch>)
    ensures Sorted(Sort(es)) && multiset(Sort(es)) == multiset(es)
  {
    if es != [] {
      var n := |es| - 1;
      SortSorts(es[..n]);
      InsertSorts(Sort(es[..n]), es[n]);
      assert es == es[..n] + [es[n]];
    }
  }

  /** Keeps the first of the entries sharing a start. */
  function Compact(es: seq<Fetch>): seq<Fetch>
    decreases |es|
  {
    if |es| < 2 then es
    else if es[0].start == es[1].start then Compact([es[0]] + es[2..])
    else [es[0]] + Compact(es[1..])
  }

  ghost predicate StrictlyAscending(es: seq<Fetch>) { forall i, j :: 0 <= i < j < |es| ==> es[i].start < es[j].start }

  /** The result is taken from the entries, starts each once and covers each of them. */
  ghost predicate Compacts(es: seq<Fetch>, r: seq<Fetch>) {
    && (forall e :: e in r ==> e in es)
    && (forall e {:trigger e in es} :: e in es ==> CoveredBy(r, e.start, e.end))
    && StrictlyAscending(r)
  }

  lemma {:induction false} CompactCovers(es: seq<Fetch>)
    requires Sorted(es)
    ensures Compacts(es, Compact(es))
    decreases |es|
  {
    if |es| < 2 {
      FewCompact(es);
    } else if es[0].start == es[1].start {
      SkipSecond(es);
      CompactCovers([es[0]] + es[2..]);
      CompactSkip(es, Compact(es));
    } else {
      CompactCovers(es[1..]);
      CompactTail(es, Compact(es[1..]));
    }
  }

  lemma FewCompact(es: seq<Fetch>)
    requires |es| < 2
    ensures Compacts(es, es)
  {
    forall e | e in es ensures CoveredBy(es, e.start, e.end) { assert es[0] == e; }
  }

  lemma CompactSkip(es: seq<Fetch>, r: seq<Fetch>)
    requires |es| >= 2 && es[0].start == es[1].start && es[0].end >= es[1].end && Compacts([es[0]] + es[2..], r)
    requires es[0] in [es[0]] + es[2..] && forall e :: e in es <==> e == es[1] || e in [es[0]] + es[2..]
    ensures Compacts(es, r)
  {
    WiderCovers(r, es[0], es[1]);
  }

  /** Of two entries that start together the sort puts the wider first, so the second can go. */
  lemma SkipSecond(es: seq<Fetch>)
    requires |es| >= 2 && Sorted(es) && es[0].start == es[1].start
    ensures Sorted([es[0]] + es[2..]) && es[0] in [es[0]] + es[2..] && es[0].end >= es[1].end
    ensures forall e :: e in es <==> e == es[1] || e in [es[0]] + es[2..]
  {
    var rest := [es[0]] + es[2..];
    assert Precedes(es[0], es[1]) && rest[0] == es[0];
    assert es == [es[0], es[1]] + es[2..];
    forall i, j | 0 <= i < j < |rest| ensures Precedes(rest[i], rest[j]) {
      assert rest[j] == es[j + 1] && rest[i] == if i == 0 then es[0] else es[i + 1];
    }
  }

  lemma WiderCovers(r: seq<Fetch>, e: Fetch, f: Fetch)
    requires CoveredBy(r, e.start, e.end) && e.start == f.start && e.end >= f.end
    ensures CoveredBy(r, f.start, f.end)
  {
    var k :| 0 <= k < |r| && r[k].start == e.start && r[k].end >= e.end;
  }

  lemma TailCovers(head: Fetch, rest: seq<Fetch>, e: Fetch)
    requires e == head || CoveredBy(rest, e.start, e.end)
    ensures CoveredBy([head] + rest, e.start, e.end)
  {
    var r := [head] + rest;
    if e == head {
      assert r[0] == e;
    } else {
      var k :| 0 <= k < |rest| && rest[k].start == e.start && rest[k].end >= e.end;
      assert r[k + 1] == rest[k];
    }
  }

  lemma LaterStart(es: seq<Fetch>, e: Fetch)
    requires |es| >= 2 && Sorted(es) && es[0].start != es[1].start && e in es[1..]
    ensures es[0].start < e.start
  {
    assert Precedes(es[0], es[1]);
    var k :| 1 <= k < |es| && es[k] == e;
    assert k > 1 ==> Precedes(es[1], es[k]);
  }

  lemma CompactTail(es: seq<Fetch>, rest: seq<Fetch>)
    requires |es| >= 2 && Sorted(es) && es[0].start != es[1].start && Compacts(es[1..], rest)
    ensures Compacts(es, [es[0]] + rest)
  {
    assert es == [es[0]] + es[1..];
    forall e | e in es ensures CoveredBy([es[0]] + rest, e.start, e.end) {
      assert e == es[0] || e in es[1..];
      TailCovers(es[0], rest, e);
    }
    forall j | 0 <= j < |rest| ensures es[0].start < rest[j].start { LaterStart(es, rest[j]); }
  }

  /** The xorbs some term of which was cut. */
  function CutXorbs(ps: seq<Piece>): set<Name> { set p | p in ps && p.split :: p.term.xorb }

  /** The URL of the first entry holding the term. */
  method UrlOf(es: seq<Fetch>, t: Term) returns (u: Option<string>)
    ensures u.None? <==> forall i :: 0 <= i < |es| ==> !Holds(es[i], t)
    ensures u.Some? ==> exists k :: 0 <= k < |es| && Holds(es[k], t) && u.value == es[k].url
  {
    for i := 0 to |es|
      invariant forall j :: 0 <= j < i ==> !Holds(es[j], t)
    {
      if Holds(es[i], t) { return Some(es[i].url); }
    }
    return None;
  }

  /** An entry for exactly the term's chunks. */
  ghost predicate Listed(groups: FetchMap, t: Term) {
    t.xorb in groups && exists e :: e in groups[t.xorb] && e.start == t.start && e.end == t.end
  }

  ghost predicate Gathered(groups: FetchMap, ps: seq<Piece>, cut: set<Name>, offsets: Offsets, url: Name -> string) {
    && PlanRight(groups, offsets, url) && groups.Keys <= cut
    && forall i {:trigger ps[i]} :: 0 <= i < |ps| && ps[i].term.xorb in cut ==> Listed(groups, ps[i].term)
  }

  /** The entry of one piece; its URL is that of its input term. */
  method PieceEntry(r: Response, p: Piece, offsets: Offsets, ghost url: Name -> string) returns (e: Option<Fetch>)
    requires p.src < |r.terms| && Within(p.term, r.terms[p.src])
    ensures e.Some? ==> Fetchable(offsets, p.term) && e.value.start == p.term.start && e.value.end == p.term.end
    ensures Planned(r, offsets, url) ==> (e.Some? <==> Fetchable(offsets, p.term))
    ensures Planned(r, offsets, url) && e.Some? ==> EntryRight(offsets, url, p.term.xorb, e.value)
  {
    var whole := r.terms[p.src];
    var es := if whole.xorb in r.fetch then r.fetch[whole.xorb] else [];
    var u := UrlOf(es, whole);
    if Planned(r, offsets, url) { UrlFound(r, p.src, offsets, url, u); }
    if u.None? || p.term.xorb !in offsets { return None; }
    var range := DataRange(offsets[p.term.xorb], p.term.start, p.term.end);
    if range.None? { return None; }
    e := Some(Fetch(p.term.start, p.term.end, range.value.0, range.value.1, u.value));
  }

  lemma UrlFound(r: Response, i: nat, offsets: Offsets, url: Name -> string, u: Option<string>)
    requires Planned(r, offsets, url) && i < |r.terms|
    requires u.None? <==> forall k :: 0 <= k < |r.fetch[r.terms[i].xorb]| ==>
      !Holds(r.fetch[r.terms[i].xorb][k], r.terms[i])
    requires u.Some? ==> exists k ::
      0 <= k < |r.fetch[r.terms[i].xorb]| && Holds(r.fetch[r.terms[i].xorb][k], r.terms[i]) &&
      u.value == r.fetch[r.terms[i].xorb][k].url
    ensures u == Some(url(r.terms[i].xorb))
  {
    var t := r.terms[i];
    var es := r.fetch[t.xorb];
    var k :| 0 <= k < |es| && es[k].start == t.start && es[k].end >= t.end;
    assert Holds(es[k], t);
    var j :| 0 <= j < |es| && Holds(es[j], t) && u.value == es[j].url;
    assert EntryRight(offsets, url, t.xorb, es[j]);
  }

  /** All pieces of the cut xorbs, by xorb, in response order. */
  method Gather(r: Response, ps: seq<Piece>, cut: set<Name>, offsets: Offsets, ghost url: Name -> string)
    returns (groups: Option<FetchMap>)
    requires forall i :: 0 <= i < |ps| ==> ps[i].src < |r.terms| && Within(ps[i].term, r.terms[ps[i].src])
    ensures Planned(r, offsets, url) && groups.Some? ==> Gathered(groups.value, ps, cut, offsets, url)
    ensures Planned(r, offsets, url) && groups.None? ==> exists i :: 0 <= i < |ps| && !Fetchable(offsets, ps[i].term)
  {
    var gs: FetchMap := map[];
    for i := 0 to |ps|
      invariant Planned(r, offsets, url) ==> Gathered(gs, ps[..i], cut, offsets, url)
    {
      var p := ps[i];
      if p.term.xorb in cut {
        var e := PieceEntry(r, p, offsets, url);
        if e.None? { return None; }
        if Planned(r, offsets, url) { GatherOne(gs, ps[..i], cut, offsets, url, p, e.value); }
        gs := gs[p.term.xorb := (if p.term.xorb in gs then gs[p.term.xorb] else []) + [e.value]];
      }
      assert ps[..i + 1] == ps[..i] + [p];
    }
    assert ps[..|ps|] == ps;
    groups := Some(gs);
  }

  lemma GatherOne(gs: FetchMap, ps: seq<Piece>, cut: set<Name>, offsets: Offsets, url: Name -> string, p: Piece,
                  e: Fetch)
    requires Gathered(gs, ps, cut, offsets, url) && p.term.xorb in cut
    requires EntryRight(offsets, url, p.term.xorb, e) && e.start == p.term.start && e.end == p.term.end
    ensures Gathered(gs[p.term.xorb := (if p.term.xorb in gs then gs[p.term.xorb] else []) + [e]], ps + [p], cut,
      offsets, url)
  {
    var x := p.term.xorb;
    var es := if x in gs then gs[x] else [];
    var gs' := gs[x := es + [e]];
    assert e in gs'[x];
    forall i | 0 <= i < |ps + [p]| && (ps + [p])[i].term.xorb in cut ensures Listed(gs', (ps + [p])[i].term) {
      if i < |ps| {
        var t := ps[i].term;
        assert Listed(gs, t);
        var f :| f in gs[t.xorb] && f.start == t.start && f.end == t.end;
        assert f in gs'[t.xorb];
      }
    }
    forall y, f | y in gs' && f in gs'[y] ensures EntryRight(offsets, url, y, f) {
      if y != x || f in es { assert y in gs && f in gs[y]; }
    }
  }

  /** Cut xorbs get the entries of their pieces, the others keep theirs. */
  function Refetch(fetch: FetchMap, groups: FetchMap, cut: set<Name>): FetchMap {
    (map x | x in fetch && x !in cut :: fetch[x]) + map x | x in groups :: Compact(Sort(groups[x]))
  }

  lemma RefetchPlans(r: Response, ps: seq<Piece>, groups: FetchMap, cut: set<Name>, offsets: Offsets,
                     url: Name -> string)
    requires Planned(r, offsets, url) && Gathered(groups, ps, cut, offsets, url)
    requires forall i :: 0 <= i < |ps| && ps[i].term.xorb !in cut ==>
      ps[i].src < |r.terms| && ps[i].term == r.terms[ps[i].src]
    ensures Planned(Response(r.offset, TermsOf(ps), Refetch(r.fetch, groups, cut)), offsets, url)
  {
    var fetch := Refetch(r.fetch, groups, cut);
    forall x, e | x in fetch && e in fetch[x] ensures EntryRight(offsets, url, x, e) {
      if x in groups { SortedIn(groups[x], e); } else { assert x in r.fetch && fetch[x] == r.fetch[x]; }
    }
    forall i | 0 <= i < |ps| ensures ps[i].term.xorb in fetch &&
      CoveredBy(fetch[ps[i].term.xorb], ps[i].term.start, ps[i].term.end) {
      var t := ps[i].term;
      if t.xorb in cut {
        assert Listed(groups, t);
        SortedCovers(groups[t.xorb], t);
      } else {
        assert t.xorb !in groups && fetch[t.xorb] == r.fetch[t.xorb];
      }
    }
  }

  lemma SortedIn(es: seq<Fetch>, e: Fetch)
    requires e in Compact(Sort(es))
    ensures e in es
  {
    SortSorts(es);
    CompactCovers(Sort(es));
    assert e in multiset(Sort(es));
  }

  lemma SortedCovers(es: seq<Fetch>, t: Term)
    requires exists e :: e in es && e.start == t.start && e.end == t.end
    ensures CoveredBy(Compact(Sort(es)), t.start, t.end)
  {
    var e :| e in es && e.start == t.start && e.end == t.end;
    SortSorts(es);
    assert e in multiset(es);
    assert e in Sort(es);
    CompactCovers(Sort(es));
  }

  // ---------------------------------------------------------------- meaning

  /** The bytes of a chunk list. */
  ghost function RefBytes(refs: seq<(Name, nat)>, c: Content): Bytes
    requires forall i :: 0 <= i < |refs| ==> refs[i].0 in c && refs[i].1 < |c[refs[i].0]|
  {
    if refs == [] then [] else c[refs[0].0][refs[0].1] + RefBytes(refs[1..], c)
  }

  ghost predicate RefsIn(refs: seq<(Name, nat)>, c: Content) {
    forall i :: 0 <= i < |refs| ==> refs[i].0 in c && refs[i].1 < |c[refs[i].0]|
  }

  lemma {:induction false} RefBytesAppend(a: seq<(Name, nat)>, b: seq<(Name, nat)>, c: Content)
    requires RefsIn(a, c) && RefsIn(b, c)
    ensures RefsIn(a + b, c) && RefBytes(a + b, c) == RefBytes(a, c) + RefBytes(b, c)
  {
    if a == [] {
      assert a + b == b;
    } else {
      assert (a + b)[1..] == a[1..] + b;
      RefBytesAppend(a[1..], b, c);
    }
  }

  lemma {:induction false} TermRefBytes(t: Term, c: Content)
    requires t.xorb in c && t.start <= t.end <= |c[t.xorb]|
    ensures RefsIn(TermRefs(t), c) && RefBytes(TermRefs(t), c) == Flatten(c[t.xorb][t.start..t.end])
    decreases t.end - t.start
  {
    if t.start < t.end {
      var rest := t.(start := t.start + 1);
      TermRefBytes(rest, c);
      assert TermRefs(t)[1..] == TermRefs(rest);
      assert c[t.xorb][t.start..t.end][1..] == c[t.xorb][rest.start..t.end];
    }
  }

  /** What a term list denotes depends only on the chunks it names. */
  lemma {:induction false} BytesAreRefs(ts: seq<Term>, c: Content)
    requires AllFaithful(ts, c)
    ensures RefsIn(Refs(ts), c) && RefBytes(Refs(ts), c) == BytesOf(ts, c)
  {
    if ts != [] {
      assert Faithful(ts[0], c);
      TermRefBytes(ts[0], c);
      BytesAreRefs(ts[1..], c);
      RefBytesAppend(TermRefs(ts[0]), Refs(ts[1..]), c);
    }
  }

  lemma BlockSizesTrue(cas: seq<ChunkSizes>, c: Content, x: Name)
    requires Truthful(cas, c)
    ensures BlockSizes(cas, x).Some? ==> x in c && BlockSizes(cas, x).value == Lengths(c[x])
  {
    if cas != [] {
      assert cas[0] == cas[0] && Truthful(cas[1..], c) by {
        forall b | 0 <= b < |cas[1..]| ensures cas[1..][b].xorb in c &&
          cas[1..][b].sizes == Lengths(c[cas[1..][b].xorb]) {
          assert cas[1..][b] == cas[b + 1];
        }
      }
      BlockSizesTrue(cas[1..], c, x);
    }
  }

  /** A truthful shard never contradicts a faithful term. */
  lemma FaithfulMatches(cas: seq<ChunkSizes>, c: Content, t: Term)
    requires Truthful(cas, c) && Faithful(t, c)
    ensures Matches(cas, t)
  {
    BlockSizesTrue(cas, c, t.xorb);
    ChunkSpan(c[t.xorb], t.start, t.end);
  }

  lemma PieceFaithful(cas: seq<ChunkSizes>, terms: seq<Term>, w: Window, p: Piece, c: Content)
    requires Truthful(cas, c) && AllFaithful(terms, c) && PieceOk(cas, terms, w, p)
    ensures Faithful(p.term, c)
  {
    if p.split {
      BlockSizesTrue(cas, c, p.term.xorb);
      ChunkSpan(c[p.term.xorb], p.term.start, p.term.end);
    } else {
      assert Faithful(terms[p.src], c);
    }
  }

  function WindowOf(offset: int, rng: ByteRange, pieceBytes: int): Window {
    Window(offset, offset + Max(rng.end - rng.start + 1, 0), Max(pieceBytes, 1))
  }

  /** No piece has an admissible cut. */
  ghost predicate Uncuttable(w: Window, ps: seq<Piece>) { forall p, c: nat :: p in ps ==> !Admissible(w, p, c) }

  lemma NoCutLeft(cas: seq<ChunkSizes>, terms: seq<Term>, w: Window, ps: seq<Piece>)
    requires AllOk(cas, terms, w, ps) && forall i :: 0 <= i < |ps| ==> ps[i].cut == 0
    ensures Uncuttable(w, ps)
  {
    forall p, c: nat | p in ps ensures !Admissible(w, p, c) {
      assert PieceOk(cas, terms, w, p);
    }
  }

  lemma EmissionIsDrop(ts: seq<Term>, c: Content, offset: int)
    requires AllFaithful(ts, c) && ts != [] && offset <= ts[0].length
    ensures Emission(ts, c, offset) == Drop(BytesOf(ts, c), offset)
  {
    assert Faithful(ts[0], c);
    DropFirst(TermBytes(ts[0], c), BytesOf(ts[1..], c), offset);
  }

  /** The same chunks in the same order, the same bytes, and, when the first term holds the offset, the same emission
      with the offset still inside the first term. */
  ghost predicate SameMeaning(r: Response, out: Response, c: Content)
    requires AllFaithful(r.terms, c) && AllFaithful(out.terms, c)
  {
    && out.offset == r.offset && Refs(out.terms) == Refs(r.terms) && TotalLength(out.terms) == TotalLength(r.terms)
    && BytesOf(out.terms, c) == BytesOf(r.terms, c)
    && (r.terms != [] && r.offset < r.terms[0].length ==>
          out.terms != [] && out.offset < out.terms[0].length &&
            Emission(out.terms, c, out.offset) == Emission(r.terms, c, r.offset))
  }

  lemma Unchanged(r: Response, out: Response, c: Content)
    requires AllFaithful(r.terms, c) && AllFaithful(out.terms, c)
    requires out.offset == r.offset && Refs(out.terms) == Refs(r.terms) &&
      TotalLength(out.terms) == TotalLength(r.terms)
    requires r.terms != [] && r.offset < r.terms[0].length ==> out.terms != [] && out.offset < out.terms[0].length
    ensures SameMeaning(r, out, c)
  {
    BytesAreRefs(r.terms, c);
    BytesAreRefs(out.terms, c);
    if r.terms != [] && r.offset < r.terms[0].length {
      EmissionIsDrop(r.terms, c, r.offset);
      EmissionIsDrop(out.terms, c, r.offset);
    }
  }

  /** The output response for the pieces; it fails only when some piece is not in its xorb's table. */
  method Reissue(cas: seq<ChunkSizes>, r: Response, ghost w: Window, ps: seq<Piece>, offsets: Offsets,
                 ghost url: Name -> string)
    returns (out: Option<Response>)
    requires AllOk(cas, r.terms, w, ps)
    ensures out.Some? ==> out.value.offset == r.offset && out.value.terms == TermsOf(ps)
    ensures Planned(r, offsets, url) && out.Some? ==> Planned(out.value, offsets, url)
    ensures Planned(r, offsets, url) && out.None? ==> exists i :: 0 <= i < |ps| && !Fetchable(offsets, ps[i].term)
  {
    forall i | 0 <= i < |ps|
      ensures ps[i].src < |r.terms| && Within(ps[i].term, r.terms[ps[i].src])
      ensures !ps[i].split ==> ps[i].term == r.terms[ps[i].src]
    {
      assert PieceOk(cas, r.terms, w, ps[i]);
    }
    var cut := CutXorbs(ps);
    var groups := Gather(r, ps, cut, offsets, url);
    if groups.None? { return None; }
    forall i | 0 <= i < |ps| && ps[i].term.xorb !in cut ensures !ps[i].split {}
    if Planned(r, offsets, url) { RefetchPlans(r, ps, groups.value, cut, offsets, url); }
    out := Some(Response(r.offset, TermsOf(ps), Refetch(r.fetch, groups.value, cut)));
  }

  /** The output is the input itself, or ps cuts it: more terms, at most minTerms, the same chunks in order, every cut
      piece starting within the window and keeping the floor of requested bytes; with fewer than minTerms terms no
      admissible cut is left. A first term that held the offset still does. */
  ghost predicate SplitOf(cas: seq<ChunkSizes>, r: Response, w: Window, minTerms: int, ps: seq<Piece>, out: Response) {
    && out.offset == r.offset && Refs(out.terms) == Refs(r.terms) && TotalLength(out.terms) == TotalLength(r.terms)
    && (out == r || (1 < minTerms && |r.terms| < |out.terms| <= minTerms))
    && (minTerms > 1 && |r.terms| < minTerms ==>
          && out.terms == TermsOf(ps) && AllOk(cas, r.terms, w, ps) && StartsFrom(ps, 0)
          && (|ps| == minTerms || Uncuttable(w, ps)))
    && (r.terms != [] && r.offset < r.terms[0].length ==> out.terms != [] && out.offset < out.terms[0].length)
  }

  /** Splitting a response. It fails when the shard contradicts a term, or when a piece is not in its xorb's table. */
  method SplitResponse(cas: seq<ChunkSizes>, r: Response, rng: ByteRange, minTerms: int, pieceBytes: int,
                       offsets: Offsets,
                       ghost url: Name -> string) returns (out: Option<Response>, ghost ps: seq<Piece>)
    ensures out.Some? ==> SplitOf(cas, r, WindowOf(r.offset, rng, pieceBytes), minTerms, ps, out.value)
    ensures out.Some? && Planned(r, offsets, url) ==> Planned(out.value, offsets, url)
    ensures out.None? && Planned(r, offsets, url) ==>
      || (exists i :: 0 <= i < |r.terms| && !Matches(cas, r.terms[i]))
      || (AllOk(cas, r.terms, WindowOf(r.offset, rng, pieceBytes), ps) && exists i ::
        0 <= i < |ps| && !Fetchable(offsets, ps[i].term))
  {
    ps := [];
    if minTerms <= 1 || |r.terms| >= minTerms { return Some(r), ps; }
    var w := WindowOf(r.offset, rng, pieceBytes);
    var first := MakePieces(cas, r.terms, w);
    if first.None? { return None, ps; }
    assert r.terms != [] ==> first.value[0].term == r.terms[0];
    ghost var trace;
    var pieces;
    pieces, trace := CutPieces(cas, r.terms, w, first.value, minTerms);
    ps := pieces;
    if |ps| < minTerms { NoCutLeft(cas, r.terms, w, ps); }
    if |pieces| == |r.terms| {
      assert |trace| == 1;
      return Some(r), ps;
    }
    out := Reissue(cas, r, w, pieces, offsets, url);
  }

  /** On a consistent store splitting cannot fail and preserves meaning. */
  method SplitConsistent(cas: seq<ChunkSizes>, r: Response, rng: ByteRange, minTerms: int, pieceBytes: int,
                         offsets: Offsets,
                         ghost url: Name -> string, ghost c: Content) returns (out: Response)
    requires Planned(r, offsets, url) && Consistent(r.terms, cas, offsets, c)
    ensures Planned(out, offsets, url) && AllFaithful(out.terms, c) && SameMeaning(r, out, c)
  {
    AllMatch(cas, r.terms, offsets, c);
    ghost var ps;
    var split;
    split, ps := SplitResponse(cas, r, rng, minTerms, pieceBytes, offsets, url);
    if AllOk(cas, r.terms, WindowOf(r.offset, rng, pieceBytes),
      ps) { PiecesFaithful(cas, r.terms, WindowOf(r.offset, rng, pieceBytes), ps, offsets, c); }
    out := split.value;
    Unchanged(r, out, c);
  }

  lemma PiecesFaithful(cas: seq<ChunkSizes>, terms: seq<Term>, w: Window, ps: seq<Piece>, offsets: Offsets, c: Content)
    requires Consistent(terms, cas, offsets, c) && AllOk(cas, terms, w, ps)
    ensures AllFaithful(TermsOf(ps), c) && forall i :: 0 <= i < |ps| ==> Fetchable(offsets, ps[i].term)
  {
    forall i | 0 <= i < |ps| ensures Faithful(ps[i].term, c) && Fetchable(offsets, ps[i].term) {
      assert PieceOk(cas, terms, w, ps[i]);
      PieceFaithful(cas, terms, w, ps[i], c);
      Stored(terms, cas, offsets, c, ps[i].term);
    }
  }

  lemma AllMatch(cas: seq<ChunkSizes>, terms: seq<Term>, offsets: Offsets, c: Content)
    requires Consistent(terms, cas, offsets, c)
    ensures forall i :: 0 <= i < |terms| ==> Matches(cas, terms[i])
  {
    forall i | 0 <= i < |terms| ensures Matches(cas, terms[i]) {
      assert Faithful(terms[i], c);
      FaithfulMatches(cas, c, terms[i]);
    }
  }
}
