/** Stored sizes of listed files: every referenced chunk counted once per entry, as unique to it or shared. */
module ListFiles {
  import opened Common
  import P = Planning

  type Hash = string

  /** Chunks [start, end) of a xorb. */
  datatype ChunkRange = ChunkRange(hash: Hash, start: nat, end: nat)

  /** Chunk k of a xorb. */
  type Ref = (Hash, nat)

  type Tables = map<Hash, seq<nat>>

  // ---------------------------------------------------------------- what the sizes should be

  predicate Covers(t: ChunkRange, c: Ref) { t.hash == c.0 && t.start <= c.1 < t.end }

  ghost predicate References(ts: seq<ChunkRange>, c: Ref) { exists i :: 0 <= i < |ts| && Covers(ts[i], c) }

  /** The stored xorb has all the chunks the term claims. */
  predicate InBounds(tables: Tables, t: ChunkRange) { t.hash in tables && t.end <= |tables[t.hash]| }

  /** The chunks of a xorb from lo up to hi. */
  ghost function Chunks(h: Hash, lo: nat, hi: nat): (r: set<Ref>)
    ensures forall c :: c in r <==> c.0 == h && lo <= c.1 < hi
    decreases hi - lo
  {
    if lo >= hi then {} else Chunks(h, lo, hi - 1) + {(h, hi - 1)}
  }

  /** The chunks an entry is charged for: those of its terms the store can satisfy. */
  ghost function Counted(tables: Tables, ts: seq<ChunkRange>): set<Ref> {
    if ts == [] then {} else
    var n := |ts| - 1;
    Counted(tables, ts[..n]) + if InBounds(tables, ts[n]) then Chunks(ts[n].hash, ts[n].start, ts[n].end) else {}
  }

  /** Some other entry references the chunk. */
  ghost predicate Elsewhere(all: seq<seq<ChunkRange>>, e: nat, c: Ref) {
    exists d :: 0 <= d < |all| && d != e && References(all[d], c)
  }

  /** The packed size of a chunk. */
  function Size(tables: Tables, c: Ref): int {
    if c.0 in tables && c.1 < |tables[c.0]| then tables[c.0][c.1] - P.StartByte(tables[c.0], c.1) else 0
  }

  ghost function Total(tables: Tables, s: set<Ref>): int {
    if s == {} then 0 else
    var c :| c in s;
    Size(tables, c) + Total(tables, s - {c})
  }

  ghost function Part(s: set<Ref>, all: seq<seq<ChunkRange>>, e: nat, shared: bool): set<Ref> {
    set c | c in s && Elsewhere(all, e, c) == shared
  }

  /** The chunks charged to an entry, spelled out: those within a term the store can satisfy, as shared if and only if a
      term of another entry covers them, each at the distance between its packed end and the one before. */
  lemma ChargedIs(tables: Tables, all: seq<seq<ChunkRange>>, e: nat, c: Ref, shared: bool)
    requires e < |all|
    ensures c in Part(Counted(tables, all[e]), all, e, shared) <==>
      (exists i ::
        0 <= i < |all[e]| && all[e][i].hash == c.0 && all[e][i].start <= c.1 < all[e][i].end && c.0 in tables &&
        all[e][i].end <= |tables[c.0]|) &&
      (shared <==> exists d, j ::
        0 <= d < |all| && d != e && 0 <= j < |all[d]| && all[d][j].hash == c.0 &&
        all[d][j].start <= c.1 < all[d][j].end)
    ensures c.0 in tables && c.1 < |tables[c.0]| ==>
      Size(tables, c) + (if c.1 == 0 then 0 else tables[c.0][c.1 - 1]) == tables[c.0][c.1]
  {
    CountedIs(tables, all[e], c);
    if Elsewhere(all, e, c) {
      var d :| 0 <= d < |all| && d != e && References(all[d], c);
      var j :| 0 <= j < |all[d]| && Covers(all[d][j], c);
    }
    forall d, j | 0 <= d < |all| && d != e && 0 <= j < |all[d]| && all[d][j].hash == c.0
      ensures all[d][j].start <= c.1 < all[d][j].end ==> Elsewhere(all, e, c)
    {
      if Covers(all[d][j], c) { assert References(all[d], c); }
    }
  }

  // ---------------------------------------------------------------- sums over sets

  /** Any member can be taken out first. */
  lemma {:induction false} TotalPick(tables: Tables, s: set<Ref>, c: Ref)
    requires c in s
    ensures Total(tables, s) == Size(tables, c) + Total(tables, s - {c})
    decreases s
  {
    var d :| d in s && Total(tables, s) == Size(tables, d) + Total(tables, s - {d});
    if d != c {
      TotalPick(tables, s - {d}, c);
      TotalPick(tables, s - {c}, d);
      assert s - {d} - {c} == s - {c} - {d};
    }
  }

  lemma TotalAdd(tables: Tables, s: set<Ref>, c: Ref)
    requires c !in s
    ensures Total(tables, s + {c}) == Total(tables, s) + Size(tables, c)
  {
    TotalPick(tables, s + {c}, c);
    assert s + {c} - {c} == s;
  }

  /** Packed sizes of consecutive chunks add up to the bytes between their ends. */
  lemma {:induction false} RunTotal(tables: Tables, s: set<Ref>, h: Hash, lo: nat, hi: nat)
    requires h in tables && lo < hi <= |tables[h]| && forall c :: c in s ==> c !in Chunks(h, lo, hi)
    ensures Total(tables, s + Chunks(h, lo, hi)) == Total(tables, s)
      + P.EndByte(tables[h], hi) - P.StartByte(tables[h], lo) + 1
    decreases hi
  {
    var c := (h, hi - 1);
    if lo == hi - 1 {
      assert Chunks(h, lo, hi) == {c};
      TotalAdd(tables, s, c);
    } else {
      RunTotal(tables, s, h, lo, hi - 1);
      TotalAdd(tables, s + Chunks(h, lo, hi - 1), c);
      assert s + Chunks(h, lo, hi) == s + Chunks(h, lo, hi - 1) + {c};
    }
  }

  // ---------------------------------------------------------------- marks

  /** Per chunk of one xorb: how many entries reference it, and the last entry that marked it. */
  datatype Usage = Usage(distinct: seq<nat>, last: seq<int>)

  type Marks = map<Hash, Usage>

  function Tally(b: bool): nat { if b then 1 else 0 }

  function Count(us: Marks, c: Ref): nat { if c.0 in us && c.1 < |us[c.0].distinct| then us[c.0].distinct[c.1] else 0 }

  function Last(us: Marks, c: Ref): int { if c.0 in us && c.1 < |us[c.0].last| then us[c.0].last[c.1] else -1 }

  ghost predicate WellSized(us: Marks) { forall h {:trigger us[h]} :: h in us ==> |us[h].distinct| == |us[h].last| }

  method Grow(u: Usage, n: nat) returns (r: Usage)
    requires |u.distinct| == |u.last|
    ensures |r.distinct| == |r.last| == Max(|u.last|, n)
    ensures forall k :: 0 <= k < |r.last| ==>
      r.distinct[k] == (if k < |u.last| then u.distinct[k] else 0) &&
      r.last[k] == (if k < |u.last| then u.last[k] else -1)
  {
    r := u;
    while |r.last| < n
      invariant |r.distinct| == |r.last| && |u.last| <= |r.last| <= Max(|u.last|, n)
      invariant forall k :: 0 <= k < |r.last| ==>
        r.distinct[k] == (if k < |u.last| then u.distinct[k] else 0) &&
        r.last[k] == (if k < |u.last| then u.last[k] else -1)
    {
      r := Usage(r.distinct + [0], r.last + [-1]);
    }
  }

  /** Marks one term of entry e: chunks not yet marked for e count one entry more. */
  ghost predicate Marked(before: Marks, after: Marks, t: ChunkRange, e: int) {
    && WellSized(after)
    && (forall c: Ref {:trigger Last(after, c)} :: Last(after, c) == if Covers(t, c) then e else Last(before, c))
    && (forall c: Ref {:trigger Count(after, c)} ::
      Count(after, c) == Count(before, c) + Tally(Covers(t, c) && Last(before, c) != e))
  }

  method MarkRange(u: Usage, start: nat, end: nat, e: int) returns (r: Usage)
    requires |u.distinct| == |u.last| && end <= |u.last|
    ensures |r.distinct| == |r.last| == |u.last|
    ensures forall k :: 0 <= k < |r.last| ==> r.last[k] == (if start <= k < end then e else u.last[k])
    ensures forall k :: 0 <= k < |r.last| ==>
      r.distinct[k] == u.distinct[k] + (if start <= k < end && u.last[k] != e then 1 else 0)
  {
    r := u;
    var k := start;
    while k < end
      invariant start <= k && (k <= end || k == start) && |r.distinct| == |r.last| == |u.last|
      invariant forall i :: 0 <= i < |r.last| ==> r.last[i] == (if start <= i < k then e else u.last[i])
      invariant forall i :: 0 <= i < |r.last| ==>
        r.distinct[i] == u.distinct[i] + (if start <= i < k && u.last[i] != e then 1 else 0)
    {
      if r.last[k] != e { r := Usage(r.distinct[k := r.distinct[k] + 1], r.last[k := e]); }
      k := k + 1;
    }
  }

  method MarkTerm(us: Marks, t: ChunkRange, e: int) returns (r: Marks)
    requires WellSized(us) && e >= 0
    ensures Marked(us, r, t, e)
  {
    var u := if t.hash in us then us[t.hash] else Usage([], []);
    var grown := Grow(u, t.end);
    var marked := MarkRange(grown, t.start, t.end, e);
    r := us[t.hash := marked];
    MarkedAll(us, r, t, e, marked);
  }

  lemma MarkedAll(us: Marks, r: Marks, t: ChunkRange, e: int, m: Usage)
    requires WellSized(us) && e >= 0 && r == us[t.hash := m] && |m.distinct| == |m.last| >= t.end
    requires var u := if t.hash in us then us[t.hash] else Usage([], []);
      |m.last| == Max(|u.last|, t.end) &&
      forall k :: 0 <= k < |m.last| ==>
        && m.last[k] == (if t.start <= k < t.end then e else if k < |u.last| then u.last[k] else -1)
        && m.distinct[k] == (if k < |u.last| then u.distinct[k] else 0)
          + Tally(t.start <= k < t.end && (if k < |u.last| then u.last[k] else -1) != e)
    ensures Marked(us, r, t, e)
  {
    assert t.hash in us ==> |us[t.hash].distinct| == |us[t.hash].last|;
    forall c: Ref
      ensures Last(r, c) == if Covers(t, c) then e else Last(us, c)
      ensures Count(r, c) == Count(us, c) + Tally(Covers(t, c) && Last(us, c) != e)
    {}
  }

  /** How many of the first n entries reference the chunk. */
  ghost function RefCount(all: seq<seq<ChunkRange>>, n: nat, c: Ref): nat
    requires n <= |all|
  {
    if n == 0 then 0 else RefCount(all, n - 1, c) + Tally(References(all[n - 1], c))
  }

  /** After the first i terms of entry e. */
  ghost predicate CountedUpTo(us: Marks, all: seq<seq<ChunkRange>>, e: nat, i: nat)
    requires e < |all| && i <= |all[e]|
  {
    && WellSized(us)
    && (forall c: Ref {:trigger Last(us, c)} :: Last(us, c) <= e && (Last(us, c) == e <==> References(all[e][..i], c)))
    && (forall c: Ref {:trigger Count(us, c)} ::
      Count(us, c) == RefCount(all, e, c) + Tally(References(all[e][..i], c)))
  }

  lemma ReferencesNext(ts: seq<ChunkRange>, i: nat, c: Ref)
    requires i < |ts|
    ensures References(ts[..i + 1], c) <==> References(ts[..i], c) || Covers(ts[i], c)
  {
    if References(ts[..i], c) {
      var k :| 0 <= k < i && Covers(ts[..i][k], c);
      assert ts[..i + 1][k] == ts[k];
    }
    assert ts[..i + 1][i] == ts[i];
    if References(ts[..i + 1], c) && !Covers(ts[i], c) {
      var k :| 0 <= k < i + 1 && Covers(ts[..i + 1][k], c);
      assert ts[..i][k] == ts[k];
    }
  }

  lemma CountNext(us: Marks, r: Marks, all: seq<seq<ChunkRange>>, e: nat, i: nat)
    requires e < |all| && i < |all[e]| && CountedUpTo(us, all, e, i) && Marked(us, r, all[e][i], e)
    ensures CountedUpTo(r, all, e, i + 1)
  {
    forall c: Ref
      ensures Last(r, c) <= e && (Last(r, c) == e <==> References(all[e][..i + 1], c))
      ensures Count(r, c) == RefCount(all, e, c) + Tally(References(all[e][..i + 1], c))
    {
      ReferencesNext(all[e], i, c);
      assert Last(us, c) <= e && Count(us, c) == RefCount(all, e, c) + Tally(References(all[e][..i], c));
    }
  }

  /** Counts, for every chunk, the entries that reference it. */
  method CountUsage(all: seq<seq<ChunkRange>>) returns (us: Marks)
    ensures WellSized(us)
    ensures forall c: Ref {:trigger Count(us, c)} :: Count(us, c) == RefCount(all, |all|, c)
    ensures forall c: Ref {:trigger Last(us, c)} :: Last(us, c) < |all|
  {
    us := map[];
    for e := 0 to |all|
      invariant WellSized(us)
      invariant forall c: Ref {:trigger Count(us, c)} :: Count(us, c) == RefCount(all, e, c)
      invariant forall c: Ref {:trigger Last(us, c)} :: Last(us, c) < e
    {
      assert all[e][..0] == [];
      for i := 0 to |all[e]|
        invariant CountedUpTo(us, all, e, i)
      {
        var next := MarkTerm(us, all[e][i], e);
        CountNext(us, next, all, e, i);
        us := next;
      }
      assert all[e][..|all[e]|] == all[e];
    }
  }

  // ---------------------------------------------------------------- summing runs

  /** What the counts say of a chunk the entry references. */
  lemma CountDecides(all: seq<seq<ChunkRange>>, e: nat, c: Ref)
    requires e < |all| && References(all[e], c)
    ensures RefCount(all, |all|, c) > 1 <==> Elsewhere(all, e, c)
  {
    OthersCount(all, |all|, e, c);
  }

  lemma {:induction false} OthersCount(all: seq<seq<ChunkRange>>, n: nat, e: nat, c: Ref)
    requires e < |all| && n <= |all| && References(all[e], c)
    ensures RefCount(all, n, c) >= Tally(e < n)
    ensures RefCount(all, n, c) > Tally(e < n) <==> exists d :: 0 <= d < n && d != e && References(all[d], c)
  {
    if n > 0 {
      OthersCount(all, n - 1, e, c);
      if d :| 0 <= d < n - 1 && d != e && References(all[d], c) { assert 0 <= d < n; }
    }
  }

  /** Entry e after its first terms: the chunks counted so far are exactly those marked, and the two sums are their
      packed sizes, unique and shared. */
  ghost predicate Summed(us: Marks, tables: Tables, all: seq<seq<ChunkRange>>, e: nat, done: set<Ref>, unique: int,
                         shared: int) {
    && (forall c: Ref {:trigger Last(us, c)} :: Last(us, c) <= e && (Last(us, c) == e <==> c in done))
    && unique == Total(tables, Part(done, all, e, false)) && shared == Total(tables, Part(done, all, e, true))
  }

  /** Chunks [k, m) of a term, all unmarked and all shared or all not, are marked and added at once. */
  lemma AddRun(us: Marks, r: Marks, tables: Tables, all: seq<seq<ChunkRange>>, e: nat, done: set<Ref>, unique: int,
               shared: int, h: Hash, k: nat, m: nat, share: bool)
    requires Summed(us, tables, all, e, done, unique, shared) && h in tables && k < m <= |tables[h]|
    requires forall c :: c in Chunks(h, k, m) ==> c !in done && Elsewhere(all, e, c) == share
    requires forall c: Ref {:trigger Last(r, c)} :: Last(r, c) == if c in Chunks(h, k, m) then e else Last(us, c)
    ensures var bytes := P.EndByte(tables[h], m) - P.StartByte(tables[h], k) + 1;
      Summed(r, tables, all, e, done + Chunks(h, k, m), if share then unique
        else unique + bytes, if share then shared + bytes else shared)
  {
    var run := Chunks(h, k, m);
    assert Part(done + run, all, e, share) == Part(done, all, e, share) + run;
    assert Part(done + run, all, e, !share) == Part(done, all, e, !share);
    RunTotal(tables, Part(done, all, e, share), h, k, m);
  }

  /** Marks the longest run from k of unmarked chunks that are all shared, or all not. */
  method MarkRun(u: Usage, k: nat, end: nat, e: int, share: bool) returns (r: Usage, runEnd: nat)
    requires |u.distinct| == |u.last| && k < end <= |u.last| && u.last[k] != e && (u.distinct[k] > 1) == share
    ensures k < runEnd <= end && r.distinct == u.distinct && |r.last| == |u.last|
    ensures forall j :: k <= j < runEnd ==> u.last[j] != e && (u.distinct[j] > 1) == share
    ensures forall j :: 0 <= j < |r.last| ==> r.last[j] == if k <= j < runEnd then e else u.last[j]
  {
    r, runEnd := u, k;
    while runEnd < end && r.last[runEnd] != e && (r.distinct[runEnd] > 1) == share
      invariant k <= runEnd <= end && r.distinct == u.distinct && |r.last| == |u.last|
      invariant forall j :: k <= j < runEnd ==> u.last[j] != e && (u.distinct[j] > 1) == share
      invariant forall j :: 0 <= j < |r.last| ==> r.last[j] == if k <= j < runEnd then e else u.last[j]
    {
      r := r.(last := r.last[runEnd := e]);
      runEnd := runEnd + 1;
    }
  }

  /** The counts are final, every term of the entry is within its marks, and marks are entries. */
  ghost predicate Ready(us: Marks, all: seq<seq<ChunkRange>>) {
    && WellSized(us) && (forall c: Ref {:trigger Count(us, c)} :: Count(us, c) == RefCount(all, |all|, c))
    && (forall e, i {:trigger all[e][i]} :: 0 <= e < |all| && 0 <= i < |all[e]| ==> InMarks(us, all[e][i]))
  }

  predicate InMarks(us: Marks, t: ChunkRange) { t.start < t.end ==> t.hash in us && t.end <= |us[t.hash].last| }

  lemma ReadyKept(us: Marks, h: Hash, u: Usage, all: seq<seq<ChunkRange>>)
    requires Ready(us, all) && h in us && u.distinct == us[h].distinct && |u.last| == |us[h].last|
    ensures Ready(us[h := u], all)
  {
    var r := us[h := u];
    forall c: Ref ensures Count(r, c) == Count(us, c) {}
    forall e, i | 0 <= e < |all| && 0 <= i < |all[e]| ensures InMarks(r, all[e][i]) { assert InMarks(us, all[e][i]); }
  }

  /** Adds one run from k, which is unmarked. */
  method SumRun(us: Marks, tables: Tables, ghost all: seq<seq<ChunkRange>>, e: nat, ghost i: nat, t: ChunkRange,
                unique0: int, shared0: int, ghost done: set<Ref>, k: nat)
    returns (r: Marks, unique: int, shared: int, runEnd: nat)
    requires e < |all| && i < |all[e]| && t == all[e][i] && InBounds(tables, t) && t.start <= k < t.end &&
      InMarks(us, t)
    requires Ready(us, all) && Summed(us, tables, all, e, done, unique0, shared0) && us[t.hash].last[k] != e
    ensures k < runEnd <= t.end && Ready(r, all) &&
      Summed(r, tables, all, e, done + Chunks(t.hash, k, runEnd), unique, shared)
  {
    unique, shared := unique0, shared0;
    var u := us[t.hash];
    var share := u.distinct[k] > 1;
    var marked;
    marked, runEnd := MarkRun(u, k, t.end, e, share);
    RunIsNew(us, marked, tables, all, e, i, done, unique, shared, k, runEnd, share);
    ReadyKept(us, t.hash, marked, all);
    var bytes := P.EndByte(tables[t.hash], runEnd) - P.StartByte(tables[t.hash], k) + 1;
    if share { shared := shared + bytes; } else { unique := unique + bytes; }
    r := us[t.hash := marked];
  }

  /** Adds the chunks of one satisfiable term, run by run. */
  method SumTerm(us: Marks, tables: Tables, ghost all: seq<seq<ChunkRange>>, e: nat, ghost i: nat, t: ChunkRange,
                 unique0: int, shared0: int, ghost done0: set<Ref>)
    returns (r: Marks, unique: int, shared: int)
    requires e < |all| && i < |all[e]| && t == all[e][i] && InBounds(tables, t)
    requires Ready(us, all) && Summed(us, tables, all, e, done0, unique0, shared0)
    ensures Ready(r, all) && Summed(r, tables, all, e, done0 + Chunks(t.hash, t.start, t.end), unique, shared)
  {
    r, unique, shared := us, unique0, shared0;
    var k := t.start;
    ghost var done := done0;
    assert done == done0 + Chunks(t.hash, t.start, t.start);
    while k < t.end
      invariant t.start <= k && (k <= t.end || k == t.start) && Ready(r, all)
      invariant Summed(r, tables, all, e, done, unique, shared) && done == done0 + Chunks(t.hash, t.start, k)
    {
      assert InMarks(r, all[e][i]);
      if r[t.hash].last[k] == e {
        assert Last(r, (t.hash, k)) == e;
        k := k + 1;
      } else {
        var runEnd;
        r, unique, shared, runEnd := SumRun(r, tables, all, e, i, t, unique, shared, done, k);
        done := done + Chunks(t.hash, k, runEnd);
        k := runEnd;
      }
      Joins(done0, done, t.hash, t.start, k);
    }
    assert done0 + Chunks(t.hash, t.start, t.end) == done;
  }

  lemma Joins(done0: set<Ref>, done: set<Ref>, h: Hash, lo: nat, k: nat)
    requires forall c :: c in done <==> c in done0 || (c.0 == h && lo <= c.1 < k)
    ensures done == done0 + Chunks(h, lo, k)
  {}

  lemma RunIsNew(us: Marks, m: Usage, tables: Tables, all: seq<seq<ChunkRange>>, e: nat, i: nat, done: set<Ref>,
                 unique: int, shared: int, k: nat, runEnd: nat, share: bool)
    requires e < |all| && i < |all[e]| && InBounds(tables, all[e][i]) && all[e][i].start <= k < runEnd <= all[e][i].end
    requires Ready(us, all) && Summed(us, tables, all, e, done, unique, shared)
    requires all[e][i].hash in us && |m.last| == |us[all[e][i].hash].last| &&
      m.distinct == us[all[e][i].hash].distinct && runEnd <= |m.last|
    requires forall j :: k <= j < runEnd ==>
      us[all[e][i].hash].last[j] != e && (us[all[e][i].hash].distinct[j] > 1) == share
    requires forall j :: 0 <= j < |m.last| ==> m.last[j] == if k <= j < runEnd then e else us[all[e][i].hash].last[j]
    ensures var h := all[e][i].hash; var bytes := P.EndByte(tables[h], runEnd) - P.StartByte(tables[h], k) + 1;
      Summed(us[h := m], tables, all, e, done + Chunks(h, k, runEnd), if share then unique
        else unique + bytes, if share then shared + bytes else shared)
  {
    var t := all[e][i];
    var r := us[t.hash := m];
    forall c | c in Chunks(t.hash, k, runEnd) ensures c !in done && Elsewhere(all, e, c) == share {
      assert Last(us, c) != e;
      assert Covers(all[e][i], c);
      CountDecides(all, e, c);
      assert Count(us, c) == RefCount(all, |all|, c);
      assert |us[t.hash].distinct| == |us[t.hash].last|;
    }
    forall c: Ref ensures Last(r, c) == if c in Chunks(t.hash, k, runEnd) then e else Last(us, c) {}
    AddRun(us, r, tables, all, e, done, unique, shared, t.hash, k, runEnd, share);
  }

  lemma CountedNext(tables: Tables, ts: seq<ChunkRange>, i: nat)
    requires i < |ts|
    ensures Counted(tables, ts[..i + 1]) == if InBounds(tables, ts[i])
      then Counted(tables, ts[..i]) + Chunks(ts[i].hash, ts[i].start, ts[i].end) else Counted(tables, ts[..i])
  {
    assert ts[..i + 1][..i] == ts[..i];
    assert Counted(tables, ts[..i]) + {} == Counted(tables, ts[..i]);
  }

  /** Sums one entry over its terms; those the store cannot satisfy are skipped. */
  method SumEntry(us: Marks, tables: Tables, all: seq<seq<ChunkRange>>, e: nat)
    returns (r: Marks, unique: int, shared: int)
    requires e < |all| && Ready(us, all) && forall c: Ref {:trigger Last(us, c)} :: Last(us, c) < e
    ensures Ready(r, all) && Summed(r, tables, all, e, Counted(tables, all[e]), unique, shared)
  {
    r, unique, shared := us, 0, 0;
    var ts := all[e];
    assert Part({}, all, e, false) == {} && Part({}, all, e, true) == {} && ts[..0] == [];
    for i := 0 to |ts|
      invariant Ready(r, all) && Summed(r, tables, all, e, Counted(tables, ts[..i]), unique, shared)
    {
      CountedNext(tables, ts, i);
      if ts[i].hash !in tables || ts[i].end > |tables[ts[i].hash]| { continue; }
      r, unique, shared := SumTerm(r, tables, all, e, i, ts[i], unique, shared, Counted(tables, ts[..i]));
    }
    assert ts[..|ts|] == ts;
  }

  /** The marks of no entry. */
  method Reset(us: Marks, ghost all: seq<seq<ChunkRange>>) returns (r: Marks)
    requires Ready(us, all)
    ensures Ready(r, all) && forall c: Ref {:trigger Last(r, c)} :: Last(r, c) == -1
  {
    r := map h | h in us :: Usage(us[h].distinct, Unmarked(|us[h].last|));
    forall c: Ref ensures Count(r, c) == Count(us, c) && Last(r, c) == -1 {}
    forall e, i | 0 <= e < |all| && 0 <= i < |all[e]| ensures InMarks(r, all[e][i]) { assert InMarks(us, all[e][i]); }
  }

  function Unmarked(n: nat): (r: seq<int>)
    ensures |r| == n && forall k :: 0 <= k < n ==> r[k] == -1
  {
    if n == 0 then [] else Unmarked(n - 1) + [-1]
  }

  lemma MarksCover(us: Marks, all: seq<seq<ChunkRange>>)
    requires WellSized(us) && forall c: Ref {:trigger Count(us, c)} :: Count(us, c) == RefCount(all, |all|, c)
    ensures Ready(us, all)
  {
    forall e, i | 0 <= e < |all| && 0 <= i < |all[e]| && all[e][i].start < all[e][i].end
      ensures InMarks(us, all[e][i]) {
      var t := all[e][i];
      var c: Ref := (t.hash, t.end - 1);
      assert Covers(all[e][i], c);
      OthersCount(all, |all|, e, c);
      assert Count(us, c) > 0;
      assert |us[t.hash].distinct| == |us[t.hash].last|;
    }
    forall e, i | 0 <= e < |all| && 0 <= i < |all[e]| ensures InMarks(us, all[e][i]) {
      if all[e][i].start < all[e][i].end { assert InMarks(us, all[e][i]); }
    }
  }

  /** The sizes of every entry: each chunk it references in a term the store can satisfy counts its packed size once, as
      unique if no other entry references it and as shared otherwise, whatever overlaps and repeats. */
  method ComputeStoredSizes(all: seq<seq<ChunkRange>>, tables: Tables) returns (unique: seq<int>, shared: seq<int>)
    ensures |unique| == |shared| == |all|
    ensures forall e :: 0 <= e < |all| ==> unique[e] == Total(tables, Part(Counted(tables, all[e]), all, e, false))
    ensures forall e :: 0 <= e < |all| ==> shared[e] == Total(tables, Part(Counted(tables, all[e]), all, e, true))
  {
    var us := CountUsage(all);
    MarksCover(us, all);
    us := Reset(us, all);
    unique, shared := [], [];
    for e := 0 to |all|
      invariant |unique| == |shared| == e && Ready(us, all) && forall c: Ref {:trigger Last(us, c)} :: Last(us, c) < e
      invariant forall d :: 0 <= d < e ==> unique[d] == Total(tables, Part(Counted(tables, all[d]), all, d, false))
      invariant forall d :: 0 <= d < e ==> shared[d] == Total(tables, Part(Counted(tables, all[d]), all, d, true))
    {
      var x, y;
      us, x, y := SumEntry(us, tables, all, e);
      unique, shared := unique + [x], shared + [y];
    }
  }

  /** What is charged: exactly the chunks some satisfiable term of the entry covers. */
  lemma {:induction false} CountedIs(tables: Tables, ts: seq<ChunkRange>, c: Ref)
    ensures c in Counted(tables, ts) <==> exists i :: 0 <= i < |ts| && InBounds(tables, ts[i]) && Covers(ts[i], c)
  {
    if ts != [] {
      var n := |ts| - 1;
      CountedIs(tables, ts[..n], c);
      if i :| 0 <= i < n && InBounds(tables, ts[i]) && Covers(ts[i], c) { assert ts[..n][i] == ts[i]; }
      if i :| 0 <= i < n && InBounds(tables, ts[..n][i]) && Covers(ts[..n][i], c) { assert ts[..n][i] == ts[i]; }
    }
  }
}
