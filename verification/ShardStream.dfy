/** The streaming shard encoder: the same bytes whatever the sizes of the buffers it is read with. */
module ShardStream {
  import opened Common
  import opened HashText
  import opened Wire
  import opened ShardFormat
  import opened ShardCodec

  // ---------------------------------------------------------------- sections

  function Each<T>(items: seq<T>, bytes: T -> Data): (r: seq<Data>)
    ensures |r| == |items| && forall i :: 0 <= i < |items| ==> r[i] == bytes(items[i])
  {
    seq(|items|, i requires 0 <= i < |items| => bytes(items[i]))
  }

  lemma {:induction false} EachFlat<T>(items: seq<T>, bytes: T -> Data)
    ensures Flatten(Each(items, bytes)) == BlocksBytes(items, bytes)
  {
    if items != [] {
      EachFlat(items[1..], bytes);
      assert Each(items, bytes)[1..] == Each(items[1..], bytes);
    }
  }

  /** Header, file blocks, bookend, CAS blocks, bookend. */
  ghost function Layout(head: Data, files: seq<Data>, end: Data, cas: seq<Data>): seq<Data> {
    [head] + (files + ([end] + (cas + [end])))
  }

  lemma LayoutAt(head: Data, files: seq<Data>, end: Data, cas: seq<Data>)
    ensures var l, n, c := Layout(head, files, end, cas), |files|, |cas|;
      && |l| == n + c + 3 && l[0] == head && l[n + 1] == end && l[n + c + 2] == end
      && (forall i :: 0 <= i < n ==> l[i + 1] == files[i]) && (forall i :: 0 <= i < c ==> l[n + 2 + i] == cas[i])
  {}

  lemma LayoutFlat(head: Data, files: seq<Data>, end: Data, cas: seq<Data>)
    ensures var l := Layout(head, files, end, cas);
      && Flatten(l) == head + (Flatten(files) + (end + (Flatten(cas) + end)))
      && Flatten(l[..1]) == head && |Flatten(l[..|files| + 2])| == |head| + |Flatten(files)| + |end|
  {
    var l := Layout(head, files, end, cas);
    FlatOne(head);
    FlatOne(end);
    FlattenAppend([head], files + ([end] + (cas + [end])));
    FlattenAppend(files, [end] + (cas + [end]));
    FlattenAppend([end], cas + [end]);
    FlattenAppend(cas, [end]);
    assert l[..1] == [head] && l[..|files| + 2] == [head] + (files + [end]);
    FlattenAppend([head], files + [end]);
    FlattenAppend(files, [end]);
  }

  lemma FlatOne(x: Data)
    ensures Flatten([x]) == x
  {
    assert [x][1..] == [] && x + [] == x;
  }

  /** The sections of a shard. */
  ghost function Sections(s: Shard, footerSize: Long): seq<Data> {
    Layout(HeaderBytes(footerSize), Each(s.files, FileBytes), BOOKEND, Each(s.cas, CasBytes))
  }

  /** They are the body, and end where its parts do. */
  lemma SectionsAreBody(s: Shard, footerSize: Long)
    ensures Flatten(Sections(s, footerSize)) == Body(s, footerSize) && |Body(s, footerSize)| == FooterStart(s)
    ensures |Sections(s, footerSize)| == |s.files| + |s.cas| + 3
    ensures |Flatten(Sections(s, footerSize)[..1])| == 48 &&
      |Flatten(Sections(s, footerSize)[..|s.files| + 2])| == CasStart(s)
  {
    EachFlat(s.files, FileBytes);
    EachFlat(s.cas, CasBytes);
    LayoutFlat(HeaderBytes(footerSize), Each(s.files, FileBytes), BOOKEND, Each(s.cas, CasBytes));
  }

  // ---------------------------------------------------------------- the reader

  /** What is left of the sections, off bytes into section idx. */
  ghost function Unread(secs: seq<Data>, idx: nat, off: nat): Data
    requires idx < |secs| && off <= |secs[idx]|
  {
    secs[idx][off..] + Flatten(secs[idx + 1..])
  }

  lemma UnreadNext(secs: seq<Data>, idx: nat)
    requires idx < |secs|
    ensures Unread(secs, idx, |secs[idx]|) == if idx + 1 < |secs| then Unread(secs, idx + 1, 0) else []
    ensures |Flatten(secs[..idx + 1])| == |Flatten(secs[..idx])| + |secs[idx]|
  {
    assert secs[..idx + 1] == secs[..idx] + [secs[idx]];
    FlattenSnoc(secs[..idx], secs[idx]);
    if idx + 1 < |secs| {
      assert secs[idx + 1..][1..] == secs[idx + 2..];
      assert secs[idx + 1][0..] == secs[idx + 1];
    } else {
      assert secs[idx + 1..] == [];
    }
  }

  lemma UnreadCopy(secs: seq<Data>, idx: nat, off: nat, n: nat)
    requires idx < |secs| && off + n <= |secs[idx]|
    ensures Unread(secs, idx, off) == secs[idx][off..off + n] + Unread(secs, idx, off + n)
  {
    assert secs[idx][off..] == secs[idx][off..off + n] + secs[idx][off + n..];
  }

  /** The bytes of section idx, as a reader builds it. */
  method BuildSection(s: Shard, head: Data, end: Data, idx: nat) returns (b: Data)
    requires idx < |s.files| + |s.cas| + 3
    ensures IsSection(s, head, end, idx, b)
  {
    ghost var secs := Layout(head, Each(s.files, FileBytes), end, Each(s.cas, CasBytes));
    LayoutAt(head, Each(s.files, FileBytes), end, Each(s.cas, CasBytes));
    var n, c := |s.files|, |s.cas|;
    if idx == 0 { return head; }
    if idx <= n {
      assert secs[(idx - 1) + 1] == FileBytes(s.files[idx - 1]);
      return FileBytes(s.files[idx - 1]);
    }
    if idx == n + 1 { return end; }
    if idx < n + c + 2 {
      assert secs[n + 2 + (idx - n - 2)] == CasBytes(s.cas[idx - n - 2]);
      return CasBytes(s.cas[idx - n - 2]);
    }
    return end;
  }

  /** b is section i. */
  ghost predicate IsSection(s: Shard, head: Data, end: Data, i: nat, b: Data) {
    i < |s.files| + |s.cas| + 3 && b == Layout(head, Each(s.files, FileBytes), end, Each(s.cas, CasBytes))[i]
  }

  ghost predicate Laid(secs: seq<Data>, s: Shard, head: Data, end: Data) {
    |secs| == |s.files| + |s.cas| + 3 && forall i {:trigger IsSection(s, head, end, i, secs[i])} :: 0 <= i < |secs| ==>
      IsSection(s, head, end, i, secs[i])
  }

  /** Where a reader is: the section, its bytes once built and how many of them were copied; whether the footer is
      built; how much was written, and the offsets recorded for the footer. */
  datatype Place = Place(idx: nat, buffer: Data, off: nat, inFooter: bool, written: nat, fileInfo: nat, casInfo: nat,
    footerOffset: nat)

  /** What a reader emits, and the marks it must record: the ends of section 0, of section mark and of the last one. */
  datatype Plan = Plan(secs: seq<Data>, mark: nat, tail: Data, first: Long, middle: Long, total: Long)

  ghost predicate PlanOk(p: Plan) {
    && 0 < p.mark < |p.secs| && (forall i :: 0 <= i < |p.secs| ==> |p.secs[i]| > 0)
    && EndOf(p.secs, 1) == p.first && EndOf(p.secs, p.mark + 1) == p.middle && EndOf(p.secs, |p.secs|) == p.total
  }

  /** Where the first n sections end. */
  ghost function EndOf(secs: seq<Data>, n: nat): nat
    requires n <= |secs|
  {
    |Flatten(secs[..n])|
  }

  /** The offsets recorded are where the sections finished so far end. */
  ghost predicate Recorded(p: Plan, at: Place)
    requires p.mark < |p.secs|
  {
    (at.idx > 0 ==> at.fileInfo == p.first) && (at.idx > p.mark ==> at.casInfo == p.middle) &&
      (at.idx == |p.secs| ==> at.footerOffset == p.total)
  }

  /** rest is what is left to emit. */
  ghost predicate Standing(p: Plan, at: Place, rest: Data)
    requires p.mark < |p.secs|
  {
    && at.idx <= |p.secs| && Recorded(p, at) && at.off <= |at.buffer|
    && (at.idx < |p.secs| ==>
          && !at.inFooter && ((at.buffer == [] && at.off == 0) || at.buffer == p.secs[at.idx]) &&
            at.off <= |p.secs[at.idx]|
          && at.written == EndOf(p.secs, at.idx) + at.off && rest == Unread(p.secs, at.idx, at.off) + p.tail)
    && (at.idx == |p.secs| ==> rest == if at.inFooter then at.buffer[at.off..] else p.tail)
  }

  function Copied(at: Place, n: nat): Place { at.(off := at.off + n, written := at.written + n) }

  lemma CopyStands(p: Plan, at: Place, rest: Data, n: nat)
    requires PlanOk(p) && Standing(p, at, rest) && at.off + n <= |at.buffer| &&
      (at.idx < |p.secs| ==> at.buffer == p.secs[at.idx]) && (at.idx == |p.secs| ==> at.inFooter)
    ensures n <= |rest| && rest[..n] == at.buffer[at.off..at.off + n] && Standing(p, Copied(at, n), rest[n..])
  {
    if at.idx < |p.secs| {
      UnreadCopy(p.secs, at.idx, at.off, n);
      Assoc(at.buffer[at.off..at.off + n], Unread(p.secs, at.idx, at.off + n), p.tail);
    }
  }

  lemma LoadStands(p: Plan, at: Place, rest: Data, b: Data)
    requires PlanOk(p) && Standing(p, at, rest) && at.idx < |p.secs| && at.buffer == [] && b == p.secs[at.idx]
    ensures Standing(p, at.(buffer := b, off := 0), rest)
  {}

  /** After the last byte of a section: its end is recorded where the footer needs it. */
  function Finished(p: Plan, at: Place): Place {
    at.(idx := at.idx + 1, buffer := [], off := 0,
        fileInfo := if at.idx == 0 then at.written else at.fileInfo,
        casInfo := if at.idx == p.mark then at.written else at.casInfo,
        footerOffset := if at.idx == |p.secs| - 1 then at.written else at.footerOffset)
  }

  lemma FinishStands(p: Plan, at: Place, rest: Data)
    requires PlanOk(p) && Standing(p, at, rest) && at.idx < |p.secs| && at.off == |p.secs[at.idx]|
    ensures Standing(p, Finished(p, at), rest)
  {
    UnreadNext(p.secs, at.idx);
    if at.idx + 1 == |p.secs| { assert [] + p.tail == p.tail; }
  }

  /** What was emitted is followed by what is emitted next. */
  lemma Emitted(all: Data, out: Data, before: Data, bytes: Data, rest: Data)
    requires all == out + before && before == bytes + rest
    ensures all == (out + bytes) + rest && |rest| == |before| - |bytes|
  {
  }

  class ShardReader {
    const s: Shard
    const head: Data
    const end: Data
    const build: Option<(Long, Long, Long) -> Data>
    ghost const plan: Plan
    var at: Place
    ghost var rest: Data

    /** What is emitted is what the shard and the footer builder say. */
    ghost predicate Fixed() {
      && PlanOk(plan) && plan.mark == |s.files| + 1 && Laid(plan.secs, s, head, end)
      && plan.tail == if build.None? then [] else build.value(plan.first, plan.middle, plan.total)
    }

    ghost predicate Valid()
      reads this
    {
      && Fixed() && Standing(plan, at, rest) && (at.idx < |plan.secs| && at.buffer != [] ==> at.off < |at.buffer|)
      && (at.inFooter ==> build.Some?)
    }

    /** Builds the current section if that is not done. */
    method Load()
      requires Valid() && at.idx < |plan.secs|
      modifies `at
      ensures Valid() && at.idx == old(at.idx) && at.buffer == plan.secs[at.idx]
    {
      if at.off >= |at.buffer| {
        var b := BuildSection(s, head, end, at.idx);
        assert IsSection(s, head, end, at.idx, plan.secs[at.idx]);
        LoadStands(plan, at, rest, b);
        at := at.(buffer := b, off := 0);
      }
    }

    method CopyOut(room: nat) returns (out: Data)
      requires PlanOk(plan) && Standing(plan, at, rest) && (at.idx < |plan.secs| ==> at.buffer == plan.secs[at.idx]) &&
        (at.idx == |plan.secs| ==> at.inFooter)
      modifies `at, `rest
      ensures Standing(plan, at, rest) && old(rest) == out + rest && |out| == Min(room, |at.buffer| - old(at.off))
      ensures at == Copied(old(at), |out|)
    {
      var copied := Min(room, |at.buffer| - at.off);
      CopyStands(plan, at, rest, copied);
      out := at.buffer[at.off..at.off + copied];
      at, rest := Copied(at, copied), rest[copied..];
    }

    /** Records the end of a section where the footer needs it. */
    method Finish()
      requires Fixed() && Standing(plan, at, rest) && at.idx < |plan.secs| && at.off == |plan.secs[at.idx]| &&
        !at.inFooter
      modifies `at
      ensures Valid()
    {
      FinishStands(plan, at, rest);
      ghost var next := Finished(plan, at);
      var n, c := |s.files|, |s.cas|;
      var fileInfo, casInfo, footerOffset := at.fileInfo, at.casInfo, at.footerOffset;
      if at.idx == 0 {
        fileInfo := at.written;
      } else if at.idx == n + 1 {
        casInfo := at.written;
      } else if at.idx == n + c + 2 {
        footerOffset := at.written;
      }
      at := at.(idx := at.idx + 1, buffer := [], off := 0, fileInfo := fileInfo, casInfo := casInfo,
        footerOffset := footerOffset);
      assert at == next;
    }

    /** Copies up to room bytes of the current section. */
    method EmitSection(room: nat) returns (out: Data)
      requires Valid() && at.idx < |plan.secs| && room > 0
      modifies `at, `rest
      ensures Valid() && old(rest) == out + rest && 0 < |out| <= room
    {
      Load();
      out := CopyOut(room);
      if at.off >= |at.buffer| { Finish(); }
    }

    /** Copies up to room bytes of the footer, building it from the recorded offsets first if needed. */
    method EmitFooter(room: nat) returns (out: Data)
      requires Valid() && at.idx == |plan.secs| && build.Some?
      modifies `at, `rest
      ensures Valid() && at.idx == |plan.secs| && at.inFooter && old(rest) == out + rest &&
        |out| == Min(room, |old(rest)|)
    {
      if !at.inFooter {
        var footer := build.value(at.fileInfo, at.casInfo, at.footerOffset);
        at := at.(buffer := footer, off := 0, inFooter := true);
      }
      out := CopyOut(room);
    }

    /** One turn of the read loop; more says whether there may be more. */
    method Emit(room: nat) returns (out: Data, more: bool)
      requires Valid() && room > 0
      modifies `at, `rest
      ensures Valid() && old(rest) == out + rest && |out| <= room
      ensures if more then |out| > 0 else rest == []
    {
      if at.idx < |s.files| + |s.cas| + 3 {
        out := EmitSection(room);
        return out, true;
      }
      out := [];
      if build.Some? {
        out := EmitFooter(room);
        if at.off < |at.buffer| { return out, true; }
      }
      more := false;
    }

    /** Adds what one turn gives to what was read before. */
    method Turn(n: nat, read: Data, ghost all: Data) returns (out: Data, more: bool)
      requires Valid() && |read| < n && all == read + rest
      modifies `at, `rest
      ensures Valid() && |out| <= n && all == out + rest
      ensures if more then |rest| < |old(rest)| else rest == []
    {
      var bytes;
      bytes, more := Emit(n - |read|);
      Emitted(all, read, old(rest), bytes, rest);
      out := read + bytes;
    }

    /** Reads up to n bytes; end of file only when nothing was left. */
    method Read(n: nat) returns (out: Data, eof: bool)
      requires Valid()
      modifies `at, `rest
      ensures Valid() && old(rest) == out + rest && |out| == Min(n, |old(rest)|)
      ensures eof <==> n > 0 && old(rest) == []
    {
      out, eof := [], false;
      ghost var all := rest;
      while |out| < n
        invariant Valid() && |out| <= n && all == out + rest
        decreases |rest|
      {
        var more;
        out, more := Turn(n, out, all);
        if !more {
          eof := out == [];
          return;
        }
      }
    }

    constructor (s: Shard, head: Data, end: Data, build: Option<(Long, Long, Long) -> Data>, ghost plan: Plan)
      requires PlanOk(plan) && plan.mark == |s.files| + 1 && Laid(plan.secs, s, head, end)
      requires plan.tail == if build.None? then [] else build.value(plan.first, plan.middle, plan.total)
      ensures Valid() && rest == Flatten(plan.secs) + plan.tail
    {
      this.s, this.head, this.end, this.build, this.plan := s, head, end, build, plan;
      at := Place(0, [], 0, false, 0, 0, 0, 0);
      rest := Flatten(plan.secs) + plan.tail;
      new;
      assert plan.secs[..0] == [] && plan.secs[0][0..] == plan.secs[0];
      assert Flatten(plan.secs) == Unread(plan.secs, 0, 0);
    }
  }

  /** Starts encoding a shard. */
  method Encode(s: Shard, footer: Option<Footer>) returns (r: ShardReader)
    requires FooterStart(s) < TWO64
    ensures fresh(r) && r.Valid() && r.rest == Encoding(s, footer)
  {
    var size: Long := if footer.None? then 0 else FOOTER_SIZE;
    FooterAt(s, footer);
    ghost var plan := PlanOf(s, size, TailOf(s, footer));
    var build := if footer.None? then None
      else Some((a: Long, b: Long, c: Long) => FooterBytes(Placed(footer.value, a, b, c)));
    r := new ShardReader(s, HeaderBytes(size), BOOKEND, build, plan);
  }

  lemma PlanOf(s: Shard, size: Long, tail: Data) returns (plan: Plan)
    requires FooterStart(s) < TWO64
    ensures plan == Plan(Sections(s, size), |s.files| + 1, tail, 48, CasStart(s), FooterStart(s)) && PlanOk(plan)
    ensures Laid(plan.secs, s, HeaderBytes(size), BOOKEND) && Flatten(plan.secs) == Body(s, size)
  {
    SectionsAreBody(s, size);
    plan := Plan(Sections(s, size), |s.files| + 1, tail, 48, CasStart(s), FooterStart(s));
    SectionsNonEmpty(HeaderBytes(size), s, BOOKEND);
    assert plan.secs[..|plan.secs|] == plan.secs;
  }

  ghost function TailOf(s: Shard, footer: Option<Footer>): Data
    requires FooterStart(s) < TWO64
  {
    if footer.None? then [] else FooterBytes(Placed(footer.value, 48, CasStart(s), FooterStart(s)))
  }

  lemma FooterAt(s: Shard, footer: Option<Footer>)
    requires FooterStart(s) < TWO64
    ensures Encoding(s, footer) == Body(s, if footer.None? then 0 else FOOTER_SIZE) + TailOf(s, footer)
  {
    if footer.None? { assert Body(s, 0) + [] == Body(s, 0); }
  }

  lemma SectionsNonEmpty(head: Record, s: Shard, end: Record)
    ensures forall i :: 0 <= i < |s.files| + |s.cas| + 3 ==>
      |Layout(head, Each(s.files, FileBytes), end, Each(s.cas, CasBytes))[i]| > 0
  {
    var l, n := Layout(head, Each(s.files, FileBytes), end, Each(s.cas, CasBytes)), |s.files|;
    LayoutAt(head, Each(s.files, FileBytes), end, Each(s.cas, CasBytes));
    forall i | 0 <= i < |l| ensures |l[i]| > 0 {
      if 0 < i <= n { assert l[(i - 1) + 1] == FileBytes(s.files[i - 1]); }
      if n + 1 < i < |l| - 1 { assert l[n + 2 + (i - n - 2)] == CasBytes(s.cas[i - n - 2]); }
    }
  }

  /** Reading with buffers of any sizes: the pieces are consecutive parts of the one encoding, all of it once the
      buffers are large enough. */
  method ReadWith(s: Shard, footer: Option<Footer>, sizes: seq<nat>) returns (out: Data)
    requires FooterStart(s) < TWO64
    ensures |out| == Min(Sum(sizes), |Encoding(s, footer)|) && out == Encoding(s, footer)[..|out|]
  {
    var r := Encode(s, footer);
    out := ReadAll(r, sizes);
  }

  method ReadAll(r: ShardReader, sizes: seq<nat>) returns (out: Data)
    requires r.Valid()
    modifies r
    ensures r.Valid() && old(r.rest) == out + r.rest && |out| == Min(Sum(sizes), |old(r.rest)|)
    decreases |sizes|
  {
    if sizes == [] { return []; }
    ghost var before := r.rest;
    var piece, eof := r.Read(sizes[0]);
    ghost var mid := r.rest;
    assert before == piece + mid && |piece| == Min(sizes[0], |before|);
    var more := ReadAll(r, sizes[1..]);
    assert mid == more + r.rest && |more| == Min(Sum(sizes[1..]), |mid|);
    Assoc(piece, more, r.rest);
    TakeBoth(|before|, sizes[0], Sum(sizes[1..]), |piece|, |more|);
    out := piece + more;
  }

  lemma TakeBoth(total: nat, a: nat, b: nat, x: nat, y: nat)
    requires x == Min(a, total) && y == Min(b, total - x)
    ensures x + y == Min(a + b, total)
  {}
}
