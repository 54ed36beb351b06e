/** The cache files of one xorb: assembling a chunk range from several of them. */
module CacheDirectory {
  import opened Common
  import opened HashText
  import opened Wire
  import opened CacheFile

  /** A file name: the chunks the file holds and the xorb bytes they came from. */
  datatype Name = Name(start: nat, end: nat, bytesStart: nat, bytesEnd: nat)

  type Files = map<Name, Data>

  predicate Spans(n: Name, k: nat) { n.start <= k < n.end }

  /** The file passes the size arithmetic. */
  predicate Complete(files: Files, n: Name) { n in files && ReadLayout(files[n], n.start, n.end).Some? }

  /** The file is complete, its checksum is right and its table in order. */
  ghost predicate Genuine(mix: Mixer, files: Files, n: Name) { n in files && Accepted(mix, files[n], n.start, n.end) }

  /** No corrupt entry: what passes the size arithmetic is genuine. */
  ghost predicate Sound(mix: Mixer, files: Files) {
    forall n {:trigger Complete(files, n)} :: Complete(files, n) ==> Genuine(mix, files, n)
  }

  ghost predicate Covered(mix: Mixer, files: Files, k: nat) {
    exists n {:trigger Genuine(mix, files, n)} :: Genuine(mix, files, n) && Spans(n, k)
  }

  /** A file sealed over the chunks its name gives is complete and genuine, and serves each of them. */
  lemma SealedIsGenuine(mix: Mixer, files: Files, n: Name, chunks: seq<Data>)
    requires n in files && files[n] == SealedFile(mix, chunks) && Buffered(chunks)
    requires n.start < n.end <= 8192 && |chunks| == n.end - n.start
    ensures Complete(files, n) && Genuine(mix, files, n)
    ensures forall k: nat :: n.start <= k < n.end ==>
      Covered(mix, files, k) && Serves(files[n], n.start, n.end, k - n.start, chunks[k - n.start])
  {
    SealedAccepted(mix, chunks, n.start, n.end);
    forall k: nat | n.start <= k < n.end
      ensures Covered(mix, files, k) && Serves(files[n], n.start, n.end, k - n.start, chunks[k - n.start])
    {
      assert Genuine(mix, files, n) && Spans(n, k);
      var i := k - n.start;
      assert chunks[i] == chunks[k - n.start];
    }
  }

  /** The names remembered as verified have a right checksum. */
  ghost predicate Trusted(mix: Mixer, files: Files, verified: set<Name>) {
    forall n {:trigger n in verified} :: n in verified && Complete(files, n) ==>
      CrcOk(mix, files[n], ReadLayout(files[n], n.start, n.end).value)
  }

  // ---------------------------------------------------------------- sorting

  type Order = (Name, Name) -> bool

  ghost predicate Total(le: Order) {
    && (forall x, y {:trigger le(x, y)} :: le(x, y) || le(y, x))
    && (forall x, y, z {:trigger le(x, y), le(y, z)} :: le(x, y) && le(y, z) ==> le(x, z))
  }

  ghost predicate Sorted(le: Order, s: seq<Name>) {
    forall i, j {:trigger s[i], s[j]} :: 0 <= i < j < |s| ==> le(s[i], s[j])
  }

  function Insert(le: Order, s: seq<Name>, x: Name): (r: seq<Name>)
    ensures multiset(r) == multiset(s) + multiset{x}
  {
    if s == [] then [x]
    else if le(x, s[0]) then [x] + s
    else
      assert s == [s[0]] + s[1..];
      [s[0]] + Insert(le, s[1..], x)
  }

  function Sort(le: Order, s: seq<Name>): (r: seq<Name>)
    ensures multiset(r) == multiset(s)
  {
    if s == [] then []
    else
      assert s == [s[0]] + s[1..];
      Insert(le, Sort(le, s[1..]), s[0])
  }

  lemma {:induction false} InsertSorts(le: Order, s: seq<Name>, x: Name)
    requires Total(le) && Sorted(le, s)
    ensures Sorted(le, Insert(le, s, x))
  {
    if s != [] && !le(x, s[0]) {
      InsertSorts(le, s[1..], x);
      var r := Insert(le, s[1..], x);
      forall j | 0 <= j < |r| ensures le(s[0], r[j]) {
        assert r[j] in multiset(s[1..]) + multiset{x};
        if r[j] != x { assert r[j] in s[1..]; }
      }
    }
  }

  lemma {:induction false} SortSorts(le: Order, s: seq<Name>)
    requires Total(le)
    ensures Sorted(le, Sort(le, s))
  {
    if s != [] {
      SortSorts(le, s[1..]);
      InsertSorts(le, Sort(le, s[1..]), s[0]);
    }
  }

  lemma SameNames(le: Order, s: seq<Name>, x: Name)
    ensures x in Sort(le, s) <==> x in s
  {
    assert x in Sort(le, s) <==> x in multiset(Sort(le, s));
  }

  predicate ByStart(x: Name, y: Name) { x.start <= y.start }

  // ---------------------------------------------------------------- opening a range

  /** A chunk's place in one of the opened files. */
  datatype Meta = Meta(ref: Ref, file: nat)

  datatype Opened = Opened(metas: seq<Meta>, names: seq<Name>) | Miss | Corrupt(name: Name)

  /** The meta leads to the bytes of chunk k in a complete file with a right checksum. */
  ghost predicate Placed(mix: Mixer, files: Files, names: seq<Name>, m: Meta, k: nat) {
    && m.file < |names| && Complete(files, names[m.file]) && Spans(names[m.file], k)
    && var n := names[m.file];
       var l := ReadLayout(files[n], n.start, n.end).value;
       && CrcOk(mix, files[n], l) && GoodPair(files[n], l, k - n.start)
       && m.ref == Ref(l.headerBytes + Stored(files[n], k - n.start),
         Stored(files[n], k - n.start + 1) - Stored(files[n], k - n.start))
  }

  /** Following such a meta gives what its file serves for the chunk. */
  lemma PlacedBytes(mix: Mixer, files: Files, names: seq<Name>, m: Meta, k: nat)
    requires Placed(mix, files, names, m, k)
    ensures var n := names[m.file];
      m.ref.offset + m.ref.size <= |files[n]| &&
        Serves(files[n], n.start, n.end, k - n.start, files[n][m.ref.offset..m.ref.offset + m.ref.size])
  {
  }

  /** The metas of chunks a up to b. */
  ghost predicate AllPlaced(mix: Mixer, files: Files, names: seq<Name>, metas: seq<Meta>, a: nat) {
    forall i: nat {:trigger metas[i]} :: i < |metas| ==> Placed(mix, files, names, metas[i], a + i)
  }

  lemma PlacedGrows(mix: Mixer, files: Files, names: seq<Name>, m: Meta, k: nat, n: Name)
    requires Placed(mix, files, names, m, k)
    ensures Placed(mix, files, names + [n], m, k)
  {
    assert (names + [n])[m.file] == names[m.file];
  }

  lemma PlaceOne(mix: Mixer, files: Files, names: seq<Name>, n: Name, l: Layout, from: nat, upTo: nat, refs: seq<Ref>,
                 i: nat)
    requires n in files && ReadLayout(files[n], n.start, n.end) == Some(l) && CrcOk(mix, files[n], l)
    requires n.start <= from <= upTo <= n.end && RefsOf(files[n], l, from - n.start, upTo - n.start, refs) && i < |refs|
    ensures Placed(mix, files, names + [n], Meta(refs[i], |names|), from + i)
  {
    assert from - n.start + i == from + i - n.start;
  }

  lemma PlaceFile(mix: Mixer, files: Files, names: seq<Name>, n: Name, l: Layout, from: nat, upTo: nat, refs: seq<Ref>)
    requires n in files && ReadLayout(files[n], n.start, n.end) == Some(l) && CrcOk(mix, files[n], l)
    requires n.start <= from <= upTo <= n.end && RefsOf(files[n], l, from - n.start, upTo - n.start, refs)
    ensures AllPlaced(mix, files, names + [n], Tagged(refs, |names|), from)
  {
    forall i: nat | i < |refs| ensures Placed(mix, files, names + [n], Meta(refs[i], |names|), from + i) {
      PlaceOne(mix, files, names, n, l, from, upTo, refs, i);
    }
  }

  /** A further file adds its chunks behind those already placed. */
  lemma PlaceMore(mix: Mixer, files: Files, names: seq<Name>, metas: seq<Meta>, more: seq<Meta>, a: nat, n: Name)
    requires AllPlaced(mix, files, names, metas, a) && AllPlaced(mix, files, names + [n], more, a + |metas|)
    ensures AllPlaced(mix, files, names + [n], metas + more, a)
  {
    forall i: nat | i < |metas + more| ensures Placed(mix, files, names + [n], (metas + more)[i], a + i) {
      if i < |metas| {
        PlacedGrows(mix, files, names, metas[i], a + i, n);
      } else {
        assert Placed(mix, files, names + [n], more[i - |metas|], a + |metas| + (i - |metas|));
      }
    }
  }

  function Tagged(refs: seq<Ref>, file: nat): (r: seq<Meta>)
    ensures |r| == |refs| && forall i :: 0 <= i < |r| ==> r[i] == Meta(refs[i], file)
  {
    seq(|refs|, i requires 0 <= i < |refs| => Meta(refs[i], file))
  }

  datatype Look = Skip | Take(metas: seq<Meta>) | Bad

  /** A complete file's checksum is computed once per name. */
  method Check(mix: Mixer, files: Files, n: Name, l: Layout, verified: set<Name>) returns (ok: bool, known: set<Name>)
    requires Trusted(mix, files, verified) && n in files && ReadLayout(files[n], n.start, n.end) == Some(l)
    ensures Trusted(mix, files, known) && verified <= known
    ensures ok == CrcOk(mix, files[n], l)
  {
    ok, known := true, verified;
    if n !in verified {
      ok := VerifyCrc(mix, files[n], l);
      if ok { known := known + {n}; }
    }
  }

  /** The metas of chunks from..upTo of a checked file. */
  method Locate(mix: Mixer, files: Files, names: seq<Name>, n: Name, l: Layout, from: nat, upTo: nat) returns (r: Look)
    requires n in files && ReadLayout(files[n], n.start, n.end) == Some(l) && CrcOk(mix, files[n], l)
    requires n.start <= from < upTo <= n.end
    ensures !r.Skip? && (r.Bad? ==> !Genuine(mix, files, n))
    ensures r.Take? ==> |r.metas| == upTo - from && AllPlaced(mix, files, names + [n], r.metas, from)
  {
    var refs := ReadMetas(files[n], l, n.start, from, upTo);
    r := if refs.None? then Bad else Take(Tagged(refs.value, |names|));
    if refs.None? {
      assert !TableOk(files[n], l, 0, n.end - n.start);
    } else {
      PlaceFile(mix, files, names, n, l, from, upTo, refs.value);
    }
  }

  /** Looks at one candidate that may extend the cover by chunks from..upTo. */
  method Inspect(mix: Mixer, files: Files, names: seq<Name>, n: Name, verified: set<Name>, from: nat, upTo: nat)
    returns (r: Look, known: set<Name>)
    requires Trusted(mix, files, verified) && n.start <= from < upTo <= n.end
    ensures Trusted(mix, files, known) && verified <= known
    ensures r.Skip? <==> !Complete(files, n)
    ensures r.Bad? ==> Complete(files, n) && !Genuine(mix, files, n)
    ensures r.Take? ==> |r.metas| == upTo - from && AllPlaced(mix, files, names + [n], r.metas, from)
  {
    known := verified;
    if n !in files { return Skip, known; }
    var layout := ReadLayout(files[n], n.start, n.end);
    if layout.None? { return Skip, known; }
    var ok;
    ok, known := Check(mix, files, n, layout.value, known);
    if !ok { return Bad, known; }
    r := Locate(mix, files, names, n, layout.value, from, upTo);
  }

  /** Every genuine candidate seen so far ends inside the cover. */
  ghost predicate Used(mix: Mixer, files: Files, cands: seq<Name>, i: nat, covered: nat)
    requires i <= |cands|
  {
    forall j {:trigger cands[j]} :: 0 <= j < i && Genuine(mix, files, cands[j]) ==> cands[j].end <= covered
  }

  /** No genuine candidate holds chunk k. */
  ghost predicate Gap(mix: Mixer, files: Files, cands: seq<Name>, k: nat) {
    forall n {:trigger Genuine(mix, files, n)} :: n in cands && Genuine(mix, files, n) ==> !Spans(n, k)
  }

  /** Nothing genuine among the candidates reaches the first chunk that is still missing. */
  lemma GapIsReal(mix: Mixer, files: Files, cands: seq<Name>, i: nat, covered: nat)
    requires i <= |cands| && Used(mix, files, cands, i, covered) && Sorted(ByStart, cands)
    requires i < |cands| ==> cands[i].start > covered
    ensures Gap(mix, files, cands, covered)
  {
    forall n | n in cands && Genuine(mix, files, n) ensures !Spans(n, covered) {
      var j :| 0 <= j < |cands| && cands[j] == n;
      if j > i { assert ByStart(cands[i], cands[j]); }
    }
  }

  /** The cover after i candidates: chunks a up to covered have a place, and no genuine candidate was passed over. */
  ghost predicate Grown(mix: Mixer, files: Files, cands: seq<Name>, i: nat, a: nat, b: nat, metas: seq<Meta>,
                        names: seq<Name>) {
    && i <= |cands| && a + |metas| <= b && AllPlaced(mix, files, names, metas, a)
    && (a + |metas| < b ==> Used(mix, files, cands, i, a + |metas|))
  }

  lemma GrowsOn(mix: Mixer, files: Files, cands: seq<Name>, i: nat, a: nat, b: nat, metas: seq<Meta>, names: seq<Name>,
                more: seq<Meta>)
    requires Grown(mix, files, cands, i, a, b, metas, names) && i < |cands| && a + |metas| < b
    requires a + |metas| + |more| == Min(cands[i].end, b) &&
      AllPlaced(mix, files, names + [cands[i]], more, a + |metas|)
    ensures Grown(mix, files, cands, i + 1, a, b, metas + more, names + [cands[i]])
  {
    PlaceMore(mix, files, names, metas, more, a, cands[i]);
  }

  lemma PassedOver(mix: Mixer, files: Files, cands: seq<Name>, i: nat, a: nat, b: nat, metas: seq<Meta>,
                   names: seq<Name>)
    requires Grown(mix, files, cands, i, a, b, metas, names) && i < |cands|
    requires cands[i].end <= a + |metas| || !Complete(files, cands[i])
    ensures Grown(mix, files, cands, i + 1, a, b, metas, names)
  {
  }

  /**
   * The greedy cover over candidates sorted by where they start, whatever the order of equal starts. It
   * misses only if some chunk is in no genuine candidate, and what it opens leads to every chunk's bytes.
   */
  method Assemble(mix: Mixer, files: Files, cands: seq<Name>, verified: set<Name>, a: nat, b: nat)
    returns (r: Opened, known: set<Name>)
    requires Trusted(mix, files, verified) && Sorted(ByStart, cands) && a < b
    ensures Trusted(mix, files, known)
    ensures r.Opened? ==> |r.metas| == b - a && AllPlaced(mix, files, r.names, r.metas, a)
    ensures r.Corrupt? ==> r.name in cands && Complete(files, r.name) && !Genuine(mix, files, r.name)
    ensures r.Miss? ==> exists k {:trigger Gap(mix, files, cands, k)} :: a <= k < b && Gap(mix, files, cands, k)
  {
    var covered := a;
    var metas: seq<Meta>, names: seq<Name> := [], [];
    var i := 0;
    known := verified;
    while i < |cands| && covered < b && cands[i].start <= covered
      invariant Grown(mix, files, cands, i, a, b, metas, names) && covered == a + |metas| && Trusted(mix, files, known)
    {
      var c := cands[i];
      if c.end <= covered {
        PassedOver(mix, files, cands, i, a, b, metas, names);
      } else {
        var needEnd := Min(c.end, b);
        var look;
        look, known := Inspect(mix, files, names, c, known, covered, needEnd);
        if look.Bad? { return Corrupt(c), known; }
        if look.Take? {
          GrowsOn(mix, files, cands, i, a, b, metas, names, look.metas);
          metas := metas + look.metas;
          names := names + [c];
          covered := needEnd;
        } else {
          PassedOver(mix, files, cands, i, a, b, metas, names);
        }
      }
      i := i + 1;
    }
    if covered < b {
      GapIsReal(mix, files, cands, i, covered);
      return Miss, known;
    }
    r := Opened(metas, names);
  }

  predicate Meets(n: Name, a: nat, b: nat) { !(n.end <= a || n.start >= b) }

  /** The listed files that hold some chunk of the range, in order of where they start. */
  method Candidates(listing: seq<Name>, a: nat, b: nat) returns (cands: seq<Name>)
    ensures Sorted(ByStart, cands)
    ensures forall n :: n in cands <==> n in listing && Meets(n, a, b)
  {
    var found := [];
    for i := 0 to |listing|
      invariant forall n :: n in found <==> n in listing[..i] && Meets(n, a, b)
    {
      var n := listing[i];
      if Meets(n, a, b) { found := found + [n]; }
    }
    assert listing[..|listing|] == listing;
    cands := Sort(ByStart, found);
    SortSorts(ByStart, found);
    forall n ensures n in cands <==> n in found { SameNames(ByStart, found, n); }
  }

  /** A chunk in no genuine candidate is in no genuine file at all. */
  lemma NotCovered(mix: Mixer, files: Files, listing: seq<Name>, cands: seq<Name>, a: nat, b: nat, k: nat)
    requires a <= k < b && forall n :: n in files ==> n in listing
    requires forall n :: n in cands <==> n in listing && Meets(n, a, b)
    requires Gap(mix, files, cands, k)
    ensures !Covered(mix, files, k)
  {
  }

  /** A placed chunk is covered when nothing is corrupt. */
  lemma PlacedCovered(mix: Mixer, files: Files, names: seq<Name>, metas: seq<Meta>, a: nat, k: nat)
    requires Sound(mix, files) && AllPlaced(mix, files, names, metas, a) && a <= k < a + |metas|
    ensures Covered(mix, files, k)
  {
    var m := metas[k - a];
    assert Placed(mix, files, names, m, a + (k - a));
    assert Complete(files, names[m.file]) && Genuine(mix, files, names[m.file]);
  }

  /** What opening may answer: a place for every chunk, a corrupt file, or a chunk that no genuine file holds. */
  ghost predicate Answers(mix: Mixer, files: Files, a: nat, b: nat, r: Opened) {
    match r
    case Opened(metas, names) => a + |metas| == b && AllPlaced(mix, files, names, metas, a)
    case Corrupt(n) => Complete(files, n) && !Genuine(mix, files, n) && Meets(n, a, b)
    case Miss => exists k {:trigger Covered(mix, files, k)} :: a <= k < b && !Covered(mix, files, k)
  }

  ghost predicate AllCovered(mix: Mixer, files: Files, a: nat, b: nat) {
    forall k {:trigger Covered(mix, files, k)} :: a <= k < b ==> Covered(mix, files, k)
  }

  /** With no corrupt entry a range opens exactly when every chunk of it lies in some sealed file. */
  lemma OpensExactly(mix: Mixer, files: Files, a: nat, b: nat, r: Opened)
    requires Sound(mix, files) && Answers(mix, files, a, b, r)
    ensures r.Opened? <==> AllCovered(mix, files, a, b)
  {
    match r {
      case Opened(metas, names) =>
        forall k | a <= k < b ensures Covered(mix, files, k) { PlacedCovered(mix, files, names, metas, a, k); }
      case Corrupt(n) =>
      case Miss =>
    }
  }

  /** Opening a range of chunks, from the files there are when it looks at them. */
  method OpenCachedRange(mix: Mixer, files: Files, listing: seq<Name>, verified: set<Name>, a: nat, b: nat)
    returns (r: Opened, known: set<Name>)
    requires Trusted(mix, files, verified) && a < b && forall n :: n in files ==> n in listing
    ensures Trusted(mix, files, known)
    ensures Answers(mix, files, a, b, r)
    ensures Sound(mix, files) ==> (r.Opened? <==> AllCovered(mix, files, a, b))
  {
    var cands := Candidates(listing, a, b);
    r, known := Assemble(mix, files, cands, verified, a, b);
    if r.Miss? {
      ghost var k :| a <= k < b && Gap(mix, files, cands, k);
      NotCovered(mix, files, listing, cands, a, b, k);
    }
    if Sound(mix, files) { OpensExactly(mix, files, a, b, r); }
  }

  // ---------------------------------------------------------------- what the chunks are

  /** The genuine files hold the chunks of one xorb, each no larger than the pooled buffer. */
  ghost predicate Holds(mix: Mixer, files: Files, xorb: nat -> Data) {
    forall n, k: nat {:trigger Genuine(mix, files, n), Spans(n, k)} :: Genuine(mix, files, n) && Spans(n, k) ==>
      Serves(files[n], n.start, n.end, k - n.start, xorb(k)) && |xorb(k)| <= BUFFER_SIZE
  }

  lemma ServesOnce(file: Data, start: nat, end: nat, i: nat, x: Data, y: Data)
    requires Serves(file, start, end, i, x) && Serves(file, start, end, i, y)
    ensures x == y
  {
  }

  /** A place in a genuine file gives the xorb's bytes. */
  lemma PlaceHolds(mix: Mixer, files: Files, xorb: nat -> Data, names: seq<Name>, m: Meta, k: nat)
    requires Sound(mix, files) && Holds(mix, files, xorb) && Placed(mix, files, names, m, k)
    ensures var f := files[names[m.file]];
      m.ref.offset + m.ref.size <= |f| && f[m.ref.offset..m.ref.offset + m.ref.size] == xorb(k) &&
        m.ref.size <= BUFFER_SIZE
  {
    var n := names[m.file];
    PlacedBytes(mix, files, names, m, k);
    assert Complete(files, n) && Genuine(mix, files, n) && Spans(n, k);
    ServesOnce(files[n], n.start, n.end, k - n.start, files[n][m.ref.offset..m.ref.offset + m.ref.size], xorb(k));
  }

  /** Every meta of an opened range leads to the xorb's own bytes of its chunk. */
  lemma OpenedBytes(mix: Mixer, files: Files, xorb: nat -> Data, names: seq<Name>, metas: seq<Meta>, a: nat, i: nat)
    requires Sound(mix, files) && Holds(mix, files, xorb) && AllPlaced(mix, files, names, metas, a) && i < |metas|
    ensures metas[i].file < |names| && names[metas[i].file] in files
    ensures var m := metas[i]; var f := files[names[m.file]];
      m.ref.offset + m.ref.size <= |f| && f[m.ref.offset..m.ref.offset + m.ref.size] == xorb(a + i) &&
        m.ref.size <= BUFFER_SIZE
  {
    assert Placed(mix, files, names, metas[i], a + i);
    PlaceHolds(mix, files, xorb, names, metas[i], a + i);
  }
}
