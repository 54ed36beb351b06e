/** Filling a cache file: chunks are decoded, appended and shown one by one, and the last one seals the file. */
module ChunkWriter {
  import opened Common
  import opened HashText
  import opened Wire
  import opened CacheFile

  /** The file after bytes are written over it at an offset inside it or at its end. */
  function WriteAt(file: Data, bytes: Data, off: nat): Data
    requires off <= |file|
  {
    file[..off] + bytes + (if off + |bytes| <= |file| then file[off + |bytes|..] else [])
  }

  /** Patching the table leaves the data where it was. */
  lemma PatchTable(n: nat, data: Data, table: seq<nat>)
    requires |table| == n + 1
    ensures WriteAt(Unsealed(n, data), Header(table), 0) == Header(table) + data
  {
    HeaderLength(table);
    HeaderLength(Blank(n));
  }

  lemma AppendData(n: nat, chunks: seq<Data>, x: Data)
    ensures |Unsealed(n, Flatten(chunks))| == HeaderSize(n) + |Flatten(chunks)|
    ensures WriteAt(Unsealed(n, Flatten(chunks)), x, HeaderSize(n) + |Flatten(chunks)|) ==
      Unsealed(n, Flatten(chunks + [x]))
  {
    HeaderLength(Blank(n));
    FlattenSnoc(chunks, x);
  }

  /** Adding a chunk moves no earlier one. */
  lemma AtKept(chunks: seq<Data>, x: Data, i: nat)
    requires i <= |chunks|
    ensures At(chunks + [x], i) == At(chunks, i)
  {
    assert (chunks + [x])[..i] == chunks[..i];
  }

  /** The refs of chunks laid one after the other behind a header of h bytes. */
  ghost predicate Located(h: nat, chunks: seq<Data>, metas: seq<Ref>) {
    |metas| == |chunks| && forall i {:trigger metas[i]} :: 0 <= i < |chunks| ==>
      metas[i] == Ref(h + At(chunks, i), |chunks[i]|)
  }

  lemma LocatedSnoc(h: nat, chunks: seq<Data>, metas: seq<Ref>, x: Data)
    requires Located(h, chunks, metas)
    ensures Located(h, chunks + [x], metas + [Ref(h + |Flatten(chunks)|, |x|)])
  {
    forall i | 0 <= i <= |chunks| ensures At(chunks + [x], i) == At(chunks, i) { AtKept(chunks, x, i); }
    assert chunks[..|chunks|] == chunks;
  }

  /** A chunk read back through its ref, from a file that holds the data behind a header. */
  lemma ReadBack(head: Data, chunks: seq<Data>, tail: Data, i: nat)
    requires i < |chunks|
    ensures |head| + At(chunks, i) + |chunks[i]| <= |head + Flatten(chunks) + tail|
    ensures (head + Flatten(chunks) + tail)[|head| + At(chunks, i)..|head| + At(chunks, i) + |chunks[i]|] == chunks[i]
  {
    AtNext(chunks, i);
    ChunkSlice(chunks, i);
  }

  datatype Loaded = Count(n: nat) | Eof | Fault

  /** What has been decoded, what will be, and how loading stands. */
  datatype Feed = Feed(rest: seq<Data>, loaded: seq<Data>, done: bool, failed: bool)

  /** One load, with a range of n chunks to fill. */
  predicate Stepped(n: nat, broken: bool, a: Feed, b: Feed, r: Loaded) {
    if a.done then b == a && r == Eof
    else if a.failed then b == a && r == Fault
    else if a.rest == [] then if broken then b == a.(failed := true) && r == Fault
      else b == a.(done := true) && r == Eof
    else if |a.loaded| + 1 < n then b == Feed(a.rest[1..], a.loaded + [a.rest[0]], false, false) &&
      r == Count(|b.loaded|)
    else
      && b.loaded == a.loaded + [a.rest[0]]
      && if |a.rest| == 1 && !broken then b.done && !b.failed && r == Count(|b.loaded|)
        else b.failed && !b.done && r == Fault
  }

  /** How loading ends once every chunk has been asked for. */
  lemma Ends(n: nat, broken: bool, a: Feed, b: Feed, r: Loaded)
    requires Stepped(n, broken, a, b, r) && !a.done && !a.failed && |a.loaded| < n
    ensures b.done || b.failed ==> b.loaded == (a.loaded + a.rest)[..Min(|a.loaded + a.rest|, n)]
    ensures b.done ==> !r.Fault? && |a.loaded + a.rest| <= n && !broken
    ensures r.Fault? <==> b.failed
    ensures b.failed ==> broken || |a.loaded + a.rest| > n
    ensures !b.done && !b.failed ==> b.loaded + b.rest == a.loaded + a.rest && |b.rest| < |a.rest| && |b.loaded| < n
  {
  }

  class ChunkCache {
    const mix: Mixer
    const expected: nat
    /** The decoder: the chunks it will still produce, and whether it then fails instead of ending. */
    var rest: seq<Data>
    const broken: bool
    var metas: seq<Ref>
    var shown: nat
    var writePos: nat
    var crc: Word
    var done: bool
    var failed: bool
    var published: bool
    var file: Data
    ghost var loaded: seq<Data>

    ghost predicate Filling()
      reads this
    {
      && 0 < expected <= MAX_CHUNKS && Buffered(loaded) && Buffered(rest)
      && Located(HeaderSize(expected), loaded, metas)
      && writePos == HeaderSize(expected) + |Flatten(loaded)|
      && crc == Update(mix, 0, Flatten(loaded))
    }

    /** Until it is published the file is the empty table and the data so far; from then on it is the sealed file. */
    ghost predicate Valid()
      reads this
    {
      && Filling()
      && shown == |loaded| <= expected
      && (published <==> |loaded| == expected)
      && (published ==> done || failed)
      && file == if published then SealedFile(mix, loaded) else Unsealed(expected, Flatten(loaded))
    }

    ghost function View(): Feed
      reads this
    {
      Feed(rest, loaded, done, failed)
    }

    constructor (mix: Mixer, expected: nat, decoded: seq<Data>, broken: bool)
      requires 0 < expected <= MAX_CHUNKS && Buffered(decoded)
      ensures Valid() && !done && !failed && loaded == [] && rest == decoded
      ensures this.mix == mix && this.expected == expected && this.broken == broken
    {
      this.mix, this.expected, this.broken := mix, expected, broken;
      rest, metas, shown, writePos, crc, loaded := decoded, [], 0, HeaderSize(expected), 0, [];
      done, failed, published := false, false, false;
      file := Header(Blank(expected));
      new;
      assert file == Unsealed(expected, []);
    }

    /** The table is the running sum of the sizes in 32-bit arithmetic; it never wraps around. */
    method Offsets() returns (table: seq<nat>)
      requires Filling() && |loaded| == expected
      ensures table == Table(loaded)
    {
      table := [0];
      assert loaded[..0] == [];
      for i := 0 to |metas|
        invariant |table| == i + 1
        invariant forall j {:trigger table[j]} :: 0 <= j <= i ==> table[j] == At(loaded, j)
      {
        AtNext(loaded, i);
        OffsetsFit(loaded, i + 1);
        table := table + [(table[i] + metas[i].size) % TWO32];
      }
    }

    method Seal()
      requires Filling() && |loaded| == expected && file == Unsealed(expected, Flatten(loaded))
      modifies `file, `published
      ensures published && file == SealedFile(mix, loaded)
    {
      var table := Offsets();
      var header := Header(table);
      PatchTable(expected, Flatten(loaded), table);
      HeaderLength(table);
      file := WriteAt(file, header, 0);
      file := WriteAt(file, U32(Update(mix, crc, header)), writePos);
      published := true;
    }

    /** Stores one decoded chunk behind the others. */
    method Store(x: Data)
      requires Valid() && !published && |x| <= BUFFER_SIZE
      modifies `metas, `writePos, `crc, `file, `loaded
      ensures Filling() && loaded == old(loaded) + [x] && file == Unsealed(expected, Flatten(loaded))
    {
      AppendData(expected, loaded, x);
      UpdateAppend(mix, 0, Flatten(loaded), x);
      FlattenSnoc(loaded, x);
      LocatedSnoc(HeaderSize(expected), loaded, metas, x);
      file := WriteAt(file, x, writePos);
      crc := Update(mix, crc, x);
      metas := metas + [Ref(writePos, |x|)];
      writePos := writePos + |x|;
      loaded := loaded + [x];
    }

    /**
     * One load. The last chunk is sealed before the decoder is asked for its end, so an entry can be
     * published by a load that then fails: what it holds is complete all the same.
     */
    method Load() returns (r: Loaded)
      requires Valid()
      modifies this
      ensures Valid() && Stepped(expected, broken, old(View()), View(), r)
    {
      if done { return Eof; }
      if failed { return Fault; }
      if rest == [] {
        if broken {
          failed := true;
          return Fault;
        }
        done := true;
        return Eof;
      }
      var x := rest[0];
      rest := rest[1..];
      Store(x);
      var count := |metas|;
      if count != expected {
        shown := count;
        return Count(count);
      }
      r := Complete();
    }

    /** Seals, shows the last chunk and asks the decoder for its end. */
    method Complete() returns (r: Loaded)
      requires Filling() && |loaded| == expected && file == Unsealed(expected, Flatten(loaded)) && !done && !failed
      modifies this
      ensures Valid() && loaded == old(loaded)
      ensures if old(rest) == [] && !broken then done && !failed && r == Count(expected)
        else failed && !done && r == Fault
    {
      Seal();
      shown := |metas|;
      if rest == [] && !broken {
        done := true;
        return Count(|metas|);
      }
      rest := if rest == [] then [] else rest[1..];
      failed := true;
      r := Fault;
    }

    /**
     * Loads everything. The file ends up sealed exactly when the decoder produced at least the expected
     * chunks, holding those and no others; the call succeeds exactly when it produced no more and ended well.
     */
    method LoadAll() returns (ok: bool)
      requires Valid() && !done && !failed
      modifies this
      ensures Valid()
      ensures var all := old(loaded + rest);
        && (ok <==> |all| == expected && !broken)
        && (published <==> |all| >= expected)
        && loaded == all[..Min(|all|, expected)]
    {
      ghost var all := loaded + rest;
      while !done
        invariant Valid() && !failed
        invariant !done ==> all == loaded + rest
        invariant done ==> loaded == all[..Min(|all|, expected)] && |all| <= expected && !broken
        decreases !done, |rest|
      {
        ghost var a := View();
        var r := Load();
        Ends(expected, broken, a, View(), r);
        if r.Fault? { return false; }
      }
      ok := published;
    }

    /** An entry that was not sealed is emptied, so that nobody takes it for one. */
    method Finish()
      requires Valid()
      modifies this
      ensures done && published == old(published) && loaded == old(loaded)
      ensures file == if published then SealedFile(mix, loaded) else []
    {
      done := true;
      if !published {
        file := [];
      }
    }

    /** A reader gets a chunk exactly when it is shown and fits the buffer, and gets the bytes that were decoded. */
    method ReadChunk(idx: nat, room: nat) returns (r: Option<Data>)
      requires Valid()
      ensures r == if idx < |loaded| && |loaded[idx]| <= room then Some(loaded[idx]) else None
    {
      if idx >= shown { return None; }
      var m := metas[idx];
      if m.size > room { return None; }
      Holds(idx);
      r := Some(file[m.offset..m.offset + m.size]);
    }

    lemma Holds(idx: nat)
      requires Valid() && idx < |loaded|
      ensures metas[idx].offset + metas[idx].size <= |file|
      ensures file[metas[idx].offset..metas[idx].offset + metas[idx].size] == loaded[idx]
    {
      if published {
        HeaderLength(Table(loaded));
        var header := Header(Table(loaded));
        ReadBack(header, loaded, U32(Checksum(mix, header, Flatten(loaded))), idx);
      } else {
        HeaderLength(Blank(expected));
        ReadBack(Header(Blank(expected)), loaded, [], idx);
        assert file == Header(Blank(expected)) + Flatten(loaded) + [];
      }
    }
  }
}
