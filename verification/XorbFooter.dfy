/** The footer of a full-format xorb: its layout, reading chunk offsets from it, and checking it against decoded
    chunks. */
module XorbFooter {
  import opened Common
  import opened HashText
  import opened Wire

  /** XETBLOB */
  const IDENT: Data := [0x58, 0x45, 0x54, 0x42, 0x4C, 0x4F, 0x42]
  /** XBLBHSH */
  const HASH_IDENT: Data := [0x58, 0x42, 0x4C, 0x42, 0x48, 0x53, 0x48]
  /** XBLBBND */
  const BOUNDARY_IDENT: Data := [0x58, 0x42, 0x4C, 0x42, 0x42, 0x4E, 0x44]

  const RESERVED: Data := [0, 0, 0, 0, 0, 0, 0, 0, 0, 0, 0, 0]

  const MIN_FOOTER_SIZE: nat := 96

  // ---------------------------------------------------------------- layout

  function Bytes32(hs: seq<Digest>): Data { if hs == [] then [] else hs[0] + Bytes32(hs[1..]) }

  function MainHeader(hash: Digest): (r: Data)
    ensures |r| == 40
  {
    IDENT + [1] + hash
  }

  function HashSection(hashes: seq<Digest>): Data { HASH_IDENT + [0] + U32(|hashes|) + Bytes32(hashes) }

  function BoundarySection(packed: seq<nat>, unpacked: seq<nat>): Data {
    BOUNDARY_IDENT + [1] + U32(|packed|) + U32s(packed) + U32s(unpacked)
  }

  function Trailer(n: nat, nonce: Data): (r: Data)
    requires |nonce| == 4
    ensures |r| == 28
  {
    U32(n) + U32(52 + 40 * n) + U32(40 + 8 * n) + nonce + RESERVED
  }

  /** The whole footer; its last four bytes count the others. */
  function Footer(hash: Digest, hashes: seq<Digest>, packed: seq<nat>, unpacked: seq<nat>, nonce: Data): Data
    requires |nonce| == 4
  {
    MainHeader(hash) + (HashSection(hashes)
      + (BoundarySection(packed, unpacked) + (Trailer(|hashes|, nonce) + U32(92 + 40 * |hashes|))))
  }

  lemma {:induction false} Bytes32Length(hs: seq<Digest>)
    ensures |Bytes32(hs)| == 32 * |hs|
  {
    if hs != [] { Bytes32Length(hs[1..]); }
  }

  lemma {:induction false} Bytes32At(hs: seq<Digest>, i: nat)
    requires i < |hs|
    ensures |Bytes32(hs)| == 32 * |hs| && Bytes32(hs)[32 * i..32 * i + 32] == hs[i]
  {
    Bytes32Length(hs);
    if i > 0 {
      Bytes32At(hs[1..], i - 1);
      assert Bytes32(hs)[32 * i..32 * i + 32] == Bytes32(hs[1..])[32 * (i - 1)..32 * (i - 1) + 32];
    }
  }

  /** A slice of a slice. */
  lemma Sub(s: Data, from: nat, len: nat, k: nat, n: nat)
    requires from + len <= |s| && k + n <= len
    ensures s[from..from + len][k..k + n] == s[from + k..from + k + n]
  {
    var a, b := s[from..from + len][k..k + n], s[from + k..from + k + n];
    assert |a| == |b| && forall i :: 0 <= i < |a| ==> a[i] == b[i];
  }

  lemma FiveParts(a: Data, b: Data, c: Data, d: Data, e: Data)
    ensures var f := a + (b + (c + (d + e)));
      && f[..|a|] == a && f[|a|..|a| + |b|] == b && f[|a| + |b|..|a| + |b| + |c|] == c
      && f[|a| + |b| + |c|..|a| + |b| + |c| + |d|] == d && f[|a| + |b| + |c| + |d|..] == e
  {
    var f := a + (b + (c + (d + e)));
    assert f[|a|..] == b + (c + (d + e));
    assert f[|a| + |b|..] == c + (d + e);
    assert f[|a| + |b| + |c|..] == d + e;
    assert f[|a| + |b| + |c| + |d|..] == e;
    assert f[|a|..|a| + |b|] == f[|a|..][..|b|];
    assert f[|a| + |b|..|a| + |b| + |c|] == f[|a| + |b|..][..|c|];
    assert f[|a| + |b| + |c|..|a| + |b| + |c| + |d|] == f[|a| + |b| + |c|..][..|d|];
  }

  lemma SectionLengths(hashes: seq<Digest>, packed: seq<nat>, unpacked: seq<nat>)
    requires |packed| == |unpacked| == |hashes|
    ensures |HashSection(hashes)| == 12 + 32 * |hashes| && |BoundarySection(packed, unpacked)| == 12 + 8 * |hashes|
  {
    Bytes32Length(hashes);
    U32sLength(packed);
    U32sLength(unpacked);
  }

  /** Where the sections of a footer are. */
  ghost predicate Sections(f: Data, hash: Digest, hashes: seq<Digest>, packed: seq<nat>, unpacked: seq<nat>,
                           nonce: Data) {
    var n := |hashes|;
    && |nonce| == 4 && |f| == 96 + 40 * n && f[..40] == MainHeader(hash) && f[40..52 + 32 * n] == HashSection(hashes)
    && f[52 + 32 * n..64 + 40 * n] == BoundarySection(packed, unpacked)
    && f[64 + 40 * n..92 + 40 * n] == Trailer(n, nonce) && f[92 + 40 * n..] == U32(92 + 40 * n)
  }

  lemma FooterSections(hash: Digest, hashes: seq<Digest>, packed: seq<nat>, unpacked: seq<nat>, nonce: Data)
    requires |nonce| == 4 && |packed| == |unpacked| == |hashes|
    ensures Sections(Footer(hash, hashes, packed, unpacked, nonce), hash, hashes, packed, unpacked, nonce)
  {
    SectionLengths(hashes, packed, unpacked);
    FiveParts(MainHeader(hash), HashSection(hashes), BoundarySection(packed, unpacked), Trailer(|hashes|, nonce),
      U32(92 + 40 * |hashes|));
  }

  // ---------------------------------------------------------------- reading offsets from the end

  /** Each chunk takes at least its header. */
  predicate Spaced(offs: seq<nat>) { forall i {:trigger Gap(offs, i)} :: 0 <= i < |offs| ==> Gap(offs, i) }

  predicate Gap(offs: seq<nat>, i: nat)
    requires i < |offs|
  {
    offs[i] >= (if i == 0 then 0 else offs[i - 1]) + 8
  }

  /** The bytes from footerStart on are a footer of n chunks, up to the offsets themselves. */
  predicate FooterShape(f: Data, n: nat)
    requires |f| == 96 + 40 * n
  {
    && f[..7] == IDENT && f[7] == 1
    && f[40..47] == HASH_IDENT && f[47] == 0 && GetU32(f[48..52]) == n
    && f[52 + 32 * n..59 + 32 * n] == BOUNDARY_IDENT && f[59 + 32 * n] == 1 && GetU32(f[60 + 32 * n..64 + 32 * n]) == n
  }

  /** The chunk count of a stream that ends in a footer-shaped block, by its last four bytes. */
  function FooterCount(data: Data): (r: Option<nat>)
    ensures r.Some? ==> r.value <= MAX_CHUNKS && 96 + 40 * r.value <= |data|
  {
    if |data| < MIN_FOOTER_SIZE then None else
    var footerLen := GetU32(data[|data| - 4..]);
    if footerLen < MIN_FOOTER_SIZE - 4 || footerLen + 4 > |data| || (footerLen - 92) % 40 != 0 then None else
    var n := (footerLen - 92) / 40;
    if n > MAX_CHUNKS then None
    else if FooterShape(data[|data| - (96 + 40 * n)..], n) then Some(n) else None
  }

  /** The packed offsets listed in a footer of n chunks. */
  function Listed(f: Data, n: nat): (r: seq<nat>)
    requires |f| == 96 + 40 * n
    ensures |r| == n && forall i :: 0 <= i < n ==> r[i] == GetU32(f[64 + 32 * n + 4 * i..])
  {
    seq(n, i requires 0 <= i < n => GetU32(f[64 + 32 * n + 4 * i..]))
  }

  /** The packed end of every chunk, if the stream ends in a footer whose offsets fit it. */
  function Offsets(data: Data): Option<seq<nat>> {
    match FooterCount(data)
    case None => None
    case Some(n) =>
      var start := |data| - (96 + 40 * n);
      var offs := Listed(data[start..], n);
      if Spaced(offs) && (n > 0 ==> offs[n - 1] == start) then Some(offs) else None
  }

  method ReadChunkOffsets(data: Data) returns (r: Option<seq<nat>>)
    ensures r == Offsets(data)
  {
    var count := FooterCount(data);
    if count.None? { return None; }
    var footerStart := |data| - (96 + 40 * count.value);
    r := ReadListed(data[footerStart..], count.value);
    if r.Some? && count.value > 0 && r.value[count.value - 1] != footerStart { return None; }
  }

  method ReadListed(buf: Data, n: nat) returns (r: Option<seq<nat>>)
    requires |buf| == 96 + 40 * n
    ensures r == if Spaced(Listed(buf, n)) then Some(Listed(buf, n)) else None
  {
    var offsets: seq<nat> := [];
    var prev := 0;
    ghost var all := Listed(buf, n);
    for i := 0 to n
      invariant offsets == all[..i] && prev == (if i == 0 then 0 else all[i - 1])
      invariant forall j {:trigger Gap(all, j)} :: 0 <= j < i ==> Gap(all, j)
    {
      var off := GetU32(buf[64 + 32 * n + 4 * i..]);
      assert off == all[i];
      if off < prev + 8 {
        assert !Gap(all, i);
        return None;
      }
      assert Gap(all, i);
      offsets, prev := offsets + [off], off;
    }
    assert all[..n] == all;
    return Some(offsets);
  }

  /** A full-format stream: frames, then their footer, with offsets that fit it. */
  ghost predicate IsFull(data: Data, frames: Data, hash: Digest, hashes: seq<Digest>, packed: seq<nat>,
                         unpacked: seq<nat>, nonce: Data) {
    && |nonce| == 4 && |packed| == |unpacked| == |hashes| <= MAX_CHUNKS && Spaced(packed)
    && (forall i :: 0 <= i < |packed| ==> packed[i] < TWO32) && (packed != [] ==> packed[|packed| - 1] == |frames|)
    && data == frames + Footer(hash, hashes, packed, unpacked, nonce)
  }

  lemma SectionsShape(f: Data, hash: Digest, hashes: seq<Digest>, packed: seq<nat>, unpacked: seq<nat>, nonce: Data)
    requires Sections(f, hash, hashes, packed, unpacked, nonce) && |packed| == |unpacked| == |hashes| <= MAX_CHUNKS
    ensures FooterShape(f, |hashes|)
  {
    var n := |hashes|;
    SectionLengths(hashes, packed, unpacked);
    U32RoundTrip(n);
    HeadAt(f, 0, 40, MainHeader(hash));
    HeadAt(f, 40, 12 + 32 * n, HashSection(hashes));
    HeadAt(f, 52 + 32 * n, 12 + 8 * n, BoundarySection(packed, unpacked));
    HeadParts(MainHeader(hash), HashSection(hashes), BoundarySection(packed, unpacked), hash, hashes, packed, unpacked);
  }

  /** The first bytes of a section, in the whole footer. */
  lemma HeadAt(f: Data, from: nat, len: nat, section: Data)
    requires from + len <= |f| && f[from..from + len] == section && len >= 12
    ensures f[from..from + 7] == section[0..7] && f[from + 7..from + 8] == section[7..8] &&
      f[from + 8..from + 12] == section[8..12]
  {
    Sub(f, from, len, 0, 7);
    Sub(f, from, len, 7, 1);
    Sub(f, from, len, 8, 4);
  }

  lemma HeadParts(a: Data, b: Data, c: Data, hash: Digest, hashes: seq<Digest>, packed: seq<nat>, unpacked: seq<nat>)
    requires a == MainHeader(hash) && b == HashSection(hashes) && c == BoundarySection(packed, unpacked) &&
      |packed| == |hashes| == |unpacked|
    ensures |a| == 40 && |b| >= 12 && |c| >= 12
    ensures a[0..7] == IDENT && a[7..8] == [1] && b[0..7] == HASH_IDENT && b[7..8] == [0] && b[8..12] == U32(|hashes|)
    ensures c[0..7] == BOUNDARY_IDENT && c[7..8] == [1] && c[8..12] == U32(|packed|)
  {}

  /** Reading the offsets of a full-format stream returns exactly those its footer was made with. */
  lemma FullOffsets(data: Data, frames: Data, hash: Digest, hashes: seq<Digest>, packed: seq<nat>, unpacked: seq<nat>,
                    nonce: Data)
    requires IsFull(data, frames, hash, hashes, packed, unpacked, nonce)
    ensures Offsets(data) == Some(packed)
  {
    FooterSections(hash, hashes, packed, unpacked, nonce);
    SectionsOffsets(data, frames, Footer(hash, hashes, packed, unpacked, nonce), hash, hashes, packed, unpacked, nonce);
  }

  lemma SectionsOffsets(data: Data, frames: Data, f: Data, hash: Digest, hashes: seq<Digest>, packed: seq<nat>,
                        unpacked: seq<nat>, nonce: Data)
    requires Sections(f, hash, hashes, packed, unpacked, nonce) && data == frames + f &&
      |packed| == |unpacked| == |hashes| <= MAX_CHUNKS
    requires Spaced(packed) && (forall i :: 0 <= i < |packed| ==> packed[i] < TWO32) &&
      (packed != [] ==> packed[|packed| - 1] == |frames|)
    ensures Offsets(data) == Some(packed)
  {
    var n := |hashes|;
    SectionsShape(f, hash, hashes, packed, unpacked, nonce);
    FullCount(data, frames, f, n);
    assert data[|data| - |f|..] == f;
    forall i | 0 <= i < n
      ensures Listed(f, n)[i] == packed[i] { ListedAt(f, hash, hashes, packed, unpacked, nonce, i); }
    assert Listed(f, n) == packed;
  }

  lemma FullCount(data: Data, frames: Data, f: Data, n: nat)
    requires data == frames + f && n <= MAX_CHUNKS && |f| == 96 + 40 * n && f[92 + 40 * n..] == U32(92 + 40 * n) &&
      FooterShape(f, n)
    ensures FooterCount(data) == Some(n)
  {
    U32RoundTrip(92 + 40 * n);
    assert data[|data| - 4..] == U32(92 + 40 * n);
    assert data[|data| - (96 + 40 * n)..] == f;
    CountFromLength(data, GetU32(data[|data| - 4..]), n);
  }

  lemma CountFromLength(data: Data, footerLen: nat, n: nat)
    requires |data| >= 96 + 40 * n && n <= MAX_CHUNKS && footerLen == 92 + 40 * n
    requires GetU32(data[|data| - 4..]) == footerLen && FooterShape(data[|data| - (96 + 40 * n)..], n)
    ensures FooterCount(data) == Some(n)
  {
    CountOf(n);
    assert (footerLen - 92) % 40 == 0 && (footerLen - 92) / 40 == n;
  }

  lemma CountOf(n: nat)
    ensures (92 + 40 * n - 92) % 40 == 0 && (92 + 40 * n - 92) / 40 == n
  {}

  lemma ListedAt(f: Data, hash: Digest, hashes: seq<Digest>, packed: seq<nat>, unpacked: seq<nat>, nonce: Data, i: nat)
    requires Sections(f, hash, hashes, packed, unpacked, nonce) && |packed| == |unpacked| == |hashes| && i < |packed| &&
      packed[i] < TWO32
    ensures GetU32(f[64 + 32 * |hashes| + 4 * i..]) == packed[i]
  {
    var n := |hashes|;
    SectionLengths(hashes, packed, unpacked);
    BoundaryAt(packed, unpacked, i);
    PartOfPart(f, 52 + 32 * n, 12 + 8 * n, 12 + 4 * i);
    SameU32(f[64 + 32 * n + 4 * i..], BoundarySection(packed, unpacked)[12 + 4 * i..]);
  }

  lemma BoundaryAt(packed: seq<nat>, unpacked: seq<nat>, i: nat)
    requires i < |packed| && packed[i] < TWO32
    ensures |BoundarySection(packed, unpacked)| >= 16 + 4 * i
    ensures GetU32(BoundarySection(packed, unpacked)[12 + 4 * i..]) == packed[i]
  {
    U32sAt(packed, i);
    AfterHeader(BOUNDARY_IDENT + [1] + U32(|packed|), U32s(packed), U32s(unpacked), 4 * i);
    SameU32(BoundarySection(packed, unpacked)[12 + 4 * i..], U32s(packed)[4 * i..]);
  }

  lemma AfterHeader(head: Data, a: Data, b: Data, k: nat)
    requires k + 4 <= |a|
    ensures (head + a + b)[|head| + k..][..4] == a[k..][..4]
  {
  }

  lemma PartOfPart(s: Data, from: nat, len: nat, k: nat)
    requires from + len <= |s| && k + 4 <= len
    ensures s[from + k..][..4] == s[from..from + len][k..][..4]
  {
  }

  /** Only the first four bytes matter. */
  lemma SameU32(a: Data, b: Data)
    requires |a| >= 4 && |b| >= 4 && a[..4] == b[..4]
    ensures GetU32(a) == GetU32(b)
  {
    assert a[0] == a[..4][0] && a[1] == a[..4][1] && a[2] == a[..4][2] && a[3] == a[..4][3];
    assert b[0] == b[..4][0] && b[1] == b[..4][1] && b[2] == b[..4][2] && b[3] == b[..4][3];
  }

  // ---------------------------------------------------------------- checking a footer in a stream

  /** The first 44 bytes after the identifier and version: the hash and the header of the hash section. */
  predicate FixedOk(b: Data, hash: Digest)
    requires |b| == 44
  {
    b[..32] == hash && b[32..39] == HASH_IDENT && b[39] == 0 && GetU32(b[40..44]) <= MAX_CHUNKS
  }

  /** Everything after them: hashes, boundary section, trailer and length. Offsets are not compared. */
  predicate RemainingOk(r: Data, n: nat, hashes: seq<Digest>)
    requires |r| == 44 + 40 * n
  {
    && n == |hashes| && HashesAt(r, hashes, n) && TailOk(r, n)
  }

  predicate HashesAt(r: Data, hashes: seq<Digest>, n: nat)
    requires 32 * n <= |r| && n <= |hashes|
  {
    forall i {:trigger hashes[i]} :: 0 <= i < n ==> r[32 * i..32 * i + 32] == hashes[i]
  }

  predicate TailOk(r: Data, n: nat)
    requires |r| == 44 + 40 * n
  {
    && GetU32(r[40 * n + 40..]) == 92 + 40 * n
    && r[32 * n..32 * n + 7] == BOUNDARY_IDENT && r[32 * n + 7] == 1 && GetU32(r[32 * n + 8..32 * n + 12]) == n
    && GetU32(r[40 * n + 12..40 * n + 16]) == n && r[40 * n + 28..40 * n + 40] == RESERVED
  }

  /** The checks made when a stream reaches a footer: rest is what follows the identifier and version byte. */
  predicate FooterOk(version: U8, rest: Data, hash: Digest, hashes: seq<Digest>) {
    version == 1 && |rest| >= 44 && FixedOk(rest[..44], hash) &&
    var n := GetU32(rest[40..44]);
    |rest| >= 88 + 40 * n && RemainingOk(rest[44..88 + 40 * n], n, hashes)
  }

  method ValidateWithFooter(version: U8, rest: Data, hash: Digest, hashes: seq<Digest>) returns (ok: bool)
    ensures ok == FooterOk(version, rest, hash, hashes)
  {
    if version != 1 || |rest| < 44 || !FixedOk(rest[..44], hash) { return false; }
    assert rest[..44][40..44] == rest[40..44];
    var n := GetU32(rest[40..44]);
    if |rest| < 88 + 40 * n { return false; }
    ok := CheckRemaining(rest[44..88 + 40 * n], n, hashes);
  }

  method CheckRemaining(r: Data, n: nat, hashes: seq<Digest>) returns (ok: bool)
    requires |r| == 44 + 40 * n
    ensures ok == RemainingOk(r, n, hashes)
  {
    if n != |hashes| { return false; }
    for i := 0 to n
      invariant HashesAt(r, hashes, i)
    {
      if hashes[i] != r[32 * i..32 * i + 32] { return false; }
    }
    ok := TailOk(r, n);
  }

  /** The footer written for a list of hashes passes. */
  lemma FooterAccepted(hash: Digest, hashes: seq<Digest>, packed: seq<nat>, unpacked: seq<nat>, nonce: Data)
    requires |nonce| == 4 && |packed| == |unpacked| == |hashes| <= MAX_CHUNKS
    ensures var f := Footer(hash, hashes, packed, unpacked, nonce);
      |f| >= 8 && f[..7] == IDENT && FooterOk(f[7], f[8..], hash, hashes)
  {
    FooterSections(hash, hashes, packed, unpacked, nonce);
    SectionsAccepted(Footer(hash, hashes, packed, unpacked, nonce), hash, hashes, packed, unpacked, nonce);
  }

  lemma SectionsAccepted(f: Data, hash: Digest, hashes: seq<Digest>, packed: seq<nat>, unpacked: seq<nat>, nonce: Data)
    requires Sections(f, hash, hashes, packed, unpacked, nonce) && |packed| == |unpacked| == |hashes| <= MAX_CHUNKS
    ensures f[..7] == IDENT && FooterOk(f[7], f[8..], hash, hashes)
  {
    SectionsShape(f, hash, hashes, packed, unpacked, nonce);
    FixedAccepted(f, hash, hashes, packed, unpacked, nonce);
    AfterIdent(f, |hashes|);
    RemainingAccepted(f, hash, hashes, packed, unpacked, nonce);
  }

  lemma AfterIdent(f: Data, n: nat)
    requires |f| == 96 + 40 * n
    ensures f[8..][40..44] == f[48..52] && f[8..][44..88 + 40 * n] == f[52..96 + 40 * n]
  {}

  lemma FixedAccepted(f: Data, hash: Digest, hashes: seq<Digest>, packed: seq<nat>, unpacked: seq<nat>, nonce: Data)
    requires Sections(f, hash, hashes, packed, unpacked, nonce) && FooterShape(f, |hashes|) && |hashes| <= MAX_CHUNKS
    ensures FixedOk(f[8..][..44], hash)
  {
    var b := f[8..][..44];
    Sub(f, 0, 40, 8, 32);
    assert MainHeader(hash)[8..40] == hash;
    assert b[..32] == f[8..40] && b[32..39] == f[40..47] && b[39] == f[47] && b[40..44] == f[48..52];
  }

  lemma RemainingAccepted(f: Data, hash: Digest, hashes: seq<Digest>, packed: seq<nat>, unpacked: seq<nat>, nonce: Data)
    requires Sections(f, hash, hashes, packed, unpacked, nonce) && FooterShape(f, |hashes|) &&
      |packed| == |unpacked| == |hashes| <= MAX_CHUNKS
    ensures RemainingOk(f[52..96 + 40 * |hashes|], |hashes|, hashes)
  {
    var n := |hashes|;
    var r := f[52..96 + 40 * n];
    forall i | 0 <= i < n ensures r[32 * i..32 * i + 32] == hashes[i] {
      Sub(f, 52, 44 + 40 * n, 32 * i, 32);
      HashInFooter(f, hash, hashes, packed, unpacked, nonce, i);
    }
    TailAccepted(f, r, hash, hashes, packed, unpacked, nonce);
  }

  lemma HashInFooter(f: Data, hash: Digest, hashes: seq<Digest>, packed: seq<nat>, unpacked: seq<nat>, nonce: Data,
                     i: nat)
    requires Sections(f, hash, hashes, packed, unpacked, nonce) && i < |hashes|
    ensures f[52 + 32 * i..52 + 32 * i + 32] == hashes[i]
  {
    var n := |hashes|;
    var b := HashSection(hashes);
    Bytes32At(hashes, i);
    Sub(f, 40, 12 + 32 * n, 12 + 32 * i, 32);
    assert b[12..12 + 32 * n] == Bytes32(hashes);
    Sub(b, 12, 32 * n, 32 * i, 32);
  }

  lemma TailAccepted(f: Data, r: Data, hash: Digest, hashes: seq<Digest>, packed: seq<nat>, unpacked: seq<nat>,
                     nonce: Data)
    requires Sections(f, hash, hashes, packed, unpacked, nonce) && FooterShape(f, |hashes|) && |hashes| <= MAX_CHUNKS
    requires r == f[52..96 + 40 * |hashes|]
    ensures TailOk(r, |hashes|)
  {
    var n := |hashes|;
    TailBoundary(f, r, n);
    TrailerParts(f[64 + 40 * n..92 + 40 * n], n, nonce);
    TailTrailer(f, r, n);
    TailFrom(r, n, f[60 + 32 * n..64 + 32 * n]);
  }

  lemma TailFrom(r: Data, n: nat, count: Data)
    requires |r| == 44 + 40 * n && n <= MAX_CHUNKS && |count| == 4 && GetU32(count) == n
    requires r[40 * n + 40..] == U32(92 + 40 * n) && r[40 * n + 12..40 * n + 16] == U32(n)
    requires r[32 * n..32 * n + 7] == BOUNDARY_IDENT && r[32 * n + 7] == 1 && r[32 * n + 8..32 * n + 12] == count
    requires r[40 * n + 28..40 * n + 40] == RESERVED
    ensures TailOk(r, n)
  {
    U32RoundTrip(n);
    U32RoundTrip(92 + 40 * n);
  }

  lemma TailBoundary(f: Data, r: Data, n: nat)
    requires |f| == 96 + 40 * n && r == f[52..96 + 40 * n]
    ensures r[32 * n..32 * n + 7] == f[52 + 32 * n..59 + 32 * n] && r[32 * n + 7] == f[59 + 32 * n]
    ensures r[32 * n + 8..32 * n + 12] == f[60 + 32 * n..64 + 32 * n]
  {
    Sub(f, 52, 44 + 40 * n, 32 * n, 7);
    Sub(f, 52, 44 + 40 * n, 32 * n + 8, 4);
  }

  lemma TrailerParts(t: Data, n: nat, nonce: Data)
    requires |nonce| == 4 && t == Trailer(n, nonce)
    ensures t[0..4] == U32(n) && t[16..28] == RESERVED
  {}

  lemma TailTrailer(f: Data, r: Data, n: nat)
    requires |f| == 96 + 40 * n && r == f[52..96 + 40 * n]
    ensures var t := f[64 + 40 * n..92 + 40 * n];
      r[40 * n + 12..40 * n + 16] == t[0..4] && r[40 * n + 28..40 * n + 40] == t[16..28]
    ensures r[40 * n + 40..] == f[92 + 40 * n..]
  {
    Sub(f, 52, 44 + 40 * n, 40 * n + 12, 4);
    Sub(f, 52, 44 + 40 * n, 40 * n + 28, 12);
    Sub(f, 64 + 40 * n, 28, 0, 4);
    Sub(f, 64 + 40 * n, 28, 16, 12);
  }
}
