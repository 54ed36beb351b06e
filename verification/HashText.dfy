/** The text form of hashes and sizes that Merkle node inputs are built from. */
module HashText {
  import opened Common

  type U8 = Byte

  const ZEROS: seq<U8> := [
    0, 0, 0, 0, 0, 0, 0, 0, 0, 0, 0, 0, 0, 0, 0, 0, 0, 0, 0, 0, 0, 0, 0, 0, 0, 0, 0, 0, 0, 0, 0, 0]

  /** A 32-byte hash. */
  type Digest = h: seq<U8> | |h| == 32 witness ZEROS

  const ZERO_DIGEST: Digest := ZEROS

  // ---------------------------------------------------------------- digits

  predicate IsHex(c: char) { '0' <= c <= '9' || 'a' <= c <= 'f' || 'A' <= c <= 'F' }

  function HexValue(c: char): (v: nat)
    requires IsHex(c)
    ensures v < 16
  {
    if '0' <= c <= '9' then c as int - '0' as int
    else if 'a' <= c <= 'f' then c as int - 'a' as int + 10
    else c as int - 'A' as int + 10
  }

  function HexDigit(v: nat): (c: char)
    requires v < 16
    ensures IsHex(c) && HexValue(c) == v
  {
    if v < 10 then ('0' as int + v) as char else ('a' as int + v - 10) as char
  }

  /** v as exactly n hexadecimal digits, most significant first. */
  function Hex(v: nat, n: nat): (r: string)
    ensures |r| == n && forall i :: 0 <= i < n ==> IsHex(r[i])
  {
    if n == 0 then "" else Hex(v / 16, n - 1) + [HexDigit(v % 16)]
  }

  function HexToNat(s: string): nat
    requires forall i :: 0 <= i < |s| ==> IsHex(s[i])
  {
    if s == "" then 0 else 16 * HexToNat(s[..|s| - 1]) + HexValue(s[|s| - 1])
  }

  function Pow(b: nat, n: nat): nat { if n == 0 then 1 else b * Pow(b, n - 1) }

  lemma {:induction false} HexRoundTrip(v: nat, n: nat)
    requires v < Pow(16, n)
    ensures HexToNat(Hex(v, n)) == v
  {
    if n > 0 {
      HexRoundTrip(v / 16, n - 1);
      var r := Hex(v, n);
      assert r[..|r| - 1] == Hex(v / 16, n - 1);
    }
  }

  /** v in decimal, without leading zeros. */
  function Decimal(v: nat): (r: string)
    ensures r != "" && forall i :: 0 <= i < |r| ==> '0' <= r[i] <= '9'
  {
    var d := ('0' as int + v % 10) as char;
    if v < 10 then [d] else Decimal(v / 10) + [d]
  }

  function DecimalToNat(s: string): nat
    requires forall i :: 0 <= i < |s| ==> '0' <= s[i] <= '9'
  {
    if s == "" then 0 else 10 * DecimalToNat(s[..|s| - 1]) + (s[|s| - 1] as int - '0' as int)
  }

  lemma {:induction false} DecimalRoundTrip(v: nat)
    ensures DecimalToNat(Decimal(v)) == v
  {
    var r := Decimal(v);
    if v < 10 {
      assert r[..0] == "";
    } else {
      DecimalRoundTrip(v / 10);
      assert r[..|r| - 1] == Decimal(v / 10);
    }
  }

  lemma {:induction false} DecimalLength(v: nat, n: nat)
    requires v < Pow(10, n) && n > 0
    ensures |Decimal(v)| <= n
  {
    if v >= 10 {
      assert n > 1;
      DecimalLength(v / 10, n - 1);
    }
  }

  // ---------------------------------------------------------------- hashes as text

  /** Little-endian value of some bytes. */
  function LittleEndian(b: seq<U8>): (v: nat)
    ensures v < Pow(256, |b|)
  {
    if b == [] then 0 else b[0] + 256 * LittleEndian(b[1..])
  }

  /** v as n little-endian bytes. */
  function ToLittleEndian(v: nat, n: nat): (b: seq<U8>)
    ensures |b| == n
  {
    if n == 0 then [] else [v % 256] + ToLittleEndian(v / 256, n - 1)
  }

  lemma {:induction false} LittleEndianRoundTrip(b: seq<U8>)
    ensures ToLittleEndian(LittleEndian(b), |b|) == b
  {
    if b != [] {
      LittleEndianRoundTrip(b[1..]);
      assert LittleEndian(b) % 256 == b[0] && LittleEndian(b) / 256 == LittleEndian(b[1..]);
    }
  }

  lemma Pow256IsPow16()
    ensures Pow(256, 8) == Pow(16, 16)
  {
    assert Pow(16, 2) == 16 * Pow(16, 1) && Pow(16, 1) == 16 * Pow(16, 0);
    PowSum(16, 2, 2); PowSum(16, 4, 4); PowSum(16, 8, 8);
    PowSum(256, 1, 1); PowSum(256, 2, 2); PowSum(256, 4, 4);
    assert Pow(256, 1) == 256 * Pow(256, 0);
  }

  lemma {:induction false} PowSum(b: nat, m: nat, n: nat)
    ensures Pow(b, m + n) == Pow(b, m) * Pow(b, n)
  {
    if m > 0 {
      PowSum(b, m - 1, n);
      assert Pow(b, m + n) == b * Pow(b, m - 1 + n);
      MulAssoc(b, Pow(b, m - 1), Pow(b, n));
    }
  }

  lemma MulAssoc(a: nat, b: nat, c: nat)
    ensures a * (b * c) == (a * b) * c
  {
  }

  /** One 8-byte segment as sixteen digits of its little-endian value. */
  function SegmentText(b: seq<U8>): (r: string)
    requires |b| == 8
    ensures |r| == 16
  {
    Hex(LittleEndian(b), 16)
  }

  function Segment(h: Digest, seg: nat): (b: seq<U8>)
    requires seg < 4
    ensures |b| == 8
  {
    h[8 * seg..8 * seg + 8]
  }

  function FormatPrefix(h: Digest, seg: nat): (r: string)
    requires seg <= 4
    ensures |r| == 16 * seg
  {
    if seg == 0 then "" else FormatPrefix(h, seg - 1) + SegmentText(Segment(h, seg - 1))
  }

  /** The XET string form: each of the four segments byte-swapped. */
  function Format(h: Digest): (r: string)
    ensures |r| == 64
  {
    FormatPrefix(h, 4)
  }

  predicate AllHex(s: string) { forall i :: 0 <= i < |s| ==> IsHex(s[i]) }

  function ParseSegment(s: string): (r: Option<seq<U8>>)
    requires |s| == 16
    ensures r.Some? ==> |r.value| == 8
  {
    if AllHex(s) then Some(ToLittleEndian(HexToNat(s), 8)) else None
  }

  function ParsePrefix(s: string, seg: nat): (r: Option<seq<U8>>)
    requires |s| == 64 && seg <= 4
    ensures r.Some? ==> |r.value| == 8 * seg
  {
    if seg == 0 then Some([])
    else
      var init, last := ParsePrefix(s, seg - 1), ParseSegment(s[16 * (seg - 1)..16 * seg]);
      if init.Some? && last.Some? then Some(init.value + last.value) else None
  }

  function Parse(s: string): Option<Digest> {
    if |s| == 64 then ParsePrefix(s, 4) else None
  }

  lemma SegmentRoundTrip(b: seq<U8>)
    requires |b| == 8
    ensures ParseSegment(SegmentText(b)) == Some(b)
  {
    Pow256IsPow16();
    HexRoundTrip(LittleEndian(b), 16);
    LittleEndianRoundTrip(b);
  }

  lemma LastPart(s: string, a: nat, b: nat, x: string, y: string)
    requires a <= b <= |s| && s[..b] == x + y && |x| == a
    ensures s[..a] == x && s[a..b] == y
  {
    assert s[..a] == s[..b][..a] && s[a..b] == s[..b][a..];
  }

  lemma {:induction false} PrefixRoundTrip(h: Digest, s: string, seg: nat)
    requires seg <= 4 && |s| == 64 && FormatPrefix(h, seg) == s[..16 * seg]
    ensures ParsePrefix(s, seg) == Some(h[..8 * seg])
  {
    if seg > 0 {
      var b := Segment(h, seg - 1);
      LastPart(s, 16 * (seg - 1), 16 * seg, FormatPrefix(h, seg - 1), SegmentText(b));
      PrefixRoundTrip(h, s, seg - 1);
      SegmentRoundTrip(b);
      OneMoreSegment(s, seg, h[..8 * (seg - 1)], b, SegmentText(b));
      assert h[..8 * seg] == h[..8 * (seg - 1)] + b;
    }
  }

  lemma OneMoreSegment(s: string, seg: nat, init: seq<U8>, b: seq<U8>, text: string)
    requires 0 < seg <= 4 && |s| == 64 && ParsePrefix(s, seg - 1) == Some(init)
    requires s[16 * (seg - 1)..16 * seg] == text && |text| == 16 && ParseSegment(text) == Some(b)
    ensures ParsePrefix(s, seg) == Some(init + b)
  {
  }

  /** Parsing undoes formatting. */
  lemma ParseFormat(h: Digest)
    ensures Parse(Format(h)) == Some(h)
  {
    var s := Format(h);
    assert s[..64] == s && h[..32] == h;
    PrefixRoundTrip(h, s, 4);
  }

  lemma FormatInjective(a: Digest, b: Digest)
    requires Format(a) == Format(b)
    ensures a == b
  {
    ParseFormat(a);
    ParseFormat(b);
  }

  // ---------------------------------------------------------------- digit by digit

  lemma HexDigitIs(v: nat)
    requires v < 16
    ensures HexDigit(v) == "0123456789abcdef"[v]
  {
  }

  /** Byte k of a little-endian number is written as the two digits k from the right. */
  lemma {:induction false} HexByte(b: seq<U8>, k: nat)
    requires k < |b|
    ensures Hex(LittleEndian(b), 2 * |b|)[2 * (|b| - 1 - k)] == HexDigit(b[k] / 16)
    ensures Hex(LittleEndian(b), 2 * |b|)[2 * (|b| - 1 - k) + 1] == HexDigit(b[k] % 16)
  {
    HexLastByte(b);
    if k > 0 { HexByte(b[1..], k - 1); }
  }

  lemma HexLastByte(b: seq<U8>)
    requires b != []
    ensures Hex(LittleEndian(b), 2 * |b|) ==
      Hex(LittleEndian(b[1..]), 2 * |b| - 2) + [HexDigit(b[0] / 16), HexDigit(b[0] % 16)]
  {
    LastTwoDigits(LittleEndian(b), b[0], LittleEndian(b[1..]), 2 * |b| - 2);
  }

  lemma LastTwoDigits(v: nat, low: U8, rest: nat, n: nat)
    requires v == low + 256 * rest
    ensures Hex(v, n + 2) == Hex(rest, n) + [HexDigit(low / 16), HexDigit(low % 16)]
  {
    var high := low / 16 + 16 * rest;
    LastDigit(v, high, low % 16, n + 1);
    LastDigit(high, rest, low / 16, n);
  }

  lemma LastDigit(v: nat, rest: nat, digit: nat, n: nat)
    requires v == digit + 16 * rest && digit < 16
    ensures Hex(v, n + 1) == Hex(rest, n) + [HexDigit(digit)]
  {
    assert v / 16 == rest && v % 16 == digit;
  }

  /** The string form, digit by digit: of each group of eight bytes the last comes first. */
  lemma FormatAt(h: Digest, s: nat, j: nat)
    requires s < 4 && j < 8
    ensures Format(h)[16 * s + 2 * j] == "0123456789abcdef"[h[8 * s + 7 - j] / 16]
    ensures Format(h)[16 * s + 2 * j + 1] == "0123456789abcdef"[h[8 * s + 7 - j] % 16]
  {
    FormatSegment(h, 4, s);
    var b := Segment(h, s);
    HexByte(b, 7 - j);
    assert b[7 - j] == h[8 * s + 7 - j];
    assert Format(h)[16 * s + 2 * j] == SegmentText(b)[2 * j] &&
      Format(h)[16 * s + 2 * j + 1] == SegmentText(b)[2 * j + 1];
    HexDigitIs(b[7 - j] / 16);
    HexDigitIs(b[7 - j] % 16);
  }

  lemma {:induction false} FormatSegment(h: Digest, n: nat, s: nat)
    requires s < n <= 4
    ensures FormatPrefix(h, n)[16 * s..16 * s + 16] == SegmentText(Segment(h, s))
  {
    if s < n - 1 {
      FormatSegment(h, n - 1, s);
      assert FormatPrefix(h, n)[16 * s..16 * s + 16] == FormatPrefix(h, n - 1)[16 * s..16 * s + 16];
    }
  }

  // ---------------------------------------------------------------- the loops

  /** v in hexadecimal, without leading zeros. */
  function ShortHex(v: nat): (r: string)
    ensures r != ""
  {
    if v < 16 then [HexDigit(v)] else ShortHex(v / 16) + [HexDigit(v % 16)]
  }

  function Zeros(n: nat): (r: string)
    ensures |r| == n && forall i :: 0 <= i < n ==> r[i] == '0'
  {
    if n == 0 then "" else "0" + Zeros(n - 1)
  }

  lemma {:induction false} HexOfZero(n: nat)
    ensures Hex(0, n) == Zeros(n)
  {
    if n > 0 {
      HexOfZero(n - 1);
      assert Zeros(n - 1) + "0" == Zeros(n);
    }
  }

  /** Writing the short form right-aligned over zeros gives the fixed-width form. */
  lemma {:induction false} HexIsPadded(v: nat, n: nat)
    requires v < Pow(16, n) && n > 0
    ensures |ShortHex(v)| <= n && Hex(v, n) == Zeros(n - |ShortHex(v)|) + ShortHex(v)
  {
    if v < 16 {
      HexOfZero(n - 1);
    } else {
      assert n > 1;
      HexIsPadded(v / 16, n - 1);
    }
  }

  /** Right-aligning s in the 16 zeros at n. */
  lemma PadAt(text: string, n: nat, s: string) returns (next: string)
    requires n + 16 <= |text| && text[n..] == Zeros(|text| - n) && |s| <= 16
    ensures next == text[..n + 16 - |s|] + s + text[n + 16..] && |next| == |text|
    ensures next[..n + 16] == text[..n] + (Zeros(16 - |s|) + s)
    ensures next[n + 16..] == Zeros(|text| - n - 16)
  {
    next := text[..n + 16 - |s|] + s + text[n + 16..];
    assert text[..n + 16 - |s|] == text[..n] + text[n..][..16 - |s|];
    assert text[n..][..16 - |s|] == Zeros(16 - |s|);
    assert text[n + 16..] == text[n..][16..] == Zeros(|text| - n - 16);
  }

  lemma PadSegment(text: string, seg: nat, val: nat) returns (next: string)
    requires seg < 4 && |text| == 64 && text[16 * seg..] == Zeros(64 - 16 * seg) && val < Pow(16, 16)
    ensures |ShortHex(val)| <= 16
    ensures next == text[..16 * seg + 16 - |ShortHex(val)|] + ShortHex(val) + text[16 * seg + 16..]
    ensures |next| == 64 && next[..16 * seg + 16] == text[..16 * seg] + Hex(val, 16)
    ensures next[16 * seg + 16..] == Zeros(64 - 16 * seg - 16)
  {
    HexIsPadded(val, 16);
    next := PadAt(text, 16 * seg, ShortHex(val));
  }

  /** Appends the string form of h, segment by segment, into a buffer of zeros. */
  method AppendHash(dst: string, h: Digest) returns (r: string)
    ensures r == dst + Format(h)
    ensures forall s, j {:trigger h[8 * s + 7 - j]} :: 0 <= s < 4 && 0 <= j < 8 ==>
      && r[|dst| + 16 * s + 2 * j] == "0123456789abcdef"[h[8 * s + 7 - j] / 16]
      && r[|dst| + 16 * s + 2 * j + 1] == "0123456789abcdef"[h[8 * s + 7 - j] % 16]
  {
    var text := Zeros(64);
    for seg := 0 to 4
      invariant |text| == 64 && text[..16 * seg] == FormatPrefix(h, seg)
      invariant text[16 * seg..] == Zeros(64 - 16 * seg)
    {
      var val := LittleEndian(Segment(h, seg));
      Pow256IsPow16();
      ghost var next := PadSegment(text, seg, val);
      var s := ShortHex(val);
      text := text[..16 * seg + 16 - |s|] + s + text[16 * seg + 16..];
    }
    assert text[..64] == text;
    r := dst + text;
    forall s, j | 0 <= s < 4 && 0 <= j < 8
      ensures r[|dst| + 16 * s + 2 * j] == "0123456789abcdef"[h[8 * s + 7 - j] / 16]
      ensures r[|dst| + 16 * s + 2 * j + 1] == "0123456789abcdef"[h[8 * s + 7 - j] % 16]
    {
      FormatAt(h, s, j);
    }
  }

  lemma {:induction false} ParsePrefixFails(s: string, seg: nat, at: nat)
    requires |s| == 64 && seg <= at <= 4 && ParsePrefix(s, seg).None?
    ensures ParsePrefix(s, at).None?
    decreases at
  {
    if seg < at { ParsePrefixFails(s, seg, at - 1); }
  }

  /** Reads a hash back; anything but four segments of sixteen hexadecimal digits is refused. */
  method ParseHash(s: string) returns (r: Option<Digest>)
    ensures r == Parse(s)
  {
    if |s| != 64 { return None; }
    var h: seq<U8> := [];
    for seg := 0 to 4
      invariant ParsePrefix(s, seg) == Some(h)
    {
      var val := ParseSegment(s[16 * seg..16 * seg + 16]);
      if val.None? {
        assert ParsePrefix(s, seg + 1).None?;
        ParsePrefixFails(s, seg + 1, 4);
        return None;
      }
      h := h + val.value;
    }
    return Some(h);
  }

  lemma {:induction false} ParsePrefixAccepts(s: string, seg: nat)
    requires |s| == 64 && seg <= 4
    ensures ParsePrefix(s, seg).Some? <==> AllHex(s[..16 * seg])
  {
    if seg > 0 {
      ParsePrefixAccepts(s, seg - 1);
      var init, last := s[..16 * (seg - 1)], s[16 * (seg - 1)..16 * seg];
      assert s[..16 * seg] == init + last;
      AllHexConcat(init, last);
    }
  }

  lemma AllHexConcat(a: string, b: string)
    ensures AllHex(a + b) <==> AllHex(a) && AllHex(b)
  {
    if AllHex(a + b) {
      forall i | 0 <= i < |a| ensures IsHex(a[i]) { assert (a + b)[i] == a[i]; }
      forall i | 0 <= i < |b| ensures IsHex(b[i]) { assert (a + b)[|a| + i] == b[i]; }
    }
  }

  /** Exactly the strings of sixty-four hexadecimal digits, in either case, are hashes. */
  lemma ParseAccepts(s: string)
    ensures Parse(s).Some? <==> |s| == 64 && AllHex(s)
  {
    if |s| == 64 {
      ParsePrefixAccepts(s, 4);
      assert s[..64] == s;
    }
  }
}
