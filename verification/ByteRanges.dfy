/** Range headers: the bytes a request asks for, by section 14.1.2 of RFC 9110. */
module ByteRanges {
  import opened Common
  import opened Planning
  import opened HashText

  const PREFIX := "bytes="

  predicate Digits(s: string) { s != "" && forall i :: 0 <= i < |s| ==> '0' <= s[i] <= '9' }

  /** A decimal number below two to the 63rd. */
  function ParseUint(s: string): Option<nat> {
    if Digits(s) && DecimalToNat(s) < TWO63 then Some(DecimalToNat(s)) else None
  }

  /** Splits at the first dash. */
  function Cut(s: string): Option<(string, string)> {
    if s == "" then None
    else if s[0] == '-' then Some(("", s[1..]))
    else match Cut(s[1..]) case None => None case Some(p) => Some(([s[0]] + p.0, p.1))
  }

  function ParseByteRange(header: string, size: nat): (rng: ByteRange)
    ensures 0 <= rng.start && rng.end < size
    ensures rng.start > rng.end ==> rng.start >= size
  {
    var whole := ByteRange(0, size - 1);
    if |header| < |PREFIX| || header[..|PREFIX|] != PREFIX then whole else
    match Cut(header[|PREFIX|..])
    case None => whole
    case Some((first, last)) =>
      if first == "" then
        match ParseUint(last)
        case None => whole
        case Some(suffix) => ByteRange(Max(size - suffix, 0), size - 1)
      else
        match ParseUint(first)
        case None => whole
        case Some(firstPos) =>
          if last == "" then ByteRange(firstPos, size - 1) else
          match ParseUint(last)
          case None => whole
          case Some(lastPos) => if lastPos < firstPos then whole else ByteRange(firstPos, Min(lastPos, size - 1))
  }

  // ---------------------------------------------------------------- the forms of a range

  datatype Spec = From(first: nat, last: Option<nat>) | Suffix(length: nat)

  predicate Numeral(s: string, n: nat) { ParseUint(s) == Some(n) }

  /** The header is the unit, then one range: first-last, first- or -length. */
  ghost predicate Spells(header: string, spec: Spec) {
    match spec
    case From(a, None) => exists f :: Numeral(f, a) && header == "bytes=" + f + "-"
    case From(a, Some(b)) => exists f, l :: Numeral(f, a) && Numeral(l, b) && a <= b && header == "bytes=" + f + "-" + l
    case Suffix(n) => exists l :: Numeral(l, n) && header == "bytes=" + "-" + l
  }

  /** Byte i of a file of the given size is requested. */
  predicate Requests(spec: Spec, size: nat, i: int) {
    match spec
    case From(a, None) => a <= i < size
    case From(a, Some(b)) => a <= i <= b && i < size
    case Suffix(n) => 0 <= i && size - n <= i < size
  }

  lemma {:induction false} CutAtDash(a: string, b: string)
    requires forall i :: 0 <= i < |a| ==> a[i] != '-'
    ensures Cut(a + "-" + b) == Some((a, b))
  {
    var s := a + "-" + b;
    if a == "" {
      assert s[1..] == b;
    } else {
      assert s[1..] == a[1..] + "-" + b;
      CutAtDash(a[1..], b);
      assert a == [a[0]] + a[1..];
    }
  }

  lemma {:induction false} CutJoins(s: string)
    ensures Cut(s).Some? ==> s == Cut(s).value.0 + "-" + Cut(s).value.1
  {
    if s != "" && s[0] != '-' {
      CutJoins(s[1..]);
      assert s == [s[0]] + s[1..];
    } else if s != "" {
      assert s == "-" + s[1..];
    }
  }

  lemma Spelling(header: string, spec: Spec) returns (p: (string, string))
    requires Spells(header, spec)
    ensures |header| >= |PREFIX| && header[..|PREFIX|] == PREFIX && Cut(header[|PREFIX|..]) == Some(p)
    ensures match spec
      case From(a, None) => Numeral(p.0, a) && p.1 == ""
      case From(a, Some(b)) => Numeral(p.0, a) && Numeral(p.1, b) && a <= b
      case Suffix(n) => p.0 == "" && Numeral(p.1, n)
  {
    var first, last;
    match spec {
      case From(a, None) =>
        first :| Numeral(first, a) && header == PREFIX + first + "-";
        last := "";
      case From(a, Some(b)) =>
        first, last :| Numeral(first, a) && Numeral(last, b) && a <= b && header == PREFIX + first + "-" + last;
      case Suffix(n) =>
        first := "";
        last :| Numeral(last, n) && header == PREFIX + "-" + last;
    }
    assert header == PREFIX + (first + "-" + last);
    assert header[..|PREFIX|] == PREFIX && header[|PREFIX|..] == first + "-" + last;
    CutAtDash(first, last);
    p := (first, last);
  }

  /** A header that spells a range is answered with exactly the bytes it requests. */
  lemma SpelledRange(header: string, spec: Spec, size: nat, i: int)
    requires Spells(header, spec)
    ensures var rng := ParseByteRange(header, size); rng.start <= i <= rng.end <==> Requests(spec, size, i)
  {
    var p := Spelling(header, spec);
  }

  /** Any other header requests the whole file. */
  lemma OtherHeader(header: string, size: nat)
    requires forall spec :: !Spells(header, spec)
    ensures ParseByteRange(header, size) == ByteRange(0, size - 1)
  {
    if |header| >= |PREFIX| && header[..|PREFIX|] == PREFIX {
      var rest := header[|PREFIX|..];
      CutJoins(rest);
      if Cut(rest).Some? {
        var (f, l) := Cut(rest).value;
        assert header == PREFIX + rest == PREFIX + f + "-" + l;
        assert f == "" ==> header == PREFIX + "-" + l;
        assert l == "" ==> header == PREFIX + f + "-";
        if ParseUint(l).Some? { assert !Spells(header, Suffix(ParseUint(l).value)); }
        if ParseUint(f).Some? { assert !Spells(header, From(ParseUint(f).value, None)); }
        if ParseUint(f).Some? && ParseUint(l).Some? {
          assert Numeral(f, ParseUint(f).value) && Numeral(l, ParseUint(l).value);
          assert !Spells(header, From(ParseUint(f).value, ParseUint(l)));
        }
      }
    }
  }

  /** A header spells at most one range. */
  lemma SpellsOnce(header: string, s: Spec, t: Spec)
    requires Spells(header, s) && Spells(header, t)
    ensures s == t
  {
    var a := Spelling(header, s);
    var b := Spelling(header, t);
  }
}
