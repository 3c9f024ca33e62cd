/** Signed 64-bit integers written in base 2, 8, 10 or 16: parsing as Go's
    `strconv.ParseInt(s, base, 64)` does it, and rendering as the `fmt`
    verbs %d, %b, %o and %x do it. */
module Numerals {
  import opened Wrappers
  import Text

  const MinInt64: int := -0x8000_0000_0000_0000
  const MaxInt64: int := 0x7fff_ffff_ffff_ffff
  const MaxUint64: int := 0xffff_ffff_ffff_ffff

  /** Go's `int64`. */
  type Int64 = x: int | MinInt64 <= x <= MaxInt64

  /** The radices nconv uses. */
  predicate IsBase(base: nat)
  {
    base == 2 || base == 8 || base == 10 || base == 16
  }

  /** The digit decoding of `strconv.ParseUint`: '0'..'9' are 0..9 and a
      letter of either case is 10 for 'a' onwards. Anything else, the sign
      characters and '_' included, is no digit. */
  function DigitValue(c: char): (r: Option<nat>)
    ensures r.Some? ==> r.value < 36
  {
    if '0' <= c <= '9' then Some(c as int - '0' as int)
    else if 'a' <= c <= 'z' then Some(c as int - 'a' as int + 10)
    else if 'A' <= c <= 'Z' then Some(c as int - 'A' as int + 10)
    else None
  }

  predicate IsDigit(c: char, base: nat)
  {
    DigitValue(c).Some? && DigitValue(c).value < base
  }

  predicate AllDigits(ds: string, base: nat)
  {
    forall i :: 0 <= i < |ds| ==> IsDigit(ds[i], base)
  }

  /** The value of a digit string, most significant digit first. */
  function DigitsValue(ds: string, base: nat): nat
    requires AllDigits(ds, base)
  {
    if |ds| == 0 then 0
    else DigitsValue(ds[..|ds| - 1], base) * base + DigitValue(ds[|ds| - 1]).value
  }

  /** One more digit on the right multiplies by the base and adds it. */
  lemma DigitsValueSnoc(ds: string, base: nat, i: nat)
    requires i < |ds| && AllDigits(ds[..i + 1], base)
    ensures AllDigits(ds[..i], base)
    ensures DigitsValue(ds[..i + 1], base) == DigitsValue(ds[..i], base) * base + DigitValue(ds[i]).value
  {
    assert ds[..i + 1][..i] == ds[..i];
  }

  /** A prefix of a digit string is worth no more than the whole. */
  lemma {:induction false} DigitsPrefixLe(ds: string, base: nat, j: nat)
    requires IsBase(base) && AllDigits(ds, base) && j <= |ds|
    ensures DigitsValue(ds[..j], base) <= DigitsValue(ds, base)
    decreases |ds|
  {
    if j < |ds| {
      var p := ds[..|ds| - 1];
      assert p[..j] == ds[..j];
      DigitsPrefixLe(p, base, j);
      MulMono(DigitsValue(p, base), base);
    } else {
      assert ds[..j] == ds;
    }
  }

  lemma MulMono(x: nat, base: nat)
    requires IsBase(base)
    ensures x <= x * base
  {
  }

  /** Go's `cutoff`: the smallest `n` for which `n * base` overflows uint64. */
  function Cutoff(base: nat): (c: nat)
    requires IsBase(base)
    ensures forall n: nat {:trigger n * base} :: n >= c <==> n * base > MaxUint64
  {
    match base
    case 2 => MaxUint64 / 2 + 1
    case 8 => MaxUint64 / 8 + 1
    case 10 => MaxUint64 / 10 + 1
    case 16 => MaxUint64 / 16 + 1
  }

  /** The digit loop of `strconv.ParseUint` from index `i`, `n` holding the
      value of the digits before it: a non-digit or a digit too large for the
      base fails, and so does a step whose product or sum leaves uint64 (the
      wrap-around test `n1 < n` of Go's `ParseUint` is written here as the comparison
      it detects). Whatever the order in which these failures occur, the
      loop succeeds exactly when every digit is valid and the whole value
      fits in uint64. */
  function Accumulate(s: string, base: nat, i: nat, n: nat): (r: Option<nat>)
    requires IsBase(base) && i <= |s|
    requires AllDigits(s[..i], base) && n == DigitsValue(s[..i], base) && n <= MaxUint64
    ensures r.Some? <==> AllDigits(s, base) && DigitsValue(s, base) <= MaxUint64
    ensures r.Some? ==> r.value == DigitsValue(s, base)
    decreases |s| - i
  {
    if i == |s| then
      assert s[..i] == s;
      Some(n)
    else
      match DigitValue(s[i])
      case None => None
      case Some(d) =>
        if d >= base then None
        else
          assert AllDigits(s[..i + 1], base) by {
            assert forall k :: 0 <= k < i ==> s[..i + 1][k] == s[..i][k];
          }
          DigitsValueSnoc(s, base, i);
          if n >= Cutoff(base) then
            PrefixBound(s, base, i + 1);
            None
          else
            var n1 := n * base + d;
            if n1 > MaxUint64 then
              PrefixBound(s, base, i + 1);
              None
            else Accumulate(s, base, i + 1, n1)
  }

  /** A valid digit string is worth at least any of its prefixes. */
  lemma PrefixBound(s: string, base: nat, j: nat)
    requires IsBase(base) && j <= |s| && AllDigits(s[..j], base)
    ensures AllDigits(s, base) ==> DigitsValue(s[..j], base) <= DigitsValue(s, base)
  {
    if AllDigits(s, base) {
      DigitsPrefixLe(s, base, j);
    }
  }

  /** `strconv.ParseUint(s, base, 64)`: at least one digit, all valid for
      the base, and a value that fits in uint64. */
  function ParseUint(s: string, base: nat): (r: Option<nat>)
    requires IsBase(base)
    ensures r.Some? <==> |s| > 0 && AllDigits(s, base) && DigitsValue(s, base) <= MaxUint64
    ensures r.Some? ==> r.value == DigitsValue(s, base)
  {
    if |s| == 0 then None
    else
      assert s[..0] == [];
      Accumulate(s, base, 0, 0)
  }

  /** The sign handling of `strconv.ParseInt`: at most one leading '+' or
      '-' is taken off; the flag says whether it was '-'. */
  function SplitSign(s: string): (bool, string)
  {
    if |s| > 0 && s[0] == '+' then (false, s[1..])
    else if |s| > 0 && s[0] == '-' then (true, s[1..])
    else (false, s)
  }

  /** An optional sign followed by at least one digit valid in `base`. */
  predicate IsNumeral(s: string, base: nat)
  {
    var (_, ds) := SplitSign(s);
    |ds| > 0 && AllDigits(ds, base)
  }

  /** The integer a numeral denotes, with no bound on its size. */
  function NumeralValue(s: string, base: nat): int
    requires IsNumeral(s, base)
  {
    var (neg, ds) := SplitSign(s);
    var v: int := DigitsValue(ds, base);
    if neg then -v else v
  }

  /** `strconv.ParseInt(s, base, 64)` with a non-zero base: no prefix such
      as "0x" and no underscores are accepted. It succeeds exactly when `s`
      is a numeral of the base whose value lies in the int64 range, and then
      returns that value. The syntax and range errors of Go's `ParseInt` are one
      failure here. */
  function ParseInt(s: string, base: nat): (r: Option<Int64>)
    requires IsBase(base)
    ensures r.Some? <==> IsNumeral(s, base) && MinInt64 <= NumeralValue(s, base) <= MaxInt64
    ensures r.Some? ==> r.value == NumeralValue(s, base)
  {
    if |s| == 0 then None
    else
      var (neg, body) := SplitSign(s);
      match ParseUint(body, base)
      case None => None
      case Some(un) =>
        if !neg && un >= -MinInt64 then None
        else if neg && un > -MinInt64 then None
        else if neg then Some(-(un as int))
        else Some(un)
  }

  /** The digit printed for a value below 16: lowercase letters past 9. */
  function DigitChar(d: nat): (c: char)
    requires d < 16
    ensures DigitValue(c) == Some(d)
    ensures !('A' <= c <= 'Z')
  {
    if d < 10 then ('0' as int + d) as char else ('a' as int + d - 10) as char
  }

  /** A digit as the formatter prints it: valid in the base and not an
      uppercase letter. */
  predicate IsLowerDigit(c: char, base: nat)
  {
    IsDigit(c, base) && !('A' <= c <= 'Z')
  }

  /** Digits as the formatter prints a magnitude: at least one, lowercase,
      and no leading zero unless the magnitude is zero. */
  predicate IsCanonicalDigits(ds: string, base: nat)
  {
    && |ds| > 0
    && (forall i :: 0 <= i < |ds| ==> IsLowerDigit(ds[i], base))
    && (|ds| > 1 ==> ds[0] != '0')
  }

  /** The strings the formatter can print for an int64: canonical digits,
      preceded by '-' exactly for a negative value. */
  predicate IsCanonical(s: string, base: nat)
  {
    if |s| > 0 && s[0] == '-' then
      && IsCanonicalDigits(s[1..], base)
      && DigitsValue(s[1..], base) != 0
      && DigitsValue(s[1..], base) <= -MinInt64
    else
      IsCanonicalDigits(s, base) && DigitsValue(s, base) <= MaxInt64
  }

  /** The digits of a magnitude in `base`, as `fmt` prints them. */
  function FormatDigits(m: nat, base: nat): (r: string)
    requires IsBase(base)
    ensures IsCanonicalDigits(r, base)
    ensures r[0] == '0' <==> m == 0
    ensures DigitsValue(r, base) == m
    decreases m
  {
    if m < base then [DigitChar(m)]
    else
      var p := FormatDigits(m / base, base);
      var r := p + [DigitChar(m % base)];
      assert r[..|r| - 1] == p;
      r
  }

  /** `fmt.Sprintf` with %d, %b, %o or %x on an int64: a '-' for a negative
      value, then the digits of its magnitude. */
  function Render(n: Int64, base: nat): (r: string)
    requires IsBase(base)
    ensures IsCanonical(r, base)
    ensures r[0] == '-' <==> n < 0
    ensures IsNumeral(r, base) && NumeralValue(r, base) == n
  {
    if n < 0 then
      var r := "-" + FormatDigits(-(n as int), base);
      assert r[1..] == FormatDigits(-(n as int), base);
      assert SplitSign(r) == (true, r[1..]);
      r
    else
      var r := FormatDigits(n, base);
      assert SplitSign(r) == (false, r);
      r
  }

  /** Parsing a rendering gives back the value. */
  lemma ParseRender(n: Int64, base: nat)
    requires IsBase(base)
    ensures ParseInt(Render(n, base), base) == Some(n)
  {
  }

  /** A canonical digit string is the formatting of its own value. */
  lemma {:induction false} FormatCanonicalDigits(ds: string, base: nat)
    requires IsBase(base) && IsCanonicalDigits(ds, base)
    ensures FormatDigits(DigitsValue(ds, base), base) == ds
    decreases |ds|
  {
    if |ds| == 1 {
      FormatSingle(ds, base);
    } else {
      var p := ds[..|ds| - 1];
      assert IsCanonicalDigits(p, base);
      FormatCanonicalDigits(p, base);
      FormatStep(p, ds[|ds| - 1], base);
      assert ds == p + [ds[|ds| - 1]];
    }
  }

  lemma FormatSingle(ds: string, base: nat)
    requires IsBase(base) && |ds| == 1 && IsLowerDigit(ds[0], base)
    ensures AllDigits(ds, base)
    ensures FormatDigits(DigitsValue(ds, base), base) == ds
  {
    var c := ds[0];
    var d := DigitValue(c).value;
    assert ds[..0] == [];
    assert DigitsValue(ds, base) == d;
    assert d < base;
    DigitCharOf(c, base);
    assert FormatDigits(d, base) == [DigitChar(d)] == [c];
    assert ds == [c];
  }

  /** Formatting the value of a canonical prefix followed by one more digit. */
  lemma FormatStep(p: string, last: char, base: nat)
    requires IsBase(base) && IsCanonicalDigits(p, base) && p[0] != '0' && IsLowerDigit(last, base)
    requires FormatDigits(DigitsValue(p, base), base) == p
    ensures AllDigits(p + [last], base)
    ensures FormatDigits(DigitsValue(p + [last], base), base) == p + [last]
  {
    var ds := p + [last];
    assert ds[..|ds| - 1] == p;
    var x := DigitsValue(p, base);
    var d := DigitValue(last).value;
    var v := DigitsValue(ds, base);
    assert v == x * base + d;
    LeadingDigitBound(p, base);
    MulMono(x, base);
    assert v >= base;
    DivModDigit(x, d, base);
    DigitCharOf(last, base);
    assert v / base == x && v % base == d;
    assert DigitChar(d) == last;
    assert FormatDigits(v, base) == FormatDigits(x, base) + [DigitChar(d)];
  }

  /** A lowercase digit is the printed form of its own value. */
  lemma DigitCharOf(c: char, base: nat)
    requires IsBase(base) && IsLowerDigit(c, base)
    ensures DigitChar(DigitValue(c).value) == c
  {
  }

  /** A digit string is worth at least its leading digit. */
  lemma {:induction false} LeadingDigitBound(ds: string, base: nat)
    requires IsBase(base) && |ds| > 0 && AllDigits(ds, base)
    ensures DigitsValue(ds, base) >= DigitValue(ds[0]).value
    decreases |ds|
  {
    if |ds| > 1 {
      var p := ds[..|ds| - 1];
      assert p[0] == ds[0];
      LeadingDigitBound(p, base);
      MulMono(DigitsValue(p, base), base);
    }
  }

  lemma DivModDigit(x: nat, d: nat, base: nat)
    requires IsBase(base) && d < base
    ensures (x * base + d) / base == x && (x * base + d) % base == d
  {
  }

  /** Every canonical string is the rendering of the value it parses to,
      so rendering is a bijection from int64 onto canonical strings. */
  lemma RenderParse(s: string, base: nat)
    requires IsBase(base) && IsCanonical(s, base)
    ensures ParseInt(s, base).Some?
    ensures Render(ParseInt(s, base).value, base) == s
  {
    if |s| > 0 && s[0] == '-' {
      RenderParseNegative(s, base);
    } else {
      RenderParseNonNegative(s, base);
    }
  }

  lemma RenderParseNegative(s: string, base: nat)
    requires IsBase(base) && IsCanonical(s, base) && |s| > 0 && s[0] == '-'
    ensures ParseInt(s, base).Some?
    ensures Render(ParseInt(s, base).value, base) == s
  {
    var v := NegativeParses(s, base);
    FormatCanonicalDigits(s[1..], base);
    assert s == "-" + s[1..];
  }

  /** A canonical negative numeral parses to minus the value of its digits. */
  lemma NegativeParses(s: string, base: nat) returns (v: nat)
    requires IsBase(base) && IsCanonical(s, base) && |s| > 0 && s[0] == '-'
    ensures v == DigitsValue(s[1..], base) && v > 0
    ensures ParseInt(s, base) == Some(-(v as int))
  {
    var ds := s[1..];
    v := DigitsValue(ds, base);
    assert SplitSign(s) == (true, ds);
    assert NumeralValue(s, base) == -(v as int);
  }

  lemma RenderParseNonNegative(s: string, base: nat)
    requires IsBase(base) && IsCanonical(s, base) && !(|s| > 0 && s[0] == '-')
    ensures ParseInt(s, base).Some?
    ensures Render(ParseInt(s, base).value, base) == s
  {
    assert s[0] != '+';
    assert SplitSign(s) == (false, s);
    var n: Int64 := DigitsValue(s, base);
    assert ParseInt(s, base) == Some(n);
    FormatCanonicalDigits(s, base);
  }

  /** Upper-case digits parse as the lowercase ones do. */
  lemma ParseIntUpper(s: string, base: nat)
    requires IsBase(base)
    ensures ParseInt(Text.Upper(s), base) == ParseInt(s, base)
  {
    var u := Text.Upper(s);
    var (neg, ds) := SplitSign(s);
    assert SplitSign(u) == (neg, Text.Upper(ds)) by {
      if |s| > 0 {
        assert Text.Upper(s[1..]) == u[1..];
      }
    }
    if |ds| > 0 && AllDigits(ds, base) {
      DigitsValueUpper(ds, base);
    } else if |ds| > 0 {
      var i :| 0 <= i < |ds| && !IsDigit(ds[i], base);
      assert !IsDigit(Text.Upper(ds)[i], base);
    }
  }

  lemma {:induction false} DigitsValueUpper(ds: string, base: nat)
    requires AllDigits(ds, base)
    ensures AllDigits(Text.Upper(ds), base)
    ensures DigitsValue(Text.Upper(ds), base) == DigitsValue(ds, base)
    decreases |ds|
  {
    if |ds| > 0 {
      var p := ds[..|ds| - 1];
      assert Text.Upper(ds)[..|ds| - 1] == Text.Upper(p);
      DigitsValueUpper(p, base);
    }
  }

  /** A leading '+' changes nothing. */
  lemma ParseIntPlus(s: string, base: nat)
    requires IsBase(base)
    requires |s| == 0 || (s[0] != '+' && s[0] != '-')
    ensures ParseInt("+" + s, base) == ParseInt(s, base)
  {
  }
}
