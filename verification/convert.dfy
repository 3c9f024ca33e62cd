/** `convertNumber`: parse a string in the input format's base as an
    int64, then print that value in the output format's base. */
module Convert {
  import opened Wrappers
  import opened Formats
  import opened Numerals
  import Text

  /** `convertError`. */
  datatype ConvertError = ConvertFailed

  /** `convertNumber`. It succeeds exactly when `s` is an optional sign and
      at least one digit of the input base with a value in the int64 range;
      otherwise it fails with no output. On success the result is a
      canonical numeral of the output base (lowercase, no leading zeros, a
      '-' only for a negative value) denoting the same value as `s`. */
  function ConvertNumber(inputType: NumberFormat, outputType: NumberFormat, s: string): (r: Result<string, ConvertError>)
    ensures r.Success? <==> IsNumeral(s, Base(inputType)) && MinInt64 <= NumeralValue(s, Base(inputType)) <= MaxInt64
    ensures r.Failure? ==> r.error == ConvertFailed
    ensures r.Success? ==> IsCanonical(r.value, Base(outputType))
    ensures r.Success? ==> ParseInt(r.value, Base(outputType)) == ParseInt(s, Base(inputType))
  {
    match ParseInt(s, Base(inputType))
    case None => Failure(ConvertFailed)
    case Some(v) =>
      ParseRender(v, Base(outputType));
      Success(Render(v, Base(outputType)))
  }

  /** Converting the F-rendering of any int64 to G gives its G-rendering. */
  lemma ConvertRoundTrip(n: Int64, f: NumberFormat, g: NumberFormat)
    ensures ConvertNumber(f, g, Render(n, Base(f))) == Success(Render(n, Base(g)))
  {
  }

  /** Converting a canonical numeral to its own format changes nothing. */
  lemma ConvertSameFormat(f: NumberFormat, s: string)
    requires IsCanonical(s, Base(f))
    ensures ConvertNumber(f, f, s) == Success(s)
  {
    RenderParse(s, Base(f));
  }

  /** Converting a canonical numeral from F to G and back restores it. */
  lemma ConvertThereAndBack(f: NumberFormat, g: NumberFormat, s: string)
    requires IsCanonical(s, Base(f))
    ensures ConvertNumber(f, g, s).Success?
    ensures ConvertNumber(g, f, ConvertNumber(f, g, s).value) == Success(s)
  {
    RenderParse(s, Base(f));
    var n := ParseInt(s, Base(f)).value;
    ConvertRoundTrip(n, f, g);
    ConvertRoundTrip(n, g, f);
  }

  /** Input case does not matter: uppercase hex digits convert as lowercase ones. */
  lemma ConvertUpperCase(f: NumberFormat, g: NumberFormat, s: string)
    ensures ConvertNumber(f, g, Text.Upper(s)) == ConvertNumber(f, g, s)
  {
    ParseIntUpper(s, Base(f));
  }

  /** An explicit '+' sign is accepted and dropped. */
  lemma ConvertPlusSign(f: NumberFormat, g: NumberFormat, s: string)
    requires |s| == 0 || (s[0] != '+' && s[0] != '-')
    ensures ConvertNumber(f, g, "+" + s) == ConvertNumber(f, g, s)
  {
  }

  /** Inputs the converter refuses: the empty string, digits invalid for
      the base, base prefixes, underscores, two signs and untrimmed spaces. */
  lemma ConvertRejects()
    ensures ConvertNumber(Decimal, Hex, "") == Failure(ConvertFailed)
    ensures ConvertNumber(Binary, Octal, "2") == Failure(ConvertFailed)
    ensures ConvertNumber(Hex, Decimal, "g") == Failure(ConvertFailed)
    ensures ConvertNumber(Hex, Decimal, "0x10") == Failure(ConvertFailed)
    ensures ConvertNumber(Decimal, Hex, "1_000") == Failure(ConvertFailed)
    ensures ConvertNumber(Decimal, Hex, "+-1") == Failure(ConvertFailed)
    ensures ConvertNumber(Decimal, Hex, " 1") == Failure(ConvertFailed)
  {
    assert !IsDigit('x', 16);
    assert !IsDigit('_', 10);
    assert !IsDigit('-', 10);
    assert !IsDigit(' ', 10);
  }

  /** Decimal 255 is hex ff. */
  lemma ConvertDecimalToHex()
    ensures ConvertNumber(Decimal, Hex, "255") == Success("ff")
  {
    assert DigitsValue("255", 10) == 255 by {
      assert "255"[..2] == "25";
      assert "25"[..1] == "2";
      assert "2"[..0] == "";
    }
    assert Render(255, 16) == "ff" by {
      assert FormatDigits(15, 16) == "f";
    }
  }

  /** Decimal 16 is hex 10. */
  lemma ConvertSixteen()
    ensures ConvertNumber(Decimal, Hex, "16") == Success("10")
  {
    assert DigitsValue("16", 10) == 16 by {
      assert "16"[..1] == "1";
      assert "1"[..0] == "";
    }
    assert Render(16, 16) == "10" by {
      assert FormatDigits(1, 16) == "1";
    }
  }

  /** A negative value keeps its sign rather than a two's-complement pattern. */
  lemma ConvertNegative()
    ensures ConvertNumber(Decimal, Hex, "-1") == Success("-1")
  {
    assert SplitSign("-1") == (true, "1");
    assert DigitsValue("1", 10) == 1 by {
      assert "1"[..0] == "";
    }
    assert Render(-1, 16) == "-1" by {
      assert FormatDigits(1, 16) == "1";
    }
  }

  /** Binary 101 is octal 5. */
  lemma ConvertBinaryToOctal()
    ensures ConvertNumber(Binary, Octal, "101") == Success("5")
  {
    assert DigitsValue("101", 2) == 5 by {
      assert "101"[..2] == "10";
      assert "10"[..1] == "1";
      assert "1"[..0] == "";
    }
    assert Render(5, 8) == "5";
  }

  /** A '+' sign and an uppercase hex digit are normalised away. */
  lemma ConvertSignedUpperHex()
    ensures ConvertNumber(Hex, Binary, "+A") == Success("1010")
  {
    assert SplitSign("+A") == (false, "A");
    assert DigitsValue("A", 16) == 10 by {
      assert "A"[..0] == "";
    }
    assert Render(10, 2) == "1010" by {
      assert FormatDigits(1, 2) == "1";
      assert FormatDigits(2, 2) == "10";
      assert FormatDigits(5, 2) == "101";
    }
  }
}
