/** The four number formats of nconv, their radices, and the format
    selector `getTypes` that turns a code string such as "dh" into an
    (input, output) pair. */
module Formats {
  import opened Wrappers
  import Text
  import Numerals

  /** `NumberFormat` and its constants; DECIMAL is the zero value. */
  datatype NumberFormat = Decimal | Binary | Octal | Hex

  /** `systemBases`: the radix a format parses in. The rendering verbs of
      `systemFormats` (%d, %b, %o, %x) print in the same radix. */
  function Base(f: NumberFormat): (b: nat)
    ensures Numerals.IsBase(b)
  {
    match f
    case Decimal => 10
    case Binary => 2
    case Octal => 8
    case Hex => 16
  }

  /** `unknownFormatError`. */
  datatype FormatError = UnknownFormat

  /** The (input, output) pair a run converts with. */
  datatype Selection = Selection(input: NumberFormat, output: NumberFormat)

  /** The switch inside `getTypes`, applied to an already lower-cased rune. */
  function FormatOfCode(c: char): Option<NumberFormat>
  {
    match c
    case 'h' => Some(Hex)
    case 'b' => Some(Binary)
    case 'o' => Some(Octal)
    case 'd' => Some(Decimal)
    case _ => None
  }

  predicate IsCode(c: char)
  {
    FormatOfCode(c).Some?
  }

  predicate AllCodes(s: string)
  {
    forall i :: 0 <= i < |s| ==> IsCode(s[i])
  }

  function CodeFormat(c: char): NumberFormat
    requires IsCode(c)
  {
    FormatOfCode(c).value
  }

  /** The loop of `getTypes` over lower-cased runes, with the accumulators
      `in` and `out` (here `input` and `output`): each code `t` does `in = t; in, out = out, in`, so the
      new `in` is the old `out` and the new `out` is `t`. An unknown rune
      stops the loop with `unknownFormatError`. Whatever the string, the
      final pair is made of the last two formats seen. */
  function SwapFold(codes: string, input: NumberFormat, output: NumberFormat): (r: Result<Selection, FormatError>)
    ensures r.Success? <==> AllCodes(codes)
    ensures r.Success? && |codes| == 0 ==> r.value == Selection(input, output)
    ensures r.Success? && |codes| == 1 ==> r.value == Selection(output, CodeFormat(codes[0]))
    ensures r.Success? && |codes| >= 2 ==>
              r.value == Selection(CodeFormat(codes[|codes| - 2]), CodeFormat(codes[|codes| - 1]))
    decreases |codes|
  {
    if |codes| == 0 then Success(Selection(input, output))
    else
      match FormatOfCode(codes[0])
      case None => Failure(UnknownFormat)
      case Some(t) =>
        var r := SwapFold(codes[1..], output, t);
        assert AllCodes(codes) <==> AllCodes(codes[1..]) by {
          assert forall i :: 1 <= i < |codes| ==> codes[i] == codes[1..][i - 1];
        }
        r
  }

  /** `getTypes`: lower-case the code string, then fold it from
      (DECIMAL, DECIMAL). It fails exactly when some character does not
      lower-case to one of h, b, o, d; otherwise `output` is the format of
      the last code and `input` that of the one before it, DECIMAL standing
      in for a missing one. */
  function GetTypes(types: string): (r: Result<Selection, FormatError>)
    ensures r.Success? <==> forall i :: 0 <= i < |types| ==> IsCode(Text.LowerChar(types[i]))
    ensures r.Success? && |types| == 0 ==> r.value == Selection(Decimal, Decimal)
    ensures r.Success? && |types| == 1 ==> r.value == Selection(Decimal, CodeFormat(Text.LowerChar(types[0])))
    ensures r.Success? && |types| >= 2 ==>
              r.value == Selection(CodeFormat(Text.LowerChar(types[|types| - 2])),
                                   CodeFormat(Text.LowerChar(types[|types| - 1])))
  {
    SwapFold(Text.Lower(types), Decimal, Decimal)
  }

  /** Exactly two codes select the first as input and the second as output. */
  lemma GetTypesTwoCodes(a: char, b: char)
    requires IsCode(Text.LowerChar(a)) && IsCode(Text.LowerChar(b))
    ensures GetTypes([a, b]) == Success(Selection(CodeFormat(Text.LowerChar(a)), CodeFormat(Text.LowerChar(b))))
  {
  }

  /** Code strings are case-insensitive. */
  lemma GetTypesCaseInsensitive(types: string)
    ensures GetTypes(Text.Upper(types)) == GetTypes(types)
  {
    Text.LowerUpper(types);
  }

  lemma GetTypesExamples()
    ensures GetTypes("dh") == Success(Selection(Decimal, Hex))
    ensures GetTypes("BO") == Success(Selection(Binary, Octal))
    ensures GetTypes("h") == Success(Selection(Decimal, Hex))
    ensures GetTypes("") == Success(Selection(Decimal, Decimal))
    ensures GetTypes("dbo") == Success(Selection(Binary, Octal))
    ensures GetTypes("dz") == Failure(UnknownFormat)
  {
    assert !IsCode(Text.LowerChar("dz"[1]));
  }
}
