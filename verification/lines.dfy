/** The line loop of `parseAll` and the top-level rule of `main`, over an
    input already split into lines. Standard output is the sequence of
    converted lines; standard error is counted, one diagnostic per line
    that failed to convert. */
module Lines {
  import opened Wrappers
  import opened Formats
  import opened Convert
  import Text
  import Numerals

  /** What a run leaves behind: the lines written to standard output, in
      order, and the number of diagnostics written to standard error. */
  datatype Report = Report(output: seq<string>, errors: nat)

  /** The body of the `parseAll` loop for one line: trim it, convert it.
      A blank or whitespace-only line always fails; a converted line is a
      canonical numeral of the output base. */
  function ConvertLine(sel: Selection, line: string): (r: Result<string, ConvertError>)
    ensures Text.AllSpace(line) ==> r == Failure(ConvertFailed)
    ensures r.Success? ==> Numerals.IsCanonical(r.value, Base(sel.output))
  {
    ConvertNumber(sel.input, sel.output, Text.TrimSpace(line))
  }

  predicate Converts(sel: Selection, line: string)
  {
    ConvertLine(sel, line).Success?
  }

  function Map<A, B>(f: A -> B, xs: seq<A>): seq<B>
  {
    seq(|xs|, i requires 0 <= i < |xs| => f(xs[i]))
  }

  /** The outcome of every line, in input order. */
  function Outcomes(sel: Selection, lines: seq<string>): (rs: seq<Result<string, ConvertError>>)
    ensures |rs| == |lines|
    ensures forall i :: 0 <= i < |lines| ==> rs[i] == ConvertLine(sel, lines[i])
  {
    Map(line => ConvertLine(sel, line), lines)
  }

  /** One turn of the `parseAll` loop on top of the report for the lines
      after it: a success is written out, a failure is counted. */
  function Step(x: Result<string, ConvertError>, rest: Report): Report
  {
    match x
    case Success(v) => Report([v] + rest.output, rest.errors)
    case Failure(_) => Report(rest.output, rest.errors + 1)
  }

  /** Two reports one after the other. */
  function Join(p: Report, q: Report): Report
  {
    Report(p.output + q.output, p.errors + q.errors)
  }

  /** What the `parseAll` loop does with the outcome of each line, in
      order: a success is written out, a failure is reported and skipped,
      and no failure stops the loop. Every outcome accounts for exactly one
      output line or one error; there are no errors exactly when every
      outcome is a success, and then the output is those values one by
      one; every output line is the value of some successful outcome. */
  function Collect(rs: seq<Result<string, ConvertError>>): (r: Report)
    ensures |r.output| + r.errors == |rs|
    ensures r.errors == 0 <==> forall i :: 0 <= i < |rs| ==> rs[i].Success?
    ensures r.errors == 0 ==> forall i :: 0 <= i < |rs| ==> r.output[i] == rs[i].value
    ensures forall k :: 0 <= k < |r.output| ==> Success(r.output[k]) in rs
    decreases |rs|
  {
    if |rs| == 0 then Report([], 0)
    else
      var rest := Collect(rs[1..]);
      var r := Step(rs[0], rest);
      assert rs[0].Success? ==> forall k :: 1 <= k < |r.output| ==> r.output[k] == rest.output[k - 1];
      r
  }

  /** The loop handles each outcome on its own: the report for two
      stretches of outcomes is the two reports joined, whatever failed in
      the first. */
  lemma {:induction false} CollectAppend(a: seq<Result<string, ConvertError>>, b: seq<Result<string, ConvertError>>)
    ensures Collect(a + b) == Join(Collect(a), Collect(b))
    decreases |a|
  {
    if |a| == 0 {
      assert a + b == b;
    } else {
      var x, t := a[0], a[1..];
      assert a == [x] + t;
      assert a + b == [x] + (t + b);
      CollectCons(x, t + b);
      CollectCons(x, t);
      CollectAppend(t, b);
      StepJoin(x, Collect(t), Collect(b));
    }
  }

  /** One outcome in front of others. */
  lemma CollectCons(x: Result<string, ConvertError>, rs: seq<Result<string, ConvertError>>)
    ensures Collect([x] + rs) == Step(x, Collect(rs))
  {
    assert ([x] + rs)[0] == x;
    assert ([x] + rs)[1..] == rs;
  }

  lemma StepJoin(x: Result<string, ConvertError>, p: Report, q: Report)
    ensures Step(x, Join(p, q)) == Join(Step(x, p), q)
  {
    if x.Success? {
      assert [x.value] + (p.output + q.output) == ([x.value] + p.output) + q.output;
    }
  }

  /** `parseAll` over the lines of its input. There are no errors exactly
      when every line converts, and then output line i is the conversion of
      input line i; every output line is the conversion of some input line. */
  function ParseAll(sel: Selection, lines: seq<string>): (r: Report)
    ensures |r.output| + r.errors == |lines|
    ensures r.errors == 0 <==> forall i :: 0 <= i < |lines| ==> Converts(sel, lines[i])
    ensures r.errors == 0 ==> forall i :: 0 <= i < |lines| ==> r.output[i] == ConvertLine(sel, lines[i]).value
    ensures forall k :: 0 <= k < |r.output| ==> Success(r.output[k]) in Outcomes(sel, lines)
  {
    Collect(Outcomes(sel, lines))
  }

  /** Reading on after any prefix of the input, failures included, simply
      extends the report: processing is line by line. */
  lemma ParseAllAppend(sel: Selection, a: seq<string>, b: seq<string>)
    ensures ParseAll(sel, a + b)
            == Report(ParseAll(sel, a).output + ParseAll(sel, b).output, ParseAll(sel, a).errors + ParseAll(sel, b).errors)
  {
    OutcomesAppend(sel, a, b);
    CollectAppend(Outcomes(sel, a), Outcomes(sel, b));
  }

  lemma OutcomesAppend(sel: Selection, a: seq<string>, b: seq<string>)
    ensures Outcomes(sel, a + b) == Outcomes(sel, a) + Outcomes(sel, b)
  {
    MapAppend(line => ConvertLine(sel, line), a, b);
  }

  /** `seq(|xs|, i => f(xs[i]))` distributes over concatenation. */
  lemma MapAppend<A, B>(f: A -> B, xs: seq<A>, ys: seq<A>)
    ensures Map(f, xs + ys) == Map(f, xs) + Map(f, ys)
  {
  }

  /** One more line read: a success appends its conversion to the output,
      a failure adds one diagnostic and nothing to the output. */
  lemma NextLine(sel: Selection, lines: seq<string>, line: string)
    ensures Converts(sel, line) ==>
              ParseAll(sel, lines + [line]) == Report(ParseAll(sel, lines).output + [ConvertLine(sel, line).value], ParseAll(sel, lines).errors)
    ensures !Converts(sel, line) ==>
              ParseAll(sel, lines + [line]) == Report(ParseAll(sel, lines).output, ParseAll(sel, lines).errors + 1)
  {
    ParseAllAppend(sel, lines, [line]);
    SingleLine(sel, line);
  }

  lemma SingleLine(sel: Selection, line: string)
    ensures Converts(sel, line) ==> ParseAll(sel, [line]) == Report([ConvertLine(sel, line).value], 0)
    ensures !Converts(sel, line) ==> ParseAll(sel, [line]) == Report([], 1)
  {
    var rs := Outcomes(sel, [line]);
    assert rs == [ConvertLine(sel, line)];
    assert rs[1..] == [];
  }

  /** A blank or whitespace-only line always fails to convert. */
  lemma BlankLineFails(sel: Selection, line: string)
    requires Text.AllSpace(line)
    ensures ConvertLine(sel, line) == Failure(ConvertFailed)
  {
  }

  /** Whitespace around a token does not change its conversion. */
  lemma PaddedLine(sel: Selection, pre: string, token: string, post: string)
    requires Text.AllSpace(pre) && Text.AllSpace(post)
    requires |token| > 0 ==> !Text.IsSpace(token[0]) && !Text.IsSpace(token[|token| - 1])
    ensures ConvertLine(sel, pre + token + post) == ConvertNumber(sel.input, sel.output, token)
  {
    Text.TrimSpacePadded(pre, token, post);
  }

  /** `main` with one argument: an unusable code string stops the run before
      any line is read, so nothing is converted; otherwise every line is
      processed with the selected pair. */
  function Nconv(types: string, lines: seq<string>): (r: Result<Report, FormatError>)
    ensures r.Failure? <==> exists i :: 0 <= i < |types| && !IsCode(Text.LowerChar(types[i]))
    ensures r.Success? ==> r.value == ParseAll(GetTypes(types).value, lines)
  {
    match GetTypes(types)
    case Failure(e) => Failure(e)
    case Success(sel) => Success(ParseAll(sel, lines))
  }

  /** When every line converts, the output is the conversions in order. */
  lemma AllLinesConvert(sel: Selection, lines: seq<string>, outs: seq<string>)
    requires |outs| == |lines|
    requires forall i :: 0 <= i < |lines| ==> ConvertLine(sel, lines[i]) == Success(outs[i])
    ensures ParseAll(sel, lines) == Report(outs, 0)
  {
  }

  /** A line with no surrounding whitespace is converted as it stands. */
  lemma LineUnpadded(sel: Selection, token: string)
    requires |token| > 0 ==> !Text.IsSpace(token[0]) && !Text.IsSpace(token[|token| - 1])
    ensures ConvertLine(sel, token) == ConvertNumber(sel.input, sel.output, token)
  {
    PaddedLine(sel, [], token, []);
    assert [] + token + [] == token;
  }

  /** Code "dh" over three lines, one of them padded: all convert. */
  lemma RunDecimalToHex()
    ensures Nconv("dh", ["255", "  16 ", "-1"]) == Success(Report(["ff", "10", "-1"], 0))
  {
    var sel := Selection(Decimal, Hex);
    GetTypesExamples();
    DecimalToHexReport(sel);
  }

  lemma DecimalToHexReport(sel: Selection)
    requires sel == Selection(Decimal, Hex)
    ensures ParseAll(sel, ["255", "  16 ", "-1"]) == Report(["ff", "10", "-1"], 0)
  {
    var lines := ["255", "  16 ", "-1"];
    var outs := ["ff", "10", "-1"];
    forall i | 0 <= i < |lines| ensures ConvertLine(sel, lines[i]) == Success(outs[i]) {
      if i == 0 {
        DecimalToHexFirst(sel);
      } else if i == 1 {
        DecimalToHexSecond(sel);
      } else {
        DecimalToHexThird(sel);
      }
    }
    AllLinesConvert(sel, lines, outs);
  }

  lemma DecimalToHexFirst(sel: Selection)
    requires sel == Selection(Decimal, Hex)
    ensures ConvertLine(sel, "255") == Success("ff")
  {
    LineUnpadded(sel, "255");
    ConvertDecimalToHex();
  }

  lemma DecimalToHexSecond(sel: Selection)
    requires sel == Selection(Decimal, Hex)
    ensures ConvertLine(sel, "  16 ") == Success("10")
  {
    TrimSixteen();
    ConvertSixteen();
  }

  lemma TrimSixteen()
    ensures Text.TrimSpace("  16 ") == "16"
  {
    Text.TrimSpacePadded("  ", "16", " ");
    assert "  " + "16" + " " == "  16 ";
  }

  lemma DecimalToHexThird(sel: Selection)
    requires sel == Selection(Decimal, Hex)
    ensures ConvertLine(sel, "-1") == Success("-1")
  {
    LineUnpadded(sel, "-1");
    ConvertNegative();
  }

  /** Code "bo": the second line is not binary, is reported, and is skipped. */
  lemma RunBinaryToOctal()
    ensures Nconv("bo", ["101", "2"]) == Success(Report(["5"], 1))
  {
    var sel := Selection(Binary, Octal);
    GetTypesExamples();
    BinaryToOctalReport(sel);
  }

  lemma BinaryToOctalReport(sel: Selection)
    requires sel == Selection(Binary, Octal)
    ensures ParseAll(sel, ["101", "2"]) == Report(["5"], 1)
  {
    var rs: seq<Result<string, ConvertError>> := [Success("5"), Failure(ConvertFailed)];
    BinaryToOctalFirst(sel);
    BinaryToOctalSecond(sel);
    assert Outcomes(sel, ["101", "2"]) == rs;
    CollectCons(rs[1], []);
    assert rs == [rs[0]] + [rs[1]];
    CollectCons(rs[0], [rs[1]]);
  }

  lemma BinaryToOctalFirst(sel: Selection)
    requires sel == Selection(Binary, Octal)
    ensures ConvertLine(sel, "101") == Success("5")
  {
    LineUnpadded(sel, "101");
    ConvertBinaryToOctal();
  }

  lemma BinaryToOctalSecond(sel: Selection)
    requires sel == Selection(Binary, Octal)
    ensures ConvertLine(sel, "2") == Failure(ConvertFailed)
  {
    LineUnpadded(sel, "2");
    ConvertRejects();
  }

  /** An unknown code converts nothing, whatever the input. */
  lemma RunUnknownCode(lines: seq<string>)
    ensures Nconv("dz", lines) == Failure(UnknownFormat)
  {
    GetTypesExamples();
  }
}
