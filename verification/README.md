# nconv in Dafny

nconv is a small command that converts integers between bases. It is called
as `nconv <codes>`, where each code letter names a number format: `d`
decimal, `b` binary, `o` octal, `h` hex. It then reads standard input line
by line. Each line is trimmed, parsed as a signed 64-bit integer in the input
format's base, and printed in the output format's base. A line that does not
parse produces one diagnostic on standard error and is skipped. A bad code
string stops the run before any line is read.

This project models that core as pure functions and proves properties of
them. The modules are:

- `Wrappers`: `Option` and `Result`.
- `Text`: Go's `strings.TrimSpace`, using the whitespace set of `unicode.IsSpace`, and ASCII case mapping.
- `Formats`: `NumberFormat`, the radix table `systemBases`, and the format selector `getTypes`.
- `Numerals`: parsing as `strconv.ParseInt(s, base, 64)` does it. This goes through a model of `strconv.ParseUint`'s digit loop with its uint64 overflow checks. It also holds rendering as the `%d`, `%b`, `%o`, `%x` verbs print an int64.
- `Convert`: `convertNumber`.
- `Lines`: the per-line logic of `parseAll`, and `main`'s rule that a bad code string converts nothing. Standard output is modelled as the sequence of lines written. Standard error is modelled as the count of diagnostics.

The headline results:

- Parsing and rendering are mutually inverse. `ParseRender` shows that parsing a rendering gives back the value. `RenderParse` shows that every canonical numeral is the rendering of its value.
- Hence the round trip `ConvertNumber(F, G, Render_F(n)) == Render_G(n)` holds for every int64 `n` and all formats F, G.
- The format selector's fold always ends with the last two codes seen.

The selector folds over any number of codes with a swap (nconv.go:76-94), so `"h"` selects (DECIMAL, HEX), `""` selects (DECIMAL, DECIMAL), and `"dbo"` selects (BINARY, OCTAL). The model reproduces the fold.

## Model

| member | source | states |
|---|---|---|
| Formats.Base | nconv.go:27-32 | `systemBases`: every format parses and prints in one of the radices 2, 8, 10, 16 |
| Formats.SwapFold | nconv.go:78-93 | the `in = t; in, out = out, in` loop fails exactly when some rune is not a code. Otherwise it ends with `out` = last code and `in` = the code before it. After one code, `in` is the old `out`; after none, the pair is unchanged |
| Formats.GetTypes | nconv.go:76-95 | `getTypes` fails iff some lower-cased character is outside {h, b, o, d}. Otherwise it returns (second-to-last, last) code, with DECIMAL for a missing one: `""` gives (DECIMAL, DECIMAL) and one code gives (DECIMAL, that code) |
| Formats.GetTypesTwoCodes | nconv.go:76-94 | with exactly two codes, the first selects the input format and the second the output format |
| Formats.GetTypesCaseInsensitive | nconv.go:78 | a code string and its upper-cased form select the same pair |
| Formats.GetTypesExamples | nconv.go:76-95 | `"dh"` gives (DECIMAL, HEX) and `"BO"` gives (BINARY, OCTAL). `"h"`, `""` and `"dbo"` follow the fold. `"dz"` fails with `unknownFormatError` |
| Text.TrimSpace | nconv.go:65 | the trimmed line is a slice of the line with only whitespace around it. It is empty iff the line is all whitespace, and otherwise neither starts nor ends with whitespace |
| Text.Lower | nconv.go:78 | lower-casing keeps the length, maps each character on its own, and leaves no uppercase ASCII letter |
| Text.TrimSpacePadded | nconv.go:65 | trimming `pre + s + post` gives back `s` when the padding is whitespace and `s` has none at its ends |
| Numerals.Accumulate | nconv.go:49 | the digit loop that `ParseInt` runs succeeds iff every digit is valid for the base and the value fits in uint64. On success it yields that value, whichever check (bad digit, product overflow, sum overflow) fires first |
| Numerals.ParseUint | nconv.go:49 | the unsigned stage of `ParseInt` succeeds iff the string is one or more valid digits whose value is at most 2^64-1, and then returns that value |
| Numerals.ParseInt | nconv.go:48-52 | `strconv.ParseInt(in, base, 64)` succeeds iff the input is an optional `+`/`-` and one or more digits valid for the base (either letter case; no `0x`, no `_`), with value in [-2^63, 2^63-1]. It then returns exactly that value |
| Numerals.FormatDigits | nconv.go:53-54 | the printed magnitude is lowercase digits of the base with no leading zero. It starts with `0` only for zero, and its value is the magnitude |
| Numerals.Render | nconv.go:33-38 | `Sprintf(%d/%b/%o/%x, v)` is a canonical numeral whose value in that base is `v`: it starts with `-` iff `v` is negative, and is lowercase with no leading zeros |
| Numerals.ParseRender | nconv.go:47-55 | parsing the rendering of any int64 in the same base gives the value back |
| Numerals.FormatCanonicalDigits | nconv.go:53-54 | a canonical digit string is the printed form of its own value |
| Numerals.RenderParse | nconv.go:47-55 | every canonical numeral parses, and its rendering is itself. So rendering is a bijection from int64 onto canonical numerals |
| Numerals.ParseIntUpper | nconv.go:49 | upper-casing the input does not change what it parses to |
| Numerals.ParseIntPlus | nconv.go:49 | a leading `+` on an unsigned input does not change what it parses to |
| Convert.ConvertNumber | nconv.go:47-55 | `convertNumber` succeeds iff the input is a numeral of the input base with an int64 value. Otherwise it returns `convertError` and no string. On success the output is canonical in the output base and parses there to the input's value |
| Convert.ConvertRoundTrip | nconv.go:47-55 | for every int64 `n` and formats F, G, converting F's rendering of `n` yields G's rendering of `n` |
| Convert.ConvertSameFormat | nconv.go:47-55 | converting a canonical numeral to its own format is the identity |
| Convert.ConvertThereAndBack | nconv.go:47-55 | converting a canonical numeral from F to G and back to F restores it |
| Convert.ConvertUpperCase | nconv.go:49-54 | upper-case input converts exactly as the lowercase input does |
| Convert.ConvertPlusSign | nconv.go:49-54 | a `+`-signed input converts exactly as the unsigned one does |
| Convert.ConvertRejects | nconv.go:48-52 | these inputs fail: `""`, `"2"` in binary, `"g"` in hex, `"0x10"` in hex, `"1_000"`, `"+-1"` and an untrimmed `" 1"` |
| Convert.ConvertDecimalToHex | nconv.go:47-55 | decimal `255` converts to hex `ff` |
| Convert.ConvertSixteen | nconv.go:47-55 | decimal `16` converts to hex `10` |
| Convert.ConvertNegative | nconv.go:47-55 | decimal `-1` converts to hex `-1`, a sign and not a two's-complement pattern |
| Convert.ConvertBinaryToOctal | nconv.go:47-55 | binary `101` converts to octal `5` |
| Convert.ConvertSignedUpperHex | nconv.go:47-55 | hex `+A` converts to binary `1010` |
| Lines.Collect | nconv.go:60-73 | each outcome yields one output line or one error. There are no errors iff all succeed, and then output i is outcome i. Every output line is the value of some successful outcome |
| Lines.CollectAppend | nconv.go:60-73 | the loop's report over two stretches of outcomes is the two reports joined. A failure never stops or alters what follows |
| Lines.ConvertLine | nconv.go:65-66 | one line of the loop: a blank or whitespace-only line always fails with `convertError`, and a converted line is a canonical numeral of the output base |
| Lines.ParseAll | nconv.go:57-74 | `parseAll`: every line yields one output line or one diagnostic. There are no diagnostics iff every trimmed line converts, and then output line i is the conversion of line i. Every output line is the conversion of some input line |
| Lines.ParseAllAppend | nconv.go:60-73 | the report for `a + b` is the report for `a` followed by the report for `b` |
| Lines.NextLine | nconv.go:66-72 | reading one more line appends its conversion when it converts. Otherwise it adds exactly one diagnostic and nothing to the output |
| Lines.BlankLineFails | nconv.go:65-69 | an empty or whitespace-only line always fails with `convertError` |
| Lines.PaddedLine | nconv.go:65-66 | whitespace around a token does not change its conversion |
| Lines.Nconv | nconv.go:101-108 | `main` with one argument converts nothing when some code character is unknown. Otherwise it is `parseAll` with the selected pair |
| Lines.RunDecimalToHex | nconv.go:101-108 | codes `dh` on lines `255`, `  16 `, `-1` print `ff`, `10`, `-1` with no diagnostics |
| Lines.RunBinaryToOctal | nconv.go:101-108 | codes `bo` on lines `101`, `2` print `5` and give one diagnostic |
| Lines.RunUnknownCode | nconv.go:103-107 | codes `dz` convert nothing, whatever the input |

## Left out

- Reading lines with `bufio.Reader.ReadLine` (nconv.go:58-64) is not modelled: the input is an already split `seq<string>`. This leaves out two behaviours. Lines longer than the reader's 4096-byte buffer arrive as fragments, because `isPrefix` is ignored. A read error other than end of file ends the loop silently.
- The writes to standard output and standard error are not modelled, and neither is the diagnostic text (nconv.go:68, 72, 105). Failed writes are also not modelled. A diagnostic is counted and a written line is collected.
- Flag parsing, argument counting and the usage text (nconv.go:41-45, 98-101, 109-110) are command-line plumbing. `Nconv` takes the single code-string argument directly.
- Formats.Base: its contract only says that every radix is one of 2, 8, 10, 16. The exact pairing of format and radix is the function body, which copies the `systemBases` table.
- Formats.GetTypes: on failure, `getTypes` also returns its partially folded pair. The model returns only the error, because its one caller discards that pair (nconv.go:104-106).
- Text.Lower: only ASCII letters are lower-cased, where `strings.ToLower` maps all of Unicode. No non-ASCII rune lower-cases to `h`, `b`, `o` or `d`, so `getTypes` succeeds or fails exactly as it does in Go.
- Numerals.ParseInt: the model is stated for the four radices nconv uses, not every base from 2 to 36. Go's two error kinds, syntax and range, are one failure here. `convertNumber` discards the difference.
- Numerals.Accumulate: Go detects a sum overflow by the uint64 wrap-around test `n1 < n`. The model writes it as the comparison `n1 > 2^64-1`. These are equivalent when no product has overflowed, which the earlier cutoff check guarantees.
- `fmt` verb strings are not interpreted. The verbs in `systemFormats` (nconv.go:33-38) print in the same radix as `systemBases`, so `Render` takes that radix directly.
- Invalid UTF-8 in input lines is not modelled. Lines are sequences of Unicode characters.
