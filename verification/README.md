# go-smith, modelled in Dafny

go-smith is a differential tester for Go toolchains. It writes small random
Go programs, runs each one with `go run` and with `gccgo`, and reports a
discrepancy when the two outputs differ. This project models its two pieces
of stateable logic in `main.go`:

* **the program generator** (`generateRandomProgram`,
  `generateRandomStatement`, `randomString` and the constants
  `minStatements`, `maxStatements`, `operators`, `types`), as pure functions
  over an explicit stream of random draws (`seq<nat>`), read from a position
  that each draw advances by one. Each `rand.Intn(n)` reads the draw at the
  current position, which must lie in `[0, n)`. A stream that runs dry,
  or offers a value out of range, is one `math/rand` cannot produce, and the
  model answers `None` for it. The draw order is the source's: the statement
  count; then, per statement, the kind, the operator, the bound identifier,
  two operands (5 + 5 letter draws for a string), and the printed identifier.
  Go evaluates `Sprintf` arguments left to right.
* **the verdict rule** in `main` (lines 38-50), as `Classify` over two
  `RunResult`s: an error on either side gives `Inconclusive` and the outputs
  are not compared; otherwise the output bytes are compared, giving
  `Discrepancy` or `NoDiscrepancy`.

Modules:

* `Wrappers`: a failure-compatible `Option`.
* `Sequences`: one general fact about sequences.
* `Decimal`: Go's `%d` for non-negative integers (`Dec`), fixed-width digit
  blocks, and the digit-run reader that inverts them.
* `RandomSource`: the draw stream and `Intn`.
* `Syntax`: the constants, the `Statement`/`Program` datatypes,
  well-formedness, rendering to text, and the line structure of that text.
* `Generator`: the generator itself. It also gives the inverse direction:
  draws that make the generator choose any given well-formed program.
* `Parser`: a reader for the generated grammar. It is the partner of
  rendering: the text of every well-formed program reads back as that
  program under the grammar `Parser` accepts. That this grammar is a subset
  of Go's syntax is a reading of `main.go`'s format strings, not a proved
  fact.
* `GeneratedText`: the generator and the reader taken together.
* `Differential`: the verdict rule.

A `Statement` records the operator as it is written into the text. For the
string kind the code draws an operator but writes `+` between the two
literals whatever was drawn (main.go:85), so the statement holds `Add` there;
the operator draw is still consumed.

## Model

| member | source | states |
|---|---|---|
| RandomSource.Intn | main.go:76-77 | one `rand.Intn(n)` call: it succeeds exactly when the next draw exists and is below `n`, returns that draw, and consumes exactly one draw |
| Syntax.LettersLayout | main.go:93 | the alphabet has 52 entries: `a`..`z` at positions 0-25, then `A`..`Z` at 26-51 |
| Syntax.LettersAreExactlyAsciiLetters | main.go:93 | a character is in the alphabet exactly when it is an ASCII letter, so `"` and `\` never are |
| Syntax.StatementIsTwoLines | main.go:81-88 | a well-formed statement's text is its binding line followed by its print line; each is one newline-terminated line; together they hold exactly two newlines |
| Syntax.HeaderLineCount | main.go:60-64 | the fixed header is exactly seven lines |
| Syntax.BodyLineCount | main.go:66-68 | the statements together hold exactly two lines per statement |
| Syntax.ProgramLineCount | main.go:60-70 | a well-formed program's text has 7 header lines, 2 lines per statement and 1 closing line |
| Syntax.ProgramFraming | main.go:60-71 | program text starts with the header and ends with `}\n` |
| Decimal.Dec | main.go:81 | `%d` of a non-negative int is a non-empty digit string that starts with `0` only for zero |
| Decimal.ParseDec | main.go:81 | reading a number back from its `%d` text, followed by any non-digit, recovers the number and stops right after its digits |
| Decimal.DecInjective | main.go:81 | distinct identifiers and int operands never print alike |
| Generator.RandomString | main.go:92-99 | a generated string of length `n` consumes exactly `n` draws, each below 52, and its `i`-th character is the alphabet entry picked by the `i`-th of them |
| Generator.RandomStringDefined | main.go:92-99 | `randomString(n)` yields a string exactly when the next `n` draws exist and are all below 52 |
| Generator.RandomStringIsLetters | main.go:92-98 | a generated string has exactly `n` characters, all ASCII letters, with no `"` or `\` to escape |
| Generator.RandomStringAgree | main.go:92-99 | `randomString(n)` depends on the `n` draws it reads and on nothing else in the stream |
| Generator.RandomStringInverse | main.go:92-99 | every string of ASCII letters is produced by the draws that spell it, and consumes exactly its length in draws |
| Generator.DrawOperands | main.go:79-86 | int operands are two draws below 100; float operands are two draws of at most 100.000000; string operands are 5 + 5 letter draws written with `+` whatever operator was drawn; for the other kinds the drawn operator is kept; exactly the kind's operand draws are consumed |
| Generator.DrawOperandsDefined | main.go:79-86 | operands are drawn exactly when the next draws fit the kind's bounds: two below 100, two at most 10^8, or ten below 52 |
| Generator.DrawOperandsAgree | main.go:79-86 | the operands depend only on the draws they consume |
| Generator.DrawStatement | main.go:74-90 | a drawn statement is well-formed, of the kind the first draw picks, binds the 3rd draw, prints its last draw, carries `+` for strings and the drawn operator otherwise, and consumes 4 draws plus its operand draws |
| Generator.DrawStatementDefined | main.go:74-90 | a statement is drawn exactly when the kind draw is below 3 and every later draw of that kind's statement is in range |
| Generator.GenerateRandomStatement | main.go:74-90 | the statement text exists exactly when the statement is drawn, and consumes the same draws |
| Generator.GeneratedIntStatement | main.go:76-88 | an int statement reads `a<d2> := <d3> <op d1> <d4>` then `fmt.Println(a<d5>)`, with each draw in decimal |
| Generator.GeneratedFloatStatement | main.go:76-88 | a float statement has the same shape with both operands printed as `%f` |
| Generator.GeneratedStringStatement | main.go:76-88 | a string statement reads `a<d2> := "<5 letters>" + "<5 letters>"` then `fmt.Println(a<d13>)`, the letters spelled by draws 3-12 |
| Generator.StringIgnoresOperatorDraw | main.go:77-85 | for the string kind the operator draw is consumed but changing it, within range, changes nothing |
| Generator.PrintedIdIsFreshDraw | main.go:88 | the printed identifier is its own draw: changing only that draw to any `k < 100` changes only the printed identifier, to `a<k>` |
| Generator.DrawStatements | main.go:66-68 | drawing `count` statements yields exactly `count` well-formed statements and never moves backwards in the stream |
| Generator.WriteStatements | main.go:66-68 | the statement loop's text is the concatenation, in generation order, of the texts of the statements drawn from the same stream |
| Generator.DrawProgram | main.go:56-57 | the statement count is the first draw plus 5, so it lies in [5, 20]; a first draw above 15 yields nothing; every statement is well-formed |
| Generator.GenerateRandomProgram | main.go:56-72 | the program text exists exactly when the program is drawn, and is the rendering of that program: header, statements in order, `}\n` |
| Generator.GeneratedProgramShape | main.go:56-72 | a generated text starts with the exact header, ends with `}\n`, and has 8 + 2 x count lines for a count in [5, 20] |
| Generator.DrawStatementInverse | main.go:74-90 | every well-formed statement is drawn back from draws that lay it out, which it consumes exactly |
| Generator.DrawStatementsInverse | main.go:66-68 | well-formed statements laid out one after another are drawn back in order, ending where their draws end |
| Generator.DrawProgramInverse | main.go:56-72 | every well-formed program is drawn from its own draws, whatever follows them, and consumes exactly those draws |
| Generator.GeneratorRange | main.go:56-90 | a program is generated from some stream exactly when it is well-formed: count in [5, 20], identifiers and int operands below 100, 5-letter strings, `+` for strings |
| Parser.ParseOperandInverse | main.go:81-85 | each operand text (decimal int, `%f` float, quoted letters) reads back as its operand |
| Parser.ParseStatementInverse | main.go:81-88 | a well-formed statement's two lines read back as that statement |
| Parser.ParseProgramInverse | main.go:60-71 | the text of a well-formed program reads back as exactly that program |
| Parser.ProgramTextInjective | main.go:56-72 | two well-formed programs have the same text exactly when they are the same program |
| GeneratedText.GeneratedProgramParses | main.go:56-90 | every generated text reads back under the grammar `Parser` accepts, as the program the draws chose, which is well-formed with 5 to 20 statements |
| GeneratedText.SameTextSameProgram | main.go:56-90 | two streams that yield the same text chose the same program |
| Differential.Classify | main.go:38-50 | `Inconclusive` exactly when either run failed; `Discrepancy` exactly when both produced output and the outputs differ; `NoDiscrepancy` exactly when both produced the same output |
| Differential.ErrorHidesOutputs | main.go:38-41 | once a side has failed, the other side's result has no effect on the verdict |
| Differential.ErrorDetailsIrrelevant | main.go:38-41 | the error text never changes the verdict |
| Differential.ClassifySymmetric | main.go:38-50 | swapping the two toolchains' results keeps the verdict |

## Left out

* `compileAndRun` (main.go:101-124): it starts the `go` and `gccgo` processes and captures standard output. This is process I/O. Its result enters `Classify` as an opaque `RunResult`.
* Writing and removing the program file, and the ten-iteration loop of `main` (main.go:26-36, main.go:52): these are file-system side effects and a fixed count. The inconclusive `continue` at main.go:40 skips the file removal at main.go:52; cleanup is not modelled.
* Time-based seeding (main.go:24): replaced by the explicit draw stream.
* The floating-point side of the float operand (main.go:83): each operand is modelled as one draw `m` in [0, 10^8]. `m` is the value of `rand.Float64()*100` after `%f` rounds it to six decimals, counted in millionths. The model renders it as `Dec(m / 10^6) + "." + six digits`. The rounding itself is not modelled.
* The report text printed by `main` (main.go:39-49): only the three-way verdict is modelled.
* RandomSource.Intn: Go's `rand.Intn` may read more than one value from the underlying source (rejection sampling). The model counts one draw per call, which is the level at which the generator's draw order is defined.
