/** The little Go grammar the generator writes: its constants, the
    statement and program shapes, and how each is rendered as source text. */
module Syntax {
  import opened Decimal

  /** Bounds on the number of statements per program (inclusive). */
  const MinStatements: nat := 5
  const MaxStatements: nat := 20

  /** Identifiers `a0` .. `a99` and int operands both come from `rand.Intn(100)`. */
  const IdSpace: nat := 100
  const IntOperandBound: nat := 100

  /** Length of each generated string literal. */
  const StringLength: nat := 5

  /** A float operand is `rand.Float64()*100` printed by `%f`, that is, with
      six fraction digits. The model keeps the printed value in millionths;
      rounding can reach 100.000000 but not beyond. */
  const MicrosPerUnit: nat := 1000000
  const MaxFloatMicros: nat := 100000000

  datatype Kind = IntKind | FloatKind | StringKind

  /** The `types` table, in its order. */
  const Kinds: seq<Kind> := [IntKind, FloatKind, StringKind]

  datatype Op = Add | Sub | Mul | Div {
    function Symbol(): char {
      match this
      case Add => '+'
      case Sub => '-'
      case Mul => '*'
      case Div => '/'
    }
  }

  /** The `operators` table, in its order. */
  const Operators: seq<Op> := [Add, Sub, Mul, Div]

  /** `n` consecutive code points starting at `first`. */
  function CharRun(first: nat, n: nat): (s: string)
    requires first + n <= 128
    ensures |s| == n
    ensures forall i :: 0 <= i < n ==> s[i] == (first + i) as char
  {
    seq(n, i requires 0 <= i < n => (first + i) as char)
  }

  /** The alphabet `randomString` draws from: the 26 lower-case letters,
      then the 26 upper-case ones. */
  const Letters: string := CharRun('a' as nat, 26) + CharRun('A' as nat, 26)

  predicate IsLetter(c: char) {
    'a' <= c <= 'z' || 'A' <= c <= 'Z'
  }

  /** The alphabet is the 26 lower-case then the 26 upper-case ASCII letters,
      so its `i`-th entry is known arithmetically. */
  lemma LettersLayout()
    ensures |Letters| == 52
    ensures forall i :: 0 <= i < 26 ==> Letters[i] == (97 + i) as char
    ensures forall i :: 26 <= i < 52 ==> Letters[i] == (65 + i - 26) as char
  {
  }

  /** Membership in the alphabet is exactly being an ASCII letter; in
      particular neither `"` nor `\` is ever drawn. */
  lemma LettersAreExactlyAsciiLetters(c: char)
    ensures c in Letters <==> IsLetter(c)
  {
    LettersLayout();
    if IsLetter(c) {
      assert Letters[LetterIndex(c)] == c;
    }
  }

  /** Where a letter sits in the alphabet. */
  function LetterIndex(c: char): (i: nat)
    requires IsLetter(c)
    ensures i < |Letters| && Letters[i] == c
  {
    LettersLayout();
    if c <= 'Z' then c as int - 65 + 26 else c as int - 97
  }

  datatype Operand = IntLit(n: nat) | FloatLit(micros: nat) | StrLit(s: string) {
    function Kind(): Kind {
      match this
      case IntLit(_) => IntKind
      case FloatLit(_) => FloatKind
      case StrLit(_) => StringKind
    }
  }

  /** One generated statement: `a<bound> := <lhs> <op> <rhs>` followed by
      `fmt.Println(a<printed>)`. `op` is the operator as written into the
      text. */
  datatype Statement = Statement(bound: nat, lhs: Operand, op: Op, rhs: Operand, printed: nat) {
    function Kind(): Kind {
      lhs.Kind()
    }
  }

  datatype Program = Program(statements: seq<Statement>)

  predicate WellFormedOperand(o: Operand) {
    match o
    case IntLit(n) => n < IntOperandBound
    case FloatLit(m) => m <= MaxFloatMicros
    case StrLit(s) => |s| == StringLength && forall i :: 0 <= i < |s| ==> IsLetter(s[i])
  }

  /** What the generator can produce: identifiers and operands within their
      draw ranges, both operands of one kind, and `+` for strings. */
  predicate WellFormedStatement(s: Statement) {
    && s.bound < IdSpace
    && s.printed < IdSpace
    && WellFormedOperand(s.lhs)
    && WellFormedOperand(s.rhs)
    && s.lhs.Kind() == s.rhs.Kind()
    && (s.Kind() == StringKind ==> s.op == Add)
  }

  predicate WellFormedProgram(p: Program) {
    && MinStatements <= |p.statements| <= MaxStatements
    && forall i :: 0 <= i < |p.statements| ==> WellFormedStatement(p.statements[i])
  }

  /** The text written before the first statement. */
  const Header: string := "package main\n\n" + "import (\n" + "\"fmt\"\n" + ")\n\n" + "func main() {\n"

  /** The text written after the last statement. */
  const Footer: string := "}\n"

  function Ident(k: nat): string {
    "a" + Dec(k)
  }

  /** `%f` of a value held in millionths. */
  function FloatText(micros: nat): string {
    Dec(micros / MicrosPerUnit) + "." + Fixed(micros % MicrosPerUnit, 6)
  }

  function OperandText(o: Operand): string {
    match o
    case IntLit(n) => Dec(n)
    case FloatLit(m) => FloatText(m)
    case StrLit(s) => "\"" + s + "\""
  }

  function BindingLine(s: Statement): string {
    Ident(s.bound) + " := " + OperandText(s.lhs) + " " + [s.op.Symbol()] + " " + OperandText(s.rhs) + "\n"
  }

  function PrintLine(s: Statement): string {
    "fmt.Println(" + Ident(s.printed) + ")\n"
  }

  function StatementText(s: Statement): string {
    BindingLine(s) + PrintLine(s)
  }

  /** The statements' texts, concatenated in order. */
  function Body(ss: seq<Statement>): string {
    if ss == [] then [] else StatementText(ss[0]) + Body(ss[1..])
  }

  function ProgramText(p: Program): string {
    Header + Body(p.statements) + Footer
  }

  /** Number of line terminators in `s`. */
  function Newlines(s: string): nat {
    multiset(s)['\n']
  }

  /** A single line: newline-terminated, with no other newline. */
  predicate IsLine(l: string) {
    0 < |l| && l[|l| - 1] == '\n' && '\n' !in l[..|l| - 1]
  }

  lemma DigitsHaveNoNewline(s: string)
    requires AllDigits(s)
    ensures '\n' !in s
  {
  }

  lemma OperandTextHasNoNewline(o: Operand)
    requires WellFormedOperand(o)
    ensures '\n' !in OperandText(o)
  {
    match o
    case IntLit(n) =>
      DigitsHaveNoNewline(Dec(n));
    case FloatLit(m) =>
      DigitsHaveNoNewline(Dec(m / MicrosPerUnit));
      DigitsHaveNoNewline(Fixed(m % MicrosPerUnit, 6));
    case StrLit(s) =>
  }

  lemma NewlinesConcat(a: string, b: string)
    ensures Newlines(a + b) == Newlines(a) + Newlines(b)
  {
    assert multiset(a + b) == multiset(a) + multiset(b);
  }

  lemma LineOf(prefix: string)
    requires '\n' !in prefix
    ensures IsLine(prefix + "\n")
    ensures Newlines(prefix + "\n") == 1
  {
    var l := prefix + "\n";
    assert l[..|l| - 1] == prefix;
    assert multiset(l) == multiset(prefix) + multiset{'\n'};
  }

  lemma NoNewlineInConcat(a: string, b: string)
    requires '\n' !in a && '\n' !in b
    ensures '\n' !in a + b
  {
  }

  lemma IdentHasNoNewline(k: nat)
    ensures '\n' !in Ident(k)
  {
    DigitsHaveNoNewline(Dec(k));
    NoNewlineInConcat("a", Dec(k));
  }

  lemma BindingLineIsLine(s: Statement)
    requires WellFormedStatement(s)
    ensures IsLine(BindingLine(s)) && Newlines(BindingLine(s)) == 1
  {
    IdentHasNoNewline(s.bound);
    OperandTextHasNoNewline(s.lhs);
    OperandTextHasNoNewline(s.rhs);
    var a := Ident(s.bound) + " := ";
    NoNewlineInConcat(Ident(s.bound), " := ");
    var b := a + OperandText(s.lhs);
    NoNewlineInConcat(a, OperandText(s.lhs));
    var c := b + " " + [s.op.Symbol()] + " ";
    NoNewlineInConcat(b, " " + [s.op.Symbol()] + " ");
    var d := c + OperandText(s.rhs);
    NoNewlineInConcat(c, OperandText(s.rhs));
    assert BindingLine(s) == d + "\n";
    LineOf(d);
  }

  lemma PrintLineIsLine(s: Statement)
    ensures IsLine(PrintLine(s)) && Newlines(PrintLine(s)) == 1
  {
    IdentHasNoNewline(s.printed);
    NoNewlineInConcat("fmt.Println(", Ident(s.printed));
    NoNewlineInConcat("fmt.Println(" + Ident(s.printed), ")");
    assert PrintLine(s) == "fmt.Println(" + Ident(s.printed) + ")" + "\n";
    LineOf("fmt.Println(" + Ident(s.printed) + ")");
  }

  /** Every statement is exactly two lines: the binding, then the print. */
  lemma StatementIsTwoLines(s: Statement)
    requires WellFormedStatement(s)
    ensures StatementText(s) == BindingLine(s) + PrintLine(s)
    ensures IsLine(BindingLine(s)) && IsLine(PrintLine(s))
    ensures Newlines(StatementText(s)) == 2
  {
    BindingLineIsLine(s);
    PrintLineIsLine(s);
    assert multiset(StatementText(s)) == multiset(BindingLine(s)) + multiset(PrintLine(s));
  }

  /** Newline-terminated lines, concatenated. */
  function Unlines(ls: seq<string>): string {
    if ls == [] then [] else ls[0] + "\n" + Unlines(ls[1..])
  }

  lemma {:induction false} UnlinesCount(ls: seq<string>)
    requires forall i :: 0 <= i < |ls| ==> '\n' !in ls[i]
    ensures Newlines(Unlines(ls)) == |ls|
  {
    if ls != [] {
      LineOf(ls[0]);
      UnlinesCount(ls[1..]);
      NewlinesConcat(ls[0] + "\n", Unlines(ls[1..]));
    }
  }

  /** The header's lines, without their terminators. */
  const HeaderLines: seq<string> := ["package main", "", "import (", "\"fmt\"", ")", "", "func main() {"]

  lemma HeaderIsLines()
    ensures Header == Unlines(HeaderLines)
  {
  }

  /** The header is seven lines. */
  lemma HeaderLineCount()
    ensures Newlines(Header) == 7
  {
    var ls := HeaderLines;
    assert '\n' !in ls[0] && '\n' !in ls[1] && '\n' !in ls[2] && '\n' !in ls[3];
    assert '\n' !in ls[4] && '\n' !in ls[5] && '\n' !in ls[6];
    UnlinesCount(ls);
    HeaderIsLines();
  }

  /** The body has two lines per statement. */
  lemma {:induction false} BodyLineCount(ss: seq<Statement>)
    requires forall i :: 0 <= i < |ss| ==> WellFormedStatement(ss[i])
    ensures Newlines(Body(ss)) == 2 * |ss|
  {
    if ss != [] {
      StatementIsTwoLines(ss[0]);
      BodyLineCount(ss[1..]);
      assert multiset(Body(ss)) == multiset(StatementText(ss[0])) + multiset(Body(ss[1..]));
    }
  }

  /** The whole program: seven header lines, two per statement, one closing. */
  lemma ProgramLineCount(p: Program)
    requires WellFormedProgram(p)
    ensures Newlines(ProgramText(p)) == 8 + 2 * |p.statements|
  {
    BodyLineCount(p.statements);
    HeaderLineCount();
    assert multiset(ProgramText(p)) == multiset(Header) + multiset(Body(p.statements)) + multiset(Footer);
  }

  /** Every program opens with the header and closes with the footer. */
  lemma ProgramFraming(p: Program)
    ensures Header <= ProgramText(p)
    ensures |Footer| <= |ProgramText(p)|
    ensures ProgramText(p)[|ProgramText(p)| - |Footer|..] == Footer
  {
    var t := ProgramText(p);
    assert t == Header + (Body(p.statements) + Footer);
    assert t[|t| - |Footer|..] == Footer;
  }
}
