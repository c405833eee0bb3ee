/** A reader for the grammar the generator writes. It is the partner of
    rendering: every well-formed program's text reads back as that program
    under the grammar this reader accepts, so rendering loses nothing. */
module Parser {
  import opened Wrappers
  import opened Decimal
  import opened Syntax
  import opened Sequences

  /** Consumes the literal `lit` at the front of `s`. */
  function Expect(lit: string, s: string): (r: Option<string>)
    ensures r.Some? <==> lit <= s
    ensures r.Some? ==> r.value == s[|lit|..]
  {
    if lit <= s then Some(s[|lit|..]) else None
  }

  /** Length of the longest prefix of `s` made of ASCII letters. */
  function LetterRun(s: string): (k: nat)
    ensures k <= |s|
    ensures forall i :: 0 <= i < k ==> IsLetter(s[i])
    ensures k < |s| ==> !IsLetter(s[k])
  {
    if s == [] || !IsLetter(s[0]) then 0 else 1 + LetterRun(s[1..])
  }

  lemma {:induction false} LetterRunOfLetters(w: string, rest: string)
    requires forall i :: 0 <= i < |w| ==> IsLetter(w[i])
    requires rest == [] || !IsLetter(rest[0])
    ensures LetterRun(w + rest) == |w|
  {
    if w != [] {
      assert (w + rest)[1..] == w[1..] + rest;
      LetterRunOfLetters(w[1..], rest);
    }
  }

  /** Exactly six digits: the fraction part of `%f`. */
  function ParseFraction(s: string): (r: Option<(nat, string)>)
    ensures r.Some? ==> 6 <= |s| && r.value.0 < MicrosPerUnit && r.value.1 == s[6..]
  {
    if 6 <= |s| && AllDigits(s[..6]) then
      ValueBound(s[..6]);
      Some((Value(s[..6]), s[6..]))
    else None
  }

  lemma {:induction false} ValueBound(s: string)
    requires AllDigits(s)
    ensures Value(s) < Pow10(|s|)
  {
    if s != [] {
      ValueBound(s[..|s| - 1]);
    }
  }

  /** An int literal, a `%f` float literal or a quoted letter string. */
  function ParseOperand(s: string): (r: Option<(Operand, string)>)
    ensures r.Some? ==> |r.value.1| < |s| && r.value.1 == s[|s| - |r.value.1|..]
  {
    if 0 < |s| && s[0] == '"' then
      var k := LetterRun(s[1..]);
      if 1 + k < |s| && s[1 + k] == '"' then Some((StrLit(s[1..1 + k]), s[2 + k..])) else None
    else
      var w :- ParseNat(s);
      if 0 < |w.1| && w.1[0] == '.' then
        var f :- ParseFraction(w.1[1..]);
        Some((FloatLit(w.0 * MicrosPerUnit + f.0), f.1))
      else
        Some((IntLit(w.0), w.1))
  }

  function ParseOp(s: string): (r: Option<(Op, string)>)
    ensures r.Some? ==> 0 < |s| && r.value.0.Symbol() == s[0] && r.value.1 == s[1..]
  {
    if s == [] then None
    else if s[0] == '+' then Some((Add, s[1..]))
    else if s[0] == '-' then Some((Sub, s[1..]))
    else if s[0] == '*' then Some((Mul, s[1..]))
    else if s[0] == '/' then Some((Div, s[1..]))
    else None
  }

  function ParseIdent(s: string): (r: Option<(nat, string)>)
    ensures r.Some? ==> |r.value.1| < |s| && r.value.1 == s[|s| - |r.value.1|..]
  {
    var r1 :- Expect("a", s);
    ParseNat(r1)
  }

  /** `<lhs> <op> <rhs>`: the right-hand side of a binding. */
  function ParseExpr(s: string): (r: Option<(Operand, Op, Operand, string)>)
    ensures r.Some? ==> |r.value.3| < |s|
  {
    var lhs :- ParseOperand(s);
    var r1 :- Expect(" ", lhs.1);
    var op :- ParseOp(r1);
    var r2 :- Expect(" ", op.1);
    var rhs :- ParseOperand(r2);
    Some((lhs.0, op.0, rhs.0, rhs.1))
  }

  /** A binding line `a<k> := <expr>`, with its newline. */
  function ParseBinding(s: string): (r: Option<(nat, Operand, Op, Operand, string)>)
    ensures r.Some? ==> |r.value.4| < |s|
  {
    var b :- ParseIdent(s);
    var r1 :- Expect(" := ", b.1);
    var e :- ParseExpr(r1);
    var r2 :- Expect("\n", e.3);
    Some((b.0, e.0, e.1, e.2, r2))
  }

  /** A print line `fmt.Println(a<k>)`, with its newline. */
  function ParsePrint(s: string): (r: Option<(nat, string)>)
    ensures r.Some? ==> |r.value.1| < |s|
  {
    var r1 :- Expect("fmt.Println(", s);
    var p :- ParseIdent(r1);
    var r2 :- Expect(")\n", p.1);
    Some((p.0, r2))
  }

  /** A binding line followed by a print line. */
  function ParseStatement(s: string): (r: Option<(Statement, string)>)
    ensures r.Some? ==> |r.value.1| < |s|
  {
    var b :- ParseBinding(s);
    var p :- ParsePrint(b.4);
    Some((Statement(b.0, b.1, b.2, b.3, p.0), p.1))
  }

  /** Statements up to the closing footer, which must end the text. */
  function ParseStatements(s: string): Option<seq<Statement>>
    decreases |s|
  {
    if s == Footer then Some([])
    else
      var st :- ParseStatement(s);
      var more :- ParseStatements(st.1);
      Some([st.0] + more)
  }

  function ParseProgram(text: string): Option<Program> {
    var body :- Expect(Header, text);
    var ss :- ParseStatements(body);
    Some(Program(ss))
  }

  lemma ExpectLiteral(lit: string, rest: string)
    ensures Expect(lit, lit + rest) == Some(rest)
  {
    assert lit <= lit + rest;
    assert (lit + rest)[|lit|..] == rest;
  }

  lemma ParseIntInverse(n: nat, rest: string)
    requires 0 < |rest| && !IsDigit(rest[0]) && rest[0] != '.'
    ensures ParseOperand(OperandText(IntLit(n)) + rest) == Some((IntLit(n), rest))
  {
    ParseDec(n, rest);
  }

  lemma ParseFloatInverse(m: nat, rest: string)
    requires 0 < |rest| && !IsDigit(rest[0])
    ensures ParseOperand(OperandText(FloatLit(m)) + rest) == Some((FloatLit(m), rest))
  {
    var q, f := m / MicrosPerUnit, m % MicrosPerUnit;
    var frac := Fixed(f, 6);
    var after := "." + frac + rest;
    assert OperandText(FloatLit(m)) + rest == Dec(q) + after;
    ParseDec(q, after);
    FractionSlices(frac, rest);
    ValueOfFixed(f, 6);
  }

  /** The six fraction digits after the point, and what follows them. */
  lemma FractionSlices(frac: string, rest: string)
    requires |frac| == 6
    ensures ("." + frac + rest)[1..] == frac + rest
    ensures (frac + rest)[..6] == frac && (frac + rest)[6..] == rest
  {
    assert ("." + frac + rest)[1..] == frac + rest;
  }

  lemma ParseStringInverse(w: string, rest: string)
    requires forall i :: 0 <= i < |w| ==> IsLetter(w[i])
    ensures ParseOperand(OperandText(StrLit(w)) + rest) == Some((StrLit(w), rest))
  {
    var s := OperandText(StrLit(w)) + rest;
    assert s == "\"" + (w + ("\"" + rest));
    assert s[1..] == w + ("\"" + rest);
    LetterRunOfLetters(w, "\"" + rest);
    assert s[1..1 + |w|] == w;
    assert s[2 + |w|..] == rest;
  }

  /** An operand reads back from its text when something that cannot
      continue a number follows it. */
  lemma ParseOperandInverse(o: Operand, rest: string)
    requires WellFormedOperand(o)
    requires 0 < |rest| && !IsDigit(rest[0]) && rest[0] != '.'
    ensures ParseOperand(OperandText(o) + rest) == Some((o, rest))
  {
    match o
    case IntLit(n) => ParseIntInverse(n, rest);
    case FloatLit(m) => ParseFloatInverse(m, rest);
    case StrLit(w) => ParseStringInverse(w, rest);
  }

  lemma ParseIdentInverse(k: nat, rest: string)
    requires 0 < |rest| && !IsDigit(rest[0])
    ensures ParseIdent("a" + Dec(k) + rest) == Some((k, rest))
  {
    ExpectLiteral("a", Dec(k) + rest);
    assert "a" + Dec(k) + rest == "a" + (Dec(k) + rest);
    ParseDec(k, rest);
  }

  lemma ExprTextSplit(x: string, c: char, y: string, rest: string)
    ensures x + " " + [c] + " " + y + rest == x + (" " + ([c] + (" " + (y + rest))))
  {
  }

  lemma ParseExprInverse(s: Statement, rest: string)
    requires WellFormedStatement(s)
    requires 0 < |rest| && !IsDigit(rest[0]) && rest[0] != '.'
    ensures ParseExpr(OperandText(s.lhs) + " " + [s.op.Symbol()] + " " + OperandText(s.rhs) + rest)
      == Some((s.lhs, s.op, s.rhs, rest))
  {
    var x, y := OperandText(s.lhs), OperandText(s.rhs);
    var t2 := " " + (y + rest);
    var t1 := " " + ([s.op.Symbol()] + t2);
    ExprTextSplit(x, s.op.Symbol(), y, rest);
    ParseOperandInverse(s.lhs, t1);
    ExpectLiteral(" ", [s.op.Symbol()] + t2);
    assert ParseOp([s.op.Symbol()] + t2) == Some((s.op, t2));
    ExpectLiteral(" ", y + rest);
    ParseOperandInverse(s.rhs, rest);
  }

  lemma BindingTextSplit(k: string, x: string, c: char, y: string, rest: string)
    ensures "a" + k + " := " + x + " " + [c] + " " + y + "\n" + rest
      == "a" + k + (" := " + ((x + " " + [c] + " " + y) + ("\n" + rest)))
  {
  }

  lemma ParseBindingInverse(s: Statement, rest: string)
    requires WellFormedStatement(s)
    ensures ParseBinding(BindingLine(s) + rest) == Some((s.bound, s.lhs, s.op, s.rhs, rest))
  {
    var e := OperandText(s.lhs) + " " + [s.op.Symbol()] + " " + OperandText(s.rhs);
    BindingTextSplit(Dec(s.bound), OperandText(s.lhs), s.op.Symbol(), OperandText(s.rhs), rest);
    ParseIdentInverse(s.bound, " := " + (e + ("\n" + rest)));
    ExpectLiteral(" := ", e + ("\n" + rest));
    assert e + ("\n" + rest) == OperandText(s.lhs) + " " + [s.op.Symbol()] + " " + OperandText(s.rhs) + ("\n" + rest);
    ParseExprInverse(s, "\n" + rest);
    ExpectLiteral("\n", rest);
  }

  lemma ParsePrintInverse(s: Statement, rest: string)
    ensures ParsePrint(PrintLine(s) + rest) == Some((s.printed, rest))
  {
    assert PrintLine(s) + rest == "fmt.Println(" + ("a" + Dec(s.printed) + (")\n" + rest));
    ExpectLiteral("fmt.Println(", "a" + Dec(s.printed) + (")\n" + rest));
    ParseIdentInverse(s.printed, ")\n" + rest);
    ExpectLiteral(")\n", rest);
  }

  /** A statement reads back from its two lines. */
  lemma ParseStatementInverse(s: Statement, rest: string)
    requires WellFormedStatement(s)
    ensures ParseStatement(StatementText(s) + rest) == Some((s, rest))
  {
    assert StatementText(s) + rest == BindingLine(s) + (PrintLine(s) + rest);
    ParseBindingInverse(s, PrintLine(s) + rest);
    ParsePrintInverse(s, rest);
  }

  /** A nonempty body starts with its first statement, whose identifier
      keeps it apart from the footer. */
  lemma BodyCons(ss: seq<Statement>)
    requires ss != []
    ensures Body(ss) + Footer == StatementText(ss[0]) + (Body(ss[1..]) + Footer)
    ensures Body(ss) + Footer != Footer
  {
    var t := StatementText(ss[0]);
    assert Body(ss) == t + Body(ss[1..]);
    assert t[0] == 'a';
    assert (Body(ss) + Footer)[0] == t[0];
  }

  lemma {:induction false} ParseStatementsInverse(ss: seq<Statement>)
    requires forall i :: 0 <= i < |ss| ==> WellFormedStatement(ss[i])
    ensures ParseStatements(Body(ss) + Footer) == Some(ss)
  {
    if ss != [] {
      var tail := Body(ss[1..]) + Footer;
      BodyCons(ss);
      ParseStatementInverse(ss[0], tail);
      ParseStatementsInverse(ss[1..]);
      HeadTail(ss);
    }
  }

  /** Read-back: the text of a well-formed program reads back as
      exactly that program. */
  lemma ParseProgramInverse(p: Program)
    requires forall i :: 0 <= i < |p.statements| ==> WellFormedStatement(p.statements[i])
    ensures ParseProgram(ProgramText(p)) == Some(p)
  {
    ExpectLiteral(Header, Body(p.statements) + Footer);
    assert ProgramText(p) == Header + (Body(p.statements) + Footer);
    ParseStatementsInverse(p.statements);
  }

  /** Rendering is injective on well-formed programs: two programs with the
      same text are the same program. */
  lemma ProgramTextInjective(p: Program, q: Program)
    requires WellFormedProgram(p) && WellFormedProgram(q)
    ensures ProgramText(p) == ProgramText(q) <==> p == q
  {
    if ProgramText(p) == ProgramText(q) {
      ParseProgramInverse(p);
      ParseProgramInverse(q);
    }
  }
}
