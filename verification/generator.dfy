/** The program generator, as pure functions of the stream of random draws.
    Draws are taken in the order the source makes its `rand` calls; Go
    evaluates the arguments of `Sprintf` left to right. Each function reads
    from a position `at` of the stream and reports where the next draw is. */
module Generator {
  import opened Wrappers
  import opened Decimal
  import opened RandomSource
  import opened Syntax
  import opened Sequences

  /** From position `at`, `src` offers draw by draw values below the given
      bounds. */
  predicate Fits(src: seq<nat>, at: nat, bounds: seq<nat>) {
    at + |bounds| <= |src| && forall i :: 0 <= i < |bounds| ==> src[at + i] < bounds[i]
  }

  lemma FitsAppend(src: seq<nat>, at: nat, a: seq<nat>, b: seq<nat>)
    ensures Fits(src, at, a + b) <==> Fits(src, at, a) && Fits(src, at + |a|, b)
  {
    if Fits(src, at, a) && Fits(src, at + |a|, b) {
      forall i | 0 <= i < |a + b|
        ensures src[at + i] < (a + b)[i]
      {
        if i >= |a| {
          assert src[at + |a| + (i - |a|)] < b[i - |a|];
        }
      }
    }
    if Fits(src, at, a + b) {
      forall i | 0 <= i < |a|
        ensures src[at + i] < a[i]
      {
        assert (a + b)[i] == a[i];
      }
      forall i | 0 <= i < |b|
        ensures src[at + |a| + i] < b[i]
      {
        assert (a + b)[|a| + i] == b[i];
      }
    }
  }

  /** The letters that the letter draws `ds` pick. */
  function Spell(ds: seq<nat>): (s: string)
    requires forall i :: 0 <= i < |ds| ==> ds[i] < |Letters|
    ensures |s| == |ds|
    ensures forall i :: 0 <= i < |s| ==> IsLetter(s[i])
  {
    LettersLayout();
    seq(|ds|, i requires 0 <= i < |ds| => Letters[ds[i]])
  }

  /** `randomString(n)`: one `rand.Intn(52)` per character, first to last. */
  function RandomString(src: seq<nat>, at: nat, n: nat): (r: Option<Drawn<string>>)
    ensures r.Some? ==> r.value.next == at + n && |r.value.value| == n
    ensures r.Some? && n > 0 ==> at + n <= |src| && forall i :: at <= i < at + n ==> src[i] < |Letters|
    ensures r.Some? && n > 0 ==> r.value.value == Spell(src[at..at + n])
    decreases n
  {
    if n == 0 then Some(Drawn([], at))
    else
      var c :- Intn(src, at, |Letters|);
      var t :- RandomString(src, c.next, n - 1);
      assert n > 1 ==> Spell(src[at..at + n]) == [Letters[c.value]] + Spell(src[at + 1..at + n]);
      Some(Drawn([Letters[c.value]] + t.value, t.next))
  }

  /** `randomString(n)` fails exactly when the stream runs out or offers a
      draw outside the alphabet. */
  lemma {:induction false} RandomStringDefined(src: seq<nat>, at: nat, n: nat)
    requires at <= |src|
    ensures RandomString(src, at, n).Some? <==> Fits(src, at, seq(n, _ => |Letters|))
    decreases n
  {
    var bounds := seq(n, _ => |Letters|);
    if n > 0 && Fits(src, at, bounds) {
      assert src[at + 0] < bounds[0];
      assert Intn(src, at, |Letters|) == Some(Drawn(src[at], at + 1));
      var tail := seq(n - 1, _ => |Letters|);
      assert Fits(src, at + 1, tail) by {
        forall i | 0 <= i < n - 1
          ensures src[at + 1 + i] < tail[i]
        {
          assert src[at + (i + 1)] < bounds[i + 1];
        }
      }
      RandomStringDefined(src, at + 1, n - 1);
    }
  }

  /** A generated string has the requested length and only ASCII letters,
      so it never holds a quote or a backslash and needs no escaping. */
  lemma RandomStringIsLetters(src: seq<nat>, at: nat, n: nat)
    requires RandomString(src, at, n).Some?
    ensures |RandomString(src, at, n).value.value| == n
    ensures forall i :: 0 <= i < n ==> IsLetter(RandomString(src, at, n).value.value[i])
    ensures '"' !in RandomString(src, at, n).value.value && '\\' !in RandomString(src, at, n).value.value
  {
  }

  /** How many draws one operand of a statement of this kind takes. */
  function OperandWidth(kind: Kind): nat {
    if kind == StringKind then StringLength else 1
  }

  /** How many draws the operands of a statement of this kind take. */
  function OperandDrawCount(kind: Kind): nat {
    2 * OperandWidth(kind)
  }

  /** The draws that follow the identifier of a statement of this kind. */
  function OperandBounds(kind: Kind): (b: seq<nat>)
    ensures |b| == OperandDrawCount(kind)
  {
    match kind
    case IntKind => [IntOperandBound, IntOperandBound]
    case FloatKind => [MaxFloatMicros + 1, MaxFloatMicros + 1]
    case StringKind => seq(2 * StringLength, _ => |Letters|)
  }

  /** All the draws of one statement: kind, operator, identifier, operands,
      printed identifier. */
  function StatementBounds(kind: Kind): seq<nat> {
    [|Kinds|, |Operators|, IdSpace] + OperandBounds(kind) + [IdSpace]
  }

  /** The two operands of a statement and the operator written between
      them. The string case writes `+` whatever `op` was drawn. */
  function DrawOperands(kind: Kind, op: Op, src: seq<nat>, at: nat): (r: Option<Drawn<(Operand, Op, Operand)>>)
    ensures r.Some? ==> at + OperandDrawCount(kind) <= |src| && r.value.next == at + OperandDrawCount(kind)
    ensures r.Some? ==> r.value.value.1 == (if kind == StringKind then Add else op)
    ensures r.Some? && kind == IntKind ==>
      && src[at] < IntOperandBound && src[at + 1] < IntOperandBound
      && r.value.value.0 == IntLit(src[at]) && r.value.value.2 == IntLit(src[at + 1])
    ensures r.Some? && kind == FloatKind ==>
      && src[at] <= MaxFloatMicros && src[at + 1] <= MaxFloatMicros
      && r.value.value.0 == FloatLit(src[at]) && r.value.value.2 == FloatLit(src[at + 1])
    ensures r.Some? && kind == StringKind ==>
      && (forall i :: at <= i < at + 2 * StringLength ==> src[i] < |Letters|)
      && r.value.value.0 == StrLit(Spell(src[at..at + StringLength]))
      && r.value.value.2 == StrLit(Spell(src[at + StringLength..at + 2 * StringLength]))
  {
    match kind
    case IntKind =>
      var x :- Intn(src, at, IntOperandBound);
      var y :- Intn(src, x.next, IntOperandBound);
      Some(Drawn((IntLit(x.value), op, IntLit(y.value)), y.next))
    case FloatKind =>
      var x :- Intn(src, at, MaxFloatMicros + 1);
      var y :- Intn(src, x.next, MaxFloatMicros + 1);
      Some(Drawn((FloatLit(x.value), op, FloatLit(y.value)), y.next))
    case StringKind =>
      var x :- RandomString(src, at, StringLength);
      var y :- RandomString(src, x.next, StringLength);
      Some(Drawn((StrLit(x.value), Add, StrLit(y.value)), y.next))
  }

  /** Operands are drawn exactly when the next draws fit their bounds. */
  lemma DrawOperandsDefined(kind: Kind, op: Op, src: seq<nat>, at: nat)
    ensures DrawOperands(kind, op, src, at).Some? <==> Fits(src, at, OperandBounds(kind))
  {
    match kind
    case IntKind =>
      var ob := OperandBounds(kind);
      assert ob[0] == IntOperandBound && ob[1] == IntOperandBound;
      if at + 2 <= |src| {
        assert src[at + 0] == src[at];
        assert Intn(src, at, IntOperandBound).Some? ==> Intn(src, at, IntOperandBound) == Some(Drawn(src[at], at + 1));
      }
    case FloatKind =>
      var ob := OperandBounds(kind);
      assert ob[0] == MaxFloatMicros + 1 && ob[1] == MaxFloatMicros + 1;
      if at + 2 <= |src| {
        assert src[at + 0] == src[at];
        assert Intn(src, at, MaxFloatMicros + 1).Some? ==> Intn(src, at, MaxFloatMicros + 1) == Some(Drawn(src[at], at + 1));
      }
    case StringKind =>
      var letters := seq(StringLength, _ => |Letters|);
      assert OperandBounds(kind) == letters + letters;
      FitsAppend(src, at, letters, letters);
      if at <= |src| {
        RandomStringDefined(src, at, StringLength);
      }
      if at + StringLength <= |src| {
        RandomStringDefined(src, at + StringLength, StringLength);
      }
  }

  lemma StatementFits(src: seq<nat>, at: nat, kind: Kind)
    ensures Fits(src, at, StatementBounds(kind)) <==>
      && at + 3 + |OperandBounds(kind)| < |src|
      && src[at] < |Kinds| && src[at + 1] < |Operators| && src[at + 2] < IdSpace
      && Fits(src, at + 3, OperandBounds(kind))
      && src[at + 3 + |OperandBounds(kind)|] < IdSpace
  {
    var ob := OperandBounds(kind);
    var head := [|Kinds|, |Operators|, IdSpace];
    assert StatementBounds(kind) == head + (ob + [IdSpace]);
    FitsAppend(src, at, head, ob + [IdSpace]);
    FitsAppend(src, at + 3, ob, [IdSpace]);
    if at + 3 <= |src| {
      assert head[0] == |Kinds| && head[1] == |Operators| && head[2] == IdSpace;
      assert src[at + 0] == src[at];
      if src[at] < |Kinds| && src[at + 1] < |Operators| && src[at + 2] < IdSpace {
        forall i | 0 <= i < 3
          ensures src[at + i] < head[i]
        {
          // An empty case split: each branch fixes `i`, so the solver
          // matches `src[at + i]` against one of the three facts above.
          if i == 0 {
          } else if i == 1 {
          } else {
          }
        }
      }
    }
    if at + 3 + |ob| < |src| {
      assert [IdSpace][0] == IdSpace;
      assert src[at + 3 + |ob| + 0] == src[at + 3 + |ob|];
    }
  }

  /** `generateRandomStatement`, as the statement it chooses: kind,
      operator, bound identifier, operands, printed identifier. */
  function DrawStatement(src: seq<nat>, at: nat): (r: Option<Drawn<Statement>>)
    ensures r.Some? ==> at + 3 < |src| && src[at] < |Kinds| && src[at + 1] < |Operators|
    ensures r.Some? ==> r.value.next == at + 4 + OperandDrawCount(Kinds[src[at]]) <= |src|
    ensures r.Some? ==> WellFormedStatement(r.value.value)
    ensures r.Some? ==> r.value.value.Kind() == Kinds[src[at]]
    ensures r.Some? ==> r.value.value.bound == src[at + 2]
    ensures r.Some? ==> r.value.value.printed == src[r.value.next - 1]
    ensures r.Some? ==> r.value.value.op == (if Kinds[src[at]] == StringKind then Add else Operators[src[at + 1]])
  {
    var k :- Intn(src, at, |Kinds|);
    var o :- Intn(src, k.next, |Operators|);
    var id :- Intn(src, o.next, IdSpace);
    var e :- DrawOperands(Kinds[k.value], Operators[o.value], src, id.next);
    var p :- Intn(src, e.next, IdSpace);
    Some(Drawn(Statement(id.value, e.value.0, e.value.1, e.value.2, p.value), p.next))
  }

  /** The operands of a drawn statement are the operands drawn after its
      identifier, as `DrawOperands` chooses them. */
  lemma DrawStatementOperands(src: seq<nat>, at: nat)
    requires DrawStatement(src, at).Some?
    ensures var d := DrawStatement(src, at).value;
      DrawOperands(Kinds[src[at]], Operators[src[at + 1]], src, at + 3) == Some(Drawn((d.value.lhs, d.value.op, d.value.rhs), d.next - 1))
  {
    assert Intn(src, at, |Kinds|) == Some(Drawn(src[at], at + 1));
    assert Intn(src, at + 1, |Operators|) == Some(Drawn(src[at + 1], at + 2));
    assert Intn(src, at + 2, IdSpace) == Some(Drawn(src[at + 2], at + 3));
  }

  /** A statement is drawn exactly when every one of its draws is in range. */
  lemma DrawStatementDefined(src: seq<nat>, at: nat)
    ensures DrawStatement(src, at).Some? <==> at < |src| && src[at] < |Kinds| && Fits(src, at, StatementBounds(Kinds[src[at]]))
  {
    if at < |src| && src[at] < |Kinds| {
      var kind := Kinds[src[at]];
      StatementFits(src, at, kind);
      if Fits(src, at, StatementBounds(kind)) {
        var ob := OperandBounds(kind);
        DrawOperandsDefined(kind, Operators[src[at + 1]], src, at + 3);
        assert Intn(src, at, |Kinds|) == Some(Drawn(src[at], at + 1));
        assert Intn(src, at + 1, |Operators|) == Some(Drawn(src[at + 1], at + 2));
        assert Intn(src, at + 2, IdSpace) == Some(Drawn(src[at + 2], at + 3));
        var e := DrawOperands(kind, Operators[src[at + 1]], src, at + 3);
        assert e.Some? && e.value.next == at + 3 + |ob|;
        assert Intn(src, at + 3 + |ob|, IdSpace).Some?;
      } else if DrawStatement(src, at).Some? {
        DrawStatementOperands(src, at);
        DrawOperandsDefined(kind, Operators[src[at + 1]], src, at + 3);
      }
    }
  }

  /** `generateRandomStatement`: the text of the chosen statement. */
  function GenerateRandomStatement(src: seq<nat>, at: nat): (r: Option<Drawn<string>>)
    ensures r.Some? <==> DrawStatement(src, at).Some?
    ensures r.Some? ==> r.value.next == DrawStatement(src, at).value.next
  {
    var d :- DrawStatement(src, at);
    Some(Drawn(StatementText(d.value), d.next))
  }

  /** The text of an int or float statement, as the source's format
      string lays it out. */
  lemma NumericStatementText(s: Statement, x: string, y: string)
    requires x == OperandText(s.lhs) && y == OperandText(s.rhs)
    ensures StatementText(s) == "a" + Dec(s.bound) + " := " + x + " " + [s.op.Symbol()] + " " + y + "\n"
      + "fmt.Println(a" + Dec(s.printed) + ")\n"
  {
  }

  /** The text of a string statement, as the source's format string lays
      it out. */
  lemma StringStatementText(s: Statement, x: string, y: string)
    requires s.lhs == StrLit(x) && s.rhs == StrLit(y) && s.op == Add
    ensures StatementText(s) == "a" + Dec(s.bound) + " := \"" + x + "\" + \"" + y + "\"\n"
      + "fmt.Println(a" + Dec(s.printed) + ")\n"
  {
    assert [s.op.Symbol()] == "+";
    assert BindingLine(s) == "a" + Dec(s.bound) + " := \"" + x + "\" + \"" + y + "\"\n";
  }

  /** An int statement: each draw lands where the source's format string
      puts it. */
  lemma GeneratedIntStatement(src: seq<nat>, at: nat)
    requires GenerateRandomStatement(src, at).Some? && Kinds[src[at]] == IntKind
    ensures GenerateRandomStatement(src, at).value.value
      == "a" + Dec(src[at + 2]) + " := " + Dec(src[at + 3]) + " " + [Operators[src[at + 1]].Symbol()] + " " + Dec(src[at + 4]) + "\n"
        + "fmt.Println(a" + Dec(src[at + 5]) + ")\n"
  {
    var s := DrawStatement(src, at).value.value;
    DrawStatementOperands(src, at);
    NumericStatementText(s, Dec(src[at + 3]), Dec(src[at + 4]));
  }

  /** A float statement: each draw lands where the source's format string
      puts it. */
  lemma GeneratedFloatStatement(src: seq<nat>, at: nat)
    requires GenerateRandomStatement(src, at).Some? && Kinds[src[at]] == FloatKind
    ensures GenerateRandomStatement(src, at).value.value
      == "a" + Dec(src[at + 2]) + " := " + FloatText(src[at + 3]) + " " + [Operators[src[at + 1]].Symbol()] + " " + FloatText(src[at + 4]) + "\n"
        + "fmt.Println(a" + Dec(src[at + 5]) + ")\n"
  {
    var s := DrawStatement(src, at).value.value;
    DrawStatementOperands(src, at);
    NumericStatementText(s, FloatText(src[at + 3]), FloatText(src[at + 4]));
  }

  /** A string statement: two five-letter literals joined by `+`, whatever
      operator was drawn. */
  lemma GeneratedStringStatement(src: seq<nat>, at: nat)
    requires GenerateRandomStatement(src, at).Some? && Kinds[src[at]] == StringKind
    ensures forall i :: at + 3 <= i < at + 13 ==> src[i] < |Letters|
    ensures GenerateRandomStatement(src, at).value.value
      == "a" + Dec(src[at + 2]) + " := \"" + Spell(src[at + 3..at + 8]) + "\" + \"" + Spell(src[at + 8..at + 13]) + "\"\n"
        + "fmt.Println(a" + Dec(src[at + 13]) + ")\n"
  {
    var s := DrawStatement(src, at).value.value;
    DrawStatementOperands(src, at);
    StringStatementText(s, Spell(src[at + 3..at + 8]), Spell(src[at + 8..at + 13]));
  }

  /** The statements of a program, drawn one after another. */
  function DrawStatements(src: seq<nat>, at: nat, count: nat): (r: Option<Drawn<seq<Statement>>>)
    ensures r.Some? ==> |r.value.value| == count && at <= r.value.next
    ensures r.Some? ==> forall i :: 0 <= i < count ==> WellFormedStatement(r.value.value[i])
    decreases count
  {
    if count == 0 then Some(Drawn([], at))
    else
      var s :- DrawStatement(src, at);
      var t :- DrawStatements(src, s.next, count - 1);
      Some(Drawn([s.value] + t.value, t.next))
  }

  /** `generateRandomProgram`, as the program it chooses: first the
      statement count, then the statements. */
  function DrawProgram(src: seq<nat>): (r: Option<Drawn<Program>>)
    ensures r.Some? ==> 0 < |src| && WellFormedProgram(r.value.value)
    ensures r.Some? ==> |r.value.value.statements| == src[0] + MinStatements
    ensures 0 < |src| && src[0] > MaxStatements - MinStatements ==> r.None?
  {
    var c :- Intn(src, 0, MaxStatements - MinStatements + 1);
    var ss :- DrawStatements(src, c.next, c.value + MinStatements);
    Some(Drawn(Program(ss.value), ss.next))
  }

  /** The loop of `generateRandomProgram`: `count` statement texts, each
      generated from where the previous one stopped. */
  function WriteStatements(src: seq<nat>, at: nat, count: nat): (r: Option<Drawn<string>>)
    ensures r.Some? <==> DrawStatements(src, at, count).Some?
    ensures r.Some? ==> r.value.value == Body(DrawStatements(src, at, count).value.value)
    ensures r.Some? ==> r.value.next == DrawStatements(src, at, count).value.next
    decreases count
  {
    if count == 0 then Some(Drawn([], at))
    else
      var st :- GenerateRandomStatement(src, at);
      var more :- WriteStatements(src, st.next, count - 1);
      var ss := DrawStatements(src, at, count).value.value;
      assert ss[1..] == DrawStatements(src, st.next, count - 1).value.value;
      Some(Drawn(st.value + more.value, more.next))
  }

  /** `generateRandomProgram`: the header, the statements, the closing
      brace. The text is the rendering of the program `DrawProgram`
      chooses from the same draws. */
  function GenerateRandomProgram(src: seq<nat>): (r: Option<Drawn<string>>)
    ensures r.Some? <==> DrawProgram(src).Some?
    ensures r.Some? ==> r.value.value == ProgramText(DrawProgram(src).value.value)
    ensures r.Some? ==> r.value.next == DrawProgram(src).value.next
  {
    var c :- Intn(src, 0, MaxStatements - MinStatements + 1);
    var body :- WriteStatements(src, c.next, c.value + MinStatements);
    Some(Drawn(Header + body.value + Footer, body.next))
  }

  /** The shape of a generated file: it opens with the header, closes with
      the footer, and has two lines per statement besides the eight of the
      framing, for a statement count drawn between the two limits. */
  lemma GeneratedProgramShape(src: seq<nat>)
    ensures GenerateRandomProgram(src).Some? ==>
      var text := GenerateRandomProgram(src).value.value;
      && 0 < |src| && MinStatements <= src[0] + MinStatements <= MaxStatements
      && Header <= text
      && text[|text| - |Footer|..] == Footer
      && Newlines(text) == 8 + 2 * (src[0] + MinStatements)
  {
    if GenerateRandomProgram(src).Some? {
      var p := DrawProgram(src).value.value;
      ProgramLineCount(p);
      ProgramFraming(p);
    }
  }

  /** For the string kind the operator draw is consumed but has no effect. */
  lemma StringIgnoresOperatorDraw(src: seq<nat>, at: nat, other: nat)
    requires at + 1 < |src| && src[at] < |Kinds| && Kinds[src[at]] == StringKind
    requires src[at + 1] < |Operators| && other < |Operators|
    ensures DrawStatement(src[at + 1 := other], at) == DrawStatement(src, at)
  {
    var src' := src[at + 1 := other];
    var ob := OperandBounds(StringKind);
    DrawStatementDefined(src, at);
    DrawStatementDefined(src', at);
    StatementFits(src, at, StringKind);
    StatementFits(src', at, StringKind);
    assert forall i :: at + 2 <= i < |src| ==> src'[i] == src[i];
    if at + 3 + |ob| < |src| {
      assert Fits(src', at + 3, ob) <==> Fits(src, at + 3, ob);
    }
    if DrawStatement(src, at).Some? {
      DrawStatementOperands(src, at);
      DrawStatementOperands(src', at);
      DrawOperandsAgree(StringKind, Operators[src[at + 1]], src, src', at + 3);
    }
  }

  /** The printed identifier is a draw of its own: changing only that draw
      changes only the printed identifier. */
  lemma PrintedIdIsFreshDraw(src: seq<nat>, at: nat, k: nat)
    requires DrawStatement(src, at).Some?
    requires k < IdSpace
    ensures var d := DrawStatement(src, at).value;
      DrawStatement(src[d.next - 1 := k], at) == Some(Drawn(d.value.(printed := k), d.next))
  {
    var d := DrawStatement(src, at).value;
    var kind := Kinds[src[at]];
    var n := OperandDrawCount(kind);
    var src' := src[d.next - 1 := k];
    DrawStatementOperands(src, at);
    DrawOperandsAgree(kind, Operators[src[at + 1]], src, src', at + 3);
    assert Intn(src', at, |Kinds|) == Some(Drawn(src[at], at + 1));
    assert Intn(src', at + 1, |Operators|) == Some(Drawn(src[at + 1], at + 2));
    assert Intn(src', at + 2, IdSpace) == Some(Drawn(src[at + 2], at + 3));
    assert Intn(src', at + 3 + n, IdSpace) == Some(Drawn(k, d.next));
  }

  /** A random string depends only on the draws it reads. */
  lemma {:induction false} RandomStringAgree(a: seq<nat>, b: seq<nat>, at: nat, n: nat)
    requires at + n <= |a| && at + n <= |b|
    requires forall i :: at <= i < at + n ==> a[i] == b[i]
    ensures RandomString(b, at, n) == RandomString(a, at, n)
    decreases n
  {
    if n > 0 {
      assert a[at] == b[at];
      RandomStringAgree(a, b, at + 1, n - 1);
    }
  }

  /** Drawing operands looks only at the draws it consumes. */
  lemma DrawOperandsAgree(kind: Kind, op: Op, a: seq<nat>, b: seq<nat>, at: nat)
    requires at + OperandDrawCount(kind) <= |a| && at + OperandDrawCount(kind) <= |b|
    requires forall i :: at <= i < at + OperandDrawCount(kind) ==> a[i] == b[i]
    ensures DrawOperands(kind, op, b, at) == DrawOperands(kind, op, a, at)
  {
    match kind
    case IntKind =>
      assert a[at] == b[at] && a[at + 1] == b[at + 1];
    case FloatKind =>
      assert a[at] == b[at] && a[at + 1] == b[at + 1];
    case StringKind =>
      RandomStringAgree(a, b, at, StringLength);
      RandomStringAgree(a, b, at + StringLength, StringLength);
  }

  function KindIndex(k: Kind): (i: nat)
    ensures i < |Kinds| && Kinds[i] == k
  {
    match k
    case IntKind => 0
    case FloatKind => 1
    case StringKind => 2
  }

  function OpIndex(o: Op): (i: nat)
    ensures i < |Operators| && Operators[i] == o
  {
    match o
    case Add => 0
    case Sub => 1
    case Mul => 2
    case Div => 3
  }

  /** The letter draws that spell `s`; a character outside the alphabet,
      which no generated string holds, is given draw 0. */
  function LetterDraws(s: string): (ds: seq<nat>)
    ensures |ds| == |s|
  {
    seq(|s|, i requires 0 <= i < |s| => if IsLetter(s[i]) then LetterIndex(s[i]) else 0)
  }

  /** The draws behind one operand. */
  function OperandDraws(o: Operand): seq<nat>
  {
    match o
    case IntLit(n) => [n]
    case FloatLit(m) => [m]
    case StrLit(s) => LetterDraws(s)
  }

  /** The draws that make `DrawStatement` choose `s`. A string statement
      has its operator draw set to 0; any in-range value would do. */
  function StatementDraws(s: Statement): seq<nat>
  {
    [KindIndex(s.Kind()), OpIndex(s.op), s.bound] + (OperandDraws(s.lhs) + OperandDraws(s.rhs) + [s.printed])
  }

  function StatementsDraws(ss: seq<Statement>): seq<nat>
  {
    if ss == [] then [] else StatementDraws(ss[0]) + StatementsDraws(ss[1..])
  }

  /** The draws that make `DrawProgram` choose `p`. */
  function ProgramDraws(p: Program): seq<nat>
    requires WellFormedProgram(p)
  {
    [|p.statements| - MinStatements] + StatementsDraws(p.statements)
  }

  /** `src` holds the draws `ds` from position `at` on. */
  predicate DrawsAt(src: seq<nat>, at: nat, ds: seq<nat>) {
    at + |ds| <= |src| && src[at..at + |ds|] == ds
  }

  lemma DrawsAtSplit(src: seq<nat>, at: nat, a: seq<nat>, b: seq<nat>)
    requires DrawsAt(src, at, a + b)
    ensures DrawsAt(src, at, a) && DrawsAt(src, at + |a|, b)
  {
    assert src[at..at + |a|] == (a + b)[..|a|];
    assert src[at + |a|..at + |a| + |b|] == (a + b)[|a|..];
  }

  /** From position `at` on, `src` spells `s` draw by draw. */
  predicate LettersAt(src: seq<nat>, at: nat, s: string) {
    at + |s| <= |src| && forall i :: 0 <= i < |s| ==> src[at + i] < |Letters| && Letters[src[at + i]] == s[i]
  }

  /** From position `at` on, `src` holds the draws of operand `o`. */
  predicate OperandAt(src: seq<nat>, at: nat, o: Operand) {
    match o
    case IntLit(n) => at < |src| && src[at] == n
    case FloatLit(m) => at < |src| && src[at] == m
    case StrLit(s) => LettersAt(src, at, s)
  }

  /** From position `at` on, `src` holds the draws of statement `s`: kind,
      operator, identifier, both operands, printed identifier. */
  predicate StatementAt(src: seq<nat>, at: nat, s: Statement) {
    var w := OperandWidth(s.Kind());
    && at + 3 + 2 * w < |src|
    && src[at] == KindIndex(s.Kind()) && src[at + 1] == OpIndex(s.op) && src[at + 2] == s.bound
    && OperandAt(src, at + 3, s.lhs) && OperandAt(src, at + 3 + w, s.rhs)
    && src[at + 3 + 2 * w] == s.printed
  }

  /** How many draws a statement takes. */
  function StatementWidth(s: Statement): nat {
    4 + OperandDrawCount(s.Kind())
  }

  /** A string is read back from draws that spell it. */
  lemma RandomStringInverse(s: string, src: seq<nat>, at: nat)
    requires LettersAt(src, at, s)
    ensures RandomString(src, at, |s|) == Some(Drawn(s, at + |s|))
  {
    RandomStringDefined(src, at, |s|);
    var bounds := seq(|s|, _ => |Letters|);
    assert Fits(src, at, bounds) by {
      forall i | 0 <= i < |s|
        ensures src[at + i] < bounds[i]
      {
        assert src[at + i] < |Letters| && Letters[src[at + i]] == s[i];
        assert bounds[i] == |Letters|;
      }
    }
    if |s| > 0 {
      var w := src[at..at + |s|];
      assert Spell(w) == s by {
        forall i | 0 <= i < |s|
          ensures Spell(w)[i] == s[i]
        {
          assert w[i] == src[at + i];
        }
      }
    }
  }

  lemma DrawOperandsInverse(s: Statement, src: seq<nat>, at: nat)
    requires WellFormedStatement(s)
    requires OperandAt(src, at, s.lhs) && OperandAt(src, at + OperandWidth(s.Kind()), s.rhs)
    ensures DrawOperands(s.Kind(), s.op, src, at) == Some(Drawn((s.lhs, s.op, s.rhs), at + OperandDrawCount(s.Kind())))
  {
    match s.lhs
    case IntLit(x) =>
    case FloatLit(x) =>
    case StrLit(x) =>
      RandomStringInverse(x, src, at);
      RandomStringInverse(s.rhs.s, src, at + StringLength);
  }

  /** Every well-formed statement is chosen by its draws. */
  lemma DrawStatementInverse(s: Statement, src: seq<nat>, at: nat)
    requires WellFormedStatement(s)
    requires StatementAt(src, at, s)
    ensures DrawStatement(src, at) == Some(Drawn(s, at + StatementWidth(s)))
  {
    var e := at + 3 + OperandDrawCount(s.Kind());
    DrawOperandsInverse(s, src, at + 3);
    assert Intn(src, at, |Kinds|) == Some(Drawn(KindIndex(s.Kind()), at + 1));
    assert Intn(src, at + 1, |Operators|) == Some(Drawn(OpIndex(s.op), at + 2));
    assert Intn(src, at + 2, IdSpace) == Some(Drawn(s.bound, at + 3));
    assert Intn(src, e, IdSpace) == Some(Drawn(s.printed, e + 1));
    assert e + 1 == at + StatementWidth(s);
  }

  /** The draws of an operand lay it out. */
  lemma OperandDrawsAt(o: Operand, src: seq<nat>, at: nat)
    requires WellFormedOperand(o)
    requires DrawsAt(src, at, OperandDraws(o))
    ensures OperandAt(src, at, o) && |OperandDraws(o)| == OperandWidth(o.Kind())
  {
    match o
    case IntLit(n) =>
      assert src[at] == src[at..at + 1][0];
    case FloatLit(m) =>
      assert src[at] == src[at..at + 1][0];
    case StrLit(s) =>
      forall i | 0 <= i < |s|
        ensures src[at + i] < |Letters| && Letters[src[at + i]] == s[i]
      {
        assert IsLetter(s[i]);
        assert src[at + i] == src[at..at + |s|][i] == LetterDraws(s)[i] == LetterIndex(s[i]);
      }
  }

  /** The draws of a statement lay it out. */
  lemma StatementDrawsAt(s: Statement, src: seq<nat>, at: nat)
    requires WellFormedStatement(s)
    requires DrawsAt(src, at, StatementDraws(s))
    ensures StatementAt(src, at, s) && |StatementDraws(s)| == StatementWidth(s)
  {
    var ops := OperandDraws(s.lhs) + OperandDraws(s.rhs);
    var head := [KindIndex(s.Kind()), OpIndex(s.op), s.bound];
    DrawsAtSplit(src, at, head, ops + [s.printed]);
    DrawsAtSplit(src, at + 3, ops, [s.printed]);
    DrawsAtSplit(src, at + 3, OperandDraws(s.lhs), OperandDraws(s.rhs));
    OperandDrawsAt(s.lhs, src, at + 3);
    OperandDrawsAt(s.rhs, src, at + 3 + |OperandDraws(s.lhs)|);
    assert src[at] == src[at..at + 3][0] && src[at + 1] == src[at..at + 3][1] && src[at + 2] == src[at..at + 3][2];
    assert src[at + 3 + |ops|] == src[at + 3 + |ops|..at + 3 + |ops| + 1][0];
  }

  /** From position `at` on, `src` holds the draws of each statement of
      `ss` in turn. */
  predicate StatementsAt(src: seq<nat>, at: nat, ss: seq<Statement>)
    decreases |ss|
  {
    ss == [] || (StatementAt(src, at, ss[0]) && StatementsAt(src, at + StatementWidth(ss[0]), ss[1..]))
  }

  /** The position after the draws of `ss`, when they start at `at`. */
  function StatementsEnd(at: nat, ss: seq<Statement>): nat
    decreases |ss|
  {
    if ss == [] then at else StatementsEnd(at + StatementWidth(ss[0]), ss[1..])
  }

  /** The draws of a nonempty list of statements lay out its first
      statement, followed by the draws of the rest. */
  lemma StatementsDrawsHead(ss: seq<Statement>, src: seq<nat>, at: nat)
    requires ss != [] && WellFormedStatement(ss[0])
    requires DrawsAt(src, at, StatementsDraws(ss))
    ensures StatementAt(src, at, ss[0])
    ensures DrawsAt(src, at + StatementWidth(ss[0]), StatementsDraws(ss[1..]))
    ensures |StatementsDraws(ss)| == StatementWidth(ss[0]) + |StatementsDraws(ss[1..])|
  {
    DrawsAtSplit(src, at, StatementDraws(ss[0]), StatementsDraws(ss[1..]));
    StatementDrawsAt(ss[0], src, at);
  }

  /** The concatenated draws of well-formed statements lay out each of
      them in turn. */
  lemma {:induction false} StatementsDrawsAt(ss: seq<Statement>, src: seq<nat>, at: nat)
    requires forall i :: 0 <= i < |ss| ==> WellFormedStatement(ss[i])
    requires DrawsAt(src, at, StatementsDraws(ss))
    ensures StatementsAt(src, at, ss) && StatementsEnd(at, ss) == at + |StatementsDraws(ss)|
  {
    if ss != [] {
      var n := at + StatementWidth(ss[0]);
      StatementsDrawsHead(ss, src, at);
      StatementsDrawsAt(ss[1..], src, n);
      assert n + |StatementsDraws(ss[1..])| == at + |StatementsDraws(ss)|;
    }
  }

  /** `DrawStatements` draws one statement, then the rest of the count. */
  lemma DrawStatementsCons(src: seq<nat>, at: nat, k: nat, s: Statement, n: nat, t: Drawn<seq<Statement>>)
    requires DrawStatement(src, at) == Some(Drawn(s, n))
    requires DrawStatements(src, n, k) == Some(t)
    ensures DrawStatements(src, at, k + 1) == Some(Drawn([s] + t.value, t.next))
  {
  }

  /** Well-formed statements laid out one after another are drawn back. */
  lemma {:induction false} DrawStatementsInverse(ss: seq<Statement>, src: seq<nat>, at: nat)
    requires forall i :: 0 <= i < |ss| ==> WellFormedStatement(ss[i])
    requires StatementsAt(src, at, ss)
    ensures DrawStatements(src, at, |ss|) == Some(Drawn(ss, StatementsEnd(at, ss)))
  {
    if ss != [] {
      var n := at + StatementWidth(ss[0]);
      DrawStatementInverse(ss[0], src, at);
      DrawStatementsInverse(ss[1..], src, n);
      DrawStatementsCons(src, at, |ss[1..]|, ss[0], n, Drawn(ss[1..], StatementsEnd(n, ss[1..])));
      assert |ss[1..]| + 1 == |ss|;
      HeadTail(ss);
    }
  }

  /** `DrawProgram` draws the statement count, then that many statements. */
  lemma DrawProgramCons(src: seq<nat>, count: nat, t: Drawn<seq<Statement>>)
    requires MinStatements <= count
    requires Intn(src, 0, MaxStatements - MinStatements + 1) == Some(Drawn(count - MinStatements, 1))
    requires DrawStatements(src, 1, count) == Some(t)
    ensures DrawProgram(src) == Some(Drawn(Program(t.value), t.next))
  {
  }

  /** The draws of `p` lay out its statement count, then its statements. */
  lemma ProgramDrawsLayout(p: Program, src: seq<nat>)
    requires WellFormedProgram(p)
    requires DrawsAt(src, 0, ProgramDraws(p))
    ensures Intn(src, 0, MaxStatements - MinStatements + 1) == Some(Drawn(|p.statements| - MinStatements, 1))
    ensures StatementsAt(src, 1, p.statements)
    ensures StatementsEnd(1, p.statements) == |ProgramDraws(p)|
  {
    var c := |p.statements| - MinStatements;
    var ds := StatementsDraws(p.statements);
    assert ProgramDraws(p) == [c] + ds;
    DrawsAtSplit(src, 0, [c], ds);
    assert src[0] == src[0..1][0];
    StatementsDrawsAt(p.statements, src, 1);
  }

  /** A stream that starts with the draws of `p` yields `p`. */
  lemma DrawProgramAt(p: Program, src: seq<nat>)
    requires WellFormedProgram(p)
    requires DrawsAt(src, 0, ProgramDraws(p))
    ensures DrawProgram(src) == Some(Drawn(p, |ProgramDraws(p)|))
  {
    ProgramDrawsLayout(p, src);
    DrawStatementsInverse(p.statements, src, 1);
    DrawProgramCons(src, |p.statements|, Drawn(p.statements, StatementsEnd(1, p.statements)));
  }

  /** Every well-formed program is chosen by its draws, whatever follows
      them. */
  lemma DrawProgramInverse(p: Program, rest: seq<nat>)
    requires WellFormedProgram(p)
    ensures DrawProgram(ProgramDraws(p) + rest) == Some(Drawn(p, |ProgramDraws(p)|))
  {
    var src := ProgramDraws(p) + rest;
    assert src[0..|ProgramDraws(p)|] == ProgramDraws(p);
    DrawProgramAt(p, src);
  }

  /** The generator's range is exactly the well-formed programs: whatever
      it draws is well-formed, and every well-formed program is drawn by
      some stream. */
  lemma GeneratorRange(p: Program)
    ensures WellFormedProgram(p) <==> exists src :: DrawProgram(src).Some? && DrawProgram(src).value.value == p
  {
    if WellFormedProgram(p) {
      DrawProgramInverse(p, []);
      assert DrawProgram(ProgramDraws(p) + []).value.value == p;
    }
  }
}
