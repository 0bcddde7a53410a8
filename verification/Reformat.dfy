/** Every program that the front end reads can be printed: writing the tree of any accepted text with one
    space after each token and as few parentheses as needed gives a text that is read to the same tree. */
module Reformat {
  import opened Options
  import opened Syntax
  import opened Decimal
  import opened Parser
  import opened Lexical
  import opened LexicalGrammar
  import opened LexicalRoundTrip
  import opened StatementComplete
  import opened Printer
  import opened ProgramPrinter
  import opened FrontEnd
  import E = EndToEnd

  // ----- what the lexer reads can be written -----

  lemma {:induction false} ScannedWritable(s: string)
    requires Scan(s).Tokens?
    ensures AllWritable(Scan(s).tokens)
    decreases |s|
  {
    hide Next, Writable;
    if s != [] && s[0] != NUL {
      if Next(s).Push? {
        StepWritable(s);
      }
      ScannedWritable(Next(s).rest);
    }
  }

  lemma StepWritable(s: string)
    requires s != [] && s[0] != NUL && Next(s).Push?
    ensures Writable(Next(s).t)
  {
    hide Writable;
    var c := s[0];
    if Single(c).Some? {
      SinglesAre(c);
      MarkIsWritable(Single(c).value);
    } else if Half(c).Some? {
      HalvesAre(c);
      MarkIsWritable(Half(c).value);
      if |s| >= 2 && Double(c, s[1]).Some? {
        DoublesAre(c, s[1]);
        MarkIsWritable(Double(c, s[1]).value);
      }
    } else if IsDigit(c) {
      LiteralIsWritable(Value(Digits(s)));
    } else {
      WordIsWritable(Word(s));
    }
  }

  lemma MarkIsWritable(k: Kind)
    requires Spelling(k) != []
    ensures Writable(Mark(k))
  {
  }

  lemma LiteralIsWritable(n: nat)
    requires n <= INT_MAX
    ensures Writable(Token(NUM, Print(n)))
  {
    hide Print, Value;
    ValueOfPrint(n);
  }

  lemma WordIsWritable(w: string)
    requires IsWord(w)
    ensures Writable(Token(WordKind(w), w))
  {
    hide IsWord;
    KeywordsAgree(w);
  }

  // ----- what the parser builds from such tokens -----

  ghost predicate Shown(e: Expr) {
    Printable(e) && Named(e)
  }

  /** A parse of writable tokens built such a tree and left writable tokens. */
  ghost predicate BuiltShown(r: Option<Parsed<Expr>>) {
    r.Some? ==> Shown(r.value.value) && AllWritable(r.value.rest)
  }

  lemma Later(ts: Tokens, n: nat)
    requires AllWritable(ts) && n <= |ts|
    ensures AllWritable(ts[n..])
  {
    hide Writable;
  }

  lemma First(ts: Tokens)
    requires AllWritable(ts) && ts != []
    ensures ts[0].kind == IDENT ==> IsName(ts[0].text)
    ensures ts[0].kind == TYPE ==> IsType(ts[0].text)
    ensures ts[0].kind == NUM ==> ToInt(ts[0].text).Some? && 0 <= ToInt(ts[0].text).value <= INT_MAX
  {
    hide Print, Value, IsName;
    assert Writable(ts[0]);
  }

  lemma {:induction false} PrimaryShown(ts: Tokens)
    requires AllWritable(ts)
    ensures BuiltShown(Primary(ts))
    decreases |ts|, 0
  {
    hide AllWritable, Expression, Arguments, ToInt, IsName;
    if ts != [] && Primary(ts).Some? {
      First(ts);
      Later(ts, 1);
      if At(ts, IDENT) && ts[1].kind == LPAREN {
        Later(ts, 2);
        ArgumentsShown(ts[2..]);
        Later(Arguments(ts[2..]).value.rest, 1);
      } else if At(ts, LPAREN) {
        ExpressionShown(ts[1..]);
        var rest := Expression(ts[1..]).value.rest;
        if rest != [] {
          Later(rest, 1);
        } else {
          Later(ts, |ts|);
        }
      }
    }
  }

  lemma {:induction false} BinaryShown(k: nat, ts: Tokens)
    requires 1 <= k <= TOP && AllWritable(ts)
    ensures BuiltShown(Binary(k, ts))
    decreases |ts|, 2 * k
  {
    hide AllWritable, Primary, Operators, Shown;
    if k == 1 {
      UnaryShown(ts);
    } else {
      BinaryShown(k - 1, ts);
      var left := Binary(k - 1, ts);
      if left.Some? {
        OperatorsShown(k, left.value.value, left.value.rest);
      }
    }
  }

  lemma UnaryShown(ts: Tokens)
    requires AllWritable(ts)
    ensures BuiltShown(UnaryExpr(ts))
    decreases |ts|, 1
  {
    hide AllWritable, Primary;
    if ts != [] {
      if ts[0].kind == NOT {
        Later(ts, 1);
        PrimaryShown(ts[1..]);
      } else {
        PrimaryShown(ts);
      }
    }
  }

  lemma {:induction false} OperatorsShown(k: nat, left: Expr, ts: Tokens)
    requires 2 <= k <= TOP && AllWritable(ts) && Shown(left)
    ensures BuiltShown(Operators(k, left, ts))
    decreases |ts|, 2 * k - 1
  {
    hide AllWritable, Binary;
    if ts != [] && Level(ts[0].kind) == k {
      Later(ts, 1);
      BinaryShown(k - 1, ts[1..]);
      var right := Binary(k - 1, ts[1..]);
      if right.Some? {
        OperatorsShown(k, Bin(ts[0].kind, left, right.value.value), right.value.rest);
      }
    }
  }

  lemma {:induction false} ExpressionShown(ts: Tokens)
    requires AllWritable(ts)
    ensures BuiltShown(Expression(ts))
    decreases |ts|, 2 * TOP + 1
  {
    hide AllWritable, Binary, IsName;
    if Expression(ts).Some? {
      First(ts);
      if ts[0].kind == IDENT && ts[1].kind == ASSIGN {
        Later(ts, 2);
        ExpressionShown(ts[2..]);
      } else {
        BinaryShown(TOP, ts);
      }
    }
  }

  lemma {:induction false} ArgumentsShown(ts: Tokens)
    requires AllWritable(ts)
    ensures var r := Arguments(ts);
            r.Some? ==> PrintableArgs(r.value.value) && NamedArgs(r.value.value) && AllWritable(r.value.rest)
    decreases |ts|, 2 * TOP + 2
  {
    hide AllWritable, Expression, Printable, Named;
    if Arguments(ts).Some? && ts[0].kind != RPAREN {
      ExpressionShown(ts);
      var e := Expression(ts).value;
      if e.rest[0].kind == COMMA {
        Later(e.rest, 1);
        ArgumentsShown(e.rest[1..]);
        var es := Arguments(e.rest[1..]).value.value;
        assert ([e.value] + es)[1..] == es;
      } else {
        assert [e.value][1..] == [];
      }
    }
  }

  // ----- statements -----

  lemma Expected(ts: Tokens, k: Kind)
    requires AllWritable(ts) && Expect(ts, k).Some?
    ensures AllWritable(Expect(ts, k).value)
  {
    hide AllWritable;
    if ts != [] {
      Later(ts, 1);
    }
  }

  lemma ExpressionToShown(ts: Tokens, k: Kind)
    requires AllWritable(ts)
    ensures BuiltShown(ExpressionTo(ts, k))
  {
    hide AllWritable, Expression, Expect, Shown;
    if ExpressionTo(ts, k).Some? {
      ExpressionShown(ts);
      Expected(Expression(ts).value.rest, k);
    }
  }

  lemma ConditionShown(ts: Tokens)
    requires AllWritable(ts)
    ensures BuiltShown(Condition(ts))
  {
    hide AllWritable, ExpressionTo, Expect, Shown;
    if Condition(ts).Some? {
      Expected(ts, LPAREN);
      ExpressionToShown(Expect(ts, LPAREN).value, RPAREN);
    }
  }

  lemma {:induction false} ConstantsShown(ts: Tokens)
    requires AllWritable(ts)
    ensures var r := Constants(ts);
            r.Some? ==> (forall i :: 0 <= i < |r.value.value| ==> IsName(r.value.value[i])) && AllWritable(r.value.rest)
    decreases |ts|
  {
    hide AllWritable, IsName;
    if Constants(ts).Some? && ts != [] && ts[0].kind != RBRACE {
      First(ts);
      Later(ts, 1);
      if |ts| == 1 {
        ConstantsShown(ts[1..]);
      } else if ts[1].kind == COMMA {
        Later(ts, 2);
        ConstantsShown(ts[2..]);
      }
    }
  }

  ghost predicate BuiltInit(r: Option<Parsed<Stmt>>) {
    r.Some? ==> PrintableInit(r.value.value) && NamedStmt(r.value.value) && AllWritable(r.value.rest)
  }

  lemma DeclarationShown(ts: Tokens)
    requires AllWritable(ts) && DeclarationAt(ts).Some? && DeclarationAt(ts).value != NoDeclaration
    ensures BuiltInit(Declaration(ts))
  {
    hide AllWritable, Expression, Expect, IsName, IsType, Printable, Named;
    First(ts);
    Later(ts, 1);
    First(ts[1..]);
    Later(ts, 3);
    if Declaration(ts).Some? && DeclarationAt(ts).value == Initialised {
      ExpressionShown(ts[3..]);
      Expected(Expression(ts[3..]).value.rest, SEMICOLON);
    }
  }

  lemma InitShown(ts: Tokens)
    requires AllWritable(ts)
    ensures BuiltInit(ForInit(ts))
  {
    hide AllWritable, ExpressionTo, Declaration, Printable, Named;
    if ForInit(ts).Some? {
      if DeclarationAt(ts).value != NoDeclaration {
        DeclarationShown(ts);
      } else {
        ExpressionToShown(ts, SEMICOLON);
      }
    }
  }

  ghost predicate BuiltStmt(r: Option<Parsed<Stmt>>) {
    r.Some? ==> PrintableStmt(r.value.value) && NamedStmt(r.value.value) && AllWritable(r.value.rest)
  }

  lemma EnumShown(ts: Tokens)
    requires AllWritable(ts) && At(ts, ENUM)
    ensures BuiltStmt(EnumDeclaration(ts))
  {
    hide AllWritable, Expect, Constants, IsName;
    if EnumDeclaration(ts).Some? {
      Later(ts, 1);
      First(ts[1..]);
      Later(ts, 2);
      Expected(ts[2..], LBRACE);
      var r1 := Expect(ts[2..], LBRACE).value;
      ConstantsShown(r1);
      var r2 := Constants(r1).value.rest;
      Expected(r2, RBRACE);
      Expected(Expect(r2, RBRACE).value, SEMICOLON);
    }
  }

  lemma {:induction false} StatementShown(ts: Tokens)
    requires AllWritable(ts)
    ensures BuiltStmt(Statement(ts))
    decreases |ts|, 1
  {
    hide AllWritable, Statements, Condition, ExpressionTo, Declaration, EnumDeclaration, ForInit, Printable, Named;
    if Statement(ts).Some? {
      Later(ts, 1);
      if ts[0].kind == WHILE {
        ConditionShown(ts[1..]);
        StatementShown(Condition(ts[1..]).value.rest);
      } else if ts[0].kind == FOR {
        ForShown(ts);
      } else if DeclarationAt(ts).value != NoDeclaration {
        DeclarationShown(ts);
        InitIsStatement(Declaration(ts).value.value);
      } else if ts[0].kind == RETURN {
        ExpressionToShown(ts[1..], SEMICOLON);
      } else if ts[0].kind == IF {
        IfShown(ts);
      } else if ts[0].kind == ENUM {
        EnumShown(ts);
      } else if ts[0].kind == LBRACE {
        StatementsShown(ts[1..]);
        Expected(Statements(ts[1..]).value.rest, RBRACE);
      } else {
        ExpressionToShown(ts, SEMICOLON);
      }
    }
  }

  lemma InitIsStatement(s: Stmt)
    requires PrintableInit(s)
    ensures PrintableStmt(s)
  {
  }

  lemma IfShown(ts: Tokens)
    requires AllWritable(ts) && At(ts, IF)
    ensures BuiltStmt(Statement(ts))
    decreases |ts|, 0
  {
    hide AllWritable, Condition, Printable, Named;
    if Statement(ts).Some? {
      Later(ts, 1);
      ConditionShown(ts[1..]);
      var c := Condition(ts[1..]).value;
      StatementShown(c.rest);
      var t := Statement(c.rest).value;
      if At(t.rest, ELSE) {
        Later(t.rest, 1);
        StatementShown(t.rest[1..]);
      }
    }
  }

  lemma ForShown(ts: Tokens)
    requires AllWritable(ts) && At(ts, FOR)
    ensures BuiltStmt(Statement(ts))
    decreases |ts|, 0
  {
    hide AllWritable, ForInit, ExpressionTo, Expect, Printable, Named, PrintableInit;
    if Statement(ts).Some? {
      Later(ts, 1);
      Expected(ts[1..], LPAREN);
      var r1 := Expect(ts[1..], LPAREN).value;
      InitShown(r1);
      var i := ForInit(r1).value;
      ExpressionToShown(i.rest, SEMICOLON);
      var c := ExpressionTo(i.rest, SEMICOLON).value;
      ExpressionToShown(c.rest, RPAREN);
      StatementShown(ExpressionTo(c.rest, RPAREN).value.rest);
    }
  }

  lemma {:induction false} StatementsShown(ts: Tokens)
    requires AllWritable(ts)
    ensures var r := Statements(ts);
            r.Some? ==> PrintableStmts(r.value.value) && NamedStmts(r.value.value) && AllWritable(r.value.rest)
    decreases |ts|, 2
  {
    hide AllWritable, Statement, PrintableStmt, NamedStmt;
    if Statements(ts).Some? && ts != [] && ts[0].kind != RBRACE {
      StatementShown(ts);
      var s := Statement(ts).value;
      StatementsShown(s.rest);
      var ss := Statements(s.rest).value.value;
      assert ([s.value] + ss)[1..] == ss;
    }
  }

  // ----- functions and programs -----

  lemma {:induction false} ParametersShown(ts: Tokens)
    requires AllWritable(ts)
    ensures var r := Parameters(ts);
            && (r.Some? ==> AllWritable(r.value.rest))
            && (r.Some? ==>
                  forall i :: 0 <= i < |r.value.value| ==>
                      IsType(r.value.value[i].typ) && IsName(r.value.value[i].name))
    decreases |ts|
  {
    hide AllWritable, IsName, IsType;
    if At(ts, TYPE) && Parameters(ts).Some? {
      First(ts);
      Later(ts, 1);
      First(ts[1..]);
      Later(ts, 2);
      if ts[2].kind == COMMA {
        Later(ts, 3);
        ParametersShown(ts[3..]);
      }
    }
  }

  lemma FunctionShown(ts: Tokens)
    requires AllWritable(ts) && Function(ts).Some?
    ensures var f := Function(ts).value;
            PrintableStmts(f.value.body) && NamedFunc(f.value) && AllWritable(f.rest)
  {
    hide AllWritable, IsName, IsType, Parameters, Statements, Expect, PrintableStmts, NamedStmts;
    First(ts);
    Later(ts, 1);
    First(ts[1..]);
    Later(ts, 2);
    Expected(ts[2..], LPAREN);
    var r1 := Expect(ts[2..], LPAREN).value;
    ParametersShown(r1);
    var ps := Parameters(r1).value;
    Expected(ps.rest, RPAREN);
    var r2 := Expect(ps.rest, RPAREN).value;
    Expected(r2, LBRACE);
    var r3 := Expect(r2, LBRACE).value;
    StatementsShown(r3);
    Expected(Statements(r3).value.rest, RBRACE);
  }

  lemma {:induction false} ProgramShown(ts: Tokens)
    requires AllWritable(ts) && Program(ts).Some?
    ensures PrintableProgram(Program(ts).value) && NamedProgram(Program(ts).value)
    decreases |ts|
  {
    hide AllWritable, Function, PrintableStmts, NamedFunc;
    if ts != [] {
      FunctionShown(ts);
      ProgramShown(Function(ts).value.rest);
    }
  }

  // ----- the text of a program that was read -----

  /** Reading any text, writing its tree and reading that again gives the same tree. */
  lemma ReformatKeepsTree(source: string, fs: seq<Func>)
    requires E.Parsed(source) == Some(fs)
    ensures PrintableProgram(fs) && E.Parsed(Source(fs)) == Some(fs)
  {
    hide Scan, Program, PrintableProgram, NamedProgram, NearestElseProgram, Source, AllWritable;
    var ts := Scan(source).tokens;
    ScannedWritable(source);
    ProgramShown(ts);
    ProgramNearest(ts);
    SourceRoundTripIff(fs);
  }

  /** So the reformatted text compiles to the same code, and is trusted, accepted or refused alike. */
  lemma ReformatKeepsCode(source: string, fs: seq<Func>, unset: nat)
    requires E.Parsed(source) == Some(fs)
    ensures PrintableProgram(fs) && E.Compile(Source(fs), unset) == E.Compile(source, unset)
    ensures E.Trusted(Source(fs), unset) == E.Trusted(source, unset)
  {
    hide E.Parsed, PrintableProgram, Source;
    ReformatKeepsTree(source, fs);
  }
}
