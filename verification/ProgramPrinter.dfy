/** Statements, functions and programs printed as tokens, and their round trips through the parser. */
module ProgramPrinter {
  import opened Options
  import opened Syntax
  import opened Parser
  import opened Grammar
  import opened StatementGrammar
  import opened StatementSound
  import opened StatementComplete
  import opened Printer
  import ProgramSound

  // ----- what can be printed -----

  predicate PrintableInit(s: Stmt) {
    match s
    case VarDec(_, _) => true
    case VarDef(_, _, e) => Printable(e)
    case ExprStmt(e) => Printable(e)
    case _ => false
  }

  predicate PrintableStmt(s: Stmt)
    decreases s
  {
    match s
    case Return(e) => Printable(e)
    case ExprStmt(e) => Printable(e)
    case VarDec(_, _) => true
    case VarDef(_, _, e) => Printable(e)
    case Enum(_, _) => true
    case Block(body) => PrintableStmts(body)
    case While(c, b) => Printable(c) && PrintableStmt(b)
    case If(c, t, None) => Printable(c) && PrintableStmt(t)
    case If(c, t, Some(e)) => Printable(c) && PrintableStmt(t) && PrintableStmt(e)
    case For(i, c, k, b) => PrintableInit(i) && Printable(c) && Printable(k) && PrintableStmt(b)
  }

  predicate PrintableStmts(ss: seq<Stmt>)
    decreases ss
  {
    ss == [] || (PrintableStmt(ss[0]) && PrintableStmts(ss[1..]))
  }

  predicate PrintableProgram(fs: seq<Func>) {
    forall i :: 0 <= i < |fs| ==> PrintableStmts(fs[i].body)
  }

  // ----- printing -----

  function ShowTo(e: Expr, k: Kind): Tokens
    requires Printable(e)
  {
    Show(ANY, e) + [Mark(k)]
  }

  function ShowCondition(e: Expr): Tokens
    requires Printable(e)
  {
    [Mark(LPAREN)] + ShowTo(e, RPAREN)
  }

  function ShowInit(s: Stmt): Tokens
    requires PrintableInit(s)
  {
    match s
    case VarDec(t, n) => [Token(TYPE, t), Token(IDENT, n), Mark(SEMICOLON)]
    case VarDef(t, n, e) => [Token(TYPE, t), Token(IDENT, n), Mark(ASSIGN)] + ShowTo(e, SEMICOLON)
    case ExprStmt(e) => ShowTo(e, SEMICOLON)
  }

  function ShowConstants(cs: seq<string>): Tokens {
    if cs == [] then []
    else if |cs| == 1 then [Token(IDENT, cs[0])]
    else [Token(IDENT, cs[0]), Mark(COMMA)] + ShowConstants(cs[1..])
  }

  function ShowStmt(s: Stmt): Tokens
    requires PrintableStmt(s)
    decreases s
  {
    match s
    case Return(e) => [Mark(RETURN)] + ShowTo(e, SEMICOLON)
    case ExprStmt(e) => ShowInit(s)
    case VarDec(_, _) => ShowInit(s)
    case VarDef(_, _, _) => ShowInit(s)
    case Enum(n, cs) =>
        [Mark(ENUM), Token(IDENT, n)] + [Mark(LBRACE)] + ShowConstants(cs) + [Mark(RBRACE)] + [Mark(SEMICOLON)]
    case Block(body) => [Mark(LBRACE)] + ShowStmts(body) + [Mark(RBRACE)]
    case While(c, b) => [Mark(WHILE)] + ShowCondition(c) + ShowStmt(b)
    case If(c, t, None) => [Mark(IF)] + ShowCondition(c) + ShowStmt(t)
    case If(c, t, Some(e)) => [Mark(IF)] + ShowCondition(c) + ShowStmt(t) + [Mark(ELSE)] + ShowStmt(e)
    case For(i, c, k, b) =>
        [Mark(FOR)] + [Mark(LPAREN)] + ShowInit(i) + ShowTo(c, SEMICOLON) + ShowTo(k, RPAREN) + ShowStmt(b)
  }

  function ShowStmts(ss: seq<Stmt>): Tokens
    requires PrintableStmts(ss)
    decreases ss
  {
    if ss == [] then [] else ShowStmt(ss[0]) + ShowStmts(ss[1..])
  }

  function ShowParams(ps: seq<Param>): Tokens {
    if ps == [] then []
    else if |ps| == 1 then [Token(TYPE, ps[0].typ), Token(IDENT, ps[0].name)]
    else [Token(TYPE, ps[0].typ), Token(IDENT, ps[0].name), Mark(COMMA)] + ShowParams(ps[1..])
  }

  function ShowFunc(f: Func): Tokens
    requires PrintableStmts(f.body)
  {
    [Token(TYPE, f.typ), Token(IDENT, f.name)] + [Mark(LPAREN)] + ShowParams(f.params)
    + [Mark(RPAREN)] + [Mark(LBRACE)] + ShowStmts(f.body) + [Mark(RBRACE)]
  }

  function ShowProgram(fs: seq<Func>): Tokens
    requires PrintableProgram(fs)
  {
    if fs == [] then [] else ShowFunc(fs[0]) + ShowProgram(fs[1..])
  }

  // ----- the grammar derives what is printed -----

  lemma ToDerives(e: Expr, k: Kind)
    requires Printable(e)
    ensures DerivesTo(ShowTo(e, k), e, k)
  {
    hide Show, Printable, Derives;
    ShowDerives(ANY, e);
    assert ShowTo(e, k)[..|ShowTo(e, k)| - 1] == Show(ANY, e);
  }

  lemma ConditionDerives(e: Expr)
    requires Printable(e)
    ensures DerivesCondition(ShowCondition(e), e)
  {
    hide ShowTo, Printable, DerivesTo;
    ToDerives(e, RPAREN);
    assert ShowCondition(e)[1..] == ShowTo(e, RPAREN);
  }

  lemma InitDerives(s: Stmt)
    requires PrintableInit(s)
    ensures DerivesForInit(ShowInit(s), s) && DerivesStatement(ShowInit(s), s)
  {
    hide ShowTo, Printable, DerivesTo;
    match s
    case VarDec(_, _) =>
    case VarDef(_, _, e) =>
      ToDerives(e, SEMICOLON);
      assert ShowInit(s)[3..] == ShowTo(e, SEMICOLON);
    case ExprStmt(e) => ToDerives(e, SEMICOLON);
  }

  lemma {:induction false} ConstantsDerive(cs: seq<string>)
    ensures DerivesConstants(ShowConstants(cs), cs)
  {
    if |cs| > 1 {
      ConstantsDerive(cs[1..]);
      assert ShowConstants(cs)[2..] == ShowConstants(cs[1..]);
    }
  }

  lemma {:induction false} StatementDerives(s: Stmt)
    requires PrintableStmt(s)
    ensures DerivesStatement(ShowStmt(s), s)
    decreases s
  {
    hide ShowTo, ShowCondition, ShowInit, ShowConstants, Printable, PrintableInit, DerivesTo, DerivesCondition,
         DerivesForInit, DerivesConstants, DerivesStatement, DerivesStatements;
    match s
    case Return(e) =>
      ToDerives(e, SEMICOLON);
      ReturnRule(Mark(RETURN), ShowTo(e, SEMICOLON), e);
    case ExprStmt(_) => InitPrintable(s); InitDerives(s);
    case VarDec(_, _) => InitPrintable(s); InitDerives(s);
    case VarDef(_, _, _) => InitPrintable(s); InitDerives(s);
    case Enum(n, cs) =>
      ConstantsDerive(cs);
      EnumRule(Mark(ENUM), Token(IDENT, n), Mark(LBRACE), ShowConstants(cs), Mark(RBRACE), Mark(SEMICOLON), cs);
    case Block(body) =>
      StatementsDerive(body);
      BlockRule(Mark(LBRACE), ShowStmts(body), Mark(RBRACE), body);
    case While(c, b) =>
      ConditionDerives(c);
      StatementDerives(b);
      WhileRule(Mark(WHILE), ShowCondition(c), ShowStmt(b), c, b);
    case If(c, t, None) =>
      ConditionDerives(c);
      StatementDerives(t);
      IfRule(Mark(IF), ShowCondition(c), ShowStmt(t), c, t);
    case If(c, t, Some(e)) =>
      ConditionDerives(c);
      StatementDerives(t);
      StatementDerives(e);
      IfElseRule(Mark(IF), ShowCondition(c), ShowStmt(t), Mark(ELSE), ShowStmt(e), c, t, e);
    case For(i, c, k, b) =>
      InitDerives(i);
      ToDerives(c, SEMICOLON);
      ToDerives(k, RPAREN);
      StatementDerives(b);
      ForRule(Mark(FOR), Mark(LPAREN), ShowInit(i), ShowTo(c, SEMICOLON), ShowTo(k, RPAREN), ShowStmt(b), i, c, k, b);
  }

  lemma InitPrintable(s: Stmt)
    requires PrintableStmt(s) && (s.ExprStmt? || s.VarDec? || s.VarDef?)
    ensures PrintableInit(s)
  {
  }

  lemma {:induction false} StatementsDerive(ss: seq<Stmt>)
    requires PrintableStmts(ss)
    ensures DerivesStatements(ShowStmts(ss), ss)
    decreases ss
  {
    hide ShowStmt, PrintableStmt, DerivesStatement, DerivesStatements;
    if ss == [] {
      NoStatements();
    } else {
      StatementDerives(ss[0]);
      StatementsDerive(ss[1..]);
      SequenceRule(ShowStmt(ss[0]), ShowStmts(ss[1..]), ss[0], ss[1..]);
      assert ss == [ss[0]] + ss[1..];
    }
  }

  lemma NoStatements()
    ensures DerivesStatements([], [])
  {
  }

  lemma {:induction false} ParamsDerive(ps: seq<Param>)
    ensures DerivesParameters(ShowParams(ps), ps)
  {
    if |ps| > 1 {
      ParamsDerive(ps[1..]);
      assert ShowParams(ps)[3..] == ShowParams(ps[1..]);
    }
  }

  lemma FunctionPrints(f: Func)
    requires PrintableStmts(f.body)
    ensures DerivesFunction(ShowFunc(f), f)
  {
    hide ShowParams, ShowStmts, PrintableStmts, DerivesStatements, DerivesParameters, DerivesFunction;
    ParamsDerive(f.params);
    StatementsDerive(f.body);
    ProgramSound.FunctionRule(Token(TYPE, f.typ), Token(IDENT, f.name), Mark(LPAREN), ShowParams(f.params),
        Mark(RPAREN), Mark(LBRACE), ShowStmts(f.body), Mark(RBRACE), f);
  }

  lemma {:induction false} ProgramDerives(fs: seq<Func>)
    requires PrintableProgram(fs)
    ensures DerivesProgram(ShowProgram(fs), fs)
    decreases fs
  {
    hide ShowFunc, DerivesFunction, DerivesProgram, PrintableStmts;
    if fs == [] {
      NoProgram();
    } else {
      FunctionPrints(fs[0]);
      ProgramDerives(fs[1..]);
      ProgramSound.ProgramRule(ShowFunc(fs[0]), ShowProgram(fs[1..]), fs[0], fs[1..]);
      assert fs == [fs[0]] + fs[1..];
    }
  }

  lemma NoProgram()
    ensures DerivesProgram([], [])
  {
  }

  // ----- round trips -----

  /** Printing a statement and parsing it with what follows gives it back if and only if each else in
      it belongs to the nearest if and no else follows that it would take. */
  lemma StatementRoundTripIff(s: Stmt, rest: Tokens)
    requires PrintableStmt(s)
    ensures NearestElse(s) && (EndsOpen(s) ==> !At(rest, ELSE)) <==>
            Statement(ShowStmt(s) + rest) == Some(Parsed(s, rest))
  {
    hide ShowStmt, PrintableStmt, DerivesStatement, Statement, NearestElse, EndsOpen;
    StatementDerives(s);
    if NearestElse(s) && (EndsOpen(s) ==> !At(rest, ELSE)) {
      StatementReads(ShowStmt(s), s, rest);
    }
    if Statement(ShowStmt(s) + rest) == Some(Parsed(s, rest)) {
      StatementNearest(ShowStmt(s) + rest);
    }
  }

  /** Printing a program and parsing it gives it back if and only if no else is dangling. */
  lemma ProgramRoundTripIff(fs: seq<Func>)
    requires PrintableProgram(fs)
    ensures NearestElseProgram(fs) <==> Program(ShowProgram(fs)) == Some(fs)
  {
    hide ShowProgram, PrintableProgram, DerivesProgram, Program, NearestElseProgram;
    ProgramDerives(fs);
    if NearestElseProgram(fs) {
      ProgramReads(ShowProgram(fs), fs);
    }
    if Program(ShowProgram(fs)) == Some(fs) {
      ProgramNearest(ShowProgram(fs));
    }
  }
}
