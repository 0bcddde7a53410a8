/** The statement and program parsers read back exactly what the grammar derives, with each else bound
    to the nearest if: an exact characterisation of the programs that are accepted and their trees. */
module StatementComplete {
  import opened Options
  import opened Syntax
  import opened Parser
  import opened Grammar
  import opened StatementGrammar
  import opened ParserComplete
  import StatementSound
  import ProgramSound

  /** The statement ends with an if without else, which would take an else that follows. */
  predicate EndsOpen(s: Stmt) {
    match s
    case If(_, _, None) => true
    case If(_, _, Some(e)) => EndsOpen(e)
    case While(_, b) => EndsOpen(b)
    case For(_, _, _, b) => EndsOpen(b)
    case _ => false
  }

  /** Each else belongs to the nearest if that can take it. */
  predicate NearestElse(s: Stmt) {
    match s
    case If(_, t, None) => NearestElse(t)
    case If(_, t, Some(e)) => !EndsOpen(t) && NearestElse(t) && NearestElse(e)
    case While(_, b) => NearestElse(b)
    case For(_, _, _, b) => NearestElse(b)
    case Block(body) => NearestElses(body)
    case _ => true
  }

  predicate NearestElses(ss: seq<Stmt>) {
    ss == [] || (NearestElse(ss[0]) && NearestElses(ss[1..]))
  }

  predicate NearestElseProgram(fs: seq<Func>) {
    forall i :: 0 <= i < |fs| ==> NearestElses(fs[i].body)
  }

  // ----- the trees the parser builds -----

  lemma {:induction false} StatementNearest(ts: Tokens)
    requires Statement(ts).Some?
    ensures NearestElse(Statement(ts).value.value)
    ensures EndsOpen(Statement(ts).value.value) ==> !At(Statement(ts).value.rest, ELSE)
    decreases |ts|, 1
  {
    hide Condition, DeclarationAt, Declaration, ExpressionTo, EnumDeclaration, Statements, ForInit;
    if ts[0].kind == WHILE {
      StatementNearest(Condition(ts[1..]).value.rest);
    } else if ts[0].kind == FOR {
      var i := ForInit(Expect(ts[1..], LPAREN).value).value;
      StatementNearest(ExpressionTo(ExpressionTo(i.rest, SEMICOLON).value.rest, RPAREN).value.rest);
    } else if DeclarationAt(ts).value != NoDeclaration {
      DeclarationSimple(ts);
    } else if ts[0].kind == IF {
      IfNearest(ts);
    } else if ts[0].kind == ENUM {
      EnumSimple(ts);
    } else if ts[0].kind == LBRACE {
      StatementsNearest(ts[1..]);
    }
  }

  lemma DeclarationSimple(ts: Tokens)
    requires DeclarationAt(ts).Some? && DeclarationAt(ts).value != NoDeclaration && Declaration(ts).Some?
    ensures Declaration(ts).value.value.VarDec? || Declaration(ts).value.value.VarDef?
  {
    hide Expression;
  }

  lemma EnumSimple(ts: Tokens)
    requires At(ts, ENUM) && EnumDeclaration(ts).Some?
    ensures EnumDeclaration(ts).value.value.Enum?
  {
    hide Constants;
  }

  lemma IfNearest(ts: Tokens)
    requires At(ts, IF) && Statement(ts).Some?
    ensures NearestElse(Statement(ts).value.value)
    ensures EndsOpen(Statement(ts).value.value) ==> !At(Statement(ts).value.rest, ELSE)
    decreases |ts|, 0
  {
    hide Statement, Condition;
    StatementSound.IfParts(ts);
    var t := Statement(Condition(ts[1..]).value.rest).value;
    StatementNearest(Condition(ts[1..]).value.rest);
    if At(t.rest, ELSE) {
      StatementNearest(t.rest[1..]);
    }
  }

  lemma {:induction false} StatementsNearest(ts: Tokens)
    requires Statements(ts).Some?
    ensures NearestElses(Statements(ts).value.value)
    decreases |ts|, 2
  {
    hide Statement, NearestElse;
    if ts != [] && ts[0].kind != RBRACE {
      StatementNearest(ts);
      StatementsNearest(Statement(ts).value.rest);
    }
  }

  lemma {:induction false} ProgramNearest(ts: Tokens)
    requires Program(ts).Some?
    ensures NearestElseProgram(Program(ts).value)
    decreases |ts|
  {
    hide Function, NearestElses;
    if ts != [] {
      FunctionNearest(ts);
      ProgramNearest(Function(ts).value.rest);
    }
  }

  lemma FunctionNearest(ts: Tokens)
    requires Function(ts).Some?
    ensures NearestElses(Function(ts).value.value.body)
  {
    hide NearestElses, Statements, Parameters;
    StatementsNearest(Expect(Expect(Parameters(Expect(ts[2..], LPAREN).value).value.rest, RPAREN).value, LBRACE).value);
  }

  // ----- reading what the grammar derives -----

  lemma ToReads(w: Tokens, e: Expr, k: Kind, rest: Tokens)
    requires DerivesTo(w, e, k) && (k == SEMICOLON || k == RPAREN)
    ensures ExpressionTo(w + rest, k) == Some(Parsed(e, rest))
  {
    hide Derives, Expression, HasEmpty;
    var u, last := w[..|w| - 1], [w[|w| - 1]];
    assert w + rest == u + (last + rest);
    ExpressionReads(u, e, last + rest);
    assert (last + rest)[1..] == rest;
  }

  lemma ConditionReads(w: Tokens, e: Expr, rest: Tokens)
    requires DerivesCondition(w, e)
    ensures Condition(w + rest) == Some(Parsed(e, rest))
  {
    hide DerivesTo, ExpressionTo;
    ToReads(w[1..], e, RPAREN, rest);
    Tail(w, rest, 1);
  }

  lemma DeclarationReads(w: Tokens, s: Stmt, rest: Tokens)
    requires DerivesDeclaration(w, s)
    ensures DeclarationAt(w + rest).Some? && DeclarationAt(w + rest).value != NoDeclaration
    ensures Declaration(w + rest) == Some(Parsed(s, rest))
  {
    hide DerivesTo, Expression;
    if s.VarDef? {
      ToReads(w[3..], s.e, SEMICOLON, rest);
    }
    Tail(w, rest, 3);
    assert s.VarDec? ==> w[3..] + rest == rest;
  }

  lemma {:induction false} ConstantsRead(w: Tokens, cs: seq<string>, rest: Tokens)
    requires DerivesConstants(w, cs) && At(rest, RBRACE)
    ensures Constants(w + rest) == Some(Parsed(cs, rest))
  {
    if cs == [] {
      assert w + rest == rest;
    } else if |w| == 1 && |cs| == 1 {
      Tail(w, rest, 1);
      assert w[1..] + rest == rest && cs == [cs[0]];
    } else {
      Tail(w, rest, 2);
      ConstantsRead(w[2..], cs[1..], rest);
      assert cs == [cs[0]] + cs[1..];
    }
  }

  lemma EnumReads(w: Tokens, s: Stmt, rest: Tokens)
    requires s.Enum? && DerivesStatement(w, s)
    ensures At(w + rest, ENUM) && EnumDeclaration(w + rest) == Some(Parsed(s, rest))
  {
    hide DerivesConstants, Constants;
    var u, b, c := w[3..|w| - 2], [w[|w| - 2]], [w[|w| - 1]];
    ConstantsRead(u, s.consts, b + (c + rest));
    assert (w + rest)[2..][1..] == u + (b + (c + rest));
    assert (b + (c + rest))[1..] == c + rest && (c + rest)[1..] == rest;
  }

  /** An expression to a semicolon is not taken for another statement. */
  lemma NoKeyword(w: Tokens, e: Expr)
    requires DerivesTo(w, e, SEMICOLON)
    ensures StartsExpression(w[0].kind) || w[0].kind == SEMICOLON
  {
    hide Derives;
    if |w| > 1 {
      ExpressionStart(w[..|w| - 1], e);
    }
  }

  lemma ForInitReads(w: Tokens, s: Stmt, rest: Tokens)
    requires DerivesForInit(w, s)
    ensures ForInit(w + rest) == Some(Parsed(s, rest))
  {
    hide DerivesTo, DerivesDeclaration, ExpressionTo, Declaration, DeclarationAt;
    if DerivesDeclaration(w, s) {
      DeclarationReads(w, s, rest);
    } else {
      ExpressionStatementStarts(w, s.e, rest);
      ToReads(w, s.e, SEMICOLON, rest);
    }
  }

  lemma ExpressionStatementStarts(w: Tokens, e: Expr, rest: Tokens)
    requires DerivesTo(w, e, SEMICOLON)
    ensures var ts := w + rest; ts != [] && (StartsExpression(ts[0].kind) || ts[0].kind == SEMICOLON)
    ensures DeclarationAt(w + rest) == Some(NoDeclaration)
  {
    NoKeyword(w, e);
  }

  // One step of the statement parser for each kind of statement, given what its parts read.

  lemma WhileStep(ts: Tokens, c: Expr, ts1: Tokens, b: Stmt, rest: Tokens)
    requires At(ts, WHILE) && Condition(ts[1..]) == Some(Parsed(c, ts1)) && Statement(ts1) == Some(Parsed(b, rest))
    ensures Statement(ts) == Some(Parsed(While(c, b), rest))
  {
    hide Condition;
  }

  lemma ForStep(ts: Tokens, init: Stmt, ts1: Tokens, c: Expr, ts2: Tokens, k: Expr, ts3: Tokens, b: Stmt, rest: Tokens)
    requires At(ts, FOR) && At(ts[1..], LPAREN) && ForInit(ts[2..]) == Some(Parsed(init, ts1))
    requires ExpressionTo(ts1, SEMICOLON) == Some(Parsed(c, ts2)) && ExpressionTo(ts2, RPAREN) == Some(Parsed(k, ts3))
    requires Statement(ts3) == Some(Parsed(b, rest))
    ensures Statement(ts) == Some(Parsed(For(init, c, k, b), rest))
  {
    hide ForInit, ExpressionTo;
    assert ts[1..][1..] == ts[2..];
  }

  lemma DeclarationStep(ts: Tokens)
    requires DeclarationAt(ts).Some? && DeclarationAt(ts).value != NoDeclaration
    ensures Statement(ts) == Declaration(ts)
  {
    hide Declaration;
  }

  lemma ReturnStep(ts: Tokens, e: Expr, rest: Tokens)
    requires At(ts, RETURN) && ExpressionTo(ts[1..], SEMICOLON) == Some(Parsed(e, rest))
    ensures Statement(ts) == Some(Parsed(Return(e), rest))
  {
    hide ExpressionTo;
  }

  lemma IfStep(ts: Tokens, c: Expr, ts1: Tokens, t: Stmt, rest: Tokens)
    requires At(ts, IF) && Condition(ts[1..]) == Some(Parsed(c, ts1)) && Statement(ts1) == Some(Parsed(t, rest)) &&
             !At(rest, ELSE)
    ensures Statement(ts) == Some(Parsed(If(c, t, None), rest))
  {
    hide Condition;
  }

  lemma IfElseStep(ts: Tokens, c: Expr, ts1: Tokens, t: Stmt, ts2: Tokens, e: Stmt, rest: Tokens)
    requires At(ts, IF) && Condition(ts[1..]) == Some(Parsed(c, ts1)) && Statement(ts1) == Some(Parsed(t, ts2))
    requires At(ts2, ELSE) && Statement(ts2[1..]) == Some(Parsed(e, rest))
    ensures Statement(ts) == Some(Parsed(If(c, t, Some(e)), rest))
  {
    hide Condition;
  }

  lemma EnumStep(ts: Tokens)
    requires At(ts, ENUM)
    ensures Statement(ts) == EnumDeclaration(ts)
  {
    hide EnumDeclaration;
  }

  lemma BlockStep(ts: Tokens, body: seq<Stmt>, ts1: Tokens)
    requires At(ts, LBRACE) && Statements(ts[1..]) == Some(Parsed(body, ts1)) && At(ts1, RBRACE)
    ensures Statement(ts) == Some(Parsed(Block(body), ts1[1..]))
  {
    hide Statements;
  }

  lemma ExpressionStep(ts: Tokens, e: Expr, rest: Tokens)
    requires ts != [] && (StartsExpression(ts[0].kind) || ts[0].kind == SEMICOLON)
    requires DeclarationAt(ts) == Some(NoDeclaration) && ExpressionTo(ts, SEMICOLON) == Some(Parsed(e, rest))
    ensures Statement(ts) == Some(Parsed(ExprStmt(e), rest))
  {
    hide ExpressionTo, Condition, ForInit, Declaration, EnumDeclaration, Statements;
  }

  /** What the grammar derives is read back, unless an else follows that the statement would take. */
  lemma {:induction false} StatementReads(w: Tokens, s: Stmt, rest: Tokens)
    requires DerivesStatement(w, s) && NearestElse(s) && (EndsOpen(s) ==> !At(rest, ELSE))
    ensures Statement(w + rest) == Some(Parsed(s, rest))
    decreases s, 1
  {
    hide Statement, ExpressionTo, Declaration, DeclarationAt, EnumDeclaration, DerivesTo, DerivesDeclaration,
         DerivesStatements, DerivesConstants, DerivesForInit, DerivesCondition;
    match s
    case Return(e) =>
      ToReads(w[1..], e, SEMICOLON, rest);
      Tail(w, rest, 1);
      ReturnStep(w + rest, e, rest);
    case ExprStmt(e) =>
      ToReads(w, e, SEMICOLON, rest);
      ExpressionStatementStarts(w, e, rest);
      ExpressionStep(w + rest, e, rest);
    case VarDec(_, _) =>
      DeclarationReads(w, s, rest);
      DeclarationStep(w + rest);
    case VarDef(_, _, _) =>
      DeclarationReads(w, s, rest);
      DeclarationStep(w + rest);
    case Enum(_, _) =>
      EnumReads(w, s, rest);
      EnumStep(w + rest);
    case Block(body) => BlockReads(w, body, rest);
    case While(c, b) =>
      var i :| 1 <= i <= |w| && DerivesCondition(w[1..i], c) && DerivesStatement(w[i..], b);
      WhileReads(w, c, b, rest, i);
    case If(c, t, None) =>
      var i :| 1 <= i <= |w| && DerivesCondition(w[1..i], c) && DerivesStatement(w[i..], t);
      IfReads(w, c, t, rest, i);
    case If(c, t, Some(e)) =>
      var i, j :| 1 <= i <= j < |w| && w[j].kind == ELSE && DerivesCondition(w[1..i], c) &&
          DerivesStatement(w[i..j], t) && DerivesStatement(w[j + 1..], e);
      IfElseReads(w, c, t, e, rest, i, j);
    case For(init, c, k, b) => ForReads(w, init, c, k, b, rest);
  }

  lemma BlockReads(w: Tokens, body: seq<Stmt>, rest: Tokens)
    requires |w| >= 2 && w[0].kind == LBRACE && w[|w| - 1].kind == RBRACE && DerivesStatements(w[1..|w| - 1], body) &&
             NearestElses(body)
    ensures Statement(w + rest) == Some(Parsed(Block(body), rest))
    decreases body, 1
  {
    hide Statement, Statements, DerivesStatements, NearestElses;
    var u, last := w[1..|w| - 1], [w[|w| - 1]];
    StatementsRead(u, body, last + rest);
    assert (w + rest)[1..] == u + (last + rest);
    BlockStep(w + rest, body, last + rest);
    assert (last + rest)[1..] == rest;
  }

  /** The body of a statement, which starts at i. */
  lemma BodyAt(w: Tokens, i: nat, rest: Tokens)
    requires 1 <= i <= |w|
    ensures (w + rest)[1..] == w[1..i] + (w[i..] + rest)
  {
  }

  lemma WhileReads(w: Tokens, c: Expr, b: Stmt, rest: Tokens, i: nat)
    requires At(w, WHILE) && 1 <= i <= |w| && DerivesCondition(w[1..i], c) && DerivesStatement(w[i..], b)
    requires NearestElse(b) && (EndsOpen(b) ==> !At(rest, ELSE))
    ensures Statement(w + rest) == Some(Parsed(While(c, b), rest))
    decreases b, 2
  {
    hide Statement, DerivesStatement, DerivesCondition, NearestElse, EndsOpen, Condition;
    BodyAt(w, i, rest);
    ConditionReads(w[1..i], c, w[i..] + rest);
    StatementReads(w[i..], b, rest);
    WhileStep(w + rest, c, w[i..] + rest, b, rest);
  }

  lemma IfReads(w: Tokens, c: Expr, t: Stmt, rest: Tokens, i: nat)
    requires At(w, IF) && 1 <= i <= |w| && DerivesCondition(w[1..i], c) && DerivesStatement(w[i..], t)
    requires NearestElse(t) && !At(rest, ELSE)
    ensures Statement(w + rest) == Some(Parsed(If(c, t, None), rest))
    decreases t, 2
  {
    hide Statement, DerivesStatement, DerivesCondition, NearestElse, EndsOpen, Condition;
    BodyAt(w, i, rest);
    ConditionReads(w[1..i], c, w[i..] + rest);
    StatementReads(w[i..], t, rest);
    IfStep(w + rest, c, w[i..] + rest, t, rest);
  }

  lemma IfElseReads(w: Tokens, c: Expr, t: Stmt, e: Stmt, rest: Tokens, i: nat, j: nat)
    requires At(w, IF) && 1 <= i <= j < |w| && w[j].kind == ELSE
    requires DerivesCondition(w[1..i], c) && DerivesStatement(w[i..j], t) && DerivesStatement(w[j + 1..], e)
    requires NearestElse(t) && !EndsOpen(t) && NearestElse(e) && (EndsOpen(e) ==> !At(rest, ELSE))
    ensures Statement(w + rest) == Some(Parsed(If(c, t, Some(e)), rest))
    decreases If(c, t, Some(e)), 0
  {
    hide Statement, DerivesStatement, DerivesCondition, NearestElse, EndsOpen, Condition;
    ElseAt(w, i, j, rest);
    var r2 := [w[j]] + (w[j + 1..] + rest);
    ConditionReads(w[1..i], c, w[i..j] + r2);
    StatementReads(w[i..j], t, r2);
    StatementReads(w[j + 1..], e, rest);
    IfElseStep(w + rest, c, w[i..j] + r2, t, r2, e, rest);
  }

  lemma ElseAt(w: Tokens, i: nat, j: nat, rest: Tokens)
    requires 1 <= i <= j < |w|
    ensures var r2 := [w[j]] + (w[j + 1..] + rest);
            (w + rest)[1..] == w[1..i] + (w[i..j] + r2) && r2[1..] == w[j + 1..] + rest
  {
  }

  lemma ForReads(w: Tokens, init: Stmt, c: Expr, k: Expr, b: Stmt, rest: Tokens)
    requires DerivesStatement(w, For(init, c, k, b)) && NearestElse(b) && (EndsOpen(b) ==> !At(rest, ELSE))
    ensures Statement(w + rest) == Some(Parsed(For(init, c, k, b), rest))
    decreases b, 2
  {
    hide Statement, DerivesTo, DerivesForInit, NearestElse, EndsOpen;
    var h, i, j :| 2 <= h <= i <= j <= |w| && DerivesForInit(w[2..h], init) && DerivesTo(w[h..i], c, SEMICOLON) &&
        DerivesTo(w[i..j], k, RPAREN) && DerivesStatement(w[j..], b);
    StatementReads(w[j..], b, rest);
    ForHeadReads(w, h, i, j, init, c, k, b, rest);
  }

  lemma ForHeadReads(w: Tokens, h: nat, i: nat, j: nat, init: Stmt, c: Expr, k: Expr, b: Stmt, rest: Tokens)
    requires 2 <= h <= i <= j <= |w| && w[0].kind == FOR && w[1].kind == LPAREN
    requires DerivesForInit(w[2..h], init) && DerivesTo(w[h..i], c, SEMICOLON) && DerivesTo(w[i..j], k, RPAREN)
    requires Statement(w[j..] + rest) == Some(Parsed(b, rest))
    ensures Statement(w + rest) == Some(Parsed(For(init, c, k, b), rest))
  {
    hide Statement, DerivesTo, DerivesForInit, ForInit, ExpressionTo;
    var r3 := w[j..] + rest;
    var r2 := w[i..j] + r3;
    var r1 := w[h..i] + r2;
    assert (w + rest)[2..] == w[2..h] + r1;
    ForInitReads(w[2..h], init, r1);
    ToReads(w[h..i], c, SEMICOLON, r2);
    ToReads(w[i..j], k, RPAREN, r3);
    ForStep(w + rest, init, r1, c, r2, k, r3, b, rest);
  }

  lemma StatementFirst(w: Tokens, s: Stmt)
    requires DerivesStatement(w, s)
    ensures w != [] && w[0].kind != RBRACE && w[0].kind != ELSE
  {
    hide DerivesTo, DerivesStatements, DerivesConstants, DerivesForInit, DerivesCondition;
    if s.ExprStmt? {
      NoKeyword(w, s.e);
      assert w != [] by { ToSomething(w, s.e, SEMICOLON); }
    }
  }

  lemma ToSomething(w: Tokens, e: Expr, k: Kind)
    requires DerivesTo(w, e, k)
    ensures w != []
  {
  }

  lemma {:induction false} StatementsRead(w: Tokens, ss: seq<Stmt>, rest: Tokens)
    requires DerivesStatements(w, ss) && NearestElses(ss) && At(rest, RBRACE)
    ensures Statements(w + rest) == Some(Parsed(ss, rest))
    decreases ss, 0
  {
    hide Statement, DerivesStatement, NearestElse, EndsOpen;
    if ss == [] {
      assert w + rest == rest;
    } else {
      var i :| 0 <= i <= |w| && DerivesStatement(w[..i], ss[0]) && DerivesStatements(w[i..], ss[1..]);
      var r1 := w[i..] + rest;
      assert w + rest == w[..i] + r1;
      StatementsFirst(w[i..], ss[1..], rest);
      StatementReads(w[..i], ss[0], r1);
      StatementFirst(w[..i], ss[0]);
      StatementsRead(w[i..], ss[1..], rest);
      assert ss == [ss[0]] + ss[1..];
    }
  }

  lemma StatementsFirst(w: Tokens, ss: seq<Stmt>, rest: Tokens)
    requires DerivesStatements(w, ss) && At(rest, RBRACE)
    ensures !At(w + rest, ELSE)
  {
    hide DerivesStatement;
    if ss != [] {
      var i :| 0 <= i <= |w| && DerivesStatement(w[..i], ss[0]) && DerivesStatements(w[i..], ss[1..]);
      StatementFirst(w[..i], ss[0]);
    } else {
      assert w + rest == rest;
    }
  }

  lemma ParameterRule(w: Tokens, ps: seq<Param>)
    requires DerivesParameters(w, ps)
    ensures if ps == [] then w == [] else
            && |w| >= 2 && w[0].kind == TYPE && w[1].kind == IDENT && ps[0] == Param(w[0].text, w[1].text)
            && ((|w| == 2 && |ps| == 1) || (|w| >= 3 && w[2].kind == COMMA && DerivesParameters(w[3..], ps[1..])))
  {
  }

  lemma NoParameter(ts: Tokens)
    requires At(ts, RPAREN)
    ensures Parameters(ts) == Some(Parsed([], ts))
  {
  }

  lemma LastParameter(ts: Tokens)
    requires |ts| >= 3 && ts[0].kind == TYPE && ts[1].kind == IDENT && ts[2].kind == RPAREN
    ensures Parameters(ts) == Some(Parsed([Param(ts[0].text, ts[1].text)], ts[2..]))
  {
  }

  lemma OneParameter(ts: Tokens, ps: seq<Param>, rest: Tokens)
    requires |ts| >= 3 && ts[0].kind == TYPE && ts[1].kind == IDENT && ts[2].kind == COMMA
    requires Parameters(ts[3..]) == Some(Parsed(ps, rest))
    ensures Parameters(ts) == Some(Parsed([Param(ts[0].text, ts[1].text)] + ps, rest))
  {
  }

  lemma {:induction false} ParametersRead(w: Tokens, ps: seq<Param>, rest: Tokens)
    requires DerivesParameters(w, ps) && At(rest, RPAREN)
    ensures Parameters(w + rest) == Some(Parsed(ps, rest))
  {
    hide Parameters, DerivesParameters;
    ParameterRule(w, ps);
    if ps == [] {
      assert w + rest == rest;
      NoParameter(rest);
    } else if |w| == 2 && |ps| == 1 {
      Tail(w, rest, 2);
      assert w[2..] + rest == rest && ps == [ps[0]];
      LastParameter(w + rest);
    } else {
      Tail(w, rest, 3);
      ParametersRead(w[3..], ps[1..], rest);
      OneParameter(w + rest, ps[1..], rest);
      assert ps == [ps[0]] + ps[1..];
    }
  }

  lemma FunctionReads(w: Tokens, f: Func, rest: Tokens)
    requires DerivesFunction(w, f) && NearestElses(f.body)
    ensures Function(w + rest) == Some(Parsed(f, rest))
  {
    hide DerivesParameters, DerivesStatements, Parameters, Statements, Function, NearestElses;
    var i :| 3 <= i < |w| - 2 && w[i].kind == RPAREN && w[i + 1].kind == LBRACE &&
        DerivesParameters(w[3..i], f.params) && DerivesStatements(w[i + 2..|w| - 1], f.body);
    var last := [w[|w| - 1]] + rest;
    var body := w[i + 2..|w| - 1] + last;
    var close := [w[i], w[i + 1]] + body;
    assert (w + rest)[2..][1..] == w[3..i] + close;
    ParametersRead(w[3..i], f.params, close);
    StatementsRead(w[i + 2..|w| - 1], f.body, last);
    assert last[1..] == rest;
    FunctionStep(w + rest, w[3..i] + close, f, close, body, last);
  }

  lemma FunctionStep(ts: Tokens, ts1: Tokens, f: Func, ts2: Tokens, ts3: Tokens, ts4: Tokens)
    requires |ts| >= 3 && ts[0].kind == TYPE && ts[0].text == f.typ && ts[1].kind == IDENT && ts[1].text == f.name &&
             ts[2].kind == LPAREN
    requires ts[2..][1..] == ts1 && Parameters(ts1) == Some(Parsed(f.params, ts2))
    requires |ts2| >= 2 && ts2[0].kind == RPAREN && ts2[1].kind == LBRACE && ts2[2..] == ts3
    requires Statements(ts3) == Some(Parsed(f.body, ts4)) && At(ts4, RBRACE)
    ensures Function(ts) == Some(Parsed(f, ts4[1..]))
  {
    hide Parameters, Statements;
    assert ts2[1..][1..] == ts3;
  }

  lemma {:induction false} ProgramReads(w: Tokens, fs: seq<Func>)
    requires DerivesProgram(w, fs) && NearestElseProgram(fs)
    ensures Program(w) == Some(fs)
    decreases fs
  {
    hide DerivesFunction, Function, NearestElses;
    if fs != [] {
      var i :| 0 <= i <= |w| && DerivesFunction(w[..i], fs[0]) && DerivesProgram(w[i..], fs[1..]);
      assert w == w[..i] + w[i..];
      FunctionReads(w[..i], fs[0], w[i..]);
      ProgramSound.FunctionEnds(w[..i], fs[0]);
      ProgramReads(w[i..], fs[1..]);
      assert fs == [fs[0]] + fs[1..];
    }
  }

  /** The parser, exactly: of a string with matching braces that ends with one, it builds the one
      tree that the grammar derives with each else bound to the nearest if. */
  lemma ParsesIff(w: Tokens, fs: seq<Func>)
    ensures ProgramSound.LooksComplete(w) && Program(w) == Some(fs) <==> DerivesProgram(w, fs) && NearestElseProgram(fs)
  {
    hide DerivesProgram, NearestElseProgram, Program;
    if DerivesProgram(w, fs) && NearestElseProgram(fs) {
      ProgramReads(w, fs);
      ProgramSound.ProgramBalanced(w, fs);
    }
    if ProgramSound.LooksComplete(w) && Program(w) == Some(fs) {
      ProgramSound.AcceptedIsProgramIff(w);
      ProgramNearest(w);
    }
  }
}
