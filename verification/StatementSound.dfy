/** Whatever the statement and program parsers accept, the grammar derives from the consumed tokens,
    completed by tokens missing at the end of the stream. The trees bind each else to the nearest if. */
module StatementSound {
  import opened Options
  import opened Syntax
  import opened Parser
  import opened Grammar
  import opened StatementGrammar
  import ParserSound

  /** ts is w followed by rest; the tokens c are missing at the end of the stream. */
  ghost predicate Took(ts: Tokens, w: Tokens, c: Tokens, rest: Tokens) {
    ts == w + rest && (c != [] ==> rest == [])
  }

  lemma TookThen(ts: Tokens, w: Tokens, c: Tokens, ts1: Tokens, u: Tokens, d: Tokens, rest: Tokens)
    requires Took(ts, w, c, ts1) && Took(ts1, u, d, rest)
    ensures Took(ts, w + u, c + d, rest) && (w + u) + (c + d) == (w + c) + (u + d)
  {
    if c != [] {
      assert u == [] && w + [] == w;
    } else {
      assert c + d == d && w + c == w;
    }
  }

  /** The numbers of opening and closing braces, compared. */
  function Braces(w: Tokens): int {
    if w == [] then 0 else (if w[0].kind == LBRACE then 1 else if w[0].kind == RBRACE then -1 else 0) + Braces(w[1..])
  }

  lemma {:induction false} BracesConcat(u: Tokens, v: Tokens)
    ensures Braces(u + v) == Braces(u) + Braces(v)
  {
    if u == [] {
      assert u + v == v;
    } else {
      assert (u + v)[1..] == u[1..] + v;
      BracesConcat(u[1..], v);
    }
  }

  lemma ExpectSound(ts: Tokens, k: Kind) returns (u: Tokens, d: Tokens, t: Token)
    requires Expect(ts, k).Some?
    ensures Took(ts, u, d, Expect(ts, k).value) && u + d == [t] && t.kind == k
    ensures d == [] || d == [t]
    ensures d != [] <==> ts == []
  {
    if ts == [] {
      t := Token(k, "");
      u, d := [], [t];
    } else {
      t := ts[0];
      u, d := [t], [];
    }
  }

  /** The missing tokens close at least as many braces as they open. */
  ghost predicate Closing(c: Tokens) {
    Braces(c) <= 0
  }

  lemma {:induction false} Parentheses(c: Tokens)
    requires forall t :: t in c ==> t.kind == RPAREN
    ensures Braces(c) == 0
  {
    if c != [] {
      Parentheses(c[1..]);
    }
  }

  lemma ExpressionTook(ts: Tokens) returns (w: Tokens, c: Tokens)
    requires Expression(ts).Some?
    ensures Took(ts, w, c, Expression(ts).value.rest) && Derives(w + c, Expression(ts).value.value) && Braces(c) == 0
  {
    w, c := ParserSound.ExpressionSound(ts);
    Parentheses(c);
  }

  lemma NoBraceIn(f: Tokens, t: Token)
    requires (f == [] || f == [t]) && t.kind != LBRACE && t.kind != RBRACE
    ensures Braces(f) == 0
  {
  }

  lemma ExpressionToSound(ts: Tokens, k: Kind) returns (w: Tokens, c: Tokens)
    requires ExpressionTo(ts, k).Some? && k != LBRACE && k != RBRACE
    ensures Took(ts, w, c, ExpressionTo(ts, k).value.rest) && DerivesTo(w + c, ExpressionTo(ts, k).value.value, k) &&
            Braces(c) == 0
  {
    hide Derives, DerivesTo, Expression, Braces;
    var e := Expression(ts).value;
    var u, d := ExpressionTook(ts);
    var v, f, t := ExpectSound(e.rest, k);
    TookThen(ts, u, d, e.rest, v, f, ExpressionTo(ts, k).value.rest);
    BracesConcat(d, f);
    NoBraceIn(f, t);
    w, c := u + v, d + f;
    ToRule(u + d, t, e.value, k);
  }

  lemma ToRule(w: Tokens, t: Token, e: Expr, k: Kind)
    requires Derives(w, e) && t.kind == k
    ensures DerivesTo(w + [t], e, k)
  {
    hide Derives;
    assert (w + [t])[..|w|] == w;
  }

  lemma ConditionSound(ts: Tokens) returns (w: Tokens, c: Tokens)
    requires ts != [] && Condition(ts).Some?
    ensures Took(ts, w, c, Condition(ts).value.rest) && DerivesCondition(w + c, Condition(ts).value.value) &&
            Braces(c) == 0
  {
    hide DerivesTo, ExpressionTo;
    var r1 := Expect(ts, LPAREN).value;
    var u, d, t := ExpectSound(ts, LPAREN);
    var v, f := ExpressionToSound(r1, RPAREN);
    TookThen(ts, u, d, r1, v, f, Condition(ts).value.rest);
    w, c := u + v, d + f;
    assert d == [] && d + f == f;
    assert w + c == [t] + (v + f) && ([t] + (v + f))[1..] == v + f;
  }

  lemma PrefixTook(ts: Tokens, n: nat, v: Tokens, f: Tokens, rest: Tokens)
    requires n <= |ts| && Took(ts[n..], v, f, rest)
    ensures Took(ts, ts[..n] + v, f, rest) && ts[..n] + v + f == ts[..n] + (v + f)
  {
    assert ts == ts[..n] + ts[n..];
  }

  lemma JustPrefix(ts: Tokens, n: nat)
    requires n <= |ts|
    ensures Took(ts, ts[..n], [], ts[n..]) && ts[..n] + [] == ts[..n]
  {
  }

  lemma DefinitionRule(u: Tokens, v: Tokens, e: Expr)
    requires |u| == 3 && u[0].kind == TYPE && u[1].kind == IDENT && u[2].kind == ASSIGN && DerivesTo(v, e, SEMICOLON)
    ensures DerivesDeclaration(u + v, VarDef(u[0].text, u[1].text, e))
  {
    hide DerivesTo;
    assert (u + v)[3..] == v;
  }

  lemma DeclarationRule(u: Tokens)
    requires |u| == 3 && u[0].kind == TYPE && u[1].kind == IDENT && u[2].kind == SEMICOLON
    ensures DerivesDeclaration(u, VarDec(u[0].text, u[1].text))
  {
  }

  lemma DeclarationSound(ts: Tokens) returns (w: Tokens, c: Tokens)
    requires DeclarationAt(ts).Some? && DeclarationAt(ts).value != NoDeclaration && Declaration(ts).Some?
    ensures Took(ts, w, c, Declaration(ts).value.rest) && DerivesDeclaration(w + c, Declaration(ts).value.value) &&
            Braces(c) == 0
  {
    hide DerivesTo, DerivesDeclaration, Expression, Took;
    if DeclarationAt(ts).value == Initialised {
      var v, f := ExpressionToSound(ts[3..], SEMICOLON);
      w, c := ts[..3] + v, f;
      PrefixTook(ts, 3, v, f, Declaration(ts).value.rest);
      DefinitionRule(ts[..3], v + f, Declaration(ts).value.value.e);
    } else {
      w, c := ts[..3], [];
      JustPrefix(ts, 3);
      DeclarationRule(w);
    }
  }

  lemma {:induction false} ConstantsSound(ts: Tokens) returns (w: Tokens, c: Tokens)
    requires Constants(ts).Some?
    ensures Took(ts, w, c, Constants(ts).value.rest) && DerivesConstants(w + c, Constants(ts).value.value) &&
            Braces(c) == 0
    decreases |ts|
  {
    var r := Constants(ts).value;
    if ts == [] || ts[0].kind == RBRACE {
      w, c := [], [];
    } else if |ts| > 1 && ts[1].kind != COMMA {
      w, c := [ts[0]], [];
      assert w + c == [ts[0]];
    } else if |ts| == 1 {
      w, c := [ts[0]], [];
      assert w + c == [ts[0]];
      assert Constants([]).value == Parsed([], []);
      assert ts == w + [];
    } else {
      var u, d := ConstantsSound(ts[2..]);
      w, c := ts[..2] + u, d;
      ConstantsStep(ts, u, d, r.rest);
    }
  }

  lemma ConstantsStep(ts: Tokens, u: Tokens, d: Tokens, rest: Tokens)
    requires |ts| > 1 && ts[0].kind == IDENT && ts[1].kind == COMMA && Constants(ts[2..]).Some?
    requires Took(ts[2..], u, d, rest) && DerivesConstants(u + d, Constants(ts[2..]).value.value)
    ensures Took(ts, ts[..2] + u, d, rest)
    ensures DerivesConstants(ts[..2] + u + d, [ts[0].text] + Constants(ts[2..]).value.value)
  {
    hide Constants;
    assert ts == ts[..2] + ts[2..];
    assert ts[..2] + u + d == ts[..2] + (u + d) && (ts[..2] + u + d)[2..] == u + d;
    var cs := Constants(ts[2..]).value.value;
    assert ([ts[0].text] + cs)[1..] == cs;
  }

  lemma EnumSound(ts: Tokens) returns (w: Tokens, c: Tokens)
    requires At(ts, ENUM) && EnumDeclaration(ts).Some?
    ensures Took(ts, w, c, EnumDeclaration(ts).value.rest) &&
            DerivesStatement(w + c, EnumDeclaration(ts).value.value) && Closing(c)
  {
    hide Constants, DerivesConstants, DerivesStatement, Closing, EnumDeclaration, Took, Braces;
    EnumParts(ts);
    var r1 := Expect(ts[2..], LBRACE).value;
    var cs := Constants(r1).value;
    var r2 := Expect(cs.rest, RBRACE).value;
    var u1, d1, t1 := ExpectSound(ts[2..], LBRACE);
    var u2, d2 := ConstantsSound(r1);
    var u3, d3, t3 := ExpectSound(cs.rest, RBRACE);
    var u4, d4, t4 := ExpectSound(r2, SEMICOLON);
    w, c := FourThen(ts, 2, u1, d1, r1, u2, d2, cs.rest, u3, d3, r2, u4, d4, EnumDeclaration(ts).value.rest);
    EnumBraces(d1, d2, d3, d4, t1, t3, t4);
    EnumRule(ts[0], ts[1], t1, u2 + d2, t3, t4, cs.value);
    assert ts[..2] == [ts[0], ts[1]];
  }

  lemma EnumParts(ts: Tokens)
    requires At(ts, ENUM) && EnumDeclaration(ts).Some?
    ensures |ts| >= 2 && ts[1].kind == IDENT && Expect(ts[2..], LBRACE).Some? &&
            Constants(Expect(ts[2..], LBRACE).value).Some?
    ensures var cs := Constants(Expect(ts[2..], LBRACE).value).value;
            && Expect(cs.rest, RBRACE).Some? && Expect(Expect(cs.rest, RBRACE).value, SEMICOLON).Some?
            && EnumDeclaration(ts).value ==
                Parsed(Enum(ts[1].text, cs.value), Expect(Expect(cs.rest, RBRACE).value, SEMICOLON).value)
  {
    hide Constants;
  }

  /** n tokens that are there, and then four parts. */
  lemma FourThen(ts: Tokens, n: nat, u1: Tokens, d1: Tokens, r1: Tokens, u2: Tokens, d2: Tokens, r2: Tokens, u3: Tokens,
                 d3: Tokens, r3: Tokens, u4: Tokens, d4: Tokens, rest: Tokens) returns (w: Tokens, c: Tokens)
    requires n <= |ts| && Took(ts[n..], u1, d1, r1) && Took(r1, u2, d2, r2) && Took(r2, u3, d3, r3) &&
             Took(r3, u4, d4, rest)
    ensures Took(ts, w, c, rest) && c == [] + d1 + d2 + d3 + d4
    ensures w + c == ts[..n] + (u1 + d1) + (u2 + d2) + (u3 + d3) + (u4 + d4)
  {
    hide Took;
    JustPrefix(ts, n);
    var v, d := ts[..n], [];
    assert v + d == v;
    TookThen(ts, v, d, ts[n..], u1, d1, r1);
    v, d := v + u1, d + d1;
    TookThen(ts, v, d, r1, u2, d2, r2);
    v, d := v + u2, d + d2;
    TookThen(ts, v, d, r2, u3, d3, r3);
    v, d := v + u3, d + d3;
    TookThen(ts, v, d, r3, u4, d4, rest);
    w, c := v + u4, d + d4;
  }

  lemma EnumBraces(d1: Tokens, d2: Tokens, d3: Tokens, d4: Tokens, t1: Token, t3: Token, t4: Token)
    requires (d1 == [] || d1 == [t1]) && (d3 == [] || d3 == [t3]) && (d4 == [] || d4 == [t4]) && Braces(d2) == 0
    requires t1.kind == LBRACE && t3.kind == RBRACE && t4.kind == SEMICOLON
    requires d1 != [] ==> d3 != []
    ensures Closing([] + d1 + d2 + d3 + d4)
  {
    BracesConcat([] + d1 + d2 + d3, d4);
    BracesConcat([] + d1 + d2, d3);
    BracesConcat([] + d1, d2);
    BracesConcat([], d1);
  }

  lemma EnumRule(a: Token, n: Token, b: Token, u: Tokens, c: Token, d: Token, cs: seq<string>)
    requires a.kind == ENUM && n.kind == IDENT && b.kind == LBRACE && c.kind == RBRACE && d.kind == SEMICOLON &&
             DerivesConstants(u, cs)
    ensures DerivesStatement([a, n] + [b] + u + [c] + [d], Enum(n.text, cs))
  {
    var w := [a, n] + [b] + u + [c] + [d];
    assert w[3..|w| - 2] == u;
  }

  // ----- the rules -----

  lemma WhileRule(a: Token, u: Tokens, v: Tokens, c: Expr, b: Stmt)
    requires a.kind == WHILE && DerivesCondition(u, c) && DerivesStatement(v, b)
    ensures DerivesStatement([a] + u + v, While(c, b))
  {
    hide DerivesCondition, DerivesStatement;
    var w, i := [a] + u + v, 1 + |u|;
    assert w[1..i] == u && w[i..] == v;
    WhileAt(w, i, c, b);
  }

  lemma WhileAt(w: Tokens, i: nat, c: Expr, b: Stmt)
    requires At(w, WHILE) && 1 <= i <= |w| && DerivesCondition(w[1..i], c) && DerivesStatement(w[i..], b)
    ensures DerivesStatement(w, While(c, b))
  {
    hide DerivesCondition;
  }

  lemma IfRule(a: Token, u: Tokens, v: Tokens, c: Expr, t: Stmt)
    requires a.kind == IF && DerivesCondition(u, c) && DerivesStatement(v, t)
    ensures DerivesStatement([a] + u + v, If(c, t, None))
  {
    hide DerivesCondition, DerivesStatement;
    var w, i := [a] + u + v, 1 + |u|;
    assert w[1..i] == u && w[i..] == v;
    IfAt(w, i, c, t);
  }

  lemma IfAt(w: Tokens, i: nat, c: Expr, t: Stmt)
    requires At(w, IF) && 1 <= i <= |w| && DerivesCondition(w[1..i], c) && DerivesStatement(w[i..], t)
    ensures DerivesStatement(w, If(c, t, None))
  {
    hide DerivesCondition, DerivesTo, DerivesDeclaration, DerivesForInit, DerivesConstants, DerivesStatements;
  }

  lemma IfElseRule(a: Token, u: Tokens, v: Tokens, o: Token, x: Tokens, c: Expr, t: Stmt, e: Stmt)
    requires a.kind == IF && o.kind == ELSE && DerivesCondition(u, c) && DerivesStatement(v, t) &&
             DerivesStatement(x, e)
    ensures DerivesStatement([a] + u + v + [o] + x, If(c, t, Some(e)))
  {
    hide DerivesCondition, DerivesStatement;
    Parts(a, u, v, o, x);
    IfElseAt([a] + u + v + [o] + x, 1 + |u|, 1 + |u| + |v|, c, t, e);
  }

  lemma IfElseAt(w: Tokens, i: nat, j: nat, c: Expr, t: Stmt, e: Stmt)
    requires At(w, IF) && 1 <= i <= j < |w| && w[j].kind == ELSE && DerivesCondition(w[1..i], c) &&
             DerivesStatement(w[i..j], t) && DerivesStatement(w[j + 1..], e)
    ensures DerivesStatement(w, If(c, t, Some(e)))
  {
    hide DerivesCondition, DerivesTo, DerivesDeclaration, DerivesForInit, DerivesConstants, DerivesStatements;
  }

  lemma Parts(a: Token, u: Tokens, v: Tokens, o: Token, x: Tokens)
    ensures var w, i, j := [a] + u + v + [o] + x, 1 + |u|, 1 + |u| + |v|;
            && w[0] == a && w[1..i] == u && w[i..j] == v && w[j] == o && w[j + 1..] == x
  {
  }

  lemma ForRule(a: Token, p: Token, u: Tokens, v: Tokens, x: Tokens, y: Tokens, init: Stmt, c: Expr, k: Expr, b: Stmt)
    requires a.kind == FOR && p.kind == LPAREN && DerivesForInit(u, init) && DerivesTo(v, c, SEMICOLON) &&
             DerivesTo(x, k, RPAREN)
    requires DerivesStatement(y, b)
    ensures DerivesStatement([a] + [p] + u + v + x + y, For(init, c, k, b))
  {
    hide DerivesForInit, DerivesTo, DerivesStatement;
    var w, h, i, j := [a] + [p] + u + v + x + y, 2 + |u|, 2 + |u| + |v|, 2 + |u| + |v| + |x|;
    assert w[2..h] == u && w[h..i] == v && w[i..j] == x && w[j..] == y;
    ForAt(w, h, i, j, init, c, k, b);
  }

  lemma ForAt(w: Tokens, h: nat, i: nat, j: nat, init: Stmt, c: Expr, k: Expr, b: Stmt)
    requires 2 <= h <= i <= j <= |w| && w[0].kind == FOR && w[1].kind == LPAREN
    requires DerivesForInit(w[2..h], init) && DerivesTo(w[h..i], c, SEMICOLON) && DerivesTo(w[i..j], k, RPAREN) &&
             DerivesStatement(w[j..], b)
    ensures DerivesStatement(w, For(init, c, k, b))
  {
    hide DerivesForInit, DerivesTo;
  }

  lemma BlockRule(a: Token, u: Tokens, b: Token, ss: seq<Stmt>)
    requires a.kind == LBRACE && b.kind == RBRACE && DerivesStatements(u, ss)
    ensures DerivesStatement([a] + u + [b], Block(ss))
  {
    var w := [a] + u + [b];
    assert w[1..|w| - 1] == u;
  }

  lemma ReturnRule(a: Token, u: Tokens, e: Expr)
    requires a.kind == RETURN && DerivesTo(u, e, SEMICOLON)
    ensures DerivesStatement([a] + u, Return(e))
  {
    assert ([a] + u)[1..] == u;
  }

  lemma SequenceRule(u: Tokens, v: Tokens, s: Stmt, ss: seq<Stmt>)
    requires DerivesStatement(u, s) && DerivesStatements(v, ss)
    ensures DerivesStatements(u + v, [s] + ss)
  {
    hide DerivesStatement;
    var w := u + v;
    assert w[..|u|] == u && w[|u|..] == v && ([s] + ss)[1..] == ss;
  }

  // ----- soundness -----

  /** The first token, which is there, and then the rest. */
  lemma FirstThen(ts: Tokens, u: Tokens, d: Tokens, rest: Tokens)
    requires ts != [] && Took(ts[1..], u, d, rest)
    ensures Took(ts, [ts[0]] + u, d, rest) && [ts[0]] + u + d == [ts[0]] + (u + d)
  {
    assert ts == [ts[0]] + u + rest;
  }

  lemma {:induction false} StatementTook(ts: Tokens) returns (w: Tokens, c: Tokens)
    requires Statement(ts).Some?
    ensures Took(ts, w, c, Statement(ts).value.rest) && DerivesStatement(w + c, Statement(ts).value.value) && Closing(c)
    decreases |ts|, 2
  {
    hide Condition, DeclarationAt, Declaration, ExpressionTo, EnumDeclaration, Statements, ForInit, DerivesTo,
         DerivesDeclaration, DerivesStatements, DerivesConstants, DerivesForInit, DerivesCondition;
    if ts[0].kind == WHILE {
      w, c := WhileTook(ts);
    } else if ts[0].kind == FOR {
      w, c := ForTook(ts);
    } else if DeclarationAt(ts).value != NoDeclaration {
      w, c := DeclarationSound(ts);
      DeclarationIsStatement(w + c, Statement(ts).value.value);
    } else if ts[0].kind == RETURN {
      var e := ExpressionTo(ts[1..], SEMICOLON).value;
      var u, d := ExpressionToSound(ts[1..], SEMICOLON);
      FirstThen(ts, u, d, e.rest);
      w, c := [ts[0]] + u, d;
      ReturnRule(ts[0], u + d, e.value);
    } else if ts[0].kind == IF {
      w, c := IfTook(ts);
    } else if ts[0].kind == ENUM {
      w, c := EnumSound(ts);
    } else if ts[0].kind == LBRACE {
      w, c := BlockTook(ts);
    } else {
      w, c := ExpressionToSound(ts, SEMICOLON);
    }
  }

  lemma DeclarationIsStatement(w: Tokens, s: Stmt)
    requires DerivesDeclaration(w, s)
    ensures DerivesStatement(w, s)
  {
    hide DerivesTo;
  }

  lemma WhileTook(ts: Tokens) returns (w: Tokens, c: Tokens)
    requires At(ts, WHILE) && Statement(ts).Some?
    ensures Took(ts, w, c, Statement(ts).value.rest) && DerivesStatement(w + c, Statement(ts).value.value) && Closing(c)
    decreases |ts|, 1
  {
    hide Condition, DerivesStatement, DerivesCondition;
    var x, b := Condition(ts[1..]).value, Statement(Condition(ts[1..]).value.rest).value;
    ConditionNeedsTokens(ts[1..]);
    var u, d := ConditionSound(ts[1..]);
    FirstThen(ts, u, d, x.rest);
    var v, f := StatementTook(x.rest);
    TookThen(ts, [ts[0]] + u, d, x.rest, v, f, b.rest);
    assert d == [] && d + f == f;
    w, c := [ts[0]] + u + v, d + f;
    assert w + c == [ts[0]] + (u + d) + (v + f);
    WhileRule(ts[0], u + d, v + f, x.value, b.value);
  }

  lemma ConditionNeedsTokens(ts: Tokens)
    requires Condition(ts).Some?
    ensures ts != []
  {
  }

  lemma IfParts(ts: Tokens)
    requires At(ts, IF) && Statement(ts).Some?
    ensures Condition(ts[1..]).Some? && Statement(Condition(ts[1..]).value.rest).Some?
    ensures var x := Condition(ts[1..]).value;
            var t := Statement(x.rest).value;
            if At(t.rest, ELSE) then
              var e := Statement(t.rest[1..]);
              e.Some? && Statement(ts).value == Parsed(If(x.value, t.value, Some(e.value.value)), e.value.rest)
            else Statement(ts).value == Parsed(If(x.value, t.value, None), t.rest)
  {
    hide Condition, DeclarationAt, Declaration, ExpressionTo, EnumDeclaration, Statements, ForInit;
    assert DeclarationAt(ts) == Some(NoDeclaration) by { NoDeclarationAt(ts); }
  }

  lemma NoDeclarationAt(ts: Tokens)
    requires ts != [] && ts[0].kind != TYPE
    ensures DeclarationAt(ts) == Some(NoDeclaration)
  {
  }

  lemma IfTook(ts: Tokens) returns (w: Tokens, c: Tokens)
    requires At(ts, IF) && Statement(ts).Some?
    ensures Took(ts, w, c, Statement(ts).value.rest) && DerivesStatement(w + c, Statement(ts).value.value) && Closing(c)
    decreases |ts|, 1
  {
    hide Statement, Condition, DerivesStatement, DerivesCondition;
    IfParts(ts);
    var x, t := Condition(ts[1..]).value, Statement(Condition(ts[1..]).value.rest).value;
    ConditionNeedsTokens(ts[1..]);
    var u, d := ConditionSound(ts[1..]);
    var v, f := StatementTook(x.rest);
    StatementNeedsTokens(x.rest);
    assert d == [] && u + d == u;
    ThreeParts(ts, u, x.rest, v, t.rest);
    if At(t.rest, ELSE) {
      var y, z := StatementTook(t.rest[1..]);
      assert f == [] && v + f == v;
      w, c := [ts[0]] + u + v + [t.rest[0]] + y, z;
      ElsePart(ts, [ts[0]] + u + v, t.rest, y, Statement(ts).value.rest);
      IfElseRule(ts[0], u, v, t.rest[0], y + z, x.value, t.value, Statement(t.rest[1..]).value.value);
      assert w + c == [ts[0]] + u + v + [t.rest[0]] + (y + z);
    } else {
      w, c := [ts[0]] + u + v, f;
      IfRule(ts[0], u, v + f, x.value, t.value);
      assert w + c == [ts[0]] + u + (v + f);
    }
  }

  lemma StatementNeedsTokens(ts: Tokens)
    requires Statement(ts).Some?
    ensures ts != []
  {
  }

  lemma ThreeParts(ts: Tokens, u: Tokens, ts1: Tokens, v: Tokens, rest: Tokens)
    requires ts != [] && ts[1..] == u + ts1 && ts1 == v + rest
    ensures ts == [ts[0]] + u + v + rest
  {
  }

  lemma ElsePart(ts: Tokens, w: Tokens, ts1: Tokens, y: Tokens, rest: Tokens)
    requires ts == w + ts1 && ts1 != [] && ts1[1..] == y + rest
    ensures ts == w + [ts1[0]] + y + rest
  {
  }

  lemma ForTook(ts: Tokens) returns (w: Tokens, c: Tokens)
    requires At(ts, FOR) && Statement(ts).Some?
    ensures Took(ts, w, c, Statement(ts).value.rest) && DerivesStatement(w + c, Statement(ts).value.value) && Closing(c)
    decreases |ts|, 1
  {
    hide Statement, ForInit, ExpressionTo, DerivesStatement, DerivesTo, DerivesForInit;
    ForParts(ts);
    var r1 := Expect(ts[1..], LPAREN).value;
    var i := ForInit(r1).value;
    var x := ExpressionTo(i.rest, SEMICOLON).value;
    var k := ExpressionTo(x.rest, RPAREN).value;
    ForNeedsTokens(r1, i.rest, x.rest);
    var u1, d1 := ForInitSound(r1);
    var u2, d2 := ExpressionToSound(i.rest, SEMICOLON);
    var u3, d3 := ExpressionToSound(x.rest, RPAREN);
    var u4, d4 := StatementTook(k.rest);
    w, c := ForConcat(ts, r1, u1, d1, i.rest, u2, d2, x.rest, u3, d3, k.rest, u4, d4, Statement(ts).value.rest);
    ForRule(ts[0], ts[1], u1, u2, u3, u4 + d4, i.value, x.value, k.value, Statement(k.rest).value.value);
  }

  lemma ForParts(ts: Tokens)
    requires At(ts, FOR) && Statement(ts).Some?
    ensures Expect(ts[1..], LPAREN).Some?
    ensures var r1 := Expect(ts[1..], LPAREN).value;
            ForInit(r1).Some? && ExpressionTo(ForInit(r1).value.rest, SEMICOLON).Some?
    ensures var i := ForInit(Expect(ts[1..], LPAREN).value).value;
            var x := ExpressionTo(i.rest, SEMICOLON).value;
            ExpressionTo(x.rest, RPAREN).Some? && Statement(ExpressionTo(x.rest, RPAREN).value.rest).Some?
    ensures var i := ForInit(Expect(ts[1..], LPAREN).value).value;
            var x := ExpressionTo(i.rest, SEMICOLON).value;
            var k := ExpressionTo(x.rest, RPAREN).value;
            var b := Statement(k.rest).value;
            Statement(ts).value == Parsed(For(i.value, x.value, k.value, b.value), b.rest)
  {
    hide ForInit, ExpressionTo;
  }

  /** The parts of a `for`: nothing can be missing before its body. */
  lemma ForConcat(ts: Tokens, r1: Tokens, u1: Tokens, d1: Tokens, r2: Tokens, u2: Tokens, d2: Tokens, r3: Tokens,
                  u3: Tokens, d3: Tokens, r4: Tokens,
                  u4: Tokens, d4: Tokens, rest: Tokens) returns (w: Tokens, c: Tokens)
    requires At(ts, FOR) && Expect(ts[1..], LPAREN) == Some(r1) && r1 != [] && r2 != [] && r3 != [] && r4 != []
    requires Took(r1, u1, d1, r2) && Took(r2, u2, d2, r3) && Took(r3, u3, d3, r4) && Took(r4, u4, d4, rest)
    ensures |ts| >= 2 && ts[1].kind == LPAREN && Took(ts, w, c, rest) && c == d4
    ensures u1 + d1 == u1 && u2 + d2 == u2 && u3 + d3 == u3
    ensures w + c == [ts[0]] + [ts[1]] + u1 + u2 + u3 + (u4 + d4)
  {
    w, c := [ts[0]] + [ts[1]] + u1 + u2 + u3 + u4, d4;
    assert ts == [ts[0]] + [ts[1]] + r1;
  }

  /** Nothing is missing before the body of a `for`. */
  lemma ForNeedsTokens(r1: Tokens, r2: Tokens, r3: Tokens)
    requires ForInit(r1).Some? && ForInit(r1).value.rest == r2
    requires ExpressionTo(r2, SEMICOLON).Some? && ExpressionTo(r2, SEMICOLON).value.rest == r3
    requires ExpressionTo(r3, RPAREN).Some? && Statement(ExpressionTo(r3, RPAREN).value.rest).Some?
    ensures r1 != [] && r2 != [] && r3 != [] && ExpressionTo(r3, RPAREN).value.rest != []
  {
  }

  lemma ForInitSound(ts: Tokens) returns (w: Tokens, c: Tokens)
    requires ForInit(ts).Some?
    ensures Took(ts, w, c, ForInit(ts).value.rest) && DerivesForInit(w + c, ForInit(ts).value.value) && Braces(c) == 0
  {
    hide DeclarationAt, Declaration, ExpressionTo, DerivesTo, DerivesDeclaration;
    if DeclarationAt(ts).value != NoDeclaration {
      w, c := DeclarationSound(ts);
    } else {
      w, c := ExpressionToSound(ts, SEMICOLON);
    }
  }

  lemma BlockParts(ts: Tokens)
    requires At(ts, LBRACE)
    ensures Statement(ts) ==
            (var b :- Statements(ts[1..]);
             var rest :- Expect(b.rest, RBRACE);
             Some(Parsed(Block(b.value), rest)))
  {
    hide Statements;
  }

  lemma MissingBrace(f: Tokens, t: Token)
    requires (f == [] || f == [t]) && t.kind == RBRACE
    ensures Braces(f) <= 0
  {
  }

  lemma BlockTook(ts: Tokens) returns (w: Tokens, c: Tokens)
    requires At(ts, LBRACE) && Statement(ts).Some?
    ensures Took(ts, w, c, Statement(ts).value.rest) && DerivesStatement(w + c, Statement(ts).value.value) && Closing(c)
    decreases |ts|, 1
  {
    hide Statement, Statements, DerivesStatement, DerivesStatements, Braces, Took;
    BlockParts(ts);
    var b := Statements(ts[1..]).value;
    var u, d := StatementsTook(ts[1..]);
    FirstThen(ts, u, d, b.rest);
    var v, f, t := ExpectSound(b.rest, RBRACE);
    TookThen(ts, [ts[0]] + u, d, b.rest, v, f, Statement(ts).value.rest);
    BracesConcat(d, f);
    MissingBrace(f, t);
    w, c := [ts[0]] + u + v, d + f;
    assert w + c == [ts[0]] + (u + d) + [t];
    BlockRule(ts[0], u + d, t, b.value);
  }

  lemma {:induction false} StatementsTook(ts: Tokens) returns (w: Tokens, c: Tokens)
    requires Statements(ts).Some?
    ensures Took(ts, w, c, Statements(ts).value.rest) && DerivesStatements(w + c, Statements(ts).value.value) &&
            Closing(c)
    decreases |ts|, 3
  {
    hide Statement, DerivesStatement;
    if ts == [] || ts[0].kind == RBRACE {
      w, c := [], [];
    } else {
      var s := Statement(ts).value;
      var u, d := StatementTook(ts);
      var v, f := StatementsTook(s.rest);
      TookThen(ts, u, d, s.rest, v, f, Statements(ts).value.rest);
      BracesConcat(d, f);
      w, c := u + v, d + f;
      SequenceRule(u + d, v + f, s.value, Statements(s.rest).value.value);
    }
  }
}
