/** Which of the token strings that the parser accepts are programs: exactly those with as many
    opening as closing braces that end with a closing brace. Any other accepted string was cut off,
    and the parser took missing tokens at the end of the stream for granted. */
module ProgramSound {
  import opened Options
  import opened Syntax
  import opened Parser
  import opened Grammar
  import opened StatementGrammar
  import opened StatementSound

  // ----- derived strings are balanced -----

  ghost predicate NoBraces(w: Tokens) {
    forall t :: t in w ==> t.kind != LBRACE && t.kind != RBRACE
  }

  lemma {:induction false} NoBracesBalanced(w: Tokens)
    requires NoBraces(w)
    ensures Braces(w) == 0
  {
    if w != [] {
      NoBracesBalanced(w[1..]);
    }
  }

  lemma Together(u: Tokens, v: Tokens, w: Tokens)
    requires NoBraces(u) && NoBraces(v) && w == u + v
    ensures NoBraces(w)
  {
  }

  lemma {:induction false} PrimaryNoBraces(w: Tokens, e: Expr)
    requires DerivesPrimary(w, e)
    ensures NoBraces(w)
    decreases |w|, 0
  {
    hide Derives, DerivesArgs;
    if |w| >= 2 && w[0].kind == LPAREN {
      ExpressionNoBraces(w[1..|w| - 1], e);
      assert w == [w[0]] + w[1..|w| - 1] + [w[|w| - 1]];
    } else if |w| >= 2 {
      ArgsNoBraces(w[2..|w| - 1], e.args);
      assert w == [w[0], w[1]] + w[2..|w| - 1] + [w[|w| - 1]];
    }
  }

  lemma UnaryNoBraces(w: Tokens, e: Expr)
    requires DerivesUnary(w, e)
    ensures NoBraces(w)
    decreases |w|, 1
  {
    hide DerivesPrimary;
    if At(w, NOT) && e.Unary? && DerivesPrimary(w[1..], e.e) {
      PrimaryNoBraces(w[1..], e.e);
      assert w == [w[0]] + w[1..];
    } else {
      PrimaryNoBraces(w, e);
    }
  }

  lemma {:induction false} BinaryNoBraces(k: nat, w: Tokens, e: Expr)
    requires 1 <= k <= TOP && DerivesBinary(k, w, e)
    ensures NoBraces(w)
    decreases |w|, k + 1
  {
    hide DerivesUnary, NoBraces;
    if k == 1 {
      UnaryNoBraces(w, e);
    } else if DerivesBinary(k - 1, w, e) {
      BinaryNoBraces(k - 1, w, e);
    } else {
      var i :| 0 <= i < |w| && w[i].kind == e.op && DerivesBinary(k, w[..i], e.left) &&
          DerivesBinary(k - 1, w[i + 1..], e.right);
      BinaryNoBraces(k, w[..i], e.left);
      BinaryNoBraces(k - 1, w[i + 1..], e.right);
      Around(w, i);
    }
  }

  lemma Around(w: Tokens, i: nat)
    requires i < |w| && NoBraces(w[..i]) && NoBraces(w[i + 1..]) && w[i].kind != LBRACE && w[i].kind != RBRACE
    ensures NoBraces(w)
  {
    assert w == w[..i] + [w[i]] + w[i + 1..];
  }

  lemma {:induction false} ExpressionNoBraces(w: Tokens, e: Expr)
    requires Derives(w, e)
    ensures NoBraces(w)
    decreases |w|, TOP + 2
  {
    hide DerivesBinary;
    if DerivesBinary(TOP, w, e) {
      BinaryNoBraces(TOP, w, e);
    } else {
      ExpressionNoBraces(w[2..], e.e);
      assert w == [w[0], w[1]] + w[2..];
    }
  }

  lemma {:induction false} ArgsNoBraces(w: Tokens, args: seq<Expr>)
    requires DerivesArgs(w, args)
    ensures NoBraces(w)
    decreases |w|, TOP + 3
  {
    hide Derives;
    if args != [] {
      if |args| == 1 && w != [] && Derives(w, args[0]) {
        ExpressionNoBraces(w, args[0]);
      } else {
        var i :| 0 <= i < |w| && w[i].kind == COMMA && Derives(w[..i], args[0]) && DerivesArgs(w[i + 1..], args[1..]);
        ExpressionNoBraces(w[..i], args[0]);
        ArgsNoBraces(w[i + 1..], args[1..]);
        Around(w, i);
      }
    }
  }

  lemma ToBalanced(w: Tokens, e: Expr, k: Kind)
    requires DerivesTo(w, e, k) && k != LBRACE && k != RBRACE
    ensures NoBraces(w)
  {
    hide Derives;
    ExpressionNoBraces(w[..|w| - 1], e);
    assert w == w[..|w| - 1] + [w[|w| - 1]];
  }

  lemma ConditionBalanced(w: Tokens, e: Expr)
    requires DerivesCondition(w, e)
    ensures NoBraces(w)
  {
    hide DerivesTo;
    ToBalanced(w[1..], e, RPAREN);
    assert w == [w[0]] + w[1..];
  }

  lemma DeclarationBalanced(w: Tokens, s: Stmt)
    requires DerivesDeclaration(w, s)
    ensures NoBraces(w)
  {
    hide DerivesTo;
    if s.VarDef? {
      ToBalanced(w[3..], s.e, SEMICOLON);
      assert w == [w[0], w[1], w[2]] + w[3..];
    }
  }

  lemma {:induction false} ConstantsBalanced(w: Tokens, cs: seq<string>)
    requires DerivesConstants(w, cs)
    ensures NoBraces(w)
  {
    if cs != [] && !(|w| == 1 && |cs| == 1) {
      ConstantsBalanced(w[2..], cs[1..]);
      assert w == [w[0], w[1]] + w[2..];
    }
  }

  lemma {:induction false} ParametersBalanced(w: Tokens, ps: seq<Param>)
    requires DerivesParameters(w, ps)
    ensures NoBraces(w)
  {
    if ps != [] && !(|w| == 2 && |ps| == 1) {
      ParametersBalanced(w[3..], ps[1..]);
      assert w == [w[0], w[1], w[2]] + w[3..];
    }
  }

  /** Braces of a string in up to three parts. */
  lemma BracesOf(w: Tokens, i: nat, j: nat)
    requires i <= j <= |w|
    ensures Braces(w) == Braces(w[..i]) + Braces(w[i..j]) + Braces(w[j..])
  {
    hide Braces;
    var u, v, x := w[..i], w[i..j], w[j..];
    assert w == u + v + x;
    BracesConcat(u + v, x);
    BracesConcat(u, v);
  }

  lemma BracesInside(w: Tokens)
    requires |w| >= 2 && w[0].kind == LBRACE && w[|w| - 1].kind == RBRACE
    ensures Braces(w) == Braces(w[1..|w| - 1])
  {
    BracesOf(w, 1, |w| - 1);
    assert w[..1] == [w[0]] && w[|w| - 1..] == [w[|w| - 1]];
  }

  lemma {:induction false} StatementBalanced(w: Tokens, s: Stmt)
    requires DerivesStatement(w, s)
    ensures Braces(w) == 0
    decreases s, 1
  {
    hide DerivesTo, DerivesDeclaration, DerivesStatements, DerivesConstants, DerivesForInit, DerivesCondition, Braces,
         NoBraces;
    match s
    case Return(e) =>
      ReturnBalanced(w, e);
    case ExprStmt(e) => ToBalanced(w, e, SEMICOLON); NoBracesBalanced(w);
    case VarDec(_, _) => DeclarationBalanced(w, s); NoBracesBalanced(w);
    case VarDef(_, _, _) => DeclarationBalanced(w, s); NoBracesBalanced(w);
    case Enum(_, cs) => EnumBalanced(w, s);
    case Block(body) =>
      StatementsBalanced(w[1..|w| - 1], body);
      BracesInside(w);
    case While(c, b) =>
      var i :| 1 <= i <= |w| && DerivesCondition(w[1..i], c) && DerivesStatement(w[i..], b);
      GuardedBalanced(w, i, c, b);
    case If(c, t, None) =>
      var i :| 1 <= i <= |w| && DerivesCondition(w[1..i], c) && DerivesStatement(w[i..], t);
      GuardedBalanced(w, i, c, t);
    case If(_, _, Some(_)) => IfElseBalanced(w, s);
    case For(_, _, _, _) => ForBalanced(w, s);
  }

  lemma ReturnBalanced(w: Tokens, e: Expr)
    requires At(w, RETURN) && DerivesTo(w[1..], e, SEMICOLON)
    ensures Braces(w) == 0
  {
    hide DerivesTo, Braces;
    ToBalanced(w[1..], e, SEMICOLON);
    Together([w[0]], w[1..], w);
    NoBracesBalanced(w);
  }

  lemma GuardedBalanced(w: Tokens, i: nat, c: Expr, s: Stmt)
    requires 1 <= i <= |w| && w[0].kind in {WHILE, IF} && DerivesCondition(w[1..i], c) && DerivesStatement(w[i..], s)
    ensures Braces(w) == 0
    decreases s, 2
  {
    hide DerivesCondition, DerivesStatement, Braces, NoBraces;
    ConditionBalanced(w[1..i], c);
    StatementBalanced(w[i..], s);
    Head(w, 1, i);
  }

  lemma IfElseBalanced(w: Tokens, s: Stmt)
    requires s.If? && s.els.Some? && DerivesStatement(w, s)
    ensures Braces(w) == 0
    decreases s, 0
  {
    hide DerivesCondition, Braces, NoBraces;
    var c, t, e := s.cond, s.thn, s.els.value;
    var i, j :| 1 <= i <= j < |w| && w[j].kind == ELSE && DerivesCondition(w[1..i], c) &&
        DerivesStatement(w[i..j], t) && DerivesStatement(w[j + 1..], e);
    hide DerivesStatement;
    ConditionBalanced(w[1..i], c);
    StatementBalanced(w[i..j], t);
    StatementBalanced(w[j + 1..], e);
    Head(w, 1, i);
    Middle(w, i, j);
  }

  lemma ForBalanced(w: Tokens, s: Stmt)
    requires s.For? && DerivesStatement(w, s)
    ensures Braces(w) == 0
    decreases s, 0
  {
    hide DerivesTo, DerivesForInit, Braces;
    var h, i, j :| 2 <= h <= i <= j <= |w| && DerivesForInit(w[2..h], s.init) &&
        DerivesTo(w[h..i], s.cond, SEMICOLON) && DerivesTo(w[i..j], s.step, RPAREN) && DerivesStatement(w[j..], s.loop);
    hide DerivesStatement;
    StatementBalanced(w[j..], s.loop);
    ForHead(w, h, i, j, s.init, s.cond, s.step);
  }

  /** A string whose head, first token and a part without braces, is followed by w[i..]. */
  lemma Head(w: Tokens, n: nat, i: nat)
    requires 1 == n <= i <= |w| && w[0].kind != LBRACE && w[0].kind != RBRACE && NoBraces(w[1..i])
    ensures Braces(w) == Braces(w[i..])
  {
    assert w[..i] == [w[0]] + w[1..i];
    NoBracesBalanced(w[..i]);
    assert w == w[..i] + w[i..];
    BracesConcat(w[..i], w[i..]);
  }

  lemma Middle(w: Tokens, i: nat, j: nat)
    requires i <= j < |w| && w[j].kind == ELSE
    ensures Braces(w[i..]) == Braces(w[i..j]) + Braces(w[j + 1..])
  {
    assert w[i..] == w[i..j] + ([w[j]] + w[j + 1..]);
    BracesConcat(w[i..j], [w[j]] + w[j + 1..]);
    BracesConcat([w[j]], w[j + 1..]);
  }

  lemma ForHead(w: Tokens, h: nat, i: nat, j: nat, init: Stmt, c: Expr, k: Expr)
    requires 2 <= h <= i <= j <= |w| && w[0].kind == FOR && w[1].kind == LPAREN
    requires DerivesForInit(w[2..h], init) && DerivesTo(w[h..i], c, SEMICOLON) && DerivesTo(w[i..j], k, RPAREN)
    ensures Braces(w) == Braces(w[j..])
  {
    hide DerivesTo, DerivesDeclaration, Braces;
    if DerivesDeclaration(w[2..h], init) {
      DeclarationBalanced(w[2..h], init);
    } else {
      ToBalanced(w[2..h], init.e, SEMICOLON);
    }
    ToBalanced(w[h..i], c, SEMICOLON);
    ToBalanced(w[i..j], k, RPAREN);
    assert w[1..j] == [w[1]] + w[2..h] + w[h..i] + w[i..j];
    Head(w, 1, j);
  }

  lemma Inside(w: Tokens, i: nat, j: nat)
    requires i + 2 <= j <= |w|
    ensures w[i..j][1..j - i - 1] == w[i + 1..j - 1]
  {
    var u, v := w[i..j][1..j - i - 1], w[i + 1..j - 1];
    assert |u| == |v| && forall k :: 0 <= k < |v| ==> u[k] == v[k];
  }

  lemma EnumBalanced(w: Tokens, s: Stmt)
    requires s.Enum? && DerivesStatement(w, s)
    ensures Braces(w) == 0
  {
    hide DerivesConstants, Braces;
    ConstantsBalanced(w[3..|w| - 2], s.consts);
    NoBracesBalanced(w[3..|w| - 2]);
    Head(w, 1, 2);
    var inner, last := w[2..|w| - 1], [w[|w| - 1]];
    Inside(w, 2, |w| - 1);
    assert |inner| == |w| - 3;
    assert inner[1..|inner| - 1] == w[3..|w| - 2];
    BracesInside(inner);
    NoBracesBalanced(last);
    assert w[2..] == inner + last;
    BracesConcat(inner, last);
  }

  lemma {:induction false} StatementsBalanced(w: Tokens, ss: seq<Stmt>)
    requires DerivesStatements(w, ss)
    ensures Braces(w) == 0
    decreases ss
  {
    hide DerivesStatement, Braces;
    if ss == [] {
      NoTokensNoBraces();
    } else {
      var i :| 0 <= i <= |w| && DerivesStatement(w[..i], ss[0]) && DerivesStatements(w[i..], ss[1..]);
      StatementBalanced(w[..i], ss[0]);
      StatementsBalanced(w[i..], ss[1..]);
      assert w == w[..i] + w[i..];
      BracesConcat(w[..i], w[i..]);
    }
  }

  lemma FunctionBalanced(w: Tokens, f: Func)
    requires DerivesFunction(w, f)
    ensures Braces(w) == 0
  {
    hide DerivesStatements, DerivesParameters, Braces, NoBraces;
    var i :| 3 <= i < |w| - 2 && w[i].kind == RPAREN && w[i + 1].kind == LBRACE &&
        DerivesParameters(w[3..i], f.params) && DerivesStatements(w[i + 2..|w| - 1], f.body);
    ParametersBalanced(w[3..i], f.params);
    FunctionHead(w, i);
    Head(w, 1, i + 1);
    FunctionBody(w, i, f.body);
  }

  lemma FunctionHead(w: Tokens, i: nat)
    requires 3 <= i < |w| && w[1].kind == IDENT && w[2].kind == LPAREN && w[i].kind == RPAREN && NoBraces(w[3..i])
    ensures NoBraces(w[1..i + 1])
  {
    assert w[1..i + 1] == [w[1], w[2]] + w[3..i] + [w[i]];
  }

  lemma FunctionBody(w: Tokens, i: nat, body: seq<Stmt>)
    requires i < |w| - 2 && w[i + 1].kind == LBRACE && w[|w| - 1].kind == RBRACE &&
             DerivesStatements(w[i + 2..|w| - 1], body)
    ensures Braces(w[i + 1..]) == 0
  {
    hide Braces, DerivesStatements;
    var v := w[i + 1..];
    assert v[1..|v| - 1] == w[i + 2..|w| - 1];
    StatementsBalanced(v[1..|v| - 1], body);
    BracesInside(v);
  }

  lemma {:induction false} ProgramBalanced(w: Tokens, fs: seq<Func>)
    requires DerivesProgram(w, fs)
    ensures Braces(w) == 0 && (w == [] || w[|w| - 1].kind == RBRACE)
    decreases fs
  {
    hide DerivesFunction, Braces;
    if fs == [] {
      NoTokensNoBraces();
    } else {
      var i :| 0 <= i <= |w| && DerivesFunction(w[..i], fs[0]) && DerivesProgram(w[i..], fs[1..]);
      FunctionBalanced(w[..i], fs[0]);
      ProgramBalanced(w[i..], fs[1..]);
      assert w == w[..i] + w[i..];
      BracesConcat(w[..i], w[i..]);
      if w[i..] == [] {
        FunctionEnds(w[..i], fs[0]);
      }
    }
  }

  lemma FunctionEnds(w: Tokens, f: Func)
    requires DerivesFunction(w, f)
    ensures w != [] && w[|w| - 1].kind == RBRACE
  {
  }

  // ----- what the parser accepts -----

  lemma {:induction false} ParametersTook(ts: Tokens) returns (w: Tokens)
    requires Parameters(ts).Some?
    ensures Took(ts, w, [], Parameters(ts).value.rest) && DerivesParameters(w, Parameters(ts).value.value)
    decreases |ts|
  {
    if !At(ts, TYPE) {
      w := [];
    } else if ts[2].kind == RPAREN {
      w := ts[..2];
      assert ts == w + ts[2..];
    } else {
      var u := ParametersTook(ts[3..]);
      w := ts[..3] + u;
      ParameterStep(ts, u, Parameters(ts[3..]).value.value, Parameters(ts[3..]).value.rest);
    }
  }

  lemma ParameterStep(ts: Tokens, u: Tokens, ps: seq<Param>, rest: Tokens)
    requires |ts| >= 3 && ts[0].kind == TYPE && ts[1].kind == IDENT && ts[2].kind == COMMA
    requires Took(ts[3..], u, [], rest) && DerivesParameters(u, ps)
    ensures Took(ts, ts[..3] + u, [], rest) && DerivesParameters(ts[..3] + u, [Param(ts[0].text, ts[1].text)] + ps)
  {
    var w := ts[..3] + u;
    assert ts == w + rest && w[3..] == u;
    assert ([Param(ts[0].text, ts[1].text)] + ps)[1..] == ps;
  }

  /** The parts of a function. */
  datatype FunctionParts = FunctionParts(
    u1: Tokens, d1: Tokens, t1: Token, params: Tokens,
    u2: Tokens, d2: Tokens, t2: Token, u3: Tokens, d3: Tokens, t3: Token,
    body: Tokens, missing: Tokens, u4: Tokens, d4: Tokens, t4: Token)

  ghost predicate PartsOf(ts: Tokens, p: FunctionParts, f: Func, rest: Tokens) {
    && |ts| >= 2 && ts[0].kind == TYPE && ts[0].text == f.typ && ts[1].kind == IDENT && ts[1].text == f.name
    && p.t1.kind == LPAREN && p.t2.kind == RPAREN && p.t3.kind == LBRACE && p.t4.kind == RBRACE
    && p.u1 + p.d1 == [p.t1] && p.u2 + p.d2 == [p.t2] && p.u3 + p.d3 == [p.t3] && p.u4 + p.d4 == [p.t4]
    && DerivesParameters(p.params, f.params) && DerivesStatements(p.body + p.missing, f.body) && Closing(p.missing)
    && ts == ts[..2] + p.u1 + p.params + p.u2 + p.u3 + p.body + p.u4 + rest
    // once the stream has ended, everything is missing
    && (p.d1 != [] ==> p.params == [] && p.u2 == []) && (p.d2 != [] ==> p.u3 == []) && (p.d3 != [] ==> p.body == [])
    && (p.missing != [] ==> p.u4 == []) && (p.d3 != [] ==> p.u4 == []) && (p.d4 != [] ==> rest == [])
  }

  lemma FunctionTook(ts: Tokens) returns (p: FunctionParts)
    requires Function(ts).Some?
    ensures PartsOf(ts, p, Function(ts).value.value, Function(ts).value.rest)
  {
    hide Parameters, Statements, DerivesParameters, DerivesStatements, Closing, PartsOf;
    var r1 := Expect(ts[2..], LPAREN).value;
    var ps := Parameters(r1).value;
    var r2 := Expect(ps.rest, RPAREN).value;
    var r3 := Expect(r2, LBRACE).value;
    var b := Statements(r3).value;
    var u1, d1, t1 := ExpectSound(ts[2..], LPAREN);
    var params := ParametersTook(r1);
    var u2, d2, t2 := ExpectSound(ps.rest, RPAREN);
    var u3, d3, t3 := ExpectSound(r2, LBRACE);
    var body, missing := StatementsTook(r3);
    var u4, d4, t4 := ExpectSound(b.rest, RBRACE);
    p := FunctionParts(u1, d1, t1, params, u2, d2, t2, u3, d3, t3, body, missing, u4, d4, t4);
    FunctionConcat(ts, r1, ps.rest, r2, r3, b.rest, Function(ts).value.rest, p);
    ThesePartsOf(ts, p, r1, ps.rest, r2, r3, b.rest, Function(ts).value.value, Function(ts).value.rest);
  }

  /** Once the stream has ended, everything that is expected is missing. */
  lemma ThesePartsOf(ts: Tokens, p: FunctionParts, r1: Tokens, r2: Tokens, r3: Tokens, r4: Tokens, r5: Tokens, f: Func,
                     rest: Tokens)
    requires |ts| >= 2 && ts[0].kind == TYPE && ts[0].text == f.typ && ts[1].kind == IDENT && ts[1].text == f.name
    requires p.t1.kind == LPAREN && p.t2.kind == RPAREN && p.t3.kind == LBRACE && p.t4.kind == RBRACE
    requires Took(ts[2..], p.u1, p.d1, r1) && p.u1 + p.d1 == [p.t1] && Took(r1, p.params, [], r2) &&
             Took(r2, p.u2, p.d2, r3) && p.u2 + p.d2 == [p.t2]
    requires Took(r3, p.u3, p.d3, r4) && p.u3 + p.d3 == [p.t3] && Took(r4, p.body, p.missing, r5) &&
             Took(r5, p.u4, p.d4, rest) && p.u4 + p.d4 == [p.t4]
    requires DerivesParameters(p.params, f.params) && DerivesStatements(p.body + p.missing, f.body) &&
             Closing(p.missing)
    requires ts == ts[..2] + p.u1 + p.params + p.u2 + p.u3 + p.body + p.u4 + rest
    ensures PartsOf(ts, p, f, rest)
  {
    hide DerivesParameters, DerivesStatements, Closing;
  }

  lemma FunctionConcat(ts: Tokens, r1: Tokens, r2: Tokens, r3: Tokens, r4: Tokens, r5: Tokens, rest: Tokens,
                       p: FunctionParts)
    requires |ts| >= 2 && ts[2..] == p.u1 + r1 && r1 == p.params + r2 && r2 == p.u2 + r3 && r3 == p.u3 + r4 &&
             r4 == p.body + r5 && r5 == p.u4 + rest
    ensures ts == ts[..2] + p.u1 + p.params + p.u2 + p.u3 + p.body + p.u4 + rest
  {
    assert ts == ts[..2] + ts[2..];
  }

  /** The tokens missing at the end of a function. */
  function Missing(p: FunctionParts): Tokens {
    p.d1 + p.d2 + p.d3 + p.missing + p.d4
  }

  function Present(ts: Tokens, p: FunctionParts): Tokens
    requires |ts| >= 2
  {
    ts[..2] + p.u1 + p.params + p.u2 + p.u3 + p.body + p.u4
  }

  function Whole(ts: Tokens, p: FunctionParts): Tokens
    requires |ts| >= 2
  {
    ts[..2] + [p.t1] + p.params + [p.t2] + [p.t3] + (p.body + p.missing) + [p.t4]
  }

  /** One token, taken or missing: if it is not missing it was taken, and the other way round. */
  lemma TakenOrMissing(u: Tokens, d: Tokens, t: Token)
    requires u + d == [t]
    ensures (u == [] && d == [t]) || (u == [t] && d == [])
  {
    assert |u| + |d| == 1;
    if u == [] {
      assert u + d == d;
    } else {
      assert u + d == u;
    }
  }

  lemma MissingOrder(ts: Tokens, p: FunctionParts, f: Func, rest: Tokens)
    requires PartsOf(ts, p, f, rest)
    ensures p.d1 != [] ==> p.params == [] && p.d2 != []
    ensures p.d2 != [] ==> p.u2 == [] && p.d3 != []
    ensures p.d3 != [] ==> p.u3 == [] && p.body == [] && p.d4 != []
    ensures p.missing != [] ==> p.d4 != []
    ensures p.d4 != [] ==> p.u4 == [] && p.d4 == [p.t4] && rest == []
  {
    hide DerivesParameters, DerivesStatements, Closing;
    TakenOrMissing(p.u2, p.d2, p.t2);
    TakenOrMissing(p.u3, p.d3, p.t3);
    TakenOrMissing(p.u4, p.d4, p.t4);
  }

  lemma Swap(u: Tokens, d: Tokens, v: Tokens, f: Tokens)
    requires d != [] ==> v == []
    ensures (u + v) + (d + f) == (u + d) + (v + f)
  {
    if d == [] {
      assert d + f == f && u + d == u;
    } else {
      assert u + v == u && v + f == f;
    }
  }

  /** What is missing comes after all that is there. */
  lemma MissingIsLast(ts: Tokens, p: FunctionParts, f: Func, rest: Tokens)
    requires PartsOf(ts, p, f, rest)
    ensures Present(ts, p) + Missing(p) == Whole(ts, p)
    ensures Missing(p) != [] ==> p.d4 == [p.t4] && rest == []
    ensures p.d3 == [] ==> p.d1 == [] && p.d2 == []
    ensures p.d3 != [] ==> p.u3 == [] && p.body == [] && p.u4 == []
  {
    MissingOrder(ts, p, f, rest);
    PresentThenMissing(ts[..2], p);
  }

  lemma PresentThenMissing(n: Tokens, p: FunctionParts)
    requires p.d1 != [] ==> p.params == [] && p.d2 != [] && p.u2 == []
    requires p.d2 != [] ==> p.d3 != [] && p.u3 == []
    requires p.d3 != [] ==> p.body == [] && p.u4 == []
    requires p.missing != [] ==> p.u4 == []
    requires p.u1 + p.d1 == [p.t1] && p.u2 + p.d2 == [p.t2] && p.u3 + p.d3 == [p.t3] && p.u4 + p.d4 == [p.t4]
    ensures (n + p.u1 + p.params + p.u2 + p.u3 + p.body + p.u4) + (p.d1 + p.d2 + p.d3 + p.missing + p.d4)
         == n + [p.t1] + p.params + [p.t2] + [p.t3] + (p.body + p.missing) + [p.t4]
  {
    var u := n + p.u1;
    Swap(u, p.d1, p.params, []);
    Swap(u + p.params, p.d1, p.u2, p.d2);
    assert u + p.d1 == n + [p.t1];
    var v, d := u + p.params + p.u2, p.d1 + p.d2;
    assert v + d == n + [p.t1] + p.params + [p.t2];
    Swap(v, d, p.u3, p.d3);
    assert (v + p.u3) + (d + p.d3) == n + [p.t1] + p.params + [p.t2] + [p.t3];
    Swap(v + p.u3, d + p.d3, p.body, p.missing);
    var x, e := v + p.u3 + p.body, d + p.d3 + p.missing;
    Swap(x, e, p.u4, p.d4);
  }

  /** The tokens of a function, with those missing at the end, derive it. */
  lemma FunctionDerives(ts: Tokens, p: FunctionParts, f: Func, rest: Tokens)
    requires PartsOf(ts, p, f, rest)
    ensures DerivesFunction(Present(ts, p) + Missing(p), f)
  {
    hide DerivesParameters, DerivesStatements, DerivesFunction, Closing, Present, Missing;
    MissingIsLast(ts, p, f, rest);
    FunctionRule(ts[0], ts[1], p.t1, p.params, p.t2, p.t3, p.body + p.missing, p.t4, f);
    assert ts[..2] == [ts[0], ts[1]];
  }

  lemma FunctionRule(a: Token, n: Token, t1: Token, ps: Tokens, t2: Token, t3: Token, b: Tokens, t4: Token, f: Func)
    requires a.kind == TYPE && a.text == f.typ && n.kind == IDENT && n.text == f.name
    requires t1.kind == LPAREN && t2.kind == RPAREN && t3.kind == LBRACE && t4.kind == RBRACE
    requires DerivesParameters(ps, f.params) && DerivesStatements(b, f.body)
    ensures DerivesFunction([a, n] + [t1] + ps + [t2] + [t3] + b + [t4], f)
  {
    hide DerivesParameters, DerivesStatements, DerivesFunction;
    var w, i := [a, n] + [t1] + ps + [t2] + [t3] + b + [t4], 3 + |ps|;
    assert w[3..i] == ps && w[i + 2..|w| - 1] == b && w[i] == t2 && w[i + 1] == t3;
    FunctionAt(w, i, f);
  }

  lemma FunctionAt(w: Tokens, i: nat, f: Func)
    requires 3 <= i < |w| - 2 && w[0].kind == TYPE && w[0].text == f.typ && w[1].kind == IDENT && w[1].text == f.name &&
             w[2].kind == LPAREN
    requires w[i].kind == RPAREN && w[i + 1].kind == LBRACE && w[|w| - 1].kind == RBRACE
    requires DerivesParameters(w[3..i], f.params) && DerivesStatements(w[i + 2..|w| - 1], f.body)
    ensures DerivesFunction(w, f)
  {
    hide DerivesParameters, DerivesStatements;
  }

  /** A function at the end of the stream with a token missing does not end with a closing brace, or
      its braces do not match. */
  lemma CutOffShows(ts: Tokens, p: FunctionParts, f: Func, rest: Tokens)
    requires PartsOf(ts, p, f, rest) && Missing(p) != []
    ensures ts[|ts| - 1].kind != RBRACE || Braces(ts) != 0
  {
    hide DerivesStatements, DerivesParameters, DerivesFunction, Braces;
    MissingIsLast(ts, p, f, rest);
    assert ts == Present(ts, p) + rest == Present(ts, p);
    if p.d3 != [] {
      ParametersBalanced(p.params, f.params);
      HeadNoBraces(ts, p);
    } else {
      FunctionDerives(ts, p, f, rest);
      FunctionBalanced(Present(ts, p) + Missing(p), f);
      BracesConcat(Present(ts, p), Missing(p));
      assert Missing(p) == p.missing + [p.t4];
      BracesConcat(p.missing, [p.t4]);
      OneBrace(p.t4);
    }
  }

  lemma OneBrace(t: Token)
    requires t.kind == RBRACE
    ensures Braces([t]) == -1
  {
  }

  lemma HeadNoBraces(ts: Tokens, p: FunctionParts)
    requires |ts| >= 2 && ts[0].kind == TYPE && ts[1].kind == IDENT && NoBraces(p.params)
    requires p.u1 + p.d1 == [p.t1] && p.u2 + p.d2 == [p.t2] && p.t1.kind == LPAREN && p.t2.kind == RPAREN
    requires ts == ts[..2] + p.u1 + p.params + p.u2 + [] + [] + []
    ensures ts[|ts| - 1].kind != RBRACE
  {
    assert forall t :: t in p.u1 ==> t in p.u1 + p.d1;
    assert forall t :: t in p.u2 ==> t in p.u2 + p.d2;
    assert NoBraces(ts[..2]) && NoBraces(p.u1) && NoBraces(p.u2);
    assert ts == ts[..2] + p.u1 + p.params + p.u2;
    assert NoBraces(ts);
  }

  ghost predicate LooksComplete(ts: Tokens) {
    ts == [] || (ts[|ts| - 1].kind == RBRACE && Braces(ts) == 0)
  }

  /** An accepted token string is a program, and the one that was built, if and only if it is empty
      or ends with a closing brace and has as many opening braces as closing ones. */
  lemma {:induction false} AcceptedIsProgramIff(ts: Tokens)
    requires Program(ts).Some?
    ensures DerivesProgram(ts, Program(ts).value) <==> LooksComplete(ts)
    decreases |ts|
  {
    hide DerivesProgram, Braces;
    if DerivesProgram(ts, Program(ts).value) {
      ProgramBalanced(ts, Program(ts).value);
    }
    if LooksComplete(ts) {
      CompleteDerives(ts);
    }
  }

  lemma {:induction false} CompleteDerives(ts: Tokens)
    requires Program(ts).Some? && LooksComplete(ts)
    ensures DerivesProgram(ts, Program(ts).value)
    decreases |ts|
  {
    hide Function, DerivesFunction, Braces, PartsOf;
    if ts != [] {
      var f := Function(ts).value;
      var p := FunctionTook(ts);
      MissingIsLast(ts, p, f.value, f.rest);
      PartsConcat(ts, p, f.value, f.rest);
      FunctionDerives(ts, p, f.value, f.rest);
      if Missing(p) != [] {
        CutOffShows(ts, p, f.value, f.rest);
      }
      assert Present(ts, p) + [] == Present(ts, p);
      FunctionBalanced(Present(ts, p), f.value);
      BracesConcat(Present(ts, p), f.rest);
      NoTokensNoBraces();
      CompleteDerives(f.rest);
      ProgramRule(Present(ts, p), f.rest, f.value, Program(f.rest).value);
    }
  }

  lemma NoTokensNoBraces()
    ensures Braces([]) == 0
  {
  }

  lemma PartsConcat(ts: Tokens, p: FunctionParts, f: Func, rest: Tokens)
    requires PartsOf(ts, p, f, rest)
    ensures |ts| >= 2 && ts == Present(ts, p) + rest
  {
  }

  lemma ProgramRule(u: Tokens, v: Tokens, f: Func, fs: seq<Func>)
    requires DerivesFunction(u, f) && DerivesProgram(v, fs)
    ensures DerivesProgram(u + v, [f] + fs)
  {
    hide DerivesFunction;
    var w := u + v;
    assert w[..|u|] == u && w[|u|..] == v && ([f] + fs)[1..] == fs;
  }

  /** int f is accepted as if it were int f() { }. */
  lemma CutOffAccepted()
    ensures var ts := [Token(TYPE, "int"), Token(IDENT, "f")];
            Program(ts) == Some([Func("int", "f", [], [])]) && !DerivesProgram(ts, [Func("int", "f", [], [])])
  {
    hide DerivesProgram, Braces;
    var ts := [Token(TYPE, "int"), Token(IDENT, "f")];
    var f := Func("int", "f", [], []);
    assert Function(ts) == Some(Parsed(f, [])) by {
      assert ts[2..] == [];
      assert Expect([], LPAREN) == Some([]) && Parameters([]) == Some(Parsed([], [])) &&
          Statements([]) == Some(Parsed([], []));
    }
    assert Program([]) == Some([]);
    assert Program(ts) == Some([f] + []);
    assert [f] + [] == [f];
    assert !LooksComplete(ts) by { assert ts[|ts| - 1].kind == IDENT; }
    AcceptedIsProgramIff(ts);
  }
}
