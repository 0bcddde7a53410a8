/** The grammar of statements, functions and programs. */
module StatementGrammar {
  import opened Options
  import opened Syntax
  import opened Parser
  import opened Grammar

  ghost predicate DerivesTo(w: Tokens, e: Expr, k: Kind) {
    w != [] && w[|w| - 1].kind == k && Derives(w[..|w| - 1], e)
  }

  ghost predicate DerivesCondition(w: Tokens, e: Expr) {
    At(w, LPAREN) && DerivesTo(w[1..], e, RPAREN)
  }

  ghost predicate DerivesConstants(w: Tokens, cs: seq<string>) {
    if cs == [] then w == [] else
    && At(w, IDENT) && w[0].text == cs[0]
    && ((|w| == 1 && |cs| == 1) || (|w| >= 2 && w[1].kind == COMMA && DerivesConstants(w[2..], cs[1..])))
  }

  ghost predicate DerivesDeclaration(w: Tokens, s: Stmt) {
    && |w| >= 3 && w[0].kind == TYPE && w[1].kind == IDENT
    && match s
       case VarDec(t, n) => |w| == 3 && w[2].kind == SEMICOLON && t == w[0].text && n == w[1].text
       case VarDef(t, n, e) =>
           w[2].kind == ASSIGN && t == w[0].text && n == w[1].text && DerivesTo(w[3..], e, SEMICOLON)
       case _ => false
  }

  ghost predicate DerivesForInit(w: Tokens, s: Stmt) {
    DerivesDeclaration(w, s) || (s.ExprStmt? && DerivesTo(w, s.e, SEMICOLON))
  }

  ghost predicate DerivesStatement(w: Tokens, s: Stmt)
    decreases s
  {
    match s
    case Return(e) => At(w, RETURN) && DerivesTo(w[1..], e, SEMICOLON)
    case ExprStmt(e) => DerivesTo(w, e, SEMICOLON)
    case VarDec(_, _) => DerivesDeclaration(w, s)
    case VarDef(_, _, _) => DerivesDeclaration(w, s)
    case Enum(n, cs) =>
      && |w| >= 5 && w[0].kind == ENUM && w[1].kind == IDENT && w[1].text == n && w[2].kind == LBRACE
      && w[|w| - 2].kind == RBRACE && w[|w| - 1].kind == SEMICOLON && DerivesConstants(w[3..|w| - 2], cs)
    case Block(body) =>
        |w| >= 2 && w[0].kind == LBRACE && w[|w| - 1].kind == RBRACE && DerivesStatements(w[1..|w| - 1], body)
    case While(c, b) =>
      At(w, WHILE) && exists i :: 1 <= i <= |w| && DerivesCondition(w[1..i], c) && DerivesStatement(w[i..], b)
    case If(c, t, None) =>
      At(w, IF) && exists i :: 1 <= i <= |w| && DerivesCondition(w[1..i], c) && DerivesStatement(w[i..], t)
    case If(c, t, Some(e)) =>
      At(w, IF) &&
      exists i, j :: 1 <= i <= j < |w| && w[j].kind == ELSE && DerivesCondition(w[1..i], c) &&
          DerivesStatement(w[i..j], t) && DerivesStatement(w[j + 1..], e)
    case For(init, c, k, b) =>
      |w| >= 2 && w[0].kind == FOR && w[1].kind == LPAREN &&
      exists h, i, j :: 2 <= h <= i <= j <= |w| && DerivesForInit(w[2..h], init) && DerivesTo(w[h..i], c, SEMICOLON) &&
          DerivesTo(w[i..j], k, RPAREN) && DerivesStatement(w[j..], b)
  }

  ghost predicate DerivesStatements(w: Tokens, ss: seq<Stmt>)
    decreases ss
  {
    if ss == [] then w == [] else
    exists i :: 0 <= i <= |w| && DerivesStatement(w[..i], ss[0]) && DerivesStatements(w[i..], ss[1..])
  }

  /** Parameters separated by commas; a comma may follow the last one. */
  ghost predicate DerivesParameters(w: Tokens, ps: seq<Param>) {
    if ps == [] then w == [] else
    && |w| >= 2 && w[0].kind == TYPE && w[1].kind == IDENT && ps[0] == Param(w[0].text, w[1].text)
    && ((|w| == 2 && |ps| == 1) || (|w| >= 3 && w[2].kind == COMMA && DerivesParameters(w[3..], ps[1..])))
  }

  ghost predicate DerivesFunction(w: Tokens, f: Func) {
    && |w| >= 6 && w[0].kind == TYPE && w[0].text == f.typ && w[1].kind == IDENT && w[1].text == f.name &&
        w[2].kind == LPAREN
    && w[|w| - 1].kind == RBRACE
    && exists i :: 3 <= i < |w| - 2 && w[i].kind == RPAREN && w[i + 1].kind == LBRACE &&
        DerivesParameters(w[3..i], f.params) && DerivesStatements(w[i + 2..|w| - 1], f.body)
  }

  ghost predicate DerivesProgram(w: Tokens, fs: seq<Func>) {
    if fs == [] then w == [] else
    exists i :: 0 <= i <= |w| && DerivesFunction(w[..i], fs[0]) && DerivesProgram(w[i..], fs[1..])
  }
}
