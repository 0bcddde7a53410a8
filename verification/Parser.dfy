/** The recursive-descent parser as functions from the remaining tokens to a tree and the tokens
    left. `None` is an exit with an error, or a read through a null token at the end of the stream. */
module Parser {
  import opened Options
  import opened Syntax
  import opened Decimal

  type Tokens = seq<Token>

  datatype Parsed<T> = Parsed(value: T, rest: Tokens)

  predicate At(ts: Tokens, k: Kind) {
    ts != [] && ts[0].kind == k
  }

  /** `expect`: at the end of the stream it returns null and the parser goes on. */
  function Expect(ts: Tokens, k: Kind): (r: Option<Tokens>)
    ensures r.Some? ==> |r.value| <= |ts|
  {
    if ts == [] then Some([]) else if ts[0].kind == k then Some(ts[1..]) else None
  }

  // ----- expressions -----

  function Primary(ts: Tokens): (r: Option<Parsed<Expr>>)
    ensures r.Some? ==> |r.value.rest| <= |ts|
    decreases |ts|, 0
  {
    if At(ts, NUM) then
      var v :- ToInt(ts[0].text); Some(Parsed(Num(v), ts[1..]))
    else if At(ts, IDENT) then
      if |ts| < 2 then None
      else if ts[1].kind == LPAREN then
        // the arguments always stop at the parenthesis that is expected
        var args :- Arguments(ts[2..]);
        Some(Parsed(Call(ts[0].text, args.value), args.rest[1..]))
      else Some(Parsed(Name(ts[0].text), ts[1..]))
    else if At(ts, LPAREN) then
      var e :- Expression(ts[1..]);
      var rest :- Expect(e.rest, RPAREN);
      Some(Parsed(e.value, rest))
    else Some(Parsed(Empty, ts))
  }

  function UnaryExpr(ts: Tokens): (r: Option<Parsed<Expr>>)
    ensures r.Some? ==> |r.value.rest| <= |ts|
    decreases |ts|, 1
  {
    if ts == [] then None
    else if ts[0].kind == NOT then
      var e :- Primary(ts[1..]); Some(Parsed(Unary(NOT, e.value), e.rest))
    else Primary(ts)
  }

  /** The binary expressions of level k. */
  function Binary(k: nat, ts: Tokens): (r: Option<Parsed<Expr>>)
    requires 1 <= k <= TOP
    ensures r.Some? ==> |r.value.rest| <= |ts|
    decreases |ts|, 2 * k
  {
    if k == 1 then UnaryExpr(ts) else
    var left :- Binary(k - 1, ts);
    Operators(k, left.value, left.rest)
  }

  /** The loop over the operators of level k, which associate to the left. */
  function Operators(k: nat, left: Expr, ts: Tokens): (r: Option<Parsed<Expr>>)
    requires 2 <= k <= TOP
    ensures r.Some? ==> |r.value.rest| <= |ts|
    decreases |ts|, 2 * k - 1
  {
    if ts == [] || Level(ts[0].kind) != k then Some(Parsed(left, ts)) else
    var right :- Binary(k - 1, ts[1..]);
    Operators(k, Bin(ts[0].kind, left, right.value), right.rest)
  }

  function Expression(ts: Tokens): (r: Option<Parsed<Expr>>)
    ensures r.Some? ==> |r.value.rest| <= |ts|
    decreases |ts|, 2 * TOP + 1
  {
    if ts == [] || (ts[0].kind == IDENT && |ts| < 2) then None
    else if ts[0].kind == IDENT && ts[1].kind == ASSIGN then
      var e :- Expression(ts[2..]); Some(Parsed(Assign(ts[0].text, e.value), e.rest))
    else Binary(TOP, ts)
  }

  /** The arguments up to the closing parenthesis. */
  function Arguments(ts: Tokens): (r: Option<Parsed<seq<Expr>>>)
    ensures r.Some? ==> |r.value.rest| <= |ts| && At(r.value.rest, RPAREN)
    decreases |ts|, 2 * TOP + 2
  {
    if ts == [] then None
    else if ts[0].kind == RPAREN then Some(Parsed([], ts))
    else
      var e :- Expression(ts);
      if e.rest == [] then None
      else if e.rest[0].kind == RPAREN then Some(Parsed([e.value], e.rest))
      else if e.rest[0].kind == COMMA then
        var es :- Arguments(e.rest[1..]); Some(Parsed([e.value] + es.value, es.rest))
      else None
  }

  // ----- statements -----

  datatype DeclarationKind = NoDeclaration | Uninitialised | Initialised

  /** Whether a declaration starts here; `None` if that takes reading past the end. */
  function DeclarationAt(ts: Tokens): Option<DeclarationKind> {
    if ts == [] then None
    else if ts[0].kind != TYPE then Some(NoDeclaration)
    else if |ts| < 2 then None
    else if ts[1].kind != IDENT then Some(NoDeclaration)
    else if |ts| < 3 then None
    else if ts[2].kind == SEMICOLON then Some(Uninitialised)
    else if ts[2].kind == ASSIGN then Some(Initialised)
    else Some(NoDeclaration)
  }

  function Declaration(ts: Tokens): (r: Option<Parsed<Stmt>>)
    requires DeclarationAt(ts).Some? && DeclarationAt(ts).value != NoDeclaration
    ensures r.Some? ==> |r.value.rest| < |ts|
  {
    if DeclarationAt(ts).value == Initialised then
      var e :- Expression(ts[3..]);
      var rest :- Expect(e.rest, SEMICOLON);
      Some(Parsed(VarDef(ts[0].text, ts[1].text, e.value), rest))
    else Some(Parsed(VarDec(ts[0].text, ts[1].text), ts[3..]))
  }

  /** An expression and the token that ends it. */
  function ExpressionTo(ts: Tokens, k: Kind): (r: Option<Parsed<Expr>>)
    ensures r.Some? ==> |r.value.rest| < |ts|
  {
    var e :- Expression(ts);
    var rest :- Expect(e.rest, k);
    Some(Parsed(e.value, rest))
  }

  function Condition(ts: Tokens): (r: Option<Parsed<Expr>>)
    ensures r.Some? ==> |r.value.rest| <= |ts|
  {
    var r1 :- Expect(ts, LPAREN);
    ExpressionTo(r1, RPAREN)
  }

  function Constants(ts: Tokens): (r: Option<Parsed<seq<string>>>)
    ensures r.Some? ==> |r.value.rest| <= |ts|
    decreases |ts|
  {
    if ts == [] || ts[0].kind == RBRACE then Some(Parsed([], ts))
    else if ts[0].kind != IDENT then None
    else if |ts| > 1 && ts[1].kind != COMMA then Some(Parsed([ts[0].text], ts[1..]))
    else
      var cs :- Constants(if |ts| == 1 then [] else ts[2..]);
      Some(Parsed([ts[0].text] + cs.value, cs.rest))
  }

  function EnumDeclaration(ts: Tokens): (r: Option<Parsed<Stmt>>)
    requires At(ts, ENUM)
    ensures r.Some? ==> |r.value.rest| < |ts|
  {
    if |ts| < 2 || ts[1].kind != IDENT then None else
    var r1 :- Expect(ts[2..], LBRACE);
    var cs :- Constants(r1);
    var r2 :- Expect(cs.rest, RBRACE);
    var r3 :- Expect(r2, SEMICOLON);
    Some(Parsed(Enum(ts[1].text, cs.value), r3))
  }

  function ForInit(ts: Tokens): (r: Option<Parsed<Stmt>>)
    ensures r.Some? ==> |r.value.rest| < |ts|
  {
    var d :- DeclarationAt(ts);
    if d != NoDeclaration then Declaration(ts)
    else var e :- ExpressionTo(ts, SEMICOLON); Some(Parsed(ExprStmt(e.value), e.rest))
  }

  function Statement(ts: Tokens): (r: Option<Parsed<Stmt>>)
    ensures r.Some? ==> |r.value.rest| < |ts|
    decreases |ts|, 0
  {
    if ts == [] then None
    else if ts[0].kind == WHILE then
      var c :- Condition(ts[1..]);
      var b :- Statement(c.rest);
      Some(Parsed(While(c.value, b.value), b.rest))
    else if ts[0].kind == FOR then
      var r1 :- Expect(ts[1..], LPAREN);
      var i :- ForInit(r1);
      var c :- ExpressionTo(i.rest, SEMICOLON);
      var k :- ExpressionTo(c.rest, RPAREN);
      var b :- Statement(k.rest);
      Some(Parsed(For(i.value, c.value, k.value, b.value), b.rest))
    else
      var d :- DeclarationAt(ts);
      if d != NoDeclaration then Declaration(ts)
      else if ts[0].kind == RETURN then
        var e :- ExpressionTo(ts[1..], SEMICOLON); Some(Parsed(Return(e.value), e.rest))
      else if ts[0].kind == IF then
        var c :- Condition(ts[1..]);
        var t :- Statement(c.rest);
        if At(t.rest, ELSE) then
          var e :- Statement(t.rest[1..]); Some(Parsed(If(c.value, t.value, Some(e.value)), e.rest))
        else Some(Parsed(If(c.value, t.value, None), t.rest))
      else if ts[0].kind == ENUM then EnumDeclaration(ts)
      else if ts[0].kind == LBRACE then
        var b :- Statements(ts[1..]);
        var rest :- Expect(b.rest, RBRACE);
        Some(Parsed(Block(b.value), rest))
      else
        var e :- ExpressionTo(ts, SEMICOLON); Some(Parsed(ExprStmt(e.value), e.rest))
  }

  /** The statements up to a closing brace or the end of the stream. */
  function Statements(ts: Tokens): (r: Option<Parsed<seq<Stmt>>>)
    ensures r.Some? ==> |r.value.rest| <= |ts| && (r.value.rest == [] || At(r.value.rest, RBRACE))
    decreases |ts|, 1
  {
    if ts == [] || ts[0].kind == RBRACE then Some(Parsed([], ts)) else
    var s :- Statement(ts);
    var ss :- Statements(s.rest);
    Some(Parsed([s.value] + ss.value, ss.rest))
  }

  // ----- functions -----

  function Parameters(ts: Tokens): (r: Option<Parsed<seq<Param>>>)
    ensures r.Some? ==> |r.value.rest| <= |ts|
    decreases |ts|
  {
    if !At(ts, TYPE) then Some(Parsed([], ts))
    else if |ts| < 3 || ts[1].kind != IDENT then None
    else
      var p := Param(ts[0].text, ts[1].text);
      if ts[2].kind == RPAREN then Some(Parsed([p], ts[2..]))
      else if ts[2].kind == COMMA then
        var ps :- Parameters(ts[3..]); Some(Parsed([p] + ps.value, ps.rest))
      else None
  }

  function Function(ts: Tokens): (r: Option<Parsed<Func>>)
    ensures r.Some? ==> |r.value.rest| < |ts|
  {
    if |ts| < 2 || ts[0].kind != TYPE || ts[1].kind != IDENT then None else
    var r1 :- Expect(ts[2..], LPAREN);
    var ps :- Parameters(r1);
    var r2 :- Expect(ps.rest, RPAREN);
    var r3 :- Expect(r2, LBRACE);
    var b :- Statements(r3);
    var r4 :- Expect(b.rest, RBRACE);
    Some(Parsed(Func(ts[0].text, ts[1].text, ps.value, b.value), r4))
  }

  function Program(ts: Tokens): Option<seq<Func>>
    decreases |ts|
  {
    if ts == [] then Some([]) else
    var f :- Function(ts);
    var fs :- Program(f.rest);
    Some([f.value] + fs)
  }
}
