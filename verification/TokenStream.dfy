/** The parser as it runs: a stream with a cursor that the parsing methods advance. Each method is
    proved to build the tree, and to leave the tokens, that its specification function gives. `None`
    stands for an exit with an error or a read through a null token. */
module TokenStreamObject {
  import opened Options
  import opened Syntax
  import opened Decimal
  import opened Parser
  import opened Lists

  /** A method returned r and left `rest`, as its specification says; on an error, where it stopped
      does not matter. */
  ghost predicate Yields<T>(spec: Option<Parsed<T>>, r: Option<T>, rest: Tokens) {
    if r.Some? then spec == Some(Parsed(r.value, rest)) else spec == None
  }

  /** A list under construction: what has been pushed, and what is still to come. */
  ghost function Pushed<T>(ts: seq<T>, more: Option<Parsed<seq<T>>>): Option<Parsed<seq<T>>> {
    if more.None? then None else Some(Parsed(ts + more.value.value, more.value.rest))
  }

  lemma PushNothing<T>(more: Option<Parsed<seq<T>>>)
    ensures Pushed([], more) == more
  {
    if more.Some? {
      assert [] + more.value.value == more.value.value;
    }
  }

  lemma PushOne<T>(ts: seq<T>, t: T, more: Option<Parsed<seq<T>>>)
    ensures Pushed(ts + [t], more) == Pushed(ts, Pushed([t], more))
  {
    if more.Some? {
      assert ts + [t] + more.value.value == ts + ([t] + more.value.value);
    }
  }

  lemma PushNone<T>(ts: seq<T>, rest: Tokens)
    ensures Pushed(ts, Some(Parsed([], rest))) == Some(Parsed(ts, rest))
    ensures Pushed([], Some(Parsed(ts, rest))) == Some(Parsed(ts, rest))
  {
    assert ts + [] == ts && [] + ts == ts;
  }

  lemma ParametersStep(params: seq<Param>, ts: Tokens)
    requires At(ts, TYPE)
    ensures Pushed(params, Parameters(ts)) ==
              if |ts| < 3 || ts[1].kind != IDENT then None
              else
                var p := Param(ts[0].text, ts[1].text);
                if ts[2].kind == RPAREN then Some(Parsed(params + [p], ts[2..]))
                else if ts[2].kind == COMMA then Pushed(params + [p], Parameters(ts[3..]))
                else None
  {
    if |ts| >= 3 {
      PushOne(params, Param(ts[0].text, ts[1].text), Parameters(ts[3..]));
    }
  }

  lemma NoParameters(params: seq<Param>, ts: Tokens)
    requires !At(ts, TYPE)
    ensures Pushed(params, Parameters(ts)) == Some(Parsed(params, ts))
  {
    PushNone(params, ts);
  }

  lemma ConstantsStep(names: seq<string>, ts: Tokens)
    requires ts != [] && ts[0].kind != RBRACE
    ensures Pushed(names, Constants(ts)) ==
              if ts[0].kind != IDENT then None
              else if |ts| > 1 && ts[1].kind != COMMA then Some(Parsed(names + [ts[0].text], ts[1..]))
              else Pushed(names + [ts[0].text], Constants(if |ts| == 1 then [] else ts[2..]))
  {
    PushOne(names, ts[0].text, Constants(if |ts| == 1 then [] else ts[2..]));
  }

  lemma NoConstants(names: seq<string>, ts: Tokens)
    ensures ts == [] || ts[0].kind == RBRACE ==> Pushed(names, Constants(ts)) == Some(Parsed(names, ts))
  {
    PushNone(names, ts);
  }

  lemma FunctionParts(ts: Tokens)
    ensures Function(ts) ==
              if |ts| < 2 || ts[0].kind != TYPE || ts[1].kind != IDENT then None
              else Signed(ts[0].text, ts[1].text, Parser.Expect(ts[2..], LPAREN))
  {
    hide Statements, Parameters;
  }

  /** A function after its name and an opening parenthesis. */
  ghost function Signed(typ: string, name: string, begun: Option<Tokens>): Option<Parsed<Func>> {
    var r1 :- begun;
    var ps :- Parameters(r1);
    var r2 :- Parser.Expect(ps.rest, RPAREN);
    var b :- Compound(r2);
    Some(Parsed(Func(typ, name, ps.value, b.value), b.rest))
  }

  class TokenStream {
    const tokens: Tokens
    var current: nat

    ghost predicate Valid()
      reads this
    {
      current <= |tokens|
    }

    /** The tokens from the cursor on. */
    ghost function Rest(): Tokens
      requires Valid()
      reads this
    {
      tokens[current..]
    }

    constructor (tokens: Tokens)
      ensures Valid() && Rest() == tokens && this.tokens == tokens
    {
      this.tokens := tokens;
      current := 0;
    }

    method CurrentToken() returns (t: Option<Token>)
      requires Valid()
      ensures t == if Rest() == [] then None else Some(Rest()[0])
    {
      if current >= |tokens| {
        return None;
      }
      t := Some(tokens[current]);
    }

    method Peek(n: nat) returns (t: Option<Token>)
      requires Valid()
      ensures t == if n < |Rest()| then Some(Rest()[n]) else None
    {
      if n + current >= |tokens| {
        return None;
      }
      t := Some(tokens[n + current]);
    }

    method NextToken()
      requires Valid()
      modifies this
      ensures Valid() && Rest() == if old(Rest()) == [] then [] else old(Rest())[1..]
    {
      if current >= |tokens| {
        return;
      }
      current := current + 1;
    }

    /** `ok` is false on an exit; t is null at the end of the stream. */
    method Expect(k: Kind) returns (ok: bool, t: Option<Token>)
      requires Valid()
      modifies this
      ensures Valid()
      ensures if ok then Parser.Expect(old(Rest()), k) == Some(Rest()) else Parser.Expect(old(Rest()), k) == None
      ensures ok ==> t == if old(Rest()) == [] then None else Some(old(Rest())[0])
    {
      t := CurrentToken();
      if t.None? {
        return true, None;
      }
      if t.value.kind == k {
        NextToken();
        return true, t;
      }
      ok := false;
    }

    /** `None` where the lookahead is read through a null token. */
    method IsFuncCallStart() returns (r: Option<bool>)
      requires Valid() && At(Rest(), IDENT)
      ensures r == if |Rest()| < 2 then None else Some(Rest()[1].kind == LPAREN)
    {
      var lparen := Peek(1);
      if lparen.None? {
        return None;
      }
      r := Some(lparen.value.kind == LPAREN);
    }

    method IsVarAsgn() returns (r: Option<bool>)
      requires Valid()
      ensures var ts := Rest();
              r == if ts == [] || (ts[0].kind == IDENT && |ts| < 2) then None
                   else Some(ts[0].kind == IDENT && ts[1].kind == ASSIGN)
    {
      var name := CurrentToken();
      var asgn := Peek(1);
      if name.None? {
        return None;
      }
      if name.value.kind != IDENT {
        return Some(false);
      }
      if asgn.None? {
        return None;
      }
      r := Some(asgn.value.kind == ASSIGN);
    }

    // ----- expressions -----

    method ParseIdent() returns (r: Option<Expr>)
      requires Valid() && At(Rest(), IDENT)
      modifies this
      ensures Valid() && Yields(Primary(old(Rest())), r, Rest())
      decreases |tokens| - current, 1
    {
      var name := CurrentToken();
      var call := IsFuncCallStart();
      if call.None? {
        return None;
      }
      if call.value {
        r := ParseFuncCall();
        return;
      }
      NextToken();
      r := Some(Name(name.value.text));
    }

    method ParsePrimary() returns (r: Option<Expr>)
      requires Valid()
      modifies this
      ensures Valid() && Yields(Primary(old(Rest())), r, Rest())
      decreases |tokens| - current, 2
    {
      hide Expression, Arguments, ToInt;
      var t := CurrentToken();
      if t.Some? && t.value.kind == NUM {
        NextToken();
        var lit := ToInt(t.value.text);
        if lit.None? {
          return None;
        }
        r := Some(Num(lit.value));
      } else if t.Some? && t.value.kind == IDENT {
        r := ParseIdent();
      } else if t.Some? && t.value.kind == LPAREN {
        NextToken();
        r := ParseExpression();
        if r.None? {
          return;
        }
        var ok, _ := Expect(RPAREN);
        if !ok {
          return None;
        }
      } else {
        r := Some(Empty);
      }
    }

    method ParseUnary() returns (r: Option<Expr>)
      requires Valid()
      modifies this
      ensures Valid() && Yields(UnaryExpr(old(Rest())), r, Rest())
      decreases |tokens| - current, 3
    {
      hide Primary;
      var t := CurrentToken();
      if t.None? {
        return None;
      }
      if t.value.kind == NOT {
        NextToken();
        var e := ParsePrimary();
        if e.None? {
          return None;
        }
        return Some(Unary(NOT, e.value));
      }
      r := ParsePrimary();
    }

    /** The expression of level k: parse_multiplicative_expression to parse_log_or_expression. */
    method ParseBinary(k: nat) returns (r: Option<Expr>)
      requires Valid() && 1 <= k <= TOP
      modifies this
      ensures Valid() && Yields(Binary(k, old(Rest())), r, Rest())
      decreases |tokens| - current, k + 3
    {
      if k == 1 {
        r := ParseUnary();
        return;
      }
      var left := ParseBinary(k - 1);
      if left.None? {
        return None;
      }
      r := ParseOperators(k, left.value);
    }

    method ParseOperators(k: nat, first: Expr) returns (r: Option<Expr>)
      requires Valid() && 2 <= k <= TOP
      modifies this
      ensures Valid() && Yields(Operators(k, first, old(Rest())), r, Rest())
      decreases |tokens| - current, k + 2
    {
      hide Binary;
      ghost var spec := Operators(k, first, Rest());
      ghost var start := current;
      var left := first;
      var t := CurrentToken();
      while t.Some? && Level(t.value.kind) == k
        invariant Valid() && start <= current
        invariant t == if Rest() == [] then None else Some(Rest()[0])
        invariant Operators(k, left, Rest()) == spec
        decreases |tokens| - current
      {
        NextToken();
        var right := ParseBinary(k - 1);
        if right.None? {
          return None;
        }
        left := Bin(t.value.kind, left, right.value);
        t := CurrentToken();
      }
      r := Some(left);
    }

    method ParseVarAsgn() returns (r: Option<Expr>)
      requires Valid() && |Rest()| >= 2 && Rest()[0].kind == IDENT && Rest()[1].kind == ASSIGN
      modifies this
      ensures Valid() && Yields(Expression(old(Rest())), r, Rest())
      decreases |tokens| - current, TOP + 4
    {
      hide Binary, Arguments;
      var name := ParseIdent();
      if name.None? {
        return None;
      }
      var ok, _ := Expect(ASSIGN);
      if !ok {
        return None;
      }
      var e := ParseExpression();
      if e.None? {
        return None;
      }
      r := Some(Assign(name.value.name, e.value));
    }

    method ParseExpression() returns (r: Option<Expr>)
      requires Valid()
      modifies this
      ensures Valid() && Yields(Expression(old(Rest())), r, Rest())
      decreases |tokens| - current, TOP + 5
    {
      hide Binary;
      var assignment := IsVarAsgn();
      if assignment.None? {
        return None;
      }
      if assignment.value {
        r := ParseVarAsgn();
      } else {
        r := ParseBinary(TOP);
      }
    }

    method ParseFuncCall() returns (r: Option<Expr>)
      requires Valid() && |Rest()| >= 2 && Rest()[0].kind == IDENT && Rest()[1].kind == LPAREN
      modifies this
      ensures Valid() && Yields(Primary(old(Rest())), r, Rest())
      decreases |tokens| - current, 0
    {
      hide Expression, Arguments;
      var _, name := Expect(IDENT);
      var _, _ := Expect(LPAREN);
      var args := ParseArguments();
      if args.None? {
        return None;
      }
      var _, _ := Expect(RPAREN);
      r := Some(Call(name.value.text, args.value));
    }

    method ParseArguments() returns (r: Option<seq<Expr>>)
      requires Valid()
      modifies this
      ensures Valid() && Yields(Arguments(old(Rest())), r, Rest())
      decreases |tokens| - current, TOP + 6
    {
      hide Expression;
      ghost var spec := Arguments(Rest());
      var args: seq<Expr> := [];
      var t := CurrentToken();
      PushNothing(spec);
      while true
        invariant Valid() && current >= old(current) && t == (if Rest() == [] then None else Some(Rest()[0]))
        invariant spec == Pushed(args, Arguments(Rest()))
        decreases |tokens| - current
      {
        if t.None? {
          return None;
        }
        PushNone(args, Rest());
        if t.value.kind == RPAREN {
          break;
        }
        ghost var more := Arguments(Rest());
        var e := ParseExpression();
        if e.None? {
          return None;
        }
        t := CurrentToken();
        if t.None? {
          return None;
        }
        PushNone(args + [e.value], Rest());
        if t.value.kind == RPAREN {
          args := args + [e.value];
          break;
        }
        var ok, _ := Expect(COMMA);
        if !ok {
          return None;
        }
        PushOne(args, e.value, Arguments(Rest()));
        args := args + [e.value];
        t := CurrentToken();
      }
      r := Some(args);
    }

    // ----- statements -----

    method IsDeclaration() returns (r: Option<DeclarationKind>)
      requires Valid()
      ensures r == DeclarationAt(Rest())
    {
      var typ := CurrentToken();
      var name := Peek(1);
      var third := Peek(2);
      if typ.None? {
        return None;
      }
      if typ.value.kind != TYPE {
        return Some(NoDeclaration);
      }
      if name.None? {
        return None;
      }
      if name.value.kind != IDENT {
        return Some(NoDeclaration);
      }
      if third.None? {
        return None;
      }
      r := Some(if third.value.kind == SEMICOLON then Uninitialised
          else if third.value.kind == ASSIGN then Initialised else NoDeclaration);
    }

    method ParseVarDec() returns (r: Option<Stmt>)
      requires Valid() && DeclarationAt(Rest()) == Some(Uninitialised)
      modifies this
      ensures Valid() && Yields(Declaration(old(Rest())), r, Rest())
    {
      var _, typ := Expect(TYPE);
      var _, name := Expect(IDENT);
      var _, _ := Expect(SEMICOLON);
      r := Some(VarDec(typ.value.text, name.value.text));
    }

    method ParseVarDef() returns (r: Option<Stmt>)
      requires Valid() && DeclarationAt(Rest()) == Some(Initialised)
      modifies this
      ensures Valid() && Yields(Declaration(old(Rest())), r, Rest())
    {
      hide Expression;
      var _, typ := Expect(TYPE);
      var _, name := Expect(IDENT);
      NextToken();
      var init := ParseExpression();
      if init.None? {
        return None;
      }
      var ok, _ := Expect(SEMICOLON);
      if !ok {
        return None;
      }
      r := Some(VarDef(typ.value.text, name.value.text, init.value));
    }

    method ParseDeclaration(d: DeclarationKind) returns (r: Option<Stmt>)
      requires Valid() && DeclarationAt(Rest()) == Some(d) && d != NoDeclaration
      modifies this
      ensures Valid() && Yields(Declaration(old(Rest())), r, Rest())
    {
      if d == Initialised {
        r := ParseVarDef();
      } else {
        r := ParseVarDec();
      }
    }

    /** parse_expression and the token expected after it. */
    method ParseTo(k: Kind) returns (r: Option<Expr>)
      requires Valid()
      modifies this
      ensures Valid() && Yields(ExpressionTo(old(Rest()), k), r, Rest())
    {
      hide Expression;
      r := ParseExpression();
      if r.None? {
        return;
      }
      var ok, _ := Expect(k);
      if !ok {
        return None;
      }
    }

    method ParseCondition() returns (r: Option<Expr>)
      requires Valid()
      modifies this
      ensures Valid() && Yields(Condition(old(Rest())), r, Rest())
    {
      hide ExpressionTo;
      var ok, _ := Expect(LPAREN);
      if !ok {
        return None;
      }
      r := ParseTo(RPAREN);
    }

    method ParseReturn() returns (r: Option<Stmt>)
      requires Valid() && At(Rest(), RETURN)
      modifies this
      ensures Valid() && Yields(Statement(old(Rest())), r, Rest())
    {
      hide Statement, ExpressionTo;
      ReturnUnfolds(Rest());
      var _, _ := Expect(RETURN);
      var e := ParseTo(SEMICOLON);
      if e.None? {
        return None;
      }
      r := Some(Return(e.value));
    }

    method ParseExpressionStatement() returns (r: Option<Stmt>)
      requires Valid()
      modifies this
      ensures Valid()
      ensures Yields((var e :- ExpressionTo(old(Rest()), SEMICOLON); Some(Parsed(ExprStmt(e.value), e.rest))), r,
              Rest())
    {
      hide ExpressionTo;
      var e := ParseTo(SEMICOLON);
      if e.None? {
        return None;
      }
      r := Some(ExprStmt(e.value));
    }

    method ParseEnum() returns (r: Option<Stmt>)
      requires Valid() && At(Rest(), ENUM)
      modifies this
      ensures Valid() && Yields(EnumDeclaration(old(Rest())), r, Rest())
    {
      hide Constants;
      var _, _ := Expect(ENUM);
      var ok, parent := Expect(IDENT);
      if !ok || parent.None? {
        return None;
      }
      var begun, _ := Expect(LBRACE);
      if !begun {
        return None;
      }
      var enums := ParseConstants();
      if enums.None? {
        return None;
      }
      var closed, _ := Expect(RBRACE);
      if !closed {
        return None;
      }
      var ended, _ := Expect(SEMICOLON);
      if !ended {
        return None;
      }
      r := Some(Enum(parent.value.text, enums.value));
    }

    method ParseConstants() returns (r: Option<seq<string>>)
      requires Valid()
      modifies this
      ensures Valid() && Yields(Constants(old(Rest())), r, Rest())
    {
      hide TokenStream.Valid, TokenStream.Rest, Pushed, Constants;
      ghost var spec := Constants(Rest());
      var enums: seq<string> := [];
      var t := CurrentToken();
      PushNothing(spec);
      while t.Some? && t.value.kind != RBRACE
        invariant Valid() && t == (if Rest() == [] then None else Some(Rest()[0]))
        invariant spec == Pushed(enums, Constants(Rest()))
        decreases |Rest()|
      {
        ConstantsStep(enums, Rest());
        var ok, ident := Expect(IDENT);
        if !ok {
          return None;
        }
        t := CurrentToken();
        if t.Some? && t.value.kind != COMMA {
          enums := enums + [ident.value.text];
          break;
        }
        var _, _ := Expect(COMMA);
        enums := enums + [ident.value.text];
        t := CurrentToken();
      }
      NoConstants(enums, Rest());
      r := Some(enums);
    }

    method ParseWhile() returns (r: Option<Stmt>)
      requires Valid() && At(Rest(), WHILE)
      modifies this
      ensures Valid() && Yields(Statement(old(Rest())), r, Rest())
      decreases |tokens| - current, 0
    {
      hide Statement, Condition;
      WhileUnfolds(Rest());
      var _, _ := Expect(WHILE);
      var c := ParseCondition();
      if c.None? {
        return None;
      }
      var b := ParseStatement();
      if b.None? {
        return None;
      }
      r := Some(While(c.value, b.value));
    }

    method ParseFor() returns (r: Option<Stmt>)
      requires Valid() && At(Rest(), FOR)
      modifies this
      ensures Valid() && Yields(Statement(old(Rest())), r, Rest())
      decreases |tokens| - current, 0
    {
      hide Statement, ForInit, ExpressionTo;
      ForUnfolds(Rest());
      var _, _ := Expect(FOR);
      var ok, _ := Expect(LPAREN);
      if !ok {
        return None;
      }
      var init := ParseForInit();
      if init.None? {
        return None;
      }
      var cond := ParseTo(SEMICOLON);
      if cond.None? {
        return None;
      }
      var step := ParseTo(RPAREN);
      if step.None? {
        return None;
      }
      var body := ParseStatement();
      if body.None? {
        return None;
      }
      r := Some(For(init.value, cond.value, step.value, body.value));
    }

    method ParseForInit() returns (r: Option<Stmt>)
      requires Valid()
      modifies this
      ensures Valid() && Yields(ForInit(old(Rest())), r, Rest())
    {
      hide DeclarationAt, Declaration, ExpressionTo;
      var d := IsDeclaration();
      if d.None? {
        return None;
      }
      if d.value != NoDeclaration {
        r := ParseDeclaration(d.value);
        return;
      }
      r := ParseExpressionStatement();
    }

    method ParseIfElse() returns (r: Option<Stmt>)
      requires Valid() && At(Rest(), IF)
      modifies this
      ensures Valid() && Yields(Statement(old(Rest())), r, Rest())
      decreases |tokens| - current, 0
    {
      hide Statement, Condition;
      IfUnfolds(Rest());
      var _, _ := Expect(IF);
      var c := ParseCondition();
      if c.None? {
        return None;
      }
      var thn := ParseStatement();
      if thn.None? {
        return None;
      }
      var t := CurrentToken();
      if t.Some? && t.value.kind == ELSE {
        var _, _ := Expect(ELSE);
        var els := ParseStatement();
        if els.None? {
          return None;
        }
        return Some(If(c.value, thn.value, Some(els.value)));
      }
      r := Some(If(c.value, thn.value, None));
    }

    method ParseCompStmt() returns (r: Option<seq<Stmt>>)
      requires Valid()
      modifies this
      ensures Valid() && Yields(Compound(old(Rest())), r, Rest())
      decreases |tokens| - current, 0
    {
      hide Statement;
      ghost var first := Rest();
      var ok, _ := Expect(LBRACE);
      if !ok {
        return None;
      }
      ghost var spec := Statements(Rest());
      var body: seq<Stmt> := [];
      var t := CurrentToken();
      PushNothing(spec);
      while t.Some? && t.value.kind != RBRACE
        invariant Valid() && t == (if Rest() == [] then None else Some(Rest()[0]))
        invariant Rest() == [] || old(current) < current
        invariant spec == Pushed(body, Statements(Rest()))
        decreases |tokens| - current
      {
        var s := ParseStatement();
        if s.None? {
          return None;
        }
        PushOne(body, s.value, Statements(Rest()));
        body := body + [s.value];
        t := CurrentToken();
      }
      PushNone(body, Rest());
      var closed, _ := Expect(RBRACE);
      if !closed {
        return None;
      }
      r := Some(body);
    }

    method ParseStatement() returns (r: Option<Stmt>)
      requires Valid()
      modifies this
      ensures Valid() && Yields(Statement(old(Rest())), r, Rest())
      decreases |tokens| - current, 1
    {
      hide Statement, DeclarationAt, Declaration, EnumDeclaration, ExpressionTo, Compound;
      var t := CurrentToken();
      if t.None? {
        NoStatement();
        return None;
      }
      if t.value.kind == WHILE {
        r := ParseWhile();
        return;
      } else if t.value.kind == FOR {
        r := ParseFor();
        return;
      }
      OtherUnfolds(Rest());
      var d := IsDeclaration();
      if d.None? {
        return None;
      }
      if d.value != NoDeclaration {
        r := ParseDeclaration(d.value);
      } else if t.value.kind == RETURN {
        r := ParseReturn();
      } else if t.value.kind == IF {
        r := ParseIfElse();
      } else if t.value.kind == ENUM {
        r := ParseEnum();
      } else if t.value.kind == LBRACE {
        var body := ParseCompStmt();
        r := if body.None? then None else Some(Block(body.value));
      } else {
        r := ParseExpressionStatement();
      }
    }

    // ----- functions -----

    method ParseFuncParams() returns (r: Option<seq<Param>>)
      requires Valid()
      modifies this
      ensures Valid() && Yields(Parameters(old(Rest())), r, Rest())
    {
      hide TokenStream.Valid, TokenStream.Rest, Pushed, Parameters;
      ghost var spec := Parameters(Rest());
      var params: seq<Param> := [];
      var t := CurrentToken();
      PushNothing(spec);
      while t.Some? && t.value.kind == TYPE
        invariant Valid() && t == (if Rest() == [] then None else Some(Rest()[0]))
        invariant spec == Pushed(params, Parameters(Rest()))
        decreases |Rest()|
      {
        ParametersStep(params, Rest());
        var _, typ := Expect(TYPE);
        var ok, name := Expect(IDENT);
        if !ok || name.None? {
          return None;
        }
        var p := Param(typ.value.text, name.value.text);
        t := CurrentToken();
        if t.None? {
          return None;
        }
        if t.value.kind == RPAREN {
          params := params + [p];
          break;
        }
        var more, _ := Expect(COMMA);
        if !more {
          return None;
        }
        params := params + [p];
        t := CurrentToken();
      }
      NoParameters(params, Rest());
      r := Some(params);
    }

    method ParseFuncDef() returns (r: Option<Func>)
      requires Valid()
      modifies this
      ensures Valid() && Yields(Function(old(Rest())), r, Rest())
    {
      hide TokenStream.Valid, TokenStream.Rest, Compound, Function, Parameters;
      FunctionParts(Rest());
      var ok, typ := Expect(TYPE);
      if !ok {
        return None;
      }
      var named, name := Expect(IDENT);
      if !named || name.None? {
        return None;
      }
      var begun, _ := Expect(LPAREN);
      if !begun {
        return None;
      }
      var params := ParseFuncParams();
      if params.None? {
        return None;
      }
      var closed, _ := Expect(RPAREN);
      if !closed {
        return None;
      }
      var body := ParseCompStmt();
      if body.None? {
        return None;
      }
      r := Some(Func(typ.value.text, name.value.text, params.value, body.value));
    }

    /** `parse`: the whole program. */
    method ParseProg() returns (r: Option<seq<Func>>)
      requires Valid()
      modifies this
      ensures Valid() && r == Program(old(Rest()))
      ensures r.Some? ==> Rest() == []
    {
      hide Function;
      ghost var first := Rest();
      var prog: seq<Func> := [];
      var t := CurrentToken();
      PutNothing(Program(first));
      while t.Some?
        invariant Valid() && t == (if Rest() == [] then None else Some(Rest()[0]))
        invariant Program(first) == Put(prog, Program(Rest()))
        decreases |tokens| - current
      {
        var f := ParseFuncDef();
        if f.None? {
          return None;
        }
        PutOne(prog, f.value, Program(Rest()));
        prog := prog + [f.value];
        t := CurrentToken();
      }
      assert prog + [] == prog;
      r := Some(prog);
    }
  }

  // ----- one unfolding of the specification for each kind of statement -----

  /** What parse_comp_stmt reads: the statements between braces. */
  function Compound(ts: Tokens): Option<Parsed<seq<Stmt>>> {
    var r1 :- Parser.Expect(ts, LBRACE);
    var b :- Statements(r1);
    var rest :- Parser.Expect(b.rest, RBRACE);
    Some(Parsed(b.value, rest))
  }

  lemma NoStatement()
    ensures Statement([]) == None
  {
  }

  lemma WhileUnfolds(ts: Tokens)
    requires At(ts, WHILE)
    ensures Statement(ts) ==
            (var c :- Condition(ts[1..]); var b :- Statement(c.rest); Some(Parsed(While(c.value, b.value), b.rest)))
  {
    hide Condition;
  }

  lemma ForUnfolds(ts: Tokens)
    requires At(ts, FOR)
    ensures Statement(ts) == (
              var r1 :- Parser.Expect(ts[1..], LPAREN);
              var i :- ForInit(r1);
              var c :- ExpressionTo(i.rest, SEMICOLON);
              var k :- ExpressionTo(c.rest, RPAREN);
              var b :- Statement(k.rest);
              Some(Parsed(For(i.value, c.value, k.value, b.value), b.rest)))
  {
    hide ForInit, ExpressionTo;
  }

  lemma IfUnfolds(ts: Tokens)
    requires At(ts, IF)
    ensures Statement(ts) == (
              var c :- Condition(ts[1..]);
              var t :- Statement(c.rest);
              if At(t.rest, ELSE) then
                (var e :- Statement(t.rest[1..]); Some(Parsed(If(c.value, t.value, Some(e.value)), e.rest)))
              else Some(Parsed(If(c.value, t.value, None), t.rest)))
  {
    hide Condition;
  }

  lemma ReturnUnfolds(ts: Tokens)
    requires At(ts, RETURN)
    ensures Statement(ts) == (var e :- ExpressionTo(ts[1..], SEMICOLON); Some(Parsed(Return(e.value), e.rest)))
  {
    hide ExpressionTo;
  }

  lemma OtherUnfolds(ts: Tokens)
    requires ts != [] && ts[0].kind != WHILE && ts[0].kind != FOR
    ensures DeclarationAt(ts) == None ==> Statement(ts) == None
    ensures DeclarationAt(ts).Some? && DeclarationAt(ts).value != NoDeclaration ==> Statement(ts) == Declaration(ts)
    ensures ts[0].kind == ENUM ==> Statement(ts) == EnumDeclaration(ts)
    ensures ts[0].kind == LBRACE ==> Statement(ts) == (var b :- Compound(ts); Some(Parsed(Block(b.value), b.rest)))
    ensures DeclarationAt(ts) == Some(NoDeclaration) && ts[0].kind != RETURN && ts[0].kind != IF &&
            ts[0].kind != ENUM && ts[0].kind != LBRACE
            ==> Statement(ts) == (var e :- ExpressionTo(ts, SEMICOLON); Some(Parsed(ExprStmt(e.value), e.rest)))
  {
    hide Declaration, EnumDeclaration, ExpressionTo, Condition, Statements;
  }
}
