/** From a program's tree to its text and back through the lexer and the parser. */
module FrontEnd {
  import opened Options
  import opened Syntax
  import opened Decimal
  import opened Parser
  import opened StatementComplete
  import opened Printer
  import opened ProgramPrinter
  import opened Lexical
  import opened LexicalRoundTrip

  // ----- trees whose names and types are words -----

  predicate IsType(w: string) {
    w == "int" || w == "void"
  }

  predicate Named(e: Expr) {
    match e
    case Empty => true
    case Num(_) => true
    case Name(x) => IsName(x)
    case Unary(_, e1) => Named(e1)
    case Bin(_, l, r) => Named(l) && Named(r)
    case Assign(x, e1) => IsName(x) && Named(e1)
    case Call(f, args) => IsName(f) && NamedArgs(args)
  }

  predicate NamedArgs(args: seq<Expr>) {
    args == [] || (Named(args[0]) && NamedArgs(args[1..]))
  }

  predicate NamedStmt(s: Stmt)
    decreases s
  {
    match s
    case Return(e) => Named(e)
    case ExprStmt(e) => Named(e)
    case VarDec(t, n) => IsType(t) && IsName(n)
    case VarDef(t, n, e) => IsType(t) && IsName(n) && Named(e)
    case Enum(n, cs) => IsName(n) && forall i :: 0 <= i < |cs| ==> IsName(cs[i])
    case Block(body) => NamedStmts(body)
    case While(c, b) => Named(c) && NamedStmt(b)
    case If(c, t, None) => Named(c) && NamedStmt(t)
    case If(c, t, Some(e)) => Named(c) && NamedStmt(t) && NamedStmt(e)
    case For(i, c, k, b) => NamedStmt(i) && Named(c) && Named(k) && NamedStmt(b)
  }

  predicate NamedStmts(ss: seq<Stmt>)
    decreases ss
  {
    ss == [] || (NamedStmt(ss[0]) && NamedStmts(ss[1..]))
  }

  predicate NamedFunc(f: Func) {
    && IsType(f.typ) && IsName(f.name) && NamedStmts(f.body)
    && forall i :: 0 <= i < |f.params| ==> IsType(f.params[i].typ) && IsName(f.params[i].name)
  }

  predicate NamedProgram(fs: seq<Func>) {
    forall i :: 0 <= i < |fs| ==> NamedFunc(fs[i])
  }

  // ----- their tokens have texts -----

  ghost predicate AllWritable(w: seq<Token>) {
    forall i :: 0 <= i < |w| ==> Writable(w[i])
  }

  lemma MarksWritable()
    ensures forall k :: Spelling(k) != "" ==> Writable(Mark(k))
    ensures forall x :: IsName(x) ==> Writable(Token(IDENT, x))
    ensures forall t :: IsType(t) ==> Writable(Token(TYPE, t))
    ensures forall n: nat :: n <= INT_MAX ==> Writable(Token(NUM, Print(n)))
  {
    hide IsName;
    forall n: nat | n <= INT_MAX
      ensures Writable(Token(NUM, Print(n)))
    {
      ValueOfPrint(n);
    }
  }

  lemma {:induction false} ShowWritable(k: nat, e: Expr)
    requires Printable(e) && Named(e)
    ensures AllWritable(Show(k, e))
    decreases e, 1
  {
    hide Writable, IsName, Print, ShowBare, Named, Printable;
    BareWritable(e);
    MarksWritable();
  }

  lemma {:induction false} BareWritable(e: Expr)
    requires Printable(e) && Named(e)
    ensures AllWritable(ShowBare(e))
    decreases e, 0
  {
    hide Writable, IsName, Print, Show, ShowArgs;
    MarksWritable();
    match e
    case Unary(_, e1) => ShowWritable(0, e1);
    case Bin(op, l, r) =>
      ShowWritable(Level(op), l);
      ShowWritable(Level(op) - 1, r);
      assert Spelling(op) != "";
    case Assign(_, e1) => ShowWritable(ANY, e1);
    case Call(_, args) => ArgsWritable(args);
    case _ =>
  }

  lemma {:induction false} ArgsWritable(args: seq<Expr>)
    requires PrintableArgs(args) && NamedArgs(args)
    ensures AllWritable(ShowArgs(args))
    decreases args, 2
  {
    hide Writable, IsName, Print, Show;
    MarksWritable();
    if args != [] {
      ShowWritable(ANY, args[0]);
      ArgsWritable(args[1..]);
    }
  }

  lemma ToWritable(e: Expr, k: Kind)
    requires Printable(e) && Named(e) && Spelling(k) != ""
    ensures AllWritable(ShowTo(e, k))
  {
    hide Writable, IsName, Print, Show, Named, Printable;
    MarksWritable();
    ShowWritable(ANY, e);
  }

  lemma ConditionWritable(e: Expr)
    requires Printable(e) && Named(e)
    ensures AllWritable(ShowCondition(e))
  {
    hide Writable, IsName, Print, ShowTo, Named, Printable;
    MarksWritable();
    ToWritable(e, RPAREN);
  }

  lemma InitWritable(s: Stmt)
    requires PrintableInit(s) && NamedStmt(s)
    ensures AllWritable(ShowInit(s))
  {
    hide Writable, IsName, IsType, Print, ShowTo, Named, Printable;
    MarksWritable();
    match s
    case VarDef(_, _, e) => ToWritable(e, SEMICOLON);
    case ExprStmt(e) => ToWritable(e, SEMICOLON);
    case _ =>
  }

  lemma {:induction false} ConstantsWritable(cs: seq<string>)
    requires forall i :: 0 <= i < |cs| ==> IsName(cs[i])
    ensures AllWritable(ShowConstants(cs))
  {
    hide Writable, IsName, Print;
    MarksWritable();
    if |cs| > 1 {
      ConstantsWritable(cs[1..]);
    }
  }

  lemma Joined(u: seq<Token>, v: seq<Token>)
    requires AllWritable(u) && AllWritable(v)
    ensures AllWritable(u + v)
  {
    hide Writable;
  }

  /** A marked token and up to two parts after it. */
  lemma Marked(k: Kind, u: seq<Token>, v: seq<Token>)
    requires Spelling(k) != "" && AllWritable(u) && AllWritable(v)
    ensures AllWritable([Mark(k)] + u) && AllWritable([Mark(k)] + u + v)
  {
    hide Writable;
    assert AllWritable([Mark(k)]) by { MarksWritable(); }
    Joined([Mark(k)], u);
    Joined([Mark(k)] + u, v);
  }

  lemma {:induction false} StatementWritable(s: Stmt)
    requires PrintableStmt(s) && NamedStmt(s)
    ensures AllWritable(ShowStmt(s))
    decreases s, 1
  {
    hide AllWritable, Writable, IsName, IsType, ShowTo, ShowInit, ShowCondition, ShowConstants, ShowStmts, Named,
         Printable, PrintableInit, PrintableStmts, NamedStmts;
    match s
    case Return(e) => ToWritable(e, SEMICOLON); Marked(RETURN, ShowTo(e, SEMICOLON), ShowTo(e, SEMICOLON));
    case ExprStmt(_) => InitPrintable(s); InitWritable(s);
    case VarDec(_, _) => InitPrintable(s); InitWritable(s);
    case VarDef(_, _, _) => InitPrintable(s); InitWritable(s);
    case Enum(n, cs) => EnumWritable(n, cs);
    case Block(body) =>
      StatementsWritable(body);
      assert AllWritable([Mark(RBRACE)]) by { MarksWritable(); OneToken(Mark(RBRACE)); }
      Marked(LBRACE, ShowStmts(body), [Mark(RBRACE)]);
    case While(c, b) =>
      ConditionWritable(c);
      StatementWritable(b);
      Marked(WHILE, ShowCondition(c), ShowStmt(b));
    case If(c, t, None) =>
      ConditionWritable(c);
      StatementWritable(t);
      Marked(IF, ShowCondition(c), ShowStmt(t));
    case If(c, t, Some(e)) =>
      ConditionWritable(c);
      StatementWritable(t);
      StatementWritable(e);
      Marked(IF, ShowCondition(c), ShowStmt(t));
      Marked(ELSE, ShowStmt(e), ShowStmt(e));
      Joined([Mark(IF)] + ShowCondition(c) + ShowStmt(t), [Mark(ELSE)] + ShowStmt(e));
      assert [Mark(IF)] + ShowCondition(c) + ShowStmt(t) + ([Mark(ELSE)] + ShowStmt(e)) == [Mark(IF)] +
          ShowCondition(c) + ShowStmt(t) + [Mark(ELSE)] + ShowStmt(e);
    case For(_, _, _, _) => ForWritable(s);
  }

  lemma OneToken(t: Token)
    requires Writable(t)
    ensures AllWritable([t])
  {
  }

  lemma EnumWritable(n: string, cs: seq<string>)
    requires IsName(n) && forall i :: 0 <= i < |cs| ==> IsName(cs[i])
    ensures AllWritable(ShowStmt(Enum(n, cs)))
  {
    hide Writable, IsName, Print, ShowConstants;
    MarksWritable();
    ConstantsWritable(cs);
  }

  lemma ForWritable(s: Stmt)
    requires s.For? && PrintableStmt(s) && NamedStmt(s)
    ensures AllWritable(ShowStmt(s))
    decreases s, 0
  {
    hide AllWritable, Writable, IsName, IsType, ShowTo, ShowInit, Named, Printable, PrintableInit;
    InitWritable(s.init);
    ToWritable(s.cond, SEMICOLON);
    ToWritable(s.step, RPAREN);
    StatementWritable(s.loop);
    assert AllWritable([Mark(LPAREN)]) by { MarksWritable(); OneToken(Mark(LPAREN)); }
    Marked(FOR, [Mark(LPAREN)], ShowInit(s.init));
    var u := [Mark(FOR)] + [Mark(LPAREN)] + ShowInit(s.init);
    Joined(u, ShowTo(s.cond, SEMICOLON));
    Joined(u + ShowTo(s.cond, SEMICOLON), ShowTo(s.step, RPAREN));
    Joined(u + ShowTo(s.cond, SEMICOLON) + ShowTo(s.step, RPAREN), ShowStmt(s.loop));
  }

  lemma {:induction false} StatementsWritable(ss: seq<Stmt>)
    requires PrintableStmts(ss) && NamedStmts(ss)
    ensures AllWritable(ShowStmts(ss))
    decreases ss, 0
  {
    hide Writable, ShowStmt, PrintableStmt, NamedStmt;
    if ss != [] {
      StatementWritable(ss[0]);
      StatementsWritable(ss[1..]);
    }
  }

  lemma {:induction false} ParamsWritable(ps: seq<Param>)
    requires forall i :: 0 <= i < |ps| ==> IsType(ps[i].typ) && IsName(ps[i].name)
    ensures AllWritable(ShowParams(ps))
  {
    hide Writable, IsName, IsType, Print;
    MarksWritable();
    if |ps| > 1 {
      ParamsWritable(ps[1..]);
    }
  }

  lemma {:induction false} ProgramWritable(fs: seq<Func>)
    requires PrintableProgram(fs) && NamedProgram(fs)
    ensures AllWritable(ShowProgram(fs))
  {
    hide Writable, PrintableStmts, NamedFunc, ShowFunc;
    if fs != [] {
      FunctionWritable(fs[0]);
      ProgramWritable(fs[1..]);
    }
  }

  lemma FunctionWritable(f: Func)
    requires PrintableStmts(f.body) && NamedFunc(f)
    ensures AllWritable(ShowFunc(f))
  {
    hide Writable, IsName, IsType, Print, ShowParams, ShowStmts, PrintableStmts, NamedStmts;
    MarksWritable();
    ParamsWritable(f.params);
    StatementsWritable(f.body);
  }

  // ----- the round trip -----

  /** The text of a program, with a space after every token. */
  function Source(fs: seq<Func>): string
    requires PrintableProgram(fs)
  {
    Written(ShowProgram(fs))
  }

  /** Lexing and parsing a program's text gives back the program if and only if no else in it is
      dangling. */
  lemma SourceRoundTripIff(fs: seq<Func>)
    requires PrintableProgram(fs) && NamedProgram(fs)
    ensures Scan(Source(fs)).Tokens?
    ensures Program(Scan(Source(fs)).tokens) == Some(fs) <==> NearestElseProgram(fs)
  {
    hide Scan, Written, ShowProgram, Program, PrintableProgram, NamedProgram, Writable, NearestElseProgram;
    ProgramWritable(fs);
    WrittenScans(ShowProgram(fs));
    ProgramRoundTripIff(fs);
  }
}
