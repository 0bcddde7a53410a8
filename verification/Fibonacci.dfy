/** The recursive Fibonacci program meets every guard, so the compiler is proved right for it. */
module Fibonacci {
  import opened Options
  import opened Syntax
  import R = Resolved
  import Resolve
  import opened Scoping
  import opened Guards
  import opened Portability
  import opened StatementComplete
  import opened Printer
  import opened ProgramPrinter
  import opened Lexical
  import opened LexicalRoundTrip
  import opened FrontEnd
  import opened EndToEnd
  import CodeGen
  import NameMeaning
  import Parser
  import opened Compilable
  import opened Registers

  function VarN(): Expr { Name("n") }

  function Base(k: int): Stmt { If(Bin(EQUAL, VarN(), Num(k)), Block([Return(Num(k))]), None) }

  function Recur(k: int): Expr { Call("fib", [Bin(SUB, VarN(), Num(k))]) }

  /** A function that returns 0 for 0 and 1 for 1, each from a branch of its own, and otherwise the sum of
      its values for the two numbers below; and a main that returns its value for 11. */
  function Fib(): Func {
    Func("int", "fib", [Param("int", "n")], [Base(0), Base(1), Return(Bin(ADD, Recur(1), Recur(2)))])
  }

  function Main(): Func { Func("int", "main", [], [Return(Call("fib", [Num(11)]))]) }

  function Prog(): seq<Func> { [Fib(), Main()] }

  // ----- what the semantic pass makes of it -----

  function RN(unset: nat): R.Expr { R.Ident(R.Param(0, unset)) }

  function RBase(k: int, unset: nat): R.Stmt {
    R.If(R.Bin(R.Eq, RN(unset), R.Num(k)), R.Block([R.Return(R.Num(k))]), None)
  }

  function RRecur(k: int, unset: nat): R.Expr { R.Call("fib", [R.Bin(R.Sub, RN(unset), R.Num(k))]) }

  function RFib(unset: nat): R.Func {
    R.Func("fib", false, 1, 0,
        [RBase(0, unset), RBase(1, unset), R.Return(R.Bin(R.Add, RRecur(1, unset), RRecur(2, unset)))])
  }

  function RMain(): R.Func { R.Func("main", false, 0, 0, [R.Return(R.Call("fib", [R.Num(11)]))]) }

  function RProg(unset: nat): R.Program { [RFib(unset), RMain()] }

  ghost predicate HasFib(env: Resolve.Env) {
    "n" in env && env["n"] == Resolve.Parameter(0) && "fib" in env && env["fib"] == Resolve.Function(1)
  }

  lemma BaseResolves(env: Resolve.Env, k: int, unset: nat)
    requires HasFib(env)
    ensures Resolve.Statement(env, 0, unset, Base(k)) == Some(Resolve.Checked(RBase(k, unset), env, 0))
  {
    var b := [Return(Num(k))];
    assert Resolve.Statement(env, 0, unset, b[0]) == Some(Resolve.Checked(R.Return(R.Num(k)), env, 0));
    OneStatement(env, unset, b, R.Return(R.Num(k)));
    assert Resolve.Expression(env, unset, VarN()) == Some(RN(unset));
  }

  /** A statement that leaves the scope and the frame as they are, and the rest. */
  lemma Statement(env: Resolve.Env, unset: nat, ss: seq<Stmt>, s: R.Stmt, rest: seq<R.Stmt>)
    requires ss != [] && Resolve.Statement(env, 0, unset, ss[0]) == Some(Resolve.Checked(s, env, 0))
    requires Resolve.Statements(env, 0, unset, ss[1..]) == Some(Resolve.Checked(rest, env, 0))
    ensures Resolve.Statements(env, 0, unset, ss) == Some(Resolve.Checked([s] + rest, env, 0))
  {
    hide Resolve.Statement;
  }

  lemma OneStatement(env: Resolve.Env, unset: nat, ss: seq<Stmt>, s: R.Stmt)
    requires |ss| == 1 && Resolve.Statement(env, 0, unset, ss[0]) == Some(Resolve.Checked(s, env, 0))
    ensures Resolve.Statements(env, 0, unset, ss) == Some(Resolve.Checked([s], env, 0))
  {
    assert ss[1..] == [] && Resolve.Statements(env, 0, unset, []) == Some(Resolve.Checked([], env, 0));
    Statement(env, unset, ss, s, []);
    assert [s] + [] == [s];
  }

  lemma OneArgument(env: Resolve.Env, unset: nat, es: seq<Expr>, e: R.Expr)
    requires |es| == 1 && Resolve.Expression(env, unset, es[0]) == Some(e)
    ensures Resolve.Expressions(env, unset, es) == Some([e])
  {
    assert es[1..] == [] && Resolve.Expressions(env, unset, []) == Some([]);
    assert [e] + [] == [e];
  }

  lemma StepResolves(env: Resolve.Env, k: int, unset: nat)
    requires HasFib(env)
    ensures Resolve.Expression(env, unset, Recur(k)) == Some(RRecur(k, unset))
  {
    var arg := [Bin(SUB, VarN(), Num(k))];
    assert Resolve.Expression(env, unset, VarN()) == Some(RN(unset)) &&
        Resolve.Expression(env, unset, Num(k)) == Some(R.Num(k));
    assert Resolve.Expression(env, unset, arg[0]) == Some(R.Bin(R.Sub, RN(unset), R.Num(k)));
    OneArgument(env, unset, arg, R.Bin(R.Sub, RN(unset), R.Num(k)));
  }

  lemma FibResolves(unset: nat) returns (env: Resolve.Env)
    ensures HasFib(env) && "main" !in env &&
            Resolve.Definition(map[], unset, Fib()) == Some(Resolve.Checked(RFib(unset), env, 0))
  {
    var f := Fib();
    env := map["n" := Resolve.Parameter(0)]["fib" := Resolve.Function(1)];
    assert Resolve.Parameters(map[], f.params, 0) == Some(map["n" := Resolve.Parameter(0)])
        by { assert f.params[1..] == []; }
    BaseResolves(env, 0, unset);
    BaseResolves(env, 1, unset);
    StepResolves(env, 1, unset);
    StepResolves(env, 2, unset);
    var last := R.Return(R.Bin(R.Add, RRecur(1, unset), RRecur(2, unset)));
    assert Resolve.Statement(env, 0, unset, f.body[2]) == Some(Resolve.Checked(last, env, 0))
        by { hide Resolve.Expressions, Recur, RRecur; }
    assert f.body[1..][1..] == [f.body[2]] && f.body[1..][0] == f.body[1];
    OneStatement(env, unset, f.body[1..][1..], last);
    Statement(env, unset, f.body[1..], RBase(1, unset), [last]);
    Statement(env, unset, f.body, RBase(0, unset), [RBase(1, unset)] + [last]);
    assert [RBase(0, unset)] + ([RBase(1, unset)] + [last]) == RFib(unset).body;
  }

  lemma ProgResolves(unset: nat)
    ensures Resolve.Program(Prog(), unset) == Some(RProg(unset))
  {
    var env := FibResolves(unset);
    var f := Main();
    var env1 := env["main" := Resolve.Function(0)];
    assert Resolve.Parameters(env, f.params, 0) == Some(env);
    assert Resolve.Expression(env1, unset, Num(11)) == Some(R.Num(11));
    OneArgument(env1, unset, [Num(11)], R.Num(11));
    assert Resolve.Statement(env1, 0, unset, f.body[0]) == Some(Resolve.Checked(RMain().body[0], env1, 0));
    OneStatement(env1, unset, f.body, RMain().body[0]);
    assert Resolve.Definition(env, unset, f) == Some(Resolve.Checked(RMain(), env1, 0));
    assert Resolve.Definitions(env1, unset, []) == Some([]);
    NameMeaning.DefinitionsStep(env, unset, [f], env1, [], RMain());
    assert Prog()[1..] == [f] && [RMain()] + [] == [RMain()];
    NameMeaning.DefinitionsStep(map[], unset, Prog(), env, [RMain()], RFib(unset));
    assert [RFib(unset)] + [RMain()] == RProg(unset);
  }

  // ----- the rules of scope -----

  lemma BaseIsTidy(vis: set<string>, k: int)
    ensures Tidy(vis, {}, Base(k))
  {
    var b := [Return(Num(k))];
    assert TidyAll(vis, {}, b[1..]);
    assert Tidy(vis, {}, Block(b));
  }

  lemma ClearSums(k: int)
    ensures Clear({}, Recur(k))
  {
    var arg := [Bin(SUB, VarN(), Num(k))];
    assert arg[1..] == [] && Clear({}, VarN()) && Clear({}, Num(k)) && Clear({}, arg[0]);
    assert ClearAll({}, arg);
  }

  lemma FibIsTidy(vis: set<string>)
    ensures TidyAll(vis, {}, Fib().body)
  {
    BaseIsTidy(vis, 0);
    BaseIsTidy(vis, 1);
    ClearSums(1);
    ClearSums(2);
    assert Tidy(vis, {}, Fib().body[2]) by { hide Recur; }
    hide Tidy;
    TidyList3(vis, Fib().body);
  }

  lemma MainIsTidy(vis: set<string>, foreign: set<string>)
    ensures TidyFuncs(vis, foreign, [Main()])
  {
    var g := Main();
    var vis1 := vis + {} + {"main"};
    assert ParamNames(g.params) == {} && foreign - {} == foreign;
    assert Clear(foreign, g.body[0].e) by { assert [Num(11)][1..] == []; }
    assert g.body[1..] == [];
    assert TidyAll(vis1, foreign, g.body);
    assert [g][1..] == [];
  }

  lemma ProgIsTidy()
    ensures TidyProgram(Prog())
  {
    hide Fib, Main, TidyAll;
    var f := Fib();
    assert f.name == "fib" && ParamNames(f.params) == {"n"} by { FibHead(); }
    var own := {"n"};
    var vis := {} + own + {"fib"};
    assert {} - own == {} && {} + own == own;
    FibIsTidy(vis);
    MainIsTidy(vis, own);
    assert Prog()[1..] == [Main()];
  }

  lemma FibHead()
    ensures Fib().name == "fib" && ParamNames(Fib().params) == {"n"}
  {
    assert Fib().params[1..] == [];
  }

  lemma TidyList3(vis: set<string>, ss: seq<Stmt>)
    requires |ss| == 3 && forall i :: 0 <= i < 3 ==> Tidy(vis, {}, ss[i]) && Visible(vis, ss[i]) == vis
    ensures TidyAll(vis, {}, ss)
  {
    hide Tidy;
    assert ss[1..][1..] == [ss[2]] && ss[1..][1..][1..] == [];
    assert TidyAll(vis, {}, ss[1..][1..]);
    assert TidyAll(vis, {}, ss[1..]);
  }

  // ----- the guards of the code generator -----

  lemma Leaves(k: int, unset: nat)
    requires -2048 <= k < 2048
    ensures CallFree(RN(unset)) && GoodExpr(0, 1, RN(unset)) && Portable(RN(unset))
    ensures CallFree(R.Num(k)) && GoodExpr(0, 1, R.Num(k)) && Portable(R.Num(k))
  {
  }

  lemma StepIsGood(frames: CodeGen.Frames, k: int, unset: nat, busy: nat)
    requires "fib" in frames && frames["fib"] == 0 && -2048 <= k < 2048 && busy <= 7
    ensures GoodExpr(0, 1, RRecur(k, unset)) && Safe(frames, 0, RRecur(k, unset), busy, {}) &&
            Portable(RRecur(k, unset))
  {
    var arg := R.Bin(R.Sub, RN(unset), R.Num(k));
    Leaves(k, unset);
    assert CallFree(arg) && GoodExpr(0, 1, arg) && Portable(arg);
    RecursionIsSafe(frames, RFib(unset), [arg], busy);
  }

  lemma BaseIsGood(frames: CodeGen.Frames, k: int, unset: nat)
    requires -2048 <= k < 2048
    ensures GoodStmt(frames, 0, 1, RBase(k, unset)) && PortableStmt(RBase(k, unset))
  {
    var c, r := R.Bin(R.Eq, RN(unset), R.Num(k)), R.Return(R.Num(k));
    Leaves(k, unset);
    assert CallFree(c) && CallFree(R.Num(k));
    CallFreeIsSafe(frames, 0, c, 0, {});
    CallFreeIsSafe(frames, 0, R.Num(k), 0, {});
    assert GoodExpr(0, 1, c) && Portable(c);
    assert GoodStmt(frames, 0, 1, r) && PortableStmt(r);
    assert GoodStmt(frames, 0, 1, R.Block([r])) && PortableStmt(R.Block([r]));
  }

  lemma FibIsGood(frames: CodeGen.Frames, unset: nat)
    requires "fib" in frames && frames["fib"] == 0
    ensures GoodFunc(frames, RFib(unset))
    ensures forall i :: 0 <= i < |RFib(unset).body| ==> PortableStmt(RFib(unset).body[i])
  {
    BaseIsGood(frames, 0, unset);
    BaseIsGood(frames, 1, unset);
    StepIsGood(frames, 1, unset, 0);
    StepIsGood(frames, 2, unset, 1);
    hide RRecur;
    assert Good(frames, 0, 1, R.Bin(R.Add, RRecur(1, unset), RRecur(2, unset)));
  }

  lemma MainIsGood(frames: CodeGen.Frames)
    requires "fib" in frames && frames["fib"] == 0
    ensures GoodFunc(frames, RMain())
    ensures forall i :: 0 <= i < |RMain().body| ==> PortableStmt(RMain().body[i])
  {
    var args := [R.Num(11)];
    assert GoodExpr(0, 0, args[0]) && CallFree(args[0]) && Portable(args[0]);
    CallFreeArgsAreSafe(frames, 0, args, 44, 0, {});
    assert SafeCall(0, 0, 1, {});
    assert Good(frames, 0, 0, R.Call("fib", args));
  }

  lemma ProgIsGood(unset: nat)
    ensures GoodProgram(RProg(unset)) && PortableProgram(RProg(unset))
  {
    var p := RProg(unset);
    var frames := CodeGen.FramesOf(p);
    assert "fib" in frames && frames["fib"] == 0;
    FibIsGood(frames, unset);
    MainIsGood(frames);
    hide GoodFunc;
    assert p[0] == RFib(unset) && p[1] == RMain();
  }

  // ----- its text -----

  lemma StepIsPrintable(k: int)
    requires 0 <= k <= 11
    ensures Printable(Recur(k)) && Named(Recur(k))
  {
    var arg := Bin(SUB, VarN(), Num(k));
    NamesAreNames();
    hide IsName;
    assert Printable(arg) && Named(arg);
    OnePrintable(arg);
  }

  lemma NamesAreNames()
    ensures IsName("n") && IsName("fib") && IsName("main")
  {
  }

  lemma OnePrintable(e: Expr)
    requires Printable(e) && Named(e)
    ensures PrintableArgs([e]) && NamedArgs([e])
  {
    hide Printable, Named;
    assert [e][1..] == [];
  }

  lemma BaseIsPrintable(k: int)
    requires 0 <= k <= 11
    ensures PrintableStmt(Base(k)) && NamedStmt(Base(k)) && NearestElse(Base(k))
  {
    var b := [Return(Num(k))];
    assert b[1..] == [] && Printable(Num(k)) && Named(Num(k));
    assert PrintableStmt(b[0]) && NamedStmt(b[0]) && NearestElse(b[0]);
    assert PrintableStmts(b) && NamedStmts(b) && NearestElses(b);
  }

  lemma BodyIsPrintable(ss: seq<Stmt>)
    requires |ss| <= 3 && forall i :: 0 <= i < |ss| ==> PrintableStmt(ss[i]) && NamedStmt(ss[i]) && NearestElse(ss[i])
    ensures PrintableStmts(ss) && NamedStmts(ss) && NearestElses(ss)
    decreases ss
  {
    hide PrintableStmt, NamedStmt, NearestElse;
    if ss != [] {
      BodyIsPrintable(ss[1..]);
    }
  }

  lemma FibIsPrintable()
    ensures PrintableStmts(Fib().body) && NamedFunc(Fib()) && NearestElses(Fib().body)
  {
    BaseIsPrintable(0);
    BaseIsPrintable(1);
    StepIsPrintable(1);
    StepIsPrintable(2);
    var s := Return(Bin(ADD, Recur(1), Recur(2)));
    assert PrintableStmt(s) && NamedStmt(s) by { hide Recur; }
    hide PrintableStmt, NamedStmt, NearestElse, Base;
    assert NearestElse(s) by { ReturnIsNearest(s.e); }
    BodyIsPrintable(Fib().body);
  }

  lemma ReturnIsNearest(e: Expr)
    ensures NearestElse(Return(e))
  {
  }

  lemma MainIsPrintable()
    ensures PrintableStmts(Main().body) && NamedFunc(Main()) && NearestElses(Main().body)
  {
    var args := [Num(11)];
    assert args[1..] == [];
    assert PrintableArgs(args) && NamedArgs(args);
    BodyIsPrintable(Main().body);
  }

  /** The text of the program is compiled correctly: it meets every guard. */
  lemma FibIsTrusted(unset: nat)
    ensures PrintableProgram(Prog()) && Parsed(Source(Prog())) == Some(Prog()) && Trusted(Source(Prog()), unset)
  {
    hide Scan, Written, ShowProgram, GoodProgram, PortableProgram, TidyProgram, Resolve.Program, NamedFunc,
         NearestElses, PrintableStmts, RProg, Parsed;
    FibIsPrintable();
    MainIsPrintable();
    var fs := Prog();
    assert fs[0] == Fib() && fs[1] == Main();
    PrintedProgramCompiles(fs, unset);
    ProgIsTidy();
    ProgResolves(unset);
    ProgIsGood(unset);
  }

  // ----- it compiles -----

  lemma StepFits(frames: CodeGen.Frames, k: int, unset: nat)
    requires "fib" in frames
    ensures Need(frames, RRecur(k, unset)) == 1
  {
    var args := [R.Bin(R.Sub, RN(unset), R.Num(k))];
    assert Need(frames, RN(unset)) == 1 && Need(frames, R.Num(k)) == 1;
    assert args[1..] == [] && Need(frames, args[0]) == 2;
    assert ArgsNeed(frames, args) == 2;
  }

  lemma BaseFits(frames: CodeGen.Frames, k: int, unset: nat)
    ensures StmtFits(frames, RBase(k, unset))
  {
    var b := [R.Return(R.Num(k))];
    assert b[1..] == [] && Need(frames, RN(unset)) == 1 && Need(frames, R.Num(k)) == 1;
    assert StmtFits(frames, b[0]) && AllFit(frames, b);
    assert StmtFits(frames, R.Block(b));
  }

  lemma FibFits(frames: CodeGen.Frames, unset: nat)
    requires "fib" in frames
    ensures AllFit(frames, RFib(unset).body)
  {
    var ss := RFib(unset).body;
    BaseFits(frames, 0, unset);
    BaseFits(frames, 1, unset);
    StepFits(frames, 1, unset);
    StepFits(frames, 2, unset);
    assert StmtFits(frames, ss[2]) by { hide RRecur; }
    hide StmtFits;
    assert ss[1..][1..] == [ss[2]] && ss[1..][1..][1..] == [];
    assert ss[1..][0] == RBase(1, unset) && AllFit(frames, ss[1..][1..]);
    assert AllFit(frames, ss[1..]);
  }

  lemma MainFits(frames: CodeGen.Frames)
    requires "fib" in frames
    ensures AllFit(frames, RMain().body)
  {
    var args := [R.Num(11)];
    assert args[1..] == [] && ArgsNeed(frames, args) == 1;
    assert RMain().body[1..] == [];
  }

  /** The program meets every guard and is compiled, so CompilerCorrect speaks of it. */
  lemma FibIsCompiled(unset: nat)
    ensures PrintableProgram(Prog()) && Trusted(Source(Prog()), unset) && Compile(Source(Prog()), unset).Some?
  {
    hide Scan, Written, ShowProgram, TidyProgram, Parsed, Parser.Program, GoodProgram, PortableProgram, Resolve.Program,
         CodeGen.GenProgram, AllFit;
    FibIsTrusted(unset);
    ProgResolves(unset);
    var p := RProg(unset);
    var frames := CodeGen.FramesOf(p);
    assert "fib" in frames;
    FibFits(frames, unset);
    MainFits(frames);
    CompilesIff(p);
    assert p[0] == RFib(unset) && p[1] == RMain();
  }
}
