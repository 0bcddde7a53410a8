/** What the recursive Fibonacci program yields, and that its compiled code ends with that status. */
module FibonacciRun {
  import opened Options
  import opened Words
  import M = Machine
  import opened Syntax
  import opened Fibonacci
  import opened EndToEnd
  import opened NameSemantics
  import opened CodeSize
  import opened Scoping
  import opened Guards
  import opened Portability
  import V = Semantics
  import CodeGen
  import R = Resolved
  import Resolve

  function F(n: nat): nat {
    if n < 2 then n else F(n - 1) + F(n - 2)
  }

  function Holding(w: Word): Store {
    map["n" := Arg(w)]
  }

  /** A value as an expression with no change to the variables. */
  predicate Gives(e: Expr, w: Word, v: Word, room: nat, fuel: nat) {
    Eval(Prog(), V.C, e, Holding(w), room, fuel) == Some(Evaluated(v, Holding(w)))
  }

  lemma BaseTestGives(k: int, w: Word, room: nat, fuel: nat)
    requires 0 <= k < 2
    ensures Gives(Bin(EQUAL, VarN(), Num(k)), w, Truth(w == k), room, fuel)
  {
    assert Gives(VarN(), w, w, room, fuel) && Gives(Num(k), w, k, room, fuel);
  }

  /** if (n == k) { return k; } */
  lemma BaseRuns(k: int, w: Word, room: nat, fuel: nat)
    requires 0 <= k < 2
    ensures Exec(Prog(), V.C, Base(k), Holding(w), room, fuel) ==
            Some(if w == k then Returned(Some(k)) else Normal(Holding(w)))
  {
    hide Eval;
    BaseTestGives(k, w, room, fuel);
    var b := [Return(Num(k))];
    assert Gives(Num(k), w, k, room, fuel) by { NumGives(k, w, room, fuel); }
    assert Exec(Prog(), V.C, b[0], Holding(w), room, fuel) == Some(Returned(Some(k)));
    assert ExecAll(Prog(), V.C, b, Holding(w), room, fuel) == Some(Returned(Some(k)));
  }

  lemma NumGives(k: int, w: Word, room: nat, fuel: nat)
    requires 0 <= k < 2
    ensures Gives(Num(k), w, k, room, fuel)
  {
  }

  lemma BaseDeclares(k: int)
    ensures Declarations(Base(k)) == 0
  {
    assert [Return(Num(k))][1..] == [];
    assert AllDeclarations([Return(Num(k))]) == 0;
  }

  lemma FibFrame()
    ensures Frame(Fib()) == 112 && Frame(Main()) == 112
  {
    var b := Fib().body;
    BaseDeclares(0);
    BaseDeclares(1);
    assert b[1..][1..][1..] == [] && b[1..][1..][0] == b[2] && b[1..][0] == Base(1);
    assert AllDeclarations(b[1..][1..]) == 0;
    assert AllDeclarations(b[1..]) == 0;
    assert Main().body[1..] == [];
  }

  /** fib(n - k), from what a run of the function on n - k gives. */
  lemma StepGives(k: int, n: nat, v: Word, room: nat, fuel: nat)
    requires k in {1, 2} && 2 <= n < 0x8000_0000 && room >= 112
    requires RunBody(Prog(), V.C, Fib(), [n - k], room - 112, fuel) == Some(Some(v))
    ensures Gives(Recur(k), n, v, room, fuel)
  {
    hide RunBody, Fib, Frame;
    FibFrame();
    FindFib();
    var args := [Bin(SUB, VarN(), Num(k))];
    DifferenceGives(k, n, room, fuel);
    OneArgumentGives(args[0], n, n - k, room, fuel);
    hide EvalArgs;
    assert Eval(Prog(), V.C, Call("fib", args), Holding(n), room, fuel) == Some(Evaluated(v, Holding(n)));
  }

  lemma DifferenceGives(k: int, n: nat, room: nat, fuel: nat)
    requires k in {1, 2} && 2 <= n < 0x8000_0000
    ensures Gives(Bin(SUB, VarN(), Num(k)), n, n - k, room, fuel)
  {
    assert Gives(VarN(), n, n, room, fuel) && Gives(Num(k), n, k, room, fuel);
  }

  lemma OneArgumentGives(e: Expr, n: Word, v: Word, room: nat, fuel: nat)
    requires Gives(e, n, v, room, fuel)
    ensures EvalArgs(Prog(), V.C, [e], Holding(n), room, fuel) == Some(EvaluatedAll([v], Holding(n)))
  {
    assert [e][1..] == [] && EvalArgs(Prog(), V.C, [], Holding(n), room, fuel) == Some(EvaluatedAll([], Holding(n)));
    assert [v] + [] == [v];
  }

  lemma FindFib()
    ensures Find(Prog(), "fib") == Some(Fib()) && Find(Prog(), "main") == Some(Main())
  {
    assert Prog()[1..] == [Main()];
  }

  /** The function gives the Fibonacci number of its argument modulo 2^32, if there is stack for a
      frame of 112 bytes for each number from 1 to n and one below. */
  lemma {:induction false} FibYields(n: nat, room: nat, fuel: nat)
    requires n < 0x8000_0000 && 112 * n <= room
    ensures RunBody(Prog(), V.C, Fib(), [n], room, fuel) == Some(Some(Wrap(F(n))))
    decreases n
  {
    hide Exec;
    var b := Fib().body;
    BaseRuns(0, n, room, fuel);
    BaseRuns(1, n, room, fuel);
    assert Bind(map[], Fib().params, [n]) == Holding(n) by { assert Fib().params[1..] == []; }
    if n >= 2 {
      FibYields(n - 1, room - 112, fuel);
      FibYields(n - 2, room - 112, fuel);
      StepGives(1, n, Wrap(F(n - 1)), room, fuel);
      StepGives(2, n, Wrap(F(n - 2)), room, fuel);
      SumReturned(n, room, fuel);
    }
    BodyRuns(n, room, fuel);
  }

  lemma SumReturned(n: nat, room: nat, fuel: nat)
    requires 2 <= n < 0x8000_0000
    requires Gives(Recur(1), n, Wrap(F(n - 1)), room, fuel) && Gives(Recur(2), n, Wrap(F(n - 2)), room, fuel)
    ensures Exec(Prog(), V.C, Fib().body[2], Holding(n), room, fuel) == Some(Returned(Some(Wrap(F(n)))))
  {
    hide Recur, Wrap, F, Eval, Exec, Gives;
    FibSum(n);
    WrapOfSum(F(n - 1), Wrap(F(n - 2)));
    WrapOfSum(F(n - 2), F(n - 1));
    SumGives(Recur(1), Recur(2), n, Wrap(F(n - 1)), Wrap(F(n - 2)), room, fuel);
    ReturnGives(Bin(ADD, Recur(1), Recur(2)), n, Wrap(F(n)), room, fuel);
  }

  lemma SumGives(l: Expr, r: Expr, n: Word, a: Word, b: Word, room: nat, fuel: nat)
    requires Gives(l, n, a, room, fuel) && Gives(r, n, b, room, fuel)
    ensures Gives(Bin(ADD, l, r), n, Wrap(a + b), room, fuel)
  {
    hide Wrap;
  }

  lemma ReturnGives(e: Expr, n: Word, v: Word, room: nat, fuel: nat)
    requires Gives(e, n, v, room, fuel)
    ensures Exec(Prog(), V.C, Return(e), Holding(n), room, fuel) == Some(Returned(Some(v)))
  {
  }

  lemma FibSum(n: nat)
    requires n >= 2
    ensures F(n) == F(n - 1) + F(n - 2)
  {
  }

  lemma BodyRuns(n: nat, room: nat, fuel: nat)
    requires n < 0x8000_0000
    requires forall k :: k in {0, 1} ==> Exec(Prog(), V.C, Base(k), Holding(n), room, fuel) ==
                                         Some(if n == k then Returned(Some(k)) else Normal(Holding(n)))
    requires n >= 2 ==> Exec(Prog(), V.C, Fib().body[2], Holding(n), room, fuel) == Some(Returned(Some(Wrap(F(n)))))
    ensures ExecAll(Prog(), V.C, Fib().body, Holding(n), room, fuel) == Some(Returned(Some(Wrap(F(n)))))
  {
    hide Exec;
    var b := Fib().body;
    assert b[0] == Base(0) && b[1..][0] == Base(1) && b[1..][1..] == [b[2]];
    var all := Some(Returned(Some(Wrap(F(n)))));
    if n < 2 {
      assert F(n) == n && Wrap(n) == n;
    } else {
      assert ExecAll(Prog(), V.C, [b[2]], Holding(n), room, fuel) == all;
    }
    if n > 0 {
      assert Exec(Prog(), V.C, b[0], Holding(n), room, fuel) == Some(Normal(Holding(n)));
      assert ExecAll(Prog(), V.C, b[1..], Holding(n), room, fuel) == all;
    }
  }

  /** The program yields 89. */
  lemma ProgYields(room: nat, fuel: nat)
    requires room >= 112 * 13
    ensures RunFunc(Prog(), V.C, Main(), [], room, fuel) == Some(Some(89))
  {
    hide RunBody;
    FibFrame();
    FindFib();
    FibYields(11, room - 224, fuel);
    assert F(11) == 89;
    MainRuns(room - 112, fuel);
  }

  lemma MainRuns(room: nat, fuel: nat)
    requires room >= 112 && RunBody(Prog(), V.C, Fib(), [11], room - 112, fuel) == Some(Some(89))
    ensures RunBody(Prog(), V.C, Main(), [], room, fuel) == Some(Some(89))
  {
    FibFrame();
    FindFib();
    hide Fib;
    var args, st: Store := [Num(11)], map[];
    assert Eval(Prog(), V.C, Num(11), st, room, fuel) == Some(Evaluated(11, st));
    assert args[1..] == [] && EvalArgs(Prog(), V.C, [], st, room, fuel) == Some(EvaluatedAll([], st));
    assert EvalArgs(Prog(), V.C, args, st, room, fuel) == Some(EvaluatedAll([11], st))
        by { assert [11 as Word] + [] == [11]; }
    assert Eval(Prog(), V.C, Call("fib", args), st, room, fuel) == Some(Evaluated(89, st));
    assert Bind(map[], Main().params, []) == st;
    var body := Main().body;
    assert Exec(Prog(), V.C, body[0], st, room, fuel) == Some(Returned(Some(89)));
    assert ExecAll(Prog(), V.C, body, st, room, fuel) == Some(Returned(Some(89)));
  }

  // ----- its code -----

  lemma RecurNodes(k: int, unset: nat)
    ensures Nodes(RRecur(k, unset)) == 5
  {
    var args := [R.Bin(R.Sub, RN(unset), R.Num(k))];
    assert args[1..] == [] && Nodes(args[0]) == 3;
    assert ArgsNodes(args) == 4;
  }

  lemma BaseNodes(k: int, unset: nat)
    ensures StmtNodes(RBase(k, unset)) == 6
  {
    var b := [R.Return(R.Num(k))];
    assert b[1..] == [] && AllNodes(b) == 2;
    assert StmtNodes(R.Block(b)) == 2;
    assert Nodes(R.Bin(R.Eq, RN(unset), R.Num(k))) == 3;
  }

  lemma FibNodes(unset: nat)
    ensures AllNodes(RFib(unset).body) == 24
  {
    var b := RFib(unset).body;
    BaseNodes(0, unset);
    BaseNodes(1, unset);
    RecurNodes(1, unset);
    RecurNodes(2, unset);
    assert b[1..][0] == b[1] && b[1..][1..] == [b[2]] && b[1..][1..][1..] == [];
    hide RRecur, RBase;
    assert StmtNodes(b[2]) == 12;
    hide StmtNodes;
    assert AllNodes(b[1..][1..]) == 12;
    assert AllNodes(b[1..]) == 18;
  }

  lemma MainNodes()
    ensures AllNodes(RMain().body) == 4
  {
    var m := RMain().body;
    assert m[1..] == [] && [R.Num(11)][1..] == [] && ArgsNodes([R.Num(11)]) == 2;
  }

  lemma FibSize(unset: nat)
    ensures ProgramNodes(RProg(unset)) == 30
  {
    FibNodes(unset);
    MainNodes();
    hide RFib, RMain, AllNodes;
    var p := RProg(unset);
    assert p[1..] == [RMain()] && p[1..][1..] == [];
    assert ProgramNodes(p[1..]) == 5;
  }

  /** Every text with this syntax tree compiles to a listing that the machine, with 1456 bytes of stack,
      runs to the exit system call with status 89; it stops nowhere else. */
  lemma FibCompiledRuns(source: string, unset: nat, code: M.Listing, room: nat, top: int, s: M.State)
      returns (s': M.State)
    requires Parsed(source) == Some(Prog()) && Compile(source, unset) == Some(code)
    requires Loaded(code, [], room, top, s) && room >= 112 * 13
    ensures M.Reaches(code, s, s') && s'.pc < |code| && code[s'.pc] == M.Ecall && s'.a[0] == 89 && s'.a[7] == 93
    ensures forall x: M.State :: M.Reaches(code, s, x) && M.Step(code, x).None? ==> x.a[0] == 89
  {
    hide *;
    FibTextTrusted(source, unset);
    ShortCode(source, unset, code);
    ProgramYields(source, room);
    s' := CompilerCorrect(source, unset, code, [], room, 0, 89, top, s);
  }

  lemma FibTextTrusted(source: string, unset: nat)
    requires Parsed(source) == Some(Prog())
    ensures Trusted(source, unset)
  {
    hide Prog, Parsed, RProg, TidyProgram, GoodProgram, PortableProgram, Resolve.Program;
    ProgIsTidy();
    ProgResolves(unset);
    ProgIsGood(unset);
  }

  lemma ShortCode(source: string, unset: nat, code: M.Listing)
    requires Parsed(source) == Some(Prog()) && Compile(source, unset) == Some(code)
    ensures |code| < 0x8000_0000
  {
    hide Prog, Parsed, RProg, Resolve.Program, CodeGen.GenProgram, ProgramNodes;
    ProgResolves(unset);
    FibSize(unset);
    ListingSize(RProg(unset), code);
  }

  lemma ProgramYields(source: string, room: nat)
    requires Parsed(source) == Some(Prog()) && room >= 112 * 13
    ensures Yields(source, [], room, 0, 89)
  {
    hide Prog, Parsed, Main, Fib, RunFunc, Find;
    FindFib();
    ProgYields(room, 0);
  }
}
