/** The listing is linear in the size of the program, so the guard on its length is one on the size of
    the syntax tree. */
module CodeSize {
  import opened Options
  import opened Machine
  import opened CodeGen
  import R = Resolved

  // ----- the number of nodes; an argument counts one more -----

  function Nodes(e: R.Expr): nat
    decreases e
  {
    match e
    case Not(e1) => 1 + Nodes(e1)
    case Bin(_, l, r) => 1 + Nodes(l) + Nodes(r)
    case Assign(_, e1) => 1 + Nodes(e1)
    case Call(_, args) => 1 + ArgsNodes(args)
    case _ => 1
  }

  function ArgsNodes(args: seq<R.Expr>): nat
    decreases args
  {
    if args == [] then 0 else 1 + Nodes(args[0]) + ArgsNodes(args[1..])
  }

  function StmtNodes(s: R.Stmt): nat
    decreases s
  {
    match s
    case Return(e) => 1 + Nodes(e)
    case If(c, thn, els) => 1 + Nodes(c) + StmtNodes(thn) + ElseNodes(els)
    case Block(body) => AllNodes(body)
    case VarDef(_, e) => 1 + Nodes(e)
    case VarDec(_) => 0
    case Enum => 0
    case ExprStmt(e) => Nodes(e)
    case While(c, body) => 1 + Nodes(c) + StmtNodes(body)
    case For(init, c, step, body) => 1 + StmtNodes(init) + Nodes(c) + Nodes(step) + StmtNodes(body)
  }

  function ElseNodes(els: Option<R.Stmt>): nat
    decreases els
  {
    if els.None? then 0 else StmtNodes(els.value)
  }

  function AllNodes(body: seq<R.Stmt>): nat
    decreases body
  {
    if body == [] then 0 else StmtNodes(body[0]) + AllNodes(body[1..])
  }

  function ProgramNodes(p: R.Program): nat {
    if p == [] then 0 else 1 + AllNodes(p[0].body) + ProgramNodes(p[1..])
  }

  /** No node has more code of its own than a call: seven saves and reloads, eight loads and two more. */
  const PerNode: nat := 24

  lemma {:induction false} ExprSize(frames: Frames, e: R.Expr, g: Gen)
    ensures var x := GenExpr(frames, e, g); x.Some? ==> |x.value.code| <= PerNode * Nodes(e)
    decreases e
  {
    hide GenOp, GenArgs, CallCode, Alloc, Release, Reclaimed, BusyBelow;
    if GenExpr(frames, e, g).Some? {
      match e
      case Not(e1) => ExprSize(frames, e1, Alloc(g).value.g);
      case Bin(op, l, r) =>
        ExprSize(frames, l, g);
        var x := GenExpr(frames, l, g).value;
        ExprSize(frames, r, x.g);
        var y := GenExpr(frames, r, x.g).value;
        OpSize(op, x.reg, y.reg, y.g);
      case Assign(_, e1) => ExprSize(frames, e1, Alloc(g).value.g);
      case Call(f, args) =>
        var top := frames[f] + 44 + 4 * BusyBelow(g.free, 7);
        ArgsSize(frames, args, g.(free := AllFree), top);
        CallSize(g.free, frames[f] + 44, GenArgs(frames, args, g.(free := AllFree), top).value.code, |args|, f);
      case _ =>
    }
  }

  lemma {:induction false} ArgsSize(frames: Frames, args: seq<R.Expr>, g: Gen, off: nat)
    ensures var x := GenArgs(frames, args, g, off); x.Some? ==> |x.value.code| <= PerNode * ArgsNodes(args)
    decreases args
  {
    if args != [] && GenArgs(frames, args, g, off).Some? {
      ExprSize(frames, args[0], g);
      var x := GenExpr(frames, args[0], g).value;
      ArgsSize(frames, args[1..], Release(x.g, x.reg), off + 4);
    }
  }

  lemma OpSize(op: R.BinOp, l: TIndex, r: TIndex, g: Gen)
    ensures var x := GenOp(op, l, r, g); x.Some? ==> |x.value.code| <= 7
  {
    hide Alloc, Release;
  }

  lemma CallSize(free: Flags, base: nat, args: seq<Instr>, n: nat, f: string)
    ensures |CallCode(free, base, args, n, f)| <= |args| + 23
  {
    hide SaveTemps, LoadArgs, RestoreTemps, BusyBelow;
    var top := base + 4 * BusyBelow(free, 7);
    SaveSize(free, 0, base);
    LoadSize(0, if n < 8 then n else 8, top);
    RestoreSize(free, 7, top);
  }

  lemma {:induction false} SaveSize(free: Flags, i: nat, off: nat)
    requires i <= 7
    ensures |SaveTemps(free, i, off)| <= 7 - i
    decreases 7 - i
  {
    if i < 7 {
      SaveSize(free, i + 1, if free[i] then off else off + 4);
    }
  }

  lemma {:induction false} RestoreSize(free: Flags, i: nat, off: int)
    requires i <= 7
    ensures |RestoreTemps(free, i, off)| <= i
  {
    if i > 0 {
      RestoreSize(free, i - 1, if free[i - 1] then off else off - 4);
    }
  }

  lemma {:induction false} LoadSize(i: nat, n: nat, off: nat)
    requires i <= n <= 8
    ensures |LoadArgs(i, n, off)| == n - i
    decreases n - i
  {
    if i < n {
      LoadSize(i + 1, n, off + 4);
    }
  }

  lemma {:induction false} SaveArgsSize(i: nat)
    requires i <= 8
    ensures |SaveArgs(i)| == 8 - i
    decreases 8 - i
  {
    if i < 8 {
      SaveArgsSize(i + 1);
    }
  }

  lemma {:induction false} StmtSize(frames: Frames, locals: nat, s: R.Stmt, g: Gen)
    ensures var x := GenStmt(frames, locals, s, g); x.Some? ==> |x.value.code| <= PerNode * StmtNodes(s)
    decreases s
  {
    hide GenExpr, R.FrameSize, Nodes;
    if GenStmt(frames, locals, s, g).Some? {
      match s
      case Return(e) => ExprSize(frames, e, g);
      case If(_, _, _) => IfSize(frames, locals, s, g);
      case Block(body) => StmtsSize(frames, locals, body, g);
      case VarDef(_, e) => ExprSize(frames, e, g);
      case VarDec(_) =>
      case Enum =>
      case ExprStmt(e) => ExprSize(frames, e, g);
      case While(c, body) =>
        var g1 := g.(counts := g.counts.(whiles := g.counts.whiles + 1));
        ExprSize(frames, c, g1);
        var x := GenExpr(frames, c, g1).value;
        StmtSize(frames, locals, body, Release(x.g, x.reg));
      case For(_, _, _, _) => ForSize(frames, locals, s, g);
    }
  }

  lemma IfSize(frames: Frames, locals: nat, s: R.Stmt, g: Gen)
    requires s.If? && GenStmt(frames, locals, s, g).Some?
    ensures |GenStmt(frames, locals, s, g).value.code| <= PerNode * StmtNodes(s)
    decreases s, 0
  {
    hide GenExpr, Nodes;
    var g1 := g.(counts := g.counts.(ifs := g.counts.ifs + 1, elses := g.counts.elses + 1));
    ExprSize(frames, s.cond, g1);
    var x := GenExpr(frames, s.cond, g1).value;
    StmtSize(frames, locals, s.thn, Release(x.g, x.reg));
    var t := GenStmt(frames, locals, s.thn, Release(x.g, x.reg)).value;
    if s.els.Some? {
      StmtSize(frames, locals, s.els.value, t.g);
    }
  }

  lemma ForSize(frames: Frames, locals: nat, s: R.Stmt, g: Gen)
    requires s.For? && GenStmt(frames, locals, s, g).Some?
    ensures |GenStmt(frames, locals, s, g).value.code| <= PerNode * StmtNodes(s)
    decreases s, 0
  {
    hide GenExpr, Nodes;
    var g1 := g.(counts := g.counts.(fors := g.counts.fors + 1));
    StmtSize(frames, locals, s.init, g1);
    var i := GenStmt(frames, locals, s.init, g1).value;
    ExprSize(frames, s.cond, i.g);
    var x := GenTest(frames, s.cond, Generated(ForLabel, g.counts.fors, EndPart), i.g).value;
    StmtSize(frames, locals, s.loop, x.g);
    var b := GenStmt(frames, locals, s.loop, x.g).value;
    ExprSize(frames, s.step, b.g);
  }

  lemma {:induction false} StmtsSize(frames: Frames, locals: nat, body: seq<R.Stmt>, g: Gen)
    ensures var x := GenStmts(frames, locals, body, g); x.Some? ==> |x.value.code| <= PerNode * AllNodes(body)
    decreases body
  {
    if body != [] && GenStmts(frames, locals, body, g).Some? {
      StmtSize(frames, locals, body[0], g);
      StmtsSize(frames, locals, body[1..], GenStmt(frames, locals, body[0], g).value.g);
    }
  }

  lemma {:induction false} FuncsSize(frames: Frames, p: R.Program, g: Gen)
    ensures var x := GenFuncs(frames, p, g); x.Some? ==> |x.value.code| <= PerNode * ProgramNodes(p)
  {
    hide GenStmts, SaveArgs, R.FrameSize;
    if p != [] && GenFuncs(frames, p, g).Some? {
      StmtsSize(frames, p[0].frame, p[0].body, g);
      SaveArgsSize(0);
      FuncsSize(frames, p[1..], GenFunc(frames, p[0], g).value.g);
    }
  }

  /** The length of a listing is at most 24 times the number of nodes of its program, and four. */
  lemma ListingSize(p: R.Program, code: Listing)
    requires GenProgram(p) == Some(code)
    ensures |code| <= 4 + PerNode * ProgramNodes(p)
  {
    hide GenFuncs, FramesOf;
    FuncsSize(FramesOf(p), p, Initial);
  }
}
