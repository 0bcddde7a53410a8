/** Exactly which programs the code generator compiles: those in which every expression needs at most
    the seven temporaries, none is missing where a value is needed, and every called function exists. */
module Compilable {
  import opened Options
  import opened Machine
  import opened CodeGen
  import opened Registers
  import R = Resolved

  predicate ExprFits(frames: Frames, e: R.Expr) {
    Need(frames, e) <= 7
  }

  predicate StmtFits(frames: Frames, s: R.Stmt)
    decreases s
  {
    match s
    case Return(e) => e.Empty? || ExprFits(frames, e)
    case If(c, t, None) => ExprFits(frames, c) && StmtFits(frames, t)
    case If(c, t, Some(e)) => ExprFits(frames, c) && StmtFits(frames, t) && StmtFits(frames, e)
    case Block(body) => AllFit(frames, body)
    case VarDef(_, e) => ExprFits(frames, e)
    case VarDec(_) => true
    case Enum => true
    case ExprStmt(e) => e.Empty? || ExprFits(frames, e)
    case While(c, b) => ExprFits(frames, c) && StmtFits(frames, b)
    case For(i, c, k, b) =>
      StmtFits(frames, i) && (c.Empty? || ExprFits(frames, c)) && StmtFits(frames, b) &&
          (k.Empty? || ExprFits(frames, k))
  }

  predicate AllFit(frames: Frames, ss: seq<R.Stmt>)
    decreases ss
  {
    ss == [] || (StmtFits(frames, ss[0]) && AllFit(frames, ss[1..]))
  }

  lemma AllAreSeven()
    ensures FreeCount(AllFree) == 7
  {
    assert FreeFrom(AllFree, 4) == 3;
  }

  /** An expression on its own has all seven temporaries, and gives its register back. */
  lemma ExprCompiles(frames: Frames, e: R.Expr, g: Gen)
    requires g.free == AllFree
    ensures GenExpr(frames, e, g).Some? <==> ExprFits(frames, e)
    ensures var x := GenExpr(frames, e, g); x.Some? ==> Release(x.value.g, x.value.reg).free == AllFree
  {
    AllAreSeven();
    ExactRegisterNeed(frames, e, g);
    BusySetReleased(frames, e, g);
  }

  lemma {:induction false} StmtCompiles(frames: Frames, locals: nat, s: R.Stmt, g: Gen)
    requires g.free == AllFree
    ensures GenStmt(frames, locals, s, g).Some? <==> StmtFits(frames, s)
    ensures var x := GenStmt(frames, locals, s, g); x.Some? ==> x.value.g.free == AllFree
    decreases s
  {
    hide GenExpr, ExprFits, IfCode, WhileCode, ForCode, LeaveCode, GenStmts, AllFit;
    match s
    case Return(e) => ExprCompiles(frames, e, g);
    case If(_, _, _) => IfCompiles(frames, locals, s, g);
    case Block(body) => AllCompile(frames, locals, body, g);
    case VarDef(_, e) => ExprCompiles(frames, e, g);
    case VarDec(_) =>
    case Enum =>
    case ExprStmt(e) => ExprCompiles(frames, e, g);
    case While(c, b) =>
      var g1 := g.(counts := g.counts.(whiles := g.counts.whiles + 1));
      ExprCompiles(frames, c, g1);
      var x := GenExpr(frames, c, g1);
      if x.Some? {
        StmtCompiles(frames, locals, b, Release(x.value.g, x.value.reg));
      }
    case For(_, _, _, _) => ForCompiles(frames, locals, s, g);
  }

  lemma IfCompiles(frames: Frames, locals: nat, s: R.Stmt, g: Gen)
    requires s.If? && g.free == AllFree
    ensures GenStmt(frames, locals, s, g).Some? <==> StmtFits(frames, s)
    ensures var x := GenStmt(frames, locals, s, g); x.Some? ==> x.value.g.free == AllFree
    decreases s, 0
  {
    hide GenExpr, ExprFits, IfCode;
    var g1 := g.(counts := g.counts.(ifs := g.counts.ifs + 1, elses := g.counts.elses + 1));
    ExprCompiles(frames, s.cond, g1);
    var x := GenExpr(frames, s.cond, g1);
    if x.Some? {
      StmtCompiles(frames, locals, s.thn, Release(x.value.g, x.value.reg));
      var t := GenStmt(frames, locals, s.thn, Release(x.value.g, x.value.reg));
      if t.Some? && s.els.Some? {
        StmtCompiles(frames, locals, s.els.value, t.value.g);
      }
    }
  }

  lemma ForCompiles(frames: Frames, locals: nat, s: R.Stmt, g: Gen)
    requires s.For? && g.free == AllFree
    ensures GenStmt(frames, locals, s, g).Some? <==> StmtFits(frames, s)
    ensures var x := GenStmt(frames, locals, s, g); x.Some? ==> x.value.g.free == AllFree
    decreases s, 0
  {
    hide GenExpr, ExprFits, ForCode;
    var n := g.counts.fors;
    var g1 := g.(counts := g.counts.(fors := n + 1));
    StmtCompiles(frames, locals, s.init, g1);
    var i := GenStmt(frames, locals, s.init, g1);
    if i.Some? {
      ExprCompiles(frames, s.cond, i.value.g);
      var x := GenTest(frames, s.cond, Generated(ForLabel, n, EndPart), i.value.g);
      if x.Some? {
        StmtCompiles(frames, locals, s.loop, x.value.g);
        var b := GenStmt(frames, locals, s.loop, x.value.g);
        if b.Some? {
          ExprCompiles(frames, s.step, b.value.g);
        }
      }
    }
  }

  lemma {:induction false} AllCompile(frames: Frames, locals: nat, ss: seq<R.Stmt>, g: Gen)
    requires g.free == AllFree
    ensures GenStmts(frames, locals, ss, g).Some? <==> AllFit(frames, ss)
    ensures var x := GenStmts(frames, locals, ss, g); x.Some? ==> x.value.g.free == AllFree
    decreases ss
  {
    hide GenStmt, StmtFits;
    if ss != [] {
      StmtCompiles(frames, locals, ss[0], g);
      var x := GenStmt(frames, locals, ss[0], g);
      if x.Some? {
        AllCompile(frames, locals, ss[1..], x.value.g);
      }
    }
  }

  lemma {:induction false} FunctionsCompile(frames: Frames, p: R.Program, g: Gen)
    requires g.free == AllFree
    ensures GenFuncs(frames, p, g).Some? <==> forall i :: 0 <= i < |p| ==> AllFit(frames, p[i].body)
    decreases p
  {
    hide GenStmts, AllFit, EnterCode, SaveArgs, ExitCode;
    if p != [] {
      AllCompile(frames, p[0].frame, p[0].body, g);
      var x := GenFunc(frames, p[0], g);
      if x.Some? {
        FunctionsCompile(frames, p[1..], x.value.g);
        assert forall i :: 0 < i < |p| ==> p[i] == p[1..][i - 1];
      }
    }
  }

  /** The code generator comes to an end without an exit if and only if every expression fits. */
  lemma CompilesIff(p: R.Program)
    ensures GenProgram(p).Some? <==> forall i :: 0 <= i < |p| ==> AllFit(FramesOf(p), p[i].body)
  {
    hide GenFuncs, AllFit;
    FunctionsCompile(FramesOf(p), p, Initial);
  }
}
