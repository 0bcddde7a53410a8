/** When the two semantics agree: the conditions under which what the generated code does is what
    C99 says, and what happens otherwise. */
module Portability {
  import opened Options
  import opened Words
  import opened Resolved
  import opened Semantics

  /** The right operands of `&&` and `||` have no effects. */
  predicate Portable(e: Expr) {
    match e
    case Empty => true
    case Num(_) => true
    case Ident(_) => true
    case Not(e1) => Portable(e1)
    case Bin(op, l, r) => Portable(l) && Portable(r) && (op == LogAnd || op == LogOr ==> EffectFree(r))
    case Assign(_, e1) => Portable(e1)
    case Call(_, args) => forall a :: a in args ==> Portable(a)
  }

  predicate AlwaysTrue(c: Expr) {
    c.Num? && Wrap(c.value) != 0
  }

  /** The statement ends only by returning from the function, if at all. */
  predicate NeverEnds(s: Stmt) {
    match s
    case Return(_) => true
    case If(_, thn, els) => els.Some? && NeverEnds(thn) && NeverEnds(els.value)
    case Block(body) => exists i :: 0 <= i < |body| && NeverEnds(body[i])
    case While(c, _) => AlwaysTrue(c)
    case For(_, c, _, _) => c.Empty? || AlwaysTrue(c)
    case _ => false
  }

  /** Moreover, a then-branch before an else never ends normally. */
  predicate PortableStmt(s: Stmt) {
    match s
    case Return(e) => Portable(e)
    case If(c, thn, els) =>
      Portable(c) && PortableStmt(thn) && (els.Some? ==> NeverEnds(thn) && PortableStmt(els.value))
    case Block(body) => forall i :: 0 <= i < |body| ==> PortableStmt(body[i])
    case VarDef(_, e) => Portable(e)
    case VarDec(_) => true
    case Enum => true
    case ExprStmt(e) => Portable(e)
    case While(c, body) => Portable(c) && PortableStmt(body)
    case For(init, c, step, body) => PortableStmt(init) && Portable(c) && Portable(step) && PortableStmt(body)
  }

  predicate PortableProgram(p: Program) {
    forall f :: f in p ==> forall i :: 0 <= i < |f.body| ==> PortableStmt(f.body[i])
  }

  lemma {:induction false} NeverEndsNormally(p: Program, m: Mode, s: Stmt, ps: seq<Word>, ls: Locals, room: nat,
                                             fuel: nat)
    requires NeverEnds(s)
    ensures var out := Exec(p, m, s, ps, ls, room, fuel); out.Some? ==> out.value.Returned?
    decreases s, fuel
  {
    var out := Exec(p, m, s, ps, ls, room, fuel);
    if out.Some? {
      match s
      case Return(_) =>
      case If(c, thn, els) =>
        var x := Eval(p, m, c, ps, ls, room, fuel).value;
        NeverEndsNormally(p, m, thn, ps, x.locals, room, fuel);
        NeverEndsNormally(p, m, els.value, ps, x.locals, room, fuel);
      case Block(body) =>
        var i :| 0 <= i < |body| && NeverEnds(body[i]);
        AllNeverEndNormally(p, m, body, i, ps, ls, room, fuel);
      case While(c, body) =>
        var x := Eval(p, m, c, ps, ls, room, fuel).value;
        var out1 := Exec(p, m, body, ps, x.locals, room, fuel).value;
        if out1.Normal? {
          NeverEndsNormally(p, m, s, ps, out1.locals, room, fuel - 1);
        }
      case For(init, c, step, body) =>
        var out1 := Exec(p, m, init, ps, ls, room, fuel).value;
        if out1.Normal? {
          ForNeverEnds(p, m, s, ps, out1.locals, room, fuel);
        }
    }
  }

  lemma {:induction false} ForNeverEnds(p: Program, m: Mode, s: Stmt, ps: seq<Word>, ls: Locals, room: nat, fuel: nat)
    requires s.For? && NeverEnds(s) && ExecFor(p, m, s, ps, ls, room, fuel).Some?
    ensures ExecFor(p, m, s, ps, ls, room, fuel).value.Returned?
    decreases fuel
  {
    var out := Exec(p, m, s.loop, ps, ls, room, fuel).value;
    if out.Normal? {
      var k := EvalEffect(p, m, s.step, ps, out.locals, room, fuel).value;
      ForNeverEnds(p, m, s, ps, k.locals, room, fuel - 1);
    }
  }

  lemma {:induction false} AllNeverEndNormally(p: Program, m: Mode, body: seq<Stmt>, i: nat, ps: seq<Word>, ls: Locals,
                                               room: nat, fuel: nat)
    requires i < |body| && NeverEnds(body[i])
    ensures var out := ExecAll(p, m, body, ps, ls, room, fuel); out.Some? ==> out.value.Returned?
    decreases body, i
  {
    if ExecAll(p, m, body, ps, ls, room, fuel).Some? {
      if i == 0 {
        NeverEndsNormally(p, m, body[0], ps, ls, room, fuel);
      } else {
        var out := Exec(p, m, body[0], ps, ls, room, fuel).value;
        if out.Normal? {
          AllNeverEndNormally(p, m, body[1..], i - 1, ps, out.locals, room, fuel);
        }
      }
    }
  }

  // ----- portable programs mean the same in both semantics -----

  lemma {:induction false} EvalAgrees(p: Program, e: Expr, ps: seq<Word>, ls: Locals, room: nat, fuel: nat)
    requires PortableProgram(p) && Portable(e)
    ensures Eval(p, C, e, ps, ls, room, fuel) == Eval(p, Compiled, e, ps, ls, room, fuel)
    decreases room, fuel, e, 1
  {
    match e
    case Empty =>
    case Num(_) =>
    case Ident(_) =>
    case Not(e1) => EvalAgrees(p, e1, ps, ls, room, fuel);
    case Bin(op, l, r) =>
      EvalAgrees(p, l, ps, ls, room, fuel);
      var x := Eval(p, C, l, ps, ls, room, fuel);
      if x.Some? {
        EvalAgrees(p, r, ps, x.value.locals, room, fuel);
      }
    case Assign(_, e1) => EvalAgrees(p, e1, ps, ls, room, fuel);
    case Call(name, args) =>
      EvalArgsAgrees(p, args, ps, ls, room, fuel);
      var f, xs := Find(p, name), EvalArgs(p, C, args, ps, ls, room, fuel);
      if f.Some? && xs.Some? && room >= FrameSize(f.value.frame) {
        RunBodyAgrees(p, f.value, xs.value.values, room - FrameSize(f.value.frame), fuel);
      }
  }

  lemma {:induction false} EvalArgsAgrees(p: Program, args: seq<Expr>, ps: seq<Word>, ls: Locals, room: nat, fuel: nat)
    requires PortableProgram(p) && forall a :: a in args ==> Portable(a)
    ensures EvalArgs(p, C, args, ps, ls, room, fuel) == EvalArgs(p, Compiled, args, ps, ls, room, fuel)
    decreases room, fuel, args
  {
    if args != [] {
      EvalAgrees(p, args[0], ps, ls, room, fuel);
      var x := Eval(p, C, args[0], ps, ls, room, fuel);
      if x.Some? {
        EvalArgsAgrees(p, args[1..], ps, x.value.locals, room, fuel);
      }
    }
  }

  lemma RunBodyAgrees(p: Program, f: Func, ps: seq<Word>, room: nat, fuel: nat)
    requires PortableProgram(p) && f in p
    ensures RunBody(p, C, f, ps, room, fuel) == RunBody(p, Compiled, f, ps, room, fuel)
    decreases room, fuel, f.body, 1
  {
    ExecAllAgrees(p, f.body, ps, map[], room, fuel);
  }

  lemma {:induction false} ExecAllAgrees(p: Program, body: seq<Stmt>, ps: seq<Word>, ls: Locals, room: nat, fuel: nat)
    requires PortableProgram(p) && forall i :: 0 <= i < |body| ==> PortableStmt(body[i])
    ensures ExecAll(p, C, body, ps, ls, room, fuel) == ExecAll(p, Compiled, body, ps, ls, room, fuel)
    decreases room, fuel, body, 0
  {
    if body != [] {
      ExecAgrees(p, body[0], ps, ls, room, fuel);
      var out := Exec(p, C, body[0], ps, ls, room, fuel);
      if out.Some? && out.value.Normal? {
        ExecAllAgrees(p, body[1..], ps, out.value.locals, room, fuel);
      }
    }
  }

  lemma {:induction false} ExecAgrees(p: Program, s: Stmt, ps: seq<Word>, ls: Locals, room: nat, fuel: nat)
    requires PortableProgram(p) && PortableStmt(s)
    ensures Exec(p, C, s, ps, ls, room, fuel) == Exec(p, Compiled, s, ps, ls, room, fuel)
    decreases room, fuel, s, 1
  {
    match s
    case Return(e) => EvalAgrees(p, e, ps, ls, room, fuel);
    case If(_, _, _) => IfAgrees(p, s, ps, ls, room, fuel);
    case Block(body) => ExecAllAgrees(p, body, ps, ls, room, fuel);
    case VarDef(_, e) => EvalAgrees(p, e, ps, ls, room, fuel);
    case VarDec(_) =>
    case Enum =>
    case ExprStmt(e) => EffectAgrees(p, e, ps, ls, room, fuel);
    case While(c, body) =>
      EvalAgrees(p, c, ps, ls, room, fuel);
      var x := Eval(p, C, c, ps, ls, room, fuel);
      if x.Some? && x.value.value != 0 {
        ExecAgrees(p, body, ps, x.value.locals, room, fuel);
        var out := Exec(p, C, body, ps, x.value.locals, room, fuel);
        if out.Some? && out.value.Normal? && fuel > 0 {
          ExecAgrees(p, s, ps, out.value.locals, room, fuel - 1);
        }
      }
    case For(init, _, _, _) =>
      ExecAgrees(p, init, ps, ls, room, fuel);
      var out := Exec(p, C, init, ps, ls, room, fuel);
      if out.Some? && out.value.Normal? {
        ForAgrees(p, s, ps, out.value.locals, room, fuel);
      }
  }

  lemma IfAgrees(p: Program, s: Stmt, ps: seq<Word>, ls: Locals, room: nat, fuel: nat)
    requires PortableProgram(p) && s.If? && PortableStmt(s)
    ensures Exec(p, C, s, ps, ls, room, fuel) == Exec(p, Compiled, s, ps, ls, room, fuel)
    decreases room, fuel, s, 0
  {
    EvalAgrees(p, s.cond, ps, ls, room, fuel);
    var x := Eval(p, C, s.cond, ps, ls, room, fuel);
    if x.Some? {
      if x.value.value == 0 {
        if s.els.Some? {
          ExecAgrees(p, s.els.value, ps, x.value.locals, room, fuel);
        }
      } else {
        ExecAgrees(p, s.thn, ps, x.value.locals, room, fuel);
        if s.els.Some? {
          NeverEndsNormally(p, Compiled, s.thn, ps, x.value.locals, room, fuel);
        }
      }
    }
  }

  lemma {:induction false} ForAgrees(p: Program, s: Stmt, ps: seq<Word>, ls: Locals, room: nat, fuel: nat)
    requires PortableProgram(p) && s.For? && PortableStmt(s)
    ensures ExecFor(p, C, s, ps, ls, room, fuel) == ExecFor(p, Compiled, s, ps, ls, room, fuel)
    decreases room, fuel, s, 0
  {
    EvalAgrees(p, s.cond, ps, ls, room, fuel);
    var x := if s.cond.Empty? then Some(Evaluated(1, ls)) else Eval(p, C, s.cond, ps, ls, room, fuel);
    if x.Some? && x.value.value != 0 {
      ExecAgrees(p, s.loop, ps, x.value.locals, room, fuel);
      var out := Exec(p, C, s.loop, ps, x.value.locals, room, fuel);
      if out.Some? && out.value.Normal? {
        EffectAgrees(p, s.step, ps, out.value.locals, room, fuel);
        var k := EvalEffect(p, C, s.step, ps, out.value.locals, room, fuel);
        if k.Some? && fuel > 0 {
          ForAgrees(p, s, ps, k.value.locals, room, fuel - 1);
        }
      }
    }
  }

  lemma EffectAgrees(p: Program, e: Expr, ps: seq<Word>, ls: Locals, room: nat, fuel: nat)
    requires PortableProgram(p) && Portable(e)
    ensures EvalEffect(p, C, e, ps, ls, room, fuel) == EvalEffect(p, Compiled, e, ps, ls, room, fuel)
    decreases room, fuel, e, 2
  {
    if e.Call? {
      EvalArgsAgrees(p, e.args, ps, ls, room, fuel);
      var f, xs := Find(p, e.name), EvalArgs(p, C, e.args, ps, ls, room, fuel);
      if f.Some? && xs.Some? && room >= FrameSize(f.value.frame) {
        RunBodyAgrees(p, f.value, xs.value.values, room - FrameSize(f.value.frame), fuel);
      }
    } else {
      EvalAgrees(p, e, ps, ls, room, fuel);
    }
  }

  // ----- otherwise -----

  /** The then-branch has a run that ends normally. */
  ghost predicate CanEnd(p: Program, s: Stmt) {
    exists ps: seq<Word>, ls: Locals, room: nat, fuel: nat ::
      var out := Exec(p, C, s, ps, ls, room, fuel); out.Some? && out.value.Normal?
  }

  ghost predicate SameRuns(p: Program, s: Stmt) {
    forall ps: seq<Word>, ls: Locals, room: nat, fuel: nat ::
      Exec(p, C, s, ps, ls, room, fuel) == Exec(p, Compiled, s, ps, ls, room, fuel)
  }

  /** The code of if/else is right for a then-branch, whatever the condition and the else-branch, if
      and only if no run of the then-branch ends normally. */
  lemma IfElseRightIff(p: Program, thn: Stmt)
    requires PortableProgram(p) && PortableStmt(thn)
    ensures (forall c, els | Portable(c) && PortableStmt(els) :: SameRuns(p, If(c, thn, Some(els)))) <==>
            !CanEnd(p, thn)
  {
    if CanEnd(p, thn) {
      var ps: seq<Word>, ls: Locals, room: nat, fuel: nat :|
        var out := Exec(p, C, thn, ps, ls, room, fuel); out.Some? && out.value.Normal?;
      var c, els := Num(1), Return(Num(0));
      ExecAgrees(p, thn, ps, ls, room, fuel);
      RunsInto(p, thn, ps, ls, room, fuel);
      assert Portable(c) && PortableStmt(els) && !SameRuns(p, If(c, thn, Some(els)));
    } else {
      forall c, els | Portable(c) && PortableStmt(els) ensures SameRuns(p, If(c, thn, Some(els))) {
        forall ps: seq<Word>, ls: Locals, room: nat, fuel: nat
          ensures Exec(p, C, If(c, thn, Some(els)), ps, ls, room, fuel) ==
                  Exec(p, Compiled, If(c, thn, Some(els)), ps, ls, room, fuel)
        {
          NeverRunsInto(p, c, thn, els, ps, ls, room, fuel);
        }
      }
    }
  }

  lemma RunsInto(p: Program, thn: Stmt, ps: seq<Word>, ls: Locals, room: nat, fuel: nat)
    requires var out := Exec(p, C, thn, ps, ls, room, fuel); out.Some? && out.value.Normal?
    requires Exec(p, Compiled, thn, ps, ls, room, fuel) == Exec(p, C, thn, ps, ls, room, fuel)
    ensures var s := If(Num(1), thn, Some(Return(Num(0))));
            Exec(p, C, s, ps, ls, room, fuel) != Exec(p, Compiled, s, ps, ls, room, fuel)
  {
    var s := If(Num(1), thn, Some(Return(Num(0))));
    assert Eval(p, C, Num(1), ps, ls, room, fuel) == Some(Evaluated(1, ls));
    assert Exec(p, C, s, ps, ls, room, fuel) == Exec(p, C, thn, ps, ls, room, fuel);
    var ls' := Exec(p, C, thn, ps, ls, room, fuel).value.locals;
    assert Eval(p, Compiled, Num(0), ps, ls', room, fuel) == Some(Evaluated(0, ls'));
    assert Exec(p, Compiled, Return(Num(0)), ps, ls', room, fuel).value.Returned?;
  }

  lemma NeverRunsInto(p: Program, c: Expr, thn: Stmt, els: Stmt, ps: seq<Word>, ls: Locals, room: nat, fuel: nat)
    requires PortableProgram(p) && PortableStmt(thn) && !CanEnd(p, thn) && Portable(c) && PortableStmt(els)
    ensures Exec(p, C, If(c, thn, Some(els)), ps, ls, room, fuel) ==
            Exec(p, Compiled, If(c, thn, Some(els)), ps, ls, room, fuel)
  {
    hide PortableProgram, Portable, PortableStmt, Eval, Exec, CanEnd;
    EvalAgrees(p, c, ps, ls, room, fuel);
    var x := Eval(p, C, c, ps, ls, room, fuel);
    if x.Some? {
      ExecAgrees(p, els, ps, x.value.locals, room, fuel);
      ExecAgrees(p, thn, ps, x.value.locals, room, fuel);
      NotEnded(p, thn, ps, x.value.locals, room, fuel);
    }
    SameBranches(p, c, thn, els, ps, ls, room, fuel);
  }

  lemma SameBranches(p: Program, c: Expr, thn: Stmt, els: Stmt, ps: seq<Word>, ls: Locals, room: nat, fuel: nat)
    requires Eval(p, C, c, ps, ls, room, fuel) == Eval(p, Compiled, c, ps, ls, room, fuel)
    requires var x := Eval(p, C, c, ps, ls, room, fuel);
             x.Some? ==>
               && Exec(p, C, thn, ps, x.value.locals, room, fuel) ==
                   Exec(p, Compiled, thn, ps, x.value.locals, room, fuel)
               && Exec(p, C, els, ps, x.value.locals, room, fuel) ==
                   Exec(p, Compiled, els, ps, x.value.locals, room, fuel)
               && var out := Exec(p, C, thn, ps, x.value.locals, room, fuel); (out.Some? ==> out.value.Returned?)
    ensures Exec(p, C, If(c, thn, Some(els)), ps, ls, room, fuel) ==
            Exec(p, Compiled, If(c, thn, Some(els)), ps, ls, room, fuel)
  {
    hide Eval, EvalEffect, ExecFor, ExecAll;
  }

  lemma NotEnded(p: Program, s: Stmt, ps: seq<Word>, ls: Locals, room: nat, fuel: nat)
    requires !CanEnd(p, s)
    ensures var out := Exec(p, C, s, ps, ls, room, fuel); out.Some? ==> out.value.Returned?
  {
  }

  /** if (1) x = 2; else x = 3; sets x to 3. */
  lemma IfElseRunsBoth(p: Program, room: nat, fuel: nat)
    ensures var x := Local(0);
            var s := If(Num(1), ExprStmt(Assign(x, Num(2))), Some(ExprStmt(Assign(x, Num(3)))));
            && Exec(p, C, s, [], map[], room, fuel) == Some(Normal(map[0 := 2]))
            && Exec(p, Compiled, s, [], map[], room, fuel) == Some(Normal(map[0 := 3]))
  {
    var x := Local(0);
    var t, e := ExprStmt(Assign(x, Num(2))), ExprStmt(Assign(x, Num(3)));
    forall m: Mode ensures Eval(p, m, t.e, [], map[], room, fuel) == Some(Evaluated(2, map[0 := 2])) {
      assert Eval(p, m, Num(2), [], map[], room, fuel) == Some(Evaluated(2, map[]));
    }
    assert EvalEffect(p, C, t.e, [], map[], room, fuel) == Some(Normal(map[0 := 2]));
    assert EvalEffect(p, Compiled, t.e, [], map[], room, fuel) == Some(Normal(map[0 := 2]));
    assert Eval(p, Compiled, Num(3), [], map[0 := 2], room, fuel) == Some(Evaluated(3, map[0 := 2]));
    assert EvalEffect(p, Compiled, e.e, [], map[0 := 2], room, fuel) == Some(Normal(map[0 := 2][0 := 3]));
    assert Exec(p, C, t, [], map[], room, fuel) == Some(Normal(map[0 := 2]));
    assert Exec(p, Compiled, t, [], map[], room, fuel) == Some(Normal(map[0 := 2]));
    assert Exec(p, Compiled, e, [], map[0 := 2], room, fuel) == Some(Normal(map[0 := 2][0 := 3]));
    assert map[0 := 2][0 := 3] == map[0 := 3];
  }

  ghost predicate SameValues(p: Program, e: Expr) {
    forall ps: seq<Word>, ls: Locals, room: nat, fuel: nat ::
      Eval(p, C, e, ps, ls, room, fuel) == Eval(p, Compiled, e, ps, ls, room, fuel)
  }

  /** The code of && and || is right for a right operand, whatever the left one, if and only if the
      right operand has no effects. */
  lemma LogicalRightIff(p: Program, r: Expr)
    requires PortableProgram(p)
    ensures (forall op, l | op in {LogAnd, LogOr} && Portable(l) :: SameValues(p, Bin(op, l, r))) <==> EffectFree(r)
  {
    if EffectFree(r) {
      EffectFreeIsPortable(r);
      forall op, l | op in {LogAnd, LogOr} && Portable(l) ensures SameValues(p, Bin(op, l, r)) {
        forall ps: seq<Word>, ls: Locals, room: nat, fuel: nat
          ensures Eval(p, C, Bin(op, l, r), ps, ls, room, fuel) == Eval(p, Compiled, Bin(op, l, r), ps, ls, room, fuel)
        {
          EvalAgrees(p, Bin(op, l, r), ps, ls, room, fuel);
        }
      }
    } else {
      EffectShows(p, r, map[], 0);
      SkippedEffectShows(p, r);
      assert Portable(Num(0)) && !SameValues(p, Bin(LogAnd, Num(0), r));
    }
  }

  lemma {:induction false} EffectFreeIsPortable(e: Expr)
    requires EffectFree(e)
    ensures Portable(e)
  {
    match e
    case Not(e1) => EffectFreeIsPortable(e1);
    case Bin(_, l, r) =>
      EffectFreeIsPortable(l);
      EffectFreeIsPortable(r);
    case _ =>
  }

  /** 0 && r, with no locals and no stack, differs. */
  lemma SkippedEffectShows(p: Program, r: Expr)
    requires !EffectFree(r)
    requires var v := Eval(p, Compiled, r, [], map[], 0, 0); v.Some? ==> v.value.locals != map[]
    ensures var e := Bin(LogAnd, Num(0), r); Eval(p, C, e, [], map[], 0, 0) != Eval(p, Compiled, e, [], map[], 0, 0)
  {
    assert forall m: Mode :: Eval(p, m, Num(0), [], map[], 0, 0) == Some(Evaluated(0, map[]));
    assert Eval(p, C, Bin(LogAnd, Num(0), r), [], map[], 0, 0) == Some(Evaluated(0, map[]));
  }

  /** Without stack, an expression with an effect has no value, or there are locals after it. */
  lemma {:induction false} EffectShows(p: Program, e: Expr, ls: Locals, fuel: nat)
    requires !EffectFree(e)
    ensures var v := Eval(p, Compiled, e, [], ls, 0, fuel); v.Some? ==> v.value.locals != map[]
  {
    if Eval(p, Compiled, e, [], ls, 0, fuel).Some? {
      match e
      case Not(e1) => EffectShows(p, e1, ls, fuel);
      case Bin(op, l, r) =>
        var x := Eval(p, Compiled, l, [], ls, 0, fuel).value;
        if EffectFree(l) {
          EffectShows(p, r, x.locals, fuel);
        } else {
          EffectShows(p, l, ls, fuel);
          LocalsRemain(p, r, x.locals, fuel);
        }
      case Assign(target, e1) =>
        assert target.offset in Eval(p, Compiled, e, [], ls, 0, fuel).value.locals;
      case Call(name, args) =>
    }
  }

  lemma {:induction false} LocalsRemain(p: Program, e: Expr, ls: Locals, fuel: nat)
    requires ls != map[]
    ensures var v := Eval(p, Compiled, e, [], ls, 0, fuel); v.Some? ==> v.value.locals != map[]
  {
    if Eval(p, Compiled, e, [], ls, 0, fuel).Some? {
      match e
      case Num(_) =>
      case Ident(_) =>
      case Not(e1) => LocalsRemain(p, e1, ls, fuel);
      case Bin(_, l, r) =>
        LocalsRemain(p, l, ls, fuel);
        LocalsRemain(p, r, Eval(p, Compiled, l, [], ls, 0, fuel).value.locals, fuel);
      case Assign(target, e1) =>
        assert target.offset in Eval(p, Compiled, e, [], ls, 0, fuel).value.locals;
      case Call(name, args) =>
    }
  }

  /** 0 && (x = 1) sets x. */
  lemma AndEvaluatesBoth(p: Program, room: nat, fuel: nat)
    ensures var e := Bin(LogAnd, Num(0), Assign(Local(0), Num(1)));
            && Eval(p, C, e, [], map[], room, fuel) == Some(Evaluated(0, map[]))
            && Eval(p, Compiled, e, [], map[], room, fuel) == Some(Evaluated(0, map[0 := 1]))
  {
    var r := Assign(Local(0), Num(1));
    assert Eval(p, Compiled, r, [], map[], room, fuel) == Some(Evaluated(1, map[0 := 1]));
  }
}
