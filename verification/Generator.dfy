/** The code generator of src/asm.c as the object it is: register flags and label counters that its
    methods change, and an output they append to. Each method is proved to do what the function of
    the same construct in CodeGen says; `ok` is false where the compiler exits. */
module GeneratorObject {
  import opened Options
  import opened Machine
  import opened CodeGen
  import R = Resolved

  class Generator {
    // true for a free temporary
    const free: array<bool>
    const frames: Frames
    var fors: nat
    var whiles: nat
    var ifs: nat
    var elses: nat
    var ands: nat
    var ors: nat
    var out: seq<Instr>

    ghost predicate Valid() {
      free.Length == 7
    }

    ghost function Current(): Gen
      requires Valid()
      reads this`fors, this`whiles, this`ifs, this`elses, this`ands, this`ors, free
    {
      Gen(free[..], Counts(fors, whiles, ifs, elses, ands, ors))
    }

    constructor (frames: Frames)
      ensures Valid() && fresh(free) && this.frames == frames
      ensures Current() == Initial && out == []
    {
      free := new bool[7](i => true);
      this.frames := frames;
      fors, whiles, ifs, elses, ands, ors := 0, 0, 0, 0, 0, 0;
      out := [];
      new;
      assert free[..] == AllFree;
    }

    method Emit(i: Instr)
      modifies this`out
      ensures out == old(out) + [i]
    {
      out := out + [i];
    }

    // ----- registers -----

    method AllocRegister() returns (ok: bool, r: TIndex)
      requires Valid()
      modifies free
      ensures Valid()
      ensures ok <==> Alloc(old(Current())).Some?
      ensures ok ==> Alloc(old(Current())).value == Allocated(r, Current())
      ensures !ok ==> Current() == old(Current())
    {
      ok, r := false, 0;
      ghost var f := free[..];
      for i := 0 to 7
        invariant FirstFree(f, 0) == FirstFree(f, i) && free[..] == f
      {
        if free[i] {
          free[i] := false;
          ok, r := true, i;
          assert free[..] == f[i := false];
          return;
        }
      }
    }

    method FreeRegister(r: TIndex)
      requires Valid()
      modifies free
      ensures Valid() && Current() == Release(old(Current()), r)
    {
      free[r] := true;
      assert free[..] == old(free[..])[r := true];
    }

    // ----- expressions -----

    /** What evaluating e did, from state g and output o. */
    twostate predicate Evaluated(e: R.Expr, ok: bool, r: TIndex)
      requires Valid()
      reads this, free
    {
      var x := GenExpr(frames, e, old(Current()));
      && Valid()
      && (ok <==> x.Some?)
      && (ok ==> x.value.reg == r && x.value.g == Current() && out == old(out) + x.value.code)
    }

    method EvalAsm(e: R.Expr) returns (ok: bool, r: TIndex)
      requires Valid()
      modifies this, free
      ensures Evaluated(e, ok, r)
      decreases e, 1
    {
      match e
      case Empty => ok, r := false, 0;
      case Num(v) => ok, r := EvalIntConst(e);
      case Ident(_) => ok, r := EvalIdent(e);
      case Not(_) => ok, r := EvalUnary(e);
      case Bin(_, _, _) => ok, r := EvalBinExp(e);
      case Assign(_, _) => ok, r := EvalVarAsgn(e);
      case Call(_, _) => ok, r := EvalFuncCall(e);
    }

    method EvalIntConst(e: R.Expr) returns (ok: bool, r: TIndex)
      requires Valid() && e.Num?
      modifies this, free
      ensures Evaluated(e, ok, r)
    {
      ok, r := AllocRegister();
      if ok {
        Emit(Addi(T(r), Zero, e.value));
      }
    }

    method EvalIdent(e: R.Expr) returns (ok: bool, r: TIndex)
      requires Valid() && e.Ident?
      modifies this, free
      ensures Evaluated(e, ok, r)
    {
      ok, r := AllocRegister();
      if ok {
        Emit(LoadSymbol(r, e.sym));
      }
    }

    method EvalUnary(e: R.Expr) returns (ok: bool, r: TIndex)
      requires Valid() && e.Not?
      modifies this, free
      ensures Evaluated(e, ok, r)
      decreases e, 0
    {
      ok, r := AllocRegister();
      if !ok { return; }
      var tmp;
      ok, tmp := EvalAsm(e.e);
      if !ok { return; }
      Emit(Seqz(T(r), T(tmp)));
      FreeRegister(tmp);
    }

    method EvalVarAsgn(e: R.Expr) returns (ok: bool, r: TIndex)
      requires Valid() && e.Assign?
      modifies this, free
      ensures Evaluated(e, ok, r)
      decreases e, 0
    {
      ghost var o := out;
      var lval;
      ok, lval := AllocRegister();
      r := 0;
      if !ok { return; }
      Emit(Addi(T(lval), Zero, R.LocalSlot(e.target.offset)));
      ghost var o1 := out;
      ok, r := EvalAsm(e.e);
      if !ok { return; }
      ghost var c := out[|o1|..];
      assert out == o1 + c;
      Emit(Alu(SUB, T(lval), Fp, T(lval)));
      Emit(Sw(T(r), 0, T(lval)));
      FreeRegister(lval);
      assert out == o +
          ([Addi(T(lval), Zero, R.LocalSlot(e.target.offset))] + c +
          [Alu(SUB, T(lval), Fp, T(lval)), Sw(T(r), 0, T(lval))]);
    }

    method EvalBinExp(e: R.Expr) returns (ok: bool, r: TIndex)
      requires Valid() && e.Bin?
      modifies this, free
      ensures Evaluated(e, ok, r)
      decreases e, 0
    {
      hide GenExpr, GenOp;
      ghost var g, o := Current(), out;
      BinCode(frames, e, g);
      var left, right;
      r := 0;
      ok, left := EvalAsm(e.left);
      if !ok { return; }
      ghost var x := GenExpr(frames, e.left, g).value;
      ok, right := EvalAsm(e.right);
      if !ok { return; }
      ghost var y := GenExpr(frames, e.right, x.g).value;
      ok, r := EvalOperator(e.op, left, right);
      if ok {
        ghost var z := GenOp(e.op, left, right, y.g).value;
        assert out == o + (x.code + y.code + z.code);
      }
    }

    twostate predicate Operated(op: R.BinOp, left: TIndex, right: TIndex, ok: bool, r: TIndex)
      requires Valid()
      reads this, free
    {
      var x := GenOp(op, left, right, old(Current()));
      && Valid()
      && (ok <==> x.Some?)
      && (ok ==> x.value.reg == r && x.value.g == Current() && out == old(out) + x.value.code)
    }

    method EvalOperator(op: R.BinOp, left: TIndex, right: TIndex) returns (ok: bool, r: TIndex)
      requires Valid()
      modifies this, free
      ensures Operated(op, left, right, ok, r)
    {
      ok, r := false, 0;
      match op
      case Add => Emit(Alu(ADD, T(left), T(left), T(right))); FreeRegister(right); ok, r := true, left;
      case Sub => Emit(Alu(SUB, T(left), T(left), T(right))); FreeRegister(right); ok, r := true, left;
      case Mul => Emit(Alu(MUL, T(left), T(left), T(right))); FreeRegister(right); ok, r := true, left;
      case Div => Emit(Alu(DIV, T(left), T(left), T(right))); FreeRegister(right); ok, r := true, left;
      case LogAnd => ok, r := EvalLogAnd(left, right);
      case LogOr => ok, r := EvalLogOr(left, right);
      case Le => ok, r := EvalInverted(op, right, left, left, right);
      case Ge => ok, r := EvalInverted(op, left, right, left, right);
      case Eq => ok, r := EvalEquality(op, left, right);
      case Ne => ok, r := EvalEquality(op, left, right);
      case _ => ok, r := EvalThreeRegister(op, left, right);
    }

    method EvalEquality(op: R.BinOp, left: TIndex, right: TIndex) returns (ok: bool, r: TIndex)
      requires Valid() && (op == R.Eq || op == R.Ne)
      modifies this, free
      ensures Operated(op, left, right, ok, r)
    {
      ok, r := AllocRegister();
      if !ok { return; }
      Emit(Alu(SUB, T(r), T(right), T(left)));
      if op == R.Eq {
        Emit(Seqz(T(r), T(r)));
      } else {
        Emit(Snez(T(r), T(r)));
      }
      FreeRegister(left);
      FreeRegister(right);
    }

    method EvalInverted(op: R.BinOp, a: TIndex, b: TIndex, left: TIndex, right: TIndex) returns (ok: bool, r: TIndex)
      requires Valid() && ((op == R.Le && a == right && b == left) || (op == R.Ge && a == left && b == right))
      modifies this, free
      ensures Operated(op, left, right, ok, r)
    {
      ok, r := AllocRegister();
      if !ok { return; }
      var tmp;
      ok, tmp := AllocRegister();
      if !ok { return; }
      Emit(Alu(SLT, T(tmp), T(a), T(b)));
      Emit(Xori(T(r), T(tmp), 1));
      FreeRegister(left);
      FreeRegister(right);
      FreeRegister(tmp);
    }

    method EvalThreeRegister(op: R.BinOp, left: TIndex, right: TIndex) returns (ok: bool, r: TIndex)
      requires Valid() && op in {R.Lt, R.Gt, R.Shl, R.Shr, R.BitAnd, R.BitOr, R.BitXor}
      modifies this, free
      ensures Operated(op, left, right, ok, r)
    {
      ok, r := AllocRegister();
      if !ok { return; }
      match op {
        case Lt => Emit(Alu(SLT, T(r), T(left), T(right)));
        case Gt => Emit(Alu(SLT, T(r), T(right), T(left)));
        case Shl => Emit(Alu(SLL, T(r), T(left), T(right)));
        case Shr => Emit(Alu(SRA, T(r), T(left), T(right)));
        case BitAnd => Emit(Alu(AND, T(r), T(left), T(right)));
        case BitOr => Emit(Alu(OR, T(r), T(left), T(right)));
        case BitXor => Emit(Alu(XOR, T(r), T(left), T(right)));
      }
      FreeRegister(left);
      FreeRegister(right);
    }

    method EvalLogAnd(left: TIndex, right: TIndex) returns (ok: bool, r: TIndex)
      requires Valid()
      modifies this, free
      ensures Operated(R.LogAnd, left, right, ok, r)
    {
      ok, r := AllocRegister();
      if !ok { return; }
      ghost var o := out;
      var no, end := Generated(AndLabel, ands, FalsePart), Generated(AndLabel, ands, EndPart);
      ands := ands + 1;
      Emit(Beq(T(left), Zero, no));
      Emit(Beq(T(right), Zero, no));
      Emit(Addi(T(r), Zero, 1));
      Emit(J(end));
      Emit(Lab(no));
      Emit(Addi(T(r), Zero, 0));
      Emit(Lab(end));
      FreeRegister(left);
      FreeRegister(right);
      assert out == o + LogAndCode(r, left, right, old(ands));
    }

    method EvalLogOr(left: TIndex, right: TIndex) returns (ok: bool, r: TIndex)
      requires Valid()
      modifies this, free
      ensures Operated(R.LogOr, left, right, ok, r)
    {
      ok, r := AllocRegister();
      if !ok { return; }
      ghost var o := out;
      var yes, end := Generated(OrLabel, ors, TruePart), Generated(OrLabel, ors, EndPart);
      ors := ors + 1;
      Emit(Bne(T(left), Zero, yes));
      Emit(Bne(T(right), Zero, yes));
      Emit(Addi(T(r), Zero, 0));
      Emit(J(end));
      Emit(Lab(yes));
      Emit(Addi(T(r), Zero, 1));
      Emit(Lab(end));
      FreeRegister(left);
      FreeRegister(right);
      assert out == o + LogOrCode(r, left, right, old(ors));
    }

    /** Stores the busy temporaries below the base and frees them all. */
    method SpillTemps(base: nat) returns (freed: seq<bool>, top: nat)
      requires Valid()
      modifies this`out, free
      ensures |freed| == 7 && forall i :: 0 <= i < 7 ==> freed[i] == !old(free[i])
      ensures top == base + 4 * BusyBelow(old(Current()).free, 7)
      ensures out == old(out) + SaveTemps(old(Current()).free, 0, base)
      ensures Current() == old(Current()).(free := AllFree)
    {
      hide SaveTemps, BusyBelow;
      ghost var f: Flags := free[..];
      SaveEnds(f, base);
      freed, top := [false, false, false, false, false, false, false], base;
      for i := 0 to 7
        invariant |freed| == 7 && forall j :: 0 <= j < 7 ==> freed[j] == (j < i && !f[j])
        invariant top == base + 4 * BusyBelow(f, i)
        invariant out + SaveTemps(f, i, top) == old(out) + SaveTemps(f, 0, base)
        invariant forall j :: 0 <= j < 7 ==> free[j] == (j < i || f[j])
      {
        SaveNext(f, i, top);
        if !free[i] {
          top := top + 4;
          Emit(Sw(T(i), -(top as int), Fp));
          freed := freed[i := true];
          free[i] := true;
        }
      }
      SaveEnds(f, top);
      assert free[..] == AllFree;
    }

    /** Reloads them in reverse order and takes them again. */
    method ReloadTemps(freed: seq<bool>, top: nat, ghost f: Flags)
      requires Valid() && |freed| == 7 && forall i :: 0 <= i < 7 ==> freed[i] == !f[i]
      requires top >= 4 * BusyBelow(f, 7)
      modifies this`out, free
      ensures out == old(out) + RestoreTemps(f, 7, top)
      ensures Current() == old(Current()).(free := Reclaimed(old(Current()).free, f))
    {
      ghost var now: Flags := free[..];
      var off := top;
      for i := 7 downto 0
        invariant off >= 4 * BusyBelow(f, i)
        invariant out + RestoreTemps(f, i, off) == old(out) + RestoreTemps(f, 7, top)
        invariant forall j :: 0 <= j < 7 ==> free[j] == (now[j] && (j < i || f[j]))
      {
        if freed[i] {
          assert RestoreTemps(f, i + 1, off) == [Lw(T(i), -off, Fp)] + RestoreTemps(f, i, off - 4);
          Emit(Lw(T(i), -off, Fp));
          off := off - 4;
          free[i] := false;
        }
      }
      assert free[..] == Reclaimed(now, f);
    }

    /** Evaluates the arguments into the slots below `off`. */
    method EvalArgs(args: seq<R.Expr>, off: nat) returns (ok: bool)
      requires Valid()
      modifies this, free
      ensures ok <==> GenArgs(frames, args, old(Current()), off).Some?
      ensures ok ==> var x := GenArgs(frames, args, old(Current()), off).value;
                     Current() == x.g && out == old(out) + x.code
      decreases args
    {
      hide GenExpr;
      ok := true;
      var argOffset := off;
      ghost var whole := GenArgs(frames, args, Current(), off);
      for i := 0 to |args|
        invariant argOffset == off + 4 * i
        invariant var rest := GenArgs(frames, args[i..], Current(), argOffset);
                  && (rest.Some? <==> whole.Some?)
                  && (rest.Some? ==>
                      rest.value.g == whole.value.g && out + rest.value.code == old(out) + whole.value.code)
      {
        ghost var g, o := Current(), out;
        assert args[i..][1..] == args[i + 1..];
        var r;
        ok, r := EvalAsm(args[i]);
        if !ok { return; }
        argOffset := argOffset + 4;
        Emit(Sw(T(r), -(argOffset as int), Fp));
        FreeRegister(r);
        ghost var x := GenExpr(frames, args[i], g).value;
        ghost var rest := GenArgs(frames, args[i + 1..], Current(), argOffset);
        if rest.Some? {
          assert o + (x.code + [Sw(T(r), -(argOffset as int), Fp)] + rest.value.code) == out + rest.value.code;
        }
      }
      assert args[|args|..] == [];
    }

    method LoadArgRegisters(n: nat, off: nat)
      requires n <= 8
      modifies this`out
      ensures out == old(out) + LoadArgs(0, n, off)
    {
      hide LoadArgs;
      var loadOffset := off;
      for i := 0 to n
        invariant loadOffset == off + 4 * i
        invariant out + LoadArgs(i, n, loadOffset) == old(out) + LoadArgs(0, n, off)
      {
        LoadOne(out, i, n, loadOffset);
        loadOffset := loadOffset + 4;
        Emit(Lw(A(i), -(loadOffset as int), Fp));
      }
      LoadedAll(out, n, loadOffset);
    }

    method EvalFuncCall(e: R.Expr) returns (ok: bool, r: TIndex)
      requires Valid() && e.Call?
      modifies this, free
      ensures Evaluated(e, ok, r)
      decreases e, 0
    {
      hide GenArgs, SaveTemps, RestoreTemps, LoadArgs, BusyBelow, Reclaimed, CallCode, GenExpr;
      ghost var g, o := Current(), out;
      CallProduces(frames, e, g);
      r, ok := 0, false;
      if e.name !in frames { return; }
      var base := frames[e.name] + 44;
      var freed, top := SpillTemps(base);
      ok := EvalArgs(e.args, top);
      if !ok { return; }
      ghost var xs := GenArgs(frames, e.args, g.(free := AllFree), top).value;
      var n := if |e.args| < 8 then |e.args| else 8;
      LoadArgRegisters(n, top);
      Emit(Jal(Function(e.name)));
      ReloadTemps(freed, top, g.free);
      CallAppended(o, g.free, base, xs.code, |e.args|, e.name);
      ok, r := AllocRegister();
      if ok {
        Emit(Mv(T(r), A(0)));
      }
    }

    // ----- statements -----

    /** What generating s did. */
    twostate predicate Produced(locals: nat, s: R.Stmt, ok: bool)
      requires Valid()
      reads this, free
    {
      var x := GenStmt(frames, locals, s, old(Current()));
      && (ok <==> x.Some?)
      && (ok ==> x.value.g == Current() && out == old(out) + x.value.code)
    }

    method GenNode(locals: nat, s: R.Stmt) returns (ok: bool)
      requires Valid()
      modifies this, free
      ensures Produced(locals, s, ok)
      decreases s, 2
    {
      match s
      case Return(_) => ok := GenRet(locals, s);
      case If(_, _, _) => ok := GenIf(locals, s);
      case Block(body) => ok := GenCompStmt(locals, body);
      case VarDef(_, _) => ok := GenVarDef(locals, s);
      case VarDec(_) => ok := true;
      case Enum => ok := true;
      case ExprStmt(e) => ok := GenExprStmt(e);
      case While(_, _) => ok := GenWhile(locals, s);
      case For(_, _, _, _) => ok := GenFor(locals, s);
    }

    method GenExprStmt(e: R.Expr) returns (ok: bool)
      requires Valid()
      modifies this, free
      ensures var x := GenEffect(frames, e, old(Current()));
              && (ok <==> x.Some?)
              && (ok ==> x.value.g == Current() && out == old(out) + x.value.code)
    {
      ok := true;
      if !e.Empty? {
        var r;
        ok, r := EvalAsm(e);
        if ok { FreeRegister(r); }
      }
    }

    method GenCompStmt(locals: nat, body: seq<R.Stmt>) returns (ok: bool)
      requires Valid()
      modifies this, free
      ensures var x := GenStmts(frames, locals, body, old(Current()));
              && (ok <==> x.Some?)
              && (ok ==> x.value.g == Current() && out == old(out) + x.value.code)
      decreases body
    {
      hide GenStmt;
      ok := true;
      ghost var whole := GenStmts(frames, locals, body, Current());
      for i := 0 to |body|
        invariant var rest := GenStmts(frames, locals, body[i..], Current());
                  && (rest.Some? <==> whole.Some?)
                  && (rest.Some? ==>
                      rest.value.g == whole.value.g && out + rest.value.code == old(out) + whole.value.code)
      {
        ghost var g, o := Current(), out;
        assert body[i..][1..] == body[i + 1..];
        ok := GenNode(locals, body[i]);
        if !ok { return; }
        ghost var x := GenStmt(frames, locals, body[i], g).value;
        ghost var rest := GenStmts(frames, locals, body[i + 1..], Current());
        if rest.Some? {
          assert o + (x.code + rest.value.code) == out + rest.value.code;
        }
      }
      assert body[|body|..] == [];
    }

    method EmitReturn(locals: nat)
      modifies this`out
      ensures out == old(out) + LeaveCode(locals)
    {
      var size := R.FrameSize(locals);
      Emit(Lw(Ra, size - 4, Sp));
      Emit(Lw(Fp, size - 8, Sp));
      Emit(Addi(Sp, Sp, size));
      Emit(JalrRa);
    }

    method GenRet(locals: nat, s: R.Stmt) returns (ok: bool)
      requires Valid() && s.Return?
      modifies this, free
      ensures Produced(locals, s, ok)
    {
      hide GenExpr, LeaveCode;
      ghost var o := out;
      ok := true;
      if s.e.Empty? {
        EmitReturn(locals);
      } else {
        var r;
        ok, r := EvalAsm(s.e);
        if !ok { return; }
        ghost var c := out[|o|..];
        Emit(Mv(A(0), T(r)));
        FreeRegister(r);
        EmitReturn(locals);
        assert out == o + (c + [Mv(A(0), T(r))] + LeaveCode(locals));
      }
    }

    method GenVarDef(locals: nat, s: R.Stmt) returns (ok: bool)
      requires Valid() && s.VarDef?
      modifies this, free
      ensures Produced(locals, s, ok)
    {
      hide GenExpr;
      var r;
      ok, r := EvalAsm(s.e);
      if !ok { return; }
      Emit(Sw(T(r), -R.LocalSlot(s.sym.offset), Fp));
      FreeRegister(r);
    }

    method GenIf(locals: nat, s: R.Stmt) returns (ok: bool)
      requires Valid() && s.If?
      modifies this, free
      ensures Produced(locals, s, ok)
      decreases s, 0
    {
      hide GenExpr, GenStmt, GenStmts, GenTest, GenEffect, GenElse, IfCode;
      ghost var g, o := Current(), out;
      var n, m := ifs, elses;
      var elseLabel := Generated(ElseLabel, m, Bare);
      ifs, elses := ifs + 1, elses + 1;
      ghost var g1 := Current();
      Emit(Lab(Generated(IfLabel, n, Bare)));
      ghost var x := GenExpr(frames, s.cond, g1);
      var r;
      ok, r := EvalAsm(s.cond);
      if !ok {
        IfProduces(frames, locals, s, g, g1, None, None);
        return;
      }
      Emit(Beq(T(r), Zero, elseLabel));
      FreeRegister(r);
      ghost var t := GenStmt(frames, locals, s.thn, Release(x.value.g, x.value.reg));
      ok := GenNode(locals, s.thn);
      if !ok {
        IfProduces(frames, locals, s, g, g1, x, None);
        return;
      }
      Emit(Lab(elseLabel));
      ghost var e := GenElse(frames, locals, s.els, t.value.g);
      ok := GenElseBody(locals, s.els);
      IfProduces(frames, locals, s, g, g1, x, t);
      if ok {
        IfAppended(o, n, m, r, x.value.code, t.value.code, e.value.code);
      }
    }

    method GenElseBody(locals: nat, els: Option<R.Stmt>) returns (ok: bool)
      requires Valid()
      modifies this, free
      ensures var x := GenElse(frames, locals, els, old(Current()));
              && (ok <==> x.Some?)
              && (ok ==> x.value.g == Current() && out == old(out) + x.value.code)
      decreases els
    {
      hide GenStmt;
      ok := true;
      if els.Some? {
        ok := GenNode(locals, els.value);
      }
    }

    method GenWhile(locals: nat, s: R.Stmt) returns (ok: bool)
      requires Valid() && s.While?
      modifies this, free
      ensures Produced(locals, s, ok)
      decreases s, 0
    {
      hide GenExpr, GenStmt, GenStmts, GenTest, GenEffect, GenElse;
      ghost var g, o := Current(), out;
      var n := whiles;
      var start, end := Generated(WhileLabel, n, StartPart), Generated(WhileLabel, n, EndPart);
      whiles := whiles + 1;
      WhileProduces(frames, locals, s, g);
      Emit(Lab(start));
      ghost var o1 := out;
      var r;
      ok, r := EvalAsm(s.cond);
      if !ok { return; }
      ghost var x := out[|o1|..];
      Emit(Beq(T(r), Zero, end));
      FreeRegister(r);
      ghost var o2 := out;
      ok := GenNode(locals, s.loop);
      if !ok { return; }
      ghost var b := out[|o2|..];
      Emit(J(start));
      Emit(Lab(end));
      assert out == o + WhileCode(n, r, x, b);
    }

    method GenFor(locals: nat, s: R.Stmt) returns (ok: bool)
      requires Valid() && s.For?
      modifies this, free
      ensures Produced(locals, s, ok)
      decreases s, 1
    {
      hide GenExpr, GenStmt, GenStmts, GenTest, GenEffect, GenElse, ForCode, LoopCode;
      ghost var g, o := Current(), out;
      var n := fors;
      fors := fors + 1;
      ForProduces(frames, locals, s, g);
      Emit(Lab(Generated(ForLabel, n, InitPart)));
      ghost var o1 := out;
      // a declaration, or an expression whose register is freed
      ok := GenNode(locals, s.init);
      if !ok { return; }
      ghost var i, gi := out[|o1|..], Current();
      ok := GenForLoop(locals, s, n);
      if ok {
        ghost var x := GenTest(frames, s.cond, Generated(ForLabel, n, EndPart), gi).value;
        ghost var b := GenStmt(frames, locals, s.loop, x.g).value;
        ForAppended(o, n, i, x.code, b.code, GenEffect(frames, s.step, b.g).value.code);
      }
    }

    /** From the condition label on. */
    method GenForLoop(locals: nat, s: R.Stmt, n: nat) returns (ok: bool)
      requires Valid() && s.For?
      modifies this, free
      ensures var x := GenTest(frames, s.cond, Generated(ForLabel, n, EndPart), old(Current()));
              if x.None? then !ok else
              var b := GenStmt(frames, locals, s.loop, x.value.g);
              if b.None? then !ok else
              var k := GenEffect(frames, s.step, b.value.g);
              && (ok <==> k.Some?)
              && (ok ==>
                  k.value.g == Current() && out == old(out) + LoopCode(n, x.value.code, b.value.code, k.value.code))
      decreases s, 0
    {
      hide GenExpr, GenStmt, GenStmts, GenTest, GenEffect, GenElse, LoopCode;
      ghost var o := out;
      Emit(Lab(Generated(ForLabel, n, CondPart)));
      ghost var o2 := out;
      ok := GenForTest(s.cond, Generated(ForLabel, n, EndPart));
      if !ok { return; }
      ghost var x := out[|o2|..];
      Emit(Lab(Generated(ForLabel, n, BodyPart)));
      ghost var o3 := out;
      ok := GenNode(locals, s.loop);
      if !ok { return; }
      ghost var b := out[|o3|..];
      Emit(Lab(Generated(ForLabel, n, StepPart)));
      ghost var o4 := out;
      ok := GenExprStmt(s.step);
      if !ok { return; }
      ghost var k := out[|o4|..];
      Emit(J(Generated(ForLabel, n, CondPart)));
      Emit(Lab(Generated(ForLabel, n, EndPart)));
      LoopAppended(o, n, x, b, k);
    }

    method GenForTest(c: R.Expr, end: Label) returns (ok: bool)
      requires Valid()
      modifies this, free
      ensures var x := GenTest(frames, c, end, old(Current()));
              && (ok <==> x.Some?)
              && (ok ==> x.value.g == Current() && out == old(out) + x.value.code)
    {
      ok := true;
      if !c.Empty? {
        var r;
        ok, r := EvalAsm(c);
        if !ok { return; }
        Emit(Beq(T(r), Zero, end));
        FreeRegister(r);
      }
    }

    // ----- functions -----

    method GenFuncDef(f: R.Func) returns (ok: bool)
      requires Valid()
      modifies this, free
      ensures var x := GenFunc(frames, f, old(Current()));
              && (ok <==> x.Some?)
              && (ok ==> x.value.g == Current() && out == old(out) + x.value.code)
    {
      hide GenStmts, SaveArgs, LeaveCode, EnterCode;
      ghost var o := out;
      Emit(Lab(Function(f.name)));
      EmitEnter(f.frame);
      ghost var o1 := out;
      ok := GenCompStmt(f.frame, f.body);
      if !ok { return; }
      ghost var b := out[|o1|..];
      if f.isVoid {
        EmitReturn(f.frame);
      } else {
        Emit(JalrRa);
      }
      assert out == o + ([Lab(Function(f.name))] + ((EnterCode(f.frame) + SaveArgs(0)) + (b + ExitCode(f))));
    }

    method EmitEnter(locals: nat)
      modifies this`out
      ensures out == old(out) + (EnterCode(locals) + SaveArgs(0))
    {
      hide SaveArgs;
      ghost var o := out;
      var size := R.FrameSize(locals);
      Emit(Addi(Sp, Sp, -size));
      Emit(Sw(Ra, size - 4, Sp));
      Emit(Sw(Fp, size - 8, Sp));
      Emit(Addi(Fp, Sp, size));
      assert out == o + EnterCode(locals);
      EmitSaveArgs();
    }

    method EmitSaveArgs()
      modifies this`out
      ensures out == old(out) + SaveArgs(0)
    {
      hide SaveArgs;
      var argOffset := 12;
      for i := 0 to 8
        invariant argOffset == R.ParamSlot(i)
        invariant out + SaveArgs(i) == old(out) + SaveArgs(0)
      {
        SaveArgsNext(i);
        Emit(Sw(A(i), -argOffset, Fp));
        argOffset := argOffset + 4;
      }
      SaveArgsEnd();
    }

    /** The whole listing, in a generator that has done nothing yet. */
    method GenAsm(p: R.Program) returns (ok: bool)
      requires Valid() && Current() == Initial && out == [] && frames == FramesOf(p)
      modifies this, free
      ensures ok <==> GenProgram(p).Some?
      ensures ok ==> out == GenProgram(p).value
    {
      hide GenFunc;
      Emit(Lab(Start));
      Emit(Jal(Function("main")));
      Emit(Addi(A(7), Zero, 93));
      Emit(Ecall);
      assert out == StartCode;
      ok := true;
      ghost var whole := GenFuncs(frames, p, Initial);
      for i := 0 to |p|
        invariant var rest := GenFuncs(frames, p[i..], Current());
                  && (rest.Some? <==> whole.Some?)
                  && (rest.Some? ==> out + rest.value.code == StartCode + whole.value.code)
      {
        ghost var g, o := Current(), out;
        assert p[i..][1..] == p[i + 1..];
        ok := GenFuncDef(p[i]);
        if !ok { return; }
        ghost var x := GenFunc(frames, p[i], g).value;
        ghost var rest := GenFuncs(frames, p[i + 1..], Current());
        if rest.Some? {
          assert o + (x.code + rest.value.code) == out + rest.value.code;
        }
      }
      assert p[|p|..] == [];
    }
  }

  lemma SaveNext(f: Flags, i: nat, off: nat)
    requires i < 7
    ensures SaveTemps(f, i, off) ==
            if f[i] then SaveTemps(f, i + 1, off) else [Sw(T(i), -(off + 4), Fp)] + SaveTemps(f, i + 1, off + 4)
    ensures BusyBelow(f, i + 1) == BusyBelow(f, i) + if f[i] then 0 else 1
  {
  }

  lemma SaveEnds(f: Flags, off: nat)
    ensures BusyBelow(f, 0) == 0 && SaveTemps(f, 7, off) == []
  {
  }

  lemma LoadOne(o: seq<Instr>, i: nat, n: nat, off: nat)
    requires i < n <= 8
    ensures o + LoadArgs(i, n, off) == o + [Lw(A(i), -((off + 4) as int), Fp)] + LoadArgs(i + 1, n, off + 4)
  {
  }

  lemma LoadedAll(o: seq<Instr>, n: nat, off: nat)
    requires n <= 8
    ensures o + LoadArgs(n, n, off) == o
  {
  }

  lemma BinCode(frames: Frames, e: R.Expr, g: Gen)
    requires e.Bin?
    ensures var x := GenExpr(frames, e.left, g);
            if x.None? then GenExpr(frames, e, g).None? else
            var y := GenExpr(frames, e.right, x.value.g);
            if y.None? then GenExpr(frames, e, g).None? else
            var z := GenOp(e.op, x.value.reg, y.value.reg, y.value.g);
            if z.None? then GenExpr(frames, e, g).None? else
            GenExpr(frames, e, g) == Some(ExprCode(x.value.code + y.value.code + z.value.code, z.value.reg, z.value.g))
  {
    hide GenOp;
  }

  /** The code of an if, from its parts so far. */
  lemma IfProduces(frames: Frames, locals: nat, s: R.Stmt, g: Gen, g1: Gen, x: Option<ExprCode>, t: Option<StmtCode>)
    requires s.If? && g1 == g.(counts := g.counts.(ifs := g.counts.ifs + 1, elses := g.counts.elses + 1))
    requires x == GenExpr(frames, s.cond, g1)
    requires t == if x.None? then None else GenStmt(frames, locals, s.thn, Release(x.value.g, x.value.reg))
    ensures t.None? ==> GenStmt(frames, locals, s, g).None?
    ensures t.Some? ==>
              var e := GenElse(frames, locals, s.els, t.value.g);
              if e.None? then GenStmt(frames, locals, s, g).None?
              else GenStmt(frames, locals, s, g) ==
                   Some(StmtCode(IfCode(g.counts.ifs, g.counts.elses, x.value.reg, x.value.code, t.value.code,
                       e.value.code),
                       e.value.g))
  {
    hide GenExpr, GenElse, IfCode, WhileCode, ForCode, LeaveCode, GenStmts, GenTest, GenEffect, Release;
  }

  lemma WhileProduces(frames: Frames, locals: nat, s: R.Stmt, g: Gen)
    requires s.While?
    ensures var g1 := g.(counts := g.counts.(whiles := g.counts.whiles + 1));
            var x := GenExpr(frames, s.cond, g1);
            if x.None? then GenStmt(frames, locals, s, g).None? else
            var b := GenStmt(frames, locals, s.loop, Release(x.value.g, x.value.reg));
            if b.None? then GenStmt(frames, locals, s, g).None? else
            GenStmt(frames, locals, s, g) ==
                Some(StmtCode(WhileCode(g.counts.whiles, x.value.reg, x.value.code, b.value.code), b.value.g))
  {
    hide GenExpr, GenElse, WhileCode, GenStmts, GenTest, GenEffect;
  }

  lemma ForProduces(frames: Frames, locals: nat, s: R.Stmt, g: Gen)
    requires s.For?
    ensures var n := g.counts.fors;
            var i := GenStmt(frames, locals, s.init, g.(counts := g.counts.(fors := n + 1)));
            if i.None? then GenStmt(frames, locals, s, g).None? else
            var x := GenTest(frames, s.cond, Generated(ForLabel, n, EndPart), i.value.g);
            if x.None? then GenStmt(frames, locals, s, g).None? else
            var b := GenStmt(frames, locals, s.loop, x.value.g);
            if b.None? then GenStmt(frames, locals, s, g).None? else
            var k := GenEffect(frames, s.step, b.value.g);
            if k.None? then GenStmt(frames, locals, s, g).None? else
            GenStmt(frames, locals, s, g) ==
                Some(StmtCode(ForCode(n, i.value.code, x.value.code, b.value.code, k.value.code), k.value.g))
  {
    hide GenExpr, GenElse, ForCode, GenStmts, GenTest, GenEffect;
  }

  lemma SaveArgsNext(i: nat)
    requires i < 8
    ensures SaveArgs(i) == [Sw(A(i), -R.ParamSlot(i), Fp)] + SaveArgs(i + 1)
  {
  }

  lemma SaveArgsEnd()
    ensures SaveArgs(8) == []
  {
  }

  lemma CallProduces(frames: Frames, e: R.Expr, g: Gen)
    requires e.Call?
    ensures if e.name !in frames then GenExpr(frames, e, g).None? else
            var base := frames[e.name] + 44;
            var xs := GenArgs(frames, e.args, g.(free := AllFree), base + 4 * BusyBelow(g.free, 7));
            if xs.None? then GenExpr(frames, e, g).None? else
            var z := Alloc(xs.value.g.(free := Reclaimed(xs.value.g.free, g.free)));
            if z.None? then GenExpr(frames, e, g).None? else
            var code := CallCode(g.free, base, xs.value.code, |e.args|, e.name) + [Mv(T(z.value.reg), A(0))];
            GenExpr(frames, e, g) == Some(ExprCode(code, z.value.reg, z.value.g))
  {
    hide GenArgs, CallCode, BusyBelow, Reclaimed, Alloc;
  }

  lemma CallAppended(o: seq<Instr>, free: Flags, base: nat, args: seq<Instr>, n: nat, f: string)
    ensures var top := base + 4 * BusyBelow(free, 7);
            o + SaveTemps(free, 0, base) + args + LoadArgs(0, if n < 8 then n else 8, top) + [Jal(Function(f))] +
            RestoreTemps(free, 7, top) == o + CallCode(free, base, args, n, f)
  {
    hide SaveTemps, LoadArgs, RestoreTemps, BusyBelow;
  }

  lemma IfAppended(o: seq<Instr>, n: nat, m: nat, r: TIndex, x: seq<Instr>, t: seq<Instr>, e: seq<Instr>)
    ensures o + [Lab(Generated(IfLabel, n, Bare))] + x + [Beq(T(r), Zero, Generated(ElseLabel, m, Bare))] + t +
            [Lab(Generated(ElseLabel, m, Bare))] + e == o + IfCode(n, m, r, x, t, e)
  {
  }

  function LoopCode(n: nat, x: seq<Instr>, b: seq<Instr>, k: seq<Instr>): seq<Instr> {
    [Lab(Generated(ForLabel, n, CondPart))] + x + [Lab(Generated(ForLabel, n, BodyPart))] + b +
    [Lab(Generated(ForLabel, n, StepPart))] + k +
    [J(Generated(ForLabel, n, CondPart)), Lab(Generated(ForLabel, n, EndPart))]
  }

  lemma LoopAppended(o: seq<Instr>, n: nat, x: seq<Instr>, b: seq<Instr>, k: seq<Instr>)
    ensures o + [Lab(Generated(ForLabel, n, CondPart))] + x + [Lab(Generated(ForLabel, n, BodyPart))] + b +
            [Lab(Generated(ForLabel, n, StepPart))] + k +
            [J(Generated(ForLabel, n, CondPart))] + [Lab(Generated(ForLabel, n, EndPart))] == o + LoopCode(n, x, b, k)
  {
  }

  lemma ForAppended(o: seq<Instr>, n: nat, i: seq<Instr>, x: seq<Instr>, b: seq<Instr>, k: seq<Instr>)
    ensures o + [Lab(Generated(ForLabel, n, InitPart))] + i + LoopCode(n, x, b, k) == o + ForCode(n, i, x, b, k)
  {
  }
}
