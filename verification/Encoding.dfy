/** When every instruction of a listing can be encoded: immediates and offsets have 12 bits. */
module Encoding {
  import opened Options
  import opened Machine
  import opened CodeGen
  import opened Guards
  import opened Registers
  import R = Resolved

  predicate Encodes(i: Instr) {
    match i
    case Addi(_, _, k) => Imm12(k)
    case Xori(_, _, k) => Imm12(k)
    case Lw(_, off, _) => Imm12(off)
    case Sw(_, off, _) => Imm12(off)
    case _ => true
  }

  /** The machine has no step for an instruction that cannot be encoded. */
  lemma UnencodableIsStuck(code: Listing, s: State)
    requires s.pc < |code| && !Encodes(code[s.pc])
    ensures Step(code, s).None?
  {
  }

  ghost predicate AllEncode(code: seq<Instr>) {
    forall i :: 0 <= i < |code| ==> Encodes(code[i])
  }

  lemma EncodeConcat(a: seq<Instr>, b: seq<Instr>)
    ensures AllEncode(a + b) <==> AllEncode(a) && AllEncode(b)
  {
    if AllEncode(a + b) {
      assert forall i :: 0 <= i < |a| ==> a[i] == (a + b)[i];
      assert forall i :: 0 <= i < |b| ==> b[i] == (a + b)[|a| + i];
    }
  }

  lemma EncodeNone()
    ensures AllEncode([])
  {
  }

  lemma EncodeOne(i: Instr)
    ensures AllEncode([i]) <==> Encodes(i)
  {
    assert [i][0] == i;
  }

  lemma EncodeTwo(i: Instr, j: Instr)
    ensures AllEncode([i, j]) <==> Encodes(i) && Encodes(j)
  {
    assert [i, j][0] == i && [i, j][1] == j;
  }

  // ----- expressions -----

  predicate SymbolFits(sym: R.Symbol) {
    match sym
    case Enumerator(v, _) => Imm12(v)
    case Param(i, _) => R.ParamSlot(i) <= 2048
    case Local(o) => R.LocalSlot(o) <= 2048
  }

  /** Constants and slots fit, also the deepest spill slot of each call, with `busy` temporaries in use. */
  predicate ExprFits(frames: Frames, e: R.Expr, busy: nat)
    decreases e
  {
    match e
    case Empty => true
    case Num(v) => Imm12(v)
    case Ident(sym) => SymbolFits(sym)
    case Not(e1) => ExprFits(frames, e1, busy + 1)
    case Bin(_, l, r) => ExprFits(frames, l, busy) && ExprFits(frames, r, busy + 1)
    case Assign(target, e1) => R.LocalSlot(target.offset) <= 2047 && ExprFits(frames, e1, busy + 1)
    case Call(f, args) =>
      f in frames && DeepestFits(frames[f] + 44, busy + |args|) && forall a :: a in args ==> ExprFits(frames, a, 0)
  }

  predicate DeepestFits(base: nat, slots: nat) {
    slots == 0 || base + 4 * slots <= 2048
  }

  /** The code of an expression can be encoded if and only if its constants and slots fit. */
  lemma {:induction false} ExprEncodesIff(frames: Frames, e: R.Expr, g: Gen)
    requires GenExpr(frames, e, g).Some?
    ensures AllEncode(GenExpr(frames, e, g).value.code) <==> ExprFits(frames, e, BusyBelow(g.free, 7))
    decreases e
  {
    hide BusyBelow, AllEncode, Encodes, Alloc, GenOp, GenArgs, CallCode;
    match e
    case Num(_) => LeafEncodesIff(frames, e, g);
    case Ident(_) => LeafEncodesIff(frames, e, g);
    case Not(_) => NotEncodesIff(frames, e, g);
    case Bin(op, l, r) => BinEncodesIff(frames, e, g);
    case Assign(target, e1) => AssignEncodesIff(frames, e, g);
    case Call(_, _) => CallExprEncodesIff(frames, e, g);
  }

  lemma LeafEncodesIff(frames: Frames, e: R.Expr, g: Gen)
    requires (e.Num? || e.Ident?) && GenExpr(frames, e, g).Some?
    ensures AllEncode(GenExpr(frames, e, g).value.code) <==> ExprFits(frames, e, BusyBelow(g.free, 7))
  {
    hide BusyBelow, AllEncode, Alloc;
    EncodeOne(GenExpr(frames, e, g).value.code[0]);
  }

  lemma NotEncodesIff(frames: Frames, e: R.Expr, g: Gen)
    requires e.Not? && GenExpr(frames, e, g).Some?
    ensures AllEncode(GenExpr(frames, e, g).value.code) <==> ExprFits(frames, e, BusyBelow(g.free, 7))
    decreases e, 0
  {
    hide BusyBelow, AllEncode, Alloc;
    var x := Alloc(g).value;
    var y := GenExpr(frames, e.e, x.g).value;
    AllocTakes(g);
    BusyTake(g, x.reg);
    ExprEncodesIff(frames, e.e, x.g);
    EncodeConcat(y.code, [Seqz(T(x.reg), T(y.reg))]);
    EncodeOne(Seqz(T(x.reg), T(y.reg)));
  }

  lemma CallExprEncodesIff(frames: Frames, e: R.Expr, g: Gen)
    requires e.Call? && GenExpr(frames, e, g).Some?
    ensures AllEncode(GenExpr(frames, e, g).value.code) <==> ExprFits(frames, e, BusyBelow(g.free, 7))
    decreases e, 0
  {
    hide BusyBelow, AllEncode, CallCode, GenArgs, Reclaimed, Alloc;
    var base, h := frames[e.name] + 44, g.(free := AllFree);
    var top := base + 4 * BusyBelow(g.free, 7);
    var xs := GenArgs(frames, e.args, h, top).value;
    ArgsEncodeIff(frames, e.args, h, top);
    CallEncodesIff(g.free, base, xs.code, |e.args|, e.name);
    var call, move := CallCode(g.free, base, xs.code, |e.args|, e.name), Mv(T(GenExpr(frames, e, g).value.reg), A(0));
    EncodeConcat(call, [move]);
    EncodeOne(move);
  }

  lemma BinEncodesIff(frames: Frames, e: R.Expr, g: Gen)
    requires e.Bin? && GenExpr(frames, e, g).Some?
    ensures AllEncode(GenExpr(frames, e, g).value.code) <==> ExprFits(frames, e, BusyBelow(g.free, 7))
    decreases e, 0
  {
    hide BusyBelow, AllEncode, GenOp;
    var x := GenExpr(frames, e.left, g).value;
    var y := GenExpr(frames, e.right, x.g).value;
    var z := GenOp(e.op, x.reg, y.reg, y.g).value;
    BusySetOfExpr(frames, e.left, g);
    BusyTake(g, x.reg);
    ExprEncodesIff(frames, e.left, g);
    ExprEncodesIff(frames, e.right, x.g);
    OpEncodes(e.op, x.reg, y.reg, y.g);
    EncodeConcat(x.code + y.code, z.code);
    EncodeConcat(x.code, y.code);
  }

  lemma OpEncodes(op: R.BinOp, l: TIndex, r: TIndex, g: Gen)
    ensures GenOp(op, l, r, g).Some? ==> AllEncode(GenOp(op, l, r, g).value.code)
  {
    hide Alloc, Release;
  }

  lemma AllocTakes(g: Gen)
    requires Alloc(g).Some?
    ensures var x := Alloc(g).value; g.free[x.reg] && x.g.free == g.free[x.reg := false]
  {
  }

  lemma AssignEncodesIff(frames: Frames, e: R.Expr, g: Gen)
    requires e.Assign? && GenExpr(frames, e, g).Some?
    ensures AllEncode(GenExpr(frames, e, g).value.code) <==> ExprFits(frames, e, BusyBelow(g.free, 7))
    decreases e, 0
  {
    hide BusyBelow, AllEncode, Alloc, Release;
    var x := Alloc(g).value;
    var y := GenExpr(frames, e.e, x.g).value;
    AllocTakes(g);
    BusyTake(g, x.reg);
    ExprEncodesIff(frames, e.e, x.g);
    AssignCodeEncodes(x.reg, y.reg, R.LocalSlot(e.target.offset), y.code);
  }

  lemma AssignCodeEncodes(z: TIndex, r: TIndex, d: int, y: seq<Instr>)
    ensures AllEncode([Addi(T(z), Zero, d)] + y + [Alu(SUB, T(z), Fp, T(z)), Sw(T(r), 0, T(z))]) <==>
            Imm12(d) && AllEncode(y)
  {
    hide AllEncode;
    var first := Addi(T(z), Zero, d);
    var sub, store := Alu(SUB, T(z), Fp, T(z)), Sw(T(r), 0, T(z));
    EncodeConcat([first] + y, [sub, store]);
    EncodeConcat([first], y);
    EncodeOne(first);
    EncodeTwo(sub, store);
  }

  lemma {:induction false} ArgsEncodeIff(frames: Frames, args: seq<R.Expr>, g: Gen, off: nat)
    requires g.free == AllFree && GenArgs(frames, args, g, off).Some?
    ensures AllEncode(GenArgs(frames, args, g, off).value.code) <==>
              DeepestFits(off, |args|) && forall a :: a in args ==> ExprFits(frames, a, 0)
    decreases args
  {
    hide AllEncode, ExprFits, BusyBelow, GenExpr;
    if args == [] {
      EncodeNone();
    } else {
      var x := GenExpr(frames, args[0], g).value;
      var h := Release(x.g, x.reg);
      var store := Sw(T(x.reg), -(off + 4), Fp);
      BusySetReleased(frames, args[0], g);
      NoneAreBusy();
      ExprEncodesIff(frames, args[0], g);
      ArgsEncodeIff(frames, args[1..], h, off + 4);
      var rest := GenArgs(frames, args[1..], h, off + 4).value.code;
      EncodeConcat(x.code + [store], rest);
      EncodeConcat(x.code, [store]);
      EncodeOne(store);
      assert (forall a :: a in args ==> ExprFits(frames, a, 0)) <==>
             ExprFits(frames, args[0], 0) && forall a :: a in args[1..] ==> ExprFits(frames, a, 0);
    }
  }

  lemma NoneBelow(free: Flags)
    ensures BusyBelow(free, 0) == 0
  {
  }

  lemma NoneAreBusy()
    ensures BusyBelow(AllFree, 7) == 0
  {
    assert BusyBelow(AllFree, 5) == 0;
    assert BusyBelow(AllFree, 3) == 0;
  }

  /** Everything of a call but its arguments: the last spill slot is the deepest. */
  lemma CallEncodesIff(free: Flags, base: nat, args: seq<Instr>, n: nat, f: string)
    requires AllEncode(args) ==> DeepestFits(base + 4 * BusyBelow(free, 7), n)
    ensures AllEncode(CallCode(free, base, args, n, f)) <==>
            AllEncode(args) && DeepestFits(base, BusyBelow(free, 7) + n)
  {
    hide AllEncode, BusyBelow, SaveTemps, LoadArgs, RestoreTemps;
    var busy := BusyBelow(free, 7);
    var m := if n < 8 then n else 8;
    var top := base + 4 * busy;
    var save, load, restore := SaveTemps(free, 0, base), LoadArgs(0, m, top), RestoreTemps(free, 7, top);
    SaveEncodesIff(free, 0, base);
    LoadEncodesIff(0, m, top);
    RestoreEncodesIff(free, 7, top);
    EncodeConcat(save + args + load + [Jal(Function(f))], restore);
    EncodeConcat(save + args + load, [Jal(Function(f))]);
    EncodeConcat(save + args, load);
    EncodeConcat(save, args);
    EncodeOne(Jal(Function(f)));
    NoneBelow(free);
  }

  lemma {:induction false} SaveEncodesIff(free: Flags, i: nat, off: nat)
    requires i <= 7
    ensures BusyBelow(free, 7) >= BusyBelow(free, i)
    ensures AllEncode(SaveTemps(free, i, off)) <==> DeepestFits(off, BusyBelow(free, 7) - BusyBelow(free, i))
    decreases 7 - i
  {
    hide AllEncode;
    if i == 7 {
      EncodeNone();
    } else if free[i] {
      SaveEncodesIff(free, i + 1, off);
    } else {
      SaveEncodesIff(free, i + 1, off + 4);
      EncodeConcat([Sw(T(i), -(off + 4), Fp)], SaveTemps(free, i + 1, off + 4));
      EncodeOne(Sw(T(i), -(off + 4), Fp));
    }
  }

  lemma {:induction false} RestoreEncodesIff(free: Flags, i: nat, off: int)
    requires i <= 7 && off >= 4 * BusyBelow(free, i)
    ensures AllEncode(RestoreTemps(free, i, off)) <==> (BusyBelow(free, i) == 0 || off <= 2048)
    decreases i
  {
    hide AllEncode;
    if i == 0 {
      EncodeNone();
    } else if free[i - 1] {
      RestoreEncodesIff(free, i - 1, off);
    } else {
      RestoreEncodesIff(free, i - 1, off - 4);
      EncodeConcat([Lw(T(i - 1), -off, Fp)], RestoreTemps(free, i - 1, off - 4));
      EncodeOne(Lw(T(i - 1), -off, Fp));
    }
  }

  lemma {:induction false} LoadEncodesIff(i: nat, n: nat, off: nat)
    requires i <= n <= 8
    ensures AllEncode(LoadArgs(i, n, off)) <==> DeepestFits(off, n - i)
    decreases n - i
  {
    hide AllEncode;
    if i == n {
      EncodeNone();
    } else {
      LoadEncodesIff(i + 1, n, off + 4);
      EncodeConcat([Lw(A(i), -(off + 4), Fp)], LoadArgs(i + 1, n, off + 4));
      EncodeOne(Lw(A(i), -(off + 4), Fp));
    }
  }

  // ----- statements and programs -----

  predicate StmtFits(frames: Frames, locals: nat, s: R.Stmt) {
    match s
    case Return(e) => R.FrameSize(locals) <= 2047 && ExprFits(frames, e, 0)
    case If(c, thn, els) =>
      ExprFits(frames, c, 0) && StmtFits(frames, locals, thn) && (els.Some? ==> StmtFits(frames, locals, els.value))
    case Block(body) => forall i :: 0 <= i < |body| ==> StmtFits(frames, locals, body[i])
    case VarDef(sym, e) => R.LocalSlot(sym.offset) <= 2048 && ExprFits(frames, e, 0)
    case VarDec(_) => true
    case Enum => true
    case ExprStmt(e) => ExprFits(frames, e, 0)
    case While(c, body) => ExprFits(frames, c, 0) && StmtFits(frames, locals, body)
    case For(init, c, step, body) =>
      && StmtFits(frames, locals, init) && ExprFits(frames, c, 0) && ExprFits(frames, step, 0)
      && StmtFits(frames, locals, body)
  }

  predicate FuncFits(frames: Frames, f: R.Func) {
    R.FrameSize(f.frame) <= 2047 && forall i :: 0 <= i < |f.body| ==> StmtFits(frames, f.frame, f.body[i])
  }

  lemma {:induction false} StmtEncodesIff(frames: Frames, locals: nat, s: R.Stmt, g: Gen)
    requires g.free == AllFree && GenStmt(frames, locals, s, g).Some?
    ensures AllEncode(GenStmt(frames, locals, s, g).value.code) <==> StmtFits(frames, locals, s)
    decreases s, 1
  {
    hide AllEncode, ExprFits, GenExpr, R.FrameSize, LeaveCode, GenEffect;
    match s
    case Return(e) => ReturnEncodesIff(frames, locals, s, g);
    case If(_, _, _) => IfEncodesIff(frames, locals, s, g);
    case Block(body) => StmtsEncodeIff(frames, locals, body, g);
    case VarDef(sym, e) =>
      var x := GenExpr(frames, e, g).value;
      var store := Sw(T(x.reg), -R.LocalSlot(sym.offset), Fp);
      FreeEncodesIff(frames, e, g);
      EncodeConcat(x.code, [store]);
      EncodeOne(store);
    case VarDec(_) => EncodeNone();
    case Enum => EncodeNone();
    case ExprStmt(e) => EffectEncodesIff(frames, e, g);
    case While(_, _) => WhileEncodesIff(frames, locals, s, g);
    case For(_, _, _, _) => ForEncodesIff(frames, locals, s, g);
  }

  lemma FreeEncodesIff(frames: Frames, e: R.Expr, g: Gen)
    requires g.free == AllFree && GenExpr(frames, e, g).Some?
    ensures AllEncode(GenExpr(frames, e, g).value.code) <==> ExprFits(frames, e, 0)
    ensures var x := GenExpr(frames, e, g).value; Release(x.g, x.reg).free == AllFree
  {
    hide GenExpr, AllEncode, ExprFits;
    ExprEncodesIff(frames, e, g);
    NoneAreBusy();
    BusySetReleased(frames, e, g);
  }

  lemma EffectEncodesIff(frames: Frames, e: R.Expr, g: Gen)
    requires g.free == AllFree && GenEffect(frames, e, g).Some?
    ensures AllEncode(GenEffect(frames, e, g).value.code) <==> ExprFits(frames, e, 0)
    ensures GenEffect(frames, e, g).value.g.free == AllFree
  {
    hide GenExpr, AllEncode;
    if e.Empty? {
      EncodeNone();
    } else {
      FreeEncodesIff(frames, e, g);
    }
  }

  lemma TestEncodesIff(frames: Frames, c: R.Expr, end: Label, g: Gen)
    requires g.free == AllFree && GenTest(frames, c, end, g).Some?
    ensures AllEncode(GenTest(frames, c, end, g).value.code) <==> ExprFits(frames, c, 0)
    ensures GenTest(frames, c, end, g).value.g.free == AllFree
  {
    hide GenExpr, AllEncode;
    if c.Empty? {
      EncodeNone();
    } else {
      FreeEncodesIff(frames, c, g);
      var x := GenExpr(frames, c, g).value;
      EncodeConcat(x.code, [Beq(T(x.reg), Zero, end)]);
      EncodeOne(Beq(T(x.reg), Zero, end));
    }
  }

  lemma LeaveEncodesIff(locals: nat)
    ensures AllEncode(LeaveCode(locals)) <==> R.FrameSize(locals) <= 2047
  {
    var size, code := R.FrameSize(locals), LeaveCode(locals);
    assert code == [Lw(Ra, size - 4, Sp), Lw(Fp, size - 8, Sp), Addi(Sp, Sp, size), JalrRa];
    assert Encodes(code[2]) <==> size <= 2047;
  }

  lemma EnterEncodesIff(locals: nat)
    ensures AllEncode(EnterCode(locals)) <==> R.FrameSize(locals) <= 2047
  {
    var size, code := R.FrameSize(locals), EnterCode(locals);
    assert Encodes(code[3]) <==> size <= 2047;
  }

  lemma ReturnEncodesIff(frames: Frames, locals: nat, s: R.Stmt, g: Gen)
    requires s.Return? && g.free == AllFree && GenStmt(frames, locals, s, g).Some?
    ensures AllEncode(GenStmt(frames, locals, s, g).value.code) <==> StmtFits(frames, locals, s)
    decreases s, 0
  {
    hide AllEncode, GenExpr, R.FrameSize, LeaveCode;
    LeaveEncodesIff(locals);
    if !s.e.Empty? {
      hide ExprFits;
      var x := GenExpr(frames, s.e, g).value;
      FreeEncodesIff(frames, s.e, g);
      EncodeConcat(x.code + [Mv(A(0), T(x.reg))], LeaveCode(locals));
      EncodeConcat(x.code, [Mv(A(0), T(x.reg))]);
      EncodeOne(Mv(A(0), T(x.reg)));
    }
  }

  lemma IfEncodesIff(frames: Frames, locals: nat, s: R.Stmt, g: Gen)
    requires s.If? && g.free == AllFree && GenStmt(frames, locals, s, g).Some?
    ensures AllEncode(GenStmt(frames, locals, s, g).value.code) <==> StmtFits(frames, locals, s)
    decreases s, 0
  {
    hide AllEncode, ExprFits, GenExpr;
    var g1 := g.(counts := g.counts.(ifs := g.counts.ifs + 1, elses := g.counts.elses + 1));
    var x := GenExpr(frames, s.cond, g1).value;
    var t := GenStmt(frames, locals, s.thn, Release(x.g, x.reg)).value;
    var e := GenElse(frames, locals, s.els, t.g).value;
    FreeEncodesIff(frames, s.cond, g1);
    StmtEncodesIff(frames, locals, s.thn, Release(x.g, x.reg));
    BusySetOfStmt(frames, locals, s.thn, Release(x.g, x.reg));
    if s.els.Some? {
      StmtEncodesIff(frames, locals, s.els.value, t.g);
    } else {
      EncodeNone();
    }
    IfCodeEncodes(g.counts.ifs, g.counts.elses, x.reg, x.code, t.code, e.code);
  }

  lemma IfCodeEncodes(n: nat, m: nat, r: TIndex, x: seq<Instr>, t: seq<Instr>, e: seq<Instr>)
    ensures AllEncode(IfCode(n, m, r, x, t, e)) <==> AllEncode(x) && AllEncode(t) && AllEncode(e)
  {
    hide AllEncode;
    var start, skip := Lab(Generated(IfLabel, n, Bare)), Beq(T(r), Zero, Generated(ElseLabel, m, Bare));
    var els := Lab(Generated(ElseLabel, m, Bare));
    EncodeConcat([start] + x + [skip] + t + [els], e);
    EncodeConcat([start] + x + [skip] + t, [els]);
    EncodeConcat([start] + x + [skip], t);
    EncodeConcat([start] + x, [skip]);
    EncodeConcat([start], x);
    EncodeOne(start);
    EncodeOne(skip);
    EncodeOne(els);
  }

  lemma WhileEncodesIff(frames: Frames, locals: nat, s: R.Stmt, g: Gen)
    requires s.While? && g.free == AllFree && GenStmt(frames, locals, s, g).Some?
    ensures AllEncode(GenStmt(frames, locals, s, g).value.code) <==> StmtFits(frames, locals, s)
    decreases s, 0
  {
    hide AllEncode, ExprFits, GenExpr;
    var g1 := g.(counts := g.counts.(whiles := g.counts.whiles + 1));
    var x := GenExpr(frames, s.cond, g1).value;
    var b := GenStmt(frames, locals, s.loop, Release(x.g, x.reg)).value;
    FreeEncodesIff(frames, s.cond, g1);
    StmtEncodesIff(frames, locals, s.loop, Release(x.g, x.reg));
    WhileCodeEncodes(g.counts.whiles, x.reg, x.code, b.code);
  }

  lemma WhileCodeEncodes(n: nat, r: TIndex, x: seq<Instr>, b: seq<Instr>)
    ensures AllEncode(WhileCode(n, r, x, b)) <==> AllEncode(x) && AllEncode(b)
  {
    hide AllEncode;
    var start, skip := Lab(Generated(WhileLabel, n, StartPart)), Beq(T(r), Zero, Generated(WhileLabel, n, EndPart));
    var back, end := J(Generated(WhileLabel, n, StartPart)), Lab(Generated(WhileLabel, n, EndPart));
    EncodeConcat([start] + x + [skip] + b, [back, end]);
    EncodeConcat([start] + x + [skip], b);
    EncodeConcat([start] + x, [skip]);
    EncodeConcat([start], x);
    EncodeOne(start);
    EncodeOne(skip);
    EncodeTwo(back, end);
  }

  lemma ForEncodesIff(frames: Frames, locals: nat, s: R.Stmt, g: Gen)
    requires s.For? && g.free == AllFree && GenStmt(frames, locals, s, g).Some?
    ensures AllEncode(GenStmt(frames, locals, s, g).value.code) <==> StmtFits(frames, locals, s)
    decreases s, 0
  {
    hide AllEncode, ExprFits, GenTest, GenEffect;
    var n := g.counts.fors;
    var g1 := g.(counts := g.counts.(fors := n + 1));
    var end := Generated(ForLabel, n, EndPart);
    var i := GenStmt(frames, locals, s.init, g1).value;
    var x := GenTest(frames, s.cond, end, i.g).value;
    var b := GenStmt(frames, locals, s.loop, x.g).value;
    var k := GenEffect(frames, s.step, b.g).value;
    StmtEncodesIff(frames, locals, s.init, g1);
    BusySetOfStmt(frames, locals, s.init, g1);
    TestEncodesIff(frames, s.cond, end, i.g);
    StmtEncodesIff(frames, locals, s.loop, x.g);
    BusySetOfStmt(frames, locals, s.loop, x.g);
    EffectEncodesIff(frames, s.step, b.g);
    ForCodeEncodes(n, i.code, x.code, b.code, k.code);
  }

  lemma ForCodeEncodes(n: nat, i: seq<Instr>, x: seq<Instr>, b: seq<Instr>, k: seq<Instr>)
    ensures AllEncode(ForCode(n, i, x, b, k)) <==> AllEncode(i) && AllEncode(x) && AllEncode(b) && AllEncode(k)
  {
    hide AllEncode;
    var l0, l1 := Lab(Generated(ForLabel, n, InitPart)), Lab(Generated(ForLabel, n, CondPart));
    var l2, l3 := Lab(Generated(ForLabel, n, BodyPart)), Lab(Generated(ForLabel, n, StepPart));
    var back, end := J(Generated(ForLabel, n, CondPart)), Lab(Generated(ForLabel, n, EndPart));
    EncodeConcat([l0] + i + [l1] + x + [l2] + b + [l3] + k, [back, end]);
    EncodeConcat([l0] + i + [l1] + x + [l2] + b + [l3], k);
    EncodeConcat([l0] + i + [l1] + x + [l2] + b, [l3]);
    EncodeConcat([l0] + i + [l1] + x + [l2], b);
    EncodeConcat([l0] + i + [l1] + x, [l2]);
    EncodeConcat([l0] + i + [l1], x);
    EncodeConcat([l0] + i, [l1]);
    EncodeConcat([l0], i);
    EncodeOne(l0);
    EncodeOne(l1);
    EncodeOne(l2);
    EncodeOne(l3);
    EncodeTwo(back, end);
  }

  lemma {:induction false} StmtsEncodeIff(frames: Frames, locals: nat, body: seq<R.Stmt>, g: Gen)
    requires g.free == AllFree && GenStmts(frames, locals, body, g).Some?
    ensures AllEncode(GenStmts(frames, locals, body, g).value.code) <==>
              forall i :: 0 <= i < |body| ==> StmtFits(frames, locals, body[i])
    decreases body, 0
  {
    hide AllEncode, StmtFits, GenStmt;
    if body == [] {
      EncodeNone();
    } else {
      var x := GenStmt(frames, locals, body[0], g).value;
      StmtEncodesIff(frames, locals, body[0], g);
      BusySetOfStmt(frames, locals, body[0], g);
      StmtsEncodeIff(frames, locals, body[1..], x.g);
      EncodeConcat(x.code, GenStmts(frames, locals, body[1..], x.g).value.code);
      assert (forall i :: 0 <= i < |body| ==> StmtFits(frames, locals, body[i])) <==>
             StmtFits(frames, locals, body[0]) &&
                 forall i :: 0 <= i < |body[1..]| ==> StmtFits(frames, locals, body[1..][i]) by {
        assert forall i :: 0 < i < |body| ==> body[i] == body[1..][i - 1];
      }
    }
  }

  lemma {:induction false} SaveArgsEncode(i: nat)
    requires i <= 8
    ensures AllEncode(SaveArgs(i))
    decreases 8 - i
  {
    hide AllEncode;
    if i == 8 {
      EncodeNone();
    } else {
      SaveArgsEncode(i + 1);
      EncodeConcat([Sw(A(i), -R.ParamSlot(i), Fp)], SaveArgs(i + 1));
      EncodeOne(Sw(A(i), -R.ParamSlot(i), Fp));
    }
  }

  lemma FuncEncodesIff(frames: Frames, f: R.Func, g: Gen)
    requires g.free == AllFree && GenFunc(frames, f, g).Some?
    ensures AllEncode(GenFunc(frames, f, g).value.code) <==> FuncFits(frames, f)
  {
    hide AllEncode, StmtFits, GenStmts, EnterCode, SaveArgs, LeaveCode, R.FrameSize;
    var b := GenStmts(frames, f.frame, f.body, g).value;
    var start, enter := Lab(Function(f.name)), EnterCode(f.frame);
    StmtsEncodeIff(frames, f.frame, f.body, g);
    EnterEncodesIff(f.frame);
    SaveArgsEncode(0);
    LeaveEncodesIff(f.frame);
    EncodeOne(JalrRa);
    EncodeOne(start);
    EncodeConcat([start], (enter + SaveArgs(0)) + (b.code + ExitCode(f)));
    EncodeConcat(enter + SaveArgs(0), b.code + ExitCode(f));
    EncodeConcat(enter, SaveArgs(0));
    EncodeConcat(b.code, ExitCode(f));
  }

  lemma {:induction false} FuncsEncodeIff(frames: Frames, p: R.Program, g: Gen)
    requires g.free == AllFree && GenFuncs(frames, p, g).Some?
    ensures AllEncode(GenFuncs(frames, p, g).value.code) <==> forall f :: f in p ==> FuncFits(frames, f)
  {
    hide AllEncode, FuncFits, GenStmts, R.FrameSize, SaveArgs;
    if p == [] {
      EncodeNone();
    } else {
      var x := GenFunc(frames, p[0], g).value;
      FuncEncodesIff(frames, p[0], g);
      BusySetOfStmts(frames, p[0].frame, p[0].body, g);
      FuncsEncodeIff(frames, p[1..], x.g);
      EncodeConcat(x.code, GenFuncs(frames, p[1..], x.g).value.code);
      assert (forall f :: f in p ==> FuncFits(frames, f)) <==>
             FuncFits(frames, p[0]) && forall f :: f in p[1..] ==> FuncFits(frames, f);
    }
  }

  /** A listing can be encoded if and only if every frame, constant, local variable and deepest spill
      slot of its program fits 12 bits. */
  lemma ListingEncodesIff(p: R.Program, code: Listing)
    requires GenProgram(p) == Some(code)
    ensures AllEncode(code) <==> forall f :: f in p ==> FuncFits(FramesOf(p), f)
  {
    hide AllEncode, FuncFits, GenFuncs, FramesOf;
    FuncsEncodeIff(FramesOf(p), p, Initial);
    EncodeConcat(StartCode, GenFuncs(FramesOf(p), p, Initial).value.code);
    StartEncodes();
  }

  lemma StartEncodes()
    ensures AllEncode(StartCode)
  {
  }

  // ----- the guards are enough -----

  lemma {:induction false} GoodExprFits(frames: Frames, locals: nat, params: nat, e: R.Expr, busy: nat, held: set<int>)
    requires GoodExpr(locals, params, e) && Safe(frames, locals, e, busy, held)
    requires params <= 8 && R.FrameSize(locals) <= 2047
    ensures ExprFits(frames, e, busy)
    decreases e
  {
    match e
    case Not(e1) => GoodExprFits(frames, locals, params, e1, busy + 1, held);
    case Bin(_, l, r) =>
      GoodExprFits(frames, locals, params, l, busy, held);
      GoodExprFits(frames, locals, params, r, busy + 1, held);
    case Assign(_, e1) => GoodExprFits(frames, locals, params, e1, busy + 1, held);
    case Call(f, args) => GoodArgsFit(frames, locals, params, args, frames[f] + 44, busy, held);
    case _ =>
  }

  lemma {:induction false} GoodArgsFit(frames: Frames, locals: nat, params: nat, args: seq<R.Expr>, base: nat,
                                       stored: nat, held: set<int>)
    requires (forall a :: a in args ==> GoodExpr(locals, params, a)) &&
             SafeArgs(frames, locals, args, base, stored, held)
    requires params <= 8 && R.FrameSize(locals) <= 2047
    ensures forall a :: a in args ==> ExprFits(frames, a, 0)
    decreases args
  {
    if args != [] {
      GoodExprFits(frames, locals, params, args[0], 0, held + Slots(base, base + 4 * stored));
      GoodArgsFit(frames, locals, params, args[1..], base, stored + 1, held);
    }
  }

  lemma {:induction false} GoodStmtFits(frames: Frames, locals: nat, params: nat, s: R.Stmt)
    requires GoodStmt(frames, locals, params, s) && params <= 8 && R.FrameSize(locals) <= 2047
    ensures StmtFits(frames, locals, s)
  {
    match s
    case Return(e) => GoodExprFits(frames, locals, params, e, 0, {});
    case If(c, thn, els) =>
      GoodExprFits(frames, locals, params, c, 0, {});
      GoodStmtFits(frames, locals, params, thn);
      if els.Some? {
        GoodStmtFits(frames, locals, params, els.value);
      }
    case Block(body) =>
      forall i | 0 <= i < |body| ensures StmtFits(frames, locals, body[i]) {
        GoodStmtFits(frames, locals, params, body[i]);
      }
    case VarDef(_, e) => GoodExprFits(frames, locals, params, e, 0, {});
    case VarDec(_) =>
    case Enum =>
    case ExprStmt(e) => GoodExprFits(frames, locals, params, e, 0, {});
    case While(c, body) =>
      GoodExprFits(frames, locals, params, c, 0, {});
      GoodStmtFits(frames, locals, params, body);
    case For(init, c, step, body) =>
      GoodStmtFits(frames, locals, params, init);
      GoodExprFits(frames, locals, params, c, 0, {});
      GoodExprFits(frames, locals, params, step, 0, {});
      GoodStmtFits(frames, locals, params, body);
  }

  /** The listing of a program that meets its guards can be encoded. */
  lemma GoodListingEncodes(p: R.Program, code: Listing)
    requires GoodProgram(p) && GenProgram(p) == Some(code)
    ensures AllEncode(code)
  {
    hide GenProgram, AllEncode, FramesOf;
    forall f | f in p ensures FuncFits(FramesOf(p), f) {
      assert GoodFunc(FramesOf(p), f);
      forall i | 0 <= i < |f.body| ensures StmtFits(FramesOf(p), f.frame, f.body[i]) {
        GoodStmtFits(FramesOf(p), f.frame, f.params, f.body[i]);
      }
    }
    ListingEncodesIff(p, code);
  }
}
