/** The code generator as functions: what the generator in src/asm.c appends to its output, and
    how it changes its register flags and label counters. `None` is an exit of the compiler. */
module CodeGen {
  import opened Options
  import opened Machine
  import R = Resolved

  type Flags = s: seq<bool> | |s| == 7 witness [true, true, true, true, true, true, true]

  const AllFree: Flags := [true, true, true, true, true, true, true]

  datatype Counts = Counts(fors: nat, whiles: nat, ifs: nat, elses: nat, ands: nat, ors: nat)

  datatype Gen = Gen(free: Flags, counts: Counts)

  const Initial: Gen := Gen(AllFree, Counts(0, 0, 0, 0, 0, 0))

  /** The frame size of each function, read through the symbol of a call. */
  type Frames = map<string, nat>

  // ----- registers -----

  /** The first free temporary. */
  function FirstFree(free: Flags, i: nat): (r: Option<TIndex>)
    requires i <= 7
    ensures r.Some? ==> i <= r.value && free[r.value] && forall j :: i <= j < r.value ==> !free[j]
    ensures r.None? ==> forall j :: i <= j < 7 ==> !free[j]
    decreases 7 - i
  {
    if i == 7 then None else if free[i] then Some(i) else FirstFree(free, i + 1)
  }

  datatype Allocated = Allocated(reg: TIndex, g: Gen)

  function Alloc(g: Gen): Option<Allocated> {
    var r :- FirstFree(g.free, 0);
    Some(Allocated(r, g.(free := g.free[r := false])))
  }

  function Release(g: Gen, r: TIndex): Gen {
    g.(free := g.free[r := true])
  }

  // ----- expressions -----

  datatype ExprCode = ExprCode(code: seq<Instr>, reg: TIndex, g: Gen)

  function LoadSymbol(r: TIndex, sym: R.Symbol): Instr {
    match sym
    case Enumerator(value, _) => Addi(T(r), Zero, value)
    case Param(i, _) => Lw(T(r), -R.ParamSlot(i), Fp)
    case Local(offset) => Lw(T(r), -R.LocalSlot(offset), Fp)
  }

  function GenExpr(frames: Frames, e: R.Expr, g: Gen): Option<ExprCode>
    decreases e
  {
    match e
    case Empty => None
    case Num(v) =>
      var x :- Alloc(g);
      Some(ExprCode([Addi(T(x.reg), Zero, v)], x.reg, x.g))
    case Ident(sym) =>
      var x :- Alloc(g);
      Some(ExprCode([LoadSymbol(x.reg, sym)], x.reg, x.g))
    case Not(e1) =>
      var x :- Alloc(g);
      var y :- GenExpr(frames, e1, x.g);
      Some(ExprCode(y.code + [Seqz(T(x.reg), T(y.reg))], x.reg, Release(y.g, y.reg)))
    case Bin(op, l, r) =>
      var x :- GenExpr(frames, l, g);
      var y :- GenExpr(frames, r, x.g);
      var z :- GenOp(op, x.reg, y.reg, y.g);
      Some(ExprCode(x.code + y.code + z.code, z.reg, z.g))
    case Assign(target, e1) =>
      var x :- Alloc(g);
      var y :- GenExpr(frames, e1, x.g);
      Some(ExprCode([Addi(T(x.reg), Zero, R.LocalSlot(target.offset))] + y.code +
                    [Alu(SUB, T(x.reg), Fp, T(x.reg)), Sw(T(y.reg), 0, T(x.reg))],
                    y.reg, Release(y.g, x.reg)))
    case Call(f, args) =>
      if f !in frames then None else
      var base := frames[f] + 44;
      var top := base + 4 * BusyBelow(g.free, 7);
      var xs :- GenArgs(frames, args, g.(free := AllFree), top);
      var z :- Alloc(xs.g.(free := Reclaimed(xs.g.free, g.free)));
      Some(ExprCode(CallCode(g.free, base, xs.code, |args|, f) + [Mv(T(z.reg), A(0))], z.reg, z.g))
  }

  datatype ArgsCode = ArgsCode(code: seq<Instr>, g: Gen)

  /** Evaluates the arguments, storing each in the next spill slot. */
  function GenArgs(frames: Frames, args: seq<R.Expr>, g: Gen, off: nat): Option<ArgsCode>
    decreases args
  {
    if args == [] then Some(ArgsCode([], g)) else
    var x :- GenExpr(frames, args[0], g);
    var xs :- GenArgs(frames, args[1..], Release(x.g, x.reg), off + 4);
    Some(ArgsCode(x.code + [Sw(T(x.reg), -(off + 4), Fp)] + xs.code, xs.g))
  }

  /** Everything of a call but the last move. */
  function CallCode(free: Flags, base: nat, args: seq<Instr>, n: nat, f: string): seq<Instr> {
    var top := base + 4 * BusyBelow(free, 7);
    SaveTemps(free, 0, base) + args + LoadArgs(0, if n < 8 then n else 8, top) + [Jal(Function(f))] +
    RestoreTemps(free, 7, top)
  }

  /** The number of busy temporaries before number i. */
  function BusyBelow(free: Flags, i: nat): nat
    requires i <= 7
  {
    if i == 0 then 0 else BusyBelow(free, i - 1) + if free[i - 1] then 0 else 1
  }

  function SaveTemps(free: Flags, i: nat, off: nat): seq<Instr>
    requires i <= 7
    decreases 7 - i
  {
    if i == 7 then []
    else if free[i] then SaveTemps(free, i + 1, off)
    else [Sw(T(i), -(off + 4), Fp)] + SaveTemps(free, i + 1, off + 4)
  }

  /** Reloads the temporaries below i, from the last one down; `off` is their last slot. */
  function RestoreTemps(free: Flags, i: nat, off: int): seq<Instr>
    requires i <= 7
  {
    if i == 0 then []
    else if free[i - 1] then RestoreTemps(free, i - 1, off)
    else [Lw(T(i - 1), -off, Fp)] + RestoreTemps(free, i - 1, off - 4)
  }

  function LoadArgs(i: nat, n: nat, off: nat): seq<Instr>
    requires i <= n <= 8
    decreases n - i
  {
    if i == n then [] else [Lw(A(i), -(off + 4), Fp)] + LoadArgs(i + 1, n, off + 4)
  }

  /** The flags after a call: the registers saved before it are taken again. */
  function Reclaimed(now: Flags, before: Flags): Flags {
    seq(7, i requires 0 <= i < 7 => now[i] && before[i])
  }

  /** The code of a binary operator on two evaluated operands. */
  function GenOp(op: R.BinOp, l: TIndex, r: TIndex, g: Gen): Option<ExprCode> {
    match op
    case Add => Some(TwoRegister(ADD, l, r, g))
    case Sub => Some(TwoRegister(SUB, l, r, g))
    case Mul => Some(TwoRegister(MUL, l, r, g))
    case Div => Some(TwoRegister(DIV, l, r, g))
    case Eq =>
      var x :- Alloc(g);
      Some(ThreeRegister([Alu(SUB, T(x.reg), T(r), T(l)), Seqz(T(x.reg), T(x.reg))], x, l, r))
    case Ne =>
      var x :- Alloc(g);
      Some(ThreeRegister([Alu(SUB, T(x.reg), T(r), T(l)), Snez(T(x.reg), T(x.reg))], x, l, r))
    case Lt => var x :- Alloc(g); Some(ThreeRegister([Alu(SLT, T(x.reg), T(l), T(r))], x, l, r))
    case Gt => var x :- Alloc(g); Some(ThreeRegister([Alu(SLT, T(x.reg), T(r), T(l))], x, l, r))
    case Le => Inverted(r, l, l, r, g)
    case Ge => Inverted(l, r, l, r, g)
    case Shl => var x :- Alloc(g); Some(ThreeRegister([Alu(SLL, T(x.reg), T(l), T(r))], x, l, r))
    case Shr => var x :- Alloc(g); Some(ThreeRegister([Alu(SRA, T(x.reg), T(l), T(r))], x, l, r))
    case BitAnd => var x :- Alloc(g); Some(ThreeRegister([Alu(AND, T(x.reg), T(l), T(r))], x, l, r))
    case BitOr => var x :- Alloc(g); Some(ThreeRegister([Alu(OR, T(x.reg), T(l), T(r))], x, l, r))
    case BitXor => var x :- Alloc(g); Some(ThreeRegister([Alu(XOR, T(x.reg), T(l), T(r))], x, l, r))
    case LogAnd =>
      var x :- Alloc(g);
      var n := g.counts.ands;
      var x' := x.(g := x.g.(counts := g.counts.(ands := n + 1)));
      Some(ThreeRegister(LogAndCode(x.reg, l, r, n), x', l, r))
    case LogOr =>
      var x :- Alloc(g);
      var n := g.counts.ors;
      var x' := x.(g := x.g.(counts := g.counts.(ors := n + 1)));
      Some(ThreeRegister(LogOrCode(x.reg, l, r, n), x', l, r))
  }

  function TwoRegister(op: AluOp, l: TIndex, r: TIndex, g: Gen): ExprCode {
    ExprCode([Alu(op, T(l), T(l), T(r))], l, Release(g, r))
  }

  function ThreeRegister(code: seq<Instr>, x: Allocated, l: TIndex, r: TIndex): ExprCode {
    ExprCode(code, x.reg, Release(Release(x.g, l), r))
  }

  /** slt of a and b inverted with xori. */
  function Inverted(a: TIndex, b: TIndex, l: TIndex, r: TIndex, g: Gen): Option<ExprCode> {
    var x :- Alloc(g);
    var y :- Alloc(x.g);
    Some(ExprCode([Alu(SLT, T(y.reg), T(a), T(b)), Xori(T(x.reg), T(y.reg), 1)], x.reg,
                  Release(Release(Release(y.g, l), r), y.reg)))
  }

  function LogAndCode(x: TIndex, l: TIndex, r: TIndex, n: nat): seq<Instr> {
    var no, end := Generated(AndLabel, n, FalsePart), Generated(AndLabel, n, EndPart);
    [Beq(T(l), Zero, no), Beq(T(r), Zero, no), Addi(T(x), Zero, 1), J(end),
     Lab(no), Addi(T(x), Zero, 0), Lab(end)]
  }

  function LogOrCode(x: TIndex, l: TIndex, r: TIndex, n: nat): seq<Instr> {
    var yes, end := Generated(OrLabel, n, TruePart), Generated(OrLabel, n, EndPart);
    [Bne(T(l), Zero, yes), Bne(T(r), Zero, yes), Addi(T(x), Zero, 0), J(end),
     Lab(yes), Addi(T(x), Zero, 1), Lab(end)]
  }

  // ----- statements -----

  datatype StmtCode = StmtCode(code: seq<Instr>, g: Gen)

  /** `locals` is the frame size of the enclosing function. */
  function GenStmt(frames: Frames, locals: nat, s: R.Stmt, g: Gen): Option<StmtCode>
    decreases s
  {
    match s
    case Return(e) =>
      if e.Empty? then Some(StmtCode(LeaveCode(locals), g)) else
      var x :- GenExpr(frames, e, g);
      Some(StmtCode(x.code + [Mv(A(0), T(x.reg))] + LeaveCode(locals), Release(x.g, x.reg)))
    case If(c, thn, els) =>
      var g1 := g.(counts := g.counts.(ifs := g.counts.ifs + 1, elses := g.counts.elses + 1));
      var x :- GenExpr(frames, c, g1);
      var t :- GenStmt(frames, locals, thn, Release(x.g, x.reg));
      var e :- GenElse(frames, locals, els, t.g);
      Some(StmtCode(IfCode(g.counts.ifs, g.counts.elses, x.reg, x.code, t.code, e.code), e.g))
    case Block(body) => GenStmts(frames, locals, body, g)
    case VarDef(sym, e) =>
      var x :- GenExpr(frames, e, g);
      Some(StmtCode(x.code + [Sw(T(x.reg), -R.LocalSlot(sym.offset), Fp)], Release(x.g, x.reg)))
    case VarDec(_) => Some(StmtCode([], g))
    case Enum => Some(StmtCode([], g))
    case ExprStmt(e) => GenEffect(frames, e, g)
    case While(c, body) =>
      var n := g.counts.whiles;
      var x :- GenExpr(frames, c, g.(counts := g.counts.(whiles := n + 1)));
      var b :- GenStmt(frames, locals, body, Release(x.g, x.reg));
      Some(StmtCode(WhileCode(n, x.reg, x.code, b.code), b.g))
    case For(init, c, step, body) =>
      var n := g.counts.fors;
      var g1 := g.(counts := g.counts.(fors := n + 1));
      var i :- GenStmt(frames, locals, init, g1);
      var x :- GenTest(frames, c, Generated(ForLabel, n, EndPart), i.g);
      var b :- GenStmt(frames, locals, body, x.g);
      var k :- GenEffect(frames, step, b.g);
      Some(StmtCode(ForCode(n, i.code, x.code, b.code, k.code), k.g))
  }

  function GenElse(frames: Frames, locals: nat, els: Option<R.Stmt>, g: Gen): Option<StmtCode>
    decreases els
  {
    if els.None? then Some(StmtCode([], g)) else GenStmt(frames, locals, els.value, g)
  }

  /** There is no jump over the else-branch. */
  function IfCode(n: nat, m: nat, r: TIndex, x: seq<Instr>, t: seq<Instr>, e: seq<Instr>): seq<Instr> {
    [Lab(Generated(IfLabel, n, Bare))] + x + [Beq(T(r), Zero, Generated(ElseLabel, m, Bare))] + t +
    [Lab(Generated(ElseLabel, m, Bare))] + e
  }

  function WhileCode(n: nat, r: TIndex, x: seq<Instr>, b: seq<Instr>): seq<Instr> {
    [Lab(Generated(WhileLabel, n, StartPart))] + x + [Beq(T(r), Zero, Generated(WhileLabel, n, EndPart))] + b +
    [J(Generated(WhileLabel, n, StartPart)), Lab(Generated(WhileLabel, n, EndPart))]
  }

  function ForCode(n: nat, i: seq<Instr>, x: seq<Instr>, b: seq<Instr>, k: seq<Instr>): seq<Instr> {
    [Lab(Generated(ForLabel, n, InitPart))] + i + [Lab(Generated(ForLabel, n, CondPart))] + x +
    [Lab(Generated(ForLabel, n, BodyPart))] + b + [Lab(Generated(ForLabel, n, StepPart))] + k +
    [J(Generated(ForLabel, n, CondPart)), Lab(Generated(ForLabel, n, EndPart))]
  }

  function GenStmts(frames: Frames, locals: nat, body: seq<R.Stmt>, g: Gen): Option<StmtCode>
    decreases body
  {
    if body == [] then Some(StmtCode([], g)) else
    var x :- GenStmt(frames, locals, body[0], g);
    var xs :- GenStmts(frames, locals, body[1..], x.g);
    Some(StmtCode(x.code + xs.code, xs.g))
  }

  /** An expression evaluated for its effect; the empty one has no code. */
  function GenEffect(frames: Frames, e: R.Expr, g: Gen): Option<StmtCode> {
    if e.Empty? then Some(StmtCode([], g)) else
    var x :- GenExpr(frames, e, g);
    Some(StmtCode(x.code, Release(x.g, x.reg)))
  }

  /** The condition of a `for`; the empty one always holds. */
  function GenTest(frames: Frames, c: R.Expr, end: Label, g: Gen): Option<StmtCode> {
    if c.Empty? then Some(StmtCode([], g)) else
    var x :- GenExpr(frames, c, g);
    Some(StmtCode(x.code + [Beq(T(x.reg), Zero, end)], Release(x.g, x.reg)))
  }

  /** Restores ra, s0 and sp. */
  function RestoreCode(locals: nat): seq<Instr> {
    var size := R.FrameSize(locals);
    [Lw(Ra, size - 4, Sp), Lw(Fp, size - 8, Sp), Addi(Sp, Sp, size)]
  }

  function LeaveCode(locals: nat): seq<Instr> {
    RestoreCode(locals) + [JalrRa]
  }

  // ----- functions and programs -----

  function EnterCode(locals: nat): seq<Instr> {
    var size := R.FrameSize(locals);
    [Addi(Sp, Sp, -size), Sw(Ra, size - 4, Sp), Sw(Fp, size - 8, Sp), Addi(Fp, Sp, size)]
  }

  function SaveArgs(i: nat): seq<Instr>
    requires i <= 8
    decreases 8 - i
  {
    if i == 8 then [] else [Sw(A(i), -R.ParamSlot(i), Fp)] + SaveArgs(i + 1)
  }

  function GenFunc(frames: Frames, f: R.Func, g: Gen): Option<StmtCode> {
    var b :- GenStmts(frames, f.frame, f.body, g);
    Some(StmtCode([Lab(Function(f.name))] + ((EnterCode(f.frame) + SaveArgs(0)) + (b.code + ExitCode(f))), b.g))
  }

  /** The end of a function: only a void one restores the caller's frame. */
  function ExitCode(f: R.Func): seq<Instr> {
    if f.isVoid then LeaveCode(f.frame) else [JalrRa]
  }

  function GenFuncs(frames: Frames, p: R.Program, g: Gen): Option<StmtCode> {
    if p == [] then Some(StmtCode([], g)) else
    var x :- GenFunc(frames, p[0], g);
    var xs :- GenFuncs(frames, p[1..], x.g);
    Some(StmtCode(x.code + xs.code, xs.g))
  }

  const StartCode: seq<Instr> :=
    [Lab(Start), Jal(Function("main")), Addi(A(7), Zero, 93), Ecall]

  function FramesOf(p: R.Program): Frames {
    if p == [] then map[] else FramesOf(p[1..])[p[0].name := p[0].frame]
  }

  /** The whole listing. */
  function GenProgram(p: R.Program): Option<Listing> {
    var x :- GenFuncs(FramesOf(p), p, Initial);
    Some(StartCode + x.code)
  }
}
