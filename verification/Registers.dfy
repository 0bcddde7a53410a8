/** The register discipline of the code generator: which temporaries are busy after each piece
    of code, and exactly how many free ones an expression needs. */
module Registers {
  import opened Machine
  import opened CodeGen
  import R = Resolved

  // ----- the busy set -----

  /** Generating an expression takes one register that was free, and nothing else. */
  ghost predicate TakesOne(g: Gen, r: TIndex, g': Gen) {
    g.free[r] && g'.free == g.free[r := false]
  }

  lemma {:induction false} BusySetOfExpr(frames: Frames, e: R.Expr, g: Gen)
    ensures var x := GenExpr(frames, e, g);
            x.Some? ==> TakesOne(g, x.value.reg, x.value.g)
    decreases e
  {
    hide GenOp, GenArgs, CallCode, BusyBelow;
    var x := GenExpr(frames, e, g);
    if x.Some? {
      match e
      case Num(_) =>
      case Ident(_) =>
      case Not(e1) => BusySetOfExpr(frames, e1, Alloc(g).value.g);
      case Assign(_, e1) => BusySetOfExpr(frames, e1, Alloc(g).value.g);
      case Bin(op, l, r) =>
        BusySetOfExpr(frames, l, g);
        var y := GenExpr(frames, l, g).value;
        BusySetOfExpr(frames, r, y.g);
        var z := GenExpr(frames, r, y.g).value;
        BusySetOfOp(op, g, y.reg, z.reg, z.g);
      case Call(f, args) =>
        var top := frames[f] + 44 + 4 * BusyBelow(g.free, 7);
        BusySetOfArgs(frames, args, g.(free := AllFree), top);
        assert Reclaimed(AllFree, g.free) == g.free;
    }
  }

  lemma BusySetOfOp(op: R.BinOp, g: Gen, l: TIndex, r: TIndex, g2: Gen)
    requires g.free[l] && g.free[r] && l != r && g2.free == g.free[l := false][r := false]
    ensures var x := GenOp(op, l, r, g2);
            x.Some? ==> TakesOne(g, x.value.reg, x.value.g)
  {
    hide LogAndCode, LogOrCode, TwoRegister, ThreeRegister, Inverted, Alloc, Release, TakesOne;
    if Alloc(g2).Some? {
      var y := Alloc(g2).value;
      forall code: seq<Instr>, h: Gen | h.free == y.g.free
          ensures var x := ThreeRegister(code, y.(g := h), l, r); TakesOne(g, x.reg, x.g) {
        ThreeRegisterTakes(code, y.(g := h), g, l, r, g2);
      }
    }
    TwoRegisterTakes(g, l, r, g2);
    InvertedTakes(r, l, g, l, r, g2);
    InvertedTakes(l, r, g, l, r, g2);
  }

  lemma TwoRegisterTakes(g: Gen, l: TIndex, r: TIndex, g2: Gen)
    requires g.free[l] && g.free[r] && l != r && g2.free == g.free[l := false][r := false]
    ensures forall o :: TakesOne(g, TwoRegister(o, l, r, g2).reg, TwoRegister(o, l, r, g2).g)
  {
  }

  lemma ThreeRegisterTakes(code: seq<Instr>, x: Allocated, g: Gen, l: TIndex, r: TIndex, g2: Gen)
    requires g.free[l] && g.free[r] && l != r && g2.free == g.free[l := false][r := false]
    requires Alloc(g2).Some? && x.reg == Alloc(g2).value.reg && x.g.free == Alloc(g2).value.g.free
    ensures var y := ThreeRegister(code, x, l, r); TakesOne(g, y.reg, y.g)
  {
    assert ThreeRegister(code, x, l, r).g.free == g.free[x.reg := false];
  }

  lemma InvertedTakes(a: TIndex, b: TIndex, g: Gen, l: TIndex, r: TIndex, g2: Gen)
    requires g.free[l] && g.free[r] && l != r && g2.free == g.free[l := false][r := false]
    ensures var x := Inverted(a, b, l, r, g2); x.Some? ==> TakesOne(g, x.value.reg, x.value.g)
  {
    var x := Inverted(a, b, l, r, g2);
    if x.Some? {
      assert x.value.g.free == g.free[x.value.reg := false];
    }
  }

  lemma {:induction false} BusySetOfArgs(frames: Frames, args: seq<R.Expr>, g: Gen, off: nat)
    ensures var x := GenArgs(frames, args, g, off);
            x.Some? ==> x.value.g.free == g.free
    decreases args
  {
    if args != [] && GenArgs(frames, args, g, off).Some? {
      BusySetOfExpr(frames, args[0], g);
      var x := GenExpr(frames, args[0], g).value;
      assert Release(x.g, x.reg).free == g.free;
      BusySetOfArgs(frames, args[1..], Release(x.g, x.reg), off + 4);
    }
  }

  /** What releasing the result of an expression leaves. */
  lemma BusySetReleased(frames: Frames, e: R.Expr, g: Gen)
    ensures var x := GenExpr(frames, e, g);
            x.Some? ==> Release(x.value.g, x.value.reg).free == g.free
  {
    BusySetOfExpr(frames, e, g);
  }

  lemma BusyTake(g: Gen, r: TIndex)
    requires g.free[r]
    ensures BusyBelow(g.free[r := false], 7) == BusyBelow(g.free, 7) + 1
  {
    BusyTakeBelow(g.free, r, 7);
  }

  lemma {:induction false} BusyTakeBelow(free: Flags, r: TIndex, i: nat)
    requires i <= 7 && free[r]
    ensures BusyBelow(free[r := false], i) == BusyBelow(free, i) + if r < i then 1 else 0
  {
    if i > 0 {
      BusyTakeBelow(free, r, i - 1);
    }
  }

  // ----- binary operators -----

  /** A statement leaves the busy set exactly as it found it. */
  lemma {:induction false} BusySetOfStmt(frames: Frames, locals: nat, s: R.Stmt, g: Gen)
    ensures var x := GenStmt(frames, locals, s, g);
            x.Some? ==> x.value.g.free == g.free
    decreases s
  {
    hide GenExpr, IfCode, WhileCode, ForCode, LeaveCode, GenStmts;
    var x := GenStmt(frames, locals, s, g);
    if x.Some? {
      match s
      case Return(e) => BusySetReleased(frames, e, g);
      case If(c, thn, els) =>
        var g1 := g.(counts := g.counts.(ifs := g.counts.ifs + 1, elses := g.counts.elses + 1));
        BusySetReleased(frames, c, g1);
        var y := GenExpr(frames, c, g1).value;
        BusySetOfStmt(frames, locals, thn, Release(y.g, y.reg));
        if els.Some? {
          BusySetOfStmt(frames, locals, els.value, GenStmt(frames, locals, thn, Release(y.g, y.reg)).value.g);
        }
      case Block(body) => BusySetOfStmts(frames, locals, body, g);
      case VarDef(_, e) => BusySetReleased(frames, e, g);
      case VarDec(_) =>
      case Enum =>
      case ExprStmt(e) => BusySetReleased(frames, e, g);
      case While(c, body) =>
        var g1 := g.(counts := g.counts.(whiles := g.counts.whiles + 1));
        BusySetReleased(frames, c, g1);
        var y := GenExpr(frames, c, g1).value;
        BusySetOfStmt(frames, locals, body, Release(y.g, y.reg));
      case For(init, c, step, body) =>
        var g1 := g.(counts := g.counts.(fors := g.counts.fors + 1));
        BusySetOfStmt(frames, locals, init, g1);
        var g2 := GenStmt(frames, locals, init, g1).value.g;
        BusySetReleased(frames, c, g2);
        var g3 := GenTest(frames, c, Generated(ForLabel, g.counts.fors, EndPart), g2).value.g;
        BusySetOfStmt(frames, locals, body, g3);
        BusySetReleased(frames, step, GenStmt(frames, locals, body, g3).value.g);
    }
  }

  lemma {:induction false} BusySetOfStmts(frames: Frames, locals: nat, body: seq<R.Stmt>, g: Gen)
    ensures var x := GenStmts(frames, locals, body, g);
            x.Some? ==> x.value.g.free == g.free
    decreases body
  {
    if body != [] && GenStmts(frames, locals, body, g).Some? {
      BusySetOfStmt(frames, locals, body[0], g);
      BusySetOfStmts(frames, locals, body[1..], GenStmt(frames, locals, body[0], g).value.g);
    }
  }

  // ----- the exact register need -----

  /** More than the machine has. */
  const Impossible: nat := 8

  function Max(a: nat, b: nat): nat {
    if a < b then b else a
  }

  /** The registers an operator needs beside its operands, and those two. */
  function OpNeed(op: R.BinOp): nat {
    match op
    case Add => 2
    case Sub => 2
    case Mul => 2
    case Div => 2
    case Le => 4
    case Ge => 4
    case _ => 3
  }

  /** The least number of free temporaries with which the expression can be compiled. */
  function Need(frames: Frames, e: R.Expr): nat
    decreases e
  {
    match e
    case Empty => Impossible
    case Num(_) => 1
    case Ident(_) => 1
    case Not(e1) => 1 + Need(frames, e1)
    case Assign(_, e1) => 1 + Need(frames, e1)
    case Bin(op, l, r) => Max(Max(Need(frames, l), 1 + Need(frames, r)), OpNeed(op))
    case Call(f, args) => if f in frames && ArgsNeed(frames, args) <= 7 then 1 else Impossible
  }

  function ArgsNeed(frames: Frames, args: seq<R.Expr>): nat
    decreases args
  {
    if args == [] then 0 else Max(Need(frames, args[0]), ArgsNeed(frames, args[1..]))
  }

  function FreeFrom(free: Flags, i: nat): nat
    requires i <= 7
    decreases 7 - i
  {
    if i == 7 then 0 else (if free[i] then 1 else 0) + FreeFrom(free, i + 1)
  }

  /** The number of free temporaries. */
  function FreeCount(free: Flags): nat {
    FreeFrom(free, 0)
  }

  lemma {:induction false} FreeFromTake(free: Flags, r: TIndex, i: nat)
    requires i <= 7 && free[r]
    ensures FreeFrom(free[r := false], i) == FreeFrom(free, i) - if i <= r then 1 else 0
    decreases 7 - i
  {
    if i < 7 {
      FreeFromTake(free, r, i + 1);
    }
  }

  lemma {:induction false} FreeFromNone(free: Flags, i: nat)
    requires i <= 7
    ensures FirstFree(free, i).Some? <==> FreeFrom(free, i) > 0
    decreases 7 - i
  {
    if i < 7 {
      FreeFromNone(free, i + 1);
    }
  }

  /** Allocation fails exactly when nothing is free, and takes one. */
  lemma AllocCount(g: Gen)
    ensures Alloc(g).Some? <==> FreeCount(g.free) > 0
    ensures Alloc(g).Some? ==> FreeCount(Alloc(g).value.g.free) == FreeCount(g.free) - 1
  {
    FreeFromNone(g.free, 0);
    if Alloc(g).Some? {
      FreeFromTake(g.free, Alloc(g).value.reg, 0);
    }
  }

  lemma CountAfterExpr(frames: Frames, e: R.Expr, g: Gen)
    requires GenExpr(frames, e, g).Some?
    ensures FreeCount(GenExpr(frames, e, g).value.g.free) == FreeCount(g.free) - 1
  {
    BusySetOfExpr(frames, e, g);
    FreeFromTake(g.free, GenExpr(frames, e, g).value.reg, 0);
  }

  lemma FreeCountBound(free: Flags)
    ensures FreeCount(free) <= 7
    ensures FreeCount(AllFree) == 7
  {
    assert forall i :: 0 <= i <= 7 ==> FreeFrom(free, i) <= 7 - i by {
      forall i | 0 <= i <= 7 ensures FreeFrom(free, i) <= 7 - i {
        FreeFromBound(free, i);
      }
    }
    assert FreeFrom(AllFree, 5) == 2;
    assert FreeFrom(AllFree, 3) == 4;
    assert FreeFrom(AllFree, 1) == 6;
  }

  lemma {:induction false} FreeFromBound(free: Flags, i: nat)
    requires i <= 7
    ensures FreeFrom(free, i) <= 7 - i
    decreases 7 - i
  {
    if i < 7 {
      FreeFromBound(free, i + 1);
    }
  }

  /** The exit "No free registers" is avoided if and only if enough registers are free. */
  lemma {:induction false} ExactRegisterNeed(frames: Frames, e: R.Expr, g: Gen)
    ensures GenExpr(frames, e, g).Some? <==> Need(frames, e) <= FreeCount(g.free)
    decreases e
  {
    hide GenOp, GenArgs, CallCode, Alloc, Release, FreeCount;
    FreeCountBound(g.free);
    AllocCount(g);
    match e
    case Empty =>
    case Num(_) =>
    case Ident(_) =>
    case Not(e1) =>
      if Alloc(g).Some? { ExactRegisterNeed(frames, e1, Alloc(g).value.g); }
    case Assign(_, e1) =>
      if Alloc(g).Some? { ExactRegisterNeed(frames, e1, Alloc(g).value.g); }
    case Bin(_, _, _) => BinNeedExact(frames, e, g);
    case Call(_, _) => CallNeedExact(frames, e, g);
  }

  lemma BinNeedExact(frames: Frames, e: R.Expr, g: Gen)
    requires e.Bin?
    ensures GenExpr(frames, e, g).Some? <==> Need(frames, e) <= FreeCount(g.free)
    decreases e, 0
  {
    hide GenOp, FreeCount;
    FreeCountBound(g.free);
    ExactRegisterNeed(frames, e.left, g);
    var x := GenExpr(frames, e.left, g);
    if x.Some? {
      CountAfterExpr(frames, e.left, g);
      ExactRegisterNeed(frames, e.right, x.value.g);
      var y := GenExpr(frames, e.right, x.value.g);
      if y.Some? {
        CountAfterExpr(frames, e.right, x.value.g);
        OpNeedExact(e.op, x.value.reg, y.value.reg, y.value.g);
      }
    }
  }

  lemma CallNeedExact(frames: Frames, e: R.Expr, g: Gen)
    requires e.Call?
    ensures GenExpr(frames, e, g).Some? <==> Need(frames, e) <= FreeCount(g.free)
    decreases e, 0
  {
    hide GenArgs, CallCode, BusyBelow, FreeCount, Alloc;
    FreeCountBound(g.free);
    if e.name in frames {
      var h, top := g.(free := AllFree), frames[e.name] + 44 + 4 * BusyBelow(g.free, 7);
      ExactArgsNeed(frames, e.args, h, top);
      BusySetOfArgs(frames, e.args, h, top);
      assert Reclaimed(AllFree, g.free) == g.free;
      if GenArgs(frames, e.args, h, top).Some? {
        AllocCount(GenArgs(frames, e.args, h, top).value.g.(free := g.free));
      }
    }
  }

  lemma OpNeedExact(op: R.BinOp, l: TIndex, r: TIndex, g: Gen)
    ensures GenOp(op, l, r, g).Some? <==> OpNeed(op) <= FreeCount(g.free) + 2
  {
    AllocCount(g);
    if Alloc(g).Some? {
      AllocCount(Alloc(g).value.g);
    }
  }

  lemma {:induction false} ExactArgsNeed(frames: Frames, args: seq<R.Expr>, g: Gen, off: nat)
    requires g.free == AllFree
    ensures GenArgs(frames, args, g, off).Some? <==> ArgsNeed(frames, args) <= 7
    decreases args
  {
    if args != [] {
      FreeCountBound(g.free);
      ExactRegisterNeed(frames, args[0], g);
      var x := GenExpr(frames, args[0], g);
      if x.Some? {
        BusySetReleased(frames, args[0], g);
        ExactArgsNeed(frames, args[1..], Release(x.value.g, x.value.reg), off + 4);
      }
    }
  }

  /** A left-nested chain of + - * / over constants and variables. */
  predicate Chain(e: R.Expr) {
    match e
    case Num(_) => true
    case Ident(_) => true
    case Bin(op, l, r) => op in {R.Add, R.Sub, R.Mul, R.Div} && Chain(l) && (r.Num? || r.Ident?)
    case _ => false
  }

  /** Such a chain, however long, never needs a third register. */
  lemma {:induction false} ChainNeedsTwo(frames: Frames, e: R.Expr, g: Gen)
    requires Chain(e) && FreeCount(g.free) >= 2
    ensures Need(frames, e) <= 2 && GenExpr(frames, e, g).Some?
    decreases e
  {
    if e.Bin? {
      ChainNeedsTwo(frames, e.left, g);
    }
    ExactRegisterNeed(frames, e, g);
  }
}
