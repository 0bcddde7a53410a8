/** The generated code does what the program means: every run of the `Compiled` semantics is
    matched by a run of the machine, through any depth of calls and any number of iterations. */
module Simulation {
  import opened Options
  import opened Words
  import opened Machine
  import opened CodeGen
  import opened Guards
  import opened Activation
  import opened Operators
  import opened Semantics
  import opened Registers
  import R = Resolved

  /** A program and its listing, which fits the address space. */
  datatype Linked = Linked(p: R.Program, code: Listing)

  ghost predicate Built(k: Linked) {
    GoodProgram(k.p) && GenProgram(k.p) == Some(k.code) && UniqueLabels(k.code) && |k.code| < 0x8000_0000
  }

  // ----- expressions -----

  /** The code of e, generated from g, stands at pc, and e meets its guards in the frame. */
  ghost predicate Coded(k: Linked, e: R.Expr, g: Gen, x: ExprCode, fr: Frame, held: set<int>, pc: nat) {
    && GenExpr(FramesOf(k.p), e, g) == Some(x) && CodeAt(k.code, pc, x.code)
    && GoodExpr(fr.locals, |fr.ps|, e) && Safe(FramesOf(k.p), fr.locals, e, BusyBelow(g.free, 7), held)
  }

  /** The machine runs in the frame with these locals, and `room` bytes of stack below it. */
  ghost predicate Ready(k: Linked, fr: Frame, held: set<int>, ls: Locals, room: nat, s: State) {
    && Built(k) && GoodFrame(fr) && InFrame(s, fr) && HasLocals(s.mem, fr, ls) && Spilled(fr, held)
    && Size(fr) + room <= fr.fp
  }

  function Meaning(k: Linked, e: R.Expr, fr: Frame, ls: Locals, room: nat, fuel: nat): Option<Evaluated> {
    Eval(k.p, Compiled, e, fr.ps, ls, room, fuel)
  }

  /** Busy registers, held slots and everything above the locals are unchanged; the result register
      and the locals are as the meaning v says. */
  ghost predicate Done(k: Linked, e: R.Expr, g: Gen, x: ExprCode, fr: Frame, held: set<int>, v: Option<Evaluated>,
                       s: State, s': State) {
    && Reaches(k.code, s, s')
    && s'.pc == s.pc + |x.code| && s'.sp == s.sp && s'.fp == s.fp
    && (forall i :: 0 <= i < 7 && !g.free[i] ==> s'.t[i] == s.t[i])
    && Keep(s.mem, s'.mem, fr, held)
    && (EffectFree(e) ==> s'.mem == s.mem)
    && (v.Some? ==> s'.t[x.reg] == v.value.value && HasLocals(s'.mem, fr, v.value.locals))
  }

  /** Code of an expression with a meaning, or without effects, runs to its end. */
  lemma ExprRun(k: Linked, e: R.Expr, g: Gen, x: ExprCode, fr: Frame, held: set<int>, ls: Locals, room: nat, fuel: nat,
                s: State)
    returns (s': State)
    requires Coded(k, e, g, x, fr, held, s.pc) && Ready(k, fr, held, ls, room, s)
    requires Meaning(k, e, fr, ls, room, fuel).Some? || EffectFree(e)
    ensures Done(k, e, g, x, fr, held, Meaning(k, e, fr, ls, room, fuel), s, s')
    decreases room, fuel, e, 2
  {
    hide *;
    EmptyHasNoCode(k, e, g, x, fr, held, s.pc);
    if e.Num? || e.Ident? {
      s' := LeafRun(k, e, g, x, fr, held, ls, room, fuel, s);
    } else if e.Not? {
      s' := NotRun(k, e, g, x, fr, held, ls, room, fuel, s);
    } else if e.Bin? {
      s' := BinRun(k, e, g, x, fr, held, ls, room, fuel, s);
    } else if e.Assign? {
      s' := AssignRun(k, e, g, x, fr, held, ls, room, fuel, s);
    } else {
      s' := CallRun(k, e, g, x, fr, held, ls, room, fuel, s);
    }
  }

  lemma EmptyHasNoCode(k: Linked, e: R.Expr, g: Gen, x: ExprCode, fr: Frame, held: set<int>, pc: nat)
    requires Coded(k, e, g, x, fr, held, pc)
    ensures !e.Empty?
  {
  }

  /** The locals after an expression, or before it if it has no meaning. */
  function After(v: Option<Evaluated>, ls: Locals): Locals {
    if v.Some? then v.value.locals else ls
  }

  lemma ReadyAfter(k: Linked, e: R.Expr, g: Gen, x: ExprCode, fr: Frame, held: set<int>, ls: Locals, room: nat,
                   fuel: nat, s: State, s': State)
    requires Ready(k, fr, held, ls, room, s)
    requires Done(k, e, g, x, fr, held, Meaning(k, e, fr, ls, room, fuel), s, s')
    requires Meaning(k, e, fr, ls, room, fuel).Some? || EffectFree(e)
    ensures Ready(k, fr, held, After(Meaning(k, e, fr, ls, room, fuel), ls), room, s')
  {
    hide Reaches, Meaning, EffectFree, Built, Wrap;
  }

  lemma LeafRun(k: Linked, e: R.Expr, g: Gen, x: ExprCode, fr: Frame, held: set<int>, ls: Locals, room: nat, fuel: nat,
                s: State)
    returns (s': State)
    requires Coded(k, e, g, x, fr, held, s.pc) && Ready(k, fr, held, ls, room, s) && (e.Num? || e.Ident?)
    ensures Done(k, e, g, x, fr, held, Meaning(k, e, fr, ls, room, fuel), s, s')
  {
    hide Reaches, Coded, Ready, CodeAt, Effect, Meaning, HasLocals, InFrame, Wrap;
    var w := LeafEffect(k, e, g, x, fr, held, ls, room, fuel, s);
    ReadySpilled(k, fr, held, ls, room, s);
    CodeAtOne(k.code, s.pc, x.code[0]);
    Stays(k.code, s);
    s' := Do(k.code, s, s, x.code[0]);
  }

  lemma LeafEffect(k: Linked, e: R.Expr, g: Gen, x: ExprCode, fr: Frame, held: set<int>, ls: Locals, room: nat,
                   fuel: nat, s: State)
    returns (w: Word)
    requires Coded(k, e, g, x, fr, held, s.pc) && Ready(k, fr, held, ls, room, s) && (e.Num? || e.Ident?)
    ensures |x.code| == 1 && CodeAt(k.code, s.pc, [x.code[0]]) && g.free[x.reg]
    ensures Effect(x.code[0], s) == Some(Next(s.(t := s.t[x.reg := w])))
    ensures Meaning(k, e, fr, ls, room, fuel).Some? ==> Meaning(k, e, fr, ls, room, fuel).value == Evaluated(w, ls)
  {
    hide Built, CodeAt, FramesOf, Effect, R.FrameSize;
    assert x.code == [x.code[0]];
    if e.Num? {
      WrapZero();
      MoveSp(s, T(x.reg), Zero, 0, e.value);
      w := Wrap(e.value);
    } else {
      hide Wrap;
      match e.sym
      case Enumerator(v, _) =>
        WrapZero();
        MoveSp(s, T(x.reg), Zero, 0, v);
        w := Wrap(v);
      case Param(i, _) =>
        LoadFp(s, fr, T(x.reg), R.ParamSlot(i));
        w := Read(s.mem, fr.fp - R.ParamSlot(i));
      case Local(o) =>
        LoadFp(s, fr, T(x.reg), R.LocalSlot(o));
        w := Read(s.mem, fr.fp - R.LocalSlot(o));
    }
  }

  lemma WrapZero()
    ensures Wrap(0) == 0
  {
  }

  // ----- negation -----

  lemma NotRun(k: Linked, e: R.Expr, g: Gen, x: ExprCode, fr: Frame, held: set<int>, ls: Locals, room: nat, fuel: nat,
               s: State)
    returns (s': State)
    requires Coded(k, e, g, x, fr, held, s.pc) && Ready(k, fr, held, ls, room, s) && e.Not?
    requires Meaning(k, e, fr, ls, room, fuel).Some? || EffectFree(e)
    ensures Done(k, e, g, x, fr, held, Meaning(k, e, fr, ls, room, fuel), s, s')
    decreases room, fuel, e, 1
  {
    hide Reaches, Ready, Coded, CodeAt, FramesOf, HasLocals, Keep;
    var z, y := NotParts(k, e, g, x, fr, held, s.pc);
    var s1 := ExprRun(k, e.e, z.g, y, fr, held, ls, room, fuel, s);
    s' := Do(k.code, s, s1, Seqz(T(x.reg), T(y.reg)));
  }

  lemma NotParts(k: Linked, e: R.Expr, g: Gen, x: ExprCode, fr: Frame, held: set<int>, pc: nat)
      returns (z: Allocated, y: ExprCode)
    requires e.Not? && Coded(k, e, g, x, fr, held, pc)
    ensures Coded(k, e.e, z.g, y, fr, held, pc)
    ensures g.free[x.reg] && z.g.free == g.free[x.reg := false]
    ensures pc + |y.code| < |k.code| && k.code[pc + |y.code|] == Seqz(T(x.reg), T(y.reg)) && |x.code| == |y.code| + 1
  {
    hide FramesOf, BusyBelow;
    z := Alloc(g).value;
    y := GenExpr(FramesOf(k.p), e.e, z.g).value;
    CodeAtSplit(k.code, pc, y.code, [Seqz(T(x.reg), T(y.reg))]);
    CodeAtOne(k.code, pc + |y.code|, Seqz(T(x.reg), T(y.reg)));
    BusyTake(g, z.reg);
  }

  /** Taking a register raises the number of busy ones by one. */
  lemma BinMeaning(k: Linked, e: R.Expr, fr: Frame, ls: Locals, room: nat, fuel: nat, y: Word)
    requires e.Bin? && (Meaning(k, e, fr, ls, room, fuel).Some? || EffectFree(e))
    ensures var v, v1 := Meaning(k, e, fr, ls, room, fuel), Meaning(k, e.left, fr, ls, room, fuel);
            var v2 := Meaning(k, e.right, fr, After(v1, ls), room, fuel);
            && (v1.Some? || EffectFree(e.left)) && (v2.Some? || EffectFree(e.right))
            && (EffectFree(e) ==> EffectFree(e.left) && EffectFree(e.right))
            && (v.Some? ==> v1.Some?)
            && (v.Some? && v2.None? ==>
                  v.value == Evaluated(OpWord(e.op, v1.value.value, y), v1.value.locals))
            && (v.Some? && v2.Some? ==>
                  v.value == Evaluated(OpWord(e.op, v1.value.value, v2.value.value),
                                       if EffectFree(e.right) then v1.value.locals else v2.value.locals))
  {
    hide Wrap, And, Or, Xor, DivWord, ShiftLeft, ShiftRight, Doubled, Halved;
    var v, v1 := Meaning(k, e, fr, ls, room, fuel), Meaning(k, e.left, fr, ls, room, fuel);
    var v2 := Meaning(k, e.right, fr, After(v1, ls), room, fuel);
    if v.Some? {
      if Skips(Compiled, e.op, v1.value.value, e.right) {
      } else {
        OpWordIsResult(e.op, v1.value.value, v2.value.value);
      }
      if v2.Some? && EffectFree(e.right) {
        EffectFreeKeepsLocals(k.p, Compiled, e.right, fr.ps, v1.value.locals, room, fuel);
      }
    }
  }

  lemma {:induction false} EffectFreeKeepsLocals(p: R.Program, m: Mode, e: R.Expr, ps: seq<Word>, ls: Locals, room: nat,
                                                 fuel: nat)
    requires EffectFree(e) && Eval(p, m, e, ps, ls, room, fuel).Some?
    ensures Eval(p, m, e, ps, ls, room, fuel).value.locals == ls
    decreases e
  {
    match e
    case Num(_) =>
    case Ident(_) =>
    case Not(e1) => EffectFreeKeepsLocals(p, m, e1, ps, ls, room, fuel);
    case Bin(op, l, r) =>
      EffectFreeKeepsLocals(p, m, l, ps, ls, room, fuel);
      if !Skips(m, op, Eval(p, m, l, ps, ls, room, fuel).value.value, r) {
        EffectFreeKeepsLocals(p, m, r, ps, ls, room, fuel);
      }
  }

  lemma BinRun(k: Linked, e: R.Expr, g: Gen, x: ExprCode, fr: Frame, held: set<int>, ls: Locals, room: nat, fuel: nat,
               s: State)
    returns (s': State)
    requires Coded(k, e, g, x, fr, held, s.pc) && Ready(k, fr, held, ls, room, s) && e.Bin?
    requires Meaning(k, e, fr, ls, room, fuel).Some? || EffectFree(e)
    ensures Done(k, e, g, x, fr, held, Meaning(k, e, fr, ls, room, fuel), s, s')
    decreases room, fuel, e, 1
  {
    hide *;
    var y, w, z := BinParts(k, e, g, x, fr, held, s.pc);
    BinMeaning(k, e, fr, ls, room, fuel, 0);
    var v1 := Meaning(k, e.left, fr, ls, room, fuel);
    var s1 := ExprRun(k, e.left, g, y, fr, held, ls, room, fuel, s);
    ReadyAfter(k, e.left, g, y, fr, held, ls, room, fuel, s, s1);
    DoneMoves(k, e.left, g, y, fr, held, v1, s, s1);
    var ls1 := After(v1, ls);
    var s2 := ExprRun(k, e.right, y.g, w, fr, held, ls1, room, fuel, s1);
    var v2 := Meaning(k, e.right, fr, ls1, room, fuel);
    DoneMoves(k, e.right, y.g, w, fr, held, v2, s1, s2);
    ReadyUnique(k, fr, held, ls, room, s);
    s' := OpRun(k.code, e.op, y.reg, w.reg, w.g, z, s2);
    BinMeaning(k, e, fr, ls, room, fuel, s2.t[w.reg]);
    BinDone(k, e, g, x, y, w, z, fr, held, ls, v1, v2, Meaning(k, e, fr, ls, room, fuel), s, s1, s2, s');
  }

  lemma DoneMoves(k: Linked, e: R.Expr, g: Gen, x: ExprCode, fr: Frame, held: set<int>, v: Option<Evaluated>, s: State,
                  s': State)
    requires Done(k, e, g, x, fr, held, v, s, s')
    ensures s'.pc == s.pc + |x.code|
  {
  }

  lemma ReadyUnique(k: Linked, fr: Frame, held: set<int>, ls: Locals, room: nat, s: State)
    requires Ready(k, fr, held, ls, room, s)
    ensures UniqueLabels(k.code) && GoodFrame(fr) && s.fp == Wrap(fr.fp)
  {
    hide UniqueLabels, Wrap;
  }

  lemma BinParts(k: Linked, e: R.Expr, g: Gen, x: ExprCode, fr: Frame, held: set<int>, pc: nat)
    returns (y: ExprCode, w: ExprCode, z: ExprCode)
    requires e.Bin? && Coded(k, e, g, x, fr, held, pc)
    ensures Coded(k, e.left, g, y, fr, held, pc) && Coded(k, e.right, y.g, w, fr, held, pc + |y.code|)
    ensures GenOp(e.op, y.reg, w.reg, w.g) == Some(z) && z.reg == x.reg
    ensures CodeAt(k.code, pc + |y.code| + |w.code|, z.code) && |x.code| == |y.code| + |w.code| + |z.code|
    ensures g.free[y.reg] && y.g.free == g.free[y.reg := false]
    ensures y.g.free[w.reg] && w.g.free == y.g.free[w.reg := false]
    ensures !w.g.free[y.reg] && !w.g.free[w.reg] && g.free[z.reg]
  {
    hide CodeAt, FramesOf, GenOp, BusyBelow;
    y := GenExpr(FramesOf(k.p), e.left, g).value;
    w := GenExpr(FramesOf(k.p), e.right, y.g).value;
    z := GenOp(e.op, y.reg, w.reg, w.g).value;
    CodeAtSplit(k.code, pc, y.code + w.code, z.code);
    CodeAtSplit(k.code, pc, y.code, w.code);
    BusySetOfExpr(FramesOf(k.p), e, g);
    BusySetOfExpr(FramesOf(k.p), e.left, g);
    BusySetOfExpr(FramesOf(k.p), e.right, y.g);
    BusyTake(g, y.reg);
  }

  lemma BinDone(k: Linked, e: R.Expr, g: Gen, x: ExprCode, y: ExprCode, w: ExprCode, z: ExprCode, fr: Frame,
                held: set<int>, ls: Locals,
                v1: Option<Evaluated>, v2: Option<Evaluated>, v: Option<Evaluated>, s: State, s1: State, s2: State,
                    s3: State)
    requires e.Bin? && z.reg == x.reg && |x.code| == |y.code| + |w.code| + |z.code|
    requires g.free[y.reg] && y.g.free == g.free[y.reg := false] && g.free[z.reg]
    requires y.g.free[w.reg] && w.g.free == y.g.free[w.reg := false]
    requires Done(k, e.left, g, y, fr, held, v1, s, s1)
    requires Done(k, e.right, y.g, w, fr, held, v2, s1, s2)
    requires Computes(k.code, e.op, y.reg, w.reg, w.g, z, s2, s3)
    requires EffectFree(e) ==> EffectFree(e.left) && EffectFree(e.right)
    requires v.Some? ==> v1.Some? && (v2.Some? || EffectFree(e.right))
    requires v.Some? && v2.None? ==> v.value == Evaluated(OpWord(e.op, v1.value.value, s2.t[w.reg]), v1.value.locals)
    requires v.Some? && v2.Some? ==>
               v.value ==
                   Evaluated(OpWord(e.op, v1.value.value, v2.value.value), if EffectFree(e.right) then v1.value.locals
                   else v2.value.locals)
    ensures Done(k, e, g, x, fr, held, v, s, s3)
  {
    hide Reaches, OpWord, EffectFree, HasLocals;
    Then(k.code, s, s1, s2);
    Then(k.code, s, s2, s3);
  }

  // ----- assignment -----

  lemma AssignRun(k: Linked, e: R.Expr, g: Gen, x: ExprCode, fr: Frame, held: set<int>, ls: Locals, room: nat,
                  fuel: nat, s: State)
    returns (s': State)
    requires Coded(k, e, g, x, fr, held, s.pc) && Ready(k, fr, held, ls, room, s) && e.Assign?
    requires Meaning(k, e, fr, ls, room, fuel).Some? || EffectFree(e)
    ensures Done(k, e, g, x, fr, held, Meaning(k, e, fr, ls, room, fuel), s, s')
    decreases room, fuel, e, 1
  {
    hide Reaches, Wrap, CodeAt, FramesOf, HasLocals, Spilled, InFrame, Keep, Coded, Ready, Meaning, Built, Effect,
         R.FrameSize;
    var z, y := AssignParts(k, e, g, x, fr, held, s.pc);
    ReadyUnique(k, fr, held, ls, room, s);
    AssignMeaning(k, e, fr, ls, room, fuel);
    var d := R.LocalSlot(e.target.offset);
    Stays(k.code, s);
    WrapZero();
    MoveSp(s, T(z.reg), Zero, 0, d);
    var s1 := Do(k.code, s, s, Addi(T(z.reg), Zero, d));
    ReadySame(k, fr, held, ls, room, s, s1);
    var v := Meaning(k, e.e, fr, ls, room, fuel).value;
    var s2 := ExprRun(k, e.e, z.g, y, fr, held, ls, room, fuel, s1);
    Then(k.code, s, s1, s2);
    s' := AssignEnd(k, fr, z.reg, y.reg, d, s, s2);
    ReadySpilled(k, fr, held, ls, room, s);
    LocalStored(s2.mem, fr, v.locals, e.target.offset, v.value, held);
    KeepBoth(s.mem, s2.mem, s'.mem, fr, held);
  }

  lemma ReadySame(k: Linked, fr: Frame, held: set<int>, ls: Locals, room: nat, s: State, s': State)
    requires Ready(k, fr, held, ls, room, s) && s'.mem == s.mem && s'.sp == s.sp && s'.fp == s.fp
    ensures Ready(k, fr, held, ls, room, s')
  {
  }

  lemma ReadySpilled(k: Linked, fr: Frame, held: set<int>, ls: Locals, room: nat, s: State)
    requires Ready(k, fr, held, ls, room, s)
    ensures Spilled(fr, held) && HasLocals(s.mem, fr, ls) && Built(k) && Size(fr) + room <= fr.fp && InFrame(s, fr)
  {
  }

  lemma AssignMeaning(k: Linked, e: R.Expr, fr: Frame, ls: Locals, room: nat, fuel: nat)
    requires e.Assign? && (Meaning(k, e, fr, ls, room, fuel).Some? || EffectFree(e))
    ensures !EffectFree(e) && e.target.Local? && Meaning(k, e.e, fr, ls, room, fuel).Some?
    ensures var v := Meaning(k, e.e, fr, ls, room, fuel).value;
            Meaning(k, e, fr, ls, room, fuel).value == Evaluated(v.value, v.locals[e.target.offset := v.value])
  {
  }

  lemma AssignParts(k: Linked, e: R.Expr, g: Gen, x: ExprCode, fr: Frame, held: set<int>, pc: nat)
      returns (z: Allocated, y: ExprCode)
    requires e.Assign? && Coded(k, e, g, x, fr, held, pc)
    ensures Coded(k, e.e, z.g, y, fr, held, pc + 1)
    ensures GoodSlot(fr.locals, e.target.offset)
    ensures x.reg == y.reg != z.reg && |x.code| == |y.code| + 3
    ensures g.free[z.reg] && z.g.free == g.free[z.reg := false]
    ensures pc < |k.code| && k.code[pc] == Addi(T(z.reg), Zero, R.LocalSlot(e.target.offset))
    ensures pc + |y.code| + 2 < |k.code| && k.code[pc + |y.code| + 1] == Alu(SUB, T(z.reg), Fp, T(z.reg))
    ensures k.code[pc + |y.code| + 2] == Sw(T(y.reg), 0, T(z.reg))
  {
    hide CodeAt, FramesOf, BusyBelow, GenExpr, GoodExpr, Safe;
    z, y := AssignShape(FramesOf(k.p), e, g, x);
    AssignGuards(k, e, fr, g, held, z.reg);
    AssignCode(k.code, pc, x.code, y.code, z.reg, y.reg, e.target.offset);
    BusyTake(g, z.reg);
  }

  lemma AssignShape(frames: Frames, e: R.Expr, g: Gen, x: ExprCode) returns (z: Allocated, y: ExprCode)
    requires e.Assign? && GenExpr(frames, e, g) == Some(x)
    ensures Alloc(g) == Some(z) && GenExpr(frames, e.e, z.g) == Some(y)
    ensures x.reg == y.reg != z.reg && g.free[z.reg] && z.g.free == g.free[z.reg := false]
    ensures x.code == [Addi(T(z.reg), Zero, R.LocalSlot(e.target.offset))] + y.code +
            [Alu(SUB, T(z.reg), Fp, T(z.reg)), Sw(T(y.reg), 0, T(z.reg))]
  {
    z := Alloc(g).value;
    y := GenExpr(frames, e.e, z.g).value;
    BusySetOfExpr(frames, e.e, z.g);
  }

  lemma AssignGuards(k: Linked, e: R.Expr, fr: Frame, g: Gen, held: set<int>, z: TIndex)
    requires e.Assign? && GoodExpr(fr.locals, |fr.ps|, e) &&
             Safe(FramesOf(k.p), fr.locals, e, BusyBelow(g.free, 7), held)
    ensures GoodSlot(fr.locals, e.target.offset) && GoodExpr(fr.locals, |fr.ps|, e.e)
    ensures Safe(FramesOf(k.p), fr.locals, e.e, BusyBelow(g.free, 7) + 1, held)
  {
    hide BusyBelow, FramesOf;
  }

  lemma AssignCode(code: Listing, pc: nat, x: seq<Instr>, y: seq<Instr>, z: TIndex, r: TIndex, offset: nat)
    requires CodeAt(code, pc, x)
    requires x == [Addi(T(z), Zero, R.LocalSlot(offset))] + y + [Alu(SUB, T(z), Fp, T(z)), Sw(T(r), 0, T(z))]
    ensures pc < |code| && code[pc] == Addi(T(z), Zero, R.LocalSlot(offset)) && CodeAt(code, pc + 1, y)
    ensures pc + |y| + 2 < |code| && code[pc + |y| + 1] == Alu(SUB, T(z), Fp, T(z)) &&
            code[pc + |y| + 2] == Sw(T(r), 0, T(z))
  {
    hide CodeAt;
    var first := Addi(T(z), Zero, R.LocalSlot(offset));
    var last := [Alu(SUB, T(z), Fp, T(z)), Sw(T(r), 0, T(z))];
    CodeAtSplit(code, pc, [first] + y, last);
    CodeAtHead(code, pc, first, y);
    assert last == [last[0]] + [last[1]];
    CodeAtHead(code, pc + 1 + |y|, last[0], [last[1]]);
    CodeAtOne(code, pc + 2 + |y|, last[1]);
  }

  /** The address is computed by subtracting from s0, and the value stored there. */
  lemma AssignEnd(k: Linked, fr: Frame, z: TIndex, y: TIndex, d: int, s: State, s2: State) returns (s': State)
    requires GoodFrame(fr) && s2.fp == Wrap(fr.fp) && 0 < d <= Size(fr) && d % 4 == 0 && s2.t[z] == d && z != y
    requires Reaches(k.code, s, s2) && s2.pc + 1 < |k.code|
    requires k.code[s2.pc] == Alu(SUB, T(z), Fp, T(z)) && k.code[s2.pc + 1] == Sw(T(y), 0, T(z))
    ensures Reaches(k.code, s, s')
    ensures s' == s2.(pc := s2.pc + 2, t := s'.t, mem := s2.mem[fr.fp - d := s2.t[y]])
    ensures forall i :: 0 <= i < 7 && i != z ==> s'.t[i] == s2.t[i]
  {
    hide Reaches, R.FrameSize, Wrap, EffAddr, Effect;
    SubEffect(s2, z, fr.fp, d);
    var s3 := Do(k.code, s, s2, Alu(SUB, T(z), Fp, T(z)));
    EffAddrWrap(fr.fp - d, 0);
    StoreEffect(s3, z, y, fr.fp - d);
    s' := Do(k.code, s, s3, Sw(T(y), 0, T(z)));
  }

  lemma SubEffect(s: State, z: TIndex, x: int, d: int)
    requires s.fp == Wrap(x) && s.t[z] == d
    ensures Effect(Alu(SUB, T(z), Fp, T(z)), s) == Some(Next(s.(t := s.t[z := Wrap(x - d)])))
  {
    hide Wrap, And, Or, Xor, DivWord, ShiftLeft, ShiftRight;
    WrapOfSum(x, d);
  }

  lemma StoreEffect(s: State, z: TIndex, y: TIndex, x: int)
    requires EffAddr(s.t[z], 0) == x && x % 4 == 0
    ensures Effect(Sw(T(y), 0, T(z)), s) == Some(Next(s.(mem := s.mem[x := s.t[y]])))
  {
    hide EffAddr;
  }

  /** Storing to a local variable's slot changes that variable only. */
  lemma LocalStored(m: Memory, fr: Frame, ls: Locals, o: nat, w: Word, held: set<int>)
    requires GoodSlot(fr.locals, o) && HasLocals(m, fr, ls) && Spilled(fr, held)
    ensures HasLocals(m[fr.fp - R.LocalSlot(o) := w], fr, ls[o := w])
    ensures Keep(m, m[fr.fp - R.LocalSlot(o) := w], fr, held)
  {
  }

  lemma KeepBoth(m: Memory, m1: Memory, m2: Memory, fr: Frame, held: set<int>)
    requires Keep(m, m1, fr, held) && Keep(m1, m2, fr, held)
    ensures Keep(m, m2, fr, held)
  {
  }

  // ----- arguments -----

  /** The spill slots from base on, `n` of them, are free for use. */
  ghost predicate SlotsFree(fr: Frame, held: set<int>, base: nat, n: nat) {
    n > 0 ==>
        base % 4 == 0 && 44 <= base && fr.locals + 40 <= base && base + 4 * n <= Size(fr) &&
        Slots(base, base + 4 * n) !! held
  }

  ghost predicate ArgsCoded(k: Linked, args: seq<R.Expr>, g: Gen, xs: ArgsCode, fr: Frame, held: set<int>, base: nat,
                            stored: nat, pc: nat) {
    && g.free == AllFree
    && GenArgs(FramesOf(k.p), args, g, base + 4 * stored) == Some(xs) && CodeAt(k.code, pc, xs.code)
    && (forall a :: a in args ==> GoodExpr(fr.locals, |fr.ps|, a))
    && SafeArgs(FramesOf(k.p), fr.locals, args, base, stored, held)
  }

  function ArgsMeaning(k: Linked, args: seq<R.Expr>, fr: Frame, ls: Locals, room: nat,
                       fuel: nat): (r: Option<EvaluatedAll>)
    ensures r.Some? ==> |r.value.values| == |args|
  {
    EvalArgs(k.p, Compiled, args, fr.ps, ls, room, fuel)
  }

  /** The values are in the slots after the `stored` ones, which are unchanged. */
  ghost predicate ArgsDone(k: Linked, xs: ArgsCode, fr: Frame, held: set<int>, base: nat, stored: nat, v: EvaluatedAll,
                           s: State, s': State) {
    && Reaches(k.code, s, s')
    && s'.pc == s.pc + |xs.code| && s'.sp == s.sp && s'.fp == s.fp
    && Keep(s.mem, s'.mem, fr, held + Slots(base, base + 4 * stored))
    && HasLocals(s'.mem, fr, v.locals)
    && forall i :: 0 <= i < |v.values| ==> Read(s'.mem, fr.fp - (base + 4 * (stored + i + 1))) == v.values[i]
  }

  lemma ArgsRun(k: Linked, args: seq<R.Expr>, g: Gen, xs: ArgsCode, fr: Frame, held: set<int>, base: nat, stored: nat,
                ls: Locals, room: nat, fuel: nat, s: State)
    returns (s': State)
    requires ArgsCoded(k, args, g, xs, fr, held, base, stored, s.pc) && SlotsFree(fr, held, base, stored + |args|)
    requires Ready(k, fr, held, ls, room, s) && ArgsMeaning(k, args, fr, ls, room, fuel).Some?
    ensures ArgsDone(k, xs, fr, held, base, stored, ArgsMeaning(k, args, fr, ls, room, fuel).value, s, s')
    decreases room, fuel, args, 0
  {
    hide Reaches, Ready, Meaning, ArgsMeaning, Coded, ArgsCoded, HasLocals, Keep, InFrame, Wrap, Built, Effect, CodeAt,
         R.FrameSize;
    ReadySpilled(k, fr, held, ls, room, s);
    Stays(k.code, s);
    if args == [] {
      s' := s;
      NoArgs(k, args, g, xs, fr, held, base, stored, ls, room, fuel, s);
    } else {
      var y, ys := ArgsParts(k, args, g, xs, fr, held, base, stored, s.pc);
      ArgsMeaningParts(k, args, fr, ls, room, fuel);
      var held1 := held + Slots(base, base + 4 * stored);
      var d := base + 4 * stored + 4;
      ReadyHeld(k, fr, held, held1, ls, room, s);
      var v := Meaning(k, args[0], fr, ls, room, fuel).value;
      var s1 := ExprRun(k, args[0], g, y, fr, held1, ls, room, fuel, s);
      ReadyAfter(k, args[0], g, y, fr, held1, ls, room, fuel, s, s1);
      ReadyUnique(k, fr, held1, v.locals, room, s1);
      StoreFp(s1, fr, T(y.reg), d);
      var s2 := Do(k.code, s, s1, Sw(T(y.reg), -d, Fp));
      ArgStored(k, fr, held, base, stored, |args|, v.locals, v.value, s1, s2, room);
      s' := ArgsRun(k, args[1..], Release(y.g, y.reg), ys, fr, held, base, stored + 1, v.locals, room, fuel, s2);
      Then(k.code, s, s2, s');
      var w := ArgsMeaning(k, args[1..], fr, v.locals, room, fuel).value;
      ArgKept(s.mem, s1.mem, s2.mem, s'.mem, fr, held, base, stored, v.value, w.values);
    }
  }

  /** One more argument in its slot. */
  lemma ArgStored(k: Linked, fr: Frame, held: set<int>, base: nat, stored: nat, n: nat, ls: Locals, w: Word, s1: State,
                  s2: State, room: nat)
    requires n > 0 && SlotsFree(fr, held, base, stored + n) && Spilled(fr, held)
    requires Ready(k, fr, held + Slots(base, base + 4 * stored), ls, room, s1)
    requires s2.mem == s1.mem[fr.fp - (base + 4 * stored + 4) := w] && s2.sp == s1.sp && s2.fp == s1.fp
    ensures Ready(k, fr, held, ls, room, s2)
    ensures Keep(s1.mem, s2.mem, fr, held + Slots(base, base + 4 * stored))
    ensures Read(s2.mem, fr.fp - (base + 4 * stored + 4)) == w
  {
    hide Built, Wrap, R.FrameSize;
  }

  lemma ArgKept(m: Memory, m1: Memory, m2: Memory, m3: Memory, fr: Frame, held: set<int>, base: nat, stored: nat,
                v: Word, vs: seq<Word>)
    requires Keep(m, m1, fr, held + Slots(base, base + 4 * stored)) &&
             Keep(m1, m2, fr, held + Slots(base, base + 4 * stored))
    requires Keep(m2, m3, fr, held + Slots(base, base + 4 * (stored + 1)))
    requires Read(m2, fr.fp - (base + 4 * stored + 4)) == v
    requires forall i :: 0 <= i < |vs| ==> Read(m3, fr.fp - (base + 4 * (stored + 1 + i + 1))) == vs[i]
    ensures Keep(m, m3, fr, held + Slots(base, base + 4 * stored))
    ensures forall i :: 0 <= i < |[v] + vs| ==> Read(m3, fr.fp - (base + 4 * (stored + i + 1))) == ([v] + vs)[i]
  {
    ArgSlots(held, base, stored);
    KeepBoth(m, m1, m2, fr, held + Slots(base, base + 4 * stored));
    KeepLess(m2, m3, fr, held + Slots(base, base + 4 * (stored + 1)), held + Slots(base, base + 4 * stored));
    KeepBoth(m, m2, m3, fr, held + Slots(base, base + 4 * stored));
    hide Slots;
    forall i | 0 <= i < |[v] + vs| ensures Read(m3, fr.fp - (base + 4 * (stored + i + 1))) == ([v] + vs)[i] {
      if i > 0 {
        assert base + 4 * (stored + i + 1) == base + 4 * (stored + 1 + (i - 1) + 1);
      }
    }
  }

  /** The slots after one more argument include the new one and those before it. */
  lemma ArgSlots(held: set<int>, base: nat, stored: nat)
    ensures base + 4 * stored + 4 in held + Slots(base, base + 4 * (stored + 1))
    ensures held + Slots(base, base + 4 * stored) <= held + Slots(base, base + 4 * (stored + 1))
  {
  }

  lemma KeepLess(m: Memory, m': Memory, fr: Frame, held: set<int>, less: set<int>)
    requires Keep(m, m', fr, held) && less <= held
    ensures Keep(m, m', fr, less)
  {
  }

  lemma NoArgs(k: Linked, args: seq<R.Expr>, g: Gen, xs: ArgsCode, fr: Frame, held: set<int>, base: nat, stored: nat,
               ls: Locals, room: nat, fuel: nat, s: State)
    requires args == [] && ArgsCoded(k, args, g, xs, fr, held, base, stored, s.pc)
    requires HasLocals(s.mem, fr, ls) && Reaches(k.code, s, s)
    ensures ArgsMeaning(k, args, fr, ls, room, fuel).Some?
    ensures ArgsDone(k, xs, fr, held, base, stored, ArgsMeaning(k, args, fr, ls, room, fuel).value, s, s)
  {
    hide Reaches;
  }

  lemma ArgsMeaningParts(k: Linked, args: seq<R.Expr>, fr: Frame, ls: Locals, room: nat, fuel: nat)
    requires args != [] && ArgsMeaning(k, args, fr, ls, room, fuel).Some?
    ensures Meaning(k, args[0], fr, ls, room, fuel).Some?
    ensures var v := Meaning(k, args[0], fr, ls, room, fuel).value;
            var w := ArgsMeaning(k, args[1..], fr, v.locals, room, fuel);
            w.Some? &&
                ArgsMeaning(k, args, fr, ls, room, fuel).value ==
                EvaluatedAll([v.value] + w.value.values, w.value.locals)
  {
  }

  lemma ArgsParts(k: Linked, args: seq<R.Expr>, g: Gen, xs: ArgsCode, fr: Frame, held: set<int>, base: nat, stored: nat,
                  pc: nat)
    returns (y: ExprCode, ys: ArgsCode)
    requires args != [] && ArgsCoded(k, args, g, xs, fr, held, base, stored, pc)
    ensures Coded(k, args[0], g, y, fr, held + Slots(base, base + 4 * stored), pc)
    ensures pc + |y.code| < |k.code| && k.code[pc + |y.code|] == Sw(T(y.reg), -(base + 4 * stored + 4), Fp)
    ensures ArgsCoded(k, args[1..], Release(y.g, y.reg), ys, fr, held, base, stored + 1, pc + |y.code| + 1)
    ensures |xs.code| == |y.code| + 1 + |ys.code|
  {
    hide CodeAt, FramesOf, GenExpr, GoodExpr, Safe, Slots;
    var off := base + 4 * stored;
    y := GenExpr(FramesOf(k.p), args[0], g).value;
    ys := GenArgs(FramesOf(k.p), args[1..], Release(y.g, y.reg), off + 4).value;
    var store := Sw(T(y.reg), -(off + 4), Fp);
    assert y.code + [store] + ys.code == y.code + ([store] + ys.code);
    CodeAtSplit(k.code, pc, y.code, [store] + ys.code);
    CodeAtHead(k.code, pc + |y.code|, store, ys.code);
    BusySetReleased(FramesOf(k.p), args[0], g);
    NoneBusy();
  }

  lemma NoneBusy()
    ensures BusyBelow(AllFree, 7) == 0
  {
    assert BusyBelow(AllFree, 5) == 0;
    assert BusyBelow(AllFree, 3) == 0;
  }

  lemma ReadyHeld(k: Linked, fr: Frame, held: set<int>, held': set<int>, ls: Locals, room: nat, s: State)
    requires Ready(k, fr, held, ls, room, s) && Spilled(fr, held')
    ensures Ready(k, fr, held', ls, room, s)
  {
  }

  // ----- calls -----

  /** The parts of a call's code, from pc. */
  datatype CallPlan = CallPlan(f: R.Func, base: nat, xs: ArgsCode, args: nat, load: nat, jump: nat, restore: nat,
      move: nat, reg: TIndex)

  ghost predicate Planned(k: Linked, e: R.Expr, g: Gen, x: ExprCode, fr: Frame, held: set<int>, pc: nat, c: CallPlan)
    requires e.Call?
  {
    var busy := BusyBelow(g.free, 7);
    && R.Find(k.p, e.name) == Some(c.f) && c.base == c.f.frame + 44
    && SlotsFree(fr, held, c.base, busy + |e.args|) && |e.args| <= 8
    && CodeAt(k.code, pc, SaveTemps(g.free, 0, c.base))
    && c.args == pc + |SaveTemps(g.free, 0, c.base)|
    && ArgsCoded(k, e.args, g.(free := AllFree), c.xs, fr, held, c.base, busy, c.args)
    && c.load == c.args + |c.xs.code|
    && CodeAt(k.code, c.load, LoadArgs(0, |e.args|, c.base + 4 * busy))
    && c.jump == c.load + |LoadArgs(0, |e.args|, c.base + 4 * busy)|
    && c.jump < |k.code| && k.code[c.jump] == Jal(Function(e.name))
    && c.restore == c.jump + 1
    && CodeAt(k.code, c.restore, RestoreTemps(g.free, 7, c.base + 4 * busy))
    && c.move == c.restore + |RestoreTemps(g.free, 7, c.base + 4 * busy)|
    && c.move < |k.code| && k.code[c.move] == Mv(T(c.reg), A(0)) && c.move + 1 == pc + |x.code|
    && c.reg == x.reg && g.free[x.reg]
  }

  lemma Plan(k: Linked, e: R.Expr, g: Gen, x: ExprCode, fr: Frame, held: set<int>, pc: nat) returns (c: CallPlan)
    requires e.Call? && Coded(k, e, g, x, fr, held, pc) && Spilled(fr, held)
    ensures Planned(k, e, g, x, fr, held, pc, c)
  {
    hide CodeAt, FramesOf, SaveTemps, RestoreTemps, LoadArgs, GoodExpr, Safe, BusyBelow, GenArgs, Reclaimed, SlotsFree,
         SafeArgs;
    var frames := FramesOf(k.p);
    FramesOfFind(k.p, e.name);
    CallGuards(k, e, g, x, fr, held, pc);
    var f := R.Find(k.p, e.name).value;
    var base, busy, n := f.frame + 44, BusyBelow(g.free, 7), |e.args|;
    var top := base + 4 * busy;
    var xs := GenArgs(frames, e.args, g.(free := AllFree), top).value;
    var save, load, restore := SaveTemps(g.free, 0, base), LoadArgs(0, n, top), RestoreTemps(g.free, 7, top);
    CodeAtSplit(k.code, pc, CallCode(g.free, base, xs.code, n, e.name), [Mv(T(x.reg), A(0))]);
    CodeAtOne(k.code, pc + |CallCode(g.free, base, xs.code, n, e.name)|, Mv(T(x.reg), A(0)));
    CodeAtSplit(k.code, pc, save + xs.code + load + [Jal(Function(e.name))], restore);
    CodeAtSplit(k.code, pc, save + xs.code + load, [Jal(Function(e.name))]);
    CodeAtOne(k.code, pc + |save + xs.code + load|, Jal(Function(e.name)));
    CodeAtSplit(k.code, pc, save + xs.code, load);
    CodeAtSplit(k.code, pc, save, xs.code);
    BusySetOfExpr(frames, e, g);
    var a := pc + |save|;
    var b := a + |xs.code|;
    var d := b + |load|;
    c := CallPlan(f, base, xs, a, b, d, d + 1, d + 1 + |restore|, x.reg);
  }

  lemma CallGuards(k: Linked, e: R.Expr, g: Gen, x: ExprCode, fr: Frame, held: set<int>, pc: nat)
    requires e.Call? && Coded(k, e, g, x, fr, held, pc) && Spilled(fr, held)
    ensures var frames, busy := FramesOf(k.p), BusyBelow(g.free, 7);
            && e.name in frames && |e.args| <= 8 && (forall a :: a in e.args ==> GoodExpr(fr.locals, |fr.ps|, a))
            && SlotsFree(fr, held, frames[e.name] + 44, busy + |e.args|)
            && SafeArgs(frames, fr.locals, e.args, frames[e.name] + 44, busy, held)
  {
    hide CodeAt, GenExpr, BusyBelow, FramesOf, SafeArgs, R.FrameSize;
  }

  lemma {:induction false} FramesOfFind(p: R.Program, name: string)
    ensures name in FramesOf(p) <==> R.Find(p, name).Some?
    ensures name in FramesOf(p) ==> FramesOf(p)[name] == R.Find(p, name).value.frame
  {
    if p != [] {
      FramesOfFind(p[1..], name);
    }
  }

  datatype CallOutcome = CallOutcome(value: Option<Word>, locals: Locals)

  /** The result of a call, which may be without a value. */
  function CallMeaning(k: Linked, e: R.Expr, fr: Frame, ls: Locals, room: nat, fuel: nat): Option<CallOutcome>
    requires e.Call?
  {
    var f :- R.Find(k.p, e.name);
    var xs :- ArgsMeaning(k, e.args, fr, ls, room, fuel);
    if room < R.FrameSize(f.frame) then None else
    var v :- RunBody(k.p, Compiled, f, xs.values, room - R.FrameSize(f.frame), fuel);
    Some(CallOutcome(v, xs.locals))
  }

  function AsValue(c: CallOutcome): Option<Evaluated> {
    if c.value.None? then None else Some(Evaluated(c.value.value, c.locals))
  }

  lemma CallRun(k: Linked, e: R.Expr, g: Gen, x: ExprCode, fr: Frame, held: set<int>, ls: Locals, room: nat, fuel: nat,
                s: State)
    returns (s': State)
    requires Coded(k, e, g, x, fr, held, s.pc) && Ready(k, fr, held, ls, room, s) && e.Call?
    requires Meaning(k, e, fr, ls, room, fuel).Some? || EffectFree(e)
    ensures Done(k, e, g, x, fr, held, Meaning(k, e, fr, ls, room, fuel), s, s')
    decreases room, fuel, e, 1
  {
    hide Coded, Ready, Done;
    s' := AnyCallRun(k, e, g, x, fr, held, ls, room, fuel, s);
  }

  /** A call, of a function with or without a value: temporaries are spilled, arguments evaluated
      to slots and loaded, the function runs, and the temporaries are reloaded. */
  lemma AnyCallRun(k: Linked, e: R.Expr, g: Gen, x: ExprCode, fr: Frame, held: set<int>, ls: Locals, room: nat,
                   fuel: nat, s: State)
    returns (s': State)
    requires Coded(k, e, g, x, fr, held, s.pc) && Ready(k, fr, held, ls, room, s) && e.Call?
    requires CallMeaning(k, e, fr, ls, room, fuel).Some?
    ensures var v := CallMeaning(k, e, fr, ls, room, fuel).value;
            Done(k, e, g, x, fr, held, AsValue(v), s, s') && HasLocals(s'.mem, fr, v.locals)
    ensures ArgsLeft(fr, R.Find(k.p, e.name).value.frame + 44, BusyBelow(g.free, 7),
            ArgsMeaning(k, e.args, fr, ls, room, fuel).value.values, s'.mem)
    decreases room, fuel, e, 0
  {
    hide ArgsLeft, Reaches, Ready, Coded, Planned, ArgsMeaning, ArgsDone, Keep, HasLocals, RunBody, R.FrameSize, Done,
         FuncReady, FuncDone, CallSaved, CallEntered, CallMeaning, BusyBelow, Built, InFrame, Spilled, R.Find;
    CallMeaningParts(k, e, fr, ls, room, fuel);
    ReadySpilled(k, fr, held, ls, room, s);
    var c := Plan(k, e, g, x, fr, held, s.pc);
    PlanFinds(k, e, g, x, fr, held, s.pc, c);
    var args := ArgsMeaning(k, e.args, fr, ls, room, fuel).value;
    var room' := room - R.FrameSize(c.f.frame);
    var v := RunBody(k.p, Compiled, c.f, args.values, room', fuel).value;
    var s1, s2, s3 := CallEnter(k, e, g, x, fr, held, ls, room, fuel, c, s);
    var s4 := FuncRun(k, c.f, args.values, room', fuel, fr.fp - Size(fr), s3);
    s' := CallEnd(k, e, g, x, fr, held, ls, room, args, v, c, s, s1, s2, s3, s4);
  }

  lemma CallMeaningParts(k: Linked, e: R.Expr, fr: Frame, ls: Locals, room: nat, fuel: nat)
    requires e.Call? && CallMeaning(k, e, fr, ls, room, fuel).Some?
    ensures R.Find(k.p, e.name).Some? && ArgsMeaning(k, e.args, fr, ls, room, fuel).Some?
    ensures var f, args := R.Find(k.p, e.name).value, ArgsMeaning(k, e.args, fr, ls, room, fuel).value;
            && R.FrameSize(f.frame) <= room
            && var v := RunBody(k.p, Compiled, f, args.values, room - R.FrameSize(f.frame), fuel);
               v.Some? && CallMeaning(k, e, fr, ls, room, fuel).value == CallOutcome(v.value, args.locals)
  {
    hide RunBody, ArgsMeaning, R.Find, R.FrameSize;
  }

  /** Up to the label of the called function. */
  lemma CallEnter(k: Linked, e: R.Expr, g: Gen, x: ExprCode, fr: Frame, held: set<int>, ls: Locals, room: nat,
                  fuel: nat,
                  c: CallPlan, s: State) returns (s1: State, s2: State, s3: State)
    requires e.Call? && Planned(k, e, g, x, fr, held, s.pc, c) && Ready(k, fr, held, ls, room, s)
    requires R.Find(k.p, c.f.name) == Some(c.f) && R.FrameSize(c.f.frame) <= room
    requires ArgsMeaning(k, e.args, fr, ls, room, fuel).Some?
    ensures CallSaved(k, g, fr, c, s, s1) && Keep(s.mem, s1.mem, fr, held)
    ensures var args := ArgsMeaning(k, e.args, fr, ls, room, fuel).value;
            && ArgsDone(k, c.xs, fr, held, c.base, BusyBelow(g.free, 7), args, s1, s2) &&
                CallEntered(k, fr, args, c, s2, s3)
            && FuncReady(k, c.f, args.values, room - R.FrameSize(c.f.frame), fr.fp - Size(fr), s3)
    decreases room, fuel, e.args, 2
  {
    hide Reaches, Ready, Planned, ArgsMeaning, ArgsDone, Keep, R.FrameSize, FuncReady, CallSaved, CallEntered,
         BusyBelow,
         R.Find;
    var args := ArgsMeaning(k, e.args, fr, ls, room, fuel).value;
    s1 := CallSave(k, e, g, x, fr, held, ls, room, c, s);
    s2 := CallArgs(k, e, g, x, fr, held, ls, room, fuel, c, s, s1);
    SavedAt(k, g, fr, c, s, s1);
    s3 := CallJump(k, e, g, x, fr, held, ls, room, args, c, s, s1, s2);
    EnteredReady(k, fr, held, ls, room, c.xs, args, BusyBelow(g.free, 7), c, s1, s2, s3);
  }

  /** The values that were passed are still in the slots of the call. */
  ghost predicate ArgsLeft(fr: Frame, base: nat, busy: nat, values: seq<Word>, m: Memory) {
    forall i :: 0 <= i < |values| ==> Read(m, fr.fp - (base + 4 * (busy + i + 1))) == values[i]
  }

  lemma ArgsRemain(k: Linked, e: R.Expr, g: Gen, x: ExprCode, fr: Frame, held: set<int>, args: EvaluatedAll,
                   c: CallPlan, pc: nat, s1: State, s2: State, s4: State)
    requires e.Call? && Planned(k, e, g, x, fr, held, pc, c) && |args.values| == |e.args|
    requires ArgsDone(k, c.xs, fr, held, c.base, BusyBelow(g.free, 7), args, s1, s2)
    requires forall x :: x >= fr.fp - Size(fr) ==> Read(s4.mem, x) == Read(s2.mem, x)
    ensures ArgsLeft(fr, c.base, BusyBelow(g.free, 7), args.values, s4.mem)
  {
    hide Reaches, CodeAt, ArgsCoded, SaveTemps, LoadArgs, RestoreTemps, R.FrameSize, Keep, HasLocals, BusyBelow;
    forall i | 0 <= i < |args.values|
      ensures Read(s4.mem, fr.fp - (c.base + 4 * (BusyBelow(g.free, 7) + i + 1))) == args.values[i]
    {
      assert fr.fp - (c.base + 4 * (BusyBelow(g.free, 7) + i + 1)) >= fr.fp - Size(fr);
    }
  }

  lemma PlanFinds(k: Linked, e: R.Expr, g: Gen, x: ExprCode, fr: Frame, held: set<int>, pc: nat, c: CallPlan)
    requires e.Call? && Planned(k, e, g, x, fr, held, pc, c)
    ensures R.Find(k.p, e.name) == Some(c.f) && c.f.name == e.name && c.base == c.f.frame + 44
  {
  }

  /** After the temporaries are saved. */
  ghost predicate CallSaved(k: Linked, g: Gen, fr: Frame, c: CallPlan, s: State, s1: State) {
    && Reaches(k.code, s, s1) && s1 == s.(pc := c.args, mem := s1.mem)
    && Saved(s1.mem, fr, g.free, c.base, s.t)
  }

  lemma SavedAt(k: Linked, g: Gen, fr: Frame, c: CallPlan, s: State, s1: State)
    requires CallSaved(k, g, fr, c, s, s1)
    ensures s1.pc == c.args
  {
  }

  lemma CallSave(k: Linked, e: R.Expr, g: Gen, x: ExprCode, fr: Frame, held: set<int>, ls: Locals, room: nat,
                 c: CallPlan, s: State)
    returns (s1: State)
    requires e.Call? && Planned(k, e, g, x, fr, held, s.pc, c) && Ready(k, fr, held, ls, room, s)
    ensures CallSaved(k, g, fr, c, s, s1) && Ready(k, fr, held, ls, room, s1) && Keep(s.mem, s1.mem, fr, held)
  {
    hide Reaches, Built, CodeAt, Wrap, ArgsCoded, SaveTemps, LoadArgs, RestoreTemps, R.FrameSize;
    s1 := SaveTempsRun(k.code, s, fr, g.free, c.base, 0);
    SpillKeeps(s.mem, s1.mem, fr, held, c.base, c.base + 4 * BusyBelow(g.free, 7), ls);
  }

  /** Spilling below the locals and beside the held slots keeps both. */
  lemma SpillKeeps(m: Memory, m': Memory, fr: Frame, held: set<int>, low: int, high: int, ls: Locals)
    requires Within(m, m', fr, low, high) &&
             (low < high ==> fr.locals + 40 <= low && 44 <= low && Slots(low, high) !! held)
    requires HasLocals(m, fr, ls)
    ensures HasLocals(m', fr, ls) && Keep(m, m', fr, held)
  {
    forall k | k in held ensures Read(m', fr.fp - k) == Read(m, fr.fp - k) {
      assert low < high ==> k !in Slots(low, high);
    }
  }

  lemma PlanArgs(k: Linked, e: R.Expr, g: Gen, x: ExprCode, fr: Frame, held: set<int>, pc: nat, c: CallPlan)
    requires e.Call? && Planned(k, e, g, x, fr, held, pc, c)
    ensures SlotsFree(fr, held, c.base, BusyBelow(g.free, 7) + |e.args|)
    ensures ArgsCoded(k, e.args, g.(free := AllFree), c.xs, fr, held, c.base, BusyBelow(g.free, 7), c.args)
  {
    hide ArgsCoded, SlotsFree, CodeAt, SaveTemps, LoadArgs, RestoreTemps, BusyBelow;
  }

  lemma CallArgs(k: Linked, e: R.Expr, g: Gen, x: ExprCode, fr: Frame, held: set<int>, ls: Locals, room: nat, fuel: nat,
                 c: CallPlan, s: State, s1: State)
    returns (s2: State)
    requires e.Call? && Planned(k, e, g, x, fr, held, s.pc, c) && CallSaved(k, g, fr, c, s, s1) &&
             Ready(k, fr, held, ls, room, s1)
    requires ArgsMeaning(k, e.args, fr, ls, room, fuel).Some?
    ensures ArgsDone(k, c.xs, fr, held, c.base, BusyBelow(g.free, 7), ArgsMeaning(k, e.args, fr, ls, room, fuel).value,
            s1, s2)
    decreases room, fuel, e.args, 1
  {
    hide Reaches, Ready, ArgsCoded, ArgsDone, SlotsFree, ArgsMeaning, Planned, CallSaved, BusyBelow;
    PlanArgs(k, e, g, x, fr, held, s.pc, c);
    SavedAt(k, g, fr, c, s, s1);
    s2 := ArgsRun(k, e.args, g.(free := AllFree), c.xs, fr, held, c.base, BusyBelow(g.free, 7), ls, room, fuel, s1);
  }

  /** At the called function's label, with the arguments in registers. */
  ghost predicate CallEntered(k: Linked, fr: Frame, args: EvaluatedAll, c: CallPlan, s2: State, s3: State) {
    && Reaches(k.code, s2, s3)
    && Position(k.code, Function(c.f.name)) == Some(s3.pc) && s3.ra == Wrap(c.restore)
    && s3 == s2.(pc := s3.pc, ra := s3.ra, a := s3.a)
    && |args.values| <= 8 && forall i :: 0 <= i < |args.values| ==> s3.a[i] == args.values[i]
  }

  lemma CallJump(k: Linked, e: R.Expr, g: Gen, x: ExprCode, fr: Frame, held: set<int>, ls: Locals, room: nat,
                 args: EvaluatedAll, c: CallPlan, s: State, s1: State, s2: State)
    returns (s3: State)
    requires e.Call? && Planned(k, e, g, x, fr, held, s.pc, c) && Ready(k, fr, held, ls, room, s1)
    requires s1.pc == c.args && |args.values| == |e.args|
    requires ArgsDone(k, c.xs, fr, held, c.base, BusyBelow(g.free, 7), args, s1, s2)
    ensures CallEntered(k, fr, args, c, s2, s3)
  {
    hide Reaches, Built, CodeAt, Wrap, ArgsCoded, SaveTemps, RestoreTemps, LoadArgs, R.FrameSize, Position, Keep,
         HasLocals, BusyBelow, Effect, GenFunc, FramesOf;
    var top := c.base + 4 * BusyBelow(g.free, 7);
    var s' := LoadArgsRun(k.code, s2, fr, top, 0, |e.args|);
    var pc, _, _ := FuncAt(k, c.f);
    s3 := DoCall(k.code, s2, s', Function(e.name), pc);
  }

  lemma EnteredReady(k: Linked, fr: Frame, held: set<int>, ls: Locals, room: nat, xs: ArgsCode, args: EvaluatedAll,
                     stored: nat, c: CallPlan, s1: State, s2: State, s3: State)
    requires Ready(k, fr, held, ls, room, s1) && R.Find(k.p, c.f.name) == Some(c.f) && R.FrameSize(c.f.frame) <= room
    requires ArgsDone(k, xs, fr, held, c.base, stored, args, s1, s2) && CallEntered(k, fr, args, c, s2, s3)
    ensures FuncReady(k, c.f, args.values, room - R.FrameSize(c.f.frame), fr.fp - Size(fr), s3)
  {
    hide Reaches, Built, R.Find, R.FrameSize, Position, Wrap, Keep, HasLocals;
  }

  lemma {:induction false} FuncInFuncs(frames: Frames, p: R.Program, g: Gen, name: string)
      returns (off: nat, gf: Gen, x: StmtCode)
    requires R.Find(p, name).Some? && GenFuncs(frames, p, g).Some?
    ensures var f := R.Find(p, name).value; GenFunc(frames, f, gf) == Some(x) && gf.free == g.free
    ensures CodeAt(GenFuncs(frames, p, g).value.code, off, x.code)
  {
    hide CodeAt, GenStmts, SaveArgs, R.FrameSize;
    var y := GenFunc(frames, p[0], g).value;
    var ys := GenFuncs(frames, p[1..], y.g).value;
    BusySetOfStmts(frames, p[0].frame, p[0].body, g);
    CodeAtConcat(y.code, ys.code);
    if p[0].name == name {
      off, gf, x := 0, g, y;
    } else {
      off, gf, x := FuncInFuncs(frames, p[1..], y.g, name);
      CodeAtInside(y.code + ys.code, |y.code|, ys.code, off, x.code);
      off := |y.code| + off;
    }
  }

  /** The functions' code follows the start code. */
  lemma FunctionsAt(k: Linked)
    requires Built(k)
    ensures GenFuncs(FramesOf(k.p), k.p, Initial).Some?
    ensures CodeAt(k.code, |StartCode|, GenFuncs(FramesOf(k.p), k.p, Initial).value.code)
  {
    hide GoodProgram, UniqueLabels, CodeAt, FramesOf, GenFuncs, GenFunc;
    CodeAtConcat(StartCode, GenFuncs(FramesOf(k.p), k.p, Initial).value.code);
  }

  /** Where the code of a function is. */
  lemma FuncAt(k: Linked, f: R.Func) returns (pc: nat, g: Gen, x: StmtCode)
    requires Built(k) && R.Find(k.p, f.name) == Some(f)
    ensures Position(k.code, Function(f.name)) == Some(pc)
    ensures g.free == AllFree && GenFunc(FramesOf(k.p), f, g) == Some(x) && CodeAt(k.code, pc, x.code)
  {
    hide GoodProgram, GenProgram, UniqueLabels, Position, CodeAt, FramesOf, GenFuncs, GenFunc;
    var off;
    FunctionsAt(k);
    off, g, x := FuncInFuncs(FramesOf(k.p), k.p, Initial, f.name);
    var rest := GenFuncs(FramesOf(k.p), k.p, Initial).value.code;
    pc := |StartCode| + off;
    CodeAtInside(k.code, |StartCode|, rest, off, x.code);
    FuncLabelAt(k, f, pc, g, x);
  }

  lemma FuncLabelAt(k: Linked, f: R.Func, pc: nat, g: Gen, x: StmtCode)
    requires Built(k) && GenFunc(FramesOf(k.p), f, g) == Some(x) && CodeAt(k.code, pc, x.code)
    ensures Position(k.code, Function(f.name)) == Some(pc)
  {
    hide GoodProgram, GenProgram, UniqueLabels, Position, CodeAt, FramesOf, GenStmts, SaveArgs, R.FrameSize;
    CodeAtHead(k.code, pc, Lab(Function(f.name)), x.code[1..]);
    PositionOfUnique(k.code, pc);
  }

  /** What the called function leaves to its caller, whose stack pointer is `top`. */
  ghost predicate FuncDone(k: Linked, v: Option<Word>, top: int, s: State, s': State) {
    && Reaches(k.code, s, s')
    && s'.pc == Unsigned(s.ra) && s'.sp == s.sp && s'.fp == s.fp
    && (forall x :: x >= top ==> Read(s'.mem, x) == Read(s.mem, x))
    && (v.Some? ==> s'.a[0] == v.value)
  }

  lemma CallEnd(k: Linked, e: R.Expr, g: Gen, x: ExprCode, fr: Frame, held: set<int>, ls: Locals, room: nat,
                args: EvaluatedAll, v: Option<Word>, c: CallPlan, s: State, s1: State, s2: State, s3: State, s4: State)
    returns (s': State)
    requires e.Call? && Planned(k, e, g, x, fr, held, s.pc, c) && Ready(k, fr, held, ls, room, s)
    requires CallSaved(k, g, fr, c, s, s1) && Keep(s.mem, s1.mem, fr, held)
    requires ArgsDone(k, c.xs, fr, held, c.base, BusyBelow(g.free, 7), args, s1, s2)
    requires CallEntered(k, fr, args, c, s2, s3) && FuncDone(k, v, fr.fp - Size(fr), s3, s4)
    requires |args.values| == |e.args|
    ensures ArgsLeft(fr, c.base, BusyBelow(g.free, 7), args.values, s'.mem)
    ensures Done(k, e, g, x, fr, held, AsValue(CallOutcome(v, args.locals)), s, s') &&
            HasLocals(s'.mem, fr, args.locals)
  {
    hide Reaches, Built, CodeAt, Wrap, ArgsCoded, SaveTemps, RestoreTemps, LoadArgs, R.FrameSize, Position, Keep,
         HasLocals, InFrame, Saved, BusyBelow, ArgsLeft;
    ReadyUnique(k, fr, held, ls, room, s);
    CallReaches(k, s, s1, s2, s3, s4);
    CallMemory(k, fr, held, g, c, args, s, s1, s2, s4);
    ArgsRemain(k, e, g, x, fr, held, args, c, s.pc, s1, s2, s4);
    ReturnAddress(k, c.restore);
    var s5 := RestoreTempsRun(k.code, s4, fr, g.free, c.base, 7);
    Then(k.code, s, s4, s5);
    s' := Do(k.code, s, s5, Mv(T(c.reg), A(0)));
    SavedMeans(s4.mem, fr, g.free, c.base, s.t);
  }

  lemma SavedMeans(m: Memory, fr: Frame, free: Flags, base: nat, ts: TRegs)
    requires Saved(m, fr, free, base, ts)
    ensures forall j :: 0 <= j < 7 && !free[j] ==> Read(m, fr.fp - TempSlot(free, base, j)) == ts[j]
  {
  }

  lemma ReturnAddress(k: Linked, pc: nat)
    requires Built(k) && pc < |k.code|
    ensures Unsigned(Wrap(pc)) == pc
  {
    hide GoodProgram, GenProgram, UniqueLabels;
  }

  lemma CallReaches(k: Linked, s: State, s1: State, s2: State, s3: State, s4: State)
    requires Reaches(k.code, s, s1) && Reaches(k.code, s1, s2) && Reaches(k.code, s2, s3) && Reaches(k.code, s3, s4)
    ensures Reaches(k.code, s, s4)
  {
    hide Reaches;
    Then(k.code, s, s1, s2);
    Then(k.code, s, s2, s3);
    Then(k.code, s, s3, s4);
  }

  /** Through the whole call, the saved temporaries, the locals and the held slots survive. */
  lemma CallMemory(k: Linked, fr: Frame, held: set<int>, g: Gen, c: CallPlan, args: EvaluatedAll, s: State, s1: State,
                   s2: State, s4: State)
    requires GoodFrame(fr) && Spilled(fr, held) && 44 + fr.locals <= Size(fr)
    requires Keep(s.mem, s1.mem, fr, held) && Saved(s1.mem, fr, g.free, c.base, s.t)
    requires Keep(s1.mem, s2.mem, fr, held + Slots(c.base, c.base + 4 * BusyBelow(g.free, 7))) &&
             HasLocals(s2.mem, fr, args.locals)
    requires BusyBelow(g.free, 7) > 0 ==> c.base + 4 * BusyBelow(g.free, 7) <= Size(fr)
    requires forall x :: x >= fr.fp - Size(fr) ==> Read(s4.mem, x) == Read(s2.mem, x)
    ensures Keep(s.mem, s4.mem, fr, held) && HasLocals(s4.mem, fr, args.locals)
    ensures Saved(s4.mem, fr, g.free, c.base, s.t)
  {
    hide R.FrameSize;
    forall j | 0 <= j < 7 && !g.free[j]
      ensures Read(s4.mem, fr.fp - TempSlot(g.free, c.base, j)) == s.t[j]
    {
      BusyMonotone(g.free, j + 1, 7);
      assert TempSlot(g.free, c.base, j) in Slots(c.base, c.base + 4 * BusyBelow(g.free, 7));
    }
  }

  // ----- functions -----

  /** At the label of f, with its arguments in registers and enough stack. */
  ghost predicate FuncReady(k: Linked, f: R.Func, ps: seq<Word>, room: nat, top: int, s: State) {
    && Built(k) && R.Find(k.p, f.name) == Some(f)
    && Position(k.code, Function(f.name)) == Some(s.pc)
    && s.sp == Wrap(top) && top % 4 == 0 && R.FrameSize(f.frame) + room <= top <= TWO32
    && |ps| <= 8 && forall i :: 0 <= i < |ps| ==> s.a[i] == ps[i]
  }

  lemma FuncRun(k: Linked, f: R.Func, ps: seq<Word>, room: nat, fuel: nat, top: int, s: State) returns (s': State)
    requires FuncReady(k, f, ps, room, top, s) && RunBody(k.p, Compiled, f, ps, room, fuel).Some?
    ensures FuncDone(k, RunBody(k.p, Compiled, f, ps, room, fuel).value, top, s, s')
    decreases room, fuel, f.body, 2
  {
    hide Reaches, R.FrameSize, Position, Keep, HasLocals, InFrame, Exec, ExecAll, GoodProgram, GenFunc, StmtsCoded,
         Wrap, CodeAt;
    var pc, g, x := FuncAt(k, f);
    var fr := Frame(top, f.frame, s.ra, s.fp, ps);
    var b := FuncParts(k, f, g, x, fr, pc);
    GoodFuncFrame(k, f, fr);
    Stays(k.code, s);
    var s1 := Do(k.code, s, s, Lab(Function(f.name)));
    var s2 := Enter(k.code, s1, fr);
    Then(k.code, s, s1, s2);
    NoLocals(k, fr, room, s2);
    var s3 := StmtsRun(k, f.body, g, b, fr, map[], room, fuel, s2);
    Then(k.code, s, s2, s3);
    var out := ExecAll(k.p, Compiled, f.body, ps, map[], room, fuel).value;
    if out.Returned? {
      s' := s3;
    } else {
      KeepsFrame(s2, s3, fr, {});
      s' := Leave(k.code, s3, fr);
      Then(k.code, s, s3, s');
    }
    FuncMemory(s.mem, s2.mem, s3.mem, fr);
  }

  lemma FuncMemory(m: Memory, m2: Memory, m3: Memory, fr: Frame)
    requires Keep(m2, m3, fr, {}) && forall x :: x >= fr.fp ==> Read(m2, x) == Read(m, x)
    ensures forall x :: x >= fr.fp ==> Read(m3, x) == Read(m, x)
  {
  }

  // ----- statements -----

  ghost predicate StmtCoded(k: Linked, st: R.Stmt, g: Gen, x: StmtCode, fr: Frame, pc: nat) {
    && g.free == AllFree && GenStmt(FramesOf(k.p), fr.locals, st, g) == Some(x) && CodeAt(k.code, pc, x.code)
    && GoodStmt(FramesOf(k.p), fr.locals, |fr.ps|, st)
  }

  ghost predicate StmtsCoded(k: Linked, body: seq<R.Stmt>, g: Gen, x: StmtCode, fr: Frame, pc: nat) {
    && g.free == AllFree && GenStmts(FramesOf(k.p), fr.locals, body, g) == Some(x) && CodeAt(k.code, pc, x.code)
    && forall i :: 0 <= i < |body| ==> GoodStmt(FramesOf(k.p), fr.locals, |fr.ps|, body[i])
  }

  /** The run of n instructions of statement code: at its end with the locals of the outcome, or
      returned from the function. */
  ghost predicate StmtDone(k: Linked, n: int, out: Outcome, fr: Frame, s: State, s': State) {
    && Reaches(k.code, s, s') && Keep(s.mem, s'.mem, fr, {})
    && match out
       case Normal(ls) => s'.pc == s.pc + n && s'.sp == s.sp && s'.fp == s.fp && HasLocals(s'.mem, fr, ls)
       case Returned(v) => Left(s', fr) && (v.Some? ==> s'.a[0] == v.value)
  }

  lemma GoodFuncFrame(k: Linked, f: R.Func, fr: Frame)
    requires Built(k) && R.Find(k.p, f.name) == Some(f)
    ensures GoodFunc(FramesOf(k.p), f)
  {
    hide GoodFunc;
    var i :| 0 <= i < |k.p| && k.p[i] == f;
  }

  lemma FuncParts(k: Linked, f: R.Func, g: Gen, x: StmtCode, fr: Frame, pc: nat) returns (b: StmtCode)
    requires Built(k) && R.Find(k.p, f.name) == Some(f) && g.free == AllFree
    requires fr.locals == f.frame && |fr.ps| == f.params
    requires GenFunc(FramesOf(k.p), f, g) == Some(x) && CodeAt(k.code, pc, x.code)
    ensures pc < |k.code| && k.code[pc] == Lab(Function(f.name))
    ensures CodeAt(k.code, pc + 1, EnterCode(f.frame) + SaveArgs(0))
    ensures StmtsCoded(k, f.body, g, b, fr, pc + 5 + |SaveArgs(0)|)
    ensures f.isVoid ==> CodeAt(k.code, pc + 5 + |SaveArgs(0)| + |b.code|, LeaveCode(f.frame))
    ensures !f.isVoid ==>
            CodeAt(k.code, pc + 5 + |SaveArgs(0)| + |b.code|, [JalrRa]) && |x.code| == 6 + |SaveArgs(0)| + |b.code|
  {
    hide CodeAt, Built, SaveArgs, GenStmts, GoodStmt, R.FrameSize, FramesOf, R.Find, LeaveCode, RestoreCode;
    GoodFuncFrame(k, f, fr);
    b := GenStmts(FramesOf(k.p), f.frame, f.body, g).value;
    var enter := EnterCode(f.frame) + SaveArgs(0);
    CodeAtHead(k.code, pc, Lab(Function(f.name)), enter + (b.code + ExitCode(f)));
    CodeAtSplit(k.code, pc + 1, enter, b.code + ExitCode(f));
    CodeAtSplit(k.code, pc + 1 + |enter|, b.code, ExitCode(f));
  }

  lemma NoLocals(k: Linked, fr: Frame, room: nat, s: State)
    requires Built(k) && GoodFrame(fr) && InFrame(s, fr) && Size(fr) + room <= fr.fp
    ensures Ready(k, fr, {}, map[], room, s)
  {
  }

  lemma StmtsRun(k: Linked, body: seq<R.Stmt>, g: Gen, x: StmtCode, fr: Frame, ls: Locals, room: nat, fuel: nat,
                 s: State)
    returns (s': State)
    requires StmtsCoded(k, body, g, x, fr, s.pc) && Ready(k, fr, {}, ls, room, s)
    requires ExecAll(k.p, Compiled, body, fr.ps, ls, room, fuel).Some?
    ensures StmtDone(k, |x.code|, ExecAll(k.p, Compiled, body, fr.ps, ls, room, fuel).value, fr, s, s')
    decreases room, fuel, body, 0
  {
    hide Reaches, Ready, Keep, HasLocals, StmtCoded, StmtDone, CodeAt, Exec;
    if body == [] {
      s' := s;
      Stays(k.code, s);
      NothingDone(k, fr, {}, ls, room, s);
    } else {
      var y, ys := StmtsParts(k, body, g, x, fr, s.pc);
      var out := Exec(k.p, Compiled, body[0], fr.ps, ls, room, fuel).value;
      var s1 := StmtRun(k, body[0], g, y, fr, ls, room, fuel, s);
      if out.Normal? {
        NormalReady(k, |y.code|, out, fr, ls, room, s, s1);
        s' := StmtsRun(k, body[1..], y.g, ys, fr, out.locals, room, fuel, s1);
        DoneThen(k, |y.code|, out, |ys.code|, ExecAll(k.p, Compiled, body[1..], fr.ps, out.locals, room, fuel).value,
            fr, s, s1, s');
      } else {
        s' := s1;
        ReturnedAnyway(k, |y.code|, |x.code|, out, fr, s, s1);
      }
    }
  }

  lemma StmtsParts(k: Linked, body: seq<R.Stmt>, g: Gen, x: StmtCode, fr: Frame, pc: nat)
      returns (y: StmtCode, ys: StmtCode)
    requires body != [] && StmtsCoded(k, body, g, x, fr, pc)
    ensures StmtCoded(k, body[0], g, y, fr, pc) && StmtsCoded(k, body[1..], y.g, ys, fr, pc + |y.code|)
    ensures |x.code| == |y.code| + |ys.code|
  {
    hide CodeAt, GoodStmt, FramesOf;
    y := GenStmt(FramesOf(k.p), fr.locals, body[0], g).value;
    ys := GenStmts(FramesOf(k.p), fr.locals, body[1..], y.g).value;
    CodeAtSplit(k.code, pc, y.code, ys.code);
    BusySetOfStmt(FramesOf(k.p), fr.locals, body[0], g);
  }

  lemma NothingDone(k: Linked, fr: Frame, held: set<int>, ls: Locals, room: nat, s: State)
    requires Ready(k, fr, held, ls, room, s) && Reaches(k.code, s, s)
    ensures StmtDone(k, 0, Normal(ls), fr, s, s)
  {
    hide Reaches;
  }

  lemma NormalReady(k: Linked, n: int, out: Outcome, fr: Frame, ls: Locals, room: nat, s: State, s': State)
    requires Ready(k, fr, {}, ls, room, s) && StmtDone(k, n, out, fr, s, s') && out.Normal?
    ensures Ready(k, fr, {}, out.locals, room, s') && s'.pc == s.pc + n
  {
    hide Reaches, Built, Wrap, R.FrameSize;
  }

  lemma DoneThen(k: Linked, n: int, out: Outcome, m: int, out': Outcome, fr: Frame, s: State, s1: State, s2: State)
    requires StmtDone(k, n, out, fr, s, s1) && out.Normal? && StmtDone(k, m, out', fr, s1, s2)
    ensures StmtDone(k, n + m, out', fr, s, s2)
  {
    hide Reaches, HasLocals;
    Then(k.code, s, s1, s2);
  }

  /** A return does not depend on the length of the code around it. */
  lemma ReturnedAnyway(k: Linked, n: int, m: int, out: Outcome, fr: Frame, s: State, s': State)
    requires StmtDone(k, n, out, fr, s, s') && out.Returned?
    ensures StmtDone(k, m, out, fr, s, s')
  {
    hide Reaches;
  }

  lemma StmtRun(k: Linked, st: R.Stmt, g: Gen, x: StmtCode, fr: Frame, ls: Locals, room: nat, fuel: nat, s: State)
    returns (s': State)
    requires StmtCoded(k, st, g, x, fr, s.pc) && Ready(k, fr, {}, ls, room, s)
    requires Exec(k.p, Compiled, st, fr.ps, ls, room, fuel).Some?
    ensures StmtDone(k, |x.code|, Exec(k.p, Compiled, st, fr.ps, ls, room, fuel).value, fr, s, s')
    decreases room, fuel, st, 2
  {
    hide Reaches, Ready, Keep, HasLocals, StmtDone, CodeAt, StmtCoded;
    match st
    case Return(_) => s' := ReturnRun(k, st, g, x, fr, ls, room, fuel, s);
    case If(_, _, _) => s' := IfRun(k, st, g, x, fr, ls, room, fuel, s);
    case Block(body) =>
      BlockCoded(k, st, g, x, fr, s.pc);
      s' := StmtsRun(k, body, g, x, fr, ls, room, fuel, s);
    case VarDef(_, _) => s' := VarDefRun(k, st, g, x, fr, ls, room, fuel, s);
    case VarDec(sym) =>
      EmptyCode(k, st, g, x, fr, s.pc);
      ReadyForget(k, fr, ls, sym.offset, room, s);
      Stays(k.code, s);
      NothingDone(k, fr, {}, ls - {sym.offset}, room, s);
      s' := s;
    case Enum =>
      EmptyCode(k, st, g, x, fr, s.pc);
      Stays(k.code, s);
      NothingDone(k, fr, {}, ls, room, s);
      s' := s;
    case ExprStmt(e) =>
      EffectCoded(k, st, g, x, fr, s.pc);
      s' := EffectRun(k, e, g, x, fr, ls, room, fuel, s);
    case While(_, _) => s' := WhileRun(k, st, g, x, fr, ls, room, fuel, s);
    case For(_, _, _, _) => s' := ForRun(k, st, g, x, fr, ls, room, fuel, s);
  }

  lemma BlockCoded(k: Linked, st: R.Stmt, g: Gen, x: StmtCode, fr: Frame, pc: nat)
    requires st.Block? && StmtCoded(k, st, g, x, fr, pc)
    ensures StmtsCoded(k, st.body, g, x, fr, pc)
  {
  }

  lemma EmptyCode(k: Linked, st: R.Stmt, g: Gen, x: StmtCode, fr: Frame, pc: nat)
    requires (st.VarDec? || st.Enum?) && StmtCoded(k, st, g, x, fr, pc)
    ensures x.code == []
  {
  }

  lemma ReadyForget(k: Linked, fr: Frame, ls: Locals, o: nat, room: nat, s: State)
    requires Ready(k, fr, {}, ls, room, s)
    ensures Ready(k, fr, {}, ls - {o}, room, s)
  {
  }

  // ----- expressions in statements -----

  ghost predicate EffectOf(k: Linked, e: R.Expr, g: Gen, x: StmtCode, fr: Frame, pc: nat) {
    && g.free == AllFree && GenEffect(FramesOf(k.p), e, g) == Some(x) && CodeAt(k.code, pc, x.code)
    && Good(FramesOf(k.p), fr.locals, |fr.ps|, e)
  }

  lemma EffectCoded(k: Linked, st: R.Stmt, g: Gen, x: StmtCode, fr: Frame, pc: nat)
    requires st.ExprStmt? && StmtCoded(k, st, g, x, fr, pc)
    ensures EffectOf(k, st.e, g, x, fr, pc)
  {
  }

  lemma CodedInStmt(k: Linked, e: R.Expr, g: Gen, x: ExprCode, fr: Frame, pc: nat)
    requires g.free == AllFree && GenExpr(FramesOf(k.p), e, g) == Some(x) && CodeAt(k.code, pc, x.code)
    requires Good(FramesOf(k.p), fr.locals, |fr.ps|, e)
    ensures Coded(k, e, g, x, fr, {}, pc)
  {
    hide GenExpr, CodeAt;
    NoneBusy();
  }

  lemma EffectRun(k: Linked, e: R.Expr, g: Gen, x: StmtCode, fr: Frame, ls: Locals, room: nat, fuel: nat, s: State)
    returns (s': State)
    requires EffectOf(k, e, g, x, fr, s.pc) && Ready(k, fr, {}, ls, room, s)
    requires EvalEffect(k.p, Compiled, e, fr.ps, ls, room, fuel).Some?
    ensures StmtDone(k, |x.code|, EvalEffect(k.p, Compiled, e, fr.ps, ls, room, fuel).value, fr, s, s')
    decreases room, fuel, e, 3
  {
    hide Reaches, Ready, Keep, HasLocals, StmtDone, CodeAt, Coded, Done, GenExpr, Good, Eval, RunBody, EvalArgs;
    if e.Empty? {
      Stays(k.code, s);
      NothingDone(k, fr, {}, ls, room, s);
      s' := s;
    } else {
      var y := GenExpr(FramesOf(k.p), e, g).value;
      CodedInStmt(k, e, g, y, fr, s.pc);
      if e.Call? {
        s' := AnyCallRun(k, e, g, y, fr, {}, ls, room, fuel, s);
        var v := CallMeaning(k, e, fr, ls, room, fuel).value;
        EffectDone(k, e, g, y, fr, AsValue(v), v.locals, s, s');
      } else {
        s' := ExprRun(k, e, g, y, fr, {}, ls, room, fuel, s);
        var v := Meaning(k, e, fr, ls, room, fuel);
        DoneLocals(k, e, g, y, fr, v, s, s');
        EffectDone(k, e, g, y, fr, v, v.value.locals, s, s');
      }
    }
  }

  lemma DoneLocals(k: Linked, e: R.Expr, g: Gen, x: ExprCode, fr: Frame, v: Option<Evaluated>, s: State, s': State)
    requires Done(k, e, g, x, fr, {}, v, s, s') && v.Some?
    ensures HasLocals(s'.mem, fr, v.value.locals) && s'.t[x.reg] == v.value.value && s'.pc == s.pc + |x.code|
    ensures Reaches(k.code, s, s') && Keep(s.mem, s'.mem, fr, {}) && s'.sp == s.sp && s'.fp == s.fp
  {
  }

  lemma EffectDone(k: Linked, e: R.Expr, g: Gen, x: ExprCode, fr: Frame, v: Option<Evaluated>, ls: Locals, s: State,
                   s': State)
    requires Done(k, e, g, x, fr, {}, v, s, s') && HasLocals(s'.mem, fr, ls)
    ensures StmtDone(k, |x.code|, Normal(ls), fr, s, s')
  {
    hide Reaches;
  }

  lemma ReturnRun(k: Linked, st: R.Stmt, g: Gen, x: StmtCode, fr: Frame, ls: Locals, room: nat, fuel: nat, s: State)
    returns (s': State)
    requires StmtCoded(k, st, g, x, fr, s.pc) && Ready(k, fr, {}, ls, room, s) && st.Return?
    requires Exec(k.p, Compiled, st, fr.ps, ls, room, fuel).Some?
    ensures StmtDone(k, |x.code|, Exec(k.p, Compiled, st, fr.ps, ls, room, fuel).value, fr, s, s')
    decreases room, fuel, st, 1
  {
    hide Reaches, Keep, HasLocals, CodeAt, Coded, Done, GenExpr, Good, Eval, RunBody, EvalArgs, Ready, LeaveCode,
         FramesOf, InFrame, GoodFrame;
    if st.e.Empty? {
      ReadySpilled(k, fr, {}, ls, room, s);
      ReadyUnique(k, fr, {}, ls, room, s);
      s' := Leave(k.code, s, fr);
      KeepsSame(s.mem, fr);
    } else {
      var y := ReturnParts(k, st, g, x, fr, s.pc);
      var v := Meaning(k, st.e, fr, ls, room, fuel);
      var s1 := ExprRun(k, st.e, g, y, fr, {}, ls, room, fuel, s);
      DoneLocals(k, st.e, g, y, fr, v, s, s1);
      ReadyAfter(k, st.e, g, y, fr, {}, ls, room, fuel, s, s1);
      s' := ReturnEnd(k, fr, v.value.locals, room, y.reg, s, s1);
    }
  }

  lemma ReturnEnd(k: Linked, fr: Frame, ls: Locals, room: nat, r: TIndex, s: State, s1: State) returns (s': State)
    requires Ready(k, fr, {}, ls, room, s1) && Reaches(k.code, s, s1) && Keep(s.mem, s1.mem, fr, {})
    requires s1.pc < |k.code| && k.code[s1.pc] == Mv(A(0), T(r)) && CodeAt(k.code, s1.pc + 1, LeaveCode(fr.locals))
    ensures Reaches(k.code, s, s') && Left(s', fr) && Keep(s.mem, s'.mem, fr, {}) && s'.a[0] == s1.t[r]
  {
    hide Reaches, Keep, HasLocals, CodeAt, LeaveCode, Ready, InFrame, GoodFrame, Wrap, R.FrameSize, Built, Spilled,
         Unsigned;
    var s2 := Do(k.code, s, s1, Mv(A(0), T(r)));
    ReadySame(k, fr, {}, ls, room, s1, s2);
    ReadySpilled(k, fr, {}, ls, room, s2);
    ReadyUnique(k, fr, {}, ls, room, s2);
    s' := Leave(k.code, s2, fr);
    Then(k.code, s, s2, s');
  }

  lemma KeepsSame(m: Memory, fr: Frame)
    ensures Keep(m, m, fr, {})
  {
  }

  lemma ReturnParts(k: Linked, st: R.Stmt, g: Gen, x: StmtCode, fr: Frame, pc: nat) returns (y: ExprCode)
    requires st.Return? && !st.e.Empty? && StmtCoded(k, st, g, x, fr, pc)
    ensures Coded(k, st.e, g, y, fr, {}, pc)
    ensures pc + |y.code| < |k.code| && k.code[pc + |y.code|] == Mv(A(0), T(y.reg))
    ensures CodeAt(k.code, pc + |y.code| + 1, LeaveCode(fr.locals))
  {
    hide CodeAt, LeaveCode, FramesOf, Good;
    y := GenExpr(FramesOf(k.p), st.e, g).value;
    assert x.code == y.code + ([Mv(A(0), T(y.reg))] + LeaveCode(fr.locals));
    CodeAtSplit(k.code, pc, y.code, [Mv(A(0), T(y.reg))] + LeaveCode(fr.locals));
    CodeAtHead(k.code, pc + |y.code|, Mv(A(0), T(y.reg)), LeaveCode(fr.locals));
    CodedInStmt(k, st.e, g, y, fr, pc);
  }

  lemma VarDefRun(k: Linked, st: R.Stmt, g: Gen, x: StmtCode, fr: Frame, ls: Locals, room: nat, fuel: nat, s: State)
    returns (s': State)
    requires StmtCoded(k, st, g, x, fr, s.pc) && Ready(k, fr, {}, ls, room, s) && st.VarDef?
    requires Exec(k.p, Compiled, st, fr.ps, ls, room, fuel).Some?
    ensures StmtDone(k, |x.code|, Exec(k.p, Compiled, st, fr.ps, ls, room, fuel).value, fr, s, s')
    decreases room, fuel, st, 1
  {
    hide Reaches, Keep, HasLocals, CodeAt, Coded, Done, GenExpr, Good, Eval, RunBody, EvalArgs, Ready, FramesOf,
         StmtCoded, Effect, R.FrameSize, Wrap, InFrame;
    var y := VarDefParts(k, st, g, x, fr, s.pc);
    var o := st.sym.offset;
    var v := Meaning(k, st.e, fr, ls, room, fuel);
    var s1 := ExprRun(k, st.e, g, y, fr, {}, ls, room, fuel, s);
    DoneLocals(k, st.e, g, y, fr, v, s, s1);
    ReadyAfter(k, st.e, g, y, fr, {}, ls, room, fuel, s, s1);
    s' := VarDefEnd(k, fr, v.value, room, y.reg, o, s, s1);
  }

  lemma VarDefEnd(k: Linked, fr: Frame, v: Evaluated, room: nat, r: TIndex, o: nat, s: State, s1: State)
      returns (s': State)
    requires Ready(k, fr, {}, v.locals, room, s1) && Reaches(k.code, s, s1) && Keep(s.mem, s1.mem, fr, {}) &&
             GoodSlot(fr.locals, o)
    requires s1.pc < |k.code| && k.code[s1.pc] == Sw(T(r), -R.LocalSlot(o), Fp) && s1.t[r] == v.value
    ensures Reaches(k.code, s, s') && Keep(s.mem, s'.mem, fr, {}) && HasLocals(s'.mem, fr, v.locals[o := v.value])
    ensures s'.pc == s1.pc + 1 && s'.sp == s1.sp && s'.fp == s1.fp
  {
    hide Reaches, Keep, HasLocals, Ready, Effect, R.FrameSize, Wrap, InFrame, Built, Position, EffAddr;
    ReadyUnique(k, fr, {}, v.locals, room, s1);
    StoreFp(s1, fr, T(r), R.LocalSlot(o));
    s' := Do(k.code, s, s1, Sw(T(r), -R.LocalSlot(o), Fp));
    ReadySpilled(k, fr, {}, v.locals, room, s1);
    LocalStored(s1.mem, fr, v.locals, o, v.value, {});
    KeepBoth(s.mem, s1.mem, s'.mem, fr, {});
  }

  lemma VarDefParts(k: Linked, st: R.Stmt, g: Gen, x: StmtCode, fr: Frame, pc: nat) returns (y: ExprCode)
    requires st.VarDef? && StmtCoded(k, st, g, x, fr, pc)
    ensures Coded(k, st.e, g, y, fr, {}, pc) && GoodSlot(fr.locals, st.sym.offset) && |x.code| == |y.code| + 1
    ensures pc + |y.code| < |k.code| && k.code[pc + |y.code|] == Sw(T(y.reg), -R.LocalSlot(st.sym.offset), Fp)
  {
    hide CodeAt, FramesOf, Good;
    y := GenExpr(FramesOf(k.p), st.e, g).value;
    var store := Sw(T(y.reg), -R.LocalSlot(st.sym.offset), Fp);
    CodeAtSplit(k.code, pc, y.code, [store]);
    CodeAtOne(k.code, pc + |y.code|, store);
    CodedInStmt(k, st.e, g, y, fr, pc);
  }

  // ----- labels, jumps and tests -----

  lemma LabelRun(k: Linked, l: Label, fr: Frame, ls: Locals, room: nat, s: State) returns (s': State)
    requires Ready(k, fr, {}, ls, room, s) && s.pc < |k.code| && k.code[s.pc] == Lab(l)
    ensures StmtDone(k, 1, Normal(ls), fr, s, s') && Ready(k, fr, {}, ls, room, s') && s'.pc == s.pc + 1
  {
    hide Reaches, Ready, StmtDone;
    Stays(k.code, s);
    s' := Do(k.code, s, s, Lab(l));
    OnlyMoved(k, 1, fr, ls, room, s, s');
  }

  /** A run that changes nothing but the program counter. */
  lemma OnlyMoved(k: Linked, n: int, fr: Frame, ls: Locals, room: nat, s: State, s': State)
    requires Ready(k, fr, {}, ls, room, s) && Reaches(k.code, s, s') && s'.pc == s.pc + n && s' == s.(pc := s'.pc)
    ensures StmtDone(k, n, Normal(ls), fr, s, s') && Ready(k, fr, {}, ls, room, s')
  {
    hide Reaches, Built, InFrame, HasLocals, Wrap, R.FrameSize;
    assert InFrame(s', fr) by { SameFrame(s, s', fr); }
  }

  lemma SameFrame(s: State, s': State, fr: Frame)
    requires InFrame(s, fr) && s'.sp == s.sp && s'.fp == s.fp && s'.mem == s.mem
    ensures InFrame(s', fr)
  {
  }

  lemma JumpRun(k: Linked, l: Label, target: nat, fr: Frame, ls: Locals, room: nat, s: State) returns (s': State)
    requires Ready(k, fr, {}, ls, room, s) && s.pc < |k.code| && k.code[s.pc] == J(l)
    requires target < |k.code| && k.code[target] == Lab(l)
    ensures StmtDone(k, target - s.pc, Normal(ls), fr, s, s') && Ready(k, fr, {}, ls, room, s') && s'.pc == target
  {
    hide Reaches, Position, Ready, StmtDone;
    Stays(k.code, s);
    ReadyUnique(k, fr, {}, ls, room, s);
    PositionOfUnique(k.code, target);
    s' := DoJump(k.code, s, s, l, target);
    OnlyMoved(k, target - s.pc, fr, ls, room, s, s');
  }

  /** Evaluating a condition and branching to the target if it is zero. */
  lemma TestRun(k: Linked, e: R.Expr, g: Gen, y: ExprCode, fr: Frame, ls: Locals, room: nat, fuel: nat, l: Label,
                target: nat, s: State)
    returns (s': State)
    requires Coded(k, e, g, y, fr, {}, s.pc) && Ready(k, fr, {}, ls, room, s) && Meaning(k, e, fr, ls, room, fuel).Some?
    requires s.pc + |y.code| < |k.code| && k.code[s.pc + |y.code|] == Beq(T(y.reg), Zero, l)
    requires target < |k.code| && k.code[target] == Lab(l)
    ensures var v := Meaning(k, e, fr, ls, room, fuel).value;
            && s'.pc == (if v.value == 0 then target else s.pc + |y.code| + 1)
            && StmtDone(k, s'.pc - s.pc, Normal(v.locals), fr, s, s')
            && Ready(k, fr, {}, v.locals, room, s')
    decreases room, fuel, e, 3
  {
    hide Reaches, Position, Ready, Coded, Done, Meaning, Keep, HasLocals;
    var v := Meaning(k, e, fr, ls, room, fuel);
    var s1 := ExprRun(k, e, g, y, fr, {}, ls, room, fuel, s);
    DoneLocals(k, e, g, y, fr, v, s, s1);
    ReadyAfter(k, e, g, y, fr, {}, ls, room, fuel, s, s1);
    ReadyUnique(k, fr, {}, v.value.locals, room, s1);
    if v.value.value == 0 {
      PositionOfUnique(k.code, target);
      s' := DoJump(k.code, s, s1, l, target);
    } else {
      s' := DoNotBranch(k.code, s, s1);
    }
    ReadySame(k, fr, {}, v.value.locals, room, s1, s');
  }

  // ----- if -----

  lemma IfParts(k: Linked, st: R.Stmt, g: Gen, x: StmtCode, fr: Frame, pc: nat)
    returns (g1: Gen, y: ExprCode, t: StmtCode, e: StmtCode)
    requires st.If? && StmtCoded(k, st, g, x, fr, pc)
    ensures var l := Generated(ElseLabel, g.counts.elses, Bare);
            && pc < |k.code| && k.code[pc] == Lab(Generated(IfLabel, g.counts.ifs, Bare))
            && Coded(k, st.cond, g1, y, fr, {}, pc + 1)
            && pc + 1 + |y.code| < |k.code| && k.code[pc + 1 + |y.code|] == Beq(T(y.reg), Zero, l)
            && StmtCoded(k, st.thn, Release(y.g, y.reg), t, fr, pc + 2 + |y.code|)
            && pc + 2 + |y.code| + |t.code| < |k.code| && k.code[pc + 2 + |y.code| + |t.code|] == Lab(l)
            && |x.code| == 3 + |y.code| + |t.code| + |e.code|
            && if st.els.Some? then StmtCoded(k, st.els.value, t.g, e, fr, pc + 3 + |y.code| + |t.code|)
                else e.code == []
  {
    hide CodeAt, FramesOf, Good, GenExpr, GenStmts, GenEffect, GenTest;
    g1 := g.(counts := g.counts.(ifs := g.counts.ifs + 1, elses := g.counts.elses + 1));
    y := GenExpr(FramesOf(k.p), st.cond, g1).value;
    BusySetReleased(FramesOf(k.p), st.cond, g1);
    t := GenStmt(FramesOf(k.p), fr.locals, st.thn, Release(y.g, y.reg)).value;
    BusySetOfStmt(FramesOf(k.p), fr.locals, st.thn, Release(y.g, y.reg));
    e := GenElse(FramesOf(k.p), fr.locals, st.els, t.g).value;
    IfLayout(k.code, pc, g.counts.ifs, g.counts.elses, y.reg, y.code, t.code, e.code);
    CodedInStmt(k, st.cond, g1, y, fr, pc + 1);
  }

  lemma IfLayout(code: Listing, pc: nat, n: nat, m: nat, r: TIndex, x: seq<Instr>, t: seq<Instr>, e: seq<Instr>)
    requires CodeAt(code, pc, IfCode(n, m, r, x, t, e))
    ensures pc < |code| && code[pc] == Lab(Generated(IfLabel, n, Bare)) && CodeAt(code, pc + 1, x)
    ensures pc + 1 + |x| < |code| && code[pc + 1 + |x|] == Beq(T(r), Zero, Generated(ElseLabel, m, Bare))
    ensures CodeAt(code, pc + 2 + |x|, t)
    ensures pc + 2 + |x| + |t| < |code| && code[pc + 2 + |x| + |t|] == Lab(Generated(ElseLabel, m, Bare))
    ensures CodeAt(code, pc + 3 + |x| + |t|, e)
  {
    hide CodeAt;
    var l := Generated(ElseLabel, m, Bare);
    var rest := t + ([Lab(l)] + e);
    assert IfCode(n, m, r, x, t, e) == [Lab(Generated(IfLabel, n, Bare))] + (x + ([Beq(T(r), Zero, l)] + rest));
    CodeAtHead(code, pc, Lab(Generated(IfLabel, n, Bare)), x + ([Beq(T(r), Zero, l)] + rest));
    CodeAtSplit(code, pc + 1, x, [Beq(T(r), Zero, l)] + rest);
    CodeAtHead(code, pc + 1 + |x|, Beq(T(r), Zero, l), rest);
    CodeAtSplit(code, pc + 2 + |x|, t, [Lab(l)] + e);
    CodeAtHead(code, pc + 2 + |x| + |t|, Lab(l), e);
  }

  lemma IfRun(k: Linked, st: R.Stmt, g: Gen, x: StmtCode, fr: Frame, ls: Locals, room: nat, fuel: nat, s: State)
    returns (s': State)
    requires StmtCoded(k, st, g, x, fr, s.pc) && Ready(k, fr, {}, ls, room, s) && st.If?
    requires Exec(k.p, Compiled, st, fr.ps, ls, room, fuel).Some?
    ensures StmtDone(k, |x.code|, Exec(k.p, Compiled, st, fr.ps, ls, room, fuel).value, fr, s, s')
    decreases room, fuel, st, 1
  {
    hide Reaches, Ready, Coded, StmtCoded, StmtDone, Done;
    var g1, y, t, e := IfParts(k, st, g, x, fr, s.pc);
    var l, target := Generated(ElseLabel, g.counts.elses, Bare), s.pc + 2 + |y.code| + |t.code|;
    var s1 := LabelRun(k, Generated(IfLabel, g.counts.ifs, Bare), fr, ls, room, s);
    var v := Meaning(k, st.cond, fr, ls, room, fuel).value;
    var s2 := TestRun(k, st.cond, g1, y, fr, ls, room, fuel, l, target, s1);
    DoneThen(k, 1, Normal(ls), s2.pc - s1.pc, Normal(v.locals), fr, s, s1, s2);
    if v.value == 0 {
      s' := ElseRun(k, st, t.g, e, l, fr, v.locals, room, fuel, s2);
      var out := Exec(k.p, Compiled, st, fr.ps, ls, room, fuel).value;
      DoneThen(k, s2.pc - s.pc, Normal(v.locals), 1 + |e.code|, out, fr, s, s2, s');
    } else {
      var out1 := Exec(k.p, Compiled, st.thn, fr.ps, v.locals, room, fuel).value;
      var s3 := StmtRun(k, st.thn, Release(y.g, y.reg), t, fr, v.locals, room, fuel, s2);
      DoneThen(k, s2.pc - s.pc, Normal(v.locals), |t.code|, out1, fr, s, s2, s3);
      if out1.Returned? {
        s' := s3;
        ReturnedAnyway(k, s2.pc - s.pc + |t.code|, |x.code|, out1, fr, s, s3);
      } else {
        NormalReady(k, |t.code|, out1, fr, v.locals, room, s2, s3);
        s' := ElseRun(k, st, t.g, e, l, fr, out1.locals, room, fuel, s3);
        var out := Exec(k.p, Compiled, st, fr.ps, ls, room, fuel).value;
        DoneThen(k, s3.pc - s.pc, out1, 1 + |e.code|, out, fr, s, s3, s');
      }
    }
  }

  /** From the else label: the else-branch runs, however the label was reached. */
  lemma ElseRun(k: Linked, st: R.Stmt, g: Gen, e: StmtCode, l: Label, fr: Frame, ls: Locals, room: nat, fuel: nat,
                s: State)
    returns (s': State)
    requires st.If? && Ready(k, fr, {}, ls, room, s) && s.pc < |k.code| && k.code[s.pc] == Lab(l)
    requires if st.els.Some? then StmtCoded(k, st.els.value, g, e, fr, s.pc + 1) else e.code == []
    requires st.els.Some? ==> Exec(k.p, Compiled, st.els.value, fr.ps, ls, room, fuel).Some?
    ensures StmtDone(k, 1 + |e.code|, if st.els.None? then Normal(ls)
            else Exec(k.p, Compiled, st.els.value, fr.ps, ls, room, fuel).value, fr, s, s')
    decreases room, fuel, st, 0
  {
    hide Reaches, Ready, StmtCoded, StmtDone, Exec;
    s' := LabelRun(k, l, fr, ls, room, s);
    if st.els.Some? {
      var s1 := s';
      s' := StmtRun(k, st.els.value, g, e, fr, ls, room, fuel, s1);
      DoneThen(k, 1, Normal(ls), |e.code|, Exec(k.p, Compiled, st.els.value, fr.ps, ls, room, fuel).value, fr, s, s1,
          s');
    }
  }

  // ----- while -----

  lemma WhileParts(k: Linked, st: R.Stmt, g: Gen, x: StmtCode, fr: Frame, pc: nat)
      returns (g1: Gen, y: ExprCode, b: StmtCode)
    requires st.While? && StmtCoded(k, st, g, x, fr, pc)
    ensures var start, end := Generated(WhileLabel, g.counts.whiles, StartPart),
            Generated(WhileLabel, g.counts.whiles, EndPart);
            var m := pc + 2 + |y.code| + |b.code|;
            && pc < |k.code| && k.code[pc] == Lab(start) && Coded(k, st.cond, g1, y, fr, {}, pc + 1)
            && pc + 1 + |y.code| < |k.code| && k.code[pc + 1 + |y.code|] == Beq(T(y.reg), Zero, end)
            && StmtCoded(k, st.loop, Release(y.g, y.reg), b, fr, pc + 2 + |y.code|)
            && m + 1 < |k.code| && k.code[m] == J(start) && k.code[m + 1] == Lab(end)
            && |x.code| == 4 + |y.code| + |b.code|
  {
    hide CodeAt, FramesOf, Good, GenExpr, GenStmts, GenEffect, GenTest;
    g1 := g.(counts := g.counts.(whiles := g.counts.whiles + 1));
    y := GenExpr(FramesOf(k.p), st.cond, g1).value;
    BusySetReleased(FramesOf(k.p), st.cond, g1);
    b := GenStmt(FramesOf(k.p), fr.locals, st.loop, Release(y.g, y.reg)).value;
    WhileLayout(k.code, pc, g.counts.whiles, y.reg, y.code, b.code);
    CodedInStmt(k, st.cond, g1, y, fr, pc + 1);
  }

  lemma WhileLayout(code: Listing, pc: nat, n: nat, r: TIndex, x: seq<Instr>, b: seq<Instr>)
    requires CodeAt(code, pc, WhileCode(n, r, x, b))
    ensures var start, end, m := Generated(WhileLabel, n, StartPart), Generated(WhileLabel, n, EndPart),
            pc + 2 + |x| + |b|;
            && pc < |code| && code[pc] == Lab(start) && CodeAt(code, pc + 1, x)
            && pc + 1 + |x| < |code| && code[pc + 1 + |x|] == Beq(T(r), Zero, end) && CodeAt(code, pc + 2 + |x|, b)
            && m + 1 < |code| && code[m] == J(start) && code[m + 1] == Lab(end)
  {
    hide CodeAt;
    var start, end := Generated(WhileLabel, n, StartPart), Generated(WhileLabel, n, EndPart);
    var rest := b + ([J(start)] + [Lab(end)]);
    assert WhileCode(n, r, x, b) == [Lab(start)] + (x + ([Beq(T(r), Zero, end)] + rest));
    CodeAtHead(code, pc, Lab(start), x + ([Beq(T(r), Zero, end)] + rest));
    CodeAtSplit(code, pc + 1, x, [Beq(T(r), Zero, end)] + rest);
    CodeAtHead(code, pc + 1 + |x|, Beq(T(r), Zero, end), rest);
    CodeAtSplit(code, pc + 2 + |x|, b, [J(start)] + [Lab(end)]);
    CodeAtHead(code, pc + 2 + |x| + |b|, J(start), [Lab(end)]);
    CodeAtOne(code, pc + 3 + |x| + |b|, Lab(end));
  }

  lemma WhileRun(k: Linked, st: R.Stmt, g: Gen, x: StmtCode, fr: Frame, ls: Locals, room: nat, fuel: nat, s: State)
    returns (s': State)
    requires StmtCoded(k, st, g, x, fr, s.pc) && Ready(k, fr, {}, ls, room, s) && st.While?
    requires Exec(k.p, Compiled, st, fr.ps, ls, room, fuel).Some?
    ensures StmtDone(k, |x.code|, Exec(k.p, Compiled, st, fr.ps, ls, room, fuel).value, fr, s, s')
    decreases room, fuel, st, 1
  {
    hide Reaches, Ready, Coded, StmtCoded, StmtDone, Done;
    var g1, y, b := WhileParts(k, st, g, x, fr, s.pc);
    var start, end := Generated(WhileLabel, g.counts.whiles, StartPart),
        Generated(WhileLabel, g.counts.whiles, EndPart);
    var m := s.pc + 2 + |y.code| + |b.code|;
    var s1 := LabelRun(k, start, fr, ls, room, s);
    var v := Meaning(k, st.cond, fr, ls, room, fuel).value;
    var s2 := TestRun(k, st.cond, g1, y, fr, ls, room, fuel, end, m + 1, s1);
    DoneThen(k, 1, Normal(ls), s2.pc - s1.pc, Normal(v.locals), fr, s, s1, s2);
    if v.value == 0 {
      s' := LabelRun(k, end, fr, v.locals, room, s2);
      DoneThen(k, s2.pc - s.pc, Normal(v.locals), 1, Normal(v.locals), fr, s, s2, s');
    } else {
      var out := Exec(k.p, Compiled, st.loop, fr.ps, v.locals, room, fuel).value;
      var s3 := StmtRun(k, st.loop, Release(y.g, y.reg), b, fr, v.locals, room, fuel, s2);
      DoneThen(k, s2.pc - s.pc, Normal(v.locals), |b.code|, out, fr, s, s2, s3);
      if out.Returned? {
        s' := s3;
        ReturnedAnyway(k, s2.pc - s.pc + |b.code|, |x.code|, out, fr, s, s3);
      } else {
        NormalReady(k, |b.code|, out, fr, v.locals, room, s2, s3);
        var s4 := JumpRun(k, start, s.pc, fr, out.locals, room, s3);
        DoneThen(k, m - s.pc, out, s.pc - m, out, fr, s, s3, s4);
        s' := WhileRun(k, st, g, x, fr, out.locals, room, fuel - 1, s4);
        DoneThen(k, 0, out, |x.code|, Exec(k.p, Compiled, st, fr.ps, out.locals, room, fuel - 1).value, fr, s, s4, s');
      }
    }
  }

  // ----- for -----

  /** The parts of a `for` from its condition label, which is at pc. */
  datatype ForPlan = ForPlan(n: nat, gx: Gen, x: StmtCode, b: StmtCode, step: StmtCode)

  ghost predicate Looping(k: Linked, st: R.Stmt, fr: Frame, pc: nat, c: ForPlan)
    requires st.For?
  {
    var cond, end := Generated(ForLabel, c.n, CondPart), Generated(ForLabel, c.n, EndPart);
    var body, step, jump := pc + 1 + |c.x.code|, pc + 2 + |c.x.code| + |c.b.code|,
        pc + 3 + |c.x.code| + |c.b.code| + |c.step.code|;
    && pc < |k.code| && k.code[pc] == Lab(cond)
    && c.gx.free == AllFree && GenTest(FramesOf(k.p), st.cond, end, c.gx) == Some(c.x) &&
        CodeAt(k.code, pc + 1, c.x.code)
    && Good(FramesOf(k.p), fr.locals, |fr.ps|, st.cond)
    && body < |k.code| && k.code[body] == Lab(Generated(ForLabel, c.n, BodyPart))
    && StmtCoded(k, st.loop, c.x.g, c.b, fr, body + 1)
    && step < |k.code| && k.code[step] == Lab(Generated(ForLabel, c.n, StepPart))
    && EffectOf(k, st.step, c.b.g, c.step, fr, step + 1)
    && jump + 1 < |k.code| && k.code[jump] == J(cond) && k.code[jump + 1] == Lab(end)
  }

  lemma ForParts(k: Linked, st: R.Stmt, g: Gen, x: StmtCode, fr: Frame, pc: nat)
      returns (gi: Gen, i: StmtCode, c: ForPlan)
    requires st.For? && StmtCoded(k, st, g, x, fr, pc)
    ensures pc < |k.code| && k.code[pc] == Lab(Generated(ForLabel, g.counts.fors, InitPart))
    ensures StmtCoded(k, st.init, gi, i, fr, pc + 1) && Looping(k, st, fr, pc + 1 + |i.code|, c)
    ensures |x.code| == 6 + |i.code| + |c.x.code| + |c.b.code| + |c.step.code|
  {
    hide CodeAt, FramesOf, Good, GenExpr, GenStmts, LeaveCode, IfCode, WhileCode, R.FrameSize;
    var n := g.counts.fors;
    var end := Generated(ForLabel, n, EndPart);
    gi := g.(counts := g.counts.(fors := n + 1));
    i := GenStmt(FramesOf(k.p), fr.locals, st.init, gi).value;
    BusySetOfStmt(FramesOf(k.p), fr.locals, st.init, gi);
    var y := GenTest(FramesOf(k.p), st.cond, end, i.g).value;
    BusySetReleased(FramesOf(k.p), st.cond, i.g);
    var b := GenStmt(FramesOf(k.p), fr.locals, st.loop, y.g).value;
    BusySetOfStmt(FramesOf(k.p), fr.locals, st.loop, y.g);
    var step := GenEffect(FramesOf(k.p), st.step, b.g).value;
    ForLayout(k.code, pc, n, i.code, y.code, b.code, step.code);
    c := ForPlan(n, i.g, y, b, step);
  }

  lemma ForLayout(code: Listing, pc: nat, n: nat, i: seq<Instr>, x: seq<Instr>, b: seq<Instr>, k: seq<Instr>)
    requires CodeAt(code, pc, ForCode(n, i, x, b, k))
    ensures pc < |code| && code[pc] == Lab(Generated(ForLabel, n, InitPart)) && CodeAt(code, pc + 1, i)
    ensures var c := pc + 1 + |i|;
            c < |code| && code[c] == Lab(Generated(ForLabel, n, CondPart)) && CodeAt(code, c + 1, x)
    ensures var c := pc + 2 + |i| + |x|;
            c < |code| && code[c] == Lab(Generated(ForLabel, n, BodyPart)) && CodeAt(code, c + 1, b)
    ensures var c := pc + 3 + |i| + |x| + |b|;
            c < |code| && code[c] == Lab(Generated(ForLabel, n, StepPart)) && CodeAt(code, c + 1, k)
    ensures var c := pc + 4 + |i| + |x| + |b| + |k|;
            c + 1 < |code| && code[c] == J(Generated(ForLabel, n, CondPart)) &&
                code[c + 1] == Lab(Generated(ForLabel, n, EndPart))
  {
    hide CodeAt;
    var c0, c1, c2 := Lab(Generated(ForLabel, n, InitPart)), Lab(Generated(ForLabel, n, CondPart)),
        Lab(Generated(ForLabel, n, BodyPart));
    var c3, c4, c5 := Lab(Generated(ForLabel, n, StepPart)), J(Generated(ForLabel, n, CondPart)),
        Lab(Generated(ForLabel, n, EndPart));
    var r4 := k + ([c4] + [c5]);
    var r3 := b + ([c3] + r4);
    var r2 := x + ([c2] + r3);
    var r1 := i + ([c1] + r2);
    assert ForCode(n, i, x, b, k) == [c0] + r1;
    CodeAtHead(code, pc, c0, r1);
    CodeAtSplit(code, pc + 1, i, [c1] + r2);
    CodeAtHead(code, pc + 1 + |i|, c1, r2);
    CodeAtSplit(code, pc + 2 + |i|, x, [c2] + r3);
    CodeAtHead(code, pc + 2 + |i| + |x|, c2, r3);
    CodeAtSplit(code, pc + 3 + |i| + |x|, b, [c3] + r4);
    CodeAtHead(code, pc + 3 + |i| + |x| + |b|, c3, r4);
    CodeAtSplit(code, pc + 4 + |i| + |x| + |b|, k, [c4] + [c5]);
    CodeAtHead(code, pc + 4 + |i| + |x| + |b| + |k|, c4, [c5]);
    CodeAtOne(code, pc + 5 + |i| + |x| + |b| + |k|, c5);
  }

  lemma ForRun(k: Linked, st: R.Stmt, g: Gen, x: StmtCode, fr: Frame, ls: Locals, room: nat, fuel: nat, s: State)
    returns (s': State)
    requires StmtCoded(k, st, g, x, fr, s.pc) && Ready(k, fr, {}, ls, room, s) && st.For?
    requires Exec(k.p, Compiled, st, fr.ps, ls, room, fuel).Some?
    ensures StmtDone(k, |x.code|, Exec(k.p, Compiled, st, fr.ps, ls, room, fuel).value, fr, s, s')
    decreases room, fuel, st, 1
  {
    hide Reaches, Ready, StmtCoded, StmtDone, Looping, ExecFor;
    var gi, i, c := ForParts(k, st, g, x, fr, s.pc);
    var s1 := LabelRun(k, Generated(ForLabel, g.counts.fors, InitPart), fr, ls, room, s);
    var out := Exec(k.p, Compiled, st.init, fr.ps, ls, room, fuel).value;
    var s2 := StmtRun(k, st.init, gi, i, fr, ls, room, fuel, s1);
    DoneThen(k, 1, Normal(ls), |i.code|, out, fr, s, s1, s2);
    if out.Returned? {
      s' := s2;
      ReturnedAnyway(k, 1 + |i.code|, |x.code|, out, fr, s, s2);
    } else {
      NormalReady(k, |i.code|, out, fr, ls, room, s1, s2);
      s' := ForLoopRun(k, st, c, fr, out.locals, room, fuel, s2);
      var n := 5 + |c.x.code| + |c.b.code| + |c.step.code|;
      DoneThen(k, 1 + |i.code|, out, n, ExecFor(k.p, Compiled, st, fr.ps, out.locals, room, fuel).value, fr, s, s2, s');
    }
  }

  lemma ForTestRun(k: Linked, st: R.Stmt, c: ForPlan, fr: Frame, ls: Locals, room: nat, fuel: nat, s: State)
      returns (s': State, v: Evaluated)
    requires st.For? && s.pc > 0 && Looping(k, st, fr, s.pc - 1, c) && Ready(k, fr, {}, ls, room, s)
    requires st.cond.Empty? || Meaning(k, st.cond, fr, ls, room, fuel).Some?
    ensures v == if st.cond.Empty? then Evaluated(1, ls) else Meaning(k, st.cond, fr, ls, room, fuel).value
    ensures s'.pc == s.pc + |c.x.code| + if v.value == 0 then 3 + |c.b.code| + |c.step.code| else 0
    ensures StmtDone(k, s'.pc - s.pc, Normal(v.locals), fr, s, s') && Ready(k, fr, {}, v.locals, room, s')
    decreases room, fuel, st.cond, 4
  {
    hide Reaches, Ready, StmtCoded, StmtDone, Meaning, EffectOf, GenExpr, CodeAt, Good;
    var end := Generated(ForLabel, c.n, EndPart);
    if st.cond.Empty? {
      Stays(k.code, s);
      NothingDone(k, fr, {}, ls, room, s);
      s', v := s, Evaluated(1, ls);
    } else {
      var y := GenExpr(FramesOf(k.p), st.cond, c.gx).value;
      v := Meaning(k, st.cond, fr, ls, room, fuel).value;
      CodeAtSplit(k.code, s.pc, y.code, [Beq(T(y.reg), Zero, end)]);
      CodeAtOne(k.code, s.pc + |y.code|, Beq(T(y.reg), Zero, end));
      CodedInStmt(k, st.cond, c.gx, y, fr, s.pc);
      s' := TestRun(k, st.cond, c.gx, y, fr, ls, room, fuel, end, s.pc + |c.x.code| + 3 + |c.b.code| + |c.step.code|,
          s);
    }
  }

  lemma LoopingParts(k: Linked, st: R.Stmt, c: ForPlan, fr: Frame, pc: nat)
    requires st.For? && Looping(k, st, fr, pc, c)
    ensures var cond, end := Generated(ForLabel, c.n, CondPart), Generated(ForLabel, c.n, EndPart);
            var body, step, jump := pc + 1 + |c.x.code|, pc + 2 + |c.x.code| + |c.b.code|,
                pc + 3 + |c.x.code| + |c.b.code| + |c.step.code|;
            && pc < |k.code| && k.code[pc] == Lab(cond)
            && body < |k.code| && k.code[body] == Lab(Generated(ForLabel, c.n, BodyPart))
            && StmtCoded(k, st.loop, c.x.g, c.b, fr, body + 1)
            && step < |k.code| && k.code[step] == Lab(Generated(ForLabel, c.n, StepPart))
            && EffectOf(k, st.step, c.b.g, c.step, fr, step + 1)
            && jump + 1 < |k.code| && k.code[jump] == J(cond) && k.code[jump + 1] == Lab(end)
  {
  }

  /** The loop, from its condition label. */
  lemma ForLoopRun(k: Linked, st: R.Stmt, c: ForPlan, fr: Frame, ls: Locals, room: nat, fuel: nat, s: State)
      returns (s': State)
    requires st.For? && Looping(k, st, fr, s.pc, c) && Ready(k, fr, {}, ls, room, s)
    requires ExecFor(k.p, Compiled, st, fr.ps, ls, room, fuel).Some?
    ensures StmtDone(k, 5 + |c.x.code| + |c.b.code| + |c.step.code|,
            ExecFor(k.p, Compiled, st, fr.ps, ls, room, fuel).value, fr, s, s')
    decreases room, fuel, st, 0
  {
    hide Reaches, Ready, StmtCoded, StmtDone, Looping, Exec, EvalEffect, EffectOf;
    LoopingParts(k, st, c, fr, s.pc);
    var n := 5 + |c.x.code| + |c.b.code| + |c.step.code|;
    var s1 := LabelRun(k, Generated(ForLabel, c.n, CondPart), fr, ls, room, s);
    var s2, v := ForTestRun(k, st, c, fr, ls, room, fuel, s1);
    DoneThen(k, 1, Normal(ls), s2.pc - s1.pc, Normal(v.locals), fr, s, s1, s2);
    if v.value == 0 {
      s' := LabelRun(k, Generated(ForLabel, c.n, EndPart), fr, v.locals, room, s2);
      DoneThen(k, s2.pc - s.pc, Normal(v.locals), 1, Normal(v.locals), fr, s, s2, s');
    } else {
      var s3 := LabelRun(k, Generated(ForLabel, c.n, BodyPart), fr, v.locals, room, s2);
      DoneThen(k, s2.pc - s.pc, Normal(v.locals), 1, Normal(v.locals), fr, s, s2, s3);
      var out := Exec(k.p, Compiled, st.loop, fr.ps, v.locals, room, fuel).value;
      var s4 := StmtRun(k, st.loop, c.x.g, c.b, fr, v.locals, room, fuel, s3);
      DoneThen(k, s3.pc - s.pc, Normal(v.locals), |c.b.code|, out, fr, s, s3, s4);
      if out.Returned? {
        s' := s4;
        ReturnedAnyway(k, s3.pc - s.pc + |c.b.code|, n, out, fr, s, s4);
      } else {
        NormalReady(k, |c.b.code|, out, fr, v.locals, room, s3, s4);
        var ls' := EvalEffect(k.p, Compiled, st.step, fr.ps, out.locals, room, fuel).value.locals;
        var s5 := ForStepRun(k, st, c, fr, out.locals, room, fuel, s.pc, s4);
        DoneThen(k, s4.pc - s.pc, out, s5.pc - s4.pc, Normal(ls'), fr, s, s4, s5);
        s' := ForLoopRun(k, st, c, fr, ls', room, fuel - 1, s5);
        DoneThen(k, 0, Normal(ls'), n, ExecFor(k.p, Compiled, st, fr.ps, ls', room, fuel - 1).value, fr, s, s5, s');
      }
    }
  }

  /** From the step label back to the condition label at pc. */
  lemma ForStepRun(k: Linked, st: R.Stmt, c: ForPlan, fr: Frame, ls: Locals, room: nat, fuel: nat, pc: nat, s: State)
      returns (s': State)
    requires st.For? && Looping(k, st, fr, pc, c) && Ready(k, fr, {}, ls, room, s) &&
             s.pc == pc + 2 + |c.x.code| + |c.b.code|
    requires EvalEffect(k.p, Compiled, st.step, fr.ps, ls, room, fuel).Some?
    ensures var out := EvalEffect(k.p, Compiled, st.step, fr.ps, ls, room, fuel).value;
            StmtDone(k, pc - s.pc, out, fr, s, s') && Ready(k, fr, {}, out.locals, room, s') && s'.pc == pc
    decreases room, fuel, st.step, 4
  {
    hide Reaches, Ready, StmtCoded, StmtDone, Looping, EffectOf, EvalEffect;
    LoopingParts(k, st, c, fr, pc);
    var s1 := LabelRun(k, Generated(ForLabel, c.n, StepPart), fr, ls, room, s);
    var out := EvalEffect(k.p, Compiled, st.step, fr.ps, ls, room, fuel).value;
    var s2 := EffectRun(k, st.step, c.b.g, c.step, fr, ls, room, fuel, s1);
    DoneThen(k, 1, Normal(ls), |c.step.code|, out, fr, s, s1, s2);
    NormalReady(k, |c.step.code|, out, fr, ls, room, s1, s2);
    s' := JumpRun(k, Generated(ForLabel, c.n, CondPart), pc, fr, out.locals, room, s2);
    DoneThen(k, 1 + |c.step.code|, out, pc - s2.pc, out, fr, s, s2, s');
  }
}
