/** What the generated code does where a guard does not hold, and exactly when that happens. */
module Limits {
  import opened Options
  import opened Words
  import opened Machine
  import opened CodeGen
  import opened Guards
  import opened Activation
  import opened Semantics
  import opened Registers
  import opened Simulation
  import opened Correctness
  import R = Resolved

  // ----- a function that is not void and does not return -----

  /** The outcome of f's body with the arguments ps, on a stack of `room` bytes. */
  function Ending(p: R.Program, f: R.Func, ps: seq<Word>, room: nat, fuel: nat): Option<Outcome> {
    if |ps| != f.params || room < R.FrameSize(f.frame) then None
    else ExecAll(p, Compiled, f.body, ps, map[], room - R.FrameSize(f.frame), fuel)
  }

  /** Such a function comes to the jr at the end of its code, s1, and leaves from there with sp and s0
      still those of its own frame, for the address that is in ra by then. */
  lemma LeavesFrame(p: R.Program, code: Listing, f: R.Func, ps: seq<Word>, room: nat, fuel: nat, top: int, s: State)
    returns (g: Gen, x: StmtCode, s1: State, s': State)
    requires CompiledTo(p, code) && R.Find(p, f.name) == Some(f) && Called(code, f, ps, room, top, s)
    requires Ending(p, f, ps, room, fuel).Some? && Ending(p, f, ps, room, fuel).value.Normal? && !f.isVoid
    ensures GenFunc(FramesOf(p), f, g) == Some(x) && CodeAt(code, s.pc, x.code)
    ensures Reaches(code, s, s1) && s1.pc == s.pc + |x.code| - 1 < |code| && code[s1.pc] == JalrRa
    ensures Reaches(code, s, s') && Step(code, s1) == Some(s') && s'.pc == Unsigned(s1.ra)
    ensures s'.sp == Wrap(top - R.FrameSize(f.frame)) != s.sp && s'.fp == Wrap(top)
  {
    hide GoodProgram, GenProgram, UniqueLabels, GenFunc, ExecAll;
    hide Reaches, R.FrameSize, Position, Keep, HasLocals, InFrame, StmtsCoded, Wrap, CodeAt, Step;
    Builds(p, code);
    var k := Linked(p, code);
    var pc;
    pc, g, x := FuncAt(k, f);
    var fr := Frame(top, f.frame, s.ra, s.fp, ps);
    var room' := room - R.FrameSize(f.frame);
    var b := FuncParts(k, f, g, x, fr, pc);
    GoodFuncFrame(k, f, fr);
    Stays(code, s);
    var s0 := Do(code, s, s, Lab(Function(f.name)));
    var s2 := Enter(code, s0, fr);
    Then(code, s, s0, s2);
    NoLocals(k, fr, room', s2);
    s1 := StmtsRun(k, f.body, g, b, fr, map[], room', fuel, s2);
    Then(code, s, s2, s1);
    CodeAtOne(code, s1.pc, JalrRa);
    s' := DoReturn(code, s, s1);
    ReturnStep(code, s1);
    OwnFrame(s2, fr);
    WrapsDiffer(top, R.FrameSize(f.frame));
  }

  lemma ReturnStep(code: Listing, s: State)
    requires s.pc < |code| && code[s.pc] == JalrRa
    ensures Step(code, s) == Some(s.(pc := Unsigned(s.ra), ra := Wrap(s.pc + 1)))
  {
  }

  lemma OwnFrame(s: State, fr: Frame)
    requires InFrame(s, fr)
    ensures s.sp == Wrap(fr.fp - Size(fr)) && s.fp == Wrap(fr.fp)
  {
  }

  /** A function leaves with its caller's sp and s0 if and only if it is void or its run returned. */
  lemma FrameRestoredIff(p: R.Program, code: Listing, f: R.Func, ps: seq<Word>, room: nat, fuel: nat, top: int,
                         s: State)
    returns (s': State)
    requires CompiledTo(p, code) && R.Find(p, f.name) == Some(f) && Called(code, f, ps, room, top, s)
    requires Ending(p, f, ps, room, fuel).Some?
    ensures Reaches(code, s, s')
    ensures (s'.sp == s.sp && s'.fp == s.fp) <==> (f.isVoid || Ending(p, f, ps, room, fuel).value.Returned?)
    ensures f.isVoid || Ending(p, f, ps, room, fuel).value.Returned? ==> s'.pc == Unsigned(s.ra)
  {
    hide GoodProgram, GenProgram, UniqueLabels, ExecAll, Reaches, R.FrameSize, Position, Wrap;
    if f.isVoid || Ending(p, f, ps, room, fuel).value.Returned? {
      Builds(p, code);
      s' := FuncRun(Linked(p, code), f, ps, room - R.FrameSize(f.frame), fuel, top, s);
    } else {
      var g, x, s1;
      g, x, s1, s' := LeavesFrame(p, code, f, ps, room, fuel, top, s);
    }
  }

  // ----- an assignment to a parameter -----

  /** The word that an assignment to the symbol is stored to. */
  function StoreAddress(fr: Frame, sym: R.Symbol): int {
    EffAddr(Wrap(fr.fp), -R.LocalSlot(sym.offset))
  }

  /** An assignment goes to the slot from which its target is loaded if and only if that is a local
      variable: with no more than eight parameters, no offset in its entry makes a parameter one. */
  lemma StoredWhereLoadedIff(r: TIndex, sym: R.Symbol)
    requires sym.Param? ==> sym.index < 8
    ensures LoadSymbol(r, sym) == Lw(T(r), -R.LocalSlot(sym.offset), Fp) <==> sym.Local?
  {
  }

  /** e is an assignment to a parameter, and its value keeps the guards. */
  ghost predicate ParamAssigned(k: Linked, e: R.Expr, g: Gen, x: ExprCode, fr: Frame, held: set<int>, pc: nat) {
    && e.Assign? && e.target.Param? && e.target.index < |fr.ps|
    && GenExpr(FramesOf(k.p), e, g) == Some(x) && CodeAt(k.code, pc, x.code)
    && GoodExpr(fr.locals, |fr.ps|, e.e) && Safe(FramesOf(k.p), fr.locals, e.e, BusyBelow(g.free, 7) + 1, held)
  }

  /** The offset in the entry of the parameter, which is never set, decides whether the code can run. */
  predicate Storable(sym: R.Symbol) {
    sym.offset % 4 == 0 && Imm12(R.LocalSlot(sym.offset))
  }

  /** The code of an assignment to a parameter comes to its end if and only if the offset happens to be
      a multiple of 4 of at most 2003. Then the value is at the address given by that offset, and the
      frame still holds the arguments that it held before. */
  lemma ParamAssignRun(k: Linked, e: R.Expr, g: Gen, x: ExprCode, fr: Frame, held: set<int>, ls: Locals, room: nat,
                       fuel: nat, s: State)
    returns (s': State)
    requires ParamAssigned(k, e, g, x, fr, held, s.pc) && Ready(k, fr, held, ls, room, s)
    requires Meaning(k, e.e, fr, ls, room, fuel).Some?
    ensures Reaches(k.code, s, s')
    ensures Storable(e.target) ==>
              var v := Meaning(k, e.e, fr, ls, room, fuel).value.value;
              && s'.pc == s.pc + |x.code| && s'.t[x.reg] == v && Read(s'.mem, StoreAddress(fr, e.target)) == v
              && InFrame(s', fr)
    ensures !Storable(e.target) ==> s'.pc < s.pc + |x.code| && Step(k.code, s').None?
  {
    hide Reaches, Wrap, CodeAt, FramesOf, HasLocals, Spilled, InFrame, Keep, Coded, Ready, Meaning, Built, Effect,
         R.FrameSize, Step;
    var z, y := ParamAssignParts(k, e, g, x, fr, held, s.pc);
    ReadyUnique(k, fr, held, ls, room, s);
    ReadySpilled(k, fr, held, ls, room, s);
    var d := R.LocalSlot(e.target.offset);
    Stays(k.code, s);
    if !Imm12(d) {
      s' := s;
      TooLarge(k.code, s, T(z.reg), Zero, d);
    } else {
      WrapZero();
      MoveSp(s, T(z.reg), Zero, 0, d);
      var s1 := Do(k.code, s, s, Addi(T(z.reg), Zero, d));
      ReadySame(k, fr, held, ls, room, s, s1);
      var s2 := ExprRun(k, e.e, z.g, y, fr, held, ls, room, fuel, s1);
      Then(k.code, s, s1, s2);
      ParamValue(k, e, g, y, z, fr, held, ls, room, fuel, s, s1, s2);
      s' := ParamStore(k, fr, z.reg, y.reg, d, s, s2);
    }
  }

  lemma TooLarge(code: Listing, s: State, rd: Reg, r: Reg, d: int)
    requires s.pc < |code| && code[s.pc] == Addi(rd, r, d) && !Imm12(d)
    ensures Step(code, s).None?
  {
  }

  lemma ParamValue(k: Linked, e: R.Expr, g: Gen, y: ExprCode, z: Allocated, fr: Frame, held: set<int>, ls: Locals,
                   room: nat, fuel: nat, s: State, s1: State, s2: State)
    requires e.Assign? && z.g.free == g.free[z.reg := false] && InFrame(s, fr) && GoodFrame(fr)
    requires Meaning(k, e.e, fr, ls, room, fuel).Some? && s1.mem == s.mem && s1.fp == s.fp && s1.sp == s.sp
    requires Done(k, e.e, z.g, y, fr, held, Meaning(k, e.e, fr, ls, room, fuel), s1, s2)
    ensures s2.t[z.reg] == s1.t[z.reg] && s2.t[y.reg] == Meaning(k, e.e, fr, ls, room, fuel).value.value
    ensures s2.fp == s.fp && s2.sp == s.sp && InFrame(s2, fr) && s2.pc == s1.pc + |y.code|
  {
    hide Reaches, Wrap, Meaning, HasLocals, R.FrameSize;
  }

  lemma ParamAssignParts(k: Linked, e: R.Expr, g: Gen, x: ExprCode, fr: Frame, held: set<int>, pc: nat)
    returns (z: Allocated, y: ExprCode)
    requires ParamAssigned(k, e, g, x, fr, held, pc)
    ensures Coded(k, e.e, z.g, y, fr, held, pc + 1)
    ensures x.reg == y.reg != z.reg && |x.code| == |y.code| + 3 && z.g.free == g.free[z.reg := false]
    ensures pc < |k.code| && k.code[pc] == Addi(T(z.reg), Zero, R.LocalSlot(e.target.offset))
    ensures pc + |y.code| + 2 < |k.code| && k.code[pc + |y.code| + 1] == Alu(SUB, T(z.reg), Fp, T(z.reg))
    ensures k.code[pc + |y.code| + 2] == Sw(T(y.reg), 0, T(z.reg))
  {
    hide CodeAt, FramesOf, BusyBelow, GenExpr, GoodExpr, Safe;
    z, y := AssignShape(FramesOf(k.p), e, g, x);
    AssignCode(k.code, pc, x.code, y.code, z.reg, y.reg, e.target.offset);
    BusyTake(g, z.reg);
  }

  /** The last two instructions: a store at any distance from the frame pointer, if it is aligned. */
  lemma ParamStore(k: Linked, fr: Frame, z: TIndex, y: TIndex, d: int, s: State, s2: State) returns (s': State)
    requires GoodFrame(fr) && InFrame(s2, fr) && s2.t[z] == d && z != y && 44 <= d <= 2047
    requires Reaches(k.code, s, s2) && s2.pc + 1 < |k.code|
    requires k.code[s2.pc] == Alu(SUB, T(z), Fp, T(z)) && k.code[s2.pc + 1] == Sw(T(y), 0, T(z))
    ensures Reaches(k.code, s, s')
    ensures d % 4 == 0 ==>
              s'.pc == s2.pc + 2 && s'.t[y] == s2.t[y] && InFrame(s', fr) &&
                  Read(s'.mem, EffAddr(Wrap(fr.fp), -d)) == s2.t[y]
    ensures d % 4 != 0 ==> s'.pc == s2.pc + 1 && Step(k.code, s').None?
  {
    hide Reaches, R.FrameSize, Wrap, EffAddr, Step;
    var s3 := Do(k.code, s, s2, Alu(SUB, T(z), Fp, T(z)));
    StoreFar(fr.fp, d);
    if d % 4 == 0 {
      s' := Do(k.code, s, s3, Sw(T(y), 0, T(z)));
    } else {
      s' := s3;
      Misaligned(k.code, s', T(y), T(z));
    }
  }

  lemma Misaligned(code: Listing, s: State, r: Reg, b: Reg)
    requires s.pc < |code| && code[s.pc] == Sw(r, 0, b) && EffAddr(Get(s, b), 0) % 4 != 0
    ensures Step(code, s).None?
  {
  }

  /** The address is that of the frame pointer less d modulo 2^32, which is no word of the first 44 bytes
      of the frame. */
  lemma StoreFar(fp: int, d: int)
    requires fp % 4 == 0 && 0 < fp <= TWO32 && 44 <= d <= 2047
    ensures EffAddr(Wrap(Wrap(fp) - d), 0) == EffAddr(Wrap(fp), -d)
    ensures EffAddr(Wrap(fp), -d) % 4 == 0 <==> d % 4 == 0
    ensures var x := EffAddr(Wrap(fp), -d); !(fp - 44 < x < fp)
  {
  }

  /** So a later read of the parameter gives the argument that the function was called with, whatever
      was assigned to it. */
  lemma ParamReadsArgument(k: Linked, e: R.Expr, g: Gen, x: ExprCode, r: TIndex, fr: Frame, held: set<int>, ls: Locals,
                           room: nat, fuel: nat, s: State) returns (s': State)
    requires ParamAssigned(k, e, g, x, fr, held, s.pc) && Ready(k, fr, held, ls, room, s) && Storable(e.target)
    requires Meaning(k, e.e, fr, ls, room, fuel).Some?
    requires s.pc + |x.code| < |k.code| && k.code[s.pc + |x.code|] == LoadSymbol(r, e.target)
    ensures Reaches(k.code, s, s') && s'.pc == s.pc + |x.code| + 1 && s'.t[r] == fr.ps[e.target.index]
  {
    hide Reaches, Wrap, ParamAssigned, Meaning, Ready, Effect, R.FrameSize, Storable;
    var s1 := ParamAssignRun(k, e, g, x, fr, held, ls, room, fuel, s);
    FrameOf(k, e, g, x, fr, held, ls, room, s);
    var d := R.ParamSlot(e.target.index);
    FrameLoads(s1, fr, e.target.index);
    LoadFp(s1, fr, T(r), d);
    s' := Do(k.code, s, s1, Lw(T(r), -d, Fp));
  }

  lemma FrameOf(k: Linked, e: R.Expr, g: Gen, x: ExprCode, fr: Frame, held: set<int>, ls: Locals, room: nat, s: State)
    requires ParamAssigned(k, e, g, x, fr, held, s.pc) && Ready(k, fr, held, ls, room, s)
    ensures GoodFrame(fr) && e.Assign? && e.target.Param? && e.target.index < |fr.ps|
  {
  }

  lemma FrameLoads(s: State, fr: Frame, i: nat)
    requires InFrame(s, fr) && i < |fr.ps| && GoodFrame(fr)
    ensures Read(s.mem, fr.fp - R.ParamSlot(i)) == fr.ps[i] && s.fp == Wrap(fr.fp) && R.ParamSlot(i) <= Size(fr)
  {
  }

  // ----- a call inside an argument -----

  /** e, a call without calls in its arguments, is an argument of a call of a function with a frame of
      size `outer`, and so many arguments of that one are stored. */
  ghost predicate Nested(k: Linked, e: R.Expr, g: Gen, x: ExprCode, fr: Frame, outer: nat, stored: nat, pc: nat) {
    && e.Call? && R.Find(k.p, e.name).Some? && (forall a :: a in e.args ==> CallFree(a))
    && Coded(k, e, g, x, fr, {}, pc) && g.free == AllFree
    && outer % 4 == 0 && fr.locals <= outer + 4 && outer + 44 + 4 * stored <= Size(fr)
  }

  function Inner(k: Linked, e: R.Expr): nat
    requires e.Call? && R.Find(k.p, e.name).Some?
  {
    R.Find(k.p, e.name).value.frame
  }

  function HeldSlot(outer: nat, i: nat): nat {
    outer + 44 + 4 * (i + 1)
  }

  /** What is in slot i of the outer call, where `before` was, once the inner call stored its arguments. */
  function AfterInner(before: Word, inner: int, ws: seq<Word>, outer: int, i: int): Word {
    if Shared(inner, |ws|, outer, i) then ws[i + Shift(inner, outer)] else before
  }

  /** After the inner call, a stored argument is what it was, unless its slot is one of the inner call's;
      then it is the argument that the inner call stored there. */
  lemma NestedCallRun(k: Linked, e: R.Expr, g: Gen, x: ExprCode, fr: Frame, outer: nat, stored: nat, ls: Locals,
                      room: nat, fuel: nat, s: State) returns (s': State)
    requires Nested(k, e, g, x, fr, outer, stored, s.pc) && Ready(k, fr, {}, ls, room, s)
    requires CallMeaning(k, e, fr, ls, room, fuel).Some?
    ensures Reaches(k.code, s, s') && s'.pc == s.pc + |x.code|
    ensures var v := CallMeaning(k, e, fr, ls, room, fuel).value.value; v.Some? ==> s'.t[x.reg] == v.value
    ensures var ws := ArgsMeaning(k, e.args, fr, ls, room, fuel).value.values;
            forall i :: 0 <= i < stored ==>
              var before := Read(s.mem, fr.fp - HeldSlot(outer, i));
              Read(s'.mem, fr.fp - HeldSlot(outer, i)) == AfterInner(before, Inner(k, e), ws, outer, i)
  {
    hide Reaches, Ready, Coded, Keep, HasLocals, R.FrameSize, Done, ArgsLeft, RunBody, Shared, AfterInner, HeldSlot,
         KeptSlots, EvalArgs;
    var inner, n := Inner(k, e), |e.args|;
    var held := KeptSlots(inner, n, outer, stored);
    NestedReady(k, e, g, x, fr, outer, stored, ls, room, s);
    s' := AnyCallRun(k, e, g, x, fr, held, ls, room, fuel, s);
    var v := CallMeaning(k, e, fr, ls, room, fuel).value;
    DoneReads(k, e, g, x, fr, held, AsValue(v), s, s');
    NoneBusy();
    var ws := ArgsMeaning(k, e.args, fr, ls, room, fuel).value.values;
    forall i | 0 <= i < stored
      ensures var before := Read(s.mem, fr.fp - HeldSlot(outer, i));
              Read(s'.mem, fr.fp - HeldSlot(outer, i)) == AfterInner(before, inner, ws, outer, i)
    {
      NestedAligned(k, e, g, x, fr, outer, stored, s.pc);
      HeldReads(fr, held, inner, outer, stored, i, ws, s.mem, s'.mem);
    }
  }

  function KeptSlots(inner: int, n: nat, outer: nat, stored: nat): set<int> {
    set i: nat | i < stored && !Shared(inner, n, outer, i) :: HeldSlot(outer, i)
  }

  lemma DoneReads(k: Linked, e: R.Expr, g: Gen, x: ExprCode, fr: Frame, held: set<int>, v: Option<Evaluated>, s: State,
                  s': State)
    requires Done(k, e, g, x, fr, held, v, s, s')
    ensures Reaches(k.code, s, s') && s'.pc == s.pc + |x.code| && (v.Some? ==> s'.t[x.reg] == v.value.value)
    ensures forall d :: d in held ==> Read(s'.mem, fr.fp - d) == Read(s.mem, fr.fp - d)
  {
  }

  lemma HeldReads(fr: Frame, held: set<int>, inner: nat, outer: nat, stored: nat, i: nat, ws: seq<Word>, m: Memory,
                  m': Memory)
    requires (ws != [] ==> inner % 4 == 0) && outer % 4 == 0 && i < stored
    requires held == KeptSlots(inner, |ws|, outer, stored) &&
             forall d :: d in held ==> Read(m', fr.fp - d) == Read(m, fr.fp - d)
    requires ArgsLeft(fr, inner + 44, 0, ws, m')
    ensures Read(m', fr.fp - HeldSlot(outer, i)) == AfterInner(Read(m, fr.fp - HeldSlot(outer, i)), inner, ws, outer, i)
  {
    if Shared(inner, |ws|, outer, i) {
      var j := i + Shift(inner, outer);
      assert 4 * Shift(inner, outer) == outer - inner;
      assert inner + 44 + 4 * (0 + j + 1) == HeldSlot(outer, i);
    } else {
      assert HeldSlot(outer, i) in held;
    }
  }

  lemma NestedAligned(k: Linked, e: R.Expr, g: Gen, x: ExprCode, fr: Frame, outer: nat, stored: nat, pc: nat)
    requires Nested(k, e, g, x, fr, outer, stored, pc)
    ensures outer % 4 == 0 && (|e.args| > 0 ==> Inner(k, e) % 4 == 0)
  {
    hide CodeAt, R.FrameSize, GenExpr;
    FramesOfFind(k.p, e.name);
    NoneBusy();
  }

  lemma NestedReady(k: Linked, e: R.Expr, g: Gen, x: ExprCode, fr: Frame, outer: nat, stored: nat, ls: Locals,
                    room: nat, s: State)
    requires Nested(k, e, g, x, fr, outer, stored, s.pc) && Ready(k, fr, {}, ls, room, s)
    ensures var held := KeptSlots(Inner(k, e), |e.args|, outer, stored);
            Coded(k, e, g, x, fr, held, s.pc) && Ready(k, fr, held, ls, room, s)
  {
    hide CodeAt, R.FrameSize, GenExpr, FramesOf, Built, InFrame, HasLocals, Slots, SafeArgs;
    var inner, n := Inner(k, e), |e.args|;
    var held := KeptSlots(inner, n, outer, stored);
    FramesOfFind(k.p, e.name);
    NoneBusy();
    CallFreeArgsAreSafe(FramesOf(k.p), fr.locals, e.args, inner + 44, 0, held);
    if n > 0 {
      KeptApart(inner, n, outer, stored);
    }
  }

  lemma KeptApart(inner: nat, n: nat, outer: nat, stored: nat)
    requires inner % 4 == 0 && outer % 4 == 0
    ensures Slots(inner + 44, inner + 44 + 4 * n) !! KeptSlots(inner, n, outer, stored)
  {
    forall k | k in KeptSlots(inner, n, outer, stored) ensures k !in Slots(inner + 44, inner + 44 + 4 * n) {
      var i: nat :| i < stored && !Shared(inner, n, outer, i) && k == HeldSlot(outer, i);
      assert 4 * Shift(inner, outer) == outer - inner;
    }
  }
}
