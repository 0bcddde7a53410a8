/** The main results about the compiler's code generator: functions and whole programs. */
module Correctness {
  import opened Options
  import opened Words
  import opened Machine
  import opened CodeGen
  import opened Guards
  import opened Activation
  import opened Simulation
  import opened Semantics
  import opened Portability
  import Labels
  import Registers
  import R = Resolved

  ghost predicate CompiledTo(p: R.Program, code: Listing) {
    GoodProgram(p) && GenProgram(p) == Some(code) && |code| < 0x8000_0000
  }

  /** The machine is at the label of f, with the arguments ps in the argument registers and a stack
      pointer `top` that leaves `room` bytes of stack. */
  ghost predicate Called(code: Listing, f: R.Func, ps: seq<Word>, room: nat, top: int, s: State) {
    && Position(code, Function(f.name)) == Some(s.pc)
    && s.sp == Wrap(top) && top % 4 == 0 && room <= top <= TWO32
    && |ps| <= 8 && forall i :: 0 <= i < |ps| ==> s.a[i] == ps[i]
  }

  lemma Builds(p: R.Program, code: Listing)
    requires CompiledTo(p, code)
    ensures Built(Linked(p, code))
  {
    hide GenProgram, GoodFunc, UniqueLabels;
    Labels.ListingLabelsUnique(p);
  }

  /** Every run of a function's code, through any depth of calls: it continues at the return
      address with the value of the function in a0, has restored sp and s0, and has changed nothing
      at or above the stack pointer it was entered with. */
  lemma FunctionCorrect(p: R.Program, code: Listing, f: R.Func, ps: seq<Word>, room: nat, fuel: nat, top: int, s: State)
      returns (s': State)
    requires CompiledTo(p, code) && R.Find(p, f.name) == Some(f) && PortableProgram(p)
    requires RunFunc(p, C, f, ps, room, fuel).Some? && Called(code, f, ps, room, top, s)
    ensures Reaches(code, s, s') && s'.pc == Unsigned(s.ra)
    ensures var v := RunFunc(p, C, f, ps, room, fuel).value; v.Some? ==> s'.a[0] == v.value
    ensures s'.sp == s.sp && s'.fp == s.fp
    ensures forall x :: x >= top ==> Read(s'.mem, x) == Read(s.mem, x)
  {
    hide GoodProgram, GenProgram, PortableProgram, RunBody, Reaches, R.FrameSize, UniqueLabels, Position;
    Builds(p, code);
    RunBodyAgrees(p, f, ps, room - R.FrameSize(f.frame), fuel);
    s' := FuncRun(Linked(p, code), f, ps, room - R.FrameSize(f.frame), fuel, top, s);
  }

  /** A compiled program, started at _start, reaches the ecall with the exit system call in a7 and
      the value of main in a0. */
  lemma ProgramCorrect(p: R.Program, code: Listing, main: R.Func, ps: seq<Word>, room: nat, fuel: nat, v: Word,
                       top: int, s: State)
    returns (s': State)
    requires CompiledTo(p, code) && R.Find(p, "main") == Some(main) && PortableProgram(p)
    requires RunFunc(p, C, main, ps, room, fuel) == Some(Some(v))
    requires Position(code, Start) == Some(s.pc)
    requires s.sp == Wrap(top) && top % 4 == 0 && room <= top <= TWO32
    requires |ps| <= 8 && forall i :: 0 <= i < |ps| ==> s.a[i] == ps[i]
    ensures Reaches(code, s, s') && s'.pc < |code| && code[s'.pc] == Ecall
    ensures s'.a[0] == v && s'.a[7] == 93
  {
    hide GoodProgram, GenProgram, PortableProgram, RunFunc, Reaches, UniqueLabels, Position, Effect, GenFunc, FramesOf,
         CodeAt, R.FrameSize, Wrap;
    Builds(p, code);
    StartAt(p, code);
    Stays(code, s);
    LabEffect(s, Start);
    var s1 := Do(code, s, s, Lab(Start));
    var pc, _, _ := FuncAt(Linked(p, code), main);
    var s2 := DoCall(code, s, s1, Function("main"), pc);
    var s3 := FunctionCorrect(p, code, main, ps, room, fuel, top, s2);
    Then(code, s, s2, s3);
    MoveSp(s3, A(7), Zero, 0, 93);
    WrapZero();
    s' := Do(code, s, s3, Addi(A(7), Zero, 93));
  }

  lemma LabEffect(s: State, l: Label)
    ensures Effect(Lab(l), s) == Some(Next(s))
  {
  }

  lemma StartAt(p: R.Program, code: Listing)
    requires CompiledTo(p, code) && UniqueLabels(code)
    ensures |code| >= 4 && Position(code, Start) == Some(0) && code[0] == Lab(Start)
    ensures code[1] == Jal(Function("main")) && code[2] == Addi(A(7), Zero, 93) && code[3] == Ecall
  {
    hide GoodProgram, UniqueLabels, GenFuncs, Position;
    PositionOfUnique(code, 0);
  }

  /** The result does not depend on how long the machine is watched: a run stops in one state only. */
  lemma StopsOnce(code: Listing, s: State, s1: State, s2: State)
    requires Reaches(code, s, s1) && Step(code, s1).None?
    requires Reaches(code, s, s2) && Step(code, s2).None?
    ensures s1 == s2
  {
    var n: nat :| Steps(code, s, n) == Some(s1);
    var m: nat :| Steps(code, s, m) == Some(s2);
    if n <= m {
      StepsAdd(code, s, s1, n, m - n);
    } else {
      StepsAdd(code, s, s2, m, n - m);
    }
  }

  /** Hence whatever exit status the machine produces is the value that C99 gives the program. */
  lemma ExitStatusIsMeaning(p: R.Program, code: Listing, main: R.Func, ps: seq<Word>, room: nat, fuel: nat, v: Word,
                            top: int, s: State, s': State)
    requires CompiledTo(p, code) && R.Find(p, "main") == Some(main) && PortableProgram(p)
    requires RunFunc(p, C, main, ps, room, fuel) == Some(Some(v))
    requires Position(code, Start) == Some(s.pc)
    requires s.sp == Wrap(top) && top % 4 == 0 && room <= top <= TWO32
    requires |ps| <= 8 && forall i :: 0 <= i < |ps| ==> s.a[i] == ps[i]
    requires Reaches(code, s, s') && Step(code, s').None?
    ensures s'.a[0] == v
  {
    hide CompiledTo, PortableProgram, RunFunc, Reaches, Position;
    var s1 := ProgramCorrect(p, code, main, ps, room, fuel, v, top, s);
    StopsOnce(code, s, s1, s');
  }

  // ----- where the guards are needed -----

  /** A function that is not void and has an empty body, like the main of an empty program, returns
      without restoring sp and s0. */
  lemma EmptyBodyLeavesFrame(p: R.Program, code: Listing, f: R.Func, room: nat, top: int, s: State) returns (s': State)
    requires CompiledTo(p, code) && R.Find(p, f.name) == Some(f) && f.body == [] && !f.isVoid
    requires R.FrameSize(f.frame) <= room && Called(code, f, [], room, top, s)
    ensures Reaches(code, s, s') && s'.pc == Unsigned(s.ra)
    ensures s'.sp == Wrap(top - R.FrameSize(f.frame)) != s.sp && s'.fp == Wrap(top)
  {
    hide GoodProgram, GenProgram, Reaches, R.FrameSize, UniqueLabels, Position, Wrap, SaveArgs, CodeAt;
    Builds(p, code);
    var k := Linked(p, code);
    var pc, g, x := FuncAt(k, f);
    var fr := Frame(top, f.frame, s.ra, s.fp, []);
    GoodFuncFrame(k, f, fr);
    EmptyBodyCode(k, f, g, x, pc);
    Stays(code, s);
    var s1 := Do(code, s, s, Lab(Function(f.name)));
    var s2 := Enter(code, s1, fr);
    Then(code, s, s1, s2);
    WrapsDiffer(top, R.FrameSize(f.frame));
    s' := DoReturn(code, s, s2);
  }

  lemma EmptyBodyCode(k: Linked, f: R.Func, g: Gen, x: StmtCode, pc: nat)
    requires GenFunc(FramesOf(k.p), f, g) == Some(x) && f.body == [] && !f.isVoid && CodeAt(k.code, pc, x.code)
    ensures pc < |k.code| && k.code[pc] == Lab(Function(f.name))
    ensures var enter := EnterCode(f.frame) + SaveArgs(0);
            CodeAt(k.code, pc + 1, enter) && pc + 1 + |enter| < |k.code| && k.code[pc + 1 + |enter|] == JalrRa
  {
    hide R.FrameSize, SaveArgs, CodeAt, FramesOf, GenFunc, EnterCode;
    var enter := EnterCode(f.frame) + SaveArgs(0);
    EmptyBodyShape(FramesOf(k.p), f, g, x);
    CodeAtHead(k.code, pc, Lab(Function(f.name)), enter + [JalrRa]);
    CodeAtSplit(k.code, pc + 1, enter, [JalrRa]);
    CodeAtOne(k.code, pc + 1 + |enter|, JalrRa);
  }

  lemma EmptyBodyShape(frames: Frames, f: R.Func, g: Gen, x: StmtCode)
    requires GenFunc(frames, f, g) == Some(x) && f.body == [] && !f.isVoid
    ensures x.code == [Lab(Function(f.name))] + (EnterCode(f.frame) + SaveArgs(0) + [JalrRa])
  {
    hide R.FrameSize, SaveArgs, EnterCode;
    assert [] + [JalrRa] == [JalrRa];
  }

  lemma WrapsDiffer(x: int, d: int)
    requires 0 < d <= 2047
    ensures Wrap(x - d) != Wrap(x)
  {
  }

  /** f(1, f(2, 3)): the inner call stores its first argument into the slot that holds the outer
      one's, before that is loaded. The guard rejects this call, but not f(f(2, 3), 1). */
  lemma NestedCallOverwrites(frames: Frames, f: string)
    requires f in frames && frames[f] == 0
    ensures var inner := R.Call(f, [R.Num(2), R.Num(3)]);
            && !Safe(frames, 0, R.Call(f, [R.Num(1), inner]), 0, {})
            && Safe(frames, 0, R.Call(f, [inner, R.Num(1)]), 0, {})
            && exists c :: HasCode(frames, R.Call(f, [R.Num(1), inner]), c) && |c| > 8 &&
                 c[0] == Addi(T(0), Zero, 1) && c[1] == Sw(T(0), -48, Fp) &&
                 c[2] == Addi(T(0), Zero, 2) && c[3] == Sw(T(0), -48, Fp) && c[|c| - 4] == Lw(A(0), -48, Fp)
  {
    hide Safe, GenExpr, HasCode;
    var one, two, three := R.Num(1), R.Num(2), R.Num(3);
    var inner := R.Call(f, [two, three]);
    NestedCallGuards(frames, f, inner);
    ConstantCode(frames, one);
    ConstantCode(frames, two);
    ConstantCode(frames, three);
    var c2, c3 := [Addi(T(0), Zero, 2)], [Addi(T(0), Zero, 3)];
    CallOfTwoCode(frames, f, two, three, c2, c3);
    CallOfTwoCode(frames, f, one, inner, [Addi(T(0), Zero, 1)], CallOfTwo(f, c2, c3));
    CallOfTwoEnds(f, c2, c3);
    CallOfTwoEnds(f, [Addi(T(0), Zero, 1)], CallOfTwo(f, c2, c3));
    hide CallOfTwo;
    var c := CallOfTwo(f, [Addi(T(0), Zero, 1)], CallOfTwo(f, c2, c3));
    assert HasCode(frames, R.Call(f, [one, inner]), c);
  }

  /** With all temporaries free, e has this code and its result is in t0. */
  ghost predicate HasCode(frames: Frames, e: R.Expr, c: seq<Instr>) {
    forall h: Gen | h.free == AllFree ::
      var x := GenExpr(frames, e, h); x.Some? && x.value.code == c && x.value.reg == 0
  }

  lemma ConstantCode(frames: Frames, e: R.Expr)
    requires e.Num?
    ensures HasCode(frames, e, [Addi(T(0), Zero, e.value)])
  {
  }

  /** The code of a call of f, when no temporary is busy, from the code of its two arguments. */
  function CallOfTwo(f: string, ca: seq<Instr>, cb: seq<Instr>): seq<Instr> {
    ca + [Sw(T(0), -48, Fp)] + (cb + [Sw(T(0), -52, Fp)]) + [Lw(A(0), -48, Fp), Lw(A(1), -52, Fp)] +
        [Jal(Function(f))] +
    [Mv(T(0), A(0))]
  }

  lemma CallOfTwoEnds(f: string, ca: seq<Instr>, cb: seq<Instr>)
    requires |ca| == 1 && |cb| > 0
    ensures var c := CallOfTwo(f, ca, cb);
            && |c| == |cb| + 7 && c[0] == ca[0] && c[1] == Sw(T(0), -48, Fp) && c[2] == cb[0]
            && (|cb| > 1 ==> c[3] == cb[1])
            && c[|c| - 4] == Lw(A(0), -48, Fp)
  {
  }

  lemma CallOfTwoCode(frames: Frames, f: string, a: R.Expr, b: R.Expr, ca: seq<Instr>, cb: seq<Instr>)
    requires f in frames && frames[f] == 0 && HasCode(frames, a, ca) && HasCode(frames, b, cb)
    ensures HasCode(frames, R.Call(f, [a, b]), CallOfTwo(f, ca, cb))
  {
    forall h: Gen | h.free == AllFree
      ensures var x := GenExpr(frames, R.Call(f, [a, b]), h);
              x.Some? && x.value.code == CallOfTwo(f, ca, cb) && x.value.reg == 0
    {
      ArgsOfTwo(frames, a, b, h, ca, cb);
      CallOfTwoAt(frames, f, R.Call(f, [a, b]), h, GenArgs(frames, [a, b], h, 44).value, ca, cb);
    }
  }

  lemma CallOfTwoAt(frames: Frames, f: string, e: R.Expr, h: Gen, xs: ArgsCode, ca: seq<Instr>, cb: seq<Instr>)
    requires e.Call? && e.name == f && |e.args| == 2 && f in frames && frames[f] == 0 && h.free == AllFree
    requires GenArgs(frames, e.args, h, 44) == Some(xs) && xs.g.free == AllFree
    requires xs.code == ca + [Sw(T(0), -48, Fp)] + (cb + [Sw(T(0), -52, Fp)])
    ensures GenExpr(frames, e, h).Some?
    ensures GenExpr(frames, e, h).value.code == CallOfTwo(f, ca, cb) && GenExpr(frames, e, h).value.reg == 0
  {
    hide CallCode, BusyBelow, GenArgs, Reclaimed;
    CallCodeOfTwo(f, xs.code);
    assert h.(free := AllFree) == h;
    assert Alloc(Gen(AllFree, xs.g.counts)).value.reg == 0;
  }

  lemma CallCodeOfTwo(f: string, args: seq<Instr>)
    ensures BusyBelow(AllFree, 7) == 0 && Reclaimed(AllFree, AllFree) == AllFree
    ensures CallCode(AllFree, 44, args, 2, f) == args + [Lw(A(0), -48, Fp), Lw(A(1), -52, Fp)] + [Jal(Function(f))]
  {
    assert SaveTemps(AllFree, 0, 44) == [] && RestoreTemps(AllFree, 7, 44) == [];
    assert LoadArgs(0, 2, 44) == [Lw(A(0), -48, Fp), Lw(A(1), -52, Fp)];
    hide SaveTemps, RestoreTemps, LoadArgs;
    assert [] + args == args;
  }

  lemma ArgsOfTwo(frames: Frames, a: R.Expr, b: R.Expr, h: Gen, ca: seq<Instr>, cb: seq<Instr>)
    requires h.free == AllFree && HasCode(frames, a, ca) && HasCode(frames, b, cb)
    ensures var xs := GenArgs(frames, [a, b], h, 44);
            xs.Some? && xs.value.code == ca + [Sw(T(0), -48, Fp)] + (cb + [Sw(T(0), -52, Fp)]) &&
                xs.value.g.free == AllFree
  {
    var x := GenExpr(frames, a, h).value;
    Registers.BusySetReleased(frames, a, h);
    var h1 := Release(x.g, x.reg);
    Registers.BusySetReleased(frames, b, h1);
    var y := GenExpr(frames, b, h1).value;
    hide GenExpr;
    assert [a, b][1..] == [b] && [b][1..] == [];
    assert GenArgs(frames, [], Release(y.g, y.reg), 52) == Some(ArgsCode([], Release(y.g, y.reg)));
    assert GenArgs(frames, [b], h1, 48) == Some(ArgsCode(cb + [Sw(T(0), -52, Fp)] + [], Release(y.g, y.reg)));
    assert cb + [Sw(T(0), -52, Fp)] + [] == cb + [Sw(T(0), -52, Fp)];
  }

  lemma NestedCallGuards(frames: Frames, f: string, inner: R.Expr)
    requires f in frames && frames[f] == 0 && inner == R.Call(f, [R.Num(2), R.Num(3)])
    ensures !Safe(frames, 0, R.Call(f, [R.Num(1), inner]), 0, {})
    ensures Safe(frames, 0, R.Call(f, [inner, R.Num(1)]), 0, {})
  {
    var one := R.Num(1);
    assert [one, inner][1..] == [inner] && [inner, one][1..] == [one];
    InnerCallGuards(frames, f, inner);
    hide SafeCall, Slots;
    RejectedArgs(frames, f, inner);
    CallFreeArgsAreSafe(frames, 0, [one], 44, 1, {});
    assert SafeArgs(frames, 0, [inner, one], 44, 0, {});
  }

  lemma RejectedArgs(frames: Frames, f: string, inner: R.Expr)
    requires inner.Call? && !Safe(frames, 0, inner, 0, {} + Slots(44, 48))
    ensures !SafeArgs(frames, 0, [R.Num(1), inner], 44, 0, {})
  {
    hide Safe, SafeCall, Slots;
    assert [R.Num(1), inner][1..] == [inner];
    assert !SafeArgs(frames, 0, [inner], 44, 1, {});
  }

  lemma InnerCallGuards(frames: Frames, f: string, inner: R.Expr)
    requires f in frames && frames[f] == 0 && inner == R.Call(f, [R.Num(2), R.Num(3)])
    ensures !Safe(frames, 0, inner, 0, {} + Slots(44, 48)) && Safe(frames, 0, inner, 0, {} + Slots(44, 44))
    ensures SafeCall(0, 0, 2, {})
  {
    assert 48 in Slots(44, 52) && 48 in {} + Slots(44, 48);
    assert !SafeCall(0, 0, 2, {} + Slots(44, 48));
    CallFreeArgsAreSafe(frames, 0, [R.Num(2), R.Num(3)], 44, 0, {} + Slots(44, 44));
  }
}
