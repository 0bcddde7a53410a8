/** A running function's stack frame on the machine, and the straight-line code that uses it:
    prologue, return, and the spilling around a call. */
module Activation {
  import opened Options
  import opened Words
  import opened Machine
  import opened CodeGen
  import opened Guards
  import R = Resolved

  /** A frame below address `fp`, entered with return address `ra` and saved register `s0`, by a
      call with the arguments `ps`. */
  datatype Frame = Frame(fp: int, locals: nat, ra: Word, s0: Word, ps: seq<Word>)

  function Size(fr: Frame): int {
    R.FrameSize(fr.locals)
  }

  predicate GoodFrame(fr: Frame) {
    && fr.fp % 4 == 0 && fr.locals % 4 == 0 && |fr.ps| <= 8
    && Size(fr) <= 2047 && Size(fr) <= fr.fp <= TWO32
  }

  ghost predicate InFrame(s: State, fr: Frame) {
    && s.fp == Wrap(fr.fp) && s.sp == Wrap(fr.fp - Size(fr))
    && Read(s.mem, fr.fp - 4) == fr.ra && Read(s.mem, fr.fp - 8) == fr.s0
    && forall i :: 0 <= i < |fr.ps| ==> Read(s.mem, fr.fp - R.ParamSlot(i)) == fr.ps[i]
  }

  ghost predicate HasLocals(m: Memory, fr: Frame, ls: map<nat, Word>) {
    forall o :: o in ls ==> GoodSlot(fr.locals, o) && Read(m, fr.fp - R.LocalSlot(o)) == ls[o]
  }

  /** Nothing above the locals changes, nor any slot in `held`. */
  ghost predicate Keep(m: Memory, m': Memory, fr: Frame, held: set<int>) {
    && (forall x :: x > fr.fp - 44 ==> Read(m', x) == Read(m, x))
    && (forall k :: k in held ==> Read(m', fr.fp - k) == Read(m, fr.fp - k))
  }

  /** The held slots are below the locals and inside the frame. */
  ghost predicate Spilled(fr: Frame, held: set<int>) {
    forall k :: k in held ==> 40 + fr.locals < k <= Size(fr)
  }

  lemma KeepsFrame(s: State, s': State, fr: Frame, held: set<int>)
    requires GoodFrame(fr) && InFrame(s, fr) && s'.sp == s.sp && s'.fp == s.fp && Keep(s.mem, s'.mem, fr, held)
    ensures InFrame(s', fr)
  {
  }

  // ----- addresses -----

  lemma LoadFp(s: State, fr: Frame, r: Reg, d: int)
    requires GoodFrame(fr) && s.fp == Wrap(fr.fp) && d % 4 == 0 && 0 < d <= Size(fr)
    ensures Effect(Lw(r, -d, Fp), s) == Some(Next(Set(s, r, Read(s.mem, fr.fp - d))))
  {
    hide R.FrameSize, Wrap, EffAddr;
    EffAddrWrap(fr.fp, -d);
  }

  lemma StoreFp(s: State, fr: Frame, r: Reg, d: int)
    requires GoodFrame(fr) && s.fp == Wrap(fr.fp) && d % 4 == 0 && 0 < d <= Size(fr)
    ensures Effect(Sw(r, -d, Fp), s) == Some(Next(s.(mem := s.mem[fr.fp - d := Get(s, r)])))
  {
    hide R.FrameSize, Wrap, EffAddr;
    EffAddrWrap(fr.fp, -d);
  }

  lemma LoadSp(s: State, fr: Frame, r: Reg, d: int)
    requires GoodFrame(fr) && s.sp == Wrap(fr.fp - Size(fr)) && d % 4 == 0 && 0 < d <= Size(fr)
    ensures Effect(Lw(r, Size(fr) - d, Sp), s) == Some(Next(Set(s, r, Read(s.mem, fr.fp - d))))
  {
    hide R.FrameSize, Wrap, EffAddr;
    EffAddrWrap(fr.fp - Size(fr), Size(fr) - d);
  }

  lemma StoreSp(s: State, fr: Frame, r: Reg, d: int)
    requires GoodFrame(fr) && s.sp == Wrap(fr.fp - Size(fr)) && d % 4 == 0 && 0 < d <= Size(fr)
    ensures Effect(Sw(r, Size(fr) - d, Sp), s) == Some(Next(s.(mem := s.mem[fr.fp - d := Get(s, r)])))
  {
    hide R.FrameSize, Wrap, EffAddr;
    EffAddrWrap(fr.fp - Size(fr), Size(fr) - d);
  }

  lemma MoveSp(s: State, rd: Reg, rs: Reg, x: int, k: int)
    requires Get(s, rs) == Wrap(x) && Imm12(k)
    ensures Effect(Addi(rd, rs, k), s) == Some(Next(Set(s, rd, Wrap(x + k))))
  {
    WrapOfSum(x, k);
  }

  // ----- prologue and return -----

  /** The prologue builds a frame that holds the arguments and changes nothing above it. */
  lemma Enter(code: Listing, s: State, fr: Frame) returns (s': State)
    requires GoodFrame(fr) && CodeAt(code, s.pc, EnterCode(fr.locals) + SaveArgs(0))
    requires s.sp == Wrap(fr.fp) && s.ra == fr.ra && s.fp == fr.s0
    requires forall i :: 0 <= i < |fr.ps| ==> s.a[i] == fr.ps[i]
    ensures Reaches(code, s, s') && s'.pc == s.pc + 4 + |SaveArgs(0)|
    ensures s'.ra == s.ra && InFrame(s', fr) && forall x :: x >= fr.fp ==> Read(s'.mem, x) == Read(s.mem, x)
  {
    hide Reaches, Wrap, CodeAt, SaveArgs, R.FrameSize;
    CodeAtSplit(code, s.pc, EnterCode(fr.locals), SaveArgs(0));
    var s4 := EnterFirst(code, s, fr);
    s' := SaveArgsRun(code, s4, fr, 0);
    Then(code, s, s4, s');
  }

  lemma EnterFirst(code: Listing, s: State, fr: Frame) returns (s': State)
    requires GoodFrame(fr) && CodeAt(code, s.pc, EnterCode(fr.locals))
    requires s.sp == Wrap(fr.fp) && s.ra == fr.ra && s.fp == fr.s0
    ensures Reaches(code, s, s')
    ensures s' == s.(pc := s.pc + 4, sp := Wrap(fr.fp - Size(fr)), fp := Wrap(fr.fp),
                     mem := s.mem[fr.fp - 4 := fr.ra][fr.fp - 8 := fr.s0])
  {
    hide Reaches, Wrap, Effect, CodeAt;
    var size := Size(fr);
    CodeAtFour(code, s.pc, EnterCode(fr.locals));
    Stays(code, s);
    MoveSp(s, Sp, Sp, fr.fp, -size);
    var s1 := Do(code, s, s, Addi(Sp, Sp, -size));
    StoreSp(s1, fr, Ra, 4);
    var s2 := Do(code, s, s1, Sw(Ra, size - 4, Sp));
    StoreSp(s2, fr, Fp, 8);
    var s3 := Do(code, s, s2, Sw(Fp, size - 8, Sp));
    MoveSp(s3, Fp, Sp, fr.fp - size, size);
    s' := Do(code, s, s3, Addi(Fp, Sp, size));
  }

  lemma CodeAtFour(code: Listing, pc: nat, c: seq<Instr>)
    requires |c| == 4 && CodeAt(code, pc, c)
    ensures pc + 3 < |code| && code[pc] == c[0] && code[pc + 1] == c[1] && code[pc + 2] == c[2] && code[pc + 3] == c[3]
  {
    assert forall i :: 0 <= i < 4 ==> code[pc + i] == c[i];
    assert code[pc + 0] == c[0];
  }

  lemma {:induction false} SaveArgsRun(code: Listing, s: State, fr: Frame, i: nat) returns (s': State)
    requires i <= 8 && GoodFrame(fr) && s.fp == Wrap(fr.fp) && CodeAt(code, s.pc, SaveArgs(i))
    ensures Reaches(code, s, s') && s' == s.(pc := s.pc + |SaveArgs(i)|, mem := s'.mem)
    ensures forall x :: x > fr.fp - R.ParamSlot(i) ==> Read(s'.mem, x) == Read(s.mem, x)
    ensures forall j :: i <= j < 8 ==> Read(s'.mem, fr.fp - R.ParamSlot(j)) == s.a[j]
    decreases 8 - i
  {
    hide Reaches, Wrap, Effect, CodeAt;
    if i == 8 {
      s' := s;
      Stays(code, s);
    } else {
      CodeAtHead(code, s.pc, Sw(A(i), -R.ParamSlot(i), Fp), SaveArgs(i + 1));
      Stays(code, s);
      StoreFp(s, fr, A(i), R.ParamSlot(i));
      var s1 := Do(code, s, s, Sw(A(i), -(R.ParamSlot(i)), Fp));
      s' := SaveArgsRun(code, s1, fr, i + 1);
      Then(code, s, s1, s');
    }
  }

  /** The function has returned to its caller. */
  ghost predicate Left(s: State, fr: Frame) {
    s.pc == Unsigned(fr.ra) && s.sp == Wrap(fr.fp) && s.fp == fr.s0
  }

  lemma Leave(code: Listing, s: State, fr: Frame) returns (s': State)
    requires GoodFrame(fr) && InFrame(s, fr) && CodeAt(code, s.pc, LeaveCode(fr.locals))
    ensures Reaches(code, s, s') && Left(s', fr) && s'.mem == s.mem && s'.a == s.a
  {
    hide Reaches, Wrap, Effect, CodeAt;
    var size := Size(fr);
    CodeAtFour(code, s.pc, LeaveCode(fr.locals));
    Stays(code, s);
    LoadSp(s, fr, Ra, 4);
    var s1 := Do(code, s, s, Lw(Ra, size - 4, Sp));
    LoadSp(s1, fr, Fp, 8);
    var s2 := Do(code, s, s1, Lw(Fp, size - 8, Sp));
    MoveSp(s2, Sp, Sp, fr.fp - size, size);
    var s3 := Do(code, s, s2, Addi(Sp, Sp, size));
    s' := DoReturn(code, s, s3);
  }

  // ----- spilling around a call -----

  /** The slot of busy temporary j. */
  function TempSlot(free: Flags, base: nat, j: nat): nat
    requires j < 7
  {
    base + 4 * BusyBelow(free, j + 1)
  }

  lemma {:induction false} BusyMonotone(free: Flags, i: nat, j: nat)
    requires i <= j <= 7
    ensures BusyBelow(free, i) <= BusyBelow(free, j) <= BusyBelow(free, i) + (j - i)
    decreases j
  {
    if i < j {
      BusyMonotone(free, i, j - 1);
    }
  }

  /** The busy temporaries below `to` are in their slots. */
  ghost predicate Saved(m: Memory, fr: Frame, free: Flags, base: nat, ts: TRegs) {
    forall j :: 0 <= j < 7 && !free[j] ==> Read(m, fr.fp - TempSlot(free, base, j)) == ts[j]
  }

  /** Only words at the given distances below the frame pointer change. */
  ghost predicate Within(m: Memory, m': Memory, fr: Frame, low: int, high: int) {
    forall x :: !(low < fr.fp - x <= high) ==> Read(m', x) == Read(m, x)
  }

  lemma NothingChanged(m: Memory, fr: Frame)
    ensures forall low, high :: Within(m, m, fr, low, high)
  {
  }

  lemma {:induction false} SaveTempsRun(code: Listing, s: State, fr: Frame, free: Flags, base: nat, i: nat)
      returns (s': State)
    requires i <= 7 && GoodFrame(fr) && s.fp == Wrap(fr.fp)
    requires CodeAt(code, s.pc, SaveTemps(free, i, base + 4 * BusyBelow(free, i)))
    requires BusyBelow(free, 7) > 0 ==> base % 4 == 0 && base + 4 * BusyBelow(free, 7) <= Size(fr)
    ensures Reaches(code, s, s')
    ensures s' == s.(pc := s.pc + |SaveTemps(free, i, base + 4 * BusyBelow(free, i))|, mem := s'.mem)
    ensures forall j :: i <= j < 7 && !free[j] ==> Read(s'.mem, fr.fp - TempSlot(free, base, j)) == s.t[j]
    ensures Within(s.mem, s'.mem, fr, base + 4 * BusyBelow(free, i), base + 4 * BusyBelow(free, 7))
    decreases 7 - i
  {
    hide Reaches, Wrap, Effect, CodeAt, R.FrameSize, Within;
    assert Within(s.mem, s.mem, fr, base + 4 * BusyBelow(free, i), base + 4 * BusyBelow(free, 7))
        by { NothingChanged(s.mem, fr); }
    Stays(code, s);
    if i == 7 {
      s' := s;
    } else if free[i] {
      s' := SaveTempsRun(code, s, fr, free, base, i + 1);
    } else {
      BusyMonotone(free, i + 1, 7);
      var s1 := SaveTemp(code, s, fr, free, base, i);
      s' := SaveTempsRun(code, s1, fr, free, base, i + 1);
      Then(code, s, s1, s');
      OneMoreSaved(s.mem, s1.mem, s'.mem, fr, free, base, i, s.t[i]);
    }
  }

  lemma OneMoreSaved(m: Memory, m1: Memory, m2: Memory, fr: Frame, free: Flags, base: nat, i: nat, w: Word)
    requires i < 7 && !free[i] && m1 == m[fr.fp - TempSlot(free, base, i) := w]
    requires Within(m1, m2, fr, base + 4 * BusyBelow(free, i + 1), base + 4 * BusyBelow(free, 7))
    requires BusyBelow(free, i + 1) <= BusyBelow(free, 7)
    ensures Read(m2, fr.fp - TempSlot(free, base, i)) == w
    ensures Within(m, m2, fr, base + 4 * BusyBelow(free, i), base + 4 * BusyBelow(free, 7))
  {
    hide R.FrameSize;
  }

  lemma SaveTemp(code: Listing, s: State, fr: Frame, free: Flags, base: nat, i: nat) returns (s1: State)
    requires i < 7 && !free[i] && GoodFrame(fr) && s.fp == Wrap(fr.fp)
    requires CodeAt(code, s.pc, SaveTemps(free, i, base + 4 * BusyBelow(free, i)))
    requires base % 4 == 0 && base + 4 * BusyBelow(free, i + 1) <= Size(fr)
    ensures Reaches(code, s, s1) && s1 == s.(pc := s.pc + 1, mem := s.mem[fr.fp - TempSlot(free, base, i) := s.t[i]])
    ensures var rest := SaveTemps(free, i + 1, base + 4 * BusyBelow(free, i + 1));
            CodeAt(code, s1.pc, rest) && |SaveTemps(free, i, base + 4 * BusyBelow(free, i))| == 1 + |rest|
  {
    hide Reaches, Wrap, Effect, CodeAt, R.FrameSize;
    var off := base + 4 * BusyBelow(free, i);
    CodeAtHead(code, s.pc, Sw(T(i), -(off + 4), Fp), SaveTemps(free, i + 1, off + 4));
    StoreFp(s, fr, T(i), off + 4);
    Stays(code, s);
    s1 := Do(code, s, s, Sw(T(i), -(off + 4), Fp));
  }

  lemma {:induction false} RestoreTempsRun(code: Listing, s: State, fr: Frame, free: Flags, base: nat, i: nat)
      returns (s': State)
    requires i <= 7 && GoodFrame(fr) && s.fp == Wrap(fr.fp)
    requires CodeAt(code, s.pc, RestoreTemps(free, i, base + 4 * BusyBelow(free, i)))
    requires BusyBelow(free, 7) > 0 ==> base % 4 == 0 && base + 4 * BusyBelow(free, 7) <= Size(fr)
    ensures Reaches(code, s, s')
    ensures s' == s.(pc := s.pc + |RestoreTemps(free, i, base + 4 * BusyBelow(free, i))|, t := s'.t)
    ensures forall j :: 0 <= j < i && !free[j] ==> s'.t[j] == Read(s.mem, fr.fp - TempSlot(free, base, j))
    ensures forall j :: i <= j < 7 ==> s'.t[j] == s.t[j]
    decreases i
  {
    hide Reaches, Wrap, Effect, CodeAt;
    Stays(code, s);
    if i == 0 {
      s' := s;
    } else if free[i - 1] {
      s' := RestoreTempsRun(code, s, fr, free, base, i - 1);
    } else {
      var off := base + 4 * BusyBelow(free, i);
      BusyMonotone(free, i, 7);
      CodeAtHead(code, s.pc, Lw(T(i - 1), -off, Fp), RestoreTemps(free, i - 1, off - 4));
      LoadFp(s, fr, T(i - 1), off);
      var s1 := Do(code, s, s, Lw(T(i - 1), -(off), Fp));
      s' := RestoreTempsRun(code, s1, fr, free, base, i - 1);
      Then(code, s, s1, s');
    }
  }

  lemma {:induction false} LoadArgsRun(code: Listing, s: State, fr: Frame, top: nat, i: nat, n: nat) returns (s': State)
    requires i <= n <= 8 && GoodFrame(fr) && s.fp == Wrap(fr.fp)
    requires CodeAt(code, s.pc, LoadArgs(i, n, top + 4 * i))
    requires n > 0 ==> top % 4 == 0 && top + 4 * n <= Size(fr)
    ensures Reaches(code, s, s') && s' == s.(pc := s.pc + |LoadArgs(i, n, top + 4 * i)|, a := s'.a)
    ensures forall j :: i <= j < n ==> s'.a[j] == Read(s.mem, fr.fp - (top + 4 * (j + 1)))
    ensures forall j :: 0 <= j < i ==> s'.a[j] == s.a[j]
    decreases n - i
  {
    hide Reaches, Wrap, Effect, CodeAt;
    Stays(code, s);
    if i == n {
      s' := s;
    } else {
      var off := top + 4 * i + 4;
      CodeAtHead(code, s.pc, Lw(A(i), -off, Fp), LoadArgs(i + 1, n, off));
      LoadFp(s, fr, A(i), off);
      var s1 := Do(code, s, s, Lw(A(i), -(off), Fp));
      s' := LoadArgsRun(code, s1, fr, top, i + 1, n);
      Then(code, s, s1, s');
    }
  }
}
