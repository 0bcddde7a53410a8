/** An RV32IM machine restricted to the instructions the compiler emits, following "RV32I Base
    Integer Instruction Set" and "'M' Standard Extension" of the RISC-V Unprivileged ISA manual.
    The program counter is an index into the listing; a label is an entry that does nothing. */
module Machine {
  import opened Options
  import opened Words

  type TIndex = i: nat | i < 7
  type AIndex = i: nat | i < 8

  datatype Reg = Zero | Ra | Sp | Fp | T(t: TIndex) | A(a: AIndex)

  datatype LabelKind = ForLabel | IfLabel | WhileLabel | ElseLabel | AndLabel | OrLabel
  datatype Part = Bare | InitPart | CondPart | BodyPart | StepPart | StartPart | EndPart | TruePart | FalsePart
  datatype Label = Start | Function(name: string) | Generated(kind: LabelKind, n: nat, part: Part)

  datatype AluOp = ADD | SUB | MUL | DIV | SLT | SLL | SRA | AND | OR | XOR

  datatype Instr =
    | Lab(name: Label)
    | Alu(op: AluOp, rd: Reg, rs1: Reg, rs2: Reg)
    | Seqz(rd: Reg, rs: Reg)
    | Snez(rd: Reg, rs: Reg)
    | Addi(rd: Reg, rs: Reg, imm: int)
    | Xori(rd: Reg, rs: Reg, imm: int)
    | Mv(rd: Reg, rs: Reg)
    | Lw(rd: Reg, off: int, base: Reg)
    | Sw(src: Reg, off: int, base: Reg)
    | Beq(rs1: Reg, rs2: Reg, target: Label)
    | Bne(rs1: Reg, rs2: Reg, target: Label)
    | J(target: Label)
    | Jal(target: Label)
    | JalrRa
    | Ecall

  type Listing = seq<Instr>

  type TRegs = s: seq<Word> | |s| == 7 witness [0, 0, 0, 0, 0, 0, 0]
  type ARegs = s: seq<Word> | |s| == 8 witness [0, 0, 0, 0, 0, 0, 0, 0]
  type Memory = map<int, Word>

  datatype State = State(pc: nat, ra: Word, sp: Word, fp: Word, t: TRegs, a: ARegs, mem: Memory)

  function Get(s: State, r: Reg): Word {
    match r
    case Zero => 0
    case Ra => s.ra
    case Sp => s.sp
    case Fp => s.fp
    case T(i) => s.t[i]
    case A(i) => s.a[i]
  }

  function Set(s: State, r: Reg, w: Word): State {
    match r
    case Zero => s
    case Ra => s.(ra := w)
    case Sp => s.(sp := w)
    case Fp => s.(fp := w)
    case T(i) => s.(t := s.t[i := w])
    case A(i) => s.(a := s.a[i := w])
  }

  function Read(m: Memory, x: int): Word {
    if x in m then m[x] else 0
  }

  /** What fits the immediate field of addi, xori, lw and sw. */
  predicate Imm12(k: int) {
    -2048 <= k <= 2047
  }

  function AluResult(op: AluOp, x: Word, y: Word): Word {
    match op
    case ADD => Wrap(x + y)
    case SUB => Wrap(x - y)
    case MUL => Wrap(x * y)
    case DIV => DivWord(x, y)
    case SLT => Truth(x < y)
    case SLL => ShiftLeft(x, y)
    case SRA => ShiftRight(x, y)
    case AND => And(x, y)
    case OR => Or(x, y)
    case XOR => Xor(x, y)
  }

  /** The position of a label in the listing. */
  function Position(code: Listing, l: Label): (k: Option<nat>)
    ensures k.Some? ==> k.value < |code| && code[k.value] == Lab(l)
  {
    if code == [] then None
    else if code[0] == Lab(l) then Some(0)
    else var k :- Position(code[1..], l); Some(k + 1)
  }

  function Next(s: State): State {
    s.(pc := s.pc + 1)
  }

  function Goto(code: Listing, s: State, l: Label): Option<State> {
    var k :- Position(code, l); Some(s.(pc := k))
  }

  /** An instruction other than a jump. The machine is stuck at an `ecall`, on an immediate that
      cannot be encoded and on a misaligned word. */
  function Effect(i: Instr, s: State): Option<State> {
    match i
    case Lab(_) => Some(Next(s))
    case Alu(op, rd, r1, r2) => Some(Next(Set(s, rd, AluResult(op, Get(s, r1), Get(s, r2)))))
    case Seqz(rd, r) => Some(Next(Set(s, rd, Truth(Get(s, r) == 0))))
    case Snez(rd, r) => Some(Next(Set(s, rd, Truth(Get(s, r) != 0))))
    case Addi(rd, r, k) => if Imm12(k) then Some(Next(Set(s, rd, Wrap(Get(s, r) + k)))) else None
    case Xori(rd, r, k) => if Imm12(k) then Some(Next(Set(s, rd, Xor(Get(s, r), k)))) else None
    case Mv(rd, r) => Some(Next(Set(s, rd, Get(s, r))))
    case Lw(rd, off, b) =>
      var x := EffAddr(Get(s, b), off);
      if Imm12(off) && x % 4 == 0 then Some(Next(Set(s, rd, Read(s.mem, x)))) else None
    case Sw(r, off, b) =>
      var x := EffAddr(Get(s, b), off);
      if Imm12(off) && x % 4 == 0 then Some(Next(s.(mem := s.mem[x := Get(s, r)]))) else None
    case _ => None
  }

  /** One instruction. The machine is also stuck outside the listing and on an undefined label. */
  function Step(code: Listing, s: State): Option<State> {
    if s.pc >= |code| then None else
    match code[s.pc]
    case Beq(r1, r2, l) => if Get(s, r1) == Get(s, r2) then Goto(code, s, l) else Some(Next(s))
    case Bne(r1, r2, l) => if Get(s, r1) != Get(s, r2) then Goto(code, s, l) else Some(Next(s))
    case J(l) => Goto(code, s, l)
    case Jal(l) => Goto(code, s.(ra := Wrap(s.pc + 1)), l)
    // jalr ra: jumps to the old ra and links into ra
    case JalrRa => Some(s.(pc := Unsigned(s.ra), ra := Wrap(s.pc + 1)))
    case i => Effect(i, s)
  }

  function Steps(code: Listing, s: State, n: nat): Option<State>
    decreases n
  {
    if n == 0 then Some(s) else var s1 :- Step(code, s); Steps(code, s1, n - 1)
  }

  ghost predicate Reaches(code: Listing, s: State, s': State) {
    exists n: nat :: Steps(code, s, n) == Some(s')
  }

  lemma Stays(code: Listing, s: State)
    ensures Reaches(code, s, s)
  {
    assert Steps(code, s, 0) == Some(s);
  }

  lemma {:induction false} StepsAdd(code: Listing, s: State, s1: State, n: nat, m: nat)
    requires Steps(code, s, n) == Some(s1)
    ensures Steps(code, s, n + m) == Steps(code, s1, m)
    decreases n
  {
    hide Step;
    if n > 0 {
      StepsAdd(code, Step(code, s).value, s1, n - 1, m);
    }
  }

  lemma Then(code: Listing, s: State, s1: State, s2: State)
    requires Reaches(code, s, s1) && Reaches(code, s1, s2)
    ensures Reaches(code, s, s2)
  {
    var n: nat :| Steps(code, s, n) == Some(s1);
    var m: nat :| Steps(code, s1, m) == Some(s2);
    StepsAdd(code, s, s1, n, m);
  }

  lemma ThenStep(code: Listing, s: State, s1: State, s2: State)
    requires Reaches(code, s, s1) && Step(code, s1) == Some(s2)
    ensures Reaches(code, s, s2)
  {
    assert Reaches(code, s1, s2) by {
      assert Steps(code, s1, 1) == Some(s2);
    }
    Then(code, s, s1, s2);
  }

  /** A run continued by the instruction i. */
  lemma Do(code: Listing, s0: State, s: State, i: Instr) returns (s1: State)
    requires Reaches(code, s0, s) && s.pc < |code| && code[s.pc] == i && Effect(i, s).Some?
    ensures s1 == Effect(i, s).value && Reaches(code, s0, s1)
  {
    s1 := Effect(i, s).value;
    assert Step(code, s) == Some(s1);
    hide Reaches, Step, Effect;
    ThenStep(code, s0, s, s1);
  }

  /** A run continued by a jump to the label at position k. */
  lemma DoJump(code: Listing, s0: State, s: State, l: Label, k: nat) returns (s1: State)
    requires Reaches(code, s0, s) && s.pc < |code| && Position(code, l) == Some(k)
    requires match code[s.pc]
             case J(t) => t == l
             case Beq(r1, r2, t) => t == l && Get(s, r1) == Get(s, r2)
             case Bne(r1, r2, t) => t == l && Get(s, r1) != Get(s, r2)
             case _ => false
    ensures s1 == s.(pc := k) && Reaches(code, s0, s1)
  {
    s1 := s.(pc := k);
    assert Step(code, s) == Some(s1);
    hide Reaches, Step;
    ThenStep(code, s0, s, s1);
  }

  /** A run continued past a branch that is not taken. */
  lemma DoNotBranch(code: Listing, s0: State, s: State) returns (s1: State)
    requires Reaches(code, s0, s) && s.pc < |code|
    requires match code[s.pc]
             case Beq(r1, r2, _) => Get(s, r1) != Get(s, r2)
             case Bne(r1, r2, _) => Get(s, r1) == Get(s, r2)
             case _ => false
    ensures s1 == s.(pc := s.pc + 1) && Reaches(code, s0, s1)
  {
    s1 := s.(pc := s.pc + 1);
    assert Step(code, s) == Some(s1);
    hide Reaches, Step;
    ThenStep(code, s0, s, s1);
  }

  /** A run continued by a return. */
  lemma DoReturn(code: Listing, s0: State, s: State) returns (s1: State)
    requires Reaches(code, s0, s) && s.pc < |code| && code[s.pc] == JalrRa
    ensures s1 == s.(pc := Unsigned(s.ra), ra := Wrap(s.pc + 1)) && Reaches(code, s0, s1)
  {
    s1 := s.(pc := Unsigned(s.ra), ra := Wrap(s.pc + 1));
    assert Step(code, s) == Some(s1);
    hide Reaches, Step;
    ThenStep(code, s0, s, s1);
  }

  /** A run continued by a call of the function whose label is at position k. */
  lemma DoCall(code: Listing, s0: State, s: State, l: Label, k: nat) returns (s1: State)
    requires Reaches(code, s0, s) && s.pc < |code| && code[s.pc] == Jal(l) && Position(code, l) == Some(k)
    ensures s1 == s.(pc := k, ra := Wrap(s.pc + 1)) && Reaches(code, s0, s1)
  {
    s1 := s.(pc := k, ra := Wrap(s.pc + 1));
    assert Step(code, s) == Some(s1);
    hide Reaches, Step;
    ThenStep(code, s0, s, s1);
  }

  // ----- code inside a listing -----

  ghost predicate CodeAt(code: Listing, pc: nat, part: seq<Instr>) {
    && pc + |part| <= |code|
    && forall i :: 0 <= i < |part| ==> code[pc + i] == part[i]
  }

  lemma CodeAtSplit(code: Listing, pc: nat, a: seq<Instr>, b: seq<Instr>)
    requires CodeAt(code, pc, a + b)
    ensures CodeAt(code, pc, a)
    ensures CodeAt(code, pc + |a|, b)
  {
    forall i | 0 <= i < |a| ensures code[pc + i] == a[i] {
      assert (a + b)[i] == a[i];
    }
    forall i | 0 <= i < |b| ensures code[pc + |a| + i] == b[i] {
      assert (a + b)[|a| + i] == b[i];
    }
  }

  lemma CodeAtHead(code: Listing, pc: nat, i: Instr, rest: seq<Instr>)
    requires CodeAt(code, pc, [i] + rest)
    ensures pc < |code| && code[pc] == i && CodeAt(code, pc + 1, rest)
  {
    assert ([i] + rest)[0] == i;
    CodeAtSplit(code, pc, [i], rest);
    assert code[pc + 0] == i;
  }

  lemma CodeAtOne(code: Listing, pc: nat, i: Instr)
    requires CodeAt(code, pc, [i])
    ensures pc < |code| && code[pc] == i
  {
    assert code[pc + 0] == [i][0];
  }

  lemma CodeAtInside(code: Listing, pc: nat, part: seq<Instr>, off: nat, sub: seq<Instr>)
    requires CodeAt(code, pc, part) && CodeAt(part, off, sub)
    ensures CodeAt(code, pc + off, sub)
  {
    forall i | 0 <= i < |sub| ensures code[pc + off + i] == sub[i] {
      assert code[pc + (off + i)] == part[off + i];
    }
  }

  lemma CodeAtConcat(a: seq<Instr>, b: seq<Instr>)
    ensures CodeAt(a + b, 0, a) && CodeAt(a + b, |a|, b)
  {
  }

  ghost predicate UniqueLabels(code: Listing) {
    forall i, j :: 0 <= i < j < |code| && code[i].Lab? ==> code[i] != code[j]
  }

  lemma {:induction false} PositionOfUnique(code: Listing, k: nat)
    requires UniqueLabels(code) && k < |code| && code[k].Lab?
    ensures Position(code, code[k].name) == Some(k)
  {
    if k > 0 {
      assert code[0] != code[k];
      PositionOfUnique(code[1..], k - 1);
    }
  }
}
