/** The code of each binary operator computes it. */
module Operators {
  import opened Options
  import opened Words
  import opened Machine
  import opened CodeGen
  import R = Resolved
  import Semantics

  /** What the code of an operator computes on any two words. */
  function OpWord(op: R.BinOp, x: Word, y: Word): Word {
    match op
    case Div => DivWord(x, y)
    case Shl => ShiftLeft(x, y)
    case Shr => ShiftRight(x, y)
    case _ => Semantics.BinResult(op, x, y).value
  }

  lemma OpWordIsResult(op: R.BinOp, x: Word, y: Word)
    requires Semantics.BinResult(op, x, y).Some?
    ensures OpWord(op, x, y) == Semantics.BinResult(op, x, y).value
  {
    if op == R.Shl || op == R.Shr {
      assert y % 32 == y;
    }
  }

  /** The run changes nothing but the result register and free temporaries. */
  ghost predicate Computes(code: Listing, op: R.BinOp, l: TIndex, r: TIndex, g: Gen, z: ExprCode, s: State, s': State) {
    && Reaches(code, s, s')
    && s' == s.(pc := s.pc + |z.code|, t := s'.t)
    && s'.t[z.reg] == OpWord(op, s.t[l], s.t[r])
    && forall i :: 0 <= i < 7 && !g.free[i] && i != z.reg ==> s'.t[i] == s.t[i]
  }

  lemma OpRun(code: Listing, op: R.BinOp, l: TIndex, r: TIndex, g: Gen, z: ExprCode, s: State) returns (s': State)
    requires GenOp(op, l, r, g) == Some(z) && !g.free[l] && !g.free[r]
    requires CodeAt(code, s.pc, z.code) && UniqueLabels(code)
    ensures Computes(code, op, l, r, g, z, s, s')
  {
    hide *;
    if op == R.Eq || op == R.Ne {
      s' := Equality(code, op, l, r, g, z, s);
    } else if op == R.Le || op == R.Ge {
      s' := InvertedOrder(code, op, l, r, g, z, s);
    } else if op == R.LogAnd {
      s' := AndRun(code, l, r, g, z, s);
    } else if op == R.LogOr {
      s' := OrRun(code, l, r, g, z, s);
    } else {
      s' := OneInstruction(code, op, l, r, g, z, s);
    }
  }

  lemma OneInstruction(code: Listing, op: R.BinOp, l: TIndex, r: TIndex, g: Gen, z: ExprCode, s: State)
      returns (s': State)
    requires GenOp(op, l, r, g) == Some(z) && CodeAt(code, s.pc, z.code)
    requires op !in {R.Eq, R.Ne, R.Le, R.Ge, R.LogAnd, R.LogOr}
    ensures Computes(code, op, l, r, g, z, s, s')
  {
    hide Reaches, CodeAt, Wrap, And, Or, Xor, DivWord, ShiftLeft, ShiftRight, Doubled, Halved;
    var i := z.code[0];
    assert z.code == [i];
    CodeAtOne(code, s.pc, i);
    Stays(code, s);
    s' := Do(code, s, s, i);
  }

  lemma Equality(code: Listing, op: R.BinOp, l: TIndex, r: TIndex, g: Gen, z: ExprCode, s: State) returns (s': State)
    requires GenOp(op, l, r, g) == Some(z) && CodeAt(code, s.pc, z.code) && !g.free[l] && !g.free[r]
    requires op == R.Eq || op == R.Ne
    ensures Computes(code, op, l, r, g, z, s, s')
  {
    hide Reaches, CodeAt, Wrap;
    var i, j := z.code[0], z.code[1];
    assert z.code == [i] + [j];
    CodeAtHead(code, s.pc, i, [j]);
    CodeAtOne(code, s.pc + 1, j);
    Stays(code, s);
    var s1 := Do(code, s, s, i);
    WrappedDifferenceIsZero(s.t[l], s.t[r]);
    s' := Do(code, s, s1, j);
  }

  lemma InvertedOrder(code: Listing, op: R.BinOp, l: TIndex, r: TIndex, g: Gen, z: ExprCode, s: State)
      returns (s': State)
    requires GenOp(op, l, r, g) == Some(z) && CodeAt(code, s.pc, z.code) && !g.free[l] && !g.free[r]
    requires op == R.Le || op == R.Ge
    ensures Computes(code, op, l, r, g, z, s, s')
  {
    hide Reaches, CodeAt, Wrap, Xor, And, Or, DivWord, ShiftLeft, ShiftRight, GenOp;
    var y := InvertedParts(op, l, r, g, z);
    var i, j := z.code[0], z.code[1];
    CodeAtHead(code, s.pc, i, [j]);
    CodeAtOne(code, s.pc + 1, j);
    Stays(code, s);
    var s1 := Do(code, s, s, i);
    XorOneInverts(if op == R.Le then s.t[r] < s.t[l] else s.t[l] < s.t[r]);
    s' := Do(code, s, s1, j);
  }

  /** The two instructions, which compare to a second free register. */
  lemma InvertedParts(op: R.BinOp, l: TIndex, r: TIndex, g: Gen, z: ExprCode) returns (y: TIndex)
    requires GenOp(op, l, r, g) == Some(z) && (op == R.Le || op == R.Ge)
    ensures g.free[y] && y != z.reg
    ensures z.code == [if op == R.Le then Alu(SLT, T(y), T(r), T(l)) else Alu(SLT, T(y), T(l), T(r))] +
            [Xori(T(z.reg), T(y), 1)]
  {
    var x := Alloc(g).value;
    y := Alloc(x.g).value.reg;
  }

  /** The end of `&&` and `||` code when no branch is taken ... */
  lemma NotTaken(code: Listing, s: State, x: TIndex, v: int, end: Label) returns (s': State)
    requires s.pc + 5 <= |code| && (v == 0 || v == 1)
    requires code[s.pc] == Addi(T(x), Zero, v) && code[s.pc + 1] == J(end) && code[s.pc + 4] == Lab(end)
    requires Position(code, end) == Some(s.pc + 4)
    ensures Reaches(code, s, s') && s' == s.(pc := s.pc + 5, t := s.t[x := v])
  {
    hide Reaches, Position;
    Stays(code, s);
    var s1 := Do(code, s, s, Addi(T(x), Zero, v));
    var s2 := DoJump(code, s, s1, end, s.pc + 4);
    s' := Do(code, s, s2, Lab(end));
  }

  /** ... and when one is. */
  lemma Taken(code: Listing, s: State, x: TIndex, v: int, l: Label, end: Label) returns (s': State)
    requires s.pc + 3 <= |code| && (v == 0 || v == 1)
    requires code[s.pc] == Lab(l) && code[s.pc + 1] == Addi(T(x), Zero, v) && code[s.pc + 2] == Lab(end)
    ensures Reaches(code, s, s') && s' == s.(pc := s.pc + 3, t := s.t[x := v])
  {
    hide Reaches;
    Stays(code, s);
    var s1 := Do(code, s, s, Lab(l));
    var s2 := Do(code, s, s1, Addi(T(x), Zero, v));
    s' := Do(code, s, s2, Lab(end));
  }

  /** Both operands are evaluated by now; the branches only choose between 0 and 1. */
  lemma AndRun(code: Listing, l: TIndex, r: TIndex, g: Gen, z: ExprCode, s: State) returns (s': State)
    requires GenOp(R.LogAnd, l, r, g) == Some(z) && !g.free[l] && !g.free[r]
    requires CodeAt(code, s.pc, z.code) && UniqueLabels(code)
    ensures Computes(code, R.LogAnd, l, r, g, z, s, s')
  {
    hide Reaches, CodeAt, UniqueLabels, Position, Effect;
    CodeAtSeven(code, s.pc, z.code);
    PositionOfUnique(code, s.pc + 4);
    PositionOfUnique(code, s.pc + 6);
    Stays(code, s);
    var no, end := code[s.pc + 4].name, code[s.pc + 6].name;
    var s1;
    if s.t[l] == 0 {
      s1 := DoJump(code, s, s, no, s.pc + 4);
      s' := Taken(code, s1, z.reg, 0, no, end);
    } else {
      s1 := DoNotBranch(code, s, s);
      if s.t[r] == 0 {
        s1 := DoJump(code, s, s1, no, s.pc + 4);
        s' := Taken(code, s1, z.reg, 0, no, end);
      } else {
        s1 := DoNotBranch(code, s, s1);
        s' := NotTaken(code, s1, z.reg, 1, end);
      }
    }
    Then(code, s, s1, s');
  }

  lemma OrRun(code: Listing, l: TIndex, r: TIndex, g: Gen, z: ExprCode, s: State) returns (s': State)
    requires GenOp(R.LogOr, l, r, g) == Some(z) && !g.free[l] && !g.free[r]
    requires CodeAt(code, s.pc, z.code) && UniqueLabels(code)
    ensures Computes(code, R.LogOr, l, r, g, z, s, s')
  {
    hide Reaches, CodeAt, UniqueLabels, Position, Effect;
    CodeAtSeven(code, s.pc, z.code);
    PositionOfUnique(code, s.pc + 4);
    PositionOfUnique(code, s.pc + 6);
    Stays(code, s);
    var yes, end := code[s.pc + 4].name, code[s.pc + 6].name;
    var s1;
    if s.t[l] != 0 {
      s1 := DoJump(code, s, s, yes, s.pc + 4);
      s' := Taken(code, s1, z.reg, 1, yes, end);
    } else {
      s1 := DoNotBranch(code, s, s);
      if s.t[r] != 0 {
        s1 := DoJump(code, s, s1, yes, s.pc + 4);
        s' := Taken(code, s1, z.reg, 1, yes, end);
      } else {
        s1 := DoNotBranch(code, s, s1);
        s' := NotTaken(code, s1, z.reg, 0, end);
      }
    }
    Then(code, s, s1, s');
  }

  lemma CodeAtSeven(code: Listing, pc: nat, c: seq<Instr>)
    requires |c| == 7 && CodeAt(code, pc, c)
    ensures pc + 7 <= |code| && code[pc] == c[0] && code[pc + 1] == c[1] && code[pc + 2] == c[2] && code[pc + 3] == c[3]
    ensures code[pc + 4] == c[4] && code[pc + 5] == c[5] && code[pc + 6] == c[6]
  {
    assert forall i :: 0 <= i < 7 ==> code[pc + i] == c[i];
    assert code[pc + 0] == c[0];
  }
}
