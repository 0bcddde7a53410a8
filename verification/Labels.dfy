/** Well-formedness of the generated labels: no label is defined twice in a listing, and every
    branch stays inside its function, at a label defined there exactly once. */
module Labels {
  import opened Options
  import opened Machine
  import opened CodeGen
  import R = Resolved

  /** How often a label is defined. */
  function Defs(code: seq<Instr>, l: Label): nat {
    if code == [] then 0 else (if code[0] == Lab(l) then 1 else 0) + Defs(code[1..], l)
  }

  predicate BranchesTo(i: Instr, l: Label) {
    match i
    case Beq(_, _, t) => t == l
    case Bne(_, _, t) => t == l
    case J(t) => t == l
    case _ => false
  }

  predicate Targeted(code: seq<Instr>, l: Label) {
    code != [] && (BranchesTo(code[0], l) || Targeted(code[1..], l))
  }

  lemma {:induction false} DefsConcat(a: seq<Instr>, b: seq<Instr>, l: Label)
    ensures Defs(a + b, l) == Defs(a, l) + Defs(b, l)
    ensures Targeted(a + b, l) <==> Targeted(a, l) || Targeted(b, l)
  {
    if a == [] {
      assert a + b == b;
    } else {
      assert (a + b)[1..] == a[1..] + b;
      DefsConcat(a[1..], b, l);
    }
  }

  lemma DefsConcat3(a: seq<Instr>, b: seq<Instr>, c: seq<Instr>, l: Label)
    ensures Defs(a + b + c, l) == Defs(a, l) + Defs(b, l) + Defs(c, l)
    ensures Targeted(a + b + c, l) <==> Targeted(a, l) || Targeted(b, l) || Targeted(c, l)
  {
    DefsConcat(a, b, l);
    DefsConcat(a + b, c, l);
  }

  lemma DefsConcat5(a: seq<Instr>, b: seq<Instr>, c: seq<Instr>, d: seq<Instr>, e: seq<Instr>, l: Label)
    ensures Defs(a + b + c + d + e, l) == Defs(a, l) + Defs(b, l) + Defs(c, l) + Defs(d, l) + Defs(e, l)
    ensures Targeted(a + b + c + d + e, l) <==>
            Targeted(a, l) || Targeted(b, l) || Targeted(c, l) || Targeted(d, l) || Targeted(e, l)
  {
    DefsConcat3(a, b, c, l);
    DefsConcat3(a + b + c, d, e, l);
  }

  lemma DefsOne(i: Instr, l: Label)
    ensures Defs([i], l) == if i == Lab(l) then 1 else 0
    ensures Targeted([i], l) <==> BranchesTo(i, l)
  {
    assert [i][1..] == [];
  }

  lemma DefsTwo(i: Instr, j: Instr, l: Label)
    ensures Defs([i, j], l) == Defs([i], l) + Defs([j], l)
    ensures Targeted([i, j], l) <==> Targeted([i], l) || Targeted([j], l)
  {
    assert [i, j] == [i] + [j];
    DefsConcat([i], [j], l);
  }

  function Count(c: Counts, k: LabelKind): nat {
    match k
    case ForLabel => c.fors
    case IfLabel => c.ifs
    case WhileLabel => c.whiles
    case ElseLabel => c.elses
    case AndLabel => c.ands
    case OrLabel => c.ors
  }

  predicate AtMost(a: Counts, b: Counts) {
    && a.fors <= b.fors && a.whiles <= b.whiles && a.ifs <= b.ifs
    && a.elses <= b.elses && a.ands <= b.ands && a.ors <= b.ors
  }

  /** How often code that moves the counters from a to b may define l. */
  function Allowance(l: Label, a: Counts, b: Counts): nat {
    if l.Generated? && Count(a, l.kind) <= l.n < Count(b, l.kind) then 1 else 0
  }

  /** The code defines only labels numbered from a up to b, each once, and all it branches to. */
  ghost predicate Labelled(code: seq<Instr>, l: Label, a: Counts, b: Counts) {
    && AtMost(a, b)
    && Defs(code, l) <= Allowance(l, a, b)
    && (Targeted(code, l) ==> Defs(code, l) == 1)
  }

  lemma {:induction false} Plain(code: seq<Instr>, l: Label)
    requires forall i :: 0 <= i < |code| ==> !code[i].Lab? && !BranchesTo(code[i], l)
    ensures Defs(code, l) == 0 && !Targeted(code, l)
  {
    if code != [] {
      Plain(code[1..], l);
    }
  }

  lemma LabelledNothing(l: Label, c: Counts)
    ensures Labelled([], l, c, c)
  {
  }

  lemma {:induction false} LabelsOfExpr(frames: Frames, e: R.Expr, g: Gen, l: Label)
    ensures var x := GenExpr(frames, e, g);
            x.Some? ==> Labelled(x.value.code, l, g.counts, x.value.g.counts)
    decreases e, 1
  {
    hide Defs, Targeted, GenOp, GenArgs, CallCode, BusyBelow;
    var x := GenExpr(frames, e, g);
    if x.Some? {
      match e
      case Num(_) => Plain(x.value.code, l);
      case Ident(_) => Plain(x.value.code, l);
      case Not(e1) =>
        var z := Alloc(g).value;
        LabelsOfExpr(frames, e1, z.g, l);
        var y := GenExpr(frames, e1, z.g).value;
        LabelsAround([], y.code, [Seqz(T(z.reg), T(y.reg))], l);
      case Assign(_, e1) =>
        var z := Alloc(g).value;
        LabelsOfExpr(frames, e1, z.g, l);
        var y := GenExpr(frames, e1, z.g).value;
        LabelsAround([Addi(T(z.reg), Zero, R.LocalSlot(e.target.offset))], y.code,
                     [Alu(SUB, T(z.reg), Fp, T(z.reg)), Sw(T(y.reg), 0, T(z.reg))], l);
      case Bin(op, left, right) =>
        LabelsOfExpr(frames, left, g, l);
        var y := GenExpr(frames, left, g).value;
        LabelsOfExpr(frames, right, y.g, l);
        var z := GenExpr(frames, right, y.g).value;
        LabelsOfOp(op, y.reg, z.reg, z.g, l);
        DefsConcat3(y.code, z.code, GenOp(op, y.reg, z.reg, z.g).value.code, l);
      case Call(f, args) => LabelsOfCall(frames, e, g, l);
    }
  }

  /** Instructions that are neither labels nor branches add nothing around other code. */
  lemma LabelsAround(head: seq<Instr>, code: seq<Instr>, tail: seq<Instr>, l: Label)
    requires forall i :: i in head + tail ==> !i.Lab? && !BranchesTo(i, l)
    ensures Defs(head + code + tail, l) == Defs(code, l) && (Targeted(head + code + tail, l) <==> Targeted(code, l))
    ensures head == [] ==> head + code + tail == code + tail
  {
    hide Defs, Targeted;
    assert forall i :: i in head ==> i in head + tail;
    assert forall i :: i in tail ==> i in head + tail;
    Plain(head, l);
    Plain(tail, l);
    DefsConcat3(head, code, tail, l);
    if head == [] {
      assert head + code + tail == code + tail;
    }
  }

  lemma LabelsOfCall(frames: Frames, e: R.Expr, g: Gen, l: Label)
    requires e.Call? && GenExpr(frames, e, g).Some?
    ensures var x := GenExpr(frames, e, g).value;
            Labelled(x.code, l, g.counts, x.g.counts)
    decreases e, 0
  {
    hide Defs, Targeted, CallCode, BusyBelow, GenArgs;
    var base := frames[e.name] + 44;
    var x := GenExpr(frames, e, g).value;
    LabelsOfArgs(frames, e.args, g.(free := AllFree), base + 4 * BusyBelow(g.free, 7), l);
    var xs := GenArgs(frames, e.args, g.(free := AllFree), base + 4 * BusyBelow(g.free, 7)).value;
    LabelsOfCallCode(g.free, base, xs.code, |e.args|, e.name, l);
    DefsOne(Mv(T(x.reg), A(0)), l);
    DefsConcat(CallCode(g.free, base, xs.code, |e.args|, e.name), [Mv(T(x.reg), A(0))], l);
  }

  lemma LabelsOfCallCode(free: Flags, base: nat, args: seq<Instr>, k: nat, f: string, l: Label)
    ensures Defs(CallCode(free, base, args, k, f), l) == Defs(args, l)
    ensures Targeted(CallCode(free, base, args, k, f), l) <==> Targeted(args, l)
  {
    hide Defs, Targeted, SaveTemps, LoadArgs, RestoreTemps, BusyBelow;
    var top := base + 4 * BusyBelow(free, 7);
    var n := if k < 8 then k else 8;
    SaveIsPlain(free, 0, base, l);
    LoadIsPlain(0, n, top, l);
    RestoreIsPlain(free, 7, top, l);
    DefsConcat5(SaveTemps(free, 0, base), args, LoadArgs(0, n, top), [Jal(Function(f))], RestoreTemps(free, 7, top), l);
    DefsOne(Jal(Function(f)), l);
  }

  lemma LabelsOfOp(op: R.BinOp, left: TIndex, right: TIndex, g: Gen, l: Label)
    ensures var x := GenOp(op, left, right, g);
            x.Some? ==> Labelled(x.value.code, l, g.counts, x.value.g.counts)
  {
    hide Defs, Targeted;
    var x := GenOp(op, left, right, g);
    if x.Some? {
      if op == R.LogAnd {
        LabelsOfAnd(x.value.reg, left, right, g.counts.ands, l);
      } else if op == R.LogOr {
        LabelsOfOr(x.value.reg, left, right, g.counts.ors, l);
      } else {
        PlainOp(op, left, right, g);
        Plain(x.value.code, l);
      }
    }
  }

  lemma LabelsOfAnd(x: TIndex, left: TIndex, right: TIndex, n: nat, l: Label)
    ensures var c := LogAndCode(x, left, right, n);
            && Defs(c, l) ==
                (if l == Generated(AndLabel, n, FalsePart) || l == Generated(AndLabel, n, EndPart) then 1 else 0)
            && (Targeted(c, l) ==> Defs(c, l) == 1)
  {
    LabelsOfLogical(LogAndCode(x, left, right, n), l);
    hide Defs, Targeted;
  }

  lemma LabelsOfOr(x: TIndex, left: TIndex, right: TIndex, n: nat, l: Label)
    ensures var c := LogOrCode(x, left, right, n);
            && Defs(c, l) ==
                (if l == Generated(OrLabel, n, TruePart) || l == Generated(OrLabel, n, EndPart) then 1 else 0)
            && (Targeted(c, l) ==> Defs(c, l) == 1)
  {
    LabelsOfLogical(LogOrCode(x, left, right, n), l);
    hide Defs, Targeted;
  }

  lemma PlainOp(op: R.BinOp, left: TIndex, right: TIndex, g: Gen)
    requires op != R.LogAnd && op != R.LogOr && GenOp(op, left, right, g).Some?
    ensures var x := GenOp(op, left, right, g).value;
            && x.g.counts == g.counts
            && 1 <= |x.code| <= 2 && !x.code[0].Lab? && (forall l :: !BranchesTo(x.code[0], l))
            && (|x.code| == 2 ==> !x.code[1].Lab? && forall l :: !BranchesTo(x.code[1], l))
  {
  }

  lemma LabelsOfLogical(c: seq<Instr>, l: Label)
    requires |c| == 7
    ensures Defs(c, l) == Defs([c[0]], l) + Defs([c[1]], l) + Defs([c[2]], l) + Defs([c[3]], l) +
                          Defs([c[4]], l) + Defs([c[5]], l) + Defs([c[6]], l)
    ensures Targeted(c, l) <==> exists i :: 0 <= i < 7 && BranchesTo(c[i], l)
    ensures forall i :: 0 <= i < 7 ==> Defs([c[i]], l) == if c[i] == Lab(l) then 1 else 0
  {
    DefsConcat5([c[0]], [c[1]], [c[2]], [c[3]], [c[4]], l);
    DefsTwo(c[5], c[6], l);
    DefsConcat([c[0]] + [c[1]] + [c[2]] + [c[3]] + [c[4]], [c[5], c[6]], l);
    assert c == [c[0]] + [c[1]] + [c[2]] + [c[3]] + [c[4]] + [c[5], c[6]];
    forall i | 0 <= i < 7
      ensures Targeted([c[i]], l) <==> BranchesTo(c[i], l)
      ensures Defs([c[i]], l) == if c[i] == Lab(l) then 1 else 0
    {
      DefsOne(c[i], l);
    }
  }

  lemma {:induction false} LabelsOfArgs(frames: Frames, args: seq<R.Expr>, g: Gen, off: nat, l: Label)
    ensures var x := GenArgs(frames, args, g, off);
            x.Some? ==> Labelled(x.value.code, l, g.counts, x.value.g.counts)
    decreases args
  {
    hide Defs, Targeted;
    if args == [] {
      Plain([], l);
    } else if GenArgs(frames, args, g, off).Some? {
      LabelsOfExpr(frames, args[0], g, l);
      var x := GenExpr(frames, args[0], g).value;
      LabelsOfArgs(frames, args[1..], Release(x.g, x.reg), off + 4, l);
      var xs := GenArgs(frames, args[1..], Release(x.g, x.reg), off + 4).value;
      var store := Sw(T(x.reg), -(off + 4), Fp);
      DefsOne(store, l);
      DefsConcat3(x.code, [store], xs.code, l);
    }
  }

  lemma {:induction false} SaveIsPlain(free: Flags, i: nat, off: nat, l: Label)
    requires i <= 7
    ensures Defs(SaveTemps(free, i, off), l) == 0 && !Targeted(SaveTemps(free, i, off), l)
    decreases 7 - i
  {
    if i < 7 {
      SaveIsPlain(free, i + 1, if free[i] then off else off + 4, l);
    }
  }

  lemma {:induction false} RestoreIsPlain(free: Flags, i: nat, off: int, l: Label)
    requires i <= 7
    ensures Defs(RestoreTemps(free, i, off), l) == 0 && !Targeted(RestoreTemps(free, i, off), l)
  {
    if i > 0 {
      RestoreIsPlain(free, i - 1, if free[i - 1] then off else off - 4, l);
    }
  }

  lemma {:induction false} LoadIsPlain(i: nat, n: nat, off: nat, l: Label)
    requires i <= n <= 8
    ensures Defs(LoadArgs(i, n, off), l) == 0 && !Targeted(LoadArgs(i, n, off), l)
    decreases n - i
  {
    if i < n {
      LoadIsPlain(i + 1, n, off + 4, l);
    }
  }

  lemma {:induction false} SaveArgsIsPlain(i: nat, l: Label)
    requires i <= 8
    ensures Defs(SaveArgs(i), l) == 0 && !Targeted(SaveArgs(i), l)
    decreases 8 - i
  {
    if i < 8 {
      SaveArgsIsPlain(i + 1, l);
    }
  }

  lemma {:induction false} LabelsOfStmt(frames: Frames, locals: nat, s: R.Stmt, g: Gen, l: Label)
    ensures var x := GenStmt(frames, locals, s, g);
            x.Some? ==> Labelled(x.value.code, l, g.counts, x.value.g.counts)
    decreases s, 1
  {
    hide Defs, Targeted, GenExpr, IfCode, WhileCode, ForCode, GenStmts, GenEffect;
    var x := GenStmt(frames, locals, s, g);
    if x.Some? {
      match s
      case Return(e) =>
        Plain(LeaveCode(locals), l);
        if !e.Empty? {
          LabelsOfExpr(frames, e, g, l);
          var y := GenExpr(frames, e, g).value;
          DefsOne(Mv(A(0), T(y.reg)), l);
          DefsConcat3(y.code, [Mv(A(0), T(y.reg))], LeaveCode(locals), l);
        }
      case If(c, thn, els) => LabelsOfIf(frames, locals, s, g, l);
      case Block(body) => LabelsOfStmts(frames, locals, body, g, l);
      case VarDef(sym, e) =>
        LabelsOfExpr(frames, e, g, l);
        var y := GenExpr(frames, e, g).value;
        var store := Sw(T(y.reg), -R.LocalSlot(sym.offset), Fp);
        DefsOne(store, l);
        DefsConcat(y.code, [store], l);
      case VarDec(_) => Plain([], l);
      case Enum => Plain([], l);
      case ExprStmt(e) => LabelsOfEffect(frames, e, g, l);
      case While(c, body) => LabelsOfWhile(frames, locals, s, g, l);
      case For(init, c, step, body) => LabelsOfFor(frames, locals, s, g, l);
    }
  }

  lemma LabelsOfIf(frames: Frames, locals: nat, s: R.Stmt, g: Gen, l: Label)
    requires s.If? && GenStmt(frames, locals, s, g).Some?
    ensures var x := GenStmt(frames, locals, s, g).value;
            Labelled(x.code, l, g.counts, x.g.counts)
    decreases s, 0
  {
    hide Defs, Targeted, Labelled, IfCode, GenExpr, GenStmts, GenEffect, GenTest;
    var g1 := g.(counts := g.counts.(ifs := g.counts.ifs + 1, elses := g.counts.elses + 1));
    LabelsOfExpr(frames, s.cond, g1, l);
    var x := GenExpr(frames, s.cond, g1).value;
    LabelsOfStmt(frames, locals, s.thn, Release(x.g, x.reg), l);
    var t := GenStmt(frames, locals, s.thn, Release(x.g, x.reg)).value;
    if s.els.Some? {
      LabelsOfStmt(frames, locals, s.els.value, t.g, l);
    } else {
      LabelledNothing(l, t.g.counts);
    }
    var e := GenElse(frames, locals, s.els, t.g).value;
    LabelledIf(x.reg, x.code, t.code, e.code, l, g.counts, x.g.counts, t.g.counts, e.g.counts);
  }

  lemma LabelledIf(r: TIndex, x: seq<Instr>, t: seq<Instr>, e: seq<Instr>, l: Label, c0: Counts, c1: Counts, c2: Counts,
                   c3: Counts)
    requires Labelled(x, l, c0.(ifs := c0.ifs + 1, elses := c0.elses + 1), c1)
    requires Labelled(t, l, c1, c2) && Labelled(e, l, c2, c3)
    ensures Labelled(IfCode(c0.ifs, c0.elses, r, x, t, e), l, c0, c3)
  {
    IfParts(c0.ifs, c0.elses, r, x, t, e, l);
    hide Defs, Targeted, IfCode;
  }

  lemma IfParts(n: nat, m: nat, r: TIndex, x: seq<Instr>, t: seq<Instr>, e: seq<Instr>, l: Label)
    ensures var ifLabel, elseLabel := Generated(IfLabel, n, Bare), Generated(ElseLabel, m, Bare);
            var c := IfCode(n, m, r, x, t, e);
            && Defs(c, l) == Defs(x, l) + Defs(t, l) + Defs(e, l) + (if l == ifLabel || l == elseLabel then 1 else 0)
            && (Targeted(c, l) <==> Targeted(x, l) || Targeted(t, l) || Targeted(e, l) || l == elseLabel)
  {
    hide Defs, Targeted;
    var c0, c1 := Lab(Generated(IfLabel, n, Bare)), Lab(Generated(ElseLabel, m, Bare));
    var b := Beq(T(r), Zero, Generated(ElseLabel, m, Bare));
    DefsOne(c0, l);
    DefsOne(c1, l);
    DefsOne(b, l);
    DefsConcat5([c0], x, [b], t, [c1], l);
    DefsConcat([c0] + x + [b] + t + [c1], e, l);
  }

  lemma LabelsOfWhile(frames: Frames, locals: nat, s: R.Stmt, g: Gen, l: Label)
    requires s.While? && GenStmt(frames, locals, s, g).Some?
    ensures var x := GenStmt(frames, locals, s, g).value;
            Labelled(x.code, l, g.counts, x.g.counts)
    decreases s, 0
  {
    hide Defs, Targeted, Labelled, WhileCode, GenExpr, GenStmts, LeaveCode, IfCode, ForCode;
    var n := g.counts.whiles;
    var g1 := g.(counts := g.counts.(whiles := n + 1));
    LabelsOfExpr(frames, s.cond, g1, l);
    var x := GenExpr(frames, s.cond, g1).value;
    LabelsOfStmt(frames, locals, s.loop, Release(x.g, x.reg), l);
    var b := GenStmt(frames, locals, s.loop, Release(x.g, x.reg)).value;
    LabelledWhile(x.reg, x.code, b.code, l, g.counts, x.g.counts, b.g.counts);
  }

  lemma LabelledWhile(r: TIndex, x: seq<Instr>, b: seq<Instr>, l: Label, c0: Counts, c1: Counts, c2: Counts)
    requires Labelled(x, l, c0.(whiles := c0.whiles + 1), c1) && Labelled(b, l, c1, c2)
    ensures Labelled(WhileCode(c0.whiles, r, x, b), l, c0, c2)
  {
    WhileParts(c0.whiles, r, x, b, l);
    hide Defs, Targeted, WhileCode;
  }

  lemma WhileParts(n: nat, r: TIndex, x: seq<Instr>, b: seq<Instr>, l: Label)
    ensures var start, end := Generated(WhileLabel, n, StartPart), Generated(WhileLabel, n, EndPart);
            var c := WhileCode(n, r, x, b);
            && Defs(c, l) == Defs(x, l) + Defs(b, l) + (if l == start || l == end then 1 else 0)
            && (Targeted(c, l) <==> Targeted(x, l) || Targeted(b, l) || l == start || l == end)
  {
    hide Defs, Targeted;
    var start, end := Generated(WhileLabel, n, StartPart), Generated(WhileLabel, n, EndPart);
    DefsOne(Lab(start), l);
    DefsOne(Lab(end), l);
    DefsOne(J(start), l);
    DefsOne(Beq(T(r), Zero, end), l);
    DefsTwo(J(start), Lab(end), l);
    DefsConcat5([Lab(start)], x, [Beq(T(r), Zero, end)], b, [J(start), Lab(end)], l);
  }

  lemma LabelsOfFor(frames: Frames, locals: nat, s: R.Stmt, g: Gen, l: Label)
    requires s.For? && GenStmt(frames, locals, s, g).Some?
    ensures var x := GenStmt(frames, locals, s, g).value;
            Labelled(x.code, l, g.counts, x.g.counts)
    decreases s, 0
  {
    hide Defs, Targeted, GenExpr, GenStmts, LeaveCode, IfCode, WhileCode, ForCode;
    var n := g.counts.fors;
    var g1 := g.(counts := g.counts.(fors := n + 1));
    var end := Generated(ForLabel, n, EndPart);
    LabelsOfStmt(frames, locals, s.init, g1, l);
    var i := GenStmt(frames, locals, s.init, g1).value;
    LabelsOfTest(frames, s.cond, end, i.g, l);
    var x := GenTest(frames, s.cond, end, i.g).value;
    LabelsOfStmt(frames, locals, s.loop, x.g, l);
    var b := GenStmt(frames, locals, s.loop, x.g).value;
    LabelsOfEffect(frames, s.step, b.g, l);
    var k := GenEffect(frames, s.step, b.g).value;
    LabelledFor(i.code, x.code, b.code, k.code, l, g.counts, i.g.counts, x.g.counts, b.g.counts, k.g.counts);
  }

  lemma LabelledFor(i: seq<Instr>, x: seq<Instr>, b: seq<Instr>, k: seq<Instr>, l: Label,
                    c0: Counts, c1: Counts, c2: Counts, c3: Counts, c4: Counts)
    requires Labelled(i, l, c0.(fors := c0.fors + 1), c1) && Labelled(b, l, c2, c3) && Labelled(k, l, c3, c4)
    requires AtMost(c1, c2) && Defs(x, l) <= Allowance(l, c1, c2)
    requires Targeted(x, l) ==> Defs(x, l) == 1 || l == Generated(ForLabel, c0.fors, EndPart)
    ensures Labelled(ForCode(c0.fors, i, x, b, k), l, c0, c4)
  {
    ForParts(c0.fors, i, x, b, k, l);
    hide Defs, Targeted, ForCode;
  }

  lemma ForParts(n: nat, i: seq<Instr>, x: seq<Instr>, b: seq<Instr>, k: seq<Instr>, l: Label)
    ensures var c := ForCode(n, i, x, b, k);
            && Defs(c, l) == Defs(i, l) + Defs(x, l) + Defs(b, l) + Defs(k, l) +
                  (if l.Generated? && l.kind == ForLabel && l.n == n &&
                      l.part in {InitPart, CondPart, BodyPart, StepPart, EndPart} then 1 else 0)
            && (Targeted(c, l) <==> Targeted(i, l) || Targeted(x, l) || Targeted(b, l) || Targeted(k, l) ||
                                    l == Generated(ForLabel, n, CondPart))
  {
    var c0, c1, c2 := Lab(Generated(ForLabel, n, InitPart)), Lab(Generated(ForLabel, n, CondPart)),
                      Lab(Generated(ForLabel, n, BodyPart));
    var c3, c4, c5 := Lab(Generated(ForLabel, n, StepPart)), J(Generated(ForLabel, n, CondPart)),
                      Lab(Generated(ForLabel, n, EndPart));
    DefsOne(c0, l); DefsOne(c1, l); DefsOne(c2, l); DefsOne(c3, l); DefsOne(c4, l); DefsOne(c5, l);
    DefsTwo(c4, c5, l);
    var head := [c0] + i + [c1] + x + [c2];
    DefsConcat5([c0], i, [c1], x, [c2], l);
    DefsConcat5(head, b, [c3], k, [c4, c5], l);
  }

  lemma LabelsOfEffect(frames: Frames, e: R.Expr, g: Gen, l: Label)
    ensures var x := GenEffect(frames, e, g);
            x.Some? ==> Labelled(x.value.code, l, g.counts, x.value.g.counts)
  {
    LabelsOfExpr(frames, e, g, l);
    Plain([], l);
  }

  lemma LabelsOfTest(frames: Frames, c: R.Expr, end: Label, g: Gen, l: Label)
    ensures var x := GenTest(frames, c, end, g);
            x.Some? ==> && AtMost(g.counts, x.value.g.counts)
                        && Defs(x.value.code, l) <= Allowance(l, g.counts, x.value.g.counts)
                        && (Targeted(x.value.code, l) ==> Defs(x.value.code, l) == 1 || l == end)
  {
    hide Defs, Targeted;
    LabelsOfExpr(frames, c, g, l);
    if c.Empty? {
      Plain([], l);
    } else if GenExpr(frames, c, g).Some? {
      var x := GenExpr(frames, c, g).value;
      DefsOne(Beq(T(x.reg), Zero, end), l);
      DefsConcat(x.code, [Beq(T(x.reg), Zero, end)], l);
    }
  }

  lemma {:induction false} LabelsOfStmts(frames: Frames, locals: nat, body: seq<R.Stmt>, g: Gen, l: Label)
    ensures var x := GenStmts(frames, locals, body, g);
            x.Some? ==> Labelled(x.value.code, l, g.counts, x.value.g.counts)
    decreases body
  {
    hide Defs, Targeted;
    if body == [] {
      Plain([], l);
    } else if GenStmts(frames, locals, body, g).Some? {
      LabelsOfStmt(frames, locals, body[0], g, l);
      var x := GenStmt(frames, locals, body[0], g).value;
      LabelsOfStmts(frames, locals, body[1..], x.g, l);
      DefsConcat(x.code, GenStmts(frames, locals, body[1..], x.g).value.code, l);
    }
  }

  /** A function's code branches only to labels it defines itself, each exactly once. */
  lemma LabelsOfFunc(frames: Frames, f: R.Func, g: Gen, l: Label)
    ensures var x := GenFunc(frames, f, g);
            x.Some? ==> && AtMost(g.counts, x.value.g.counts)
                        && Defs(x.value.code, l) <= Allowance(l, g.counts, x.value.g.counts) +
                                                    (if l == Function(f.name) then 1 else 0)
                        && (Targeted(x.value.code, l) ==> Defs(x.value.code, l) == 1)
  {
    hide Defs, Targeted, SaveArgs;
    if GenFunc(frames, f, g).Some? {
      LabelsOfStmts(frames, f.frame, f.body, g, l);
      var b := GenStmts(frames, f.frame, f.body, g).value;
      DefsOne(Lab(Function(f.name)), l);
      Plain(EnterCode(f.frame), l);
      SaveArgsIsPlain(0, l);
      Plain(ExitCode(f), l);
      DefsConcat(EnterCode(f.frame), SaveArgs(0), l);
      DefsConcat(b.code, ExitCode(f), l);
      DefsConcat3([Lab(Function(f.name))], EnterCode(f.frame) + SaveArgs(0), b.code + ExitCode(f), l);
      assert GenFunc(frames, f, g).value.code ==
             [Lab(Function(f.name))] + (EnterCode(f.frame) + SaveArgs(0)) + (b.code + ExitCode(f));
    }
  }

  lemma {:induction false} LabelsOfFuncs(frames: Frames, p: R.Program, g: Gen, l: Label)
    requires R.DistinctNames(p)
    ensures var x := GenFuncs(frames, p, g);
            x.Some? ==> && AtMost(g.counts, x.value.g.counts)
                        && Defs(x.value.code, l) <= Allowance(l, g.counts, x.value.g.counts) +
                             (if l.Function? && R.Find(p, l.name).Some? then 1 else 0)
  {
    hide Defs, Targeted;
    if p == [] {
      Plain([], l);
    } else if GenFuncs(frames, p, g).Some? {
      LabelsOfFunc(frames, p[0], g, l);
      var x := GenFunc(frames, p[0], g).value;
      LabelsOfFuncs(frames, p[1..], x.g, l);
      DefsConcat(x.code, GenFuncs(frames, p[1..], x.g).value.code, l);
      if l.Function? && R.Find(p[1..], l.name).Some? {
        NamesBeyondFirst(p, l.name);
      }
    }
  }

  lemma NamesBeyondFirst(p: R.Program, name: string)
    requires R.DistinctNames(p) && p != [] && R.Find(p[1..], name).Some?
    ensures p[0].name != name
  {
    var f := R.Find(p[1..], name).value;
    var i :| 0 <= i < |p| - 1 && p[1..][i] == f;
    assert p[i + 1].name != p[0].name;
  }

  /** No label is defined twice in a generated listing. */
  lemma ListingLabelsUnique(p: R.Program)
    requires R.DistinctNames(p) && GenProgram(p).Some?
    ensures UniqueLabels(GenProgram(p).value)
  {
    var code := GenProgram(p).value;
    forall i, j | 0 <= i < j < |code| && code[i].Lab? ensures code[i] != code[j] {
      if code[i] == code[j] {
        DefsAtTwoPlaces(code, i, j);
        DefinedOnce(p, code[i].name);
        assert false;
      }
    }
  }

  lemma DefinedOnce(p: R.Program, l: Label)
    requires R.DistinctNames(p) && GenProgram(p).Some?
    ensures Defs(GenProgram(p).value, l) <= 1
  {
    LabelsOfFuncs(FramesOf(p), p, Initial, l);
    DefsConcat(StartCode, GenFuncs(FramesOf(p), p, Initial).value.code, l);
    DefsOne(StartCode[0], l);
    Plain(StartCode[1..], l);
    DefsConcat([StartCode[0]], StartCode[1..], l);
    assert StartCode == [StartCode[0]] + StartCode[1..];
  }

  lemma DefsAtTwoPlaces(code: seq<Instr>, i: nat, j: nat)
    requires i < j < |code| && code[i].Lab? && code[i] == code[j]
    ensures Defs(code, code[i].name) >= 2
  {
    var l := code[i].name;
    DefsConcat5(code[..i], [Lab(l)], code[i + 1..j], [Lab(l)], code[j + 1..], l);
    DefsOne(Lab(l), l);
    assert code == code[..i] + [Lab(l)] + code[i + 1..j] + [Lab(l)] + code[j + 1..];
  }
}
