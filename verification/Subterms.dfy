/** What the recursive guards ask for, said of the parts of a tree: every guard holds of a statement if and
    only if a condition that does not look further holds of each statement and expression inside it. */
module Subterms {
  import opened Options
  import opened Resolved
  import opened Semantics
  import opened CodeGen
  import opened Guards
  import opened Portability
  import M = Machine

  // ----- what is inside -----

  ghost predicate Inside(x: Expr, e: Expr)
    decreases e
  {
    x == e ||
    match e
    case Not(e1) => Inside(x, e1)
    case Bin(_, l, r) => Inside(x, l) || Inside(x, r)
    case Assign(_, e1) => Inside(x, e1)
    case Call(_, args) => exists a :: a in args && Inside(x, a)
    case _ => false
  }

  ghost predicate Within(t: Stmt, s: Stmt)
    decreases s
  {
    t == s ||
    match s
    case If(_, thn, els) => Within(t, thn) || (els.Some? && Within(t, els.value))
    case Block(body) => exists b :: b in body && Within(t, b)
    case While(_, b) => Within(t, b)
    case For(i, _, _, b) => Within(t, i) || Within(t, b)
    case _ => false
  }

  /** The expressions that a statement evaluates itself. */
  function Own(s: Stmt): set<Expr> {
    match s
    case Return(e) => {e}
    case If(c, _, _) => {c}
    case VarDef(_, e) => {e}
    case ExprStmt(e) => {e}
    case While(c, _) => {c}
    case For(_, c, k, _) => {c, k}
    case _ => {}
  }

  // ----- expressions -----

  /** The value fits an immediate, the slot is in the frame, only locals are assigned, and the arguments fit
      the registers. */
  predicate GoodNode(locals: nat, params: nat, x: Expr) {
    match x
    case Num(v) => M.Imm12(v)
    case Ident(Enumerator(v, _)) => M.Imm12(v)
    case Ident(Param(i, _)) => i < params
    case Ident(Local(o)) => o % 4 == 0 && o + 4 <= locals
    case Assign(target, _) => target.Local? && target.offset % 4 == 0 && target.offset + 4 <= locals
    case Call(_, args) => |args| <= 8
    case _ => true
  }

  lemma {:induction false} GoodExprIff(locals: nat, params: nat, e: Expr)
    ensures GoodExpr(locals, params, e) <==> forall x :: Inside(x, e) ==> GoodNode(locals, params, x)
  {
    hide GoodNode, GoodExpr;
    GoodExprStep(locals, params, e);
    assert Inside(e, e);
    match e
    case Not(e1) => GoodExprIff(locals, params, e1);
    case Bin(_, l, r) =>
      GoodExprIff(locals, params, l);
      GoodExprIff(locals, params, r);
    case Assign(_, e1) => GoodExprIff(locals, params, e1);
    case Call(_, args) =>
      forall a | a in args
        ensures GoodExpr(locals, params, a) <==> forall x :: Inside(x, a) ==> GoodNode(locals, params, x)
      {
        GoodExprIff(locals, params, a);
      }
    case _ =>
  }

  lemma GoodExprStep(locals: nat, params: nat, e: Expr)
    ensures GoodExpr(locals, params, e) <==>
              && GoodNode(locals, params, e)
              && match e
                 case Not(e1) => GoodExpr(locals, params, e1)
                 case Bin(_, l, r) => GoodExpr(locals, params, l) && GoodExpr(locals, params, r)
                 case Assign(_, e1) => GoodExpr(locals, params, e1)
                 case Call(_, args) => forall a :: a in args ==> GoodExpr(locals, params, a)
                 case _ => true
  {
  }

  lemma {:induction false} CallFreeIff(e: Expr)
    ensures CallFree(e) <==> forall x :: Inside(x, e) ==> !x.Call?
  {
    match e
    case Not(e1) => CallFreeIff(e1);
    case Bin(_, l, r) =>
      CallFreeIff(l);
      CallFreeIff(r);
    case Assign(_, e1) => CallFreeIff(e1);
    case _ =>
  }

  lemma {:induction false} EffectFreeIff(e: Expr)
    ensures EffectFree(e) <==> forall x :: Inside(x, e) ==> !x.Call? && !x.Assign? && !x.Empty?
  {
    match e
    case Not(e1) => EffectFreeIff(e1);
    case Bin(_, l, r) =>
      EffectFreeIff(l);
      EffectFreeIff(r);
    case _ =>
  }

  lemma {:induction false} PortableIff(e: Expr)
    ensures Portable(e) <==> forall x :: Inside(x, e) && x.Bin? && x.op in {LogAnd, LogOr} ==> EffectFree(x.right)
  {
    hide EffectFree;
    match e
    case Not(e1) => PortableIff(e1);
    case Bin(_, l, r) =>
      PortableIff(l);
      PortableIff(r);
    case Assign(_, e1) => PortableIff(e1);
    case Call(_, args) =>
      forall a | a in args
        ensures Portable(a) <==> forall x :: Inside(x, a) && x.Bin? && x.op in {LogAnd, LogOr} ==> EffectFree(x.right)
      {
        PortableIff(a);
      }
    case _ =>
  }

  // ----- statements -----

  /** What the code generator's guards ask of one statement. */
  predicate GoodOne(frames: Frames, locals: nat, params: nat, t: Stmt) {
    && (forall e :: e in Own(t) ==> Good(frames, locals, params, e))
    && (t.VarDef? ==> t.sym.Local? && t.sym.offset % 4 == 0 && t.sym.offset + 4 <= locals)
  }

  lemma {:induction false} GoodStmtIff(frames: Frames, locals: nat, params: nat, s: Stmt)
    ensures GoodStmt(frames, locals, params, s) <==> forall t :: Within(t, s) ==> GoodOne(frames, locals, params, t)
  {
    hide Good;
    assert Within(s, s);
    match s
    case If(_, thn, els) =>
      GoodStmtIff(frames, locals, params, thn);
      if els.Some? {
        GoodStmtIff(frames, locals, params, els.value);
      }
    case Block(body) =>
      forall b | b in body
        ensures GoodStmt(frames, locals, params, b) <==> forall t :: Within(t, b) ==> GoodOne(frames, locals, params, t)
      {
        GoodStmtIff(frames, locals, params, b);
      }
    case While(_, b) => GoodStmtIff(frames, locals, params, b);
    case For(i, _, _, b) =>
      GoodStmtIff(frames, locals, params, i);
      GoodStmtIff(frames, locals, params, b);
    case _ =>
  }

  /** What portability asks of one statement. */
  predicate PortableOne(t: Stmt) {
    (forall e :: e in Own(t) ==> Portable(e)) && (t.If? && t.els.Some? ==> NeverEnds(t.thn))
  }

  lemma {:induction false} PortableStmtIff(s: Stmt)
    ensures PortableStmt(s) <==> forall t :: Within(t, s) ==> PortableOne(t)
  {
    hide Portable, NeverEnds;
    assert Within(s, s);
    match s
    case If(_, thn, els) =>
      PortableStmtIff(thn);
      if els.Some? {
        PortableStmtIff(els.value);
      }
    case Block(body) =>
      forall b | b in body
        ensures PortableStmt(b) <==> forall t :: Within(t, b) ==> PortableOne(t)
      {
        PortableStmtIff(b);
      }
    case While(_, b) => PortableStmtIff(b);
    case For(i, _, _, b) =>
      PortableStmtIff(i);
      PortableStmtIff(b);
    case _ =>
  }
}
