/** Decidable conditions on resolved programs under which the generated code is right. */
module Guards {
  import opened Resolved
  import opened CodeGen
  import M = Machine

  // ----- what the instructions can encode, and what the semantic pass guarantees -----

  predicate GoodSlot(locals: nat, offset: nat) {
    offset % 4 == 0 && offset + 4 <= locals
  }

  predicate GoodSymbol(locals: nat, params: nat, sym: Symbol) {
    match sym
    case Enumerator(v, _) => M.Imm12(v)
    case Param(i, _) => i < params
    case Local(o) => GoodSlot(locals, o)
  }

  /** Constants fit an immediate, assignments go to local variables only (the entry of a
      parameter has no offset), and calls have at most eight arguments. */
  predicate GoodExpr(locals: nat, params: nat, e: Expr) {
    match e
    case Empty => true
    case Num(v) => M.Imm12(v)
    case Ident(sym) => GoodSymbol(locals, params, sym)
    case Not(e1) => GoodExpr(locals, params, e1)
    case Bin(_, l, r) => GoodExpr(locals, params, l) && GoodExpr(locals, params, r)
    case Assign(target, e1) => target.Local? && GoodSlot(locals, target.offset) && GoodExpr(locals, params, e1)
    case Call(_, args) => |args| <= 8 && forall a :: a in args ==> GoodExpr(locals, params, a)
  }

  // ----- the spill slots of calls -----

  /** The distances below the frame pointer above `low`, up to `high`. */
  function Slots(low: int, high: int): (r: set<int>)
    ensures forall k :: k in r <==> low < k <= high
    decreases high - low
  {
    if high <= low then {} else Slots(low, high - 1) + {high}
  }

  /** A call spills the busy temporaries and the arguments from a base that depends on the size
      of the called function, not the calling one. The slots must lie in the caller's frame below
      its locals and avoid those that enclosing calls still need (`held`). */
  predicate SafeCall(locals: nat, callee: nat, spilled: nat, held: set<int>) {
    spilled == 0 ||
    (callee % 4 == 0 && locals <= callee + 4 && callee + 44 + 4 * spilled <= FrameSize(locals) &&
     Slots(callee + 44, callee + 44 + 4 * spilled) !! held)
  }

  /** Every call inside e is safe when `busy` temporaries are busy before e. */
  predicate Safe(frames: Frames, locals: nat, e: Expr, busy: nat, held: set<int>)
    decreases e
  {
    match e
    case Empty => true
    case Num(_) => true
    case Ident(_) => true
    case Not(e1) => Safe(frames, locals, e1, busy + 1, held)
    case Bin(_, l, r) => Safe(frames, locals, l, busy, held) && Safe(frames, locals, r, busy + 1, held)
    case Assign(_, e1) => Safe(frames, locals, e1, busy + 1, held)
    case Call(f, args) =>
      && f in frames
      && SafeCall(locals, frames[f], busy + |args|, held)
      && SafeArgs(frames, locals, args, frames[f] + 44, busy, held)
  }

  /** While an argument is evaluated, the `stored` slots from the base on are in use. */
  predicate SafeArgs(frames: Frames, locals: nat, args: seq<Expr>, base: nat, stored: nat, held: set<int>)
    decreases args
  {
    args == [] ||
    (&& Safe(frames, locals, args[0], 0, held + Slots(base, base + 4 * stored))
     && SafeArgs(frames, locals, args[1..], base, stored + 1, held))
  }

  // ----- statements and programs -----

  predicate Good(frames: Frames, locals: nat, params: nat, e: Expr) {
    GoodExpr(locals, params, e) && Safe(frames, locals, e, 0, {})
  }

  predicate GoodStmt(frames: Frames, locals: nat, params: nat, s: Stmt) {
    match s
    case Return(e) => Good(frames, locals, params, e)
    case If(c, thn, els) =>
      && Good(frames, locals, params, c) && GoodStmt(frames, locals, params, thn)
      && (els.Some? ==> GoodStmt(frames, locals, params, els.value))
    case Block(body) => forall i :: 0 <= i < |body| ==> GoodStmt(frames, locals, params, body[i])
    case VarDef(sym, e) => sym.Local? && GoodSlot(locals, sym.offset) && Good(frames, locals, params, e)
    case VarDec(_) => true
    case Enum => true
    case ExprStmt(e) => Good(frames, locals, params, e)
    case While(c, body) => Good(frames, locals, params, c) && GoodStmt(frames, locals, params, body)
    case For(init, c, step, body) =>
      && GoodStmt(frames, locals, params, init) && Good(frames, locals, params, c)
      && Good(frames, locals, params, step) && GoodStmt(frames, locals, params, body)
  }

  /** The frame, whose size is a multiple of 4, can be addressed with 12-bit offsets. */
  predicate GoodFunc(frames: Frames, f: Func) {
    && f.frame % 4 == 0 && FrameSize(f.frame) <= 2047 && f.params <= 8
    && forall i :: 0 <= i < |f.body| ==> GoodStmt(frames, f.frame, f.params, f.body[i])
  }

  predicate GoodProgram(p: Program) {
    && (forall i, j :: 0 <= i < j < |p| ==> p[i].name != p[j].name)
    && forall i :: 0 <= i < |p| ==> GoodFunc(FramesOf(p), p[i])
  }

  // ----- the guards hold in the common cases -----

  predicate CallFree(e: Expr) {
    match e
    case Empty => true
    case Num(_) => true
    case Ident(_) => true
    case Not(e1) => CallFree(e1)
    case Bin(_, l, r) => CallFree(l) && CallFree(r)
    case Assign(_, e1) => CallFree(e1)
    case Call(_, _) => false
  }

  lemma {:induction false} CallFreeIsSafe(frames: Frames, locals: nat, e: Expr, busy: nat, held: set<int>)
    requires CallFree(e)
    ensures Safe(frames, locals, e, busy, held)
    decreases e
  {
    match e
    case Not(e1) => CallFreeIsSafe(frames, locals, e1, busy + 1, held);
    case Bin(_, l, r) =>
      CallFreeIsSafe(frames, locals, l, busy, held);
      CallFreeIsSafe(frames, locals, r, busy + 1, held);
    case Assign(_, e1) => CallFreeIsSafe(frames, locals, e1, busy + 1, held);
    case _ =>
  }

  /** With seven temporaries and eight arguments the deepest spill slot of a recursive call is
      4 bytes into the padding, which always adds at least that. */
  lemma RecursionFits(locals: nat)
    requires locals % 4 == 0
    ensures SafeCall(locals, locals, 7 + 8, {})
  {
  }

  lemma {:induction false} CallFreeArgsAreSafe(frames: Frames, locals: nat, args: seq<Expr>, base: nat, stored: nat,
                                               held: set<int>)
    requires forall a :: a in args ==> CallFree(a)
    ensures SafeArgs(frames, locals, args, base, stored, held)
    decreases args
  {
    if args != [] {
      CallFreeIsSafe(frames, locals, args[0], 0, held + Slots(base, base + 4 * stored));
      CallFreeArgsAreSafe(frames, locals, args[1..], base, stored + 1, held);
    }
  }

  /** A recursive call with call-free arguments is safe wherever it stands outside of an argument. */
  lemma RecursionIsSafe(frames: Frames, f: Func, args: seq<Expr>, busy: nat)
    requires f.name in frames && frames[f.name] == f.frame && f.frame % 4 == 0
    requires |args| <= 8 && busy <= 7 && forall a :: a in args ==> CallFree(a)
    ensures Safe(frames, f.frame, Call(f.name, args), busy, {})
  {
    CallFreeArgsAreSafe(frames, f.frame, args, f.frame + 44, busy, {});
    RecursionFits(f.frame);
  }

  // ----- calls inside arguments -----

  /** The slots of a call with n arguments, of a function with a frame of size `inner`, meet the first
      `stored` slots of a call of a function with a frame of size `outer`. */
  predicate Clash(inner: int, n: nat, outer: int, stored: nat) {
    stored > 0 && n > 0 && inner < outer + 4 * stored && outer < inner + 4 * n
  }

  lemma SlotsMeetIff(inner: int, n: nat, outer: int, stored: nat)
    ensures Slots(inner + 44, inner + 44 + 4 * n) !! Slots(outer + 44, outer + 44 + 4 * stored) <==>
            !Clash(inner, n, outer, stored)
  {
    if Clash(inner, n, outer, stored) {
      var k := if inner < outer then outer + 45 else inner + 45;
      assert k in Slots(inner + 44, inner + 44 + 4 * n) && k in Slots(outer + 44, outer + 44 + 4 * stored);
    }
  }

  /** For sizes that are multiples of 4 they meet in a word that both use as a slot. */
  lemma SharedSlotIff(inner: int, n: nat, outer: int, stored: nat)
    requires inner % 4 == 0 && outer % 4 == 0
    ensures Clash(inner, n, outer, stored) <==> exists i :: 0 <= i < stored && Shared(inner, n, outer, i)
  {
    var q := (inner - outer) / 4;
    assert inner == outer + 4 * q;
    assert Shift(inner, outer) == -q;
    if Clash(inner, n, outer, stored) {
      var i := if q < 0 then 0 else q;
      assert 0 <= i < stored && Shared(inner, n, outer, i);
    }
  }

  /** Slot number i of the outer call is slot number i + Shift of the inner one. */
  function Shift(inner: int, outer: int): int {
    (outer - inner) / 4
  }

  predicate Shared(inner: int, n: nat, outer: int, i: int) {
    0 <= i + Shift(inner, outer) < n
  }

  /** The slots of a call lie in the caller's frame below its locals. */
  predicate FitsFrame(locals: nat, callee: nat, spilled: nat) {
    spilled == 0 || (callee % 4 == 0 && locals <= callee + 4 && callee + 44 + 4 * spilled <= FrameSize(locals))
  }

  predicate CallsOnce(e: Expr) {
    CallFree(e) || (e.Call? && forall a :: a in e.args ==> CallFree(a))
  }

  /** A call with such arguments is rejected exactly when a call does not fit the frame or a call in an
      argument clashes with what is stored before it: the busy temporaries and the arguments to its left. */
  lemma NestedCallSafeIff(frames: Frames, locals: nat, e: Expr, busy: nat)
    requires e.Call? && e.name in frames && forall a :: a in e.args ==> CallsOnce(a)
    ensures Safe(frames, locals, e, busy, {}) <==>
              && FitsFrame(locals, frames[e.name], busy + |e.args|)
              && forall i :: 0 <= i < |e.args| && e.args[i].Call? ==>
                  Apart(frames, locals, e.args[i], frames[e.name], busy + i)
  {
    hide Apart;
    NestedArgsSafeIff(frames, locals, e.args, frames[e.name], busy);
  }

  /** The call is that of a known function, fits the frame and does not clash. */
  predicate Apart(frames: Frames, locals: nat, e: Expr, outer: nat, stored: nat)
    requires e.Call?
  {
    e.name in frames && FitsFrame(locals, frames[e.name], |e.args|) && !Clash(frames[e.name], |e.args|, outer, stored)
  }

  lemma {:induction false} NestedArgsSafeIff(frames: Frames, locals: nat, args: seq<Expr>, outer: nat, stored: nat)
    requires forall a :: a in args ==> CallsOnce(a)
    ensures SafeArgs(frames, locals, args, outer + 44, stored, {}) <==>
              forall i :: 0 <= i < |args| && args[i].Call? ==> Apart(frames, locals, args[i], outer, stored + i)
  {
    hide Apart, Safe, CallFree;
    if args != [] {
      NestedArgsSafeIff(frames, locals, args[1..], outer, stored + 1);
      NestedArgSafeIff(frames, locals, args[0], outer, stored);
      if forall i :: 0 <= i < |args| - 1 && args[1..][i].Call? ==>
          Apart(frames, locals, args[1..][i], outer, stored + 1 + i) {
        forall i | 0 < i < |args| && args[i].Call? ensures Apart(frames, locals, args[i], outer, stored + i) {
          assert args[i] == args[1..][i - 1] && stored + 1 + (i - 1) == stored + i;
        }
      } else {
        var i :| 0 <= i < |args| - 1 && args[1..][i].Call? &&
            !Apart(frames, locals, args[1..][i], outer, stored + 1 + i);
        assert args[i + 1] == args[1..][i] && !Apart(frames, locals, args[i + 1], outer, stored + (i + 1));
      }
    }
  }

  lemma NestedArgSafeIff(frames: Frames, locals: nat, a: Expr, outer: nat, stored: nat)
    requires CallsOnce(a)
    ensures Safe(frames, locals, a, 0, {} + Slots(outer + 44, outer + 44 + 4 * stored)) <==>
              (a.Call? ==> Apart(frames, locals, a, outer, stored))
  {
    var held := {} + Slots(outer + 44, outer + 44 + 4 * stored);
    if a.Call? {
      hide Slots;
      if a.name in frames {
        SlotsMeetIff(frames[a.name], |a.args|, outer, stored);
        CallFreeArgsAreSafe(frames, locals, a.args, frames[a.name] + 44, 0, held);
      }
    } else {
      CallFreeIsSafe(frames, locals, a, 0, held);
    }
  }
}
