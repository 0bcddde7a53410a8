/** Big-step semantics of resolved programs on 32-bit words. A run is `None` when it has no
    defined result (a division by zero, an oversized shift, an indeterminate variable, a missing
    return value), when it needs more stack than `room` bytes below the running function's frame,
    or when a loop needs more than `fuel` iterations. */
module Semantics {
  import opened Options
  import opened Words
  import opened Resolved

  /** `C` is the meaning C99 gives to `&&`, `||` and if/else (sections 6.5.13, 6.5.14 and 6.8.4.1).
      `Compiled` is what the generated code does instead: both operands of `&&` and `||` are
      evaluated, and a then-branch that ends normally runs into the else-branch. */
  datatype Mode = C | Compiled

  /** The values of the initialised local variables, by frame offset. */
  type Locals = map<nat, Word>

  datatype Outcome = Normal(locals: Locals) | Returned(value: Option<Word>)

  function BinResult(op: BinOp, x: Word, y: Word): Option<Word> {
    match op
    case Add => Some(Wrap(x + y))
    case Sub => Some(Wrap(x - y))
    case Mul => Some(Wrap(x * y))
    case Div => if y == 0 then None else Some(Wrap(TruncDiv(x, y)))
    case Shl => if 0 <= y < 32 then Some(Wrap(Doubled(x, y))) else None
    case Shr => if 0 <= y < 32 then Some(Halved(x, y)) else None
    case Lt => Some(Truth(x < y))
    case Gt => Some(Truth(x > y))
    case Le => Some(Truth(x <= y))
    case Ge => Some(Truth(x >= y))
    case Eq => Some(Truth(x == y))
    case Ne => Some(Truth(x != y))
    case BitAnd => Some(And(x, y))
    case BitXor => Some(Xor(x, y))
    case BitOr => Some(Or(x, y))
    case LogAnd => Some(Truth(x != 0 && y != 0))
    case LogOr => Some(Truth(x != 0 || y != 0))
  }

  /** No assignment, no call and nothing missing. */
  predicate EffectFree(e: Expr) {
    match e
    case Empty => false
    case Num(_) => true
    case Ident(_) => true
    case Not(e1) => EffectFree(e1)
    case Bin(_, l, r) => EffectFree(l) && EffectFree(r)
    case Assign(_, _) => false
    case Call(_, _) => false
  }

  /** Whether the right operand's result is not needed: its value x decides `&&` and `||`. Code
      that evaluates it all the same can only be noticed if it has an effect. */
  predicate Skips(m: Mode, op: BinOp, x: Word, r: Expr) {
    && ((op == LogAnd && x == 0) || (op == LogOr && x != 0))
    && (m == C || EffectFree(r))
  }

  function Value(sym: Symbol, ps: seq<Word>, ls: Locals): Option<Word> {
    match sym
    case Enumerator(v, _) => Some(Wrap(v))
    case Param(i, _) => if i < |ps| then Some(ps[i]) else None
    case Local(o) => if o in ls then Some(ls[o]) else None
  }

  datatype Evaluated = Evaluated(value: Word, locals: Locals)
  datatype EvaluatedAll = EvaluatedAll(values: seq<Word>, locals: Locals)

  /** An expression in a function with parameters `ps` and locals `ls`. */
  function Eval(p: Program, m: Mode, e: Expr, ps: seq<Word>, ls: Locals, room: nat, fuel: nat): Option<Evaluated>
    decreases room, fuel, e, 1
  {
    match e
    case Empty => None
    case Num(v) => Some(Evaluated(Wrap(v), ls))
    case Ident(sym) => var v :- Value(sym, ps, ls); Some(Evaluated(v, ls))
    case Not(e1) =>
      var x :- Eval(p, m, e1, ps, ls, room, fuel);
      Some(Evaluated(Truth(x.value == 0), x.locals))
    case Bin(op, l, r) =>
      var x :- Eval(p, m, l, ps, ls, room, fuel);
      if Skips(m, op, x.value, r) then Some(Evaluated(Truth(op == LogOr), x.locals)) else
      var y :- Eval(p, m, r, ps, x.locals, room, fuel);
      var v :- BinResult(op, x.value, y.value);
      Some(Evaluated(v, y.locals))
    case Assign(target, e1) =>
      if !target.Local? then None else
      var x :- Eval(p, m, e1, ps, ls, room, fuel);
      Some(Evaluated(x.value, x.locals[target.offset := x.value]))
    case Call(name, args) =>
      var f :- Find(p, name);
      var xs :- EvalArgs(p, m, args, ps, ls, room, fuel);
      if room < FrameSize(f.frame) then None else
      var v :- RunBody(p, m, f, xs.values, room - FrameSize(f.frame), fuel);
      var w :- v;
      Some(Evaluated(w, xs.locals))
  }

  function EvalArgs(p: Program, m: Mode, args: seq<Expr>, ps: seq<Word>, ls: Locals, room: nat, fuel: nat)
    : (r: Option<EvaluatedAll>)
    ensures r.Some? ==> |r.value.values| == |args|
    decreases room, fuel, args
  {
    if args == [] then Some(EvaluatedAll([], ls)) else
    var x :- Eval(p, m, args[0], ps, ls, room, fuel);
    var xs :- EvalArgs(p, m, args[1..], ps, x.locals, room, fuel);
    Some(EvaluatedAll([x.value] + xs.values, xs.locals))
  }

  /** The body of f with `room` bytes of stack left below its frame; the result is the returned
      value, `Some(None)` when the function ends without one. */
  function RunBody(p: Program, m: Mode, f: Func, ps: seq<Word>, room: nat, fuel: nat): Option<Option<Word>>
    decreases room, fuel, f.body, 1
  {
    if |ps| != f.params then None else
    var out :- ExecAll(p, m, f.body, ps, map[], room, fuel);
    match out
    case Returned(v) => Some(v)
    case Normal(_) => if f.isVoid then Some(None) else None
  }

  /** A call of f on a stack of `room` bytes. */
  function RunFunc(p: Program, m: Mode, f: Func, ps: seq<Word>, room: nat, fuel: nat): Option<Option<Word>> {
    if room < FrameSize(f.frame) then None else RunBody(p, m, f, ps, room - FrameSize(f.frame), fuel)
  }

  function Exec(p: Program, m: Mode, s: Stmt, ps: seq<Word>, ls: Locals, room: nat, fuel: nat): Option<Outcome>
    decreases room, fuel, s, 1
  {
    match s
    case Return(e) =>
      if e.Empty? then Some(Returned(None)) else
      var x :- Eval(p, m, e, ps, ls, room, fuel);
      Some(Returned(Some(x.value)))
    case If(c, thn, els) =>
      var x :- Eval(p, m, c, ps, ls, room, fuel);
      if x.value == 0 then
        if els.None? then Some(Normal(x.locals)) else Exec(p, m, els.value, ps, x.locals, room, fuel)
      else
        var out :- Exec(p, m, thn, ps, x.locals, room, fuel);
        if m == Compiled && out.Normal? && els.Some? then Exec(p, m, els.value, ps, out.locals, room, fuel)
        else Some(out)
    case Block(body) => ExecAll(p, m, body, ps, ls, room, fuel)
    case VarDef(sym, e) =>
      var x :- Eval(p, m, e, ps, ls, room, fuel);
      Some(Normal(x.locals[sym.offset := x.value]))
    case VarDec(sym) => Some(Normal(ls - {sym.offset}))
    case Enum => Some(Normal(ls))
    case ExprStmt(e) => EvalEffect(p, m, e, ps, ls, room, fuel)
    case While(c, body) =>
      var x :- Eval(p, m, c, ps, ls, room, fuel);
      if x.value == 0 then Some(Normal(x.locals)) else
      var out :- Exec(p, m, body, ps, x.locals, room, fuel);
      if out.Returned? then Some(out)
      else if fuel == 0 then None
      else Exec(p, m, s, ps, out.locals, room, fuel - 1)
    case For(init, c, step, body) =>
      var out :- Exec(p, m, init, ps, ls, room, fuel);
      if out.Returned? then Some(out) else ExecFor(p, m, s, ps, out.locals, room, fuel)
  }

  /** A `for` statement after its initialisation. */
  function ExecFor(p: Program, m: Mode, s: Stmt, ps: seq<Word>, ls: Locals, room: nat, fuel: nat): Option<Outcome>
    requires s.For?
    decreases room, fuel, s, 0
  {
    var x :- if s.cond.Empty? then Some(Evaluated(1, ls)) else Eval(p, m, s.cond, ps, ls, room, fuel);
    if x.value == 0 then Some(Normal(x.locals)) else
    var out :- Exec(p, m, s.loop, ps, x.locals, room, fuel);
    if out.Returned? then Some(out) else
    var k :- EvalEffect(p, m, s.step, ps, out.locals, room, fuel);
    if fuel == 0 then None else ExecFor(p, m, s, ps, k.locals, room, fuel - 1)
  }

  /** An expression evaluated for its effect: it may be missing, or a call without a value. */
  function EvalEffect(p: Program, m: Mode, e: Expr, ps: seq<Word>, ls: Locals, room: nat,
                      fuel: nat): (r: Option<Outcome>)
    ensures r.Some? ==> r.value.Normal?
    decreases room, fuel, e, 2
  {
    if e.Empty? then Some(Normal(ls))
    else if e.Call? then
      var f :- Find(p, e.name);
      var xs :- EvalArgs(p, m, e.args, ps, ls, room, fuel);
      if room < FrameSize(f.frame) then None else
      var _ :- RunBody(p, m, f, xs.values, room - FrameSize(f.frame), fuel);
      Some(Normal(xs.locals))
    else
      var x :- Eval(p, m, e, ps, ls, room, fuel);
      Some(Normal(x.locals))
  }

  function ExecAll(p: Program, m: Mode, body: seq<Stmt>, ps: seq<Word>, ls: Locals, room: nat,
                   fuel: nat): Option<Outcome>
    decreases room, fuel, body, 0
  {
    if body == [] then Some(Normal(ls)) else
    var out :- Exec(p, m, body[0], ps, ls, room, fuel);
    if out.Returned? then Some(out) else ExecAll(p, m, body[1..], ps, out.locals, room, fuel)
  }
}
