/** Big-step semantics of the syntax tree itself: names stand for constants, parameters and variables,
    and what a block or a `for` declares is gone after it. `None` as for resolved programs. */
module NameSemantics {
  import opened Options
  import opened Words
  import opened Syntax
  import R = Resolved
  import V = Semantics

  /** What a name stands for; a variable may be uninitialised. */
  datatype Binding = Const(value: nat) | Arg(word: Word) | Var(content: Option<Word>)

  type Store = map<string, Binding>

  datatype Outcome = Normal(store: Store) | Returned(value: Option<Word>)
  datatype Evaluated = Evaluated(value: Word, store: Store)
  datatype EvaluatedAll = EvaluatedAll(values: seq<Word>, store: Store)

  function Find(fs: seq<Func>, name: string): (f: Option<Func>)
    ensures f.Some? ==> f.value in fs && f.value.name == name
  {
    if fs == [] then None else if fs[0].name == name then Some(fs[0]) else Find(fs[1..], name)
  }

  function Value(st: Store, x: string): Option<Word> {
    if x !in st then None else
    match st[x]
    case Const(v) => Some(Wrap(v))
    case Arg(w) => Some(w)
    case Var(w) => w
  }

  predicate EffectFree(e: Expr) {
    match e
    case Empty => false
    case Num(_) => true
    case Name(_) => true
    case Unary(_, e1) => EffectFree(e1)
    case Bin(_, l, r) => EffectFree(l) && EffectFree(r)
    case Assign(_, _) => false
    case Call(_, _) => false
  }

  /** The value of an operator between two words, after C99: 6.5.5 for the multiplicative operators,
      6.5.6 for the additive ones, 6.5.7 for shifts, 6.5.8 and 6.5.9 for comparisons, 6.5.10 to 6.5.12 for
      the bitwise ones, 6.5.13 and 6.5.14 for the logical ones once both operands are evaluated. */
  function Result(op: Kind, x: Word, y: Word): Option<Word> {
    match op
    case MULT => Some(Wrap(x * y))
    case DIV => if y == 0 then None else Some(Wrap(TruncDiv(x, y)))
    case ADD => Some(Wrap(x + y))
    case SUB => Some(Wrap(x - y))
    case LSHIFT => if 0 <= y < 32 then Some(Wrap(x * Pow2(y))) else None
    case RSHIFT => if 0 <= y < 32 then Some(Wrap(x / Pow2(y))) else None
    case LT => Some(if x < y then 1 else 0)
    case GT => Some(if x > y then 1 else 0)
    case LT_EQ => Some(if x <= y then 1 else 0)
    case GT_EQ => Some(if x >= y then 1 else 0)
    case EQUAL => Some(if x == y then 1 else 0)
    case NOT_EQUAL => Some(if x != y then 1 else 0)
    case AND => Some(And(x, y))
    case XOR => Some(Xor(x, y))
    case OR => Some(Or(x, y))
    case LOG_AND => Some(if x != 0 && y != 0 then 1 else 0)
    case LOG_OR => Some(if x != 0 || y != 0 then 1 else 0)
    case _ => None
  }

  /** Whether the left operand's value x decides a logical operator, so that the right one is not
      evaluated; in the compiled reading it is, and that can only be noticed if it has an effect. */
  predicate Skips(m: V.Mode, op: Kind, x: Word, r: Expr) {
    && ((op == LOG_AND && x == 0) || (op == LOG_OR && x != 0))
    && (m == V.C || EffectFree(r))
  }

  /** How many variables a function declares; each takes four bytes of its frame. */
  function Declarations(s: Stmt): nat
    decreases s
  {
    match s
    case VarDef(_, _, _) => 1
    case VarDec(_, _) => 1
    case If(_, t, None) => Declarations(t)
    case If(_, t, Some(e)) => Declarations(t) + Declarations(e)
    case Block(body) => AllDeclarations(body)
    case While(_, b) => Declarations(b)
    case For(i, _, _, b) => Declarations(i) + Declarations(b)
    case _ => 0
  }

  function AllDeclarations(ss: seq<Stmt>): nat
    decreases ss
  {
    if ss == [] then 0 else Declarations(ss[0]) + AllDeclarations(ss[1..])
  }

  function Frame(f: Func): nat {
    R.FrameSize(4 * AllDeclarations(f.body))
  }

  /** Parameters bound in order. */
  function Bind(st: Store, ps: seq<Param>, vs: seq<Word>): Store
    requires |ps| == |vs|
    decreases ps
  {
    if ps == [] then st else Bind(st[ps[0].name := Arg(vs[0])], ps[1..], vs[1..])
  }

  /** What is left of the inner store outside of a block. */
  function Leave(outer: Store, inner: Store): Store {
    map x | x in outer && x in inner :: inner[x]
  }

  function Enumerate(st: Store, names: seq<string>, next: nat): Store
    decreases names
  {
    if names == [] then st else Enumerate(st[names[0] := Const(next)], names[1..], next + 1)
  }

  function Eval(fs: seq<Func>, m: V.Mode, e: Expr, st: Store, room: nat, fuel: nat): Option<Evaluated>
    decreases room, fuel, e, 1
  {
    match e
    case Empty => None
    case Num(v) => Some(Evaluated(Wrap(v), st))
    case Name(x) => var v :- Value(st, x); Some(Evaluated(v, st))
    case Unary(_, e1) =>
      var x :- Eval(fs, m, e1, st, room, fuel);
      Some(Evaluated(Truth(x.value == 0), x.store))
    case Bin(op, l, r) =>
      var x :- Eval(fs, m, l, st, room, fuel);
      if Skips(m, op, x.value, r) then Some(Evaluated(if op == LOG_OR then 1 else 0, x.store)) else
      var y :- Eval(fs, m, r, x.store, room, fuel);
      var v :- Result(op, x.value, y.value);
      Some(Evaluated(v, y.store))
    case Assign(name, e1) =>
      if name !in st || !st[name].Var? then None else
      var x :- Eval(fs, m, e1, st, room, fuel);
      Some(Evaluated(x.value, x.store[name := Var(Some(x.value))]))
    case Call(name, args) =>
      var f :- Find(fs, name);
      var xs :- EvalArgs(fs, m, args, st, room, fuel);
      if room < Frame(f) then None else
      var v :- RunBody(fs, m, f, xs.values, room - Frame(f), fuel);
      var w :- v;
      Some(Evaluated(w, xs.store))
  }

  function EvalArgs(fs: seq<Func>, m: V.Mode, args: seq<Expr>, st: Store, room: nat,
                    fuel: nat): (r: Option<EvaluatedAll>)
    ensures r.Some? ==> |r.value.values| == |args|
    decreases room, fuel, args
  {
    if args == [] then Some(EvaluatedAll([], st)) else
    var x :- Eval(fs, m, args[0], st, room, fuel);
    var xs :- EvalArgs(fs, m, args[1..], x.store, room, fuel);
    Some(EvaluatedAll([x.value] + xs.values, xs.store))
  }

  function RunBody(fs: seq<Func>, m: V.Mode, f: Func, vs: seq<Word>, room: nat, fuel: nat): Option<Option<Word>>
    decreases room, fuel, f.body, 1
  {
    if |vs| != |f.params| then None else
    var out :- ExecAll(fs, m, f.body, Bind(map[], f.params, vs), room, fuel);
    match out
    case Returned(v) => Some(v)
    case Normal(_) => if f.typ == "void" then Some(None) else None
  }

  /** A call of f on a stack of `room` bytes. */
  function RunFunc(fs: seq<Func>, m: V.Mode, f: Func, vs: seq<Word>, room: nat, fuel: nat): Option<Option<Word>> {
    if room < Frame(f) then None else RunBody(fs, m, f, vs, room - Frame(f), fuel)
  }

  /** A block's own declarations end with it. */
  function LeaveBlock(outer: Store, out: Outcome): Outcome {
    if out.Normal? then Normal(Leave(outer, out.store)) else out
  }

  function Exec(fs: seq<Func>, m: V.Mode, s: Stmt, st: Store, room: nat, fuel: nat): Option<Outcome>
    decreases room, fuel, s, 1
  {
    match s
    case Return(e) =>
      if e.Empty? then Some(Returned(None)) else
      var x :- Eval(fs, m, e, st, room, fuel);
      Some(Returned(Some(x.value)))
    case If(c, thn, els) =>
      var x :- Eval(fs, m, c, st, room, fuel);
      if x.value == 0 then
        if els.None? then Some(Normal(x.store)) else Exec(fs, m, els.value, x.store, room, fuel)
      else
        var out :- Exec(fs, m, thn, x.store, room, fuel);
        if m == V.Compiled && out.Normal? && els.Some? then Exec(fs, m, els.value, out.store, room, fuel)
        else Some(out)
    case Block(body) =>
      var out :- ExecAll(fs, m, body, st, room, fuel);
      Some(LeaveBlock(st, out))
    case VarDef(_, name, e) =>
      var x :- Eval(fs, m, e, st, room, fuel);
      Some(Normal(x.store[name := Var(Some(x.value))]))
    case VarDec(_, name) => Some(Normal(st[name := Var(None)]))
    case Enum(_, cs) => Some(Normal(Enumerate(st, cs, 0)))
    case ExprStmt(e) => EvalEffect(fs, m, e, st, room, fuel)
    case While(c, body) =>
      var x :- Eval(fs, m, c, st, room, fuel);
      if x.value == 0 then Some(Normal(x.store)) else
      var out :- Exec(fs, m, body, x.store, room, fuel);
      if out.Returned? then Some(out)
      else if fuel == 0 then None
      else Exec(fs, m, s, out.store, room, fuel - 1)
    case For(init, c, step, body) =>
      var out :- Exec(fs, m, init, st, room, fuel);
      if out.Returned? then Some(out) else
      var end :- ExecFor(fs, m, s, out.store, room, fuel);
      Some(LeaveBlock(st, end))
  }

  /** A `for` statement after its initialisation. */
  function ExecFor(fs: seq<Func>, m: V.Mode, s: Stmt, st: Store, room: nat, fuel: nat): Option<Outcome>
    requires s.For?
    decreases room, fuel, s, 0
  {
    var x :- if s.cond.Empty? then Some(Evaluated(1, st)) else Eval(fs, m, s.cond, st, room, fuel);
    if x.value == 0 then Some(Normal(x.store)) else
    var out :- Exec(fs, m, s.loop, x.store, room, fuel);
    if out.Returned? then Some(out) else
    var k :- EvalEffect(fs, m, s.step, out.store, room, fuel);
    if fuel == 0 then None else ExecFor(fs, m, s, k.store, room, fuel - 1)
  }

  function EvalEffect(fs: seq<Func>, m: V.Mode, e: Expr, st: Store, room: nat, fuel: nat): (r: Option<Outcome>)
    ensures r.Some? ==> r.value.Normal?
    decreases room, fuel, e, 2
  {
    if e.Empty? then Some(Normal(st))
    else if e.Call? then
      var f :- Find(fs, e.name);
      var xs :- EvalArgs(fs, m, e.args, st, room, fuel);
      if room < Frame(f) then None else
      var _ :- RunBody(fs, m, f, xs.values, room - Frame(f), fuel);
      Some(Normal(xs.store))
    else
      var x :- Eval(fs, m, e, st, room, fuel);
      Some(Normal(x.store))
  }

  function ExecAll(fs: seq<Func>, m: V.Mode, body: seq<Stmt>, st: Store, room: nat, fuel: nat): Option<Outcome>
    decreases room, fuel, body, 0
  {
    if body == [] then Some(Normal(st)) else
    var out :- Exec(fs, m, body[0], st, room, fuel);
    if out.Returned? then Some(out) else ExecAll(fs, m, body[1..], out.store, room, fuel)
  }
}
