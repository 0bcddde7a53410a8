/** The semantic pass as functions: names are bound to symbol table entries under an environment, and
    each declaration takes the next slot of the function's frame. `None` is an exit with an error or
    a read through a null entry. */
module Resolve {
  import opened Options
  import S = Syntax
  import R = Resolved

  /** An entry of the symbol table. A function's entry holds how many parameters it has. */
  datatype Entry = Variable(offset: nat) | Parameter(index: nat) | Constant(value: nat) | Function(arity: nat)

  type Env = map<string, Entry>

  const INT_SIZE: nat := 4

  /** The types that the type environment knows. */
  predicate KnownType(t: string) {
    t == "int" || t == "void" || t == "char" || t == "float" || t == "double" || t == "long"
  }

  function Operator(k: S.Kind): Option<R.BinOp> {
    match k
    case ADD => Some(R.Add)
    case SUB => Some(R.Sub)
    case MULT => Some(R.Mul)
    case DIV => Some(R.Div)
    case LSHIFT => Some(R.Shl)
    case RSHIFT => Some(R.Shr)
    case LT => Some(R.Lt)
    case GT => Some(R.Gt)
    case LT_EQ => Some(R.Le)
    case GT_EQ => Some(R.Ge)
    case EQUAL => Some(R.Eq)
    case NOT_EQUAL => Some(R.Ne)
    case AND => Some(R.BitAnd)
    case XOR => Some(R.BitXor)
    case OR => Some(R.BitOr)
    case LOG_AND => Some(R.LogAnd)
    case LOG_OR => Some(R.LogOr)
    case _ => None
  }

  /** What an entry is to the code generator; `unset` is what the arena's memory held where the pass
      stores no offset. A function's name is not a variable. */
  function SymbolOf(e: Entry, unset: nat): Option<R.Symbol> {
    match e
    case Variable(o) => Some(R.Local(o))
    case Parameter(i) => Some(R.Param(i, unset))
    case Constant(v) => Some(R.Enumerator(v, unset))
    case Function(_) => None
  }

  function Lookup(env: Env, name: string): Option<Entry> {
    if name in env then Some(env[name]) else None
  }

  function Use(env: Env, unset: nat, name: string): Option<R.Symbol> {
    var e :- Lookup(env, name);
    SymbolOf(e, unset)
  }

  function Expression(env: Env, unset: nat, e: S.Expr): Option<R.Expr> {
    match e
    case Empty => Some(R.Empty)
    case Num(n) => Some(R.Num(n))
    case Name(x) => var sym :- Use(env, unset, x); Some(R.Ident(sym))
    case Unary(_, e1) => var r :- Expression(env, unset, e1); Some(R.Not(r))
    case Bin(op, l, r) =>
      var o :- Operator(op);
      var x :- Expression(env, unset, l);
      var y :- Expression(env, unset, r);
      Some(R.Bin(o, x, y))
    case Assign(x, e1) =>
      var sym :- Use(env, unset, x);
      var r :- Expression(env, unset, e1);
      Some(R.Assign(sym, r))
    case Call(f, args) =>
      var entry :- Lookup(env, f);
      if entry != Function(|args|) then None else
      var rs :- Expressions(env, unset, args);
      Some(R.Call(f, rs))
  }

  function Expressions(env: Env, unset: nat, es: seq<S.Expr>): (r: Option<seq<R.Expr>>)
    ensures r.Some? ==> |r.value| == |es|
  {
    if es == [] then Some([]) else
    var x :- Expression(env, unset, es[0]);
    var xs :- Expressions(env, unset, es[1..]);
    Some([x] + xs)
  }

  /** The tree, and what the scope and the frame's size have become. */
  datatype Checked<T> = Checked(tree: T, env: Env, size: nat)

  function Constants(env: Env, names: seq<string>, next: nat): Env
    decreases names
  {
    if names == [] then env else Constants(env[names[0] := Constant(next)], names[1..], next + 1)
  }

  /** A declaration in a scope where the name is not visible takes the next slot. */
  function Declare(env: Env, size: nat, typ: string, name: string): Option<Checked<R.Symbol>> {
    if name in env || !KnownType(typ) then None
    else Some(Checked(R.Local(size), env[name := Variable(size)], size + INT_SIZE))
  }

  function Statement(env: Env, size: nat, unset: nat, s: S.Stmt): Option<Checked<R.Stmt>>
    decreases s
  {
    match s
    case Return(e) => var x :- Expression(env, unset, e); Some(Checked(R.Return(x), env, size))
    case If(c, t, els) =>
      // the then-branch is resolved before the condition
      var thn :- Statement(env, size, unset, t);
      var cond :- Expression(thn.env, unset, c);
      if els.None? then Some(Checked(R.If(cond, thn.tree, None), thn.env, thn.size)) else
      var e :- Statement(thn.env, thn.size, unset, els.value);
      Some(Checked(R.If(cond, thn.tree, Some(e.tree)), e.env, e.size))
    case Block(body) =>
      var b :- Statements(env, size, unset, body);
      Some(Checked(R.Block(b.tree), env, b.size))
    case VarDef(typ, name, e) =>
      if name in env then None else
      var x :- Expression(env, unset, e);
      var d :- Declare(env, size, typ, name);
      Some(Checked(R.VarDef(d.tree, x), d.env, d.size))
    case VarDec(typ, name) =>
      var d :- Declare(env, size, typ, name);
      Some(Checked(R.VarDec(d.tree), d.env, d.size))
    case While(c, b) =>
      var cond :- Expression(env, unset, c);
      var loop :- Statement(env, size, unset, b);
      Some(Checked(R.While(cond, loop.tree), loop.env, loop.size))
    case For(i, c, k, b) =>
      var init :- Statement(env, size, unset, i);
      var cond :- Expression(init.env, unset, c);
      var step :- Expression(init.env, unset, k);
      var loop :- Statement(init.env, init.size, unset, b);
      Some(Checked(R.For(init.tree, cond, step, loop.tree), env, loop.size))
    case ExprStmt(e) => var x :- Expression(env, unset, e); Some(Checked(R.ExprStmt(x), env, size))
    case Enum(_, cs) => Some(Checked(R.Enum, Constants(env, cs, 0), size))
  }

  function Statements(env: Env, size: nat, unset: nat, ss: seq<S.Stmt>): Option<Checked<seq<R.Stmt>>>
    decreases ss
  {
    if ss == [] then Some(Checked([], env, size)) else
    var s :- Statement(env, size, unset, ss[0]);
    var rest :- Statements(s.env, s.size, unset, ss[1..]);
    Some(Checked([s.tree] + rest.tree, rest.env, rest.size))
  }

  /** The parameters from the n-th on are added to the global scope, without a check. */
  function Parameters(env: Env, ps: seq<S.Param>, n: nat): Option<Env>
    decreases ps
  {
    if ps == [] then Some(env)
    else if !KnownType(ps[0].typ) then None
    else Parameters(env[ps[0].name := Parameter(n)], ps[1..], n + 1)
  }

  /** A function definition; its parameters and its name stay in the global scope. */
  function Definition(env: Env, unset: nat, f: S.Func): Option<Checked<R.Func>> {
    if f.name in env || !KnownType(f.typ) then None else
    var e :- Parameters(env, f.params, 0);
    var env1 := e[f.name := Function(|f.params|)];
    var b :- Statements(env1, 0, unset, f.body);
    Some(Checked(R.Func(f.name, f.typ == "void", |f.params|, b.size, b.tree), env1, b.size))
  }

  function Definitions(env: Env, unset: nat, fs: seq<S.Func>): Option<seq<R.Func>>
    decreases fs
  {
    if fs == [] then Some([]) else
    var f :- Definition(env, unset, fs[0]);
    var rest :- Definitions(f.env, unset, fs[1..]);
    Some([f.tree] + rest)
  }

  /** The program as the code generator gets it. */
  function Program(fs: seq<S.Func>, unset: nat): Option<R.Program> {
    Definitions(map[], unset, fs)
  }
}
