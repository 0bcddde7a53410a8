/** Which programs the semantic pass accepts, said on the syntax tree and the visible names alone: every
    name that is used is visible, none that is visible is declared again, calls are to functions seen so far
    with as many arguments as parameters, and types are known. */
module Acceptance {
  import opened Options
  import opened Syntax
  import Resolve

  // ----- the rules -----

  /** What is visible: the names of variables, parameters and constants, and the functions with how many
      parameters they have. */
  datatype View = View(vars: set<string>, funs: map<string, nat>)

  predicate IsVisible(v: View, x: string) {
    x in v.vars || x in v.funs
  }

  /** The names now stand for variables, whatever they stood for. */
  function Plus(v: View, xs: set<string>): View {
    View(v.vars + xs, v.funs - xs)
  }

  predicate IsType(t: string) {
    t in ["int", "void", "char", "float", "double", "long"]
  }

  predicate IsOperator(o: Kind) {
    o in [MULT, DIV, ADD, SUB, LSHIFT, RSHIFT, LT, GT, LT_EQ, GT_EQ, EQUAL, NOT_EQUAL, AND, XOR, OR, LOG_AND, LOG_OR]
  }

  predicate ExprAccepted(v: View, e: Expr) {
    match e
    case Empty => true
    case Num(_) => true
    case Name(x) => x in v.vars
    case Unary(_, e1) => ExprAccepted(v, e1)
    case Bin(o, l, r) => IsOperator(o) && ExprAccepted(v, l) && ExprAccepted(v, r)
    case Assign(x, e1) => x in v.vars && ExprAccepted(v, e1)
    case Call(f, args) => f in v.funs && v.funs[f] == |args| && forall a :: a in args ==> ExprAccepted(v, a)
  }

  /** The names that a statement declares in the scope it stands in; those of a block or a `for` are in a
      scope of their own. */
  function Declares(s: Stmt): set<string> {
    match s
    case VarDef(_, x, _) => {x}
    case VarDec(_, x) => {x}
    case Enum(_, cs) => set x | x in cs
    case If(_, t, None) => Declares(t)
    case If(_, t, Some(e)) => Declares(t) + Declares(e)
    case While(_, b) => Declares(b)
    case _ => {}
  }

  function After(v: View, s: Stmt): View {
    Plus(v, Declares(s))
  }

  predicate StmtAccepted(v: View, s: Stmt)
    decreases s
  {
    match s
    case Return(e) => ExprAccepted(v, e)
    case ExprStmt(e) => ExprAccepted(v, e)
    case VarDef(t, x, e) => IsType(t) && !IsVisible(v, x) && ExprAccepted(v, e)
    case VarDec(t, x) => IsType(t) && !IsVisible(v, x)
    case Enum(_, _) => true
    case Block(body) => AllAccepted(v, body)
    // the condition is checked after the then-branch
    case If(c, t, None) => StmtAccepted(v, t) && ExprAccepted(After(v, t), c)
    case If(c, t, Some(e)) =>
        StmtAccepted(v, t) && ExprAccepted(After(v, t), c) && StmtAccepted(After(v, t), e)
    case While(c, b) => ExprAccepted(v, c) && StmtAccepted(v, b)
    case For(i, c, k, b) =>
      && StmtAccepted(v, i) && ExprAccepted(After(v, i), c) && ExprAccepted(After(v, i), k)
      && StmtAccepted(After(v, i), b)
  }

  predicate AllAccepted(v: View, ss: seq<Stmt>)
    decreases ss
  {
    ss == [] || (StmtAccepted(v, ss[0]) && AllAccepted(After(v, ss[0]), ss[1..]))
  }

  /** Inside a function and after it: its parameters, and its name unless it is hidden. */
  function Entered(v: View, f: Func): View {
    var w := Plus(v, set p | p in f.params :: p.name);
    View(w.vars - {f.name}, w.funs[f.name := |f.params|])
  }

  predicate FuncAccepted(v: View, f: Func) {
    && !IsVisible(v, f.name) && IsType(f.typ) && (forall p :: p in f.params ==> IsType(p.typ))
    && AllAccepted(Entered(v, f), f.body)
  }

  predicate FuncsAccepted(v: View, fs: seq<Func>)
    decreases fs
  {
    fs == [] || (FuncAccepted(v, fs[0]) && FuncsAccepted(Entered(v, fs[0]), fs[1..]))
  }

  predicate Accepts(fs: seq<Func>) {
    FuncsAccepted(View({}, map[]), fs)
  }

  // ----- the pass accepts exactly those -----

  /** What a scope of the pass makes visible. */
  function ViewOf(env: Resolve.Env): View {
    View(set x | x in env && !env[x].Function?, map x | x in env && env[x].Function? :: env[x].arity)
  }

  lemma ViewOfVariable(env: Resolve.Env, x: string, entry: Resolve.Entry)
    requires !entry.Function?
    ensures ViewOf(env[x := entry]) == Plus(ViewOf(env), {x})
  {
    var a, b := ViewOf(env[x := entry]), Plus(ViewOf(env), {x});
    assert a.vars == b.vars;
    assert a.funs == b.funs;
  }

  lemma ViewOfFunction(env: Resolve.Env, f: string, n: nat)
    ensures var v := ViewOf(env); ViewOf(env[f := Resolve.Function(n)]) == View(v.vars - {f}, v.funs[f := n])
  {
    var v := ViewOf(env);
    var a, b := ViewOf(env[f := Resolve.Function(n)]), View(v.vars - {f}, v.funs[f := n]);
    assert a.vars == b.vars;
    assert a.funs == b.funs;
  }

  lemma VisibleIn(env: Resolve.Env, x: string)
    ensures IsVisible(ViewOf(env), x) <==> x in env
  {
  }

  lemma PlusPlus(v: View, xs: set<string>, ys: set<string>)
    ensures Plus(Plus(v, xs), ys) == Plus(v, xs + ys)
  {
    assert v.vars + xs + ys == v.vars + (xs + ys);
    assert v.funs - xs - ys == v.funs - (xs + ys);
  }

  lemma PlusNothing(v: View)
    ensures Plus(v, {}) == v
  {
    assert v.vars + {} == v.vars && v.funs - {} == v.funs;
  }

  lemma OperatorIff(o: Kind)
    ensures Resolve.Operator(o).Some? <==> IsOperator(o)
  {
  }

  lemma TypeIff(t: string)
    ensures Resolve.KnownType(t) <==> IsType(t)
  {
  }

  lemma UseIff(env: Resolve.Env, unset: nat, x: string)
    ensures Resolve.Use(env, unset, x).Some? <==> x in ViewOf(env).vars
    ensures Resolve.Lookup(env, x).Some? && Resolve.Lookup(env, x).value.Function? <==> x in ViewOf(env).funs
    ensures x in ViewOf(env).funs ==> Resolve.Lookup(env, x) == Some(Resolve.Function(ViewOf(env).funs[x]))
  {
  }

  lemma {:induction false} ExprAcceptedIff(env: Resolve.Env, unset: nat, e: Expr)
    ensures Resolve.Expression(env, unset, e).Some? <==> ExprAccepted(ViewOf(env), e)
  {
    hide ViewOf, Resolve.Use, Resolve.Lookup, Resolve.Operator, IsOperator, Resolve.Expressions;
    match e
    case Empty =>
    case Num(_) =>
    case Name(x) => UseIff(env, unset, x);
    case Unary(_, e1) => ExprAcceptedIff(env, unset, e1);
    case Bin(o, l, r) =>
      OperatorIff(o);
      ExprAcceptedIff(env, unset, l);
      ExprAcceptedIff(env, unset, r);
    case Assign(x, e1) =>
      UseIff(env, unset, x);
      ExprAcceptedIff(env, unset, e1);
    case Call(f, args) =>
      UseIff(env, unset, f);
      ArgsAcceptedIff(env, unset, args);
  }

  lemma {:induction false} ArgsAcceptedIff(env: Resolve.Env, unset: nat, es: seq<Expr>)
    ensures Resolve.Expressions(env, unset, es).Some? <==> forall a :: a in es ==> ExprAccepted(ViewOf(env), a)
  {
    hide ViewOf, ExprAccepted, Resolve.Expression;
    if es != [] {
      ExprAcceptedIff(env, unset, es[0]);
      ArgsAcceptedIff(env, unset, es[1..]);
      assert forall a :: a in es <==> a == es[0] || a in es[1..];
    }
  }

  /** The names that are left visible are those of the view after the statement. */
  ghost predicate Leaves<T>(r: Option<Resolve.Checked<T>>, accepted: bool, v: View) {
    (r.Some? <==> accepted) && (r.Some? ==> ViewOf(r.value.env) == v)
  }

  lemma {:induction false} ConstantsView(env: Resolve.Env, cs: seq<string>, n: nat)
    ensures ViewOf(Resolve.Constants(env, cs, n)) == Plus(ViewOf(env), set x | x in cs)
    decreases cs
  {
    hide ViewOf, Plus;
    var xs := set x | x in cs;
    if cs == [] {
      assert xs == {};
      PlusNothing(ViewOf(env));
    } else {
      var rest := set x | x in cs[1..];
      ViewOfVariable(env, cs[0], Resolve.Constant(n));
      ConstantsView(env[cs[0] := Resolve.Constant(n)], cs[1..], n + 1);
      PlusPlus(ViewOf(env), {cs[0]}, rest);
      assert xs == {cs[0]} + rest;
    }
  }

  lemma DeclareAcceptedIff(env: Resolve.Env, size: nat, typ: string, x: string)
    ensures Leaves(Resolve.Declare(env, size, typ, x), IsType(typ) && !IsVisible(ViewOf(env), x),
            Plus(ViewOf(env), {x}))
  {
    hide ViewOf, IsType, Resolve.KnownType, IsVisible;
    TypeIff(typ);
    VisibleIn(env, x);
    ViewOfVariable(env, x, Resolve.Variable(size));
  }

  /** A statement is accepted, and leaves these names visible, in a frame of any size. */
  lemma {:induction false} StmtAcceptedIff(env: Resolve.Env, size: nat, unset: nat, s: Stmt)
    ensures Leaves(Resolve.Statement(env, size, unset, s), StmtAccepted(ViewOf(env), s), After(ViewOf(env), s))
    decreases s, 1
  {
    hide ViewOf, Plus, ExprAccepted, IsType, Resolve.KnownType, IsVisible, Resolve.Expression, Resolve.Declare,
         Resolve.Constants, Resolve.Statements, AllAccepted;
    PlusNothing(ViewOf(env));
    match s
    case Return(e) => ExprAcceptedIff(env, unset, e);
    case ExprStmt(e) => ExprAcceptedIff(env, unset, e);
    case VarDef(t, x, e) =>
      VisibleIn(env, x);
      ExprAcceptedIff(env, unset, e);
      DeclareAcceptedIff(env, size, t, x);
    case VarDec(t, x) => DeclareAcceptedIff(env, size, t, x);
    case Enum(_, cs) => ConstantsView(env, cs, 0);
    case Block(body) => AllAcceptedIff(env, size, unset, body);
    case If(_, _, _) => IfAcceptedIff(env, size, unset, s);
    case While(c, b) =>
      ExprAcceptedIff(env, unset, c);
      StmtAcceptedIff(env, size, unset, b);
    case For(_, _, _, _) => ForAcceptedIff(env, size, unset, s);
  }

  lemma IfAcceptedIff(env: Resolve.Env, size: nat, unset: nat, s: Stmt)
    requires s.If?
    ensures Leaves(Resolve.Statement(env, size, unset, s), StmtAccepted(ViewOf(env), s), After(ViewOf(env), s))
    decreases s, 0
  {
    hide ViewOf, Plus, ExprAccepted, Resolve.Expression;
    StmtAcceptedIff(env, size, unset, s.thn);
    var t := Resolve.Statement(env, size, unset, s.thn);
    if t.Some? {
      ExprAcceptedIff(t.value.env, unset, s.cond);
      if s.els.Some? {
        StmtAcceptedIff(t.value.env, t.value.size, unset, s.els.value);
        PlusPlus(ViewOf(env), Declares(s.thn), Declares(s.els.value));
      }
    }
  }

  lemma ForAcceptedIff(env: Resolve.Env, size: nat, unset: nat, s: Stmt)
    requires s.For?
    ensures Leaves(Resolve.Statement(env, size, unset, s), StmtAccepted(ViewOf(env), s), After(ViewOf(env), s))
    decreases s, 0
  {
    hide ViewOf, Plus, ExprAccepted, Resolve.Expression;
    PlusNothing(ViewOf(env));
    StmtAcceptedIff(env, size, unset, s.init);
    var i := Resolve.Statement(env, size, unset, s.init);
    if i.Some? {
      ExprAcceptedIff(i.value.env, unset, s.cond);
      ExprAcceptedIff(i.value.env, unset, s.step);
      StmtAcceptedIff(i.value.env, i.value.size, unset, s.loop);
    }
  }

  lemma {:induction false} AllAcceptedIff(env: Resolve.Env, size: nat, unset: nat, ss: seq<Stmt>)
    ensures Resolve.Statements(env, size, unset, ss).Some? <==> AllAccepted(ViewOf(env), ss)
    decreases ss, 0
  {
    hide ViewOf, After, Resolve.Statement, StmtAccepted;
    if ss != [] {
      StmtAcceptedIff(env, size, unset, ss[0]);
      var s := Resolve.Statement(env, size, unset, ss[0]);
      if s.Some? {
        AllAcceptedIff(s.value.env, s.value.size, unset, ss[1..]);
      }
    }
  }

  lemma {:induction false} ParametersAcceptedIff(env: Resolve.Env, ps: seq<Param>, n: nat)
    ensures var r := Resolve.Parameters(env, ps, n);
            && (r.Some? <==> forall p :: p in ps ==> IsType(p.typ))
            && (r.Some? ==> ViewOf(r.value) == Plus(ViewOf(env), set p | p in ps :: p.name))
    decreases ps
  {
    hide ViewOf, Plus, IsType, Resolve.KnownType;
    var xs := set p | p in ps :: p.name;
    if ps == [] {
      assert xs == {};
      PlusNothing(ViewOf(env));
    } else {
      TypeIff(ps[0].typ);
      assert forall p :: p in ps <==> p == ps[0] || p in ps[1..];
      var env1 := env[ps[0].name := Resolve.Parameter(n)];
      var rest := set p | p in ps[1..] :: p.name;
      ViewOfVariable(env, ps[0].name, Resolve.Parameter(n));
      ParametersAcceptedIff(env1, ps[1..], n + 1);
      PlusPlus(ViewOf(env), {ps[0].name}, rest);
      assert xs == {ps[0].name} + rest;
    }
  }

  lemma FuncAcceptedIff(env: Resolve.Env, unset: nat, f: Func)
    ensures Leaves(Resolve.Definition(env, unset, f), FuncAccepted(ViewOf(env), f), Entered(ViewOf(env), f))
  {
    hide ViewOf, Plus, IsType, Resolve.KnownType, IsVisible, Resolve.Statements, Resolve.Parameters, AllAccepted;
    VisibleIn(env, f.name);
    TypeIff(f.typ);
    ParametersAcceptedIff(env, f.params, 0);
    var e := Resolve.Parameters(env, f.params, 0);
    if e.Some? {
      ViewOfFunction(e.value, f.name, |f.params|);
      AllAcceptedIff(e.value[f.name := Resolve.Function(|f.params|)], 0, unset, f.body);
    }
  }

  lemma {:induction false} FuncsAcceptedIff(env: Resolve.Env, unset: nat, fs: seq<Func>)
    ensures Resolve.Definitions(env, unset, fs).Some? <==> FuncsAccepted(ViewOf(env), fs)
    decreases fs
  {
    hide ViewOf, Entered, Resolve.Definition, FuncAccepted;
    if fs != [] {
      FuncAcceptedIff(env, unset, fs[0]);
      var f := Resolve.Definition(env, unset, fs[0]);
      if f.Some? {
        FuncsAcceptedIff(f.value.env, unset, fs[1..]);
      }
    }
  }

  /** The semantic pass accepts a program if and only if it keeps the rules. */
  lemma ProgramAcceptedIff(fs: seq<Func>, unset: nat)
    ensures Resolve.Program(fs, unset).Some? <==> Accepts(fs)
  {
    hide Resolve.Definitions, FuncsAccepted;
    FuncsAcceptedIff(map[], unset, fs);
    assert ViewOf(map[]) == View({}, map[]) by {
      assert ViewOf(map[]).vars == {} && ViewOf(map[]).funs == map[];
    }
  }
}
