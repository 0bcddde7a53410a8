/** What names are bound to after the semantic pass: every variable that is used has a declared slot
    of its own, and every call is to a function of the program with as many parameters as there are
    arguments. */
module Bindings {
  import opened Options
  import S = Syntax
  import R = Resolved
  import opened Resolve

  // ----- well-bound trees -----

  predicate SlotIn(frame: nat, sym: R.Symbol) {
    sym.Local? ==> sym.offset % INT_SIZE == 0 && sym.offset + INT_SIZE <= frame
  }

  predicate Bound(p: R.Program, frame: nat, e: R.Expr) {
    match e
    case Empty => true
    case Num(_) => true
    case Ident(sym) => SlotIn(frame, sym)
    case Not(e1) => Bound(p, frame, e1)
    case Bin(_, l, r) => Bound(p, frame, l) && Bound(p, frame, r)
    case Assign(target, e1) => SlotIn(frame, target) && Bound(p, frame, e1)
    case Call(f, args) => R.Find(p, f).Some? && R.Find(p, f).value.params == |args| && BoundAll(p, frame, args)
  }

  predicate BoundAll(p: R.Program, frame: nat, es: seq<R.Expr>) {
    es == [] || (Bound(p, frame, es[0]) && BoundAll(p, frame, es[1..]))
  }

  predicate BoundStmt(p: R.Program, frame: nat, s: R.Stmt)
    decreases s
  {
    match s
    case Return(e) => Bound(p, frame, e)
    case If(c, t, None) => Bound(p, frame, c) && BoundStmt(p, frame, t)
    case If(c, t, Some(e)) => Bound(p, frame, c) && BoundStmt(p, frame, t) && BoundStmt(p, frame, e)
    case Block(body) => BoundStmts(p, frame, body)
    case VarDef(sym, e) => sym.Local? && SlotIn(frame, sym) && Bound(p, frame, e)
    case VarDec(sym) => sym.Local? && SlotIn(frame, sym)
    case While(c, b) => Bound(p, frame, c) && BoundStmt(p, frame, b)
    case For(i, c, k, b) => BoundStmt(p, frame, i) && Bound(p, frame, c) && Bound(p, frame, k) && BoundStmt(p, frame, b)
    case ExprStmt(e) => Bound(p, frame, e)
    case Enum => true
  }

  predicate BoundStmts(p: R.Program, frame: nat, ss: seq<R.Stmt>)
    decreases ss
  {
    ss == [] || (BoundStmt(p, frame, ss[0]) && BoundStmts(p, frame, ss[1..]))
  }

  // ----- environments -----

  /** The entries of a scope while the frame has the given size. */
  ghost predicate Fits(p: R.Program, size: nat, env: Env) {
    && (forall x :: x in env && env[x].Variable? ==> SlotIn(size, R.Local(env[x].offset)))
    && (forall x, y :: x in env && y in env && env[x].Variable? && env[y].Variable? && x != y ==>
        env[x].offset != env[y].offset)
    && (forall x :: x in env && env[x].Function? ==> R.Find(p, x).Some? && R.Find(p, x).value.params == env[x].arity)
  }

  lemma FitsLater(p: R.Program, size: nat, size': nat, env: Env)
    requires Fits(p, size, env) && size <= size'
    ensures Fits(p, size', env)
  {
  }

  lemma DeclareFits(p: R.Program, size: nat, env: Env, typ: string, name: string)
    requires Fits(p, size, env) && size % INT_SIZE == 0 && Declare(env, size, typ, name).Some?
    ensures var d := Declare(env, size, typ, name).value; Fits(p, d.size, d.env) && d.size % INT_SIZE == 0
  {
  }

  lemma {:induction false} ConstantsFit(p: R.Program, size: nat, env: Env, names: seq<string>, next: nat)
    requires Fits(p, size, env)
    ensures Fits(p, size, Constants(env, names, next))
    decreases names
  {
    if names != [] {
      ConstantsFit(p, size, env[names[0] := Constant(next)], names[1..], next + 1);
    }
  }

  lemma {:induction false} ExpressionBound(p: R.Program, size: nat, env: Env, unset: nat, e: S.Expr)
    requires Fits(p, size, env) && Expression(env, unset, e).Some?
    ensures Bound(p, size, Expression(env, unset, e).value)
    decreases e
  {
    match e
    case Unary(_, e1) => ExpressionBound(p, size, env, unset, e1);
    case Bin(_, l, r) =>
      ExpressionBound(p, size, env, unset, l);
      ExpressionBound(p, size, env, unset, r);
    case Assign(_, e1) => ExpressionBound(p, size, env, unset, e1);
    case Call(_, args) => ExpressionsBound(p, size, env, unset, args);
    case _ =>
  }

  lemma {:induction false} ExpressionsBound(p: R.Program, size: nat, env: Env, unset: nat, es: seq<S.Expr>)
    requires Fits(p, size, env) && Expressions(env, unset, es).Some?
    ensures BoundAll(p, size, Expressions(env, unset, es).value)
    decreases es
  {
    hide Expression, Bound, Fits;
    if es != [] {
      ExpressionBound(p, size, env, unset, es[0]);
      ExpressionsBound(p, size, env, unset, es[1..]);
      var xs := Expressions(env, unset, es).value;
      assert xs[1..] == Expressions(env, unset, es[1..]).value;
    }
  }

  // ----- a larger frame -----

  lemma {:induction false} BoundLater(p: R.Program, size: nat, size': nat, e: R.Expr)
    requires Bound(p, size, e) && size <= size'
    ensures Bound(p, size', e)
    decreases e
  {
    match e
    case Not(e1) => BoundLater(p, size, size', e1);
    case Bin(_, l, r) =>
      BoundLater(p, size, size', l);
      BoundLater(p, size, size', r);
    case Assign(_, e1) => BoundLater(p, size, size', e1);
    case Call(_, args) => BoundAllLater(p, size, size', args);
    case _ =>
  }

  lemma {:induction false} BoundAllLater(p: R.Program, size: nat, size': nat, es: seq<R.Expr>)
    requires BoundAll(p, size, es) && size <= size'
    ensures BoundAll(p, size', es)
    decreases es
  {
    if es != [] {
      BoundLater(p, size, size', es[0]);
      BoundAllLater(p, size, size', es[1..]);
    }
  }

  lemma {:induction false} BoundStmtLater(p: R.Program, size: nat, size': nat, s: R.Stmt)
    requires BoundStmt(p, size, s) && size <= size'
    ensures BoundStmt(p, size', s)
    decreases s
  {
    hide Bound;
    match s
    case Return(e) => BoundLater(p, size, size', e);
    case If(c, t, None) =>
      BoundLater(p, size, size', c);
      BoundStmtLater(p, size, size', t);
    case If(c, t, Some(e)) =>
      BoundLater(p, size, size', c);
      BoundStmtLater(p, size, size', t);
      BoundStmtLater(p, size, size', e);
    case Block(body) => BoundStmtsLater(p, size, size', body);
    case VarDef(_, e) => BoundLater(p, size, size', e);
    case VarDec(_) =>
    case While(c, b) =>
      BoundLater(p, size, size', c);
      BoundStmtLater(p, size, size', b);
    case For(i, c, k, b) =>
      BoundStmtLater(p, size, size', i);
      BoundLater(p, size, size', c);
      BoundLater(p, size, size', k);
      BoundStmtLater(p, size, size', b);
    case ExprStmt(e) => BoundLater(p, size, size', e);
    case Enum =>
  }

  lemma {:induction false} BoundStmtsLater(p: R.Program, size: nat, size': nat, ss: seq<R.Stmt>)
    requires BoundStmts(p, size, ss) && size <= size'
    ensures BoundStmts(p, size', ss)
    decreases ss
  {
    if ss != [] {
      BoundStmtLater(p, size, size', ss[0]);
      BoundStmtsLater(p, size, size', ss[1..]);
    }
  }

  // ----- statements -----

  lemma {:induction false} StatementBound(p: R.Program, size: nat, env: Env, unset: nat, s: S.Stmt)
    requires Fits(p, size, env) && size % INT_SIZE == 0 && Statement(env, size, unset, s).Some?
    ensures var c := Statement(env, size, unset, s).value;
            size <= c.size && c.size % INT_SIZE == 0 && Fits(p, c.size, c.env) && BoundStmt(p, c.size, c.tree)
    decreases s
  {
    hide Fits, Expression, Bound, Statements, BoundStmts, Constants;
    match s
    case Return(e) => ExpressionBound(p, size, env, unset, e);
    case If(_, _, _) => IfBound(p, size, env, unset, s);
    case Block(body) =>
      StatementsBound(p, size, env, unset, body);
      FitsLater(p, size, Statements(env, size, unset, body).value.size, env);
    case VarDef(typ, name, e) =>
      ExpressionBound(p, size, env, unset, e);
      BoundLater(p, size, size + INT_SIZE, Expression(env, unset, e).value);
      DeclareFits(p, size, env, typ, name);
    case VarDec(typ, name) => DeclareFits(p, size, env, typ, name);
    case While(c, b) =>
      ExpressionBound(p, size, env, unset, c);
      StatementBound(p, size, env, unset, b);
      BoundLater(p, size, Statement(env, size, unset, b).value.size, Expression(env, unset, c).value);
    case For(_, _, _, _) => ForBound(p, size, env, unset, s);
    case ExprStmt(e) => ExpressionBound(p, size, env, unset, e);
    case Enum(_, cs) => ConstantsFit(p, size, env, cs, 0);
  }

  lemma IfBound(p: R.Program, size: nat, env: Env, unset: nat, s: S.Stmt)
    requires s.If? && Fits(p, size, env) && size % INT_SIZE == 0 && Statement(env, size, unset, s).Some?
    ensures var c := Statement(env, size, unset, s).value;
            size <= c.size && c.size % INT_SIZE == 0 && Fits(p, c.size, c.env) && BoundStmt(p, c.size, c.tree)
    decreases s, 0
  {
    hide Fits, Expression, Bound;
    var thn := Statement(env, size, unset, s.thn).value;
    StatementBound(p, size, env, unset, s.thn);
    ExpressionBound(p, thn.size, thn.env, unset, s.cond);
    if s.els.Some? {
      var e := Statement(thn.env, thn.size, unset, s.els.value).value;
      StatementBound(p, thn.size, thn.env, unset, s.els.value);
      BoundLater(p, thn.size, e.size, Expression(thn.env, unset, s.cond).value);
      BoundStmtLater(p, thn.size, e.size, thn.tree);
    }
  }

  lemma ForBound(p: R.Program, size: nat, env: Env, unset: nat, s: S.Stmt)
    requires s.For? && Fits(p, size, env) && size % INT_SIZE == 0 && Statement(env, size, unset, s).Some?
    ensures var c := Statement(env, size, unset, s).value;
            size <= c.size && c.size % INT_SIZE == 0 && Fits(p, c.size, c.env) && BoundStmt(p, c.size, c.tree)
    decreases s, 0
  {
    hide Fits, Expression, Bound;
    var init := Statement(env, size, unset, s.init).value;
    var b := Statement(init.env, init.size, unset, s.loop).value;
    StatementBound(p, size, env, unset, s.init);
    ExpressionBound(p, init.size, init.env, unset, s.cond);
    ExpressionBound(p, init.size, init.env, unset, s.step);
    StatementBound(p, init.size, init.env, unset, s.loop);
    BoundLater(p, init.size, b.size, Expression(init.env, unset, s.cond).value);
    BoundLater(p, init.size, b.size, Expression(init.env, unset, s.step).value);
    BoundStmtLater(p, init.size, b.size, init.tree);
    FitsLater(p, size, b.size, env);
  }

  lemma {:induction false} StatementsBound(p: R.Program, size: nat, env: Env, unset: nat, ss: seq<S.Stmt>)
    requires Fits(p, size, env) && size % INT_SIZE == 0 && Statements(env, size, unset, ss).Some?
    ensures var c := Statements(env, size, unset, ss).value;
            size <= c.size && c.size % INT_SIZE == 0 && Fits(p, c.size, c.env) && BoundStmts(p, c.size, c.tree)
    decreases ss
  {
    hide Fits, Statement, BoundStmt;
    if ss != [] {
      var s := Statement(env, size, unset, ss[0]).value;
      var rest := Statements(s.env, s.size, unset, ss[1..]).value;
      StatementBound(p, size, env, unset, ss[0]);
      StatementsBound(p, s.size, s.env, unset, ss[1..]);
      BoundStmtLater(p, s.size, rest.size, s.tree);
      assert ([s.tree] + rest.tree)[1..] == rest.tree;
    }
  }

  // ----- programs -----

  /** The global scope after the functions `done`: it names them all, and holds no variable. */
  ghost predicate Global(done: R.Program, env: Env) {
    && (forall i :: 0 <= i < |done| ==> done[i].name in env)
    && (forall x :: x in env ==> !env[x].Variable?)
    && (forall x :: x in env && env[x].Function? ==> HasFunction(done, x, env[x].arity))
  }

  ghost predicate HasFunction(p: R.Program, x: string, arity: nat) {
    exists i :: 0 <= i < |p| && p[i].name == x && p[i].params == arity
  }

  lemma HasFunctionLater(p: R.Program, q: R.Program, x: string, arity: nat)
    requires HasFunction(p, x, arity)
    ensures HasFunction(p + q, x, arity)
  {
    var i :| 0 <= i < |p| && p[i].name == x && p[i].params == arity;
    assert (p + q)[i] == p[i];
  }

  lemma {:induction false} ParametersGlobal(done: R.Program, env: Env, ps: seq<S.Param>, n: nat)
    requires Global(done, env) && Parameters(env, ps, n).Some?
    ensures Global(done, Parameters(env, ps, n).value)
    decreases ps
  {
    hide HasFunction;
    if ps != [] {
      ParametersGlobal(done, env[ps[0].name := Parameter(n)], ps[1..], n + 1);
    }
  }

  lemma DefinitionGlobal(done: R.Program, env: Env, unset: nat, f: S.Func)
    requires Global(done, env) && Definition(env, unset, f).Some?
    ensures var c := Definition(env, unset, f).value;
            && Global(done + [c.tree], c.env) && c.tree.name == f.name && f.name !in env
  {
    hide Statements, HasFunction, Parameters;
    var c := Definition(env, unset, f).value;
    var e := Parameters(env, f.params, 0).value;
    ParametersGlobal(done, env, f.params, 0);
    forall x | x in c.env && c.env[x].Function?
      ensures HasFunction(done + [c.tree], x, c.env[x].arity)
    {
      if x == f.name {
        LastFunction(done, c.tree);
      } else {
        HasFunctionLater(done, [c.tree], x, e[x].arity);
      }
    }
    forall i | 0 <= i < |done + [c.tree]|
      ensures (done + [c.tree])[i].name in c.env
    {
    }
  }

  lemma LastFunction(done: R.Program, f: R.Func)
    ensures HasFunction(done + [f], f.name, f.params)
  {
    assert (done + [f])[|done|] == f;
  }

  lemma Extends(done: R.Program, f: R.Func)
    requires R.DistinctNames(done) && forall i :: 0 <= i < |done| ==> done[i].name != f.name
    ensures R.DistinctNames(done + [f])
  {
  }

  lemma {:induction false} DefinitionsDistinct(done: R.Program, env: Env, unset: nat, fs: seq<S.Func>)
    requires Global(done, env) && R.DistinctNames(done) && Definitions(env, unset, fs).Some?
    ensures R.DistinctNames(done + Definitions(env, unset, fs).value)
    decreases fs
  {
    hide Global, Definition, R.DistinctNames;
    if fs == [] {
      assert done + [] == done;
    } else {
      var c := Definition(env, unset, fs[0]).value;
      var rest := Definitions(c.env, unset, fs[1..]).value;
      DefinitionGlobal(done, env, unset, fs[0]);
      assert forall i :: 0 <= i < |done| ==> done[i].name != c.tree.name by { NamesThere(done, env); }
      Extends(done, c.tree);
      DefinitionsDistinct(done + [c.tree], c.env, unset, fs[1..]);
      assert done + [c.tree] + rest == done + ([c.tree] + rest);
    }
  }

  lemma NamesThere(done: R.Program, env: Env)
    requires Global(done, env)
    ensures forall i :: 0 <= i < |done| ==> done[i].name in env
  {
  }

  /** A global scope whose functions are those of a part of the program. */
  lemma GlobalFits(p: R.Program, done: R.Program, rest: R.Program, env: Env, size: nat)
    requires Global(done, env) && p == done + rest && R.DistinctNames(p)
    ensures Fits(p, size, env)
  {
    forall x | x in env && env[x].Function?
      ensures R.Find(p, x).Some? && R.Find(p, x).value.params == env[x].arity
    {
      HasFunctionLater(done, rest, x, env[x].arity);
      var i :| 0 <= i < |p| && p[i].name == x && p[i].params == env[x].arity;
      R.FindDefined(p, p[i]);
    }
  }

  /** Every function of a program that the pass accepts is well bound in it. */
  lemma {:induction false} DefinitionsBound(p: R.Program, done: R.Program, env: Env, unset: nat, fs: seq<S.Func>)
    requires Global(done, env) && R.DistinctNames(p) && Definitions(env, unset, fs).Some?
    requires p == done + Definitions(env, unset, fs).value
    ensures forall i :: |done| <= i < |p| ==> BoundStmts(p, p[i].frame, p[i].body) && p[i].frame % INT_SIZE == 0
    decreases fs
  {
    hide Global, Definition, R.DistinctNames, BoundStmts;
    if fs != [] {
      var c := Definition(env, unset, fs[0]).value;
      var rest := Definitions(c.env, unset, fs[1..]).value;
      DefinitionGlobal(done, env, unset, fs[0]);
      assert p == done + [c.tree] + rest;
      DefinitionsBound(p, done + [c.tree], c.env, unset, fs[1..]);
      BodyBound(p, done, rest, env, unset, fs[0]);
    }
  }

  lemma BodyBound(p: R.Program, done: R.Program, rest: R.Program, env: Env, unset: nat, f: S.Func)
    requires Definition(env, unset, f).Some? && Global(done, env)
    requires var c := Definition(env, unset, f).value; p == done + [c.tree] + rest && R.DistinctNames(p)
    ensures var r := Definition(env, unset, f).value.tree; BoundStmts(p, r.frame, r.body) && r.frame % INT_SIZE == 0
  {
    hide Global, R.DistinctNames, Statements, BoundStmts, Parameters;
    var c := Definition(env, unset, f).value;
    DefinitionGlobal(done, env, unset, f);
    GlobalFits(p, done + [c.tree], rest, c.env, 0);
    StatementsBound(p, 0, c.env, unset, f.body);
  }

  /** A program that the semantic pass accepts has distinct function names; each function's frame is
      a multiple of 4 with every used variable inside it, and every call is to a function of the
      program with as many parameters as the call has arguments. */
  lemma ProgramBound(fs: seq<S.Func>, unset: nat)
    requires Program(fs, unset).Some?
    ensures var p := Program(fs, unset).value;
            && R.DistinctNames(p)
            && forall i :: 0 <= i < |p| ==> BoundStmts(p, p[i].frame, p[i].body) && p[i].frame % INT_SIZE == 0
  {
    hide BoundStmts, Definitions;
    var p := Program(fs, unset).value;
    assert [] + p == p;
    DefinitionsDistinct([], map[], unset, fs);
    DefinitionsBound(p, [], map[], unset, fs);
  }
}
