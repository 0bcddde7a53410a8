/** Which programs mean the same before and after their names are replaced by slots: those that keep
    to a few rules of scope that the semantic pass does not check. */
module Scoping {
  import opened Options
  import opened Syntax
  import Resolve

  // ----- the rules -----

  /** No name in e is among the given ones. */
  predicate Clear(foreign: set<string>, e: Expr) {
    match e
    case Empty => true
    case Num(_) => true
    case Name(x) => x !in foreign
    case Unary(_, e1) => Clear(foreign, e1)
    case Bin(_, l, r) => Clear(foreign, l) && Clear(foreign, r)
    case Assign(x, e1) => x !in foreign && Clear(foreign, e1)
    case Call(_, args) => ClearAll(foreign, args)
  }

  predicate ClearAll(foreign: set<string>, es: seq<Expr>) {
    es == [] || (Clear(foreign, es[0]) && ClearAll(foreign, es[1..]))
  }

  /** C99 has no declaration where a single statement is expected (sections 6.8.4 and 6.8.5). */
  predicate IsDeclaration(s: Stmt) {
    s.VarDef? || s.VarDec? || s.Enum?
  }

  predicate NewNames(vis: set<string>, cs: seq<string>)
    decreases cs
  {
    cs == [] || (cs[0] !in vis && NewNames(vis + {cs[0]}, cs[1..]))
  }

  function Names(cs: seq<string>): set<string> {
    set x | x in cs
  }

  /** The visible names after a statement. */
  function Visible(vis: set<string>, s: Stmt): set<string> {
    match s
    case VarDef(_, x, _) => vis + {x}
    case VarDec(_, x) => vis + {x}
    case Enum(_, cs) => vis + Names(cs)
    case _ => vis
  }

  /** With `vis` the visible names: no name of another function's parameter is used, the branch or the
      body of a statement is no declaration, and no enumeration constant hides a name. */
  predicate Tidy(vis: set<string>, foreign: set<string>, s: Stmt)
    decreases s
  {
    match s
    case Return(e) => Clear(foreign, e)
    case ExprStmt(e) => Clear(foreign, e)
    case VarDec(_, _) => true
    case VarDef(_, _, e) => Clear(foreign, e)
    case Enum(_, cs) => NewNames(vis, cs)
    case Block(body) => TidyAll(vis, foreign, body)
    case If(c, t, None) => Clear(foreign, c) && !IsDeclaration(t) && Tidy(vis, foreign, t)
    case If(c, t, Some(e)) =>
        Clear(foreign, c) && !IsDeclaration(t) && Tidy(vis, foreign, t) && !IsDeclaration(e) && Tidy(vis, foreign, e)
    case While(c, b) => Clear(foreign, c) && !IsDeclaration(b) && Tidy(vis, foreign, b)
    case For(i, c, k, b) =>
      && Tidy(vis, foreign, i) && Clear(foreign, c) && Clear(foreign, k)
      && !IsDeclaration(b) && Tidy(Visible(vis, i), foreign, b)
  }

  predicate TidyAll(vis: set<string>, foreign: set<string>, ss: seq<Stmt>)
    decreases ss
  {
    ss == [] || (Tidy(vis, foreign, ss[0]) && TidyAll(Visible(vis, ss[0]), foreign, ss[1..]))
  }

  function ParamNames(ps: seq<Param>): set<string> {
    if ps == [] then {} else {ps[0].name} + ParamNames(ps[1..])
  }

  /** The functions after those whose names and parameters are `vis`, the latter being `params`. */
  predicate TidyFuncs(vis: set<string>, params: set<string>, fs: seq<Func>)
    decreases fs
  {
    fs == [] ||
    var own := ParamNames(fs[0].params);
    var seen := vis + own + {fs[0].name};
    TidyAll(seen, params - own, fs[0].body) && TidyFuncs(seen, params + own, fs[1..])
  }

  predicate TidyProgram(fs: seq<Func>) {
    TidyFuncs({}, {}, fs)
  }

  // ----- what a statement does to the environment -----

  ghost predicate Keeps(env: Resolve.Env, env': Resolve.Env) {
    forall x :: x in env ==> x in env' && env'[x] == env[x]
  }

  lemma {:induction false} EnumerationKeeps(env: Resolve.Env, cs: seq<string>, n: nat)
    requires NewNames(env.Keys, cs)
    ensures Keeps(env, Resolve.Constants(env, cs, n)) && Resolve.Constants(env, cs, n).Keys == env.Keys + Names(cs)
    decreases cs
  {
    if cs != [] {
      var env1 := env[cs[0] := Resolve.Constant(n)];
      assert env1.Keys == env.Keys + {cs[0]};
      EnumerationKeeps(env1, cs[1..], n + 1);
      assert cs == [cs[0]] + cs[1..];
      assert Names(cs) == {cs[0]} + Names(cs[1..]);
    }
  }

  /** A tidy statement adds the names it declares, and nothing else changes. */
  lemma {:induction false} StatementKeeps(env: Resolve.Env, size: nat, unset: nat, foreign: set<string>, s: Stmt)
    requires Tidy(env.Keys, foreign, s) && Resolve.Statement(env, size, unset, s).Some?
    ensures var c := Resolve.Statement(env, size, unset, s).value;
            Keeps(env, c.env) && c.env.Keys == Visible(env.Keys, s)
    decreases s
  {
    hide Resolve.Expression, Resolve.Statements, Clear;
    match s
    case If(_, t, els) =>
      StatementKeeps(env, size, unset, foreign, t);
      var thn := Resolve.Statement(env, size, unset, t).value;
      assert thn.env == env;
      if els.Some? {
        StatementKeeps(env, thn.size, unset, foreign, els.value);
      }
    case While(_, b) => StatementKeeps(env, size, unset, foreign, b);
    case Enum(_, cs) => EnumerationKeeps(env, cs, 0);
    case _ =>
  }

  lemma {:induction false} StatementsKeep(env: Resolve.Env, size: nat, unset: nat, foreign: set<string>, ss: seq<Stmt>)
    requires TidyAll(env.Keys, foreign, ss) && Resolve.Statements(env, size, unset, ss).Some?
    ensures Keeps(env, Resolve.Statements(env, size, unset, ss).value.env)
    decreases ss
  {
    hide Resolve.Statement, Tidy;
    if ss != [] {
      StatementKeeps(env, size, unset, foreign, ss[0]);
      var c := Resolve.Statement(env, size, unset, ss[0]).value;
      StatementsKeep(c.env, c.size, unset, foreign, ss[1..]);
    }
  }

  /** A statement that is no declaration leaves the environment as it was. */
  lemma SameEnvironment(env: Resolve.Env, size: nat, unset: nat, foreign: set<string>, s: Stmt)
    requires Tidy(env.Keys, foreign, s) && !IsDeclaration(s) && Resolve.Statement(env, size, unset, s).Some?
    ensures Resolve.Statement(env, size, unset, s).value.env == env
  {
    hide Resolve.Statement, Tidy;
    StatementKeeps(env, size, unset, foreign, s);
  }
}
