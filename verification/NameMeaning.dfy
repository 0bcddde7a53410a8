/** Replacing names by slots preserves the meaning of tidy programs, expression by expression and
    statement by statement, through any calls. */
module NameMeaning {
  import opened Options
  import opened Words
  import opened Syntax
  import R = Resolved
  import V = Semantics
  import Resolve
  import opened Bindings
  import opened Scoping
  import N = NameSemantics

  /** A program, and what the semantic pass makes of it. */
  datatype Pair = Pair(fs: seq<Func>, p: R.Program, unset: nat)

  ghost predicate Accepted(k: Pair) {
    Resolve.Program(k.fs, k.unset) == Some(k.p) && TidyProgram(k.fs)
  }

  // ----- stores and slots -----

  ghost predicate Stands(entry: Resolve.Entry, x: string, ps: seq<Word>, ls: V.Locals, st: N.Store) {
    match entry
    case Variable(o) => x in st && st[x] == N.Var(if o in ls then Some(ls[o]) else None)
    case Parameter(i) => i < |ps| && x in st && st[x] == N.Arg(ps[i])
    case Constant(v) => x in st && st[x] == N.Const(v)
    case Function(_) => true
  }

  /** The store gives each visible name what its slot, its argument or its value is. */
  ghost predicate Same(env: Resolve.Env, foreign: set<string>, ps: seq<Word>, ls: V.Locals, st: N.Store) {
    forall x :: x in env && x !in foreign ==> Stands(env[x], x, ps, ls, st)
  }

  ghost predicate SameValue(env: Resolve.Env, foreign: set<string>, ps: seq<Word>, a: Option<V.Evaluated>,
                            b: Option<N.Evaluated>) {
    if a.None? then b.None?
        else b.Some? && a.value.value == b.value.value && Same(env, foreign, ps, a.value.locals, b.value.store)
  }

  ghost predicate SameValues(env: Resolve.Env, foreign: set<string>, ps: seq<Word>, a: Option<V.EvaluatedAll>,
                             b: Option<N.EvaluatedAll>) {
    if a.None? then b.None?
        else b.Some? && a.value.values == b.value.values && Same(env, foreign, ps, a.value.locals, b.value.store)
  }

  ghost predicate SameOutcome(env: Resolve.Env, foreign: set<string>, ps: seq<Word>, a: Option<V.Outcome>,
                              b: Option<N.Outcome>) {
    match a
    case None => b.None?
    case Some(Returned(v)) => b == Some(N.Returned(v))
    case Some(Normal(ls)) => b.Some? && b.value.Normal? && Same(env, foreign, ps, ls, b.value.store)
  }

  /** A variable's new value, in its slot and in the store. */
  lemma AssignSame(p: R.Program, size: nat, env: Resolve.Env, foreign: set<string>, ps: seq<Word>, ls: V.Locals,
                   st: N.Store, x: string, w: Word)
    requires Same(env, foreign, ps, ls, st) && Fits(p, size, env) && x in env && env[x].Variable?
    ensures Same(env, foreign, ps, ls[env[x].offset := w], st[x := N.Var(Some(w))])
  {
  }

  /** A new variable, in the next slot: with a value, or with none. */
  lemma DeclareSame(p: R.Program, size: nat, env: Resolve.Env, foreign: set<string>, ps: seq<Word>, ls: V.Locals,
                    st: N.Store, x: string, w: Word)
    requires Same(env, foreign, ps, ls, st) && Fits(p, size, env) && x !in env
    ensures Same(env[x := Resolve.Variable(size)], foreign, ps, ls[size := w], st[x := N.Var(Some(w))])
    ensures Same(env[x := Resolve.Variable(size)], foreign, ps, ls - {size}, st[x := N.Var(None)])
  {
  }

  /** What a block declares is gone after it. */
  lemma LeaveSame(env: Resolve.Env, env': Resolve.Env, foreign: set<string>, ps: seq<Word>, ls: V.Locals, st: N.Store,
                  ls': V.Locals, st': N.Store)
    requires Same(env, foreign, ps, ls, st) && Same(env', foreign, ps, ls', st') && Keeps(env, env')
    ensures Same(env, foreign, ps, ls', N.Leave(st, st'))
  {
    forall x | x in env && x !in foreign
      ensures Stands(env[x], x, ps, ls', N.Leave(st, st'))
    {
      assert Stands(env[x], x, ps, ls, st);
      assert Stands(env'[x], x, ps, ls', st');
    }
  }

  lemma {:induction false} EnumerateSame(env: Resolve.Env, foreign: set<string>, ps: seq<Word>, ls: V.Locals,
                                         st: N.Store, cs: seq<string>, n: nat)
    requires Same(env, foreign, ps, ls, st)
    ensures Same(Resolve.Constants(env, cs, n), foreign, ps, ls, N.Enumerate(st, cs, n))
    decreases cs
  {
    if cs != [] {
      EnumerateSame(env[cs[0] := Resolve.Constant(n)], foreign, ps, ls, st[cs[0] := N.Const(n)], cs[1..], n + 1);
    }
  }

  // ----- functions -----

  lemma {:induction false} ParametersDefine(env: Resolve.Env, ps: seq<Param>, n: nat)
    requires Resolve.Parameters(env, ps, n).Some?
    ensures var e := Resolve.Parameters(env, ps, n).value;
            && e.Keys == env.Keys + ParamNames(ps)
            && (forall x :: x in env && x !in ParamNames(ps) ==> e[x] == env[x])
            && (forall x :: x in ParamNames(ps) ==> e[x].Parameter?)
    decreases ps
  {
    if ps != [] {
      var env1 := env[ps[0].name := Resolve.Parameter(n)];
      assert env1.Keys == env.Keys + {ps[0].name};
      ParametersDefine(env1, ps[1..], n + 1);
    }
  }

  /** Arguments are bound as parameters are numbered. */
  lemma {:induction false} BindSame(env: Resolve.Env, ps: seq<Param>, n: nat, vs: seq<Word>, st: N.Store)
    requires Resolve.Parameters(env, ps, n).Some? && n + |ps| == |vs|
    ensures var e, b := Resolve.Parameters(env, ps, n).value, N.Bind(st, ps, vs[n..]);
            forall x :: x in ParamNames(ps) ==> x in e && Stands(e[x], x, vs, map[], b)
    ensures forall x :: x in st && x !in ParamNames(ps) ==>
            x in N.Bind(st, ps, vs[n..]) && N.Bind(st, ps, vs[n..])[x] == st[x]
    decreases ps
  {
    if ps != [] {
      var env1, st1 := env[ps[0].name := Resolve.Parameter(n)], st[ps[0].name := N.Arg(vs[n])];
      assert vs[n..][1..] == vs[n + 1..];
      BindSame(env1, ps[1..], n + 1, vs, st1);
      ParametersDefine(env1, ps[1..], n + 1);
    }
  }

  /** The environment of a function's body. */
  ghost predicate Entered(k: Pair, f: Func, g: R.Func, env: Resolve.Env, foreign: set<string>) {
    && Fits(k.p, 0, env) && TidyAll(env.Keys, foreign, f.body) && |f.params| == g.params &&
        (f.typ == "void" <==> g.isVoid)
    && Resolve.Statements(env, 0, k.unset, f.body).Some?
    && Resolve.Statements(env, 0, k.unset, f.body).value.tree == g.body &&
        Resolve.Statements(env, 0, k.unset, f.body).value.size == g.frame
    && forall vs: seq<Word> :: |vs| == g.params ==> Same(env, foreign, vs, map[], N.Bind(map[], f.params, vs))
  }

  /** Functions, and parameters with the given names. */
  ghost predicate TopLevel(env: Resolve.Env, params: set<string>) {
    forall x :: x in env ==> env[x].Function? || (env[x].Parameter? && x in params)
  }

  lemma BodySame(env: Resolve.Env, params: set<string>, f: Func, vs: seq<Word>)
    requires TopLevel(env, params) && |vs| == |f.params| && Resolve.Parameters(env, f.params, 0).Some?
    ensures var env1 := Resolve.Parameters(env, f.params, 0).value[f.name := Resolve.Function(|f.params|)];
            Same(env1, params - ParamNames(f.params), vs, map[], N.Bind(map[], f.params, vs)) &&
                TopLevel(env1, params + ParamNames(f.params))
  {
    hide Resolve.Parameters, ParamNames, N.Bind, Stands;
    var e := Resolve.Parameters(env, f.params, 0).value;
    ParametersDefine(env, f.params, 0);
    assert vs[0..] == vs;
    BindSame(env, f.params, 0, vs, map[]);
    forall x | x in e && x !in params - ParamNames(f.params) && x !in ParamNames(f.params)
      ensures Stands(e[x], x, vs, map[], N.Bind(map[], f.params, vs))
    {
      assert e[x].Function?;
      FunctionStands(e[x], x, vs, map[], N.Bind(map[], f.params, vs));
    }
    FunctionStands(Resolve.Function(|f.params|), f.name, vs, map[], N.Bind(map[], f.params, vs));
  }

  lemma NoArguments(env: Resolve.Env, params: set<string>, f: Func)
    requires TopLevel(env, params) && Resolve.Parameters(env, f.params, 0).Some?
    ensures TopLevel(Resolve.Parameters(env, f.params, 0).value[f.name := Resolve.Function(|f.params|)],
            params + ParamNames(f.params))
  {
    BodySame(env, params, f, seq(|f.params|, _ => 0));
  }

  lemma FunctionStands(entry: Resolve.Entry, x: string, ps: seq<Word>, ls: V.Locals, st: N.Store)
    requires entry.Function?
    ensures Stands(entry, x, ps, ls, st)
  {
  }

  lemma DefinitionEntered(k: Pair, env: Resolve.Env, vis: set<string>, params: set<string>, f: Func, done: R.Program,
                          rest: R.Program)
    requires Resolve.Definition(env, k.unset, f).Some? && Global(done, env) && R.DistinctNames(k.p)
    requires var c := Resolve.Definition(env, k.unset, f).value; k.p == done + [c.tree] + rest
    requires env.Keys == vis && TopLevel(env, params)
    requires TidyAll(vis + ParamNames(f.params) + {f.name}, params - ParamNames(f.params), f.body)
    ensures var c := Resolve.Definition(env, k.unset, f).value;
            && Entered(k, f, c.tree, c.env, params - ParamNames(f.params))
            && Global(done + [c.tree], c.env) && c.tree.name == f.name
            && c.env.Keys == vis + ParamNames(f.params) + {f.name}
            && TopLevel(c.env, params + ParamNames(f.params))
  {
    hide Resolve.Statements, Resolve.Parameters, TidyAll, Global, Fits, R.DistinctNames, ParamNames, N.Bind, Same,
         TopLevel;
    var c := Resolve.Definition(env, k.unset, f).value;
    var e := Resolve.Parameters(env, f.params, 0).value;
    DefinitionGlobal(done, env, k.unset, f);
    GlobalFits(k.p, done + [c.tree], rest, c.env, 0);
    ParametersDefine(env, f.params, 0);
    NoArguments(env, params, f);
    assert c.env.Keys == vis + ParamNames(f.params) + {f.name};
    forall vs: seq<Word> | |vs| == |f.params|
      ensures Same(c.env, params - ParamNames(f.params), vs, map[], N.Bind(map[], f.params, vs))
    {
      BodySame(env, params, f, vs);
    }
  }

  /** Each function of the tree with what became of it. */
  lemma {:induction false} FindEntered(k: Pair, env: Resolve.Env, vis: set<string>, params: set<string>, fs: seq<Func>,
                                       done: R.Program, name: string)
    returns (env': Resolve.Env, foreign: set<string>)
    requires Resolve.Definitions(env, k.unset, fs).Some? && Global(done, env) && R.DistinctNames(k.p)
    requires k.p == done + Resolve.Definitions(env, k.unset, fs).value
    requires env.Keys == vis && TopLevel(env, params) && TidyFuncs(vis, params, fs)
    ensures var q := Resolve.Definitions(env, k.unset, fs).value;
            if R.Find(q, name).None? then N.Find(fs, name).None?
                else N.Find(fs, name).Some? && Entered(k, N.Find(fs, name).value, R.Find(q, name).value, env', foreign)
    decreases fs
  {
    hide Resolve.Definition, TidyAll, Global, R.DistinctNames, Entered, TopLevel;
    if fs == [] {
      env', foreign := map[], {};
    } else {
      var c := Resolve.Definition(env, k.unset, fs[0]).value;
      var rest := Resolve.Definitions(c.env, k.unset, fs[1..]).value;
      assert k.p == done + [c.tree] + rest;
      DefinitionEntered(k, env, vis, params, fs[0], done, rest);
      if fs[0].name == name {
        env', foreign := c.env, params - ParamNames(fs[0].params);
      } else {
        env', foreign :=
            FindEntered(k, c.env, c.env.Keys, params + ParamNames(fs[0].params), fs[1..], done + [c.tree], name);
      }
      assert ([c.tree] + rest)[1..] == rest;
    }
  }

  lemma FunctionEntered(k: Pair, name: string) returns (env: Resolve.Env, foreign: set<string>)
    requires Accepted(k)
    ensures if R.Find(k.p, name).None? then N.Find(k.fs, name).None?
            else N.Find(k.fs, name).Some? && Entered(k, N.Find(k.fs, name).value, R.Find(k.p, name).value, env, foreign)
  {
    hide Resolve.Definitions, TidyFuncs, Entered;
    assert [] + k.p == k.p;
    DefinitionsDistinct([], map[], k.unset, k.fs);
    env, foreign := FindEntered(k, map[], {}, {}, k.fs, [], name);
  }

  // ----- the size of a frame -----

  lemma {:induction false} CountDeclarations(env: Resolve.Env, size: nat, unset: nat, s: Stmt)
    requires Resolve.Statement(env, size, unset, s).Some?
    ensures Resolve.Statement(env, size, unset, s).value.size == size + 4 * N.Declarations(s)
    decreases s
  {
    hide Resolve.Expression, Resolve.Statements, N.AllDeclarations;
    match s
    case If(_, t, els) =>
      CountDeclarations(env, size, unset, t);
      var thn := Resolve.Statement(env, size, unset, t).value;
      if els.Some? {
        CountDeclarations(thn.env, thn.size, unset, els.value);
      }
    case Block(body) => CountAllDeclarations(env, size, unset, body);
    case While(_, b) => CountDeclarations(env, size, unset, b);
    case For(i, _, _, b) =>
      CountDeclarations(env, size, unset, i);
      var init := Resolve.Statement(env, size, unset, i).value;
      CountDeclarations(init.env, init.size, unset, b);
    case _ =>
  }

  lemma {:induction false} CountAllDeclarations(env: Resolve.Env, size: nat, unset: nat, ss: seq<Stmt>)
    requires Resolve.Statements(env, size, unset, ss).Some?
    ensures Resolve.Statements(env, size, unset, ss).value.size == size + 4 * N.AllDeclarations(ss)
    decreases ss
  {
    hide Resolve.Statement, N.Declarations;
    if ss != [] {
      CountDeclarations(env, size, unset, ss[0]);
      var c := Resolve.Statement(env, size, unset, ss[0]).value;
      CountAllDeclarations(c.env, c.size, unset, ss[1..]);
    }
  }

  lemma FrameSame(k: Pair, f: Func, g: R.Func, env: Resolve.Env, foreign: set<string>)
    requires Entered(k, f, g, env, foreign)
    ensures N.Frame(f) == R.FrameSize(g.frame) > 0
  {
    hide Resolve.Statements, TidyAll, Fits, Same, N.AllDeclarations;
    CountAllDeclarations(env, 0, k.unset, f.body);
  }

  lemma {:induction false} EffectFreeSame(env: Resolve.Env, unset: nat, e: Expr)
    requires Resolve.Expression(env, unset, e).Some?
    ensures V.EffectFree(Resolve.Expression(env, unset, e).value) == N.EffectFree(e)
  {
    match e
    case Unary(_, e1) => EffectFreeSame(env, unset, e1);
    case Bin(_, l, r) =>
      EffectFreeSame(env, unset, l);
      EffectFreeSame(env, unset, r);
    case _ =>
  }

  // ----- expressions -----

  lemma UseSame(env: Resolve.Env, unset: nat, foreign: set<string>, x: string, ps: seq<Word>, ls: V.Locals, st: N.Store)
    requires Resolve.Use(env, unset, x).Some? && x !in foreign && Same(env, foreign, ps, ls, st)
    ensures x in env && Stands(env[x], x, ps, ls, st)
    ensures V.Value(Resolve.Use(env, unset, x).value, ps, ls) == N.Value(st, x)
    ensures Resolve.Use(env, unset, x).value.Local? <==> x in st && st[x].Var?
    ensures Resolve.Use(env, unset, x).value.Local? ==>
            env[x] == Resolve.Variable(Resolve.Use(env, unset, x).value.offset)
  {
  }

  lemma {:induction false} EvalSame(k: Pair, m: V.Mode, env: Resolve.Env, size: nat, foreign: set<string>, e: Expr,
                                    ps: seq<Word>, ls: V.Locals, st: N.Store, room: nat, fuel: nat)
    requires Accepted(k) && Fits(k.p, size, env) && Clear(foreign, e) && Resolve.Expression(env, k.unset, e).Some? &&
             Same(env, foreign, ps, ls, st)
    ensures SameValue(env, foreign, ps, V.Eval(k.p, m, Resolve.Expression(env, k.unset, e).value, ps, ls, room, fuel),
            N.Eval(k.fs, m, e, st, room, fuel))
    decreases room, fuel, e, 1
  {
    hide Accepted, Fits, Same, Stands, Resolve.Use, Resolve.Expressions, ClearAll, V.EvalArgs, N.EvalArgs, V.RunBody,
         N.RunBody, V.BinResult, R.Find, N.Find;
    match e
    case Empty =>
    case Num(_) =>
    case Name(x) => UseSame(env, k.unset, foreign, x, ps, ls, st);
    case Unary(_, e1) => EvalSame(k, m, env, size, foreign, e1, ps, ls, st, room, fuel);
    case Bin(_, _, _) => BinSame(k, m, env, size, foreign, e, ps, ls, st, room, fuel);
    case Assign(x, e1) =>
      UseSame(env, k.unset, foreign, x, ps, ls, st);
      EvalSame(k, m, env, size, foreign, e1, ps, ls, st, room, fuel);
      var r := Resolve.Expression(env, k.unset, e).value;
      var a, b := V.Eval(k.p, m, r.e, ps, ls, room, fuel), N.Eval(k.fs, m, e1, st, room, fuel);
      if r.target.Local? && a.Some? {
        AssignSame(k.p, size, env, foreign, ps, a.value.locals, b.value.store, x, a.value.value);
      }
    case Call(_, _) => CallSame(k, m, env, size, foreign, e, ps, ls, st, room, fuel);
  }

  /** The operator that a token is resolved to has the value that C99 gives to the token. */
  lemma OperatorMeans(t: Kind, x: Word, y: Word)
    requires Resolve.Operator(t).Some?
    ensures V.BinResult(Resolve.Operator(t).value, x, y) == N.Result(t, x, y)
  {
    hide Wrap, And, Or, Xor, TruncDiv, Doubled, Halved, Pow2;
    if (t == LSHIFT || t == RSHIFT) && 0 <= y < 32 {
      DoubledIsProduct(x, y);
      HalvedIsFloor(x, y);
    }
  }

  /** Exactly the seventeen tokens that have a value are operators. */
  lemma OperatorsAre(t: Kind)
    ensures Resolve.Operator(t).Some? <==> exists x, y :: N.Result(t, x, y).Some?
  {
    if Resolve.Operator(t).Some? {
      assert N.Result(t, 1, 1).Some?;
    }
  }

  lemma HalvedIsFloor(x: Word, y: nat)
    ensures Wrap(x / Pow2(y)) == Halved(x, y)
  {
    HalvedIsQuotient(x, y);
    FloorUnique(x, Pow2(y), Halved(x, y));
  }

  lemma BinSame(k: Pair, m: V.Mode, env: Resolve.Env, size: nat, foreign: set<string>, e: Expr, ps: seq<Word>,
                ls: V.Locals, st: N.Store, room: nat, fuel: nat)
    requires e.Bin? && Accepted(k) && Fits(k.p, size, env) && Clear(foreign, e) &&
             Resolve.Expression(env, k.unset, e).Some? && Same(env, foreign, ps, ls, st)
    ensures SameValue(env, foreign, ps, V.Eval(k.p, m, Resolve.Expression(env, k.unset, e).value, ps, ls, room, fuel),
            N.Eval(k.fs, m, e, st, room, fuel))
    decreases room, fuel, e, 0
  {
    hide Accepted, Fits, Same, V.BinResult, N.Result, Resolve.Operator;
    var r := Resolve.Expression(env, k.unset, e).value;
    EvalSame(k, m, env, size, foreign, e.left, ps, ls, st, room, fuel);
    var a, b := V.Eval(k.p, m, r.left, ps, ls, room, fuel), N.Eval(k.fs, m, e.left, st, room, fuel);
    if a.Some? {
      EvalSame(k, m, env, size, foreign, e.right, ps, a.value.locals, b.value.store, room, fuel);
      SkipsSame(env, k.unset, m, e, a.value.value);
      var c := V.Eval(k.p, m, r.right, ps, a.value.locals, room, fuel);
      if c.Some? {
        OperatorMeans(e.op, a.value.value, c.value.value);
      }
    }
  }

  lemma SkipsSame(env: Resolve.Env, unset: nat, m: V.Mode, e: Expr, x: Word)
    requires e.Bin? && Resolve.Expression(env, unset, e).Some?
    ensures var r := Resolve.Expression(env, unset, e).value;
            && V.Skips(m, r.op, x, r.right) == N.Skips(m, e.op, x, e.right)
            && (V.Skips(m, r.op, x, r.right) ==> (r.op == R.LogOr <==> e.op == LOG_OR))
  {
    EffectFreeSame(env, unset, e.right);
  }

  /** The function that a call names. */
  lemma CalledSame(k: Pair, env: Resolve.Env, size: nat, f: string, n: nat)
      returns (env1: Resolve.Env, foreign1: set<string>)
    requires Accepted(k) && Fits(k.p, size, env) && Resolve.Lookup(env, f) == Some(Resolve.Function(n))
    ensures R.Find(k.p, f).Some? && N.Find(k.fs, f).Some? &&
            Entered(k, N.Find(k.fs, f).value, R.Find(k.p, f).value, env1, foreign1)
    ensures N.Frame(N.Find(k.fs, f).value) == R.FrameSize(R.Find(k.p, f).value.frame) > 0
  {
    hide Accepted, Entered, R.FrameSize, N.Frame;
    env1, foreign1 := FunctionEntered(k, f);
    FrameSame(k, N.Find(k.fs, f).value, R.Find(k.p, f).value, env1, foreign1);
  }

  lemma CallSame(k: Pair, m: V.Mode, env: Resolve.Env, size: nat, foreign: set<string>, e: Expr, ps: seq<Word>,
                 ls: V.Locals, st: N.Store, room: nat, fuel: nat)
    requires e.Call? && Accepted(k) && Fits(k.p, size, env) && Clear(foreign, e) &&
             Resolve.Expression(env, k.unset, e).Some? && Same(env, foreign, ps, ls, st)
    ensures SameValue(env, foreign, ps, V.Eval(k.p, m, Resolve.Expression(env, k.unset, e).value, ps, ls, room, fuel),
            N.Eval(k.fs, m, e, st, room, fuel))
    decreases room, fuel, e, 0
  {
    hide Accepted, Fits, Same, Entered, R.Find, N.Find, V.RunBody, N.RunBody, R.FrameSize, N.Frame, V.EvalArgs,
         N.EvalArgs, ClearAll, Resolve.Expressions;
    var r := Resolve.Expression(env, k.unset, e).value;
    var env1, foreign1 := CalledSame(k, env, size, e.name, |e.args|);
    var f, g := N.Find(k.fs, e.name).value, R.Find(k.p, e.name).value;
    ArgsSame(k, m, env, size, foreign, e.args, ps, ls, st, room, fuel);
    var a := V.EvalArgs(k.p, m, r.args, ps, ls, room, fuel);
    if a.Some? && room >= R.FrameSize(g.frame) {
      RunSame(k, m, f, g, env1, foreign1, a.value.values, room - R.FrameSize(g.frame), fuel);
    }
  }

  lemma {:induction false} ArgsSame(k: Pair, m: V.Mode, env: Resolve.Env, size: nat, foreign: set<string>,
                                    es: seq<Expr>, ps: seq<Word>, ls: V.Locals, st: N.Store, room: nat, fuel: nat)
    requires Accepted(k) && Fits(k.p, size, env) && ClearAll(foreign, es) &&
             Resolve.Expressions(env, k.unset, es).Some? && Same(env, foreign, ps, ls, st)
    ensures SameValues(env, foreign, ps,
            V.EvalArgs(k.p, m, Resolve.Expressions(env, k.unset, es).value, ps, ls, room, fuel),
            N.EvalArgs(k.fs, m, es, st, room, fuel))
    decreases room, fuel, es
  {
    hide Accepted, Fits, Same, V.Eval, N.Eval, Resolve.Expression, Clear;
    if es != [] {
      var rs := Resolve.Expressions(env, k.unset, es).value;
      assert rs[1..] == Resolve.Expressions(env, k.unset, es[1..]).value;
      EvalSame(k, m, env, size, foreign, es[0], ps, ls, st, room, fuel);
      var a, b := V.Eval(k.p, m, rs[0], ps, ls, room, fuel), N.Eval(k.fs, m, es[0], st, room, fuel);
      if a.Some? {
        ArgsSame(k, m, env, size, foreign, es[1..], ps, a.value.locals, b.value.store, room, fuel);
      }
    }
  }

  // ----- functions and statements -----

  /** A function's body. */
  lemma RunSame(k: Pair, m: V.Mode, f: Func, g: R.Func, env: Resolve.Env, foreign: set<string>, vs: seq<Word>,
                room: nat, fuel: nat)
    requires Accepted(k) && Entered(k, f, g, env, foreign)
    ensures V.RunBody(k.p, m, g, vs, room, fuel) == N.RunBody(k.fs, m, f, vs, room, fuel)
    decreases room, fuel, f.body, 1
  {
    hide Accepted, Fits, Same, TidyAll, Resolve.Statements, V.ExecAll, N.ExecAll, N.Bind;
    if |vs| == g.params {
      AllSame(k, m, env, 0, foreign, f.body, vs, map[], N.Bind(map[], f.params, vs), room, fuel);
    }
  }

  lemma {:induction false} AllSame(k: Pair, m: V.Mode, env: Resolve.Env, size: nat, foreign: set<string>, ss: seq<Stmt>,
                                   ps: seq<Word>, ls: V.Locals, st: N.Store, room: nat, fuel: nat)
    requires Accepted(k) && Fits(k.p, size, env) && size % 4 == 0 && TidyAll(env.Keys, foreign, ss) &&
             Same(env, foreign, ps, ls, st)
    requires Resolve.Statements(env, size, k.unset, ss).Some?
    ensures var c := Resolve.Statements(env, size, k.unset, ss).value;
            SameOutcome(c.env, foreign, ps, V.ExecAll(k.p, m, c.tree, ps, ls, room, fuel),
                N.ExecAll(k.fs, m, ss, st, room, fuel))
    decreases room, fuel, ss, 0
  {
    hide Accepted, Fits, Same, Resolve.Statement, Tidy, V.Exec, N.Exec;
    if ss != [] {
      var c := Resolve.Statement(env, size, k.unset, ss[0]).value;
      var rest := Resolve.Statements(c.env, c.size, k.unset, ss[1..]).value;
      assert ([c.tree] + rest.tree)[1..] == rest.tree;
      ExecSame(k, m, env, size, foreign, ss[0], ps, ls, st, room, fuel);
      StatementBound(k.p, size, env, k.unset, ss[0]);
      StatementKeeps(env, size, k.unset, foreign, ss[0]);
      var a, b := V.Exec(k.p, m, c.tree, ps, ls, room, fuel), N.Exec(k.fs, m, ss[0], st, room, fuel);
      if a.Some? && a.value.Normal? {
        AllSame(k, m, c.env, c.size, foreign, ss[1..], ps, a.value.locals, b.value.store, room, fuel);
      }
    }
  }

  /** What is known of a statement, its place and the states it starts from. */
  ghost predicate Ready(k: Pair, env: Resolve.Env, size: nat, foreign: set<string>, s: Stmt, ps: seq<Word>,
                        ls: V.Locals, st: N.Store) {
    && Accepted(k) && Fits(k.p, size, env) && size % 4 == 0 && Tidy(env.Keys, foreign, s) &&
        Same(env, foreign, ps, ls, st)
    && Resolve.Statement(env, size, k.unset, s).Some?
  }

  ghost predicate Agree(k: Pair, m: V.Mode, env: Resolve.Env, size: nat, foreign: set<string>, s: Stmt, ps: seq<Word>,
                        ls: V.Locals, st: N.Store, room: nat, fuel: nat) {
    Resolve.Statement(env, size, k.unset, s).Some? &&
    var c := Resolve.Statement(env, size, k.unset, s).value;
    SameOutcome(c.env, foreign, ps, V.Exec(k.p, m, c.tree, ps, ls, room, fuel), N.Exec(k.fs, m, s, st, room, fuel))
  }

  lemma {:induction false} ExecSame(k: Pair, m: V.Mode, env: Resolve.Env, size: nat, foreign: set<string>, s: Stmt,
                                    ps: seq<Word>, ls: V.Locals, st: N.Store, room: nat, fuel: nat)
    requires Ready(k, env, size, foreign, s, ps, ls, st)
    ensures Agree(k, m, env, size, foreign, s, ps, ls, st, room, fuel)
    decreases room, fuel, s, 4
  {
    hide Accepted, Fits, Same, Resolve.Expression, Resolve.Statements, Clear, V.Eval, N.Eval, V.EvalEffect,
         N.EvalEffect, V.ExecAll, N.ExecAll, Resolve.Constants, N.Enumerate, N.Leave;
    match s
    case Return(e) =>
      if !e.Empty? {
        EvalSame(k, m, env, size, foreign, e, ps, ls, st, room, fuel);
        NotEmpty(env, k.unset, e);
      } else {
        EmptyExpression(env, k.unset);
      }
    case If(_, _, _) => IfSame(k, m, env, size, foreign, s, ps, ls, st, room, fuel);
    case Block(_) => BlockSame(k, m, env, size, foreign, s, ps, ls, st, room, fuel);
    case VarDef(_, x, e) =>
      EvalSame(k, m, env, size, foreign, e, ps, ls, st, room, fuel);
      var a := V.Eval(k.p, m, Resolve.Expression(env, k.unset, e).value, ps, ls, room, fuel);
      var b := N.Eval(k.fs, m, e, st, room, fuel);
      if a.Some? {
        DeclareSame(k.p, size, env, foreign, ps, a.value.locals, b.value.store, x, a.value.value);
      }
    case VarDec(_, x) => DeclareSame(k.p, size, env, foreign, ps, ls, st, x, 0);
    case Enum(_, cs) => EnumerateSame(env, foreign, ps, ls, st, cs, 0);
    case ExprStmt(e) => EffectSame(k, m, env, size, foreign, e, ps, ls, st, room, fuel);
    case While(_, _) => WhileSame(k, m, env, size, foreign, s, ps, ls, st, room, fuel);
    case For(_, _, _, _) => ForSame(k, m, env, size, foreign, s, ps, ls, st, room, fuel);
  }

  lemma NotEmpty(env: Resolve.Env, unset: nat, e: Expr)
    requires Resolve.Expression(env, unset, e).Some?
    ensures Resolve.Expression(env, unset, e).value.Empty? <==> e.Empty?
    ensures Resolve.Expression(env, unset, e).value.Call? <==> e.Call?
  {
  }

  lemma EmptyExpression(env: Resolve.Env, unset: nat)
    ensures Resolve.Expression(env, unset, Empty) == Some(R.Empty)
  {
  }

  lemma EffectSame(k: Pair, m: V.Mode, env: Resolve.Env, size: nat, foreign: set<string>, e: Expr, ps: seq<Word>,
                   ls: V.Locals, st: N.Store, room: nat, fuel: nat)
    requires Accepted(k) && Fits(k.p, size, env) && Clear(foreign, e) && Resolve.Expression(env, k.unset, e).Some? &&
             Same(env, foreign, ps, ls, st)
    ensures SameOutcome(env, foreign, ps,
            V.EvalEffect(k.p, m, Resolve.Expression(env, k.unset, e).value, ps, ls, room, fuel),
            N.EvalEffect(k.fs, m, e, st, room, fuel))
    decreases room, fuel, e, 2
  {
    hide Accepted, Fits, Same, Entered, R.Find, N.Find, V.RunBody, N.RunBody, R.FrameSize, N.Frame, V.EvalArgs,
         N.EvalArgs, V.Eval, N.Eval, ClearAll, Resolve.Expressions;
    NotEmpty(env, k.unset, e);
    if e.Call? {
      var r := Resolve.Expression(env, k.unset, e).value;
      var env1, foreign1 := CalledSame(k, env, size, e.name, |e.args|);
      var f, g := N.Find(k.fs, e.name).value, R.Find(k.p, e.name).value;
      ArgsSame(k, m, env, size, foreign, e.args, ps, ls, st, room, fuel);
      var a := V.EvalArgs(k.p, m, r.args, ps, ls, room, fuel);
      if a.Some? && room >= R.FrameSize(g.frame) {
        RunSame(k, m, f, g, env1, foreign1, a.value.values, room - R.FrameSize(g.frame), fuel);
      }
    } else if !e.Empty? {
      EvalSame(k, m, env, size, foreign, e, ps, ls, st, room, fuel);
    }
  }

  lemma IfResolved(env: Resolve.Env, size: nat, unset: nat, foreign: set<string>, s: Stmt)
    requires s.If? && Resolve.Statement(env, size, unset, s).Some? && Tidy(env.Keys, foreign, s)
    ensures Clear(foreign, s.cond) && Tidy(env.Keys, foreign, s.thn) && !IsDeclaration(s.thn)
    ensures s.els.Some? ==> Tidy(env.Keys, foreign, s.els.value) && !IsDeclaration(s.els.value)
    ensures var t := Resolve.Statement(env, size, unset, s.thn);
            && t.Some? && Resolve.Expression(t.value.env, unset, s.cond).Some?
            && var c := Resolve.Expression(t.value.env, unset, s.cond).value;
            && (s.els.None? ==>
                Resolve.Statement(env, size, unset, s) ==
                Some(Resolve.Checked(R.If(c, t.value.tree, None), t.value.env, t.value.size)))
            && (s.els.Some? ==>
                  var e := Resolve.Statement(t.value.env, t.value.size, unset, s.els.value);
                  && e.Some?
                  && Resolve.Statement(env, size, unset, s) ==
                     Some(Resolve.Checked(R.If(c, t.value.tree, Some(e.value.tree)), e.value.env, e.value.size)))
  {
    hide Resolve.Expression, Clear;
  }

  lemma IfSame(k: Pair, m: V.Mode, env: Resolve.Env, size: nat, foreign: set<string>, s: Stmt, ps: seq<Word>,
               ls: V.Locals, st: N.Store, room: nat, fuel: nat)
    requires s.If? && Ready(k, env, size, foreign, s, ps, ls, st)
    ensures Agree(k, m, env, size, foreign, s, ps, ls, st, room, fuel)
    decreases room, fuel, s, 0
  {
    hide Accepted, Fits, Same, Resolve.Expression, Resolve.Statement, Clear, Tidy, V.Eval, N.Eval;
    IfResolved(env, size, k.unset, foreign, s);
    var thn := Resolve.Statement(env, size, k.unset, s.thn).value;
    SameEnvironment(env, size, k.unset, foreign, s.thn);
    StatementBound(k.p, size, env, k.unset, s.thn);
    EvalSame(k, m, env, size, foreign, s.cond, ps, ls, st, room, fuel);
    var a := V.Eval(k.p, m, Resolve.Expression(env, k.unset, s.cond).value, ps, ls, room, fuel);
    var b := N.Eval(k.fs, m, s.cond, st, room, fuel);
    if a.Some? {
      ExecSame(k, m, env, size, foreign, s.thn, ps, a.value.locals, b.value.store, room, fuel);
      if s.els.Some? {
        SameEnvironment(env, thn.size, k.unset, foreign, s.els.value);
        ExecSame(k, m, env, thn.size, foreign, s.els.value, ps, a.value.locals, b.value.store, room, fuel);
        var x := V.Exec(k.p, m, thn.tree, ps, a.value.locals, room, fuel);
        var y := N.Exec(k.fs, m, s.thn, b.value.store, room, fuel);
        if x.Some? && x.value.Normal? {
          ExecSame(k, m, env, thn.size, foreign, s.els.value, ps, x.value.locals, y.value.store, room, fuel);
        }
      }
    }
  }

  lemma BlockSame(k: Pair, m: V.Mode, env: Resolve.Env, size: nat, foreign: set<string>, s: Stmt, ps: seq<Word>,
                  ls: V.Locals, st: N.Store, room: nat, fuel: nat)
    requires s.Block? && Ready(k, env, size, foreign, s, ps, ls, st)
    ensures Agree(k, m, env, size, foreign, s, ps, ls, st, room, fuel)
    decreases room, fuel, s, 0
  {
    hide Accepted, Fits, Same, Resolve.Statements, TidyAll, V.ExecAll, N.ExecAll, N.Leave;
    var c := Resolve.Statements(env, size, k.unset, s.body).value;
    AllSame(k, m, env, size, foreign, s.body, ps, ls, st, room, fuel);
    StatementsKeep(env, size, k.unset, foreign, s.body);
    var a := V.ExecAll(k.p, m, c.tree, ps, ls, room, fuel);
    var b := N.ExecAll(k.fs, m, s.body, st, room, fuel);
    if a.Some? && a.value.Normal? {
      LeaveSame(env, c.env, foreign, ps, ls, st, a.value.locals, b.value.store);
    }
  }

  lemma WhileResolved(env: Resolve.Env, size: nat, unset: nat, foreign: set<string>, s: Stmt)
    requires s.While? && Resolve.Statement(env, size, unset, s).Some? && Tidy(env.Keys, foreign, s)
    ensures Clear(foreign, s.cond) && Tidy(env.Keys, foreign, s.loop) && !IsDeclaration(s.loop)
    ensures var c, b := Resolve.Expression(env, unset, s.cond), Resolve.Statement(env, size, unset, s.loop);
            && c.Some? && b.Some?
            && Resolve.Statement(env, size, unset, s) ==
                Some(Resolve.Checked(R.While(c.value, b.value.tree), b.value.env, b.value.size))
  {
    hide Resolve.Expression, Clear;
  }

  lemma WhileSame(k: Pair, m: V.Mode, env: Resolve.Env, size: nat, foreign: set<string>, s: Stmt, ps: seq<Word>,
                  ls: V.Locals, st: N.Store, room: nat, fuel: nat)
    requires s.While? && Ready(k, env, size, foreign, s, ps, ls, st)
    ensures Agree(k, m, env, size, foreign, s, ps, ls, st, room, fuel)
    decreases room, fuel, s, 0
  {
    hide Accepted, Fits, Same, Resolve.Expression, Resolve.Statement, Clear, Tidy, V.Eval, N.Eval;
    WhileResolved(env, size, k.unset, foreign, s);
    var r := Resolve.Statement(env, size, k.unset, s).value.tree;
    SameEnvironment(env, size, k.unset, foreign, s.loop);
    EvalSame(k, m, env, size, foreign, s.cond, ps, ls, st, room, fuel);
    var a := V.Eval(k.p, m, r.cond, ps, ls, room, fuel);
    var b := N.Eval(k.fs, m, s.cond, st, room, fuel);
    if a.Some? {
      ExecSame(k, m, env, size, foreign, s.loop, ps, a.value.locals, b.value.store, room, fuel);
      var x := V.Exec(k.p, m, r.loop, ps, a.value.locals, room, fuel);
      var y := N.Exec(k.fs, m, s.loop, b.value.store, room, fuel);
      if x.Some? && x.value.Normal? && fuel > 0 {
        ExecSame(k, m, env, size, foreign, s, ps, x.value.locals, y.value.store, room, fuel - 1);
      }
    }
  }

  lemma ForSame(k: Pair, m: V.Mode, env: Resolve.Env, size: nat, foreign: set<string>, s: Stmt, ps: seq<Word>,
                ls: V.Locals, st: N.Store, room: nat, fuel: nat)
    requires s.For? && Ready(k, env, size, foreign, s, ps, ls, st)
    ensures Agree(k, m, env, size, foreign, s, ps, ls, st, room, fuel)
    decreases room, fuel, s, 3
  {
    hide Accepted, Fits, Same, Resolve.Expression, Clear, V.ExecFor, N.ExecFor, N.Leave;
    var r := Resolve.Statement(env, size, k.unset, s).value.tree;
    var init := Resolve.Statement(env, size, k.unset, s.init).value;
    StatementKeeps(env, size, k.unset, foreign, s.init);
    StatementBound(k.p, size, env, k.unset, s.init);
    ExecSame(k, m, env, size, foreign, s.init, ps, ls, st, room, fuel);
    var x := V.Exec(k.p, m, r.init, ps, ls, room, fuel);
    var y := N.Exec(k.fs, m, s.init, st, room, fuel);
    if x.Some? && x.value.Normal? {
      ForLoopSame(k, m, init.env, init.size, foreign, s, r, ps, x.value.locals, y.value.store, room, fuel);
      var a := V.ExecFor(k.p, m, r, ps, x.value.locals, room, fuel);
      var b := N.ExecFor(k.fs, m, s, y.value.store, room, fuel);
      if a.Some? && a.value.Normal? {
        LeaveSame(env, init.env, foreign, ps, ls, st, a.value.locals, b.value.store);
      }
    }
  }

  /** The parts of a `for` statement, in the environment after its initialisation. */
  ghost predicate LoopOf(unset: nat, env: Resolve.Env, size: nat, foreign: set<string>, s: Stmt, r: R.Stmt) {
    && s.For? && r.For? && Clear(foreign, s.cond) && Clear(foreign, s.step) && !IsDeclaration(s.loop) &&
        Tidy(env.Keys, foreign, s.loop)
    && Resolve.Expression(env, unset, s.cond) == Some(r.cond) && Resolve.Expression(env, unset, s.step) == Some(r.step)
    && Resolve.Statement(env, size, unset, s.loop).Some? &&
        Resolve.Statement(env, size, unset, s.loop).value.tree == r.loop
  }

  lemma LoopParts(unset: nat, env: Resolve.Env, size: nat, foreign: set<string>, s: Stmt, r: R.Stmt)
    requires LoopOf(unset, env, size, foreign, s, r)
    ensures s.For? && r.For? && Clear(foreign, s.cond) && Resolve.Expression(env, unset, s.cond) == Some(r.cond)
  {
  }

  lemma {:induction false} ForLoopSame(k: Pair, m: V.Mode, env: Resolve.Env, size: nat, foreign: set<string>, s: Stmt,
                                       r: R.Stmt, ps: seq<Word>, ls: V.Locals, st: N.Store, room: nat, fuel: nat)
    requires Accepted(k) && Fits(k.p, size, env) && size % 4 == 0 && Same(env, foreign, ps, ls, st) &&
             LoopOf(k.unset, env, size, foreign, s, r)
    ensures SameOutcome(env, foreign, ps, V.ExecFor(k.p, m, r, ps, ls, room, fuel),
            N.ExecFor(k.fs, m, s, st, room, fuel))
    decreases room, fuel, s, 2
  {
    hide Accepted, Fits, Same, Resolve.Expression, Resolve.Statement, Clear, Tidy, V.Eval, N.Eval, V.Exec, N.Exec,
         V.EvalEffect, N.EvalEffect;
    LoopParts(k.unset, env, size, foreign, s, r);
    hide LoopOf;
    NotEmpty(env, k.unset, s.cond);
    if !s.cond.Empty? {
      EvalSame(k, m, env, size, foreign, s.cond, ps, ls, st, room, fuel);
    }
    var a := if r.cond.Empty? then Some(V.Evaluated(1, ls)) else V.Eval(k.p, m, r.cond, ps, ls, room, fuel);
    var b := if s.cond.Empty? then Some(N.Evaluated(1, st)) else N.Eval(k.fs, m, s.cond, st, room, fuel);
    if a.Some? {
      RoundSame(k, m, env, size, foreign, s, r, ps, a.value.locals, b.value.store, room, fuel);
      var x := V.Exec(k.p, m, r.loop, ps, a.value.locals, room, fuel);
      var y := N.Exec(k.fs, m, s.loop, b.value.store, room, fuel);
      if x.Some? && x.value.Normal? {
        var v := V.EvalEffect(k.p, m, r.step, ps, x.value.locals, room, fuel);
        var w := N.EvalEffect(k.fs, m, s.step, y.value.store, room, fuel);
        if v.Some? && fuel > 0 {
          ForLoopSame(k, m, env, size, foreign, s, r, ps, v.value.locals, w.value.store, room, fuel - 1);
        }
      }
    }
  }

  /** The body and the step of a `for`. */
  lemma RoundSame(k: Pair, m: V.Mode, env: Resolve.Env, size: nat, foreign: set<string>, s: Stmt, r: R.Stmt,
                  ps: seq<Word>, ls: V.Locals, st: N.Store, room: nat, fuel: nat)
    requires Accepted(k) && Fits(k.p, size, env) && size % 4 == 0 && Same(env, foreign, ps, ls, st)
    requires LoopOf(k.unset, env, size, foreign, s, r)
    ensures var x, y := V.Exec(k.p, m, r.loop, ps, ls, room, fuel), N.Exec(k.fs, m, s.loop, st, room, fuel);
            && SameOutcome(env, foreign, ps, x, y)
            && (x.Some? && x.value.Normal? ==>
                  SameOutcome(env, foreign, ps, V.EvalEffect(k.p, m, r.step, ps, x.value.locals, room, fuel),
                              N.EvalEffect(k.fs, m, s.step, y.value.store, room, fuel)))
    decreases room, fuel, s, 1
  {
    hide Accepted, Fits, Same, Resolve.Expression, Resolve.Statement, Clear, Tidy, V.Exec, N.Exec, V.EvalEffect,
         N.EvalEffect;
    SameEnvironment(env, size, k.unset, foreign, s.loop);
    ExecSame(k, m, env, size, foreign, s.loop, ps, ls, st, room, fuel);
    var x := V.Exec(k.p, m, r.loop, ps, ls, room, fuel);
    if x.Some? && x.value.Normal? {
      var y := N.Exec(k.fs, m, s.loop, st, room, fuel);
      EffectSame(k, m, env, size, foreign, s.step, ps, x.value.locals, y.value.store, room, fuel);
    }
  }

  // ----- programs -----

  /** A function of a tidy program that the semantic pass accepts means the same by names and by
      slots: the same value, or no defined result, in the same stack space and as many iterations. */
  lemma MeaningSame(k: Pair, m: V.Mode, name: string, vs: seq<Word>, room: nat, fuel: nat)
    requires Accepted(k)
    ensures R.Find(k.p, name).Some? <==> N.Find(k.fs, name).Some?
    ensures R.Find(k.p, name).Some? ==>
              V.RunFunc(k.p, m, R.Find(k.p, name).value, vs, room, fuel) ==
                  N.RunFunc(k.fs, m, N.Find(k.fs, name).value, vs, room, fuel)
  {
    hide Accepted, Entered, R.Find, N.Find, R.FrameSize, N.Frame, V.RunBody, N.RunBody;
    var env, foreign := FunctionEntered(k, name);
    if R.Find(k.p, name).Some? {
      var f, g := N.Find(k.fs, name).value, R.Find(k.p, name).value;
      FrameSame(k, f, g, env, foreign);
      if room >= R.FrameSize(g.frame) {
        RunSame(k, m, f, g, env, foreign, vs, room - R.FrameSize(g.frame), fuel);
      }
    }
  }

  // ----- where the rules are needed -----

  /** int f(int a) { return a; } int g(int b) { return a; } */
  function Leaky(): seq<Func> {
    [Func("int", "f", [Param("int", "a")], [Return(Name("a"))]),
        Func("int", "g", [Param("int", "b")], [Return(Name("a"))])]
  }

  function ReturnsFirst(unset: nat): R.Stmt {
    R.Return(R.Ident(R.Param(0, unset)))
  }

  function LeakyResolved(unset: nat): R.Program {
    [R.Func("f", false, 1, 0, [ReturnsFirst(unset)]), R.Func("g", false, 1, 0, [ReturnsFirst(unset)])]
  }

  lemma LeakyResolves(unset: nat)
    ensures Resolve.Program(Leaky(), unset) == Some(LeakyResolved(unset))
  {
    var fs := Leaky();
    var env1 := map["a" := Resolve.Parameter(0)]["f" := Resolve.Function(1)];
    DefinitionReturns(map[], unset, fs[0]);
    assert map["a" := Resolve.Parameter(0)] == map[]["a" := Resolve.Parameter(0)];
    DefinitionReturns(env1, unset, fs[1]);
    var env2 := env1["b" := Resolve.Parameter(0)]["g" := Resolve.Function(1)];
    assert Resolve.Definitions(env2, unset, []) == Some([]);
    var f, g := LeakyResolved(unset)[0], LeakyResolved(unset)[1];
    DefinitionsStep(env1, unset, [fs[1]], env2, [], g);
    assert fs[1..] == [fs[1]] && [g] + [] == [g];
    DefinitionsStep(map[], unset, fs, env1, [g], f);
    assert [f] + [g] == LeakyResolved(unset);
  }

  lemma DefinitionsStep(env: Resolve.Env, unset: nat, fs: seq<Func>, env1: Resolve.Env, rest: seq<R.Func>, g: R.Func)
    requires fs != [] && Resolve.Definition(env, unset, fs[0]) == Some(Resolve.Checked(g, env1, 0))
    requires Resolve.Definitions(env1, unset, fs[1..]) == Some(rest)
    ensures Resolve.Definitions(env, unset, fs) == Some([g] + rest)
  {
    hide Resolve.Definition;
  }

  /** A function of one parameter that returns a. */
  lemma DefinitionReturns(env: Resolve.Env, unset: nat, f: Func)
    requires f.name !in env && f.typ == "int" && |f.params| == 1 && f.params[0].typ == "int" &&
             f.body == [Return(Name("a"))] && f.name != "a"
    requires f.params[0].name == "a" || ("a" in env && env["a"] == Resolve.Parameter(0))
    ensures var env1 := env[f.params[0].name := Resolve.Parameter(0)][f.name := Resolve.Function(1)];
            Resolve.Definition(env, unset, f) ==
                Some(Resolve.Checked(R.Func(f.name, false, 1, 0, [ReturnsFirst(unset)]), env1, 0))
  {
    var e := env[f.params[0].name := Resolve.Parameter(0)];
    assert Resolve.Parameters(env, f.params, 0) == Some(e) by { assert f.params[1..] == []; }
    OneReturn(e[f.name := Resolve.Function(1)], unset);
  }

  lemma OneReturn(env: Resolve.Env, unset: nat)
    requires "a" in env && env["a"] == Resolve.Parameter(0)
    ensures Resolve.Statements(env, 0, unset, [Return(Name("a"))]) ==
            Some(Resolve.Checked([ReturnsFirst(unset)], env, 0))
  {
    var ss := [Return(Name("a"))];
    assert Resolve.Statement(env, 0, unset, ss[0]) == Some(Resolve.Checked(ReturnsFirst(unset), env, 0));
    assert ss[1..] == [] && Resolve.Statements(env, 0, unset, []) == Some(Resolve.Checked([], env, 0));
    assert [ReturnsFirst(unset)] + [] == [ReturnsFirst(unset)];
  }

  /** The parameters of a function stay in the global scope. A later function may use them by mistake:
      the pass accepts that, and what it gets is its own parameter in the same place. */
  lemma ParametersLeak(unset: nat, m: V.Mode, w: Word, room: nat, fuel: nat)
    requires room >= R.FrameSize(0)
    ensures Resolve.Program(Leaky(), unset) == Some(LeakyResolved(unset))
    ensures V.RunFunc(LeakyResolved(unset), m, LeakyResolved(unset)[1], [w], room, fuel) == Some(Some(w))
    ensures N.RunFunc(Leaky(), m, Leaky()[1], [w], room, fuel) == None
  {
    hide Resolve.Program, R.FrameSize;
    LeakyResolves(unset);
    var p, g := LeakyResolved(unset), Leaky()[1];
    var r := p[1];
    assert V.Exec(p, m, r.body[0], [w], map[], room - R.FrameSize(0), fuel) == Some(V.Returned(Some(w)));
    assert V.ExecAll(p, m, r.body, [w], map[], room - R.FrameSize(0), fuel) == Some(V.Returned(Some(w)));
    assert N.AllDeclarations(g.body) == 0 by { assert g.body[1..] == []; }
    var st := N.Bind(map[], g.params, [w]);
    assert st == map["b" := N.Arg(w)] by { OneArgument(g.params, w); }
    assert N.Exec(Leaky(), m, g.body[0], st, room - R.FrameSize(0), fuel) == None;
    assert N.ExecAll(Leaky(), m, g.body, st, room - R.FrameSize(0), fuel) == None;
  }

  lemma OneArgument(ps: seq<Param>, w: Word)
    requires |ps| == 1
    ensures N.Bind(map[], ps, [w]) == map[ps[0].name := N.Arg(w)]
  {
    assert ps[1..] == [] && [w][1..] == [];
  }
}
