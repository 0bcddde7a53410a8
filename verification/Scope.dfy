/** The scopes of the semantic pass as they run: a chain of tables, each cloned from its parent when
    it is entered, and a stack frame that grows. The pass over statements is proved to compute what
    its specification functions say and to leave every enclosing scope as it was. */
module ScopeObject {
  import opened Options
  import S = Syntax
  import R = Resolved
  import opened Resolve
  import opened HashMapObject
  import opened Lists
  import opened Acceptance

  class StackFrame {
    var size: nat
    const func: string

    constructor (func: string)
      ensures size == 0 && this.func == func
    {
      size := 0;
      this.func := func;
    }

    /** The offset of n new elements. */
    method Add(n: nat, typeSize: nat) returns (offset: nat)
      modifies this
      ensures offset == old(size) && size == old(size) + typeSize * n
    {
      offset := size;
      size := size + typeSize * n;
    }
  }

  class Scope {
    const parent: Scope?
    const symtab: HashMap<Entry>

    /** The objects of this scope and of its ancestors. */
    ghost var Repr: set<object>

    /** The tables of the chain are apart from each other, and this one has at least the names of the
        next one. */
    ghost predicate Valid()
      reads this, Repr
      decreases Repr
    {
      && this in Repr && symtab in Repr && symtab.Repr <= Repr && this !in symtab.Repr && symtab.Valid()
      && (parent != null ==>
            && parent in Repr && parent.Repr <= Repr && this !in parent.Repr && symtab !in parent.Repr
            && symtab.Repr !! parent.Repr && parent.Valid()
            && parent.symtab.contents.Keys <= symtab.contents.Keys)
    }

    /** The visible names. */
    ghost function Visible(): Env
      reads this, symtab
    {
      symtab.contents
    }

    /** What adding a name changes: this scope only, none of its ancestors. */
    ghost function Own(): set<object>
      reads this, symtab
    {
      {this} + symtab.Repr
    }

    lemma OwnInside()
      requires Valid()
      ensures Own() <= Repr
    {
    }

    constructor (parent: Scope?, symtab: HashMap<Entry>)
      requires symtab.Valid()
      requires parent != null ==>
               parent.Valid() && symtab.Repr !! parent.Repr && parent.Visible().Keys <= symtab.contents.Keys
      ensures Valid() && this.parent == parent && this.symtab == symtab
      ensures Repr == {this} + symtab.Repr + (if parent == null then {} else parent.Repr)
    {
      this.parent := parent;
      this.symtab := symtab;
      Repr := {this} + symtab.Repr + (if parent == null then {} else parent.Repr);
    }
  }

  method EnterScope(parent: Scope) returns (child: Scope)
    requires parent.Valid()
    ensures child.Valid() && child.parent == parent && child.Visible() == parent.Visible()
    ensures fresh(child.Own()) && fresh(child.Repr - parent.Repr)
  {
    var table := parent.symtab.Clone();
    child := new Scope(parent, table);
  }

  method ExitScope(scope: Scope) returns (parent: Scope?)
    requires scope.Valid()
    ensures parent == scope.parent && (parent != null ==> parent.Valid())
  {
    parent := scope.parent;
  }

  method ScopeAdd(scope: Scope, entry: Entry, key: string)
    requires scope.Valid()
    modifies scope.Own()
    ensures scope.Valid() && fresh(scope.Own() - old(scope.Own())) && fresh(scope.Repr - old(scope.Repr))
    ensures scope.Visible() == old(scope.Visible())[key := entry]
  {
    scope.symtab.Add(entry, key);
    scope.Repr := scope.Repr + scope.symtab.Repr;
  }

  /** Walks up the chain, but the innermost table already decides. */
  method ScopeLookup(scope: Scope, key: string) returns (r: Option<Entry>)
    requires scope.Valid()
    ensures r == Lookup(scope.Visible(), key)
  {
    var curr: Scope? := scope;
    while curr != null
      invariant curr != null ==> curr.Valid() && curr.Visible().Keys <= scope.Visible().Keys
      invariant curr == scope || key !in scope.Visible()
      decreases if curr == null then {} else curr.Repr
    {
      r := curr.symtab.Get(key);
      if r.Some? {
        return;
      }
      curr := curr.parent;
    }
    r := None;
  }

  method InScope(scope: Scope, key: string) returns (r: bool)
    requires scope.Valid()
    ensures r <==> key in scope.Visible()
  {
    var entry := ScopeLookup(scope, key);
    r := entry.Some?;
  }

  // ----- the pass over expressions -----

  method CheckUse(name: string, scope: Scope, unset: nat) returns (r: Option<R.Symbol>)
    requires scope.Valid()
    ensures r == Use(scope.Visible(), unset, name)
  {
    var entry := ScopeLookup(scope, name);
    r := if entry.None? then None else SymbolOf(entry.value, unset);
  }

  method CheckExpression(e: S.Expr, scope: Scope, unset: nat) returns (r: Option<R.Expr>)
    requires scope.Valid()
    ensures r == Expression(scope.Visible(), unset, e)
    decreases e
  {
    hide Scope.Valid, Scope.Visible, Expressions;
    match e
    case Empty => r := Some(R.Empty);
    case Num(n) => r := Some(R.Num(n));
    case Name(x) =>
      var sym := CheckUse(x, scope, unset);
      r := if sym.None? then None else Some(R.Ident(sym.value));
    case Unary(_, e1) =>
      var x := CheckExpression(e1, scope, unset);
      r := if x.None? then None else Some(R.Not(x.value));
    case Bin(op, left, right) =>
      var o := Operator(op);
      var x := CheckExpression(left, scope, unset);
      var y := CheckExpression(right, scope, unset);
      r := if o.None? || x.None? || y.None? then None else Some(R.Bin(o.value, x.value, y.value));
    case Assign(target, e1) =>
      var sym := CheckUse(target, scope, unset);
      var x := CheckExpression(e1, scope, unset);
      r := if sym.None? || x.None? then None else Some(R.Assign(sym.value, x.value));
    case Call(f, args) =>
      var entry := ScopeLookup(scope, f);
      if entry != Some(Function(|args|)) {
        return None;
      }
      var xs := CheckExpressions(args, scope, unset);
      r := if xs.None? then None else Some(R.Call(f, xs.value));
  }

  method CheckExpressions(es: seq<S.Expr>, scope: Scope, unset: nat) returns (r: Option<seq<R.Expr>>)
    requires scope.Valid()
    ensures r == Expressions(scope.Visible(), unset, es)
    decreases es
  {
    var xs: seq<R.Expr> := [];
    var i := 0;
    PutNothing(Expressions(scope.Visible(), unset, es));
    assert es[0..] == es;
    while i < |es|
      invariant 0 <= i <= |es|
      invariant Expressions(scope.Visible(), unset, es) == Put(xs, Expressions(scope.Visible(), unset, es[i..]))
    {
      var x := CheckExpression(es[i], scope, unset);
      assert es[i..][0] == es[i] && es[i..][1..] == es[i + 1..];
      if x.None? {
        return None;
      }
      PutOne(xs, x.value, Expressions(scope.Visible(), unset, es[i + 1..]));
      xs := xs + [x.value];
      i := i + 1;
    }
    assert xs + [] == xs;
    r := Some(xs);
  }

  // ----- the pass over statements -----

  ghost predicate Checks<T>(spec: Option<Checked<T>>, r: Option<T>, env: Env, size: nat) {
    if r.Some? then spec == Some(Checked(r.value, env, size)) else spec == None
  }

  method CheckDeclaration(typ: string, name: string, frame: StackFrame, scope: Scope) returns (r: Option<R.Symbol>)
    requires scope.Valid() && frame !in scope.Repr
    modifies frame, scope.Own()
    ensures scope.Valid() && frame !in scope.Repr
    ensures fresh(scope.Own() - old(scope.Own())) && fresh(scope.Repr - old(scope.Repr))
    ensures Checks(Declare(old(scope.Visible()), old(frame.size), typ, name), r, scope.Visible(), frame.size)
  {
    hide HashMap.Valid, KnownType;
    var redeclared := InScope(scope, name);
    if redeclared || !KnownType(typ) {
      return None;
    }
    var offset := frame.Add(1, INT_SIZE);
    ScopeAdd(scope, Variable(offset), name);
    r := Some(R.Local(offset));
  }

  method CheckEnum(names: seq<string>, scope: Scope)
    requires scope.Valid()
    modifies scope.Own()
    ensures scope.Valid() && fresh(scope.Own() - old(scope.Own())) && fresh(scope.Repr - old(scope.Repr))
    ensures scope.Visible() == Constants(old(scope.Visible()), names, 0)
  {
    var i := 0;
    assert names[0..] == names;
    while i < |names|
      invariant 0 <= i <= |names|
      invariant scope.Valid() && fresh(scope.Own() - old(scope.Own())) && fresh(scope.Repr - old(scope.Repr))
      invariant Constants(scope.Visible(), names[i..], i) == Constants(old(scope.Visible()), names, 0)
    {
      assert names[i..][0] == names[i] && names[i..][1..] == names[i + 1..];
      ScopeAdd(scope, Constant(i), names[i]);
      i := i + 1;
    }
  }

  method CheckStatement(s: S.Stmt, frame: StackFrame, scope: Scope, unset: nat) returns (r: Option<R.Stmt>)
    requires scope.Valid() && frame !in scope.Repr
    modifies frame, scope.Own()
    ensures scope.Valid() && frame !in scope.Repr
    ensures fresh(scope.Own() - old(scope.Own())) && fresh(scope.Repr - old(scope.Repr))
    ensures Checks(Statement(old(scope.Visible()), old(frame.size), unset, s), r, scope.Visible(), frame.size)
    decreases s, 1
  {
    hide Scope.Valid, Expression, Constants, Statements;
    match s
    case Return(e) =>
      var x := CheckExpression(e, scope, unset);
      r := if x.None? then None else Some(R.Return(x.value));
    case If(_, _, _) => r := CheckIf(s, frame, scope, unset);
    case Block(body) =>
      var b := CheckBlock(body, frame, scope, unset);
      r := if b.None? then None else Some(R.Block(b.value));
    case VarDef(typ, name, e) =>
      var redefined := InScope(scope, name);
      if redefined {
        return None;
      }
      var x := CheckExpression(e, scope, unset);
      if x.None? {
        return None;
      }
      var sym := CheckDeclaration(typ, name, frame, scope);
      r := if sym.None? then None else Some(R.VarDef(sym.value, x.value));
    case VarDec(typ, name) =>
      var sym := CheckDeclaration(typ, name, frame, scope);
      r := if sym.None? then None else Some(R.VarDec(sym.value));
    case While(c, b) =>
      var cond := CheckExpression(c, scope, unset);
      if cond.None? {
        return None;
      }
      var loop := CheckStatement(b, frame, scope, unset);
      r := if loop.None? then None else Some(R.While(cond.value, loop.value));
    case For(_, _, _, _) => r := CheckFor(s, frame, scope, unset);
    case ExprStmt(e) =>
      var x := CheckExpression(e, scope, unset);
      r := if x.None? then None else Some(R.ExprStmt(x.value));
    case Enum(_, cs) =>
      scope.OwnInside();
      CheckEnum(cs, scope);
      r := Some(R.Enum);
  }

  /** The then-branch comes before the condition. */
  method CheckIf(s: S.Stmt, frame: StackFrame, scope: Scope, unset: nat) returns (r: Option<R.Stmt>)
    requires s.If? && scope.Valid() && frame !in scope.Repr
    modifies frame, scope.Own()
    ensures scope.Valid() && frame !in scope.Repr
    ensures fresh(scope.Own() - old(scope.Own())) && fresh(scope.Repr - old(scope.Repr))
    ensures Checks(Statement(old(scope.Visible()), old(frame.size), unset, s), r, scope.Visible(), frame.size)
    decreases s, 0
  {
    hide Scope.Valid, Scope.Visible, Expression;
    var thn := CheckStatement(s.thn, frame, scope, unset);
    if thn.None? {
      return None;
    }
    var cond := CheckExpression(s.cond, scope, unset);
    if cond.None? {
      return None;
    }
    if s.els.None? {
      return Some(R.If(cond.value, thn.value, None));
    }
    var els := CheckStatement(s.els.value, frame, scope, unset);
    r := if els.None? then None else Some(R.If(cond.value, thn.value, Some(els.value)));
  }

  /** A block in a scope of its own, which leaves the enclosing scope as it was. */
  method CheckBlock(body: seq<S.Stmt>, frame: StackFrame, scope: Scope, unset: nat) returns (r: Option<seq<R.Stmt>>)
    requires scope.Valid() && frame !in scope.Repr
    modifies frame
    ensures scope.Valid()
    ensures var spec := Statements(scope.Visible(), old(frame.size), unset, body);
            if r.None? then spec == None else spec.Some? && spec.value.tree == r.value && spec.value.size == frame.size
    decreases body, 0
  {
    hide Statement;
    var child := EnterScope(scope);
    ghost var spec := Statements(child.Visible(), frame.size, unset, body);
    var ss: seq<R.Stmt> := [];
    var i := 0;
    CheckedNothing(spec);
    assert body[0..] == body;
    while i < |body|
      invariant 0 <= i <= |body|
      invariant child.Valid() && frame !in child.Repr && fresh(child.Own())
      invariant spec == Then(ss, Statements(child.Visible(), frame.size, unset, body[i..]))
    {
      assert body[i..][0] == body[i] && body[i..][1..] == body[i + 1..];
      var s := CheckStatement(body[i], frame, child, unset);
      if s.None? {
        return None;
      }
      CheckedOne(ss, s.value, Statements(child.Visible(), frame.size, unset, body[i + 1..]));
      ss := ss + [s.value];
      i := i + 1;
    }
    assert ss + [] == ss;
    var _ := ExitScope(child);
    r := Some(ss);
  }

  method CheckFor(s: S.Stmt, frame: StackFrame, scope: Scope, unset: nat) returns (r: Option<R.Stmt>)
    requires s.For? && scope.Valid() && frame !in scope.Repr
    modifies frame
    ensures scope.Valid()
    ensures Checks(Statement(scope.Visible(), old(frame.size), unset, s), r, scope.Visible(), frame.size)
    decreases s, 0
  {
    hide Expression;
    var child := EnterScope(scope);
    var init := CheckStatement(s.init, frame, child, unset);
    if init.None? {
      return None;
    }
    var cond := CheckExpression(s.cond, child, unset);
    if cond.None? {
      return None;
    }
    var step := CheckExpression(s.step, child, unset);
    if step.None? {
      return None;
    }
    var loop := CheckStatement(s.loop, frame, child, unset);
    if loop.None? {
      return None;
    }
    var _ := ExitScope(child);
    r := Some(R.For(init.value, cond.value, step.value, loop.value));
  }

  // ----- functions and programs -----

  method CheckParameters(ps: seq<S.Param>, scope: Scope) returns (ok: bool)
    requires scope.Valid()
    modifies scope.Own()
    ensures scope.Valid() && fresh(scope.Own() - old(scope.Own())) && fresh(scope.Repr - old(scope.Repr))
    ensures Parameters(old(scope.Visible()), ps, 0) == if ok then Some(scope.Visible()) else None
  {
    var i := 0;
    assert ps[0..] == ps;
    while i < |ps|
      invariant 0 <= i <= |ps|
      invariant scope.Valid() && fresh(scope.Own() - old(scope.Own())) && fresh(scope.Repr - old(scope.Repr))
      invariant Parameters(scope.Visible(), ps[i..], i) == Parameters(old(scope.Visible()), ps, 0)
    {
      assert ps[i..][0] == ps[i] && ps[i..][1..] == ps[i + 1..];
      if !KnownType(ps[i].typ) {
        return false;
      }
      ScopeAdd(scope, Parameter(i), ps[i].name);
      i := i + 1;
    }
    ok := true;
  }

  method CheckDefinition(f: S.Func, scope: Scope, unset: nat) returns (r: Option<R.Func>)
    requires scope.Valid()
    modifies scope.Own()
    ensures scope.Valid() && fresh(scope.Own() - old(scope.Own()))
    ensures var spec := Definition(old(scope.Visible()), unset, f);
            if r.None? then spec == None
                else spec.Some? && spec.value.tree == r.value && spec.value.env == scope.Visible()
  {
    hide Scope.Valid, Scope.Visible, Statements, Parameters;
    var redefined := InScope(scope, f.name);
    if redefined || !KnownType(f.typ) {
      return None;
    }
    var frame := new StackFrame(f.name);
    var ok := CheckParameters(f.params, scope);
    if !ok {
      return None;
    }
    ScopeAdd(scope, Function(|f.params|), f.name);
    var body := CheckBlock(f.body, frame, scope, unset);
    r := if body.None? then None else Some(R.Func(f.name, f.typ == "void", |f.params|, frame.size, body.value));
  }

  /** `sema_check`: the whole program in a new global scope. */
  method CheckProgram(prog: seq<S.Func>, unset: nat) returns (r: Option<R.Program>)
    ensures r == Program(prog, unset) && (r.Some? <==> Accepts(prog))
  {
    hide Definition, Accepts, Scope.Valid, HashMap.Valid;
    ProgramAcceptedIff(prog, unset);
    var symtab := new HashMap<Entry>();
    var global := new Scope(null, symtab);
    var fs: seq<R.Func> := [];
    var i := 0;
    PutNothing(Program(prog, unset));
    assert prog[0..] == prog;
    while i < |prog|
      invariant 0 <= i <= |prog|
      invariant global.Valid() && fresh(global.Own())
      invariant Program(prog, unset) == Put(fs, Definitions(global.Visible(), unset, prog[i..]))
    {
      assert prog[i..][0] == prog[i] && prog[i..][1..] == prog[i + 1..];
      var f := CheckDefinition(prog[i], global, unset);
      if f.None? {
        return None;
      }
      PutOne(fs, f.value, Definitions(global.Visible(), unset, prog[i + 1..]));
      fs := fs + [f.value];
      i := i + 1;
    }
    assert fs + [] == fs;
    var _ := ExitScope(global);
    r := Some(fs);
  }

  // ----- a list of statements under construction -----

  ghost function Then<T>(ts: seq<T>, more: Option<Checked<seq<T>>>): Option<Checked<seq<T>>> {
    if more.None? then None else Some(more.value.(tree := ts + more.value.tree))
  }

  lemma CheckedNothing<T>(more: Option<Checked<seq<T>>>)
    ensures Then([], more) == more
  {
    if more.Some? {
      assert [] + more.value.tree == more.value.tree;
    }
  }

  lemma CheckedOne<T>(ts: seq<T>, t: T, more: Option<Checked<seq<T>>>)
    ensures Then(ts + [t], more) == Then(ts, Then([t], more))
  {
    if more.Some? {
      assert ts + [t] + more.value.tree == ts + ([t] + more.value.tree);
    }
  }
}
