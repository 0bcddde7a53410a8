/** The rules of scope, said of the parts of a tree. */
module TidyParts {
  import opened Options
  import opened Syntax
  import opened Scoping

  /** The names that an expression uses for variables. */
  function Uses(e: Expr): set<string> {
    match e
    case Name(x) => {x}
    case Unary(_, e1) => Uses(e1)
    case Bin(_, l, r) => Uses(l) + Uses(r)
    case Assign(x, e1) => {x} + Uses(e1)
    case Call(_, args) => set a, x | a in args && x in Uses(a) :: x
    case _ => {}
  }

  lemma {:induction false} ClearIff(foreign: set<string>, e: Expr)
    ensures Clear(foreign, e) <==> Uses(e) !! foreign
  {
    match e
    case Unary(_, e1) => ClearIff(foreign, e1);
    case Bin(_, l, r) =>
      ClearIff(foreign, l);
      ClearIff(foreign, r);
    case Assign(_, e1) => ClearIff(foreign, e1);
    case Call(_, args) => ClearAllIff(foreign, args);
    case _ =>
  }

  lemma {:induction false} ClearAllIff(foreign: set<string>, es: seq<Expr>)
    ensures ClearAll(foreign, es) <==> forall a :: a in es ==> Uses(a) !! foreign
  {
    hide Clear, Uses;
    if es != [] {
      ClearIff(foreign, es[0]);
      ClearAllIff(foreign, es[1..]);
      assert forall a :: a in es <==> a == es[0] || a in es[1..];
    }
  }

  ghost predicate Within(t: Stmt, s: Stmt)
    decreases s
  {
    t == s ||
    match s
    case If(_, thn, els) => Within(t, thn) || (els.Some? && Within(t, els.value))
    case Block(body) => exists b :: b in body && Within(t, b)
    case While(_, b) => Within(t, b)
    case For(i, _, _, b) => Within(t, i) || Within(t, b)
    case _ => false
  }

  function Own(s: Stmt): set<Expr> {
    match s
    case Return(e) => {e}
    case If(c, _, _) => {c}
    case VarDef(_, _, e) => {e}
    case ExprStmt(e) => {e}
    case While(c, _) => {c}
    case For(_, c, k, _) => {c, k}
    case _ => {}
  }

  /** No other function's parameter is used, and no branch or body is a declaration. */
  predicate TidyOne(foreign: set<string>, t: Stmt) {
    && (forall e :: e in Own(t) ==> Uses(e) !! foreign)
    && match t
       case If(_, thn, els) => !IsDeclaration(thn) && (els.Some? ==> !IsDeclaration(els.value))
       case While(_, b) => !IsDeclaration(b)
       case For(_, _, _, b) => !IsDeclaration(b)
       case _ => true
  }

  /** A statement is tidy if and only if every statement in it is, where there are no enumerations, whose
      constants must be new names besides. */
  lemma {:induction false} TidyIff(vis: set<string>, foreign: set<string>, s: Stmt)
    requires forall t :: Within(t, s) ==> !t.Enum?
    ensures Tidy(vis, foreign, s) <==> forall t :: Within(t, s) ==> TidyOne(foreign, t)
    decreases s
  {
    hide Uses, Clear, IsDeclaration;
    assert Within(s, s);
    forall e | e in Own(s)
      ensures Clear(foreign, e) <==> Uses(e) !! foreign
    {
      ClearIff(foreign, e);
    }
    match s
    case If(_, thn, els) =>
      TidyIff(vis, foreign, thn);
      if els.Some? {
        TidyIff(vis, foreign, els.value);
      }
    case Block(body) => TidyAllIff(vis, foreign, body);
    case While(_, b) => TidyIff(vis, foreign, b);
    case For(i, _, _, b) =>
      TidyIff(vis, foreign, i);
      TidyIff(Visible(vis, i), foreign, b);
    case _ =>
  }

  lemma {:induction false} TidyAllIff(vis: set<string>, foreign: set<string>, ss: seq<Stmt>)
    requires forall b, t :: b in ss && Within(t, b) ==> !t.Enum?
    ensures TidyAll(vis, foreign, ss) <==> forall b, t :: b in ss && Within(t, b) ==> TidyOne(foreign, t)
    decreases ss
  {
    hide Tidy, TidyOne, Within;
    if ss != [] {
      TidyIff(vis, foreign, ss[0]);
      TidyAllIff(Visible(vis, ss[0]), foreign, ss[1..]);
      assert forall b :: b in ss <==> b == ss[0] || b in ss[1..];
    }
  }

  /** The constants of an enumeration are new if they are not visible and all different. */
  lemma {:induction false} NewNamesIff(vis: set<string>, cs: seq<string>)
    ensures NewNames(vis, cs) <==>
              (forall i :: 0 <= i < |cs| ==> cs[i] !in vis) && forall i, j :: 0 <= i < j < |cs| ==> cs[i] != cs[j]
    decreases cs
  {
    if cs != [] {
      var rest := cs[1..];
      NewNamesIff(vis + {cs[0]}, rest);
      assert forall i :: 0 < i < |cs| ==> cs[i] == rest[i - 1];
      assert forall i :: 0 <= i < |rest| ==> rest[i] == cs[i + 1];
    }
  }
}
