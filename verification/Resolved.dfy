/** The syntax tree as the semantic pass leaves it for the code generator: every name of a
    variable is replaced by its symbol table entry. */
module Resolved {
  import opened Options

  datatype BinOp =
    | Add | Sub | Mul | Div | Shl | Shr | Lt | Gt | Le | Ge | Eq | Ne
    | BitAnd | BitXor | BitOr | LogAnd | LogOr

  /** A symbol table entry. Only the entry of a local variable is given an `offset` by the
      semantic pass; the other two hold whatever the arena's memory held. */
  datatype Symbol =
    | Enumerator(value: int, offset: nat)
    | Param(index: nat, offset: nat)
    | Local(offset: nat)

  datatype Expr =
    | Empty
    | Num(value: int)
    | Ident(sym: Symbol)
    | Not(e: Expr)
    | Bin(op: BinOp, left: Expr, right: Expr)
    | Assign(target: Symbol, e: Expr)
    | Call(name: string, args: seq<Expr>)

  datatype Stmt =
    | Return(e: Expr)
    | If(cond: Expr, thn: Stmt, els: Option<Stmt>)
    | Block(body: seq<Stmt>)
    | VarDef(sym: Symbol, e: Expr)
    | VarDec(sym: Symbol)
    | While(cond: Expr, loop: Stmt)
    | For(init: Stmt, cond: Expr, step: Expr, loop: Stmt)
    | ExprStmt(e: Expr)
    | Enum

  /** `frame` is the final size in bytes of the function's local variables. */
  datatype Func = Func(name: string, isVoid: bool, params: nat, frame: nat, body: seq<Stmt>)

  type Program = seq<Func>

  /** The functions by name. */
  function Find(p: Program, name: string): (f: Option<Func>)
    ensures f.Some? ==> f.value in p && f.value.name == name
    ensures f.None? ==> forall g :: g in p ==> g.name != name
  {
    if p == [] then None else if p[0].name == name then Some(p[0]) else Find(p[1..], name)
  }

  ghost predicate DistinctNames(p: Program) {
    forall i, j :: 0 <= i < j < |p| ==> p[i].name != p[j].name
  }

  lemma {:induction false} FindDefined(p: Program, f: Func)
    requires f in p && DistinctNames(p)
    ensures Find(p, f.name) == Some(f)
  {
    if p[0] != f {
      var i :| 0 <= i < |p| && p[i] == f;
      assert p[1..][i - 1] == f;
      FindDefined(p[1..], f);
    }
  }

  // ----- the stack frame -----

  /** The size of a function's frame: ra, s0, the locals, seven temporaries and two areas for
      eight arguments, rounded up to the next multiple of 16. */
  function FrameSize(locals: nat): (size: int)
    ensures size % 16 == 0
    ensures locals + 100 < size <= locals + 116
  {
    var raw := locals + 100;
    raw + (16 - raw % 16)
  }

  // Distances below the frame pointer.
  function ParamSlot(i: nat): int { 12 + 4 * i }
  function LocalSlot(offset: nat): int { 44 + offset }
}
