/** The layered expression grammar, as a relation between token strings and the trees they derive.
    An operand may be missing, which derives the empty expression from no tokens. */
module Grammar {
  import opened Options
  import opened Syntax
  import opened Decimal
  import opened Parser

  /** The operators of the ten levels, from the tightest to the loosest, each as its own list. The parser's
      table agrees with the lists. */
  predicate InLevel(k: nat, o: Kind): (r: bool)
    ensures r <==> k >= 2 && Level(o) == k
  {
    match k
    case 2 => o == MULT || o == DIV
    case 3 => o == ADD || o == SUB
    case 4 => o == LSHIFT || o == RSHIFT
    case 5 => o == GT || o == LT || o == GT_EQ || o == LT_EQ
    case 6 => o == EQUAL || o == NOT_EQUAL
    case 7 => o == AND
    case 8 => o == XOR
    case 9 => o == OR
    case 10 => o == LOG_AND
    case 11 => o == LOG_OR
    case _ => false
  }

  /** An operator of a level tighter than k. */
  predicate Tighter(o: Kind, k: nat): (r: bool)
    ensures r <==> 0 < Level(o) < k
  {
    assert Level(o) < k && Level(o) > 0 ==> InLevel(Level(o), o);
    exists j :: 2 <= j < k && InLevel(j, o)
  }

  ghost predicate DerivesPrimary(w: Tokens, e: Expr)
    decreases |w|, 0
  {
    || (w == [] && e == Empty)
    || (|w| == 1 && w[0].kind == NUM && e.Num? && ToInt(w[0].text) == Some(e.value))
    || (|w| == 1 && w[0].kind == IDENT && e == Name(w[0].text))
    || (|w| >= 2 && w[0].kind == LPAREN && w[|w| - 1].kind == RPAREN && Derives(w[1..|w| - 1], e))
    || (|w| >= 3 && w[0].kind == IDENT && w[1].kind == LPAREN && w[|w| - 1].kind == RPAREN
        && e.Call? && e.name == w[0].text && DerivesArgs(w[2..|w| - 1], e.args))
  }

  ghost predicate DerivesUnary(w: Tokens, e: Expr)
    decreases |w|, 1
  {
    || (At(w, NOT) && e.Unary? && e.op == NOT && DerivesPrimary(w[1..], e.e))
    || DerivesPrimary(w, e)
  }

  /** Level k: an operator of the level between an expression of the level and a tighter one, so that
      operators of one level group from the left. */
  ghost predicate DerivesBinary(k: nat, w: Tokens, e: Expr)
    requires 1 <= k <= TOP
    decreases |w|, k + 1
  {
    if k == 1 then DerivesUnary(w, e) else
    || DerivesBinary(k - 1, w, e)
    || (e.Bin? && InLevel(k, e.op) &&
        exists i :: 0 <= i < |w| && w[i].kind == e.op && DerivesBinary(k, w[..i], e.left) &&
            DerivesBinary(k - 1, w[i + 1..], e.right))
  }

  ghost predicate Derives(w: Tokens, e: Expr)
    decreases |w|, TOP + 2
  {
    || (|w| >= 2 && w[0].kind == IDENT && w[1].kind == ASSIGN && e.Assign? && e.name == w[0].text &&
        Derives(w[2..], e.e))
    || DerivesBinary(TOP, w, e)
  }

  /** Arguments separated by commas. The last one is not missing; a comma may follow it. */
  ghost predicate DerivesArgs(w: Tokens, args: seq<Expr>)
    decreases |w|, TOP + 3
  {
    if args == [] then w == [] else
    || (|args| == 1 && w != [] && Derives(w, args[0]))
    || exists i :: 0 <= i < |w| && w[i].kind == COMMA && Derives(w[..i], args[0]) && DerivesArgs(w[i + 1..], args[1..])
  }

  // ----- the rules -----

  lemma OperatorRule(k: nat, u: Tokens, o: Token, v: Tokens, l: Expr, r: Expr)
    requires 2 <= k <= TOP && InLevel(k, o.kind) && DerivesBinary(k, u, l) && DerivesBinary(k - 1, v, r)
    ensures DerivesBinary(k, u + [o] + v, Bin(o.kind, l, r))
  {
    var w := u + [o] + v;
    assert w[..|u|] == u && w[|u| + 1..] == v && w[|u|].kind == o.kind;
  }

  lemma CommaRule(u: Tokens, o: Token, v: Tokens, e: Expr, es: seq<Expr>)
    requires o.kind == COMMA && Derives(u, e) && DerivesArgs(v, es)
    ensures DerivesArgs(u + [o] + v, [e] + es)
  {
    var w := u + [o] + v;
    assert w[..|u|] == u && w[|u| + 1..] == v && w[|u|].kind == COMMA;
    assert ([e] + es)[1..] == es;
  }

  lemma ParenRule(a: Token, u: Tokens, b: Token, e: Expr)
    requires a.kind == LPAREN && b.kind == RPAREN && Derives(u, e)
    ensures DerivesPrimary([a] + u + [b], e)
  {
    var w := [a] + u + [b];
    assert w[1..|w| - 1] == u;
  }

  lemma CallRule(f: Token, a: Token, u: Tokens, b: Token, es: seq<Expr>)
    requires f.kind == IDENT && a.kind == LPAREN && b.kind == RPAREN && DerivesArgs(u, es)
    ensures DerivesPrimary([f, a] + u + [b], Call(f.text, es))
  {
    var w := [f, a] + u + [b];
    assert w[2..|w| - 1] == u;
  }

  lemma AssignRule(n: Token, o: Token, u: Tokens, e: Expr)
    requires n.kind == IDENT && o.kind == ASSIGN && Derives(u, e)
    ensures Derives([n, o] + u, Assign(n.text, e))
  {
    var w := [n, o] + u;
    assert w[2..] == u;
  }

  lemma NotRule(n: Token, u: Tokens, e: Expr)
    requires n.kind == NOT && DerivesPrimary(u, e)
    ensures DerivesUnary([n] + u, Unary(NOT, e))
  {
    assert ([n] + u)[1..] == u;
  }

  /** Every level includes the tighter ones. */
  lemma {:induction false} Weaken(j: nat, k: nat, w: Tokens, e: Expr)
    requires 1 <= j <= k <= TOP && DerivesBinary(j, w, e)
    ensures DerivesBinary(k, w, e)
    decreases k
  {
    if j < k {
      Weaken(j, k - 1, w, e);
    }
  }
}
