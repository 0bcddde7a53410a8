/** Whatever the grammar derives, the parser reads back, whatever follows: hence the grammar is
    unambiguous, and printing a tree and parsing the result gives the same tree. */
module ParserComplete {
  import opened Options
  import opened Syntax
  import opened Decimal
  import opened Parser
  import opened Grammar

  /** Some operand is missing. */
  predicate HasEmpty(e: Expr) {
    match e
    case Empty => true
    case Num(_) => false
    case Name(_) => false
    case Unary(_, e1) => HasEmpty(e1)
    case Bin(_, l, r) => HasEmpty(l) || HasEmpty(r)
    case Assign(_, e1) => HasEmpty(e1)
    case Call(_, args) => exists i :: 0 <= i < |args| && HasEmpty(args[i])
  }

  /** A token after an expression of level k that the parser does not take for a part of it: not
      `(` or `=`, not a tighter operator and, if an operand is missing, not the start of one. */
  predicate Follows(k: nat, e: Expr, t: Token) {
    && t.kind != LPAREN && t.kind != ASSIGN
    && !Tighter(t.kind, k)
    && (HasEmpty(e) ==> t.kind != NUM && t.kind != IDENT && t.kind != NOT)
  }

  /** The tokens an expression can start with. */
  predicate StartsExpression(k: Kind) {
    k == NUM || k == IDENT || k == NOT || k == LPAREN || Level(k) > 0
  }

  lemma UnaryStart(w: Tokens, e: Expr)
    requires DerivesUnary(w, e)
    ensures w == [] ==> e == Empty
    ensures w != [] ==> StartsExpression(w[0].kind)
    ensures |w| >= 2 && w[0].kind == IDENT ==> w[1].kind != ASSIGN
  {
    hide Derives, DerivesArgs, ToInt;
    if !At(w, NOT) {
      assert DerivesPrimary(w, e);
    }
  }

  /** An assignment starts differently from every binary expression. */
  lemma {:induction false} NoAssignStart(k: nat, w: Tokens, e: Expr)
    requires 1 <= k <= TOP && DerivesBinary(k, w, e) && |w| >= 2 && w[0].kind == IDENT
    ensures w[1].kind != ASSIGN
    decreases |w|, k
  {
    if k > 1 && !DerivesBinary(k - 1, w, e) {
      var i :| 0 <= i < |w| && w[i].kind == e.op && DerivesBinary(k, w[..i], e.left) &&
          DerivesBinary(k - 1, w[i + 1..], e.right);
      if i > 1 {
        NoAssignStart(k, w[..i], e.left);
      }
    } else if k > 1 {
      NoAssignStart(k - 1, w, e);
    } else {
      UnaryStart(w, e);
    }
  }

  /** Dropping and splitting in w + rest. */
  lemma Tail(w: Tokens, rest: Tokens, n: nat)
    requires n <= |w|
    ensures (w + rest)[n..] == w[n..] + rest
  {
  }

  lemma {:induction false} PrimaryReads(w: Tokens, e: Expr, rest: Tokens)
    requires DerivesPrimary(w, e) && rest != [] && Follows(0, e, rest[0])
    ensures Primary(w + rest) == Some(Parsed(e, rest))
    decreases |w|, 0
  {
    hide Derives, DerivesArgs, Expression, Arguments, ToInt, HasEmpty;
    var ts := w + rest;
    if w == [] {
      assert HasEmpty(Empty) by { EmptyHasEmpty(); }
      assert ts == rest;
    } else if |w| == 1 {
      assert ts[1..] == rest;
    } else if w[0].kind == LPAREN {
      ParenReads(w, e, rest);
    } else {
      CallReads(w, e, rest);
    }
  }

  lemma EmptyHasEmpty()
    ensures HasEmpty(Empty)
  {
  }

  lemma InParentheses(ts: Tokens, e: Expr, rest: Tokens)
    requires At(ts, LPAREN) && Expression(ts[1..]) == Some(Parsed(e, rest)) && At(rest, RPAREN)
    ensures Primary(ts) == Some(Parsed(e, rest[1..]))
  {
    hide Expression;
  }

  lemma ParenReads(w: Tokens, e: Expr, rest: Tokens)
    requires |w| >= 2 && w[0].kind == LPAREN && w[|w| - 1].kind == RPAREN && Derives(w[1..|w| - 1], e)
    ensures Primary(w + rest) == Some(Parsed(e, rest))
    decreases |w| - 1, TOP + 3
  {
    hide Derives, Expression, HasEmpty, ToInt, Primary;
    var u, last := w[1..|w| - 1], [w[|w| - 1]];
    ExpressionReads(u, e, last + rest);
    assert (w + rest)[1..] == u + (last + rest);
    assert (last + rest)[1..] == rest;
    InParentheses(w + rest, e, last + rest);
  }

  lemma CallReads(w: Tokens, e: Expr, rest: Tokens)
    requires |w| >= 3 && w[0].kind == IDENT && w[1].kind == LPAREN && w[|w| - 1].kind == RPAREN
    requires e.Call? && e.name == w[0].text && DerivesArgs(w[2..|w| - 1], e.args)
    ensures Primary(w + rest) == Some(Parsed(e, rest))
    decreases |w| - 1, TOP + 4
  {
    hide DerivesArgs, Arguments, ToInt;
    var u, last := w[2..|w| - 1], [w[|w| - 1]];
    ArgumentsRead(u, e.args, last + rest);
    assert (w + rest)[2..] == u + (last + rest);
    assert (last + rest)[1..] == rest;
  }

  lemma {:induction false} UnaryReads(w: Tokens, e: Expr, rest: Tokens)
    requires DerivesUnary(w, e) && rest != [] && Follows(1, e, rest[0])
    ensures UnaryExpr(w + rest) == Some(Parsed(e, rest))
    decreases |w|, 1
  {
    hide DerivesPrimary, Primary;
    if At(w, NOT) && e.Unary? && e.op == NOT && DerivesPrimary(w[1..], e.e) {
      PrimaryReads(w[1..], e.e, rest);
      Tail(w, rest, 1);
    } else {
      PrimaryStart(w, e, rest);
      PrimaryReads(w, e, rest);
    }
  }

  lemma PrimaryStart(w: Tokens, e: Expr, rest: Tokens)
    requires DerivesPrimary(w, e) && rest != [] && Follows(1, e, rest[0])
    ensures (w + rest)[0].kind != NOT
  {
    hide Derives, DerivesArgs, ToInt;
    if w == [] {
      assert w + rest == rest;
    }
  }

  /** A string of level k, followed by anything not tighter, is read up to the loop over the
      operators of the level. */
  lemma {:induction false} BinaryReads(k: nat, w: Tokens, e: Expr, rest: Tokens)
    requires 1 <= k <= TOP && DerivesBinary(k, w, e) && rest != [] && Follows(k, e, rest[0])
    ensures k == 1 ==> Binary(k, w + rest) == Some(Parsed(e, rest))
    ensures k > 1 ==> Binary(k, w + rest) == Operators(k, e, rest)
    decreases |w|, k + 1, 0
  {
    hide UnaryExpr, DerivesUnary;
    if k == 1 {
      UnaryReads(w, e, rest);
    } else if DerivesBinary(k - 1, w, e) {
      BinaryEnds(k - 1, w, e, rest);
    } else {
      var i :| 0 <= i < |w| && w[i].kind == e.op && DerivesBinary(k, w[..i], e.left) &&
          DerivesBinary(k - 1, w[i + 1..], e.right);
      OperatorReads(k, w, e, rest, i);
    }
  }

  /** Followed by something looser, it is read to its end. */
  lemma {:induction false} BinaryEnds(k: nat, w: Tokens, e: Expr, rest: Tokens)
    requires 1 <= k <= TOP && DerivesBinary(k, w, e) && rest != [] && Follows(k + 1, e, rest[0])
    ensures Binary(k, w + rest) == Some(Parsed(e, rest))
    decreases |w|, k + 1, 1
  {
    hide Binary, DerivesBinary, HasEmpty;
    BinaryReads(k, w, e, rest);
  }

  lemma OperatorReads(k: nat, w: Tokens, e: Expr, rest: Tokens, i: nat)
    requires 2 <= k <= TOP && e.Bin? && InLevel(k, e.op) && i < |w| && w[i].kind == e.op
    requires DerivesBinary(k, w[..i], e.left) && DerivesBinary(k - 1, w[i + 1..], e.right)
    requires rest != [] && Follows(k, e, rest[0])
    ensures Binary(k, w + rest) == Operators(k, e, rest)
    decreases |w|, k, 2
  {
    hide Binary, Operators, DerivesBinary, Follows;
    var u, o, v := w[..i], [w[i]], w[i + 1..];
    OperandsFollow(k, e, rest[0], w[i]);
    BinaryReads(k, u, e.left, o + (v + rest));
    assert w + rest == u + (o + (v + rest));
    assert (o + (v + rest))[1..] == v + rest;
    BinaryEnds(k - 1, v, e.right, rest);
    OneOperator(k, e.left, o + (v + rest), e.right, rest);
  }

  lemma OneOperator(k: nat, left: Expr, ts: Tokens, right: Expr, rest: Tokens)
    requires 2 <= k <= TOP && ts != [] && Level(ts[0].kind) == k && Binary(k - 1, ts[1..]) == Some(Parsed(right, rest))
    ensures Operators(k, left, ts) == Operators(k, Bin(ts[0].kind, left, right), rest)
  {
    hide Binary;
  }

  lemma OperandsFollow(k: nat, e: Expr, t: Token, o: Token)
    requires 2 <= k && e.Bin? && Level(e.op) == k && o.kind == e.op && Follows(k, e, t)
    ensures Follows(k, e.left, o) && Follows(k, e.right, t)
  {
  }

  lemma {:induction false} ExpressionReads(w: Tokens, e: Expr, rest: Tokens)
    requires Derives(w, e) && rest != [] && Follows(TOP + 1, e, rest[0])
    ensures Expression(w + rest) == Some(Parsed(e, rest))
    decreases |w|, TOP + 3
  {
    hide DerivesBinary, Binary;
    var ts := w + rest;
    if |w| >= 2 && w[0].kind == IDENT && w[1].kind == ASSIGN && e.Assign? && e.name == w[0].text &&
        Derives(w[2..], e.e) {
      ExpressionReads(w[2..], e.e, rest);
      Tail(w, rest, 2);
    } else {
      BinaryEnds(TOP, w, e, rest);
      BinaryStart(w, e, rest);
    }
  }

  lemma BinaryStart(w: Tokens, e: Expr, rest: Tokens)
    requires DerivesBinary(TOP, w, e) && rest != [] && Follows(TOP + 1, e, rest[0])
    ensures var ts := w + rest; ts[0].kind == IDENT ==> |ts| >= 2 && ts[1].kind != ASSIGN
  {
    hide DerivesBinary, HasEmpty;
    if w == [] {
      NoTokensNoTree(TOP, w, e);
      EmptyHasEmpty();
    } else if |w| >= 2 && w[0].kind == IDENT {
      NoAssignStart(TOP, w, e);
    }
  }

  /** The empty string derives the empty expression only. */
  lemma {:induction false} NoTokensNoTree(k: nat, w: Tokens, e: Expr)
    requires 1 <= k <= TOP && DerivesBinary(k, w, e) && w == []
    ensures e == Empty
    decreases k
  {
    if k > 1 {
      NoTokensNoTree(k - 1, w, e);
    } else {
      UnaryStart(w, e);
    }
  }

  lemma {:induction false} ArgumentsRead(w: Tokens, args: seq<Expr>, rest: Tokens)
    requires DerivesArgs(w, args) && At(rest, RPAREN)
    ensures Arguments(w + rest) == Some(Parsed(args, rest))
    decreases |w|, TOP + 4
  {
    hide Derives, Expression, HasEmpty;
    if args == [] {
      assert w + rest == rest;
    } else if |args| == 1 && w != [] && Derives(w, args[0]) {
      ExpressionReads(w, args[0], rest);
      ArgumentStart(w, args[0], rest);
      assert args == [args[0]];
    } else {
      var i :| 0 <= i < |w| && w[i].kind == COMMA && Derives(w[..i], args[0]) && DerivesArgs(w[i + 1..], args[1..]);
      CommaReads(w, args, rest, i);
    }
  }

  lemma CommaReads(w: Tokens, args: seq<Expr>, rest: Tokens, i: nat)
    requires args != [] && i < |w| && w[i].kind == COMMA && Derives(w[..i], args[0]) &&
             DerivesArgs(w[i + 1..], args[1..]) && At(rest, RPAREN)
    ensures Arguments(w + rest) == Some(Parsed(args, rest))
    decreases |w|, TOP + 3, 1
  {
    hide Derives, DerivesArgs, Expression, HasEmpty;
    var u, o, v := w[..i], [w[i]], w[i + 1..];
    assert w + rest == u + (o + (v + rest));
    ExpressionReads(u, args[0], o + (v + rest));
    ArgumentStart(u, args[0], o + (v + rest));
    assert (o + (v + rest))[1..] == v + rest;
    ArgumentsRead(v, args[1..], rest);
    assert args == [args[0]] + args[1..];
  }

  /** An expression does not start with a closing parenthesis. */
  lemma ArgumentStart(w: Tokens, e: Expr, rest: Tokens)
    requires Derives(w, e) && rest != [] && (w == [] ==> rest[0].kind == COMMA)
    ensures (w + rest)[0].kind != RPAREN
  {
    hide Derives;
    if w != [] {
      ExpressionStart(w, e);
    }
  }

  lemma ExpressionStart(w: Tokens, e: Expr)
    requires Derives(w, e) && w != []
    ensures StartsExpression(w[0].kind)
  {
    hide DerivesBinary;
    if DerivesBinary(TOP, w, e) {
      BinaryFirst(TOP, w, e);
    }
  }

  lemma {:induction false} BinaryFirst(k: nat, w: Tokens, e: Expr)
    requires 1 <= k <= TOP && DerivesBinary(k, w, e) && w != []
    ensures StartsExpression(w[0].kind)
    decreases |w|, k
  {
    if k > 1 {
      if DerivesBinary(k - 1, w, e) {
        BinaryFirst(k - 1, w, e);
      } else {
        var i :| 0 <= i < |w| && w[i].kind == e.op && DerivesBinary(k, w[..i], e.left) &&
            DerivesBinary(k - 1, w[i + 1..], e.right);
        if i > 0 {
          BinaryFirst(k, w[..i], e.left);
        }
      }
    } else {
      UnaryStart(w, e);
    }
  }

  /** Which operator binds tighter: of two operators between three operands, the first one is read as
      the operand of the second if its level is not looser, and otherwise the other way round. */
  lemma TwoOperators(i: nat, j: nat, u: Tokens, p: Token, v: Tokens, q: Token, w: Tokens, a: Expr, b: Expr, c: Expr,
                     rest: Tokens)
    requires InLevel(i, p.kind) && InLevel(j, q.kind) && DerivesUnary(u, a) && DerivesUnary(v, b) && DerivesUnary(w, c)
    requires rest != [] && Follows(TOP + 1, c, rest[0])
    requires !HasEmpty(a) && !HasEmpty(b)
    ensures var e := if i <= j then Bin(q.kind, Bin(p.kind, a, b), c) else Bin(p.kind, a, Bin(q.kind, b, c));
            Expression(u + [p] + v + [q] + w + rest) == Some(Parsed(e, rest))
  {
    hide DerivesUnary, DerivesBinary, Derives, Expression, Follows, InLevel;
    var all := u + [p] + v + [q] + w;
    if i <= j {
      GroupedLeft(i, j, u, p, v, q, w, a, b, c);
      FollowsOperand(q.kind, Bin(p.kind, a, b), c, rest[0]);
      ExpressionReads(all, Bin(q.kind, Bin(p.kind, a, b), c), rest);
    } else {
      GroupedRight(i, j, u, p, v, q, w, a, b, c);
      FollowsOperand(q.kind, b, c, rest[0]);
      FollowsOperand(p.kind, a, Bin(q.kind, b, c), rest[0]);
      ExpressionReads(all, Bin(p.kind, a, Bin(q.kind, b, c)), rest);
    }
  }

  lemma GroupedLeft(i: nat, j: nat, u: Tokens, p: Token, v: Tokens, q: Token, w: Tokens, a: Expr, b: Expr, c: Expr)
    requires InLevel(i, p.kind) && InLevel(j, q.kind) && i <= j
    requires DerivesUnary(u, a) && DerivesUnary(v, b) && DerivesUnary(w, c)
    ensures Derives(u + [p] + v + [q] + w, Bin(q.kind, Bin(p.kind, a, b), c))
  {
    LevelBounds(i, p.kind);
    LevelBounds(j, q.kind);
    hide DerivesUnary, DerivesBinary, Derives, InLevel;
    UnaryIsBinary(i, u, a);
    UnaryIsBinary(i - 1, v, b);
    UnaryIsBinary(j - 1, w, c);
    OperatorRule(i, u, p, v, a, b);
    Weaken(i, j, u + [p] + v, Bin(p.kind, a, b));
    OperatorRule(j, u + [p] + v, q, w, Bin(p.kind, a, b), c);
    BinaryIsExpression(j, u + [p] + v + [q] + w, Bin(q.kind, Bin(p.kind, a, b), c));
  }

  lemma GroupedRight(i: nat, j: nat, u: Tokens, p: Token, v: Tokens, q: Token, w: Tokens, a: Expr, b: Expr, c: Expr)
    requires InLevel(i, p.kind) && InLevel(j, q.kind) && i > j
    requires DerivesUnary(u, a) && DerivesUnary(v, b) && DerivesUnary(w, c)
    ensures Derives(u + [p] + v + [q] + w, Bin(p.kind, a, Bin(q.kind, b, c)))
  {
    LevelBounds(i, p.kind);
    LevelBounds(j, q.kind);
    hide DerivesUnary, DerivesBinary, Derives, InLevel;
    UnaryIsBinary(j, v, b);
    UnaryIsBinary(j - 1, w, c);
    UnaryIsBinary(i, u, a);
    OperatorRule(j, v, q, w, b, c);
    Weaken(j, i - 1, v + [q] + w, Bin(q.kind, b, c));
    OperatorRule(i, u, p, v + [q] + w, a, Bin(q.kind, b, c));
    assert u + [p] + (v + [q] + w) == u + [p] + v + [q] + w;
    BinaryIsExpression(i, u + [p] + v + [q] + w, Bin(p.kind, a, Bin(q.kind, b, c)));
  }

  lemma LevelBounds(k: nat, o: Kind)
    requires InLevel(k, o)
    ensures 2 <= k <= TOP
  {
  }

  lemma FollowsOperand(o: Kind, l: Expr, r: Expr, t: Token)
    requires Follows(TOP + 1, r, t) && !HasEmpty(l)
    ensures Follows(TOP + 1, Bin(o, l, r), t)
  {
  }

  lemma BinaryIsExpression(k: nat, w: Tokens, e: Expr)
    requires 1 <= k <= TOP && DerivesBinary(k, w, e)
    ensures Derives(w, e)
  {
    hide DerivesBinary;
    Weaken(k, TOP, w, e);
  }

  lemma UnaryIsBinary(k: nat, w: Tokens, e: Expr)
    requires 1 <= k <= TOP && DerivesUnary(w, e)
    ensures DerivesBinary(k, w, e)
  {
    hide DerivesUnary;
    assert DerivesBinary(1, w, e);
    Weaken(1, k, w, e);
  }

  /** No string derives two trees. */
  lemma Unambiguous(w: Tokens, e: Expr, e': Expr)
    requires Derives(w, e) && Derives(w, e')
    ensures e == e'
  {
    var end := [Token(SEMICOLON, ";")];
    ExpressionReads(w, e, end);
    ExpressionReads(w, e', end);
  }
}
