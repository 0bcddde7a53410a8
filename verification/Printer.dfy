/** Trees printed as tokens with as few parentheses as the grammar allows, and the round trips:
    parsing what was printed gives back the tree. */
module Printer {
  import opened Options
  import opened Syntax
  import opened Decimal
  import opened Parser
  import opened Grammar
  import opened ParserComplete

  const ANY: nat := TOP + 1

  /** The tightest level that an expression has without parentheses. */
  function LevelOf(e: Expr): nat {
    match e
    case Bin(op, _, _) => Level(op)
    case Unary(_, _) => 1
    case Assign(_, _) => ANY
    case _ => 0
  }

  /** Trees that have a text: literals are ints and operators are known. */
  predicate Printable(e: Expr) {
    match e
    case Empty => true
    case Num(n) => 0 <= n <= INT_MAX
    case Name(_) => true
    case Unary(op, e1) => op == NOT && Printable(e1)
    case Bin(op, l, r) => Level(op) >= 2 && Printable(l) && Printable(r)
    case Assign(_, e1) => Printable(e1)
    case Call(_, args) => PrintableArgs(args)
  }

  predicate PrintableArgs(args: seq<Expr>) {
    args == [] || (Printable(args[0]) && PrintableArgs(args[1..]))
  }

  /** The tokens of e where an expression of level k is expected. */
  function Show(k: nat, e: Expr): Tokens
    requires Printable(e)
    decreases e, 1
  {
    if LevelOf(e) <= k then ShowBare(e) else [Mark(LPAREN)] + ShowBare(e) + [Mark(RPAREN)]
  }

  function ShowBare(e: Expr): Tokens
    requires Printable(e)
    decreases e, 0
  {
    match e
    case Empty => []
    case Num(n) => [Token(NUM, Print(n))]
    case Name(x) => [Token(IDENT, x)]
    case Unary(op, e1) => [Mark(NOT)] + Show(0, e1)
    case Bin(op, l, r) => Show(Level(op), l) + [Mark(op)] + Show(Level(op) - 1, r)
    case Assign(x, e1) => [Token(IDENT, x), Mark(ASSIGN)] + Show(ANY, e1)
    case Call(f, args) => [Token(IDENT, f), Mark(LPAREN)] + ShowArgs(args) + [Mark(RPAREN)]
  }

  /** A comma after the last argument only where that is missing. */
  function ShowArgs(args: seq<Expr>): Tokens
    requires PrintableArgs(args)
    decreases args, 0
  {
    if args == [] then []
    else if |args| == 1 && args[0] != Empty then Show(ANY, args[0])
    else Show(ANY, args[0]) + [Mark(COMMA)] + ShowArgs(args[1..])
  }

  // ----- the grammar derives what is printed -----

  /** A string of level k: for level 0 a primary, for ANY an expression. */
  ghost predicate DerivesAt(k: nat, w: Tokens, e: Expr)
    requires k <= ANY
  {
    if k == 0 then DerivesPrimary(w, e) else if k == ANY then Derives(w, e) else DerivesBinary(k, w, e)
  }

  lemma Looser(j: nat, k: nat, w: Tokens, e: Expr)
    requires j <= k <= ANY && DerivesAt(j, w, e)
    ensures DerivesAt(k, w, e)
    decreases k - j
  {
    hide DerivesPrimary, DerivesBinary, Derives;
    if j == 0 && k > 0 {
      PrimaryIsUnary(w, e);
      Looser(1, k, w, e);
    } else if j < k < ANY {
      Weaken(j, k, w, e);
    } else if j < k {
      Weaken(j, TOP, w, e);
      BinaryIsExpression(w, e);
    }
  }

  lemma PrimaryIsUnary(w: Tokens, e: Expr)
    requires DerivesPrimary(w, e)
    ensures DerivesBinary(1, w, e)
  {
    hide DerivesPrimary;
  }

  lemma BinaryIsExpression(w: Tokens, e: Expr)
    requires DerivesBinary(TOP, w, e)
    ensures Derives(w, e)
  {
    hide DerivesBinary;
  }

  lemma LevelBound(e: Expr)
    requires Printable(e)
    ensures LevelOf(e) <= ANY
  {
  }

  lemma {:induction false} ShowDerives(k: nat, e: Expr)
    requires Printable(e) && k <= ANY
    ensures DerivesAt(k, Show(k, e), e)
    decreases e, 1
  {
    hide DerivesAt, ShowBare, Printable;
    LevelBound(e);
    BareDerives(e);
    if LevelOf(e) <= k {
      Looser(LevelOf(e), k, ShowBare(e), e);
    } else {
      Looser(LevelOf(e), ANY, ShowBare(e), e);
      Parenthesised(ShowBare(e), e);
      Looser(0, k, [Mark(LPAREN)] + ShowBare(e) + [Mark(RPAREN)], e);
    }
  }

  lemma Parenthesised(w: Tokens, e: Expr)
    requires DerivesAt(ANY, w, e)
    ensures DerivesAt(0, [Mark(LPAREN)] + w + [Mark(RPAREN)], e)
  {
    hide Derives, DerivesPrimary;
    ParenRule(Mark(LPAREN), w, Mark(RPAREN), e);
  }

  lemma {:induction false} BareDerives(e: Expr)
    requires Printable(e)
    ensures LevelOf(e) <= ANY && DerivesAt(LevelOf(e), ShowBare(e), e)
    decreases e, 0
  {
    hide Show, DerivesBinary, Derives, DerivesArgs, DerivesPrimary, ShowArgs;
    match e
    case Empty => NothingDerives();
    case Num(n) => NumberDerives(n);
    case Name(x) => NameDerives(x);
    case Unary(op, e1) =>
      ShowDerives(0, e1);
      NotDerives(Show(0, e1), e1);
    case Bin(op, l, r) =>
      ShowDerives(Level(op), l);
      ShowDerives(Level(op) - 1, r);
      OperatorRule(Level(op), Show(Level(op), l), Mark(op), Show(Level(op) - 1, r), l, r);
    case Assign(x, e1) =>
      ShowDerives(ANY, e1);
      AssignRule(Token(IDENT, x), Mark(ASSIGN), Show(ANY, e1), e1);
    case Call(f, args) =>
      ArgsDerive(args);
      CallRule(Token(IDENT, f), Mark(LPAREN), ShowArgs(args), Mark(RPAREN), args);
  }

  lemma NothingDerives()
    ensures DerivesPrimary([], Empty)
  {
  }

  lemma NumberDerives(n: nat)
    requires n <= INT_MAX
    ensures DerivesPrimary([Token(NUM, Print(n))], Num(n))
  {
    ValueOfPrint(n);
  }

  lemma NameDerives(x: string)
    ensures DerivesPrimary([Token(IDENT, x)], Name(x))
  {
  }

  lemma NotDerives(w: Tokens, e: Expr)
    requires DerivesPrimary(w, e)
    ensures DerivesBinary(1, [Mark(NOT)] + w, Unary(NOT, e))
  {
    hide DerivesPrimary;
    NotRule(Mark(NOT), w, e);
  }

  lemma {:induction false} ArgsDerive(args: seq<Expr>)
    requires PrintableArgs(args)
    ensures DerivesArgs(ShowArgs(args), args)
    decreases args, 2
  {
    hide Derives, DerivesArgs, Show, Printable;
    if args == [] {
      NoArgsDerive();
    } else {
      ShowDerives(ANY, args[0]);
      if |args| == 1 && args[0] != Empty {
        ShowSomething(ANY, args[0]);
        OneArgDerives(Show(ANY, args[0]), args[0]);
        assert args == [args[0]];
      } else {
        ArgsDerive(args[1..]);
        CommaRule(Show(ANY, args[0]), Mark(COMMA), ShowArgs(args[1..]), args[0], args[1..]);
        assert args == [args[0]] + args[1..];
      }
    }
  }

  lemma NoArgsDerive()
    ensures DerivesArgs([], [])
  {
  }

  lemma OneArgDerives(w: Tokens, e: Expr)
    requires Derives(w, e) && w != []
    ensures DerivesArgs(w, [e])
  {
    hide Derives;
  }

  lemma ShowSomething(k: nat, e: Expr)
    requires Printable(e) && e != Empty
    ensures Show(k, e) != []
  {
  }

  /** Printing an expression and parsing it with what follows gives it back, and what follows. */
  lemma ExpressionRoundTrip(e: Expr, rest: Tokens)
    requires Printable(e) && rest != [] && Follows(ANY, e, rest[0])
    ensures Expression(Show(ANY, e) + rest) == Some(Parsed(e, rest))
  {
    hide Derives, Show, Printable, Expression, Follows;
    ShowDerives(ANY, e);
    ExpressionReads(Show(ANY, e), e, rest);
  }

  // ----- as few parentheses as possible -----

  lemma {:induction false} FewestPrimary(w: Tokens, e: Expr)
    requires DerivesPrimary(w, e)
    ensures Printable(e) && |Show(0, e)| <= |w|
    decreases |w|, 0
  {
    hide Derives, DerivesArgs;
    if |w| >= 2 && w[0].kind == LPAREN {
      FewestExpression(w[1..|w| - 1], e);
      ParenthesesAdd(e);
    } else if |w| >= 2 {
      FewestArgs(w[2..|w| - 1], e.args);
    }
  }

  lemma ParenthesesAdd(e: Expr)
    requires Printable(e)
    ensures |Show(0, e)| <= |Show(ANY, e)| + 2
  {
  }

  lemma LooserIsShorter(j: nat, k: nat, e: Expr)
    requires Printable(e) && j <= k
    ensures |Show(k, e)| <= |Show(j, e)|
  {
  }

  lemma FewestUnary(w: Tokens, e: Expr)
    requires DerivesUnary(w, e)
    ensures Printable(e) && |Show(1, e)| <= |w|
    decreases |w|, 1
  {
    hide DerivesPrimary;
    if At(w, NOT) && e.Unary? && e.op == NOT && DerivesPrimary(w[1..], e.e) {
      FewestPrimary(w[1..], e.e);
    } else {
      FewestPrimary(w, e);
      LooserIsShorter(0, 1, e);
    }
  }

  lemma {:induction false} FewestBinary(k: nat, w: Tokens, e: Expr)
    requires 1 <= k <= TOP && DerivesBinary(k, w, e)
    ensures Printable(e) && |Show(k, e)| <= |w|
    decreases |w|, k + 1
  {
    hide DerivesUnary, Show, Printable;
    if k == 1 {
      FewestUnary(w, e);
    } else if DerivesBinary(k - 1, w, e) {
      FewestBinary(k - 1, w, e);
      LooserIsShorter(k - 1, k, e);
    } else {
      var i :| 0 <= i < |w| && w[i].kind == e.op && DerivesBinary(k, w[..i], e.left) &&
          DerivesBinary(k - 1, w[i + 1..], e.right);
      FewestBinary(k, w[..i], e.left);
      FewestBinary(k - 1, w[i + 1..], e.right);
      BinaryLength(k, e);
    }
  }

  lemma BinaryLength(k: nat, e: Expr)
    requires e.Bin? && Level(e.op) == k >= 2 && Printable(e.left) && Printable(e.right)
    ensures Printable(e) && |Show(k, e)| == |Show(k, e.left)| + 1 + |Show(k - 1, e.right)|
  {
  }

  lemma {:induction false} FewestExpression(w: Tokens, e: Expr)
    requires Derives(w, e)
    ensures Printable(e) && |Show(ANY, e)| <= |w|
    decreases |w|, TOP + 2
  {
    hide DerivesBinary;
    if DerivesBinary(TOP, w, e) {
      FewestBinary(TOP, w, e);
      LooserIsShorter(TOP, ANY, e);
    } else {
      FewestExpression(w[2..], e.e);
    }
  }

  lemma OneArgumentLength(args: seq<Expr>)
    requires |args| == 1 && Printable(args[0])
    ensures PrintableArgs(args) && |ShowArgs(args)| <= (if args[0] == Empty then 1 else |Show(ANY, args[0])|)
  {
  }

  lemma {:induction false} FewestArgs(w: Tokens, args: seq<Expr>)
    requires DerivesArgs(w, args)
    ensures PrintableArgs(args) && |ShowArgs(args)| <= |w|
    decreases |w|, TOP + 3
  {
    hide Derives, Show, Printable;
    if args != [] {
      if |args| == 1 && w != [] && Derives(w, args[0]) {
        FewestExpression(w, args[0]);
        OneArgumentLength(args);
      } else {
        var i :| 0 <= i < |w| && w[i].kind == COMMA && Derives(w[..i], args[0]) && DerivesArgs(w[i + 1..], args[1..]);
        FewestExpression(w[..i], args[0]);
        FewestArgs(w[i + 1..], args[1..]);
      }
    }
  }
}
