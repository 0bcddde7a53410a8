/** Whatever the expression parser accepts, the grammar derives: the tokens it consumed, completed
    by closing parentheses if it ran into the end of the stream, derive exactly the tree it built. */
module ParserSound {
  import opened Options
  import opened Syntax
  import opened Decimal
  import opened Parser
  import opened Grammar

  const CLOSE: Token := Token(RPAREN, ")")

  /** ts is w followed by rest; c are closing parentheses missing at the end of the stream. */
  ghost predicate Consumed(ts: Tokens, w: Tokens, c: Tokens, rest: Tokens) {
    && ts == w + rest
    && (c != [] ==> rest == [])
    && forall t :: t in c ==> t == CLOSE
  }

  lemma ClosePart(ts: Tokens, w: Tokens, c: Tokens, rest: Tokens, rest': Tokens)
      returns (w': Tokens, c': Tokens, b: Token)
    requires Consumed(ts, w, c, rest) && Expect(rest, RPAREN) == Some(rest')
    ensures Consumed(ts, w', c', rest') && b.kind == RPAREN && w' + c' == w + c + [b]
  {
    if rest == [] {
      w', c', b := w, c + [CLOSE], CLOSE;
    } else {
      w', c', b := w + [rest[0]], [], rest[0];
      assert ts == w' + rest';
    }
  }

  /** Tokens before a consumed part. */
  lemma Prefixed(p: Tokens, ts: Tokens, w: Tokens, c: Tokens, rest: Tokens)
    requires Consumed(ts, w, c, rest)
    ensures Consumed(p + ts, p + w, c, rest) && p + w + c == p + (w + c)
  {
    assert p + ts == p + w + rest;
  }

  lemma {:induction false} PrimarySound(ts: Tokens) returns (w: Tokens, c: Tokens)
    requires Primary(ts).Some?
    ensures Consumed(ts, w, c, Primary(ts).value.rest) && DerivesPrimary(w + c, Primary(ts).value.value)
    decreases |ts|, 0
  {
    hide Derives, DerivesArgs, Expression, Arguments, ToInt;
    var r := Primary(ts).value;
    if At(ts, IDENT) && ts[1].kind == LPAREN {
      w, c := CallSound(ts);
    } else if At(ts, LPAREN) {
      w, c := ParenSound(ts);
    } else {
      w, c := ts[..|ts| - |r.rest|], [];
      assert ts == w + r.rest && w + c == w;
    }
  }

  lemma CallSound(ts: Tokens) returns (w: Tokens, c: Tokens)
    requires Primary(ts).Some? && At(ts, IDENT) && ts[1].kind == LPAREN
    ensures Consumed(ts, w, c, Primary(ts).value.rest) && DerivesPrimary(w + c, Primary(ts).value.value)
    decreases |ts| - 1, 0
  {
    hide DerivesPrimary, DerivesArgs, Arguments;
    var args := Arguments(ts[2..]).value;
    var u := ArgumentsSound(ts[2..]);
    Prefixed(ts[..2], ts[2..], u, [], args.rest);
    assert ts == ts[..2] + ts[2..];
    var b;
    w, c, b := ClosePart(ts, ts[..2] + u, [], args.rest, Primary(ts).value.rest);
    assert w + c == [ts[0], ts[1]] + u + [b];
    CallRule(ts[0], ts[1], u, b, args.value);
  }

  lemma ParenSound(ts: Tokens) returns (w: Tokens, c: Tokens)
    requires Primary(ts).Some? && At(ts, LPAREN)
    ensures Consumed(ts, w, c, Primary(ts).value.rest) && DerivesPrimary(w + c, Primary(ts).value.value)
    decreases |ts| - 1, 2 * TOP + 2
  {
    hide DerivesPrimary, Derives, Expression;
    var e := Expression(ts[1..]).value;
    var u, d := ExpressionSound(ts[1..]);
    Prefixed([ts[0]], ts[1..], u, d, e.rest);
    assert ts == [ts[0]] + ts[1..];
    var b;
    w, c, b := ClosePart(ts, [ts[0]] + u, d, e.rest, Primary(ts).value.rest);
    assert w + c == [ts[0]] + (u + d) + [b];
    ParenRule(ts[0], u + d, b, e.value);
  }

  lemma {:induction false} UnarySound(ts: Tokens) returns (w: Tokens, c: Tokens)
    requires UnaryExpr(ts).Some?
    ensures Consumed(ts, w, c, UnaryExpr(ts).value.rest) && DerivesUnary(w + c, UnaryExpr(ts).value.value)
    decreases |ts|, 1
  {
    hide DerivesPrimary, Primary;
    if ts[0].kind == NOT {
      var u, d := PrimarySound(ts[1..]);
      Prefixed([ts[0]], ts[1..], u, d, UnaryExpr(ts).value.rest);
      assert ts == [ts[0]] + ts[1..];
      w, c := [ts[0]] + u, d;
      NotRule(ts[0], u + d, UnaryExpr(ts).value.value.e);
    } else {
      w, c := PrimarySound(ts);
    }
  }

  lemma {:induction false} BinarySound(k: nat, ts: Tokens) returns (w: Tokens, c: Tokens)
    requires 1 <= k <= TOP && Binary(k, ts).Some?
    ensures Consumed(ts, w, c, Binary(k, ts).value.rest) && DerivesBinary(k, w + c, Binary(k, ts).value.value)
    decreases |ts|, 2 * k
  {
    hide Operators, UnaryExpr, DerivesUnary;
    if k == 1 {
      w, c := UnarySound(ts);
    } else {
      var left := Binary(k - 1, ts).value;
      w, c := BinarySound(k - 1, ts);
      w, c := OperatorsSound(k, ts, w, c, left.value, left.rest);
    }
  }

  /** The loop extends what has been consumed so far. */
  lemma {:induction false} OperatorsSound(k: nat, ts: Tokens, u: Tokens, d: Tokens, left: Expr, ts1: Tokens)
      returns (w: Tokens, c: Tokens)
    requires 2 <= k <= TOP && Operators(k, left, ts1).Some?
    requires Consumed(ts, u, d, ts1) && DerivesBinary(k, u + d, left)
    ensures Consumed(ts, w, c, Operators(k, left, ts1).value.rest) &&
            DerivesBinary(k, w + c, Operators(k, left, ts1).value.value)
    decreases |ts1|, 2 * k - 1
  {
    hide DerivesBinary;
    if ts1 == [] || Level(ts1[0].kind) != k {
      w, c := u, d;
    } else {
      var right := Binary(k - 1, ts1[1..]).value;
      var v, f := BinarySound(k - 1, ts1[1..]);
      assert d == [] && u + d == u;
      OperatorRule(k, u, ts1[0], v + f, left, right.value);
      assert u + [ts1[0]] + (v + f) == u + [ts1[0]] + v + f;
      assert ts == u + [ts1[0]] + v + right.rest;
      w, c := OperatorsSound(k, ts, u + [ts1[0]] + v, f, Bin(ts1[0].kind, left, right.value), right.rest);
    }
  }

  lemma {:induction false} ExpressionSound(ts: Tokens) returns (w: Tokens, c: Tokens)
    requires Expression(ts).Some?
    ensures Consumed(ts, w, c, Expression(ts).value.rest) && Derives(w + c, Expression(ts).value.value)
    decreases |ts|, 2 * TOP + 1
  {
    hide DerivesBinary, Binary;
    if ts[0].kind == IDENT && ts[1].kind == ASSIGN {
      var e := Expression(ts[2..]).value;
      var u, d := ExpressionSound(ts[2..]);
      Prefixed(ts[..2], ts[2..], u, d, e.rest);
      assert ts == ts[..2] + ts[2..];
      w, c := ts[..2] + u, d;
      assert ts[..2] == [ts[0], ts[1]];
      AssignRule(ts[0], ts[1], u + d, e.value);
    } else {
      w, c := BinarySound(TOP, ts);
    }
  }

  /** Arguments end at a parenthesis, so nothing is missing. */
  lemma {:induction false} ArgumentsSound(ts: Tokens) returns (w: Tokens)
    requires Arguments(ts).Some?
    ensures Consumed(ts, w, [], Arguments(ts).value.rest) && DerivesArgs(w, Arguments(ts).value.value)
    decreases |ts|, 2 * TOP + 2
  {
    hide Derives, DerivesArgs, Expression;
    if ts[0].kind == RPAREN {
      w := [];
      NoArguments();
    } else {
      var e := Expression(ts).value;
      var u, d := ExpressionSound(ts);
      assert u + [] == u;
      if e.rest[0].kind == RPAREN {
        w := u;
        OneArgument(ts, u, e.rest, e.value);
      } else {
        var v := ArgumentsSound(e.rest[1..]);
        w := u + [e.rest[0]] + v;
        CommaPart(ts, u, e.rest, v, Arguments(e.rest[1..]).value.rest);
        CommaRule(u, e.rest[0], v, e.value, Arguments(e.rest[1..]).value.value);
      }
    }
  }

  lemma NoArguments()
    ensures DerivesArgs([], [])
  {
  }

  lemma OneArgument(ts: Tokens, u: Tokens, rest: Tokens, e: Expr)
    requires ts == u + rest && ts != rest && Derives(u, e)
    ensures DerivesArgs(u, [e])
  {
    hide Derives;
  }

  lemma CommaPart(ts: Tokens, u: Tokens, ts1: Tokens, v: Tokens, rest: Tokens)
    requires Consumed(ts, u, [], ts1) && ts1 != [] && Consumed(ts1[1..], v, [], rest)
    ensures Consumed(ts, u + [ts1[0]] + v, [], rest)
  {
    assert ts == u + [ts1[0]] + v + rest;
  }

  /** A parse that stops before the end of the stream consumed a string of the grammar. */
  lemma ExpressionDerives(ts: Tokens)
    requires Expression(ts).Some? && Expression(ts).value.rest != []
    ensures exists w :: ts == w + Expression(ts).value.rest && Derives(w, Expression(ts).value.value)
  {
    var w, c := ExpressionSound(ts);
    assert w + c == w;
  }
}
