/** The lexer as it runs, over an input with a cursor that `next` advances and `back` steps back. */
module LexerObject {
  import opened Options
  import opened Syntax
  import opened Decimal
  import opened Lexical
  import opened LexicalGrammar

  /** What an iteration of the main loop does with its token. */
  datatype Effect = Pushed(t: Token) | Dropped | Exits | HasNoValue

  class Lexer {
    const input: string
    var curr: nat

    ghost predicate Valid()
      reads this
    {
      curr <= |input|
    }

    ghost function Rest(): string
      requires Valid()
      reads this
    {
      input[curr..]
    }

    /** c is the character before the cursor, which starts s. */
    ghost predicate Started(c: char, s: string)
      reads this
    {
      Valid() && curr > 0 && s == input[curr - 1..] && s[0] == c
    }

    constructor (input: string)
      ensures Valid() && Rest() == input && this.input == input
    {
      this.input := input;
      curr := 0;
    }

    /** NUL at the end of the input, where the cursor stays. */
    method NextChar() returns (c: char)
      requires Valid()
      modifies this`curr
      ensures Valid()
      ensures if old(Rest()) == [] then c == NUL && curr == old(curr) else c == old(Rest())[0] && curr == old(curr) + 1
    {
      if curr >= |input| {
        return NUL;
      }
      c := input[curr];
      curr := curr + 1;
    }

    method Back()
      requires Valid() && curr > 0
      modifies this`curr
      ensures Valid() && curr == old(curr) - 1
    {
      curr := curr - 1;
    }

    /** The token of a number, or `None` if it overflows an int. */
    method TokenizeDigit(first: char, ghost s: string) returns (t: Option<Token>)
      requires Started(first, s) && IsDigit(first)
      modifies this`curr
      ensures Valid()
      ensures if t.Some? then Number(s) == Push(t.value, Rest()) else Number(s) == Unset
    {
      hide Value, Print, Digits;
      ghost var start := curr - 1;
      var c := first;
      var digit := 0;
      ghost var n := 0;
      ValueOfNothing();
      while c != NUL && IsDigit(c)
        invariant 0 <= n <= |s| && AllDigits(s[..n]) && digit == Value(s[..n])
        invariant Valid() && curr == (if n < |s| then start + n + 1 else |input|)
        invariant c == if n < |s| then s[n] else NUL
        decreases |s| - n
      {
        ValueOfMore(s[..n], c);
        assert s[..n] + [c] == s[..n + 1];
        digit := digit * 10 + DigitValue(c);
        c := NextChar();
        n := n + 1;
      }
      DigitsAre(s, n);
      if c != NUL {
        Back();
      }
      t := if digit > INT_MAX then None else Some(Token(NUM, Print(digit)));
    }

    method TokenizeIdent(first: char, ghost s: string) returns (t: Token)
      requires Started(first, s) && IsIdentChar(first)
      modifies this`curr
      ensures Valid() && Identifier(s) == Push(t, Rest())
    {
      hide WordKind, Word;
      ghost var start := curr - 1;
      var c := first;
      var ident: string := [];
      while c != NUL && IsIdentChar(c)
        invariant |ident| <= |s| && ident == s[..|ident|] && forall i :: 0 <= i < |ident| ==> IsIdentChar(s[i])
        invariant Valid() && curr == (if |ident| < |s| then start + |ident| + 1 else |input|)
        invariant c == if |ident| < |s| then s[|ident|] else NUL
        decreases |s| - |ident|
      {
        ident := ident + [c];
        c := NextChar();
      }
      WordIs(s, |ident|);
      if c != NUL {
        Back();
      }
      t := Token(WordKind(ident), ident);
    }

    /** A comment, whose first two characters have been read. */
    method SkipComment(ghost s: string) returns (r: Effect)
      requires Valid() && Rest() == s
      modifies this`curr
      ensures Valid()
      ensures if r.Dropped? then CommentEnd(s) == Some(Rest()) else r == HasNoValue && CommentEnd(s) == None
    {
      var peek := NextChar();
      ghost var rest := s;
      while peek != NUL && peek != '\n'
        invariant Valid() && CommentEnd(rest) == CommentEnd(s)
        invariant if rest == [] then peek == NUL && Rest() == [] else peek == rest[0] && Rest() == rest[1..]
        decreases |rest|
      {
        rest := rest[1..];
        peek := NextChar();
      }
      r := if peek == NUL then HasNoValue else Dropped;
    }

    /** An operator that may have two characters. At the end of the input the cursor steps back to
        before the operator. */
    method LexOperator(c: char, ghost s: string) returns (r: Effect)
      requires Started(c, s) && Half(c).Some?
      modifies this`curr
      ensures Valid()
      ensures match Operator(s)
              case Push(t, rest) => r == Pushed(t) && Rest() == rest
              case Skip(rest) => r == Dropped && Rest() == rest
              case Stuck => r == Pushed(Mark(Half(c).value)) && Rest() == s
              case _ => r == HasNoValue
    {
      hide CommentEnd, Spelling;
      var peek := NextChar();
      if c == '/' {
        if peek == '/' {
          r := SkipComment(s[2..]);
        } else {
          Back();
          r := Pushed(Mark(DIV));
        }
      } else if c == '&' {
        if peek != '&' {
          r := Pushed(Mark(AND));
          Back();
        } else {
          r := Pushed(Mark(LOG_AND));
        }
      } else if c == '|' {
        if peek != '|' {
          r := Pushed(Mark(OR));
          Back();
        } else {
          r := Pushed(Mark(LOG_OR));
        }
      } else if c == '=' {
        if peek == '=' {
          r := Pushed(Mark(EQUAL));
        } else {
          Back();
          r := Pushed(Mark(ASSIGN));
        }
      } else if c == '!' {
        if peek == '=' {
          r := Pushed(Mark(NOT_EQUAL));
        } else {
          Back();
          r := Pushed(Mark(NOT));
        }
      } else if c == '<' {
        if peek == '<' {
          r := Pushed(Mark(LSHIFT));
        } else if peek == '=' {
          r := Pushed(Mark(LT_EQ));
        } else {
          r := Pushed(Mark(LT));
          Back();
        }
      } else {
        if peek == '>' {
          r := Pushed(Mark(RSHIFT));
        } else if peek == '=' {
          r := Pushed(Mark(GT_EQ));
        } else {
          r := Pushed(Mark(GT));
          Back();
        }
      }
    }

    /** One iteration of the main loop, after c was read. */
    method Lex(c: char, ghost s: string) returns (r: Effect)
      requires Started(c, s) && c != NUL
      modifies this`curr
      ensures Valid()
      ensures match Next(s)
              case Push(t, rest) => r == Pushed(t) && Rest() == rest
              case Skip(rest) => r == Dropped && Rest() == rest
              case Stuck => r.Pushed? && Rest() == s
              case Unexpected => r == Exits
              case Unset => r == HasNoValue
    {
      hide Operator, Number, Identifier, Spelling;
      assert Rest() == s[1..];
      if Single(c).Some? {
        r := Pushed(Mark(Single(c).value));
      } else if Half(c).Some? {
        OperatorSteps(s);
        r := LexOperator(c, s);
      } else if IsBlank(c) {
        r := Dropped;
      } else if IsDigit(c) {
        var t := TokenizeDigit(c, s);
        r := if t.Some? then Pushed(t.value) else HasNoValue;
      } else if IsIdentStart(c) {
        var t := TokenizeIdent(c, s);
        r := Pushed(t);
      } else {
        r := Exits;
      }
    }

    /** All tokens, for a text on which the lexer comes to an end. */
    method Tokenize() returns (r: Outcome)
      requires Valid() && !Scan(Rest()).Forever?
      modifies this`curr
      ensures r == Scan(old(Rest()))
      ensures r.Tokens? && NUL !in old(Rest()) ==> Spells(old(Rest()), r.tokens)
    {
      hide Next, Spells;
      ghost var all := Rest();
      ghost var s := all;
      var vector: seq<Token> := [];
      var c := NextChar();
      AfterNothing(Scan(s));
      while c != NUL
        invariant Valid() && Scan(all) == After(vector, Scan(s)) && !Scan(s).Forever?
        invariant if s == [] then c == NUL else c == s[0] && Started(c, s)
        decreases |s|
      {
        ghost var n := Next(s);
        var e := Lex(c, s);
        if e.Exits? {
          return Exit;
        }
        if e.HasNoValue? {
          return Undefined;
        }
        if e.Pushed? {
          vector := vector + [e.t];
          AfterOne(vector, e.t, Scan(Rest()));
        }
        s := Rest();
        c := NextChar();
      }
      r := Tokens(vector);
      assert vector + [] == vector;
      if NUL !in all {
        ScansIff(all, vector);
      }
    }
  }

  /** An operator is pushed or skipped, stuck, or unset. */
  lemma OperatorSteps(s: string)
    requires s != [] && Half(s[0]).Some?
    ensures !Operator(s).Unexpected?
  {
  }

  lemma ValueOfNothing()
    ensures Value([]) == 0
  {
  }

  lemma ValueOfMore(w: string, c: char)
    requires AllDigits(w) && IsDigit(c)
    ensures AllDigits(w + [c]) && Value(w + [c]) == 10 * Value(w) + DigitValue(c)
  {
    assert (w + [c])[..|w|] == w;
  }

  lemma {:induction false} DigitsAre(s: string, n: nat)
    requires n <= |s| && AllDigits(s[..n]) && (n < |s| ==> !IsDigit(s[n]))
    ensures Digits(s) == s[..n]
  {
    if n > 0 {
      assert s[1..][..n - 1] == s[..n][1..];
      assert IsDigit(s[..n][0]);
      DigitsAre(s[1..], n - 1);
      assert s[..n] == [s[0]] + s[..n][1..];
    }
  }

  lemma {:induction false} WordIs(s: string, n: nat)
    requires n <= |s| && (forall i :: 0 <= i < n ==> IsIdentChar(s[i])) && (n < |s| ==> !IsIdentChar(s[n]))
    ensures Word(s) == s[..n]
  {
    if n > 0 {
      WordIs(s[1..], n - 1);
    }
  }

  /** The outcome of what is still to come, after the tokens pushed so far. */
  ghost function After(ts: seq<Token>, o: Outcome): Outcome {
    if o.Tokens? then Tokens(ts + o.tokens) else o
  }

  lemma AfterNothing(o: Outcome)
    ensures After([], o) == o
  {
    if o.Tokens? {
      assert [] + o.tokens == o.tokens;
    }
  }

  lemma AfterOne(ts: seq<Token>, t: Token, o: Outcome)
    requires ts != [] && ts[|ts| - 1] == t
    ensures After(ts, o) == After(ts[..|ts| - 1], Before(t, o))
  {
    if o.Tokens? {
      assert ts + o.tokens == ts[..|ts| - 1] + ([t] + o.tokens);
    }
  }
}
