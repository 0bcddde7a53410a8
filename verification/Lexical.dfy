/** What the lexer makes of a text: one token at a time by longest match. */
module Lexical {
  import opened Options
  import opened Syntax
  import opened Decimal

  const NUL: char := '\0'

  predicate IsIdentStart(c: char) {
    'A' <= c <= 'Z' || 'a' <= c <= 'z' || c == '_'
  }

  predicate IsIdentChar(c: char) {
    IsIdentStart(c) || IsDigit(c)
  }

  predicate IsBlank(c: char) {
    c == ' ' || c == '\n' || c == '\t'
  }

  /** The kind of a word. */
  function WordKind(w: string): Kind {
    if w == "int" || w == "void" then TYPE
    else if w == "return" then RETURN
    else if w == "if" then IF
    else if w == "else" then ELSE
    else if w == "enum" then ENUM
    else if w == "while" then WHILE
    else if w == "for" then FOR
    else IDENT
  }

  /** Operators of one character that do not start a longer one. */
  function Single(c: char): Option<Kind> {
    match c
    case '+' => Some(ADD)
    case '-' => Some(SUB)
    case '*' => Some(MULT)
    case ';' => Some(SEMICOLON)
    case '(' => Some(LPAREN)
    case ')' => Some(RPAREN)
    case '{' => Some(LBRACE)
    case '}' => Some(RBRACE)
    case '^' => Some(XOR)
    case ',' => Some(COMMA)
    case _ => None
  }

  /** Operators after which the lexer looks at the next character. */
  function Half(c: char): Option<Kind> {
    match c
    case '/' => Some(DIV)
    case '&' => Some(AND)
    case '|' => Some(OR)
    case '=' => Some(ASSIGN)
    case '!' => Some(NOT)
    case '<' => Some(LT)
    case '>' => Some(GT)
    case _ => None
  }

  function Double(c: char, d: char): Option<Kind> {
    if c == '&' && d == '&' then Some(LOG_AND)
    else if c == '|' && d == '|' then Some(LOG_OR)
    else if c == '=' && d == '=' then Some(EQUAL)
    else if c == '!' && d == '=' then Some(NOT_EQUAL)
    else if c == '<' && d == '<' then Some(LSHIFT)
    else if c == '<' && d == '=' then Some(LT_EQ)
    else if c == '>' && d == '>' then Some(RSHIFT)
    else if c == '>' && d == '=' then Some(GT_EQ)
    else None
  }

  /** The longest prefix of identifier characters. */
  function Word(s: string): (w: string)
    ensures w <= s && (forall i :: 0 <= i < |w| ==> IsIdentChar(w[i])) && (|w| < |s| ==> !IsIdentChar(s[|w|]))
  {
    if s == [] || !IsIdentChar(s[0]) then [] else [s[0]] + Word(s[1..])
  }

  /** A number or a word puts the character after it back, unless that is NUL. */
  function PutBack(s: string): (r: string)
    ensures |r| <= |s|
  {
    if s != [] && s[0] == NUL then s[1..] else s
  }

  /** The text after a comment, which must end with a line. */
  function CommentEnd(s: string): (r: Option<string>)
    ensures r.Some? ==> |r.value| < |s|
  {
    if s == [] || s[0] == NUL then None else if s[0] == '\n' then Some(s[1..]) else CommentEnd(s[1..])
  }

  /** One iteration of the lexer. `Stuck` leaves it where it was; `Unset` is a token that overflows
      an int or is left without a type by a comment that has no end. */
  datatype Step = Push(t: Token, rest: string) | Skip(rest: string) | Stuck | Unexpected | Unset

  function Operator(s: string): Step
    requires s != [] && Half(s[0]).Some?
  {
    if |s| == 1 then Stuck
    else if s[0] == '/' && s[1] == '/' then
      var r := CommentEnd(s[2..]);
      if r.None? then Unset else Skip(r.value)
    else
      var k := Double(s[0], s[1]);
      if k.Some? then Push(Mark(k.value), s[2..]) else Push(Mark(Half(s[0]).value), s[1..])
  }

  function Number(s: string): (r: Step)
    requires s != [] && IsDigit(s[0])
    ensures r.Push? || r.Unset?
  {
    var ds := Digits(s);
    if Value(ds) > INT_MAX then Unset else Push(Token(NUM, Print(Value(ds))), PutBack(s[|ds|..]))
  }

  function Identifier(s: string): Step {
    var w := Word(s);
    Push(Token(WordKind(w), w), PutBack(s[|w|..]))
  }

  function Next(s: string): (r: Step)
    requires s != [] && s[0] != NUL
    ensures (r.Push? || r.Skip?) ==> |r.rest| < |s|
  {
    var c := s[0];
    if Single(c).Some? then Push(Mark(Single(c).value), s[1..])
    else if Half(c).Some? then Operator(s)
    else if IsBlank(c) then Skip(s[1..])
    else if IsDigit(c) then Number(s)
    else if IsIdentStart(c) then Identifier(s)
    else Unexpected
  }

  /** The tokens; or an exit, no end, or a token without a defined value. */
  datatype Outcome = Tokens(tokens: seq<Token>) | Exit | Forever | Undefined

  function Before(t: Token, o: Outcome): Outcome {
    if o.Tokens? then Tokens([t] + o.tokens) else o
  }

  function Scan(s: string): Outcome
    decreases |s|
  {
    if s == [] || s[0] == NUL then Tokens([]) else
    match Next(s)
    case Push(t, rest) => Before(t, Scan(rest))
    case Skip(rest) => Scan(rest)
    case Stuck => Forever
    case Unexpected => Exit
    case Unset => Undefined
  }

  // ----- progress -----

  const HALVES: string := "/&|=!<>"

  /** An iteration makes no progress exactly at a last character that could start a longer operator:
      reading beyond the end does not advance, and putting back steps back all the same. */
  lemma StuckIff(s: string)
    requires s != [] && s[0] != NUL
    ensures Next(s).Stuck? <==> |s| == 1 && s[0] in HALVES
  {
    hide Digits, Word, CommentEnd, Print, Value;
  }

  lemma {:induction false} ForeverEnds(s: string)
    requires Scan(s).Forever?
    ensures s != [] && s[|s| - 1] in HALVES
    decreases |s|
  {
    hide Next;
    if Next(s).Stuck? {
      StuckIff(s);
    } else {
      RestIsSuffix(s);
      ForeverEnds(Next(s).rest);
    }
  }

  lemma RestIsSuffix(s: string)
    requires s != [] && s[0] != NUL && (Next(s).Push? || Next(s).Skip?)
    ensures Next(s).rest == s[|s| - |Next(s).rest|..]
  {
    hide Operator, Number, Identifier;
    if Half(s[0]).Some? {
      OperatorIsSuffix(s);
    } else if IsDigit(s[0]) {
      NumberIsSuffix(s);
    } else if IsIdentStart(s[0]) {
      WordIsSuffix(s);
    }
  }

  lemma OperatorIsSuffix(s: string)
    requires s != [] && Half(s[0]).Some? && (Operator(s).Push? || Operator(s).Skip?)
    ensures Operator(s).rest == s[|s| - |Operator(s).rest|..]
  {
    if s[0] == '/' && s[1] == '/' {
      CommentIsSuffix(s[2..]);
    }
  }

  lemma NumberIsSuffix(s: string)
    requires s != [] && IsDigit(s[0]) && Number(s).Push?
    ensures Number(s).rest == s[|s| - |Number(s).rest|..]
  {
    hide Digits, Print, Value;
  }

  lemma WordIsSuffix(s: string)
    ensures Identifier(s).Push? && Identifier(s).rest == s[|s| - |Identifier(s).rest|..]
  {
    hide Word, WordKind;
  }

  lemma {:induction false} CommentIsSuffix(s: string)
    requires CommentEnd(s).Some?
    ensures CommentEnd(s).value == s[|s| - |CommentEnd(s).value|..]
  {
    if s[0] != '\n' {
      CommentIsSuffix(s[1..]);
    }
  }

  /** The lexer comes to an end on every text that does not end with one of / & | = ! < >. */
  lemma ComesToAnEnd(s: string)
    requires s == [] || s[|s| - 1] !in HALVES
    ensures !Scan(s).Forever?
  {
    if Scan(s).Forever? {
      ForeverEnds(s);
    }
  }

  // ----- a line feed separates -----

  /** After whole lines, what follows is lexed as if it stood alone. */
  lemma {:induction false} LinesThen(u: string, v: string)
    requires u == [] || u[|u| - 1] == '\n'
    requires Scan(u).Tokens? && NUL !in u
    ensures Scan(u + v) == if Scan(v).Tokens? then Tokens(Scan(u).tokens + Scan(v).tokens) else Scan(v)
    decreases |u|
  {
    hide Next;
    if u == [] {
      assert u + v == v;
      if Scan(v).Tokens? {
        assert [] + Scan(v).tokens == Scan(v).tokens;
      }
    } else {
      NextInLine(u, v);
      RestIsSuffix(u);
      var rest := Next(u).rest;
      assert rest == [] || rest[|rest| - 1] == '\n';
      assert NUL !in rest;
      LinesThen(rest, v);
      if Next(u).Push? && Scan(v).Tokens? {
        assert [Next(u).t] + (Scan(rest).tokens + Scan(v).tokens) == [Next(u).t] + Scan(rest).tokens + Scan(v).tokens;
      }
    }
  }

  /** A token does not extend over the end of a line. */
  lemma NextInLine(u: string, v: string)
    requires u != [] && u[|u| - 1] == '\n' && u[0] != NUL && NUL !in u && (Next(u).Push? || Next(u).Skip?)
    ensures var n := Next(u + v); (n == Next(u).(rest := Next(u).rest + v))
  {
    hide Operator, Number, Identifier;
    var c := u[0];
    assert (u + v)[1..] == u[1..] + v;
    if Half(c).Some? {
      OperatorInLine(u, v);
    } else if IsDigit(c) {
      NumberInLine(u, v);
    } else if IsIdentStart(c) {
      WordInLine(u, v);
    }
  }

  lemma OperatorInLine(u: string, v: string)
    requires u != [] && u[|u| - 1] == '\n' && Half(u[0]).Some? && (Operator(u).Push? || Operator(u).Skip?)
    ensures Operator(u + v) == Operator(u).(rest := Operator(u).rest + v)
  {
    assert |u| >= 2;
    assert (u + v)[1..] == u[1..] + v && (u + v)[2..] == u[2..] + v;
    if u[0] == '/' && u[1] == '/' {
      CommentThen(u[2..], v);
    }
  }

  lemma {:induction false} CommentThen(s: string, v: string)
    requires CommentEnd(s).Some?
    ensures CommentEnd(s + v) == Some(CommentEnd(s).value + v)
  {
    assert (s + v)[1..] == s[1..] + v;
    if s[0] != '\n' {
      CommentThen(s[1..], v);
    }
  }

  lemma {:induction false} DigitsThen(s: string, v: string)
    requires |Digits(s)| < |s|
    ensures Digits(s + v) == Digits(s)
  {
    if IsDigit(s[0]) {
      assert (s + v)[1..] == s[1..] + v;
      DigitsThen(s[1..], v);
    }
  }

  lemma {:induction false} WordThen(s: string, v: string)
    requires |Word(s)| < |s|
    ensures Word(s + v) == Word(s)
  {
    if IsIdentChar(s[0]) {
      assert (s + v)[1..] == s[1..] + v;
      WordThen(s[1..], v);
    }
  }

  lemma NumberInLine(u: string, v: string)
    requires u != [] && u[|u| - 1] == '\n' && NUL !in u && IsDigit(u[0]) && Number(u).Push?
    ensures Number(u + v) == Number(u).(rest := Number(u).rest + v)
  {
    hide Print, Value;
    var ds := Digits(u);
    assert |ds| == |u| ==> ds == u;
    DigitsThen(u, v);
    assert (u + v)[|ds|..] == u[|ds|..] + v;
  }

  lemma WordInLine(u: string, v: string)
    requires u != [] && u[|u| - 1] == '\n' && NUL !in u
    ensures Identifier(u).Push? && Identifier(u + v) == Identifier(u).(rest := Identifier(u).rest + v)
  {
    hide WordKind;
    var w := Word(u);
    assert |w| == |u| ==> w == u;
    WordThen(u, v);
    assert (u + v)[|w|..] == u[|w|..] + v;
  }

  // ----- one more character -----

  /** A character of HALVES at the end of a text leaves the steps before it as they are. */
  lemma NextThenHalf(u: string, c: char)
    requires u != [] && NUL !in u && c in HALVES && !Next(u).Stuck?
    ensures var n, n' := Next(u), Next(u + [c]);
            n' == if n.Push? || n.Skip? then n.(rest := n.rest + [c]) else n
  {
    hide Operator, Number, Identifier;
    assert (u + [c])[1..] == u[1..] + [c];
    if Half(u[0]).Some? {
      OperatorThenHalf(u, c);
    } else if IsDigit(u[0]) {
      NumberThenHalf(u, c);
    } else if IsIdentStart(u[0]) {
      IdentifierThenHalf(u, c);
    }
  }

  lemma NumberThenHalf(u: string, c: char)
    requires u != [] && IsDigit(u[0]) && NUL !in u && c in HALVES
    ensures var n, n' := Number(u), Number(u + [c]); n' == if n.Push? then n.(rest := n.rest + [c]) else n
  {
    hide Digits, Print, Value;
    DigitsThenHalf(u, c);
    assert (u + [c])[|Digits(u)|..] == u[|Digits(u)|..] + [c];
  }

  lemma IdentifierThenHalf(u: string, c: char)
    requires u != [] && NUL !in u && c in HALVES
    ensures var n := Identifier(u); n.Push? && Identifier(u + [c]) == n.(rest := n.rest + [c])
  {
    hide Word, WordKind;
    WordThenHalf(u, c);
    assert (u + [c])[|Word(u)|..] == u[|Word(u)|..] + [c];
  }

  lemma OperatorThenHalf(u: string, c: char)
    requires u != [] && Half(u[0]).Some? && NUL !in u && c in HALVES && !Operator(u).Stuck?
    ensures var n, n' := Operator(u), Operator(u + [c]);
            n' == if n.Push? || n.Skip? then n.(rest := n.rest + [c]) else n
  {
    assert |u| >= 2;
    assert (u + [c])[1..] == u[1..] + [c] && (u + [c])[2..] == u[2..] + [c];
    if u[0] == '/' && u[1] == '/' {
      CommentThenHalf(u[2..], c);
    }
  }

  lemma {:induction false} CommentThenHalf(s: string, c: char)
    requires NUL !in s && c in HALVES
    ensures var r, r' := CommentEnd(s), CommentEnd(s + [c]); r' == if r.Some? then Some(r.value + [c]) else None
  {
    if s == [] {
      assert [c][1..] == [];
    } else {
      assert (s + [c])[1..] == s[1..] + [c];
      if s[0] != '\n' {
        CommentThenHalf(s[1..], c);
      }
    }
  }

  lemma {:induction false} DigitsThenHalf(s: string, c: char)
    requires c in HALVES
    ensures Digits(s + [c]) == Digits(s)
  {
    if s != [] && IsDigit(s[0]) {
      assert (s + [c])[1..] == s[1..] + [c];
      DigitsThenHalf(s[1..], c);
    }
  }

  lemma {:induction false} WordThenHalf(s: string, c: char)
    requires c in HALVES
    ensures Word(s + [c]) == Word(s)
  {
    if s != [] && IsIdentChar(s[0]) {
      assert (s + [c])[1..] == s[1..] + [c];
      WordThenHalf(s[1..], c);
    }
  }

  /** The two characters make one operator, or start a comment. */
  predicate Joined(h: char, c: char) {
    Double(h, c).Some? || (h == '/' && c == '/')
  }

  /** A last character keeps the lexer going forever if and only if it could start a longer operator
      and is read on its own: the text before it is lexed to its end, or it would itself keep the lexer
      going and its last character does not make one operator, or start a comment, with this one. */
  lemma {:induction false} LastCharacterIff(u: string, c: char)
    requires NUL !in u
    ensures Scan(u + [c]).Forever? <==>
              c in HALVES && (Scan(u).Tokens? || (Scan(u).Forever? && !Joined(u[|u| - 1], c)))
    decreases |u|
  {
    hide Next, Double;
    if c !in HALVES {
      ComesToAnEnd(u + [c]);
    } else if u == [] {
      StuckIff([c]);
      assert [] + [c] == [c];
    } else if Next(u).Stuck? {
      StuckIff(u);
      TwoHalves(u[0], c);
      assert u + [c] == [u[0], c];
    } else {
      NextThenHalf(u, c);
      if Next(u).Push? || Next(u).Skip? {
        RestIsSuffix(u);
        LastCharacterIff(Next(u).rest, c);
      }
    }
  }

  /** So the lexer does not come to an end on a text of two such characters unless they are joined. */
  lemma TwoHalves(h: char, c: char)
    requires h in HALVES && c in HALVES
    ensures Scan([h, c]).Forever? <==> !Joined(h, c)
  {
    hide Double;
    assert [h, c][1..] == [c] && [h, c][2..] == [];
    StuckIff([c]);
    assert CommentEnd([]).None?;
    assert Next([h, c]) == Operator([h, c]);
  }
}
