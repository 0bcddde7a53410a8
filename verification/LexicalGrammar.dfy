/** What the text of a token sequence is, said without the lexer: texts of tokens with blanks and comments
    between them. The lexer reads exactly these texts. */
module LexicalGrammar {
  import opened Options
  import opened Syntax
  import opened Decimal
  import opened Lexical

  // ----- the texts of tokens -----

  predicate Letter(c: char) {
    'a' <= c <= 'z' || 'A' <= c <= 'Z' || c == '_'
  }

  predicate DecimalDigit(c: char) {
    '0' <= c <= '9'
  }

  predicate LetterOrDigit(c: char) {
    Letter(c) || DecimalDigit(c)
  }

  predicate IsWord(w: string) {
    w != [] && Letter(w[0]) && forall i :: 0 <= i < |w| ==> LetterOrDigit(w[i])
  }

  predicate IsNumeral(w: string) {
    w != [] && forall i :: 0 <= i < |w| ==> DecimalDigit(w[i])
  }

  const KEYWORDS: map<string, Kind> :=
    map["int" := TYPE, "void" := TYPE, "return" := RETURN, "if" := IF, "else" := ELSE, "enum" := ENUM, "while" := WHILE,
        "for" := FOR]

  /** An operator or a punctuation mark. */
  predicate IsMark(k: Kind) {
    Spelling(k) != [] && !Letter(Spelling(k)[0])
  }

  /** w is a text of the token t: a word, a number that an int can hold, whose leading zeros are dropped, or
      a mark. */
  predicate Lexeme(w: string, t: Token) {
    || (IsWord(w) && t == Token(if w in KEYWORDS then KEYWORDS[w] else IDENT, w))
    || (IsNumeral(w) && Value(w) <= 2147483647 && t == Token(NUM, Print(Value(w))))
    || (IsMark(t.kind) && w == Spelling(t.kind) && t == Mark(t.kind))
  }

  /** Another mark, or a comment, starts with the mark w. */
  ghost predicate StartsLonger(w: string) {
    w == "/" || exists k :: IsMark(k) && w <= Spelling(k) && |w| < |Spelling(k)|
  }

  /** The token that starts with w ends there when v follows: a word not before a letter or a digit, a number
      not before a digit, and a mark not where a longer one, or a comment, is written. A mark that could be
      longer needs something to follow. */
  ghost predicate Ends(w: string, v: string)
    requires w != []
  {
    if Letter(w[0]) then v == [] || !LetterOrDigit(v[0])
    else if DecimalDigit(w[0]) then v == [] || !DecimalDigit(v[0])
    else if v == [] then !StartsLonger(w)
    else w + [v[0]] != "//" && forall k :: Spelling(k) != w + [v[0]]
  }

  /** A blank, or a comment with the end of its line. */
  predicate Gap(g: string) {
    || g == " " || g == "\t" || g == "\n"
    || (|g| >= 3 && g[0] == '/' && g[1] == '/' && g[|g| - 1] == '\n' && '\n' !in g[2..|g| - 1])
  }

  /** The text s consists of the texts of the tokens, in order, with gaps between, before and after them. */
  ghost predicate Spells(s: string, ts: seq<Token>)
    decreases |s|
  {
    if s == [] then ts == [] else
    || (exists n :: GapAt(s, n) && Spells(s[n..], ts))
    || (ts != [] && exists n :: LexemeAt(s, n, ts[0]) && Spells(s[n..], ts[1..]))
  }

  ghost predicate GapAt(s: string, n: int) {
    0 < n <= |s| && Gap(s[..n])
  }

  ghost predicate LexemeAt(s: string, n: int, t: Token) {
    0 < n <= |s| && Lexeme(s[..n], t) && Ends(s[..n], s[n..])
  }

  // ----- what the lexer knows of marks -----

  /** The lexer's tables and the spellings. */
  lemma MarksOf(k: Kind)
    requires IsMark(k)
    ensures var w := Spelling(k);
            && 1 <= |w| <= 2
            && (|w| == 1 ==> Single(w[0]) == Some(k) || (Single(w[0]).None? && Half(w[0]) == Some(k)))
            && (|w| == 2 ==> Single(w[0]).None? && Half(w[0]).Some? && Double(w[0], w[1]) == Some(k) && w[1] != '/')
  {
  }

  lemma SinglesAre(c: char)
    requires Single(c).Some?
    ensures IsMark(Single(c).value) && Spelling(Single(c).value) == [c] && Half(c).None? && !StartsLonger([c])
    ensures !Letter(c) && !DecimalDigit(c)
  {
    SingleIsLongest(c);
    hide StartsLonger;
  }

  lemma SingleIsLongest(c: char)
    requires Single(c).Some?
    ensures !StartsLonger([c])
  {
    hide Spelling;
    forall k | IsMark(k) && [c] <= Spelling(k)
      ensures |Spelling(k)| <= 1
    {
      MarksOf(k);
    }
  }

  lemma HalvesAre(c: char)
    requires Half(c).Some?
    ensures IsMark(Half(c).value) && Spelling(Half(c).value) == [c] && Single(c).None? && StartsLonger([c])
    ensures !Letter(c) && !DecimalDigit(c)
  {
    var longer := match c case '&' => LOG_AND case '|' => LOG_OR case '=' => EQUAL case '!' => NOT_EQUAL
                          case '<' => LT_EQ case _ => GT_EQ;
    assert c != '/' ==> IsMark(longer) && [c] <= Spelling(longer) && |Spelling(longer)| == 2;
  }

  lemma DoublesAre(c: char, d: char)
    requires Double(c, d).Some?
    ensures IsMark(Double(c, d).value) && Spelling(Double(c, d).value) == [c, d] && !StartsLonger([c, d])
  {
    LongestIsTwo([c, d]);
    hide StartsLonger;
  }

  lemma LongestIsTwo(w: string)
    requires |w| >= 2
    ensures !StartsLonger(w)
  {
    hide Spelling;
    forall k | IsMark(k)
      ensures |Spelling(k)| <= 2
    {
      MarksOf(k);
    }
  }

  /** A spelling that starts with a mark is a mark. */
  lemma SpellingsAre(k: Kind, c: char, d: char)
    requires Half(c).Some? && Spelling(k) == [c, d]
    ensures Double(c, d) == Some(k)
  {
    HalvesAre(c);
    MarksOf(k);
  }

  // ----- a step reads a gap or a token -----

  lemma StepReads(s: string)
    requires s != [] && NUL !in s
    ensures match Next(s)
            case Skip(rest) => |rest| < |s| && GapAt(s, |s| - |rest|) && rest == s[|s| - |rest|..]
            case Push(t, rest) => |rest| < |s| && LexemeAt(s, |s| - |rest|, t) && rest == s[|s| - |rest|..]
            case _ => true
  {
    var c := s[0];
    hide Operator, Number, Identifier, LexemeAt, GapAt;
    if Single(c).Some? {
      assert LexemeAt(s, 1, Mark(Single(c).value)) by { SingleReads(s); }
    } else if Half(c).Some? {
      OperatorStepReads(s);
    } else if IsBlank(c) {
      BlankReads(s);
    } else if IsDigit(c) {
      if Number(s).Push? {
        NumberStepReads(s);
      }
    } else if IsIdentStart(c) {
      WordStepReads(s);
    }
  }

  lemma SingleReads(s: string)
    requires s != [] && NUL !in s && Single(s[0]).Some?
    ensures LexemeAt(s, 1, Mark(Single(s[0]).value))
  {
    SinglesAre(s[0]);
    var w, v := s[..1], s[1..];
    assert w == [s[0]] && s[0] != '/';
    if v != [] {
      assert (w + [v[0]])[0] == s[0];
      forall k
        ensures Spelling(k) != w + [v[0]]
      {
        if Spelling(k) == w + [v[0]] {
          assert IsMark(k) && w <= Spelling(k);
        }
      }
    }
  }

  lemma BlankReads(s: string)
    requires s != [] && IsBlank(s[0])
    ensures GapAt(s, 1)
  {
    assert s[..1] == [s[0]];
  }

  lemma NumberStepReads(s: string)
    requires s != [] && NUL !in s && IsDigit(s[0]) && Number(s).Push?
    ensures var n := |s| - |Number(s).rest|;
            0 < n <= |s| && LexemeAt(s, n, Number(s).t) && Number(s).rest == s[n..]
  {
    hide Print, Value;
    var ds := Digits(s);
    assert s[..|ds|] == ds && ds != [];
  }

  lemma WordStepReads(s: string)
    requires s != [] && NUL !in s && IsIdentStart(s[0])
    ensures Identifier(s).Push?
    ensures var n := |s| - |Identifier(s).rest|;
            0 < n <= |s| && LexemeAt(s, n, Identifier(s).t) && Identifier(s).rest == s[n..]
  {
    hide WordKind;
    var w := Word(s);
    assert s[..|w|] == w && w != [] && w[0] == s[0];
    KeywordsAgree(w);
  }

  lemma KeywordsAgree(w: string)
    ensures WordKind(w) == if w in KEYWORDS then KEYWORDS[w] else IDENT
  {
  }

  lemma OperatorStepReads(s: string)
    requires s != [] && NUL !in s && Half(s[0]).Some?
    ensures match Operator(s)
            case Skip(rest) => |rest| < |s| && GapAt(s, |s| - |rest|) && rest == s[|s| - |rest|..]
            case Push(t, rest) => |rest| < |s| && LexemeAt(s, |s| - |rest|, t) && rest == s[|s| - |rest|..]
            case _ => true
  {
    if |s| >= 2 {
      if s[0] == '/' && s[1] == '/' {
        if CommentEnd(s[2..]).Some? {
          CommentStepReads(s);
        }
      } else if Double(s[0], s[1]).Some? {
        DoubleReads(s);
      } else {
        HalfReads(s);
      }
    }
  }

  lemma DoubleReads(s: string)
    requires |s| >= 2 && Half(s[0]).Some? && Double(s[0], s[1]).Some?
    ensures LexemeAt(s, 2, Mark(Double(s[0], s[1]).value))
  {
    var w, v := s[..2], s[2..];
    assert w == [s[0], s[1]];
    DoublesAre(s[0], s[1]);
    HalvesAre(s[0]);
    if v != [] {
      forall k
        ensures Spelling(k) != w + [v[0]]
      {
        if Spelling(k) == w + [v[0]] {
          assert IsMark(k) && w <= Spelling(k);
        }
      }
    }
  }

  lemma HalfReads(s: string)
    requires |s| >= 2 && Half(s[0]).Some? && Double(s[0], s[1]).None? && !(s[0] == '/' && s[1] == '/')
    ensures LexemeAt(s, 1, Mark(Half(s[0]).value))
  {
    var w, v := s[..1], s[1..];
    assert w == [s[0]] && w + [v[0]] == [s[0], s[1]];
    HalvesAre(s[0]);
    forall k
      ensures Spelling(k) != w + [v[0]]
    {
      if Spelling(k) == [s[0], s[1]] {
        SpellingsAre(k, s[0], s[1]);
      }
    }
  }

  lemma CommentStepReads(s: string)
    requires |s| >= 2 && NUL !in s && s[0] == '/' && s[1] == '/' && CommentEnd(s[2..]).Some?
    ensures var rest := CommentEnd(s[2..]).value;
            |rest| < |s| && GapAt(s, |s| - |rest|) && rest == s[|s| - |rest|..]
  {
    var n := LineEnd(s[2..]);
    var g := s[..n + 3];
    assert s[2..][n + 1..] == s[n + 3..];
    assert g[2..|g| - 1] == s[2..][..n] && g[|g| - 1] == s[2..][n];
  }

  /** Where the line of a comment ends. */
  lemma {:induction false} LineEnd(s: string) returns (n: nat)
    requires NUL !in s && CommentEnd(s).Some?
    ensures n < |s| && s[n] == '\n' && '\n' !in s[..n] && CommentEnd(s).value == s[n + 1..]
  {
    if s[0] == '\n' {
      n := 0;
    } else {
      n := LineEnd(s[1..]);
      n := n + 1;
      assert s[..n] == [s[0]] + s[1..][..n - 1];
    }
  }

  // ----- a gap or a token is read by a step -----

  lemma GapIsStep(s: string, n: int)
    requires NUL !in s && GapAt(s, n)
    ensures Next(s) == Skip(s[n..])
  {
    hide Number, Identifier;
    var g := s[..n];
    assert s[0] == g[0];
    if |g| >= 3 {
      assert s[1] == g[1] && s[n - 1] == g[n - 1];
      assert g[2..n - 1] == s[2..][..n - 3];
      CommentEndsAt(s[2..], n - 3);
      assert s[2..][n - 2..] == s[n..];
    }
  }

  lemma {:induction false} CommentEndsAt(s: string, n: nat)
    requires NUL !in s && n < |s| && s[n] == '\n' && '\n' !in s[..n]
    ensures CommentEnd(s) == Some(s[n + 1..])
  {
    if n > 0 {
      assert s[..n][0] == s[0];
      assert s[1..][..n - 1] == s[..n][1..];
      CommentEndsAt(s[1..], n - 1);
    }
  }

  lemma LexemeIsStep(s: string, n: int, t: Token)
    requires NUL !in s && LexemeAt(s, n, t)
    ensures Next(s) == Push(t, s[n..])
  {
    hide Operator, Number, Identifier, Value, Print;
    var w, v := s[..n], s[n..];
    assert s[0] == w[0] && s == w + v;
    if IsWord(w) {
      WordIsStep(w, v);
    } else if IsNumeral(w) {
      NumeralIsStep(w, v);
    } else {
      MarkIsStep(w, v, t.kind);
    }
  }

  lemma WordIsStep(w: string, v: string)
    requires IsWord(w) && Ends(w, v) && NUL !in w + v
    ensures Next(w + v) == Push(Token(if w in KEYWORDS then KEYWORDS[w] else IDENT, w), v)
  {
    hide WordKind, Operator, Number;
    KeywordsAgree(w);
    WordOf(w, v);
    assert (w + v)[|w|..] == v && (w + v)[0] == w[0];
    assert v != [] ==> (w + v)[|w|] == v[0];
  }

  lemma {:induction false} WordOf(w: string, v: string)
    requires (forall i :: 0 <= i < |w| ==> LetterOrDigit(w[i])) && (v != [] ==> !LetterOrDigit(v[0]))
    ensures Word(w + v) == w
  {
    if w == [] {
      assert w + v == v;
    } else {
      assert (w + v)[1..] == w[1..] + v;
      WordOf(w[1..], v);
    }
  }

  lemma NumeralIsStep(w: string, v: string)
    requires IsNumeral(w) && Value(w) <= 2147483647 && Ends(w, v) && NUL !in w + v
    ensures Next(w + v) == Push(Token(NUM, Print(Value(w))), v)
  {
    hide Value, Print, Operator, Identifier;
    DigitsOf(w, v);
    assert (w + v)[|w|..] == v && (w + v)[0] == w[0];
    assert v != [] ==> (w + v)[|w|] == v[0];
  }

  lemma MarkIsStep(w: string, v: string, k: Kind)
    requires IsMark(k) && w == Spelling(k) && Ends(w, v)
    ensures (w + v)[0] != NUL ==> Next(w + v) == Push(Mark(k), v)
  {
    MarksOf(k);
    hide Spelling, Number, Identifier, CommentEnd;
    var s := w + v;
    assert s[|w|..] == v && s[0] == w[0];
    if Single(s[0]).None? {
      HalvesAre(s[0]);
      if |w| == 2 {
        assert s[1] == w[1];
      } else {
        assert v != [] && s[1] == v[0] && w + [v[0]] == [s[0], s[1]];
        if Double(s[0], s[1]).Some? {
          DoublesAre(s[0], s[1]);
        }
      }
    }
  }

  // ----- the lexer reads exactly these texts -----

  lemma ScansIff(s: string, ts: seq<Token>)
    requires NUL !in s
    ensures Scan(s) == Tokens(ts) <==> Spells(s, ts)
  {
    hide Scan, Spells;
    if Scan(s) == Tokens(ts) {
      ScannedSpells(s, ts);
    }
    if Spells(s, ts) {
      SpelledScans(s, ts);
    }
  }

  lemma {:induction false} ScannedSpells(s: string, ts: seq<Token>)
    requires NUL !in s && Scan(s) == Tokens(ts)
    ensures Spells(s, ts)
    decreases |s|
  {
    hide Next, GapAt, LexemeAt;
    if s != [] {
      StepReads(s);
      var rest := Next(s).rest;
      var n := |s| - |rest|;
      if Next(s).Skip? {
        ScannedSpells(rest, ts);
        assert GapAt(s, n) && Spells(s[n..], ts);
      } else {
        var more := Scan(rest).tokens;
        ScannedSpells(rest, more);
        assert ts[0] == Next(s).t && ts[1..] == more;
        assert LexemeAt(s, n, ts[0]) && Spells(s[n..], ts[1..]);
      }
    }
  }

  lemma {:induction false} SpelledScans(s: string, ts: seq<Token>)
    requires NUL !in s && Spells(s, ts)
    ensures Scan(s) == Tokens(ts)
    decreases |s|
  {
    hide Next, Gap, Lexeme, Ends;
    if s != [] {
      if n :| GapAt(s, n) && Spells(s[n..], ts) {
        GapIsStep(s, n);
        SpelledScans(s[n..], ts);
      } else {
        var n :| LexemeAt(s, n, ts[0]) && Spells(s[n..], ts[1..]);
        LexemeIsStep(s, n, ts[0]);
        SpelledScans(s[n..], ts[1..]);
        assert ts == [ts[0]] + ts[1..];
      }
    }
  }

  // ----- tokens with gaps between them -----

  ghost predicate Gaps(g: string)
    decreases |g|
  {
    g == [] || exists n :: GapAt(g, n) && Gaps(g[n..])
  }

  function Text(ws: seq<string>, gs: seq<string>): string
    requires |ws| == |gs|
  {
    if ws == [] then [] else ws[0] + gs[0] + Text(ws[1..], gs[1..])
  }

  /** Texts of tokens, each followed by at least one gap, are read as the tokens; only a comment directly
      after a division sign would be read as a comment that starts there. */
  lemma {:induction false} SeparatedScans(ws: seq<string>, gs: seq<string>, ts: seq<Token>)
    requires |ws| == |gs| == |ts| && NUL !in Text(ws, gs)
    requires forall i :: 0 <= i < |ws| ==> Lexeme(ws[i], ts[i]) && Gaps(gs[i]) && Parts(ws[i], gs[i])
    ensures Scan(Text(ws, gs)) == Tokens(ts)
  {
    hide Lexeme, Gaps, Scan, Spells;
    SeparatedSpells(ws, gs, ts);
    ScansIff(Text(ws, gs), ts);
  }

  /** The gap is not empty and keeps the token apart from what follows. */
  predicate Parts(w: string, g: string) {
    g != [] && !(w == "/" && g[0] == '/')
  }

  lemma {:induction false} SeparatedSpells(ws: seq<string>, gs: seq<string>, ts: seq<Token>)
    requires |ws| == |gs| == |ts|
    requires forall i :: 0 <= i < |ws| ==> Lexeme(ws[i], ts[i]) && Gaps(gs[i]) && Parts(ws[i], gs[i])
    ensures Spells(Text(ws, gs), ts)
  {
    hide Lexeme, Gaps, Spells, Parts;
    if ws == [] {
      assert Spells([], []) by { NothingSpells(); }
    } else {
      var rest := Text(ws[1..], gs[1..]);
      SeparatedSpells(ws[1..], gs[1..], ts[1..]);
      GapsThen(gs[0], rest, ts[1..]);
      LexemeThenGap(ws[0], ts[0], gs[0], rest);
      assert ws[0] + gs[0] + rest == ws[0] + (gs[0] + rest);
      LexemeThen(ws[0], ts[0], gs[0] + rest, ts[1..]);
      assert ts == [ts[0]] + ts[1..];
    }
  }

  lemma NothingSpells()
    ensures Spells([], [])
  {
  }

  lemma {:induction false} GapsThen(g: string, s: string, ts: seq<Token>)
    requires Gaps(g) && Spells(s, ts)
    ensures Spells(g + s, ts)
    decreases |g|
  {
    if g == [] {
      assert g + s == s;
    } else {
      hide Gap, Spells, GapAt;
      var n :| GapAt(g, n) && Gaps(g[n..]);
      GapBefore(g, s, n);
      GapsThen(g[n..], s, ts);
      OneGap(g + s, n, ts);
    }
  }

  lemma GapBefore(g: string, s: string, n: int)
    requires GapAt(g, n)
    ensures 0 < n <= |g| && GapAt(g + s, n) && (g + s)[n..] == g[n..] + s
  {
    hide Gap;
    assert (g + s)[..n] == g[..n];
  }

  lemma OneGap(s: string, n: int, ts: seq<Token>)
    requires GapAt(s, n) && Spells(s[n..], ts)
    ensures Spells(s, ts)
  {
    hide Gap;
  }

  lemma LexemeThen(w: string, t: Token, s: string, ts: seq<Token>)
    requires w != [] && Lexeme(w, t) && Ends(w, s) && Spells(s, ts)
    ensures Spells(w + s, [t] + ts)
  {
    hide Lexeme, Ends, Gap;
    assert (w + s)[..|w|] == w && (w + s)[|w|..] == s && ([t] + ts)[1..] == ts;
    assert LexemeAt(w + s, |w|, ([t] + ts)[0]);
  }

  lemma LexemeThenGap(w: string, t: Token, g: string, v: string)
    requires Lexeme(w, t) && Gaps(g) && Parts(w, g)
    ensures w != [] && Ends(w, g + v)
  {
    var c := (g + v)[0];
    var n :| GapAt(g, n) && Gaps(g[n..]);
    assert c == g[0] == g[..n][0];
    if !Letter(w[0]) && !DecimalDigit(w[0]) {
      MarksOf(t.kind);
      SlashSlash(w, c);
      forall k
        ensures Spelling(k) != w + [c]
      {
        NoMarkEndsWithGap(k, w, c);
      }
    }
  }

  lemma SlashSlash(w: string, c: char)
    ensures w + [c] == "//" <==> w == "/" && c == '/'
  {
    if w + [c] == "//" {
      assert w == (w + [c])[..1] == "/";
    }
  }

  lemma NoMarkEndsWithGap(k: Kind, w: string, c: char)
    requires w != [] && !Letter(w[0]) && c in [' ', '\t', '\n', '/']
    ensures Spelling(k) != w + [c]
  {
    if Spelling(k) == w + [c] {
      assert Spelling(k)[0] == w[0] && Spelling(k)[|w|] == c;
      MarksOf(k);
    }
  }
}
