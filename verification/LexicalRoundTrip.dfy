/** Writing tokens as text, one space after each, and lexing the text gives back the tokens; each is
    the longest that the text allows. */
module LexicalRoundTrip {
  import opened Options
  import opened Syntax
  import opened Decimal
  import opened Lexical
  import opened LexicalGrammar

  predicate IsName(w: string) {
    IsWord(w) && w !in KEYWORDS
  }

  predicate IsLiteral(w: string) {
    IsNumeral(w) && Value(w) <= INT_MAX && Print(Value(w)) == w
  }

  /** The tokens that have a text of their own. */
  predicate Writable(t: Token) {
    match t.kind
    case IDENT => IsName(t.text)
    case NUM => IsLiteral(t.text)
    case TYPE => t.text == "int" || t.text == "void"
    case k => Spelling(k) != "" && t.text == Spelling(k)
  }

  function Written(ts: seq<Token>): string {
    if ts == [] then [] else ts[0].text + [' '] + Written(ts[1..])
  }

  // ----- the round trip -----

  /** What is written of a token is a text of it. */
  lemma TextIsLexeme(t: Token)
    requires Writable(t)
    ensures Lexeme(t.text, t) && t.text != [] && NUL !in t.text
  {
    if t.kind == TYPE {
      assert t.text in KEYWORDS && KEYWORDS[t.text] == TYPE;
    } else if t.kind != IDENT && t.kind != NUM {
      SpellingIsLexeme(t.kind);
    }
  }

  lemma SpellingIsLexeme(k: Kind)
    requires Spelling(k) != []
    ensures Lexeme(Spelling(k), Mark(k)) && NUL !in Spelling(k)
  {
    if !IsMark(k) {
      assert Spelling(k) in KEYWORDS && KEYWORDS[Spelling(k)] == k;
    }
  }

  lemma {:induction false} WrittenScans(ts: seq<Token>)
    requires forall i :: 0 <= i < |ts| ==> Writable(ts[i])
    ensures Scan(Written(ts)) == Tokens(ts)
  {
    hide Scan, Spells, Writable;
    WrittenSpells(ts);
    ScansIff(Written(ts), ts);
  }

  lemma {:induction false} WrittenSpells(ts: seq<Token>)
    requires forall i :: 0 <= i < |ts| ==> Writable(ts[i])
    ensures Spells(Written(ts), ts) && NUL !in Written(ts)
  {
    hide Spells, Writable, Lexeme;
    if ts == [] {
      NothingSpells();
    } else {
      var t, v := ts[0], Written(ts[1..]);
      WrittenSpells(ts[1..]);
      TextIsLexeme(t);
      assert Gaps([' ']) by { OneBlank(); }
      GapsThen([' '], v, ts[1..]);
      LexemeThenGap(t.text, t, [' '], v);
      LexemeThen(t.text, t, [' '] + v, ts[1..]);
      assert t.text + [' '] + v == t.text + ([' '] + v) && ts == [t] + ts[1..];
    }
  }

  lemma OneBlank()
    ensures Gaps([' '])
  {
    assert GapAt([' '], 1) && [' '][1..] == [];
  }

  // ----- literals -----

  /** A literal's text has at least as many digits as its number without leading zeros, so the buffer
      sized by the former holds the latter. */
  lemma {:induction false} LiteralFits(w: string)
    requires AllDigits(w) && w != []
    ensures |Print(Value(w))| <= |w|
    decreases |w|
  {
    var n := Value(w);
    var u := w[..|w| - 1];
    if n >= 10 {
      assert u != [];
      LiteralFits(u);
      assert n / 10 == Value(u);
    }
  }

  // ----- the longest match -----

  /** No longer token text starts where a token was read. */
  lemma LongestMatch(s: string, t: Token)
    requires s != [] && s[0] != NUL && Next(s).Push? && Writable(t) && t.text <= s
    ensures |t.text| <= |s| - |Next(s).rest|
  {
    hide Next, IsWord, IsNumeral, IsMark, Writable, Spelling;
    TextIsLexeme(t);
    if IsNumeral(t.text) {
      LongestNumber(s, t.text);
    } else if IsWord(t.text) {
      LongestIdentifier(s, t.text);
    } else {
      LongestMark(s, t.kind);
    }
  }

  lemma LongestNumber(s: string, w: string)
    requires s != [] && s[0] != NUL && Next(s).Push? && IsNumeral(w) && w <= s
    ensures |w| <= |s| - |Next(s).rest|
  {
    hide Print, Value, Identifier, Operator;
    assert IsDigit(w[0]);
    LongestDigits(w, s);
  }

  lemma LongestIdentifier(s: string, w: string)
    requires s != [] && s[0] != NUL && Next(s).Push? && IsWord(w) && w <= s
    ensures |w| <= |s| - |Next(s).rest|
  {
    hide Number, WordKind, Operator;
    LongestWord(w, s);
  }

  lemma {:induction false} LongestDigits(w: string, s: string)
    requires AllDigits(w) && w <= s
    ensures |w| <= |Digits(s)|
  {
    if w != [] {
      LongestDigits(w[1..], s[1..]);
    }
  }

  lemma {:induction false} LongestWord(w: string, s: string)
    requires (forall i :: 0 <= i < |w| ==> IsIdentChar(w[i])) && w <= s
    ensures |w| <= |Word(s)|
  {
    if w != [] {
      LongestWord(w[1..], s[1..]);
    }
  }

  lemma LongestMark(s: string, k: Kind)
    requires s != [] && s[0] != NUL && Next(s).Push? && Spelling(k) <= s && IsMark(k)
    ensures |Spelling(k)| <= |s| - |Next(s).rest|
  {
    MarksOf(k);
    hide Spelling, Digits, Word, Print, Value, WordKind, CommentEnd;
    if |Spelling(k)| == 2 {
      assert s[0] == Spelling(k)[0] && s[1] == Spelling(k)[1];
    }
  }
}
