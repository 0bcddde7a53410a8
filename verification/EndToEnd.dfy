/** The whole compiler: from the text of a program to the exit status of the machine. */
module EndToEnd {
  import opened Options
  import opened Words
  import opened Machine
  import S = Syntax
  import R = Resolved
  import V = Semantics
  import N = NameSemantics
  import opened NameMeaning
  import opened Scoping
  import opened Portability
  import opened Guards
  import opened Correctness
  import opened StatementComplete
  import opened ProgramPrinter
  import opened FrontEnd
  import Lexical
  import Parser
  import Resolve
  import CodeGen

  /** Lexing, parsing, the semantic pass and code generation, one after the other. */
  function Compile(source: string, unset: nat): Option<Listing> {
    var fs :- Parsed(source);
    var p :- Resolve.Program(fs, unset);
    CodeGen.GenProgram(p)
  }

  function Parsed(source: string): Option<seq<S.Func>> {
    match Lexical.Scan(source)
    case Tokens(ts) => Parser.Program(ts)
    case _ => None
  }

  /** The program of a text is one for which the compiler can be trusted: it keeps the rules of scope,
      the guards of the code generator, and the short-circuit and if/else forms that C99 and the
      generated code agree on. */
  predicate Trusted(source: string, unset: nat) {
    match Parsed(source)
    case None => false
    case Some(fs) =>
      TidyProgram(fs) &&
      match Resolve.Program(fs, unset)
      case None => false
      case Some(p) => GoodProgram(p) && PortableProgram(p)
  }

  /** What C99 says of the text: the value of its function main. */
  ghost predicate Yields(source: string, vs: seq<Word>, room: nat, fuel: nat, v: Word) {
    Parsed(source).Some? &&
    var fs := Parsed(source).value;
    N.Find(fs, "main").Some? && N.RunFunc(fs, V.C, N.Find(fs, "main").value, vs, room, fuel) == Some(Some(v))
  }

  /** The machine at the start of the code, with a stack of at least `room` bytes. */
  ghost predicate Loaded(code: Listing, vs: seq<Word>, room: nat, top: int, s: State) {
    && Position(code, Start) == Some(s.pc)
    && s.sp == Wrap(top) && top % 4 == 0 && room <= top <= TWO32
    && |vs| <= 8 && forall i :: 0 <= i < |vs| ==> s.a[i] == vs[i]
  }

  /** If the program of a text yields a value, its compiled code reaches the exit system call with that
      value as the status, and the machine stops nowhere else. */
  lemma CompilerCorrect(source: string, unset: nat, code: Listing, vs: seq<Word>, room: nat, fuel: nat, v: Word,
                        top: int, s: State) returns (s': State)
    requires Compile(source, unset) == Some(code) && Trusted(source, unset) && |code| < 0x8000_0000
    requires Yields(source, vs, room, fuel, v) && Loaded(code, vs, room, top, s)
    ensures Reaches(code, s, s') && s'.pc < |code| && code[s'.pc] == Ecall && s'.a[0] == v && s'.a[7] == 93
    ensures forall x: State :: Reaches(code, s, x) && Step(code, x).None? ==> x.a[0] == v
  {
    hide GoodProgram, PortableProgram, Resolve.Program, TidyProgram, CodeGen.GenProgram, N.RunFunc, V.RunFunc, N.Find,
         R.Find, Parsed, Position, Reaches;
    var fs := Parsed(source).value;
    var p := Resolve.Program(fs, unset).value;
    assert Accepted(Pair(fs, p, unset));
    MeaningSame(Pair(fs, p, unset), V.C, "main", vs, room, fuel);
    var main := R.Find(p, "main").value;
    FindName(p, "main");
    s' := ProgramCorrect(p, code, main, vs, room, fuel, v, top, s);
    forall x: State | Reaches(code, s, x) && Step(code, x).None?
      ensures x.a[0] == v
    {
      ExitStatusIsMeaning(p, code, main, vs, room, fuel, v, top, s, x);
    }
  }

  lemma FindName(p: R.Program, name: string)
    ensures R.Find(p, name).Some? ==> R.Find(p, name).value.name == name
  {
  }

  /** The text of a program without dangling else compiles to the code of that program. */
  lemma PrintedProgramCompiles(fs: seq<S.Func>, unset: nat)
    requires PrintableProgram(fs) && NamedProgram(fs) && NearestElseProgram(fs)
    ensures Parsed(Source(fs)) == Some(fs)
    ensures Compile(Source(fs), unset) == (var p :- Resolve.Program(fs, unset); CodeGen.GenProgram(p))
  {
    hide PrintableProgram, NamedProgram, NearestElseProgram, Source, Lexical.Scan, Parser.Program, Resolve.Program,
         CodeGen.GenProgram;
    SourceRoundTripIff(fs);
  }
}
