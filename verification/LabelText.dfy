/** The labels as they are printed: different labels have different texts, so resolving a label by
    its text is resolving it by what it is. */
module LabelText {
  import opened Options
  import opened Machine
  import opened Decimal
  import opened CodeGen
  import Labels
  import R = Resolved

  function KindText(k: LabelKind): string {
    match k
    case ForLabel => "for"
    case IfLabel => "if"
    case WhileLabel => "while"
    case ElseLabel => "else"
    case AndLabel => "and"
    case OrLabel => "or"
  }

  function PartText(p: Part): string {
    match p
    case Bare => ""
    case InitPart => "init"
    case CondPart => "cond"
    case BodyPart => "body"
    case StepPart => "step"
    case StartPart => "start"
    case EndPart => "end"
    case TruePart => "true"
    case FalsePart => "false"
  }

  function Text(l: Label): string {
    match l
    case Start => "_start"
    case Function(name) => name
    case Generated(k, n, p) => KindText(k) + Print(n) + PartText(p)
  }

  // ----- reading a text back -----

  predicate NoDigits(s: string) {
    forall i :: 0 <= i < |s| ==> !IsDigit(s[i])
  }

  /** The leading characters that are not digits. */
  function Letters(s: string): string {
    if s == [] || IsDigit(s[0]) then [] else [s[0]] + Letters(s[1..])
  }

  lemma {:induction false} LettersOf(a: string, b: string)
    requires NoDigits(a) && b != [] && IsDigit(b[0])
    ensures Letters(a + b) == a
  {
    if a == [] {
      assert a + b == b;
    } else {
      assert (a + b)[1..] == a[1..] + b;
      LettersOf(a[1..], b);
    }
  }

  lemma TextsHaveNoDigits(k: LabelKind, p: Part)
    ensures NoDigits(KindText(k)) && NoDigits(PartText(p))
  {
  }

  lemma GeneratedParts(k: LabelKind, n: nat, p: Part)
    ensures var t := Text(Generated(k, n, p));
            && Letters(t) == KindText(k)
            && |KindText(k)| <= |t| && Digits(t[|KindText(k)|..]) == Print(n)
            && |KindText(k)| + |Print(n)| <= |t| && t[|KindText(k)| + |Print(n)|..] == PartText(p)
  {
    var a, b, c := KindText(k), Print(n), PartText(p);
    TextsHaveNoDigits(k, p);
    assert a + b + c == a + (b + c);
    LettersOf(a, b + c);
    DigitsOf(b, c);
    assert (a + b + c)[|a|..] == b + c;
  }

  lemma KindsDiffer(k: LabelKind, k': LabelKind)
    requires KindText(k) == KindText(k')
    ensures k == k'
  {
    var t, t' := KindText(k), KindText(k');
    assert |t| == |t'| && t[0] == t'[0];
  }

  lemma PartsDiffer(p: Part, p': Part)
    requires PartText(p) == PartText(p')
    ensures p == p'
  {
    var t, t' := PartText(p), PartText(p');
    assert |t| == |t'|;
    if |t| > 2 {
      assert t[0] == t'[0] && t[2] == t'[2];
    }
  }

  /** Generated labels with the same text are the same label. */
  lemma GeneratedTextInjective(l: Label, l': Label)
    requires l.Generated? && l'.Generated? && Text(l) == Text(l')
    ensures l == l'
  {
    GeneratedParts(l.kind, l.n, l.part);
    GeneratedParts(l'.kind, l'.n, l'.part);
    KindsDiffer(l.kind, l'.kind);
    PrintInjective(l.n, l'.n);
    PartsDiffer(l.part, l'.part);
  }

  /** A name that reads like a generated label, or _start. */
  predicate Reserved(name: string) {
    name == "_start" || LooksGenerated(name)
  }

  predicate LooksGenerated(name: string) {
    var a := Letters(name);
    var b := if |a| <= |name| then Digits(name[|a|..]) else [];
    && a in {"for", "if", "while", "else", "and", "or"}
    && b != []
    && |a| + |b| <= |name|
    && name[|a| + |b|..] in {"", "init", "cond", "body", "step", "start", "end", "true", "false"}
  }

  lemma GeneratedIsReserved(k: LabelKind, n: nat, p: Part)
    ensures LooksGenerated(Text(Generated(k, n, p)))
  {
    GeneratedParts(k, n, p);
    hide Text, Letters, Digits;
    PartTexts(p);
    KindTexts(k);
  }

  lemma PartTexts(p: Part)
    ensures PartText(p) in {"", "init", "cond", "body", "step", "start", "end", "true", "false"}
  {
  }

  lemma KindTexts(k: LabelKind)
    ensures KindText(k) in {"for", "if", "while", "else", "and", "or"}
  {
  }

  lemma TextInjective(l: Label, l': Label)
    requires Text(l) == Text(l')
    requires l.Function? ==> !Reserved(l.name)
    requires l'.Function? ==> !Reserved(l'.name)
    ensures l == l'
  {
    if l.Generated? && l'.Generated? {
      GeneratedTextInjective(l, l');
    } else {
      if l.Generated? { GeneratedIsReserved(l.kind, l.n, l.part); StartIsNotGenerated(); }
      if l'.Generated? { GeneratedIsReserved(l'.kind, l'.n, l'.part); StartIsNotGenerated(); }
    }
  }

  lemma StartIsNotGenerated()
    ensures !LooksGenerated("_start")
  {
    var s := "_start";
    assert s[0] == '_';
    assert Letters(s)[0] == '_';
  }

  // ----- the labels of a listing -----

  ghost predicate TextsUnique(code: Listing) {
    forall i, j :: 0 <= i < j < |code| && code[i].Lab? && code[j].Lab? ==> Text(code[i].name) != Text(code[j].name)
  }

  /** The name is the text of another label in the listing. */
  ghost predicate Clashes(code: Listing, name: string) {
    name == "_start" ||
        exists i :: 0 <= i < |code| && code[i].Lab? && code[i].name.Generated? && Text(code[i].name) == name
  }

  /** The label definitions of a listing have different texts if and only if no function is named
      _start or like a label that was generated for this listing. */
  lemma ListingTextsUniqueIff(p: R.Program, code: Listing)
    requires R.DistinctNames(p) && GenProgram(p) == Some(code)
    ensures TextsUnique(code) <==> forall f :: f in p ==> !Clashes(code, f.name)
  {
    if f :| f in p && Clashes(code, f.name) {
      ClashIsSeen(p, code, f);
    } else {
      Labels.ListingLabelsUnique(p);
      forall i, j | 0 <= i < j < |code| && code[i].Lab? && code[j].Lab?
          ensures Text(code[i].name) != Text(code[j].name) {
        FunctionsAreDefined(p, i);
        FunctionsAreDefined(p, j);
        assert code[i] != code[j];
        TextsDiffer(code, i, j);
      }
    }
  }

  lemma TextsDiffer(code: Listing, i: nat, j: nat)
    requires i < |code| && j < |code| && code[i].Lab? && code[j].Lab? && code[i].name != code[j].name
    requires forall k :: k in {i, j} && code[k].name.Function? ==> !Clashes(code, code[k].name.name)
    ensures Text(code[i].name) != Text(code[j].name)
  {
    var l, l' := code[i].name, code[j].name;
    StartIsNotGenerated();
    if l.Generated? {
      GeneratedIsReserved(l.kind, l.n, l.part);
    }
    if l'.Generated? {
      GeneratedIsReserved(l'.kind, l'.n, l'.part);
    }
    if l.Generated? && l'.Generated? && Text(l) == Text(l') {
      GeneratedTextInjective(l, l');
    }
  }

  lemma ClashIsSeen(p: R.Program, code: Listing, f: R.Func)
    requires R.DistinctNames(p) && GenProgram(p) == Some(code) && f in p && Clashes(code, f.name)
    ensures !TextsUnique(code)
  {
    var j := FunctionDefined(p, code, f);
    var i: nat;
    if f.name == "_start" {
      i := 0;
      assert code[0] == Lab(Start);
    } else {
      i :| 0 <= i < |code| && code[i].Lab? && code[i].name.Generated? && Text(code[i].name) == f.name;
    }
    assert Text(code[j].name) == Text(code[i].name) && i != j;
  }

  lemma FunctionDefined(p: R.Program, code: Listing, f: R.Func) returns (j: nat)
    requires GenProgram(p) == Some(code) && f in p
    ensures j < |code| && code[j] == Lab(Function(f.name))
  {
    hide GenFuncs;
    j := FunctionAmong(FramesOf(p), p, Initial, f);
    j := |StartCode| + j;
  }

  lemma {:induction false} FunctionAmong(frames: Frames, p: R.Program, g: Gen, f: R.Func) returns (j: nat)
    requires GenFuncs(frames, p, g).Some? && f in p
    ensures var code := GenFuncs(frames, p, g).value.code; j < |code| && code[j] == Lab(Function(f.name))
  {
    hide GenFunc;
    var x := GenFunc(frames, p[0], g).value;
    if f == p[0] {
      j := 0;
      StartsWithLabel(frames, f, g);
    } else {
      j := FunctionAmong(frames, p[1..], x.g, f);
      j := |x.code| + j;
    }
  }

  lemma StartsWithLabel(frames: Frames, f: R.Func, g: Gen)
    requires GenFunc(frames, f, g).Some?
    ensures var code := GenFunc(frames, f, g).value.code; |code| > 0 && code[0] == Lab(Function(f.name))
  {
    hide GenStmts, ExitCode, EnterCode, SaveArgs;
  }

  /** In particular they do if no function has a reserved name. */
  lemma ListingTextsUnique(p: R.Program, code: Listing)
    requires R.DistinctNames(p) && GenProgram(p) == Some(code)
    requires forall f :: f in p ==> !Reserved(f.name)
    ensures TextsUnique(code)
  {
    forall f | f in p ensures !Clashes(code, f.name) {
      forall i | 0 <= i < |code| && code[i].Lab? && code[i].name.Generated? ensures Text(code[i].name) != f.name {
        var l := code[i].name;
        GeneratedIsReserved(l.kind, l.n, l.part);
      }
    }
    ListingTextsUniqueIff(p, code);
  }

  lemma FunctionsAreDefined(p: R.Program, i: nat)
    requires R.DistinctNames(p) && GenProgram(p).Some? && i < |GenProgram(p).value| && GenProgram(p).value[i].Lab?
    ensures var l := GenProgram(p).value[i].name; l.Function? ==> exists f :: f in p && f.name == l.name
  {
    hide *;
    var code := GenProgram(p).value;
    var l := code[i].name;
    if l.Function? {
      DefinedSomewhere(code, i);
      DefsOfFunction(p, l);
    }
  }

  lemma DefinedSomewhere(code: seq<Instr>, i: nat)
    requires i < |code| && code[i].Lab?
    ensures Labels.Defs(code, code[i].name) >= 1
  {
    Labels.DefsConcat(code[..i], code[i..], code[i].name);
    assert code == code[..i] + code[i..];
  }

  lemma DefsOfFunction(p: R.Program, l: Label)
    requires R.DistinctNames(p) && GenProgram(p).Some? && l.Function? && Labels.Defs(GenProgram(p).value, l) >= 1
    ensures exists f :: f in p && f.name == l.name
  {
    hide GenFuncs;
    Labels.LabelsOfFuncs(FramesOf(p), p, Initial, l);
    var rest := GenFuncs(FramesOf(p), p, Initial).value.code;
    Labels.DefsConcat(StartCode, rest, l);
    assert Labels.Defs(StartCode, l) == 0 by {
      Labels.DefsOne(StartCode[0], l);
      Labels.Plain(StartCode[1..], l);
      Labels.DefsConcat([StartCode[0]], StartCode[1..], l);
      assert StartCode == [StartCode[0]] + StartCode[1..];
    }
  }
}
