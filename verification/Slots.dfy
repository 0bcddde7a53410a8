/** What the semantic pass guarantees: the declarations of a function take the slots 0, 4, 8, … of its
    frame once each, every variable that is used has a declared slot that no other visible variable
    shares, and every call is to a defined function with as many parameters as there are arguments. */
module Slots {
  import opened Options
  import S = Syntax
  import R = Resolved
  import opened Resolve

  // ----- slots are handed out once -----

  /** The slots of the declarations, in the order in which the pass meets them. */
  function Declared(s: R.Stmt): seq<nat>
    decreases s
  {
    match s
    case VarDef(sym, _) => [sym.offset]
    case VarDec(sym) => [sym.offset]
    case If(_, t, None) => Declared(t)
    case If(_, t, Some(e)) => Declared(t) + Declared(e)
    case Block(body) => DeclaredAll(body)
    case While(_, b) => Declared(b)
    case For(i, _, _, b) => Declared(i) + Declared(b)
    case _ => []
  }

  function DeclaredAll(ss: seq<R.Stmt>): seq<nat>
    decreases ss
  {
    if ss == [] then [] else Declared(ss[0]) + DeclaredAll(ss[1..])
  }

  /** The multiples of 4 from a, a multiple of 4, to below b. */
  function Range(a: nat, b: nat): (r: seq<nat>)
    decreases b - a
  {
    if b <= a then [] else [a] + Range(a + INT_SIZE, b)
  }

  lemma {:induction false} RangeSplit(a: nat, b: nat, c: nat)
    requires a <= b && (b - a) % INT_SIZE == 0 && b <= c
    ensures Range(a, c) == Range(a, b) + Range(b, c)
    decreases b - a
  {
    if a < b {
      RangeSplit(a + INT_SIZE, b, c);
      assert [a] + (Range(a + INT_SIZE, b) + Range(b, c)) == [a] + Range(a + INT_SIZE, b) + Range(b, c);
    } else {
      assert [] + Range(b, c) == Range(b, c);
    }
  }

  lemma {:induction false} InRange(a: nat, b: nat, o: nat)
    requires (b - a) % INT_SIZE == 0 && a <= b
    ensures o in Range(a, b) <==> a <= o && o + INT_SIZE <= b && (o - a) % INT_SIZE == 0
    decreases b - a
  {
    if a < b {
      InRange(a + INT_SIZE, b, o);
    }
  }

  lemma {:induction false} RangeDistinct(a: nat, b: nat)
    requires (b - a) % INT_SIZE == 0 && a <= b
    ensures forall i, j :: 0 <= i < j < |Range(a, b)| ==> Range(a, b)[i] != Range(a, b)[j]
    decreases b - a
  {
    if a < b {
      RangeDistinct(a + INT_SIZE, b);
      forall j | 0 < j < |Range(a, b)|
        ensures Range(a, b)[j] != a
      {
        assert Range(a, b)[j] == Range(a + INT_SIZE, b)[j - 1];
        InRange(a + INT_SIZE, b, Range(a, b)[j]);
      }
    }
  }

  ghost predicate Takes(size: nat, size': nat, slots: seq<nat>) {
    size <= size' && (size' - size) % INT_SIZE == 0 && slots == Range(size, size')
  }

  lemma TakesBoth(a: nat, b: nat, c: nat, u: seq<nat>, v: seq<nat>)
    requires Takes(a, b, u) && Takes(b, c, v)
    ensures Takes(a, c, u + v)
  {
    hide Range;
    RangeSplit(a, b, c);
  }

  lemma TakesNothing(a: nat)
    ensures Takes(a, a, [])
  {
  }

  lemma TakesOne(a: nat)
    ensures Takes(a, a + INT_SIZE, [a])
  {
    assert Range(a + INT_SIZE, a + INT_SIZE) == [];
    assert [a] + [] == [a];
  }

  /** A statement's declarations take the slots between the frame's sizes before and after it. */
  lemma {:induction false} StatementTakes(env: Env, size: nat, unset: nat, s: S.Stmt)
    requires Statement(env, size, unset, s).Some?
    ensures var c := Statement(env, size, unset, s).value; Takes(size, c.size, Declared(c.tree))
    decreases s
  {
    hide Takes, Expression;
    TakesNothing(size);
    match s
    case If(c, t, els) =>
      StatementTakes(env, size, unset, t);
      if els.Some? {
        var thn := Statement(env, size, unset, t).value;
        StatementTakes(thn.env, thn.size, unset, els.value);
        TakesBoth(size, thn.size, Statement(thn.env, thn.size, unset, els.value).value.size, Declared(thn.tree),
                  Declared(Statement(thn.env, thn.size, unset, els.value).value.tree));
      }
    case Block(body) => StatementsTake(env, size, unset, body);
    case VarDef(_, _, _) => TakesOne(size);
    case VarDec(_, _) => TakesOne(size);
    case While(_, b) => StatementTakes(env, size, unset, b);
    case For(i, _, _, b) =>
      var init := Statement(env, size, unset, i).value;
      StatementTakes(env, size, unset, i);
      StatementTakes(init.env, init.size, unset, b);
      TakesBoth(size, init.size, Statement(init.env, init.size, unset, b).value.size, Declared(init.tree),
                Declared(Statement(init.env, init.size, unset, b).value.tree));
    case _ =>
  }

  lemma {:induction false} StatementsTake(env: Env, size: nat, unset: nat, ss: seq<S.Stmt>)
    requires Statements(env, size, unset, ss).Some?
    ensures var c := Statements(env, size, unset, ss).value; Takes(size, c.size, DeclaredAll(c.tree))
    decreases ss
  {
    hide Takes, Statement, Declared;
    TakesNothing(size);
    if ss != [] {
      var s := Statement(env, size, unset, ss[0]).value;
      var rest := Statements(s.env, s.size, unset, ss[1..]).value;
      StatementTakes(env, size, unset, ss[0]);
      StatementsTake(s.env, s.size, unset, ss[1..]);
      TakesBoth(size, s.size, rest.size, Declared(s.tree), DeclaredAll(rest.tree));
      assert ([s.tree] + rest.tree)[1..] == rest.tree;
    }
  }

  /** The declarations of a function have the slots 0, 4, …, size - 4, each once. */
  lemma DefinitionSlots(env: Env, unset: nat, f: S.Func)
    requires Definition(env, unset, f).Some?
    ensures var r := Definition(env, unset, f).value.tree;
            && r.frame % INT_SIZE == 0
            && (forall o: nat :: o in DeclaredAll(r.body) <==> o + INT_SIZE <= r.frame && o % INT_SIZE == 0)
            && (forall i, j :: 0 <= i < j < |DeclaredAll(r.body)| ==> DeclaredAll(r.body)[i] != DeclaredAll(r.body)[j])
  {
    hide Range, Statements, DeclaredAll;
    var e := Parameters(env, f.params, 0).value;
    var r := Definition(env, unset, f).value.tree;
    StatementsTake(e[f.name := Function(|f.params|)], 0, unset, f.body);
    forall o: nat
      ensures o in DeclaredAll(r.body) <==> o + INT_SIZE <= r.frame && o % INT_SIZE == 0
    {
      InRange(0, r.frame, o);
    }
    RangeDistinct(0, r.frame);
  }
}
