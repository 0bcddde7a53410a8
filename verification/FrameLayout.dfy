/** The layout of a stack frame: the slots that the generated code uses do not overlap and lie
    inside the frame. Distances are measured down from the frame pointer. */
module FrameLayout {
  import opened Resolved

  datatype Slot =
    | RaSlot
    | FpSlot
    | ArgSlot(i: nat)
    | VarSlot(offset: nat)
    // the j-th word spilled by a call, from 1
    | SpillSlot(j: nat)

  /** The slots of a function with `locals` bytes of variables while it makes a call that spills
      `spilled` words. */
  predicate InUse(s: Slot, locals: nat, spilled: nat) {
    match s
    case RaSlot => true
    case FpSlot => true
    case ArgSlot(i) => i < 8
    case VarSlot(o) => o % 4 == 0 && o + 4 <= locals
    case SpillSlot(j) => 1 <= j <= spilled
  }

  /** Where the slot is, for a called function with `callee` bytes of variables. */
  function Distance(s: Slot, callee: nat): int {
    match s
    case RaSlot => 4
    case FpSlot => 8
    case ArgSlot(i) => ParamSlot(i)
    case VarSlot(o) => LocalSlot(o)
    case SpillSlot(j) => callee + 44 + 4 * j
  }

  /** Words at aligned addresses overlap exactly when they are the same word. */
  predicate Overlap(d: int, e: int) {
    d - 4 < e < d + 4
  }

  /** For a call of a function whose variables take as much space as the caller's, all slots are
      aligned, pairwise disjoint and inside the frame, up to seven temporaries and eight arguments. */
  lemma SlotsDisjoint(s: Slot, t: Slot, locals: nat, spilled: nat)
    requires locals % 4 == 0 && spilled <= 15
    requires InUse(s, locals, spilled) && InUse(t, locals, spilled) && s != t
    ensures !Overlap(Distance(s, locals), Distance(t, locals))
    ensures Distance(s, locals) % 4 == 0 && 4 <= Distance(s, locals) <= FrameSize(locals)
  {
  }

  /** For any called function: a spill slot overlaps a variable of the caller if and only if the
      callee's variables take at least 8 bytes less than the caller's, and a spill slot is outside
      the frame if and only if the last one is. */
  lemma SpillSlotsMisplaced(locals: nat, callee: nat, spilled: nat)
    requires locals % 4 == 0 && callee % 4 == 0 && spilled > 0
    ensures (exists o: nat, j: nat :: InUse(VarSlot(o), locals, spilled) && InUse(SpillSlot(j), locals, spilled) &&
                          Overlap(Distance(VarSlot(o), callee), Distance(SpillSlot(j), callee)))
            <==> callee + 8 <= locals
    ensures (exists j: nat ::
              InUse(SpillSlot(j), locals, spilled) && Distance(SpillSlot(j), callee) > FrameSize(locals))
            <==> callee + 44 + 4 * spilled > FrameSize(locals)
  {
    if callee + 8 <= locals {
      var o: nat := callee + 4;
      assert InUse(VarSlot(o), locals, spilled) && InUse(SpillSlot(1), locals, spilled);
      assert Overlap(Distance(VarSlot(o), callee), Distance(SpillSlot(1), callee));
    }
    if callee + 44 + 4 * spilled > FrameSize(locals) {
      assert InUse(SpillSlot(spilled), locals, spilled);
    }
  }

  /** The padding is never more than this argument needs: some frames are full. */
  lemma SomeFramesAreFull()
    ensures exists locals: nat :: locals % 4 == 0 && Distance(SpillSlot(15), locals) == FrameSize(locals)
  {
    assert Distance(SpillSlot(15), 8) == FrameSize(8);
  }
}
