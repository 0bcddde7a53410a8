/** The arena: a list of regions from which blocks of words are handed out in order, and which can be
    wound back to an earlier state. */
module ArenaObject {

  type byte = x: int | 0 <= x < 256

  /** sizeof(uintptr_t) */
  const WORD: nat := 8
  const DEFAULT_CAPACITY: nat := 8 * 1024

  class Region {
    var next: Region?
    var count: nat
    const capacity: nat
    const data: array<byte>

    constructor (capacity: nat)
      ensures next == null && count == 0 && this.capacity == capacity
      ensures fresh(data) && data.Length == WORD * capacity
    {
      next := null;
      count := 0;
      this.capacity := capacity;
      data := new byte[WORD * capacity];
    }
  }

  /** Memory that was handed out: `words` words of a region from the word `start` on. */
  datatype Block = Block(region: Region, start: nat, words: nat)

  datatype Mark = Mark(region: Region?, count: nat)

  /** A snapshot that can still be returned to, the index of its region and how many blocks were live. */
  datatype Saved = Saved(mark: Mark, index: nat, live: nat)

  /** The contents of a block. */
  ghost function Bytes(b: Block): seq<byte>
    requires InBounds(b)
    reads b.region.data
  {
    b.region.data[WORD * b.start..WORD * (b.start + b.words)]
  }

  ghost predicate InBounds(b: Block) {
    WORD * (b.start + b.words) <= b.region.data.Length
  }

  ghost predicate Disjoint(b: Block, c: Block) {
    b.region != c.region || b.start + b.words <= c.start || c.start + c.words <= b.start
  }

  /** As many words as hold the bytes. */
  function Words(bytes: nat): (n: nat)
    ensures WORD * n >= bytes && (n == 0 || WORD * (n - 1) < bytes)
  {
    (bytes + WORD - 1) / WORD
  }

  class Arena {
    var begin: Region?
    var end: Region?

    /** All regions in order and how many words of each are used, the index of `end`, and the live blocks, each with
        its region's index. */
    ghost var regions: seq<Region>
    ghost var counts: seq<nat>
    ghost var last: nat
    ghost var live: seq<Block>
    ghost var at: seq<nat>
    ghost var marks: seq<Saved>

    ghost predicate Listed()
      reads this`regions, regions`next
    {
      forall i {:trigger regions[i].next} :: 0 <= i < |regions| ==> regions[i].next == if i + 1 < |regions|
          then regions[i + 1] else null
    }

    ghost predicate Distinct()
      reads this`regions
    {
      forall i, j :: 0 <= i < j < |regions| ==> regions[i] != regions[j] && regions[i].data != regions[j].data
    }

    ghost predicate Counted()
      reads this`regions, this`counts, regions`count
    {
      |counts| == |regions| && forall i :: 0 <= i < |regions| ==> regions[i].count == counts[i]
    }

    ghost predicate Linked()
      reads this`begin, this`end, this`regions, this`counts, this`last, regions
    {
      && Listed() && Distinct() && Counted()
      && (if regions == [] then begin == null && end == null && last == 0
          else begin == regions[0] && last < |regions| && end == regions[last])
      && (forall i :: 0 <= i < |regions| ==>
          counts[i] <= regions[i].capacity && regions[i].data.Length == WORD * regions[i].capacity)
      && (forall i :: last < i < |regions| ==> counts[i] == 0)
    }

    /** Each live block lies in the used part of its region, and after the blocks before it. */
    ghost predicate Placed()
      reads this`regions, this`counts, this`last, this`live, this`at
    {
      && |at| == |live| && Ordered(at, live) && |counts| == |regions|
      && (forall k :: 0 <= k < |live| ==> at[k] <= last && at[k] < |regions| && live[k].region == regions[at[k]])
      && (forall k :: 0 <= k < |live| ==> live[k].start + live[k].words <= counts[at[k]])
    }

    /** A snapshot that the arena can be wound back to. */
    ghost predicate Separates(s: Saved)
      requires |at| == |live|
      reads this`regions, this`counts, this`last, this`live, this`at
    {
      && s.live <= |live| && Divides(s, at, live)
      && if s.mark.region == null then s.live == 0 && s.index == 0 && s.mark.count == 0 else
         s.index <= last && s.index < |regions| && s.index < |counts| && s.mark.region == regions[s.index] &&
             s.mark.count <= counts[s.index]
    }

    ghost predicate Marked()
      requires |at| == |live|
      reads this
    {
      && (forall m :: 0 <= m < |marks| ==> Separates(marks[m]))
      && (forall m, n :: 0 <= m < n < |marks| ==> NotLater(marks[m], marks[n]))
    }

    ghost predicate Valid()
      reads this, regions
    {
      Linked() && Placed() && Marked()
    }

    constructor ()
      ensures Valid() && regions == [] && live == [] && marks == []
    {
      begin, end, regions, counts, last, live, at, marks := null, null, [], [], 0, [], [], [];
    }

    /** Live blocks never overlap and lie inside of their regions. */
    lemma LiveDisjoint(j: nat, k: nat)
      requires Valid() && j < k < |live|
      ensures Disjoint(live[j], live[k])
      ensures InBounds(live[j]) && InBounds(live[k])
    {
    }

    lemma LiveInBounds()
      requires Valid()
      ensures forall c :: c in live ==> InBounds(c) && c.region in regions
    {
      hide Ordered, Divides, NotLater;
    }

    /** A block other than b is apart from b. */
    lemma OthersApart(b: Block)
      requires Valid() && b in live
      ensures forall c :: c in live && c != b ==> Disjoint(b, c)
    {
      var k :| 0 <= k < |live| && live[k] == b;
      forall c | c in live && c != b
        ensures Disjoint(b, c)
      {
        var j :| 0 <= j < |live| && live[j] == c;
        if j < k {
          LiveDisjoint(j, k);
        } else {
          LiveDisjoint(k, j);
        }
      }
    }

    lemma SameRegion(b: Block, c: Block)
      requires Valid() && b in live && c in live && b.region.data == c.region.data
      ensures b.region == c.region
    {
      LiveInBounds();
    }

    method Initialise(size: nat)
      requires Valid() && end == null
      modifies this
      ensures Valid() && live == old(live) && marks == old(marks)
      ensures |regions| == 1 && fresh(regions[0]) && fresh(regions[0].data)
    {
      assert begin == null;
      var capacity := if DEFAULT_CAPACITY < size then size else DEFAULT_CAPACITY;
      end := new Region(capacity);
      begin := end;
      regions := [end];
      counts := [0];
    }

    /** Moves on past full regions. */
    method Advance(size: nat)
      requires Valid() && end != null
      modifies this`end, this`last
      ensures Valid() && end != null
      ensures end.count + size > end.capacity ==> end.next == null
    {
      hide Ordered, Divides, NotLater, Arena.Listed, Arena.Distinct, Arena.Counted;
      while end.count + size > end.capacity && end.next != null
        invariant Valid() && end != null
        decreases |regions| - last
      {
        NextOf(last);
        end := end.next;
        last := last + 1;
      }
    }

    /** A new region behind the last one. */
    method Extend(size: nat)
      requires Valid() && end != null && end.next == null
      modifies this`end, this`last, this`regions, this`counts, end`next
      ensures Valid() && end != null && end.count + size <= end.capacity
      ensures regions == old(regions) + [end] && fresh(end) && fresh(end.data)
    {
      hide Ordered, Divides, NotLater, Arena.Linked;
      var capacity := if DEFAULT_CAPACITY < size then size else DEFAULT_CAPACITY;
      var r := new Region(capacity);
      Append(r);
    }

    /** Links an empty region behind the last one and goes there. */
    method Append(r: Region)
      requires Linked() && end != null && end.next == null && r.next == null && r.count == 0
      requires r !in regions && r.data.Length == WORD * r.capacity &&
               forall i :: 0 <= i < |regions| ==> regions[i].data != r.data
      modifies this`end, this`last, this`regions, this`counts, end`next
      ensures Linked() && end == r && last == old(last) + 1
      ensures regions == old(regions) + [r] && counts == old(counts) + [0]
    {
      NextOf(last);
      end.next := r;
      end := r;
      regions := regions + [r];
      counts := counts + [0];
      last := last + 1;
    }

    method Alloc(sizeBytes: nat) returns (b: Block)
      requires Valid()
      modifies this, regions
      ensures Valid() && live == old(live) + [b] && marks == old(marks) && b.words == Words(sizeBytes)
      ensures old(regions) <= regions &&
              forall i :: |old(regions)| <= i < |regions| ==> fresh(regions[i]) && fresh(regions[i].data)
      ensures InBounds(b) && (b.region.data in old(Memory()) || fresh(b.region.data))
    {
      hide Ordered, Divides, NotLater, Arena.Listed, Arena.Distinct, Arena.Counted, Arena.Marked;
      var size := Words(sizeBytes);
      if end == null {
        Initialise(size);
      }
      Advance(size);
      if end.count + size > end.capacity {
        Extend(size);
      }
      b := Take(size);
      assert last < |old(regions)| ==> b.region == old(regions)[last] && b.region in old(regions);
    }

    /** The arrays that hold the contents of the regions. */
    ghost function Memory(): set<array<byte>>
      reads this`regions
    {
      set r | r in regions :: r.data
    }

    /** A block that holds newsz bytes, the first of which are those of the old block. What is live
        stays as it is. */
    method Realloc(oldptr: Block, oldsz: nat, newsz: nat) returns (b: Block)
      requires Valid() && oldptr in live && oldsz <= WORD * oldptr.words
      modifies this, regions, Memory()
      ensures Valid() && marks == old(marks)
      ensures old(regions) <= regions &&
              forall i :: |old(regions)| <= i < |regions| ==> fresh(regions[i]) && fresh(regions[i].data)
      ensures if newsz <= oldsz then b == oldptr && live == old(live)
              else live == old(live) + [b] && b.words == Words(newsz)
      ensures InBounds(b) && InBounds(oldptr) && oldsz <= |Bytes(b)| && Bytes(b)[..oldsz] == old(Bytes(oldptr))[..oldsz]
      ensures forall c :: c in old(live) && InBounds(c) ==> Bytes(c) == old(Bytes(c))
      ensures newsz > oldsz ==> forall c :: c in old(live) ==> Disjoint(c, b)
      ensures b.region.data in old(Memory()) || fresh(b.region.data)
    {
      hide Linked, Placed, Marked;
      LiveInBounds();
      if newsz <= oldsz {
        return oldptr;
      }
      b := Alloc(newsz);
      assert live[..|live| - 1] == old(live);
      LastApart(b);
      CopyKeeps(oldptr, b, oldsz, old(live));
    }

    lemma LastApart(b: Block)
      requires Valid() && live != [] && b == live[|live| - 1]
      ensures InBounds(b) && b.region in regions
      ensures forall c :: c in live[..|live| - 1] ==>
              InBounds(c) && Disjoint(c, b) && (c.region.data == b.region.data ==> c.region == b.region)
    {
      LiveInBounds();
      forall c | c in live[..|live| - 1]
        ensures Disjoint(c, b)
      {
        var j :| 0 <= j < |live| - 1 && live[j] == c;
        LiveDisjoint(j, |live| - 1);
      }
    }

    /** Copies to a new block, which leaves the others as they were. */
    method CopyKeeps(from: Block, to: Block, n: nat, ghost others: seq<Block>)
      requires InBounds(to) && from in others && n <= WORD * from.words && n <= WORD * to.words
      requires forall c :: c in others ==>
               InBounds(c) && Disjoint(c, to) && (c.region.data == to.region.data ==> c.region == to.region)
      modifies to.region.data
      ensures Bytes(to)[..n] == old(Bytes(from))[..n]
      ensures forall c :: c in others ==> Bytes(c) == old(Bytes(c))
    {
      Copy(from, to, n);
      ghost var d := to.region.data;
      forall c | c in others
        ensures Bytes(c) == old(Bytes(c))
      {
        if c.region.data == d {
          assert forall p :: WORD * c.start <= p < WORD * (c.start + c.words) ==> d[p] == old(d[p]);
        }
      }
    }

    /** The next words of the current region. */
    method Take(size: nat) returns (b: Block)
      requires Valid() && end != null && end.count + size <= end.capacity
      modifies this`live, this`at, this`counts, end`count
      ensures Valid() && b == Block(end, old(end.count), size)
      ensures live == old(live) + [b] && at == old(at) + [last]
    {
      hide Ordered, Divides, NotLater, Listed, Distinct;
      b := Block(end, end.count, size);
      TakeKeeps(b);
      end.count := end.count + size;
      counts := counts[last := end.count];
      live := live + [b];
      at := at + [last];
    }

    lemma TakeKeeps(b: Block)
      requires Valid() && end != null && b.region == end && b.start == end.count
      ensures Ordered(at + [last], live + [b])
      ensures forall m :: 0 <= m < |marks| ==> marks[m].live <= |live| && Divides(marks[m], at + [last], live + [b])
      ensures forall i :: 0 <= i < |regions| && i != last ==> regions[i] != end
    {
      hide Ordered, Divides, NotLater;
      OneMore(at, live, last, b);
      forall m | 0 <= m < |marks|
        ensures marks[m].live <= |live| && Divides(marks[m], at + [last], live + [b])
      {
        assert Separates(marks[m]);
        DividesMore(marks[m], at, live, last, b);
      }
    }

    method Snapshot() returns (m: Mark)
      requires Valid()
      modifies this`marks
      ensures Valid()
      ensures marks == old(marks) + [Saved(m, last, |live|)]
    {
      hide Ordered, Divides, NotLater, Linked, Separates;
      if end == null {
        m := Mark(null, 0);
      } else {
        m := Mark(end, end.count);
      }
      ghost var s := Saved(m, last, |live|);
      NowSeparates(s);
      marks := marks + [s];
    }

    lemma NowSeparates(s: Saved)
      requires Valid() && s == Saved(if end == null then Mark(null, 0) else Mark(end, end.count), last, |live|)
      ensures Separates(s) && forall m :: 0 <= m < |marks| ==> NotLater(marks[m], s)
    {
      hide Ordered, Listed, Distinct;
      assert |live| > 0 ==> at[0] < |regions|;
    }

    lemma NextOf(i: nat)
      requires Listed() && i < |regions|
      ensures regions[i].next == if i + 1 < |regions| then regions[i + 1] else null
      ensures Distinct() ==> forall j :: 0 <= j < |regions| && j != i ==> regions[j] != regions[i]
    {
    }

    /** Empties the regions from the i-th on. */
    method ClearFrom(first: Region?, ghost i: nat)
      requires i <= |regions| && first == (if i < |regions| then regions[i] else null)
      requires Listed() && Distinct() && Counted()
      modifies this`counts, regions`count
      ensures Counted()
      ensures forall j :: i <= j < |regions| ==> counts[j] == 0
      ensures forall j :: 0 <= j < i ==> counts[j] == old(counts[j])
    {
      var r := first;
      ghost var k := i;
      while r != null
        invariant i <= k <= |regions| && r == if k < |regions| then regions[k] else null
        invariant Counted()
        invariant forall j :: i <= j < k ==> counts[j] == 0
        invariant forall j :: 0 <= j < i ==> counts[j] == old(counts[j])
        decreases |regions| - k
      {
        NextOf(k);
        assert regions[k] in regions;
        r.count := 0;
        counts := counts[k := 0];
        r := r.next;
        k := k + 1;
      }
    }

    /** Everything is free again: all regions stay, and all of them are empty. */
    method Reset()
      requires Valid()
      modifies this, regions
      ensures Valid() && live == [] && marks == [] && regions == old(regions) && end == begin && last == 0
      ensures forall i :: 0 <= i < |regions| ==> regions[i].count == 0 && counts[i] == 0
    {
      ClearFrom(begin, 0);
      end := begin;
      last, live, at, marks := 0, [], [], [];
    }

    /** Back to a snapshot: exactly the blocks handed out since are free again, and snapshots taken
        before can still be returned to. */
    method Rewind(m: Mark, ghost k: nat)
      requires Valid() && k < |marks| && marks[k].mark == m
      modifies this, regions
      ensures Valid() && regions == old(regions) && marks == old(marks)[..k + 1]
      ensures old(marks)[k].live <= |old(live)| && live == old(live)[..old(marks)[k].live]
      ensures m.region != null ==> end == m.region && end.count == m.count
      ensures m.region == null ==> forall i :: 0 <= i < |regions| ==> regions[i].count == 0
      ensures m.region != null ==> forall i :: 0 <= i < last ==> counts[i] == old(counts)[i]
    {
      hide Ordered, Divides, Linked;
      ghost var s, before := marks[k], marks[..k + 1];
      assert Separates(s);
      EarlierMarks(k);
      if m.region == null {
        Reset();
        marks := before;
        assert live == old(live)[..0] && at == old(at)[..0];
        assert Linked() && Placed();
        forall j | 0 <= j < |marks|
          ensures Separates(marks[j])
        {
          assert old(Separates(marks[j]));
        }
        assert Marked();
        return;
      }
      RewindTo(m, s);
      marks := before;
    }

    /** Snapshots up to the k-th still divide what was live at the k-th. */
    lemma EarlierMarks(k: nat)
      requires Valid() && k < |marks|
      ensures var s := marks[k];
              forall j :: 0 <= j <= k ==> NotLater(marks[j], s) && Divides(marks[j], at[..s.live], live[..s.live])
      ensures forall j :: 0 <= j <= k ==> Separates(marks[j])
    {
      hide Ordered, Divides, Linked;
      var s := marks[k];
      assert Separates(s);
      forall j | 0 <= j <= k
        ensures NotLater(marks[j], s) && Divides(marks[j], at[..s.live], live[..s.live])
      {
        assert Separates(marks[j]);
        assert j < k ==> NotLater(marks[j], s);
        StillDivides(marks[j], s, at, live);
      }
    }

    /** The blocks that were live at a snapshot lie before it. */
    lemma InFront(s: Saved)
      requires Valid() && Separates(s) && s.mark.region != null
      ensures forall k :: 0 <= k < s.live ==>
              at[k] <= s.index && (at[k] == s.index ==> live[k].start + live[k].words <= s.mark.count)
    {
    }

    method SetCount(r: Region, count: nat, ghost i: nat)
      requires Counted() && Distinct() && Listed() && i < |regions| && r == regions[i]
      modifies this`counts, r`count
      ensures Counted() && counts == old(counts)[i := count]
    {
      NextOf(i);
      r.count := count;
      counts := counts[i := count];
    }

    method RewindTo(m: Mark, ghost s: Saved)
      requires Valid() && Separates(s) && s.mark == m && m.region != null
      modifies this`end, this`last, this`live, this`at, this`marks, this`counts, regions`count
      ensures Linked() && Placed() && end == m.region && end.count == m.count && last == s.index
      ensures s.live <= |old(live)| && live == old(live)[..s.live] && at == old(at)[..s.live] && marks == []
      ensures forall i :: 0 <= i < s.index ==> counts[i] == old(counts[i])
      ensures counts[s.index] == m.count
    {
      hide Arena.Linked, NotLater, Ordered, Divides;
      StillOrdered(at, live, s.live);
      InFront(s);
      RewindRegions(m, s.index);
      marks := [];
      live, at := live[..s.live], at[..s.live];
    }

    /** Back to the region of a mark; what is after it is empty again. */
    method RewindRegions(m: Mark, ghost i: nat)
      requires Linked() && i < |regions| && m.region == regions[i] && i <= last && i < |counts| && m.count <= counts[i]
      modifies this`end, this`last, this`counts, regions`count
      ensures Linked() && end == m.region && end.count == m.count && last == i && |counts| == old(|counts|)
      ensures counts[i] == m.count && forall j :: 0 <= j < i ==> counts[j] == old(counts[j])
    {
      hide Arena.Listed, Arena.Distinct, Arena.Counted;
      NextOf(i);
      SetCount(m.region, m.count, i);
      ClearFrom(m.region.next, i + 1);
      end := m.region;
      last := i;
    }
  }

  /** The byte-wise copy of arena_realloc, between ranges that do not overlap. */
  method CopyBytes(d: array<byte>, to: nat, s: array<byte>, from: nat, n: nat)
    requires to + n <= d.Length && from + n <= s.Length
    requires d == s ==> to + n <= from || from + n <= to
    modifies d
    ensures d[to..to + n] == old(s[from..from + n])
    ensures forall p :: 0 <= p < d.Length && !(to <= p < to + n) ==> d[p] == old(d[p])
  {
    var i := 0;
    while i < n
      invariant 0 <= i <= n
      invariant forall p :: 0 <= p < d.Length && !(to <= p < to + i) ==> d[p] == old(d[p])
      invariant d[to..to + i] == old(s[from..from + i])
    {
      assert s[from + i] == old(s[from + i]);
      d[to + i] := s[from + i];
      assert d[to..to + i + 1] == d[to..to + i] + [d[to + i]];
      i := i + 1;
    }
  }

  /** Copies the first n bytes of a block to another one; only the other one changes. */
  method Copy(from: Block, to: Block, n: nat)
    requires InBounds(from) && InBounds(to) && Disjoint(from, to)
    requires from.region.data == to.region.data ==> from.region == to.region
    requires n <= WORD * from.words && n <= WORD * to.words
    modifies to.region.data
    ensures Bytes(to)[..n] == old(Bytes(from))[..n]
    ensures forall p :: 0 <= p < to.region.data.Length && !(WORD * to.start <= p < WORD * (to.start + to.words)) ==>
            to.region.data[p] == old(to.region.data[p])
  {
    FirstBytes(from, n);
    CopyBytes(to.region.data, WORD * to.start, from.region.data, WORD * from.start, n);
    FirstBytes(to, n);
  }

  lemma FirstBytes(b: Block, n: nat)
    requires InBounds(b) && n <= WORD * b.words
    ensures Bytes(b)[..n] == b.region.data[WORD * b.start..WORD * b.start + n]
  {
  }

  ghost predicate Ordered(at: seq<nat>, live: seq<Block>)
    requires |at| == |live|
  {
    forall j, k :: 0 <= j < k < |live| ==>
        at[j] < at[k] || (at[j] == at[k] && live[j].start + live[j].words <= live[k].start)
  }

  /** One more block, after all others. */
  lemma OneMore(at: seq<nat>, live: seq<Block>, last: nat, b: Block)
    requires |at| == |live| && Ordered(at, live)
    requires forall k :: 0 <= k < |live| ==> at[k] < last || (at[k] == last && live[k].start + live[k].words <= b.start)
    ensures Ordered(at + [last], live + [b])
  {
  }

  lemma StillOrdered(at: seq<nat>, live: seq<Block>, n: nat)
    requires |at| == |live| && Ordered(at, live) && n <= |live|
    ensures Ordered(at[..n], live[..n])
  {
  }

  lemma DividesMore(s: Saved, at: seq<nat>, live: seq<Block>, last: nat, b: Block)
    requires |at| == |live| && s.live <= |live| && Divides(s, at, live)
    requires s.mark.region != null ==> s.index < last || (s.index == last && s.mark.count <= b.start)
    ensures Divides(s, at + [last], live + [b])
  {
  }

  /** The blocks that were live at a snapshot lie before it, and the later ones behind it. */
  ghost predicate Divides(s: Saved, at: seq<nat>, live: seq<Block>)
    requires |at| == |live| && s.live <= |live|
  {
    s.mark.region != null ==>
      && (forall k :: 0 <= k < s.live ==>
          at[k] < s.index || (at[k] == s.index && live[k].start + live[k].words <= s.mark.count))
      && (forall k :: s.live <= k < |live| ==> at[k] > s.index || (at[k] == s.index && s.mark.count <= live[k].start))
  }

  /** An earlier snapshot still separates the blocks that were live at a later one. */
  lemma StillDivides(t: Saved, s: Saved, at: seq<nat>, live: seq<Block>)
    requires |at| == |live| && t.live <= s.live <= |live| && Divides(t, at, live)
    ensures Divides(t, at[..s.live], live[..s.live])
  {
  }

  /** The first snapshot was taken before the second, or at the same time. */
  ghost predicate NotLater(s: Saved, t: Saved) {
    && s.live <= t.live && s.index <= t.index
    && (s.mark.region != null ==> t.mark.region != null)
    && (s.index == t.index ==> s.mark.count <= t.mark.count)
  }
}
