/** A growing vector of pointers whose array lives in an arena. */
module VectorObject {
  import opened Options
  import opened ArenaObject

  /** A pointer as it lies in memory. */
  type Pointer = p: seq<byte> | |p| == WORD witness [0, 0, 0, 0, 0, 0, 0, 0]

  const INIT_SIZE: nat := 10

  /** sizeof(Vector): an array pointer, a size and a length. */
  const VECTOR_BYTES: nat := 24

  /** The first n pointers of an array. */
  function Pointers(bytes: seq<byte>, n: nat): (ps: seq<Pointer>)
    requires WORD * n <= |bytes|
    ensures |ps| == n && forall i :: 0 <= i < n ==> ps[i] == bytes[WORD * i..WORD * i + WORD]
  {
    if n == 0 then [] else Pointers(bytes, n - 1) + [bytes[WORD * (n - 1)..WORD * (n - 1) + WORD]]
  }

  lemma {:induction false} SamePointers(a: seq<byte>, b: seq<byte>, n: nat)
    requires WORD * n <= |a| && WORD * n <= |b| && a[..WORD * n] == b[..WORD * n]
    ensures Pointers(a, n) == Pointers(b, n)
  {
    forall i | 0 <= i < n
      ensures Pointers(a, n)[i] == Pointers(b, n)[i]
    {
      assert a[WORD * i..WORD * i + WORD] == a[..WORD * n][WORD * i..WORD * i + WORD];
      assert b[WORD * i..WORD * i + WORD] == b[..WORD * n][WORD * i..WORD * i + WORD];
    }
  }

  lemma PushedOne(bytes: seq<byte>, n: nat, ptr: Pointer)
    requires WORD * n + WORD <= |bytes| && bytes[WORD * n..WORD * n + WORD] == ptr
    ensures Pointers(bytes, n + 1) == Pointers(bytes, n) + [ptr]
  {
  }

  lemma StoredOne(bytes: seq<byte>, n: nat, ptr: Pointer)
    requires WORD * n + WORD <= |bytes|
    ensures Pointers(bytes[..WORD * n] + ptr + bytes[WORD * n + WORD..], n + 1) == Pointers(bytes, n) + [ptr]
  {
    hide Pointers;
    var now := bytes[..WORD * n] + ptr + bytes[WORD * n + WORD..];
    SamePointers(now, bytes, n);
    assert now[WORD * n..WORD * n + WORD] == ptr;
    PushedOne(now, n, ptr);
  }

  lemma PointerAt(b: Block, i: nat)
    requires InBounds(b) && i < b.words
    ensures Bytes(b)[WORD * i..WORD * i + WORD] == b.region.data[WORD * (b.start + i)..WORD * (b.start + i) + WORD]
  {
    var d, lo, hi := b.region.data[..], WORD * b.start, WORD * (b.start + b.words);
    assert Bytes(b) == d[lo..hi];
    SliceOfSlice(d, lo, hi, WORD * i, WORD * i + WORD);
  }

  lemma SliceOfSlice(s: seq<byte>, lo: nat, hi: nat, i: nat, j: nat)
    requires lo <= hi <= |s| && i <= j <= hi - lo
    ensures s[lo..hi][i..j] == s[lo + i..lo + j]
  {
    assert forall k :: 0 <= k < j - i ==> s[lo..hi][i..j][k] == s[lo + i..lo + j][k];
  }

  lemma PutInside(s: seq<byte>, t: seq<byte>, lo: nat, hi: nat, i: nat, ptr: Pointer)
    requires lo <= hi <= |s| && i + WORD <= hi - lo && t == s[..lo + i] + ptr + s[lo + i + WORD..]
    ensures t[lo..hi] == s[lo..hi][..i] + ptr + s[lo..hi][i + WORD..]
  {
  }

  class Vector {
    const arena: Arena
    var items: Block
    var size: nat
    var length: nat

    ghost predicate Valid()
      reads this, arena, arena.regions
    {
      arena.Valid() && items in arena.live && InBounds(items) && 0 < size <= items.words && length <= size
    }

    /** The elements, in the order in which they were pushed. */
    ghost function Elements(): seq<Pointer>
      requires InBounds(items) && length <= items.words
      reads this, items.region.data
    {
      Pointers(Bytes(items), length)
    }

    constructor (arena: Arena)
      requires arena.Valid()
      modifies arena, arena.regions
      ensures Valid() && this.arena == arena && length == 0 && size == INIT_SIZE
      ensures old(arena.live) <= arena.live && arena.marks == old(arena.marks)
      ensures forall c :: c in old(arena.live) ==> Disjoint(c, items)
    {
      hide Arena.Linked, Arena.Placed, Arena.Marked;
      this.arena := arena;
      var _ := arena.Alloc(VECTOR_BYTES);
      var array_ := arena.Alloc(WORD * INIT_SIZE);
      items := array_;
      size := INIT_SIZE;
      length := 0;
      new;
      arena.LastApart(items);
    }

    /** `None` is an exit. */
    method Get(index: nat) returns (r: Option<Pointer>)
      requires Valid()
      ensures r == if index < length then Some(Elements()[index]) else None
    {
      if index >= length {
        return None;
      }
      var from := WORD * (items.start + index);
      r := Some(items.region.data[from..from + WORD]);
      PointerAt(items, index);
    }

    /** Moves the elements to an array of the new size, twice the old one. */
    method Grow()
      requires arena.Valid() && items in arena.live && InBounds(items) && size % 2 == 0 &&
               0 < size / 2 <= items.words && length <= size / 2
      modifies this`items, arena, arena.regions, arena.Memory()
      ensures Valid() && Elements() == old(Elements())
      ensures arena.marks == old(arena.marks) && old(arena.live) <= arena.live
      ensures forall c :: c in old(arena.live) ==> Disjoint(c, items)
      ensures forall c :: c in old(arena.live) && InBounds(c) ==> Bytes(c) == old(Bytes(c))
      ensures items.region.data in old(arena.Memory()) || fresh(items.region.data)
    {
      hide Arena.Linked, Arena.Placed, Arena.Marked, Pointers;
      items := arena.Realloc(items, WORD * (size / 2), WORD * size);
      assert Words(WORD * size) == size;
      ghost var oldsz := WORD * (size / 2);
      assert Bytes(items)[..WORD * length] == Bytes(items)[..oldsz][..WORD * length];
      assert old(Bytes(items))[..WORD * length] == old(Bytes(items))[..oldsz][..WORD * length];
      SamePointers(Bytes(items), old(Bytes(items)), length);
    }

    /** Stores a pointer in the array. */
    method Put(index: nat, ptr: Pointer)
      requires InBounds(items) && index < items.words
      modifies items.region.data
      ensures Bytes(items) == old(Bytes(items))[..WORD * index] + ptr + old(Bytes(items))[WORD * index + WORD..]
      ensures forall p ::
                0 <= p < items.region.data.Length && !(WORD * items.start <= p < WORD * (items.start + items.words))
                ==> items.region.data[p] == old(items.region.data[p])
    {
      var d, base := items.region.data, WORD * (items.start + index);
      ghost var before := d[..];
      forall k | 0 <= k < WORD {
        d[base + k] := ptr[k];
      }
      assert d[..] == before[..base] + ptr + before[base + WORD..];
      PutInside(before, d[..], WORD * items.start, WORD * (items.start + items.words), WORD * index, ptr);
    }

    /** Stores an element behind the last one, where there is room for it. */
    method Store(ptr: Pointer)
      requires Valid() && length < size
      modifies this`length, items.region.data
      ensures Valid() && Elements() == old(Elements()) + [ptr]
      ensures forall c :: c in arena.live && InBounds(c) && c != items ==> Bytes(c) == old(Bytes(c))
    {
      hide Arena.Linked, Arena.Placed, Arena.Marked, Pointers;
      arena.OthersApart(items);
      ghost var bytes, d := Bytes(items), items.region.data;
      StoredOne(bytes, length, ptr);
      Put(length, ptr);
      forall c | c in arena.live && InBounds(c) && c != items
        ensures Bytes(c) == old(Bytes(c))
      {
        if c.region.data == d {
          arena.SameRegion(c, items);
        }
        assert c.region.data == d ==>
            forall p :: WORD * c.start <= p < WORD * (c.start + c.words) ==> d[p] == old(d[p]);
      }
      length := length + 1;
    }

    /** Adds an element at the end, in a new array of twice the size if this one is full. What else is
        live in the arena stays as it is. */
    method Push(ptr: Pointer)
      requires Valid()
      modifies this, arena, arena.regions, arena.Memory()
      ensures Valid() && Elements() == old(Elements()) + [ptr]
      ensures arena.marks == old(arena.marks) && old(arena.live) <= arena.live
      ensures forall c :: c in old(arena.live) && InBounds(c) && c != old(items) ==> Bytes(c) == old(Bytes(c))
    {
      hide Arena.Linked, Arena.Placed, Arena.Marked;
      arena.LiveInBounds();
      if length >= size {
        size := size * 2;
        Grow();
        assert Disjoint(items, items) ==> items.words == 0;
      }
      Store(ptr);
    }
  }
}
