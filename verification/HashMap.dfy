/** The chained hash map behind the symbol tables: buckets of linked nodes, updated in place, that
    refine a finite map. */
module HashMapObject {
  import opened Options

  const TABLE_SIZE: nat := 100

  // ----- FNV-1a -----

  const FNV_OFFSET: bv64 := 14695981039346656037
  const FNV_PRIME: bv64 := 1099511628211

  function Octet(c: char): bv64 {
    (c as int % 256) as bv64
  }

  function Mix(h: bv64, c: char): bv64 {
    (h ^ Octet(c)) * FNV_PRIME
  }

  function Fnv(key: string, h: bv64): bv64 {
    if key == [] then h else Fnv(key[1..], Mix(h, key[0]))
  }

  method Hash(key: string) returns (h: bv64)
    ensures h == Fnv(key, FNV_OFFSET)
  {
    hide Mix;
    h := FNV_OFFSET;
    var i := 0;
    while i < |key|
      invariant 0 <= i <= |key| && Fnv(key[i..], h) == Fnv(key, FNV_OFFSET)
    {
      assert key[i..][0] == key[i] && key[i..][1..] == key[i + 1..];
      h := Mix(h, key[i]);
      i := i + 1;
    }
  }

  /** Published values of 64-bit FNV-1a, for "", "a" and "b". */
  lemma KnownHashes()
    ensures Fnv("", FNV_OFFSET) == 0xCBF2_9CE4_8422_2325
    ensures Fnv("a", FNV_OFFSET) == 0xAF63_DC4C_8601_EC8C
    ensures Fnv("b", FNV_OFFSET) == 0xAF63_DF4C_8601_F1A5
  {
    OctetOfA();
    OctetOfB();
    hide Octet, Mix;
    KnownSteps();
    assert "a"[1..] == "" && "b"[1..] == "";
  }

  lemma OctetOfA()
    ensures Octet('a') == 97
  {
  }

  lemma OctetOfB()
    ensures Octet('b') == 98
  {
  }

  lemma KnownSteps()
    requires Octet('a') == 97 && Octet('b') == 98
    ensures Mix(FNV_OFFSET, 'a') == 0xAF63_DC4C_8601_EC8C && Mix(FNV_OFFSET, 'b') == 0xAF63_DF4C_8601_F1A5
  {
    hide Octet;
  }

  /** A hash stored in an int and converted back to 64 bits, which extends its sign. */
  function ThroughInt(h: bv64): bv64 {
    var low := h & 0xFFFF_FFFF;
    if low & 0x8000_0000 != 0 then low | 0xFFFF_FFFF_0000_0000 else low
  }

  /** The mask is one less than the table size, which is not a power of two. The truncation to an
      int loses nothing that the mask would keep. */
  function Masked(h: bv64): (r: bv64)
    ensures r == h & 99
  {
    ThroughInt(h) & 99
  }

  function Bucket(h: bv64): (i: nat)
    ensures i < TABLE_SIZE
  {
    Masked(h) as nat
  }

  /** Only 16 of the 100 buckets are ever used: those with an index whose bits are among those of 99. */
  lemma BucketsUsed(i: nat)
    ensures (exists h :: Bucket(h) == i) <==> i in {0, 1, 2, 3, 32, 33, 34, 35, 64, 65, 66, 67, 96, 97, 98, 99}
  {
    hide Masked;
    forall h
      ensures Bucket(h) in {0, 1, 2, 3, 32, 33, 34, 35, 64, 65, 66, 67, 96, 97, 98, 99}
    {
      UsedBits(h);
    }
    if i in {0, 1, 2, 3, 32, 33, 34, 35, 64, 65, 66, 67, 96, 97, 98, 99} {
      assert Bucket(i as bv64) == i;
    }
  }

  lemma UsedBits(h: bv64)
    ensures (h & 99) as nat in {0, 1, 2, 3, 32, 33, 34, 35, 64, 65, 66, 67, 96, 97, 98, 99}
  {
    var r := h & 99;
    assert r == 0 || r == 1 || r == 2 || r == 3 || r == 32 || r == 33 || r == 34 || r == 35
        || r == 64 || r == 65 || r == 66 || r == 67 || r == 96 || r == 97 || r == 98 || r == 99;
  }

  function Index(key: string): (i: nat)
    ensures i < TABLE_SIZE
  {
    Bucket(Fnv(key, FNV_OFFSET))
  }

  // ----- the table -----

  class TableNode<T> {
    var data: T
    const key: string
    var next: TableNode?<T>

    constructor (next: TableNode?<T>, data: T, key: string)
      ensures this.next == next && this.data == data && this.key == key
    {
      this.next := next;
      this.data := data;
      this.key := key;
    }
  }

  /** `chain` lists the nodes of a linked list, from its first node on. */
  ghost predicate Linked<T>(first: TableNode?<T>, chain: seq<TableNode<T>>)
    reads chain
  {
    && (if chain == [] then first == null else first == chain[0])
    && forall j :: 0 <= j < |chain| ==> chain[j].next == if j + 1 < |chain| then chain[j + 1] else null
  }

  lemma NextInChain<T>(first: TableNode?<T>, chain: seq<TableNode<T>>, j: nat)
    requires Linked(first, chain) && j < |chain|
    ensures chain[j].next == if j + 1 < |chain| then chain[j + 1] else null
  {
  }

  lemma FirstInChain<T>(first: TableNode?<T>, chain: seq<TableNode<T>>)
    requires Linked(first, chain)
    ensures first == if chain == [] then null else chain[0]
  {
  }

  /** The data of the first node with the key. */
  method Find<T>(first: TableNode?<T>, key: string, ghost chain: seq<TableNode<T>>) returns (r: Option<T>)
    requires Linked(first, chain)
    ensures r.Some? ==> exists j :: 0 <= j < |chain| && chain[j].key == key && chain[j].data == r.value
    ensures r.None? ==> forall j :: 0 <= j < |chain| ==> chain[j].key != key
  {
    hide Linked;
    FirstInChain(first, chain);
    var curr := first;
    ghost var j := 0;
    while curr != null
      invariant 0 <= j <= |chain| && curr == if j < |chain| then chain[j] else null
      invariant forall i :: 0 <= i < j ==> chain[i].key != key
      decreases |chain| - j
    {
      if curr.key == key {
        return Some(curr.data);
      }
      NextInChain(first, chain, j);
      curr := curr.next;
      j := j + 1;
    }
    r := None;
  }

  /** Bucket i holds nodes of its own keys, no key twice, with the data of the map. */
  ghost predicate Holds<T>(first: TableNode?<T>, chain: seq<TableNode<T>>, i: nat, contents: map<string, T>)
    reads chain
  {
    && Linked(first, chain)
    && (forall j :: 0 <= j < |chain| ==> Index(chain[j].key) == i)
    && (forall j, k :: 0 <= j < k < |chain| ==> chain[j].key != chain[k].key)
    && (forall j :: 0 <= j < |chain| ==> chain[j].key in contents && contents[chain[j].key] == chain[j].data)
  }

  ghost predicate HasKey<T>(chain: seq<TableNode<T>>, key: string) {
    exists j :: 0 <= j < |chain| && chain[j].key == key
  }

  /** A new value for a key of another bucket changes nothing here. */
  lemma Unaffected<T>(first: TableNode?<T>, chain: seq<TableNode<T>>, i: nat, contents: map<string, T>, key: string,
                      data: T)
    requires Holds(first, chain, i, contents) && Index(key) != i
    ensures Holds(first, chain, i, contents[key := data])
  {
    hide Index;
  }

  /** Links a new node behind the last node of a bucket. */
  method Attach<T>(prev: TableNode<T>, n: TableNode<T>, ghost first: TableNode?<T>, ghost chain: seq<TableNode<T>>,
                   ghost i: nat, ghost contents: map<string, T>)
    requires Holds(first, chain, i, contents) && chain != [] && prev == chain[|chain| - 1]
    requires Index(n.key) == i && n.next == null && !HasKey(chain, n.key)
    modifies prev`next
    ensures Holds(first, chain + [n], i, contents[n.key := n.data])
  {
    hide Index;
    prev.next := n;
    assert Linked(first, chain + [n]);
  }

  lemma OneNode<T>(n: TableNode<T>, i: nat, contents: map<string, T>)
    requires Index(n.key) == i && n.next == null
    ensures forall chain :: chain == [] ==> Holds(n, chain + [n], i, contents[n.key := n.data])
  {
    hide Index;
  }

  lemma Extended<T>(chain: seq<TableNode<T>>, n: TableNode<T>, key: string)
    requires key == n.key || HasKey(chain, key)
    ensures HasKey(chain + [n], key)
  {
    if key == n.key {
      assert (chain + [n])[|chain|].key == key;
    } else {
      var j :| 0 <= j < |chain| && chain[j].key == key;
      assert (chain + [n])[j].key == key;
    }
  }

  class HashMap<T> {
    const size: nat := TABLE_SIZE
    const table: array<TableNode?<T>>

    /** The nodes of each bucket, in order. */
    ghost var chains: seq<seq<TableNode<T>>>
    ghost var contents: map<string, T>
    ghost var Repr: set<object>

    ghost predicate Valid()
      reads this, Repr
      ensures Valid() ==> this in Repr && table in Repr
    {
      && this in Repr && table in Repr && table.Length == TABLE_SIZE && |chains| == TABLE_SIZE
      && (forall i, j :: 0 <= i < TABLE_SIZE && 0 <= j < |chains[i]| ==> chains[i][j] in Repr)
      && (forall i :: 0 <= i < TABLE_SIZE ==> Holds(table[i], chains[i], i, contents))
      && (forall key :: key in contents ==> HasKey(chains[Index(key)], key))
    }

    constructor ()
      ensures Valid() && fresh(Repr) && contents == map[]
    {
      table := new TableNode?<T>[TABLE_SIZE](_ => null);
      chains := seq(TABLE_SIZE, _ => []);
      contents := map[];
      new;
      Repr := {this, table};
    }

    /** A node of bucket i is in no other bucket. */
    lemma Apart(i: nat, n: TableNode<T>)
      requires Valid() && i < TABLE_SIZE && n in chains[i]
      ensures forall k :: 0 <= k < TABLE_SIZE && k != i ==> n !in chains[k]
    {
      hide Index;
    }

    /** Gives the j-th node of a bucket new data. */
    method Overwrite(index: nat, curr: TableNode<T>, data: T, ghost j: nat)
      requires Valid() && index < TABLE_SIZE && j < |chains[index]| && curr == chains[index][j]
      modifies curr`data, this`contents
      ensures Valid() && contents == old(contents)[curr.key := data]
    {
      hide Index;
      Apart(index, curr);
      ghost var before := contents;
      curr.data := data;
      contents := contents[curr.key := data];
      forall i | 0 <= i < TABLE_SIZE
        ensures Holds(table[i], chains[i], i, contents)
      {
        if i != index {
          Unaffected(table[i], chains[i], i, before, curr.key, data);
        }
      }
    }

    /** Puts a new node at the end of a bucket: after `prev`, or first if there is none. */
    method Append(index: nat, prev: TableNode?<T>, n: TableNode<T>)
      requires Valid() && index < TABLE_SIZE && index == Index(n.key) && n !in Repr && n.next == null
      requires if chains[index] == [] then prev == null else prev == chains[index][|chains[index]| - 1]
      requires !HasKey(chains[index], n.key)
      modifies Repr
      ensures Valid() && Repr == old(Repr) + {n}
      ensures contents == old(contents)[n.key := n.data]
    {
      hide Index, HasKey, Holds;
      AppendedKeys(index, n);
      if prev != null {
        Apart(index, prev);
      }
      ghost var chain := chains[index];
      if prev == null {
        table[index] := n;
        OneNode(n, index, contents);
      } else {
        Attach(prev, n, table[index], chain, index, contents);
      }
      forall i | 0 <= i < TABLE_SIZE && i != index
        ensures Holds(table[i], chains[i], i, contents[n.key := n.data])
      {
        Unaffected(table[i], chains[i], i, contents, n.key, n.data);
      }
      chains := chains[index := chain + [n]];
      contents := contents[n.key := n.data];
      Repr := Repr + {n};
    }

    lemma AppendedKeys(index: nat, n: TableNode<T>)
      requires Valid() && index == Index(n.key)
      ensures forall key :: key in contents[n.key := n.data] ==>
              HasKey(chains[index := chains[index] + [n]][Index(key)], key)
    {
      hide Index, HasKey;
      forall key | key in contents[n.key := n.data]
        ensures HasKey(chains[index := chains[index] + [n]][Index(key)], key)
      {
        if Index(key) == index {
          Extended(chains[index], n, key);
        }
      }
    }

    /** The data of an equal key is overwritten; otherwise a new node ends the list of the bucket. */
    method Insert(index: nat, data: T, key: string)
      requires Valid() && index == Index(key)
      modifies Repr
      ensures Valid() && fresh(Repr - old(Repr))
      ensures contents == old(contents)[key := data]
    {
      hide Index;
      ghost var chain := chains[index];
      var n := new TableNode<T>(null, data, key);
      assert Linked(table[index], chain) by { assert Holds(table[index], chain, index, contents); }
      var curr := table[index];
      var prev := curr;
      ghost var j := 0;
      while curr != null && curr.key != key
        invariant 0 <= j <= |chain| && curr == if j < |chain| then chain[j] else null
        invariant Linked(table[index], chain) && Valid() && chain == chains[index]
        invariant if j == 0 then prev == curr else prev == chain[j - 1]
        invariant forall i :: 0 <= i < j ==> chain[i].key != key
        modifies {}
        decreases |chain| - j
      {
        NextInChain(table[index], chain, j);
        prev := curr;
        curr := curr.next;
        j := j + 1;
      }
      if curr != null {
        Overwrite(index, curr, data, j);
      } else {
        Append(index, prev, n);
      }
    }

    method Add(data: T, key: string)
      requires Valid()
      modifies Repr
      ensures Valid() && fresh(Repr - old(Repr))
      ensures contents == old(contents)[key := data]
    {
      hide Bucket, Fnv;
      var h := Hash(key);
      Insert(Bucket(h), data, key);
    }

    method Get(key: string) returns (r: Option<T>)
      requires Valid()
      ensures r == if key in contents then Some(contents[key]) else None
    {
      hide Bucket, Fnv;
      var h := Hash(key);
      var index := Bucket(h);
      assert index == Index(key) && Holds(table[index], chains[index], index, contents);
      r := Find(table[index], key, chains[index]);
    }

    /** A new map with the same contents and none of the nodes. */
    method Clone() returns (clone: HashMap<T>)
      requires Valid()
      ensures clone.Valid() && fresh(clone.Repr) && clone.contents == contents
    {
      hide Index, Holds, HasKey;
      clone := new HashMap<T>();
      var i := 0;
      while i < size
        invariant 0 <= i <= TABLE_SIZE
        invariant Valid() && clone.Valid() && fresh(clone.Repr)
        invariant Copied(clone.contents, i)
      {
        CopyBucket(clone, i);
        i := i + 1;
      }
      EveryKey(clone.contents);
    }

    method CopyBucket(clone: HashMap<T>, i: nat)
      requires Valid() && clone.Valid() && clone.Repr !! Repr && i < TABLE_SIZE && Copied(clone.contents, i)
      modifies clone.Repr
      ensures clone.Valid() && fresh(clone.Repr - old(clone.Repr)) && Copied(clone.contents, i + 1)
    {
      hide Index, HasKey, Linked;
      var curr := table[i];
      ghost var j := 0;
      ghost var chain := chains[i];
      assert Holds(table[i], chain, i, contents);
      FirstInChain(table[i], chain);
      while curr != null
        invariant 0 <= j <= |chain| && curr == if j < |chain| then chain[j] else null
        invariant Holds(table[i], chain, i, contents)
        invariant clone.Valid() && fresh(clone.Repr - old(clone.Repr)) && clone.Repr !! Repr
        invariant Copied(clone.contents, i)
        invariant forall k :: 0 <= k < j ==> chain[k].key in clone.contents
        decreases |chain| - j
      {
        clone.Add(curr.data, curr.key);
        NextInChain(table[i], chain, j);
        curr := curr.next;
        j := j + 1;
      }
    }

    lemma EveryKey(copy: map<string, T>)
      requires Valid() && Copied(copy, TABLE_SIZE)
      ensures copy == contents
    {
      hide Index;
      forall key | key in contents
        ensures key in copy
      {
        assert HasKey(chains[Index(key)], key);
      }
    }

    /** What has been copied agrees, and the first n buckets have been. */
    ghost predicate Copied(copy: map<string, T>, n: nat)
      requires n <= |chains|
      reads this
    {
      && (forall key :: key in copy ==> key in contents && copy[key] == contents[key])
      && (forall i, k :: 0 <= i < n && 0 <= k < |chains[i]| ==> chains[i][k].key in copy)
    }
  }
}
