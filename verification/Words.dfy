/** 32-bit two's-complement words, and the RV32IM operations on them that the compiler emits.
    A word is kept as its signed value; an address is the unsigned reading of a word. */
module Words {

  const TWO32: nat := 0x1_0000_0000

  type Word = x: int | -0x8000_0000 <= x < 0x8000_0000

  /** The word congruent to `x` modulo 2^32. */
  function Wrap(x: int): (w: Word)
    ensures (w - x) % TWO32 == 0
    ensures -0x8000_0000 <= x < 0x8000_0000 ==> w == x
  {
    (x + 0x8000_0000) % TWO32 - 0x8000_0000
  }

  /** The effective address of a load or a store: base plus offset, modulo 2^32. */
  function EffAddr(base: Word, off: int): nat {
    (base + off) % TWO32
  }

  lemma EffAddrWrap(x: int, off: int)
    requires 0 <= x + off < TWO32
    ensures EffAddr(Wrap(x), off) == x + off
  {
  }

  lemma WrapMoved(x: int, q: int)
    ensures Wrap(x + TWO32 * q) == Wrap(x)
  {
  }

  lemma WrapOfSum(x: int, y: int)
    ensures Wrap(Wrap(x) + y) == Wrap(x + y)
    ensures Wrap(Wrap(x) - y) == Wrap(x - y)
  {
    var q := (Wrap(x) - x) / TWO32;
    assert Wrap(x) == x + TWO32 * q;
    WrapMoved(x + y, q);
    WrapMoved(x - y, q);
  }

  // ----- bitwise operations, on the unsigned reading -----

  function Unsigned(w: Word): nat {
    w % TWO32
  }

  function BitAnd(a: nat, b: nat): (r: nat)
    ensures r <= a && r <= b
  {
    if a == 0 || b == 0 then 0 else a % 2 * (b % 2) + 2 * BitAnd(a / 2, b / 2)
  }

  function And(a: Word, b: Word): Word {
    Wrap(BitAnd(Unsigned(a), Unsigned(b)))
  }

  // a | b == a + b - (a & b), and a ^ b == a + b - 2 (a & b)
  function Or(a: Word, b: Word): Word {
    Wrap(Unsigned(a) + Unsigned(b) - BitAnd(Unsigned(a), Unsigned(b)))
  }

  function Xor(a: Word, b: Word): Word {
    Wrap(Unsigned(a) + Unsigned(b) - 2 * BitAnd(Unsigned(a), Unsigned(b)))
  }

  function Bit(a: nat, i: nat): nat {
    if i == 0 then a % 2 else Bit(a / 2, i - 1)
  }

  /** The arithmetic definitions of `&`, `|` and `^` are the bitwise ones. */
  lemma {:induction false} BitwiseOperations(a: nat, b: nat, i: nat)
    ensures Bit(BitAnd(a, b), i) == Bit(a, i) * Bit(b, i)
    ensures Bit(a + b - BitAnd(a, b), i) == if Bit(a, i) == 1 || Bit(b, i) == 1 then 1 else 0
    ensures Bit(a + b - 2 * BitAnd(a, b), i) == if Bit(a, i) != Bit(b, i) then 1 else 0
    decreases i
  {
    hide Bit, BitAnd;
    var d, h := BitAnd(a, b), BitAnd(a / 2, b / 2);
    BitAndStep(a, b);
    if i == 0 {
      LowBits(a, b, d, h);
    } else {
      BitwiseOperations(a / 2, b / 2, i - 1);
      HalvesOf(a, b, d, h);
      NextBit(a, i);
      NextBit(b, i);
      NextBit(d, i);
      NextBit(a + b - d, i);
      NextBit(a + b - 2 * d, i);
    }
  }

  lemma NextBit(x: nat, i: nat)
    requires i > 0
    ensures Bit(x, i) == Bit(x / 2, i - 1)
  {
  }

  lemma LowBits(a: nat, b: nat, d: nat, h: nat)
    requires d == (if a % 2 == 1 && b % 2 == 1 then 1 else 0) + 2 * h && 2 * d <= a + b
    ensures Bit(d, 0) == Bit(a, 0) * Bit(b, 0)
    ensures Bit(a + b - d, 0) == if Bit(a, 0) == 1 || Bit(b, 0) == 1 then 1 else 0
    ensures Bit(a + b - 2 * d, 0) == if Bit(a, 0) != Bit(b, 0) then 1 else 0
  {
    hide Bit;
    LowBit(a);
    LowBit(b);
    LowBit(d);
    LowBit(a + b - d);
    LowBit(a + b - 2 * d);
    BitProduct(a % 2, b % 2);
    var x, y, u, v := a / 2, b / 2, a % 2, b % 2;
    assert a == 2 * x + u && b == 2 * y + v;
    var c := d - 2 * h;
    Parity(d, h, c);
    Parity(a + b - d, x + y - h, u + v - c);
    Parity(a + b - 2 * d, if u == v then x + y - d + u else x + y - d, if u == v then 0 else 1);
  }

  lemma LowBit(x: nat)
    ensures Bit(x, 0) == x % 2
  {
  }

  lemma Parity(n: int, k: int, c: int)
    requires n == 2 * k + c && 0 <= c < 2
    ensures n % 2 == c
  {
  }

  lemma BitAndStep(a: nat, b: nat)
    ensures BitAnd(a, b) == (if a % 2 == 1 && b % 2 == 1 then 1 else 0) + 2 * BitAnd(a / 2, b / 2)
  {
    if a != 0 && b != 0 {
      BitProduct(a % 2, b % 2);
    }
  }

  lemma BitProduct(x: nat, y: nat)
    requires x < 2 && y < 2
    ensures x * y == if x == 1 && y == 1 then 1 else 0
  {
    if x == 0 {
      assert x * y == 0;
    }
  }

  lemma HalvesOf(a: nat, b: nat, d: nat, h: nat)
    requires d == (if a % 2 == 1 && b % 2 == 1 then 1 else 0) + 2 * h
    ensures (a + b - d) / 2 == a / 2 + b / 2 - h
    ensures (a + b - 2 * d) / 2 == a / 2 + b / 2 - 2 * h
    ensures d / 2 == h
  {
  }

  /** The 32 bits of a word determine those of `&`, `|` and `^`, which is what C99 sections 6.5.10 to
      6.5.12 ask for. */
  lemma BitsOfOperations(x: Word, y: Word, i: nat)
    requires i < 32
    ensures var a, b := BitOf(x, i), BitOf(y, i);
            && (BitOf(And(x, y), i) <==> a && b)
            && (BitOf(Or(x, y), i) <==> a || b)
            && (BitOf(Xor(x, y), i) <==> a != b)
  {
    var a, b := Unsigned(x), Unsigned(y);
    BitwiseOperations(a, b, i);
    FitsWord(a, b);
    hide Bit, BitAnd;
    BitIsBinary(a, i);
    BitIsBinary(b, i);
    BitProduct(Bit(a, i), Bit(b, i));
    UnsignedOfWrap(BitAnd(a, b));
    UnsignedOfWrap(a + b - BitAnd(a, b));
    UnsignedOfWrap(a + b - 2 * BitAnd(a, b));
  }

  /** Bit number i of the two's-complement representation. */
  predicate BitOf(w: Word, i: nat) {
    Bit(Unsigned(w), i) == 1
  }

  /** Words with the same bits are the same, so the lemma above determines the operations. */
  lemma SameBits(x: Word, y: Word)
    requires forall i :: 0 <= i < 32 ==> (BitOf(x, i) <==> BitOf(y, i))
    ensures x == y
  {
    var a, b := Unsigned(x), Unsigned(y);
    forall i | 0 <= i < 32
      ensures Bit(a, i) == Bit(b, i)
    {
      assert BitOf(x, i) <==> BitOf(y, i);
      BitIsBinary(a, i);
      BitIsBinary(b, i);
    }
    Pow2Of32();
    SameBitsSameNumber(a, b, 32);
  }

  lemma {:induction false} SameBitsSameNumber(a: nat, b: nat, n: nat)
    requires a < Pow2(n) && b < Pow2(n) && forall i :: 0 <= i < n ==> Bit(a, i) == Bit(b, i)
    ensures a == b
    decreases n
  {
    if n > 0 {
      assert Bit(a, 0) == Bit(b, 0);
      forall i | 0 <= i < n - 1
        ensures Bit(a / 2, i) == Bit(b / 2, i)
      {
        assert Bit(a, i + 1) == Bit(b, i + 1);
        NextBit(a, i + 1);
        NextBit(b, i + 1);
      }
      SameBitsSameNumber(a / 2, b / 2, n - 1);
    }
  }

  function Pow2(n: nat): (p: nat)
    ensures p > 0
  {
    if n == 0 then 1 else 2 * Pow2(n - 1)
  }

  lemma Pow2Of32()
    ensures Pow2(32) == TWO32
  {
    assert Pow2(8) == 0x100;
    assert Pow2(16) == 0x1_0000;
    assert Pow2(24) == 0x100_0000;
  }

  lemma {:induction false} BitIsBinary(a: nat, i: nat)
    ensures Bit(a, i) == 0 || Bit(a, i) == 1
    decreases i
  {
    if i > 0 {
      BitIsBinary(a / 2, i - 1);
    }
  }

  lemma UnsignedOfWrap(x: nat)
    requires x < TWO32
    ensures Unsigned(Wrap(x)) == x
  {
  }

  /** The arithmetic of `|` and `^` does not leave the 32 bits. */
  lemma FitsWord(a: nat, b: nat)
    requires a < TWO32 && b < TWO32
    ensures a + b - BitAnd(a, b) < TWO32 && 0 <= a + b - 2 * BitAnd(a, b) < TWO32
  {
    Pow2Of32();
    OrFits(a, b, 32);
  }

  lemma {:induction false} OrFits(a: nat, b: nat, n: nat)
    requires a < Pow2(n) && b < Pow2(n)
    ensures a + b - BitAnd(a, b) < Pow2(n)
    decreases n
  {
    if n > 0 {
      BitAndStep(a, b);
      OrFits(a / 2, b / 2, n - 1);
    }
  }

  // ----- the operations -----

  /** Division rounding toward zero (C99 section 6.5.5 and RISC-V `div`). */
  function TruncDiv(a: int, b: int): int
    requires b != 0
  {
    if (a < 0) == (b < 0) then Abs(a) / Abs(b) else -(Abs(a) / Abs(b))
  }

  function Abs(a: int): nat {
    if a < 0 then -a else a
  }

  /** `div`: a zero divisor gives -1; the overflowing quotient wraps. */
  function DivWord(a: Word, b: Word): Word {
    if b == 0 then -1 else Wrap(TruncDiv(a, b))
  }

  /** `sll` and `sra` use the low five bits of the shift amount. */
  function ShiftLeft(a: Word, b: Word): Word {
    Wrap(Doubled(a, b % 32))
  }

  function ShiftRight(a: Word, b: Word): Word {
    Halved(a, b % 32)
  }

  function Doubled(a: int, k: nat): int
    decreases k
  {
    if k == 0 then a else Doubled(2 * a, k - 1)
  }

  /** Halving k times, each time rounding down, keeps the sign. */
  function Halved(a: Word, k: nat): (r: Word)
    ensures r < 0 <==> a < 0
    decreases k
  {
    if k == 0 then a else Halved(a / 2, k - 1)
  }

  function Truth(b: bool): Word {
    if b then 1 else 0
  }

  // ----- what division and shifts mean -----

  /** C99 section 6.5.5: the quotient with its fraction discarded, and the remainder that belongs to it,
      which is smaller than the divisor and has the sign of the dividend. */
  lemma DivisionTruncates(a: int, b: int)
    requires b != 0
    ensures var r := a - TruncDiv(a, b) * b;
            Abs(r) < Abs(b) && (r == 0 || (r < 0 <==> a < 0))
  {
    var q, m := Abs(a) / Abs(b), Abs(a) % Abs(b);
    assert Abs(a) == q * Abs(b) + m;
    QuotientSigns(q, b);
  }

  lemma QuotientSigns(q: int, b: int)
    ensures (-q) * b == -(q * b) && q * (-b) == -(q * b) && (-q) * (-b) == q * b
  {
  }

  /** And only one quotient is such. */
  lemma QuotientUnique(a: int, b: int, q: int)
    requires b != 0
    requires var r := a - q * b; Abs(r) < Abs(b) && (r == 0 || (r < 0 <==> a < 0))
    ensures q == TruncDiv(a, b)
  {
    DivisionTruncates(a, b);
    hide TruncDiv;
    var p := TruncDiv(a, b);
    DifferenceTimes(q, p, b);
    CloseRemainders(a, a - q * b, a - p * b, b);
    SmallMultiple(q - p, b);
  }

  lemma DifferenceTimes(q: int, p: int, b: int)
    ensures (q - p) * b == q * b - p * b
  {
  }

  lemma CloseRemainders(a: int, r: int, r': int, b: int)
    requires Abs(r) < Abs(b) && Abs(r') < Abs(b)
    requires (r == 0 || (r < 0 <==> a < 0)) && (r' == 0 || (r' < 0 <==> a < 0))
    ensures Abs(r' - r) < Abs(b)
  {
  }

  lemma SmallMultiple(d: int, b: int)
    requires Abs(d * b) < Abs(b)
    ensures d == 0
  {
    QuotientSigns(d, b);
    if d > 0 {
      Grows(d, Abs(b));
    } else if d < 0 {
      Grows(-d, Abs(b));
    }
  }

  lemma Grows(d: nat, n: nat)
    requires d > 0
    ensures d * n >= n
  {
    assert d * n == (d - 1) * n + n && (d - 1) * n >= 0;
  }

  /** C99 section 6.5.7: shifting left multiplies by a power of two. */
  lemma {:induction false} DoubledIsProduct(a: int, k: nat)
    ensures Doubled(a, k) == a * Pow2(k)
    decreases k
  {
    if k > 0 {
      DoubledIsProduct(2 * a, k - 1);
      assert (2 * a) * Pow2(k - 1) == a * (2 * Pow2(k - 1));
    }
  }

  /** Shifting right divides by a power of two, rounding down. */
  lemma {:induction false} HalvedIsQuotient(a: Word, k: nat)
    ensures Halved(a, k) * Pow2(k) <= a < (Halved(a, k) + 1) * Pow2(k)
    decreases k
  {
    if k > 0 {
      HalvedIsQuotient(a / 2, k - 1);
      var h, p := Halved(a, k), Pow2(k - 1);
      DoubledProduct(h, p);
      DoubledProduct(h + 1, p);
      Halves(a, h * p, (h + 1) * p);
    }
  }

  lemma FloorUnique(a: int, p: int, q: int)
    requires p > 0 && q * p <= a < (q + 1) * p
    ensures a / p == q
  {
    var f, m := a / p, a % p;
    assert a == f * p + m;
    assert (q - f) * p == q * p - f * p && (f - q) * p == f * p - q * p && (q + 1) * p == q * p + p;
    SmallMultiple(q - f, p);
  }

  lemma DoubledProduct(h: int, p: int)
    ensures h * (2 * p) == 2 * (h * p)
  {
  }

  lemma Halves(a: int, low: int, high: int)
    requires low <= a / 2 < high
    ensures 2 * low <= a < 2 * high
  {
  }

  /** `==` is compiled to a wrapping subtraction compared with zero. */
  lemma WrappedDifferenceIsZero(a: Word, b: Word)
    ensures Wrap(b - a) == 0 <==> a == b
  {
  }

  /** `<=` and `>=` invert a truth value with `xori 1`. */
  lemma XorOneInverts(b: bool)
    ensures Xor(Truth(b), 1) == Truth(!b)
  {
    assert BitAnd(1, 1) == 1;
    assert BitAnd(0, 1) == 0;
  }
}
