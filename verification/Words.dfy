/** Thirty-two-bit machine words as bounded integers.

    A right shift by a constant is a division, a low-bit mask a remainder and an
    OR of disjoint fields a sum. Only the ALU's bitwise operators and variable
    shifts go through bit-vectors. */
module Words {
  type Word = x: int | 0 <= x < 0x1_0000_0000
  type Byte = x: int | 0 <= x < 0x100
  type RegIndex = x: int | 0 <= x < 32

  datatype Option<+T> = None | Some(value: T)

  /** Two's-complement wrap-around of any integer. */
  function Wrap(x: int): Word { x % 0x1_0000_0000 }

  /** The signed value a word denotes. */
  function Signed(w: Word): int {
    if w < 0x8000_0000 then w else w - 0x1_0000_0000
  }

  // ---- Bits ----

  /** Bit i of a number, counting from the least significant. */
  predicate BitOf(b: nat, i: nat) { if i == 0 then b % 2 == 1 else BitOf(b / 2, i - 1) }

  /** The number with these bits, least significant first. */
  function FromBits(bits: seq<bool>): nat {
    if bits == [] then 0 else (if bits[0] then 1 else 0) + 2 * FromBits(bits[1..])
  }

  function Pow2(k: nat): nat { if k == 0 then 1 else 2 * Pow2(k - 1) }

  datatype Gate = AndGate | OrGate | XorGate

  predicate Output(g: Gate, x: bool, y: bool) {
    match g
    case AndGate => x && y
    case OrGate => x || y
    case XorGate => x != y
  }

  /** A row of k gates, computed from the low end. */
  function Gates(g: Gate, a: nat, b: nat, k: nat): (r: nat)
    ensures r < Pow2(k)
  {
    if k == 0 then 0
    else 2 * Gates(g, a / 2, b / 2, k - 1) + (if Output(g, a % 2 == 1, b % 2 == 1) then 1 else 0)
  }

  lemma WordSize()
    ensures Pow2(32) == 0x1_0000_0000
  {
    assert Pow2(8) == 0x100 && Pow2(16) == 0x1_0000 && Pow2(24) == 0x100_0000;
  }

  /** The machines' bitwise operators and shifts: a shift moves one place at a time. */
  function And32(a: Word, b: Word): Word { WordSize(); Gates(AndGate, a, b, 32) }
  function Or32(a: Word, b: Word): Word { WordSize(); Gates(OrGate, a, b, 32) }
  function Xor32(a: Word, b: Word): Word { WordSize(); Gates(XorGate, a, b, 32) }

  function ShiftLeft(a: Word, places: nat): Word {
    if places == 0 then a else ShiftLeft(a, places - 1) * 2 % 0x1_0000_0000
  }

  function ShiftRight(a: Word, places: nat): Word { if places == 0 then a else ShiftRight(a, places - 1) / 2 }

  function Shl32(a: Word, amount: Word): Word { ShiftLeft(a, amount % 32) }
  function Shr32(a: Word, amount: Word): Word { ShiftRight(a, amount % 32) }

  /** Each output bit is the gate of the input bits. */
  lemma {:induction false} GateBits(g: Gate, a: nat, b: nat, k: nat, i: nat)
    requires i < k
    ensures BitOf(Gates(g, a, b, k), i) == Output(g, BitOf(a, i), BitOf(b, i))
  {
    var high := Gates(g, a / 2, b / 2, k - 1);
    assert Gates(g, a, b, k) / 2 == high;
    if i > 0 {
      GateBits(g, a / 2, b / 2, k - 1, i - 1);
    }
  }

  lemma {:induction false} FromBitsBits(bits: seq<bool>, i: nat)
    requires i < |bits|
    ensures BitOf(FromBits(bits), i) == bits[i]
  {
    assert FromBits(bits) / 2 == FromBits(bits[1..]);
    if i > 0 {
      FromBitsBits(bits[1..], i - 1);
    }
  }

  lemma {:induction false} FromBitsBound(bits: seq<bool>)
    ensures FromBits(bits) < Pow2(|bits|)
  {
    if bits != [] {
      FromBitsBound(bits[1..]);
    }
  }

  /** A number below 2^k is its low k bits. */
  lemma {:induction false} SameBits(a: nat, b: nat, k: nat)
    requires a < Pow2(k) && b < Pow2(k) && forall i: nat :: i < k ==> BitOf(a, i) == BitOf(b, i)
    ensures a == b
  {
    if k > 0 {
      forall i: nat | i < k - 1
        ensures BitOf(a / 2, i) == BitOf(b / 2, i)
      {
        assert BitOf(a, i + 1) == BitOf(b, i + 1);
      }
      SameBits(a / 2, b / 2, k - 1);
      assert BitOf(a, 0) == BitOf(b, 0);
    }
  }

  /** Places shifted are factors of two, modulo 2^32 to the left. */
  lemma ShiftsScale(a: Word, places: nat)
    ensures ShiftLeft(a, places) == Wrap(a * Pow2(places))
    ensures Pow2(places) > 0 && ShiftRight(a, places) == a / Pow2(places)
  {
    LeftScales(a, places);
    RightScales(a, places);
  }

  lemma {:induction false} LeftScales(a: Word, places: nat)
    ensures ShiftLeft(a, places) == Wrap(a * Pow2(places))
  {
    if places > 0 {
      LeftScales(a, places - 1);
      var w := a * Pow2(places - 1);
      assert a * Pow2(places) == 2 * w by { Doubled(a, Pow2(places - 1)); }
      hide Wrap;
      WrapDouble(w);
    }
  }

  lemma Doubled(a: int, p: int)
    ensures a * (2 * p) == 2 * (a * p)
  {
  }

  lemma {:induction false} RightScales(a: Word, places: nat)
    ensures Pow2(places) > 0 && ShiftRight(a, places) == a / Pow2(places)
  {
    if places > 0 {
      RightScales(a, places - 1);
      HalvedQuotient(a, Pow2(places - 1));
    }
  }

  lemma WrapDouble(w: int)
    ensures Wrap(w) * 2 % 0x1_0000_0000 == Wrap(2 * w)
  {
    WrapMultiple(2 * Wrap(w), 2 * (w / 0x1_0000_0000));
    assert w == Wrap(w) + 0x1_0000_0000 * (w / 0x1_0000_0000);
  }

  lemma HalvedQuotient(a: nat, p: nat)
    requires p > 0
    ensures a / p / 2 == a / (2 * p)
  {
    var u, v := a / p, a % p;
    var q := u / 2;
    assert a == p * u + v;
    Distribute(p, q, u % 2);
    if u % 2 == 0 {
      QuotientIs(a, 2 * p, q, v);
    } else {
      QuotientIs(a, 2 * p, q, p + v);
    }
  }

  lemma Distribute(p: int, q: int, t: int)
    ensures p * (2 * q + t) == (2 * p) * q + p * t
  {
  }

  lemma QuotientIs(a: int, y: int, q: int, r: int)
    requires y > 0 && a == y * q + r && 0 <= r < y
    ensures a / y == q
  {
    var d := a / y - q;
    assert y * (a / y) == y * q + y * d;
    assert y * d == r - a % y;
    assert d >= 1 ==> y * d >= y;
    assert d <= -1 ==> y * d <= -y;
  }

  /** Sign extension of a 16-bit and of a 26-bit field. */
  function Sext16(x: int): int { if x < 0x8000 then x else x - 0x1_0000 }
  function Sext26(x: int): int { if x < 0x200_0000 then x else x - 0x400_0000 }

  /** Whole multiples of 2^32 disappear. */
  lemma WrapMultiple(x: int, q: int)
    ensures Wrap(x + 0x1_0000_0000 * q) == Wrap(x)
  {
    assert x == 0x1_0000_0000 * (x / 0x1_0000_0000) + Wrap(x);
    assert x + 0x1_0000_0000 * q == 0x1_0000_0000 * (x / 0x1_0000_0000 + q) + Wrap(x);
  }

  lemma WrapAdd(a: int, b: int)
    ensures Wrap(Wrap(a) + Wrap(b)) == Wrap(a + b)
    ensures Wrap(a + Wrap(b)) == Wrap(a + b)
    ensures Wrap(Wrap(a) + b) == Wrap(a + b)
  {
    var p, q := a / 0x1_0000_0000, b / 0x1_0000_0000;
    assert a == Wrap(a) + 0x1_0000_0000 * p && b == Wrap(b) + 0x1_0000_0000 * q;
    hide Wrap;
    WrapMultiple(Wrap(a) + Wrap(b), p + q);
    WrapMultiple(a + Wrap(b), q);
    WrapMultiple(Wrap(a) + b, p);
  }

  /** The fields below bit 21 of an instruction word. */
  lemma SplitLow(x: nat)
    ensures x % 0x20_0000 == x / 0x1_0000 % 32 * 0x1_0000 + x % 0x1_0000
    ensures x % 0x1_0000 == x / 0x800 % 32 * 0x800 + x % 0x800
  {
    assert x / 0x1_0000 / 32 == x / 0x20_0000;
    assert x / 0x800 / 32 == x / 0x1_0000;
  }

  lemma LowZero(x: nat)
    requires x % 0x400_0000 == 0
    ensures x % 0x800 == 0
  {
    assert x == 0x800 * (0x8000 * (x / 0x400_0000));
  }

  /** Overlapping fields of an instruction word. */
  lemma FieldOverlap(w: Word)
    ensures w % 0x20_0000 == 0 <==> w / 0x1_0000 % 32 == 0 && w % 0x1_0000 == 0
    ensures w % 0x400_0000 == 0 ==> w % 0x800 == 0
  {
    SplitLow(w);
    if w % 0x400_0000 == 0 {
      LowZero(w);
    }
  }
}
