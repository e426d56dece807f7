/** Words as numbers: what shifts, masks and the bytes of a word are in arithmetic. */
module WordNumbers {
  import opened JsNumbers
  import opened WordArrays
  import opened Streaming
  import opened Padding

  function Shr(w: Word, k: nat): Word
    requires k <= 32
  { w >> k }

  function And(v: Word, w: Word): Word { v & w }

  function Or(v: Word, w: Word): Word { v | w }

  lemma Shr1(w: Word)
    ensures Num(Shr(w, 1)) == Num(w) / 2
  {
    NumStep(w);
  }

  lemma ShrBy1And1(w: Word)
    ensures Shr(Shr(w, 1), 1) == Shr(w, 2)
  {}

  lemma ShrBy2And2(w: Word)
    ensures Shr(Shr(w, 2), 2) == Shr(w, 4)
  {}

  lemma ShrBy4And4(w: Word)
    ensures Shr(Shr(w, 4), 4) == Shr(w, 8)
  {}

  lemma ShrBy8And8(w: Word)
    ensures Shr(Shr(w, 8), 8) == Shr(w, 16)
  {}

  lemma ShrBy16And1(w: Word)
    ensures Shr(Shr(w, 16), 1) == Shr(w, 17)
  {}

  lemma ShrBy8To15(w: Word)
    ensures Shr(Shr(Shr(Shr(w, 8), 4), 2), 1) == Shr(w, 15)
  {}

  lemma Shr2(w: Word)
    ensures Num(Shr(w, 2)) == Num(w) / 4
  {
    hide *;
    ShrBy1And1(w);
    Shr1(w);
    Shr1(Shr(w, 1));
  }

  lemma Shr4(w: Word)
    ensures Num(Shr(w, 4)) == Num(w) / 16
  {
    hide *;
    ShrBy2And2(w);
    Shr2(w);
    Shr2(Shr(w, 2));
  }

  lemma Shr8(w: Word)
    ensures Num(Shr(w, 8)) == Num(w) / 256
  {
    hide *;
    ShrBy4And4(w);
    Shr4(w);
    Shr4(Shr(w, 4));
  }

  lemma Shr16(w: Word)
    ensures Num(Shr(w, 16)) == Num(w) / 0x1_0000
  {
    hide *;
    ShrBy8And8(w);
    Shr8(w);
    Shr8(Shr(w, 8));
  }

  lemma Shr17(w: Word)
    ensures Num(Shr(w, 17)) == Num(w) / 0x2_0000
  {
    hide *;
    ShrBy16And1(w);
    Shr16(w);
    Shr1(Shr(w, 16));
  }

  lemma Shr15(w: Word)
    ensures Num(Shr(w, 15)) == Num(w) / 0x8000
  {
    hide *;
    ShrBy8To15(w);
    Shr8(w);
    Shr4(Shr(w, 8));
    Shr2(Shr(Shr(w, 8), 4));
    Shr1(Shr(Shr(Shr(w, 8), 4), 2));
  }

  function Half(w: Word): Word { w >> 1 }

  function LastBit(w: Word): nat { if w & 1 == 1 then 1 else 0 }

  lemma NumHalf(w: Word)
    ensures Num(w) == 2 * Num(Half(w)) + LastBit(w)
  {
    NumStep(w);
  }

  /** Words without a common bit add without carries. */
  lemma {:induction false} NumDisjoint(s: Word, v: Word, w: Word)
    requires And(v, w) == 0 && s == Or(v, w)
    ensures Num(s) == Num(v) + Num(w)
    decreases s
  {
    if s == 0 {
    } else {
      DisjointHalf(v, w);
      OrHalf(v, w);
      DisjointBit(v, w);
      hide *;
      NumDisjoint(Half(s), Half(v), Half(w));
      NumHalf(v);
      NumHalf(w);
      NumHalf(s);
    }
  }

  lemma DisjointHalf(v: Word, w: Word)
    requires And(v, w) == 0
    ensures And(Half(v), Half(w)) == 0
  {
    assert And(Half(v), Half(w)) == Half(And(v, w));
  }

  lemma OrHalf(v: Word, w: Word)
    ensures Half(Or(v, w)) == Or(Half(v), Half(w))
  {}

  lemma DisjointBit(v: Word, w: Word)
    requires And(v, w) == 0
    ensures LastBit(Or(v, w)) == LastBit(v) + LastBit(w)
  {}

  /** Masking with low ones is a remainder. */
  lemma {:induction false} NumLow(w: Word, m: Word)
    requires IsMask(m)
    ensures Num(And(w, m)) == Num(w) % (Num(m) + 1)
    decreases m
  {
    if m == 0 {
    } else {
      AndHalf(w, m);
      MaskHalf(m);
      hide *;
      NumLow(Half(w), Half(m));
      NumHalf(w);
      NumHalf(m);
      NumHalf(And(w, m));
      DoubleMod(Num(Half(w)), LastBit(w), Num(Half(m)) + 1);
    }
  }

  predicate IsMask(m: Word) {
    m & (m >> 1) == m >> 1
  }

  lemma MaskHalf(m: Word)
    requires IsMask(m)
    ensures IsMask(Half(m)) && (m != 0 ==> LastBit(m) == 1)
  {
    MaskTail(m);
  }

  lemma AndHalf(w: Word, m: Word)
    ensures Half(And(w, m)) == And(Half(w), Half(m))
    ensures LastBit(m) == 1 ==> LastBit(And(w, m)) == LastBit(w)
    ensures 0 <= LastBit(w) < 2
  {}

  lemma DoubleMod(x: nat, bit: nat, n: nat)
    requires n > 0 && bit < 2
    ensures 2 * (x % n) + bit == (2 * x + bit) % (2 * n)
  {
    var q, r := x / n, x % n;
    assert x == q * n + r;
    var s := 2 * r + bit;
    assert 2 * x + bit == q * (2 * n) + s by { assert q * (2 * n) == 2 * (q * n); }
    var y := 2 * x + bit;
    var p, t := y / (2 * n), y % (2 * n);
    assert y == p * (2 * n) + t;
    assert (p - q) * (2 * n) == s - t by { assert (p - q) * (2 * n) == p * (2 * n) - q * (2 * n); }
    if s >= t { NoMultipleBelow(p - q, 2 * n, s - t); } else {
      assert (q - p) * (2 * n) == t - s by { assert (q - p) * (2 * n) == q * (2 * n) - p * (2 * n); }
      NoMultipleBelow(q - p, 2 * n, t - s);
    }
  }

  /** The two halves of a word. */
  lemma Halves(w: Word)
    ensures Num(And(w, 0xffff)) == Num(w) % 0x1_0000
    ensures Num(And(w, 0xffff_0000)) == Num(w) - Num(w) % 0x1_0000
    ensures Num(Shr(w, 16)) == Num(w) / 0x1_0000 < 0x1_0000
  {
    HalfBits(w);
    hide Num, And, Or, Shr;
    NumDisjoint(w, And(w, 0xffff_0000), And(w, 0xffff));
    Shr16(w);
    Shr16(0xffff_ffff);
    NumMax();
    NumRange(w);
    MaskFFFF();
    NumLow(w, 0xffff);
  }

  lemma MaskFFFF()
    ensures IsMask(0xffff)
  {}

  lemma HalfBits(w: Word)
    ensures And(And(w, 0xffff_0000), And(w, 0xffff)) == 0
    ensures Or(And(w, 0xffff_0000), And(w, 0xffff)) == w
    ensures Shr(0xffff_ffff, 16) == 0xffff
  {}

  // ---------------------------------------------------------------- bytes

  lemma ShrBy16And8(w: Word)
    ensures Shr(Shr(w, 16), 8) == Shr(w, 24)
  {}

  lemma Shr24(w: Word)
    ensures Num(Shr(w, 24)) == Num(w) / 0x100_0000
  {
    hide *;
    ShrBy16And8(w);
    Shr16(w);
    Shr8(Shr(w, 16));
  }

  lemma BytesAreLow(w: Word)
    ensures ByteOf(w, 0) as Word == Shr(w, 24) && ByteOf(w, 1) as Word == And(Shr(w, 16), 0xff)
    ensures ByteOf(w, 2) as Word == And(Shr(w, 8), 0xff) && ByteOf(w, 3) as Word == And(w, 0xff)
    ensures IsMask(0xff)
  {}

  lemma FirstByte(w: Word)
    ensures ByteNum(ByteOf(w, 0)) == Num(w) / 0x100_0000 == Num(w) / 0x100_0000 % 256
  {
    BytesAreLow(w);
    assert ByteNum(ByteOf(w, 0)) == Num(ByteOf(w, 0) as Word);
    hide Num, ByteOf, Shr, And, ByteNum, IsMask;
    Shr24(w);
    NumRange(w);
  }

  lemma SecondByte(w: Word)
    ensures ByteNum(ByteOf(w, 1)) == Num(w) / 0x1_0000 % 256
  {
    BytesAreLow(w);
    assert ByteNum(ByteOf(w, 1)) == Num(ByteOf(w, 1) as Word);
    hide Num, ByteOf, Shr, And, ByteNum, IsMask;
    NumFF();
    Shr16(w);
    NumLow(Shr(w, 16), 0xff);
  }

  lemma ThirdByte(w: Word)
    ensures ByteNum(ByteOf(w, 2)) == Num(w) / 256 % 256
  {
    BytesAreLow(w);
    assert ByteNum(ByteOf(w, 2)) == Num(ByteOf(w, 2) as Word);
    hide Num, ByteOf, Shr, And, ByteNum, IsMask;
    NumFF();
    Shr8(w);
    NumLow(Shr(w, 8), 0xff);
  }

  lemma FourthByte(w: Word)
    ensures ByteNum(ByteOf(w, 3)) == Num(w) % 256
  {
    BytesAreLow(w);
    assert ByteNum(ByteOf(w, 3)) == Num(ByteOf(w, 3) as Word);
    hide Num, ByteOf, Shr, And, ByteNum, IsMask;
    NumFF();
    NumLow(w, 0xff);
  }

  /** The bytes of a word are the digits of its value to the base 256, the first one the most
      significant. */
  lemma ByteIs(w: Word, k: nat)
    requires k < 4
    ensures ByteNum(ByteOf(w, k)) == Num(w) / Power256(3 - k) % 256
  {
    Powers256();
    hide Num, ByteOf, ByteNum, Power256;
    if k == 0 { FirstByte(w); } else if k == 1 { SecondByte(w); } else if k == 2 { ThirdByte(w); } else { FourthByte(w); }
  }

  lemma SameByte(a: Byte, b: Byte)
    requires ByteNum(a) == ByteNum(b)
    ensures a == b
  {
    BitsNum(a as Word);
    BitsNum(b as Word);
    hide Num, Bits;
    assert a as Word == b as Word;
    BackAndForth(a);
    BackAndForth(b);
  }

  lemma BackAndForth(a: Byte)
    ensures ((a as Word) & 0xff) as Byte == a
  {}

  function Power256(n: nat): (p: nat)
    ensures p > 0
  {
    if n == 0 then 1 else 256 * Power256(n - 1)
  }

  lemma Powers256()
    ensures Power256(0) == 1 && Power256(1) == 256 && Power256(2) == 0x1_0000 && Power256(3) == 0x100_0000
    ensures Power256(4) == TWO32 && Power256(5) == 256 * TWO32 && Power256(6) == 0x1_0000 * TWO32 && Power256(7) == 0x100_0000 * TWO32
  {
    assert Power256(4) == 256 * Power256(3) && Power256(2) == 256 * Power256(1);
    assert Power256(6) == 256 * Power256(5);
  }

  /** A digit below 2^32 is that of the number cut to 32 bits, one above that of the number without
      them. */
  lemma DigitBelow(x: nat, k: nat)
    requires k < 4
    ensures (x % TWO32) / Power256(k) % 256 == x / Power256(k) % 256
  {
    Powers256();
    hide Power256;
    var q, r := x / TWO32, x % TWO32;
    assert x == q * TWO32 + r;
    if k == 0 { DigitCut(q, r, 1, 0x100_0000); } else if k == 1 { DigitCut(q, r, 256, 0x1_0000); }
    else if k == 2 { DigitCut(q, r, 0x1_0000, 256); } else { DigitCut(q, r, 0x100_0000, 1); }
  }

  lemma DigitCut(q: nat, r: nat, d: nat, e: nat)
    requires d > 0 && d * (256 * e) == TWO32
    ensures (q * TWO32 + r) / d % 256 == r / d % 256
  {
    var n := q * e;
    assert q * TWO32 == (256 * n) * d by {
      assert q * (256 * e) == 256 * (q * e);
      assert q * (d * (256 * e)) == (q * (256 * e)) * d;
    }
    Quotient(256 * n, r, d);
    Multiple256(n, r / d);
  }

  lemma Multiple256(n: int, x: int)
    ensures (256 * n + x) % 256 == x % 256
  {}

  lemma Quotient(q: nat, r: nat, d: nat)
    requires d > 0
    ensures (q * d + r) / d == q + r / d
  {
    var p, t := r / d, r % d;
    assert q * d + r == (q + p) * d + t;
    Remains((q + p) * d + t, q + p, t, d);
  }

  lemma Remains(n: nat, q: nat, t: nat, d: nat)
    requires d > 0 && t < d && n == q * d + t
    ensures n / d == q
  {
    var p, r := n / d, n % d;
    assert (p - q) * d == t - r by { assert n == p * d + r; assert (p - q) * d == p * d - q * d; }
    if p > q { NoMultipleBelow(p - q, d, t - r); }
    else { assert (q - p) * d == r - t by { assert (q - p) * d == q * d - p * d; } NoMultipleBelow(q - p, d, r - t); }
  }

  lemma DigitAbove(x: nat, k: nat)
    requires k < 4
    ensures (x / TWO32) / Power256(k) == x / Power256(k + 4)
  {
    Powers256();
    hide Power256;
    if k == 0 {} else if k == 1 {} else if k == 2 {} else {}
  }
}
