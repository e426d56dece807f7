/** The tables of AES as the bundle computes them when it is loaded: a walk through GF(2^8) that
    meets every byte once, next to its reciprocal. */
module AESTables {
  import opened JsNumbers
  import opened WordArrays
  import opened Padding
  import opened AES

  // ---------------------------------------------------------------- products in GF(2^8)

  /** Section 4.2.1 of FIPS 197. */
  function XTimes(a: Byte, n: nat): Byte {
    if n == 0 then a else Double(XTimes(a, n - 1))
  }

  predicate Bit(b: Byte, i: nat)
    requires i < 8
  {
    b & Mask(i) != 0
  }

  function Mask(i: nat): Byte
    requires i < 8
  {
    if i == 0 then 1 else if i == 1 then 2 else if i == 2 then 4 else if i == 3 then 8
    else if i == 4 then 0x10 else if i == 5 then 0x20 else if i == 6 then 0x40 else 0x80
  }

  /** The sum of `a` times x to the power `i` over the bits `i < n` of `b`. */
  function Partial(a: Byte, b: Byte, n: nat): Byte
    requires n <= 8
  {
    if n == 0 then 0 else XorByte(Partial(a, b, n - 1), if Bit(b, n - 1) then XTimes(a, n - 1) else 0)
  }

  /** Section 4.2 of FIPS 197. */
  function Product(a: Byte, b: Byte): Byte {
    Partial(a, b, 8)
  }

  lemma {:induction false} XTimesDouble(a: Byte, n: nat)
    ensures XTimes(Double(a), n) == Double(XTimes(a, n))
  {
    hide Double;
    if n > 0 { XTimesDouble(a, n - 1); }
  }

  lemma {:induction false} XTimesXor(a: Byte, c: Byte, n: nat)
    ensures XTimes(XorByte(a, c), n) == XorByte(XTimes(a, n), XTimes(c, n))
  {
    hide Double, XorByte;
    if n > 0 {
      XTimesXor(a, c, n - 1);
      DoubleXor(XTimes(a, n - 1), XTimes(c, n - 1));
    }
  }

  lemma {:induction false} PartialDouble(a: Byte, b: Byte, n: nat)
    requires n <= 8
    ensures Partial(Double(a), b, n) == Double(Partial(a, b, n))
  {
    if n == 0 {
      assert Double(0) == 0;
    } else {
      assert Double(0) == 0;
      hide Double, XorByte, Bit;
      PartialDouble(a, b, n - 1);
      XTimesDouble(a, n - 1);
      DoubleXor(Partial(a, b, n - 1), if Bit(b, n - 1) then XTimes(a, n - 1) else 0);
    }
  }

  lemma {:induction false} PartialXor(a: Byte, c: Byte, b: Byte, n: nat)
    requires n <= 8
    ensures Partial(XorByte(a, c), b, n) == XorByte(Partial(a, b, n), Partial(c, b, n))
  {
    XorZero(0);
    hide Double, XorByte, Bit;
    if n > 0 {
      PartialXor(a, c, b, n - 1);
      XTimesXor(a, c, n - 1);
      var p := if Bit(b, n - 1) then XTimes(a, n - 1) else 0;
      var q := if Bit(b, n - 1) then XTimes(c, n - 1) else 0;
      XorSwap(Partial(a, b, n - 1), Partial(c, b, n - 1), p, q);
    }
  }

  lemma ProductOne(b: Byte)
    ensures Product(1, b) == b
  {
    Powers();
    BitSum(b);
    hide XTimes, Bit, XorByte;
    NextPartial(b, 0, 1);
    NextPartial(b, 1, 2);
    NextPartial(b, 2, 4);
    NextPartial(b, 3, 8);
    NextPartial(b, 4, 0x10);
    NextPartial(b, 5, 0x20);
    NextPartial(b, 6, 0x40);
    NextPartial(b, 7, 0x80);
    hide Partial;
  }

  lemma NextPartial(b: Byte, i: nat, power: Byte)
    requires i < 8 && XTimes(1, i) == power
    ensures Partial(1, b, i + 1) == XorByte(Partial(1, b, i), if Bit(b, i) then power else 0)
    ensures Partial(1, b, 0) == 0
  {
    hide XTimes, Bit, XorByte;
  }

  lemma Powers()
    ensures XTimes(1, 0) == 1 && XTimes(1, 1) == 2 && XTimes(1, 2) == 4 && XTimes(1, 3) == 8
    ensures XTimes(1, 4) == 0x10 && XTimes(1, 5) == 0x20 && XTimes(1, 6) == 0x40 && XTimes(1, 7) == 0x80
  {
    assert Double(1) == 2 && Double(2) == 4 && Double(4) == 8 && Double(8) == 0x10;
    assert Double(0x10) == 0x20 && Double(0x20) == 0x40 && Double(0x40) == 0x80;
    hide Double;
    assert XTimes(1, 3) == 8;
  }

  /** A byte is the sum of its bits. */
  lemma BitSum(b: Byte)
    ensures XorByte(XorByte(XorByte(XorByte(XorByte(XorByte(XorByte(XorByte(0, if Bit(b, 0) then 1 else 0), if Bit(b, 1) then 2 else 0),
            if Bit(b, 2) then 4 else 0), if Bit(b, 3) then 8 else 0), if Bit(b, 4) then 0x10 else 0), if Bit(b, 5) then 0x20 else 0),
            if Bit(b, 6) then 0x40 else 0), if Bit(b, 7) then 0x80 else 0) == b
  {}

  // ---------------------------------------------------------------- the two steps of the walk

  /** `xi ^= d[d[xi]]` */
  function Fivefold(b: Byte): Byte {
    XorByte(b, Double(Double(b)))
  }

  /** `x2 ^ d[d[d[x8 ^ x2]]]` */
  function Back(b: Byte): Byte {
    var x2 := Double(b);
    var x8 := Double(Double(x2));
    XorByte(x2, Double(Double(Double(XorByte(x8, x2)))))
  }

  lemma StepsCancel(b: Byte)
    ensures Fivefold(Back(b)) == b && Back(Fivefold(b)) == b
  {}

  lemma BackZero(b: Byte)
    ensures Back(b) == 0 <==> b == 0
  {
    StepsCancel(b);
    assert Back(0) == 0 && Fivefold(0) == 0;
  }

  lemma ProductBack(a: Byte, b: Byte)
    ensures Product(Back(a), b) == Back(Product(a, b))
  {
    hide Double, XorByte, Partial;
    var a2 := Double(a);
    var a4 := Double(a2);
    var a8 := Double(a4);
    var s := XorByte(a8, a2);
    PartialDouble(a, b, 8);
    PartialDouble(a2, b, 8);
    PartialDouble(a4, b, 8);
    PartialXor(a8, a2, b, 8);
    PartialDouble(s, b, 8);
    PartialDouble(Double(s), b, 8);
    PartialDouble(Double(Double(s)), b, 8);
    PartialXor(a2, Double(Double(Double(s))), b, 8);
  }

  // ---------------------------------------------------------------- the walk

  function BackN(b: Byte, n: nat): Byte {
    if n == 0 then b else Back(BackN(b, n - 1))
  }

  function FiveN(b: Byte, n: nat): Byte {
    if n == 0 then b else Fivefold(FiveN(b, n - 1))
  }

  /** The values of `x` and of `xi` in turn `i`. */
  function Walk(i: nat): Byte {
    if i == 0 then 0 else BackN(1, i - 1)
  }

  function WalkInverse(i: nat): Byte {
    if i == 0 then 0 else FiveN(1, i - 1)
  }

  lemma {:induction false} ProductBackN(n: nat, b: Byte)
    ensures Product(BackN(1, n), b) == BackN(b, n)
  {
    hide Product, Back;
    if n == 0 {
      ProductOne(b);
    } else {
      ProductBackN(n - 1, b);
      ProductBack(BackN(1, n - 1), b);
    }
  }

  lemma {:induction false} FiveNAdd(b: Byte, m: nat, n: nat)
    ensures FiveN(FiveN(b, m), n) == FiveN(b, m + n)
  {
    hide Fivefold;
    if n > 0 { FiveNAdd(b, m, n - 1); }
  }

  lemma {:induction false} WalksCancel(b: Byte, n: nat)
    ensures FiveN(BackN(b, n), n) == b && BackN(FiveN(b, n), n) == b
  {
    hide Fivefold, Back;
    if n > 0 {
      var c, d := BackN(b, n - 1), FiveN(b, n - 1);
      WalksCancel(b, n - 1);
      StepsCancel(c);
      FiveNAdd(Back(c), 1, n - 1);
      assert FiveN(Back(c), 1) == c;
      BackNAdd(Fivefold(d), 1, n - 1);
      StepsCancel(d);
      assert BackN(Fivefold(d), 1) == d;
    }
  }

  lemma {:induction false} BackNAdd(b: Byte, m: nat, n: nat)
    ensures BackN(BackN(b, m), n) == BackN(b, m + n)
  {
    hide Back;
    if n > 0 { BackNAdd(b, m, n - 1); }
  }

  /** `xi` is the reciprocal of `x`, and the only one. */
  lemma Reciprocals(i: nat, y: Byte)
    requires i > 0
    ensures Product(Walk(i), y) == 1 <==> y == WalkInverse(i)
  {
    hide Product, FiveN, BackN;
    ProductBackN(i - 1, y);
    WalksCancel(1, i - 1);
    WalksCancel(y, i - 1);
  }

  lemma {:induction false} BackNZero(n: nat)
    ensures BackN(1, n) != 0
  {
    if n == 0 { assert BackN(1, 0) == 1; } else {
      BackNZero(n - 1);
      BackZero(BackN(1, n - 1));
      hide Back;
    }
  }

  // ---------------------------------------------------------------- no byte comes twice

  function Five(b: Byte): Byte {
    b ^ (b << 2) ^ (if b & 0x80 != 0 then 0x36 else 0) ^ (if b & 0x40 != 0 then 0x1b else 0)
  }

  lemma FiveIs(b: Byte)
    ensures Five(b) == Fivefold(b)
  {}

  /** From `a` it takes `n` steps to `b`, none of which starts in 1. */
  predicate Leads(a: Byte, n: nat, b: Byte)
    decreases n
  {
    if n == 0 then a == b else a != 1 && Leads(Five(a), n - 1, b)
  }

  lemma {:induction false} LeadsOn(a: Byte, n: nat, b: Byte, k: nat)
    requires Leads(a, n, b) && k <= n
    ensures FiveN(a, n) == b && (k < n ==> FiveN(a, k) != 1)
    decreases n
  {
    hide Fivefold, Five;
    if n > 0 {
      FiveIs(a);
      LeadsOn(Five(a), n - 1, b, if k == 0 then 0 else k - 1);
      FiveNAdd(a, 1, n - 1);
      assert FiveN(a, 1) == Fivefold(a);
      if k > 0 { FiveNAdd(a, 1, k - 1); }
    }
  }

  lemma AllLeads()
    ensures Leads(5, 15, 0xe5) && Leads(0xe5, 15, 0xb2) && Leads(0xb2, 15, 0x49) && Leads(0x49, 15, 0x93) && Leads(0x93, 15, 0x5b)
    ensures Leads(0x5b, 15, 0x65) && Leads(0x65, 15, 0x79) && Leads(0x79, 15, 0xdd) && Leads(0xdd, 15, 0xe1) && Leads(0xe1, 15, 0x31)
    ensures Leads(0x31, 15, 0x28) && Leads(0x28, 15, 0x69) && Leads(0x69, 15, 0xe7) && Leads(0xe7, 15, 0x7e) && Leads(0x7e, 15, 0xf4)
    ensures Leads(0xf4, 15, 0xee) && Leads(0xee, 14, 1)
  {}

  /** Every fifteenth value of the walk. */
  const MARKS: seq<Byte> := [5, 0xe5, 0xb2, 0x49, 0x93, 0x5b, 0x65, 0x79, 0xdd, 0xe1, 0x31, 0x28, 0x69, 0xe7, 0x7e, 0xf4, 0xee]

  lemma {:induction false} LeadsFar(i: nat)
    requires i <= 16
    ensures Leads(5, 15 * i, MARKS[i])
  {
    AllLeads();
    hide Leads, Five;
    if i == 0 {
      LeadsNowhere(5);
    } else {
      LeadsFar(i - 1);
      assert Leads(MARKS[i - 1], 15, MARKS[i]);
      LeadsThrough(5, 15 * (i - 1), MARKS[i - 1], 15, MARKS[i]);
    }
  }

  lemma LeadsNowhere(a: Byte)
    ensures Leads(a, 0, a)
  {}

  lemma {:induction false} LeadsThrough(a: Byte, m: nat, b: Byte, n: nat, c: Byte)
    requires Leads(a, m, b) && Leads(b, n, c)
    ensures Leads(a, m + n, c)
    decreases m
  {
    hide Five;
    if m > 0 { LeadsThrough(Five(a), m - 1, b, n, c); }
  }

  lemma LeadsHome()
    ensures Leads(5, 254, 1)
  {
    AllLeads();
    hide Leads;
    LeadsFar(16);
    LeadsThrough(5, 240, 0xee, 14, 1);
  }

  /** The powers of 5 come back to 1 after 255 steps and not before. */
  lemma PowersOfFive(n: nat)
    requires n <= 255
    ensures FiveN(1, n) == 1 <==> n == 0 || n == 255
  {
    assert FiveN(1, 0) == 1;
    if n > 0 {
      assert FiveN(1, 1) == 5;
      hide *;
      LeadsHome();
      LeadsOn(5, 254, 1, n - 1);
      FiveNAdd(1, 1, n - 1);
    }
  }

  lemma {:induction false} BackNOfZero(n: nat)
    ensures BackN(0, n) == 0
  {
    if n > 0 {
      BackNOfZero(n - 1);
      BackZero(0);
      hide Back;
    }
  }

  lemma WalkDistinct(i: nat, j: nat)
    requires i < j < 256
    ensures Walk(i) != Walk(j) && WalkInverse(i) != WalkInverse(j)
  {
    hide FiveN, BackN;
    WalksCancel(1, j - 1);
    if i == 0 {
      BackNZero(j - 1);
      BackNOfZero(j - 1);
    } else {
      WalksCancel(1, i - 1);
      WalksCancel(FiveN(1, j - i), i - 1);
      FiveNAdd(1, j - i, i - 1);
      FiveNAdd(BackN(1, i - 1), i - 1, j - i);
      PowersOfFive(j - i);
    }
  }

  // ---------------------------------------------------------------- every byte comes

  lemma {:induction false} ImageSize<T>(f: nat -> T, n: nat)
    ensures |set i | 0 <= i < n :: f(i)| <= n
    ensures (forall i, j :: 0 <= i < j < n ==> f(i) != f(j)) ==> |set i | 0 <= i < n :: f(i)| == n
  {
    if n > 0 {
      var s, t := set i | 0 <= i < n - 1 :: f(i), set i | 0 <= i < n :: f(i);
      ImageSize(f, n - 1);
      assert t == s + {f(n - 1)};
    }
  }

  /** 256 different bytes are all bytes. */
  lemma AllBytes(f: nat -> Byte, b: Byte)
    requires forall i, j :: 0 <= i < j < 256 ==> f(i) != f(j)
    ensures exists i :: 0 <= i < 256 && f(i) == b
  {
    hide *;
    var g := (n: nat) => ByteVal(n);
    var s, bytes := set i | 0 <= i < 256 :: f(i), set i | 0 <= i < 256 :: g(i);
    ImageSize(f, 256);
    ImageSize(g, 256);
    if b !in s {
      forall c | c in s + {b} ensures c in bytes {
        ByteBelow(c);
        assert g(Num(c as Word)) == c;
      }
      Subset(s + {b}, bytes);
      assert false;
    }
  }

  lemma {:induction false} Subset<T>(s: set<T>, t: set<T>)
    requires s <= t
    ensures |s| <= |t|
  {
    if s != {} {
      var x :| x in s;
      Subset(s - {x}, t - {x});
    }
  }

  lemma ByteBelow(c: Byte)
    ensures Num(c as Word) < 256 && ByteVal(Num(c as Word)) == c
  {
    assert (c as Word) & 0xff == c as Word && ((c as Word) & 0xff) as Byte == c;
    hide Num, Bits;
    NumFF();
    NumBelow(c as Word, 0xff);
    BitsNum(c as Word);
  }

  // ---------------------------------------------------------------- the S-box

  /** The spread sum and `(sx >>> 8) ^ (sx & 0xff) ^ 0x63`. */
  function Spreading(xi: Byte): Byte {
    var w := xi as Word;
    var sx := w ^ (w << 1) ^ (w << 2) ^ (w << 3) ^ (w << 4);
    ((sx >> 8) ^ (sx & 0xff) ^ 0x63) as Byte
  }

  function RotL8(b: Byte, k: nat): Byte
    requires k <= 8
  {
    (b << k) | (b >> (8 - k))
  }

  /** Section 5.1.1 of FIPS 197, equation 5.2: bit `i` is the sum of bits `i`, `i + 4`, `i + 5`, `i + 6` and `i + 7`
      of the reciprocal and bit `i` of 0x63. */
  lemma AffineIsStandard(b: Byte, i: nat)
    requires i < 8
    ensures Bit(Spreading(b), i) <==>
            ((((Bit(b, i) != Bit(b, (i + 4) % 8)) != Bit(b, (i + 5) % 8)) != Bit(b, (i + 6) % 8)) != Bit(b, (i + 7) % 8)) != Bit(0x63, i)
  {
    Rotations(b);
    RotatedBit(b, 1, i);
    RotatedBit(b, 2, i);
    RotatedBit(b, 3, i);
    RotatedBit(b, 4, i);
    hide Spreading, RotL8, Bit;
    BitXor(b, RotL8(b, 1), i);
    BitXor(XorByte(b, RotL8(b, 1)), RotL8(b, 2), i);
    BitXor(XorByte(XorByte(b, RotL8(b, 1)), RotL8(b, 2)), RotL8(b, 3), i);
    BitXor(XorByte(XorByte(XorByte(b, RotL8(b, 1)), RotL8(b, 2)), RotL8(b, 3)), RotL8(b, 4), i);
    BitXor(XorByte(XorByte(XorByte(XorByte(b, RotL8(b, 1)), RotL8(b, 2)), RotL8(b, 3)), RotL8(b, 4)), 0x63, i);
  }

  lemma Rotations(b: Byte)
    ensures Spreading(b) == XorByte(XorByte(XorByte(XorByte(XorByte(b, RotL8(b, 1)), RotL8(b, 2)), RotL8(b, 3)), RotL8(b, 4)), 0x63)
  {}

  lemma BitXor(a: Byte, b: Byte, i: nat)
    requires i < 8
    ensures Bit(XorByte(a, b), i) <==> Bit(a, i) != Bit(b, i)
  {
    OneBit(a, i);
    OneBit(b, i);
    MaskXor(a, b, Mask(i));
    hide Mask, XorByte;
  }

  lemma OneBit(b: Byte, i: nat)
    requires i < 8
    ensures b & Mask(i) == 0 || b & Mask(i) == Mask(i)
  {}

  lemma MaskXor(a: Byte, b: Byte, m: Byte)
    ensures XorByte(a, b) & m == 0 <==> a & m == b & m
  {}

  lemma {:induction false} RotatedBit(b: Byte, k: nat, i: nat)
    requires 1 <= k <= 4 && i < 8
    ensures Bit(RotL8(b, k), i) == Bit(b, (i + 8 - k) % 8)
    decreases k
  {
    hide *;
    if k == 1 {
      RotatedOnce(b, i);
    } else {
      RotateAgain(b, k - 1);
      RotatedOnce(RotL8(b, k - 1), i);
      RotatedBit(b, k - 1, (i + 7) % 8);
    }
  }

  lemma RotateAgain(b: Byte, k: nat)
    requires k < 4
    ensures RotL8(b, k + 1) == RotL8(RotL8(b, k), 1)
  {
    if k == 0 {} else if k == 1 {} else if k == 2 {} else {}
  }

  lemma RotatedOnce(b: Byte, i: nat)
    requires i < 8
    ensures Bit(RotL8(b, 1), i) == Bit(b, (i + 7) % 8)
  {
    if i == 0 {} else if i == 1 {} else if i == 2 {} else if i == 3 {} else if i == 4 {} else if i == 5 {} else if i == 6 {} else {}
  }

  lemma SpreadingDistinct(a: Byte, b: Byte)
    requires a != b
    ensures Spreading(a) != Spreading(b)
  {
    Gathered(a);
    Gathered(b);
    hide Spreading;
  }

  function Gather(s: Byte): Byte {
    RotL8(s, 1) ^ RotL8(s, 3) ^ RotL8(s, 6) ^ 0x05
  }

  lemma Gathered(b: Byte)
    ensures Gather(Spreading(b)) == b
  {}

  /** `s` is what the S-box of FIPS 197 makes of `x`: its reciprocal, or 0, and then the affine map. */
  ghost predicate Substitutes(x: Byte, s: Byte) {
    exists y :: (if x == 0 then y == 0 else Product(x, y) == 1) && s == Spreading(y)
  }

  lemma WalkSubstitutes(i: nat)
    ensures Substitutes(Walk(i), Spreading(WalkInverse(i)))
  {
    hide Product, Spreading, BackN, FiveN;
    if i > 0 {
      Reciprocals(i, WalkInverse(i));
      BackNZero(i - 1);
    }
  }

  lemma OneSubstitute(x: Byte, s: Byte, t: Byte)
    requires Substitutes(x, s) && Substitutes(x, t)
    ensures s == t
  {
    assert Walk(0) == 0;
    hide Product, Spreading, Walk, WalkInverse;
    if x != 0 {
      var y :| Product(x, y) == 1 && s == Spreading(y);
      var z :| Product(x, z) == 1 && t == Spreading(z);
      var i := Met(x);
      Reciprocals(i, y);
      Reciprocals(i, z);
    }
  }

  /** The walk meets every byte. */
  lemma Met(x: Byte) returns (i: nat)
    ensures i < 256 && Walk(i) == x
  {
    hide Walk;
    var f := (n: nat) => Walk(n);
    forall i, j | 0 <= i < j < 256 ensures f(i) != f(j) {
      WalkDistinct(i, j);
    }
    AllBytes(f, x);
    var k :| 0 <= k < 256 && f(k) == x;
    i := k;
  }

  /** And so do the values it enters for them. */
  lemma Entered(s: Byte) returns (i: nat)
    ensures i < 256 && Spreading(WalkInverse(i)) == s
  {
    hide WalkInverse, Spreading;
    var f := (n: nat) => Spreading(WalkInverse(n));
    forall i, j | 0 <= i < j < 256 ensures f(i) != f(j) {
      WalkDistinct(i, j);
      SpreadingDistinct(WalkInverse(i), WalkInverse(j));
    }
    AllBytes(f, s);
    var k :| 0 <= k < 256 && f(k) == s;
    i := k;
  }

  // ---------------------------------------------------------------- the tables

  /** A byte as an index. */
  function Index(x: Byte): nat {
    Num(x as Word)
  }

  lemma IndexDistinct(x: Byte, y: Byte)
    ensures Index(x) == Index(y) <==> x == y
  {
    ByteBelow(x);
    ByteBelow(y);
    hide Num, ByteVal;
  }

  function BoxOf(m: map<nat, Byte>): Box {
    x => if Index(x) in m then m[Index(x)] else 0
  }

  predicate InTable(m: map<nat, Word>, x: Byte, w: Word) {
    Index(x) in m && m[Index(x)] == w
  }

  /** `t` rotated four ways, entered in four tables. */
  function WithRow(ms: seq<map<nat, Word>>, x: Byte, t: Word): (r: seq<map<nat, Word>>)
    requires |ms| == 4
    ensures |r| == 4 && forall j: nat :: j < 4 ==> r[j] == ms[j][Index(x) := Rotated(t, j)]
  {
    [ms[0][Index(x) := Rotated(t, 0)], ms[1][Index(x) := Rotated(t, 1)], ms[2][Index(x) := Rotated(t, 2)], ms[3][Index(x) := Rotated(t, 3)]]
  }

  lemma RowEntered(ms: seq<map<nat, Word>>, x: Byte, t: Word)
    requires |ms| == 4
    ensures forall j: nat :: j < 4 ==> InTable(WithRow(ms, x, t)[j], x, Rotated(t, j))
    ensures forall j: nat, y: Byte, w: Word :: j < 4 && y != x && InTable(ms[j], y, w) ==> InTable(WithRow(ms, x, t)[j], y, w)
  {
    hide Rotated, Index;
    forall y: Byte ensures Index(x) == Index(y) <==> x == y {
      IndexDistinct(x, y);
    }
  }

  class Tables {
    var SBOX: map<nat, Byte>
    var INV_SBOX: map<nat, Byte>
    var SUB_MIX: seq<map<nat, Word>>      // SUB_MIX_0 to SUB_MIX_3
    var INV_SUB_MIX: seq<map<nat, Word>>

    constructor ()
      ensures SBOX == INV_SBOX == map[] && SUB_MIX == INV_SUB_MIX == [map[], map[], map[], map[]]
    {
      SBOX, INV_SBOX := map[], map[];
      SUB_MIX, INV_SUB_MIX := [map[], map[], map[], map[]], [map[], map[], map[], map[]];
    }

    /** Every table has its entry for the byte `x`, whose substitute is `sx`. */
    ghost predicate Has(x: Byte, sx: Byte)
      reads this
    {
      && Index(x) in SBOX && SBOX[Index(x)] == sx && Index(sx) in INV_SBOX && INV_SBOX[Index(sx)] == x
      && |SUB_MIX| == |INV_SUB_MIX| == 4
      && (forall j: nat :: j < 4 ==> InTable(SUB_MIX[j], x, Rotated(TableWord(Forward, sx), j)))
      && (forall j: nat :: j < 4 ==> InTable(INV_SUB_MIX[j], sx, Rotated(TableWord(Backward, x), j)))
    }

    /** The assignments of one turn. */
    method Enter(x: Byte, sx: Byte)
      requires |SUB_MIX| == |INV_SUB_MIX| == 4
      modifies this
      ensures |SUB_MIX| == |INV_SUB_MIX| == 4 && Has(x, sx)
      ensures forall y, sy :: y != x && sy != sx && old(Has(y, sy)) ==> Has(y, sy)
    {
      hide TableWord, Rotated, WithRow, InTable, Index;
      forall y: Byte ensures (Index(x) == Index(y) <==> x == y) && (Index(sx) == Index(y) <==> sx == y) {
        IndexDistinct(x, y);
        IndexDistinct(sx, y);
      }
      SBOX := SBOX[Index(x) := sx];
      INV_SBOX := INV_SBOX[Index(sx) := x];
      RowEntered(SUB_MIX, x, TableWord(Forward, sx));
      RowEntered(INV_SUB_MIX, sx, TableWord(Backward, x));
      SUB_MIX := WithRow(SUB_MIX, x, TableWord(Forward, sx));
      INV_SUB_MIX := WithRow(INV_SUB_MIX, sx, TableWord(Backward, x));
    }

    /** The S-box is that of FIPS 197, the other box its inverse, and the eight mixing tables
        are made of them. */
    ghost predicate Filled()
      reads this
    {
      && |SUB_MIX| == |INV_SUB_MIX| == 4
      && (forall x: Byte :: Index(x) in SBOX && Index(x) in INV_SBOX)
      && (forall x: Byte :: Substitutes(x, SBOX[Index(x)]))
      && Boxes(BoxOf(SBOX), BoxOf(INV_SBOX)) && Boxes(BoxOf(INV_SBOX), BoxOf(SBOX))
      && (forall j: nat, x: Byte :: j < 4 ==> InTable(SUB_MIX[j], x, Table(Forward, BoxOf(SBOX), j, x)))
      && (forall j: nat, s: Byte :: j < 4 ==> InTable(INV_SUB_MIX[j], s, Table(Backward, BoxOf(INV_SBOX), j, s)))
    }

    /** The walk through GF(2^8). */
    method Fill()
      requires |SUB_MIX| == |INV_SUB_MIX| == 4
      modifies this
      ensures Filled()
    {
      hide Spreading, BackN, FiveN, Back, Fivefold, Has, Filled;
      var x: Byte, xi: Byte := 0, 0;
      for i := 0 to 256
        invariant |SUB_MIX| == |INV_SUB_MIX| == 4
        invariant x == Walk(i) && xi == WalkInverse(i)
        invariant forall k: nat :: k < i ==> Has(Walk(k), Spreading(WalkInverse(k)))
      {
        NewRow(i);
        Enter(x, Spreading(xi));
        Advance(i);
        if x == 0 {
          x, xi := 1, 1;
        } else {
          x, xi := Back(x), Fivefold(xi);
        }
      }
      AllRows();
    }

    /** Every byte has its row, and is the substitute of one. */
    ghost predicate HasAll()
      reads this
    {
      && |SUB_MIX| == |INV_SUB_MIX| == 4
      && (forall x: Byte :: Index(x) in SBOX && Has(x, SBOX[Index(x)]))
      && (forall x: Byte :: Index(x) in INV_SBOX && Has(INV_SBOX[Index(x)], x))
    }

    lemma AllRows()
      requires |SUB_MIX| == |INV_SUB_MIX| == 4
      requires forall k: nat :: k < 256 ==> Has(Walk(k), Spreading(WalkInverse(k)))
      ensures Filled()
    {
      hide Walk, WalkInverse, Spreading, Substitutes, Table, TableWord, Rotated, Index, Has, InTable, Boxes, BoxOf;
      forall x: Byte
        ensures Index(x) in SBOX && Substitutes(x, SBOX[Index(x)]) && Has(x, SBOX[Index(x)])
        ensures Index(x) in INV_SBOX && Has(INV_SBOX[Index(x)], x)
      {
        RowOf(x);
      }
      AllBoxes();
      AllMixed();
    }

    lemma AllBoxes()
      requires HasAll()
      ensures Boxes(BoxOf(SBOX), BoxOf(INV_SBOX)) && Boxes(BoxOf(INV_SBOX), BoxOf(SBOX))
    {
      hide Index, InTable;
    }

    lemma AllMixed()
      requires HasAll()
      ensures forall j: nat, x: Byte :: j < 4 ==> InTable(SUB_MIX[j], x, Table(Forward, BoxOf(SBOX), j, x))
      ensures forall j: nat, x: Byte :: j < 4 ==> InTable(INV_SUB_MIX[j], x, Table(Backward, BoxOf(INV_SBOX), j, x))
    {
      hide Index, InTable, TableWord, Rotated;
    }

    lemma RowOf(x: Byte)
      requires |SUB_MIX| == |INV_SUB_MIX| == 4
      requires forall k: nat :: k < 256 ==> Has(Walk(k), Spreading(WalkInverse(k)))
      ensures Index(x) in SBOX && Substitutes(x, SBOX[Index(x)]) && Has(x, SBOX[Index(x)])
      ensures Index(x) in INV_SBOX && Has(INV_SBOX[Index(x)], x)
    {
      hide Walk, WalkInverse, Spreading, Substitutes, TableWord, Rotated, Index, InTable;
      var i := Met(x);
      WalkSubstitutes(i);
      var j := Entered(x);
    }
  }

  /** The entry of turn `i` overwrites none of the earlier ones. */
  lemma NewRow(i: nat)
    requires i < 256
    ensures forall k: nat :: k < i ==> Walk(k) != Walk(i) && Spreading(WalkInverse(k)) != Spreading(WalkInverse(i))
  {
    hide Walk, WalkInverse, Spreading;
    forall k: nat | k < i
      ensures Walk(k) != Walk(i) && Spreading(WalkInverse(k)) != Spreading(WalkInverse(i))
    {
      WalkDistinct(k, i);
      SpreadingDistinct(WalkInverse(k), WalkInverse(i));
    }
  }

  lemma Advance(i: nat)
    ensures Walk(i) == 0 <==> i == 0
    ensures Walk(i + 1) == if i == 0 then 1 else Back(Walk(i))
    ensures WalkInverse(i + 1) == if i == 0 then 1 else Fivefold(WalkInverse(i))
  {
    hide Back, Fivefold;
    if i > 0 { BackNZero(i - 1); }
  }

  /** AES on the tables of the bundle. */
  method Create(keyWords: seq<Word>, keySize: nat) returns (aes: Aes)
    requires keySize in {4, 6, 8} && |keyWords| >= keySize
    ensures aes.Valid() && aes.nRounds == keySize + 6
    ensures forall x: Byte :: Substitutes(x, aes.box(x)) && aes.inv(aes.box(x)) == x && aes.box(aes.inv(x)) == x
    ensures forall i: nat :: i < |aes.keySchedule| ==> ColOf(aes.keySchedule[i]) == Expanded(aes.box, ColsOf(keyWords[..keySize]), i)
  {
    var tables := new Tables();
    tables.Fill();
    hide Substitutes, ColOf, Expanded, ColsOf, Table, Index;
    aes := new Aes(BoxOf(tables.SBOX), BoxOf(tables.INV_SBOX), keyWords, keySize);
  }
}
