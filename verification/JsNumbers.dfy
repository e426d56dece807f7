/** JavaScript Numbers as the CryptoJS bundle uses them: mathematical integers that every
    bitwise operator first cuts down to 32 bits. `Bits` is the bit pattern an operator sees,
    `Num` the Number that `x >>> 0` yields and `Signed` the Number that `x | 0` yields. */
module JsNumbers {

  const TWO31: int := 0x8000_0000
  const TWO32: int := 0x1_0000_0000
  const TWO53: int := 0x20_0000_0000_0000

  function Append(h: bv32, odd: bool): bv32 {
    (h << 1) | (if odd then 1 else 0)
  }

  function FromNat(n: nat): bv32 {
    if n == 0 then 0 else Append(FromNat(n / 2), n % 2 == 1)
  }

  function Num(b: bv32): nat
    decreases b
  {
    if b == 0 then 0 else 2 * Num(b >> 1) + (if b & 1 == 1 then 1 else 0)
  }

  function Bits(x: int): bv32 {
    FromNat(x % TWO32)
  }

  function Signed(b: bv32): int {
    if Num(b) < TWO31 then Num(b) else Num(b) - TWO32
  }

  function Add32(a: bv32, b: bv32): bv32 {
    Bits(Num(a) + Num(b))
  }

  /** One Horner step of each conversion. */
  lemma FromNatStep(h: nat, odd: bool)
    ensures FromNat(2 * h + (if odd then 1 else 0)) == Append(FromNat(h), odd)
  {
    var n := 2 * h + (if odd then 1 else 0);
    assert n / 2 == h && (n % 2 == 1 <==> odd);
    if n == 0 { assert FromNat(0) == 0; }
  }

  lemma NumStep(b: bv32)
    ensures Num(b) == 2 * Num(b >> 1) + (if b & 1 == 1 then 1 else 0)
  {
    if b == 0 { assert b >> 1 == 0; }
  }

  lemma Rejoin(b: bv32)
    ensures Append(b >> 1, b & 1 == 1) == b
  {
  }

  lemma FromNatNumStep(b: bv32)
    requires FromNat(Num(b >> 1)) == b >> 1
    ensures FromNat(Num(b)) == b
  {
    hide *;
    NumStep(b);
    FromNatStep(Num(b >> 1), b & 1 == 1);
    Rejoin(b);
  }

  lemma {:induction false} FromNatNum(b: bv32)
    ensures FromNat(Num(b)) == b
    decreases b
  {
    if b == 0 {
      assert Num(0) == 0;
      assert FromNat(0) == 0;
    } else {
      hide *;
      FromNatNum(b >> 1);
      FromNatNumStep(b);
    }
  }

  /** `m` is a mask of low ones: a number up to `Num(m)` has no bit outside it. */
  lemma {:induction false} FromNatBelow(n: nat, m: bv32)
    requires m & (m >> 1) == m >> 1
    requires n <= Num(m)
    ensures FromNat(n) & m == FromNat(n)
    decreases m
  {
    if n == 0 {
      assert FromNat(0) == 0;
    } else if m != 0 {
      hide *;
      NumStep(m);
      MaskTail(m);
      FromNatBelow(n / 2, m >> 1);
      FromNatStep(n / 2, n % 2 == 1);
      MaskShift(FromNat(n / 2), m);
    }
  }

  lemma MaskTail(m: bv32)
    requires m & (m >> 1) == m >> 1
    ensures m != 0 ==> m & 1 == 1
    ensures (m >> 1) & ((m >> 1) >> 1) == (m >> 1) >> 1
  {
    assert m | (m >> 1) == m;
    assert m | (m >> 2) == m;
    assert m | (m >> 4) == m;
    assert m | (m >> 8) == m;
    assert m | (m >> 16) == m;
  }

  lemma MaskShift(h: bv32, m: bv32)
    requires h & (m >> 1) == h && m & 1 == 1
    ensures Append(h, true) & m == Append(h, true) && Append(h, false) & m == Append(h, false)
  {
  }

  lemma NumAppend(h: bv32, odd: bool)
    requires h & 0x8000_0000 == 0
    ensures Num(Append(h, odd)) == 2 * Num(h) + (if odd then 1 else 0)
  {
    hide *;
    NumStep(Append(h, odd));
    Unshift(h, odd);
  }

  lemma NumFromNatStep(n: nat, h: nat)
    requires h == n / 2
    requires FromNat(h) & 0x8000_0000 == 0 && Num(FromNat(h)) == h
    ensures Num(FromNat(n)) == n
  {
    hide *;
    var odd := n % 2 == 1;
    assert n == 2 * h + (if odd then 1 else 0);
    FromNatStep(h, odd);
    NumAppend(FromNat(h), odd);
  }

  /** A number that fits the mask `m` survives the trip through its bit pattern. */
  lemma {:induction false} NumFromNat(n: nat, m: bv32)
    requires m & (m >> 1) == m >> 1
    requires n <= Num(m)
    ensures Num(FromNat(n)) == n
    decreases m
  {
    if m == 0 {
      assert Num(0) == 0 && FromNat(0) == 0;
    } else {
      hide *;
      var h := n / 2;
      NumStep(m);
      MaskTail(m);
      assert h <= Num(m >> 1);
      NumFromNat(h, m >> 1);
      FromNatBelow(h, m >> 1);
      HalfMask(m);
      TopClear(FromNat(h), m >> 1);
      NumFromNatStep(n, h);
    }
  }

  lemma HalfMask(m: bv32)
    ensures (m >> 1) & 0x8000_0000 == 0
  {
  }

  lemma TopClear(h: bv32, m: bv32)
    requires h & m == h && m & 0x8000_0000 == 0
    ensures h & 0x8000_0000 == 0
  {
  }

  lemma Unshift(h: bv32, odd: bool)
    requires h & 0x8000_0000 == 0
    ensures Append(h, odd) >> 1 == h
    ensures Append(h, odd) & 1 == 1 <==> odd
  {
  }

  lemma NumMax()
    ensures Num(0xFFFF_FFFF) == TWO32 - 1
  {
    assert Num(0) == 0;
    hide *;
    NumAppend(0x0, true);
    assert Num(0x1) == 0x1;
    NumAppend(0x1, true);
    assert Num(0x3) == 0x3;
    NumAppend(0x3, true);
    assert Num(0x7) == 0x7;
    NumAppend(0x7, true);
    assert Num(0xF) == 0xF;
    NumAppend(0xF, true);
    assert Num(0x1F) == 0x1F;
    NumAppend(0x1F, true);
    assert Num(0x3F) == 0x3F;
    NumAppend(0x3F, true);
    assert Num(0x7F) == 0x7F;
    NumAppend(0x7F, true);
    assert Num(0xFF) == 0xFF;
    NumAppend(0xFF, true);
    assert Num(0x1FF) == 0x1FF;
    NumAppend(0x1FF, true);
    assert Num(0x3FF) == 0x3FF;
    NumAppend(0x3FF, true);
    assert Num(0x7FF) == 0x7FF;
    NumAppend(0x7FF, true);
    assert Num(0xFFF) == 0xFFF;
    NumAppend(0xFFF, true);
    assert Num(0x1FFF) == 0x1FFF;
    NumAppend(0x1FFF, true);
    assert Num(0x3FFF) == 0x3FFF;
    NumAppend(0x3FFF, true);
    assert Num(0x7FFF) == 0x7FFF;
    NumAppend(0x7FFF, true);
    assert Num(0xFFFF) == 0xFFFF;
    NumAppend(0xFFFF, true);
    assert Num(0x1FFFF) == 0x1FFFF;
    NumAppend(0x1FFFF, true);
    assert Num(0x3FFFF) == 0x3FFFF;
    NumAppend(0x3FFFF, true);
    assert Num(0x7FFFF) == 0x7FFFF;
    NumAppend(0x7FFFF, true);
    assert Num(0xFFFFF) == 0xFFFFF;
    NumAppend(0xFFFFF, true);
    assert Num(0x1FFFFF) == 0x1FFFFF;
    NumAppend(0x1FFFFF, true);
    assert Num(0x3FFFFF) == 0x3FFFFF;
    NumAppend(0x3FFFFF, true);
    assert Num(0x7FFFFF) == 0x7FFFFF;
    NumAppend(0x7FFFFF, true);
    assert Num(0xFFFFFF) == 0xFFFFFF;
    NumAppend(0xFFFFFF, true);
    assert Num(0x1FFFFFF) == 0x1FFFFFF;
    NumAppend(0x1FFFFFF, true);
    assert Num(0x3FFFFFF) == 0x3FFFFFF;
    NumAppend(0x3FFFFFF, true);
    assert Num(0x7FFFFFF) == 0x7FFFFFF;
    NumAppend(0x7FFFFFF, true);
    assert Num(0xFFFFFFF) == 0xFFFFFFF;
    NumAppend(0xFFFFFFF, true);
    assert Num(0x1FFFFFFF) == 0x1FFFFFFF;
    NumAppend(0x1FFFFFFF, true);
    assert Num(0x3FFFFFFF) == 0x3FFFFFFF;
    NumAppend(0x3FFFFFFF, true);
    assert Num(0x7FFFFFFF) == 0x7FFFFFFF;
    NumAppend(0x7FFFFFFF, true);
    assert Num(0xFFFFFFFF) == 0xFFFFFFFF;
  }

  /** `x >>> 0` is `x` modulo 2^32. */
  lemma NumBits(x: int)
    ensures Num(Bits(x)) == x % TWO32
  {
    NumMax();
    NumFromNat(x % TWO32, 0xFFFF_FFFF);
  }

  lemma NumRange(b: bv32)
    ensures 0 <= Num(b) < TWO32
  {
    hide Num, FromNat;
    FromNatNum(b);
    NumBelow(b, 0xFFFF_FFFF);
    NumMax();
  }

  lemma {:induction false} NumBelow(b: bv32, m: bv32)
    requires m & (m >> 1) == m >> 1
    requires b & m == b
    ensures Num(b) <= Num(m)
    decreases m
  {
    if m == 0 {
      assert b == 0;
    } else {
      hide *;
      NumStep(b);
      NumStep(m);
      MaskTail(m);
      MaskDrop(b, m);
      NumBelow(b >> 1, m >> 1);
    }
  }

  lemma MaskDrop(b: bv32, m: bv32)
    requires b & m == b
    ensures (b >> 1) & (m >> 1) == b >> 1
  {
  }

  lemma BitsNum(b: bv32)
    ensures Bits(Num(b)) == b
  {
    hide Num, FromNat;
    NumRange(b);
    FromNatNum(b);
  }

  lemma BitsSigned(b: bv32)
    ensures Bits(Signed(b)) == b
    ensures -TWO31 <= Signed(b) < TWO31
  {
    hide Num, FromNat;
    NumRange(b);
    FromNatNum(b);
  }

  /** Any sum may be taken before or after the cut to 32 bits. */
  lemma BitsAdd(x: int, y: int)
    ensures Bits(x + y) == Add32(Bits(x), Bits(y))
  {
    hide Num, FromNat;
    NumBits(x);
    NumBits(y);
    assert (x + y) % TWO32 == (x % TWO32 + y % TWO32) % TWO32;
  }

  lemma BitsMod(x: int, y: int)
    ensures Bits(x) == Bits(y) <==> x % TWO32 == y % TWO32
  {
    hide Num, FromNat;
    NumBits(x);
    NumBits(y);
  }

  /** `x | 0` never exceeds a non-negative `x`, and is `x` itself below 2^31. */
  lemma SignedOfNat(x: nat)
    ensures Signed(Bits(x)) <= x
    ensures x < TWO31 ==> Signed(Bits(x)) == x
  {
    hide Num, FromNat, Bits;
    NumBits(x);
  }

  // ---------------------------------------------------------------- Numbers as words

  /** `x | 0` */
  function Cut(x: int): int {
    Signed(Bits(x))
  }

  /** A Number between -2^31 and 2^31 with the bits of `w`. */
  ghost predicate Fits(x: int, w: bv32) {
    Bits(x) == w && -TWO31 <= x < TWO31
  }

  function Patterns(xs: seq<int>): (ws: seq<bv32>)
    ensures |ws| == |xs|
  {
    seq(|xs|, i requires 0 <= i < |xs| => Bits(xs[i]))
  }

  ghost predicate AllSigned(xs: seq<int>) {
    forall i :: 0 <= i < |xs| ==> -TWO31 <= xs[i] < TWO31
  }

  /** Every Number has the bits of the word at its place, and fits 32 bits. */
  ghost predicate AllFit(xs: seq<int>, ws: seq<bv32>) {
    |xs| == |ws| && forall i :: 0 <= i < |xs| ==> Fits(xs[i], ws[i])
  }

  lemma FittingNumbers(xs: seq<int>, ws: seq<bv32>)
    requires AllFit(xs, ws)
    ensures Patterns(xs) == ws && AllSigned(xs)
  {
    hide Bits;
    forall i | 0 <= i < |xs| ensures Patterns(xs)[i] == ws[i] && -TWO31 <= xs[i] < TWO31 {
      assert Fits(xs[i], ws[i]);
    }
  }

  lemma EightFit(x0: int, x1: int, x2: int, x3: int, x4: int, x5: int, x6: int, x7: int, ws: seq<bv32>)
    requires |ws| == 8
    requires Fits(x0, ws[0]) && Fits(x1, ws[1]) && Fits(x2, ws[2]) && Fits(x3, ws[3])
    requires Fits(x4, ws[4]) && Fits(x5, ws[5]) && Fits(x6, ws[6]) && Fits(x7, ws[7])
    ensures AllFit([x0, x1, x2, x3, x4, x5, x6, x7], ws)
  {
    hide Fits;
  }

  /** A double adds two integers exactly as long as neither they nor the sum leave the
      53-bit range. */
  predicate Exact(x: int) {
    -TWO53 <= x <= TWO53
  }

  function Plus(x: int, y: int): (r: int)
    requires Exact(x) && Exact(y) && Exact(x + y)
    ensures r == x + y
  {
    x + y
  }

  /** Numbers that agree modulo 2^32 have the same bits. */
  lemma SameBits(x: int, w: bv32)
    ensures Bits(x) == w <==> x % TWO32 == Num(w)
  {
    hide Num, FromNat;
    NumRange(w);
    BitsNum(w);
    BitsMod(x, Num(w));
  }
}
