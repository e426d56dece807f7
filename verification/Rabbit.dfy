/** The Rabbit stream cipher. Its state lives in JavaScript Numbers: counters and state words
    are the signed results of `| 0`, and the squaring is done on the Number `X[i] + C[i]`. */
module Rabbit {
  import opened Wrappers
  import opened JsNumbers
  import opened WordArrays
  import opened WordNumbers
  import opened Streaming
  import opened BlockModes
  import opened Keystreams

  // ---------------------------------------------------------------- the g-function

  /** `x >>> k` for a Number `x`. */
  function ShrNum(x: int, k: nat): nat
    requires k <= 32
  {
    Num(Shr(Bits(x), k))
  }

  /** `x & m` for a Number `x`. */
  function AndNum(x: int, m: Word): int {
    Signed(And(Bits(x), m))
  }

  function HighSquare(ga: int, gb: int): int {
    ShrNum(ShrNum(ga * ga, 17) + ga * gb, 15) + gb * gb
  }

  function LowSquare(gx: int): int {
    Cut(AndNum(gx, 0xffff_0000) * gx) + Cut(AndNum(gx, 0x0000_ffff) * gx)
  }

  /** The g-value as the bundle computes it from `X[i] + C[i]`. */
  function GNumber(gx: int): int {
    Signed(Xor(Bits(HighSquare(AndNum(gx, 0xffff), ShrNum(gx, 16))), Bits(LowSquare(gx))))
  }

  /** Section 2.6 of RFC 4503: the upper and the lower half of the 64-bit square, combined. */
  function GSpec(u: nat): Word {
    Xor(Bits(u * u / TWO32), Bits(u * u % TWO32))
  }

  lemma MulBound(a: nat, b: nat, m: nat, n: nat)
    requires a <= m && b <= n
    ensures 0 <= a * b <= m * n
  {
    assert m * n - a * b == (m - a) * n + a * (n - b);
  }

  lemma HighExact(ga: nat, gb: nat)
    requires ga < 0x1_0000 && gb < 0x1_0000
    ensures var u := ga + 0x1_0000 * gb; HighSquare(ga, gb) == u * u / TWO32
  {
    MulBound(ga, ga, 0xffff, 0xffff);
    MulBound(ga, gb, 0xffff, 0xffff);
    hide Num, Bits, Shr, ShrNum;
    ShrNums(ga * ga, ga * gb);
    Square(ga, gb);
  }

  lemma ShrNums(aa: nat, ab: nat)
    requires aa <= 0xffff * 0xffff && ab <= 0xffff * 0xffff
    ensures ShrNum(ShrNum(aa, 17) + ab, 15) == (aa / 0x2_0000 + ab) / 0x8000
  {
    hide Num, Bits, Shr;
    NumBits(aa);
    Shr17(Bits(aa));
    var q := aa / 0x2_0000;
    assert ShrNum(aa, 17) == q;
    NumBits(q + ab);
    Shr15(Bits(q + ab));
  }

  lemma Square(ga: nat, gb: nat)
    ensures var u := ga + 0x1_0000 * gb;
            u * u == ga * ga + 0x2_0000 * (ga * gb) + TWO32 * (gb * gb)
  {
    var u := ga + 0x1_0000 * gb;
    assert u * u == ga * u + (0x1_0000 * gb) * u;
    assert ga * u == ga * ga + 0x1_0000 * (ga * gb);
    assert (0x1_0000 * gb) * u == 0x1_0000 * (ga * gb) + TWO32 * (gb * gb);
  }

  lemma ModTimes(x: int, y: int, u: int)
    requires x % TWO32 == u % TWO32 && y % TWO32 == u % TWO32
    ensures (x * y) % TWO32 == (u * u) % TWO32
  {
    var s, t := x / TWO32 - u / TWO32, y / TWO32 - u / TWO32;
    assert x == u + TWO32 * s && y == u + TWO32 * t;
    assert x * y == u * u + TWO32 * (s * u + t * u + TWO32 * (s * t));
    AddMultiple(u * u, s * u + t * u + TWO32 * (s * t));
  }

  lemma AddMultiple(v: int, k: int)
    ensures (v + TWO32 * k) % TWO32 == v % TWO32
  {}

  lemma LowExact(gx: int)
    ensures var u := gx % TWO32; Bits(LowSquare(gx)) == Bits(u * u % TWO32)
  {
    var hi, lo := AndNum(gx, 0xffff_0000), AndNum(gx, 0xffff);
    hide Num, Bits, AndNum, Cut;
    MasksSplit(gx);
    SquareOfSum(hi, lo, gx, gx % TWO32);
    CutSum(hi * gx, lo * gx);
    BitsMod(hi * gx + lo * gx, (gx % TWO32) * (gx % TWO32));
    BitsMod((gx % TWO32) * (gx % TWO32), (gx % TWO32) * (gx % TWO32) % TWO32);
  }

  lemma SquareOfSum(hi: int, lo: int, gx: int, u: int)
    requires (hi + lo) % TWO32 == gx % TWO32 == u
    ensures (hi * gx + lo * gx) % TWO32 == (u * u) % TWO32
  {
    ModTimes(hi + lo, gx, u);
    assert hi * gx + lo * gx == (hi + lo) * gx;
  }

  lemma MasksSplit(gx: int)
    ensures (AndNum(gx, 0xffff_0000) + AndNum(gx, 0xffff)) % TWO32 == gx % TWO32
  {
    hide Num, FromNat, Shr, And;
    NumBits(gx);
    Halves(Bits(gx));
    var a, b := And(Bits(gx), 0xffff_0000), And(Bits(gx), 0xffff);
    assert Num(a) + Num(b) == gx % TWO32;
  }

  /** `(x | 0) + (y | 0)` is `x + y` to every later bitwise operator. */
  lemma CutSum(x: int, y: int)
    ensures Bits(Cut(x) + Cut(y)) == Bits(x + y)
  {
    hide Num, FromNat, Bits, Signed;
    BitsSigned(Bits(x));
    BitsSigned(Bits(y));
    BitsAdd(Cut(x), Cut(y));
    BitsAdd(x, y);
  }

  /** The 32-bit halves built from 16-bit pieces are those of the exact 64-bit square. */
  lemma GExact(gx: int)
    ensures Bits(GNumber(gx)) == GSpec(gx % TWO32)
  {
    hide Num, FromNat, Shr, And, Xor, HighSquare, LowSquare;
    var u := gx % TWO32;
    NumBits(gx);
    Halves(Bits(gx));
    HighExact(u % 0x1_0000, u / 0x1_0000);
    assert u == u % 0x1_0000 + 0x1_0000 * (u / 0x1_0000);
    LowExact(gx);
    BitsSigned(Xor(Bits(u * u / TWO32), Bits(LowSquare(gx))));
  }

  // ---------------------------------------------------------------- exactness as doubles

  predicate IsPowerOf2(p: nat) {
    p == 1 || (p > 1 && p % 2 == 0 && IsPowerOf2(p / 2))
  }

  function Scaled(m: int, p: nat): int { m * p }

  /** A double holds `x` exactly: an integer of at most 53 bits, scaled by a power of two. */
  ghost predicate Representable(x: int) {
    exists m: int, p: nat :: IsPowerOf2(p) && x == Scaled(m, p) && -TWO53 <= m <= TWO53
  }

  lemma SmallIsRepresentable(x: int)
    requires -TWO53 <= x <= TWO53
    ensures Representable(x)
  {
    assert IsPowerOf2(1) && x == Scaled(x, 1);
  }

  /** Every product of the squaring of `gx` is a Number. */
  ghost predicate SquareExact(gx: int) {
    var ga, gb := AndNum(gx, 0xffff), ShrNum(gx, 16);
    && Representable(ga * ga) && Representable(ga * gb) && Representable(gb * gb)
    && Representable(AndNum(gx, 0xffff_0000) * gx) && Representable(ga * gx)
  }

  /** No product of the squaring loses a bit, though the first exceeds 2^53: its 16 low bits
      are 0. */
  lemma ProductsAreExact(gx: int)
    requires -TWO32 <= gx <= TWO32
    ensures SquareExact(gx)
  {
    var ga, gb, hi := AndNum(gx, 0xffff), ShrNum(gx, 16), AndNum(gx, 0xffff_0000);
    Pieces(gx);
    hide AndNum, ShrNum, Representable;
    SmallProduct(ga, ga);
    SmallProduct(ga, gb);
    SmallProduct(gb, gb);
    SmallProduct(ga, gx);
    TopProduct(hi, hi / 0x1_0000, gx);
  }

  lemma TopProduct(hi: int, h: int, gx: int)
    requires hi == h * 0x1_0000 && -0x8000 <= h < 0x8000 && -TWO32 <= gx <= TWO32
    ensures Representable(hi * gx)
  {
    hide Representable;
    ScaledRepresentable(h, gx);
    assert hi * gx == (h * gx) * 0x1_0000;
  }

  lemma SmallProduct(x: nat, y: int)
    requires x <= 0xffff && -TWO32 <= y <= TWO32
    ensures Representable(x * y)
  {
    var b := if y < 0 then -y else y;
    MulBound(x, b, 0xffff, TWO32);
    assert x * y == x * b || x * y == -(x * b);
    hide Representable;
    SmallIsRepresentable(x * y);
  }

  lemma ScaledRepresentable(h: int, gx: int)
    requires -0x8000 <= h < 0x8000 && -TWO32 <= gx <= TWO32
    ensures Representable((h * gx) * 0x1_0000)
  {
    var a, b := if h < 0 then -h else h, if gx < 0 then -gx else gx;
    MulBound(a, b, 0x8000, TWO32);
    assert h * gx == a * b || h * gx == -(a * b);
    hide Representable;
    ScaledBy16(h * gx);
  }

  lemma ScaledBy16(m: int)
    requires -TWO53 <= m <= TWO53
    ensures Representable(m * 0x1_0000)
  {
    assert IsPowerOf2(0x4);
    assert IsPowerOf2(0x10);
    assert IsPowerOf2(0x40);
    assert IsPowerOf2(0x100);
    assert IsPowerOf2(0x400);
    assert IsPowerOf2(0x1000);
    assert IsPowerOf2(0x4000);
    assert IsPowerOf2(0x1_0000);
    hide IsPowerOf2;
    assert m * 0x1_0000 == Scaled(m, 0x1_0000);
  }

  lemma Pieces(gx: int)
    ensures 0 <= AndNum(gx, 0xffff) < 0x1_0000 && 0 <= ShrNum(gx, 16) < 0x1_0000
    ensures var hi := AndNum(gx, 0xffff_0000);
            hi == (hi / 0x1_0000) * 0x1_0000 && -0x8000 <= hi / 0x1_0000 < 0x8000
  {
    hide Num, FromNat, Shr, And;
    NumBits(gx);
    Halves(Bits(gx));
  }

  // ---------------------------------------------------------------- the counters

  /** The increments of section 2.5 of RFC 4503. */
  function A(j: nat): nat {
    if j % 3 == 0 then 0x4d34d34d else if j % 3 == 1 then 0xd34d34d3 else 0x34d34d34
  }

  /** The carry into counter word `j`. */
  function Carry(c: seq<Word>, b: nat, j: nat): nat
    requires j <= |c|
  {
    if j == 0 then b else (Num(c[j - 1]) + A(j - 1) + Carry(c, b, j - 1)) / TWO32
  }

  function NextCounter(c: seq<Word>, b: nat, j: nat): Word
    requires j < |c|
  {
    Bits(Num(c[j]) + A(j) + Carry(c, b, j))
  }

  lemma {:induction false} CarryBit(c: seq<Word>, b: nat, j: nat)
    requires j <= |c| && b < 2
    ensures Carry(c, b, j) < 2
  {
    if j > 0 {
      CarryBit(c, b, j - 1);
      NumRange(c[j - 1]);
    }
  }

  function NextCounters(c: seq<Word>, b: nat): (r: seq<Word>)
    ensures |r| == |c|
  {
    seq(|c|, j requires 0 <= j < |c| => NextCounter(c, b, j))
  }

  function Power(n: nat): nat {
    if n == 0 then 1 else TWO32 * Power(n - 1)
  }

  /** The number that the first `n` words spell: word `j` counts 2^(32 j). */
  function Value(ws: seq<Word>, n: nat): nat
    requires n <= |ws|
  {
    if n == 0 then 0 else Value(ws, n - 1) + Power(n - 1) * Num(ws[n - 1])
  }

  function Increments(n: nat): nat {
    if n == 0 then 0 else Increments(n - 1) + Power(n - 1) * A(n - 1)
  }

  /** The first `n` words and the carry out of them hold the exact sum. */
  lemma {:induction false} CounterSum(c: seq<Word>, b: nat, n: nat)
    requires n <= |c|
    ensures Value(NextCounters(c, b), n) + Power(n) * Carry(c, b, n) == Value(c, n) + Increments(n) + b
  {
    if n > 0 {
      CounterSum(c, b, n - 1);
      hide Num, FromNat, A, Bits;
      var t := Num(c[n - 1]) + A(n - 1) + Carry(c, b, n - 1);
      assert NextCounters(c, b)[n - 1] == Bits(t) && Carry(c, b, n) == t / TWO32;
      NumBits(t);
      LimbSum(Power(n - 1), t, Num(c[n - 1]), A(n - 1), Carry(c, b, n - 1));
    } else {
      assert Power(0) * Carry(c, b, 0) == b;
    }
  }

  lemma LimbSum(p: nat, t: nat, x: nat, y: nat, z: nat)
    requires t == x + y + z
    ensures p * (t % TWO32) + TWO32 * p * (t / TWO32) == p * x + p * y + p * z
  {
    assert p * t == p * x + p * y + p * z;
    assert t == TWO32 * (t / TWO32) + t % TWO32;
    assert p * t == p * (TWO32 * (t / TWO32)) + p * (t % TWO32);
    assert p * (TWO32 * (t / TWO32)) == TWO32 * p * (t / TWO32);
  }

  // ---------------------------------------------------------------- the next-state function

  /** Eight state words, eight counters and the counter carry. */
  datatype State = State(x: seq<Word>, c: seq<Word>, b: nat) {
    ghost predicate Valid() {
      |x| == 8 && |c| == 8 && b < 2
    }
  }

  function GWords(x: seq<Word>, c: seq<Word>): (g: seq<Word>)
    requires |x| == |c| == 8
    ensures |g| == 8
  {
    seq(8, j requires 0 <= j < 8 => GSpec((Num(x[j]) + Num(c[j])) % TWO32))
  }

  function Combine(even: bool, g: Word, p: Word, q: Word): Word {
    if even then Add32(Add32(g, RotL(p, 16)), RotL(q, 16)) else Add32(Add32(g, RotL(p, 8)), q)
  }

  /** Section 2.6 of RFC 4503: state word `j` from its g-value and the two before it. */
  function MixWord(g: seq<Word>, j: nat): Word
    requires |g| == 8 && j < 8
  {
    Combine(j % 2 == 0, g[j], g[(j + 7) % 8], g[(j + 6) % 8])
  }

  function Mixed(g: seq<Word>): (x: seq<Word>)
    requires |g| == 8
    ensures |x| == 8
  {
    seq(8, j requires 0 <= j < 8 => MixWord(g, j))
  }

  /** Sections 2.5 and 2.6 of RFC 4503 on words. */
  function Next(s: State): (r: State)
    requires s.Valid()
    ensures r.Valid()
  {
    CarryBit(s.c, s.b, 8);
    var c := NextCounters(s.c, s.b);
    State(Mixed(GWords(s.x, c)), c, Carry(s.c, s.b, 8))
  }

  /** Over a step, the counters and the carry bit go up by exactly the eight-word increment,
      modulo 2^256 and with the carry out kept. */
  lemma CountersAreExact(s: State)
    requires s.Valid()
    ensures Value(Next(s).c, 8) + Power(8) * Next(s).b == Value(s.c, 8) + Increments(8) + s.b
  {
    hide Value, Increments, Power, Mixed, GWords;
    CounterSum(s.c, s.b, 8);
  }

  /** `(now >>> 0) < (before >>> 0) ? 1 : 0` */
  function Wrapped(now: int, before: int): int {
    if Num(Bits(now)) < Num(Bits(before)) then 1 else 0
  }

  /** Counter word `j` is about to receive its increment. */
  ghost predicate Due(c: seq<Word>, j: nat, a: int, before: int) {
    j < |c| && a == A(j) && c[j] == Bits(before)
  }

  lemma AllDue(c: seq<Word>, p0: int, p1: int, p2: int, p3: int, p4: int, p5: int, p6: int, p7: int)
    requires c == Patterns([p0, p1, p2, p3, p4, p5, p6, p7])
    ensures |c| == 8
    ensures Due(c, 0, 0x4d34d34d, p0) && Due(c, 1, 0xd34d34d3, p1) && Due(c, 2, 0x34d34d34, p2) && Due(c, 3, 0x4d34d34d, p3)
    ensures Due(c, 4, 0xd34d34d3, p4) && Due(c, 5, 0x34d34d34, p5) && Due(c, 6, 0x4d34d34d, p6) && Due(c, 7, 0xd34d34d3, p7)
  {
    hide Bits;
  }

  lemma CountersFit(c: seq<Word>, b: nat, c0: int, c1: int, c2: int, c3: int, c4: int, c5: int, c6: int, c7: int)
    requires |c| == 8
    requires Fits(c0, NextCounter(c, b, 0)) && Fits(c1, NextCounter(c, b, 1)) && Fits(c2, NextCounter(c, b, 2)) && Fits(c3, NextCounter(c, b, 3))
    requires Fits(c4, NextCounter(c, b, 4)) && Fits(c5, NextCounter(c, b, 5)) && Fits(c6, NextCounter(c, b, 6)) && Fits(c7, NextCounter(c, b, 7))
    ensures Patterns([c0, c1, c2, c3, c4, c5, c6, c7]) == NextCounters(c, b) && AllSigned([c0, c1, c2, c3, c4, c5, c6, c7])
  {
    CounterWords(c, b);
    hide Fits, NextCounter, NextCounters, Patterns, AllSigned;
    EightFit(c0, c1, c2, c3, c4, c5, c6, c7, NextCounters(c, b));
    FittingNumbers([c0, c1, c2, c3, c4, c5, c6, c7], NextCounters(c, b));
  }

  /** The comparison with the old word detects the carry, because no increment is 0 or
      2^32 - 1. */
  lemma CounterStep(c: seq<Word>, b: nat, j: nat, a: int, before: int, carry: int)
    requires b < 2 && Due(c, j, a, before) && carry == Carry(c, b, j)
    ensures var now := Cut(before + a + carry);
            Fits(now, NextCounter(c, b, j)) && Wrapped(now, before) == Carry(c, b, j + 1)
  {
    hide Num, FromNat, Signed, Bits, Carry, A;
    var sum := before + a + carry;
    BitsSigned(Bits(sum));
    CarryBit(c, b, j);
    NumBits(before);
    NumBits(sum);
    CarryUnfolds(c, b, j);
    BitsMod(sum, before % TWO32 + a + carry);
  }

  lemma CarryUnfolds(c: seq<Word>, b: nat, j: nat)
    requires j < |c|
    ensures Carry(c, b, j + 1) == (Num(c[j]) + A(j) + Carry(c, b, j)) / TWO32
    ensures 0 < A(j) < TWO32 - 1
  {
    hide Num;
  }

  lemma ChainLow(c: seq<Word>, b: nat, p0: int, p1: int, p2: int, p3: int, c0: int, c1: int, c2: int, c3: int)
    requires b < 2 && |c| == 8 && Due(c, 0, 0x4d34d34d, p0) && Due(c, 1, 0xd34d34d3, p1) && Due(c, 2, 0x34d34d34, p2) && Due(c, 3, 0x4d34d34d, p3)
    requires c0 == Cut(p0 + 0x4d34d34d + b) && c1 == Cut(p1 + 0xd34d34d3 + Wrapped(c0, p0)) && c2 == Cut(p2 + 0x34d34d34 + Wrapped(c1, p1)) && c3 == Cut(p3 + 0x4d34d34d + Wrapped(c2, p2))
    ensures Fits(c0, NextCounter(c, b, 0)) && Fits(c1, NextCounter(c, b, 1)) && Fits(c2, NextCounter(c, b, 2)) && Fits(c3, NextCounter(c, b, 3))
    ensures Wrapped(c3, p3) == Carry(c, b, 4)
  {
    NoCarryYet(c, b);
    hide *;
    CounterStep(c, b, 0, 0x4d34d34d, p0, b);
    CounterStep(c, b, 1, 0xd34d34d3, p1, Wrapped(c0, p0));
    CounterStep(c, b, 2, 0x34d34d34, p2, Wrapped(c1, p1));
    CounterStep(c, b, 3, 0x4d34d34d, p3, Wrapped(c2, p2));
  }

  lemma ChainHigh(c: seq<Word>, b: nat, carry: int, p4: int, p5: int, p6: int, p7: int, c4: int, c5: int, c6: int, c7: int)
    requires b < 2 && |c| == 8 && Due(c, 4, 0xd34d34d3, p4) && Due(c, 5, 0x34d34d34, p5) && Due(c, 6, 0x4d34d34d, p6) && Due(c, 7, 0xd34d34d3, p7)
    requires carry == Carry(c, b, 4)
    requires c4 == Cut(p4 + 0xd34d34d3 + carry) && c5 == Cut(p5 + 0x34d34d34 + Wrapped(c4, p4)) && c6 == Cut(p6 + 0x4d34d34d + Wrapped(c5, p5)) && c7 == Cut(p7 + 0xd34d34d3 + Wrapped(c6, p6))
    ensures Fits(c4, NextCounter(c, b, 4)) && Fits(c5, NextCounter(c, b, 5)) && Fits(c6, NextCounter(c, b, 6)) && Fits(c7, NextCounter(c, b, 7))
    ensures Wrapped(c7, p7) == Carry(c, b, 8)
  {
    hide *;
    CounterStep(c, b, 4, 0xd34d34d3, p4, carry);
    CounterStep(c, b, 5, 0x34d34d34, p5, Wrapped(c4, p4));
    CounterStep(c, b, 6, 0x4d34d34d, p6, Wrapped(c5, p5));
    CounterStep(c, b, 7, 0xd34d34d3, p7, Wrapped(c6, p6));
  }

  /** The eight statements, each reading the carry out of the one before. */
  lemma CounterChain(c: seq<Word>, b: nat, p0: int, p1: int, p2: int, p3: int, p4: int, p5: int, p6: int, p7: int,
                     c0: int, c1: int, c2: int, c3: int, c4: int, c5: int, c6: int, c7: int)
    requires b < 2 && c == Patterns([p0, p1, p2, p3, p4, p5, p6, p7])
    requires c0 == Cut(p0 + 0x4d34d34d + b) && c1 == Cut(p1 + 0xd34d34d3 + Wrapped(c0, p0)) && c2 == Cut(p2 + 0x34d34d34 + Wrapped(c1, p1)) && c3 == Cut(p3 + 0x4d34d34d + Wrapped(c2, p2))
    requires c4 == Cut(p4 + 0xd34d34d3 + Wrapped(c3, p3)) && c5 == Cut(p5 + 0x34d34d34 + Wrapped(c4, p4)) && c6 == Cut(p6 + 0x4d34d34d + Wrapped(c5, p5)) && c7 == Cut(p7 + 0xd34d34d3 + Wrapped(c6, p6))
    ensures Patterns([c0, c1, c2, c3, c4, c5, c6, c7]) == NextCounters(c, b) && AllSigned([c0, c1, c2, c3, c4, c5, c6, c7])
    ensures Wrapped(c7, p7) == Carry(c, b, 8) && 0 <= Carry(c, b, 8) < 2
  {
    AllDue(c, p0, p1, p2, p3, p4, p5, p6, p7);
    hide *;
    ChainLow(c, b, p0, p1, p2, p3, c0, c1, c2, c3);
    ChainHigh(c, b, Wrapped(c3, p3), p4, p5, p6, p7, c4, c5, c6, c7);
    CountersFit(c, b, c0, c1, c2, c3, c4, c5, c6, c7);
    CarryBit(c, b, 8);
  }

  // ---------------------------------------------------------------- key and IV setup

  /** 16-bit piece `j` of the key, in section 2.3 of RFC 4503. */
  function SubKey(K: seq<Word>, j: nat): Word {
    if j % 2 == 0 then And(Get(K, j / 2), 0xffff) else Shr(Get(K, j / 2), 16)
  }

  function Pair(h: Word, l: Word): Word {
    Or(h << 16, l)
  }

  function SeedX(K: seq<Word>, j: nat): Word {
    if j % 2 == 0 then Pair(SubKey(K, (j + 1) % 8), SubKey(K, j)) else Pair(SubKey(K, (j + 5) % 8), SubKey(K, (j + 4) % 8))
  }

  function SeedC(K: seq<Word>, j: nat): Word {
    if j % 2 == 0 then Pair(SubKey(K, (j + 4) % 8), SubKey(K, (j + 5) % 8)) else Pair(SubKey(K, j), SubKey(K, (j + 1) % 8))
  }

  function Seed(K: seq<Word>): State {
    State(seq(8, j requires 0 <= j => SeedX(K, j)), seq(8, j requires 0 <= j => SeedC(K, j)), 0)
  }

  function Steps(s: State, n: nat): (r: State)
    requires s.Valid()
    ensures r.Valid()
    decreases n
  {
    if n == 0 then s else Steps(Next(s), n - 1)
  }

  function Crossed(x: seq<Word>, c: seq<Word>): (r: seq<Word>)
    requires |x| == |c| == 8
    ensures |r| == 8
  {
    seq(8, k requires 0 <= k < 8 => Xor(c[k], x[(k + 4) % 8]))
  }

  /** Section 2.4 of RFC 4503: the 32-bit piece of the IV for counter `j`. */
  function IvPiece(iv: seq<Word>, j: nat): Word {
    var lo, hi := SwapEndian(Get(iv, 0)), SwapEndian(Get(iv, 1));
    if j == 0 then lo
    else if j == 1 then Pair(Shr(hi, 16), Shr(lo, 16))
    else if j == 2 then hi
    else Pair(And(hi, 0xffff), And(lo, 0xffff))
  }

  function WithIv(c: seq<Word>, iv: seq<Word>): (r: seq<Word>)
    requires |c| == 8
    ensures |r| == 8
  {
    seq(8, k requires 0 <= k < 8 => Xor(c[k], IvPiece(iv, k % 4)))
  }

  /** The state before the first keystream word. */
  function SetUp(K: seq<Word>, iv: Option<seq<Word>>): (r: State)
    ensures r.Valid()
  {
    var s := Steps(Seed(K), 4);
    var t := State(s.x, Crossed(s.x, s.c), s.b);
    if iv.None? then t else Steps(State(t.x, WithIv(t.c, iv.value), t.b), 4)
  }

  /** `(h << 16) | (l >>> 16)` */
  function Splice(h: Word, l: Word): Word {
    (h << 16) | (l >> 16)
  }

  /** `(h & 0xffff0000) | (l & 0x0000ffff)` */
  function Halved(h: Word, l: Word): Word {
    (h & 0xffff_0000) | (l & 0xffff)
  }

  /** `(l >>> 16) | (h & 0xffff0000)` */
  function HighPair(l: Word, h: Word): Word {
    (l >> 16) | (h & 0xffff_0000)
  }

  /** `(h << 16) | (l & 0x0000ffff)` */
  function LowPair(h: Word, l: Word): Word {
    (h << 16) | (l & 0xffff)
  }

  lemma SplicePairs(h: Word, l: Word)
    ensures Splice(h, l) == Pair(And(h, 0xffff), Shr(l, 16))
  {}

  lemma HalvedPairs(h: Word, l: Word)
    ensures Halved(h, l) == Pair(Shr(h, 16), And(l, 0xffff))
  {}

  lemma WholePair(w: Word)
    ensures w == Pair(Shr(w, 16), And(w, 0xffff))
  {}

  lemma HighPairs(l: Word, h: Word)
    ensures HighPair(l, h) == Pair(Shr(h, 16), Shr(l, 16))
  {
    TopHalf(h);
    OrSwap(l >> 16, h & 0xffff_0000);
  }

  lemma TopHalf(h: Word)
    ensures h & 0xffff_0000 == (h >> 16) << 16
  {}

  lemma OrSwap(a: Word, b: Word)
    ensures a | b == b | a
  {}

  lemma LowPairs(h: Word, l: Word)
    ensures LowPair(h, l) == Pair(And(h, 0xffff), And(l, 0xffff))
  {}

  lemma IvPieces(iv: seq<Word>, i0: Word, i1: Word, i2: Word, i3: Word)
    requires i0 == SwapEndian(Get(iv, 0)) && i2 == SwapEndian(Get(iv, 1))
    requires i1 == HighPair(i0, i2) && i3 == LowPair(i2, i0)
    ensures IvPiece(iv, 0) == i0 && IvPiece(iv, 1) == i1 && IvPiece(iv, 2) == i2 && IvPiece(iv, 3) == i3
  {
    hide SwapEndian, Pair, Shr, And, HighPair, LowPair;
    HighPairs(i0, i2);
    LowPairs(i2, i0);
  }

  function Numbers(ws: seq<Word>): (xs: seq<int>)
    ensures |xs| == |ws|
  {
    seq(|ws|, i requires 0 <= i < |ws| => Signed(ws[i]))
  }

  lemma NumbersFit(ws: seq<Word>)
    ensures Patterns(Numbers(ws)) == ws && AllSigned(Numbers(ws))
  {
    hide Bits, Signed;
    forall i | 0 <= i < |ws| ensures Bits(Signed(ws[i])) == ws[i] && -TWO31 <= Signed(ws[i]) < TWO31 {
      BitsSigned(ws[i]);
    }
  }

  lemma SeedWords(K: seq<Word>, K0: Word, K1: Word, K2: Word, K3: Word)
    requires K0 == Get(K, 0) && K1 == Get(K, 1) && K2 == Get(K, 2) && K3 == Get(K, 3)
    ensures Seed(K).x == [K0, Splice(K3, K2), K1, Splice(K0, K3), K2, Splice(K1, K0), K3, Splice(K2, K1)]
    ensures Seed(K).c == [Splice(K2, K2), Halved(K0, K1), Splice(K3, K3), Halved(K1, K2),
                          Splice(K0, K0), Halved(K2, K3), Splice(K1, K1), Halved(K3, K0)]
    ensures Seed(K).b == 0
  {
    SeedXWords(K, K0, K1, K2, K3);
    SeedCWords(K, K0, K1, K2, K3);
    hide SeedX, SeedC, Splice, Halved;
    SameEight(Seed(K).x, [K0, Splice(K3, K2), K1, Splice(K0, K3), K2, Splice(K1, K0), K3, Splice(K2, K1)]);
    SameEight(Seed(K).c, [Splice(K2, K2), Halved(K0, K1), Splice(K3, K3), Halved(K1, K2),
                          Splice(K0, K0), Halved(K2, K3), Splice(K1, K1), Halved(K3, K0)]);
  }

  lemma SeedXWords(K: seq<Word>, K0: Word, K1: Word, K2: Word, K3: Word)
    requires K0 == Get(K, 0) && K1 == Get(K, 1) && K2 == Get(K, 2) && K3 == Get(K, 3)
    ensures SeedX(K, 0) == K0 && SeedX(K, 1) == Splice(K3, K2) && SeedX(K, 2) == K1 && SeedX(K, 3) == Splice(K0, K3)
    ensures SeedX(K, 4) == K2 && SeedX(K, 5) == Splice(K1, K0) && SeedX(K, 6) == K3 && SeedX(K, 7) == Splice(K2, K1)
  {
    hide Pair, Shr, And, Splice, Halved, Get;
    WholePair(K0); WholePair(K1); WholePair(K2); WholePair(K3);
    SplicePairs(K3, K2); SplicePairs(K0, K3); SplicePairs(K1, K0); SplicePairs(K2, K1);
  }

  lemma SeedCWords(K: seq<Word>, K0: Word, K1: Word, K2: Word, K3: Word)
    requires K0 == Get(K, 0) && K1 == Get(K, 1) && K2 == Get(K, 2) && K3 == Get(K, 3)
    ensures SeedC(K, 0) == Splice(K2, K2) && SeedC(K, 1) == Halved(K0, K1) && SeedC(K, 2) == Splice(K3, K3) && SeedC(K, 3) == Halved(K1, K2)
    ensures SeedC(K, 4) == Splice(K0, K0) && SeedC(K, 5) == Halved(K2, K3) && SeedC(K, 6) == Splice(K1, K1) && SeedC(K, 7) == Halved(K3, K0)
  {
    hide Pair, Shr, And, Splice, Halved, Get;
    SplicePairs(K2, K2); SplicePairs(K3, K3); SplicePairs(K0, K0); SplicePairs(K1, K1);
    HalvedPairs(K0, K1); HalvedPairs(K1, K2); HalvedPairs(K2, K3); HalvedPairs(K3, K0);
  }

  lemma SameEight<T>(a: seq<T>, b: seq<T>)
    requires |a| == |b| == 8 && a[0] == b[0] && a[1] == b[1] && a[2] == b[2] && a[3] == b[3]
    requires a[4] == b[4] && a[5] == b[5] && a[6] == b[6] && a[7] == b[7]
    ensures a == b
  {}

  /** `x ^ w` for a Number `x`. */
  function XorNum(x: int, w: Word): int {
    Signed(Xor(Bits(x), w))
  }

  lemma XorNumBits(x: int, w: Word)
    ensures Fits(XorNum(x, w), Xor(Bits(x), w))
  {
    hide Bits, Signed, Xor;
    BitsSigned(Xor(Bits(x), w));
  }

  /** The key after a setup: its first four words, with the bytes of each reversed. */
  function Swapped(ws: seq<Word>): (r: seq<Word>)
    ensures |r| == if |ws| < 4 then 4 else |ws|
  {
    seq(if |ws| < 4 then 4 else |ws|, k requires 0 <= k => if k < 4 then SwapEndian(Get(ws, k)) else Get(ws, k))
  }

  lemma SwappedAt(ws: seq<Word>, k: nat)
    ensures Get(Swapped(ws), k) == if k < 4 then SwapEndian(Get(ws, k)) else Get(ws, k)
  {
    hide SwapEndian;
  }

  lemma SameWords(v: seq<Word>, w: seq<Word>)
    requires |v| == |w| && forall k: nat :: Get(v, k) == Get(w, k)
    ensures v == w
  {
    forall k: nat | k < |v| ensures v[k] == w[k] {
      assert Get(v, k) == Get(w, k);
    }
  }

  class RabbitCipher {
    const key: WordArray
    const iv: Option<seq<Word>>
    var X: seq<int>
    var C: seq<int>
    var b: int

    /** Every Number is the result of a bitwise operation. */
    ghost predicate Valid()
      reads this
    {
      && |X| == |C| == 8 && 0 <= b < 2
      && AllSigned(X) && AllSigned(C)
    }

    ghost function Current(): State
      requires Valid()
      reads this
    {
      State(Patterns(X), Patterns(C), b)
    }

    constructor (key: WordArray, iv: Option<seq<Word>>)
      ensures this.key == key && this.iv == iv && Valid()
    {
      this.key, this.iv := key, iv;
      X, C, b := Numbers(Zeros(8)), Numbers(Zeros(8)), 0;
      NumbersFit(Zeros(8));
    }

    /** Key and IV setup. The endian swap is done on the key's own words, in place. */
    method Reset()
      modifies this, key`words
      ensures key.words == Swapped(old(key.words))
      ensures Valid() && Current() == SetUp(Swapped(old(key.words)), iv)
    {
      hide Seed, Steps, Crossed, WithIv, Swapped, Patterns, Valid;
      SwapKey();
      SeedState();
      FourSteps();
      CrossCounters();
      if iv.Some? {
        AddIv();
        FourSteps();
      }
    }

    method SwapKey()
      modifies key`words
      ensures key.words == Swapped(old(key.words))
    {
      hide SwapEndian;
      ghost var ws := key.words;
      for i := 0 to 4
        invariant |key.words| == if i > |ws| then i else |ws|
        invariant forall k: nat :: Get(key.words, k) == if k < i then SwapEndian(Get(ws, k)) else Get(ws, k)
      {
        key.words := Put(key.words, i, SwapEndian(Get(key.words, i)));
      }
      SameWords(key.words, Swapped(ws));
    }

    /** The initial state and counter values, as the bundle spells them out. */
    method SeedState()
      modifies this`X, this`C, this`b
      ensures Valid() && Current() == Seed(key.words)
    {
      var K0, K1, K2, K3 := Get(key.words, 0), Get(key.words, 1), Get(key.words, 2), Get(key.words, 3);
      hide *;
      X := Numbers([K0, Splice(K3, K2), K1, Splice(K0, K3), K2, Splice(K1, K0), K3, Splice(K2, K1)]);
      C := Numbers([Splice(K2, K2), Halved(K0, K1), Splice(K3, K3), Halved(K1, K2),
                    Splice(K0, K0), Halved(K2, K3), Splice(K1, K1), Halved(K3, K0)]);
      b := 0;
      SeedWords(key.words, K0, K1, K2, K3);
      NumbersFit([K0, Splice(K3, K2), K1, Splice(K0, K3), K2, Splice(K1, K0), K3, Splice(K2, K1)]);
      NumbersFit([Splice(K2, K2), Halved(K0, K1), Splice(K3, K3), Halved(K1, K2),
                  Splice(K0, K0), Halved(K2, K3), Splice(K1, K1), Halved(K3, K0)]);
      StateFits();
    }

    lemma StateFits()
      requires |X| == |C| == 8 && 0 <= b < 2 && AllSigned(X) && AllSigned(C)
      ensures Valid() && Current() == State(Patterns(X), Patterns(C), b)
    {}

    method FourSteps()
      requires Valid()
      modifies this`X, this`C, this`b
      ensures Valid() && Current() == Steps(old(Current()), 4)
    {
      hide Patterns, Next, Valid;
      ghost var s := Current();
      assert s.Valid() by { Sized(); }
      for i := 0 to 4
        invariant Valid() && Current().Valid() && Steps(Current(), 4 - i) == Steps(s, 4)
      {
        NextState();
      }
    }

    lemma Sized()
      requires Valid()
      ensures Current().Valid()
    {}

    method CrossCounters()
      requires Valid()
      modifies this`C
      ensures Valid() && Current() == State(old(Current()).x, Crossed(old(Current()).x, old(Current()).c), old(b))
    {
      hide Bits, XorNum, Xor;
      ghost var c := C;
      for i := 0 to 8
        invariant |C| == 8 && Valid()
        invariant forall k :: 0 <= k < 8 ==> Bits(C[k]) == if k < i then Xor(Bits(c[k]), Bits(X[(k + 4) % 8])) else Bits(c[k])
      {
        XorNumBits(C[i], Bits(X[(i + 4) % 8]));
        C := C[i := XorNum(C[i], Bits(X[(i + 4) % 8]))];
      }
    }

    method AddIv()
      requires Valid() && iv.Some?
      modifies this`C
      ensures Valid() && Current() == State(old(Current()).x, WithIv(old(Current()).c, iv.value), old(b))
    {
      var i0, i2 := SwapEndian(Get(iv.value, 0)), SwapEndian(Get(iv.value, 1));
      var i1, i3 := HighPair(i0, i2), LowPair(i2, i0);
      IvPieces(iv.value, i0, i1, i2, i3);
      IvWords(C, iv.value, i0, i1, i2, i3);
      assert |X| == 8 && 0 <= b < 2 && AllSigned(X);
      ghost var ws := WithIv(Patterns(C), iv.value);
      hide *;
      C := [XorNum(C[0], i0), XorNum(C[1], i1), XorNum(C[2], i2), XorNum(C[3], i3),
            XorNum(C[4], i0), XorNum(C[5], i1), XorNum(C[6], i2), XorNum(C[7], i3)];
      FittingNumbers(C, ws);
      StateFits();
    }

    method AdvanceCounters()
      requires Valid()
      modifies this`C, this`b
      ensures Valid()
      ensures Patterns(C) == NextCounters(old(Current()).c, old(b)) && b == Carry(old(Current()).c, old(b), 8)
    {
      ghost var c, b0 := Patterns(C), b;
      assert |C| == 8 && 0 <= b < 2 && AllSigned(X) && |X| == 8;
      hide *;
      var p0, p1, p2, p3, p4, p5, p6, p7 := C[0], C[1], C[2], C[3], C[4], C[5], C[6], C[7];
      assert C == [p0, p1, p2, p3, p4, p5, p6, p7];
      var c0 := Cut(p0 + 0x4d34d34d + b);
      var c1 := Cut(p1 + 0xd34d34d3 + Wrapped(c0, p0));
      var c2 := Cut(p2 + 0x34d34d34 + Wrapped(c1, p1));
      var c3 := Cut(p3 + 0x4d34d34d + Wrapped(c2, p2));
      var c4 := Cut(p4 + 0xd34d34d3 + Wrapped(c3, p3));
      var c5 := Cut(p5 + 0x34d34d34 + Wrapped(c4, p4));
      var c6 := Cut(p6 + 0x4d34d34d + Wrapped(c5, p5));
      var c7 := Cut(p7 + 0xd34d34d3 + Wrapped(c6, p6));
      C := [c0, c1, c2, c3, c4, c5, c6, c7];
      b := Wrapped(c7, p7);
      CounterChain(c, b0, p0, p1, p2, p3, p4, p5, p6, p7, c0, c1, c2, c3, c4, c5, c6, c7);
      StateFits();
    }

    method GValues() returns (G: seq<int>)
      requires Valid()
      ensures |G| == 8 && Patterns(G) == GWords(Patterns(X), Patterns(C))
      ensures forall i :: 0 <= i < 8 ==> SquareExact(X[i] + C[i])
    {
      hide Num, Bits, GNumber, GSpec, SquareExact;
      G := [];
      for i := 0 to 8
        invariant |G| == i
        invariant forall k :: 0 <= k < i ==> SquareExact(X[k] + C[k])
        invariant forall k :: 0 <= k < i ==> Bits(G[k]) == GSpec((Num(Bits(X[k])) + Num(Bits(C[k]))) % TWO32)
      {
        var gx := X[i] + C[i];
        GOfSum(X[i], C[i]);
        ProductsAreExact(gx);
        G := G + [GNumber(gx)];
      }
    }

    method MixState(G: seq<int>)
      requires |X| == |G| == 8
      modifies this`X
      ensures Patterns(X) == Mixed(Patterns(G)) && |X| == 8
      ensures AllSigned(X)
    {
      ghost var g := Patterns(G);
      hide *;
      var g0, g1, g2, g3, g4, g5, g6, g7 := G[0], G[1], G[2], G[3], G[4], G[5], G[6], G[7];
      assert G == [g0, g1, g2, g3, g4, g5, g6, g7];
      MixedNumbers(g0, g1, g2, g3, g4, g5, g6, g7);
      X := [Cut(g0 + RotNum(g7, 16) + RotNum(g6, 16)), Cut(g1 + RotNum(g0, 8) + g7),
            Cut(g2 + RotNum(g1, 16) + RotNum(g0, 16)), Cut(g3 + RotNum(g2, 8) + g1),
            Cut(g4 + RotNum(g3, 16) + RotNum(g2, 16)), Cut(g5 + RotNum(g4, 8) + g3),
            Cut(g6 + RotNum(g5, 16) + RotNum(g4, 16)), Cut(g7 + RotNum(g6, 8) + g5)];
      FittingNumbers(X, Mixed(g));
    }

    /** The keystream is XORed onto one block of `M`, in place. */
    method DoProcessBlock(M: array<Word>, offset: nat)
      requires Valid() && offset + 4 <= M.Length
      modifies this`X, this`C, this`b, M
      ensures Valid() && Current() == RabbitGenerator()(old(Current())).0
      ensures M[offset..offset + 4] == XorWords(old(M[offset..offset + 4]), RabbitGenerator()(old(Current())).1)
      ensures SameOutside(old(M[..]), M[..], offset, 4)
    {
      hide SwapEndian, Bits, Next, XorWords, KeyWord, SameOutside, KeyWordNum;
      NextState();
      ghost var x := Patterns(X);
      KeyWordNums(X);
      var S := [KeyWordNum(X[0], X[5], X[3]), KeyWordNum(X[2], X[7], X[5]),
                KeyWordNum(X[4], X[1], X[7]), KeyWordNum(X[6], X[3], X[1])];
      S := [SwapEndian(S[0]), SwapEndian(S[1]), SwapEndian(S[2]), SwapEndian(S[3])];
      XorInto(M, offset, 4, S);
    }

    method NextState()
      requires Valid()
      modifies this`X, this`C, this`b
      ensures Valid() && Current() == Next(old(Current()))
    {
      hide Patterns, NextCounters, Carry, GWords, Mixed;
      AdvanceCounters();
      var G := GValues();
      MixState(G);
    }
  }

  lemma CounterWords(c: seq<Word>, b: nat)
    requires |c| == 8
    ensures var r := NextCounters(c, b);
            && r[0] == NextCounter(c, b, 0) && r[1] == NextCounter(c, b, 1) && r[2] == NextCounter(c, b, 2) && r[3] == NextCounter(c, b, 3)
            && r[4] == NextCounter(c, b, 4) && r[5] == NextCounter(c, b, 5) && r[6] == NextCounter(c, b, 6) && r[7] == NextCounter(c, b, 7)
  {
    hide NextCounter;
  }

  lemma MixedWords(g: seq<Word>)
    requires |g| == 8
    ensures var r := Mixed(g);
            && r[0] == Combine(true, g[0], g[7], g[6]) && r[1] == Combine(false, g[1], g[0], g[7]) && r[2] == Combine(true, g[2], g[1], g[0])
            && r[3] == Combine(false, g[3], g[2], g[1]) && r[4] == Combine(true, g[4], g[3], g[2]) && r[5] == Combine(false, g[5], g[4], g[3])
            && r[6] == Combine(true, g[6], g[5], g[4]) && r[7] == Combine(false, g[7], g[6], g[5])
  {
    hide Combine;
  }

  /** The eight sums of the new state. */
  lemma MixedNumbers(g0: int, g1: int, g2: int, g3: int, g4: int, g5: int, g6: int, g7: int)
    ensures AllFit([Cut(g0 + RotNum(g7, 16) + RotNum(g6, 16)), Cut(g1 + RotNum(g0, 8) + g7),
                    Cut(g2 + RotNum(g1, 16) + RotNum(g0, 16)), Cut(g3 + RotNum(g2, 8) + g1),
                    Cut(g4 + RotNum(g3, 16) + RotNum(g2, 16)), Cut(g5 + RotNum(g4, 8) + g3),
                    Cut(g6 + RotNum(g5, 16) + RotNum(g4, 16)), Cut(g7 + RotNum(g6, 8) + g5)], Mixed(Patterns([g0, g1, g2, g3, g4, g5, g6, g7])))
  {
    var g := PatternsOf(g0, g1, g2, g3, g4, g5, g6, g7);
    MixedWords(g);
    hide *;
    MixEven(g0, g7, g6);
    MixOdd(g1, g0, g7);
    MixEven(g2, g1, g0);
    MixOdd(g3, g2, g1);
    MixEven(g4, g3, g2);
    MixOdd(g5, g4, g3);
    MixEven(g6, g5, g4);
    MixOdd(g7, g6, g5);
    EightFit(Cut(g0 + RotNum(g7, 16) + RotNum(g6, 16)), Cut(g1 + RotNum(g0, 8) + g7),
             Cut(g2 + RotNum(g1, 16) + RotNum(g0, 16)), Cut(g3 + RotNum(g2, 8) + g1),
             Cut(g4 + RotNum(g3, 16) + RotNum(g2, 16)), Cut(g5 + RotNum(g4, 8) + g3),
             Cut(g6 + RotNum(g5, 16) + RotNum(g4, 16)), Cut(g7 + RotNum(g6, 8) + g5), Mixed(g));
  }

  function PatternsOf(g0: int, g1: int, g2: int, g3: int, g4: int, g5: int, g6: int, g7: int): (ws: seq<Word>)
    ensures ws == Patterns([g0, g1, g2, g3, g4, g5, g6, g7]) == [Bits(g0), Bits(g1), Bits(g2), Bits(g3), Bits(g4), Bits(g5), Bits(g6), Bits(g7)]
  {
    Patterns([g0, g1, g2, g3, g4, g5, g6, g7])
  }

  /** Counter words with the IV mixed in, one by one. */
  lemma IvWords(C: seq<int>, iv: seq<Word>, i0: Word, i1: Word, i2: Word, i3: Word)
    requires |C| == 8
    requires IvPiece(iv, 0) == i0 && IvPiece(iv, 1) == i1 && IvPiece(iv, 2) == i2 && IvPiece(iv, 3) == i3
    ensures AllFit([XorNum(C[0], i0), XorNum(C[1], i1), XorNum(C[2], i2), XorNum(C[3], i3),
                    XorNum(C[4], i0), XorNum(C[5], i1), XorNum(C[6], i2), XorNum(C[7], i3)], WithIv(Patterns(C), iv))
  {
    hide Bits, XorNum, Xor, IvPiece, Fits;
    forall k: nat | k < 8 ensures Fits(XorNum(C[k], IvPiece(iv, k % 4)), WithIv(Patterns(C), iv)[k]) {
      XorNumBits(C[k], IvPiece(iv, k % 4));
    }
    hide WithIv;
    EightFit(XorNum(C[0], i0), XorNum(C[1], i1), XorNum(C[2], i2), XorNum(C[3], i3),
             XorNum(C[4], i0), XorNum(C[5], i1), XorNum(C[6], i2), XorNum(C[7], i3), WithIv(Patterns(C), iv));
  }

  lemma NoCarryYet(c: seq<Word>, b: nat)
    ensures Carry(c, b, 0) == b
  {}

  /** `(g << n) | (g >>> (32 - n))` */
  function RotNum(g: int, n: nat): int
    requires n <= 32
  {
    Signed(RotL(Bits(g), n))
  }

  lemma GOfSum(x: int, c: int)
    ensures Bits(GNumber(x + c)) == GSpec((Num(Bits(x)) + Num(Bits(c))) % TWO32)
  {
    hide Num, Bits, GNumber, GSpec;
    NumBits(x);
    NumBits(c);
    GExact(x + c);
    SumMod(x, c);
  }

  lemma SumMod(x: int, y: int)
    ensures (x + y) % TWO32 == (x % TWO32 + y % TWO32) % TWO32
  {}

  lemma CutSum3(x: int, y: int, z: int)
    ensures Bits(Cut(x + y + z)) == Add32(Add32(Bits(x), Bits(y)), Bits(z))
    ensures -TWO31 <= Cut(x + y + z) < TWO31
  {
    hide Num, FromNat, Bits, Signed, Add32;
    BitsSigned(Bits(x + y + z));
    BitsAdd(x + y, z);
    BitsAdd(x, y);
  }

  lemma MixEven(x: int, p: int, q: int)
    ensures Fits(Cut(x + RotNum(p, 16) + RotNum(q, 16)), Combine(true, Bits(x), Bits(p), Bits(q)))
  {
    hide Bits, Signed, RotL, Add32, Cut;
    BitsSigned(RotL(Bits(p), 16));
    BitsSigned(RotL(Bits(q), 16));
    CutSum3(x, RotNum(p, 16), RotNum(q, 16));
  }

  lemma MixOdd(x: int, p: int, q: int)
    ensures Fits(Cut(x + RotNum(p, 8) + q), Combine(false, Bits(x), Bits(p), Bits(q)))
  {
    hide Bits, Signed, RotL, Add32, Cut;
    BitsSigned(RotL(Bits(p), 8));
    CutSum3(x, RotNum(p, 8), q);
  }

  // ---------------------------------------------------------------- keystream

  function KeyWord(x: seq<Word>, i: nat): Word
    requires |x| == 8 && i < 4
  {
    Xor(Xor(x[2 * i], x[(2 * i + 5) % 8] >> 16), x[(2 * i + 3) % 8] << 16)
  }

  /** Section 2.7 of RFC 4503, the two lower bytes of output word `i`. */
  lemma ExtractLow(x: seq<Word>, i: nat, k: nat)
    requires |x| == 8 && i < 4 && 2 <= k < 4
    ensures ByteOf(KeyWord(x, i), k) == XorByte(ByteOf(x[2 * i], k), ByteOf(x[(2 * i + 5) % 8], k - 2))
  {
    ExtractBytes(x[2 * i], x[(2 * i + 5) % 8], x[(2 * i + 3) % 8], k);
  }

  lemma ExtractHigh(x: seq<Word>, i: nat, k: nat)
    requires |x| == 8 && i < 4 && k < 2
    ensures ByteOf(KeyWord(x, i), k) == XorByte(ByteOf(x[2 * i], k), ByteOf(x[(2 * i + 3) % 8], k + 2))
  {
    ExtractBytes(x[2 * i], x[(2 * i + 5) % 8], x[(2 * i + 3) % 8], k);
  }

  lemma ExtractBytes(v: Word, lower: Word, upper: Word, k: nat)
    requires k < 4
    ensures ByteOf(Xor(Xor(v, lower >> 16), upper << 16), k) ==
            if k < 2 then XorByte(ByteOf(v, k), ByteOf(upper, k + 2)) else XorByte(ByteOf(v, k), ByteOf(lower, k - 2))
  {
    ShiftedBytes(lower, upper, k);
    hide ByteOf, Xor, XorByte;
    XorBytes(Xor(v, lower >> 16), upper << 16, k);
    XorBytes(v, lower >> 16, k);
    XorByteZero(ByteOf(v, k));
    XorByteZero(XorByte(ByteOf(v, k), ByteOf(lower >> 16, k)));
  }

  lemma ShiftedBytes(lower: Word, upper: Word, k: nat)
    requires k < 4
    ensures ByteOf(lower >> 16, k) == if k < 2 then 0 else ByteOf(lower, k - 2)
    ensures ByteOf(upper << 16, k) == if k < 2 then ByteOf(upper, k + 2) else 0
  {
    if k == 0 {} else if k == 1 {} else if k == 2 {} else {}
  }

  lemma XorByteZero(b: Byte)
    ensures XorByte(b, 0) == b
  {}

  /** `a ^ (b >>> 16) ^ (c << 16)` for Numbers `a`, `b`, `c`. */
  function KeyWordNum(a: int, b: int, c: int): Word {
    Xor(Xor(Bits(a), Bits(b) >> 16), Bits(c) << 16)
  }

  lemma KeyWordNums(X: seq<int>)
    requires |X| == 8
    ensures var x := Patterns(X);
            && KeyWordNum(X[0], X[5], X[3]) == KeyWord(x, 0) && KeyWordNum(X[2], X[7], X[5]) == KeyWord(x, 1)
            && KeyWordNum(X[4], X[1], X[7]) == KeyWord(x, 2) && KeyWordNum(X[6], X[3], X[1]) == KeyWord(x, 3)
  {
    var x := Patterns(X);
    hide Bits, Xor, KeyWord, KeyWordNum;
    KeyWordAt(x, 0, X[0], X[5], X[3]);
    KeyWordAt(x, 1, X[2], X[7], X[5]);
    KeyWordAt(x, 2, X[4], X[1], X[7]);
    KeyWordAt(x, 3, X[6], X[3], X[1]);
  }

  lemma KeyWordAt(x: seq<Word>, i: nat, a: int, b: int, c: int)
    requires |x| == 8 && i < 4
    requires x[2 * i] == Bits(a) && x[(2 * i + 5) % 8] == Bits(b) && x[(2 * i + 3) % 8] == Bits(c)
    ensures KeyWordNum(a, b, c) == KeyWord(x, i)
  {
    hide Bits, Xor;
  }

  type Ready = s: State | s.Valid() ghost witness State(Zeros(8), Zeros(8), 0)

  function KeyBlock(x: seq<Word>): (ks: seq<Word>)
    requires |x| == 8
    ensures |ks| == 4
  {
    [SwapEndian(KeyWord(x, 0)), SwapEndian(KeyWord(x, 1)), SwapEndian(KeyWord(x, 2)), SwapEndian(KeyWord(x, 3))]
  }

  function RabbitGenerator(): Generator<Ready> {
    s => (Next(s), KeyBlock(Next(s).x))
  }

  /** Byte `j` of a keystream block: the 128-bit block of section 2.7 of RFC 4503, least
      significant byte first. */
  lemma KeyBlockByte(x: seq<Word>, j: nat)
    requires |x| == 8 && j < 16
    ensures var i, k := j / 4, 3 - j % 4;
            At(KeyBlock(x), j) == XorByte(ByteOf(x[2 * i], k), if k < 2 then ByteOf(x[(2 * i + 3) % 8], k + 2) else ByteOf(x[(2 * i + 5) % 8], k - 2))
  {
    hide ByteOf, XorByte, SwapEndian, KeyWord;
    var i, k := j / 4, 3 - j % 4;
    assert Get(KeyBlock(x), i) == SwapEndian(KeyWord(x, i));
    SwapsBytes(KeyWord(x, i), j % 4);
    if k < 2 { ExtractHigh(x, i, k); } else { ExtractLow(x, i, k); }
  }

  /** Rabbit is a keystream cipher, so chunking does not matter and decryption is encryption. */
  lemma RabbitFills()
    ensures Fills(RabbitGenerator(), 4) && KeepsLength(XorStep(RabbitGenerator()), 4)
  {
    hide Next, KeyBlock;
  }

  // ---------------------------------------------------------------- reset

  lemma SwappedTwice(ws: seq<Word>, k: nat)
    ensures Get(Swapped(Swapped(ws)), k) == Get(ws, k)
  {
    SwappedAt(ws, k);
    SwappedAt(Swapped(ws), k);
    hide SwapEndian, Swapped;
    SwapTwice(Get(ws, k));
  }

  lemma SeedReads(v: seq<Word>, w: seq<Word>)
    requires forall k: nat :: k < 4 ==> Get(v, k) == Get(w, k)
    ensures Seed(v) == Seed(w)
  {
    forall j: nat | j < 8 ensures SeedX(v, j) == SeedX(w, j) && SeedC(v, j) == SeedC(w, j) {
      assert forall i: nat :: i < 8 ==> SubKey(v, i) == SubKey(w, i);
      hide SubKey, Pair;
    }
    hide SeedX, SeedC;
  }

  /** `reset` starts over from the same initial values exactly when reversing the bytes of
      each key word changes nothing, because every setup swaps the caller's key in place. */
  lemma ResetRepeats(ws: seq<Word>)
    ensures Seed(Swapped(Swapped(ws))) == Seed(Swapped(ws)) <==> forall k: nat :: k < 4 ==> SwapEndian(Get(ws, k)) == Get(ws, k)
  {
    hide SwapEndian, SeedX, SeedC, Pair, Splice, Halved;
    var v, w := Swapped(Swapped(ws)), Swapped(ws);
    forall k: nat ensures Get(v, k) == Get(ws, k) && Get(w, k) == if k < 4 then SwapEndian(Get(ws, k)) else Get(ws, k) {
      SwappedTwice(ws, k);
      SwappedAt(ws, k);
    }
    SeedWords(v, Get(v, 0), Get(v, 1), Get(v, 2), Get(v, 3));
    SeedWords(w, Get(w, 0), Get(w, 1), Get(w, 2), Get(w, 3));
    hide Swapped, Get, Seed;
    if Seed(v) == Seed(w) {
      assert Seed(v).x[0] == Seed(w).x[0] && Seed(v).x[2] == Seed(w).x[2] && Seed(v).x[4] == Seed(w).x[4] && Seed(v).x[6] == Seed(w).x[6];
    }
    if forall k: nat :: k < 4 ==> SwapEndian(Get(ws, k)) == Get(ws, k) {
      SeedReads(v, w);
    }
  }

  /** For such keys `reset` restores the whole state, with or without an IV. */
  lemma ResetRestores(ws: seq<Word>, iv: Option<seq<Word>>)
    requires forall k: nat :: k < 4 ==> SwapEndian(Get(ws, k)) == Get(ws, k)
    ensures SetUp(Swapped(Swapped(ws)), iv) == SetUp(Swapped(ws), iv)
  {
    ResetRepeats(ws);
    hide Seed, Swapped, SwapEndian, Steps, Crossed, WithIv;
  }

  /** A key for which the second setup differs from the first. */
  lemma ResetDiffers()
    ensures Seed(Swapped(Swapped([1, 0, 0, 0]))) != Seed(Swapped([1, 0, 0, 0]))
  {
    ResetRepeats([1, 0, 0, 0]);
    assert SwapEndian(1) == 0x0100_0000;
    assert Get([1, 0, 0, 0], 0) == 1;
  }

  /** Every second setup is the same. */
  lemma ThirdSetUp(ws: seq<Word>, iv: Option<seq<Word>>)
    ensures SetUp(Swapped(Swapped(Swapped(ws))), iv) == SetUp(Swapped(ws), iv)
  {
    hide Seed, Swapped, SwapEndian, Steps, Crossed, WithIv;
    forall k: nat | k < 4 ensures Get(Swapped(Swapped(Swapped(ws))), k) == Get(Swapped(ws), k) {
      SwappedTwice(Swapped(ws), k);
    }
    SeedReads(Swapped(Swapped(Swapped(ws))), Swapped(ws));
  }
}
