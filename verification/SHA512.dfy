/** SHA-512 on pairs of JavaScript Numbers. Neither the schedule nor the hash value is ever
    cut to 32 bits; a carry is found by comparing the low sum with one of its terms after
    `>>> 0`. */
module SHA512 {
  import opened JsNumbers
  import opened WordArrays
  import opened Streaming
  import opened HashWords

  // ---------------------------------------------------------------- 64-bit words

  datatype Word64 = Word64(hi: Word, lo: Word)

  const TWO64: int := 0x1_0000_0000_0000_0000

  function Val(w: Word64): nat {
    TWO32 * Num(w.hi) + Num(w.lo)
  }

  /** The word of a number modulo 2^64. */
  function Make(v: nat): Word64 {
    Word64(Bits(v / TWO32), Bits(v))
  }

  lemma MakeVal(w: Word64)
    ensures Make(Val(w)) == w && 0 <= Val(w) < TWO64
  {
    hide Num, Bits;
    NumRange(w.hi);
    NumRange(w.lo);
    BitsNum(w.hi);
    BitsNum(w.lo);
    BitsMod(Val(w), Num(w.lo));
    assert Val(w) / TWO32 == Num(w.hi);
  }

  lemma ValMake(v: nat)
    ensures Val(Make(v)) == v % TWO64
  {
    hide Num, Bits;
    NumBits(v / TWO32);
    NumBits(v);
    assert v % TWO64 == TWO32 * (v / TWO32 % TWO32) + v % TWO32;
  }

  lemma MakeMod(a: nat, b: nat)
    requires a % TWO64 == b % TWO64
    ensures Make(a) == Make(b)
  {
    hide Make, Val;
    ValMake(a);
    ValMake(b);
    MakeVal(Make(a));
    MakeVal(Make(b));
  }

  /** Sums modulo 2^64, in any order. */
  function Add2W(a: Word64, b: Word64): Word64 { Make(Val(a) + Val(b)) }

  function Add4W(a: Word64, b: Word64, c: Word64, d: Word64): Word64 { Make(Val(a) + Val(b) + Val(c) + Val(d)) }

  function Add5W(a: Word64, b: Word64, c: Word64, d: Word64, e: Word64): Word64 {
    Make(Val(a) + Val(b) + Val(c) + Val(d) + Val(e))
  }

  /** An inner sum may be taken modulo 2^64 or not. */
  lemma NestedSum(x: nat, y: nat)
    ensures Add2W(Make(x), Make(y)) == Make(x + y)
  {
    hide Make, Val;
    ValMake(x);
    ValMake(y);
    MakeMod(x % TWO64 + y % TWO64, x + y);
  }

  // ---------------------------------------------------------------- pairs of Numbers

  /** An `X64Word`. */
  datatype Pair = Pair(high: int, low: int)

  function WordOf(p: Pair): Word64 {
    Word64(Bits(p.high), Bits(p.low))
  }

  ghost predicate Bounded(p: Pair, bound: int) {
    Within(p.high, bound) && Within(p.low, bound)
  }

  /** `(sum >>> 0) < (term >>> 0) ? 1 : 0` */
  function CarryOf(sum: int, term: int): (c: int)
    ensures 0 <= c <= 1
  {
    if Num(Bits(sum)) < Num(Bits(term)) then 1 else 0
  }

  predicate SumExact(x: Pair, y: Pair) {
    && Exact(x.low) && Exact(y.low) && Exact(x.low + y.low)
    && Exact(x.high) && Exact(y.high) && Exact(x.high + y.high) && Exact(x.high + y.high + 1)
  }

  /** `l = x.low + y.low; h = x.high + y.high + carry`, the carry tested against `y.low`. */
  function AddTo(x: Pair, y: Pair): Pair
    requires SumExact(x, y)
  {
    var l := Plus(x.low, y.low);
    Pair(Plus(Plus(x.high, y.high), CarryOf(l, y.low)), l)
  }

  /** The same with both halves cut to 32 bits. */
  function CutAddTo(x: Pair, y: Pair): Pair
    requires SumExact(x, y)
  {
    var l := Cut(Plus(x.low, y.low));
    Pair(Cut(Plus(Plus(x.high, y.high), CarryOf(l, y.low))), l)
  }

  /** The comparison finds the carry out of the low halves, whatever multiples of 2^32 the
      Numbers carry along. */
  lemma CarryIs(x: int, y: int, l: int)
    requires Bits(l) == Bits(x + y)
    ensures CarryOf(l, y) == (x % TWO32 + y % TWO32) / TWO32
  {
    hide Num, Bits;
    NumBits(x + y);
    NumBits(y);
    assert (x + y) % TWO32 == (x % TWO32 + y % TWO32) % TWO32;
  }

  /** Adding pairs is adding modulo 2^64. */
  lemma PairSum(x: Pair, y: Pair, l: int, h: int, m: nat, n: nat)
    requires WordOf(x) == Make(m) && WordOf(y) == Make(n)
    requires Bits(l) == Bits(x.low + y.low) && Bits(h) == Bits(x.high + y.high + CarryOf(l, y.low))
    ensures Word64(Bits(h), Bits(l)) == Make(m + n)
  {
    hide Num, Bits, CarryOf;
    CarryIs(x.low, y.low, l);
    BitsMod(x.low, m);
    BitsMod(y.low, n);
    BitsMod(x.high, m / TWO32);
    BitsMod(y.high, n / TWO32);
    LowSum(x.low, y.low, m, n);
    HighSum(x.high, y.high, m, n);
    BitsMod(x.low + y.low, m + n);
    BitsMod(x.high + y.high + CarryOf(l, y.low), (m + n) / TWO32);
  }

  lemma LowSum(x: int, y: int, m: nat, n: nat)
    requires x % TWO32 == m % TWO32 && y % TWO32 == n % TWO32
    ensures (x + y) % TWO32 == (m + n) % TWO32
  {}

  lemma HighSum(x: int, y: int, m: nat, n: nat)
    requires x % TWO32 == m / TWO32 % TWO32 && y % TWO32 == n / TWO32 % TWO32
    ensures (x + y + (m % TWO32 + n % TWO32) / TWO32) % TWO32 == (m + n) / TWO32 % TWO32
  {
    LowSum(x, y, m / TWO32, n / TWO32);
    LowSum(x + y, (m % TWO32 + n % TWO32) / TWO32, m / TWO32 + n / TWO32, (m % TWO32 + n % TWO32) / TWO32);
  }

  /** A pair that stands for `v` modulo 2^64 and is no larger than `bound`. */
  ghost predicate Stands(p: Pair, v: nat, bound: int) {
    WordOf(p) == Make(v) && Bounded(p, bound)
  }

  /** What an addition yields, and how large it gets. */
  lemma AddToSum(x: Pair, y: Pair, m: nat, n: nat, a: int, b: int)
    requires Stands(x, m, a) && Stands(y, n, b) && a + b + 1 <= TWO53
    ensures SumExact(x, y) && Stands(AddTo(x, y), m + n, a + b + 1)
  {
    hide Make, Bits, Num;
    var r := AddTo(x, y);
    PairSum(x, y, r.low, r.high, m, n);
  }

  lemma CutAddToSum(x: Pair, y: Pair, m: nat, n: nat, a: int, b: int)
    requires Stands(x, m, a) && Stands(y, n, b) && a + b + 1 <= TWO53
    ensures SumExact(x, y) && Stands(CutAddTo(x, y), m + n, TWO31)
  {
    hide Make, Bits, Num, Signed, Cut;
    var r := CutAddTo(x, y);
    CutFits(x.low + y.low);
    CutFits(x.high + y.high + CarryOf(r.low, y.low));
    PairSum(x, y, r.low, r.high, m, n);
  }

  lemma StandsFor(p: Pair, bound: int)
    requires Bounded(p, bound)
    ensures Stands(p, Val(WordOf(p)), bound)
  {
    hide Make, Val, WordOf;
    MakeVal(WordOf(p));
  }

  lemma StandsUp(p: Pair, v: nat, a: int, b: int)
    requires Stands(p, v, a) && a <= b
    ensures Stands(p, v, b)
  {
    hide Make, WordOf;
  }

  // ---------------------------------------------------------------- section 4.1.3 of FIPS 180-4

  /** Bits `n..32+n` of `h` followed by `l`, from the right: `(h >>> n) | (l << (32 - n))`. */
  function Funnel(h: Word, l: Word, n: nat): Word
    requires n <= 32
  {
    (h >> n) | (l << (32 - n))
  }

  function RotR64(w: Word64, n: nat): Word64
    requires n < 64
  {
    if n < 32 then Word64(Funnel(w.hi, w.lo, n), Funnel(w.lo, w.hi, n))
    else Word64(Funnel(w.lo, w.hi, n - 32), Funnel(w.hi, w.lo, n - 32))
  }

  function Drop(w: Word, n: nat): Word
    requires n <= 32
  {
    w >> n
  }

  function ShR64(w: Word64, n: nat): Word64
    requires n < 32
  {
    Word64(Drop(w.hi, n), Funnel(w.lo, w.hi, n))
  }

  /** The 64 bits in one piece. */
  function Joined(w: Word64): bv64 {
    ((w.hi as bv64) << 32) | (w.lo as bv64)
  }

  function RotJ(x: bv64, n: nat): bv64
    requires n <= 64
  {
    (x >> n) | (x << (64 - n))
  }

  function ShiftJ(x: bv64, n: nat): bv64
    requires n <= 64
  {
    x >> n
  }

  /** Rotating the halves is rotating the 64 bits, for each distance SHA-512 uses. */
  lemma RotationsAre64Bit(w: Word64)
    ensures Joined(RotR64(w, 1)) == RotJ(Joined(w), 1) && Joined(RotR64(w, 8)) == RotJ(Joined(w), 8)
    ensures Joined(RotR64(w, 19)) == RotJ(Joined(w), 19) && Joined(RotR64(w, 61)) == RotJ(Joined(w), 61)
    ensures Joined(RotR64(w, 28)) == RotJ(Joined(w), 28) && Joined(RotR64(w, 34)) == RotJ(Joined(w), 34)
    ensures Joined(RotR64(w, 39)) == RotJ(Joined(w), 39) && Joined(RotR64(w, 14)) == RotJ(Joined(w), 14)
    ensures Joined(RotR64(w, 18)) == RotJ(Joined(w), 18) && Joined(RotR64(w, 41)) == RotJ(Joined(w), 41)
    ensures Joined(ShR64(w, 7)) == ShiftJ(Joined(w), 7) && Joined(ShR64(w, 6)) == ShiftJ(Joined(w), 6)
  {
    Rot8(w); Rot19(w); Rot61(w); Rot34(w); Rot39(w); Rot14(w); Rot18(w); Rot41(w);
    Shift7(w); Shift6(w);
  }

  lemma Rot8(w: Word64)
    ensures Joined(RotR64(w, 8)) == RotJ(Joined(w), 8)
  {}

  lemma Rot19(w: Word64)
    ensures Joined(RotR64(w, 19)) == RotJ(Joined(w), 19)
  {}

  lemma Rot61(w: Word64)
    ensures Joined(RotR64(w, 61)) == RotJ(Joined(w), 61)
  {}

  lemma Rot34(w: Word64)
    ensures Joined(RotR64(w, 34)) == RotJ(Joined(w), 34)
  {}

  lemma Rot39(w: Word64)
    ensures Joined(RotR64(w, 39)) == RotJ(Joined(w), 39)
  {}

  lemma Rot14(w: Word64)
    ensures Joined(RotR64(w, 14)) == RotJ(Joined(w), 14)
  {}

  lemma Rot18(w: Word64)
    ensures Joined(RotR64(w, 18)) == RotJ(Joined(w), 18)
  {}

  lemma Rot41(w: Word64)
    ensures Joined(RotR64(w, 41)) == RotJ(Joined(w), 41)
  {}

  lemma Shift7(w: Word64)
    ensures Joined(ShR64(w, 7)) == ShiftJ(Joined(w), 7)
  {
  }

  lemma Shift6(w: Word64)
    ensures Joined(ShR64(w, 6)) == ShiftJ(Joined(w), 6)
  {
  }

  function Xor64(a: Word64, b: Word64, c: Word64): Word64 {
    Word64(Xor3(a.hi, b.hi, c.hi), Xor3(a.lo, b.lo, c.lo))
  }

  function Ch64(x: Word64, y: Word64, z: Word64): Word64 {
    Word64(Ch(x.hi, y.hi, z.hi), Ch(x.lo, y.lo, z.lo))
  }

  function Maj64(x: Word64, y: Word64, z: Word64): Word64 {
    Word64(Maj(x.hi, y.hi, z.hi), Maj(x.lo, y.lo, z.lo))
  }

  function Gamma0(x: Word64): Word64 { Xor64(RotR64(x, 1), RotR64(x, 8), ShR64(x, 7)) }

  function Gamma1(x: Word64): Word64 { Xor64(RotR64(x, 19), RotR64(x, 61), ShR64(x, 6)) }

  function Sigma0(x: Word64): Word64 { Xor64(RotR64(x, 28), RotR64(x, 34), RotR64(x, 39)) }

  function Sigma1(x: Word64): Word64 { Xor64(RotR64(x, 14), RotR64(x, 18), RotR64(x, 41)) }

  // ---------------------------------------------------------------- the bundle's expressions

  /** `(h << n) | (l >>> (32 - n))` */
  function FunnelL(h: Word, l: Word, n: nat): Word
    requires n <= 32
  {
    (h << n) | (l >> (32 - n))
  }

  lemma FunnelLIs(h: Word, l: Word, n: nat)
    requires n <= 32
    ensures FunnelL(h, l, 32 - n) == Funnel(l, h, n)
  {
  }

  function Gamma0Pair(x: Pair): Pair {
    var h, l := Bits(x.high), Bits(x.low);
    Pair(Signed(Xor3(Funnel(h, l, 1), Funnel(h, l, 8), Drop(h, 7))),
         Signed(Xor3(Funnel(l, h, 1), Funnel(l, h, 8), Funnel(l, h, 7))))
  }

  function Gamma1Pair(x: Pair): Pair {
    var h, l := Bits(x.high), Bits(x.low);
    Pair(Signed(Xor3(Funnel(h, l, 19), FunnelL(h, l, 3), Drop(h, 6))),
         Signed(Xor3(Funnel(l, h, 19), FunnelL(l, h, 3), Funnel(l, h, 6))))
  }

  function Sigma0Pair(x: Pair): Pair {
    var h, l := Bits(x.high), Bits(x.low);
    Pair(Signed(Xor3(Funnel(h, l, 28), FunnelL(h, l, 30), FunnelL(h, l, 25))),
         Signed(Xor3(Funnel(l, h, 28), FunnelL(l, h, 30), FunnelL(l, h, 25))))
  }

  function Sigma1Pair(x: Pair): Pair {
    var h, l := Bits(x.high), Bits(x.low);
    Pair(Signed(Xor3(Funnel(h, l, 14), Funnel(h, l, 18), FunnelL(h, l, 23))),
         Signed(Xor3(Funnel(l, h, 14), Funnel(l, h, 18), FunnelL(l, h, 23))))
  }

  function ChPair(x: Pair, y: Pair, z: Pair): Pair {
    Pair(Signed(Ch(Bits(x.high), Bits(y.high), Bits(z.high))), Signed(Ch(Bits(x.low), Bits(y.low), Bits(z.low))))
  }

  function MajPair(x: Pair, y: Pair, z: Pair): Pair {
    Pair(Signed(Maj(Bits(x.high), Bits(y.high), Bits(z.high))), Signed(Maj(Bits(x.low), Bits(y.low), Bits(z.low))))
  }

  lemma SignedPair(w: Word64)
    ensures WordOf(Pair(Signed(w.hi), Signed(w.lo))) == w && Stands(Pair(Signed(w.hi), Signed(w.lo)), Val(w), TWO31)
    ensures Bounded(Pair(Signed(w.hi), Signed(w.lo)), TWO31)
  {
    hide Bits, Signed, Val, Make;
    BitsSigned(w.hi);
    BitsSigned(w.lo);
    MakeVal(w);
  }

  lemma Gamma0Words(x: Pair)
    ensures Stands(Gamma0Pair(x), Val(Gamma0(WordOf(x))), TWO31)
  {
    hide Bits, Signed, Xor3, Drop, Funnel, Stands;
    SignedPair(Gamma0(WordOf(x)));
  }

  lemma Gamma1Words(x: Pair)
    ensures Stands(Gamma1Pair(x), Val(Gamma1(WordOf(x))), TWO31)
  {
    var h, l := Bits(x.high), Bits(x.low);
    hide Bits, Signed, Xor3, Drop, Funnel, FunnelL, Stands;
    FunnelLIs(h, l, 29);
    FunnelLIs(l, h, 29);
    SignedPair(Gamma1(WordOf(x)));
  }

  lemma SigmaWords(x: Pair)
    ensures Stands(Sigma0Pair(x), Val(Sigma0(WordOf(x))), TWO31)
    ensures Stands(Sigma1Pair(x), Val(Sigma1(WordOf(x))), TWO31)
  {
    var h, l := Bits(x.high), Bits(x.low);
    hide Bits, Signed, Xor3, Drop, Funnel, FunnelL, Stands;
    FunnelLIs(h, l, 2); FunnelLIs(l, h, 2);
    FunnelLIs(h, l, 7); FunnelLIs(l, h, 7);
    FunnelLIs(h, l, 9); FunnelLIs(l, h, 9);
    SignedPair(Sigma0(WordOf(x)));
    SignedPair(Sigma1(WordOf(x)));
  }

  lemma ChoiceWords(x: Pair, y: Pair, z: Pair)
    ensures Stands(ChPair(x, y, z), Val(Ch64(WordOf(x), WordOf(y), WordOf(z))), TWO31)
    ensures Stands(MajPair(x, y, z), Val(Maj64(WordOf(x), WordOf(y), WordOf(z))), TWO31)
  {
    hide Bits, Signed, Ch, Maj, Stands;
    var c, m := Ch64(WordOf(x), WordOf(y), WordOf(z)), Maj64(WordOf(x), WordOf(y), WordOf(z));
    SignedPair(c);
    SignedPair(m);
  }

  // ---------------------------------------------------------------- section 6.4.2 of FIPS 180-4

  function Schedule(m: seq<Word>, t: nat): Word64
    requires |m| == 32
  {
    if t < 16 then Word64(m[2 * t], m[2 * t + 1])
    else Add4W(Gamma1(Schedule(m, t - 2)), Schedule(m, t - 7), Gamma0(Schedule(m, t - 15)), Schedule(m, t - 16))
  }

  datatype Regs<T> = Regs(a: T, b: T, c: T, d: T, e: T, f: T, g: T, h: T)

  function Round(r: Regs<Word64>, k: Word64, w: Word64): Regs<Word64> {
    var t1 := Add5W(r.h, Sigma1(r.e), Ch64(r.e, r.f, r.g), k, w);
    var t2 := Add2W(Sigma0(r.a), Maj64(r.a, r.b, r.c));
    Regs(Add2W(t1, t2), r.a, r.b, r.c, Add2W(r.d, t1), r.e, r.f, r.g)
  }

  function Rounds(k: seq<Word64>, m: seq<Word>, r: Regs<Word64>, n: nat): Regs<Word64>
    requires |m| == 32 && n <= |k|
  {
    if n == 0 then r else Round(Rounds(k, m, r, n - 1), k[n - 1], Schedule(m, n - 1))
  }

  function Regs8(h: seq<Word64>): Regs<Word64>
    requires |h| == 8
  {
    Regs(h[0], h[1], h[2], h[3], h[4], h[5], h[6], h[7])
  }

  /** One block: the hash value after it. */
  function Compress(k: seq<Word64>, h: seq<Word64>, m: seq<Word>): (r: seq<Word64>)
    requires |k| == 80 && |h| == 8 && |m| == 32
    ensures |r| == 8
  {
    var r := Rounds(k, m, Regs8(h), 80);
    [Add2W(h[0], r.a), Add2W(h[1], r.b), Add2W(h[2], r.c), Add2W(h[3], r.d),
     Add2W(h[4], r.e), Add2W(h[5], r.f), Add2W(h[6], r.g), Add2W(h[7], r.h)]
  }

  // ---------------------------------------------------------------- schedule

  ghost predicate Scheduled(W: seq<Pair>, m: seq<Word>, n: nat) {
    && |m| == 32 && |W| == n
    && forall t: nat :: t < n ==> WordOf(W[t]) == Schedule(m, t) && Bounded(W[t], Growth(t))
  }

  /** Each of the three additions of an entry is exact. */
  predicate EntryReady(w7: Pair, g0: Pair, g1: Pair, w16: Pair) {
    SumExact(w7, g0) && SumExact(AddTo(w7, g0), g1) && SumExact(AddTo(AddTo(w7, g0), g1), w16)
  }

  function Entry(w7: Pair, g0: Pair, g1: Pair, w16: Pair): Pair
    requires EntryReady(w7, g0, g1, w16)
  {
    AddTo(AddTo(AddTo(w7, g0), g1), w16)
  }

  ghost predicate EntryGood(w7: Pair, g0: Pair, g1: Pair, w16: Pair, s: Word64, bound: int) {
    EntryReady(w7, g0, g1, w16) && Bounded(Entry(w7, g0, g1, w16), bound) && WordOf(Entry(w7, g0, g1, w16)) == s
  }

  lemma EntrySum(w16: Pair, w15: Pair, w7: Pair, w2: Pair, j: nat)
    requires 16 <= j < 80 && Bounded(w7, Growth(j - 7)) && Bounded(w16, Growth(j - 16))
    ensures var g0, g1 := Gamma0Pair(w15), Gamma1Pair(w2);
            EntryGood(w7, g0, g1, w16, Add4W(Gamma1(WordOf(w2)), WordOf(w7), Gamma0(WordOf(w15)), WordOf(w16)), Growth(j))
  {
    var g0, g1 := Gamma0Pair(w15), Gamma1Pair(w2);
    hide *;
    EntryRoom(j);
    Gamma0Words(w15);
    Gamma1Words(w2);
    StandsFor(w7, Growth(j - 7));
    StandsFor(w16, Growth(j - 16));
    EntryChain(w7, g0, g1, w16, Val(WordOf(w7)), Val(Gamma0(WordOf(w15))), Val(Gamma1(WordOf(w2))), Val(WordOf(w16)), Growth(j - 7), Growth(j - 16), Growth(j));
    EntryDone(w7, g0, g1, w16, Gamma1(WordOf(w2)), WordOf(w7), Gamma0(WordOf(w15)), WordOf(w16), Growth(j));
  }

  lemma EntryRoom(j: nat)
    requires 16 <= j < 80
    ensures 2 * TWO31 + Growth(j - 7) + Growth(j - 16) + 3 <= Growth(j) <= TWO53
  {
    GrowthStep(j);
    GrowthSmall(j);
  }

  lemma EntryDone(w7: Pair, g0: Pair, g1: Pair, w16: Pair, a: Word64, b: Word64, c: Word64, d: Word64, bound: int)
    requires EntryReady(w7, g0, g1, w16) && Stands(Entry(w7, g0, g1, w16), Val(a) + Val(b) + Val(c) + Val(d), bound)
    ensures EntryGood(w7, g0, g1, w16, Add4W(a, b, c, d), bound)
  {
    hide WordOf, Make, Val, Bounded, EntryReady, Entry;
  }

  lemma EntryChain(w7: Pair, g0: Pair, g1: Pair, w16: Pair, v7: nat, v0: nat, v1: nat, v16: nat, a: int, b: int, bound: int)
    requires Stands(w7, v7, a) && Stands(g0, v0, TWO31) && Stands(g1, v1, TWO31) && Stands(w16, v16, b)
    requires 2 * TWO31 + a + b + 3 <= bound <= TWO53
    ensures EntryReady(w7, g0, g1, w16) && Stands(Entry(w7, g0, g1, w16), v1 + v7 + v0 + v16, bound)
  {
    hide Stands, AddTo, SumExact;
    StandsNonneg(w7, v7, a);
    StandsNonneg(w16, v16, b);
    AddToSum(w7, g0, v7, v0, a, TWO31);
    AddToSum(AddTo(w7, g0), g1, v7 + v0, v1, a + TWO31 + 1, TWO31);
    AddToSum(AddTo(AddTo(w7, g0), g1), w16, v7 + v0 + v1, v16, a + TWO31 + 1 + TWO31 + 1, b);
    StandsUp(Entry(w7, g0, g1, w16), v7 + v0 + v1 + v16, a + TWO31 + 1 + TWO31 + 1 + b + 1, bound);
  }

  lemma StandsNonneg(p: Pair, v: nat, a: int)
    requires Stands(p, v, a)
    ensures 0 <= a
  {}

  /** `W[i] = gamma0 + W[i - 7] + gamma1 + W[i - 16]` */
  method Expand(W: seq<Pair>, ghost m: seq<Word>, i: nat) returns (w: Pair)
    requires 16 <= i < 80 && Scheduled(W, m, i)
    ensures WordOf(w) == Schedule(m, i) && Bounded(w, Growth(i))
  {
    hide Scheduled, Schedule, Gamma0Pair, Gamma1Pair, WordOf, Bounded, Growth, SumExact, AddTo;
    EntryFacts(W, m, i);
    var gamma0 := Gamma0Pair(W[i - 15]);
    var gamma1 := Gamma1Pair(W[i - 2]);
    w := AddTo(W[i - 7], gamma0);
    w := AddTo(w, gamma1);
    w := AddTo(w, W[i - 16]);
  }

  lemma EntryFacts(W: seq<Pair>, m: seq<Word>, i: nat)
    requires 16 <= i < 80 && Scheduled(W, m, i)
    ensures |W| == i
    ensures var g0, g1 := Gamma0Pair(W[i - 15]), Gamma1Pair(W[i - 2]);
            EntryGood(W[i - 7], g0, g1, W[i - 16], Schedule(m, i), Growth(i))
  {
    assert |W| == i && |m| == 32;
    hide *;
    ScheduleUnfolds(m, i);
    ScheduledEntry(W, m, i, i - 2);
    ScheduledEntry(W, m, i, i - 7);
    ScheduledEntry(W, m, i, i - 15);
    ScheduledEntry(W, m, i, i - 16);
    EntrySum(W[i - 16], W[i - 15], W[i - 7], W[i - 2], i);
  }

  lemma ScheduledEntry(W: seq<Pair>, m: seq<Word>, n: nat, t: nat)
    requires Scheduled(W, m, n) && t < n
    ensures WordOf(W[t]) == Schedule(m, t) && Bounded(W[t], Growth(t))
  {}

  lemma ScheduleUnfolds(m: seq<Word>, t: nat)
    requires |m| == 32 && t >= 16
    ensures Schedule(m, t) == Add4W(Gamma1(Schedule(m, t - 2)), Schedule(m, t - 7), Gamma0(Schedule(m, t - 15)), Schedule(m, t - 16))
  {
    hide Add4W, Gamma0, Gamma1;
  }

  method ExtendMessage(M: seq<Word>, offset: nat, W: seq<Pair>, ghost m: seq<Word>, i: nat) returns (w: Pair)
    requires m == Block(M, offset, 32) && i < 80 && Scheduled(W, m, i)
    ensures WordOf(w) == Schedule(m, i) && Bounded(w, Growth(i)) && Scheduled(W + [w], m, i + 1)
  {
    hide *;
    if i < 16 {
      w := Pair(Signed(Get(M, offset + 2 * i)), Signed(Get(M, offset + 2 * i + 1)));
      FirstEntries(M, offset, i);
    } else {
      w := Expand(W, m, i);
    }
    ScheduledMore(W, m, i, w);
  }

  lemma FirstEntries(M: seq<Word>, offset: nat, i: nat)
    requires i < 16
    ensures var w := Pair(Signed(Get(M, offset + 2 * i)), Signed(Get(M, offset + 2 * i + 1)));
            WordOf(w) == Schedule(Block(M, offset, 32), i) && Bounded(w, Growth(i))
  {
    hide Bits, Signed, Growth, Get;
    SignedPair(Word64(Get(M, offset + 2 * i), Get(M, offset + 2 * i + 1)));
  }

  lemma ScheduledMore(W: seq<Pair>, m: seq<Word>, i: nat, w: Pair)
    requires Scheduled(W, m, i) && WordOf(w) == Schedule(m, i) && Bounded(w, Growth(i))
    ensures Scheduled(W + [w], m, i + 1)
  {
    hide WordOf, Schedule, Bounded, Growth;
  }

  // ---------------------------------------------------------------- rounds

  /** The largest working variable that leaves room for every sum of a round. */
  const ROOM: int := 0xF_FFFC_0000_0000

  /** Variables up to `room` and a schedule entry up to `entry` leave every sum of a round exact. */
  predicate Leaves(room: int, entry: int) {
    0 <= room && 0 <= entry && 2 * room + entry + 0x3_0000_0000 <= TWO53 && room + entry + 0x4_0000_0000 <= TWO53
  }

  /** Round `i` adds to uncut variables only small entries, and large entries only to cut ones. */
  function Room(i: nat): int {
    if i < 4 then ROOM else TWO31
  }

  lemma RoundLeaves(n: Regs<Pair>, r: Regs<Word64>, i: nat)
    requires Holds(n, r) && Settled(n, i) && i < 80
    ensures Leaves(Room(i), Growth(i)) && Bounded(n.d, Room(i)) && Bounded(n.h, Room(i))
  {
    GrowthSmall(i);
    hide WordOf, Bounded;
    if i < 4 { assert Growth(i) == 3 * TWO31; }
  }

  ghost predicate Held(p: Pair, w: Word64) {
    WordOf(p) == w && Bounded(p, ROOM)
  }

  ghost predicate Holds(n: Regs<Pair>, r: Regs<Word64>) {
    && Held(n.a, r.a) && Held(n.b, r.b) && Held(n.c, r.c) && Held(n.d, r.d)
    && Held(n.e, r.e) && Held(n.f, r.f) && Held(n.g, r.g) && Held(n.h, r.h)
  }

  predicate RoundReady(s1: Pair, h: Pair, ch: Pair, k: Pair, w: Pair, maj: Pair, s0: Pair, d: Pair) {
    && SumExact(s1, h) && SumExact(AddTo(s1, h), ch) && SumExact(AddTo(AddTo(s1, h), ch), k)
    && SumExact(AddTo(AddTo(AddTo(s1, h), ch), k), w) && SumExact(maj, s0)
    && SumExact(AddTo(AddTo(AddTo(AddTo(s1, h), ch), k), w), d)
    && SumExact(AddTo(maj, s0), AddTo(AddTo(AddTo(AddTo(s1, h), ch), k), w))
  }

  function Temp1(s1: Pair, h: Pair, ch: Pair, k: Pair, w: Pair, maj: Pair, s0: Pair, d: Pair): Pair
    requires RoundReady(s1, h, ch, k, w, maj, s0, d)
  {
    AddTo(AddTo(AddTo(AddTo(s1, h), ch), k), w)
  }

  function NewA(s1: Pair, h: Pair, ch: Pair, k: Pair, w: Pair, maj: Pair, s0: Pair, d: Pair): Pair
    requires RoundReady(s1, h, ch, k, w, maj, s0, d)
  {
    CutAddTo(AddTo(maj, s0), Temp1(s1, h, ch, k, w, maj, s0, d))
  }

  function NewE(s1: Pair, h: Pair, ch: Pair, k: Pair, w: Pair, maj: Pair, s0: Pair, d: Pair): Pair
    requires RoundReady(s1, h, ch, k, w, maj, s0, d)
  {
    CutAddTo(Temp1(s1, h, ch, k, w, maj, s0, d), d)
  }

  /** A round moves the variables on and cuts the two new ones. */
  ghost predicate Shifted(n: Regs<Pair>, out: Regs<Pair>) {
    && out.b == n.a && out.c == n.b && out.d == n.c && out.f == n.e && out.g == n.f && out.h == n.g
    && Bounded(out.a, TWO31) && Bounded(out.e, TWO31)
  }

  /** After four rounds every variable has been cut. */
  ghost predicate Settled(n: Regs<Pair>, i: nat) {
    && (i >= 1 ==> Bounded(n.a, TWO31) && Bounded(n.e, TWO31)) && (i >= 2 ==> Bounded(n.b, TWO31) && Bounded(n.f, TWO31))
    && (i >= 3 ==> Bounded(n.c, TWO31) && Bounded(n.g, TWO31)) && (i >= 4 ==> Bounded(n.d, TWO31) && Bounded(n.h, TWO31))
  }

  lemma Settles(n: Regs<Pair>, out: Regs<Pair>, i: nat)
    requires Settled(n, i) && Shifted(n, out)
    ensures Settled(out, i + 1)
  {
    hide Bounded;
  }

  method DoRound(n: Regs<Pair>, k: Pair, w: Pair, ghost r: Regs<Word64>, ghost room: int, ghost entry: int) returns (out: Regs<Pair>)
    requires Holds(n, r) && Bounded(k, TWO32)
    requires Leaves(room, entry) && Bounded(n.d, room) && Bounded(n.h, room) && Bounded(w, entry)
    ensures Holds(out, Round(r, WordOf(k), WordOf(w))) && Shifted(n, out)
  {
    hide Holds, Bounded, WordOf, Round, SumExact, AddTo, CutAddTo, Sigma0Pair, Sigma1Pair, ChPair, MajPair;
    RoundFacts(n, k, w, r, room, entry);
    var ch := ChPair(n.e, n.f, n.g);
    var maj := MajPair(n.a, n.b, n.c);
    var sigma0 := Sigma0Pair(n.a);
    var sigma1 := Sigma1Pair(n.e);
    var t1 := AddTo(sigma1, n.h);
    t1 := AddTo(t1, ch);
    t1 := AddTo(t1, k);
    t1 := AddTo(t1, w);
    var t2 := AddTo(maj, sigma0);
    out := Regs(CutAddTo(t2, t1), n.a, n.b, n.c, CutAddTo(t1, n.d), n.e, n.f, n.g);
  }

  lemma RoundFacts(n: Regs<Pair>, k: Pair, w: Pair, r: Regs<Word64>, room: int, entry: int)
    requires Holds(n, r) && Bounded(k, TWO32)
    requires Leaves(room, entry) && Bounded(n.d, room) && Bounded(n.h, room) && Bounded(w, entry)
    ensures var ch, maj, s0, s1 := ChPair(n.e, n.f, n.g), MajPair(n.a, n.b, n.c), Sigma0Pair(n.a), Sigma1Pair(n.e);
            && RoundReady(s1, n.h, ch, k, w, maj, s0, n.d)
            && Bounded(NewA(s1, n.h, ch, k, w, maj, s0, n.d), TWO31) && Bounded(NewE(s1, n.h, ch, k, w, maj, s0, n.d), TWO31)
            && Holds(Regs(NewA(s1, n.h, ch, k, w, maj, s0, n.d), n.a, n.b, n.c, NewE(s1, n.h, ch, k, w, maj, s0, n.d), n.e, n.f, n.g),
                     Round(r, WordOf(k), WordOf(w)))
  {
    hide *;
    HeldWords(n, r);
    var ch, maj, s0, s1 := ChPair(n.e, n.f, n.g), MajPair(n.a, n.b, n.c), Sigma0Pair(n.a), Sigma1Pair(n.e);
    SigmaWords(n.a);
    SigmaWords(n.e);
    ChoiceWords(n.e, n.f, n.g);
    ChoiceWords(n.a, n.b, n.c);
    StandsFor(k, TWO32);
    StandsFor(w, entry);
    StandsFor(n.h, room);
    StandsFor(n.d, room);
    RoundChain(s1, n.h, ch, k, w, maj, s0, n.d, Val(Sigma1(r.e)), Val(r.h), Val(Ch64(r.e, r.f, r.g)), Val(WordOf(k)), Val(WordOf(w)),
               Val(Maj64(r.a, r.b, r.c)), Val(Sigma0(r.a)), Val(r.d), room, entry);
    RoundHolds(n, NewA(s1, n.h, ch, k, w, maj, s0, n.d), NewE(s1, n.h, ch, k, w, maj, s0, n.d), r, WordOf(k), WordOf(w));
  }

  lemma HeldWords(n: Regs<Pair>, r: Regs<Word64>)
    requires Holds(n, r)
    ensures WordOf(n.a) == r.a && WordOf(n.b) == r.b && WordOf(n.c) == r.c && WordOf(n.e) == r.e && WordOf(n.f) == r.f && WordOf(n.g) == r.g
    ensures WordOf(n.d) == r.d && WordOf(n.h) == r.h
  {
    hide WordOf, Bounded;
  }

  lemma RoundChain(s1: Pair, h: Pair, ch: Pair, k: Pair, w: Pair, maj: Pair, s0: Pair, d: Pair,
                   v1: nat, vh: nat, vc: nat, vk: nat, vw: nat, vm: nat, v0: nat, vd: nat, room: int, entry: int)
    requires Leaves(room, entry)
    requires Stands(s1, v1, TWO31) && Stands(h, vh, room) && Stands(ch, vc, TWO31) && Stands(k, vk, TWO32) && Stands(w, vw, entry)
    requires Stands(maj, vm, TWO31) && Stands(s0, v0, TWO31) && Stands(d, vd, room)
    ensures RoundReady(s1, h, ch, k, w, maj, s0, d)
    ensures Stands(NewA(s1, h, ch, k, w, maj, s0, d), vm + v0 + (v1 + vh + vc + vk + vw), TWO31)
    ensures Stands(NewE(s1, h, ch, k, w, maj, s0, d), v1 + vh + vc + vk + vw + vd, TWO31)
  {
    hide Stands, AddTo, CutAddTo, SumExact;
    AddToSum(s1, h, v1, vh, TWO31, room);
    var b := TWO31 + room + 1;
    AddToSum(AddTo(s1, h), ch, v1 + vh, vc, b, TWO31);
    AddToSum(AddTo(AddTo(s1, h), ch), k, v1 + vh + vc, vk, b + TWO31 + 1, TWO32);
    AddToSum(AddTo(AddTo(AddTo(s1, h), ch), k), w, v1 + vh + vc + vk, vw, b + TWO31 + 1 + TWO32 + 1, entry);
    var bound := b + TWO31 + 1 + TWO32 + 1 + entry + 1;
    AddToSum(maj, s0, vm, v0, TWO31, TWO31);
    var t1, t2 := AddTo(AddTo(AddTo(AddTo(s1, h), ch), k), w), AddTo(maj, s0);
    CutAddToSum(t2, t1, vm + v0, v1 + vh + vc + vk + vw, TWO31 + TWO31 + 1, bound);
    CutAddToSum(t1, d, v1 + vh + vc + vk + vw, vd, bound, room);
  }

  lemma RoundHolds(n: Regs<Pair>, a: Pair, e: Pair, r: Regs<Word64>, kw: Word64, ww: Word64)
    requires Holds(n, r)
    requires Stands(a, Val(Maj64(r.a, r.b, r.c)) + Val(Sigma0(r.a)) + (Val(Sigma1(r.e)) + Val(r.h) + Val(Ch64(r.e, r.f, r.g)) + Val(kw) + Val(ww)), TWO31)
    requires Stands(e, Val(Sigma1(r.e)) + Val(r.h) + Val(Ch64(r.e, r.f, r.g)) + Val(kw) + Val(ww) + Val(r.d), TWO31)
    ensures Holds(Regs(a, n.a, n.b, n.c, e, n.e, n.f, n.g), Round(r, kw, ww)) && Bounded(a, TWO31) && Bounded(e, TWO31)
  {
    var x := Val(Sigma1(r.e)) + Val(r.h) + Val(Ch64(r.e, r.f, r.g)) + Val(kw) + Val(ww);
    var y := Val(Maj64(r.a, r.b, r.c)) + Val(Sigma0(r.a));
    Temps(r.h, Sigma1(r.e), Ch64(r.e, r.f, r.g), kw, ww, Sigma0(r.a), Maj64(r.a, r.b, r.c));
    hide Val, Make, WordOf, Add2W, Add5W, Sigma0, Sigma1, Ch64, Maj64;
    NestedSum(x, y);
    MakeVal(r.d);
    NestedSum(Val(r.d), x);
  }

  lemma Temps(h: Word64, s1: Word64, ch: Word64, k: Word64, w: Word64, s0: Word64, maj: Word64)
    ensures Add5W(h, s1, ch, k, w) == Make(Val(s1) + Val(h) + Val(ch) + Val(k) + Val(w))
    ensures Add2W(s0, maj) == Make(Val(maj) + Val(s0))
  {
    hide Val, Make;
  }

  // ---------------------------------------------------------------- the hash

  /** The hash value grows by at most 2^31 and a carry with every block. */
  function HashBound(blocks: nat): int {
    TWO32 + blocks * (TWO31 + 1)
  }

  /** Ten short of 2^21 blocks: up to here no Number in the algorithm exceeds 2^53. From 2^21 blocks
      on, two halves that have grown by as much as they can would add up to more. */
  const MAX_BLOCKS: nat := 0x1F_FFF6

  lemma HashRoom(blocks: nat)
    requires blocks < MAX_BLOCKS
    ensures HashBound(blocks) <= ROOM && HashBound(blocks) + TWO31 + 1 == HashBound(blocks + 1) <= TWO53
  {}

  function Words(ps: seq<Pair>): (ws: seq<Word64>)
    ensures |ws| == |ps|
  {
    seq(|ps|, i requires 0 <= i < |ps| => WordOf(ps[i]))
  }

  ghost predicate AllBounded(ps: seq<Pair>, bound: int) {
    forall i :: 0 <= i < |ps| ==> Bounded(ps[i], bound)
  }

  class Sha512 {
    const K: seq<Pair>
    var hash: seq<Pair>
    ghost var blocks: nat   // processed since the last reset

    ghost predicate Valid()
      reads this
    {
      |K| == 80 && AllBounded(K, TWO32) && |hash| == 8 && AllBounded(hash, HashBound(blocks))
    }

    constructor (initial: seq<Pair>, K: seq<Pair>)
      requires |initial| == 8 && |K| == 80 && AllBounded(initial, TWO32) && AllBounded(K, TWO32)
      ensures Valid() && hash == initial && this.K == K && blocks == 0
    {
      this.hash, this.K, blocks := initial, K, 0;
    }

    method DoProcessBlock(M: seq<Word>, offset: nat)
      requires Valid() && blocks < MAX_BLOCKS
      modifies this`hash, this`blocks
      ensures Valid() && blocks == old(blocks) + 1
      ensures Words(hash) == Compress(Words(K), Words(old(hash)), Block(M, offset, 32))
    {
      ghost var m, k, h := Block(M, offset, 32), Words(K), Words(hash);
      Started(hash, K, m, blocks);
      assert |hash| == 8 && |K| == 80 && AllBounded(K, TWO32);
      hide *;
      var n := Regs(hash[0], hash[1], hash[2], hash[3], hash[4], hash[5], hash[6], hash[7]);
      var W: seq<Pair> := [];
      for i := 0 to 80
        invariant Scheduled(W, m, i) && Holds(n, Rounds(k, m, Regs8(h), i))
        invariant hash == old(hash) && blocks == old(blocks) && Settled(n, i)
      {
        var w := ExtendMessage(M, offset, W, m, i);
        W := W + [w];
        NextRound(K, i, w, m, Regs8(h));
        RoundLeaves(n, Rounds(k, m, Regs8(h), i), i);
        var next := DoRound(n, K[i], w, Rounds(k, m, Regs8(h), i), Room(i), Growth(i));
        Settles(n, next, i);
        n := next;
      }
      AddUp(n, m);
    }

    /** The intermediate hash value. */
    method AddUp(n: Regs<Pair>, ghost m: seq<Word>)
      requires Valid() && |m| == 32 && Holds(n, Rounds(Words(K), m, Regs8(Words(hash)), 80)) && blocks < MAX_BLOCKS
      requires Settled(n, 80)
      modifies this`hash, this`blocks
      ensures Valid() && blocks == old(blocks) + 1
      ensures Words(hash) == Compress(Words(K), Words(old(hash)), m)
    {
      hide *;
      Parts();
      SumsFit(hash, n, Words(K), m, blocks);
      hash := Added(hash, n);
      blocks := blocks + 1;
      StillValid();
    }

    lemma Parts()
      requires Valid()
      ensures |K| == 80 && AllBounded(K, TWO32) && |hash| == 8 && AllBounded(hash, HashBound(blocks))
    {}

    lemma StillValid()
      requires |K| == 80 && AllBounded(K, TWO32) && |hash| == 8 && AllBounded(hash, HashBound(blocks))
      ensures Valid()
    {}
  }

  lemma Started(hash: seq<Pair>, K: seq<Pair>, m: seq<Word>, blocks: nat)
    requires |hash| == 8 && AllBounded(hash, HashBound(blocks)) && |K| == 80 && |m| == 32 && blocks < MAX_BLOCKS
    ensures Scheduled([], m, 0)
    ensures var n := Regs(hash[0], hash[1], hash[2], hash[3], hash[4], hash[5], hash[6], hash[7]);
            Holds(n, Rounds(Words(K), m, Regs8(Words(hash)), 0)) && Settled(n, 0)
  {
    HashRoom(blocks);
    hide WordOf, HashBound, Bounded;
    forall i | 0 <= i < 8 ensures Held(hash[i], Words(hash)[i]) {
    }
  }

  lemma NextRound(K: seq<Pair>, i: nat, w: Pair, m: seq<Word>, r: Regs<Word64>)
    requires |K| == 80 && AllBounded(K, TWO32) && |m| == 32 && i < 80 && Bounded(w, Growth(i)) && WordOf(w) == Schedule(m, i)
    ensures Bounded(K[i], TWO32)
    ensures Rounds(Words(K), m, r, i + 1) == Round(Rounds(Words(K), m, r, i), WordOf(K[i]), WordOf(w))
  {
    hide Round, Schedule, WordOf, Bounded;
  }

  ghost predicate AllExact(h: seq<Pair>, n: Regs<Pair>) {
    && |h| == 8 && SumExact(h[0], n.a) && SumExact(h[1], n.b) && SumExact(h[2], n.c) && SumExact(h[3], n.d)
    && SumExact(h[4], n.e) && SumExact(h[5], n.f) && SumExact(h[6], n.g) && SumExact(h[7], n.h)
  }

  function Added(h: seq<Pair>, n: Regs<Pair>): (r: seq<Pair>)
    requires AllExact(h, n)
    ensures |r| == 8
  {
    [AddTo(h[0], n.a), AddTo(h[1], n.b), AddTo(h[2], n.c), AddTo(h[3], n.d),
     AddTo(h[4], n.e), AddTo(h[5], n.f), AddTo(h[6], n.g), AddTo(h[7], n.h)]
  }

  lemma SumsFit(h: seq<Pair>, n: Regs<Pair>, k: seq<Word64>, m: seq<Word>, blocks: nat)
    requires |h| == 8 && AllBounded(h, HashBound(blocks)) && |k| == 80 && |m| == 32 && blocks < MAX_BLOCKS
    requires Holds(n, Rounds(k, m, Regs8(Words(h)), 80)) && Settled(n, 80)
    ensures AllExact(h, n) && AllBounded(Added(h, n), HashBound(blocks + 1)) && Words(Added(h, n)) == Compress(k, Words(h), m)
  {
    var r := Rounds(k, m, Regs8(Words(h)), 80);
    Compressed(k, h, m, r);
    hide *;
    SumFits(h[0], n.a, r.a, blocks); SumFits(h[1], n.b, r.b, blocks); SumFits(h[2], n.c, r.c, blocks); SumFits(h[3], n.d, r.d, blocks);
    SumFits(h[4], n.e, r.e, blocks); SumFits(h[5], n.f, r.f, blocks); SumFits(h[6], n.g, r.g, blocks); SumFits(h[7], n.h, r.h, blocks);
    AllSumsFit(h, n, r, Compress(k, Words(h), m), blocks);
  }

  /** What `SumFits` needs of the variables. */
  ghost predicate Addend(x: Pair, y: Pair, w: Word64, blocks: nat) {
    Bounded(x, HashBound(blocks)) && Bounded(y, TWO31) && WordOf(y) == w
  }

  ghost predicate SumGood(x: Pair, y: Pair, w: Word64, blocks: nat) {
    SumExact(x, y) && Bounded(AddTo(x, y), HashBound(blocks + 1)) && WordOf(AddTo(x, y)) == Add2W(WordOf(x), w)
  }

  lemma Compressed(k: seq<Word64>, h: seq<Pair>, m: seq<Word>, r: Regs<Word64>)
    requires |k| == 80 && |h| == 8 && |m| == 32 && r == Rounds(k, m, Regs8(Words(h)), 80)
    ensures Compress(k, Words(h), m) ==
            [Add2W(WordOf(h[0]), r.a), Add2W(WordOf(h[1]), r.b), Add2W(WordOf(h[2]), r.c), Add2W(WordOf(h[3]), r.d),
             Add2W(WordOf(h[4]), r.e), Add2W(WordOf(h[5]), r.f), Add2W(WordOf(h[6]), r.g), Add2W(WordOf(h[7]), r.h)]
  {
    hide Rounds, WordOf, Add2W;
  }

  lemma AllSumsFit(h: seq<Pair>, n: Regs<Pair>, r: Regs<Word64>, w: seq<Word64>, blocks: nat)
    requires |h| == 8
    requires SumGood(h[0], n.a, r.a, blocks) && SumGood(h[1], n.b, r.b, blocks) && SumGood(h[2], n.c, r.c, blocks) && SumGood(h[3], n.d, r.d, blocks)
    requires SumGood(h[4], n.e, r.e, blocks) && SumGood(h[5], n.f, r.f, blocks) && SumGood(h[6], n.g, r.g, blocks) && SumGood(h[7], n.h, r.h, blocks)
    requires w == [Add2W(WordOf(h[0]), r.a), Add2W(WordOf(h[1]), r.b), Add2W(WordOf(h[2]), r.c), Add2W(WordOf(h[3]), r.d),
                   Add2W(WordOf(h[4]), r.e), Add2W(WordOf(h[5]), r.f), Add2W(WordOf(h[6]), r.g), Add2W(WordOf(h[7]), r.h)]
    ensures AllExact(h, n) && AllBounded(Added(h, n), HashBound(blocks + 1)) && Words(Added(h, n)) == w
  {
    hide WordOf, HashBound, Bounded, SumExact, AddTo, Add2W;
  }

  lemma SumFits(x: Pair, y: Pair, w: Word64, blocks: nat)
    requires Addend(x, y, w, blocks) && blocks < MAX_BLOCKS
    ensures SumGood(x, y, w, blocks)
  {
    HashRoom(blocks);
    hide WordOf, HashBound, SumExact, AddTo, Bounded, Make, Val;
    StandsFor(x, HashBound(blocks));
    StandsFor(y, TWO31);
    AddToSum(x, y, Val(WordOf(x)), Val(w), HashBound(blocks), TWO31);
  }
}
