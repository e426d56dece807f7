/** Word functions shared by the hash algorithms, and how a sum of Numbers that is never cut
    to 32 bits stays congruent to the sum of words it stands for. */
module HashWords {
  import opened JsNumbers
  import opened WordArrays

  function RotR(w: Word, n: nat): Word
    requires n <= 32
  {
    (w >> n) | (w << (32 - n))
  }

  /** The bundle rotates right by rotating left. */
  lemma RotLIsRotR(w: Word, n: nat)
    requires n <= 32
    ensures RotL(w, 32 - n) == RotR(w, n)
  {
  }

  function Xor3(a: Word, b: Word, c: Word): Word {
    a ^ b ^ c
  }

  /** Section 4.1 of FIPS 180-4. */
  function Ch(x: Word, y: Word, z: Word): Word {
    (x & y) ^ (!x & z)
  }

  function Maj(x: Word, y: Word, z: Word): Word {
    (x & y) ^ (x & z) ^ (y & z)
  }

  /** Sums of words modulo 2^32, in any order. */
  function Add2(a: Word, b: Word): Word {
    Bits(Num(a) + Num(b))
  }

  function Add3(a: Word, b: Word, c: Word): Word {
    Bits(Num(a) + Num(b) + Num(c))
  }

  function Add4(a: Word, b: Word, c: Word, d: Word): Word {
    Bits(Num(a) + Num(b) + Num(c) + Num(d))
  }

  function Add5(a: Word, b: Word, c: Word, d: Word, e: Word): Word {
    Bits(Num(a) + Num(b) + Num(c) + Num(d) + Num(e))
  }

  lemma BitsOf(x: int, w: Word)
    requires Bits(x) == w
    ensures Bits(x) == Bits(Num(w))
  {
    hide Num, FromNat, Bits;
    BitsNum(w);
  }

  lemma AddSame(x: int, y: int, m: int, n: int)
    requires Bits(x) == Bits(m) && Bits(y) == Bits(n)
    ensures Bits(x + y) == Bits(m + n)
  {
    hide Num, Bits, Add32;
    BitsAdd(x, y);
    BitsAdd(m, n);
  }

  /** Numbers with the bits of words add up to a Number with the bits of their sum. */
  lemma Sum2(x: int, y: int, a: Word, b: Word)
    requires Bits(x) == a && Bits(y) == b
    ensures Bits(x + y) == Add2(a, b)
  {
    hide Num, Bits;
    BitsOf(x, a);
    BitsOf(y, b);
    AddSame(x, y, Num(a), Num(b));
  }

  lemma Sum3(x: int, y: int, z: int, a: Word, b: Word, c: Word)
    requires Bits(x) == a && Bits(y) == b && Bits(z) == c
    ensures Bits(x + y + z) == Add3(a, b, c)
  {
    hide Num, Bits, Add2;
    BitsOf(x, a);
    BitsOf(y, b);
    BitsOf(z, c);
    AddSame(x, y, Num(a), Num(b));
    AddSame(x + y, z, Num(a) + Num(b), Num(c));
  }

  lemma Sum4(w: int, x: int, y: int, z: int, a: Word, b: Word, c: Word, d: Word)
    requires Bits(w) == a && Bits(x) == b && Bits(y) == c && Bits(z) == d
    ensures Bits(w + x + y + z) == Add4(a, b, c, d)
  {
    hide Num, Bits, Add3;
    Sum3(w, x, y, a, b, c);
    assert Bits(w + x + y) == Bits(Num(a) + Num(b) + Num(c)) by { Add3Bits(a, b, c); }
    BitsOf(z, d);
    AddSame(w + x + y, z, Num(a) + Num(b) + Num(c), Num(d));
  }

  lemma Add3Bits(a: Word, b: Word, c: Word)
    ensures Add3(a, b, c) == Bits(Num(a) + Num(b) + Num(c))
  {
    hide Num, Bits;
  }

  lemma Add4Bits(a: Word, b: Word, c: Word, d: Word)
    ensures Add4(a, b, c, d) == Bits(Num(a) + Num(b) + Num(c) + Num(d))
  {
    hide Num, Bits;
  }

  lemma Sum5(v: int, w: int, x: int, y: int, z: int, a: Word, b: Word, c: Word, d: Word, e: Word)
    requires Bits(v) == a && Bits(w) == b && Bits(x) == c && Bits(y) == d && Bits(z) == e
    ensures Bits(v + w + x + y + z) == Add5(a, b, c, d, e)
  {
    hide Num, Bits, Add4;
    Sum4(v, w, x, y, a, b, c, d);
    Add4Bits(a, b, c, d);
    BitsOf(z, e);
    AddSame(v + w + x + y, z, Num(a) + Num(b) + Num(c) + Num(d), Num(e));
  }

  ghost predicate Within(x: int, bound: int) {
    -bound <= x <= bound
  }

  lemma CutFits(x: int)
    ensures Fits(Cut(x), Bits(x))
  {
    hide Bits, Signed;
    BitsSigned(Bits(x));
  }

  lemma SignedFits(w: Word)
    ensures Fits(Signed(w), w)
  {
    hide Bits, Signed;
    BitsSigned(w);
  }

  /** A bound for schedule entry `j` of a recurrence of the form
      `W[j] = g + W[j-7] + g' + W[j-16]`, whose sums are never cut. */
  function Growth(j: nat): (r: nat)
    ensures r >= 3 * TWO31
  {
    if j < 7 then 3 * TWO31 else 2 * Growth(j - 7)
  }

  lemma {:induction false} GrowthUp(j: nat)
    ensures Growth(j) <= Growth(j + 1)
  {
    if j >= 7 { GrowthUp(j - 7); }
  }

  lemma {:induction false} GrowthMonotone(i: nat, j: nat)
    requires i <= j
    ensures Growth(i) <= Growth(j)
    decreases j - i
  {
    if i < j {
      GrowthUp(j - 1);
      GrowthMonotone(i, j - 1);
    }
  }

  /** One more entry stays within the bound. */
  lemma GrowthStep(j: nat)
    requires j >= 16
    ensures 2 * TWO31 + Growth(j - 7) + Growth(j - 16) + 3 <= Growth(j)
  {
    GrowthMonotone(j - 16, j - 14);
    assert Growth(j) == 2 * Growth(j - 7) && Growth(j - 7) == 2 * Growth(j - 14);
    GrowthMonotone(2, j - 14);
  }

  lemma GrowthSmall(j: nat)
    requires j < 84
    ensures Growth(j) <= 3 * 0x800 * TWO31 < 0x1000_0000_0000
  {
    GrowthMonotone(j, 83);
    assert Growth(6) == 3 * TWO31;
    assert Growth(13) == 2 * Growth(6);
    assert Growth(20) == 2 * Growth(13);
    assert Growth(27) == 2 * Growth(20);
    assert Growth(34) == 2 * Growth(27);
    assert Growth(41) == 2 * Growth(34);
    assert Growth(48) == 2 * Growth(41);
    assert Growth(55) == 2 * Growth(48);
    assert Growth(62) == 2 * Growth(55);
    assert Growth(69) == 2 * Growth(62);
    assert Growth(76) == 2 * Growth(69);
    assert Growth(83) == 2 * Growth(76);
  }

  /** Terms that may be added from left to right without leaving the exact range. */
  predicate Summable(w: int, x: int, y: int, z: int) {
    Exact(w) && Exact(x) && Exact(y) && Exact(z) && Exact(w + x) && Exact(w + x + y) && Exact(w + x + y + z)
  }

  function Plus4(w: int, x: int, y: int, z: int): (r: int)
    requires Summable(w, x, y, z)
    ensures r == w + x + y + z
  {
    Plus(Plus(Plus(w, x), y), z)
  }

  /** The sum of the terms stands for `s` and stays within the bound of entry `j`. */
  ghost predicate EntryReady(w: int, x: int, y: int, z: int, s: Word, j: nat) {
    Summable(w, x, y, z) && Within(w + x + y + z, Growth(j)) && Bits(w + x + y + z) == s
  }

  predicate Summable5(v: int, w: int, x: int, y: int, z: int) {
    Summable(v, w, x, y) && Exact(z) && Exact(v + w + x + y + z)
  }

  function Plus5(v: int, w: int, x: int, y: int, z: int): (r: int)
    requires Summable5(v, w, x, y, z)
    ensures r == v + w + x + y + z
  {
    Plus(Plus4(v, w, x, y), z)
  }

  lemma EntryExact(g0: int, w7: int, g1: int, w16: int, j: nat)
    requires 16 <= j < 80 && Within(g0, TWO31) && Within(g1, TWO31)
    requires Within(w7, Growth(j - 7)) && Within(w16, Growth(j - 16))
    ensures Summable(g0, w7, g1, w16) && Within(g0 + w7 + g1 + w16, Growth(j))
  {
    GrowthStep(j);
    GrowthSmall(j);
    GrowthSmall(j - 7);
    GrowthSmall(j - 16);
    hide Growth;
  }

  lemma FitsWithin(x: int, w: Word)
    requires Fits(x, w)
    ensures Within(x, TWO31) && Exact(x) && Bits(x) == w
  {}
}
