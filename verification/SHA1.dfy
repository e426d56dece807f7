/** SHA-1's compression function. The sum `t` of a round is never cut: `a` and then `b` hold
    it as it is, and two of the round constants are subtracted instead of added. */
module SHA1 {
  import opened JsNumbers
  import opened WordArrays
  import opened Streaming
  import opened HashWords

  // ---------------------------------------------------------------- section 6.1.2 of FIPS 180-4

  function Xor4(a: Word, b: Word, c: Word, d: Word): Word {
    a ^ b ^ c ^ d
  }

  function Schedule(m: seq<Word>, t: nat): Word
    requires |m| == 16
  {
    if t < 16 then m[t] else RotL(Xor4(Schedule(m, t - 3), Schedule(m, t - 8), Schedule(m, t - 14), Schedule(m, t - 16)), 1)
  }

  function F(t: nat, x: Word, y: Word, z: Word): Word {
    if t < 20 then Ch(x, y, z) else if t < 40 then Xor3(x, y, z) else if t < 60 then Maj(x, y, z) else Xor3(x, y, z)
  }

  function K(t: nat): nat {
    if t < 20 then 0x5a827999 else if t < 40 then 0x6ed9eba1 else if t < 60 then 0x8f1bbcdc else 0xca62c1d6
  }

  datatype Regs<T> = Regs(a: T, b: T, c: T, d: T, e: T)

  function Round(r: Regs<Word>, t: nat, w: Word): Regs<Word> {
    Regs(Add5(RotL(r.a, 5), F(t, r.b, r.c, r.d), r.e, Bits(K(t)), w), r.a, RotL(r.b, 30), r.c, r.d)
  }

  function Rounds(m: seq<Word>, r: Regs<Word>, n: nat): Regs<Word>
    requires |m| == 16
  {
    if n == 0 then r else Round(Rounds(m, r, n - 1), n - 1, Schedule(m, n - 1))
  }

  function Regs5(h: seq<Word>): Regs<Word>
    requires |h| == 5
  {
    Regs(h[0], h[1], h[2], h[3], h[4])
  }

  /** One block: the hash value after it. */
  function Compress(h: seq<Word>, m: seq<Word>): (r: seq<Word>)
    requires |h| == 5 && |m| == 16
    ensures |r| == 5
  {
    var r := Rounds(m, Regs5(h), 80);
    [Add2(h[0], r.a), Add2(h[1], r.b), Add2(h[2], r.c), Add2(h[3], r.d), Add2(h[4], r.e)]
  }

  // ---------------------------------------------------------------- the bundle's expressions

  /** `(b & c) | (~b & d)` */
  function ChCode(x: Word, y: Word, z: Word): Word {
    (x & y) | (!x & z)
  }

  /** `(b & c) | (b & d) | (c & d)` */
  function MajCode(x: Word, y: Word, z: Word): Word {
    (x & y) | (x & z) | (y & z)
  }

  lemma ChIsStandard(x: Word, y: Word, z: Word)
    ensures ChCode(x, y, z) == Ch(x, y, z)
  {
    ChBits(x, y, z);
  }

  lemma ChBits(x: Word, y: Word, z: Word)
    ensures (x & y) | (!x & z) == (x & y) ^ (!x & z)
  {
    hide *;
  }

  lemma MajIsStandard(x: Word, y: Word, z: Word)
    ensures MajCode(x, y, z) == Maj(x, y, z)
  {
    MajBits(x, y, z);
  }

  lemma MajBits(x: Word, y: Word, z: Word)
    ensures (x & y) | (x & z) | (y & z) == (x & y) ^ (x & z) ^ (y & z)
  {
    hide *;
  }

  /** The function of round `i` and its constant, as a Number. */
  function FNum(i: nat, b: int, c: int, d: int): int {
    if i < 20 then Signed(ChCode(Bits(b), Bits(c), Bits(d)))
    else if i < 40 then Signed(Xor3(Bits(b), Bits(c), Bits(d)))
    else if i < 60 then Signed(MajCode(Bits(b), Bits(c), Bits(d)))
    else Signed(Xor3(Bits(b), Bits(c), Bits(d)))
  }

  function KNum(i: nat): int {
    if i < 20 then 0x5a827999 else if i < 40 then 0x6ed9eba1 else if i < 60 then -0x70e44324 else -0x359d3e2a
  }

  lemma FFits(i: nat, b: int, c: int, d: int)
    ensures Fits(FNum(i, b, c, d), F(i, Bits(b), Bits(c), Bits(d)))
  {
    ChIsStandard(Bits(b), Bits(c), Bits(d));
    MajIsStandard(Bits(b), Bits(c), Bits(d));
    hide Bits, Signed, ChCode, MajCode, Ch, Maj, Xor3;
    SignedFits(F(i, Bits(b), Bits(c), Bits(d)));
  }

  /** Subtracting a constant's complement adds the constant. */
  lemma KFits(i: nat)
    ensures Fits(KNum(i), Bits(K(i)))
  {
    hide Bits;
    BitsMod(KNum(i), K(i));
  }

  // ---------------------------------------------------------------- schedule

  ghost predicate Scheduled(W: seq<int>, m: seq<Word>, n: nat) {
    && |m| == 16 && |W| == n
    && forall t: nat :: t < n ==> Fits(W[t], Schedule(m, t))
  }

  method ExtendMessage(M: seq<Word>, offset: nat, W: seq<int>, ghost m: seq<Word>, i: nat) returns (w: int)
    requires m == Block(M, offset, 16) && Scheduled(W, m, i)
    ensures Scheduled(W + [w], m, i + 1)
  {
    assert |W| == i;
    hide *;
    if i < 16 {
      w := Signed(Get(M, offset + i));
      FirstEntries(M, offset, i);
    } else {
      var n := Signed(Xor4(Bits(W[i - 3]), Bits(W[i - 8]), Bits(W[i - 14]), Bits(W[i - 16])));
      w := Signed(RotL(Bits(n), 1));
      LaterEntries(W, m, i);
    }
    ScheduledMore(W, m, i, w);
  }

  lemma FirstEntries(M: seq<Word>, offset: nat, i: nat)
    requires i < 16
    ensures Fits(Signed(Get(M, offset + i)), Schedule(Block(M, offset, 16), i))
  {
    hide Bits, Signed;
    SignedFits(Get(M, offset + i));
  }

  lemma LaterEntries(W: seq<int>, m: seq<Word>, i: nat)
    requires i >= 16 && Scheduled(W, m, i)
    ensures |W| == i
    ensures var n := Signed(Xor4(Bits(W[i - 3]), Bits(W[i - 8]), Bits(W[i - 14]), Bits(W[i - 16])));
            Fits(Signed(RotL(Bits(n), 1)), Schedule(m, i))
  {
    hide Bits, Signed, Xor4, RotL;
    assert Bits(W[i - 3]) == Schedule(m, i - 3) && Bits(W[i - 8]) == Schedule(m, i - 8)
        && Bits(W[i - 14]) == Schedule(m, i - 14) && Bits(W[i - 16]) == Schedule(m, i - 16);
    var x := Xor4(Bits(W[i - 3]), Bits(W[i - 8]), Bits(W[i - 14]), Bits(W[i - 16]));
    SignedFits(x);
    SignedFits(RotL(x, 1));
  }

  lemma ScheduledMore(W: seq<int>, m: seq<Word>, i: nat, w: int)
    requires Scheduled(W, m, i) && Fits(w, Schedule(m, i))
    ensures Scheduled(W + [w], m, i + 1)
  {
    hide Fits, Schedule;
  }

  // ---------------------------------------------------------------- rounds

  /** The variables have the registers' bits, but may be any sum of up to five terms. */
  ghost predicate Holds(n: Regs<int>, r: Regs<Word>) {
    && Bits(n.a) == r.a && Within(n.a, 6 * TWO31) && Bits(n.b) == r.b && Within(n.b, 6 * TWO31)
    && Loose(n.c, r.c) && Loose(n.d, r.d) && Loose(n.e, r.e)
  }

  /** A Number below 2^32 in size with the bits of `w`. */
  ghost predicate Loose(x: int, w: Word) {
    Bits(x) == w && Within(x, TWO32)
  }

  ghost predicate RoundReady(rot: int, e: int, w: int, f: int, k: int) {
    Summable(rot, e, w, f + k) && Exact(f) && Exact(k)
  }

  method DoRound(n: Regs<int>, i: nat, w: int, ghost r: Regs<Word>, ghost ww: Word) returns (out: Regs<int>)
    requires Holds(n, r) && Fits(w, ww)
    ensures Holds(out, Round(r, i, ww))
  {
    hide Holds, Fits, Bits, Signed, Round, FNum, KNum, RotL, Exact;
    RoundFacts(n, i, w, r, ww);
    var t := Plus(Plus(Signed(RotL(Bits(n.a), 5)), n.e), w);
    t := Plus(t, Plus(FNum(i, n.b, n.c, n.d), KNum(i)));
    out := Regs(t, n.a, Signed(RotL(Bits(n.b), 30)), n.c, n.d);
  }

  lemma RoundFacts(n: Regs<int>, i: nat, w: int, r: Regs<Word>, ww: Word)
    requires Holds(n, r) && Fits(w, ww)
    ensures var rot, f, k := Signed(RotL(Bits(n.a), 5)), FNum(i, n.b, n.c, n.d), KNum(i);
            && RoundReady(rot, n.e, w, f, k)
            && Holds(Regs(rot + n.e + w + (f + k), n.a, Signed(RotL(Bits(n.b), 30)), n.c, n.d), Round(r, i, ww))
  {
    HeldWords(n, r);
    hide *;
    var rot, f, k := Signed(RotL(r.a, 5)), FNum(i, n.b, n.c, n.d), KNum(i);
    SignedFits(RotL(r.a, 5));
    SignedFits(RotL(r.b, 30));
    FFits(i, n.b, n.c, n.d);
    KFits(i);
    RoundSum(rot, n.e, w, f, k, RotL(r.a, 5), r.e, ww, F(i, r.b, r.c, r.d), Bits(K(i)));
    RoundHolds(n, rot + n.e + w + (f + k), Signed(RotL(r.b, 30)), r, i, ww);
  }

  lemma HeldWords(n: Regs<int>, r: Regs<Word>)
    requires Holds(n, r)
    ensures Bits(n.a) == r.a && Bits(n.b) == r.b && Bits(n.c) == r.c && Bits(n.d) == r.d && Bits(n.e) == r.e
    ensures Loose(n.e, r.e)
  {
    hide Bits;
  }

  lemma RoundSum(rot: int, e: int, w: int, f: int, k: int, rotw: Word, ew: Word, ww: Word, fw: Word, kw: Word)
    requires Fits(rot, rotw) && Loose(e, ew) && Fits(w, ww) && Fits(f, fw) && Fits(k, kw)
    ensures RoundReady(rot, e, w, f, k)
    ensures Bits(rot + e + w + (f + k)) == Add5(rotw, fw, ew, kw, ww) && Within(rot + e + w + (f + k), 6 * TWO31)
  {
    hide Bits, Add5;
    Sum5(rot, f, e, k, w, rotw, fw, ew, kw, ww);
    assert rot + e + w + (f + k) == rot + f + e + k + w;
  }

  lemma RoundHolds(n: Regs<int>, t: int, c: int, r: Regs<Word>, i: nat, ww: Word)
    requires Holds(n, r) && Fits(c, RotL(r.b, 30))
    requires Bits(t) == Add5(RotL(r.a, 5), F(i, r.b, r.c, r.d), r.e, Bits(K(i)), ww) && Within(t, 6 * TWO31)
    ensures Holds(Regs(t, n.a, c, n.c, n.d), Round(r, i, ww))
  {
    hide Bits, Add5, RotL, F;
  }

  class Sha1 {
    var hash: seq<int>

    ghost predicate Valid()
      reads this
    {
      |hash| == 5 && forall i :: 0 <= i < 5 ==> Within(hash[i], TWO32)
    }

    constructor ()
      ensures Valid() && hash == [0x67452301, 0xefcdab89, 0x98badcfe, 0x10325476, 0xc3d2e1f0]
    {
      hash := [0x67452301, 0xefcdab89, 0x98badcfe, 0x10325476, 0xc3d2e1f0];
    }

    method DoProcessBlock(M: seq<Word>, offset: nat)
      requires Valid()
      modifies this`hash
      ensures Valid() && Patterns(hash) == Compress(Patterns(old(hash)), Block(M, offset, 16))
    {
      ghost var m, h := Block(M, offset, 16), Patterns(hash);
      Started(hash, m);
      assert |hash| == 5;
      hide *;
      var n := Regs(hash[0], hash[1], hash[2], hash[3], hash[4]);
      var W: seq<int> := [];
      for i := 0 to 80
        invariant Scheduled(W, m, i) && Holds(n, Rounds(m, Regs5(h), i))
        invariant hash == old(hash)
      {
        var w := ExtendMessage(M, offset, W, m, i);
        W := W + [w];
        NextRound(W, m, Regs5(h), i, w);
        n := DoRound(n, i, w, Rounds(m, Regs5(h), i), Schedule(m, i));
      }
      SumsFit(hash, n, m);
      hash := [CutSum(hash[0], n.a), CutSum(hash[1], n.b), CutSum(hash[2], n.c), CutSum(hash[3], n.d), CutSum(hash[4], n.e)];
      FittingNumbers(hash, Compress(h, m));
      StillValid();
    }

    lemma StillValid()
      requires |hash| == 5 && AllSigned(hash)
      ensures Valid()
    {}
  }

  /** `(x + y) | 0` for Numbers whose sum is exact. */
  function CutSum(x: int, y: int): int
    requires Within(x, TWO32) && Within(y, 6 * TWO31)
  {
    Cut(Plus(x, y))
  }

  lemma Started(hash: seq<int>, m: seq<Word>)
    requires |hash| == 5 && |m| == 16 && forall i :: 0 <= i < 5 ==> Within(hash[i], TWO32)
    ensures Scheduled([], m, 0)
    ensures Holds(Regs(hash[0], hash[1], hash[2], hash[3], hash[4]), Rounds(m, Regs5(Patterns(hash)), 0))
    ensures forall i :: 0 <= i < 5 ==> Within(hash[i], TWO32)
  {
    hide Bits;
  }

  lemma NextRound(W: seq<int>, m: seq<Word>, r: Regs<Word>, i: nat, w: int)
    requires Scheduled(W, m, i + 1) && W[i] == w
    ensures |m| == 16 && Fits(w, Schedule(m, i))
    ensures Rounds(m, r, i + 1) == Round(Rounds(m, r, i), i, Schedule(m, i))
  {
    hide Fits, Round, Schedule;
  }

  ghost predicate AllWithin(h: seq<int>, n: Regs<int>) {
    && |h| == 5 && (forall i :: 0 <= i < 5 ==> Within(h[i], TWO32))
    && Within(n.a, 6 * TWO31) && Within(n.b, 6 * TWO31) && Within(n.c, 6 * TWO31) && Within(n.d, 6 * TWO31) && Within(n.e, 6 * TWO31)
  }

  lemma SumsFit(h: seq<int>, n: Regs<int>, m: seq<Word>)
    requires |h| == 5 && |m| == 16 && forall i :: 0 <= i < 5 ==> Within(h[i], TWO32)
    requires Holds(n, Rounds(m, Regs5(Patterns(h)), 80))
    ensures AllWithin(h, n)
    ensures AllFit([CutSum(h[0], n.a), CutSum(h[1], n.b), CutSum(h[2], n.c), CutSum(h[3], n.d), CutSum(h[4], n.e)], Compress(Patterns(h), m))
  {
    hide Bits, Rounds, Add2, Cut, Fits, Schedule;
    var r := Rounds(m, Regs5(Patterns(h)), 80);
    SumFits(h[0], n.a, r.a); SumFits(h[1], n.b, r.b); SumFits(h[2], n.c, r.c); SumFits(h[3], n.d, r.d); SumFits(h[4], n.e, r.e);
  }

  lemma SumFits(x: int, y: int, w: Word)
    requires Within(x, TWO32) && Within(y, 6 * TWO31) && Bits(y) == w
    ensures Fits(CutSum(x, y), Add2(Bits(x), w))
  {
    hide Bits, Add2, Signed;
    Sum2(x, y, Bits(x), w);
    CutFits(x + y);
  }
}
