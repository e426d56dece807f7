/** SHA-256's compression function. The working variables are cut to 32 bits in every round,
    but the message schedule `W` is not: from entry 16 on it holds plain sums of Numbers. */
module SHA256 {
  import opened JsNumbers
  import opened WordArrays
  import opened Streaming
  import opened HashWords

  // ---------------------------------------------------------------- section 6.2.2 of FIPS 180-4

  function Gamma0(x: Word): Word {
    Xor3(RotR(x, 7), RotR(x, 18), x >> 3)
  }

  function Gamma1(x: Word): Word {
    Xor3(RotR(x, 17), RotR(x, 19), x >> 10)
  }

  function Sigma0(x: Word): Word {
    Xor3(RotR(x, 2), RotR(x, 13), RotR(x, 22))
  }

  function Sigma1(x: Word): Word {
    Xor3(RotR(x, 6), RotR(x, 11), RotR(x, 25))
  }

  function Schedule(m: seq<Word>, t: nat): Word
    requires |m| == 16
  {
    if t < 16 then m[t]
    else Add4(Gamma1(Schedule(m, t - 2)), Schedule(m, t - 7), Gamma0(Schedule(m, t - 15)), Schedule(m, t - 16))
  }

  datatype Regs<T> = Regs(a: T, b: T, c: T, d: T, e: T, f: T, g: T, h: T)

  function Round(r: Regs<Word>, k: Word, w: Word): Regs<Word> {
    var t1 := Add5(r.h, Sigma1(r.e), Ch(r.e, r.f, r.g), k, w);
    var t2 := Add2(Sigma0(r.a), Maj(r.a, r.b, r.c));
    Regs(Add2(t1, t2), r.a, r.b, r.c, Add2(r.d, t1), r.e, r.f, r.g)
  }

  function Rounds(k: seq<Word>, m: seq<Word>, r: Regs<Word>, n: nat): Regs<Word>
    requires |m| == 16 && n <= |k|
  {
    if n == 0 then r else Round(Rounds(k, m, r, n - 1), k[n - 1], Schedule(m, n - 1))
  }

  function Regs8(h: seq<Word>): Regs<Word>
    requires |h| == 8
  {
    Regs(h[0], h[1], h[2], h[3], h[4], h[5], h[6], h[7])
  }

  /** One block: the hash value after it. */
  function Compress(k: seq<Word>, h: seq<Word>, m: seq<Word>): (r: seq<Word>)
    requires |k| == 64 && |h| == 8 && |m| == 16
    ensures |r| == 8
  {
    var r := Rounds(k, m, Regs8(h), 64);
    [Add2(h[0], r.a), Add2(h[1], r.b), Add2(h[2], r.c), Add2(h[3], r.d),
     Add2(h[4], r.e), Add2(h[5], r.f), Add2(h[6], r.g), Add2(h[7], r.h)]
  }

  // ---------------------------------------------------------------- the bundle's expressions

  function Gamma0Code(x: Word): Word {
    Xor3(RotL(x, 25), RotL(x, 14), x >> 3)
  }

  function Gamma1Code(x: Word): Word {
    Xor3(RotL(x, 15), RotL(x, 13), x >> 10)
  }

  function Sigma0Code(x: Word): Word {
    Xor3(RotL(x, 30), RotL(x, 19), RotL(x, 10))
  }

  function Sigma1Code(x: Word): Word {
    Xor3(RotL(x, 26), RotL(x, 21), RotL(x, 7))
  }

  lemma CodeIsStandard(x: Word)
    ensures Gamma0Code(x) == Gamma0(x) && Gamma1Code(x) == Gamma1(x)
    ensures Sigma0Code(x) == Sigma0(x) && Sigma1Code(x) == Sigma1(x)
  {
    hide RotL, RotR, Xor3;
    RotLIsRotR(x, 7); RotLIsRotR(x, 18); RotLIsRotR(x, 17); RotLIsRotR(x, 19);
    RotLIsRotR(x, 2); RotLIsRotR(x, 13); RotLIsRotR(x, 22);
    RotLIsRotR(x, 6); RotLIsRotR(x, 11); RotLIsRotR(x, 25);
  }

  // ---------------------------------------------------------------- schedule

  /** Entries `0..n` of `W` as Numbers: congruent to the schedule, and within the bound. */
  ghost predicate Scheduled(W: seq<int>, m: seq<Word>, n: nat) {
    && |m| == 16 && |W| == n
    && forall t: nat :: t < n ==> Bits(W[t]) == Schedule(m, t) && Within(W[t], Growth(t))
  }

  lemma ScheduledEntry(W: seq<int>, m: seq<Word>, n: nat, t: nat)
    requires Scheduled(W, m, n) && t < n <= 80
    ensures Bits(W[t]) == Schedule(m, t) && Within(W[t], Growth(t))
  {}

  /** `W[i] = gamma0 + W[i - 7] + gamma1 + W[i - 16]`, every partial sum exact. */
  method Expand(W: seq<int>, ghost m: seq<Word>, i: nat) returns (w: int)
    requires 16 <= i < 80 && Scheduled(W, m, i)
    ensures Bits(w) == Schedule(m, i) && Within(w, Growth(i))
  {
    hide Gamma0Code, Gamma1Code, Schedule, Scheduled, Bits, Signed, Growth, Within, Summable;
    EntryFacts(W, m, i);
    var gamma0x := W[i - 15];
    var gamma0 := Signed(Gamma0Code(Bits(gamma0x)));
    var gamma1x := W[i - 2];
    var gamma1 := Signed(Gamma1Code(Bits(gamma1x)));
    w := Plus4(gamma0, W[i - 7], gamma1, W[i - 16]);
  }

  lemma EntryFacts(W: seq<int>, m: seq<Word>, i: nat)
    requires 16 <= i < 80 && Scheduled(W, m, i)
    ensures |W| == i
    ensures var gamma0, gamma1 := Signed(Gamma0Code(Bits(W[i - 15]))), Signed(Gamma1Code(Bits(W[i - 2])));
            EntryReady(gamma0, W[i - 7], gamma1, W[i - 16], Schedule(m, i), i)
  {
    assert |W| == i && |m| == 16;
    hide *;
    ScheduleUnfolds(m, i);
    ScheduledEntry(W, m, i, i - 2);
    ScheduledEntry(W, m, i, i - 7);
    ScheduledEntry(W, m, i, i - 15);
    ScheduledEntry(W, m, i, i - 16);
    EntrySum(W[i - 16], W[i - 15], W[i - 7], W[i - 2], Schedule(m, i - 16), Schedule(m, i - 15), Schedule(m, i - 7), Schedule(m, i - 2), i);
  }

  lemma EntrySum(w16: int, w15: int, w7: int, w2: int, s16: Word, s15: Word, s7: Word, s2: Word, j: nat)
    requires Bits(w16) == s16 && Bits(w15) == s15 && Bits(w7) == s7 && Bits(w2) == s2
    requires 16 <= j < 80 && Within(w7, Growth(j - 7)) && Within(w16, Growth(j - 16))
    ensures var gamma0, gamma1 := Signed(Gamma0Code(Bits(w15))), Signed(Gamma1Code(Bits(w2)));
            EntryReady(gamma0, w7, gamma1, w16, Add4(Gamma1(s2), s7, Gamma0(s15), s16), j)
  {
    hide Gamma0, Gamma1, Gamma0Code, Gamma1Code, Bits, Signed, Within, Growth, Add4, Summable, Fits;
    var gamma0, gamma1 := Signed(Gamma0Code(Bits(w15))), Signed(Gamma1Code(Bits(w2)));
    GammaFits(w15);
    GammaFits(w2);
    FitsWithin(gamma0, Gamma0(s15));
    FitsWithin(gamma1, Gamma1(s2));
    EntryExact(gamma0, w7, gamma1, w16, j);
    Sum4(gamma1, w7, gamma0, w16, Gamma1(s2), s7, Gamma0(s15), s16);
  }

  lemma GammaFits(x: int)
    ensures Fits(Signed(Gamma0Code(Bits(x))), Gamma0(Bits(x))) && Fits(Signed(Gamma1Code(Bits(x))), Gamma1(Bits(x)))
  {
    CodeIsStandard(Bits(x));
    hide *;
    SignedFits(Gamma0(Bits(x)));
    SignedFits(Gamma1(Bits(x)));
  }

  lemma ScheduleUnfolds(m: seq<Word>, t: nat)
    requires |m| == 16 && t >= 16
    ensures Schedule(m, t) == Add4(Gamma1(Schedule(m, t - 2)), Schedule(m, t - 7), Gamma0(Schedule(m, t - 15)), Schedule(m, t - 16))
  {
    hide Add4, Gamma0, Gamma1;
  }

  // ---------------------------------------------------------------- rounds

  /** The working variables hold the registers' words, cut to 32 bits. */
  ghost predicate Holds(n: Regs<int>, r: Regs<Word>) {
    && Fits(n.a, r.a) && Fits(n.b, r.b) && Fits(n.c, r.c) && Fits(n.d, r.d)
    && Fits(n.e, r.e) && Fits(n.f, r.f) && Fits(n.g, r.g) && Fits(n.h, r.h)
  }

  /** Every sum of a round is exact. */
  predicate RoundReady(h: int, s1: int, ch: int, k: int, w: int, s0: int, maj: int, d: int) {
    && Summable5(h, s1, ch, k, w) && Exact(s0) && Exact(maj) && Exact(s0 + maj)
    && Exact(h + s1 + ch + k + w) && Exact(h + s1 + ch + k + w + (s0 + maj)) && Exact(d) && Exact(d + (h + s1 + ch + k + w))
  }

  /** One round on Numbers: `t1` and `t2` are plain sums, and only the new `a` and `e` are cut. */
  method DoRound(n: Regs<int>, k: int, w: int, ghost r: Regs<Word>, ghost kw: Word, ghost ww: Word) returns (out: Regs<int>)
    requires Holds(n, r) && Fits(k, kw) && Bits(w) == ww && Within(w, 0x1000_0000_0000)
    ensures Holds(out, Round(r, kw, ww))
  {
    hide Holds, Fits, Bits, Signed, Round, Within, Exact, Summable5, Sigma0Code, Sigma1Code, Ch, Maj, Cut;
    RoundFacts(n, k, w, r, kw, ww);
    var ch := Signed(Ch(Bits(n.e), Bits(n.f), Bits(n.g)));
    var maj := Signed(Maj(Bits(n.a), Bits(n.b), Bits(n.c)));
    var sigma0 := Signed(Sigma0Code(Bits(n.a)));
    var sigma1 := Signed(Sigma1Code(Bits(n.e)));
    var t1 := Plus5(n.h, sigma1, ch, k, w);
    var t2 := Plus(sigma0, maj);
    out := Regs(Cut(Plus(t1, t2)), n.a, n.b, n.c, Cut(Plus(n.d, t1)), n.e, n.f, n.g);
  }

  lemma RoundFacts(n: Regs<int>, k: int, w: int, r: Regs<Word>, kw: Word, ww: Word)
    requires Holds(n, r) && Fits(k, kw) && Bits(w) == ww && Within(w, 0x1000_0000_0000)
    ensures var ch, maj := Signed(Ch(Bits(n.e), Bits(n.f), Bits(n.g))), Signed(Maj(Bits(n.a), Bits(n.b), Bits(n.c)));
            var sigma0, sigma1 := Signed(Sigma0Code(Bits(n.a))), Signed(Sigma1Code(Bits(n.e)));
            var t1, t2 := n.h + sigma1 + ch + k + w, sigma0 + maj;
            && RoundReady(n.h, sigma1, ch, k, w, sigma0, maj, n.d)
            && Holds(Regs(Cut(t1 + t2), n.a, n.b, n.c, Cut(n.d + t1), n.e, n.f, n.g), Round(r, kw, ww))
  {
    hide *;
    RoundParts(n, r);
    HeldWords(n, r);
    var ch, maj := Signed(Ch(r.e, r.f, r.g)), Signed(Maj(r.a, r.b, r.c));
    var sigma0, sigma1 := Signed(Sigma0(r.a)), Signed(Sigma1(r.e));
    RoundExact(n.h, sigma1, ch, k, w, sigma0, maj, n.d, r.h, Sigma1(r.e), Ch(r.e, r.f, r.g), kw, Sigma0(r.a), Maj(r.a, r.b, r.c), r.d);
    RoundSums(n.h, sigma1, ch, k, w, sigma0, maj, n.d, r.h, Sigma1(r.e), Ch(r.e, r.f, r.g), kw, ww, Sigma0(r.a), Maj(r.a, r.b, r.c), r.d);
    RoundHolds(n, Cut(n.h + sigma1 + ch + k + w + (sigma0 + maj)), Cut(n.d + (n.h + sigma1 + ch + k + w)), r, kw, ww);
  }

  lemma RoundHolds(n: Regs<int>, a: int, e: int, r: Regs<Word>, kw: Word, ww: Word)
    requires Holds(n, r)
    requires var t1 := Add5(r.h, Sigma1(r.e), Ch(r.e, r.f, r.g), kw, ww);
             Fits(a, Add2(t1, Add2(Sigma0(r.a), Maj(r.a, r.b, r.c)))) && Fits(e, Add2(r.d, t1))
    ensures Holds(Regs(a, n.a, n.b, n.c, e, n.e, n.f, n.g), Round(r, kw, ww))
  {
    hide Fits, Add2, Add5, Sigma0, Sigma1, Ch, Maj;
  }

  lemma RoundExact(h: int, s1: int, ch: int, k: int, w: int, s0: int, maj: int, d: int,
                   hw: Word, s1w: Word, chw: Word, kw: Word, s0w: Word, majw: Word, dw: Word)
    requires Fits(h, hw) && Fits(s1, s1w) && Fits(ch, chw) && Fits(k, kw) && Within(w, 0x1000_0000_0000)
    requires Fits(s0, s0w) && Fits(maj, majw) && Fits(d, dw)
    ensures RoundReady(h, s1, ch, k, w, s0, maj, d)
  {
    hide Bits;
  }

  lemma RoundSums(h: int, s1: int, ch: int, k: int, w: int, s0: int, maj: int, d: int,
                  hw: Word, s1w: Word, chw: Word, kw: Word, ww: Word, s0w: Word, majw: Word, dw: Word)
    requires Fits(h, hw) && Fits(s1, s1w) && Fits(ch, chw) && Fits(k, kw) && Bits(w) == ww
    requires Fits(s0, s0w) && Fits(maj, majw) && Fits(d, dw)
    ensures var t1, t2 := h + s1 + ch + k + w, s0 + maj;
            && Fits(Cut(t1 + t2), Add2(Add5(hw, s1w, chw, kw, ww), Add2(s0w, majw)))
            && Fits(Cut(d + t1), Add2(dw, Add5(hw, s1w, chw, kw, ww)))
  {
    hide Bits, Cut, Add2, Add5;
    var t1, t2 := h + s1 + ch + k + w, s0 + maj;
    Sum5(h, s1, ch, k, w, hw, s1w, chw, kw, ww);
    Sum2(s0, maj, s0w, majw);
    Sum2(t1, t2, Bits(t1), Bits(t2));
    Sum2(d, t1, dw, Bits(t1));
    CutFits(t1 + t2);
    CutFits(d + t1);
  }

  lemma RoundParts(n: Regs<int>, r: Regs<Word>)
    requires Holds(n, r)
    ensures Signed(Ch(Bits(n.e), Bits(n.f), Bits(n.g))) == Signed(Ch(r.e, r.f, r.g)) && Fits(Signed(Ch(r.e, r.f, r.g)), Ch(r.e, r.f, r.g))
    ensures Signed(Maj(Bits(n.a), Bits(n.b), Bits(n.c))) == Signed(Maj(r.a, r.b, r.c)) && Fits(Signed(Maj(r.a, r.b, r.c)), Maj(r.a, r.b, r.c))
    ensures Signed(Sigma0Code(Bits(n.a))) == Signed(Sigma0(r.a)) && Fits(Signed(Sigma0(r.a)), Sigma0(r.a))
    ensures Signed(Sigma1Code(Bits(n.e))) == Signed(Sigma1(r.e)) && Fits(Signed(Sigma1(r.e)), Sigma1(r.e))
  {
    hide Bits, Signed, Ch, Maj, Sigma0, Sigma1, Sigma0Code, Sigma1Code;
    CodeIsStandard(r.a);
    CodeIsStandard(r.e);
    SignedFits(Ch(r.e, r.f, r.g));
    SignedFits(Maj(r.a, r.b, r.c));
    SignedFits(Sigma0(r.a));
    SignedFits(Sigma1(r.e));
  }

  class Sha256 {
    const K: seq<int>
    var hash: seq<int>

    ghost predicate Valid()
      reads this
    {
      |K| == 64 && |hash| == 8 && AllSigned(K) && AllSigned(hash)
    }

    /** `initial` and `K` are the tables computed when the bundle is loaded. */
    constructor (initial: seq<int>, K: seq<int>)
      requires |initial| == 8 && |K| == 64 && AllSigned(initial) && AllSigned(K)
      ensures Valid() && hash == initial && this.K == K
    {
      this.hash, this.K := initial, K;
    }

    /** `M` holds the data words; the block starts at `offset`. */
    method DoProcessBlock(M: seq<Word>, offset: nat)
      requires Valid()
      modifies this`hash
      ensures Valid() && Patterns(hash) == Compress(Patterns(K), Patterns(old(hash)), Block(M, offset, 16))
    {
      ghost var m, k, h := Block(M, offset, 16), Patterns(K), Patterns(hash);
      Started(hash, K, m);
      assert |hash| == 8 && AllSigned(hash) && |K| == 64 && AllSigned(K);
      hide *;
      var n := Regs(hash[0], hash[1], hash[2], hash[3], hash[4], hash[5], hash[6], hash[7]);
      var W: seq<int> := [];
      for i := 0 to 64
        invariant Scheduled(W, m, i) && Holds(n, Rounds(k, m, Regs8(h), i)) && |W| == i
        invariant hash == old(hash)
      {
        var w := ExtendMessage(M, offset, W, m, i);
        W := W + [w];
        NextRound(K, i, w, m, Regs8(h));
        n := DoRound(n, K[i], w, Rounds(k, m, Regs8(h), i), k[i], Schedule(m, i));
      }
      AddUp(n, m);
    }

    /** The intermediate hash value. */
    method AddUp(n: Regs<int>, ghost m: seq<Word>)
      requires Valid() && |m| == 16 && Holds(n, Rounds(Patterns(K), m, Regs8(Patterns(hash)), 64))
      modifies this`hash
      ensures Valid() && Patterns(hash) == Compress(Patterns(K), Patterns(old(hash)), m)
    {
      ghost var w := Compress(Patterns(K), Patterns(hash), m);
      assert |hash| == 8 && AllSigned(hash);
      ghost var r := Rounds(Patterns(K), m, Regs8(Patterns(hash)), 64);
      Compressed(Patterns(K), hash, m, r);
      SumsFit(hash, n, r, w);
      hide *;
      hash := [CutSum(hash[0], n.a), CutSum(hash[1], n.b), CutSum(hash[2], n.c), CutSum(hash[3], n.d),
               CutSum(hash[4], n.e), CutSum(hash[5], n.f), CutSum(hash[6], n.g), CutSum(hash[7], n.h)];
      FittingNumbers(hash, w);
      StillValid();
    }

    lemma StillValid()
      requires |K| == 64 && |hash| == 8 && AllSigned(K) && AllSigned(hash)
      ensures Valid()
    {}
  }

  /** `(x + y) | 0` for two Numbers of 32 bits, whose sum is exact. */
  function CutSum(x: int, y: int): int
    requires Within(x, TWO31) && Within(y, TWO31)
  {
    Cut(Plus(x, y))
  }

  lemma Started(hash: seq<int>, K: seq<int>, m: seq<Word>)
    requires |hash| == 8 && AllSigned(hash) && |K| == 64 && |m| == 16
    ensures Scheduled([], m, 0)
    ensures Holds(Regs(hash[0], hash[1], hash[2], hash[3], hash[4], hash[5], hash[6], hash[7]), Rounds(Patterns(K), m, Regs8(Patterns(hash)), 0))
  {
    hide Bits;
  }

  lemma NextRound(K: seq<int>, i: nat, w: int, m: seq<Word>, r: Regs<Word>)
    requires |K| == 64 && AllSigned(K) && |m| == 16 && i < 64 && Within(w, Growth(i))
    ensures Fits(K[i], Patterns(K)[i]) && Within(w, 0x1000_0000_0000)
    ensures Rounds(Patterns(K), m, r, i + 1) == Round(Rounds(Patterns(K), m, r, i), Patterns(K)[i], Schedule(m, i))
  {
    hide Bits, Round, Schedule;
    GrowthSmall(i);
  }

  method ExtendMessage(M: seq<Word>, offset: nat, W: seq<int>, ghost m: seq<Word>, i: nat) returns (w: int)
    requires m == Block(M, offset, 16) && i < 64 && Scheduled(W, m, i)
    ensures Bits(w) == Schedule(m, i) && Within(w, Growth(i)) && Scheduled(W + [w], m, i + 1)
  {
    hide *;
    if i < 16 {
      w := Signed(Get(M, offset + i));
      FirstEntries(M, offset, i);
    } else {
      w := Expand(W, m, i);
    }
    ScheduledMore(W, m, i, w);
  }

  lemma FirstEntries(M: seq<Word>, offset: nat, i: nat)
    requires i < 16
    ensures var w := Signed(Get(M, offset + i)); Bits(w) == Schedule(Block(M, offset, 16), i) && Within(w, Growth(i))
  {
    hide Bits, Signed, Growth;
    SignedFits(Get(M, offset + i));
  }

  lemma ScheduledMore(W: seq<int>, m: seq<Word>, i: nat, w: int)
    requires Scheduled(W, m, i) && Bits(w) == Schedule(m, i) && Within(w, Growth(i))
    ensures Scheduled(W + [w], m, i + 1)
  {
    hide Bits, Schedule, Within, Growth;
  }

  /** The last step of a block, word by word. */
  ghost predicate Summed(h: seq<int>, r: Regs<Word>, w: seq<Word>) {
    && |h| == 8 && |w| == 8
    && w[0] == Add2(Bits(h[0]), r.a) && w[1] == Add2(Bits(h[1]), r.b) && w[2] == Add2(Bits(h[2]), r.c) && w[3] == Add2(Bits(h[3]), r.d)
    && w[4] == Add2(Bits(h[4]), r.e) && w[5] == Add2(Bits(h[5]), r.f) && w[6] == Add2(Bits(h[6]), r.g) && w[7] == Add2(Bits(h[7]), r.h)
  }

  lemma SumsFit(h: seq<int>, n: Regs<int>, r: Regs<Word>, w: seq<Word>)
    requires |h| == 8 && AllSigned(h) && Holds(n, r) && Summed(h, r, w)
    ensures AllWithin(h, n)
    ensures AllFit([CutSum(h[0], n.a), CutSum(h[1], n.b), CutSum(h[2], n.c), CutSum(h[3], n.d),
                    CutSum(h[4], n.e), CutSum(h[5], n.f), CutSum(h[6], n.g), CutSum(h[7], n.h)], w)
  {
    HeldWords(n, r);
    assert |w| == 8;
    hide Bits, Add2, Signed, Holds, CutSum, Fits, AllFit, Within;
    SumFits(h[0], n.a, r.a); SumFits(h[1], n.b, r.b); SumFits(h[2], n.c, r.c); SumFits(h[3], n.d, r.d);
    SumFits(h[4], n.e, r.e); SumFits(h[5], n.f, r.f); SumFits(h[6], n.g, r.g); SumFits(h[7], n.h, r.h);
    EightFit(CutSum(h[0], n.a), CutSum(h[1], n.b), CutSum(h[2], n.c), CutSum(h[3], n.d),
             CutSum(h[4], n.e), CutSum(h[5], n.f), CutSum(h[6], n.g), CutSum(h[7], n.h), w);
  }

  ghost predicate AllWithin(h: seq<int>, n: Regs<int>) {
    && |h| == 8 && (forall i :: 0 <= i < 8 ==> Within(h[i], TWO31))
    && Within(n.a, TWO31) && Within(n.b, TWO31) && Within(n.c, TWO31) && Within(n.d, TWO31)
    && Within(n.e, TWO31) && Within(n.f, TWO31) && Within(n.g, TWO31) && Within(n.h, TWO31)
  }

  lemma HeldWords(n: Regs<int>, r: Regs<Word>)
    requires Holds(n, r)
    ensures Bits(n.d) == r.d && Bits(n.h) == r.h
    ensures Fits(n.a, r.a) && Fits(n.b, r.b) && Fits(n.c, r.c) && Fits(n.d, r.d)
    ensures Fits(n.e, r.e) && Fits(n.f, r.f) && Fits(n.g, r.g) && Fits(n.h, r.h)
  {
    hide Bits;
  }

  lemma Compressed(k: seq<Word>, h: seq<int>, m: seq<Word>, r: Regs<Word>)
    requires |k| == 64 && |h| == 8 && |m| == 16 && r == Rounds(k, m, Regs8(Patterns(h)), 64)
    ensures Summed(h, r, Compress(k, Patterns(h), m))
  {
    hide Bits, Rounds, Add2;
  }

  lemma SumFits(x: int, y: int, w: Word)
    requires Within(x, TWO31) && Fits(y, w)
    ensures Within(y, TWO31) && Fits(CutSum(x, y), Add2(Bits(x), w))
  {
    hide Bits, Add2, Signed;
    Sum2(x, y, Bits(x), w);
    CutFits(x + y);
  }
}
