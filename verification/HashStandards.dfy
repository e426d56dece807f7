/** The compression functions against tables of values that meet the recurrences of the standards:
    whoever fills in such a table, in whatever way, finds the hash value in its last rows. */
module HashStandards {
  import opened JsNumbers
  import opened WordArrays
  import opened HashWords
  import MD5
  import SHA1
  import SHA256
  import SHA512

  // ---------------------------------------------------------------- word functions

  /** Rotations, as bit vectors have them. */
  function Right(x: Word, n: nat): Word
    requires n < 32
  {
    x.RotateRight(n)
  }

  function Left(x: Word, n: nat): Word
    requires n < 32
  {
    x.RotateLeft(n)
  }

  function Down(x: Word, n: nat): Word
    requires n < 32
  {
    x >> n
  }

  lemma RightIs(x: Word)
    ensures RotR(x, 2) == Right(x, 2) && RotR(x, 13) == Right(x, 13) && RotR(x, 22) == Right(x, 22)
    ensures RotR(x, 6) == Right(x, 6) && RotR(x, 11) == Right(x, 11) && RotR(x, 25) == Right(x, 25)
    ensures RotR(x, 7) == Right(x, 7) && RotR(x, 18) == Right(x, 18) && RotR(x, 17) == Right(x, 17) && RotR(x, 19) == Right(x, 19)
    ensures x >> 3 == Down(x, 3) && x >> 10 == Down(x, 10)
  {}

  /** Section 4.1.2 of FIPS 180-4. */
  lemma Sha256Functions(x: Word)
    ensures SHA256.Sigma0(x) == Xor3(Right(x, 2), Right(x, 13), Right(x, 22))
    ensures SHA256.Sigma1(x) == Xor3(Right(x, 6), Right(x, 11), Right(x, 25))
    ensures SHA256.Gamma0(x) == Xor3(Right(x, 7), Right(x, 18), Down(x, 3))
    ensures SHA256.Gamma1(x) == Xor3(Right(x, 17), Right(x, 19), Down(x, 10))
  {
    RightIs(x);
    hide RotR, Right, Down, Xor3;
  }

  /** The choice takes the bits of `y` where `x` has one, and those of `z` elsewhere; the majority
      has the bits that two of them have. */
  lemma Choice(x: Word, y: Word, z: Word)
    ensures Ch(x, y, z) & x == y & x && Ch(x, y, z) & !x == z & !x
  {}

  lemma Majority(x: Word, y: Word, z: Word)
    ensures Maj(x, y, z) == (x & y) | (z & (x | y))
  {}

  // ---------------------------------------------------------------- words and their values

  lemma WordIs(w: Word, x: int)
    requires Num(w) == x % TWO32
    ensures w == Bits(x)
  {
    hide Num, Bits;
    BitsNum(w);
    BitsMod(Num(w), x);
  }

  lemma SumOfSums(x: int, y: int)
    ensures Bits(Num(Bits(x)) + Num(Bits(y))) == Bits(x + y)
  {
    hide Num, Bits;
    NumBits(x);
    NumBits(y);
    BitsMod(Num(Bits(x)) + Num(Bits(y)), x + y);
  }

  lemma SumWith(w: Word, x: int)
    ensures Bits(Num(w) + Num(Bits(x))) == Bits(Num(w) + x)
  {
    hide Num, Bits;
    BitsNum(w);
    SumOfSums(Num(w), x);
  }

  // ---------------------------------------------------------------- SHA-256, section 6.2.2

  /** The schedule, and the working variables: `A[t + 3]` and `E[t + 3]` are a and e after `t` rounds. */
  ghost predicate Table256(k: seq<Word>, h: seq<Word>, m: seq<Word>, W: seq<Word>, A: seq<Word>, E: seq<Word>) {
    && |k| == 64 && |h| == 8 && |m| == 16 && |W| == 64 && |A| == |E| == 68
    && (forall t: nat :: t < 64 ==> W[t] == if t < 16 then m[t] else Bits(Entry256(W, t)))
    && A[3] == h[0] && A[2] == h[1] && A[1] == h[2] && A[0] == h[3]
    && E[3] == h[4] && E[2] == h[5] && E[1] == h[6] && E[0] == h[7]
    && (forall t: nat :: t < 64 ==> E[t + 4] == Bits(Num(A[t]) + First256(k, W, E, t)))
    && (forall t: nat :: t < 64 ==> A[t + 4] == Bits(First256(k, W, E, t) + Second256(A, t)))
  }

  ghost function Entry256(W: seq<Word>, t: nat): int
    requires 16 <= t < |W|
  {
    Num(SHA256.Gamma1(W[t - 2])) + Num(W[t - 7]) + Num(SHA256.Gamma0(W[t - 15])) + Num(W[t - 16])
  }

  ghost function First256(k: seq<Word>, W: seq<Word>, E: seq<Word>, t: nat): int
    requires t < |k| && t < |W| && t + 4 <= |E|
  {
    Num(E[t]) + Num(SHA256.Sigma1(E[t + 3])) + Num(Ch(E[t + 3], E[t + 2], E[t + 1])) + Num(k[t]) + Num(W[t])
  }

  ghost function Second256(A: seq<Word>, t: nat): int
    requires t + 4 <= |A|
  {
    Num(SHA256.Sigma0(A[t + 3])) + Num(Maj(A[t + 3], A[t + 2], A[t + 1]))
  }

  lemma Rows256(k: seq<Word>, h: seq<Word>, m: seq<Word>, W: seq<Word>, A: seq<Word>, E: seq<Word>, t: nat)
    requires Table256(k, h, m, W, A, E) && t < 64
    ensures W[t] == if t < 16 then m[t] else Bits(Entry256(W, t))
    ensures E[t + 4] == Bits(Num(A[t]) + First256(k, W, E, t)) && A[t + 4] == Bits(First256(k, W, E, t) + Second256(A, t))
  {
    hide Entry256, First256, Second256, Num, Bits;
  }

  lemma Sizes256(k: seq<Word>, h: seq<Word>, m: seq<Word>, W: seq<Word>, A: seq<Word>, E: seq<Word>)
    requires Table256(k, h, m, W, A, E)
    ensures |k| == 64 && |h| == 8 && |m| == 16 && |W| == 64 && |A| == |E| == 68
    ensures SHA256.Regs8(h) == SHA256.Regs(A[3], A[2], A[1], A[0], E[3], E[2], E[1], E[0])
  {
    hide Entry256, First256, Second256, Num, Bits;
  }

  lemma {:induction false} Schedule256(k: seq<Word>, h: seq<Word>, m: seq<Word>, W: seq<Word>, A: seq<Word>, E: seq<Word>, t: nat)
    requires Table256(k, h, m, W, A, E) && t < 64
    ensures SHA256.Schedule(m, t) == W[t]
  {
    hide Table256, SHA256.Gamma0, SHA256.Gamma1, Num, Bits;
    Sizes256(k, h, m, W, A, E);
    Rows256(k, h, m, W, A, E, t);
    if t >= 16 {
      Schedule256(k, h, m, W, A, E, t - 2);
      Schedule256(k, h, m, W, A, E, t - 7);
      Schedule256(k, h, m, W, A, E, t - 15);
      Schedule256(k, h, m, W, A, E, t - 16);
    }
  }

  lemma {:induction false} Rounds256(k: seq<Word>, h: seq<Word>, m: seq<Word>, W: seq<Word>, A: seq<Word>, E: seq<Word>, t: nat)
    requires Table256(k, h, m, W, A, E) && t <= 64
    ensures SHA256.Rounds(k, m, SHA256.Regs8(h), t) == SHA256.Regs(A[t + 3], A[t + 2], A[t + 1], A[t], E[t + 3], E[t + 2], E[t + 1], E[t])
  {
    hide Table256, SHA256.Round, First256, Second256, SHA256.Schedule, Num, Bits, SHA256.Regs8;
    Sizes256(k, h, m, W, A, E);
    if t > 0 {
      var i := t - 1;
      Rounds256(k, h, m, W, A, E, i);
      Schedule256(k, h, m, W, A, E, i);
      Rows256(k, h, m, W, A, E, i);
      Round256(k, W, A, E, i);
    }
  }

  lemma Round256(k: seq<Word>, W: seq<Word>, A: seq<Word>, E: seq<Word>, i: nat)
    requires i < |k| && i < |W| && i + 4 <= |A| && i + 4 <= |E|
    ensures SHA256.Round(SHA256.Regs(A[i + 3], A[i + 2], A[i + 1], A[i], E[i + 3], E[i + 2], E[i + 1], E[i]), k[i], W[i]) ==
            SHA256.Regs(Bits(First256(k, W, E, i) + Second256(A, i)), A[i + 3], A[i + 2], A[i + 1],
                        Bits(Num(A[i]) + First256(k, W, E, i)), E[i + 3], E[i + 2], E[i + 1])
  {
    hide SHA256.Sigma0, SHA256.Sigma1, Ch, Maj, Num, Bits;
    SumOfSums(First256(k, W, E, i), Second256(A, i));
    SumWith(A[i], First256(k, W, E, i));
  }

  /** The hash value after a block is the one before plus the last rows of the table. */
  lemma Sha256Block(k: seq<Word>, h: seq<Word>, m: seq<Word>, W: seq<Word>, A: seq<Word>, E: seq<Word>)
    requires Table256(k, h, m, W, A, E)
    ensures SHA256.Compress(k, h, m) ==
            [Bits(Num(h[0]) + Num(A[67])), Bits(Num(h[1]) + Num(A[66])), Bits(Num(h[2]) + Num(A[65])), Bits(Num(h[3]) + Num(A[64])),
             Bits(Num(h[4]) + Num(E[67])), Bits(Num(h[5]) + Num(E[66])), Bits(Num(h[6]) + Num(E[65])), Bits(Num(h[7]) + Num(E[64]))]
  {
    hide SHA256.Rounds, Table256, Num, Bits;
    Sizes256(k, h, m, W, A, E);
    Rounds256(k, h, m, W, A, E, 64);
  }

  // ---------------------------------------------------------------- SHA-1, section 6.1.2

  /** The functions and constants of the four ranges of rounds, sections 4.1.1 and 4.2.1. */
  lemma Sha1Functions(t: nat, x: Word, y: Word, z: Word)
    ensures SHA1.F(t, x, y, z) == if t < 20 then Ch(x, y, z) else if 40 <= t < 60 then Maj(x, y, z) else Xor3(x, y, z)
    ensures t < 20 ==> SHA1.K(t) == 0x5a827999
    ensures 20 <= t < 40 ==> SHA1.K(t) == 0x6ed9eba1
    ensures 40 <= t < 60 ==> SHA1.K(t) == 0x8f1bbcdc
    ensures 60 <= t < 80 ==> SHA1.K(t) == 0xca62c1d6
  {
    hide Ch, Maj, Xor3;
  }

  lemma LeftIs(x: Word)
    ensures RotL(x, 1) == Left(x, 1) && RotL(x, 5) == Left(x, 5) && RotL(x, 30) == Left(x, 30)
  {}

  /** `A[t + 4]` is a after `t` rounds; b to e are earlier ones, three of them rotated. */
  ghost predicate Table1(h: seq<Word>, m: seq<Word>, W: seq<Word>, A: seq<Word>) {
    && |h| == 5 && |m| == 16 && |W| == 80 && |A| == 85
    && (forall t: nat :: t < 80 ==> W[t] == if t < 16 then m[t] else Entry1(W, t))
    && A[4] == h[0] && A[3] == h[1] && Left(A[2], 30) == h[2] && Left(A[1], 30) == h[3] && Left(A[0], 30) == h[4]
    && (forall t: nat :: t < 80 ==> A[t + 5] == Bits(Sum1(W, A, t)))
  }

  ghost function Entry1(W: seq<Word>, t: nat): Word
    requires 16 <= t < |W|
  {
    Left(Xor(Xor3(W[t - 3], W[t - 8], W[t - 14]), W[t - 16]), 1)
  }

  lemma FourSum(a: Word, b: Word, c: Word, d: Word)
    ensures SHA1.Xor4(a, b, c, d) == Xor(Xor3(a, b, c), d)
  {}

  ghost function Sum1(W: seq<Word>, A: seq<Word>, t: nat): int
    requires t < |W| && t + 5 <= |A|
  {
    Num(Left(A[t + 4], 5)) + Num(SHA1.F(t, A[t + 3], Left(A[t + 2], 30), Left(A[t + 1], 30))) + Num(Left(A[t], 30)) + SHA1.K(t) + Num(W[t])
  }

  lemma Rows1(h: seq<Word>, m: seq<Word>, W: seq<Word>, A: seq<Word>, t: nat)
    requires Table1(h, m, W, A) && t < 80
    ensures |W| == 80 && |m| == 16 && |A| == 85
    ensures W[t] == if t < 16 then m[t] else Entry1(W, t)
    ensures A[t + 5] == Bits(Sum1(W, A, t))
  {
    hide Sum1, Num, Bits, Entry1, Left;
  }

  lemma Sizes1(h: seq<Word>, m: seq<Word>, W: seq<Word>, A: seq<Word>)
    requires Table1(h, m, W, A)
    ensures |h| == 5 && |m| == 16 && |W| == 80 && |A| == 85
    ensures SHA1.Regs5(h) == SHA1.Regs(A[4], A[3], Left(A[2], 30), Left(A[1], 30), Left(A[0], 30))
  {
    hide Sum1, Num, Bits, Left;
  }

  lemma {:induction false} Schedule1(h: seq<Word>, m: seq<Word>, W: seq<Word>, A: seq<Word>, t: nat)
    requires Table1(h, m, W, A) && t < 80
    ensures |m| == 16 && |W| == 80 && SHA1.Schedule(m, t) == W[t]
  {
    hide Table1, RotL, Left, Xor, Xor3, SHA1.Xor4;
    Rows1(h, m, W, A, t);
    if t >= 16 {
      Schedule1(h, m, W, A, t - 3);
      Schedule1(h, m, W, A, t - 8);
      Schedule1(h, m, W, A, t - 14);
      Schedule1(h, m, W, A, t - 16);
      FourSum(W[t - 3], W[t - 8], W[t - 14], W[t - 16]);
      LeftIs(Xor(Xor3(W[t - 3], W[t - 8], W[t - 14]), W[t - 16]));
    }
  }

  lemma {:induction false} Rounds1(h: seq<Word>, m: seq<Word>, W: seq<Word>, A: seq<Word>, t: nat)
    requires Table1(h, m, W, A) && t <= 80
    ensures |m| == 16 && |h| == 5 && |A| == 85
    ensures SHA1.Rounds(m, SHA1.Regs5(h), t) ==
            SHA1.Regs(A[t + 4], A[t + 3], Left(A[t + 2], 30), Left(A[t + 1], 30), Left(A[t], 30))
  {
    hide Table1, Left, SHA1.Round, Sum1, SHA1.Schedule, Num, Bits, SHA1.Regs5;
    Sizes1(h, m, W, A);
    if t > 0 {
      var i := t - 1;
      Rounds1(h, m, W, A, i);
      Schedule1(h, m, W, A, i);
      Rows1(h, m, W, A, i);
      Round1(W, A, i);
    }
  }

  lemma Round1(W: seq<Word>, A: seq<Word>, i: nat)
    requires i < |W| && i + 5 <= |A|
    ensures SHA1.Round(SHA1.Regs(A[i + 4], A[i + 3], Left(A[i + 2], 30), Left(A[i + 1], 30), Left(A[i], 30)), i, W[i]) ==
            SHA1.Regs(Bits(Sum1(W, A, i)), A[i + 4], Left(A[i + 3], 30), Left(A[i + 2], 30), Left(A[i + 1], 30))
  {
    hide RotL, Left, SHA1.F, SHA1.K, SHA1.Round, Num, Bits;
    LeftIs(A[i + 4]);
    LeftIs(A[i + 3]);
    OneRound1(A[i + 4], A[i + 3], Left(A[i + 2], 30), Left(A[i + 1], 30), Left(A[i], 30), i, W[i]);
  }

  lemma OneRound1(a: Word, b: Word, c: Word, d: Word, e: Word, t: nat, w: Word)
    requires RotL(a, 5) == Left(a, 5) && RotL(b, 30) == Left(b, 30)
    ensures SHA1.Round(SHA1.Regs(a, b, c, d, e), t, w) ==
            SHA1.Regs(Bits(Num(Left(a, 5)) + Num(SHA1.F(t, b, c, d)) + Num(e) + SHA1.K(t) + Num(w)), a, Left(b, 30), c, d)
  {
    hide RotL, Left, SHA1.F, SHA1.K, Num, Bits;
    SumWithBits(Num(Left(a, 5)) + Num(SHA1.F(t, b, c, d)) + Num(e) + Num(w), SHA1.K(t));
  }

  lemma SumWithBits(x: int, y: int)
    ensures Bits(x + Num(Bits(y))) == Bits(x + y)
  {
    hide Num, Bits;
    NumBits(y);
    BitsMod(x + Num(Bits(y)), x + y);
  }

  lemma Sha1Block(h: seq<Word>, m: seq<Word>, W: seq<Word>, A: seq<Word>)
    requires Table1(h, m, W, A)
    ensures SHA1.Compress(h, m) ==
            [Bits(Num(h[0]) + Num(A[84])), Bits(Num(h[1]) + Num(A[83])), Bits(Num(h[2]) + Num(Left(A[82], 30))),
             Bits(Num(h[3]) + Num(Left(A[81], 30))), Bits(Num(h[4]) + Num(Left(A[80], 30)))]
  {
    hide SHA1.Rounds, Table1, Num, Bits, Left;
    Sizes1(h, m, W, A);
    Rounds1(h, m, W, A, 80);
  }

  // ---------------------------------------------------------------- MD5, section 3.4 of RFC 1321

  /** The message words and the rotations of the 64 steps, as listed there. */
  const ORDER: seq<seq<nat>> := [[0, 1, 2, 3, 4, 5, 6, 7, 8, 9, 10, 11, 12, 13, 14, 15],
                                 [1, 6, 11, 0, 5, 10, 15, 4, 9, 14, 3, 8, 13, 2, 7, 12],
                                 [5, 8, 11, 14, 1, 4, 7, 10, 13, 0, 3, 6, 9, 12, 15, 2],
                                 [0, 7, 14, 5, 12, 3, 10, 1, 8, 15, 6, 13, 4, 11, 2, 9]]

  const TURNS: seq<seq<nat>> := [[7, 12, 17, 22], [5, 9, 14, 20], [4, 11, 16, 23], [6, 10, 15, 21]]

  /** F chooses by its first argument, G by its last, H adds, and I adds to `y`. */
  lemma ChoosesByFirst(x: Word, y: Word, z: Word)
    ensures MD5.Aux(MD5.FF, x, y, z) & x == y & x && MD5.Aux(MD5.FF, x, y, z) & !x == z & !x
  {}

  lemma ChoosesByLast(x: Word, y: Word, z: Word)
    ensures MD5.Aux(MD5.GG, x, y, z) & z == x & z && MD5.Aux(MD5.GG, x, y, z) & !z == y & !z
  {}

  lemma Adds(x: Word, y: Word, z: Word)
    ensures MD5.Aux(MD5.HH, x, y, z) ^ z == x ^ y && MD5.Aux(MD5.II, x, y, z) ^ y == x | !z
  {}

  function KindAt(t: nat): MD5.Kind {
    if t < 16 then MD5.FF else if t < 32 then MD5.GG else if t < 48 then MD5.HH else MD5.II
  }

  function Order(t: nat): nat
    requires t < 64
  {
    ORDER[t / 16][t % 16]
  }

  function Distance(t: nat): nat
    requires t < 64
  {
    TURNS[t / 16][t % 4]
  }

  lemma OrderIs(t: nat)
    requires t < 64
    ensures MD5.Index(t) == Order(t) < 16 && MD5.KindOf(t) == KindAt(t)
  {
    if t < 16 { OrderA(t); } else if t < 32 { OrderB(t); } else if t < 48 { OrderC(t); } else { OrderD(t); }
  }

  lemma OrderA(t: nat)
    requires t < 16
    ensures MD5.Index(t) == Order(t)
  {
    if t == 0 {} else if t == 1 {} else if t == 2 {} else if t == 3 {} else if t == 4 {} else if t == 5 {} else if t == 6 {} else if t == 7 {}
    else if t == 8 {} else if t == 9 {} else if t == 10 {} else if t == 11 {} else if t == 12 {} else if t == 13 {} else if t == 14 {} else {}
  }

  lemma OrderB(t: nat)
    requires 16 <= t < 32
    ensures MD5.Index(t) == Order(t)
  {
    if t == 16 {} else if t == 17 {} else if t == 18 {} else if t == 19 {} else if t == 20 {} else if t == 21 {} else if t == 22 {} else if t == 23 {}
    else if t == 24 {} else if t == 25 {} else if t == 26 {} else if t == 27 {} else if t == 28 {} else if t == 29 {} else if t == 30 {} else {}
  }

  lemma OrderC(t: nat)
    requires 32 <= t < 48
    ensures MD5.Index(t) == Order(t)
  {
    if t == 32 {} else if t == 33 {} else if t == 34 {} else if t == 35 {} else if t == 36 {} else if t == 37 {} else if t == 38 {} else if t == 39 {}
    else if t == 40 {} else if t == 41 {} else if t == 42 {} else if t == 43 {} else if t == 44 {} else if t == 45 {} else if t == 46 {} else {}
  }

  lemma OrderD(t: nat)
    requires 48 <= t < 64
    ensures MD5.Index(t) == Order(t)
  {
    if t == 48 {} else if t == 49 {} else if t == 50 {} else if t == 51 {} else if t == 52 {} else if t == 53 {} else if t == 54 {} else if t == 55 {}
    else if t == 56 {} else if t == 57 {} else if t == 58 {} else if t == 59 {} else if t == 60 {} else if t == 61 {} else if t == 62 {} else {}
  }

  lemma DistanceIs(t: nat)
    requires t < 64
    ensures MD5.Turn(t) == Distance(t) < 32
  {
    var j := t % 4;
    if j == 0 {} else if j == 1 {} else if j == 2 {} else {}
  }

  lemma TurnsA(x: Word)
    ensures RotL(x, 7) == Left(x, 7) && RotL(x, 12) == Left(x, 12) && RotL(x, 17) == Left(x, 17) && RotL(x, 22) == Left(x, 22)
    ensures RotL(x, 5) == Left(x, 5) && RotL(x, 9) == Left(x, 9) && RotL(x, 14) == Left(x, 14) && RotL(x, 20) == Left(x, 20)
  {}

  lemma TurnsB(x: Word)
    ensures RotL(x, 4) == Left(x, 4) && RotL(x, 11) == Left(x, 11) && RotL(x, 16) == Left(x, 16) && RotL(x, 23) == Left(x, 23)
    ensures RotL(x, 6) == Left(x, 6) && RotL(x, 10) == Left(x, 10) && RotL(x, 15) == Left(x, 15) && RotL(x, 21) == Left(x, 21)
  {}

  lemma Turned(x: Word, t: nat)
    requires t < 64
    ensures MD5.Turn(t) == Distance(t) < 32 && RotL(x, MD5.Turn(t)) == Left(x, Distance(t))
  {
    DistanceIs(t);
    TurnsA(x);
    TurnsB(x);
    hide RotL, Left;
    var j := t % 4;
    if j == 0 {} else if j == 1 {} else if j == 2 {} else {}
  }

  /** `Q[t + 3]` is the variable changed last before step `t`, `Q[t]` the one that step changes. */
  ghost predicate TableMd5(T: seq<Word>, h: seq<Word>, X: seq<Word>, Q: seq<Word>) {
    && |T| == 64 && |h| == 4 && |X| == 16 && |Q| == 68
    && Q[0] == h[0] && Q[3] == h[1] && Q[2] == h[2] && Q[1] == h[3]
    && forall t: nat :: t < 64 ==> Q[t + 4] == NextMd5(T, X, Q, t)
  }

  ghost function NextMd5(T: seq<Word>, X: seq<Word>, Q: seq<Word>, t: nat): Word
    requires t < 64 == |T| && |X| == 16 && t + 4 <= |Q|
  {
    OrderIs(t);
    DistanceIs(t);
    var sum := Num(Q[t]) + Num(MD5.Aux(KindAt(t), Q[t + 3], Q[t + 2], Q[t + 1])) + Num(X[Order(t)]) + Num(T[t]);
    Bits(Num(Left(Bits(sum), Distance(t))) + Num(Q[t + 3]))
  }

  lemma {:induction false} StepsMd5(T: seq<Word>, h: seq<Word>, X: seq<Word>, Q: seq<Word>, t: nat)
    requires TableMd5(T, h, X, Q) && t <= 64
    ensures |T| == 64 && |X| == 16 && |h| == 4 && |Q| == 68 && MD5.Steps(T, X, MD5.Regs4(h), t) == MD5.Regs(Q[t], Q[t + 3], Q[t + 2], Q[t + 1])
  {
    hide MD5.StepOf, NextMd5, Num, Bits;
    if t > 0 {
      StepsMd5(T, h, X, Q, t - 1);
      assert Q[(t - 1) + 4] == NextMd5(T, X, Q, t - 1);
      StepMd5(T, X, Q, t - 1);
    }
  }

  lemma StepMd5(T: seq<Word>, X: seq<Word>, Q: seq<Word>, t: nat)
    requires t < 64 == |T| && |X| == 16 && t + 4 <= |Q|
    ensures MD5.StepOf(T, X, MD5.Regs(Q[t], Q[t + 3], Q[t + 2], Q[t + 1]), t) == MD5.Regs(Q[t + 1], NextMd5(T, X, Q, t), Q[t + 3], Q[t + 2])
  {
    hide MD5.Aux, MD5.Index, MD5.Turn, MD5.KindOf, Order, Distance, KindAt, RotL, Left, Num, Bits;
    OrderIs(t);
    var f, x := MD5.Aux(KindAt(t), Q[t + 3], Q[t + 2], Q[t + 1]), X[Order(t)];
    Turned(Add4(Q[t], f, x, T[t]), t);
    OneStepMd5(KindAt(t), Q[t], Q[t + 3], Q[t + 2], Q[t + 1], x, T[t], MD5.Turn(t));
  }

  lemma OneStepMd5(kind: MD5.Kind, a: Word, b: Word, c: Word, d: Word, x: Word, t: Word, s: nat)
    requires s < 32
    ensures MD5.Operation(kind, MD5.Regs(a, b, c, d), x, s, t) ==
            Bits(Num(RotL(Bits(Num(a) + Num(MD5.Aux(kind, b, c, d)) + Num(x) + Num(t)), s)) + Num(b))
  {
    hide MD5.Aux, RotL, Num, Bits;
  }

  /** The hash value after a block is the one before plus the last four variables. */
  lemma Md5Block(T: seq<Word>, h: seq<Word>, X: seq<Word>, Q: seq<Word>)
    requires TableMd5(T, h, X, Q)
    ensures MD5.Compress(T, h, X) ==
            [Bits(Num(h[0]) + Num(Q[64])), Bits(Num(h[1]) + Num(Q[67])), Bits(Num(h[2]) + Num(Q[66])), Bits(Num(h[3]) + Num(Q[65]))]
  {
    hide MD5.Steps, NextMd5, Num, Bits;
    StepsMd5(T, h, X, Q, 64);
  }

  // ---------------------------------------------------------------- SHA-512, section 6.4.2

  function Right64(x: bv64, n: nat): bv64
    requires n < 64
  {
    x.RotateRight(n)
  }

  lemma Right64Is(x: bv64)
    ensures SHA512.RotJ(x, 1) == Right64(x, 1) && SHA512.RotJ(x, 8) == Right64(x, 8) && SHA512.RotJ(x, 19) == Right64(x, 19)
    ensures SHA512.RotJ(x, 61) == Right64(x, 61) && SHA512.RotJ(x, 28) == Right64(x, 28) && SHA512.RotJ(x, 34) == Right64(x, 34)
    ensures SHA512.RotJ(x, 39) == Right64(x, 39) && SHA512.RotJ(x, 14) == Right64(x, 14) && SHA512.RotJ(x, 18) == Right64(x, 18)
    ensures SHA512.RotJ(x, 41) == Right64(x, 41)
  {}

  function Add3J(a: bv64, b: bv64, c: bv64): bv64 { a ^ b ^ c }

  lemma JoinedXor(a: SHA512.Word64, b: SHA512.Word64, c: SHA512.Word64)
    ensures SHA512.Joined(SHA512.Xor64(a, b, c)) == Add3J(SHA512.Joined(a), SHA512.Joined(b), SHA512.Joined(c))
  {}

  /** Section 4.1.3 of FIPS 180-4, on 64 bits in one piece. */
  lemma Sha512Functions(w: SHA512.Word64)
    ensures var x := SHA512.Joined(w);
            && SHA512.Joined(SHA512.Sigma0(w)) == Add3J(Right64(x, 28), Right64(x, 34), Right64(x, 39))
            && SHA512.Joined(SHA512.Sigma1(w)) == Add3J(Right64(x, 14), Right64(x, 18), Right64(x, 41))
            && SHA512.Joined(SHA512.Gamma0(w)) == Add3J(Right64(x, 1), Right64(x, 8), SHA512.ShiftJ(x, 7))
            && SHA512.Joined(SHA512.Gamma1(w)) == Add3J(Right64(x, 19), Right64(x, 61), SHA512.ShiftJ(x, 6))
  {
    SHA512.RotationsAre64Bit(w);
    Right64Is(SHA512.Joined(w));
    hide SHA512.Joined, SHA512.RotJ, Right64, SHA512.ShiftJ, SHA512.RotR64, SHA512.ShR64, SHA512.Xor64, Add3J;
    JoinedXor(SHA512.RotR64(w, 28), SHA512.RotR64(w, 34), SHA512.RotR64(w, 39));
    JoinedXor(SHA512.RotR64(w, 14), SHA512.RotR64(w, 18), SHA512.RotR64(w, 41));
    JoinedXor(SHA512.RotR64(w, 1), SHA512.RotR64(w, 8), SHA512.ShR64(w, 7));
    JoinedXor(SHA512.RotR64(w, 19), SHA512.RotR64(w, 61), SHA512.ShR64(w, 6));
  }

  /** The table of SHA-512, as for SHA-256 with 64-bit words and 80 rounds. */
  ghost predicate Table512(k: seq<SHA512.Word64>, h: seq<SHA512.Word64>, m: seq<Word>, W: seq<SHA512.Word64>, A: seq<SHA512.Word64>, E: seq<SHA512.Word64>) {
    && |k| == 80 && |h| == 8 && |m| == 32 && |W| == 80 && |A| == |E| == 84
    && (forall t: nat :: t < 80 ==> W[t] == if t < 16 then SHA512.Word64(m[2 * t], m[2 * t + 1]) else SHA512.Make(Entry512(W, t)))
    && A[3] == h[0] && A[2] == h[1] && A[1] == h[2] && A[0] == h[3]
    && E[3] == h[4] && E[2] == h[5] && E[1] == h[6] && E[0] == h[7]
    && (forall t: nat :: t < 80 ==> E[t + 4] == SHA512.Make(SHA512.Val(A[t]) + First512(k, W, E, t)))
    && (forall t: nat :: t < 80 ==> A[t + 4] == SHA512.Make(First512(k, W, E, t) + Second512(A, t)))
  }

  ghost function Entry512(W: seq<SHA512.Word64>, t: nat): nat
    requires 16 <= t < |W|
  {
    SHA512.Val(SHA512.Gamma1(W[t - 2])) + SHA512.Val(W[t - 7]) + SHA512.Val(SHA512.Gamma0(W[t - 15])) + SHA512.Val(W[t - 16])
  }

  ghost function First512(k: seq<SHA512.Word64>, W: seq<SHA512.Word64>, E: seq<SHA512.Word64>, t: nat): nat
    requires t < |k| && t < |W| && t + 4 <= |E|
  {
    SHA512.Val(E[t]) + SHA512.Val(SHA512.Sigma1(E[t + 3])) + SHA512.Val(SHA512.Ch64(E[t + 3], E[t + 2], E[t + 1])) + SHA512.Val(k[t]) + SHA512.Val(W[t])
  }

  ghost function Second512(A: seq<SHA512.Word64>, t: nat): nat
    requires t + 4 <= |A|
  {
    SHA512.Val(SHA512.Sigma0(A[t + 3])) + SHA512.Val(SHA512.Maj64(A[t + 3], A[t + 2], A[t + 1]))
  }

  lemma Rows512(k: seq<SHA512.Word64>, h: seq<SHA512.Word64>, m: seq<Word>, W: seq<SHA512.Word64>, A: seq<SHA512.Word64>, E: seq<SHA512.Word64>, t: nat)
    requires Table512(k, h, m, W, A, E) && t < 80
    ensures W[t] == if t < 16 then SHA512.Word64(m[2 * t], m[2 * t + 1]) else SHA512.Make(Entry512(W, t))
    ensures E[t + 4] == SHA512.Make(SHA512.Val(A[t]) + First512(k, W, E, t)) && A[t + 4] == SHA512.Make(First512(k, W, E, t) + Second512(A, t))
  {
    hide Entry512, First512, Second512, SHA512.Val, SHA512.Make;
  }

  lemma Sizes512(k: seq<SHA512.Word64>, h: seq<SHA512.Word64>, m: seq<Word>, W: seq<SHA512.Word64>, A: seq<SHA512.Word64>, E: seq<SHA512.Word64>)
    requires Table512(k, h, m, W, A, E)
    ensures |k| == 80 && |h| == 8 && |m| == 32 && |W| == 80 && |A| == |E| == 84
    ensures SHA512.Regs8(h) == SHA512.Regs(A[3], A[2], A[1], A[0], E[3], E[2], E[1], E[0])
  {
    hide Entry512, First512, Second512, SHA512.Val, SHA512.Make;
  }

  lemma {:induction false} Schedule512(k: seq<SHA512.Word64>, h: seq<SHA512.Word64>, m: seq<Word>, W: seq<SHA512.Word64>, A: seq<SHA512.Word64>, E: seq<SHA512.Word64>, t: nat)
    requires Table512(k, h, m, W, A, E) && t < 80
    ensures SHA512.Schedule(m, t) == W[t]
  {
    hide Table512, SHA512.Gamma0, SHA512.Gamma1, SHA512.Val, SHA512.Make;
    Sizes512(k, h, m, W, A, E);
    Rows512(k, h, m, W, A, E, t);
    if t >= 16 {
      Schedule512(k, h, m, W, A, E, t - 2);
      Schedule512(k, h, m, W, A, E, t - 7);
      Schedule512(k, h, m, W, A, E, t - 15);
      Schedule512(k, h, m, W, A, E, t - 16);
    }
  }

  lemma {:induction false} Rounds512(k: seq<SHA512.Word64>, h: seq<SHA512.Word64>, m: seq<Word>, W: seq<SHA512.Word64>, A: seq<SHA512.Word64>, E: seq<SHA512.Word64>, t: nat)
    requires Table512(k, h, m, W, A, E) && t <= 80
    ensures SHA512.Rounds(k, m, SHA512.Regs8(h), t) == SHA512.Regs(A[t + 3], A[t + 2], A[t + 1], A[t], E[t + 3], E[t + 2], E[t + 1], E[t])
  {
    hide Table512, SHA512.Round, First512, Second512, SHA512.Schedule, SHA512.Val, SHA512.Make, SHA512.Regs8;
    Sizes512(k, h, m, W, A, E);
    if t > 0 {
      var i := t - 1;
      Rounds512(k, h, m, W, A, E, i);
      Schedule512(k, h, m, W, A, E, i);
      Rows512(k, h, m, W, A, E, i);
      Round512(k, W, A, E, i);
    }
  }

  lemma Round512(k: seq<SHA512.Word64>, W: seq<SHA512.Word64>, A: seq<SHA512.Word64>, E: seq<SHA512.Word64>, i: nat)
    requires i < |k| && i < |W| && i + 4 <= |A| && i + 4 <= |E|
    ensures SHA512.Round(SHA512.Regs(A[i + 3], A[i + 2], A[i + 1], A[i], E[i + 3], E[i + 2], E[i + 1], E[i]), k[i], W[i]) ==
            SHA512.Regs(SHA512.Make(First512(k, W, E, i) + Second512(A, i)), A[i + 3], A[i + 2], A[i + 1],
                        SHA512.Make(SHA512.Val(A[i]) + First512(k, W, E, i)), E[i + 3], E[i + 2], E[i + 1])
  {
    hide SHA512.Sigma0, SHA512.Sigma1, SHA512.Ch64, SHA512.Maj64, SHA512.Val, SHA512.Make;
    SHA512.NestedSum(First512(k, W, E, i), Second512(A, i));
    SHA512.NestedSum(SHA512.Val(A[i]), First512(k, W, E, i));
    SHA512.MakeVal(A[i]);
  }

  lemma Sha512Block(k: seq<SHA512.Word64>, h: seq<SHA512.Word64>, m: seq<Word>, W: seq<SHA512.Word64>, A: seq<SHA512.Word64>, E: seq<SHA512.Word64>)
    requires Table512(k, h, m, W, A, E)
    ensures var c := SHA512.Compress(k, h, m);
            && c[0] == SHA512.Make(SHA512.Val(h[0]) + SHA512.Val(A[83])) && c[1] == SHA512.Make(SHA512.Val(h[1]) + SHA512.Val(A[82]))
            && c[2] == SHA512.Make(SHA512.Val(h[2]) + SHA512.Val(A[81])) && c[3] == SHA512.Make(SHA512.Val(h[3]) + SHA512.Val(A[80]))
            && c[4] == SHA512.Make(SHA512.Val(h[4]) + SHA512.Val(E[83])) && c[5] == SHA512.Make(SHA512.Val(h[5]) + SHA512.Val(E[82]))
            && c[6] == SHA512.Make(SHA512.Val(h[6]) + SHA512.Val(E[81])) && c[7] == SHA512.Make(SHA512.Val(h[7]) + SHA512.Val(E[80]))
  {
    hide SHA512.Rounds, Table512, SHA512.Val, SHA512.Make;
    Sizes512(k, h, m, W, A, E);
    Rounds512(k, h, m, W, A, E, 80);
  }
}
