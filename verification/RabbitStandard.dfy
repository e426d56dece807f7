/** RFC 4503 written out: the constants, the eight equations of the next-state function, and the
    setup, in numbers and with the indices of the document. */
module RabbitStandard {
  import opened Wrappers
  import opened JsNumbers
  import opened WordArrays
  import opened WordNumbers
  import opened Rabbit

  // ---------------------------------------------------------------- sections 2.5 and 2.6

  lemma ConstantsAre()
    ensures A(0) == A(3) == A(6) == 0x4d34d34d && A(1) == A(4) == A(7) == 0xd34d34d3 && A(2) == A(5) == 0x34d34d34
  {}

  function Left(x: Word, n: nat): Word
    requires n < 32
  {
    x.RotateLeft(n)
  }

  lemma LeftIs(x: Word)
    ensures RotL(x, 16) == Left(x, 16) && RotL(x, 8) == Left(x, 8)
  {}

  function Plus3(a: Word, b: Word, c: Word): Word {
    Bits(Num(a) + Num(b) + Num(c))
  }

  lemma CombineIs(even: bool, g: Word, p: Word, q: Word)
    ensures Combine(even, g, p, q) == if even then Plus3(g, Left(p, 16), Left(q, 16)) else Plus3(g, Left(p, 8), q)
  {
    hide RotL, Left, Num, Bits;
    LeftIs(p);
    LeftIs(q);
    AddTwice(g, Left(p, 16), Left(q, 16));
    AddTwice(g, Left(p, 8), q);
  }

  lemma AddTwice(a: Word, b: Word, c: Word)
    ensures Add32(Add32(a, b), c) == Plus3(a, b, c)
  {
    hide Num, Bits;
    NumBits(Num(a) + Num(b));
    BitsMod(Num(Bits(Num(a) + Num(b))) + Num(c), Num(a) + Num(b) + Num(c));
  }

  /** The g-values: the halves of the square of a sum cut to 32 bits. */
  lemma GIs(x: seq<Word>, c: seq<Word>, j: nat)
    requires |x| == |c| == 8 && j < 8
    ensures var u := (Num(x[j]) + Num(c[j])) % TWO32;
            GWords(x, c)[j] == Xor(Bits(u * u / TWO32), Bits(u * u % TWO32))
  {
    hide Num, Bits, Xor;
  }

  /** One step of the cipher. */
  lemma StepIs(s: State)
    requires s.Valid()
    ensures var r := Next(s);
            var g := GWords(s.x, r.c);
            && r.x[0] == Plus3(g[0], Left(g[7], 16), Left(g[6], 16)) && r.x[1] == Plus3(g[1], Left(g[0], 8), g[7])
            && r.x[2] == Plus3(g[2], Left(g[1], 16), Left(g[0], 16)) && r.x[3] == Plus3(g[3], Left(g[2], 8), g[1])
            && r.x[4] == Plus3(g[4], Left(g[3], 16), Left(g[2], 16)) && r.x[5] == Plus3(g[5], Left(g[4], 8), g[3])
            && r.x[6] == Plus3(g[6], Left(g[5], 16), Left(g[4], 16)) && r.x[7] == Plus3(g[7], Left(g[6], 8), g[5])
  {
    hide Combine, Left, Plus3, GWords, Num, Bits, NextCounters, Carry;
    var g := GWords(s.x, Next(s).c);
    MixedWords(g);
    CombineIs(true, g[0], g[7], g[6]); CombineIs(false, g[1], g[0], g[7]); CombineIs(true, g[2], g[1], g[0]); CombineIs(false, g[3], g[2], g[1]);
    CombineIs(true, g[4], g[3], g[2]); CombineIs(false, g[5], g[4], g[3]); CombineIs(true, g[6], g[5], g[4]); CombineIs(false, g[7], g[6], g[5]);
  }

  // ---------------------------------------------------------------- sections 2.3 and 2.4

  /** The key in pieces of 16 bits, the lowest one first. */
  function Piece(K: seq<Word>, i: nat): nat {
    if i % 2 == 0 then Num(Get(K, i / 2)) % 0x1_0000 else Num(Get(K, i / 2)) / 0x1_0000
  }

  lemma PieceIs(K: seq<Word>, i: nat)
    ensures Num(SubKey(K, i)) == Piece(K, i) < 0x1_0000 && And(SubKey(K, i), 0xffff_0000) == 0
  {
    var w := Get(K, i / 2);
    SmallBits(w);
    hide Num, And, Shr;
    Halves(w);
  }

  lemma SmallBits(w: Word)
    ensures And(And(w, 0xffff), 0xffff_0000) == 0 && And(Shr(w, 16), 0xffff_0000) == 0
  {}

  lemma PairNumber(h: Word, l: Word)
    requires And(h, 0xffff_0000) == 0 && And(l, 0xffff_0000) == 0
    ensures Num(Pair(h, l)) == 0x1_0000 * Num(h) + Num(l)
  {
    PairParts(h, l);
    hide Num, And, Shr, Pair;
    Halves(Pair(h, l));
  }

  lemma PairParts(h: Word, l: Word)
    requires And(h, 0xffff_0000) == 0 && And(l, 0xffff_0000) == 0
    ensures Shr(Pair(h, l), 16) == h && And(Pair(h, l), 0xffff) == l
  {}

  /** Two pieces, the first one higher. */
  function Both(K: seq<Word>, i: nat, j: nat): nat {
    0x1_0000 * Piece(K, i) + Piece(K, j)
  }

  lemma PairIs(K: seq<Word>, i: nat, j: nat)
    ensures Num(Pair(SubKey(K, i), SubKey(K, j))) == Both(K, i, j)
  {
    hide SubKey, Num, And, Pair;
    PieceIs(K, i);
    PieceIs(K, j);
    PairNumber(SubKey(K, i), SubKey(K, j));
  }

  /** The initial values of the state and of the counters. */
  lemma SeedIs(K: seq<Word>)
    ensures var s := Seed(K);
            && |s.x| == |s.c| == 8 && s.b == 0
            && Num(s.x[0]) == Both(K, 1, 0) && Num(s.x[1]) == Both(K, 6, 5) && Num(s.x[2]) == Both(K, 3, 2) && Num(s.x[3]) == Both(K, 0, 7)
            && Num(s.x[4]) == Both(K, 5, 4) && Num(s.x[5]) == Both(K, 2, 1) && Num(s.x[6]) == Both(K, 7, 6) && Num(s.x[7]) == Both(K, 4, 3)
            && Num(s.c[0]) == Both(K, 4, 5) && Num(s.c[1]) == Both(K, 1, 2) && Num(s.c[2]) == Both(K, 6, 7) && Num(s.c[3]) == Both(K, 3, 4)
            && Num(s.c[4]) == Both(K, 0, 1) && Num(s.c[5]) == Both(K, 5, 6) && Num(s.c[6]) == Both(K, 2, 3) && Num(s.c[7]) == Both(K, 7, 0)
  {
    hide SubKey, Pair, Num, Both;
    PairIs(K, 1, 0); PairIs(K, 6, 5); PairIs(K, 3, 2); PairIs(K, 0, 7); PairIs(K, 5, 4); PairIs(K, 2, 1); PairIs(K, 7, 6); PairIs(K, 4, 3);
    PairIs(K, 4, 5); PairIs(K, 1, 2); PairIs(K, 6, 7); PairIs(K, 3, 4); PairIs(K, 0, 1); PairIs(K, 5, 6); PairIs(K, 2, 3); PairIs(K, 7, 0);
  }

  /** After four steps the counters take in the state; with an IV they take in its pieces, and four
      steps follow. */
  lemma SetUpIs(K: seq<Word>, iv: Option<seq<Word>>)
    ensures Seed(K).Valid()
    ensures var s, t := Next(Next(Next(Next(Seed(K))))), SetUp(K, None);
            && t.x == s.x && t.b == s.b
            && t.c[0] == Xor(s.c[0], s.x[4]) && t.c[1] == Xor(s.c[1], s.x[5]) && t.c[2] == Xor(s.c[2], s.x[6]) && t.c[3] == Xor(s.c[3], s.x[7])
            && t.c[4] == Xor(s.c[4], s.x[0]) && t.c[5] == Xor(s.c[5], s.x[1]) && t.c[6] == Xor(s.c[6], s.x[2]) && t.c[7] == Xor(s.c[7], s.x[3])
    ensures iv.Some? ==>
              var t := SetUp(K, None);
              SetUp(K, iv) == Next(Next(Next(Next(State(t.x, WithIv(t.c, iv.value), t.b)))))
  {
    hide SeedX, SeedC, Xor, NextCounters, Mixed, GWords, Carry, WithIv;
    FourSteps(Seed(K));
    if iv.Some? {
      var t := SetUp(K, None);
      FourSteps(State(t.x, WithIv(t.c, iv.value), t.b));
    }
  }

  lemma FourSteps(s: State)
    requires s.Valid()
    ensures Steps(s, 4) == Next(Next(Next(Next(s))))
  {
    hide Next;
    var a := Next(s);
    var b := Next(a);
    var c := Next(b);
    assert Steps(c, 1) == Steps(Next(c), 0) == Next(c);
    assert Steps(b, 2) == Steps(c, 1);
    assert Steps(a, 3) == Steps(b, 2);
  }

  /** The four pieces of the IV: its low and high words, and their upper and lower halves. */
  lemma IvIs(c: seq<Word>, iv: seq<Word>, k: nat)
    requires |c| == 8 && k < 8
    ensures var lo, hi := Num(SwapEndian(Get(iv, 0))), Num(SwapEndian(Get(iv, 1)));
            && WithIv(c, iv)[k] == Xor(c[k], IvPiece(iv, k % 4))
            && Num(IvPiece(iv, 0)) == lo && Num(IvPiece(iv, 2)) == hi
            && Num(IvPiece(iv, 1)) == 0x1_0000 * (hi / 0x1_0000) + lo / 0x1_0000
            && Num(IvPiece(iv, 3)) == 0x1_0000 * (hi % 0x1_0000) + lo % 0x1_0000
  {
    var l, h := SwapEndian(Get(iv, 0)), SwapEndian(Get(iv, 1));
    SmallBits(l);
    SmallBits(h);
    hide Num, And, Shr, Pair, Xor, SwapEndian;
    Halves(l);
    Halves(h);
    PairNumber(Shr(h, 16), Shr(l, 16));
    PairNumber(And(h, 0xffff), And(l, 0xffff));
  }
}
