/** MD5's compression function. Its working variables are never cut: each of the 64 steps
    adds a rotated word to a Number that is itself the result of earlier steps. */
module MD5 {
  import opened JsNumbers
  import opened WordArrays
  import opened Streaming
  import opened BlockModes
  import opened HashWords

  // ---------------------------------------------------------------- section 3.4 of RFC 1321

  /** The auxiliary functions F, G, H and I. */
  datatype Kind = FF | GG | HH | II

  function Aux(kind: Kind, x: Word, y: Word, z: Word): Word {
    match kind
    case FF => (x & y) | (!x & z)
    case GG => (x & z) | (y & !z)
    case HH => x ^ y ^ z
    case II => y ^ (x | !z)
  }

  function KindOf(i: nat): Kind {
    if i < 16 then FF else if i < 32 then GG else if i < 48 then HH else II
  }

  /** The message word of step `i`. */
  function Index(i: nat): (k: nat)
    ensures k < 16
  {
    if i < 16 then i else if i < 32 then (5 * i + 1) % 16 else if i < 48 then (3 * i + 5) % 16 else (7 * i) % 16
  }

  /** The rotation of step `i`. */
  function Turn(i: nat): (s: nat)
    ensures s <= 32
  {
    var j := i % 4;
    if i < 16 then 7 + 5 * j
    else if i < 32 then if j == 0 then 5 else if j == 1 then 9 else if j == 2 then 14 else 20
    else if i < 48 then if j == 0 then 4 else if j == 1 then 11 else if j == 2 then 16 else 23
    else if j == 0 then 6 else if j == 1 then 10 else if j == 2 then 15 else 21
  }

  datatype Regs<T> = Regs(a: T, b: T, c: T, d: T)

  /** `b + ((a + aux(b, c, d) + x + t) <<< s)` */
  function Operation(kind: Kind, r: Regs<Word>, x: Word, s: nat, t: Word): Word
    requires s <= 32
  {
    Add2(RotL(Add4(r.a, Aux(kind, r.b, r.c, r.d), x, t), s), r.b)
  }

  function StepOf(T: seq<Word>, X: seq<Word>, r: Regs<Word>, i: nat): Regs<Word>
    requires |T| == 64 && |X| == 16 && i < 64
  {
    Regs(r.d, Operation(KindOf(i), r, X[Index(i)], Turn(i), T[i]), r.b, r.c)
  }

  function Steps(T: seq<Word>, X: seq<Word>, r: Regs<Word>, n: nat): Regs<Word>
    requires |T| == 64 && |X| == 16 && n <= 64
  {
    if n == 0 then r else StepOf(T, X, Steps(T, X, r, n - 1), n - 1)
  }

  function Regs4(h: seq<Word>): Regs<Word>
    requires |h| == 4
  {
    Regs(h[0], h[1], h[2], h[3])
  }

  /** One block of little-endian words: the hash value after it. */
  function Compress(T: seq<Word>, h: seq<Word>, X: seq<Word>): (r: seq<Word>)
    requires |T| == 64 && |h| == 4 && |X| == 16
    ensures |r| == 4
  {
    var r := Steps(T, X, Regs4(h), 64);
    [Add2(h[0], r.a), Add2(h[1], r.b), Add2(h[2], r.c), Add2(h[3], r.d)]
  }

  // ---------------------------------------------------------------- one step on Numbers

  /** A Number with the bits of `w`, at most `j` rotated words away from 2^32. */
  ghost predicate Near(x: int, w: Word, j: nat) {
    Bits(x) == w && Within(x, (j + 2) * TWO31)
  }

  ghost predicate Held(n: Regs<int>, r: Regs<Word>, j: nat) {
    Near(n.a, r.a, j) && Near(n.b, r.b, j) && Near(n.c, r.c, j) && Near(n.d, r.d, j)
  }

  /** The sums of a step are exact. */
  ghost predicate Ready(a: int, f: int, x: int, t: int, rot: int, b: int) {
    Summable(a, f, x, t) && Exact(rot) && Exact(b) && Exact(rot + b)
  }

  function AuxNum(kind: Kind, b: int, c: int, d: int): int {
    Signed(Aux(kind, Bits(b), Bits(c), Bits(d)))
  }

  function RotNum(n: int, s: nat): int
    requires s <= 32
  {
    Signed(RotL(Bits(n), s))
  }

  /** `var n = a + aux(b, c, d) + x + t; return ((n << s) | (n >>> (32 - s))) + b;` */
  method Step(kind: Kind, a: int, b: int, c: int, d: int, x: int, s: nat, t: int, ghost r: Regs<Word>, ghost xw: Word, ghost tw: Word, ghost j: nat)
    returns (v: int)
    requires Held(Regs(a, b, c, d), r, j) && Fits(x, xw) && Fits(t, tw) && s <= 32 && j < 64
    ensures Near(v, Operation(kind, r, xw, s, tw), j + 1)
  {
    hide Held, Fits, Near, Operation, AuxNum, RotNum, Exact, Summable;
    StepFacts(kind, a, b, c, d, x, s, t, r, xw, tw, j);
    var n := Plus4(a, AuxNum(kind, b, c, d), x, t);
    v := Plus(RotNum(n, s), b);
  }

  lemma StepFacts(kind: Kind, a: int, b: int, c: int, d: int, x: int, s: nat, t: int, r: Regs<Word>, xw: Word, tw: Word, j: nat)
    requires Held(Regs(a, b, c, d), r, j) && Fits(x, xw) && Fits(t, tw) && s <= 32 && j < 64
    ensures var f := AuxNum(kind, b, c, d);
            var rot := RotNum(a + f + x + t, s);
            Ready(a, f, x, t, rot, b) && Near(rot + b, Operation(kind, r, xw, s, tw), j + 1)
  {
    hide *;
    HeldNear(a, b, c, d, r, j);
    var f := AuxNum(kind, b, c, d);
    var n := a + f + x + t;
    var rot := RotNum(n, s);
    AuxFits(kind, b, c, d);
    RotFits(n, s);
    StepReady(a, f, x, t, rot, b, r.a, Aux(kind, r.b, r.c, r.d), xw, tw, RotL(Bits(n), s), r.b, j);
    StepWord(a, f, x, t, rot, b, Aux(kind, r.b, r.c, r.d), xw, tw, r, kind, s, j);
  }

  lemma HeldNear(a: int, b: int, c: int, d: int, r: Regs<Word>, j: nat)
    requires Held(Regs(a, b, c, d), r, j)
    ensures Near(a, r.a, j) && Near(b, r.b, j) && Bits(b) == r.b && Bits(c) == r.c && Bits(d) == r.d
  {
    hide Bits;
  }

  lemma AuxFits(kind: Kind, b: int, c: int, d: int)
    ensures Fits(AuxNum(kind, b, c, d), Aux(kind, Bits(b), Bits(c), Bits(d)))
  {
    hide Aux, Bits, Signed;
    SignedFits(Aux(kind, Bits(b), Bits(c), Bits(d)));
  }

  lemma RotFits(n: int, s: nat)
    requires s <= 32
    ensures Fits(RotNum(n, s), RotL(Bits(n), s))
  {
    hide RotL, Bits, Signed;
    SignedFits(RotL(Bits(n), s));
  }

  lemma StepReady(a: int, f: int, x: int, t: int, rot: int, b: int, aw: Word, fw: Word, xw: Word, tw: Word, rw: Word, bw: Word, j: nat)
    requires Near(a, aw, j) && Fits(f, fw) && Fits(x, xw) && Fits(t, tw) && Fits(rot, rw) && Near(b, bw, j) && j < 64
    ensures Ready(a, f, x, t, rot, b) && Within(rot + b, (j + 3) * TWO31)
  {
    hide Bits;
  }

  lemma StepWord(a: int, f: int, x: int, t: int, rot: int, b: int, fw: Word, xw: Word, tw: Word, r: Regs<Word>, kind: Kind, s: nat, j: nat)
    requires Near(a, r.a, j) && Fits(f, fw) && Fits(x, xw) && Fits(t, tw) && s <= 32 && rot == RotNum(a + f + x + t, s)
    requires Near(b, r.b, j) && fw == Aux(kind, r.b, r.c, r.d) && Within(rot + b, (j + 3) * TWO31)
    ensures Near(rot + b, Operation(kind, r, xw, s, tw), j + 1)
  {
    hide Aux, RotL, Bits, Signed, Add2, Add4, Within;
    Sum4(a, f, x, t, r.a, fw, xw, tw);
    SignedFits(RotL(Bits(a + f + x + t), s));
    Sum2(rot, b, RotL(Bits(a + f + x + t), s), r.b);
  }

  // ---------------------------------------------------------------- four steps

  /** Four steps return the roles to where they were. */
  ghost predicate Due(T: seq<int>, X: seq<int>, kind: Kind, i: nat, k: nat, s: nat) {
    |T| == 64 && |X| == 16 && i < 64 && AllSigned(T) && AllSigned(X) && kind == KindOf(i) && k == Index(i) && s == Turn(i)
  }

  method Quad(kind: Kind, T: seq<int>, X: seq<int>, n: Regs<int>, i: nat,
              k0: nat, s0: nat, k1: nat, s1: nat, k2: nat, s2: nat, k3: nat, s3: nat, ghost r0: Regs<Word>)
    returns (out: Regs<int>)
    requires Due(T, X, kind, i, k0, s0) && Due(T, X, kind, i + 1, k1, s1) && Due(T, X, kind, i + 2, k2, s2) && Due(T, X, kind, i + 3, k3, s3)
    requires Held(n, Steps(Patterns(T), Patterns(X), r0, i), i)
    ensures Held(out, Steps(Patterns(T), Patterns(X), r0, i + 4), i + 4)
  {
    assert |T| == 64 && |X| == 16 && i + 3 < 64 && k0 < 16 && k1 < 16 && k2 < 16 && k3 < 16;
    ghost var t, x := Patterns(T), Patterns(X);
    hide *;
    var a, b, c, d := n.a, n.b, n.c, n.d;
    ghost var r := Steps(t, x, r0, i);
    a := StepAt(kind, a, b, c, d, T, X, i, k0, s0, r);
    r := StepOf(t, x, r, i);
    d := StepAt(kind, d, a, b, c, T, X, i + 1, k1, s1, r);
    r := StepOf(t, x, r, i + 1);
    c := StepAt(kind, c, d, a, b, T, X, i + 2, k2, s2, r);
    r := StepOf(t, x, r, i + 2);
    b := StepAt(kind, b, c, d, a, T, X, i + 3, k3, s3, r);
    r := StepOf(t, x, r, i + 3);
    out := Regs(a, b, c, d);
    FourSteps(t, x, r0, i);
  }

  lemma FourSteps(t: seq<Word>, x: seq<Word>, r0: Regs<Word>, i: nat)
    requires |t| == 64 && |x| == 16 && i + 4 <= 64
    ensures Steps(t, x, r0, i + 4) == StepOf(t, x, StepOf(t, x, StepOf(t, x, StepOf(t, x, Steps(t, x, r0, i), i), i + 1), i + 2), i + 3)
  {
    hide StepOf;
    assert Steps(t, x, r0, i + 1) == StepOf(t, x, Steps(t, x, r0, i), i);
    assert Steps(t, x, r0, i + 2) == StepOf(t, x, Steps(t, x, r0, i + 1), i + 1);
    assert Steps(t, x, r0, i + 3) == StepOf(t, x, Steps(t, x, r0, i + 2), i + 2);
  }

  /** One of the 64 statements: the variables, in their order of use, hold step `i`'s
      registers; the result holds the new `b`, and the others may only be nearer. */
  method StepAt(kind: Kind, a: int, b: int, c: int, d: int, T: seq<int>, X: seq<int>, i: nat, k: nat, s: nat, ghost r: Regs<Word>)
    returns (v: int)
    requires Due(T, X, kind, i, k, s) && Held(Regs(a, b, c, d), r, i)
    ensures |T| == 64 && |X| == 16 && i < 64
    ensures Held(Regs(d, v, b, c), StepOf(Patterns(T), Patterns(X), r, i), i + 1)
  {
    assert |T| == 64 && |X| == 16 && i < 64 && k < 16 && s <= 32;
    hide *;
    v := Step(kind, a, b, c, d, X[k], s, T[i], r, Patterns(X)[k], Patterns(T)[i], i);
    StepHeld(a, b, c, d, v, T, X, kind, i, k, s, r);
  }

  lemma StepHeld(a: int, b: int, c: int, d: int, v: int, T: seq<int>, X: seq<int>, kind: Kind, i: nat, k: nat, s: nat, r: Regs<Word>)
    requires Due(T, X, kind, i, k, s) && Held(Regs(a, b, c, d), r, i)
    requires Near(v, Operation(kind, r, Patterns(X)[k], s, Patterns(T)[i]), i + 1)
    ensures Held(Regs(d, v, b, c), StepOf(Patterns(T), Patterns(X), r, i), i + 1)
  {
    hide Bits, Operation;
  }

  // ---------------------------------------------------------------- the 64 statements

  lemma Table1(T: seq<int>, X: seq<int>)
    requires |T| == 64 && |X| == 16 && AllSigned(T) && AllSigned(X)
    ensures Due(T, X, FF, 0, 0, 7) && Due(T, X, FF, 1, 1, 12) && Due(T, X, FF, 2, 2, 17) && Due(T, X, FF, 3, 3, 22)
    ensures Due(T, X, FF, 4, 4, 7) && Due(T, X, FF, 5, 5, 12) && Due(T, X, FF, 6, 6, 17) && Due(T, X, FF, 7, 7, 22)
    ensures Due(T, X, FF, 8, 8, 7) && Due(T, X, FF, 9, 9, 12) && Due(T, X, FF, 10, 10, 17) && Due(T, X, FF, 11, 11, 22)
    ensures Due(T, X, FF, 12, 12, 7) && Due(T, X, FF, 13, 13, 12) && Due(T, X, FF, 14, 14, 17) && Due(T, X, FF, 15, 15, 22)
  {
    hide AllSigned;
  }

  method Round1(T: seq<int>, X: seq<int>, n: Regs<int>, ghost r0: Regs<Word>) returns (out: Regs<int>)
    requires |T| == 64 && |X| == 16 && AllSigned(T) && AllSigned(X)
    requires Held(n, Steps(Patterns(T), Patterns(X), r0, 0), 0)
    ensures Held(out, Steps(Patterns(T), Patterns(X), r0, 16), 16)
  {
    hide *;
    out := n;
    Table1(T, X);
    out := Quad(FF, T, X, out, 0, 0, 7, 1, 12, 2, 17, 3, 22, r0);
    out := Quad(FF, T, X, out, 4, 4, 7, 5, 12, 6, 17, 7, 22, r0);
    out := Quad(FF, T, X, out, 8, 8, 7, 9, 12, 10, 17, 11, 22, r0);
    out := Quad(FF, T, X, out, 12, 12, 7, 13, 12, 14, 17, 15, 22, r0);
  }

  lemma Table2(T: seq<int>, X: seq<int>)
    requires |T| == 64 && |X| == 16 && AllSigned(T) && AllSigned(X)
    ensures Due(T, X, GG, 16, 1, 5) && Due(T, X, GG, 17, 6, 9) && Due(T, X, GG, 18, 11, 14) && Due(T, X, GG, 19, 0, 20)
    ensures Due(T, X, GG, 20, 5, 5) && Due(T, X, GG, 21, 10, 9) && Due(T, X, GG, 22, 15, 14) && Due(T, X, GG, 23, 4, 20)
    ensures Due(T, X, GG, 24, 9, 5) && Due(T, X, GG, 25, 14, 9) && Due(T, X, GG, 26, 3, 14) && Due(T, X, GG, 27, 8, 20)
    ensures Due(T, X, GG, 28, 13, 5) && Due(T, X, GG, 29, 2, 9) && Due(T, X, GG, 30, 7, 14) && Due(T, X, GG, 31, 12, 20)
  {
    hide AllSigned;
  }

  method Round2(T: seq<int>, X: seq<int>, n: Regs<int>, ghost r0: Regs<Word>) returns (out: Regs<int>)
    requires |T| == 64 && |X| == 16 && AllSigned(T) && AllSigned(X)
    requires Held(n, Steps(Patterns(T), Patterns(X), r0, 16), 16)
    ensures Held(out, Steps(Patterns(T), Patterns(X), r0, 32), 32)
  {
    hide *;
    out := n;
    Table2(T, X);
    out := Quad(GG, T, X, out, 16, 1, 5, 6, 9, 11, 14, 0, 20, r0);
    out := Quad(GG, T, X, out, 20, 5, 5, 10, 9, 15, 14, 4, 20, r0);
    out := Quad(GG, T, X, out, 24, 9, 5, 14, 9, 3, 14, 8, 20, r0);
    out := Quad(GG, T, X, out, 28, 13, 5, 2, 9, 7, 14, 12, 20, r0);
  }

  lemma Table3(T: seq<int>, X: seq<int>)
    requires |T| == 64 && |X| == 16 && AllSigned(T) && AllSigned(X)
    ensures Due(T, X, HH, 32, 5, 4) && Due(T, X, HH, 33, 8, 11) && Due(T, X, HH, 34, 11, 16) && Due(T, X, HH, 35, 14, 23)
    ensures Due(T, X, HH, 36, 1, 4) && Due(T, X, HH, 37, 4, 11) && Due(T, X, HH, 38, 7, 16) && Due(T, X, HH, 39, 10, 23)
    ensures Due(T, X, HH, 40, 13, 4) && Due(T, X, HH, 41, 0, 11) && Due(T, X, HH, 42, 3, 16) && Due(T, X, HH, 43, 6, 23)
    ensures Due(T, X, HH, 44, 9, 4) && Due(T, X, HH, 45, 12, 11) && Due(T, X, HH, 46, 15, 16) && Due(T, X, HH, 47, 2, 23)
  {
    hide AllSigned;
  }

  method Round3(T: seq<int>, X: seq<int>, n: Regs<int>, ghost r0: Regs<Word>) returns (out: Regs<int>)
    requires |T| == 64 && |X| == 16 && AllSigned(T) && AllSigned(X)
    requires Held(n, Steps(Patterns(T), Patterns(X), r0, 32), 32)
    ensures Held(out, Steps(Patterns(T), Patterns(X), r0, 48), 48)
  {
    hide *;
    out := n;
    Table3(T, X);
    out := Quad(HH, T, X, out, 32, 5, 4, 8, 11, 11, 16, 14, 23, r0);
    out := Quad(HH, T, X, out, 36, 1, 4, 4, 11, 7, 16, 10, 23, r0);
    out := Quad(HH, T, X, out, 40, 13, 4, 0, 11, 3, 16, 6, 23, r0);
    out := Quad(HH, T, X, out, 44, 9, 4, 12, 11, 15, 16, 2, 23, r0);
  }

  lemma Table4(T: seq<int>, X: seq<int>)
    requires |T| == 64 && |X| == 16 && AllSigned(T) && AllSigned(X)
    ensures Due(T, X, II, 48, 0, 6) && Due(T, X, II, 49, 7, 10) && Due(T, X, II, 50, 14, 15) && Due(T, X, II, 51, 5, 21)
    ensures Due(T, X, II, 52, 12, 6) && Due(T, X, II, 53, 3, 10) && Due(T, X, II, 54, 10, 15) && Due(T, X, II, 55, 1, 21)
    ensures Due(T, X, II, 56, 8, 6) && Due(T, X, II, 57, 15, 10) && Due(T, X, II, 58, 6, 15) && Due(T, X, II, 59, 13, 21)
    ensures Due(T, X, II, 60, 4, 6) && Due(T, X, II, 61, 11, 10) && Due(T, X, II, 62, 2, 15) && Due(T, X, II, 63, 9, 21)
  {
    hide AllSigned;
  }

  method Round4(T: seq<int>, X: seq<int>, n: Regs<int>, ghost r0: Regs<Word>) returns (out: Regs<int>)
    requires |T| == 64 && |X| == 16 && AllSigned(T) && AllSigned(X)
    requires Held(n, Steps(Patterns(T), Patterns(X), r0, 48), 48)
    ensures Held(out, Steps(Patterns(T), Patterns(X), r0, 64), 64)
  {
    hide *;
    out := n;
    Table4(T, X);
    out := Quad(II, T, X, out, 48, 0, 6, 7, 10, 14, 15, 5, 21, r0);
    out := Quad(II, T, X, out, 52, 12, 6, 3, 10, 10, 15, 1, 21, r0);
    out := Quad(II, T, X, out, 56, 8, 6, 15, 10, 6, 15, 13, 21, r0);
    out := Quad(II, T, X, out, 60, 4, 6, 11, 10, 2, 15, 9, 21, r0);
  }

  class Md5 {
    const T: seq<int>
    var hash: seq<int>

    ghost predicate Valid()
      reads this
    {
      |T| == 64 && AllSigned(T) && Initial(hash)
    }

    /** `T` is the sine table computed when the bundle is loaded. */
    constructor (T: seq<int>)
      requires |T| == 64 && AllSigned(T)
      ensures Valid() && this.T == T && hash == [0x67452301, 0xefcdab89, 0x98badcfe, 0x10325476]
    {
      this.T, hash := T, [0x67452301, 0xefcdab89, 0x98badcfe, 0x10325476];
    }

    /** The block of `M` at `offset` is turned to little-endian in place, and stays so. */
    method DoProcessBlock(M: array<Word>, offset: nat)
      requires Valid() && offset + 16 <= M.Length
      modifies this`hash, M
      ensures M[offset..offset + 16] == Reversed(old(M[offset..offset + 16])) && SameOutside(old(M[..]), M[..], offset, 16)
      ensures Valid() && Patterns(hash) == Compress(Patterns(T), Patterns(old(hash)), Reversed(old(M[offset..offset + 16])))
    {
      ghost var X0 := Reversed(M[offset..offset + 16]);
      SwapBlock(M, offset);
      var X := ReadBlock(M, offset);
      Started(hash, Patterns(T), X0);
      assert |hash| == 4 && |T| == 64 && AllSigned(T);
      hide *;
      ghost var r0 := Regs4(Patterns(hash));
      var n := Regs(hash[0], hash[1], hash[2], hash[3]);
      n := Round1(T, X, n, r0);
      n := Round2(T, X, n, r0);
      n := Round3(T, X, n, r0);
      n := Round4(T, X, n, r0);
      SumsFit(hash, n, Patterns(T), X0);
      hash := [CutSum(hash[0], n.a), CutSum(hash[1], n.b), CutSum(hash[2], n.c), CutSum(hash[3], n.d)];
      FittingNumbers(hash, Compress(Patterns(T), Patterns(old(hash)), X0));
      StillValid();
    }

    lemma StillValid()
      requires |hash| == 4 && AllSigned(hash) && |T| == 64 && AllSigned(T)
      ensures Valid()
    {}
  }

  ghost predicate Initial(hash: seq<int>) {
    |hash| == 4 && forall i :: 0 <= i < 4 ==> Within(hash[i], TWO32)
  }

  function Reversed(b: seq<Word>): (r: seq<Word>)
    ensures |r| == |b|
  {
    seq(|b|, i requires 0 <= i < |b| => SwapEndian(b[i]))
  }

  method SwapBlock(M: array<Word>, offset: nat)
    requires offset + 16 <= M.Length
    modifies M
    ensures M[offset..offset + 16] == Reversed(old(M[offset..offset + 16])) && SameOutside(old(M[..]), M[..], offset, 16)
  {
    hide SwapEndian;
    for i := 0 to 16
      invariant forall k :: 0 <= k < M.Length ==>
                  M[k] == if offset <= k < offset + i then SwapEndian(old(M[k])) else old(M[k])
    {
      M[offset + i] := SwapEndian(M[offset + i]);
    }
  }

  /** `M_offset_0` to `M_offset_15`. */
  method ReadBlock(M: array<Word>, offset: nat) returns (X: seq<int>)
    requires offset + 16 <= M.Length
    ensures |X| == 16 && AllSigned(X) && Patterns(X) == M[offset..offset + 16]
  {
    hide Bits, Signed, Fits;
    X := seq(16, i requires 0 <= i < 16 reads M => Signed(M[offset + i]));
    forall i | 0 <= i < 16 ensures Fits(X[i], M[offset + i]) {
      SignedFits(M[offset + i]);
    }
    FittingNumbers(X, M[offset..offset + 16]);
  }

  /** `(x + y) | 0` for Numbers whose sum is exact. */
  function CutSum(x: int, y: int): int
    requires Within(x, TWO32) && Within(y, 66 * TWO31)
  {
    Cut(Plus(x, y))
  }

  lemma Started(hash: seq<int>, T: seq<Word>, X: seq<Word>)
    requires Initial(hash) && |T| == 64 && |X| == 16
    ensures |hash| == 4 && Held(Regs(hash[0], hash[1], hash[2], hash[3]), Steps(T, X, Regs4(Patterns(hash)), 0), 0) && Initial(hash)
  {
    hide Bits;
  }

  ghost predicate AllWithin(h: seq<int>, n: Regs<int>) {
    && Initial(h) && Within(n.a, 66 * TWO31) && Within(n.b, 66 * TWO31) && Within(n.c, 66 * TWO31) && Within(n.d, 66 * TWO31)
  }

  lemma SumsFit(h: seq<int>, n: Regs<int>, T: seq<Word>, X: seq<Word>)
    requires Initial(h) && |T| == 64 && |X| == 16
    requires Held(n, Steps(T, X, Regs4(Patterns(h)), 64), 64)
    ensures AllWithin(h, n)
    ensures AllFit([CutSum(h[0], n.a), CutSum(h[1], n.b), CutSum(h[2], n.c), CutSum(h[3], n.d)], Compress(T, Patterns(h), X))
  {
    hide Bits, Steps, Add2, Cut, Fits;
    var r := Steps(T, X, Regs4(Patterns(h)), 64);
    SumFits(h[0], n.a, r.a); SumFits(h[1], n.b, r.b); SumFits(h[2], n.c, r.c); SumFits(h[3], n.d, r.d);
  }

  lemma SumFits(x: int, y: int, w: Word)
    requires Within(x, TWO32) && Within(y, 66 * TWO31) && Bits(y) == w
    ensures Fits(CutSum(x, y), Add2(Bits(x), w))
  {
    hide Bits, Add2, Signed;
    Sum2(x, y, Bits(x), w);
    CutFits(x + y);
  }
}
