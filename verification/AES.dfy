/** AES: the table-driven rounds of the bundle, the cipher and inverse cipher of FIPS 197, and
    why the former compute the latter. The S-box is any permutation of the bytes. */
module AES {
  import opened WordArrays
  import opened Streaming
  import opened BlockModes

  type Box = Byte -> Byte

  // ---------------------------------------------------------------- bytes

  /** The double table: `i << 1`, reduced by 0x11b from 128 on. */
  function Double(b: Byte): Byte {
    (b << 1) ^ (if b & 0x80 != 0 then 0x1b else 0)
  }

  function Times3(b: Byte): Byte { XorByte(Double(b), b) }

  function Times9(b: Byte): Byte { XorByte(Double(Double(Double(b))), b) }

  function Times11(b: Byte): Byte { XorByte(XorByte(Double(Double(Double(b))), Double(b)), b) }

  function Times13(b: Byte): Byte { XorByte(XorByte(Double(Double(Double(b))), Double(Double(b))), b) }

  function Times14(b: Byte): Byte { XorByte(XorByte(Double(Double(Double(b))), Double(Double(b))), Double(b)) }

  function Sum(a: Byte, b: Byte, c: Byte, d: Byte): Byte {
    XorByte(XorByte(XorByte(a, b), c), d)
  }

  lemma XorComm(a: Byte, b: Byte)
    ensures XorByte(a, b) == XorByte(b, a)
  {}

  lemma XorAssoc(a: Byte, b: Byte, c: Byte)
    ensures XorByte(XorByte(a, b), c) == XorByte(a, XorByte(b, c))
  {}

  lemma XorZero(a: Byte)
    ensures XorByte(a, 0) == a && XorByte(0, a) == a
  {}

  lemma XorSwap(a: Byte, b: Byte, c: Byte, d: Byte)
    ensures XorByte(XorByte(a, b), XorByte(c, d)) == XorByte(XorByte(a, c), XorByte(b, d))
  {
    hide XorByte;
    XorAssoc(a, b, XorByte(c, d));
    XorAssoc(b, c, d);
    XorComm(b, c);
    XorAssoc(c, b, d);
    XorAssoc(a, c, XorByte(b, d));
  }

  lemma SumXor(a: Byte, b: Byte, c: Byte, d: Byte, p: Byte, q: Byte, r: Byte, s: Byte)
    ensures Sum(XorByte(a, p), XorByte(b, q), XorByte(c, r), XorByte(d, s)) == XorByte(Sum(a, b, c, d), Sum(p, q, r, s))
  {
    hide XorByte;
    XorSwap(a, p, b, q);
    XorSwap(XorByte(a, b), XorByte(p, q), c, r);
    XorSwap(XorByte(XorByte(a, b), c), XorByte(XorByte(p, q), r), d, s);
  }

  /** A four-by-four sum may be taken by rows or by columns. */
  lemma SumTransposed(a1: Byte, b1: Byte, c1: Byte, d1: Byte, a2: Byte, b2: Byte, c2: Byte, d2: Byte,
                      a3: Byte, b3: Byte, c3: Byte, d3: Byte, a4: Byte, b4: Byte, c4: Byte, d4: Byte)
    ensures Sum(Sum(a1, b1, c1, d1), Sum(a2, b2, c2, d2), Sum(a3, b3, c3, d3), Sum(a4, b4, c4, d4)) ==
            Sum(Sum(a1, a2, a3, a4), Sum(b1, b2, b3, b4), Sum(c1, c2, c3, c4), Sum(d1, d2, d3, d4))
  {
    var ab1, ab2, ab3, ab4 := XorByte(a1, b1), XorByte(a2, b2), XorByte(a3, b3), XorByte(a4, b4);
    var abc1, abc2, abc3, abc4 := XorByte(ab1, c1), XorByte(ab2, c2), XorByte(ab3, c3), XorByte(ab4, c4);
    SumXor(abc1, abc2, abc3, abc4, d1, d2, d3, d4);
    SumXor(ab1, ab2, ab3, ab4, c1, c2, c3, c4);
    SumXor(a1, a2, a3, a4, b1, b2, b3, b4);
    hide XorByte;
  }

  function Spread(b: Byte): Byte {
    (b << 1) ^ (b >> 7) ^ ((b >> 7) << 1) ^ ((b >> 7) << 3) ^ ((b >> 7) << 4)
  }

  lemma DoubleSpread(b: Byte)
    ensures Double(b) == Spread(b)
  {}

  lemma SpreadXor(a: Byte, b: Byte)
    ensures Spread(a ^ b) == Spread(a) ^ Spread(b)
  {}

  lemma DoubleXor(a: Byte, b: Byte)
    ensures Double(XorByte(a, b)) == XorByte(Double(a), Double(b))
  {
    hide Double, Spread;
    DoubleSpread(a);
    DoubleSpread(b);
    DoubleSpread(XorByte(a, b));
    SpreadXor(a, b);
  }

  lemma TimesXor(a: Byte, b: Byte)
    ensures Times3(XorByte(a, b)) == XorByte(Times3(a), Times3(b))
    ensures Times9(XorByte(a, b)) == XorByte(Times9(a), Times9(b))
    ensures Times11(XorByte(a, b)) == XorByte(Times11(a), Times11(b))
    ensures Times13(XorByte(a, b)) == XorByte(Times13(a), Times13(b))
    ensures Times14(XorByte(a, b)) == XorByte(Times14(a), Times14(b))
  {
    hide XorByte, Double;
    var a2, b2 := Double(a), Double(b);
    var a4, b4 := Double(a2), Double(b2);
    var a8, b8 := Double(a4), Double(b4);
    DoubleXor(a, b);
    DoubleXor(a2, b2);
    DoubleXor(a4, b4);
    XorSwap(a2, b2, a, b);
    XorSwap(a8, b8, a, b);
    XorSwap(a8, b8, a2, b2);
    XorSwap(XorByte(a8, a2), XorByte(b8, b2), a, b);
    XorSwap(a8, b8, a4, b4);
    XorSwap(XorByte(a8, a4), XorByte(b8, b4), a, b);
    XorSwap(XorByte(a8, a4), XorByte(b8, b4), a2, b2);
  }

  lemma TimesSum(a: Byte, b: Byte, c: Byte, d: Byte)
    ensures Times9(Sum(a, b, c, d)) == Sum(Times9(a), Times9(b), Times9(c), Times9(d))
    ensures Times11(Sum(a, b, c, d)) == Sum(Times11(a), Times11(b), Times11(c), Times11(d))
    ensures Times13(Sum(a, b, c, d)) == Sum(Times13(a), Times13(b), Times13(c), Times13(d))
    ensures Times14(Sum(a, b, c, d)) == Sum(Times14(a), Times14(b), Times14(c), Times14(d))
  {
    TimesXor(a, b);
    TimesXor(XorByte(a, b), c);
    TimesXor(XorByte(XorByte(a, b), c), d);
    hide XorByte, Times9, Times11, Times13, Times14;
  }

  lemma Products(a: Byte)
    ensures Sum(Times14(Double(a)), Times11(a), Times13(a), Times9(Times3(a))) == a
    ensures Sum(Times14(Times3(a)), Times11(Double(a)), Times13(a), Times9(a)) == 0
    ensures Sum(Times14(a), Times11(Times3(a)), Times13(Double(a)), Times9(a)) == 0
    ensures Sum(Times14(a), Times11(a), Times13(Times3(a)), Times9(Double(a))) == 0
  {
    Product2(a);
  }

  lemma Product2(a: Byte)
    ensures Sum(Times14(Times3(a)), Times11(Double(a)), Times13(a), Times9(a)) == 0
  {}

  lemma SumRotate(a: Byte, b: Byte, c: Byte, d: Byte)
    ensures Sum(a, b, c, d) == Sum(b, c, d, a)
  {
    hide XorByte;
    XorAssoc(a, b, c);
    XorAssoc(a, XorByte(b, c), d);
    XorComm(a, XorByte(XorByte(b, c), d));
  }

  lemma SumZero(a: Byte)
    ensures Sum(a, 0, 0, 0) == a
  {
    hide XorByte;
    XorZero(a);
  }

  // ---------------------------------------------------------------- columns

  datatype Col = Col(b0: Byte, b1: Byte, b2: Byte, b3: Byte)

  function ColOf(w: Word): Col {
    Col(ByteOf(w, 0), ByteOf(w, 1), ByteOf(w, 2), ByteOf(w, 3))
  }

  function WordOf(c: Col): Word {
    PackWord(c.b0, c.b1, c.b2, c.b3)
  }

  function AddCol(c: Col, d: Col): Col {
    Col(XorByte(c.b0, d.b0), XorByte(c.b1, d.b1), XorByte(c.b2, d.b2), XorByte(c.b3, d.b3))
  }

  function MixCol(c: Col): Col {
    Col(Sum(Double(c.b0), Times3(c.b1), c.b2, c.b3), Sum(c.b0, Double(c.b1), Times3(c.b2), c.b3),
        Sum(c.b0, c.b1, Double(c.b2), Times3(c.b3)), Sum(Times3(c.b0), c.b1, c.b2, Double(c.b3)))
  }

  function InvMixCol(c: Col): Col {
    Col(Sum(Times14(c.b0), Times11(c.b1), Times13(c.b2), Times9(c.b3)), Sum(Times9(c.b0), Times14(c.b1), Times11(c.b2), Times13(c.b3)),
        Sum(Times13(c.b0), Times9(c.b1), Times14(c.b2), Times11(c.b3)), Sum(Times11(c.b0), Times13(c.b1), Times9(c.b2), Times14(c.b3)))
  }

  lemma FirstByteBack(a: Byte, b: Byte, c: Byte, d: Byte)
    ensures Sum(Times14(Sum(Double(a), Times3(b), c, d)), Times11(Sum(a, Double(b), Times3(c), d)),
                Times13(Sum(a, b, Double(c), Times3(d))), Times9(Sum(Times3(a), b, c, Double(d)))) == a
  {
    hide Sum, Double, Times3, Times9, Times11, Times13, Times14;
    TimesSum(Double(a), Times3(b), c, d);
    TimesSum(a, Double(b), Times3(c), d);
    TimesSum(a, b, Double(c), Times3(d));
    TimesSum(Times3(a), b, c, Double(d));
    SumTransposed(Times14(Double(a)), Times14(Times3(b)), Times14(c), Times14(d),
                  Times11(a), Times11(Double(b)), Times11(Times3(c)), Times11(d),
                  Times13(a), Times13(b), Times13(Double(c)), Times13(Times3(d)),
                  Times9(Times3(a)), Times9(b), Times9(c), Times9(Double(d)));
    Products(a);
    Products(b);
    Products(c);
    Products(d);
    SumZero(a);
  }

  /** InvMixColumns undoes MixColumns. */
  lemma MixUndone(c: Col)
    ensures InvMixCol(MixCol(c)) == c
  {
    hide Sum, Double, Times3, Times9, Times11, Times13, Times14;
    var m := MixCol(c);
    FirstByteBack(c.b0, c.b1, c.b2, c.b3);
    FirstByteBack(c.b1, c.b2, c.b3, c.b0);
    FirstByteBack(c.b2, c.b3, c.b0, c.b1);
    FirstByteBack(c.b3, c.b0, c.b1, c.b2);
    MixRotations(c.b0, c.b1, c.b2, c.b3);
    RowRotations(m);
  }

  /** Each byte of a mixed column is the first byte of the column rotated. */
  lemma MixRotations(a: Byte, b: Byte, c: Byte, d: Byte)
    ensures Sum(a, Double(b), Times3(c), d) == Sum(Double(b), Times3(c), d, a) == Sum(d, a, Double(b), Times3(c)) == Sum(Times3(c), d, a, Double(b))
    ensures Sum(a, b, Double(c), Times3(d)) == Sum(Double(c), Times3(d), a, b) == Sum(b, Double(c), Times3(d), a) == Sum(Times3(d), a, b, Double(c))
    ensures Sum(Times3(a), b, c, Double(d)) == Sum(Double(d), Times3(a), b, c) == Sum(b, c, Double(d), Times3(a)) == Sum(c, Double(d), Times3(a), b)
    ensures Sum(Double(a), Times3(b), c, d) == Sum(d, Double(a), Times3(b), c) == Sum(c, d, Double(a), Times3(b)) == Sum(Times3(b), c, d, Double(a))
  {
    hide *;
    AllRotations(a, Double(b), Times3(c), d);
    AllRotations(a, b, Double(c), Times3(d));
    AllRotations(Times3(a), b, c, Double(d));
    AllRotations(Double(a), Times3(b), c, d);
  }

  lemma AllRotations(a: Byte, b: Byte, c: Byte, d: Byte)
    ensures Sum(a, b, c, d) == Sum(b, c, d, a) == Sum(c, d, a, b) == Sum(d, a, b, c)
  {
    hide *;
    SumRotate(a, b, c, d);
    SumRotate(b, c, d, a);
    SumRotate(c, d, a, b);
  }

  lemma RowRotations(m: Col)
    ensures Sum(Times9(m.b0), Times14(m.b1), Times11(m.b2), Times13(m.b3)) == Sum(Times14(m.b1), Times11(m.b2), Times13(m.b3), Times9(m.b0))
    ensures Sum(Times13(m.b0), Times9(m.b1), Times14(m.b2), Times11(m.b3)) == Sum(Times14(m.b2), Times11(m.b3), Times13(m.b0), Times9(m.b1))
    ensures Sum(Times11(m.b0), Times13(m.b1), Times9(m.b2), Times14(m.b3)) == Sum(Times14(m.b3), Times11(m.b0), Times13(m.b1), Times9(m.b2))
  {
    hide *;
    AllRotations(Times9(m.b0), Times14(m.b1), Times11(m.b2), Times13(m.b3));
    AllRotations(Times13(m.b0), Times9(m.b1), Times14(m.b2), Times11(m.b3));
    AllRotations(Times11(m.b0), Times13(m.b1), Times9(m.b2), Times14(m.b3));
  }

  /** InvMixColumns distributes over AddRoundKey, which is what the reordered inverse key
      schedule relies on. */
  lemma InvMixAdds(c: Col, d: Col)
    ensures InvMixCol(AddCol(c, d)) == AddCol(InvMixCol(c), InvMixCol(d))
  {
    hide XorByte, Sum, Times9, Times11, Times13, Times14;
    TimesXor(c.b0, d.b0);
    TimesXor(c.b1, d.b1);
    TimesXor(c.b2, d.b2);
    TimesXor(c.b3, d.b3);
    SumXor(Times14(c.b0), Times11(c.b1), Times13(c.b2), Times9(c.b3), Times14(d.b0), Times11(d.b1), Times13(d.b2), Times9(d.b3));
    SumXor(Times9(c.b0), Times14(c.b1), Times11(c.b2), Times13(c.b3), Times9(d.b0), Times14(d.b1), Times11(d.b2), Times13(d.b3));
    SumXor(Times13(c.b0), Times9(c.b1), Times14(c.b2), Times11(c.b3), Times13(d.b0), Times9(d.b1), Times14(d.b2), Times11(d.b3));
    SumXor(Times11(c.b0), Times13(c.b1), Times9(c.b2), Times14(c.b3), Times11(d.b0), Times13(d.b1), Times9(d.b2), Times14(d.b3));
  }

  lemma AddColTwice(c: Col, d: Col)
    ensures AddCol(AddCol(c, d), d) == c
  {
    hide XorByte;
    XorBack(c.b0, d.b0);
    XorBack(c.b1, d.b1);
    XorBack(c.b2, d.b2);
    XorBack(c.b3, d.b3);
  }

  // ---------------------------------------------------------------- blocks

  /** The state: four columns. */
  datatype Blk = Blk(c0: Col, c1: Col, c2: Col, c3: Col)

  datatype Direction = Forward | Backward

  function SubCol(box: Box, c: Col): Col {
    Col(box(c.b0), box(c.b1), box(c.b2), box(c.b3))
  }

  function SubBytes(box: Box, b: Blk): Blk {
    Blk(SubCol(box, b.c0), SubCol(box, b.c1), SubCol(box, b.c2), SubCol(box, b.c3))
  }

  function ShiftRows(b: Blk): Blk {
    Blk(Col(b.c0.b0, b.c1.b1, b.c2.b2, b.c3.b3), Col(b.c1.b0, b.c2.b1, b.c3.b2, b.c0.b3),
        Col(b.c2.b0, b.c3.b1, b.c0.b2, b.c1.b3), Col(b.c3.b0, b.c0.b1, b.c1.b2, b.c2.b3))
  }

  function InvShiftRows(b: Blk): Blk {
    Blk(Col(b.c0.b0, b.c3.b1, b.c2.b2, b.c1.b3), Col(b.c1.b0, b.c0.b1, b.c3.b2, b.c2.b3),
        Col(b.c2.b0, b.c1.b1, b.c0.b2, b.c3.b3), Col(b.c3.b0, b.c2.b1, b.c1.b2, b.c0.b3))
  }

  function MixOne(dir: Direction, c: Col): Col {
    if dir == Forward then MixCol(c) else InvMixCol(c)
  }

  function MixColumns(dir: Direction, b: Blk): Blk {
    Blk(MixOne(dir, b.c0), MixOne(dir, b.c1), MixOne(dir, b.c2), MixOne(dir, b.c3))
  }

  function AddRoundKey(b: Blk, k: Blk): Blk {
    Blk(AddCol(b.c0, k.c0), AddCol(b.c1, k.c1), AddCol(b.c2, k.c2), AddCol(b.c3, k.c3))
  }

  /** Columns 1 and 3 exchanged. */
  function Swapped(b: Blk): Blk {
    Blk(b.c0, b.c3, b.c2, b.c1)
  }

  ghost predicate Boxes(box: Box, inv: Box) {
    forall x: Byte {:trigger box(x)} :: inv(box(x)) == x
  }

  lemma AddTwice(b: Blk, k: Blk)
    ensures AddRoundKey(AddRoundKey(b, k), k) == b
  {
    hide AddCol;
    AddColTwice(b.c0, k.c0);
    AddColTwice(b.c1, k.c1);
    AddColTwice(b.c2, k.c2);
    AddColTwice(b.c3, k.c3);
  }

  lemma StepsUndone(box: Box, inv: Box, b: Blk)
    requires Boxes(box, inv)
    ensures SubBytes(inv, InvShiftRows(ShiftRows(SubBytes(box, b)))) == b
    ensures MixColumns(Backward, MixColumns(Forward, b)) == b
  {
    hide MixCol, InvMixCol;
    MixUndone(b.c0);
    MixUndone(b.c1);
    MixUndone(b.c2);
    MixUndone(b.c3);
  }

  /** Forward row shifts on swapped columns are backward row shifts. */
  lemma SwapShifts(inv: Box, b: Blk)
    ensures ShiftRows(SubBytes(inv, Swapped(b))) == Swapped(SubBytes(inv, InvShiftRows(b)))
  {}

  lemma MixAdds(b: Blk, k: Blk)
    ensures MixColumns(Backward, AddRoundKey(b, k)) == AddRoundKey(MixColumns(Backward, b), MixColumns(Backward, k))
  {
    hide AddCol, InvMixCol;
    InvMixAdds(b.c0, k.c0);
    InvMixAdds(b.c1, k.c1);
    InvMixAdds(b.c2, k.c2);
    InvMixAdds(b.c3, k.c3);
  }

  // ---------------------------------------------------------------- FIPS 197

  /** Section 5.1, after `r` full rounds. */
  function CipherState(box: Box, keys: seq<Blk>, b: Blk, r: nat): Blk
    requires r < |keys|
  {
    if r == 0 then AddRoundKey(b, keys[0])
    else AddRoundKey(MixColumns(Forward, ShiftRows(SubBytes(box, CipherState(box, keys, b, r - 1)))), keys[r])
  }

  function Cipher(box: Box, keys: seq<Blk>, b: Blk): Blk
    requires |keys| >= 2
  {
    AddRoundKey(ShiftRows(SubBytes(box, CipherState(box, keys, b, |keys| - 2))), keys[|keys| - 1])
  }

  /** Section 5.3, after `r` full inverse rounds. */
  function InvCipherState(inv: Box, keys: seq<Blk>, b: Blk, r: nat): Blk
    requires r < |keys|
  {
    if r == 0 then AddRoundKey(b, keys[|keys| - 1])
    else MixColumns(Backward, AddRoundKey(SubBytes(inv, InvShiftRows(InvCipherState(inv, keys, b, r - 1))), keys[|keys| - 1 - r]))
  }

  function InvCipher(inv: Box, keys: seq<Blk>, b: Blk): Blk
    requires |keys| >= 2
  {
    AddRoundKey(SubBytes(inv, InvShiftRows(InvCipherState(inv, keys, b, |keys| - 2))), keys[0])
  }

  lemma {:induction false} InverseRounds(box: Box, inv: Box, keys: seq<Blk>, b: Blk, r: nat)
    requires |keys| >= 2 && Boxes(box, inv) && r <= |keys| - 2
    ensures SubBytes(inv, InvShiftRows(InvCipherState(inv, keys, Cipher(box, keys, b), r))) == CipherState(box, keys, b, |keys| - 2 - r)
  {
    hide SubBytes, ShiftRows, InvShiftRows, MixColumns, AddRoundKey, Boxes;
    var n := |keys| - 1;
    var c := Cipher(box, keys, b);
    if r == 0 {
      var last := CipherState(box, keys, b, n - 1);
      AddTwice(ShiftRows(SubBytes(box, last)), keys[n]);
      StepsUndone(box, inv, last);
    } else {
      InverseRounds(box, inv, keys, b, r - 1);
      var before := CipherState(box, keys, b, n - 1 - r);
      var shifted := ShiftRows(SubBytes(box, before));
      AddTwice(MixColumns(Forward, shifted), keys[n - r]);
      StepsUndone(box, inv, shifted);
      StepsUndone(box, inv, before);
    }
  }

  /** The inverse cipher undoes the cipher, for every number of rounds and every round keys. */
  lemma CipherUndone(box: Box, inv: Box, keys: seq<Blk>, b: Blk)
    requires |keys| >= 2 && Boxes(box, inv)
    ensures InvCipher(inv, keys, Cipher(box, keys, b)) == b
  {
    hide SubBytes, ShiftRows, InvShiftRows, MixColumns, AddRoundKey, Boxes;
    InverseRounds(box, inv, keys, b, |keys| - 2);
    AddTwice(b, keys[0]);
  }

  // ---------------------------------------------------------------- the bundle's rounds

  /** `_doCryptBlock` after `r` rounds: one routine for both directions. */
  function CryptState(dir: Direction, box: Box, keys: seq<Blk>, b: Blk, r: nat): Blk
    requires r < |keys|
  {
    if r == 0 then AddRoundKey(b, keys[0])
    else AddRoundKey(MixColumns(dir, ShiftRows(SubBytes(box, CryptState(dir, box, keys, b, r - 1)))), keys[r])
  }

  function Crypt(dir: Direction, box: Box, keys: seq<Blk>, b: Blk): Blk
    requires |keys| >= 2
  {
    AddRoundKey(ShiftRows(SubBytes(box, CryptState(dir, box, keys, b, |keys| - 2))), keys[|keys| - 1])
  }

  lemma {:induction false} ForwardIsCipher(box: Box, keys: seq<Blk>, b: Blk, r: nat)
    requires r < |keys|
    ensures CryptState(Forward, box, keys, b, r) == CipherState(box, keys, b, r)
  {
    hide SubBytes, ShiftRows, MixColumns, AddRoundKey;
    if r > 0 { ForwardIsCipher(box, keys, b, r - 1); }
  }

  /** The inverse key schedule: round keys backward, columns swapped, all but the outer two
      through InvMixColumns. */
  ghost predicate InverseKeys(keys: seq<Blk>, ikeys: seq<Blk>) {
    && |ikeys| == |keys| >= 2
    && ikeys[0] == Swapped(keys[|keys| - 1])
    && ikeys[|keys| - 1] == Swapped(keys[0])
    && forall r: nat :: 0 < r < |keys| - 1 ==> ikeys[r] == Swapped(MixColumns(Backward, keys[|keys| - 1 - r]))
  }

  lemma SwapDistributes(b: Blk, k: Blk)
    ensures AddRoundKey(Swapped(b), Swapped(k)) == Swapped(AddRoundKey(b, k))
    ensures MixColumns(Backward, Swapped(b)) == Swapped(MixColumns(Backward, b))
    ensures Swapped(Swapped(b)) == b
  {
    hide AddCol, InvMixCol;
  }

  lemma {:induction false} BackwardRounds(inv: Box, keys: seq<Blk>, ikeys: seq<Blk>, b: Blk, r: nat)
    requires InverseKeys(keys, ikeys) && r <= |keys| - 2
    ensures CryptState(Backward, inv, ikeys, Swapped(b), r) == Swapped(InvCipherState(inv, keys, b, r))
  {
    hide SubBytes, ShiftRows, InvShiftRows, MixColumns, AddRoundKey, Swapped;
    var n := |keys| - 1;
    if r == 0 {
      SwapDistributes(b, keys[n]);
    } else {
      BackwardRounds(inv, keys, ikeys, b, r - 1);
      var before := InvCipherState(inv, keys, b, r - 1);
      var x, k := SubBytes(inv, InvShiftRows(before)), keys[n - r];
      SwapShifts(inv, before);
      SwapDistributes(x, k);
      SwapDistributes(MixColumns(Backward, x), MixColumns(Backward, k));
      MixAdds(x, k);
    }
  }

  /** The forward routine on swapped columns with the inverse key schedule is the inverse
      cipher (the equivalent inverse cipher of section 5.3.5). */
  lemma BackwardIsInvCipher(inv: Box, keys: seq<Blk>, ikeys: seq<Blk>, b: Blk)
    requires InverseKeys(keys, ikeys)
    ensures Swapped(Crypt(Backward, inv, ikeys, Swapped(b))) == InvCipher(inv, keys, b)
  {
    hide SubBytes, ShiftRows, InvShiftRows, MixColumns, AddRoundKey, Swapped;
    var n := |keys| - 1;
    BackwardRounds(inv, keys, ikeys, b, n - 1);
    var last := InvCipherState(inv, keys, b, n - 1);
    SwapShifts(inv, last);
    SwapDistributes(SubBytes(inv, InvShiftRows(last)), keys[0]);
    SwapDistributes(InvCipher(inv, keys, b), keys[0]);
  }

  // ---------------------------------------------------------------- look-up tables

  function By101(v: Byte): Word { (v as Word) * 0x101 }

  function By10001(v: Byte): Word { (v as Word) * 0x1_0001 }

  function By1010100(v: Byte): Word { (v as Word) * 0x101_0100 }

  function By1010101(v: Byte): Word { (v as Word) * 0x101_0101 }

  /** `t` of the table computation, before it is rotated into the four tables. The backward
      tables are indexed by the substituted byte, so their entry starts from `box(x)` too. */
  function TableWord(dir: Direction, v: Byte): Word {
    if dir == Forward then Xor(By101(Double(v)), By1010100(v))
    else
      var v2 := Double(v);
      var v4 := Double(v2);
      var v8 := Double(v4);
      Xor(Xor(Xor(By1010101(v8), By10001(v4)), By101(v2)), By1010100(v))
  }

  function Rotated(t: Word, k: nat): Word {
    if k == 0 then (t << 24) | (t >> 8)
    else if k == 1 then (t << 16) | (t >> 16)
    else if k == 2 then (t << 8) | (t >> 24)
    else t
  }

  function Table(dir: Direction, box: Box, k: nat, x: Byte): Word {
    Rotated(TableWord(dir, box(x)), k)
  }

  lemma By101Bytes(v: Byte)
    ensures ColOf(By101(v)) == Col(0, 0, v, v)
  {}

  lemma By10001Bytes(v: Byte)
    ensures ColOf(By10001(v)) == Col(0, v, 0, v)
  {}

  lemma By1010100Bytes(v: Byte)
    ensures ColOf(By1010100(v)) == Col(v, v, v, 0)
  {}

  lemma By1010101Bytes(v: Byte)
    ensures ColOf(By1010101(v)) == Col(v, v, v, v)
  {}

  lemma XorCols(v: Word, w: Word)
    ensures ColOf(Xor(v, w)) == AddCol(ColOf(v), ColOf(w))
  {
    hide ByteOf, Xor, XorByte;
    XorBytes(v, w, 0);
    XorBytes(v, w, 1);
    XorBytes(v, w, 2);
    XorBytes(v, w, 3);
  }

  lemma TableBytes(dir: Direction, v: Byte)
    ensures ColOf(TableWord(dir, v)) == if dir == Forward then Col(v, v, Times3(v), Double(v)) else Col(Times9(v), Times13(v), Times11(v), Times14(v))
  {
    var v2 := Double(v);
    var v4 := Double(v2);
    var v8 := Double(v4);
    By101Bytes(v2);
    By1010100Bytes(v);
    By10001Bytes(v4);
    By1010101Bytes(v8);
    var a := By1010101(v8);
    var b := Xor(a, By10001(v4));
    var c := Xor(b, By101(v2));
    XorCols(By101(v2), By1010100(v));
    XorCols(a, By10001(v4));
    XorCols(b, By101(v2));
    XorCols(c, By1010100(v));
    XorZero(v);
    XorZero(v2);
    XorZero(v8);
    XorZero(XorByte(v8, v4));
    XorZero(XorByte(v8, v2));
    XorZero(XorByte(XorByte(v8, v4), v2));
    hide ColOf, Xor, XorByte, Double, By101, By10001, By1010100, By1010101;
  }

  function RotatedCol(c: Col, k: nat): Col {
    if k == 0 then Col(c.b3, c.b0, c.b1, c.b2)
    else if k == 1 then Col(c.b2, c.b3, c.b0, c.b1)
    else if k == 2 then Col(c.b1, c.b2, c.b3, c.b0)
    else c
  }

  lemma RotatedBytes0(t: Word)
    ensures ColOf((t << 24) | (t >> 8)) == RotatedCol(ColOf(t), 0)
  {}

  lemma RotatedBytes1(t: Word)
    ensures ColOf((t << 16) | (t >> 16)) == RotatedCol(ColOf(t), 1)
  {}

  lemma RotatedBytes2(t: Word)
    ensures ColOf((t << 8) | (t >> 24)) == RotatedCol(ColOf(t), 2)
  {}

  lemma RotatedBytes(t: Word, k: nat)
    ensures ColOf(Rotated(t, k)) == RotatedCol(ColOf(t), k)
  {
    RotatedBytes0(t);
    RotatedBytes1(t);
    RotatedBytes2(t);
    hide ColOf;
  }

  /** The four look-ups of one output column, XOR-ed. */
  function Mixed(dir: Direction, box: Box, x0: Byte, x1: Byte, x2: Byte, x3: Byte): Word {
    Xor(Xor(Xor(Table(dir, box, 0, x0), Table(dir, box, 1, x1)), Table(dir, box, 2, x2)), Table(dir, box, 3, x3))
  }

  lemma TableCols(dir: Direction, box: Box, x: Byte)
    ensures var v := box(x);
            if dir == Forward then
              && ColOf(Table(dir, box, 0, x)) == Col(Double(v), v, v, Times3(v)) && ColOf(Table(dir, box, 1, x)) == Col(Times3(v), Double(v), v, v)
              && ColOf(Table(dir, box, 2, x)) == Col(v, Times3(v), Double(v), v) && ColOf(Table(dir, box, 3, x)) == Col(v, v, Times3(v), Double(v))
            else
              && ColOf(Table(dir, box, 0, x)) == Col(Times14(v), Times9(v), Times13(v), Times11(v))
              && ColOf(Table(dir, box, 1, x)) == Col(Times11(v), Times14(v), Times9(v), Times13(v))
              && ColOf(Table(dir, box, 2, x)) == Col(Times13(v), Times11(v), Times14(v), Times9(v))
              && ColOf(Table(dir, box, 3, x)) == Col(Times9(v), Times13(v), Times11(v), Times14(v))
  {
    hide ColOf, TableWord, Rotated, Double, Times3, Times9, Times11, Times13, Times14;
    var t := TableWord(dir, box(x));
    TableBytes(dir, box(x));
    RotatedBytes(t, 0);
    RotatedBytes(t, 1);
    RotatedBytes(t, 2);
    RotatedBytes(t, 3);
  }

  /** Four look-ups substitute and mix one column. */
  lemma MixedCol(dir: Direction, box: Box, x0: Byte, x1: Byte, x2: Byte, x3: Byte)
    ensures ColOf(Mixed(dir, box, x0, x1, x2, x3)) == MixOne(dir, Col(box(x0), box(x1), box(x2), box(x3)))
  {
    hide ColOf, Table, Xor, XorByte, Double, Times3, Times9, Times11, Times13, Times14;
    var a, b, c, d := Table(dir, box, 0, x0), Table(dir, box, 1, x1), Table(dir, box, 2, x2), Table(dir, box, 3, x3);
    TableCols(dir, box, x0);
    TableCols(dir, box, x1);
    TableCols(dir, box, x2);
    TableCols(dir, box, x3);
    XorCols(a, b);
    XorCols(Xor(a, b), c);
    XorCols(Xor(Xor(a, b), c), d);
  }

  // ---------------------------------------------------------------- the block routine

  function BlkOf(ws: seq<Word>, k: nat): Blk
    requires k + 4 <= |ws|
  {
    Blk(ColOf(ws[k]), ColOf(ws[k + 1]), ColOf(ws[k + 2]), ColOf(ws[k + 3]))
  }

  /** The round keys in a schedule of words. */
  function RoundKeys(ks: seq<Word>): (r: seq<Blk>)
    requires |ks| % 4 == 0
    ensures |r| == |ks| / 4
  {
    seq(|ks| / 4, r requires 0 <= r < |ks| / 4 => BlkOf(ks, 4 * r))
  }

  /** One column of a full round, then of the last one. */
  function RoundWord(dir: Direction, box: Box, a: Word, b: Word, c: Word, d: Word, k: Word): Word {
    Xor(Mixed(dir, box, ByteOf(a, 0), ByteOf(b, 1), ByteOf(c, 2), ByteOf(d, 3)), k)
  }

  function LastWord(box: Box, a: Word, b: Word, c: Word, d: Word, k: Word): Word {
    Xor(PackWord(box(ByteOf(a, 0)), box(ByteOf(b, 1)), box(ByteOf(c, 2)), box(ByteOf(d, 3))), k)
  }

  lemma RoundWordCol(dir: Direction, box: Box, a: Word, b: Word, c: Word, d: Word, k: Word)
    ensures ColOf(RoundWord(dir, box, a, b, c, d, k)) ==
            AddCol(MixOne(dir, Col(box(ByteOf(a, 0)), box(ByteOf(b, 1)), box(ByteOf(c, 2)), box(ByteOf(d, 3)))), ColOf(k))
  {
    hide ByteOf, Mixed, Xor, XorByte, ColOf, MixOne;
    MixedCol(dir, box, ByteOf(a, 0), ByteOf(b, 1), ByteOf(c, 2), ByteOf(d, 3));
    XorCols(Mixed(dir, box, ByteOf(a, 0), ByteOf(b, 1), ByteOf(c, 2), ByteOf(d, 3)), k);
  }

  lemma PackCol(a: Byte, b: Byte, c: Byte, d: Byte)
    ensures ColOf(PackWord(a, b, c, d)) == Col(a, b, c, d)
  {
    PackedBytes(a, b, c, d);
    hide ByteOf, PackWord;
  }

  lemma LastWordCol(box: Box, a: Word, b: Word, c: Word, d: Word, k: Word)
    ensures ColOf(LastWord(box, a, b, c, d, k)) ==
            AddCol(Col(box(ByteOf(a, 0)), box(ByteOf(b, 1)), box(ByteOf(c, 2)), box(ByteOf(d, 3))), ColOf(k))
  {
    hide ByteOf, PackWord, Xor, XorByte, ColOf;
    PackCol(box(ByteOf(a, 0)), box(ByteOf(b, 1)), box(ByteOf(c, 2)), box(ByteOf(d, 3)));
    XorCols(PackWord(box(ByteOf(a, 0)), box(ByteOf(b, 1)), box(ByteOf(c, 2)), box(ByteOf(d, 3))), k);
  }

  /** t0 to t3 of a round from s0 to s3 and four schedule words. */
  function RoundWords(dir: Direction, box: Box, s: seq<Word>, k: seq<Word>): (t: seq<Word>)
    requires |s| == 4 && |k| == 4
    ensures |t| == 4
  {
    [RoundWord(dir, box, s[0], s[1], s[2], s[3], k[0]), RoundWord(dir, box, s[1], s[2], s[3], s[0], k[1]),
     RoundWord(dir, box, s[2], s[3], s[0], s[1], k[2]), RoundWord(dir, box, s[3], s[0], s[1], s[2], k[3])]
  }

  function LastWords(box: Box, s: seq<Word>, k: seq<Word>): (t: seq<Word>)
    requires |s| == 4 && |k| == 4
    ensures |t| == 4
  {
    [LastWord(box, s[0], s[1], s[2], s[3], k[0]), LastWord(box, s[1], s[2], s[3], s[0], k[1]),
     LastWord(box, s[2], s[3], s[0], s[1], k[2]), LastWord(box, s[3], s[0], s[1], s[2], k[3])]
  }

  function FirstWords(m: seq<Word>, k: seq<Word>): (t: seq<Word>)
    requires |m| == 4 && |k| == 4
    ensures |t| == 4
  {
    [Xor(m[0], k[0]), Xor(m[1], k[1]), Xor(m[2], k[2]), Xor(m[3], k[3])]
  }

  lemma RoundBlk(dir: Direction, box: Box, s: seq<Word>, k: seq<Word>)
    requires |s| == 4 && |k| == 4
    ensures BlkOf(RoundWords(dir, box, s, k), 0) == AddRoundKey(MixColumns(dir, ShiftRows(SubBytes(box, BlkOf(s, 0)))), BlkOf(k, 0))
  {
    hide RoundWord, MixOne, AddCol, ByteOf;
    RoundWordCol(dir, box, s[0], s[1], s[2], s[3], k[0]);
    RoundWordCol(dir, box, s[1], s[2], s[3], s[0], k[1]);
    RoundWordCol(dir, box, s[2], s[3], s[0], s[1], k[2]);
    RoundWordCol(dir, box, s[3], s[0], s[1], s[2], k[3]);
  }

  lemma LastBlk(box: Box, s: seq<Word>, k: seq<Word>)
    requires |s| == 4 && |k| == 4
    ensures BlkOf(LastWords(box, s, k), 0) == AddRoundKey(ShiftRows(SubBytes(box, BlkOf(s, 0))), BlkOf(k, 0))
  {
    hide LastWord, AddCol, ByteOf;
    LastWordCol(box, s[0], s[1], s[2], s[3], k[0]);
    LastWordCol(box, s[1], s[2], s[3], s[0], k[1]);
    LastWordCol(box, s[2], s[3], s[0], s[1], k[2]);
    LastWordCol(box, s[3], s[0], s[1], s[2], k[3]);
  }

  lemma FirstBlk(m: seq<Word>, k: seq<Word>)
    requires |m| == 4 && |k| == 4
    ensures BlkOf(FirstWords(m, k), 0) == AddRoundKey(BlkOf(m, 0), BlkOf(k, 0))
  {
    hide Xor, AddCol, ColOf;
    XorCols(m[0], k[0]);
    XorCols(m[1], k[1]);
    XorCols(m[2], k[2]);
    XorCols(m[3], k[3]);
  }

  lemma RoundKeyAt(ks: seq<Word>, r: nat)
    requires |ks| % 4 == 0 && 4 * r + 4 <= |ks|
    ensures RoundKeys(ks)[r] == BlkOf(ks[4 * r..4 * r + 4], 0)
  {
    hide ColOf;
  }

  /** The rounds of `_doCryptBlock` on the four words of a block. */
  method CryptWords(m: seq<Word>, nRounds: nat, ks: seq<Word>, dir: Direction, box: Box) returns (t: seq<Word>)
    requires |m| == 4 && nRounds >= 1 && |ks| == 4 * (nRounds + 1)
    ensures |t| == 4 && BlkOf(t, 0) == Crypt(dir, box, RoundKeys(ks), BlkOf(m, 0))
  {
    hide ColOf, AddRoundKey, MixColumns, ShiftRows, SubBytes, RoundWords, LastWords, FirstWords, BlkOf, RoundKeys;
    ghost var keys, b := RoundKeys(ks), BlkOf(m, 0);
    var s := FirstWords(m, ks[0..4]);
    FirstBlk(m, ks[0..4]);
    RoundKeyAt(ks, 0);
    var ksRow := 4;
    for round := 1 to nRounds
      invariant ksRow == 4 * round && |s| == 4
      invariant BlkOf(s, 0) == CryptState(dir, box, keys, b, round - 1)
    {
      RoundBlk(dir, box, s, ks[ksRow..ksRow + 4]);
      RoundKeyAt(ks, round);
      s := RoundWords(dir, box, s, ks[ksRow..ksRow + 4]);
      ksRow := ksRow + 4;
    }
    LastBlk(box, s, ks[ksRow..ksRow + 4]);
    RoundKeyAt(ks, nRounds);
    t := LastWords(box, s, ks[ksRow..ksRow + 4]);
  }

  /** `_doCryptBlock` on the block at `offset`. */
  method DoCryptBlock(M: array<Word>, offset: nat, nRounds: nat, ks: seq<Word>, dir: Direction, box: Box)
    requires offset + 4 <= M.Length && nRounds >= 1 && |ks| == 4 * (nRounds + 1)
    modifies M
    ensures BlkOf(M[..], offset) == Crypt(dir, box, RoundKeys(ks), old(BlkOf(M[..], offset)))
    ensures forall i :: 0 <= i < M.Length && !(offset <= i < offset + 4) ==> M[i] == old(M[i])
  {
    hide Crypt, RoundKeys, ColOf;
    var t := CryptWords(M[offset..offset + 4], nRounds, ks, dir, box);
    M[offset], M[offset + 1], M[offset + 2], M[offset + 3] := t[0], t[1], t[2], t[3];
  }

  // ---------------------------------------------------------------- key schedule

  /** Round constants of section 5.2: powers of x. */
  function Rcon(i: nat): Byte
  {
    if i == 0 then 0 else if i == 1 then 1 else Double(Rcon(i - 1))
  }

  const RCON: seq<Byte> := [0x00, 0x01, 0x02, 0x04, 0x08, 0x10, 0x20, 0x40, 0x80, 0x1b, 0x36]

  lemma RconTable(i: nat)
    requires i < 11
    ensures RCON[i] == Rcon(i)
  {
    assert Rcon(2) == 0x02;
    assert Rcon(3) == 0x04;
    assert Rcon(4) == 0x08;
    assert Rcon(5) == 0x10;
    assert Rcon(6) == 0x20;
    assert Rcon(7) == 0x40;
    assert Rcon(8) == 0x80;
    assert Rcon(9) == 0x1b;
    assert Rcon(10) == 0x36;
  }

  function RotCol(c: Col): Col {
    Col(c.b1, c.b2, c.b3, c.b0)
  }

  /** Section 5.2, KeyExpansion: column `i` of the expanded key. */
  function Expanded(box: Box, key: seq<Col>, i: nat): Col
    requires |key| > 0
  {
    var nk := |key|;
    if i < nk then key[i]
    else
      var t := Expanded(box, key, i - 1);
      var u := if i % nk == 0 then AddCol(SubCol(box, RotCol(t)), Col(Rcon(i / nk), 0, 0, 0))
               else if nk > 6 && i % nk == 4 then SubCol(box, t)
               else t;
      AddCol(Expanded(box, key, i - nk), u)
  }

  function SubWord(box: Box, t: Word): Word {
    PackWord(box(ByteOf(t, 0)), box(ByteOf(t, 1)), box(ByteOf(t, 2)), box(ByteOf(t, 3)))
  }

  function RotWord(t: Word): Word { (t << 8) | (t >> 24) }

  lemma ScheduleSteps(box: Box, t: Word, rcon: Byte)
    ensures ColOf(SubWord(box, t)) == SubCol(box, ColOf(t))
    ensures ColOf(RotWord(t)) == RotCol(ColOf(t))
    ensures ColOf(Place(rcon, 0)) == Col(rcon, 0, 0, 0)
  {
    PackCol(box(ByteOf(t, 0)), box(ByteOf(t, 1)), box(ByteOf(t, 2)), box(ByteOf(t, 3)));
    RotatedBytes2(t);
    PlaceByte(rcon, 0, 0);
    PlaceByte(rcon, 0, 1);
    PlaceByte(rcon, 0, 2);
    PlaceByte(rcon, 0, 3);
    hide ByteOf, PackWord, Place;
  }

  function ColsOf(ws: seq<Word>): (r: seq<Col>)
    ensures |r| == |ws|
  {
    seq(|ws|, i requires 0 <= i < |ws| => ColOf(ws[i]))
  }

  /** The key schedule loop, for 4-, 6- and 8-word keys. */
  method ExpandKey(box: Box, keyWords: seq<Word>, keySize: nat) returns (ks: seq<Word>)
    requires keySize in {4, 6, 8} && |keyWords| >= keySize
    ensures |ks| == 4 * (keySize + 7)
    ensures forall i: nat :: i < |ks| ==> ColOf(ks[i]) == Expanded(box, ColsOf(keyWords[..keySize]), i)
  {
    hide ColOf, SubWord, RotWord, Xor, AddCol, Place;
    ghost var key := ColsOf(keyWords[..keySize]);
    var ksRows := (keySize + 6 + 1) * 4;
    ks := [];
    for ksRow := 0 to ksRows
      invariant |ks| == ksRow
      invariant forall i: nat :: i < ksRow ==> ColOf(ks[i]) == Expanded(box, key, i)
    {
      var w := NextScheduleWord(box, keyWords, keySize, ks);
      ks := ks + [w];
    }
  }

  /** The body of the loop: the word that follows the `|ks|` computed so far. */
  method NextScheduleWord(box: Box, keyWords: seq<Word>, keySize: nat, ks: seq<Word>) returns (w: Word)
    requires keySize in {4, 6, 8} && |keyWords| >= keySize && |ks| < 4 * (keySize + 7)
    requires forall i: nat :: i < |ks| ==> ColOf(ks[i]) == Expanded(box, ColsOf(keyWords[..keySize]), i)
    ensures ColOf(w) == Expanded(box, ColsOf(keyWords[..keySize]), |ks|)
  {
    hide ColOf, SubWord, RotWord, Xor, AddCol, Place, Rcon;
    var ksRow := |ks|;
    if ksRow < keySize {
      w := keyWords[ksRow];
    } else {
      var t := ks[ksRow - 1];
      if ksRow % keySize == 0 {
        RconTable(ksRow / keySize);
        ScheduleSteps(box, t, 0);
        t := RotWord(t);
        ScheduleSteps(box, t, RCON[ksRow / keySize]);
        t := SubWord(box, t);
        XorCols(t, Place(RCON[ksRow / keySize], 0));
        t := Xor(t, Place(RCON[ksRow / keySize], 0));
      } else if keySize > 6 && ksRow % keySize == 4 {
        ScheduleSteps(box, t, 0);
        t := SubWord(box, t);
      }
      XorCols(ks[ksRow - keySize], t);
      w := Xor(ks[ksRow - keySize], t);
    }
  }

  /** Word `i` of the inverse schedule, as a column. */
  function InvScheduleCol(ks: seq<Word>, i: nat): Col
    requires i < |ks| && |ks| % 4 == 0
  {
    var ksRow := |ks| - i;
    var t := ColOf(if i % 4 != 0 then ks[ksRow] else ks[ksRow - 4]);
    if i < 4 || ksRow <= 4 then t else InvMixCol(t)
  }

  method InvertSchedule(box: Box, inv: Box, ks: seq<Word>) returns (iks: seq<Word>)
    requires |ks| % 4 == 0 && |ks| >= 8 && Boxes(box, inv)
    ensures |iks| == |ks| && InverseKeys(RoundKeys(ks), RoundKeys(iks))
  {
    hide ColOf, InvMixCol, Mixed, InverseKeys, RoundKeys;
    iks := [];
    for i := 0 to |ks|
      invariant |iks| == i
      invariant forall k: nat :: k < i ==> ColOf(iks[k]) == InvScheduleCol(ks, k)
    {
      var ksRow := |ks| - i;
      var t := if i % 4 != 0 then ks[ksRow] else ks[ksRow - 4];
      if i < 4 || ksRow <= 4 {
        iks := iks + [t];
      } else {
        UnmixedCol(box, inv, t);
        iks := iks + [Mixed(Backward, inv, box(ByteOf(t, 0)), box(ByteOf(t, 1)), box(ByteOf(t, 2)), box(ByteOf(t, 3)))];
      }
    }
    ScheduleInverts(ks, iks);
  }

  lemma UnmixedCol(box: Box, inv: Box, t: Word)
    requires Boxes(box, inv)
    ensures ColOf(Mixed(Backward, inv, box(ByteOf(t, 0)), box(ByteOf(t, 1)), box(ByteOf(t, 2)), box(ByteOf(t, 3)))) == InvMixCol(ColOf(t))
  {
    hide InvMixCol, Mixed, ByteOf;
    MixedCol(Backward, inv, box(ByteOf(t, 0)), box(ByteOf(t, 1)), box(ByteOf(t, 2)), box(ByteOf(t, 3)));
  }

  lemma ScheduleInverts(ks: seq<Word>, iks: seq<Word>)
    requires |iks| == |ks| && |ks| % 4 == 0 && |ks| >= 8
    requires forall k: nat :: k < |ks| ==> ColOf(iks[k]) == InvScheduleCol(ks, k)
    ensures InverseKeys(RoundKeys(ks), RoundKeys(iks))
  {
    hide ColOf, InvMixCol;
    var keys, ikeys := RoundKeys(ks), RoundKeys(iks);
    var n := |keys| - 1;
    forall r: nat | r <= n
      ensures ikeys[r] == Swapped(if 0 < r < n then MixColumns(Backward, keys[n - r]) else keys[n - r])
    {
      var i := 4 * r;
      assert ikeys[r] == Blk(InvScheduleCol(ks, i), InvScheduleCol(ks, i + 1), InvScheduleCol(ks, i + 2), InvScheduleCol(ks, i + 3));
      assert |ks| - (i + 1) == 4 * (n - r) + 3;
    }
  }

  class Aes {
    const box: Box
    const inv: Box
    var nRounds: nat
    var keySchedule: seq<Word>
    var invKeySchedule: seq<Word>

    ghost predicate Valid()
      reads this
    {
      && nRounds >= 1 && |keySchedule| == |invKeySchedule| == 4 * (nRounds + 1)
      && Boxes(box, inv) && InverseKeys(RoundKeys(keySchedule), RoundKeys(invKeySchedule))
    }

    constructor (box: Box, inv: Box, keyWords: seq<Word>, keySize: nat)
      requires keySize in {4, 6, 8} && |keyWords| >= keySize && Boxes(box, inv)
      ensures Valid() && nRounds == keySize + 6
      ensures this.box == box && this.inv == inv
      ensures forall i: nat :: i < |keySchedule| ==> ColOf(keySchedule[i]) == Expanded(box, ColsOf(keyWords[..keySize]), i)
    {
      this.box, this.inv := box, inv;
      nRounds := keySize + 6;
      var ks := ExpandKey(box, keyWords, keySize);
      keySchedule := ks;
      var iks := InvertSchedule(box, inv, ks);
      invKeySchedule := iks;
    }

    method EncryptBlock(M: array<Word>, offset: nat)
      requires Valid() && offset + 4 <= M.Length
      modifies M
      ensures BlkOf(M[..], offset) == Cipher(box, RoundKeys(keySchedule), old(BlkOf(M[..], offset)))
      ensures forall i :: 0 <= i < M.Length && !(offset <= i < offset + 4) ==> M[i] == old(M[i])
    {
      hide BlkOf, CryptState, CipherState, Boxes, InverseKeys;
      ghost var b, keys := BlkOf(M[..], offset), RoundKeys(keySchedule);
      ForwardIsCipher(box, keys, b, |keys| - 2);
      DoCryptBlock(M, offset, nRounds, keySchedule, Forward, box);
    }

    method DecryptBlock(M: array<Word>, offset: nat)
      requires Valid() && offset + 4 <= M.Length
      modifies M
      ensures BlkOf(M[..], offset) == InvCipher(inv, RoundKeys(keySchedule), old(BlkOf(M[..], offset)))
      ensures forall i :: 0 <= i < M.Length && !(offset <= i < offset + 4) ==> M[i] == old(M[i])
    {
      hide ColOf, Crypt, InvCipher, Boxes, InverseKeys, RoundKeys;
      ghost var b := BlkOf(M[..], offset);
      BackwardIsInvCipher(inv, RoundKeys(keySchedule), RoundKeys(invKeySchedule), b);
      M[offset + 1], M[offset + 3] := M[offset + 3], M[offset + 1];
      assert BlkOf(M[..], offset) == Swapped(b);
      DoCryptBlock(M, offset, nRounds, invKeySchedule, Backward, inv);
      M[offset + 1], M[offset + 3] := M[offset + 3], M[offset + 1];
    }
  }

  // ---------------------------------------------------------------- as a cipher for the modes

  function WordsOf(b: Blk): (ws: seq<Word>)
    ensures |ws| == 4
  {
    [WordOf(b.c0), WordOf(b.c1), WordOf(b.c2), WordOf(b.c3)]
  }

  function PaddedBlk(ws: seq<Word>): Blk {
    Blk(ColOf(Get(ws, 0)), ColOf(Get(ws, 1)), ColOf(Get(ws, 2)), ColOf(Get(ws, 3)))
  }

  lemma ColsBack(w: Word, c: Col)
    ensures WordOf(ColOf(w)) == w && ColOf(WordOf(c)) == c
  {
    PackedWord(w);
    PackCol(c.b0, c.b1, c.b2, c.b3);
    hide ByteOf, PackWord;
  }

  /** AES under any round keys meets the condition every block mode asks of its cipher. */
  lemma AesInverse(box: Box, inv: Box, keys: seq<Blk>)
    requires |keys| >= 2 && Boxes(box, inv)
    ensures Inverse(b => WordsOf(Cipher(box, keys, PaddedBlk(b))), b => WordsOf(InvCipher(inv, keys, PaddedBlk(b))), 4)
  {
    hide Cipher, InvCipher, ColOf, WordOf, Boxes;
    forall b: seq<Word> | |b| == 4 ensures WordsOf(InvCipher(inv, keys, PaddedBlk(WordsOf(Cipher(box, keys, PaddedBlk(b)))))) == b {
      var c := Cipher(box, keys, PaddedBlk(b));
      CipherUndone(box, inv, keys, PaddedBlk(b));
      ColsBack(b[0], c.c0);
      ColsBack(b[1], c.c1);
      ColsBack(b[2], c.c2);
      ColsBack(b[3], c.c3);
      assert PaddedBlk(WordsOf(c)) == c;
      assert WordsOf(PaddedBlk(b)) == b;
    }
  }
}
