/** The cipher of FIPS 197 as the standard's tables of bytes have it: each byte of a state from
    bytes of the one before, by rows and columns, with products in GF(2^8). */
module AESStandard {
  import opened WordArrays
  import opened Streaming
  import opened AES
  import opened AESTables

  /** Byte of row `r` of a column, and of row `r` and column `c` of a state. */
  function Entry(c: Col, r: nat): Byte
    requires r < 4
  {
    if r == 0 then c.b0 else if r == 1 then c.b1 else if r == 2 then c.b2 else c.b3
  }

  function Column(b: Blk, c: nat): Col
    requires c < 4
  {
    if c == 0 then b.c0 else if c == 1 then b.c1 else if c == 2 then b.c2 else b.c3
  }

  function Cell(b: Blk, r: nat, c: nat): Byte
    requires r < 4 && c < 4
  {
    Entry(Column(b, c), r)
  }

  lemma SameColumns(a: Col, b: Col)
    requires forall r: nat :: r < 4 ==> Entry(a, r) == Entry(b, r)
    ensures a == b
  {
    assert Entry(a, 0) == Entry(b, 0) && Entry(a, 1) == Entry(b, 1) && Entry(a, 2) == Entry(b, 2) && Entry(a, 3) == Entry(b, 3);
  }

  lemma SameCells(a: Blk, b: Blk)
    requires forall r: nat, c: nat :: r < 4 && c < 4 ==> Cell(a, r, c) == Cell(b, r, c)
    ensures a == b
  {
    forall c: nat | c < 4 ensures Column(a, c) == Column(b, c) {
      forall r: nat | r < 4 ensures Entry(Column(a, c), r) == Entry(Column(b, c), r) {
        assert Cell(a, r, c) == Cell(b, r, c);
      }
      SameColumns(Column(a, c), Column(b, c));
    }
    assert Column(a, 0) == Column(b, 0) && Column(a, 1) == Column(b, 1) && Column(a, 2) == Column(b, 2) && Column(a, 3) == Column(b, 3);
  }

  /** Doubling and tripling are products with x and x + 1. */
  lemma SmallProducts(a: Byte)
    ensures Double(a) == Product(a, 2) && Times3(a) == Product(a, 3)
  {
    ProductBits(a, 2);
    ProductBits(a, 3);
    hide Double, Product;
    XorZero(a);
    XorZero(0);
    XorZero(Double(a));
    XorComm(Double(a), a);
  }

  lemma ProductBits(a: Byte, b: Byte)
    requires b == 2 || b == 3
    ensures Product(a, b) == XorByte(if b == 3 then a else 0, Double(a))
  {
    assert !Bit(b, 2) && !Bit(b, 3) && !Bit(b, 4) && !Bit(b, 5) && !Bit(b, 6) && !Bit(b, 7) && Bit(b, 1) && (Bit(b, 0) <==> b == 3);
    hide Bit, Double;
    XorZero(0);
    XorZero(a);
    XorZero(Partial(a, b, 2));
    assert XTimes(a, 0) == a && XTimes(a, 1) == Double(a);
    hide XTimes, XorByte;
    assert Partial(a, b, 0) == 0;
    assert Partial(a, b, 1) == XorByte(0, if b == 3 then a else 0);
    assert Partial(a, b, 2) == XorByte(Partial(a, b, 1), Double(a));
    assert Partial(a, b, 4) == Partial(a, b, 3) == Partial(a, b, 2);
    assert Partial(a, b, 6) == Partial(a, b, 5) == Partial(a, b, 4);
    assert Partial(a, b, 8) == Partial(a, b, 7) == Partial(a, b, 6);
  }

  // ---------------------------------------------------------------- the steps of a round

  /** `k` rows or columns further, around the edge. */
  function Around(i: nat, k: nat): (j: nat)
    requires i < 4 && k < 4
    ensures j < 4
  {
    if i + k < 4 then i + k else i + k - 4
  }

  /** Sections 5.1.1 and 5.1.2: row `r` of the substituted bytes moves `r` columns to the left. */
  lemma SubstitutedCell(box: Box, b: Blk, r: nat, c: nat)
    requires r < 4 && c < 4
    ensures Cell(ShiftRows(SubBytes(box, b)), r, c) == box(Cell(b, r, Around(c, r)))
  {
    if c == 0 {} else if c == 1 {} else if c == 2 {} else {}
  }

  /** Section 5.1.3: a column is multiplied by the matrix with the rows 2 3 1 1, 1 2 3 1, 1 1 2 3 and 3 1 1 2. */
  lemma MixedCell(c: Col, r: nat)
    requires r < 4
    ensures Entry(MixCol(c), r) ==
            Sum(Product(Entry(c, r), 2), Product(Entry(c, Around(r, 1)), 3), Entry(c, Around(r, 2)), Entry(c, Around(r, 3)))
  {
    SmallProducts(c.b0);
    SmallProducts(c.b1);
    SmallProducts(c.b2);
    SmallProducts(c.b3);
    hide Product, Double, Times3, Sum;
    MixRotations(c.b0, c.b1, c.b2, c.b3);
  }

  lemma ColumnMixed(b: Blk, c: nat)
    requires c < 4
    ensures Column(MixColumns(Forward, b), c) == MixCol(Column(b, c))
  {
    hide MixCol;
  }

  /** Section 5.1.4. */
  lemma AddedCell(b: Blk, k: Blk, r: nat, c: nat)
    requires r < 4 && c < 4
    ensures Cell(AddRoundKey(b, k), r, c) == XorByte(Cell(b, r, c), Cell(k, r, c))
  {
    hide XorByte;
    if c == 0 {} else if c == 1 {} else if c == 2 {} else {}
  }

  /** What a full round puts into a cell. */
  function RoundByte(box: Box, b: Blk, r: nat, c: nat): Byte
    requires r < 4 && c < 4
  {
    var r1, r2, r3 := Around(r, 1), Around(r, 2), Around(r, 3);
    Sum(Product(box(Cell(b, r, Around(c, r))), 2), Product(box(Cell(b, r1, Around(c, r1))), 3),
        box(Cell(b, r2, Around(c, r2))), box(Cell(b, r3, Around(c, r3))))
  }

  lemma RoundCell(box: Box, b: Blk, k: Blk, r: nat, c: nat)
    requires r < 4 && c < 4
    ensures Cell(AddRoundKey(MixColumns(Forward, ShiftRows(SubBytes(box, b))), k), r, c) == XorByte(RoundByte(box, b, r, c), Cell(k, r, c))
  {
    hide SubBytes, ShiftRows, MixColumns, MixCol, AddRoundKey, Product, Sum, XorByte, Entry, Column, Around;
    var s := ShiftRows(SubBytes(box, b));
    AddedCell(MixColumns(Forward, s), k, r, c);
    ColumnMixed(s, c);
    MixedCell(Column(s, c), r);
    SubstitutedCell(box, b, r, c);
    SubstitutedCell(box, b, Around(r, 1), c);
    SubstitutedCell(box, b, Around(r, 2), c);
    SubstitutedCell(box, b, Around(r, 3), c);
  }

  // ---------------------------------------------------------------- the cipher

  /** A table of states as section 5.1 has them: the input and the first key, the full rounds, and the
      last one without mixing. */
  ghost predicate Rounds(box: Box, keys: seq<Blk>, b: Blk, S: seq<Blk>) {
    && |S| == |keys| >= 2
    && forall t: nat, r: nat, c: nat :: t < |S| && r < 4 && c < 4 ==>
         Cell(S[t], r, c) ==
         XorByte(if t == 0 then Cell(b, r, c) else if t < |S| - 1 then RoundByte(box, S[t - 1], r, c) else box(Cell(S[t - 1], r, Around(c, r))),
                 Cell(keys[t], r, c))
  }

  lemma CellOf(box: Box, keys: seq<Blk>, b: Blk, S: seq<Blk>, t: nat, r: nat, c: nat)
    requires Rounds(box, keys, b, S) && t < |S| && r < 4 && c < 4
    ensures Cell(S[t], r, c) ==
            XorByte(if t == 0 then Cell(b, r, c) else if t < |S| - 1 then RoundByte(box, S[t - 1], r, c) else box(Cell(S[t - 1], r, Around(c, r))),
                    Cell(keys[t], r, c))
  {
    hide RoundByte, Cell, XorByte, Around;
  }

  lemma {:induction false} StatesAre(box: Box, keys: seq<Blk>, b: Blk, S: seq<Blk>, t: nat)
    requires Rounds(box, keys, b, S) && t + 1 < |keys|
    ensures |S| == |keys| && CipherState(box, keys, b, t) == S[t]
  {
    assert |S| == |keys|;
    hide Rounds, SubBytes, ShiftRows, MixColumns, AddRoundKey, RoundByte, Cell, XorByte;
    if t > 0 { StatesAre(box, keys, b, S, t - 1); }
    var next := if t == 0 then AddRoundKey(b, keys[0]) else AddRoundKey(MixColumns(Forward, ShiftRows(SubBytes(box, S[t - 1]))), keys[t]);
    forall r: nat, c: nat | r < 4 && c < 4 ensures Cell(next, r, c) == Cell(S[t], r, c) {
      CellOf(box, keys, b, S, t, r, c);
      if t == 0 { AddedCell(b, keys[0], r, c); } else { RoundCell(box, S[t - 1], keys[t], r, c); }
    }
    SameCells(next, S[t]);
  }

  /** The output is the last state of the table. */
  lemma CipherIs(box: Box, keys: seq<Blk>, b: Blk, S: seq<Blk>)
    requires Rounds(box, keys, b, S)
    ensures Cipher(box, keys, b) == S[|S| - 1]
  {
    assert |S| == |keys| >= 2;
    hide Rounds, SubBytes, ShiftRows, MixColumns, AddRoundKey, RoundByte, Cell, XorByte, CipherState;
    var n := |keys| - 1;
    StatesAre(box, keys, b, S, n - 1);
    var last := ShiftRows(SubBytes(box, S[n - 1]));
    forall r: nat, c: nat | r < 4 && c < 4 ensures Cell(AddRoundKey(last, keys[n]), r, c) == Cell(S[n], r, c) {
      CellOf(box, keys, b, S, n, r, c);
      AddedCell(last, keys[n], r, c);
      SubstitutedCell(box, S[n - 1], r, c);
    }
    SameCells(AddRoundKey(last, keys[n]), S[n]);
  }

  /** Blocks and round keys are columns of words, the most significant byte in row 0. */
  lemma WordCells(ws: seq<Word>, o: nat, r: nat, c: nat)
    requires o + 4 <= |ws| && r < 4 && c < 4
    ensures Cell(BlkOf(ws, o), r, c) == ByteOf(ws[o + c], r)
    ensures |ws| % 4 == 0 && o % 4 == 0 ==> o / 4 < |RoundKeys(ws)| && Cell(RoundKeys(ws)[o / 4], r, c) == ByteOf(ws[o + c], r)
  {
    hide ByteOf;
  }

  // ---------------------------------------------------------------- the key schedule

  /** Row `r` of what is added to the word `nk` places back, section 5.2. */
  function Addend(box: Box, nk: nat, w: seq<Col>, i: nat, r: nat): Byte
    requires nk > 0 && 0 < i <= |w| && r < 4
  {
    if i % nk == 0 then XorByte(box(Entry(w[i - 1], Around(r, 1))), if r == 0 && i >= nk then RoundConstant(i, nk) else 0)
    else if nk > 6 && i % nk == 4 then box(Entry(w[i - 1], r))
    else Entry(w[i - 1], r)
  }

  /** The power of x number `i / nk`, counted from 1. */
  function RoundConstant(i: nat, nk: nat): Byte
    requires i >= nk > 0
  {
    AtLeastOne(i, nk);
    XTimes(1, i / nk - 1)
  }

  ghost predicate Schedule(box: Box, key: seq<Col>, w: seq<Col>) {
    && 0 < |key| <= |w|
    && (forall i: nat :: i < |key| ==> w[i] == key[i])
    && forall i: nat, r: nat :: |key| <= i < |w| && r < 4 ==> Entry(w[i], r) == XorByte(Entry(w[i - |key|], r), Addend(box, |key|, w, i, r))
  }

  lemma {:induction false} RconIs(i: nat)
    requires i > 0
    ensures Rcon(i) == XTimes(1, i - 1)
  {
    hide Double;
    if i > 1 { RconIs(i - 1); }
  }

  lemma ScheduleCell(box: Box, key: seq<Col>, w: seq<Col>, i: nat, r: nat)
    requires Schedule(box, key, w) && |key| <= i < |w| && r < 4
    ensures |key| > 0 && Entry(w[i], r) == XorByte(Entry(w[i - |key|], r), Addend(box, |key|, w, i, r))
  {
    hide Entry, XorByte, Addend;
  }

  lemma {:induction false} ScheduleIs(box: Box, key: seq<Col>, w: seq<Col>, i: nat)
    requires Schedule(box, key, w) && i < |w|
    ensures |key| > 0 && Expanded(box, key, i) == w[i]
  {
    var nk := |key|;
    assert nk > 0 && (i < nk ==> w[i] == key[i]);
    hide Schedule;
    if i >= nk {
      ScheduleIs(box, key, w, i - 1);
      ScheduleIs(box, key, w, i - nk);
      var u := Adding(box, nk, w, i);
      hide Addend, SubCol, RotCol, AddCol, Entry, XorByte;
      forall r: nat | r < 4 ensures Entry(AddCol(w[i - nk], u), r) == Entry(w[i], r) {
        ScheduleCell(box, key, w, i, r);
        AddColEntry(w[i - nk], u, r);
      }
      SameColumns(AddCol(w[i - nk], u), w[i]);
    }
  }

  lemma AddColEntry(a: Col, b: Col, r: nat)
    requires r < 4
    ensures Entry(AddCol(a, b), r) == XorByte(Entry(a, r), Entry(b, r))
  {
    hide XorByte;
  }

  /** The column that is added, as the schedule makes it. */
  lemma Adding(box: Box, nk: nat, w: seq<Col>, i: nat) returns (u: Col)
    requires 0 < nk <= i < |w|
    ensures u == if i % nk == 0 then AddCol(SubCol(box, RotCol(w[i - 1])), Col(Rcon(i / nk), 0, 0, 0))
                 else if nk > 6 && i % nk == 4 then SubCol(box, w[i - 1]) else w[i - 1]
    ensures forall r: nat :: r < 4 ==> Entry(u, r) == Addend(box, nk, w, i, r)
  {
    u := if i % nk == 0 then AddCol(SubCol(box, RotCol(w[i - 1])), Col(Rcon(i / nk), 0, 0, 0))
         else if nk > 6 && i % nk == 4 then SubCol(box, w[i - 1]) else w[i - 1];
    if i % nk == 0 {
      AtLeastOne(i, nk);
      RconIs(i / nk);
    }
    hide Rcon, XTimes, XorByte;
  }
}
