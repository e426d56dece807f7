/** PKCS #7 padding as the bundle writes and reads it. */
module Padding {
  import opened JsNumbers
  import opened WordArrays
  import opened Streaming

  /** The low byte of a Number. */
  function ByteVal(n: nat): Byte {
    (Bits(n) & 0xff) as Byte
  }

  function PadLength(n: nat, bs: nat): (k: nat)
    requires bs > 0
    ensures 1 <= k <= 4 * bs
  {
    4 * bs - n % (4 * bs)
  }

  /** Section 6.3 of RFC 5652: `k` bytes of value `k`, with `k` from 1 to the block length. */
  function PadBytes(n: nat, bs: nat): seq<Byte>
    requires bs > 0
  {
    seq(PadLength(n, bs), _ => ByteVal(PadLength(n, bs)))
  }

  lemma LowByte(n: nat)
    requires n < 256
    ensures Bits(n) & 0xff == Bits(n) && Num(Bits(n)) == n
  {
    hide Num, FromNat, Bits;
    NumBits(n);
    BelowFF(n);
  }

  lemma NumFF()
    ensures Num(0xff) == 255
  {
    assert Num(0) == 0;
    hide *;
    NumAppend(0x0, true);
    NumAppend(0x1, true);
    NumAppend(0x3, true);
    NumAppend(0x7, true);
    NumAppend(0xF, true);
    NumAppend(0x1F, true);
    NumAppend(0x3F, true);
    NumAppend(0x7F, true);
    assert Append(0x7F, true) == 0xFF;
  }

  lemma BelowFF(n: nat)
    requires n < 256
    ensures Bits(n) & 0xff == Bits(n)
  {
    hide Num, FromNat;
    NumFF();
    FromNatBelow(n, 0xff);
  }

  /** `(k << 24) | (k << 16) | (k << 8) | k` */
  function PaddingWord(k: nat): Word {
    (Bits(k) << 24) | (Bits(k) << 16) | (Bits(k) << 8) | Bits(k)
  }

  lemma PaddingWordBytes(w: Word, j: nat)
    requires w & 0xff == w
    ensures ByteOf((w << 24) | (w << 16) | (w << 8) | w, j) == (w & 0xff) as Byte
  {
    if j == 0 {} else if j == 1 {} else if j == 2 {} else {}
  }

  /** `Pkcs7.pad` */
  method Pad(data: WordArray, bs: nat)
    requires 0 < bs && 4 * bs < 256
    modifies data
    ensures data.Content() == old(data.Content()) + PadBytes(old(data.sigBytes), bs)
    ensures |data.words| == WordCount(data.sigBytes)
  {
    var k := PadLength(data.sigBytes, bs);
    var paddingWords: seq<Word> := [];
    var i := 0;
    while i < k
      invariant 0 <= i < k + 4 && i % 4 == 0 && |paddingWords| == i / 4
      invariant forall j: nat :: j < |paddingWords| ==> paddingWords[j] == PaddingWord(k)
    {
      paddingWords := paddingWords + [PaddingWord(k)];
      i := i + 4;
    }
    var padding := new WordArray(paddingWords, k);
    PaddingContent(paddingWords, k, data.sigBytes, bs);
    data.Concat(padding);
  }

  lemma PaddingContent(ws: seq<Word>, k: nat, n: nat, bs: nat)
    requires 0 < bs && 4 * bs < 256 && k == PadLength(n, bs)
    requires |ws| * 4 >= k && forall j: nat :: j < |ws| ==> ws[j] == PaddingWord(k)
    ensures Bytes(ws, k) == PadBytes(n, bs)
  {
    hide ByteOf, Bits;
    LowByte(k);
    forall i: nat | i < k ensures At(ws, i) == ByteVal(k) {
      PaddingWordBytes(Bits(k), i % 4);
    }
  }

  /** The number of bytes `Pkcs7.unpad` removes. On an empty array `(0 - 1) >>> 2` is 2^30 - 1. */
  function UnpadLength(ws: seq<Word>, sigBytes: nat): nat {
    Num(Get(ws, if sigBytes == 0 then 0x3fff_ffff else (sigBytes - 1) / 4) & 0xff)
  }

  function ByteNum(b: Byte): nat {
    Num(b as Word)
  }

  lemma ByteNumFF()
    ensures ByteNum(0xff) == 255
  {
    hide Num;
    NumFF();
  }

  /** The padding fills the last block, and each of its bytes is their number. */
  lemma PaddingIs(n: nat, bs: nat)
    requires 0 < bs && 4 * bs < 256
    ensures var p := PadBytes(n, bs);
            && 1 <= |p| <= 4 * bs && (n + |p|) % (4 * bs) == 0
            && forall i :: 0 <= i < |p| ==> ByteNum(p[i]) == |p|
  {
    var k := PadLength(n, bs);
    hide Bits;
    LowByte(k);
    LowByteBack(Bits(k));
    hide Num;
    FillsUp(n, 4 * bs);
  }

  lemma LowByteBack(w: Word)
    ensures (w & 0xff) as Byte as Word == w & 0xff
  {}

  lemma FillsUp(n: nat, b: nat)
    requires b > 0
    ensures (n + (b - n % b)) % b == 0
  {
    var q := n / b;
    assert n == q * b + n % b;
    assert n + (b - n % b) == (q + 1) * b;
    ModMultiple(q + 1, b);
  }

  /** On a whole number of words `unpad` removes as many bytes as the last one says. */
  lemma UnpadIsLast(ws: seq<Word>, n: nat)
    requires 0 < n <= 4 * |ws| && n % 4 == 0
    ensures UnpadLength(ws, n) == ByteNum(At(ws, n - 1))
  {
    hide Num;
    assert (n - 1) / 4 < |ws| && (n - 1) % 4 == 3;
    LowByteWord(Get(ws, (n - 1) / 4));
  }

  lemma LowByteWord(w: Word)
    ensures ByteOf(w, 3) as Word == w & 0xff
  {}

  /** The last byte of a whole number of words is the one `unpad` looks at. */
  lemma UnpadReadsLast(ws: seq<Word>, n: nat, k: nat)
    requires 0 < n <= 4 * |ws| && n % 4 == 0 && k < 256
    requires At(ws, n - 1) == ByteVal(k)
    ensures UnpadLength(ws, n) == k
  {
    hide Bits, Num;
    LowByte(k);
    assert (n - 1) / 4 < |ws| && (n - 1) % 4 == 3;
  }

  /** Unpadding the tail of a padded message, from anywhere in its last block on, leaves
      exactly what belongs to the message. */
  lemma UnpadUndoesPad(before: seq<Byte>, ws: seq<Word>, rest: nat, msg: seq<Byte>, bs: nat)
    requires 0 < bs && 4 * bs < 256
    requires 4 * bs <= rest <= 4 * |ws| && rest % 4 == 0
    requires before + Bytes(ws, rest) == msg + PadBytes(|msg|, bs)
    ensures UnpadLength(ws, rest) == PadLength(|msg|, bs) <= rest
    ensures before + Bytes(ws, rest - PadLength(|msg|, bs)) == msg
  {
    hide Bits, Num, ByteVal, At, UnpadLength;
    var k := PadLength(|msg|, bs);
    var padded := msg + PadBytes(|msg|, bs);
    assert |padded| == |before| + rest;
    assert padded[|padded| - 1] == ByteVal(k);
    assert (before + Bytes(ws, rest))[|padded| - 1] == At(ws, rest - 1);
    UnpadReadsLast(ws, rest, k);
    assert before + Bytes(ws, rest - k) == padded[..|msg|];
  }
}
