/** The hashers' own layer over the buffering template: padding written straight into the
    buffer, and the digest of a message that arrives in any number of pieces. */
module Hashing {
  import opened JsNumbers
  import opened WordArrays
  import opened WordNumbers
  import opened Padding
  import opened Streaming

  /** How the bit count is written: high word first, or byte-reversed words, low word first. */
  datatype Format = BigEndian | LittleEndian

  /** The two families: 64-byte blocks and 128-byte blocks. */
  predicate HashBlock(bs: nat) {
    bs == 16 || bs == 32
  }

  // ---------------------------------------------------------------- the standards' padding

  /** Bytes kept for the length field: 8 of 64, 16 of 128. */
  function Reserve(bs: nat): nat {
    bs / 2
  }

  /** The least number of zero bytes after the 0x80 that completes a block (section 5.1 of
      FIPS 180-4, section 3.1 of RFC 1321). */
  function ZeroCount(n: nat, bs: nat): (z: nat)
    requires HashBlock(bs)
    ensures (n + 1 + z + Reserve(bs)) % (4 * bs) == 0 && z < 4 * bs
  {
    (4 * bs - (n + 1 + Reserve(bs)) % (4 * bs)) % (4 * bs)
  }

  function ZeroBytesSeq(n: nat): (b: seq<Byte>)
    ensures |b| == n && forall i :: 0 <= i < n ==> b[i] == 0
  {
    seq(n, _ => 0)
  }

  /** The low 64 bits of the message length in bits; any wider field starts with zeros. */
  function LengthWords(format: Format, bits: nat): (ws: seq<Word>)
    ensures |ws| == 2
  {
    if format == BigEndian then [Bits(bits / TWO32), Bits(bits)] else [SwapEndian(Bits(bits)), SwapEndian(Bits(bits / TWO32))]
  }

  function Suffix(n: nat, bits: nat, bs: nat, format: Format): (s: seq<Byte>)
    requires HashBlock(bs)
    ensures |s| == 1 + ZeroCount(n, bs) + Reserve(bs)
  {
    [0x80] + ZeroBytesSeq(ZeroCount(n, bs) + Reserve(bs) - 8) + Unpack(LengthWords(format, bits))
  }

  function Padded(msg: seq<Byte>, bits: nat, bs: nat, format: Format): (p: seq<Byte>)
    requires HashBlock(bs)
    ensures |p| % (4 * bs) == 0
  {
    msg + Suffix(|msg|, bits, bs, format)
  }

  /** No shorter run of whole blocks has room for the message, the marker and the length. */
  lemma LeastBlocks(msg: seq<Byte>, bits: nat, bs: nat, format: Format)
    requires HashBlock(bs)
    ensures |Padded(msg, bits, bs, format)| >= |msg| + 1 + Reserve(bs) > |Padded(msg, bits, bs, format)| - 4 * bs
    ensures |Padded(msg, bits, bs, format)| == 4 * PaddedWords(|msg|, bs)
  {
    WordsOfPadded(|msg|, bs);
  }

  /** The number of words of the padded message. */
  function PaddedWords(n: nat, bs: nat): nat
    requires HashBlock(bs)
  {
    bs * ((n + Reserve(bs)) / (4 * bs)) + bs
  }

  lemma WordsOfPadded(n: nat, bs: nat)
    requires HashBlock(bs)
    ensures n + 1 + ZeroCount(n, bs) + Reserve(bs) == 4 * PaddedWords(n, bs)
    ensures PaddedWords(n, bs) >= bs && n + 9 <= 4 * PaddedWords(n, bs)
  {
    if bs == 16 { WordsOf16(n); }
  }

  lemma WordsOf16(n: nat)
    ensures n + 1 + ZeroCount(n, 16) + 8 == 4 * PaddedWords(n, 16)
  {
    var q, r := (n + 8) / 64, (n + 8) % 64;
    if r == 63 {
      assert n + 9 == 64 * (q + 1);
      assert (n + 9) % 64 == 0;
    } else {
      assert n + 9 == 64 * q + (r + 1);
      assert (n + 9) % 64 == r + 1;
    }
  }

  /** The eight bytes of the length field. */
  lemma LengthBytes(format: Format, bits: nat, k: nat)
    requires k < 8
    ensures ByteNum(At(LengthWords(format, bits), k)) == bits / Power256(if format == BigEndian then 7 - k else k) % 256
  {
    var ws := LengthWords(format, bits);
    AtDef(ws, k);
    hide Bits, ByteOf, ByteNum, Power256, SwapEndian, At;
    HalfBytes(bits, if format == BigEndian then 3 - k % 4 else k % 4);
    SwapsBytes(Bits(bits), k % 4);
    SwapsBytes(Bits(bits / TWO32), k % 4);
  }

  /** Digit `i` of the low and of the high word of a number. */
  lemma HalfBytes(bits: nat, i: nat)
    requires i < 4
    ensures ByteNum(ByteOf(Bits(bits), 3 - i)) == bits / Power256(i) % 256
    ensures ByteNum(ByteOf(Bits(bits / TWO32), 3 - i)) == bits / Power256(i + 4) % 256
  {
    hide Bits, Num, ByteOf, ByteNum, Power256;
    ByteIs(Bits(bits), 3 - i);
    ByteIs(Bits(bits / TWO32), 3 - i);
    NumBits(bits);
    NumBits(bits / TWO32);
    DigitBelow(bits, i);
    DigitBelow(bits / TWO32, i);
    DigitAbove(bits, i);
  }

  /** Section 5.1 of FIPS 180-4 and sections 3.1 and 3.2 of RFC 1321, byte by byte: the message, the
      marker, zeros, and the number of bits in the last eight bytes. */
  lemma PaddedIs(msg: seq<Byte>, bs: nat, format: Format, j: nat)
    requires HashBlock(bs) && j < |Padded(msg, 8 * |msg|, bs, format)|
    ensures var p := Padded(msg, 8 * |msg|, bs, format);
            && |p| % (4 * bs) == 0 && |msg| + 9 <= |p|
            && (j < |msg| ==> p[j] == msg[j])
            && (j == |msg| ==> p[j] == 0x80)
            && (|msg| < j < |p| - 8 ==> p[j] == 0)
            && (j >= |p| - 8 ==> ByteNum(p[j]) == 8 * |msg| / Power256(if format == BigEndian then |p| - 1 - j else j - (|p| - 8)) % 256)
  {
    var p := Padded(msg, 8 * |msg|, bs, format);
    LeastBlocks(msg, 8 * |msg|, bs, format);
    if j >= |p| - 8 {
      LengthBytes(format, 8 * |msg|, j - (|p| - 8));
    }
    hide LengthWords, At, ByteNum, Power256, ZeroCount, PaddedWords;
  }

  /** Whole blocks in front of the buffered rest do not change the padding. */
  lemma PaddedTail(taken: seq<Byte>, rest: seq<Byte>, bits: nat, bs: nat, format: Format)
    requires HashBlock(bs) && |taken| % (4 * bs) == 0
    ensures Padded(taken + rest, bits, bs, format) == taken + Padded(rest, bits, bs, format)
  {
    SameSuffix(|taken|, |rest|, bits, bs, format);
    hide Suffix;
    Assoc3(taken, rest, Suffix(|rest|, bits, bs, format));
  }

  lemma SameSuffix(m: nat, n: nat, bits: nat, bs: nat, format: Format)
    requires HashBlock(bs) && m % (4 * bs) == 0
    ensures Suffix(m + n, bits, bs, format) == Suffix(n, bits, bs, format)
  {
    SameZeros(m, n, bs);
    hide ZeroCount, LengthWords, ZeroBytesSeq, Unpack;
  }

  lemma SameZeros(m: nat, n: nat, bs: nat)
    requires HashBlock(bs) && m % (4 * bs) == 0
    ensures ZeroCount(m + n, bs) == ZeroCount(n, bs)
  {
    hide ZeroCount;
    if bs == 16 {} else {}
  }

  // ---------------------------------------------------------------- the bundle's padding

  /** `dataWords[nBitsLeft >>> 5]`: the bit count is cut to 32 bits first. */
  function MarkIndex(n: nat): nat {
    8 * n % TWO32 / 32
  }

  /** `((nBitsLeft + 64) >>> 9) << 4`, or `((nBitsLeft + 128) >>> 10) << 5`. */
  function LastBlock(n: nat, bs: nat): nat
    requires HashBlock(bs)
  {
    (8 * n + 4 * bs) % TWO32 / (32 * bs) * bs
  }

  /** The marker and the length end up where they belong exactly as long as the bit count of
      the buffered rest, with the length field, stays below 2^32. */
  lemma IndicesRight(n: nat, bs: nat)
    requires HashBlock(bs)
    ensures MarkIndex(n) == n / 4 && LastBlock(n, bs) + bs == PaddedWords(n, bs) <==> n + Reserve(bs) < 0x2000_0000
  {
    if bs == 16 { Indices16(n); } else { Indices32(n); }
  }

  lemma Indices16(n: nat)
    ensures MarkIndex(n) == n / 4 && LastBlock(n, 16) + 16 == PaddedWords(n, 16) <==> n + 8 < 0x2000_0000
  {
    var b := 8 * n + 64;
    assert b / 512 == (n + 8) / 64;
    assert LastBlock(n, 16) == b % TWO32 / 512 * 16;
    if n + 8 >= 0x2000_0000 {
      assert b % TWO32 <= b - TWO32;
    }
  }

  lemma Indices32(n: nat)
    ensures MarkIndex(n) == n / 4 && LastBlock(n, 32) + 32 == PaddedWords(n, 32) <==> n + 16 < 0x2000_0000
  {
    var b := 8 * n + 128;
    assert b / 1024 == (n + 16) / 128;
    assert LastBlock(n, 32) == b % TWO32 / 1024 * 32;
    if n + 16 >= 0x2000_0000 {
      assert b % TWO32 <= b - TWO32;
    }
  }

  /** `w | 0x80 << (24 - k * 8)` */
  function Mark(w: Word, k: nat): Word {
    w | Place(0x80, k)
  }

  /** What the three assignments make of the buffer's words. */
  function Marked(ws: seq<Word>, n: nat, bits: nat, bs: nat, format: Format): (r: seq<Word>)
    requires HashBlock(bs)
  {
    var m := Put(ws, MarkIndex(n), Mark(Get(ws, MarkIndex(n)), n % 4));
    var base := LastBlock(n, bs);
    var len := LengthWords(format, bits);
    Put(Put(m, base + bs - 2, len[0]), base + bs - 1, len[1])
  }

  lemma MarkedWords(ws: seq<Word>, n: nat, bits: nat, bs: nat, format: Format)
    requires HashBlock(bs) && |ws| == WordCount(n) && n + Reserve(bs) < 0x2000_0000
    ensures var L, r := PaddedWords(n, bs), Marked(ws, n, bits, bs, format);
            && |r| == L
            && forall k: nat :: Get(r, k) == if L - 2 <= k < L then LengthWords(format, bits)[k - (L - 2)] else Get(OrAt(ws, n, 0x80), k)
  {
    IndicesRight(n, bs);
    WordsOfPadded(n, bs);
    assert OrAt(ws, n, 0x80) == Put(ws, n / 4, Mark(Get(ws, n / 4), n % 4)) by { hide Put; }
    hide LengthWords, Mark, OrAt, PaddedWords, LastBlock, MarkIndex, ZeroCount;
  }

  /** Nothing but zeros behind the message; only the marker's own bit may be set already. */
  ghost predicate JunkFree(ws: seq<Word>, n: nat) {
    && (At(ws, n) == 0 || At(ws, n) == 0x80)
    && forall k: nat :: n < k ==> At(ws, k) == 0
  }

  lemma MarkedByte(ws: seq<Word>, n: nat, bits: nat, bs: nat, format: Format, k: nat)
    requires HashBlock(bs) && |ws| == WordCount(n) && n + Reserve(bs) < 0x2000_0000 && k < 4 * PaddedWords(n, bs)
    ensures var L := PaddedWords(n, bs);
            At(Marked(ws, n, bits, bs, format), k) ==
            if k >= 4 * L - 8 then At(LengthWords(format, bits), k - (4 * L - 8)) else if k == n then At(ws, n) | 0x80 else At(ws, k)
  {
    var L, r := PaddedWords(n, bs), Marked(ws, n, bits, bs, format);
    MarkedWords(ws, n, bits, bs, format);
    WordsOfPadded(n, bs);
    AtDef(r, k);
    hide Marked, LengthWords, PaddedWords, ByteOf, Place, OrAt, ZeroCount;
    if k >= 4 * L - 8 {
      AtDef(LengthWords(format, bits), k - (4 * L - 8));
      assert (k - (4 * L - 8)) / 4 == k / 4 - (L - 2) && (k - (4 * L - 8)) % 4 == k % 4;
    } else {
      AtDef(OrAt(ws, n, 0x80), k);
      OrAtByte(ws, n, 0x80, k);
    }
  }

  lemma SuffixByte(n: nat, bits: nat, bs: nat, format: Format, j: nat)
    requires HashBlock(bs) && n + j < 4 * PaddedWords(n, bs)
    ensures |Suffix(n, bits, bs, format)| == 4 * PaddedWords(n, bs) - n
    ensures var L := PaddedWords(n, bs);
            Suffix(n, bits, bs, format)[j] ==
            if n + j >= 4 * L - 8 then At(LengthWords(format, bits), n + j - (4 * L - 8)) else if j == 0 then 0x80 else 0
  {
    WordsOfPadded(n, bs);
    hide LengthWords, PaddedWords, ZeroCount, At;
  }

  /** The buffer holds the standard's padding exactly when the rest carried no junk. */
  lemma PaddingExact(ws: seq<Word>, n: nat, bits: nat, bs: nat, format: Format)
    requires HashBlock(bs) && |ws| == WordCount(n) && n + Reserve(bs) < 0x2000_0000
    ensures Bytes(Marked(ws, n, bits, bs, format), 4 * PaddedWords(n, bs)) == Padded(Bytes(ws, n), bits, bs, format) <==> JunkFree(ws, n)
  {
    var r, p, L := Marked(ws, n, bits, bs, format), Padded(Bytes(ws, n), bits, bs, format), PaddedWords(n, bs);
    LeastBlocks(Bytes(ws, n), bits, bs, format);
    WordsOfPadded(n, bs);
    MatchesIsJunkFree(ws, n, L);
    hide *;
    forall k: nat | k < 4 * L ensures At(r, k) == p[k] <==> Matches(ws, n, L, k) {
      ByteMatches(ws, n, bits, bs, format, k);
    }
  }

  lemma MatchesIsJunkFree(ws: seq<Word>, n: nat, L: nat)
    requires |ws| == WordCount(n) && n + 9 <= 4 * L
    ensures (forall k: nat :: k < 4 * L ==> Matches(ws, n, L, k)) <==> JunkFree(ws, n)
  {
    forall k: nat | 4 * L - 8 <= k ensures At(ws, k) == 0 {
      PastEnd(ws, k);
    }
    hide At;
    if forall k: nat :: k < 4 * L ==> Matches(ws, n, L, k) {
      assert Matches(ws, n, L, n);
      forall k: nat | n < k ensures At(ws, k) == 0 {
        if k < 4 * L - 8 { assert Matches(ws, n, L, k); }
      }
    }
  }

  /** Byte `k` of the buffer comes out as the standard wants it. */
  ghost predicate Matches(ws: seq<Word>, n: nat, L: nat, k: nat) {
    k < n || k >= 4 * L - 8 || (if k == n then At(ws, n) == 0 || At(ws, n) == 0x80 else At(ws, k) == 0)
  }

  lemma ByteMatches(ws: seq<Word>, n: nat, bits: nat, bs: nat, format: Format, k: nat)
    requires HashBlock(bs) && |ws| == WordCount(n) && n + Reserve(bs) < 0x2000_0000 && k < 4 * PaddedWords(n, bs)
    ensures |Padded(Bytes(ws, n), bits, bs, format)| == 4 * PaddedWords(n, bs)
    ensures At(Marked(ws, n, bits, bs, format), k) == Padded(Bytes(ws, n), bits, bs, format)[k] <==> Matches(ws, n, PaddedWords(n, bs), k)
  {
    LeastBlocks(Bytes(ws, n), bits, bs, format);
    WordsOfPadded(n, bs);
    MarkedByte(ws, n, bits, bs, format, k);
    if k >= n { SuffixByte(n, bits, bs, format, k - n); }
    hide Marked, At, PaddedWords, Suffix, LengthWords;
  }

  lemma PastEnd(ws: seq<Word>, k: nat)
    requires k >= 4 * |ws|
    ensures At(ws, k) == 0
  {
    AtDef(ws, k);
    hide ByteOf, At;
    ZeroBytes(k % 4);
  }

  // ---------------------------------------------------------------- digests

  lemma PaddedIsWhole(msg: seq<Byte>, bits: nat, bs: nat, format: Format)
    requires HashBlock(bs)
    ensures Whole(|Padded(msg, bits, bs, format)|, 4 * bs)
  {
    hide Padded;
  }

  /** The step function folded over the blocks of `p`. */
  ghost function Folded<S>(step: Step<S>, initial: S, bs: nat, p: seq<Byte>): S
    requires HashBlock(bs) && Whole(|p|, 4 * bs)
  {
    WholeWords(|p|, bs);
    Run(step, initial, Pack(p), bs).0
  }

  /** The reference: the step function folded over the blocks of the padded message. */
  ghost function Digest<S>(step: Step<S>, initial: S, bs: nat, format: Format, msg: seq<Byte>): S
    requires HashBlock(bs)
  {
    PaddedIsWhole(msg, 8 * |msg|, bs, format);
    Folded(step, initial, bs, Padded(msg, 8 * |msg|, bs, format))
  }

  /** Block `t` of `p` takes one state to the next. */
  ghost predicate Leads<S(!new)>(step: Step<S>, bs: nat, p: seq<Byte>, t: nat, s: S, next: S) {
    var o := 4 * bs * t;
    o + 4 * bs <= |p| && bs > 0 && next == step(s, Pack(p[o..o + 4 * bs])).0
  }

  /** The states between the blocks of `p`, from the initial one on. */
  ghost predicate States<S(!new)>(step: Step<S>, initial: S, bs: nat, p: seq<Byte>, H: seq<S>) {
    && HashBlock(bs) && |p| % (4 * bs) == 0
    && |H| == |p| / (4 * bs) + 1 && H[0] == initial
    && forall t: nat :: t < |H| - 1 ==> Leads(step, bs, p, t, H[t], H[t + 1])
  }

  /** The digest is the state after the last block of the padded message. */
  lemma DigestIs<S(!new)>(step: Step<S>, initial: S, bs: nat, format: Format, msg: seq<Byte>, H: seq<S>)
    requires HashBlock(bs) && States(step, initial, bs, Padded(msg, 8 * |msg|, bs, format), H)
    ensures Digest(step, initial, bs, format, msg) == H[|H| - 1]
  {
    var p := Padded(msg, 8 * |msg|, bs, format);
    PaddedIsWhole(msg, 8 * |msg|, bs, format);
    FoldedTo(step, initial, bs, p, H, |p| / (4 * bs));
    WholeBlocks(|p|, bs, |p| / (4 * bs));
    assert Pack(p)[..|p| / 4] == Pack(p);
    hide Padded, Run, Leads;
  }

  lemma WholeBlocks(n: nat, bs: nat, t: nat)
    requires HashBlock(bs) && n % (4 * bs) == 0 && t <= n / (4 * bs)
    ensures bs * t <= n / 4 && Whole(bs * t, bs) && Whole(n / 4, bs) && n % 4 == 0 && 4 * bs * t == 4 * (bs * t)
    ensures t == n / (4 * bs) ==> bs * t == n / 4
    ensures t > 0 ==> bs * (t - 1) + bs == bs * t
  {
    if bs == 16 { BlocksOf16(n, t); } else { BlocksOf32(n, t); }
  }

  lemma BlocksOf16(n: nat, t: nat)
    requires n % 64 == 0 && t <= n / 64
    ensures 16 * t <= n / 4 && (16 * t) % 16 == 0 && (n / 4) % 16 == 0 && n % 4 == 0 && (t == n / 64 ==> 16 * t == n / 4)
  {
    assert n == 64 * (n / 64);
  }

  lemma BlocksOf32(n: nat, t: nat)
    requires n % 128 == 0 && t <= n / 128
    ensures 32 * t <= n / 4 && (32 * t) % 32 == 0 && (n / 4) % 32 == 0 && n % 4 == 0 && (t == n / 128 ==> 32 * t == n / 4)
  {
    assert n == 128 * (n / 128);
  }

  lemma BlockWords(p: seq<Byte>, o: nat, bs: nat)
    requires |p| % 4 == 0 && 4 * o + 4 * bs <= |p|
    ensures Pack(p[4 * o..4 * o + 4 * bs]) == Pack(p)[o..o + bs]
  {
    hide PackWord;
    var b := p[4 * o..4 * o + 4 * bs];
    forall i: nat | i < bs ensures Pack(b)[i] == Pack(p)[o + i] {
      assert b[4 * i] == p[4 * (o + i)];
    }
  }

  lemma {:induction false} FoldedTo<S(!new)>(step: Step<S>, initial: S, bs: nat, p: seq<Byte>, H: seq<S>, t: nat)
    requires States(step, initial, bs, p, H) && t <= |p| / (4 * bs)
    ensures |p| % 4 == 0 && bs * t <= |Pack(p)| && Whole(bs * t, bs) && Run(step, initial, Pack(p)[..bs * t], bs).0 == H[t]
  {
    WholeBlocks(|p|, bs, t);
    if t == 0 {
      RunNothing(step, initial, Pack(p)[..bs * t], bs);
    } else {
      WholeBlocks(|p|, bs, t - 1);
      FoldedTo(step, initial, bs, p, H, t - 1);
      assert Leads(step, bs, p, t - 1, H[t - 1], H[t - 1 + 1]);
      BlockWords(p, bs * (t - 1), bs);
      hide Run, Pack, HashBlock;
      NextBlock(step, initial, Pack(p), bs * (t - 1), bs);
    }
  }

  lemma RunNothing<S>(f: Step<S>, s: S, ws: seq<Word>, bs: nat)
    requires bs > 0 && ws == []
    ensures Run(f, s, ws, bs) == (s, [])
  {}

  /** The caller's last piece ends in nothing but zeros, or the marker's own bit; words past the
      one it ends in do not matter. */
  ghost predicate EndJunkFree(ws: seq<Word>, n: nat) {
    forall j: nat :: n <= j < 4 * WordCount(n) ==> At(ws, j) == 0 || (j == n && At(ws, j) == 0x80)
  }

  lemma CleanEnds(ws: seq<Word>, n: nat)
    requires Clean(ws, n)
    ensures EndClean(ws, n) && EndJunkFree(ws, n) && JunkFree(ws, n)
  {}

  /** One byte, 0x61, with ones behind it in its word. */
  lemma JunkBehind()
    ensures !EndJunkFree([0x61ff_ffff], 1)
  {
    AtDef([0x61ff_ffff], 1);
    assert ByteOf(0x61ff_ffff, 1) == 0xff;
    hide At, ByteOf;
    assert At([0x61ff_ffff], 1) == 0xff;
  }

  /** The buffer is free of junk exactly when its last piece was, or was copied byte by byte. */
  lemma JunkFreeWhen(ws: seq<Word>, n: nat, other: seq<Word>, m: nat)
    requires EndsAs(ws, n, other, m)
    ensures JunkFree(ws, n + m) <==> n % 4 != 0 || EndJunkFree(other, m)
  {
    hide At;
    if JunkFree(ws, n + m) && n % 4 == 0 {
      forall j: nat | m <= j < 4 * WordCount(m)
        ensures At(other, j) == 0 || (j == m && At(other, j) == 0x80)
      {
        assert At(ws, n + j) == At(other, n + j - n);
      }
    }
  }

  lemma SameEndSameJunk(v: seq<Word>, m: nat, w: seq<Word>, n: nat)
    requires SameEnd(v, m, w, n)
    ensures JunkFree(v, m) <==> JunkFree(w, n)
    ensures Clean(v, m) <==> Clean(w, n)
  {
    hide At;
    PastIs(v, m, w, n);
    PastIs(w, n, v, m);
  }

  lemma PastIs(v: seq<Word>, m: nat, w: seq<Word>, n: nat)
    requires SameEnd(v, m, w, n)
    ensures JunkFree(v, m) ==> JunkFree(w, n)
    ensures Clean(v, m) ==> Clean(w, n)
  {
    hide At;
    assert Past(v, m, 0) == Past(w, n, 0);
    forall k: nat | n <= k
      ensures At(w, k) == At(v, m + (k - n))
    {
      assert Past(v, m, k - n) == Past(w, n, k - n);
    }
  }

  /** `_process` takes every whole block of a buffer this small. */
  lemma TakesAll<S(!new)>(buf: BufferedBlock<S>, total: nat, words: nat)
    requires HashBlock(buf.blockSize) && buf.minBufferSize == 0 && words % buf.blockSize == 0
    requires 4 * words <= total < 4 * words + 8 && total < 0x4000_0000
    ensures buf.WordsReady(total, false) == words
  {
    if buf.blockSize == 16 {
      assert total / 64 == words / 16;
    } else {
      assert total / 128 == words / 32;
    }
    buf.ReadyCount(total);
  }

  /** Less than a block stays behind. */
  lemma LessThanBlock<S(!new)>(buf: BufferedBlock<S>, n: nat)
    requires HashBlock(buf.blockSize) && buf.minBufferSize == 0
    ensures n < TWO31 ==> n - 4 * buf.WordsReady(n, false) < 4 * buf.blockSize
  {
    buf.ReadyCount(n);
  }

  class Hasher<S(!new)> {
    const format: Format
    const buf: BufferedBlock<S>

    ghost predicate Valid()
      reads this, buf, buf.data
    {
      buf.Valid() && HashBlock(buf.blockSize) && buf.minBufferSize == 0
    }

    /** The message so far, as long as nothing but `update` has touched the buffer. */
    ghost predicate Open()
      reads this, buf, buf.data
    {
      Valid() && buf.Counted()
    }

    constructor (step: Step<S>, initial: S, blockSize: nat, format: Format)
      requires HashBlock(blockSize) && KeepsLength(step, blockSize)
      ensures Open() && fresh(buf) && fresh(buf.data) && buf.given == [] && buf.data.sigBytes == 0 && buf.data.Tidy()
      ensures buf.step == step && buf.initial == initial && buf.blockSize == blockSize && this.format == format
      ensures buf.minBufferSize == 0
    {
      this.format := format;
      buf := new BufferedBlock(step, initial, blockSize, 0);
    }

    method Reset()
      requires HashBlock(buf.blockSize) && KeepsLength(buf.step, buf.blockSize) && buf.minBufferSize == 0
      modifies buf
      ensures Open() && fresh(buf.data) && buf.given == [] && buf.data.sigBytes == 0 && buf.data.Tidy()
    {
      buf.Reset();
    }

    method Update(more: WordArray)
      requires Open()
      modifies buf, buf.data
      ensures Open() && buf.data == old(buf.data) && buf.given == old(buf.given) + old(more.Content())
      ensures buf.data.sigBytes <= old(buf.data.sigBytes) + old(more.sigBytes)
      ensures JunkFree(buf.data.words, buf.data.sigBytes) <==>
              old(buf.data.sigBytes) % 4 != 0 || EndJunkFree(old(more.words), old(more.sigBytes))
      ensures buf.data.Tidy() <==> old(buf.data.sigBytes) % 4 != 0 || EndClean(old(more.words), old(more.sigBytes))
      ensures old(buf.data.sigBytes) + old(more.sigBytes) < TWO31 ==> buf.data.sigBytes < 4 * buf.blockSize
    {
      hide JunkFree, EndJunkFree, EndClean, Clean, SameEnd, EndsAs, Run, Pack, Bytes, KeepsLength, Whole, WordCount, Get, At;
      ghost var n0, other, m := buf.data.sigBytes, more.words, more.sigBytes;
      buf.Append(more);
      ghost var ws, n := buf.data.words, buf.data.sigBytes;
      assert n == n0 + m by { assert |buf.data.Content()| == n; }
      JunkFreeWhen(ws, n0, other, m);
      var out, used := buf.Process(false);
      SameEndSameJunk(buf.data.words, buf.data.sigBytes, ws, n);
      LessThanBlock(buf, n);
    }

    /** What is buffered ends where the message does, seen in words. */
    lemma Aligned()
      requires Open()
      ensures buf.data.sigBytes % 4 == |buf.given| % 4 && buf.data.sigBytes <= |buf.given|
    {
      hide Run, Pack, Bytes, KeepsLength;
      assert |buf.given| == |buf.taken| + buf.data.sigBytes by { assert |buf.data.Content()| == buf.data.sigBytes; }
      WholeWords(|buf.taken|, buf.blockSize);
    }

    /** Hashing `padded` gave `hash`; `padded` is the message padded as the standard asks exactly
        when `right` holds, and `hash` is then its digest. */
    ghost predicate Hashed(hash: S, padded: seq<Byte>, msg: seq<Byte>, right: bool) {
      && HashBlock(buf.blockSize) && Whole(|padded|, 4 * buf.blockSize)
      && hash == Folded(buf.step, buf.initial, buf.blockSize, padded)
      && (padded == Padded(msg, 8 * |msg|, buf.blockSize, format) <==> right)
      && (right ==> hash == Digest(buf.step, buf.initial, buf.blockSize, format, msg))
    }

    /** `finalize(more)`, where `more` is optional. Only the word in which the last piece ends can
        spoil the padding, and only where pieces are appended word by word. */
    method Finalize(more: WordArray?) returns (hash: S, ghost padded: seq<Byte>)
      requires Open()
      modifies buf, buf.data
      ensures buf.data == old(buf.data)
      ensures more == null && old(buf.data.sigBytes) + Reserve(buf.blockSize) < 0x2000_0000 ==>
                Hashed(hash, padded, old(buf.given), old(JunkFree(buf.data.words, buf.data.sigBytes)))
      ensures more != null && old(buf.data.sigBytes) + old(more.sigBytes) + Reserve(buf.blockSize) < 0x2000_0000 ==>
                Hashed(hash, padded, old(buf.given) + old(more.Content()),
                       old(buf.data.sigBytes) % 4 != 0 || EndJunkFree(old(more.words), old(more.sigBytes)))
    {
      hide JunkFree, EndJunkFree, EndClean, Clean, EndsAs, Run, Pack, Bytes, KeepsLength, Hashed;
      if more != null {
        ghost var n, other, m := buf.data.sigBytes, more.words, more.sigBytes;
        buf.Append(more);
        assert buf.data.sigBytes == n + m by { assert |buf.data.Content()| == buf.data.sigBytes; }
        JunkFreeWhen(buf.data.words, n, other, m);
      }
      hide *;
      hash, padded := DoFinalize();
    }

    /** Padding, the last blocks, and the hash value. The padding goes into the buffer without
        being counted. MD5 claims one word more than it wrote, so that slot reads as 0. */
    method DoFinalize() returns (hash: S, ghost padded: seq<Byte>)
      requires Open()
      modifies buf, buf.data
      ensures buf.data == old(buf.data)
      ensures old(buf.data.sigBytes) + Reserve(buf.blockSize) < 0x2000_0000 ==>
                Hashed(hash, padded, old(buf.given), old(JunkFree(buf.data.words, buf.data.sigBytes)))
    {
      ghost var free, given0 := JunkFree(buf.data.words, buf.data.sigBytes), buf.given;
      ghost var n := buf.data.sigBytes;
      padded := WritePadding();
      ghost var total, given := buf.data.sigBytes, buf.given;
      ghost var small := n + Reserve(buf.blockSize) < 0x2000_0000;
      if small { assert Written(given0, n, free, given, total, padded, buf.blockSize, format); }
      hide *;
      var out, used := buf.Process(false);
      hash := buf.state;
      if small {
        WholePadding(n, buf.blockSize);
        WrittenParts(given0, n, free, given, total, padded, buf.blockSize, format);
        TakesAll(buf, total, PaddedWords(n, buf.blockSize));
        AllTaken(padded, Trailer(format));
        MakeHashed(hash, padded, given0, free);
      }
    }

    lemma MakeHashed(hash: S, padded: seq<Byte>, msg: seq<Byte>, right: bool)
      requires HashBlock(buf.blockSize) && Whole(|padded|, 4 * buf.blockSize)
      requires hash == Folded(buf.step, buf.initial, buf.blockSize, padded)
      requires padded == Padded(msg, 8 * |msg|, buf.blockSize, format) <==> right
      ensures Hashed(hash, padded, msg, right)
    {
      hide Folded, Padded;
    }

    /** The three writes to the buffer's words, and the byte count that covers them. */
    method WritePadding() returns (ghost padded: seq<Byte>)
      requires Open()
      modifies buf`given, buf.data
      ensures Valid() && buf.data == old(buf.data)
      ensures old(buf.data.sigBytes) + Reserve(buf.blockSize) < 0x2000_0000 ==>
                Written(old(buf.given), old(buf.data.sigBytes), old(JunkFree(buf.data.words, buf.data.sigBytes)),
                        buf.given, buf.data.sigBytes, padded, buf.blockSize, format)
    {
      var nBitsTotal := buf.nDataBytes * 8;
      var n := buf.data.sigBytes;
      ghost var ws, taken, content := buf.data.words, buf.taken, buf.data.Content();
      assert content == Bytes(ws, n) && |ws| == WordCount(n) && buf.given == taken + content && nBitsTotal == 8 * |taken + content|;
      ghost var run := buf.Taken();
      hide *;
      var dataWords := MarkWords(buf.data.words, n, nBitsTotal, buf.blockSize, format);
      buf.data.words := dataWords;
      buf.data.sigBytes := |dataWords| * 4;
      buf.given := taken + buf.data.Content();
      padded := taken + Bytes(Marked(ws, n, nBitsTotal, buf.blockSize, format), 4 * PaddedWords(n, buf.blockSize));
      if n + Reserve(buf.blockSize) < 0x2000_0000 {
        PaddingWritten(ws, n, taken, content, 8 * |taken + content|, buf.blockSize, format);
      }
    }

    lemma AllTaken(padded: seq<Byte>, trailer: seq<Byte>)
      requires Valid() && buf.given == padded + trailer && buf.data.sigBytes == |trailer| && Whole(|padded|, 4 * buf.blockSize)
      ensures buf.state == Folded(buf.step, buf.initial, buf.blockSize, padded)
    {
      hide Pack, Run, Bytes;
      SameFront(buf.taken, buf.data.Content(), padded, trailer);
    }
  }

  lemma SameFront<T>(a: seq<T>, b: seq<T>, c: seq<T>, d: seq<T>)
    requires a + b == c + d && |b| == |d|
    ensures a == c
  {
    assert a == (a + b)[..|a|] && c == (c + d)[..|c|];
  }

  /** The marker at the first free byte, and the bit count in the last two words. */
  method MarkWords(ws: seq<Word>, n: nat, nBitsTotal: nat, bs: nat, format: Format) returns (dataWords: seq<Word>)
    requires HashBlock(bs)
    ensures dataWords == if format == LittleEndian then Marked(ws, n, nBitsTotal, bs, format) + [0] else Marked(ws, n, nBitsTotal, bs, format)
  {
    hide Mark, LengthWords, LastBlock, MarkIndex, Put, Get;
    dataWords := Put(ws, MarkIndex(n), Mark(Get(ws, MarkIndex(n)), n % 4));
    var base := LastBlock(n, bs);
    var length := LengthWords(format, nBitsTotal);
    dataWords := Put(dataWords, base + bs - 2, length[0]);
    dataWords := Put(dataWords, base + bs - 1, length[1]);
    if format == LittleEndian {
      dataWords := dataWords + [0];
    }
  }

  /** MD5's extra word. */
  function Trailer(format: Format): (t: seq<Byte>)
    ensures |t| == 0 || |t| == 4
  {
    if format == BigEndian then [] else [0, 0, 0, 0]
  }

  lemma WholePadding(n: nat, bs: nat)
    requires HashBlock(bs) && n + Reserve(bs) < 0x2000_0000
    ensures PaddedWords(n, bs) % bs == 0 && 4 * PaddedWords(n, bs) < 0x3000_0000
  {
  }

  /** After the padding has been written over a buffer of `n` bytes: `given` are all the bytes
      then, of which `total` are buffered, and `padded` those that are about to be hashed. */
  ghost predicate Written(msg: seq<Byte>, n: nat, free: bool, given: seq<Byte>, total: nat, padded: seq<Byte>, bs: nat, format: Format) {
    && HashBlock(bs) && Whole(|padded|, 4 * bs)
    && given == padded + Trailer(format)
    && total == 4 * PaddedWords(n, bs) + |Trailer(format)|
    && (padded == Padded(msg, 8 * |msg|, bs, format) <==> free)
  }

  lemma WrittenParts(msg: seq<Byte>, n: nat, free: bool, given: seq<Byte>, total: nat, padded: seq<Byte>, bs: nat, format: Format)
    requires Written(msg, n, free, given, total, padded, bs, format)
    ensures HashBlock(bs) && Whole(|padded|, 4 * bs) && given == padded + Trailer(format)
    ensures total == 4 * PaddedWords(n, bs) + |Trailer(format)| && |Trailer(format)| <= 4
    ensures padded == Padded(msg, 8 * |msg|, bs, format) <==> free
  {
    hide Padded, PaddedWords;
  }

  lemma PaddingWritten(ws: seq<Word>, n: nat, taken: seq<Byte>, content: seq<Byte>, bits: nat, bs: nat, format: Format)
    requires HashBlock(bs) && |ws| == WordCount(n) && n + Reserve(bs) < 0x2000_0000
    requires content == Bytes(ws, n) && |taken| % (4 * bs) == 0 && bits == 8 * |taken + content|
    ensures var r := Marked(ws, n, bits, bs, format);
            var w := if format == LittleEndian then r + [0] else r;
            Written(taken + content, n, JunkFree(ws, n), taken + Bytes(w, |w| * 4), |w| * 4,
                    taken + Bytes(r, 4 * PaddedWords(n, bs)), bs, format)
  {
    var r := Marked(ws, n, bits, bs, format);
    var w := if format == LittleEndian then r + [0] else r;
    var b, c := Bytes(r, 4 * PaddedWords(n, bs)), Padded(content, bits, bs, format);
    MarkedWords(ws, n, bits, bs, format);
    PaddingExact(ws, n, bits, bs, format);
    PaddedTail(taken, content, bits, bs, format);
    LeastBlocks(content, bits, bs, format);
    assert |b| == |c|;
    PaddedIsWhole(taken + content, bits, bs, format);
    hide *;
    WithTrailer(r, b, format);
    SameBack(taken, b, c);
    Assoc3(taken, b, Trailer(format));
    assert |taken + b| == |taken + c|;
    MakeWritten(taken + content, n, JunkFree(ws, n), taken + Bytes(w, |w| * 4), |w| * 4, taken + b, bs, format);
  }

  lemma MakeWritten(msg: seq<Byte>, n: nat, free: bool, given: seq<Byte>, total: nat, padded: seq<Byte>, bs: nat, format: Format)
    requires HashBlock(bs) && Whole(|padded|, 4 * bs) && given == padded + Trailer(format)
    requires total == 4 * PaddedWords(n, bs) + |Trailer(format)|
    requires padded == Padded(msg, 8 * |msg|, bs, format) <==> free
    ensures Written(msg, n, free, given, total, padded, bs, format)
  {
    hide Padded, PaddedWords;
  }

  lemma SameBack<T>(a: seq<T>, b: seq<T>, c: seq<T>)
    ensures a + b == a + c <==> b == c
  {
    assert b == (a + b)[|a|..] && c == (a + c)[|a|..];
  }

  lemma WithTrailer(r: seq<Word>, p: seq<Byte>, format: Format)
    requires Bytes(r, 4 * |r|) == p
    ensures var w := if format == LittleEndian then r + [0] else r;
            |w| * 4 == 4 * |r| + |Trailer(format)| && Bytes(w, |w| * 4) == p + Trailer(format)
  {
    hide At;
    if format == LittleEndian {
      ZeroWord();
      BytesConcat(r, [0], 4);
    }
  }

  lemma Assoc3<T>(a: seq<T>, b: seq<T>, c: seq<T>)
    ensures a + (b + c) == (a + b) + c
  {}

  lemma ZeroWord()
    ensures Bytes([0], 4) == [0, 0, 0, 0]
  {
    ZeroBytes(0); ZeroBytes(1); ZeroBytes(2); ZeroBytes(3);
    AtDef([0], 0); AtDef([0], 1); AtDef([0], 2); AtDef([0], 3);
    hide ByteOf, At;
  }
}
