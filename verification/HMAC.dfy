/** HMAC over any hasher. One hasher object serves for the inner and the outer pass and is
    left finalized; `reset` makes it ready for the next message. */
module HMAC {
  import opened WordArrays
  import opened Streaming
  import opened Hashing

  /** The words a finalized hasher hands out: its state, or the state's bytes reversed. */
  type Output<!S> = S -> seq<Word>

  ghost predicate OutputFits<S(!new)>(output: Output<S>, bs: nat) {
    forall s: S :: 0 < |output(s)| <= bs
  }

  /** A hash function on bytes. */
  datatype Hash<!S> = Hash(step: Step<S>, initial: S, bs: nat, format: Format, output: Output<S>)

  ghost predicate Usable<S(!new)>(h: Hash<S>) {
    HashBlock(h.bs) && KeepsLength(h.step, h.bs) && OutputFits(h.output, h.bs)
  }

  ghost function HashOf<S>(h: Hash<S>, msg: seq<Byte>): seq<Word>
    requires HashBlock(h.bs)
  {
    h.output(Digest(h.step, h.initial, h.bs, h.format, msg))
  }

  // ---------------------------------------------------------------- section 2 of RFC 2104

  /** The key as a block: hashed if it is longer than one, then filled up with zeros. */
  ghost function BlockKey<S(!new)>(h: Hash<S>, key: seq<Byte>): (b: seq<Byte>)
    requires Usable(h)
    ensures |b| == 4 * h.bs
  {
    FilledUp(if |key| > 4 * h.bs then Unpack(HashOf(h, key)) else key, 4 * h.bs)
  }

  function FilledUp(k: seq<Byte>, n: nat): (b: seq<Byte>)
    requires |k| <= n
    ensures |b| == n
  {
    k + ZeroBytesSeq(n - |k|)
  }

  function XorAll(b: seq<Byte>, c: Byte): (r: seq<Byte>)
    ensures |r| == |b|
  {
    seq(|b|, i requires 0 <= i < |b| => XorByte(b[i], c))
  }

  ghost function Hmac<S(!new)>(h: Hash<S>, key: seq<Byte>, msg: seq<Byte>): seq<Word>
    requires Usable(h)
  {
    var k := BlockKey(h, key);
    HashOf(h, XorAll(k, 0x5c) + Unpack(HashOf(h, XorAll(k, 0x36) + msg)))
  }

  /** `words` is the outer hash over that of the bytes `padded`; these are the inner message padded
      as the standard asks exactly when `right` holds, and `words` is then the HMAC. */
  ghost predicate Authenticates<S(!new)>(h: Hash<S>, key: seq<Byte>, msg: seq<Byte>, padded: seq<Byte>, right: bool, words: seq<Word>) {
    && Usable(h) && Whole(|padded|, 4 * h.bs)
    && words == HashOf(h, XorAll(BlockKey(h, key), 0x5c) + Unpack(HashedBytes(h, padded)))
    && (padded == PaddedText(h, XorAll(BlockKey(h, key), 0x36) + msg) <==> right)
    && (right ==> words == Hmac(h, key, msg))
  }

  ghost function HashedBytes<S>(h: Hash<S>, padded: seq<Byte>): seq<Word>
    requires HashBlock(h.bs) && Whole(|padded|, 4 * h.bs)
  {
    h.output(Folded(h.step, h.initial, h.bs, padded))
  }

  function PaddedText<S>(h: Hash<S>, msg: seq<Byte>): seq<Byte>
    requires HashBlock(h.bs)
  {
    Padded(msg, 8 * |msg|, h.bs, h.format)
  }

  lemma HashedText<S>(h: Hash<S>, msg: seq<Byte>)
    requires HashBlock(h.bs)
    ensures Whole(|PaddedText(h, msg)|, 4 * h.bs) && HashedBytes(h, PaddedText(h, msg)) == HashOf(h, msg)
  {
    PaddedIsWhole(msg, 8 * |msg|, h.bs, h.format);
    hide Padded, Folded;
  }

  /** A key longer than a block: its block is made of the hash over `padded`; these are the key's
      bytes padded as the standard asks exactly when `right` holds, and the key is then itself. */
  ghost predicate KeyHashed<S(!new)>(h: Hash<S>, effective: seq<Byte>, key: seq<Byte>, padded: seq<Byte>, right: bool) {
    && Usable(h) && Whole(|padded|, 4 * h.bs)
    && |Unpack(HashedBytes(h, padded))| <= 4 * h.bs && BlockKey(h, effective) == FilledUp(Unpack(HashedBytes(h, padded)), 4 * h.bs)
    && (padded == PaddedText(h, key) <==> right)
    && (right ==> effective == key)
  }

  /** Section 2 of RFC 2104 byte by byte: whoever fills the key up to a block, and mixes one copy of it
      with 0x36 and another with 0x5c, gets the HMAC by hashing twice. */
  lemma HmacIs<S(!new)>(h: Hash<S>, key: seq<Byte>, msg: seq<Byte>, block: seq<Byte>, inner: seq<Byte>, outer: seq<Byte>)
    requires Usable(h) && |block| == |inner| == |outer| == 4 * h.bs
    requires var k := if |key| > 4 * h.bs then Unpack(HashOf(h, key)) else key;
             |k| <= |block| && (forall i :: 0 <= i < |k| ==> block[i] == k[i]) && (forall i :: |k| <= i < |block| ==> block[i] == 0)
    requires forall i :: 0 <= i < |block| ==> inner[i] == block[i] ^ 0x36 && outer[i] == block[i] ^ 0x5c
    ensures Hmac(h, key, msg) == HashOf(h, outer + Unpack(HashOf(h, inner + msg)))
  {
    var k := if |key| > 4 * h.bs then Unpack(HashOf(h, key)) else key;
    hide KeepsLength, OutputFits, HashOf, Bytes;
    assert block == FilledUp(k, 4 * h.bs);
    assert inner == XorAll(block, 0x36);
    assert outer == XorAll(block, 0x5c);
  }

  // ---------------------------------------------------------------- the pads

  /** `words[i] ^= pad` for every word of a block; slots past the end are 0. */
  function Xored(ws: seq<Word>, pad: Word, bs: nat): (r: seq<Word>)
    ensures |r| == bs
  {
    seq(bs, i requires 0 <= i => Xor(Get(ws, i), pad))
  }

  method XorPad(ws: seq<Word>, pad: Word, bs: nat) returns (r: seq<Word>)
    requires |ws| <= bs
    ensures r == Xored(ws, pad, bs)
  {
    hide Xor;
    r := ws;
    for i := 0 to bs
      invariant |ws| <= bs && |r| == if i < |ws| then |ws| else i
      invariant forall k: nat :: Get(r, k) == if k < i then Xor(Get(ws, k), pad) else Get(ws, k)
    {
      r := Put(r, i, Xor(Get(r, i), pad));
    }
    forall i: nat | i < bs ensures r[i] == Xored(ws, pad, bs)[i] {
      assert Get(r, i) == r[i];
    }
  }

  /** A word whose four bytes are all `c`. */
  ghost predicate Repeats(pad: Word, c: Byte) {
    ByteOf(pad, 0) == c && ByteOf(pad, 1) == c && ByteOf(pad, 2) == c && ByteOf(pad, 3) == c
  }

  lemma Pads()
    ensures Repeats(0x5c5c_5c5c, 0x5c) && Repeats(0x3636_3636, 0x36)
  {}

  lemma XoredByte(ws: seq<Word>, pad: Word, c: Byte, bs: nat, i: nat)
    requires Repeats(pad, c) && i < 4 * bs
    ensures At(Xored(ws, pad, bs), i) == XorByte(At(ws, i), c)
  {
    AtDef(Xored(ws, pad, bs), i);
    AtDef(ws, i);
    hide ByteOf, At, Xor, XorByte;
    assert Get(Xored(ws, pad, bs), i / 4) == Xor(Get(ws, i / 4), pad);
    XorBytes(Get(ws, i / 4), pad, i % 4);
  }

  /** The pad applied to words is the pad applied to the filled-up key. */
  lemma XoredBytes(ws: seq<Word>, n: nat, pad: Word, c: Byte, bs: nat)
    requires Clean(ws, n) && n <= 4 * bs && Repeats(pad, c)
    ensures Bytes(Xored(ws, pad, bs), 4 * bs) == XorAll(Bytes(ws, n) + ZeroBytesSeq(4 * bs - n), c)
  {
    hide At, Xored, XorByte, Repeats;
    forall i: nat | i < 4 * bs ensures At(Xored(ws, pad, bs), i) == XorByte(At(ws, i), c) {
      XoredByte(ws, pad, c, bs, i);
    }
  }

  // ---------------------------------------------------------------- the algorithm object

  /** Long enough for every message whose padding comes out right. */
  const LIMIT: nat := 0x2000_0000

  class HmacHasher<S(!new)> {
    ghost const h: Hash<S>
    ghost const key: seq<Byte>
    ghost const keyPadded: seq<Byte>   // the bytes hashed for a long key
    const output: Output<S>
    const hasher: Hasher<S>
    const oKey: WordArray
    const iKey: WordArray

    /** A key longer than a block is hashed first; the caller's own array is only clamped. */
    constructor (h: Hash<S>, key: WordArray)
      requires Usable(h)
      modifies key`words
      ensures this.h == h && Open([]) && fresh(hasher) && fresh(hasher.buf) && fresh(hasher.buf.data) && fresh(oKey) && fresh(iKey)
      ensures old(key.sigBytes) <= 4 * h.bs ==> this.key == old(key.Content())
      ensures old(key.sigBytes) > 4 * h.bs && old(key.sigBytes) + 4 * h.bs < LIMIT ==>
                KeyHashed(h, this.key, old(key.Content()), keyPadded, EndJunkFree(old(key.words), old(key.sigBytes)))
      ensures key.Content() == old(key.Content())
    {
      hide *;
      UsableParts(h);
      var hasher := new Hasher(h.step, h.initial, h.bs, h.format);
      var keyWords, n, effective, padded := PrepareKey(h, hasher, key);
      var oWords := XorPad(keyWords, 0x5c5c_5c5c, h.bs);
      var iWords := XorPad(keyWords, 0x3636_3636, h.bs);
      this.h, this.key, this.keyPadded, this.output, this.hasher := h, effective, padded, h.output, hasher;
      oKey := new WordArray(oWords, 4 * h.bs);
      iKey := new WordArray(iWords, 4 * h.bs);
      new;
      Pads();
      Binds();
      MakeReady(keyWords, n);
      Reset();
    }

    /** The hasher is the one `h` describes. */
    ghost predicate Bound()
      reads this, hasher.buf
    {
      && Usable(h) && output == h.output && hasher.format == h.format
      && hasher.buf.step == h.step && hasher.buf.initial == h.initial && hasher.buf.blockSize == h.bs && hasher.buf.minBufferSize == 0
    }

    lemma Binds()
      requires Usable(h) && output == h.output && hasher.format == h.format
      requires hasher.buf.step == h.step && hasher.buf.initial == h.initial && hasher.buf.blockSize == h.bs && hasher.buf.minBufferSize == 0
      ensures Bound()
    {
      hide KeepsLength, OutputFits;
    }

    lemma MakeReady(keyWords: seq<Word>, n: nat)
      requires Bound() && PaddedKey(h, key, keyWords, n) && Repeats(0x5c5c_5c5c, 0x5c) && Repeats(0x3636_3636, 0x36)
      requires oKey.words == Xored(keyWords, 0x5c5c_5c5c, h.bs) && oKey.sigBytes == 4 * h.bs
      requires iKey.words == Xored(keyWords, 0x3636_3636, h.bs) && iKey.sigBytes == 4 * h.bs
      requires hasher.buf.data != iKey && hasher.buf.data != oKey
      ensures Ready()
    {
      hide BlockKey, XorAll, KeepsLength, OutputFits, Bytes, Clean, Xored, Repeats, PaddedKey;
      PadWords(h, key, keyWords, n, 0x5c5c_5c5c, 0x5c, oKey);
      PadWords(h, key, keyWords, n, 0x3636_3636, 0x36, iKey);
    }

    /** The hasher and the two pads, whatever has been hashed so far. */
    ghost predicate Ready()
      reads this, hasher, hasher.buf, oKey, iKey
    {
      && Bound()
      && IsPad(iKey, 0x36) && IsPad(oKey, 0x5c) && hasher.buf.data != iKey && hasher.buf.data != oKey
    }

    ghost predicate IsPad(k: WordArray, c: Byte)
      requires Usable(h)
      reads k
    {
      k.Content() == XorAll(BlockKey(h, key), c) && k.sigBytes == 4 * h.bs && k.Tidy()
    }

    /** Ready, with `msg` taken in since the last reset. */
    ghost predicate Open(msg: seq<Byte>)
      reads this, hasher, hasher.buf, hasher.buf.data, oKey, iKey
    {
      Ready() && hasher.Open() && hasher.buf.given == iKey.Content() + msg
    }

    method Reset()
      requires Ready()
      modifies hasher.buf
      ensures Open([]) && fresh(hasher.buf.data)
    {
      hide XorAll, BlockKey, KeepsLength, Run, Pack, Bytes, Clean;
      hasher.Reset();
      hasher.Update(iKey);
      assert iKey.Content() + [] == iKey.Content();
    }

    method Update(more: WordArray, ghost msg: seq<Byte>)
      requires Open(msg)
      modifies hasher.buf, hasher.buf.data
      ensures Open(msg + old(more.Content())) && hasher.buf.data == old(hasher.buf.data)
    {
      hide XorAll, BlockKey, KeepsLength, Run, Pack, Bytes, Clean;
      ghost var m := more.Content();
      hasher.Update(more);
      Assoc3(iKey.Content(), msg, m);
    }

    /** The inner digest, a reset, and the outer digest; the hasher is left finalized. `padded` are
        the bytes the inner digest was taken of. */
    method Finalize(more: WordArray?, ghost msg: seq<Byte>) returns (hmac: WordArray, ghost padded: seq<Byte>)
      requires Open(msg)
      modifies hasher.buf, hasher.buf.data
      ensures Ready() && fresh(hmac) && hmac.sigBytes == 4 * |hmac.words| && 0 < |hmac.words| <= h.bs
      ensures more == null && 8 * h.bs + |msg| < LIMIT ==>
                Authenticates(h, key, msg, padded, old(JunkFree(hasher.buf.data.words, hasher.buf.data.sigBytes)), hmac.words)
      ensures more != null && 8 * h.bs + |msg| + old(more.sigBytes) < LIMIT ==>
                Authenticates(h, key, msg + old(more.Content()), padded,
                              |msg| % 4 != 0 || EndJunkFree(old(more.words), old(more.sigBytes)), hmac.words)
    {
      ghost var m := if more == null then [] else more.Content();
      ghost var right := if more == null then JunkFree(hasher.buf.data.words, hasher.buf.data.sigBytes)
        else |msg| % 4 != 0 || EndJunkFree(more.words, more.sigBytes);
      assert msg + [] == msg;
      hide *;
      var innerHash;
      innerHash, padded := FinalizeInner(more, msg);
      hmac := FinalizeOuter(innerHash);
      if 8 * h.bs + |msg| + |m| < LIMIT {
        HmacIs(innerHash.words, hmac.words, msg + m, padded, right);
      }
    }

    /** The inner hash of `msg`. */
    ghost predicate Inner(words: seq<Word>, msg: seq<Byte>, padded: seq<Byte>, right: bool) {
      && Usable(h) && Whole(|padded|, 4 * h.bs) && words == HashedBytes(h, padded)
      && (padded == PaddedText(h, XorAll(BlockKey(h, key), 0x36) + msg) <==> right)
    }

    method FinalizeInner(more: WordArray?, ghost msg: seq<Byte>) returns (innerHash: WordArray, ghost padded: seq<Byte>)
      requires Open(msg)
      modifies hasher.buf, hasher.buf.data
      ensures Ready() && fresh(innerHash) && innerHash.sigBytes == 4 * |innerHash.words| && 0 < |innerHash.words| <= h.bs
      ensures more == null && 8 * h.bs + |msg| < LIMIT ==>
                Inner(innerHash.words, msg, padded, old(JunkFree(hasher.buf.data.words, hasher.buf.data.sigBytes)))
      ensures more != null && 8 * h.bs + |msg| + old(more.sigBytes) < LIMIT ==>
                Inner(innerHash.words, msg + old(more.Content()), padded, |msg| % 4 != 0 || EndJunkFree(old(more.words), old(more.sigBytes)))
    {
      ghost var m := if more == null then [] else more.Content();
      ghost var n, given := hasher.buf.data.sigBytes, hasher.buf.given;
      ghost var right := if more == null then JunkFree(hasher.buf.data.words, n) else n % 4 != 0 || EndJunkFree(more.words, more.sigBytes);
      ghost var small := n + |m| + Reserve(h.bs) < 0x2000_0000;
      InnerRoom(|m|, msg);
      assert msg + [] == msg;
      hide BlockKey, XorAll, KeepsLength, OutputFits, Run, Pack, Bytes, Clean, JunkFree, EndJunkFree, Hasher.Hashed, Inner;
      var inner;
      inner, padded := hasher.Finalize(more);
      assert small ==> hasher.Hashed(inner, padded, given + m, right) by { assert given + [] == given; }
      hide *;
      OutputSize(inner);
      innerHash := new WordArray(output(inner), 4 * |output(inner)|);
      Assoc3(iKey.Content(), msg, m);
      if small { InnerIs(inner, padded, msg + m, right); }
    }

    /** What is buffered ends where `msg` does, and there is room for the padding. */
    lemma InnerRoom(more: nat, msg: seq<Byte>)
      requires Open(msg)
      ensures hasher.buf.data.sigBytes % 4 == |msg| % 4
      ensures 8 * h.bs + |msg| + more < LIMIT ==> hasher.buf.data.sigBytes + more + Reserve(h.bs) < 0x2000_0000
    {
      hide BlockKey, XorAll, KeepsLength, OutputFits, Run, Pack, Bytes, Clean;
      hasher.Aligned();
      assert |iKey.Content()| == 4 * h.bs;
      assert |hasher.buf.given| == 4 * h.bs + |msg| && HashBlock(h.bs);
      hide *;
      PadRoom(hasher.buf.data.sigBytes, h.bs, |msg|, more);
    }

    lemma OutputSize(s: S)
      requires Bound()
      ensures 0 < |output(s)| <= h.bs
    {
      hide KeepsLength;
    }

    lemma InnerIs(inner: S, padded: seq<Byte>, msg: seq<Byte>, right: bool)
      requires Ready() && hasher.Hashed(inner, padded, iKey.Content() + msg, right)
      ensures Inner(output(inner), msg, padded, right)
    {
      hide BlockKey, XorAll, KeepsLength, OutputFits, Padded, Folded, Digest;
    }

    method FinalizeOuter(innerHash: WordArray) returns (hmac: WordArray)
      requires Ready() && innerHash.sigBytes == 4 * |innerHash.words| && 0 < |innerHash.words| <= h.bs
      modifies hasher.buf
      ensures Ready() && fresh(hmac) && hmac.sigBytes == 4 * |hmac.words| && 0 < |hmac.words| <= h.bs
      ensures hmac.words == HashOf(h, XorAll(BlockKey(h, key), 0x5c) + Unpack(innerHash.words))
    {
      hide XorAll, BlockKey, KeepsLength, Run, Pack, Bytes, Clean, Digest, Folded, Padded, JunkFree, EndJunkFree, EndClean;
      hasher.Reset();
      var outer := new WordArray(oKey.words, oKey.sigBytes);
      WholeIsTidy(innerHash);
      outer.Concat(innerHash);
      assert [] + outer.Content() == outer.Content();
      CleanEnds(innerHash.words, innerHash.sigBytes);
      CleanEnds(outer.words, outer.sigBytes);
      var hash, padded := hasher.Finalize(outer);
      hmac := new WordArray(output(hash), 4 * |output(hash)|);
    }

    lemma HmacIs(inner: seq<Word>, outer: seq<Word>, msg: seq<Byte>, padded: seq<Byte>, right: bool)
      requires Inner(inner, msg, padded, right)
      requires outer == HashOf(h, XorAll(BlockKey(h, key), 0x5c) + Unpack(inner))
      ensures Authenticates(h, key, msg, padded, right, outer)
    {
      hide XorAll, BlockKey, KeepsLength, OutputFits, HashOf, HashedBytes, PaddedText;
      HashedText(h, XorAll(BlockKey(h, key), 0x36) + msg);
    }
  }

  lemma PadRoom(n: nat, bs: nat, m: nat, more: nat)
    requires n % 4 == (4 * bs + m) % 4 && n <= 4 * bs + m
    ensures n % 4 == m % 4
    ensures 8 * bs + m + more < LIMIT ==> n + more + Reserve(bs) < 0x2000_0000
  {}

  lemma WholeIsTidy(w: WordArray)
    requires w.sigBytes == 4 * |w.words|
    ensures w.Tidy() && w.Content() == Unpack(w.words)
  {
    hide At;
    forall k: nat | w.sigBytes <= k ensures At(w.words, k) == 0 {
      PastEnd(w.words, k);
    }
  }

  lemma WholeEnds(ws: seq<Word>)
    ensures EndJunkFree(ws, 4 * |ws|)
  {}

  lemma IsHmac<S(!new)>(h: Hash<S>, key: seq<Byte>, msg: seq<Byte>, padded: seq<Byte>, right: bool, words: seq<Word>)
    requires Authenticates(h, key, msg, padded, right, words) && right
    ensures Usable(h) && words == Hmac(h, key, msg)
  {
    hide Usable, BlockKey, XorAll, HashOf, Hmac, PaddedText;
  }

  lemma UsableParts<S(!new)>(h: Hash<S>)
    requires Usable(h)
    ensures HashBlock(h.bs) && KeepsLength(h.step, h.bs)
  {}

  /** The key words to be padded, of which `n` bytes count. */
  method PrepareKey<S(!new)>(h: Hash<S>, hasher: Hasher<S>, key: WordArray)
    returns (words: seq<Word>, ghost n: nat, ghost effective: seq<Byte>, ghost padded: seq<Byte>)
    requires Usable(h) && hasher.Open() && hasher.buf.given == [] && hasher.buf.data.sigBytes == 0 && hasher.buf.data != key
    requires hasher.buf.step == h.step && hasher.buf.initial == h.initial && hasher.buf.blockSize == h.bs && hasher.format == h.format
    modifies key`words, hasher.buf, hasher.buf.data
    ensures |words| <= h.bs && PaddedKey(h, effective, words, n)
    ensures old(key.sigBytes) <= 4 * h.bs ==> effective == old(key.Content())
    ensures old(key.sigBytes) > 4 * h.bs && old(key.sigBytes) + 4 * h.bs < LIMIT ==>
              KeyHashed(h, effective, old(key.Content()), padded, EndJunkFree(old(key.words), old(key.sigBytes)))
    ensures key.Content() == old(key.Content())
  {
    if key.sigBytes > 4 * h.bs {
      hide *;
      words, effective, padded := HashLongKey(h, hasher, key);
      n := 4 * |words|;
    } else {
      hide KeepsLength, Run, Pack, Bytes, Clean, EndJunkFree, KeyHashed, PaddedKey;
      effective, padded, n := key.Content(), [], key.sigBytes;
      key.Clamp();
      words := key.words;
      KeptKey(h, effective, words, n);
    }
  }

  lemma KeptKey<S(!new)>(h: Hash<S>, key: seq<Byte>, words: seq<Word>, n: nat)
    requires Usable(h) && n <= 4 * h.bs && |words| == WordCount(n) && Clean(words, n) && key == Bytes(words, n)
    ensures |words| <= h.bs && PaddedKey(h, key, words, n)
  {
    hide KeepsLength, OutputFits, FilledUp, Bytes, Clean;
  }

  /** `key = hasher.finalize(key)` */
  method HashLongKey<S(!new)>(h: Hash<S>, hasher: Hasher<S>, key: WordArray)
    returns (words: seq<Word>, ghost effective: seq<Byte>, ghost padded: seq<Byte>)
    requires Usable(h) && hasher.Open() && hasher.buf.given == [] && hasher.buf.data.sigBytes == 0 && hasher.buf.data != key
    requires hasher.buf.step == h.step && hasher.buf.initial == h.initial && hasher.buf.blockSize == h.bs && hasher.format == h.format
    requires key.sigBytes > 4 * h.bs
    modifies hasher.buf, hasher.buf.data
    ensures |words| <= h.bs && PaddedKey(h, effective, words, 4 * |words|)
    ensures key.sigBytes + 4 * h.bs < LIMIT ==>
              KeyHashed(h, effective, key.Content(), padded, EndJunkFree(key.words, key.sigBytes))
  {
    hide KeepsLength, OutputFits, Run, Pack, Bytes, Clean, JunkFree, EndJunkFree, PaddedKey, KeyHashed, Hasher.Hashed, Hasher.Open;
    ghost var content, right, small := key.Content(), EndJunkFree(key.words, key.sigBytes), key.sigBytes + 4 * h.bs < LIMIT;
    assert |content| == key.sigBytes;
    UsableParts(h);
    hide *;
    var hash;
    hash, padded := hasher.Finalize(key);
    EmptyBefore(content);
    words := h.output(hash);
    effective := HashedLong(h, hasher, hash, padded, content, right, small);
  }

  lemma HashedLong<S(!new)>(h: Hash<S>, hasher: Hasher<S>, hash: S, padded: seq<Byte>, key: seq<Byte>, right: bool, small: bool) returns (effective: seq<Byte>)
    requires Usable(h) && |key| > 4 * h.bs && (small ==> hasher.Hashed(hash, padded, key, right))
    requires hasher.buf.step == h.step && hasher.buf.initial == h.initial && hasher.buf.blockSize == h.bs && hasher.format == h.format
    ensures |h.output(hash)| <= h.bs && PaddedKey(h, effective, h.output(hash), 4 * |h.output(hash)|)
    ensures small ==> KeyHashed(h, effective, key, padded, right)
  {
    hide *;
    OutputBound(h, hash);
    effective := if small && right then key else Unpack(h.output(hash));
    if small {
      HashedAsKey(h, hasher, hash, padded, key, right);
    }
    HashedKey(h, effective, h.output(hash));
  }

  lemma EmptyBefore<T>(a: seq<T>)
    ensures [] + a == a
  {}

  lemma OutputBound<S(!new)>(h: Hash<S>, s: S)
    requires Usable(h)
    ensures 0 < |h.output(s)| <= h.bs
  {
    hide KeepsLength;
  }

  /** What hashing a long key gave. */
  lemma HashedAsKey<S(!new)>(h: Hash<S>, hasher: Hasher<S>, hash: S, padded: seq<Byte>, key: seq<Byte>, right: bool)
    requires Usable(h) && |key| > 4 * h.bs && hasher.Hashed(hash, padded, key, right)
    requires hasher.buf.step == h.step && hasher.buf.initial == h.initial && hasher.buf.blockSize == h.bs && hasher.format == h.format
    ensures KeyHashed(h, if right then key else Unpack(h.output(hash)), key, padded, right)
    ensures right ==> h.output(hash) == HashOf(h, key)
  {
    OutputBound(h, hash);
    HashedText(h, key);
    hide KeepsLength, OutputFits, Folded, Padded, Digest, FilledUp, HashOf;
    assert h.output(hash) == HashedBytes(h, padded);
  }

  /** The first `n` bytes of clamped words, filled up with zeros, are the block key. */
  ghost predicate PaddedKey<S(!new)>(h: Hash<S>, key: seq<Byte>, words: seq<Word>, n: nat)
    requires Usable(h)
  {
    n <= 4 * h.bs && Clean(words, n) && FilledUp(Bytes(words, n), 4 * h.bs) == BlockKey(h, key)
  }

  lemma HashedKey<S(!new)>(h: Hash<S>, key: seq<Byte>, words: seq<Word>)
    requires Usable(h) && 0 < |words| <= h.bs
    requires (|key| > 4 * h.bs && words == HashOf(h, key)) || key == Unpack(words)
    ensures PaddedKey(h, key, words, 4 * |words|)
  {
    hide HashOf, KeepsLength, OutputFits, At;
    forall k: nat | 4 * |words| <= k ensures At(words, k) == 0 {
      PastEnd(words, k);
    }
  }

  lemma PadWords<S(!new)>(h: Hash<S>, key: seq<Byte>, words: seq<Word>, n: nat, pad: Word, c: Byte, k: WordArray)
    requires Usable(h) && PaddedKey(h, key, words, n) && Repeats(pad, c)
    requires k.words == Xored(words, pad, h.bs) && k.sigBytes == 4 * h.bs
    ensures k.Content() == XorAll(BlockKey(h, key), c) && k.Tidy()
  {
    hide BlockKey, KeepsLength, OutputFits, At, Repeats;
    XoredBytes(words, n, pad, c, h.bs);
    forall i: nat | 4 * h.bs <= i ensures At(k.words, i) == 0 {
      PastEnd(k.words, i);
    }
  }
}
