/** The four hash algorithms as instances of the hasher template, and the digest of a message
    that arrives in pieces. */
module HashFunctions {
  import opened JsNumbers
  import opened WordArrays
  import opened WordNumbers
  import opened Padding
  import opened Streaming
  import opened Hashing
  import opened HMAC
  import BlockModes
  import Ciphers
  import MD5
  import SHA1
  import SHA256
  import SHA512

  // ---------------------------------------------------------------- a message in pieces

  /** No piece is half a gigabyte long. */
  ghost predicate Short(chunks: seq<Ciphers.Chunk>) {
    forall i :: 0 <= i < |chunks| ==> chunks[i].sigBytes + 256 < LIMIT
  }

  /** `update` with piece after piece. */
  method FeedAll<S(!new)>(hasher: Hasher<S>, chunks: seq<Ciphers.Chunk>)
    requires hasher.Open() && hasher.buf.data.sigBytes < 4 * hasher.buf.blockSize && Short(chunks)
    modifies hasher.buf, hasher.buf.data
    ensures hasher.Open() && hasher.buf.data == old(hasher.buf.data) && hasher.buf.data.sigBytes < 4 * hasher.buf.blockSize
    ensures hasher.buf.given == old(hasher.buf.given) + Ciphers.Joined(chunks)
  {
    ghost var g := hasher.buf.given;
    assert chunks[..0] == [] && chunks[..|chunks|] == chunks && Ciphers.Joined([]) == [] && g + [] == g;
    hide *;
    for i := 0 to |chunks|
      invariant hasher.Open() && hasher.buf.data == old(hasher.buf.data) && hasher.buf.data.sigBytes < 4 * hasher.buf.blockSize
      invariant hasher.buf.given == g + Ciphers.Joined(chunks[..i])
    {
      var update := new WordArray(chunks[i].words, chunks[i].sigBytes);
      hasher.Update(update);
      Ciphers.JoinedTo(chunks, i);
      Assoc3(g, Ciphers.Joined(chunks[..i]), chunks[i].Content());
    }
  }

  /** `update` for every piece but the last and `finalize` for that one: any way of cutting
      the message gives the same digest, as long as the last piece ends without junk or starts
      inside a word of the message. Otherwise something else than the padded message is hashed. */
  method DigestChunks<S(!new)>(h: Hash<S>, chunks: seq<Ciphers.Chunk>, last: Ciphers.Chunk) returns (hash: S, ghost padded: seq<Byte>)
    requires Usable(h) && Short(chunks + [last])
    ensures var msg := Ciphers.Joined(chunks) + last.Content();
            var right := |Ciphers.Joined(chunks)| % 4 != 0 || EndJunkFree(last.words, last.sigBytes);
            && Whole(|padded|, 4 * h.bs) && hash == Folded(h.step, h.initial, h.bs, padded)
            && (padded == Padded(msg, 8 * |msg|, h.bs, h.format) <==> right)
    ensures |Ciphers.Joined(chunks)| % 4 != 0 || EndJunkFree(last.words, last.sigBytes) ==>
              hash == Digest(h.step, h.initial, h.bs, h.format, Ciphers.Joined(chunks) + last.Content())
  {
    UsableParts(h);
    assert (chunks + [last])[|chunks|] == last;
    assert Short(chunks) by {
      forall i | 0 <= i < |chunks| ensures chunks[i].sigBytes + 256 < LIMIT { assert (chunks + [last])[i] == chunks[i]; }
    }
    hide *;
    var hasher := new Hasher(h.step, h.initial, h.bs, h.format);
    FeedAll(hasher, chunks);
    var message := new WordArray(last.words, last.sigBytes);
    assert [] + Ciphers.Joined(chunks) == Ciphers.Joined(chunks);
    hasher.Aligned();
    hash, padded := hasher.Finalize(message);
    HashedParts(hasher, hash, padded, Ciphers.Joined(chunks) + last.Content(),
                |Ciphers.Joined(chunks)| % 4 != 0 || EndJunkFree(last.words, last.sigBytes));
  }

  /** A message of the one byte 0x61 that is not hashed with its padding, whatever the algorithm. */
  method DigestSpoiled<S(!new)>(h: Hash<S>) returns (hash: S, ghost padded: seq<Byte>)
    requires Usable(h)
    ensures var msg := Bytes([0x61ff_ffff], 1);
            HashBlock(h.bs) && padded != Padded(msg, 8 * |msg|, h.bs, h.format)
            && Whole(|padded|, 4 * h.bs) && hash == Folded(h.step, h.initial, h.bs, padded)
  {
    UsableParts(h);
    JunkBehind();
    var last := Ciphers.Chunk([0x61ff_ffff], 1);
    assert last.Content() == Bytes([0x61ff_ffff], 1) && Ciphers.Joined([]) == [];
    Ciphers.EmptyLeft(last.Content());
    hide *;
    hash, padded := DigestChunks(h, [], last);
  }

  lemma HashedParts<S(!new)>(hasher: Hasher<S>, hash: S, padded: seq<Byte>, msg: seq<Byte>, right: bool)
    requires hasher.Hashed(hash, padded, msg, right)
    ensures HashBlock(hasher.buf.blockSize) && Whole(|padded|, 4 * hasher.buf.blockSize)
    ensures hash == Folded(hasher.buf.step, hasher.buf.initial, hasher.buf.blockSize, padded)
    ensures padded == Padded(msg, 8 * |msg|, hasher.buf.blockSize, hasher.format) <==> right
    ensures right ==> hash == Digest(hasher.buf.step, hasher.buf.initial, hasher.buf.blockSize, hasher.format, msg)
  {
    hide Folded, Padded, Digest;
  }

  // ---------------------------------------------------------------- the instances

  type Hash4 = h: seq<Word> | |h| == 4 witness [0, 0, 0, 0]
  type Hash5 = h: seq<Word> | |h| == 5 witness [0, 0, 0, 0, 0]
  type Hash8 = h: seq<Word> | |h| == 8 witness [0, 0, 0, 0, 0, 0, 0, 0]
  type Hash64 = h: seq<SHA512.Word64> | |h| == 8 ghost witness SHA512.Words(seq(8, _ => SHA512.Pair(0, 0)))

  function Md5Step(T: seq<Word>): Step<Hash4>
    requires |T| == 64
  {
    (h: Hash4, b: seq<Word>) => if |b| == 16 then (MD5.Compress(T, h, MD5.Reversed(b)), MD5.Reversed(b)) else (h, b)
  }

  function Sha1Step(): Step<Hash5> {
    (h: Hash5, b: seq<Word>) => if |b| == 16 then (SHA1.Compress(h, b), b) else (h, b)
  }

  function Sha256Step(K: seq<Word>): Step<Hash8>
    requires |K| == 64
  {
    (h: Hash8, b: seq<Word>) => if |b| == 16 then (SHA256.Compress(K, h, b), b) else (h, b)
  }

  function Sha512Step(K: seq<SHA512.Word64>): Step<Hash64>
    requires |K| == 80
  {
    (h: Hash64, b: seq<Word>) => if |b| == 32 then (SHA512.Compress(K, h, b), b) else (h, b)
  }

  /** `toX32` */
  function Flatten(h: seq<SHA512.Word64>): (ws: seq<Word>)
    ensures |ws| == 2 * |h|
  {
    if h == [] then [] else [h[0].hi, h[0].lo] + Flatten(h[1..])
  }

  function Md5(T: seq<Word>): Hash<Hash4>
    requires |T| == 64
  {
    var initial: Hash4 := Patterns([0x67452301, 0xefcdab89, 0x98badcfe, 0x10325476]);
    var output: Output<Hash4> := (h: Hash4) => MD5.Reversed(h);
    Hash(Md5Step(T), initial, 16, LittleEndian, output)
  }

  function Sha1(): Hash<Hash5> {
    var initial: Hash5 := Patterns([0x67452301, 0xefcdab89, 0x98badcfe, 0x10325476, 0xc3d2e1f0]);
    var output: Output<Hash5> := (h: Hash5) => h;
    Hash(Sha1Step(), initial, 16, BigEndian, output)
  }

  function Sha256(initial: Hash8, K: seq<Word>): Hash<Hash8>
    requires |K| == 64
  {
    Hash(Sha256Step(K), initial, 16, BigEndian, (h: Hash8) => h)
  }

  function Sha512(initial: Hash64, K: seq<SHA512.Word64>): Hash<Hash64>
    requires |K| == 80
  {
    Hash(Sha512Step(K), initial, 32, BigEndian, (h: Hash64) => Flatten(h))
  }

  /** Each of the four fits the template, so the digest, HMAC and PBKDF2 results hold for it. */
  lemma AllUsable(T: seq<Word>, initial: Hash8, K: seq<Word>, initial64: Hash64, K64: seq<SHA512.Word64>)
    requires |T| == 64 && |K| == 64 && |K64| == 80
    ensures Usable(Md5(T)) && Usable(Sha1()) && Usable(Sha256(initial, K)) && Usable(Sha512(initial64, K64))
  {
    hide MD5.Compress, SHA1.Compress, SHA256.Compress, SHA512.Compress, SwapEndian, Flatten, Patterns;
    Md5Usable(T);
  }

  lemma Md5Usable(T: seq<Word>)
    requires |T| == 64
    ensures Usable(Md5(T))
  {
    hide MD5.Compress, SwapEndian, Patterns;
    forall h: Hash4, b: seq<Word> | |b| == 16 ensures |Md5Step(T)(h, b).1| == 16 {
      assert |MD5.Reversed(b)| == 16;
    }
  }

  // ---------------------------------------------------------------- the block functions as steps

  lemma BlockIs(ws: seq<Word>, i: nat, bs: nat)
    requires i + bs <= |ws|
    ensures Block(ws, i, bs) == ws[i..i + bs]
  {
    forall k: nat | k < bs ensures Block(ws, i, bs)[k] == ws[i..i + bs][k] {
      assert Get(ws, i + k) == ws[i + k];
    }
  }

  method Sha256Block(sha: SHA256.Sha256, ws: seq<Word>, i: nat)
    requires sha.Valid() && i + 16 <= |ws|
    modifies sha`hash
    ensures sha.Valid() && |sha.hash| == 8
    ensures Patterns(sha.hash) == Sha256Step(Patterns(sha.K))(old(Patterns(sha.hash)), ws[i..i + 16]).0
  {
    BlockIs(ws, i, 16);
    hide SHA256.Compress, Block;
    sha.DoProcessBlock(ws, i);
  }

  /** The object of `SHA256` computes the run of its step over any number of blocks. */
  method Sha256Blocks(sha: SHA256.Sha256, ws: seq<Word>)
    requires sha.Valid() && |sha.hash| == 8 && Whole(|ws|, 16)
    modifies sha`hash
    ensures sha.Valid() && |sha.hash| == 8
    ensures Patterns(sha.hash) == Run<Hash8>(Sha256Step(Patterns(sha.K)), old(Patterns(sha.hash)), ws, 16).0
  {
    ghost var f, h: Hash8 := Sha256Step(Patterns(sha.K)), Patterns(sha.hash);
    RunEmpty<Hash8>(f, h, ws[..0], 16);
    assert ws[..|ws|] == ws;
    hide *;
    var i := 0;
    while i < |ws|
      invariant sha.Valid() && |sha.hash| == 8 && i <= |ws| && Whole(i, 16)
      invariant Patterns(sha.hash) == Run<Hash8>(f, h, ws[..i], 16).0
    {
      NextBlock<Hash8>(f, h, ws, i, 16);
      Sha256Block(sha, ws, i);
      i := i + 16;
    }
  }

  method Sha1Block(sha: SHA1.Sha1, ws: seq<Word>, i: nat)
    requires sha.Valid() && i + 16 <= |ws|
    modifies sha`hash
    ensures sha.Valid() && |sha.hash| == 5
    ensures Patterns(sha.hash) == Sha1Step()(old(Patterns(sha.hash)), ws[i..i + 16]).0
  {
    BlockIs(ws, i, 16);
    hide SHA1.Compress, Block;
    sha.DoProcessBlock(ws, i);
  }

  /** The object of `SHA1` computes the run of its step over any number of blocks. */
  method Sha1Blocks(sha: SHA1.Sha1, ws: seq<Word>)
    requires sha.Valid() && |sha.hash| == 5 && Whole(|ws|, 16)
    modifies sha`hash
    ensures sha.Valid() && |sha.hash| == 5
    ensures Patterns(sha.hash) == Run<Hash5>(Sha1Step(), old(Patterns(sha.hash)), ws, 16).0
  {
    ghost var f, h: Hash5 := Sha1Step(), Patterns(sha.hash);
    RunEmpty<Hash5>(f, h, ws[..0], 16);
    assert ws[..|ws|] == ws;
    hide *;
    var i := 0;
    while i < |ws|
      invariant sha.Valid() && |sha.hash| == 5 && i <= |ws| && Whole(i, 16)
      invariant Patterns(sha.hash) == Run<Hash5>(f, h, ws[..i], 16).0
    {
      NextBlock<Hash5>(f, h, ws, i, 16);
      Sha1Block(sha, ws, i);
      i := i + 16;
    }
  }

  method Sha512Block(sha: SHA512.Sha512, ws: seq<Word>, i: nat)
    requires sha.Valid() && i + 32 <= |ws| && sha.blocks < SHA512.MAX_BLOCKS
    modifies sha`hash, sha`blocks
    ensures sha.Valid() && |sha.hash| == 8 && sha.blocks == old(sha.blocks) + 1
    ensures SHA512.Words(sha.hash) == Sha512Step(SHA512.Words(sha.K))(old(SHA512.Words(sha.hash)), ws[i..i + 32]).0
  {
    BlockIs(ws, i, 32);
    hide SHA512.Compress, SHA512.Words, Block, SHA512.AllBounded;
    sha.DoProcessBlock(ws, i);
  }

  /** The same for `SHA512`, as long as all blocks since the last reset are fewer than the bound
      on exact sums. */
  method Sha512Blocks(sha: SHA512.Sha512, ws: seq<Word>)
    requires sha.Valid() && |sha.hash| == 8 && Whole(|ws|, 32) && 32 * sha.blocks + |ws| <= 32 * SHA512.MAX_BLOCKS
    modifies sha`hash, sha`blocks
    ensures sha.Valid() && |sha.hash| == 8 && 32 * sha.blocks == 32 * old(sha.blocks) + |ws|
    ensures SHA512.Words(sha.hash) == Run<Hash64>(Sha512Step(SHA512.Words(sha.K)), old(SHA512.Words(sha.hash)), ws, 32).0
  {
    ghost var f, h: Hash64 := Sha512Step(SHA512.Words(sha.K)), SHA512.Words(sha.hash);
    RunEmpty(f, h, ws[..0], 32);
    assert ws[..|ws|] == ws;
    hide *;
    var i := 0;
    while i < |ws|
      invariant sha.Valid() && |sha.hash| == 8 && i <= |ws| && Whole(i, 32)
      invariant 32 * sha.blocks == 32 * old(sha.blocks) + i
      invariant SHA512.Words(sha.hash) == Run<Hash64>(f, h, ws[..i], 32).0
    {
      NextBlock(f, h, ws, i, 32);
      Sha512Block(sha, ws, i);
      i := i + 32;
    }
  }

  method Md5Block(md5: MD5.Md5, M: array<Word>, i: nat)
    requires md5.Valid() && i + 16 <= M.Length
    modifies md5`hash, M
    ensures md5.Valid() && |md5.hash| == 4 && BlockModes.SameOutside(old(M[..]), M[..], i, 16)
    ensures (Patterns(md5.hash), M[i..i + 16]) == Md5Step(Patterns(md5.T))(old(Patterns(md5.hash)), old(M[i..i + 16]))
  {
    hide MD5.Compress, MD5.Reversed, BlockModes.SameOutside;
    md5.DoProcessBlock(M, i);
  }

  /** The same for `MD5`, which also leaves the blocks as the step puts them out. */
  method Md5Blocks(md5: MD5.Md5, M: array<Word>)
    requires md5.Valid() && |md5.hash| == 4 && Whole(M.Length, 16)
    modifies md5`hash, M
    ensures md5.Valid() && |md5.hash| == 4
    ensures (Patterns(md5.hash), M[..]) == Run<Hash4>(Md5Step(Patterns(md5.T)), old(Patterns(md5.hash)), old(M[..]), 16)
  {
    ghost var f, h: Hash4, ws := Md5Step(Patterns(md5.T)), Patterns(md5.hash), M[..];
    RunEmpty(f, h, ws[..0], 16);
    assert ws[..|ws|] == ws && M[..0] == [] && M[0..] == ws[0..];
    hide *;
    var i := 0;
    while i < M.Length
      invariant md5.Valid() && |md5.hash| == 4 && i <= M.Length && Whole(i, 16)
      invariant M[i..] == ws[i..]
      invariant (Patterns(md5.hash), M[..i]) == Run<Hash4>(f, h, ws[..i], 16)
    {
      NextBlock(f, h, ws, i, 16);
      SameTail(M[..], ws, i, 16);
      ghost var before := M[..];
      Md5Block(md5, M, i);
      BlockReplaced(before, M[..], i, 16);
      i := i + 16;
    }
    assert M[..i] == M[..];
  }

  lemma SameTail(v: seq<Word>, w: seq<Word>, i: nat, bs: nat)
    requires |v| == |w| && i + bs <= |w| && v[i..] == w[i..]
    ensures v[i..i + bs] == w[i..i + bs] && v[i + bs..] == w[i + bs..]
  {
    assert v[i..i + bs] == v[i..][..bs] && w[i..i + bs] == w[i..][..bs];
    assert v[i + bs..] == v[i..][bs..] && w[i + bs..] == w[i..][bs..];
  }

  lemma BlockReplaced(v: seq<Word>, w: seq<Word>, i: nat, bs: nat)
    requires i + bs <= |v| && BlockModes.SameOutside(v, w, i, bs)
    ensures |w| == |v| && w[..i + bs] == v[..i] + w[i..i + bs] && w[i + bs..] == v[i + bs..]
  {
    assert w[..i + bs] == w[..i] + w[i..i + bs];
  }

  // ---------------------------------------------------------------- the bytes of blocks and digests

  /** SHA-1 and SHA-256 read and write the most significant byte of a word first. */
  lemma BigEndianBytes(h: seq<Word>, i: nat, k: nat)
    requires i < |h| && k < 4
    ensures ByteNum(Unpack(h)[4 * i + k]) == Num(h[i]) / Power256(3 - k) % 256
  {
    AtDef(h, 4 * i + k);
    hide ByteNum, Num, Power256, ByteOf, At;
    ByteIs(h[i], k);
  }

  /** MD5 hands out the least significant byte of each word of its state first. */
  lemma Md5Bytes(T: seq<Word>, h: Hash4, i: nat, k: nat)
    requires |T| == 64 && i < 4 && k < 4
    ensures |Unpack(Md5(T).output(h))| == 16
    ensures ByteNum(Unpack(Md5(T).output(h))[4 * i + k]) == Num(h[i]) / Power256(k) % 256
  {
    var r := MD5.Reversed(h);
    BigEndianBytes(r, i, k);
    hide ByteNum, Num, Power256, ByteOf, At, SwapEndian, Md5Step, Patterns;
    assert r[i] == SwapEndian(h[i]);
    ByteIs(SwapEndian(h[i]), k);
    ByteIs(h[i], 3 - k);
    SwapsBytes(h[i], k);
  }

  /** The numbers of a block: four bytes each, the most significant one first, or last. */
  ghost predicate HighFirst(block: seq<Byte>, X: seq<Word>) {
    |block| == 4 * |X| && forall j: nat :: j < |block| ==> ByteNum(block[j]) == Num(X[j / 4]) / Power256(3 - j % 4) % 256
  }

  ghost predicate LowFirst(block: seq<Byte>, X: seq<Word>) {
    |block| == 4 * |X| && forall j: nat :: j < |block| ==> ByteNum(block[j]) == Num(X[j / 4]) / Power256(j % 4) % 256
  }

  lemma HighPacked(block: seq<Byte>, X: seq<Word>)
    requires HighFirst(block, X)
    ensures Pack(block) == X
  {
    hide ByteNum, Num, Power256, ByteOf, At, Pack, Unpack;
    forall j: nat | j < |block| ensures Unpack(X)[j] == block[j] {
      BigEndianBytes(X, j / 4, j % 4);
      assert 4 * (j / 4) + j % 4 == j;
      SameByte(Unpack(X)[j], block[j]);
    }
    assert Unpack(X) == block;
    PackUnpack(X);
  }

  lemma LowPacked(block: seq<Byte>, X: seq<Word>)
    requires LowFirst(block, X)
    ensures MD5.Reversed(Pack(block)) == X
  {
    hide ByteNum, Num, Power256, ByteOf, SwapEndian, Pack;
    var Y := MD5.Reversed(X);
    forall j: nat | j < |block| ensures ByteNum(block[j]) == Num(Y[j / 4]) / Power256(3 - j % 4) % 256 {
      ByteIs(X[j / 4], 3 - j % 4);
      ByteIs(SwapEndian(X[j / 4]), j % 4);
      SwapsBytes(X[j / 4], j % 4);
    }
    HighPacked(block, Y);
    forall i: nat | i < |X| ensures SwapEndian(Y[i]) == X[i] { SwapTwice(X[i]); }
  }

  /** MD5 takes the least significant byte of a word first, SHA-1 and SHA-2 the most significant one. */
  lemma Md5Reads(T: seq<Word>, h: Hash4, block: seq<Byte>, X: seq<Word>)
    requires |T| == 64 && |block| == 64 && LowFirst(block, X)
    ensures Md5(T).step(h, Pack(block)).0 == MD5.Compress(T, h, X)
  {
    hide MD5.Compress, ByteNum, Power256, Num, LowFirst, MD5.Reversed;
    LowPacked(block, X);
  }

  lemma Sha1Reads(h: Hash5, block: seq<Byte>, X: seq<Word>)
    requires |block| == 64 && HighFirst(block, X)
    ensures Sha1().step(h, Pack(block)).0 == SHA1.Compress(h, X)
  {
    hide SHA1.Compress, ByteNum, Power256, Num, HighFirst;
    HighPacked(block, X);
  }

  lemma Sha256Reads(initial: Hash8, K: seq<Word>, h: Hash8, block: seq<Byte>, X: seq<Word>)
    requires |K| == 64 && |block| == 64 && HighFirst(block, X)
    ensures Sha256(initial, K).step(h, Pack(block)).0 == SHA256.Compress(K, h, X)
  {
    hide SHA256.Compress, ByteNum, Power256, Num, HighFirst;
    HighPacked(block, X);
  }

  lemma Sha512Reads(initial: Hash64, K: seq<SHA512.Word64>, h: Hash64, block: seq<Byte>, X: seq<Word>)
    requires |K| == 80 && |block| == 128 && HighFirst(block, X)
    ensures Sha512(initial, K).step(h, Pack(block)).0 == SHA512.Compress(K, h, X)
  {
    hide SHA512.Compress, ByteNum, Power256, Num, HighFirst;
    HighPacked(block, X);
  }

  /** SHA-1 and SHA-256 hand out the words of their state as they are. */
  lemma HandsOut(initial: Hash8, K: seq<Word>, h: Hash8, g: Hash5)
    requires |K| == 64
    ensures Sha256(initial, K).output(h) == h && Sha1().output(g) == g
  {}

  /** SHA-512 hands out 64-bit words, the most significant byte first. */
  lemma Sha512Bytes(initial: Hash64, K: seq<SHA512.Word64>, h: Hash64, i: nat, k: nat)
    requires |K| == 80 && i < 8 && k < 8
    ensures |Unpack(Sha512(initial, K).output(h))| == 64
    ensures ByteNum(Unpack(Sha512(initial, K).output(h))[8 * i + k]) ==
            if k < 4 then Num(h[i].hi) / Power256(3 - k) % 256 else Num(h[i].lo) / Power256(7 - k) % 256
  {
    assert Sha512(initial, K).output(h) == Flatten(h) by { hide Sha512Step; }
    FlattenAt(h, i);
    hide *;
    PairBytes(Flatten(h), i, k);
  }

  lemma PairBytes(ws: seq<Word>, i: nat, k: nat)
    requires 2 * i + 1 < |ws| && k < 8
    ensures ByteNum(Unpack(ws)[8 * i + k]) == if k < 4 then Num(ws[2 * i]) / Power256(3 - k) % 256 else Num(ws[2 * i + 1]) / Power256(7 - k) % 256
  {
    hide ByteNum, Num, Power256, ByteOf, At, Unpack;
    if k < 4 {
      BigEndianBytes(ws, 2 * i, k);
    } else {
      BigEndianBytes(ws, 2 * i + 1, k - 4);
    }
  }

  lemma {:induction false} FlattenAt(h: seq<SHA512.Word64>, i: nat)
    requires i < |h|
    ensures Flatten(h)[2 * i] == h[i].hi && Flatten(h)[2 * i + 1] == h[i].lo
  {
    if i > 0 { FlattenAt(h[1..], i - 1); }
  }

  /** The initial values of section 5.3.1 of FIPS 180-4 and section 3.3 of RFC 1321. */
  lemma InitialValues(T: seq<Word>)
    requires |T| == 64
    ensures Sha1().initial == [Bits(0x67452301), Bits(0xefcdab89), Bits(0x98badcfe), Bits(0x10325476), Bits(0xc3d2e1f0)]
    ensures Md5(T).initial == [Bits(0x67452301), Bits(0xefcdab89), Bits(0x98badcfe), Bits(0x10325476)]
    ensures Sha1().bs == Md5(T).bs == 16 && Sha1().format == BigEndian && Md5(T).format == LittleEndian
  {
    hide Bits;
  }
}
