/** PBKDF2 over any hasher: one HMAC object, reset after every use, and blocks XORed together
    in place. */
module PBKDF2 {
  import opened JsNumbers
  import opened WordArrays
  import opened WordNumbers
  import opened Padding
  import opened Streaming
  import opened BlockModes
  import opened Hashing
  import opened HMAC

  // ---------------------------------------------------------------- section 5.2 of RFC 8018

  /** `U_c` of block `i`; `c` counts from 1. */
  ghost function U<S(!new)>(h: Hash<S>, password: seq<Byte>, salt: seq<Byte>, i: int, c: nat): seq<Word>
    requires Usable(h) && c >= 1
    decreases c
  {
    if c == 1 then Hmac(h, password, salt + Unpack([Bits(i)])) else Hmac(h, password, Unpack(U(h, password, salt, i, c - 1)))
  }

  /** `U_1 xor ... xor U_c` */
  ghost function F<S(!new)>(h: Hash<S>, password: seq<Byte>, salt: seq<Byte>, i: int, c: nat): seq<Word>
    requires Usable(h) && c >= 1
    decreases c
  {
    if c == 1 then U(h, password, salt, i, 1) else XorWords(F(h, password, salt, i, c - 1), U(h, password, salt, i, c))
  }

  /** `T_1 ++ ... ++ T_l` */
  ghost function Blocks<S(!new)>(h: Hash<S>, password: seq<Byte>, salt: seq<Byte>, c: nat, l: nat): seq<Word>
    requires Usable(h) && c >= 1
  {
    if l == 0 then [] else Blocks(h, password, salt, c, l - 1) + F(h, password, salt, l, c)
  }

  lemma {:induction false} BlocksPrefix<S(!new)>(h: Hash<S>, password: seq<Byte>, salt: seq<Byte>, c: nat, l: nat, m: nat)
    requires Usable(h) && c >= 1 && l <= m
    ensures Blocks(h, password, salt, c, l) <= Blocks(h, password, salt, c, m)
    decreases m - l
  {
    hide Usable, F;
    if l < m {
      BlocksPrefix(h, password, salt, c, l, m - 1);
    }
  }

  /** A shorter derived key is a prefix of a longer one. */
  lemma ShorterKey<S(!new)>(h: Hash<S>, password: seq<Byte>, salt: seq<Byte>, c: nat, l: nat, m: nat, short: nat, long: nat)
    requires Usable(h) && c >= 1 && short <= long
    requires short <= |Blocks(h, password, salt, c, l)| && long <= |Blocks(h, password, salt, c, m)|
    ensures Blocks(h, password, salt, c, l)[..short] == Blocks(h, password, salt, c, m)[..long][..short]
  {
    hide Usable, Blocks;
    if l <= m { BlocksPrefix(h, password, salt, c, l, m); } else { BlocksPrefix(h, password, salt, c, m, l); }
  }

  // ---------------------------------------------------------------- the same, from tables of values

  /** Word `w` of the sum of the first `r` values. */
  ghost function SumOf(u: seq<seq<Word>>, r: nat, w: nat): Word
    requires r <= |u|
  {
    if r == 0 then 0 else SumOf(u, r - 1, w) ^ Get(u[r - 1], w)
  }

  /** The values of a block: HMAC after HMAC, from the salt and the number of the block in four bytes, the
      most significant one first. */
  ghost predicate Values<S(!new)>(h: Hash<S>, password: seq<Byte>, salt: seq<Byte>, i: nat, number: seq<Byte>, u: seq<seq<Word>>) {
    && Usable(h) && |u| > 0 && i < TWO32
    && |number| == 4 && (forall k: nat :: k < 4 ==> ByteNum(number[k]) == i / Power256(3 - k) % 256)
    && u[0] == Hmac(h, password, salt + number)
    && forall r: nat :: r + 1 < |u| ==> u[r + 1] == Hmac(h, password, Unpack(u[r]))
  }

  lemma NumberIs(i: nat, number: seq<Byte>)
    requires i < TWO32 && |number| == 4 && forall k: nat :: k < 4 ==> ByteNum(number[k]) == i / Power256(3 - k) % 256
    ensures Unpack([Bits(i)]) == number
  {
    hide Bits, ByteNum, ByteOf, Power256;
    var w := Bits(i);
    forall k: nat | k < 4 ensures ByteOf(w, k) == number[k] {
      NumberByte(i, number[k], k);
    }
  }

  lemma NumberByte(i: nat, b: Byte, k: nat)
    requires i < TWO32 && k < 4 && ByteNum(b) == i / Power256(3 - k) % 256
    ensures ByteOf(Bits(i), k) == b
  {
    hide *;
    NumBits(i);
    Small(i);
    ByteIs(Bits(i), k);
    SameByte(ByteOf(Bits(i), k), b);
  }

  lemma Small(i: nat)
    requires i < TWO32
    ensures i % TWO32 == i
  {}

  lemma {:induction false} ValuesAre<S(!new)>(h: Hash<S>, password: seq<Byte>, salt: seq<Byte>, i: nat, number: seq<Byte>, u: seq<seq<Word>>, c: nat)
    requires Values(h, password, salt, i, number, u) && 1 <= c <= |u|
    ensures u[c - 1] == U(h, password, salt, i, c)
  {
    if c == 1 {
      NumberIs(i, number);
    } else {
      ValuesAre(h, password, salt, i, number, u, c - 1);
      assert u[(c - 2) + 1] == Hmac(h, password, Unpack(u[c - 2]));
    }
    hide Usable, Hmac, ByteNum, Power256, Bits;
  }

  /** `f` is the sum of the first `c` values, word by word. */
  ghost predicate Sums(f: seq<Word>, u: seq<seq<Word>>, c: nat) {
    0 < |u| && c <= |u| && |f| == |u[0]| && forall w: nat :: w < |f| ==> f[w] == SumOf(u, c, w)
  }

  lemma SumsFirst(u: seq<seq<Word>>)
    requires 0 < |u|
    ensures Sums(u[0], u, 1)
  {
    forall w: nat | w < |u[0]| ensures u[0][w] == SumOf(u, 1, w) {
      assert SumOf(u, 1, w) == SumOf(u, 0, w) ^ Get(u[0], w);
    }
  }

  lemma SumsNext(f: seq<Word>, u: seq<seq<Word>>, c: nat)
    requires Sums(f, u, c) && c < |u|
    ensures Sums(XorWords(f, u[c]), u, c + 1)
  {}

  lemma {:induction false} SumsAre<S(!new)>(h: Hash<S>, password: seq<Byte>, salt: seq<Byte>, i: nat, number: seq<Byte>, u: seq<seq<Word>>, c: nat)
    requires Values(h, password, salt, i, number, u) && 1 <= c <= |u|
    ensures Usable(h) && Sums(F(h, password, salt, i, c), u, c)
  {
    ValuesAre(h, password, salt, i, number, u, c);
    hide U, Values, Usable, Sums, XorWords;
    if c == 1 {
      SumsFirst(u);
    } else {
      SumsAre(h, password, salt, i, number, u, c - 1);
      SumsNext(F(h, password, salt, i, c - 1), u, c - 1);
    }
  }

  /** Block `i` is the sum of its values, word by word. */
  lemma BlockIs<S(!new)>(h: Hash<S>, password: seq<Byte>, salt: seq<Byte>, i: nat, number: seq<Byte>, u: seq<seq<Word>>, c: nat)
    requires Values(h, password, salt, i, number, u) && 1 <= c <= |u|
    ensures var f := F(h, password, salt, i, c);
            |f| == |u[0]| && forall w: nat :: w < |f| ==> f[w] == SumOf(u, c, w)
  {
    SumsAre(h, password, salt, i, number, u, c);
    hide Values, Usable, F;
  }

  /** The blocks one behind the other. */
  ghost function Joined(ts: seq<seq<Word>>): seq<Word> {
    if ts == [] then [] else ts[0] + Joined(ts[1..])
  }

  lemma {:induction false} JoinedSnoc(ts: seq<seq<Word>>, t: seq<Word>)
    ensures Joined(ts + [t]) == Joined(ts) + t
  {
    if ts == [] {
      assert [t][1..] == [];
    } else {
      assert (ts + [t])[1..] == ts[1..] + [t];
      JoinedSnoc(ts[1..], t);
    }
  }

  lemma {:induction false} BlocksAre<S(!new)>(h: Hash<S>, password: seq<Byte>, salt: seq<Byte>, c: nat, ts: seq<seq<Word>>)
    requires Usable(h) && c >= 1 && forall i: nat :: i < |ts| ==> ts[i] == F(h, password, salt, i + 1, c)
    ensures Blocks(h, password, salt, c, |ts|) == Joined(ts)
    decreases |ts|
  {
    hide Usable, F;
    if ts != [] {
      var n := |ts| - 1;
      BlocksAre(h, password, salt, c, ts[..n]);
      JoinedSnoc(ts[..n], ts[n]);
      assert ts == ts[..n] + [ts[n]];
    }
  }

  // ---------------------------------------------------------------- the loops

  /** `blockWords[j] ^= intermediateWords[j]` */
  method XorInPlace(block: WordArray, intermediate: seq<Word>)
    modifies block`words
    ensures block.words == XorWords(old(block.words), intermediate)
  {
    hide Xor;
    ghost var before := block.words;
    for j := 0 to |block.words|
      invariant |block.words| == |before|
      invariant forall k :: 0 <= k < |before| ==> block.words[k] == if k < j then Xor(before[k], Get(intermediate, k)) else before[k]
    {
      block.words := block.words[j := Xor(block.words[j], Get(intermediate, j))];
    }
  }

  /** What the derivation may rely on: an HMAC under the password, and inputs short enough. */
  ghost predicate Sound<S(!new)>(hmac: HmacHasher<S>, password: seq<Byte>, salt: seq<Byte>) {
    hmac.key == password && 8 * hmac.h.bs + |salt| + 4 < LIMIT && HashBlock(hmac.h.bs)
  }

  /** A hash value handed out by the HMAC. */
  ghost predicate HashValue(w: WordArray, bs: nat)
    reads w
  {
    w.sigBytes == 4 * |w.words| && 0 < |w.words| <= bs
  }

  /** After `c` rounds of block `i`: the last value, and the XOR of all of them. */
  ghost predicate Computes<S(!new)>(hmac: HmacHasher<S>, password: seq<Byte>, salt: seq<Byte>, i: int, c: nat, value: seq<Word>, block: seq<Word>) {
    && Usable(hmac.h) && c >= 1
    && (Sound(hmac, password, salt) ==> value == U(hmac.h, password, salt, i, c) && block == F(hmac.h, password, salt, i, c))
  }

  /** The first value of a block: salt and block index through the HMAC. */
  method FirstBlock<S(!new)>(hmac: HmacHasher<S>, salt: WordArray, index: nat, ghost password: seq<Byte>) returns (block: WordArray)
    requires hmac.Open([])
    modifies hmac.hasher.buf, hmac.hasher.buf.data
    ensures hmac.Open([]) && fresh(hmac.hasher.buf.data) && fresh(block) && HashValue(block, hmac.h.bs) && block != hmac.hasher.buf.data
    ensures Computes(hmac, password, old(salt.Content()), index, 1, block.words, block.words)
  {
    ghost var s := salt.Content();
    hide *;
    Open(hmac);
    hmac.Update(salt, []);
    EmptyFront(s);
    var blockIndex := new WordArray([Bits(index)], 4);
    WholeIsTidy(blockIndex);
    ghost var ws, last := blockIndex.words, blockIndex.Content();
    ghost var padded;
    block, padded := hmac.Finalize(blockIndex, s);
    IsHashValue(block, hmac.h.bs);
    ghost var words := block.words;
    hmac.Reset();
    if Sound(hmac, password, s) {
      SoundParts(hmac, password, s);
      WholeEnds(ws);
      IsHmac(hmac.h, password, s + last, padded, |s| % 4 != 0 || EndJunkFree(ws, 4), words);
      FirstIs(hmac.h, password, s, index);
    }
    Computed(hmac, password, s, index, 1, block.words, block.words);
  }

  lemma Computed<S(!new)>(hmac: HmacHasher<S>, password: seq<Byte>, salt: seq<Byte>, i: int, c: nat, value: seq<Word>, block: seq<Word>)
    requires Usable(hmac.h) && c >= 1
    requires Sound(hmac, password, salt) ==> value == U(hmac.h, password, salt, i, c) && block == F(hmac.h, password, salt, i, c)
    ensures Computes(hmac, password, salt, i, c, value, block)
  {
    hide Usable, U, F, Sound;
  }

  lemma EmptyFront<T>(a: seq<T>)
    ensures [] + a == a && a + [] == a
  {}

  lemma IsHashValue(w: WordArray, bs: nat)
    ensures HashValue(w, bs) <==> w.sigBytes == 4 * |w.words| && 0 < |w.words| <= bs
  {}

  lemma SoundParts<S(!new)>(hmac: HmacHasher<S>, password: seq<Byte>, salt: seq<Byte>)
    requires Sound(hmac, password, salt)
    ensures hmac.key == password && 8 * hmac.h.bs + |salt| + 4 < LIMIT && 12 * hmac.h.bs < LIMIT
  {}

  lemma FirstIs<S(!new)>(h: Hash<S>, password: seq<Byte>, salt: seq<Byte>, i: int)
    requires Usable(h)
    ensures Hmac(h, password, salt + Unpack([Bits(i)])) == U(h, password, salt, i, 1) == F(h, password, salt, i, 1)
  {
    hide Usable, Hmac, Unpack, Bits;
  }

  lemma NextIs<S(!new)>(h: Hash<S>, password: seq<Byte>, salt: seq<Byte>, i: int, c: nat)
    requires Usable(h) && c >= 1
    ensures Hmac(h, password, Unpack(U(h, password, salt, i, c))) == U(h, password, salt, i, c + 1)
    ensures XorWords(F(h, password, salt, i, c), U(h, password, salt, i, c + 1)) == F(h, password, salt, i, c + 1)
  {
    hide Usable, Hmac, Unpack, XorWords;
  }

  method NextValue<S(!new)>(hmac: HmacHasher<S>, intermediate: WordArray, ghost password: seq<Byte>, ghost salt: seq<Byte>) returns (next: WordArray)
    requires hmac.Open([]) && HashValue(intermediate, hmac.h.bs)
    modifies hmac.hasher.buf, hmac.hasher.buf.data
    ensures hmac.Open([]) && fresh(hmac.hasher.buf.data) && fresh(next) && HashValue(next, hmac.h.bs)
    ensures Sound(hmac, password, salt) ==> next.words == Hmac(hmac.h, password, Unpack(old(intermediate.words)))
  {
    ghost var m, ws := intermediate.Content(), intermediate.words;
    ghost var padded;
    hide *;
    IsHashValue(intermediate, hmac.h.bs);
    WholeIsTidy(intermediate);
    EmptyFront(m);
    next, padded := hmac.Finalize(intermediate, []);
    IsHashValue(next, hmac.h.bs);
    ghost var words := next.words;
    hmac.Reset();
    if Sound(hmac, password, salt) {
      SoundParts(hmac, password, salt);
      WholeEnds(ws);
      IsHmac(hmac.h, password, [] + m, padded, 0 % 4 != 0 || EndJunkFree(ws, 4 * |ws|), words);
    }
  }

  /** Round `i` of a block: the next value, XORed in place onto the block. */
  method Iterate<S(!new)>(hmac: HmacHasher<S>, block: WordArray, intermediate: WordArray, ghost password: seq<Byte>, ghost salt: seq<Byte>, ghost index: nat, ghost i: nat)
    returns (next: WordArray)
    requires hmac.Open([]) && HashValue(intermediate, hmac.h.bs) && HashValue(block, hmac.h.bs)
    requires block != hmac.iKey && block != hmac.oKey && block != hmac.hasher.buf.data
    requires Computes(hmac, password, salt, index, i, intermediate.words, block.words)
    modifies hmac.hasher.buf, hmac.hasher.buf.data, block
    ensures hmac.Open([]) && fresh(hmac.hasher.buf.data) && fresh(next) && HashValue(next, hmac.h.bs) && HashValue(block, hmac.h.bs)
    ensures Computes(hmac, password, salt, index, i + 1, next.words, block.words)
  {
    ghost var value, xored := intermediate.words, block.words;
    hide *;
    IsHashValue(block, hmac.h.bs);
    next := NextValue(hmac, intermediate, password, salt);
    XorInPlace(block, next.words);
    IsHashValue(block, hmac.h.bs);
    IsHashValue(next, hmac.h.bs);
    ComputesNext(hmac, password, salt, index, i, value, xored, next.words, block.words);
  }

  lemma ComputesNext<S(!new)>(hmac: HmacHasher<S>, password: seq<Byte>, salt: seq<Byte>, i: int, c: nat, value: seq<Word>, block: seq<Word>, value': seq<Word>, block': seq<Word>)
    requires Computes(hmac, password, salt, i, c, value, block)
    requires Usable(hmac.h) && (Sound(hmac, password, salt) ==> value' == Hmac(hmac.h, password, Unpack(value)))
    requires block' == XorWords(block, value')
    ensures Computes(hmac, password, salt, i, c + 1, value', block')
  {
    NextIs(hmac.h, password, salt, i, c);
    hide Usable, U, F, Sound, Hmac, Unpack, XorWords;
  }

  /** One block: `intermediate` starts as the block itself, which changes only after it has
      been hashed again. */
  method DeriveBlock<S(!new)>(hmac: HmacHasher<S>, salt: WordArray, index: nat, iterations: nat, ghost password: seq<Byte>) returns (block: WordArray)
    requires hmac.Open([])
    modifies hmac.hasher.buf, hmac.hasher.buf.data
    ensures hmac.Open([]) && fresh(hmac.hasher.buf.data) && fresh(block) && HashValue(block, hmac.h.bs)
    ensures Derives(hmac, password, old(salt.Content()), index, Rounds(iterations), block.words)
  {
    ghost var s := salt.Content();
    hide *;
    block := FirstBlock(hmac, salt, index, password);
    ghost var value, c := Repeat(hmac, block, iterations, password, s, index);
    Derived(hmac, password, s, index, c, iterations, value, block.words);
  }

  method Repeat<S(!new)>(hmac: HmacHasher<S>, block: WordArray, iterations: nat, ghost password: seq<Byte>, ghost salt: seq<Byte>, ghost index: nat)
    returns (ghost value: seq<Word>, ghost c: nat)
    requires hmac.Open([]) && HashValue(block, hmac.h.bs)
    requires block != hmac.iKey && block != hmac.oKey && block != hmac.hasher.buf.data
    requires Computes(hmac, password, salt, index, 1, block.words, block.words)
    modifies hmac.hasher.buf, hmac.hasher.buf.data, block
    ensures hmac.Open([]) && (hmac.hasher.buf.data == old(hmac.hasher.buf.data) || fresh(hmac.hasher.buf.data)) && HashValue(block, hmac.h.bs)
    ensures Computes(hmac, password, salt, index, c, value, block.words) && c >= iterations && (c <= iterations || c == 1)
  {
    hide *;
    IsApart(hmac, block);
    var intermediate := block;
    var i := 1;
    while i < iterations
      invariant 1 <= i && (i <= iterations || i == 1) && Apart(hmac, block)
      invariant hmac.hasher.buf.data == old(hmac.hasher.buf.data) || fresh(hmac.hasher.buf.data)
      invariant HashValue(block, hmac.h.bs) && HashValue(intermediate, hmac.h.bs)
      invariant Computes(hmac, password, salt, index, i, intermediate.words, block.words)
    {
      IsApart(hmac, block);
      intermediate := Iterate(hmac, block, intermediate, password, salt, index, i);
      i := i + 1;
      IsApart(hmac, block);
    }
    IsApart(hmac, block);
    value, c := intermediate.words, i;
  }

  /** The HMAC is ready for the next message, and the block is none of its arrays. */
  ghost predicate Apart<S(!new)>(hmac: HmacHasher<S>, block: WordArray)
    reads hmac, hmac.hasher, hmac.hasher.buf, hmac.hasher.buf.data, hmac.oKey, hmac.iKey
  {
    hmac.Open([]) && block != hmac.iKey && block != hmac.oKey && block != hmac.hasher.buf.data
  }

  lemma IsApart<S(!new)>(hmac: HmacHasher<S>, block: WordArray)
    ensures Apart(hmac, block) <==> hmac.Open([]) && block != hmac.iKey && block != hmac.oKey && block != hmac.hasher.buf.data
  {}

  /** The number of HMAC rounds per block; there is always one. */
  function Rounds(iterations: nat): (c: nat)
    ensures c >= 1
  {
    if iterations < 1 then 1 else iterations
  }

  ghost predicate Derives<S(!new)>(hmac: HmacHasher<S>, password: seq<Byte>, salt: seq<Byte>, i: int, c: nat, block: seq<Word>) {
    && Usable(hmac.h) && c >= 1
    && (Sound(hmac, password, salt) ==> block == F(hmac.h, password, salt, i, c))
  }

  lemma Derived<S(!new)>(hmac: HmacHasher<S>, password: seq<Byte>, salt: seq<Byte>, i: int, c: nat, iterations: nat, value: seq<Word>, block: seq<Word>)
    requires Computes(hmac, password, salt, i, c, value, block) && c >= iterations && (c <= iterations || c == 1)
    ensures Derives(hmac, password, salt, i, Rounds(iterations), block)
  {
    assert c >= 1;
    assert c == Rounds(iterations);
    hide Usable, U, F, Sound;
  }

  lemma Open<S(!new)>(hmac: HmacHasher<S>)
    requires hmac.Open([])
    ensures Usable(hmac.h)
  {
    hide Usable;
  }

  // ---------------------------------------------------------------- compute

  /** The blocks derived so far. */
  ghost predicate DerivedTo<S(!new)>(hmac: HmacHasher<S>, password: seq<Byte>, salt: seq<Byte>, c: nat, l: nat, words: seq<Word>) {
    && Usable(hmac.h) && c >= 1 && l <= |words|
    && (Sound(hmac, password, salt) ==> words == Blocks(hmac.h, password, salt, c, l))
  }

  lemma DerivedMore<S(!new)>(hmac: HmacHasher<S>, password: seq<Byte>, salt: seq<Byte>, c: nat, l: nat, i: nat, words: seq<Word>, block: seq<Word>, longer: seq<Word>)
    requires i == l + 1 && DerivedTo(hmac, password, salt, c, l, words) && Derives(hmac, password, salt, i, c, block)
    requires 0 < |block| && longer == words + block
    ensures DerivedTo(hmac, password, salt, c, i, longer)
  {
    hide Usable, F, Sound;
  }

  lemma DerivedNone<S(!new)>(hmac: HmacHasher<S>, password: seq<Byte>, salt: seq<Byte>, c: nat)
    requires Usable(hmac.h) && c >= 1
    ensures DerivedTo(hmac, password, salt, c, 0, [])
  {
    hide Usable, F, Sound;
  }

  /** A word array that consists of whole words. */
  ghost predicate WholeArray(w: WordArray)
    reads w
  {
    w.sigBytes == 4 * |w.words|
  }

  /** `derivedKey.concat(block)` */
  method AppendBlock(derivedKey: WordArray, block: WordArray)
    requires WholeArray(derivedKey) && WholeArray(block) && derivedKey != block
    modifies derivedKey
    ensures WholeArray(derivedKey) && derivedKey.words == old(derivedKey.words) + block.words
  {
    hide At, Bytes;
    WholeIsTidy(derivedKey);
    WholeIsTidy(block);
    ghost var v, w := derivedKey.words, block.words;
    derivedKey.Concat(block);
    WholeIsTidy(derivedKey);
    UnpackConcat(v, w);
    PackUnpack(derivedKey.words);
    PackUnpack(v + w);
  }

  /** The derived key is cut by its byte count alone; words past it may remain. It is derived under
      `key`: the password, unless that is longer than a block and its hash went wrong. */
  method Compute<S(!new)>(h: Hash<S>, password: WordArray, salt: WordArray, keySize: nat, iterations: nat)
    returns (derivedKey: WordArray, ghost l: nat, ghost key: seq<Byte>, ghost padded: seq<Byte>)
    requires Usable(h)
    modifies password`words
    ensures derivedKey.sigBytes == 4 * keySize && keySize <= |derivedKey.words|
    ensures password.Content() == old(password.Content())
    ensures 8 * h.bs + old(salt.sigBytes) + 4 < LIMIT ==>
              derivedKey.words == Blocks(h, key, old(salt.Content()), if iterations < 1 then 1 else iterations, l)
    ensures old(password.sigBytes) <= 4 * h.bs ==> key == old(password.Content())
    ensures old(password.sigBytes) > 4 * h.bs && old(password.sigBytes) + 4 * h.bs < LIMIT ==>
              KeyHashed(h, key, old(password.Content()), padded, EndJunkFree(old(password.words), old(password.sigBytes)))
  {
    ghost var s := salt.Content();
    assert |s| == salt.sigBytes;
    hide *;
    var hmac := new HmacHasher(h, password);
    key, padded := hmac.key, hmac.keyPadded;
    derivedKey, l := DeriveBlocks(hmac, salt, keySize, iterations, key);
    if 8 * h.bs + |s| + 4 < LIMIT {
      UsableParts(h);
      AcceptedIsSound(hmac, key, s, Rounds(iterations), l, derivedKey.words);
    }
    derivedKey.sigBytes := keySize * 4;
  }

  lemma AcceptedIsSound<S(!new)>(hmac: HmacHasher<S>, password: seq<Byte>, salt: seq<Byte>, c: nat, l: nat, words: seq<Word>)
    requires hmac.key == password && 8 * hmac.h.bs + |salt| + 4 < LIMIT && HashBlock(hmac.h.bs)
    requires DerivedTo(hmac, password, salt, c, l, words)
    ensures Usable(hmac.h) && c >= 1 && words == Blocks(hmac.h, password, salt, c, l)
  {
    hide Usable, Blocks;
  }

  /** The `while` loop: whole blocks until there are enough words. */
  method DeriveBlocks<S(!new)>(hmac: HmacHasher<S>, salt: WordArray, keySize: nat, iterations: nat, ghost password: seq<Byte>)
    returns (derivedKey: WordArray, ghost l: nat)
    requires hmac.Open([]) && salt != hmac.hasher.buf.data
    modifies hmac.hasher.buf, hmac.hasher.buf.data
    ensures fresh(derivedKey) && keySize <= |derivedKey.words| && WholeArray(derivedKey)
    ensures DerivedTo(hmac, password, old(salt.Content()), Rounds(iterations), l, derivedKey.words)
  {
    ghost var s := salt.Content();
    hide *;
    Open(hmac);
    derivedKey := new WordArray([], 0);
    var blockIndex := 1;
    l := 0;
    EmptyIsWhole(derivedKey);
    DerivedNone(hmac, password, s, Rounds(iterations));
    IsApart(hmac, derivedKey);
    while |derivedKey.words| < keySize
      invariant Apart(hmac, derivedKey) && blockIndex == l + 1 && WholeArray(derivedKey)
      invariant hmac.hasher.buf.data == old(hmac.hasher.buf.data) || fresh(hmac.hasher.buf.data)
      invariant salt != derivedKey && salt.Content() == s
      invariant DerivedTo(hmac, password, s, Rounds(iterations), l, derivedKey.words)
      decreases keySize - |derivedKey.words|
    {
      AddBlock(hmac, derivedKey, salt, blockIndex, iterations, password, s, l);
      l, blockIndex := blockIndex, blockIndex + 1;
    }
  }

  /** One round of that loop. */
  method AddBlock<S(!new)>(hmac: HmacHasher<S>, derivedKey: WordArray, salt: WordArray, index: nat, iterations: nat, ghost password: seq<Byte>, ghost s: seq<Byte>, ghost l: nat)
    requires Apart(hmac, derivedKey) && WholeArray(derivedKey) && salt != derivedKey && s == salt.Content()
    requires index == l + 1 && DerivedTo(hmac, password, s, Rounds(iterations), l, derivedKey.words)
    modifies hmac.hasher.buf, hmac.hasher.buf.data, derivedKey
    ensures Apart(hmac, derivedKey) && WholeArray(derivedKey) && fresh(hmac.hasher.buf.data)
    ensures |derivedKey.words| > |old(derivedKey.words)|
    ensures DerivedTo(hmac, password, s, Rounds(iterations), index, derivedKey.words)
  {
    ghost var words := derivedKey.words;
    hide *;
    var block := NextBlock(hmac, derivedKey, salt, index, iterations, password);
    IsApart(hmac, derivedKey);
    AppendBlock(derivedKey, block);
    DerivedMore(hmac, password, s, Rounds(iterations), l, index, words, block.words, derivedKey.words);
    IsApart(hmac, derivedKey);
  }

  method NextBlock<S(!new)>(hmac: HmacHasher<S>, derivedKey: WordArray, salt: WordArray, index: nat, iterations: nat, ghost password: seq<Byte>)
    returns (block: WordArray)
    requires Apart(hmac, derivedKey)
    modifies hmac.hasher.buf, hmac.hasher.buf.data
    ensures Apart(hmac, derivedKey) && fresh(hmac.hasher.buf.data) && fresh(block) && WholeArray(block) && 0 < |block.words|
    ensures Derives(hmac, password, old(salt.Content()), index, Rounds(iterations), block.words)
  {
    hide *;
    IsApart(hmac, derivedKey);
    block := DeriveBlock(hmac, salt, index, iterations, password);
    IsHashValue(block, hmac.h.bs);
    EmptyIsWhole(block);
    IsApart(hmac, derivedKey);
  }

  lemma EmptyIsWhole(w: WordArray)
    ensures WholeArray(w) <==> w.sigBytes == 4 * |w.words|
  {}
}
