/** Cipher, BlockCipher and StreamCipher over the buffering template, and the streaming
    round trip: whatever the chunks, decryption gives back the message. */
module Ciphers {
  import opened Wrappers
  import opened JsNumbers
  import opened WordArrays
  import opened Streaming
  import opened BlockModes
  import opened Padding

  datatype PaddingScheme = Pkcs7 | NoPadding

  /** A word array handed to `process` or `finalize`; bits past `sigBytes` are arbitrary. */
  datatype Chunk = Chunk(words: seq<Word>, sigBytes: nat) {
    function Content(): seq<Byte> { Bytes(words, sigBytes) }
  }

  function Joined(chunks: seq<Chunk>): seq<Byte> {
    if chunks == [] then [] else chunks[0].Content() + Joined(chunks[1..])
  }

  class Cipher<S(!new)> {
    const encrypting: bool
    const padding: PaddingScheme
    const buf: BufferedBlock<S>

    ghost predicate Valid()
      reads this, buf, buf.data
    {
      && buf.Valid()
      && (padding == Pkcs7 ==> 4 * buf.blockSize < 256)
    }

    constructor (step: Step<S>, initial: S, blockSize: nat, minBufferSize: nat, encrypting: bool, padding: PaddingScheme)
      requires blockSize > 0 && KeepsLength(step, blockSize)
      requires padding == Pkcs7 ==> 4 * blockSize < 256
      ensures Valid() && buf.HoldsBack() && fresh(buf) && fresh(buf.data) && buf.given == buf.taken == []
      ensures this.encrypting == encrypting && this.padding == padding
      ensures buf.step == step && buf.initial == initial && buf.blockSize == blockSize && buf.minBufferSize == minBufferSize
    {
      this.encrypting, this.padding := encrypting, padding;
      buf := new BufferedBlock(step, initial, blockSize, minBufferSize);
    }

    method Process(update: WordArray) returns (out: WordArray)
      requires Valid() && buf.HoldsBack() && update != buf.data
      modifies buf, buf.data
      ensures Valid() && buf.HoldsBack() && fresh(out) && buf.data == old(buf.data)
      ensures buf.given == old(buf.given) + update.Content()
      ensures buf.Produced() == old(buf.Produced()) + out.Content()
    {
      hide *;
      Absorb(update);
      out := Emit();
    }

    /** What is ready to leave the buffer. */
    method Emit() returns (out: WordArray)
      requires Valid() && buf.HoldsBack()
      modifies buf`state, buf`taken, buf.data
      ensures Valid() && buf.HoldsBack() && fresh(out) && buf.data == old(buf.data)
      ensures buf.Produced() == old(buf.Produced()) + out.Content()
    {
      assert buf.Valid();
      hide *;
      ghost var used;
      out, used := buf.Process(false);
    }

    /** `padding.pad(this._data, this.blockSize)` */
    method PadBuffer()
      requires Valid()
      modifies buf`given, buf.data
      ensures Valid() && buf.data == old(buf.data) && (old(buf.HoldsBack()) ==> buf.HoldsBack())
      ensures buf.given == old(buf.given) + Tail(|old(buf.given)|)
      ensures buf.Produced() == old(buf.Produced())
    {
      if encrypting && padding == Pkcs7 {
        hide Run, Pack, Bytes, WordCount, KeepsLength, PadBytes, PadLength;
        ghost var t0, c0, tail := buf.taken, buf.data.Content(), PadBytes(|buf.given|, buf.blockSize);
        SamePad(|t0|, |c0|, buf.blockSize);
        assert (t0 + c0) + tail == t0 + (c0 + tail);
        Pad(buf.data, buf.blockSize);
        buf.given := buf.given + tail;
      }
    }

    /** What `Finalize` promises of its results, given the bytes produced `before`. */
    ghost predicate Final(before: seq<Byte>, words: seq<Word>, sigBytes: int, full: seq<Byte>, total: seq<Word>) {
      && |before| <= |full|
      && var rest := |full| - |before|;
      && Finished(buf.step, buf.initial, buf.blockSize, before, words, rest, full, total)
      && sigBytes == rest - Removed(words, rest)
      && (buf.minBufferSize >= 1 ==> |full| <= rest || 4 * buf.blockSize <= rest)
    }

    /** The padding added after `n` bytes. */
    function Tail(n: nat): seq<Byte>
      reads buf
      requires buf.blockSize > 0
    {
      if encrypting && padding == Pkcs7 then PadBytes(n, buf.blockSize) else []
    }

    /** `_append`; the last update is optional. */
    method Absorb(update: WordArray?)
      requires Valid() && buf.HoldsBack() && update != buf.data
      modifies buf, buf.data
      ensures Valid() && buf.HoldsBack() && buf.data == old(buf.data)
      ensures buf.given == old(buf.given) + (if update == null then [] else old(update.Content()))
      ensures buf.Produced() == old(buf.Produced())
    {
      if update != null {
        hide Run, Pack, Bytes, WordCount, KeepsLength;
        buf.Append(update);
      }
    }

    /** What is left to emit. `full` are all the bytes since the first one, with padding when
        encrypting, and `total` the words they went through the step function in. The two
        results are the `words` and `sigBytes` of the returned array; a malformed padding can
        leave `sigBytes` negative. */
    method Finalize(update: WordArray?) returns (words: seq<Word>, sigBytes: int, ghost full: seq<Byte>, ghost total: seq<Word>)
      requires Valid() && buf.HoldsBack() && update != buf.data
      modifies buf, buf.data
      ensures var msg := old(buf.given) + (if update == null then [] else old(update.Content()));
              full == msg + Tail(|msg|)
      ensures Final(old(buf.Produced()), words, sigBytes, full, total) && buf.blockSize > 0
    {
      assert buf.Valid();
      ghost var p0 := buf.Produced();
      hide *;
      Absorb(update);
      PadBuffer();
      full := buf.given;
      var out: WordArray;
      out, total := buf.Flush();
      words := out.words;
      sigBytes := out.sigBytes - Removed(words, out.sigBytes);
      MakeFinal(p0, words, out.sigBytes, full, total);
    }

    /** The padding bytes `finalize` drops from the end. */
    function Removed(words: seq<Word>, n: nat): nat {
      if !encrypting && padding == Pkcs7 then UnpadLength(words, n) else 0
    }

    lemma MakeFinal(before: seq<Byte>, words: seq<Word>, rest: nat, full: seq<Byte>, total: seq<Word>)
      requires Finished(buf.step, buf.initial, buf.blockSize, before, words, rest, full, total)
      requires buf.minBufferSize >= 1 ==> |full| <= rest || 4 * buf.blockSize <= rest
      ensures Final(before, words, rest - Removed(words, rest), full, total)
    {
    }
  }

  lemma {:induction false} JoinedSnoc(chunks: seq<Chunk>, c: Chunk)
    ensures Joined(chunks + [c]) == Joined(chunks) + c.Content()
  {
    if chunks == [] {
      assert [c][1..] == [];
    } else {
      assert (chunks + [c])[1..] == chunks[1..] + [c];
      JoinedSnoc(chunks[1..], c);
    }
  }

  lemma Assoc<T>(a: seq<T>, b: seq<T>, c: seq<T>)
    ensures (a + b) + c == a + (b + c)
  {}

  lemma JoinedTo(chunks: seq<Chunk>, i: nat)
    requires i < |chunks|
    ensures Joined(chunks[..i + 1]) == Joined(chunks[..i]) + chunks[i].Content()
  {
    assert chunks[..i + 1] == chunks[..i] + [chunks[i]];
    JoinedSnoc(chunks[..i], chunks[i]);
  }

  method FeedOne<S(!new)>(c: Cipher<S>, chunk: Chunk) returns (out: seq<Byte>)
    requires c.Valid() && c.buf.HoldsBack()
    modifies c.buf, c.buf.data
    ensures c.Valid() && c.buf.HoldsBack() && c.buf.data == old(c.buf.data)
    ensures c.buf.given == old(c.buf.given) + chunk.Content()
    ensures c.buf.Produced() == old(c.buf.Produced()) + out
  {
    hide Bytes;
    var update := new WordArray(chunk.words, chunk.sigBytes);
    var piece := c.Process(update);
    out := piece.Content();
  }

  /** Hands chunk after chunk to `process` and collects the results. */
  method Feed<S(!new)>(c: Cipher<S>, chunks: seq<Chunk>) returns (out: seq<Byte>)
    requires c.Valid() && c.buf.HoldsBack()
    modifies c.buf, c.buf.data
    ensures c.Valid() && c.buf.HoldsBack() && c.buf.data == old(c.buf.data)
    ensures c.buf.given == old(c.buf.given) + Joined(chunks)
    ensures c.buf.Produced() == old(c.buf.Produced()) + out
  {
    out := [];
    ghost var g0, p0 := c.buf.given, c.buf.Produced();
    assert Joined(chunks[..0]) == [];
    assert chunks[..|chunks|] == chunks;
    hide *;
    for i := 0 to |chunks|
      invariant c.Valid() && c.buf.HoldsBack() && c.buf.data == old(c.buf.data)
      invariant c.buf.given == g0 + Joined(chunks[..i])
      invariant c.buf.Valid() && c.buf.Produced() == p0 + out
    {
      JoinedTo(chunks, i);
      var piece := FeedOne(c, chunks[i]);
      Assoc(g0, Joined(chunks[..i]), chunks[i].Content());
      Assoc(p0, out, piece);
      out := out + piece;
    }
  }

  // ---------------------------------------------------------------- block ciphers, Pkcs7

  ghost function Padded(msg: seq<Byte>, bs: nat): (r: seq<Byte>)
    requires bs > 0
    ensures Whole(|r|, 4 * bs) && |r| % 4 == 0 && |r| >= 4 * bs
  {
    ModMultiple(0, 4 * bs);
    SamePad(0, |msg|, bs);
    WholeWords(|msg + PadBytes(|msg|, bs)|, bs);
    ModDrop(|msg + PadBytes(|msg|, bs)|, 4 * bs);
    msg + PadBytes(|msg|, bs)
  }

  /** The ciphertext of a message in one piece, by the reference. */
  ghost function CipherText(mode: Mode, enc: BlockFn, bs: nat, iv: seq<Word>, msg: seq<Byte>): seq<Byte>
    requires bs > 0
  {
    WholeWords(|Padded(msg, bs)|, bs);
    Unpack(Run(Encryptor(mode, enc, bs), ModeState(Some(iv), []), Pack(Padded(msg, bs)), bs).1)
  }

  /** Decrypting the ciphertext words gives back the padded message words. */
  lemma CipherTextUndone(mode: Mode, enc: BlockFn, dec: BlockFn, bs: nat, iv: seq<Word>, msg: seq<Byte>, total: seq<Word>)
    requires bs > 0 && Inverse(enc, dec, bs)
    requires var ct := CipherText(mode, enc, bs, iv, msg); 4 * |total| == |ct| && Bytes(total, |ct|) == ct
    ensures |CipherText(mode, enc, bs, iv, msg)| == |Padded(msg, bs)|
    ensures Whole(|total|, bs)
    ensures Unpack(Run(Decryptor(mode, enc, dec, bs), ModeState(Some(iv), []), total, bs).1) == Padded(msg, bs)
  {
    var plain := Padded(msg, bs);
    WholeWords(|plain|, bs);
    var s0 := ModeState(Some(iv), []);
    var f, g := Encryptor(mode, enc, bs), Decryptor(mode, enc, dec, bs);
    var ws := Pack(plain);
    var ct := CipherText(mode, enc, bs, iv, msg);
    assert ct == Unpack(Run(f, s0, ws, bs).1);
    hide Run, Pack, Unpack, Bytes, Padded, Encryptor, Decryptor, Inverse, Undoes, Whole, CipherText;
    ModeUndoes(mode, enc, dec, bs);
    RunUndoes(f, g, s0, ws, bs);
    NoRoom(total, ct);
    PackUnpack(Run(f, s0, ws, bs).1);
    assert total == Run(f, s0, ws, bs).1;
    UnpackPack(plain);
  }

  /** The bytes of a returned array; a negative `sigBytes` leaves none. */
  function Significant(words: seq<Word>, sigBytes: int): seq<Byte> {
    if sigBytes < 0 then [] else Bytes(words, sigBytes)
  }

  /** A whole run: every chunk through `process`, then `finalize`, outputs concatenated. */
  method Drive<S(!new)>(c: Cipher<S>, chunks: seq<Chunk>)
    returns (out: seq<Byte>, words: seq<Word>, sigBytes: int, ghost before: seq<Byte>, ghost full: seq<Byte>, ghost total: seq<Word>)
    requires c.Valid() && c.buf.HoldsBack() && c.buf.given == c.buf.taken == []
    modifies c.buf, c.buf.data
    ensures c.buf.blockSize > 0 && full == Joined(chunks) + c.Tail(|Joined(chunks)|)
    ensures c.Final(before, words, sigBytes, full, total)
    ensures out == before + Significant(words, sigBytes)
  {
    NothingProduced(c);
    hide *;
    out := Feed(c, chunks);
    before := out;
    EmptyLeft(out);
    EmptyLeft(Joined(chunks));
    EmptyRight(Joined(chunks));
    words, sigBytes, full, total := c.Finalize(null);
    out := out + Significant(words, sigBytes);
  }

  lemma NothingProduced<S(!new)>(c: Cipher<S>)
    requires c.Valid() && c.buf.taken == []
    ensures c.buf.Produced() == []
  {
    hide Bytes;
    assert Pack([]) == [];
    RunEmpty(c.buf.step, c.buf.initial, Pack([]), c.buf.blockSize);
  }

  lemma EmptyLeft<T>(a: seq<T>)
    ensures [] + a == a
  {}

  lemma EmptyRight<T>(a: seq<T>)
    ensures a + [] == a
  {}

  lemma EncryptionEnds(mode: Mode, enc: BlockFn, dec: BlockFn, bs: nat, iv: seq<Word>, msg: seq<Byte>, before: seq<Byte>, words: seq<Word>, rest: nat, total: seq<Word>)
    requires bs > 0 && Inverse(enc, dec, bs)
    requires Finished(Encryptor(mode, enc, bs), ModeState(Some(iv), []), bs, before, words, rest, Padded(msg, bs), total)
    ensures before + Bytes(words, rest) == CipherText(mode, enc, bs, iv, msg)
  {
    var f, s0 := Encryptor(mode, enc, bs), ModeState(Some(iv), []);
    var full := Padded(msg, bs);
    WholeWords(|full|, bs);
    assert CipherText(mode, enc, bs, iv, msg) == Unpack(Run(f, s0, Pack(full), bs).1);
    hide Run, Bytes, Padded, Encryptor, Inverse, Undoes, Whole, CipherText, KeepsLength;
    NoRoom(total, full);
    ModeUndoes(mode, enc, dec, bs);
    RunLength(f, s0, total, bs);
  }

  lemma DecryptionEnds(mode: Mode, enc: BlockFn, dec: BlockFn, bs: nat, iv: seq<Word>, msg: seq<Byte>, before: seq<Byte>, words: seq<Word>, rest: nat, ct: seq<Byte>, total: seq<Word>)
    requires 0 < bs && 4 * bs < 256 && Inverse(enc, dec, bs)
    requires ct == CipherText(mode, enc, bs, iv, msg)
    requires Finished(Decryptor(mode, enc, dec, bs), ModeState(Some(iv), []), bs, before, words, rest, ct, total)
    requires |ct| <= rest || 4 * bs <= rest
    ensures UnpadLength(words, rest) <= rest
    ensures before + Bytes(words, rest - UnpadLength(words, rest)) == msg
  {
    var padded := Padded(msg, bs);
    assert |padded| >= 4 * bs && |padded| % 4 == 0 && padded == msg + PadBytes(|msg|, bs);
    hide *;
    CipherTextLength(mode, enc, dec, bs, iv, msg);
    FinishedPadded(mode, enc, dec, bs, iv, msg, before, words, rest, total);
    UnpadUndoesPad(before, words, rest, msg, bs);
  }

  lemma FinishedPadded(mode: Mode, enc: BlockFn, dec: BlockFn, bs: nat, iv: seq<Word>, msg: seq<Byte>, before: seq<Byte>, words: seq<Word>, rest: nat, total: seq<Word>)
    requires bs > 0 && Inverse(enc, dec, bs)
    requires Finished(Decryptor(mode, enc, dec, bs), ModeState(Some(iv), []), bs, before, words, rest, CipherText(mode, enc, bs, iv, msg), total)
    ensures before + Bytes(words, rest) == Padded(msg, bs)
    ensures rest % 4 == 0 && |before| + rest == |Padded(msg, bs)| && rest <= 4 * |words|
  {
    var g, s0 := Decryptor(mode, enc, dec, bs), ModeState(Some(iv), []);
    var ct := CipherText(mode, enc, bs, iv, msg);
    var n := |Padded(msg, bs)|;
    assert Whole(n, 4 * bs) && n % 4 == 0;
    CipherTextLength(mode, enc, dec, bs, iv, msg);
    assert |ct| == n && 4 * |total| == n && Bytes(total, n) == ct;
    hide Bytes, Padded, Encryptor, Decryptor, Inverse, Undoes, CipherText, KeepsLength, Run;
    CipherTextUndone(mode, enc, dec, bs, iv, msg, total);
    ModeUndoes(mode, enc, dec, bs);
    RunLength(g, s0, total, bs);
    assert before + Bytes(words, rest) == Bytes(Run(g, s0, total, bs).1, n);
  }

  lemma CipherTextLength(mode: Mode, enc: BlockFn, dec: BlockFn, bs: nat, iv: seq<Word>, msg: seq<Byte>)
    requires bs > 0 && Inverse(enc, dec, bs)
    ensures |CipherText(mode, enc, bs, iv, msg)| == |Padded(msg, bs)|
  {
    WholeWords(|Padded(msg, bs)|, bs);
    ModeUndoes(mode, enc, dec, bs);
    RunLength(Encryptor(mode, enc, bs), ModeState(Some(iv), []), Pack(Padded(msg, bs)), bs);
  }

  method EncryptChunks(mode: Mode, enc: BlockFn, dec: BlockFn, bs: nat, iv: seq<Word>, chunks: seq<Chunk>) returns (ct: seq<Byte>)
    requires 0 < bs && 4 * bs < 256 && Inverse(enc, dec, bs)
    ensures ct == CipherText(mode, enc, bs, iv, Joined(chunks))
  {
    ModeUndoes(mode, enc, dec, bs);
    hide Encryptor, Inverse, Undoes, KeepsLength, CipherText, Joined, Bytes, Run, Whole, Finished;
    var c := new Cipher(Encryptor(mode, enc, bs), ModeState(Some(iv), []), bs, 0, true, Pkcs7);
    var words, sigBytes;
    ghost var before, full, total;
    ct, words, sigBytes, before, full, total := Drive(c, chunks);
    EncryptionEnds(mode, enc, dec, bs, iv, Joined(chunks), before, words, sigBytes, total);
  }

  method DecryptChunks(mode: Mode, enc: BlockFn, dec: BlockFn, bs: nat, iv: seq<Word>, chunks: seq<Chunk>, ghost msg: seq<Byte>) returns (out: seq<Byte>)
    requires 0 < bs && 4 * bs < 256 && Inverse(enc, dec, bs)
    ensures Joined(chunks) == CipherText(mode, enc, bs, iv, msg) ==> out == msg
  {
    ModeUndoes(mode, enc, dec, bs);
    hide *;
    var c := new Cipher(Decryptor(mode, enc, dec, bs), ModeState(Some(iv), []), bs, 1, false, Pkcs7);
    var words, sigBytes;
    ghost var before, full, total;
    out, words, sigBytes, before, full, total := Drive(c, chunks);
    ghost var rest := UnpaddedEnd(c, Joined(chunks), before, words, sigBytes, full, total);
    if Joined(chunks) == CipherText(mode, enc, bs, iv, msg) {
      DecryptionEnds(mode, enc, dec, bs, iv, msg, before, words, rest, Joined(chunks), total);
    }
  }

  lemma UnpaddedEnd<S(!new)>(c: Cipher<S>, given: seq<Byte>, before: seq<Byte>, words: seq<Word>, sigBytes: int, full: seq<Byte>, total: seq<Word>) returns (rest: nat)
    requires c.buf.blockSize > 0 && !c.encrypting && c.padding == Pkcs7 && c.buf.minBufferSize >= 1
    requires full == given + c.Tail(|given|) && c.Final(before, words, sigBytes, full, total)
    ensures full == given && sigBytes == rest - UnpadLength(words, rest)
    ensures Finished(c.buf.step, c.buf.initial, c.buf.blockSize, before, words, rest, given, total)
    ensures |given| <= rest || 4 * c.buf.blockSize <= rest
  {
    hide Finished, UnpadLength;
    EmptyRight(given);
    rest := |full| - |before|;
  }

  /** Whatever the chunks on either side and whatever lies past their ends, decryption gives
      back exactly the message. */
  method RoundTrip(mode: Mode, enc: BlockFn, dec: BlockFn, bs: nat, iv: seq<Word>, plain: seq<Chunk>, cipher: seq<Chunk>)
    returns (ct: seq<Byte>, out: seq<Byte>)
    requires 0 < bs && 4 * bs < 256 && Inverse(enc, dec, bs)
    ensures ct == CipherText(mode, enc, bs, iv, Joined(plain))
    ensures Joined(cipher) == ct ==> out == Joined(plain)
  {
    hide *;
    ct := EncryptChunks(mode, enc, dec, bs, iv, plain);
    out := DecryptChunks(mode, enc, dec, bs, iv, cipher, Joined(plain));
  }

  // ---------------------------------------------------------------- malformed padding

  /** Decrypting whole blocks leaves a negative count exactly when the last decrypted byte is
      greater than what `finalize` hands out, which is at least a block. */
  lemma NegativeExactly<S(!new)>(c: Cipher<S>, given: seq<Byte>, before: seq<Byte>, words: seq<Word>, sigBytes: int, full: seq<Byte>, total: seq<Word>)
    requires c.buf.blockSize > 0 && !c.encrypting && c.padding == Pkcs7 && c.buf.minBufferSize >= 1
    requires KeepsLength(c.buf.step, c.buf.blockSize)
    requires given != [] && Whole(|given|, 4 * c.buf.blockSize)
    requires full == given + c.Tail(|given|) && c.Final(before, words, sigBytes, full, total)
    ensures |given| - |before| >= 4 * c.buf.blockSize && |given| % 4 == 0 && Whole(|Pack(given)|, c.buf.blockSize)
    ensures var plain := Run(c.buf.step, c.buf.initial, Pack(given), c.buf.blockSize).1;
            && 4 * |plain| == |given|
            && sigBytes == |given| - |before| - ByteNum(At(plain, |given| - 1))
            && (sigBytes < 0 <==> ByteNum(At(plain, |given| - 1)) > |given| - |before|)
  {
    hide *;
    var rest := UnpaddedEnd(c, given, before, words, sigBytes, full, total);
    SameLast(c.buf.step, c.buf.initial, c.buf.blockSize, before, words, rest, given, total);
    UnpadIsLast(words, rest);
  }

  lemma SameLast<S(!new)>(f: Step<S>, s: S, bs: nat, before: seq<Byte>, words: seq<Word>, rest: nat, given: seq<Byte>, total: seq<Word>)
    requires KeepsLength(f, bs) && given != [] && Whole(|given|, 4 * bs)
    requires Finished(f, s, bs, before, words, rest, given, total)
    requires |given| <= rest || 4 * bs <= rest
    ensures |given| % 4 == 0 && Whole(|Pack(given)|, bs)
    ensures 4 * |Run(f, s, Pack(given), bs).1| == |given|
    ensures |given| - |before| == rest >= 4 * bs && 0 < rest <= 4 * |words| && rest % 4 == 0
    ensures At(words, rest - 1) == At(Run(f, s, Pack(given), bs).1, |given| - 1)
  {
    hide Run, Pack, Bytes, At, KeepsLength, Whole;
    RestIsWhole(|given|, |before|, rest, bs);
    NoRoom(total, given);
    RunLength(f, s, total, bs);
    var plain := Run(f, s, total, bs).1;
    assert (before + Bytes(words, rest))[|given| - 1] == At(words, rest - 1);
  }

  lemma RestIsWhole(n: nat, m: nat, rest: nat, bs: nat)
    requires n > 0 && Whole(n, 4 * bs) && n == m + rest && m % 4 == 0
    requires n <= rest || 4 * bs <= rest
    ensures n % 4 == 0 && Whole(n / 4, bs) && rest >= 4 * bs > 0 && rest % 4 == 0
  {
    WholeWords(n, bs);
    NotLess(n, 4 * bs);
    assert 4 * (n / 4 - m / 4) == rest;
  }

  lemma NotLess(n: nat, d: nat)
    requires n > 0 && Whole(n, d)
    ensures n >= d
  {
    assert n == n / d * d;
  }

  /** One block encrypted without padding, and the ciphertext decrypted with Pkcs7: where the
      block ends in 0xff, less than no byte is left. */
  method OneBlockUnpadded(mode: Mode, enc: BlockFn, dec: BlockFn, bs: nat, iv: seq<Word>, block: seq<Word>) returns (sigBytes: int)
    requires 0 < bs && 4 * bs < 256 && Inverse(enc, dec, bs) && |block| == bs
    ensures sigBytes == 4 * bs - ByteNum(At(block, 4 * bs - 1))
    ensures At(block, 4 * bs - 1) == 0xff ==> sigBytes < 0
  {
    ModeUndoes(mode, enc, dec, bs);
    ByteNumFF();
    hide *;
    sigBytes := OneBlockBack(Encryptor(mode, enc, bs), Decryptor(mode, enc, dec, bs), ModeState(Some(iv), []), block);
  }

  method OneBlockBack<S(!new)>(f: Step<S>, g: Step<S>, s0: S, block: seq<Word>) returns (sigBytes: int)
    requires 0 < |block| && 4 * |block| < 256
    requires Undoes(f, g, |block|) && KeepsLength(f, |block|) && KeepsLength(g, |block|)
    ensures sigBytes == 4 * |block| - ByteNum(At(block, 4 * |block| - 1))
  {
    hide *;
    OneBlock(f, g, s0, block, |block|);
    var e := new Cipher(f, s0, |block|, 0, true, NoPadding);
    var ct, left := Single(e, block);
    assert ct == Unpack(Run(f, s0, block, |block|).1);
    PackUnpack(Run(f, s0, block, |block|).1);
    var d := new Cipher(g, s0, |block|, 1, false, Pkcs7);
    var out;
    out, sigBytes := Single(d, Pack(ct));
  }

  /** One block through `finalize`; `out` are the bytes that come out. */
  method Single<S(!new)>(c: Cipher<S>, block: seq<Word>) returns (out: seq<Byte>, sigBytes: int)
    requires c.Valid() && c.buf.HoldsBack() && c.buf.given == c.buf.taken == []
    requires KeepsLength(c.buf.step, |block|) && |block| == c.buf.blockSize > 0
    modifies c.buf, c.buf.data
    ensures Whole(|block|, |block|) && |Run(c.buf.step, c.buf.initial, block, |block|).1| == |block|
    ensures c.padding == NoPadding ==> out == Unpack(Run(c.buf.step, c.buf.initial, block, |block|).1)
    ensures !c.encrypting && c.padding == Pkcs7 && c.buf.minBufferSize >= 1 ==>
              sigBytes == 4 * |block| - ByteNum(At(Run(c.buf.step, c.buf.initial, block, |block|).1, 4 * |block| - 1))
  {
    hide *;
    ghost var before, full, total;
    var words;
    out, words, sigBytes, before, full, total := Drive(c, [Chunk(block, 4 * |block|)]);
    OneBlockEnds(c, block, out, before, words, sigBytes, full, total);
  }

  lemma OneBlockEnds<S(!new)>(c: Cipher<S>, block: seq<Word>, out: seq<Byte>, before: seq<Byte>, words: seq<Word>, sigBytes: int, full: seq<Byte>, total: seq<Word>)
    requires c.buf.blockSize == |block| > 0 && KeepsLength(c.buf.step, |block|)
    requires var given := Joined([Chunk(block, 4 * |block|)]);
             full == given + c.Tail(|given|) && c.Final(before, words, sigBytes, full, total)
    requires out == before + Significant(words, sigBytes)
    ensures Whole(|block|, |block|) && |Run(c.buf.step, c.buf.initial, block, |block|).1| == |block|
    ensures c.padding == NoPadding ==> out == Unpack(Run(c.buf.step, c.buf.initial, block, |block|).1)
    ensures !c.encrypting && c.padding == Pkcs7 && c.buf.minBufferSize >= 1 ==>
              sigBytes == 4 * |block| - ByteNum(At(Run(c.buf.step, c.buf.initial, block, |block|).1, 4 * |block| - 1))
  {
    assert Chunk(block, 4 * |block|).Content() == Unpack(block);
    assert c.padding == NoPadding ==> c.Tail(|Unpack(block)|) == [];
    hide Run, Bytes, UnpadLength, KeepsLength, At, ByteNum, Whole, Joined, Chunk.Content;
    JoinedOne(Chunk(block, 4 * |block|));
    OneWhole(|block|);
    PackUnpack(block);
    if c.padding == NoPadding {
      EmptyRight(Unpack(block));
      NoRoom(total, Unpack(block));
      RunLength(c.buf.step, c.buf.initial, block, |block|);
    } else if !c.encrypting && c.buf.minBufferSize >= 1 {
      OneBlockLeft(c, block, before, words, sigBytes, full, total);
    } else {
      RunLength(c.buf.step, c.buf.initial, block, |block|);
    }
  }

  lemma OneBlockLeft<S(!new)>(c: Cipher<S>, block: seq<Word>, before: seq<Byte>, words: seq<Word>, sigBytes: int, full: seq<Byte>, total: seq<Word>)
    requires c.buf.blockSize == |block| > 0 && !c.encrypting && c.padding == Pkcs7 && c.buf.minBufferSize >= 1
    requires KeepsLength(c.buf.step, |block|)
    requires full == Unpack(block) + c.Tail(|Unpack(block)|) && c.Final(before, words, sigBytes, full, total)
    ensures Whole(|block|, |block|) && |Run(c.buf.step, c.buf.initial, block, |block|).1| == |block|
    ensures sigBytes == 4 * |block| - ByteNum(At(Run(c.buf.step, c.buf.initial, block, |block|).1, 4 * |block| - 1))
  {
    hide *;
    OneWhole(|block|);
    PackUnpack(block);
    NegativeExactly(c, Unpack(block), before, words, sigBytes, full, total);
  }

  lemma OneWhole(d: nat)
    requires d > 0
    ensures Whole(d, d) && Whole(4 * d, 4 * d)
  {
    ModMultiple(1, d);
    ModMultiple(1, 4 * d);
  }

  lemma JoinedOne(c: Chunk)
    ensures Joined([c]) == c.Content()
  {
    assert [c][1..] == [];
  }

  lemma OneBlock<S(!new)>(f: Step<S>, g: Step<S>, s: S, block: seq<Word>, bs: nat)
    requires bs > 0 && |block| == bs && Undoes(f, g, bs) && KeepsLength(f, bs)
    ensures Whole(bs, bs) && |Run(f, s, block, bs).1| == bs && Run(g, s, Run(f, s, block, bs).1, bs).1 == block
  {
    hide Undoes, KeepsLength, Run;
    ModMultiple(1, bs);
    RunUndoes(f, g, s, block, bs);
  }

  lemma SamePad(m: nat, n: nat, bs: nat)
    requires Whole(m, 4 * bs)
    ensures PadBytes(m + n, bs) == PadBytes(n, bs)
    ensures Whole(m + n + |PadBytes(n, bs)|, 4 * bs)
  {
    var d := 4 * bs;
    var q, r := n / d, n % d;
    assert m + n == (m / d + q) * d + r;
    RemainderUnique(m + n, m / d + q, r, d);
    ModMultiple(m / d + q + 1, d);
    assert m + n + PadLength(n, bs) == (m / d + q + 1) * d;
  }

  lemma RemainderUnique(n: nat, q: nat, r: nat, d: nat)
    requires d > 0 && r < d && n == q * d + r
    ensures n % d == r
  {
    var q1, r1 := n / d, n % d;
    assert n == q1 * d + r1;
    assert (q1 - q) * d == r - r1;
    if q1 > q { NoMultipleBelow(q1 - q, d, r - r1); }
    else { assert (q - q1) * d == r1 - r; NoMultipleBelow(q - q1, d, r1 - r); }
  }
}
