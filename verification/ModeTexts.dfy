/** What NIST SP 800-38A says of each mode about a whole text and its ciphertext: block by block,
    on slices of the two, without the state that is carried. */
module ModeTexts {
  import opened Wrappers
  import opened JsNumbers
  import opened WordArrays
  import opened Streaming
  import opened BlockModes
  import opened Keystreams
  import opened Padding
  import Ciphers

  function Added(a: seq<Word>, b: seq<Word>): (r: seq<Word>)
    requires |a| == |b|
    ensures |r| == |a|
  {
    seq(|a|, i requires 0 <= i < |a| => a[i] ^ b[i])
  }

  /** The IV as a block: one that is too short is filled up with zeros. */
  function FirstBlock(iv: seq<Word>, bs: nat): (b: seq<Word>)
    ensures |b| == bs
  {
    seq(bs, i requires 0 <= i < bs => if i < |iv| then iv[i] else 0)
  }

  /** A block of `ws` starts at `o`. */
  ghost predicate Starts(ws: seq<Word>, o: nat, bs: nat) {
    Whole(o, bs) && o + bs <= |ws| && (o == 0 || bs <= o)
  }

  /** The block in front of `o`, or the IV. */
  function Prior(iv: seq<Word>, ws: seq<Word>, o: nat, bs: nat): (b: seq<Word>)
    requires o <= |ws| && (o == 0 || bs <= o)
    ensures |b| == bs
  {
    if o == 0 then FirstBlock(iv, bs) else ws[o - bs..o]
  }

  ghost function Encrypt(mode: Mode, enc: BlockFn, bs: nat, iv: seq<Word>, plain: seq<Word>): seq<Word>
    requires Whole(|plain|, bs)
  {
    Run(Encryptor(mode, enc, bs), ModeState(Some(iv), []), plain, bs).1
  }

  ghost function Decrypt(mode: Mode, enc: BlockFn, dec: BlockFn, bs: nat, iv: seq<Word>, text: seq<Word>): seq<Word>
    requires Whole(|text|, bs)
  {
    Run(Decryptor(mode, enc, dec, bs), ModeState(Some(iv), []), text, bs).1
  }

  // ---------------------------------------------------------------- states and blocks

  /** One step leads from the block before `o` to the state in front of it. */
  lemma StateBefore<S(!new)>(f: Step<S>, s: S, ws: seq<Word>, o: nat, bs: nat)
    requires KeepsLength(f, bs) && Whole(|ws|, bs) && Whole(o, bs) && 0 < o <= |ws|
    ensures bs <= o && Whole(o - bs, bs) && |Run(f, s, ws, bs).1| == |ws|
    ensures f(Run(f, s, ws[..o - bs], bs).0, ws[o - bs..o]) == (Run(f, s, ws[..o], bs).0, Run(f, s, ws, bs).1[o - bs..o])
  {
    ModDrop(o, bs);
    NextBlock(f, s, ws, o - bs, bs);
    OutputAt(f, s, ws, o - bs, bs);
  }

  lemma Sized(mode: Mode, enc: BlockFn, dec: BlockFn, bs: nat)
    requires BlockSized(enc, bs) && BlockSized(dec, bs)
    ensures KeepsLength(Encryptor(mode, enc, bs), bs) && KeepsLength(Decryptor(mode, enc, dec, bs), bs)
  {
    hide Mixer, Increment, XorWords;
  }

  lemma XorIsAdded(a: seq<Word>, b: seq<Word>)
    requires |a| == |b|
    ensures XorWords(a, b) == Added(a, b)
  {}

  lemma IvIsFirst(iv: seq<Word>, bs: nat)
    ensures Mixer(ModeState(Some(iv), []), bs) == FirstBlock(iv, bs)
  {}

  lemma CarryIsMixed(c: seq<Word>)
    ensures Mixer(ModeState(None, c), |c|) == c
  {
    WholeBlock(c);
  }

  /** The states in front of the block at `o`, for a text that is encrypted and one that is decrypted. */
  ghost function EncState(mode: Mode, enc: BlockFn, bs: nat, iv: seq<Word>, ws: seq<Word>, o: nat): ModeState
    requires o <= |ws| && Whole(o, bs)
  {
    Run(Encryptor(mode, enc, bs), ModeState(Some(iv), []), ws[..o], bs).0
  }

  ghost function DecState(mode: Mode, enc: BlockFn, dec: BlockFn, bs: nat, iv: seq<Word>, ws: seq<Word>, o: nat): ModeState
    requires o <= |ws| && Whole(o, bs)
  {
    Run(Decryptor(mode, enc, dec, bs), ModeState(Some(iv), []), ws[..o], bs).0
  }

  lemma EncBlock(mode: Mode, enc: BlockFn, dec: BlockFn, bs: nat, iv: seq<Word>, ws: seq<Word>, o: nat)
    requires BlockSized(enc, bs) && BlockSized(dec, bs) && Whole(|ws|, bs) && Starts(ws, o, bs)
    ensures |Encrypt(mode, enc, bs, iv, ws)| == |ws|
    ensures Encrypt(mode, enc, bs, iv, ws)[o..o + bs] == Encrypted(mode, enc, bs, EncState(mode, enc, bs, iv, ws, o), ws[o..o + bs]).1
    ensures o == 0 ==> EncState(mode, enc, bs, iv, ws, o) == ModeState(Some(iv), [])
    ensures o > 0 ==> Whole(o - bs, bs) && Encrypted(mode, enc, bs, EncState(mode, enc, bs, iv, ws, o - bs), ws[o - bs..o]) ==
                      (EncState(mode, enc, bs, iv, ws, o), Encrypt(mode, enc, bs, iv, ws)[o - bs..o])
  {
    var f, s := Encryptor(mode, enc, bs), ModeState(Some(iv), []);
    Sized(mode, enc, dec, bs);
    OutputAt(f, s, ws, o, bs);
    hide Encrypted, Run, BlockSized;
    if o == 0 {
      RunEmpty(f, s, ws[..0], bs);
    } else {
      StateBefore(f, s, ws, o, bs);
    }
  }

  lemma DecBlock(mode: Mode, enc: BlockFn, dec: BlockFn, bs: nat, iv: seq<Word>, ws: seq<Word>, o: nat)
    requires BlockSized(enc, bs) && BlockSized(dec, bs) && Whole(|ws|, bs) && Starts(ws, o, bs)
    ensures |Decrypt(mode, enc, dec, bs, iv, ws)| == |ws|
    ensures Decrypt(mode, enc, dec, bs, iv, ws)[o..o + bs] == Decrypted(mode, enc, dec, bs, DecState(mode, enc, dec, bs, iv, ws, o), ws[o..o + bs]).1
    ensures o == 0 ==> DecState(mode, enc, dec, bs, iv, ws, o) == ModeState(Some(iv), [])
    ensures o > 0 ==> Whole(o - bs, bs) && Decrypted(mode, enc, dec, bs, DecState(mode, enc, dec, bs, iv, ws, o - bs), ws[o - bs..o]) ==
                      (DecState(mode, enc, dec, bs, iv, ws, o), Decrypt(mode, enc, dec, bs, iv, ws)[o - bs..o])
  {
    var f, s := Decryptor(mode, enc, dec, bs), ModeState(Some(iv), []);
    Sized(mode, enc, dec, bs);
    OutputAt(f, s, ws, o, bs);
    hide Decrypted, Run, BlockSized;
    if o == 0 {
      RunEmpty(f, s, ws[..0], bs);
    } else {
      StateBefore(f, s, ws, o, bs);
    }
  }

  /** Chaining modes mix the ciphertext block in front, or the IV. */
  lemma EncChains(mode: Mode, enc: BlockFn, dec: BlockFn, bs: nat, iv: seq<Word>, ws: seq<Word>, o: nat)
    requires BlockSized(enc, bs) && BlockSized(dec, bs) && Whole(|ws|, bs) && Starts(ws, o, bs) && mode in {CBC, CFB}
    ensures |Encrypt(mode, enc, bs, iv, ws)| == |ws|
    ensures Mixer(EncState(mode, enc, bs, iv, ws, o), bs) == Prior(iv, Encrypt(mode, enc, bs, iv, ws), o, bs)
  {
    EncBlock(mode, enc, dec, bs, iv, ws, o);
    hide EncState, Encrypt, BlockSized, Mixer, XorWords;
    IvIsFirst(iv, bs);
    CarryIsMixed(Prior(iv, Encrypt(mode, enc, bs, iv, ws), o, bs));
  }

  lemma DecChains(mode: Mode, enc: BlockFn, dec: BlockFn, bs: nat, iv: seq<Word>, ws: seq<Word>, o: nat)
    requires BlockSized(enc, bs) && BlockSized(dec, bs) && Whole(|ws|, bs) && Starts(ws, o, bs) && mode in {CBC, CFB}
    ensures Mixer(DecState(mode, enc, dec, bs, iv, ws, o), bs) == Prior(iv, ws, o, bs)
  {
    DecBlock(mode, enc, dec, bs, iv, ws, o);
    hide DecState, Decrypt, BlockSized, Mixer, XorWords;
    IvIsFirst(iv, bs);
    CarryIsMixed(Prior(iv, ws, o, bs));
  }

  // ---------------------------------------------------------------- the modes

  /** ECB, section 6.1: every block by itself. */
  lemma EcbText(enc: BlockFn, dec: BlockFn, bs: nat, iv: seq<Word>, ws: seq<Word>, o: nat)
    requires BlockSized(enc, bs) && BlockSized(dec, bs) && Whole(|ws|, bs) && Starts(ws, o, bs)
    ensures var text := Encrypt(ECB, enc, bs, iv, ws);
            |text| == |ws| && text[o..o + bs] == enc(ws[o..o + bs])
    ensures var back := Decrypt(ECB, enc, dec, bs, iv, ws);
            |back| == |ws| && back[o..o + bs] == dec(ws[o..o + bs])
  {
    EncBlock(ECB, enc, dec, bs, iv, ws, o);
    DecBlock(ECB, enc, dec, bs, iv, ws, o);
  }

  /** CBC, section 6.2: the block in front is added before a block is encrypted, and after it has been decrypted. */
  lemma CbcText(enc: BlockFn, dec: BlockFn, bs: nat, iv: seq<Word>, ws: seq<Word>, o: nat)
    requires BlockSized(enc, bs) && BlockSized(dec, bs) && Whole(|ws|, bs) && Starts(ws, o, bs)
    ensures var text := Encrypt(CBC, enc, bs, iv, ws);
            |text| == |ws| && text[o..o + bs] == enc(Added(ws[o..o + bs], Prior(iv, text, o, bs)))
    ensures var back := Decrypt(CBC, enc, dec, bs, iv, ws);
            |back| == |ws| && back[o..o + bs] == Added(dec(ws[o..o + bs]), Prior(iv, ws, o, bs))
  {
    EncBlock(CBC, enc, dec, bs, iv, ws, o);
    DecBlock(CBC, enc, dec, bs, iv, ws, o);
    EncChains(CBC, enc, dec, bs, iv, ws, o);
    DecChains(CBC, enc, dec, bs, iv, ws, o);
    assert |dec(ws[o..o + bs])| == bs;
    hide EncState, DecState, Encrypt, Decrypt, BlockSized, Mixer, XorWords, Prior;
    XorIsAdded(ws[o..o + bs], Prior(iv, Encrypt(CBC, enc, bs, iv, ws), o, bs));
    XorIsAdded(dec(ws[o..o + bs]), Prior(iv, ws, o, bs));
  }

  /** CFB, section 6.3: the encrypted block in front is added, in both directions. */
  lemma CfbText(enc: BlockFn, dec: BlockFn, bs: nat, iv: seq<Word>, ws: seq<Word>, o: nat)
    requires BlockSized(enc, bs) && BlockSized(dec, bs) && Whole(|ws|, bs) && Starts(ws, o, bs)
    ensures var text := Encrypt(CFB, enc, bs, iv, ws);
            |text| == |ws| && |enc(Prior(iv, text, o, bs))| == bs && text[o..o + bs] == Added(ws[o..o + bs], enc(Prior(iv, text, o, bs)))
    ensures var back := Decrypt(CFB, enc, dec, bs, iv, ws);
            |back| == |ws| && |enc(Prior(iv, ws, o, bs))| == bs && back[o..o + bs] == Added(ws[o..o + bs], enc(Prior(iv, ws, o, bs)))
  {
    EncBlock(CFB, enc, dec, bs, iv, ws, o);
    DecBlock(CFB, enc, dec, bs, iv, ws, o);
    EncChains(CFB, enc, dec, bs, iv, ws, o);
    DecChains(CFB, enc, dec, bs, iv, ws, o);
    assert |enc(Prior(iv, ws, o, bs))| == bs && |enc(Prior(iv, Encrypt(CFB, enc, bs, iv, ws), o, bs))| == bs;
    hide EncState, DecState, Encrypt, Decrypt, BlockSized, Mixer, XorWords, Prior;
    XorIsAdded(ws[o..o + bs], enc(Prior(iv, Encrypt(CFB, enc, bs, iv, ws), o, bs)));
    XorIsAdded(ws[o..o + bs], enc(Prior(iv, ws, o, bs)));
  }

  /** What a text and its ciphertext differ by, block by block. */
  function Stream(ws: seq<Word>, text: seq<Word>): seq<Word>
    requires |ws| == |text|
  {
    Added(ws, text)
  }

  lemma AddedTwice(a: seq<Word>, b: seq<Word>)
    requires |a| == |b|
    ensures Added(a, Added(a, b)) == b
  {
    forall i | 0 <= i < |a| ensures a[i] ^ (a[i] ^ b[i]) == b[i] {}
  }

  lemma SliceAdded(a: seq<Word>, b: seq<Word>, o: nat, n: nat)
    requires |a| == |b| && o + n <= |a|
    ensures Added(a, b)[o..o + n] == Added(a[o..o + n], b[o..o + n])
  {}

  /** The keystream block at `o`, in the modes that only add one. */
  lemma StreamBlock(mode: Mode, enc: BlockFn, dec: BlockFn, bs: nat, iv: seq<Word>, ws: seq<Word>, o: nat)
    requires BlockSized(enc, bs) && BlockSized(dec, bs) && Whole(|ws|, bs) && Starts(ws, o, bs) && mode in {OFB, CTR}
    ensures |Encrypt(mode, enc, bs, iv, ws)| == |ws|
    ensures Stream(ws, Encrypt(mode, enc, bs, iv, ws))[o..o + bs] == enc(Mixer(EncState(mode, enc, bs, iv, ws, o), bs))
  {
    EncBlock(mode, enc, dec, bs, iv, ws, o);
    var text, k := Encrypt(mode, enc, bs, iv, ws), enc(Mixer(EncState(mode, enc, bs, iv, ws, o), bs));
    assert |k| == bs;
    hide EncState, Encrypt, BlockSized, Mixer, XorWords;
    SliceAdded(ws, text, o, bs);
    XorIsAdded(ws[o..o + bs], k);
    AddedTwice(ws[o..o + bs], k);
  }

  lemma BothDirections(mode: Mode, enc: BlockFn, dec: BlockFn, bs: nat, iv: seq<Word>, ws: seq<Word>)
    requires BlockSized(enc, bs) && Whole(|ws|, bs) && mode in {OFB, CTR}
    ensures Decrypt(mode, enc, dec, bs, iv, ws) == Encrypt(mode, enc, bs, iv, ws)
  {
    hide Mixer, XorWords, Increment, Run;
    RunSame(Decryptor(mode, enc, dec, bs), Encryptor(mode, enc, bs), ModeState(Some(iv), []), ws, bs);
  }

  /** OFB, section 6.4: a block of the keystream is the encrypted one in front of it, or IV. Both
      directions are the same. */
  lemma OfbText(enc: BlockFn, dec: BlockFn, bs: nat, iv: seq<Word>, ws: seq<Word>, o: nat)
    requires BlockSized(enc, bs) && BlockSized(dec, bs) && Whole(|ws|, bs) && Starts(ws, o, bs)
    ensures var text := Encrypt(OFB, enc, bs, iv, ws);
            |text| == |ws| && Stream(ws, text)[o..o + bs] == enc(Prior(iv, Stream(ws, text), o, bs))
    ensures Decrypt(OFB, enc, dec, bs, iv, ws) == Encrypt(OFB, enc, bs, iv, ws)
  {
    BothDirections(OFB, enc, dec, bs, iv, ws);
    StreamBlock(OFB, enc, dec, bs, iv, ws, o);
    EncBlock(OFB, enc, dec, bs, iv, ws, o);
    hide EncState, Encrypt, Decrypt, BlockSized, XorWords, Mixer, Stream;
    if o == 0 {
      IvIsFirst(iv, bs);
    } else {
      Front(ws, o, bs);
      hide Starts;
      StreamBlock(OFB, enc, dec, bs, iv, ws, o - bs);
      CarryIsMixed(Prior(iv, Stream(ws, Encrypt(OFB, enc, bs, iv, ws)), o, bs));
    }
  }

  lemma Front(ws: seq<Word>, o: nat, bs: nat)
    requires Starts(ws, o, bs) && o > 0
    ensures Starts(ws, o - bs, bs)
  {
    ModDrop(o, bs);
    if o > bs { ModDrop(o - bs, bs); }
  }

  /** CTR, section 6.5: the keystream block number `n` is the encrypted counter, whose last word
      has gone up by `n`; one time less if the IV lacks that word. */
  lemma {:induction false} CtrText(enc: BlockFn, dec: BlockFn, bs: nat, iv: seq<Word>, ws: seq<Word>, n: nat)
    requires BlockSized(enc, bs) && BlockSized(dec, bs) && Whole(|ws|, bs) && n * bs + bs <= |ws|
    ensures var text := Encrypt(CTR, enc, bs, iv, ws);
            && |text| == |ws|
            && Stream(ws, text)[n * bs..n * bs + bs] ==
               enc(if bs <= |iv| then iv[..bs - 1] + [Bits(Num(iv[bs - 1]) + n)] else FirstBlock(iv, bs)[bs - 1 := Bits(if n == 0 then 0 else n - 1)])
    ensures Decrypt(CTR, enc, dec, bs, iv, ws) == Encrypt(CTR, enc, bs, iv, ws)
  {
    ModMultiple(n, bs);
    BothDirections(CTR, enc, dec, bs, iv, ws);
    NthStarts(ws, n, bs);
    StreamBlock(CTR, enc, dec, bs, iv, ws, n * bs);
    CtrState(enc, dec, bs, iv, ws, n);
    hide EncState, Encrypt, Decrypt, BlockSized, XorWords, Mixer, Stream;
    CounterIs(iv, bs, n);
  }

  lemma NthStarts(ws: seq<Word>, n: nat, bs: nat)
    requires bs > 0 && n * bs + bs <= |ws|
    ensures Starts(ws, n * bs, bs)
  {
    ModMultiple(n, bs);
    if n > 0 { AtLeast(n, bs); }
  }

  /** The counter in front of the block at `o`, which is block `n`. */
  ghost predicate Counting(enc: BlockFn, bs: nat, iv: seq<Word>, ws: seq<Word>, o: nat, n: nat) {
    && Whole(o, bs) && o <= |ws|
    && Mixer(EncState(CTR, enc, bs, iv, ws, o), bs) == CounterAt(iv, bs, n)
    && Pending(EncState(CTR, enc, bs, iv, ws, o)) == if n == 0 then iv else CounterAt(iv, bs, n)
  }

  lemma CountingOn(enc: BlockFn, dec: BlockFn, bs: nat, iv: seq<Word>, ws: seq<Word>, o: nat, n: nat)
    requires BlockSized(enc, bs) && BlockSized(dec, bs) && Whole(|ws|, bs) && Starts(ws, o, bs) && o > 0
    requires Counting(enc, bs, iv, ws, o - bs, n)
    ensures Counting(enc, bs, iv, ws, o, n + 1)
  {
    EncBlock(CTR, enc, dec, bs, iv, ws, o);
    hide EncState, Encrypt, BlockSized, XorWords, CounterAt, Increment, Block;
    NextCounter(iv, bs, n);
    WholeBlock(CounterAt(iv, bs, n + 1));
  }

  lemma {:induction false} CtrState(enc: BlockFn, dec: BlockFn, bs: nat, iv: seq<Word>, ws: seq<Word>, n: nat)
    requires BlockSized(enc, bs) && BlockSized(dec, bs) && Whole(|ws|, bs) && n * bs + bs <= |ws|
    ensures Starts(ws, n * bs, bs) && Counting(enc, bs, iv, ws, n * bs, n)
  {
    NthStarts(ws, n, bs);
    if n == 0 {
      CountingFirst(enc, dec, bs, iv, ws);
    } else {
      hide *;
      OneBack(n, bs);
      CtrState(enc, dec, bs, iv, ws, n - 1);
      CountingOn(enc, dec, bs, iv, ws, n * bs, n - 1);
    }
  }

  lemma CountingFirst(enc: BlockFn, dec: BlockFn, bs: nat, iv: seq<Word>, ws: seq<Word>)
    requires BlockSized(enc, bs) && BlockSized(dec, bs) && Whole(|ws|, bs) && Starts(ws, 0, bs)
    ensures Counting(enc, bs, iv, ws, 0, 0)
  {
    EncBlock(CTR, enc, dec, bs, iv, ws, 0);
    hide EncState, Encrypt, BlockSized, CounterAt, Block;
    Keystreams.FirstCounter(iv, bs);
  }

  lemma OneBack(n: nat, bs: nat)
    requires n > 0
    ensures (n - 1) * bs == n * bs - bs && (n - 1) * bs + bs == n * bs && n * bs >= bs && (bs > 0 ==> n * bs > 0)
  {}

  lemma CounterIs(iv: seq<Word>, bs: nat, n: nat)
    requires bs > 0
    ensures CounterAt(iv, bs, n) ==
            if bs <= |iv| then iv[..bs - 1] + [Bits(Num(iv[bs - 1]) + n)] else FirstBlock(iv, bs)[bs - 1 := Bits(if n == 0 then 0 else n - 1)]
  {
    hide Bits, Num;
    NumOfZero();
    assert Block(iv, 0, bs) == FirstBlock(iv, bs);
  }

  // ---------------------------------------------------------------- a message in pieces

  /** What the chunk-wise results call the ciphertext of a message is the text of its mode over message and
      padding. */
  lemma CipherTextIs(mode: Mode, enc: BlockFn, bs: nat, iv: seq<Word>, msg: seq<Byte>)
    requires 0 < bs && 4 * bs < 256
    ensures var plain, text := msg + PadBytes(|msg|, bs), Ciphers.CipherText(mode, enc, bs, iv, msg);
            && |plain| % 4 == 0 && |text| % 4 == 0 && Whole(|plain| / 4, bs)
            && Pack(text) == Encrypt(mode, enc, bs, iv, Pack(plain))
  {
    var plain := msg + PadBytes(|msg|, bs);
    PaddingIs(|msg|, bs);
    WholeWords(|plain|, bs);
    hide Encryptor, Pack, Run, PadBytes;
    PackUnpack(Encrypt(mode, enc, bs, iv, Pack(plain)));
  }
}
