/** The block modes: how each of them turns a block cipher into a step of the buffering
    template, and the in-place `processBlock` methods that compute those steps. */
module BlockModes {
  import opened Wrappers
  import opened JsNumbers
  import opened WordArrays
  import opened Streaming

  /** ECB is stateless; the other modes consume an IV once and then carry a block. */
  datatype Mode = CBC | CFB | OFB | CTR | ECB

  /** `_iv`, and `_prevBlock`, `_keystream` or `_counter`. */
  datatype ModeState = ModeState(iv: Option<seq<Word>>, carry: seq<Word>)

  type BlockFn = seq<Word> -> seq<Word>

  /** A block cipher whose `decryptBlock` inverts its `encryptBlock`. */
  ghost predicate Inverse(enc: BlockFn, dec: BlockFn, bs: nat) {
    && BlockSized(enc, bs) && BlockSized(dec, bs)
    && forall b: seq<Word> {:trigger enc(b)} :: |b| == bs ==> dec(enc(b)) == b
  }

  ghost predicate BlockSized(f: BlockFn, bs: nat) {
    forall b: seq<Word> :: |b| == bs ==> |f(b)| == bs
  }

  function XorWords(a: seq<Word>, b: seq<Word>): (r: seq<Word>)
    ensures |r| == |a|
  {
    seq(|a|, i requires 0 <= i < |a| => Xor(a[i], Get(b, i)))
  }

  /** The IV the first time, what was carried afterwards. */
  function Pending(s: ModeState): seq<Word> {
    if s.iv.Some? then s.iv.value else s.carry
  }

  /** The block mixed into the next one. */
  function Mixer(s: ModeState, bs: nat): (b: seq<Word>)
    ensures |b| == bs
  {
    Block(Pending(s), 0, bs)
  }

  /** `(counter[blockSize - 1] + 1) | 0`; a counter that is too short has no such word, and the sum
      with a missing one is cut to 0. */
  function Increment(counter: seq<Word>, bs: nat): (r: seq<Word>)
    ensures |r| == bs
  {
    var c := Block(counter, 0, bs);
    if bs == 0 then c else c[bs - 1 := if |counter| < bs then 0 else Bits(Num(counter[bs - 1]) + 1)]
  }

  function Encrypted(mode: Mode, enc: BlockFn, bs: nat, s: ModeState, b: seq<Word>): (ModeState, seq<Word>) {
    var m := Mixer(s, bs);
    match mode
    case CBC => var c := enc(XorWords(b, m)); (ModeState(None, c), c)
    case CFB => var c := XorWords(b, enc(m)); (ModeState(None, c), c)
    case OFB => var k := enc(m); (ModeState(None, k), XorWords(b, k))
    case CTR => (ModeState(None, Increment(Pending(s), bs)), XorWords(b, enc(m)))
    case ECB => (s, enc(b))
  }

  function Decrypted(mode: Mode, enc: BlockFn, dec: BlockFn, bs: nat, s: ModeState, c: seq<Word>): (ModeState, seq<Word>) {
    var m := Mixer(s, bs);
    match mode
    case CBC => (ModeState(None, c), XorWords(dec(c), m))
    case CFB => (ModeState(None, c), XorWords(c, enc(m)))
    case OFB => var k := enc(m); (ModeState(None, k), XorWords(c, k))
    case CTR => (ModeState(None, Increment(Pending(s), bs)), XorWords(c, enc(m)))
    case ECB => (s, dec(c))
  }

  function Encryptor(mode: Mode, enc: BlockFn, bs: nat): Step<ModeState> {
    (s, b) => Encrypted(mode, enc, bs, s, b)
  }

  function Decryptor(mode: Mode, enc: BlockFn, dec: BlockFn, bs: nat): Step<ModeState> {
    (s, c) => Decrypted(mode, enc, dec, bs, s, c)
  }

  // ---------------------------------------------------------------- inverse steps

  /** Step `g` undoes step `f` block by block and ends every block in the same state. */
  ghost predicate Undoes<S(!new)>(f: Step<S>, g: Step<S>, bs: nat) {
    forall s: S, b: seq<Word> :: |b| == bs ==> |f(s, b).1| == bs && g(s, f(s, b).1) == (f(s, b).0, b)
  }

  lemma XorTwice(a: seq<Word>, b: seq<Word>)
    ensures XorWords(XorWords(a, b), b) == a
  {
    forall i: nat | i < |a| ensures Xor(Xor(a[i], Get(b, i)), Get(b, i)) == a[i] {}
  }

  lemma ModeUndoes(mode: Mode, enc: BlockFn, dec: BlockFn, bs: nat)
    requires Inverse(enc, dec, bs)
    ensures Undoes(Encryptor(mode, enc, bs), Decryptor(mode, enc, dec, bs), bs)
    ensures KeepsLength(Encryptor(mode, enc, bs), bs) && KeepsLength(Decryptor(mode, enc, dec, bs), bs)
  {
    hide Mixer, XorWords, Increment;
    forall s: ModeState, b: seq<Word> | |b| == bs
      ensures |Encrypted(mode, enc, bs, s, b).1| == bs && |Decrypted(mode, enc, dec, bs, s, b).1| == bs
      ensures Decrypted(mode, enc, dec, bs, s, Encrypted(mode, enc, bs, s, b).1) == (Encrypted(mode, enc, bs, s, b).0, b)
    {
      var m := Mixer(s, bs);
      XorTwice(b, m);
      XorTwice(b, enc(m));
    }
  }

  /** Steps that undo each other undo each other over any number of blocks. */
  lemma {:induction false} RunUndoes<S(!new)>(f: Step<S>, g: Step<S>, s: S, ws: seq<Word>, bs: nat)
    requires Whole(|ws|, bs) && Undoes(f, g, bs)
    ensures |Run(f, s, ws, bs).1| == |ws|
    ensures Run(g, s, Run(f, s, ws, bs).1, bs) == (Run(f, s, ws, bs).0, ws)
    decreases |ws|
  {
    if ws != [] {
      ModDrop(|ws|, bs);
      var head := f(s, ws[..bs]);
      var tail := Run(f, head.0, ws[bs..], bs).1;
      RunUndoes(f, g, head.0, ws[bs..], bs);
      assert (head.1 + tail)[..bs] == head.1 && (head.1 + tail)[bs..] == tail;
      assert ws[..bs] + ws[bs..] == ws;
    }
  }

  // ---------------------------------------------------------------- processBlock, in place

  /** Only the block at `offset` differs between the two arrays of words. */
  ghost predicate SameOutside(before: seq<Word>, after: seq<Word>, offset: nat, bs: nat)
    requires offset + bs <= |before|
  {
    |after| == |before| && after[..offset] == before[..offset] && after[offset + bs..] == before[offset + bs..]
  }

  lemma SameOutsideTwice(w0: seq<Word>, w1: seq<Word>, w2: seq<Word>, offset: nat, bs: nat)
    requires offset + bs <= |w0| == |w1|
    requires SameOutside(w0, w1, offset, bs) && SameOutside(w1, w2, offset, bs)
    ensures SameOutside(w0, w2, offset, bs)
  {}

  /** `words[offset + i] ^= block[i]` for every word of the block. */
  method XorInto(words: array<Word>, offset: nat, bs: nat, block: seq<Word>)
    requires offset + bs <= words.Length
    modifies words
    ensures words[offset..offset + bs] == XorWords(old(words[offset..offset + bs]), block)
    ensures SameOutside(old(words[..]), words[..], offset, bs)
  {
    hide Xor;
    ghost var was := words[..];
    for i := 0 to bs
      invariant forall k :: 0 <= k < words.Length ==>
                  words[k] == if offset <= k < offset + i then Xor(was[k], Get(block, k - offset)) else was[k]
    {
      words[offset + i] := Xor(words[offset + i], Get(block, i));
    }
  }

  /** `cipher.encryptBlock(words, offset)` or `cipher.decryptBlock(words, offset)`. */
  method ApplyTo(f: BlockFn, words: array<Word>, offset: nat, bs: nat)
    requires offset + bs <= words.Length && |f(words[offset..offset + bs])| == bs
    modifies words
    ensures words[offset..offset + bs] == f(old(words[offset..offset + bs]))
    ensures SameOutside(old(words[..]), words[..], offset, bs)
  {
    var b := f(words[offset..offset + bs]);
    for i := 0 to bs
      invariant forall k :: 0 <= k < words.Length ==>
                  words[k] == if offset <= k < offset + i then b[k - offset] else old(words[k])
    {
      words[offset + i] := b[i];
    }
    assert words[offset..offset + bs] == b;
  }

  class BlockCipherMode {
    const enc: BlockFn
    const dec: BlockFn
    const blockSize: nat
    var iv: Option<seq<Word>>
    var carry: seq<Word>

    ghost function State(): ModeState
      reads this
    {
      ModeState(iv, carry)
    }

    constructor (enc: BlockFn, dec: BlockFn, blockSize: nat, iv: seq<Word>)
      ensures this.enc == enc && this.dec == dec && this.blockSize == blockSize
      ensures State() == ModeState(Some(iv), [])
    {
      this.enc, this.dec, this.blockSize := enc, dec, blockSize;
      this.iv, this.carry := Some(iv), [];
    }

    /** Picks the mixing block and drops the IV. */
    method TakeMixer() returns (m: seq<Word>)
      modifies this`iv
      ensures m == Mixer(old(State()), blockSize) && iv == None
    {
      m := Block(if iv.Some? then iv.value else carry, 0, blockSize);
      iv := None;
    }

    method EncryptCbc(words: array<Word>, offset: nat)
      requires offset + blockSize <= words.Length && BlockSized(enc, blockSize) && BlockSized(dec, blockSize)
      modifies this, words
      ensures (State(), words[offset..offset + blockSize]) ==
              Encrypted(CBC, enc, blockSize, old(State()), old(words[offset..offset + blockSize]))
      ensures SameOutside(old(words[..]), words[..], offset, blockSize)
    {
      hide Mixer, XorWords, Increment, SameOutside;
      ghost var w0 := words[..];
      var m := TakeMixer();
      XorInto(words, offset, blockSize, m);
      ghost var w1 := words[..];
      ApplyTo(enc, words, offset, blockSize);
      SameOutsideTwice(w0, w1, words[..], offset, blockSize);
      carry := words[offset..offset + blockSize];
    }

    method DecryptCbc(words: array<Word>, offset: nat)
      requires offset + blockSize <= words.Length && BlockSized(enc, blockSize) && BlockSized(dec, blockSize)
      modifies this, words
      ensures (State(), words[offset..offset + blockSize]) ==
              Decrypted(CBC, enc, dec, blockSize, old(State()), old(words[offset..offset + blockSize]))
      ensures SameOutside(old(words[..]), words[..], offset, blockSize)
    {
      hide Mixer, XorWords, Increment, SameOutside;
      ghost var w0 := words[..];
      var thisBlock := words[offset..offset + blockSize];
      ApplyTo(dec, words, offset, blockSize);
      ghost var w1 := words[..];
      var m := TakeMixer();
      XorInto(words, offset, blockSize, m);
      SameOutsideTwice(w0, w1, words[..], offset, blockSize);
      carry := thisBlock;
    }

    method EncryptCfb(words: array<Word>, offset: nat)
      requires offset + blockSize <= words.Length && BlockSized(enc, blockSize) && BlockSized(dec, blockSize)
      modifies this, words
      ensures (State(), words[offset..offset + blockSize]) ==
              Encrypted(CFB, enc, blockSize, old(State()), old(words[offset..offset + blockSize]))
      ensures SameOutside(old(words[..]), words[..], offset, blockSize)
    {
      hide Mixer, XorWords, Increment;
      var m := TakeMixer();
      XorInto(words, offset, blockSize, enc(m));
      carry := words[offset..offset + blockSize];
    }

    method DecryptCfb(words: array<Word>, offset: nat)
      requires offset + blockSize <= words.Length && BlockSized(enc, blockSize) && BlockSized(dec, blockSize)
      modifies this, words
      ensures (State(), words[offset..offset + blockSize]) ==
              Decrypted(CFB, enc, dec, blockSize, old(State()), old(words[offset..offset + blockSize]))
      ensures SameOutside(old(words[..]), words[..], offset, blockSize)
    {
      hide Mixer, XorWords, Increment;
      var thisBlock := words[offset..offset + blockSize];
      var m := TakeMixer();
      XorInto(words, offset, blockSize, enc(m));
      carry := thisBlock;
    }

    method ProcessOfb(words: array<Word>, offset: nat)
      requires offset + blockSize <= words.Length && BlockSized(enc, blockSize) && BlockSized(dec, blockSize)
      modifies this, words
      ensures (State(), words[offset..offset + blockSize]) ==
              Encrypted(OFB, enc, blockSize, old(State()), old(words[offset..offset + blockSize]))
      ensures SameOutside(old(words[..]), words[..], offset, blockSize)
    {
      hide Mixer, XorWords, Increment;
      var m := TakeMixer();
      carry := enc(m);
      XorInto(words, offset, blockSize, carry);
    }

    method ProcessCtr(words: array<Word>, offset: nat)
      requires offset + blockSize <= words.Length && BlockSized(enc, blockSize) && BlockSized(dec, blockSize)
      modifies this, words
      ensures (State(), words[offset..offset + blockSize]) ==
              Encrypted(CTR, enc, blockSize, old(State()), old(words[offset..offset + blockSize]))
      ensures SameOutside(old(words[..]), words[..], offset, blockSize)
    {
      hide Mixer, XorWords, Increment;
      var counter := if iv.Some? then iv.value else carry;
      var m := TakeMixer();
      carry := Increment(counter, blockSize);
      XorInto(words, offset, blockSize, enc(m));
    }
  }
}
