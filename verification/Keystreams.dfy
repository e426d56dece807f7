/** Keystream ciphers: every step XORs the block with words that depend on the state alone.
    RC4, Rabbit and the OFB and CTR modes are instances. */
module Keystreams {
  import opened Wrappers
  import opened JsNumbers
  import opened WordArrays
  import opened Streaming
  import opened BlockModes
  import opened Padding
  import opened Ciphers

  /** The next state and the next `bs` keystream words. */
  type Generator<!S> = S -> (S, seq<Word>)

  ghost predicate Fills<S(!new)>(g: Generator<S>, bs: nat) {
    forall s: S :: |g(s).1| == bs
  }

  function XorStep<S>(g: Generator<S>): Step<S> {
    (s, b) => (g(s).0, XorWords(b, g(s).1))
  }

  /** The keystream of the first `n` blocks. */
  ghost function KeyWords<S>(g: Generator<S>, s: S, n: nat): seq<Word> {
    if n == 0 then [] else g(s).1 + KeyWords(g, g(s).0, n - 1)
  }

  lemma {:induction false} KeyLength<S(!new)>(g: Generator<S>, s: S, n: nat, bs: nat)
    requires Fills(g, bs)
    ensures |KeyWords(g, s, n)| == n * bs
  {
    if n > 0 {
      KeyLength(g, g(s).0, n - 1, bs);
      assert n * bs == (n - 1) * bs + bs;
    }
  }

  lemma {:induction false} KeyPrefix<S(!new)>(g: Generator<S>, s: S, m: nat, n: nat, bs: nat)
    requires Fills(g, bs) && m <= n
    ensures KeyWords(g, s, m) <= KeyWords(g, s, n)
  {
    if m > 0 {
      KeyPrefix(g, g(s).0, m - 1, n - 1, bs);
    }
  }

  /** Running the step is one long XOR with the keystream. */
  lemma {:induction false} RunXor<S(!new)>(g: Generator<S>, s: S, ws: seq<Word>, bs: nat)
    requires Whole(|ws|, bs) && Fills(g, bs)
    ensures Run(XorStep(g), s, ws, bs).1 == XorWords(ws, KeyWords(g, s, |ws| / bs))
    decreases |ws|
  {
    if ws != [] {
      ModDrop(|ws|, bs);
      OneLess(|ws|, bs);
      var n := |ws| / bs;
      var head, rest := g(s).1, KeyWords(g, g(s).0, n - 1);
      RunXor(g, g(s).0, ws[bs..], bs);
      assert KeyWords(g, s, n) == head + rest;
      hide XorWords, KeyWords, Whole, Fills;
    }
  }

  lemma OneLess(n: nat, bs: nat)
    requires Whole(n, bs) && n > 0
    ensures n >= bs && n / bs >= 1 && (n - bs) / bs == n / bs - 1
  {
    ModDrop(n, bs);
    var k := n / bs;
    assert n == k * bs;
    ModMultiple(k - 1, bs);
    assert n - bs == (k - 1) * bs;
  }

  /** The reference for a message of any length: byte `i` XOR keystream byte `i`. */
  ghost function StreamText<S>(g: Generator<S>, s: S, bs: nat, msg: seq<Byte>): (r: seq<Byte>)
    requires bs > 0
    ensures |r| == |msg|
  {
    seq(|msg|, i requires 0 <= i < |msg| => XorByte(msg[i], KeyByte(g, s, bs, i)))
  }

  ghost function KeyByte<S>(g: Generator<S>, s: S, bs: nat, i: nat): Byte
    requires bs > 0
  {
    At(KeyWords(g, s, i / (4 * bs) + 1), i)
  }

  /** Any number of keystream blocks that reaches byte `i` has the same byte there. */
  lemma KeyByteAt<S(!new)>(g: Generator<S>, s: S, bs: nat, i: nat, n: nat)
    requires bs > 0 && Fills(g, bs) && i < 4 * (n * bs)
    ensures At(KeyWords(g, s, n), i) == KeyByte(g, s, bs, i)
  {
    var m := i / (4 * bs) + 1;
    hide Fills, KeyWords;
    KeyLength(g, s, m, bs);
    KeyLength(g, s, n, bs);
    if m <= n { KeyPrefix(g, s, m, n, bs); } else { KeyPrefix(g, s, n, m, bs); }
  }

  /** Applying the same keystream again gives back the message. */
  lemma StreamTwice<S>(g: Generator<S>, s: S, bs: nat, msg: seq<Byte>)
    requires bs > 0
    ensures StreamText(g, s, bs, StreamText(g, s, bs, msg)) == msg
  {
    hide KeyByte, XorByte;
    var c := StreamText(g, s, bs, msg);
    forall i: nat | i < |msg| ensures XorByte(c[i], KeyByte(g, s, bs, i)) == msg[i] {
      XorBack(msg[i], KeyByte(g, s, bs, i));
    }
  }

  lemma XorAt(ws: seq<Word>, ks: seq<Word>, i: nat)
    requires i < 4 * |ws|
    ensures At(XorWords(ws, ks), i) == XorByte(At(ws, i), At(ks, i))
  {
    var out := XorWords(ws, ks);
    XorGet(ws, ks, i / 4);
    AtDef(out, i);
    AtDef(ws, i);
    AtDef(ks, i);
    hide *;
    XorBytes(Get(ws, i / 4), Get(ks, i / 4), i % 4);
  }

  lemma XorGet(ws: seq<Word>, ks: seq<Word>, k: nat)
    requires k < |ws|
    ensures Get(XorWords(ws, ks), k) == Xor(Get(ws, k), Get(ks, k))
  {
    hide Xor;
  }

  /** What came out of the words `total` is the reference text of the bytes they carry,
      whatever completes the last block. */
  lemma StreamFinished<S(!new)>(g: Generator<S>, s: S, bs: nat, msg: seq<Byte>, total: seq<Word>)
    requires Whole(|total|, bs) && Fills(g, bs)
    requires |msg| <= 4 * |total| && Bytes(total, |msg|) == msg
    ensures Bytes(Run(XorStep(g), s, total, bs).1, |msg|) == StreamText(g, s, bs, msg)
  {
    Quotient(|total|, bs);
    RunXor(g, s, total, bs);
    var n: nat := |total| / bs;
    XorText(g, s, bs, n, msg, total);
  }

  lemma Quotient(n: nat, bs: nat)
    requires Whole(n, bs)
    ensures n / bs >= 0 && n == (n / bs) * bs
  {}

  lemma XorText<S(!new)>(g: Generator<S>, s: S, bs: nat, n: nat, msg: seq<Byte>, total: seq<Word>)
    requires bs > 0 && Fills(g, bs) && |total| == n * bs
    requires |msg| <= 4 * |total| && Bytes(total, |msg|) == msg
    ensures Bytes(XorWords(total, KeyWords(g, s, n)), |msg|) == StreamText(g, s, bs, msg)
  {
    hide At, XorWords, KeyByte, KeyWords, Fills, XorByte;
    var out := XorWords(total, KeyWords(g, s, n));
    forall i: nat | i < |msg| ensures At(out, i) == XorByte(msg[i], KeyByte(g, s, bs, i)) {
      XorAt(total, KeyWords(g, s, n), i);
      assert msg[i] == At(total, i);
      KeyByteAt(g, s, bs, i, n);
    }
  }

  /** Two steps that agree on every block. */
  ghost predicate SameSteps<S(!new)>(f: Step<S>, g: Step<S>, bs: nat) {
    forall s: S, b: seq<Word> :: |b| == bs ==> f(s, b) == g(s, b)
  }

  lemma {:induction false} RunSame<S(!new)>(f: Step<S>, g: Step<S>, s: S, ws: seq<Word>, bs: nat)
    requires Whole(|ws|, bs) && SameSteps(f, g, bs)
    ensures Run(f, s, ws, bs) == Run(g, s, ws, bs)
    decreases |ws|
  {
    if ws != [] {
      ModDrop(|ws|, bs);
      RunSame(f, g, g(s, ws[..bs]).0, ws[bs..], bs);
    }
  }

  /** Any chunks, with or without a block held back, in either direction: the output is the
      message XOR the keystream, byte for byte and of the same length. */
  method StreamChunks<S(!new)>(step: Step<S>, ghost g: Generator<S>, initial: S, bs: nat, minBufferSize: nat, encrypting: bool, chunks: seq<Chunk>)
    returns (out: seq<Byte>)
    requires bs > 0 && Fills(g, bs) && SameSteps(step, XorStep(g), bs)
    ensures out == StreamText(g, initial, bs, Joined(chunks))
  {
    StepKeeps(step, g, bs);
    hide *;
    var c := new Cipher(step, initial, bs, minBufferSize, encrypting, NoPadding);
    var words, sigBytes;
    ghost var before, full, total;
    out, words, sigBytes, before, full, total := Drive(c, chunks);
    StreamEnd(c, g, Joined(chunks), before, words, sigBytes, full, total);
  }

  lemma StepKeeps<S(!new)>(step: Step<S>, g: Generator<S>, bs: nat)
    requires Fills(g, bs) && SameSteps(step, XorStep(g), bs)
    ensures KeepsLength(step, bs)
  {
    forall s: S, b: seq<Word> | |b| == bs ensures |step(s, b).1| == bs {
      assert step(s, b) == XorStep(g)(s, b);
    }
  }

  lemma StreamEnd<S(!new)>(c: Cipher<S>, g: Generator<S>, msg: seq<Byte>, before: seq<Byte>, words: seq<Word>, sigBytes: int, full: seq<Byte>, total: seq<Word>)
    requires c.buf.blockSize > 0 && c.padding == NoPadding
    requires Fills(g, c.buf.blockSize) && SameSteps(c.buf.step, XorStep(g), c.buf.blockSize)
    requires full == msg + c.Tail(|msg|) && c.Final(before, words, sigBytes, full, total)
    ensures before + Significant(words, sigBytes) == StreamText(g, c.buf.initial, c.buf.blockSize, msg)
  {
    hide Fills, SameSteps, StreamText, Bytes, Run, Whole;
    EmptyRight(msg);
    RunSame(c.buf.step, XorStep(g), c.buf.initial, total, c.buf.blockSize);
    StreamFinished(g, c.buf.initial, c.buf.blockSize, msg, total);
  }

  /** Decrypting is encrypting again from the same key and IV. */
  method StreamRoundTrip<S(!new)>(step: Step<S>, ghost g: Generator<S>, initial: S, bs: nat, minBufferSize: nat, plain: seq<Chunk>, cipher: seq<Chunk>)
    returns (ct: seq<Byte>, out: seq<Byte>)
    requires bs > 0 && Fills(g, bs) && SameSteps(step, XorStep(g), bs)
    ensures |ct| == |Joined(plain)|
    ensures Joined(cipher) == ct ==> out == Joined(plain)
  {
    hide *;
    ct := StreamChunks(step, g, initial, bs, 0, true, plain);
    out := StreamChunks(step, g, initial, bs, minBufferSize, false, cipher);
    StreamTwice(g, initial, bs, Joined(plain));
  }

  // ---------------------------------------------------------------- OFB and CTR

  function OfbGenerator(enc: BlockFn, bs: nat): Generator<ModeState> {
    s => var k := enc(Mixer(s, bs)); (ModeState(None, k), k)
  }

  function CtrGenerator(enc: BlockFn, bs: nat): Generator<ModeState> {
    s => (ModeState(None, Increment(Pending(s), bs)), enc(Mixer(s, bs)))
  }

  /** Both directions of OFB and of CTR are keystream steps over the forward cipher alone. */
  lemma FeedbackModesAreKeystreams(enc: BlockFn, dec: BlockFn, bs: nat)
    requires BlockSized(enc, bs)
    ensures Fills(OfbGenerator(enc, bs), bs) && Fills(CtrGenerator(enc, bs), bs)
    ensures SameSteps(Encryptor(OFB, enc, bs), XorStep(OfbGenerator(enc, bs)), bs)
    ensures SameSteps(Decryptor(OFB, enc, dec, bs), XorStep(OfbGenerator(enc, bs)), bs)
    ensures SameSteps(Encryptor(CTR, enc, bs), XorStep(CtrGenerator(enc, bs)), bs)
    ensures SameSteps(Decryptor(CTR, enc, dec, bs), XorStep(CtrGenerator(enc, bs)), bs)
  {
    hide Mixer, XorWords, Increment;
    forall s: ModeState ensures |OfbGenerator(enc, bs)(s).1| == bs {
      assert OfbGenerator(enc, bs)(s).1 == enc(Mixer(s, bs));
    }
    forall s: ModeState ensures |CtrGenerator(enc, bs)(s).1| == bs {
      assert CtrGenerator(enc, bs)(s).1 == enc(Mixer(s, bs));
    }
  }

  // ---------------------------------------------------------------- when a CTR keystream repeats

  /** The state after `n` blocks, and keystream block `n`. */
  ghost function StateAt<S>(g: Generator<S>, s: S, n: nat): S {
    if n == 0 then s else g(StateAt(g, s, n - 1)).0
  }

  ghost function KeyBlock<S>(g: Generator<S>, s: S, n: nat): seq<Word> {
    g(StateAt(g, s, n)).1
  }

  lemma {:induction false} StateShift<S>(g: Generator<S>, s: S, n: nat)
    ensures StateAt(g, g(s).0, n) == StateAt(g, s, n + 1)
  {
    if n == 0 {
      assert StateAt(g, s, 1) == g(StateAt(g, s, 0)).0;
    } else {
      StateShift(g, s, n - 1);
    }
  }

  /** Block `k` of the keystream. */
  lemma {:induction false} KeyBlockIs<S(!new)>(g: Generator<S>, s: S, bs: nat, k: nat, n: nat)
    requires Fills(g, bs) && k < n
    ensures k * bs + bs <= |KeyWords(g, s, n)| && KeyWords(g, s, n)[k * bs..k * bs + bs] == KeyBlock(g, s, k)
    decreases n
  {
    var head, rest := g(s).1, KeyWords(g, g(s).0, n - 1);
    if k == 0 {
      assert KeyWords(g, s, n)[..bs] == head;
    } else {
      KeyBlockIs(g, g(s).0, bs, k - 1, n - 1);
      StateShift(g, s, k - 1);
      assert k * bs == bs + (k - 1) * bs;
      hide KeyWords, Fills;
      Behind(head, rest, (k - 1) * bs, bs);
    }
  }

  lemma Behind<T>(head: seq<T>, rest: seq<T>, i: nat, n: nat)
    requires i + n <= |rest|
    ensures (head + rest)[|head| + i..|head| + i + n] == rest[i..i + n]
  {}

  /** How often the counter has gone up before block `n`; one that is too short does not at first. */
  function Ticks(short: bool, n: nat): nat {
    if short && n > 0 then n - 1 else n
  }

  /** The counter block of keystream block `n`. */
  ghost function CounterAt(iv: seq<Word>, bs: nat, n: nat): (c: seq<Word>)
    requires bs > 0
    ensures |c| == bs
  {
    Block(iv, 0, bs)[bs - 1 := Bits(Num(Get(iv, bs - 1)) + Ticks(|iv| < bs, n))]
  }

  lemma {:induction false} CountsUp(enc: BlockFn, bs: nat, iv: seq<Word>, n: nat)
    requires bs > 0
    ensures var s := StateAt(CtrGenerator(enc, bs), ModeState(Some(iv), []), n);
            Mixer(s, bs) == CounterAt(iv, bs, n) && Pending(s) == if n == 0 then iv else CounterAt(iv, bs, n)
  {
    var g, s0 := CtrGenerator(enc, bs), ModeState(Some(iv), []);
    hide CounterAt, Increment, Block;
    if n == 0 {
      assert StateAt(g, s0, 0) == s0;
      FirstCounter(iv, bs);
    } else {
      CountsUp(enc, bs, iv, n - 1);
      assert StateAt(g, s0, n) == g(StateAt(g, s0, n - 1)).0;
      NextCounter(iv, bs, n - 1);
      WholeBlock(CounterAt(iv, bs, n));
    }
  }

  lemma FirstCounter(iv: seq<Word>, bs: nat)
    requires bs > 0
    ensures Block(iv, 0, bs) == CounterAt(iv, bs, 0)
  {
    hide Bits, Num;
    BitsNum(Get(iv, bs - 1));
  }

  lemma NextCounter(iv: seq<Word>, bs: nat, n: nat)
    requires bs > 0
    ensures Increment(if n == 0 then iv else CounterAt(iv, bs, n), bs) == CounterAt(iv, bs, n + 1)
  {
    hide Bits, Num;
    OneMore(Num(Get(iv, bs - 1)) + Ticks(|iv| < bs, n));
    NumOfZero();
    if n > 0 { WholeBlock(CounterAt(iv, bs, n)); }
  }

  lemma WholeBlock(c: seq<Word>)
    ensures Block(c, 0, |c|) == c
  {}

  lemma NumOfZero()
    ensures Num(0) == 0 && Bits(0) == 0
  {
    BitsNum(0);
  }

  lemma OneMore(x: nat)
    ensures Bits(Num(Bits(x)) + 1) == Bits(x + 1)
  {
    NumBits(x);
    BitsMod(Num(Bits(x)) + 1, x + 1);
    hide Bits, Num;
  }

  /** Two blocks of a CTR keystream are the same exactly when the counter has gone up by a multiple
      of 2^32 between them; so the second block repeats the first if the IV is too short. */
  lemma CtrRepeatsExactly(enc: BlockFn, dec: BlockFn, bs: nat, iv: seq<Word>, i: nat, j: nat)
    requires bs > 0 && Inverse(enc, dec, bs)
    ensures var g, s0, short := CtrGenerator(enc, bs), ModeState(Some(iv), []), |iv| < bs;
            KeyBlock(g, s0, i) == KeyBlock(g, s0, j) <==> (Ticks(short, i) - Ticks(short, j)) % TWO32 == 0
  {
    hide Bits, Num, Increment, StateAt, Ticks;
    var a, b, last := CounterAt(iv, bs, i), CounterAt(iv, bs, j), Num(Get(iv, bs - 1));
    CountsUp(enc, bs, iv, i);
    CountsUp(enc, bs, iv, j);
    assert dec(enc(a)) == a && dec(enc(b)) == b;
    hide Inverse, Mixer;
    BitsMod(last + Ticks(|iv| < bs, i), last + Ticks(|iv| < bs, j));
    SameRemainder(last, Ticks(|iv| < bs, i), Ticks(|iv| < bs, j));
    assert a[bs - 1] == Bits(last + Ticks(|iv| < bs, i)) && b[bs - 1] == Bits(last + Ticks(|iv| < bs, j));
  }

  lemma SameRemainder(a: int, x: int, y: int)
    ensures (a + x) % TWO32 == (a + y) % TWO32 <==> (x - y) % TWO32 == 0
  {}
}
