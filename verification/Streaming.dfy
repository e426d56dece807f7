/** The buffering template shared by every hasher and cipher: data is appended in chunks of
    any length, whole blocks are processed in place and spliced off the front. The concrete
    algorithm is a step function from a state and a block to a new state and the words that
    replace the block. */
module Streaming {
  import opened JsNumbers
  import opened WordArrays

  type Step<!S> = (S, seq<Word>) -> (S, seq<Word>)

  /** `n` is a whole number of blocks of `bs`. */
  ghost predicate Whole(n: nat, bs: nat) {
    bs > 0 && n % bs == 0
  }

  /** Every step replaces a block by a block. */
  ghost predicate KeepsLength<S(!new)>(f: Step<S>, bs: nat) {
    forall s: S, b: seq<Word> :: |b| == bs ==> |f(s, b).1| == bs
  }

  /** The reference: feed the blocks of `ws` one after the other through `f`. */
  ghost function Run<S>(f: Step<S>, s: S, ws: seq<Word>, bs: nat): (r: (S, seq<Word>))
    requires Whole(|ws|, bs)
    decreases |ws|
  {
    if ws == [] then (s, [])
    else
      ModDrop(|ws|, bs);
      var head := f(s, ws[..bs]);
      var tail := Run(f, head.0, ws[bs..], bs);
      (tail.0, head.1 + tail.1)
  }

  lemma ModDrop(n: nat, bs: nat)
    requires Whole(n, bs) && n > 0
    ensures n >= bs && Whole(n - bs, bs)
  {
    assert n == bs * (n / bs);
    ModMultiple(n / bs - 1, bs);
    assert n - bs == (n / bs - 1) * bs;
  }

  lemma ModMultiple(k: nat, bs: nat)
    requires bs > 0
    ensures (k * bs) % bs == 0 && (k * bs) / bs == k
  {
    var n := k * bs;
    var q, r := n / bs, n % bs;
    assert n == q * bs + r;
    assert (k - q) * bs == k * bs - q * bs;
    NoMultipleBelow(k - q, bs, r);
  }

  lemma NoMultipleBelow(d: int, bs: nat, r: nat)
    requires d * bs == r && r < bs
    ensures d == 0 && r == 0
  {
    if d >= 1 {
      AtLeast(d, bs);
    }
  }

  lemma {:induction false} AtLeast(d: nat, bs: nat)
    requires d >= 1
    ensures d * bs >= bs
  {
    if d > 1 {
      AtLeast(d - 1, bs);
      assert d * bs == (d - 1) * bs + bs;
    }
  }

  lemma ModSum(m: nat, n: nat, bs: nat)
    requires Whole(m, bs) && Whole(n, bs)
    ensures Whole(m + n, bs)
  {
    ModMultiple(m / bs + n / bs, bs);
    assert m + n == (m / bs + n / bs) * bs;
  }

  lemma {:induction false} RunLength<S(!new)>(f: Step<S>, s: S, ws: seq<Word>, bs: nat)
    requires Whole(|ws|, bs) && KeepsLength(f, bs)
    ensures |Run(f, s, ws, bs).1| == |ws|
    decreases |ws|
  {
    if ws != [] {
      ModDrop(|ws|, bs);
      RunLength(f, f(s, ws[..bs]).0, ws[bs..], bs);
    }
  }

  /** Processing can be interrupted at any block boundary. */
  lemma {:induction false} RunConcat<S>(f: Step<S>, s: S, v: seq<Word>, w: seq<Word>, bs: nat)
    requires Whole(|v|, bs) && Whole(|w|, bs)
    ensures Whole(|v + w|, bs)
    ensures Run(f, s, v + w, bs).0 == Run(f, Run(f, s, v, bs).0, w, bs).0
    ensures Run(f, s, v + w, bs).1 == Run(f, s, v, bs).1 + Run(f, Run(f, s, v, bs).0, w, bs).1
    decreases |v|
  {
    ModSum(|v|, |w|, bs);
    if v == [] {
      assert v + w == w;
    } else {
      ModDrop(|v|, bs);
      assert (v + w)[..bs] == v[..bs] && (v + w)[bs..] == v[bs..] + w;
      RunConcat(f, f(s, v[..bs]).0, v[bs..], w, bs);
    }
  }

  lemma RunOne<S>(f: Step<S>, s: S, b: seq<Word>, bs: nat)
    requires bs > 0 && |b| == bs
    ensures Whole(|b|, bs) && Run(f, s, b, bs) == f(s, b)
  {
    assert b[..bs] == b && b[bs..] == [];
    var head := f(s, b);
    assert head.1 + [] == head.1;
  }

  /** The run over one block more. */
  lemma NextBlock<S>(f: Step<S>, s: S, ws: seq<Word>, i: nat, bs: nat)
    requires i < |ws| && Whole(i, bs) && Whole(|ws|, bs)
    ensures i + bs <= |ws| && Whole(i + bs, bs)
    ensures var r := Run(f, s, ws[..i], bs);
            var next := f(r.0, ws[i..i + bs]);
            Run(f, s, ws[..i + bs], bs) == (next.0, r.1 + next.1)
  {
    WholeRest(i, |ws| - i, bs);
    ModDrop(|ws| - i, bs);
    var b := ws[i..i + bs];
    assert ws[..i + bs] == ws[..i] + b;
    RunOne(f, Run(f, s, ws[..i], bs).0, b, bs);
    hide Run;
    RunConcat(f, s, ws[..i], b, bs);
  }

  /** The block of the output at `i` is what the step makes of the block there, in the state the
      blocks before it leave. */
  lemma OutputAt<S(!new)>(f: Step<S>, s: S, ws: seq<Word>, i: nat, bs: nat)
    requires i < |ws| && Whole(i, bs) && Whole(|ws|, bs) && KeepsLength(f, bs)
    ensures i + bs <= |ws| == |Run(f, s, ws, bs).1|
    ensures Run(f, s, ws, bs).1[i..i + bs] == f(Run(f, s, ws[..i], bs).0, ws[i..i + bs]).1
    ensures Run(f, s, ws, bs).1[..i] == Run(f, s, ws[..i], bs).1
  {
    hide *;
    NextBlock(f, s, ws, i, bs);
    WholeRest(i + bs, |ws| - (i + bs), bs);
    assert ws == ws[..i + bs] + ws[i + bs..];
    OneLength(f, Run(f, s, ws[..i], bs).0, ws[i..i + bs], bs);
    RunConcat(f, s, ws[..i + bs], ws[i + bs..], bs);
    RunLength(f, s, ws[..i], bs);
    RunLength(f, s, ws, bs);
    Between(Run(f, s, ws[..i], bs).1, f(Run(f, s, ws[..i], bs).0, ws[i..i + bs]).1,
            Run(f, Run(f, s, ws[..i + bs], bs).0, ws[i + bs..], bs).1, i, bs);
  }

  lemma OneLength<S(!new)>(f: Step<S>, s: S, b: seq<Word>, bs: nat)
    requires KeepsLength(f, bs) && |b| == bs
    ensures |f(s, b).1| == bs
  {}

  lemma Between(a: seq<Word>, b: seq<Word>, c: seq<Word>, i: nat, n: nat)
    requires |a| == i && |b| == n
    ensures (a + b + c)[i..i + n] == b && (a + b + c)[..i] == a
  {}

  // ---------------------------------------------------------------- words under a block

  function Block(ws: seq<Word>, offset: nat, bs: nat): (b: seq<Word>)
    ensures |b| == bs
  {
    seq(bs, i requires 0 <= i => Get(ws, offset + i))
  }

  function Extend(ws: seq<Word>, n: nat): (r: seq<Word>)
    ensures |r| == (if |ws| < n then n else |ws|)
  {
    if |ws| < n then ws + Zeros(n - |ws|) else ws
  }

  function Overwrite(ws: seq<Word>, offset: nat, b: seq<Word>): (r: seq<Word>)
    ensures |r| == (if |ws| < offset + |b| then offset + |b| else |ws|)
  {
    var e := Extend(ws, offset + |b|);
    e[..offset] + b + e[offset + |b|..]
  }

  lemma ExtendBytes(ws: seq<Word>, n: nat, k: nat)
    ensures Bytes(Extend(ws, n), k) == Bytes(ws, k)
  {
    assert forall i: nat :: Get(Extend(ws, n), i) == Get(ws, i);
  }

  lemma PrefixBytes(ws: seq<Word>, m: nat, k: nat)
    requires m <= |ws| && k <= 4 * m
    ensures Bytes(ws[..m], k) == Bytes(ws, k)
  {
    hide ByteOf;
    forall i: nat | i < k ensures At(ws[..m], i) == At(ws, i) {}
  }

  /** One round of the block loop: `done` words replaced, `todo` still to come. */
  lemma LoopStep(ws: seq<Word>, total: nat, done: seq<Word>, todo: seq<Word>, b: seq<Word>, bs: nat)
    requires Extend(ws, total) == done + todo
    requires |done| + bs <= total && |b| == bs
    ensures Block(ws, |done|, bs) == todo[..bs]
    ensures Extend(Overwrite(ws, |done|, b), total) == (done + b) + todo[bs..]
  {
    var e := Extend(ws, total);
    forall i: nat | i < bs ensures Block(ws, |done|, bs)[i] == todo[..bs][i] {
      assert e[|done| + i] == Get(ws, |done| + i);
    }
    var d := |done|;
    assert e == done + todo;
    if |ws| < d + bs {
      assert Overwrite(ws, d, b) == e[..d] + b;
    } else {
      assert Overwrite(ws, d, b) == e[..d] + b + ws[d + bs..];
    }
    assert Extend(Overwrite(ws, d, b), total) == e[..d] + b + e[d + bs..];
  }

  lemma DivTimes(n: nat, bs: nat)
    requires bs > 0
    ensures (n / bs) * bs <= n < (n / bs) * bs + bs
  {
  }

  lemma LeaveOne(n: nat, bs: nat, k: nat)
    requires bs > 0 && k <= Max(n / (4 * bs) - 1, 0)
    ensures 4 * (k * bs) <= n
    ensures n < 4 * bs ==> k * bs == 0
    ensures n >= 4 * bs ==> 4 * bs <= n - 4 * (k * bs)
  {
    var d := 4 * bs;
    var q := n / d;
    assert k * d == 4 * (k * bs);
    if n < d {
      DivTimes(n, d);
      if q >= 1 { AtLeast(q, d); }
    } else {
      AtLeastOne(n, d);
      BlockCount(n, d, k + 1);
      assert (k + 1) * d == k * d + d;
    }
  }

  lemma AtLeastOne(n: nat, d: nat)
    requires 0 < d <= n
    ensures n / d >= 1
  {
    DivTimes(n, d);
  }

  lemma BlockCount(n: nat, bs: nat, k: int)
    requires bs > 0 && k <= n / bs
    ensures k * bs <= n
  {
    DivTimes(n, bs);
    assert n / bs * bs - k * bs == (n / bs - k) * bs;
  }

  // ---------------------------------------------------------------- the template itself

  /** The words that hold exactly these bytes. */
  ghost predicate PackedAs(b: seq<Byte>, ws: seq<Word>) {
    |b| % 4 == 0 && Pack(b) == ws
  }

  class BufferedBlock<S(!new)> {
    const step: Step<S>
    const blockSize: nat
    const minBufferSize: nat
    const initial: S
    var data: WordArray
    var nDataBytes: nat
    var state: S
    ghost var given: seq<Byte>   // every byte appended since the last reset
    ghost var taken: seq<Byte>   // the part of it that has been processed

    ghost predicate Valid()
      reads this, data
    {
      && blockSize > 0
      && KeepsLength(step, blockSize)
      && given == taken + data.Content()
      && |data.words| == WordCount(data.sigBytes)
      && Whole(|taken|, 4 * blockSize)
      && Taken() == (state, Taken().1)
    }

    /** `_nDataBytes` counts what was appended; padding put straight into `_data` escapes it. */
    ghost predicate Counted()
      reads this
    {
      nDataBytes == |given|
    }

    /** With a block held back, a whole block (or everything so far) is still buffered. */
    ghost predicate HoldsBack()
      reads this, data
    {
      minBufferSize >= 1 ==> |given| <= data.sigBytes || 4 * blockSize <= data.sigBytes
    }

    /** State and output after the processed bytes, by the reference. */
    ghost function Taken(): (S, seq<Word>)
      reads this
      requires Whole(|taken|, 4 * blockSize)
    {
      WholeWords(|taken|, blockSize);
      Run(step, initial, Pack(taken), blockSize)
    }

    /** Every byte the template has handed back so far. */
    ghost function Produced(): seq<Byte>
      reads this
      requires Whole(|taken|, 4 * blockSize)
    {
      Unpack(Taken().1)
    }

    constructor (step: Step<S>, initial: S, blockSize: nat, minBufferSize: nat)
      requires blockSize > 0 && KeepsLength(step, blockSize)
      ensures this.step == step && this.initial == initial
      ensures this.blockSize == blockSize && this.minBufferSize == minBufferSize
      ensures Valid() && Counted() && fresh(data) && given == taken == []
      ensures data.sigBytes == 0 && data.Tidy() && state == initial
    {
      this.step, this.initial := step, initial;
      this.blockSize, this.minBufferSize := blockSize, minBufferSize;
      state := initial;
      given, taken := [], [];
      nDataBytes := 0;
      data := new WordArray([], 0);
      new;
      NothingLeft([], 0);
    }

    method Reset()
      requires blockSize > 0 && KeepsLength(step, blockSize)
      modifies this
      ensures Valid() && Counted() && fresh(data) && given == taken == []
      ensures data.sigBytes == 0 && data.Tidy() && state == initial
    {
      data := new WordArray([], 0);
      nDataBytes := 0;
      state := initial;
      given, taken := [], [];
      NothingLeft([], 0);
    }

    method Append(more: WordArray)
      requires Valid()
      modifies this, data
      ensures Valid() && data == old(data) && state == old(state)
      ensures old(Counted()) ==> Counted()
      ensures old(HoldsBack()) ==> HoldsBack()
      ensures given == old(given) + old(more.Content()) && taken == old(taken)
      ensures data.Content() == old(data.Content()) + old(more.Content())
      ensures EndsAs(data.words, old(data.sigBytes), old(more.words), old(more.sigBytes))
      ensures data.Tidy() <==> old(data.sigBytes) % 4 != 0 || EndClean(old(more.words), old(more.sigBytes))
    {
      hide Run, Pack, Bytes, Clean, EndsAs, EndClean;
      var n := more.sigBytes;
      assert (taken + data.Content()) + more.Content() == taken + (data.Content() + more.Content());
      given := given + more.Content();
      data.Concat(more);
      nDataBytes := nDataBytes + n;
    }

    /** Number of blocks `Process` takes. The division is a floating-point one whose result
        `| 0` cuts to 32 bits, hence the `Signed`. */
    function BlocksReady(sigBytes: nat, doFlush: bool): (n: nat)
      requires blockSize > 0
    {
      var bsb := 4 * blockSize;
      if doFlush then (sigBytes + bsb - 1) / bsb
      else Max(Signed(Bits(sigBytes / bsb)) - minBufferSize, 0)
    }

    /** The block loop over `data.words`. */
    method ProcessBlocks(nWords: nat)
      requires blockSize > 0 && Whole(nWords, blockSize) && KeepsLength(step, blockSize)
      modifies data`words, this`state
      ensures |data.words| >= nWords
      ensures (state, data.words[..nWords]) == Run(step, old(state), Extend(old(data.words), nWords)[..nWords], blockSize)
      ensures data.words[nWords..] == Extend(old(data.words), nWords)[nWords..]
    {
      hide *;
      ghost var w0 := Extend(data.words, nWords);
      ghost var s0 := state;
      var offset := 0;
      ghost var out: seq<Word> := [];
      LoopStart(step, s0, data.words, nWords, blockSize);
      while offset < nWords
        invariant 0 <= offset <= nWords
        invariant Progress(step, s0, w0, data.words, nWords, blockSize, offset, state, out)
        decreases nWords - offset
      {
        var result := step(state, Block(data.words, offset, blockSize));
        LoopRound(step, s0, w0, data.words, nWords, blockSize, offset, state, out, result);
        data.words := Overwrite(data.words, offset, result.1);
        state := result.0;
        out := out + result.1;
        offset := offset + blockSize;
      }
      LoopEnd(step, s0, w0, data.words, nWords, blockSize, offset, state, out);
    }

    function WordsReady(sigBytes: nat, doFlush: bool): nat
      requires blockSize > 0
    {
      BlocksReady(sigBytes, doFlush) * blockSize
    }

    lemma ReadyCount(n: nat)
      requires blockSize > 0
      ensures BlocksReady(n, false) <= n / (4 * blockSize)
      ensures n / (4 * blockSize) < TWO31 ==> BlocksReady(n, false) == Max(n / (4 * blockSize) - minBufferSize, 0)
    {
      hide Bits, Signed;
      SignedOfNat(n / (4 * blockSize));
    }

    /** With a minimum buffer size of a block or more, a full block always stays behind. */
    lemma KeepsLastBlock(n: nat)
      requires blockSize > 0 && minBufferSize >= 1
      ensures 4 * WordsReady(n, false) <= n
      ensures n < 4 * blockSize ==> WordsReady(n, false) == 0
      ensures n >= 4 * blockSize ==> 4 * blockSize <= n - 4 * WordsReady(n, false)
    {
      hide Bits, Signed;
      SignedOfNat(n / (4 * blockSize));
      LeaveOne(n, blockSize, BlocksReady(n, false));
    }

    lemma StillHolds(n: nat)
      requires blockSize > 0 && data.sigBytes == n - 4 * WordsReady(n, false)
      requires minBufferSize >= 1 ==> |given| <= n || 4 * blockSize <= n
      ensures HoldsBack()
    {
      hide WordsReady;
      if minBufferSize >= 1 { KeepsLastBlock(n); }
    }

    lemma ReadyWords(n: nat, doFlush: bool)
      requires blockSize > 0
      ensures var w := WordsReady(n, doFlush);
              && Whole(w, blockSize) && Whole(4 * w, 4 * blockSize)
              && (!doFlush ==> 4 * w <= n)
              && (doFlush ==> n <= 4 * w && (Whole(n, 4 * blockSize) <==> 4 * w == n))
    {
      if doFlush {
        FlushBounds(n, BlocksReady(n, doFlush), blockSize);
      } else {
        hide BlocksReady, Whole;
        ReadyCount(n);
        ReadyBounds(n, BlocksReady(n, doFlush), blockSize);
      }
    }

    /** Runs `nWords` words through the block loop and splices them off the buffer. */
    method Splice(nWords: nat, nBytes: nat) returns (out: WordArray, ghost used: seq<Word>)
      requires Whole(nWords, blockSize) && KeepsLength(step, blockSize)
      requires |data.words| == WordCount(data.sigBytes)
      requires nBytes == if nWords * 4 < data.sigBytes then nWords * 4 else data.sigBytes
      modifies data, this`state
      ensures fresh(out) && out.sigBytes == nBytes
      ensures |used| == nWords && (state, out.words) == Run(step, old(state), used, blockSize)
      ensures Bytes(used, nBytes) == old(data.Content())[..nBytes]
      ensures data.sigBytes == old(data.sigBytes) - nBytes && |data.words| == WordCount(data.sigBytes)
      ensures data.Content() == old(data.Content())[nBytes..]
      ensures old(data.Tidy()) ==> data.Tidy()
      ensures 4 * nWords <= old(data.sigBytes) ==> SameEnd(data.words, data.sigBytes, old(data.words), old(data.sigBytes))
      ensures 4 * nWords <= old(data.sigBytes) ==> PackedAs(old(data.Content())[..nBytes], used) && out.Content() == Unpack(out.words)
    {
      hide Run, Pack, Bytes, Clean, Extend, WordCount, KeepsLength, SameEnd;
      ghost var w0, n := data.words, data.sigBytes;
      used := Extend(w0, nWords)[..nWords];
      BufferSplit(w0, n, nWords, nBytes);
      RunLength(step, state, used, blockSize);
      if nWords != 0 {
        ProcessBlocks(nWords);
        var processed := data.words[..nWords];
        data.words := data.words[nWords..];
        data.sigBytes := data.sigBytes - nBytes;
        out := new WordArray(processed, nBytes);
      } else {
        RunEmpty(step, state, used, blockSize);
        out := new WordArray([], 0);
        ExtendNone(w0, 0);
        assert w0[0..] == w0;
      }
    }

    /** Processes the blocks that are ready and hands them back. `used` are the words that went
        through the step function: the buffered bytes plus whatever lies past them. */
    method Process(doFlush: bool) returns (out: WordArray, ghost used: seq<Word>)
      requires Valid()
      modifies this`state, this`taken, data
      ensures fresh(out) && data == old(data)
      ensures Whole(|used|, blockSize) && |used| == WordsReady(old(data.sigBytes), doFlush)
      ensures (state, out.words) == Run(step, old(state), used, blockSize)
      ensures out.sigBytes <= 4 * |used| && out.sigBytes <= old(data.sigBytes)
      ensures Bytes(used, out.sigBytes) == old(data.Content())[..out.sigBytes]
      ensures data.Content() == old(data.Content())[out.sigBytes..]
      ensures doFlush ==> data.sigBytes == 0 && out.sigBytes == old(data.sigBytes)
      ensures !doFlush || Whole(old(data.sigBytes), 4 * blockSize) ==>
                Valid() && Produced() == old(Produced()) + out.Content() && out.sigBytes == 4 * |used|
      ensures old(data.Tidy()) ==> data.Tidy()
      ensures !doFlush ==> SameEnd(data.words, data.sigBytes, old(data.words), old(data.sigBytes))
      ensures !doFlush && old(HoldsBack()) ==> HoldsBack()
    {
      var n := data.sigBytes;
      ghost var held := minBufferSize >= 1 ==> |given| <= n || 4 * blockSize <= n;
      assert HoldsBack() ==> held;
      var nWords := WordsReady(n, doFlush);
      var nBytes := if nWords * 4 < n then nWords * 4 else n;
      ReadyWords(n, doFlush);
      ghost var content, t0, s0, w0 := data.Content(), taken, state, Produced();
      assert given == t0 + content && Whole(|t0|, 4 * blockSize) && KeepsLength(step, blockSize);
      WholeWords(|t0|, blockSize);
      assert Run(step, initial, Pack(t0), blockSize).0 == s0 && Unpack(Run(step, initial, Pack(t0), blockSize).1) == w0;
      hide *;
      out, used := Splice(nWords, nBytes);
      SplitAt(t0, content, nBytes);
      taken := taken + content[..nBytes];
      if 4 * nWords <= n {
        Resume(t0, s0, w0, content[..nBytes], used, out.words);
      }
      if held && !doFlush { StillHolds(n); }
    }

    /** `_process(true)` seen from the first byte: `total` is everything that ever went through
        the step function, the bytes `given` and whatever completed the last block. */
    method Flush() returns (out: WordArray, ghost total: seq<Word>)
      requires Valid()
      modifies this`state, this`taken, data
      ensures fresh(out) && out.sigBytes == old(data.sigBytes)
      ensures Finished(step, initial, blockSize, old(Produced()), out.words, out.sigBytes, given, total)
      ensures data == old(data)
      ensures old(HoldsBack()) && minBufferSize >= 1 ==> |given| <= out.sigBytes || 4 * blockSize <= out.sigBytes
    {
      ghost var held := minBufferSize >= 1 ==> |given| <= data.sigBytes || 4 * blockSize <= data.sigBytes;
      assert HoldsBack() ==> held;
      ghost var t0, content, s0, w0, n := taken, data.Content(), state, Produced(), data.sigBytes;
      assert Whole(|t0|, 4 * blockSize) && given == t0 + content && KeepsLength(step, blockSize);
      WholeWords(|t0|, blockSize);
      assert Run(step, initial, Pack(t0), blockSize).0 == s0;
      assert w0 == Unpack(Run(step, initial, Pack(t0), blockSize).1);
      assert |content| == n;
      ReadyWords(n, true);
      hide *;
      ghost var used;
      out, used := Process(true);
      total := Pack(t0) + used;
      MakeFinished(step, initial, blockSize, t0, content, used, out.words);
    }

    /** The history is consistent again once `more` has been processed from state `s0`. */
    lemma Resume(t0: seq<Byte>, s0: S, w0: seq<Byte>, more: seq<Byte>, used: seq<Word>, outWords: seq<Word>)
      requires taken == t0 + more && given == taken + data.Content()
      requires KeepsLength(step, blockSize) && |data.words| == WordCount(data.sigBytes)
      requires Whole(|t0|, 4 * blockSize) && Whole(|more|, 4 * blockSize) && Whole(|used|, blockSize)
      requires |t0| % 4 == 0 && |more| % 4 == 0 && Whole(|Pack(t0)|, blockSize)
      requires Run(step, initial, Pack(t0), blockSize).0 == s0
      requires Unpack(Run(step, initial, Pack(t0), blockSize).1) == w0
      requires |more| == 4 * |used| && Pack(more) == used && (state, outWords) == Run(step, s0, used, blockSize)
      ensures Valid() && Produced() == w0 + Unpack(outWords)
    {
      hide Run, Pack, Unpack, KeepsLength, WordCount;
      Advance(step, initial, t0, more, used, blockSize);
    }
  }

  lemma ReadyBounds(n: nat, k: nat, bs: nat)
    requires bs > 0 && k <= n / (4 * bs)
    ensures Whole(k * bs, bs) && Whole(4 * (k * bs), 4 * bs) && 4 * (k * bs) <= n
  {
    ModMultiple(k, bs);
    ModMultiple(k, 4 * bs);
    assert k * (4 * bs) == 4 * (k * bs);
    BlockCount(n, 4 * bs, k);
  }

  lemma FlushBounds(n: nat, k: nat, bs: nat)
    requires bs > 0 && k == (n + 4 * bs - 1) / (4 * bs)
    ensures Whole(k * bs, bs) && Whole(4 * (k * bs), 4 * bs) && n <= 4 * (k * bs)
    ensures Whole(n, 4 * bs) <==> 4 * (k * bs) == n
  {
    ModMultiple(k, bs);
    ModMultiple(k, 4 * bs);
    assert k * (4 * bs) == 4 * (k * bs);
    DivTimes(n + 4 * bs - 1, 4 * bs);
    if Whole(n, 4 * bs) { CeilWhole(n, 4 * bs); }
  }

  /** The end of a run: `words`, of which `rest` bytes count, complete what was produced
      `before`; together they are what the reference makes of `total`, the words whose first
      bytes are `full`, with junk only where `full` does not end on a block boundary. */
  ghost predicate Finished<S>(f: Step<S>, s: S, bs: nat, before: seq<Byte>, words: seq<Word>, rest: nat, full: seq<Byte>, total: seq<Word>) {
    && Whole(|total|, bs) && |full| <= 4 * |total| && Bytes(total, |full|) == full
    && (Whole(|full|, 4 * bs) ==> 4 * |total| == |full|)
    && |full| == |before| + rest && rest <= 4 * |words| && |before| % 4 == 0
    && before + Bytes(words, rest) == Bytes(Run(f, s, total, bs).1, |full|)
  }

  lemma MakeFinished<S(!new)>(f: Step<S>, s: S, bs: nat, taken: seq<Byte>, content: seq<Byte>, used: seq<Word>, words: seq<Word>)
    requires Whole(|taken|, 4 * bs) && Whole(|used|, bs) && KeepsLength(f, bs)
    requires |content| <= 4 * |used| && Bytes(used, |content|) == content
    requires Whole(|content|, 4 * bs) ==> 4 * |used| == |content|
    requires |taken| % 4 == 0 && Whole(|Pack(taken)|, bs)
    requires words == Run(f, Run(f, s, Pack(taken), bs).0, used, bs).1
    ensures Finished(f, s, bs, Unpack(Run(f, s, Pack(taken), bs).1), words, |content|, taken + content, Pack(taken) + used)
  {
    hide Run, Unpack, Bytes, Whole, KeepsLength;
    FlushTotal(f, s, taken, content, used, bs);
    if Whole(|taken + content|, 4 * bs) { WholeRest(|taken|, |content|, 4 * bs); }
  }

  /** Whole blocks `taken`, then `content` in the first bytes of the words `used`. */
  lemma FlushTotal<S(!new)>(f: Step<S>, s: S, taken: seq<Byte>, content: seq<Byte>, used: seq<Word>, bs: nat)
    requires Whole(|taken|, 4 * bs) && Whole(|used|, bs) && KeepsLength(f, bs)
    requires |content| <= 4 * |used| && Bytes(used, |content|) == content
    ensures |taken| % 4 == 0 && Whole(|Pack(taken)|, bs) && Whole(|Pack(taken) + used|, bs)
    ensures Bytes(Pack(taken) + used, |taken + content|) == taken + content
    ensures var a := Run(f, s, Pack(taken), bs);
            var b := Run(f, a.0, used, bs);
            && |Unpack(a.1)| == |taken| && |b.1| == |used|
            && Bytes(Run(f, s, Pack(taken) + used, bs).1, |taken + content|) == Unpack(a.1) + Bytes(b.1, |content|)
  {
    hide Run, Pack, Unpack, Bytes, Whole, KeepsLength;
    WholeWords(|taken|, bs);
    UnpackPack(taken);
    BytesConcat(Pack(taken), used, |content|);
    RunConcat(f, s, Pack(taken), used, bs);
    var a := Run(f, s, Pack(taken), bs);
    var b := Run(f, a.0, used, bs);
    RunLength(f, s, Pack(taken), bs);
    RunLength(f, a.0, used, bs);
    BytesConcat(a.1, b.1, |content|);
  }

  lemma NotFewer(a: int, b: int, n: nat, bs: nat)
    requires bs > 0 && n == (b - a) * bs
    ensures a <= b
  {
    var d := if a > b then a - b else 1;
    AtLeast(d, bs);
    assert (a - b) * bs == -((b - a) * bs);
  }

  lemma WholeRest(m: nat, n: nat, bs: nat)
    requires Whole(m, bs) && Whole(m + n, bs)
    ensures Whole(n, bs)
  {
    var a, b := m / bs, (m + n) / bs;
    assert m == a * bs && m + n == b * bs;
    assert n == (b - a) * bs;
    NotFewer(a, b, n, bs);
    ModMultiple(b - a, bs);
  }

  /** Words that hold a whole number of blocks of bytes, and no more, are those bytes packed. */
  lemma NoRoom(ws: seq<Word>, b: seq<Byte>)
    requires 4 * |ws| == |b| && Bytes(ws, |b|) == b
    ensures |b| % 4 == 0 && ws == Pack(b)
  {
    PackUnpack(ws);
  }

  lemma CeilWhole(n: nat, d: nat)
    requires Whole(n, d)
    ensures (n + d - 1) / d * d == n
  {
    DivTimes(n + d - 1, d);
    var a, b := (n + d - 1) / d, n / d;
    assert b * d == n;
    NoMultipleBelow(a - b, d, a * d - n);
  }

  /** How a buffer of `n` bytes divides when `nWords` words are taken off its front. */
  lemma BufferSplit(w0: seq<Word>, n: nat, nWords: nat, nBytes: nat)
    requires |w0| == WordCount(n) && nBytes == if nWords * 4 < n then nWords * 4 else n
    ensures Bytes(Extend(w0, nWords)[..nWords], nBytes) == Bytes(w0, n)[..nBytes]
    ensures Bytes(Extend(w0, nWords)[nWords..], n - nBytes) == Bytes(w0, n)[nBytes..]
    ensures |Extend(w0, nWords)[nWords..]| == WordCount(n - nBytes)
    ensures 4 * nWords <= n ==> Pack(Bytes(w0, n)[..nBytes]) == Extend(w0, nWords)[..nWords]
    ensures Clean(w0, n) ==> Clean(Extend(w0, nWords)[nWords..], n - nBytes)
    ensures 4 * nWords <= n ==> SameEnd(Extend(w0, nWords)[nWords..], n - nBytes, w0, n)
  {
    hide Bytes, Extend, Clean, Pack, SameEnd;
    var e := Extend(w0, nWords);
    ExtendBytes(w0, nWords, nBytes);
    PrefixBytes(e, nWords, nBytes);
    BytesPrefix(w0, n, nBytes);
    if 4 * nWords <= n {
      ExtendNone(w0, nWords);
      BytesDrop(w0, n, nWords);
      PackPrefix(w0, n, nWords);
      assert w0[..nWords] == e[..nWords];
    } else {
      assert e[nWords..] == [];
      NothingLeft(w0, n);
    }
  }

  lemma SplitAt<T>(a: seq<T>, c: seq<T>, k: nat)
    requires k <= |c|
    ensures a + c == (a + c[..k]) + c[k..]
  {}

  lemma BytesPrefix(ws: seq<Word>, n: nat, k: nat)
    requires k <= n
    ensures Bytes(ws, n)[..k] == Bytes(ws, k)
  {}

  lemma NothingLeft(ws: seq<Word>, n: nat)
    ensures Bytes([], 0) == Bytes(ws, n)[n..] && Clean([], 0)
  {
    forall i: nat ensures At([], i) == 0 { ZeroBytes(i % 4); }
  }

  lemma RunEmpty<S>(f: Step<S>, s: S, ws: seq<Word>, bs: nat)
    requires bs > 0 && ws == []
    ensures Run(f, s, ws, bs) == (s, [])
  {}

  /** Processing one more run of whole blocks extends both the state and the output. */
  lemma Advance<S(!new)>(f: Step<S>, s: S, taken: seq<Byte>, more: seq<Byte>, used: seq<Word>, bs: nat)
    requires Whole(|taken|, 4 * bs) && Whole(|more|, 4 * bs)
    requires Whole(|used|, bs) && |more| == 4 * |used| && Pack(more) == used
    ensures Whole(|taken + more|, 4 * bs) && |taken + more| % 4 == 0 && |taken| % 4 == 0
    ensures Whole(|Pack(taken)|, bs) && Whole(|Pack(taken + more)|, bs)
    ensures var a, b := Run(f, s, Pack(taken), bs), Run(f, s, Pack(taken + more), bs);
            var step := Run(f, a.0, used, bs);
            b.0 == step.0 && b.1 == a.1 + step.1 && Unpack(b.1) == Unpack(a.1) + Unpack(step.1)
  {
    hide Run, Pack, Unpack;
    WholeWords(|taken|, bs);
    WholeWords(|more|, bs);
    ModSum(|taken|, |more|, 4 * bs);
    WholeWords(|taken + more|, bs);
    PackConcat(taken, more);
    RunConcat(f, s, Pack(taken), used, bs);
    var a := Run(f, s, Pack(taken), bs);
    UnpackConcat(a.1, Run(f, a.0, used, bs).1);
  }

  /** The block loop after `offset` words: `out` has replaced them, the rest is untouched. */
  ghost predicate Progress<S>(f: Step<S>, s0: S, w0: seq<Word>, ws: seq<Word>, n: nat, bs: nat, offset: nat, s: S, out: seq<Word>)
  {
    && offset <= n <= |w0| && Whole(offset, bs) && Whole(n, bs)
    && |out| == offset
    && |ws| >= offset
    && Extend(ws, n) == out + w0[offset..]
    && (s, out) == Run(f, s0, w0[..offset], bs)
  }

  lemma LoopStart<S>(f: Step<S>, s0: S, ws: seq<Word>, n: nat, bs: nat)
    requires Whole(n, bs)
    ensures Progress(f, s0, Extend(ws, n), ws, n, bs, 0, s0, [])
  {
    hide Extend;
    var w0 := Extend(ws, n);
    assert w0[..0] == [] && [] + w0[0..] == w0;
  }

  lemma LoopRound<S(!new)>(f: Step<S>, s0: S, w0: seq<Word>, ws: seq<Word>, n: nat, bs: nat, offset: nat, s: S, out: seq<Word>, r: (S, seq<Word>))
    requires Progress(f, s0, w0, ws, n, bs, offset, s, out) && offset < n && KeepsLength(f, bs)
    requires r == f(s, Block(ws, offset, bs))
    ensures offset + bs <= n
    ensures Progress(f, s0, w0, Overwrite(ws, offset, r.1), n, bs, offset + bs, r.0, out + r.1)
  {
    hide Extend, Overwrite, Block, Run;
    RoomForBlock(offset, n, bs);
    LoopStep(ws, n, out, w0[offset..], r.1, bs);
    RunSnoc(f, s0, w0, offset, bs);
    assert w0[offset..][bs..] == w0[offset + bs..];
  }

  lemma LoopEnd<S>(f: Step<S>, s0: S, w0: seq<Word>, ws: seq<Word>, n: nat, bs: nat, offset: nat, s: S, out: seq<Word>)
    requires Progress(f, s0, w0, ws, n, bs, offset, s, out) && offset == n
    ensures |ws| >= n
    ensures (s, ws[..n]) == Run(f, s0, w0[..n], bs) && ws[n..] == w0[n..]
  {
    ExtendNone(ws, n);
    assert ws[..n] == out;
  }

  function Max(a: int, b: int): int { if a < b then b else a }

  lemma ExtendNone(ws: seq<Word>, n: nat)
    requires n <= |ws|
    ensures Extend(ws, n) == ws
  {}

  lemma RoomForBlock(offset: nat, n: nat, bs: nat)
    requires Whole(offset, bs) && Whole(n, bs) && offset < n
    ensures offset + bs <= n && Whole(offset + bs, bs)
  {
    var a, b := offset / bs, n / bs;
    assert offset == a * bs && n == b * bs;
    assert n - offset == (b - a) * bs;
    if b - a >= 1 { AtLeast(b - a, bs); } else { AtLeast(a - b + 1, bs); }
    assert offset + bs == (a + 1) * bs;
    ModMultiple(a + 1, bs);
  }

  lemma RunSnoc<S(!new)>(f: Step<S>, s: S, w: seq<Word>, k: nat, bs: nat)
    requires Whole(k, bs) && k + bs <= |w|
    ensures Whole(k + bs, bs)
    ensures var before := Run(f, s, w[..k], bs);
            var last := f(before.0, w[k..][..bs]);
            Run(f, s, w[..k + bs], bs) == (last.0, before.1 + last.1)
  {
    hide Run;
    var b := w[k..][..bs];
    assert w[..k + bs] == w[..k] + b;
    var before := Run(f, s, w[..k], bs);
    RunOne(f, before.0, b, bs);
    RunConcat(f, s, w[..k], b, bs);
    var whole := Run(f, s, w[..k + bs], bs);
    assert whole == (whole.0, whole.1);
  }

  lemma WholeWords(n: nat, bs: nat)
    requires Whole(n, 4 * bs)
    ensures n % 4 == 0 && Whole(n / 4, bs)
  {
    var k := n / (4 * bs);
    assert n == 4 * (k * bs) by { assert n == (4 * bs) * k; }
    ModMultiple(k, bs);
  }
}
