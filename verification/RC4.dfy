/** RC4 as a keystream cipher over one-word blocks. */
module RC4 {
  import opened JsNumbers
  import opened WordArrays
  import opened Streaming
  import opened BlockModes
  import opened Padding
  import opened Ciphers
  import opened Keystreams

  datatype State = State(S: seq<nat>, i: nat, j: nat) {
    ghost predicate Valid() {
      IsPermutation(S) && i < 256 && j < 256
    }
  }

  /** `S` lists every number below 256 exactly once. */
  ghost predicate IsPermutation(S: seq<nat>) {
    && |S| == 256
    && (forall k: nat :: k < 256 ==> S[k] < 256)
    && (forall k: nat, m: nat :: k < m < 256 ==> S[k] != S[m])
  }

  function Swap(S: seq<nat>, i: nat, j: nat): seq<nat>
    requires i < |S| && j < |S|
  {
    S[i := S[j]][j := S[i]]
  }

  lemma SwapKeeps(S: seq<nat>, i: nat, j: nat)
    requires IsPermutation(S) && i < 256 && j < 256
    ensures IsPermutation(Swap(S, i, j))
  {
  }

  /** One byte of keystream: the next state and an entry of S. */
  function NextByte(st: State): (r: (State, nat))
    requires st.Valid()
    ensures r.0.Valid() && r.1 < 256
  {
    var i := (st.i + 1) % 256;
    var j := (st.j + st.S[i]) % 256;
    SwapKeeps(st.S, i, j);
    var S := Swap(st.S, i, j);
    (State(S, i, j), S[(S[i] + S[j]) % 256])
  }

  /** The state after `n` keystream bytes; every one of them is valid. */
  function After(st: State, n: nat): (r: State)
    requires st.Valid()
    ensures r.Valid()
  {
    if n == 0 then st else
      var before := After(st, n - 1);
      NextByte(before).0
  }

  /** Keystream byte `n`, counted from 0. */
  function ByteAt(st: State, n: nat): nat
    requires st.Valid()
  {
    NextByte(After(st, n)).1
  }

  /** Four keystream bytes make a word, most significant byte first. */
  function NextWord(st: State): (r: (State, Word))
    requires st.Valid()
    ensures r.0.Valid()
  {
    (After(st, 4), PackWord(ByteVal(ByteAt(st, 0)), ByteVal(ByteAt(st, 1)), ByteVal(ByteAt(st, 2)), ByteVal(ByteAt(st, 3))))
  }

  /** The key byte used for entry `i`: the key over and over. An empty key makes the index NaN,
      which reads the low byte of word 0. */
  function ScheduleByte(keyWords: seq<Word>, keySigBytes: nat, i: nat): nat {
    if keySigBytes == 0 then Num(Get(keyWords, 0) & 0xff) else Num(At(keyWords, i % keySigBytes) as Word)
  }

  /** S and j after the first `i` entries have been exchanged. */
  function Mixed(keyWords: seq<Word>, keySigBytes: nat, i: nat): (r: (seq<nat>, nat))
    requires i <= 256
    ensures IsPermutation(r.0) && r.1 < 256
  {
    if i == 0 then (seq(256, k => k), 0)
    else
      var before := Mixed(keyWords, keySigBytes, i - 1);
      var j := (before.1 + before.0[i - 1] + ScheduleByte(keyWords, keySigBytes, i - 1)) % 256;
      SwapKeeps(before.0, i - 1, j);
      (Swap(before.0, i - 1, j), j)
  }

  lemma MixedStep(keyWords: seq<Word>, keySigBytes: nat, i: nat)
    requires i < 256
    ensures var (S, j) := Mixed(keyWords, keySigBytes, i);
            var k := (j + S[i] + ScheduleByte(keyWords, keySigBytes, i)) % 256;
            Mixed(keyWords, keySigBytes, i + 1) == (Swap(S, i, k), k)
    ensures Mixed(keyWords, keySigBytes, 0).1 == 0
  {
    hide ScheduleByte, IsPermutation;
  }

  lemma {:induction false} SameBytesMixSame(k: seq<Word>, m: nat, l: seq<Word>, n: nat, i: nat)
    requires i <= 256 && forall x: nat :: x < i ==> ScheduleByte(k, m, x) == ScheduleByte(l, n, x)
    ensures Mixed(k, m, i) == Mixed(l, n, i)
  {
    hide ScheduleByte, IsPermutation;
    if i > 0 { SameBytesMixSame(k, m, l, n, i - 1); }
  }

  /** The key setup, entry by entry: `j` goes on by the entry and the key byte, and the two entries
      are exchanged. */
  lemma MixedOn(keyWords: seq<Word>, keySigBytes: nat, i: nat)
    requires i < 256 && keySigBytes > 0
    ensures var (S, j), (S', j') := Mixed(keyWords, keySigBytes, i), Mixed(keyWords, keySigBytes, i + 1);
            && j' == (j + S[i] + ByteNum(At(keyWords, i % keySigBytes))) % 256
            && S'[i] == S[j'] && S'[j'] == S[i] && forall k: nat :: k < 256 && k != i && k != j' ==> S'[k] == S[k]
  {
    MixedStep(keyWords, keySigBytes, i);
    hide Mixed, At, Num;
  }

  lemma MixedStart(keyWords: seq<Word>, keySigBytes: nat)
    ensures Mixed(keyWords, keySigBytes, 0).1 == 0 && forall k: nat :: k < 256 ==> Mixed(keyWords, keySigBytes, 0).0[k] == k
  {}

  /** A key written several times over is the same key, and so are two keys of at least 256
      bytes that begin alike: the cipher starts in the same state. */
  lemma SameStart(k: seq<Word>, m: nat, l: seq<Word>, n: nat)
    requires m > 0 && n > 0
    requires (n % m == 0 && forall x: nat :: x < n ==> At(l, x) == At(k, x % m)) ||
             (m >= 256 && n >= 256 && forall x: nat :: x < 256 ==> At(l, x) == At(k, x))
    ensures Mixed(k, m, 256) == Mixed(l, n, 256)
  {
    hide At;
    forall x: nat | x < 256
      ensures ScheduleByte(k, m, x) == ScheduleByte(l, n, x)
    {
      if n % m == 0 && forall x: nat :: x < n ==> At(l, x) == At(k, x % m) {
        Remainders(x, m, n);
        assert At(l, x % n) == At(k, x % n % m);
      } else {
        Small(x, m);
        Small(x, n);
      }
    }
    SameBytesMixSame(k, m, l, n, 256);
  }

  /** An empty key is the low byte of its first word, taken as a key of one byte. */
  lemma EmptyKey(k: seq<Word>, w: Word)
    requires ByteOf(w, 0) == ByteOf(Get(k, 0), 3)
    ensures Mixed(k, 0, 256) == Mixed([w], 1, 256)
  {
    hide Num, Mixed;
    LowByteWord(Get(k, 0));
    forall x: nat | x < 256
      ensures ScheduleByte(k, 0, x) == ScheduleByte([w], 1, x)
    {
      assert x % 1 == 0;
    }
    SameBytesMixSame(k, 0, [w], 1, 256);
  }

  lemma Small(x: nat, n: nat)
    requires x < n
    ensures x % n == x
  {}

  lemma {:induction false} Remainders(x: nat, m: nat, n: nat)
    requires m > 0 && n > 0 && n % m == 0
    ensures x % n % m == x % m
    decreases x
  {
    if x < n {
      Small(x, n);
    } else {
      Remainders(x - n, m, n);
      Less(x, n);
      Multiple(x - n, n, m);
    }
  }

  lemma Less(x: nat, n: nat)
    requires x >= n > 0
    ensures (x - n) % n == x % n
  {
    assert x - n == n * (x / n - 1) + x % n;
    Remainder(x - n, n, x / n - 1, x % n);
  }

  lemma Remainder(x: nat, n: nat, q: int, r: nat)
    requires x == n * q + r && r < n
    ensures x % n == r
  {
    var d := x / n - q;
    assert n * d == n * (x / n) - n * q;
    NoMultiple(n, d);
  }

  lemma NoMultiple(n: int, d: int)
    requires n > 0 && -n < n * d < n
    ensures d == 0
  {
    if d > 0 { AtLeast(d, n); }
  }

  lemma Multiple(x: nat, n: nat, m: nat)
    requires m > 0 && n % m == 0
    ensures (x + n) % m == x % m
  {
    var q := n / m;
    assert n == m * q;
    assert (x + m * q) % m == x % m by { Times(x, m, q); }
  }

  lemma {:induction false} Times(x: nat, m: nat, q: nat)
    requires m > 0
    ensures (x + m * q) % m == x % m
  {
    if q > 0 {
      Times(x, m, q - 1);
      assert x + m * q == (x + m * (q - 1)) + m;
      Less(x + m * q, m);
    }
  }

  method Exchange(S: array<nat>, i: nat, j: nat)
    requires i < S.Length && j < S.Length
    modifies S
    ensures S[..] == Swap(old(S[..]), i, j)
  {
    S[i], S[j] := S[j], S[i];
  }

  method MixEntry(S: array<nat>, i: nat, j: nat, keyWords: seq<Word>, keySigBytes: nat) returns (next: nat)
    requires S.Length == 256 && i < 256 && (S[..], j) == Mixed(keyWords, keySigBytes, i)
    modifies S
    ensures (S[..], next) == Mixed(keyWords, keySigBytes, i + 1)
  {
    MixedStep(keyWords, keySigBytes, i);
    hide ScheduleByte, IsPermutation, Mixed, Swap;
    next := (j + S[i] + ScheduleByte(keyWords, keySigBytes, i)) % 256;
    Exchange(S, i, next);
  }

  class Cipher4 {
    var S: array<nat>
    var i: nat
    var j: nat

    ghost function Current(): State
      reads this, S
    {
      State(S[..], i, j)
    }

    /** Key setup: S is the identity mixed by the key. */
    constructor (keyWords: seq<Word>, keySigBytes: nat)
      ensures Current() == State(Mixed(keyWords, keySigBytes, 256).0, 0, 0) && fresh(S)
      ensures Current().Valid()
    {
      S := new nat[256](k => k);
      i, j := 0, 0;
      new;
      assert S[..] == Mixed(keyWords, keySigBytes, 0).0;
      hide ScheduleByte, IsPermutation, Mixed;
      var j := 0;
      for i := 0 to 256
        invariant S.Length == 256 && (S[..], j) == Mixed(keyWords, keySigBytes, i)
        invariant this.i == this.j == 0 && fresh(S)
      {
        j := MixEntry(S, i, j, keyWords, keySigBytes);
      }
    }

    /** One turn of the loop: step the counters, swap, look up. */
    method Turn() returns (v: nat)
      requires Current().Valid()
      modifies this, S
      ensures S == old(S) && Current().Valid()
      ensures (Current(), v) == NextByte(old(Current()))
      ensures S.Length == 256 && i == (old(i) + 1) % 256 && j == (old(j) + old(S[..])[i]) % 256
      ensures S[i] == old(S[..])[j] && S[j] == old(S[..])[i] && forall k :: 0 <= k < 256 && k != i && k != j ==> S[k] == old(S[k])
      ensures S[i] < 256 && S[j] < 256 && v == S[(S[i] + S[j]) % 256]
    {
      assert S.Length == 256;
      assert Current().S == S[..];
      hide IsPermutation;
      i := (i + 1) % 256;
      j := (j + S[i]) % 256;
      Exchange(S, i, j);
      v := S[(S[i] + S[j]) % 256];
    }

    method GenerateKeystreamWord() returns (keystreamWord: Word)
      requires Current().Valid()
      modifies this, S
      ensures S == old(S) && Current().Valid()
      ensures (Current(), keystreamWord) == NextWord(old(Current()))
    {
      ghost var st := Current();
      hide Place, ByteVal, NextByte, IsPermutation, PackWord;
      keystreamWord := 0;
      for n := 0 to 4
        invariant S == old(S) && Current() == After(st, n)
        invariant keystreamWord == Partial(st, n)
      {
        var v := Turn();
        keystreamWord := OrByte(keystreamWord, v, n);
      }
      PartialPacks(st);
    }
  }

  /** `w | v << (24 - n * 8)` */
  function OrByte(w: Word, v: nat, n: nat): Word {
    w | Place(ByteVal(v), n)
  }

  ghost function Partial(st: State, n: nat): Word
    requires st.Valid()
  {
    if n == 0 then 0 else OrByte(Partial(st, n - 1), ByteAt(st, n - 1), n - 1)
  }

  lemma PartialPacks(st: State)
    requires st.Valid()
    ensures Partial(st, 4) == PackWord(ByteVal(ByteAt(st, 0)), ByteVal(ByteAt(st, 1)), ByteVal(ByteAt(st, 2)), ByteVal(ByteAt(st, 3)))
  {
    hide ByteAt, ByteVal, After, OrByte;
    var a, b, c, d := ByteAt(st, 0), ByteAt(st, 1), ByteAt(st, 2), ByteAt(st, 3);
    assert Partial(st, 1) == OrByte(Partial(st, 0), a, 0) == OrByte(0, a, 0);
    assert Partial(st, 2) == OrByte(Partial(st, 1), b, 1);
    assert Partial(st, 3) == OrByte(Partial(st, 2), c, 2);
    assert Partial(st, 4) == OrByte(Partial(st, 3), d, 3);
    hide *;
    OrFour(a, b, c, d);
  }

  lemma OrFour(a: nat, b: nat, c: nat, d: nat)
    ensures OrByte(OrByte(OrByte(OrByte(0, a, 0), b, 1), c, 2), d, 3) == PackWord(ByteVal(a), ByteVal(b), ByteVal(c), ByteVal(d))
  {
    hide ByteVal;
  }

  // ---------------------------------------------------------------- as a keystream cipher

  type Reachable = st: State | st.Valid() ghost witness Start()

  ghost function Start(): State {
    State(seq(256, k => k), 0, 0)
  }

  function Rc4Generator(): Generator<Reachable> {
    st => var r := NextWord(st); (r.0, [r.1])
  }

  /** RC4 is a keystream cipher on blocks of one word. */
  lemma Rc4Fills()
    ensures Fills(Rc4Generator(), 1) && KeepsLength(XorStep(Rc4Generator()), 1)
  {
    hide NextByte, IsPermutation;
  }

  lemma {:induction false} AfterAdd(st: State, m: nat, n: nat)
    requires st.Valid()
    ensures After(After(st, m), n) == After(st, m + n)
  {
    hide NextByte, IsPermutation;
    if n == 0 {
      assert After(After(st, m), 0) == After(st, m);
    } else {
      AfterAdd(st, m, n - 1);
      var a, b := After(st, m), m + n;
      assert After(a, n) == NextByte(After(a, n - 1)).0;
      assert After(st, b) == NextByte(After(st, b - 1)).0;
    }
  }

  lemma {:induction false} Rc4Words(st: Reachable, n: nat, k: nat)
    requires k < n
    ensures |KeyWords(Rc4Generator(), st, n)| == n
    ensures KeyWords(Rc4Generator(), st, n)[k] == NextWord(After(st, 4 * k)).1
    decreases n
  {
    hide NextByte, IsPermutation;
    Rc4Fills();
    KeyLength(Rc4Generator(), st, n, 1);
    if k > 0 {
      Rc4Words(After(st, 4), n - 1, k - 1);
      AfterAdd(st, 4, 4 * (k - 1));
    }
  }

  /** Byte `i` of an RC4 text is byte `i` of the message XOR the `i`-th byte drawn from S. */
  lemma Rc4Text(st: Reachable, msg: seq<Byte>, i: nat)
    requires i < |msg|
    ensures StreamText(Rc4Generator(), st, 1, msg)[i] == XorByte(msg[i], ByteVal(ByteAt(st, i)))
  {
    hide ByteVal, NextByte, XorByte;
    var k := i / 4;
    Rc4Words(st, k + 1, k);
    AfterAdd(st, 4 * k, i % 4);
    var w := After(st, 4 * k);
    AfterAdd(st, 4 * k, 0); AfterAdd(st, 4 * k, 1); AfterAdd(st, 4 * k, 2); AfterAdd(st, 4 * k, 3);
    PackedBytes(ByteVal(ByteAt(w, 0)), ByteVal(ByteAt(w, 1)), ByteVal(ByteAt(w, 2)), ByteVal(ByteAt(w, 3)));
    assert ByteAt(w, i % 4) == ByteAt(st, i);
  }
}
