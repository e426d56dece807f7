/** WordArray: big-endian bytes packed into 32-bit words. A JavaScript array slot that was
    never written reads as 0, so `Get` is total and `Put` fills the gap it leaves with 0. */
module WordArrays {

  type Word = bv32
  type Byte = bv8

  function Get(ws: seq<Word>, i: nat): Word {
    if i < |ws| then ws[i] else 0
  }

  function Xor(a: Word, b: Word): Word { a ^ b }

  function XorByte(a: Byte, b: Byte): Byte { a ^ b }

  lemma XorBack(a: Byte, b: Byte)
    ensures XorByte(XorByte(a, b), b) == a
  {}

  function RotL(w: Word, n: nat): Word
    requires n <= 32
  {
    (w << n) | (w >> (32 - n))
  }

  function Zeros(n: nat): (z: seq<Word>)
    ensures |z| == n
  {
    seq(n, _ => 0)
  }

  function Put(ws: seq<Word>, i: nat, w: Word): (r: seq<Word>)
    ensures |r| == (if i < |ws| then |ws| else i + 1)
    ensures forall k: nat :: Get(r, k) == if k == i then w else Get(ws, k)
  {
    if i < |ws| then ws[i := w] else ws + Zeros(i - |ws|) + [w]
  }

  /** Byte `k` of a word, counted from the most significant one. */
  function ByteOf(w: Word, k: nat): Byte {
    if k == 0 then (w >> 24) as Byte
    else if k == 1 then ((w >> 16) & 0xff) as Byte
    else if k == 2 then ((w >> 8) & 0xff) as Byte
    else (w & 0xff) as Byte
  }

  /** `b << (24 - k * 8)` */
  function Place(b: Byte, k: nat): Word {
    if k == 0 then (b as Word) << 24
    else if k == 1 then (b as Word) << 16
    else if k == 2 then (b as Word) << 8
    else b as Word
  }

  /** `w & (0xffffffff << (32 - k * 8))`; a shift by 32 is a shift by 0. */
  function Keep(w: Word, k: nat): Word {
    if k == 1 then w & 0xff00_0000
    else if k == 2 then w & 0xffff_0000
    else if k == 3 then w & 0xffff_ff00
    else w
  }

  function At(ws: seq<Word>, i: nat): Byte {
    ByteOf(Get(ws, i / 4), i % 4)
  }

  function Bytes(ws: seq<Word>, n: nat): (r: seq<Byte>)
    ensures |r| == n
    ensures forall i: nat :: i < n ==> r[i] == At(ws, i)
  {
    seq(n, i requires 0 <= i => At(ws, i))
  }

  /** The number of words that hold `n` bytes. */
  function WordCount(n: nat): nat {
    (n + 3) / 4
  }

  /** Every bit past byte `n` is 0. */
  ghost predicate Clean(ws: seq<Word>, n: nat) {
    forall i: nat :: n <= i ==> At(ws, i) == 0
  }

  /** Byte `k` past byte `n`. */
  function Past(ws: seq<Word>, n: nat, k: nat): Byte {
    At(ws, n + k)
  }

  /** The same lies past byte `m` of one array and byte `n` of another. */
  ghost predicate SameEnd(v: seq<Word>, m: nat, w: seq<Word>, n: nat) {
    forall k: nat :: Past(v, m, k) == Past(w, n, k)
  }

  // ---------------------------------------------------------------- byte-level facts

  lemma OrBytes(v: Word, w: Word, j: nat)
    ensures ByteOf(v | w, j) == ByteOf(v, j) | ByteOf(w, j)
  {
    if j == 0 {} else if j == 1 {} else if j == 2 {} else {}
  }

  lemma XorBytes(v: Word, w: Word, j: nat)
    ensures ByteOf(Xor(v, w), j) == XorByte(ByteOf(v, j), ByteOf(w, j))
  {
    if j == 0 {} else if j == 1 {} else if j == 2 {} else {}
  }

  lemma PlaceByte(b: Byte, k: nat, j: nat)
    requires k < 4 && j < 4
    ensures ByteOf(Place(b, k), j) == if j == k then b else 0
  {
    if k == 0 {} else if k == 1 {} else if k == 2 {} else {}
  }

  lemma OrPlace(w: Word, b: Byte, k: nat, j: nat)
    requires k < 4 && j < 4
    ensures ByteOf(w | Place(b, k), j) == if j == k then ByteOf(w, j) | b else ByteOf(w, j)
  {
    hide *;
    OrBytes(w, Place(b, k), j);
    PlaceByte(b, k, j);
  }

  lemma KeptByte(w: Word, k: nat, j: nat)
    requires 0 < k < 4 && j < 4
    ensures ByteOf(Keep(w, k), j) == if j < k then ByteOf(w, j) else 0
  {
    if k == 1 {
      if j == 0 {} else if j == 1 {} else if j == 2 {} else {}
    } else if k == 2 {
      if j == 0 {} else if j == 1 {} else if j == 2 {} else {}
    } else {
      if j == 0 {} else if j == 1 {} else if j == 2 {} else {}
    }
  }

  lemma AtDef(ws: seq<Word>, i: nat)
    ensures At(ws, i) == ByteOf(Get(ws, i / 4), i % 4)
  {
    hide ByteOf;
  }

  // ---------------------------------------------------------------- clamp and concat

  /** `words[sigBytes >>> 2] &= mask`, before the array is cut to length. */
  function Masked(ws: seq<Word>, n: nat): (r: seq<Word>)
    ensures |r| >= WordCount(n)
  {
    Put(ws, n / 4, Keep(Get(ws, n / 4), n % 4))
  }

  /** What `clamp` leaves in `words`. */
  function Clamped(ws: seq<Word>, n: nat): (r: seq<Word>)
    ensures |r| == WordCount(n)
  {
    Masked(ws, n)[..WordCount(n)]
  }

  lemma ClampedGet(ws: seq<Word>, n: nat, k: nat)
    ensures Get(Clamped(ws, n), k) ==
            if k < n / 4 then Get(ws, k)
            else if k == n / 4 && n % 4 != 0 then Keep(Get(ws, k), n % 4)
            else 0
  {
    hide Keep, Put;
    assert Get(Masked(ws, n), k) == if k == n / 4 then Keep(Get(ws, n / 4), n % 4) else Get(ws, k);
  }

  lemma ClampedAt(ws: seq<Word>, n: nat, i: nat)
    ensures At(Clamped(ws, n), i) == if i < n then At(ws, i) else 0
  {
    hide ByteOf, Keep, Clamped, Get;
    ClampedGet(ws, n, i / 4);
    ZeroBytes(i % 4);
    if i / 4 == n / 4 && n % 4 != 0 {
      KeptByte(Get(ws, i / 4), n % 4, i % 4);
    }
  }

  lemma ZeroBytes(k: nat)
    ensures ByteOf(0, k) == 0
  {
    if k == 0 {} else if k == 1 {} else if k == 2 {} else {}
  }

  lemma ClampedBytes(ws: seq<Word>, n: nat)
    ensures Clean(Clamped(ws, n), n)
    ensures Bytes(Clamped(ws, n), n) == Bytes(ws, n)
  {
    hide Clamped, At;
    forall i: nat ensures At(Clamped(ws, n), i) == if i < n then At(ws, i) else 0 {
      ClampedAt(ws, n, i);
    }
  }

  /** `words[p >>> 2] |= b << (24 - (p % 4) * 8)` */
  function OrAt(ws: seq<Word>, p: nat, b: Byte): (r: seq<Word>)
    ensures |r| == (if p / 4 < |ws| then |ws| else p / 4 + 1)
  {
    Put(ws, p / 4, Get(ws, p / 4) | Place(b, p % 4))
  }

  lemma OrAtByte(ws: seq<Word>, p: nat, b: Byte, i: nat)
    ensures At(OrAt(ws, p, b), i) == if i == p then At(ws, p) | b else At(ws, i)
  {
    hide ByteOf, Place, Get, Put;
    if i / 4 == p / 4 {
      OrPlace(Get(ws, p / 4), b, p % 4, i % 4);
    }
  }

  // ---------------------------------------------------------------- whole words as bytes

  function PackWord(b0: Byte, b1: Byte, b2: Byte, b3: Byte): Word {
    Place(b0, 0) | Place(b1, 1) | Place(b2, 2) | Place(b3, 3)
  }

  lemma PackedBytes(b0: Byte, b1: Byte, b2: Byte, b3: Byte)
    ensures ByteOf(PackWord(b0, b1, b2, b3), 0) == b0 && ByteOf(PackWord(b0, b1, b2, b3), 1) == b1
    ensures ByteOf(PackWord(b0, b1, b2, b3), 2) == b2 && ByteOf(PackWord(b0, b1, b2, b3), 3) == b3
  {}

  lemma PackedWord(w: Word)
    ensures PackWord(ByteOf(w, 0), ByteOf(w, 1), ByteOf(w, 2), ByteOf(w, 3)) == w
  {}

  /** The big-endian words of a whole number of words' bytes. */
  function Pack(b: seq<Byte>): (ws: seq<Word>)
    requires |b| % 4 == 0
    ensures |ws| == |b| / 4
  {
    seq(|b| / 4, i requires 0 <= i < |b| / 4 => PackWord(b[4 * i], b[4 * i + 1], b[4 * i + 2], b[4 * i + 3]))
  }

  function Unpack(ws: seq<Word>): (b: seq<Byte>)
    ensures |b| == 4 * |ws|
  {
    Bytes(ws, 4 * |ws|)
  }

  lemma UnpackPack(b: seq<Byte>)
    requires |b| % 4 == 0
    ensures Unpack(Pack(b)) == b
  {
    hide ByteOf, PackWord;
    forall i: nat | i < |b| ensures At(Pack(b), i) == b[i] {
      var k := i / 4;
      PackedBytes(b[4 * k], b[4 * k + 1], b[4 * k + 2], b[4 * k + 3]);
      assert i == 4 * k + i % 4;
    }
  }

  lemma PackUnpack(ws: seq<Word>)
    ensures Pack(Unpack(ws)) == ws
  {
    PackPrefix(ws, 4 * |ws|, |ws|);
  }

  lemma PackPrefix(ws: seq<Word>, n: nat, m: nat)
    requires 4 * m <= n && m <= |ws|
    ensures Pack(Bytes(ws, n)[..4 * m]) == ws[..m]
  {
    hide ByteOf, PackWord;
    var b := Bytes(ws, n)[..4 * m];
    forall i: nat | i < m ensures Pack(b)[i] == ws[i] {
      PackedWord(ws[i]);
      assert (4 * i) / 4 == i && (4 * i + 1) / 4 == i && (4 * i + 2) / 4 == i && (4 * i + 3) / 4 == i;
    }
  }

  lemma PackConcat(a: seq<Byte>, b: seq<Byte>)
    requires |a| % 4 == 0 && |b| % 4 == 0
    ensures Pack(a + b) == Pack(a) + Pack(b)
  {
    hide PackWord;
    forall i: nat | i < |a + b| / 4 ensures Pack(a + b)[i] == (Pack(a) + Pack(b))[i] {
      if i >= |a| / 4 {
        assert 4 * (i - |a| / 4) == 4 * i - |a|;
      }
    }
  }

  lemma BytesConcat(v: seq<Word>, w: seq<Word>, n: nat)
    ensures Bytes(v + w, 4 * |v| + n) == Unpack(v) + Bytes(w, n)
  {
    hide ByteOf;
    forall i: nat | i < 4 * |v| + n ensures At(v + w, i) == (Unpack(v) + Bytes(w, n))[i] {
      if i >= 4 * |v| {
        assert (i - 4 * |v|) / 4 == i / 4 - |v| && (i - 4 * |v|) % 4 == i % 4;
      }
    }
  }

  lemma UnpackConcat(v: seq<Word>, w: seq<Word>)
    ensures Unpack(v + w) == Unpack(v) + Unpack(w)
  {
    BytesConcat(v, w, 4 * |w|);
  }

  /** Dropping whole words from the front drops their bytes. */
  lemma BytesDrop(ws: seq<Word>, n: nat, m: nat)
    requires 4 * m <= n && m <= |ws|
    ensures Bytes(ws[m..], n - 4 * m) == Bytes(ws, n)[4 * m..]
    ensures Clean(ws, n) ==> Clean(ws[m..], n - 4 * m)
    ensures SameEnd(ws[m..], n - 4 * m, ws, n)
  {
    hide ByteOf;
    forall i: nat ensures At(ws[m..], i) == At(ws, i + 4 * m) {
      assert (i + 4 * m) / 4 == i / 4 + m && (i + 4 * m) % 4 == i % 4;
    }
  }

  // ---------------------------------------------------------------- endianness

  /** `(((w << 8) | (w >>> 24)) & 0x00ff00ff) | (((w << 24) | (w >>> 8)) & 0xff00ff00)` */
  function SwapEndian(w: Word): Word {
    (((w << 8) | (w >> 24)) & 0x00ff_00ff) | (((w << 24) | (w >> 8)) & 0xff00_ff00)
  }

  lemma SwapsBytes(w: Word, k: nat)
    requires k < 4
    ensures ByteOf(SwapEndian(w), k) == ByteOf(w, 3 - k)
  {
    if k == 0 {} else if k == 1 {} else if k == 2 {} else {}
  }

  lemma SwapTwice(w: Word)
    ensures SwapEndian(SwapEndian(w)) == w
  {}

  /** The words spell `mine`, then the first `i` bytes of `other`, then zeros. */
  ghost predicate Spelled(ws: seq<Word>, mine: seq<Byte>, other: seq<Byte>, n: nat, i: nat) {
    && |mine| == n && i <= |other| && |ws| == WordCount(n + i)
    && forall j: nat :: At(ws, j) == if j < n then mine[j] else if j < n + i then other[j - n] else 0
  }

  lemma NothingSpelled(ws: seq<Word>, mine: seq<Byte>, other: seq<Byte>, n: nat)
    requires |mine| == n && mine == Bytes(ws, n) && Clean(ws, n) && |ws| == WordCount(n)
    ensures Spelled(ws, mine, other, n, 0)
  {
    hide At;
    assert forall j: nat :: j < n ==> mine[j] == At(ws, j);
  }

  lemma SpelledByte(ws: seq<Word>, mine: seq<Byte>, other: seq<Byte>, n: nat, i: nat, j: nat)
    requires Spelled(ws, mine, other, n, i) && j < n + i
    ensures At(ws, j) == if j < n then mine[j] else other[j - n]
  {
    hide At;
  }

  lemma SpelledNext(ws: seq<Word>, mine: seq<Byte>, other: seq<Byte>, n: nat, i: nat)
    requires Spelled(ws, mine, other, n, i) && i < |other|
    ensures Spelled(OrAt(ws, n + i, other[i]), mine, other, n, i + 1)
  {
    hide At, OrAt;
    var r := OrAt(ws, n + i, other[i]);
    assert |r| == WordCount(n + i + 1);
    forall j: nat
      ensures At(r, j) == if j < n then mine[j] else if j < n + i + 1 then other[j - n] else 0
    {
      OrAtByte(ws, n + i, other[i], j);
      if j < n + i { SpelledByte(ws, mine, other, n, i, j); }
    }
  }

  lemma AllSpelled(ws: seq<Word>, mine: seq<Byte>, other: seq<Byte>, n: nat, m: nat)
    requires Spelled(ws, mine, other, n, m) && m == |other|
    ensures Bytes(ws, n + m) == mine + other && Clean(ws, n + m) && |ws| == WordCount(n + m)
  {
    hide At;
  }

  /** What lies past the end when the `m` bytes of `other` have been appended to `n` bytes: the
      rest of the last word of `other`, or nothing where bytes were copied one by one. */
  ghost predicate EndsAs(ws: seq<Word>, n: nat, other: seq<Word>, m: nat) {
    forall j: nat :: n + m <= j ==> At(ws, j) == if n % 4 == 0 && j < n + 4 * WordCount(m) then At(other, j - n) else 0
  }

  /** No bit past byte `n` in the word that holds it; words beyond it do not matter. */
  ghost predicate EndClean(ws: seq<Word>, n: nat) {
    forall j: nat :: n <= j < 4 * WordCount(n) ==> At(ws, j) == 0
  }

  lemma TidyWhen(ws: seq<Word>, n: nat, other: seq<Word>, m: nat)
    requires EndsAs(ws, n, other, m)
    ensures Clean(ws, n + m) <==> n % 4 != 0 || EndClean(other, m)
  {
    hide At;
    if Clean(ws, n + m) && n % 4 == 0 {
      forall j: nat | m <= j < 4 * WordCount(m) ensures At(other, j) == 0 {
        assert At(ws, n + j) == At(other, n + j - n);
      }
    }
  }

  /** A word with a bit set behind its first byte. */
  lemma JunkInOne()
    ensures !EndClean([1], 1)
  {
    AtDef([1], 3);
    assert ByteOf(1, 3) == 1;
    hide At, ByteOf;
    assert At([1], 3) != 0;
  }

  /** Appended to an empty array, such a word keeps its junk. */
  method JunkSurvives() returns (a: WordArray)
    ensures fresh(a) && a.Content() == Bytes([1], 1) && !a.Tidy()
  {
    hide Bytes, EndClean, Clean;
    a := new WordArray([], 0);
    var one := new WordArray([1], 1);
    JunkInOne();
    assert a.Content() == [];
    a.Concat(one);
  }

  class WordArray {
    var words: seq<Word>
    var sigBytes: nat

    function Content(): (r: seq<Byte>)
      reads this
    {
      Bytes(words, sigBytes)
    }

    /** No bit past the significant bytes is set. */
    ghost predicate Tidy()
      reads this
    {
      Clean(words, sigBytes)
    }

    constructor (words: seq<Word>, sigBytes: nat)
      ensures this.words == words && this.sigBytes == sigBytes
    {
      this.words, this.sigBytes := words, sigBytes;
    }

    method Clamp()
      modifies this`words
      ensures Content() == old(Content()) && Tidy() && |words| == WordCount(sigBytes)
      ensures words == Clamped(old(words), sigBytes)
    {
      ClampedBytes(words, sigBytes);
      words := Put(words, sigBytes / 4, Keep(Get(words, sigBytes / 4), sigBytes % 4));
      words := words[..WordCount(sigBytes)];
    }

    /** Appends the significant bytes of `that`, which may be this very array and may carry
        any bits past its own end. Such bits survive only on the word-wise path, and only those
        of the word in which `that` ends. */
    method Concat(that: WordArray)
      modifies this
      ensures Content() == old(Content()) + old(that.Content())
      ensures |words| == WordCount(sigBytes)
      ensures EndsAs(words, old(sigBytes), old(that.words), old(that.sigBytes))
      ensures Tidy() <==> old(sigBytes) % 4 != 0 || EndClean(old(that.words), old(that.sigBytes))
    {
      ghost var n, other, m := sigBytes, that.words, that.sigBytes;
      if sigBytes % 4 != 0 {
        ConcatBytes(that);
      } else {
        ConcatWords(that);
      }
      TidyWhen(words, n, other, m);
    }

    method ConcatBytes(that: WordArray)
      requires sigBytes % 4 != 0
      modifies this
      ensures Content() == old(Content()) + old(that.Content())
      ensures |words| == WordCount(sigBytes) && Tidy()
      ensures sigBytes == old(sigBytes + that.sigBytes) && EndsAs(words, old(sigBytes), old(that.words), old(that.sigBytes))
    {
      hide At, OrAt, Clamped, Spelled;
      var n, m := sigBytes, that.sigBytes;
      ghost var mine, other := Content(), that.Content();
      Clamp();
      NothingSpelled(words, mine, other, n);
      var i := 0;
      while i < m
        invariant 0 <= i <= m && sigBytes == n && that.sigBytes == m
        invariant that != this ==> that.words == old(that.words)
        invariant Spelled(words, mine, other, n, i)
      {
        var b := At(that.words, i);
        assert b == other[i] by { if that == this { SpelledByte(words, mine, other, n, i, i); } }
        SpelledNext(words, mine, other, n, i);
        words := OrAt(words, n + i, b);
        i := i + 1;
      }
      sigBytes := n + m;
      AllSpelled(words, mine, other, n, m);
    }

    method ConcatWords(that: WordArray)
      requires sigBytes % 4 == 0
      modifies this
      ensures Content() == old(Content()) + old(that.Content())
      ensures |words| == WordCount(sigBytes)
      ensures sigBytes == old(sigBytes + that.sigBytes) && EndsAs(words, old(sigBytes), old(that.words), old(that.sigBytes))
    {
      hide At, Clamped, Put, Clean, Bytes, EndsAs;
      var n, m := sigBytes, that.sigBytes;
      ghost var mine, other := words, that.words;
      Clamp();
      ClampedAligned(mine, n);
      var i := 0;
      while i < m
        invariant i % 4 == 0 && 0 <= i < m + 4 && sigBytes == n && that.sigBytes == m
        invariant |words| == (n + i) / 4
        invariant that != this ==> that.words == other
        invariant forall k: nat :: Get(words, k) == if k < n / 4 then Get(mine, k) else if k < (n + i) / 4 then Get(other, k - n / 4) else 0
      {
        words := Put(words, (n + i) / 4, Get(that.words, i / 4));
        i := i + 4;
      }
      sigBytes := n + m;
      WordwiseBytes(words, mine, n, other, m, i);
    }
  }

  lemma ClampedAligned(ws: seq<Word>, n: nat)
    requires n % 4 == 0
    ensures forall k: nat :: Get(Clamped(ws, n), k) == if k < n / 4 then Get(ws, k) else 0
  {
    hide *;
    forall k: nat ensures Get(Clamped(ws, n), k) == if k < n / 4 then Get(ws, k) else 0 {
      ClampedGet(ws, n, k);
    }
  }

  lemma WordwiseBytes(ws: seq<Word>, mine: seq<Word>, n: nat, other: seq<Word>, m: nat, i: nat)
    requires n % 4 == 0 && i % 4 == 0 && m <= i < m + 4 && |ws| == (n + i) / 4
    requires forall k: nat :: Get(ws, k) == if k < n / 4 then Get(mine, k) else if k < (n + i) / 4 then Get(other, k - n / 4) else 0
    ensures Bytes(ws, n + m) == Bytes(mine, n) + Bytes(other, m)
    ensures |ws| == WordCount(n + m)
    ensures EndsAs(ws, n, other, m)
  {
    hide At, Get;
    forall j: nat ensures At(ws, j) == if j < n then At(mine, j) else if j < n + i then At(other, j - n) else 0 {
      AtShift(ws, mine, other, n, i, j);
    }
    assert Bytes(ws, n + m) == Bytes(mine, n) + Bytes(other, m);
  }

  /** Word-wise concatenation, seen byte by byte. */
  lemma AtShift(ws: seq<Word>, mine: seq<Word>, other: seq<Word>, n: nat, i: nat, j: nat)
    requires n % 4 == 0 && i % 4 == 0
    requires Get(ws, j / 4) == if j / 4 < n / 4 then Get(mine, j / 4) else if j / 4 < (n + i) / 4 then Get(other, j / 4 - n / 4) else 0
    ensures At(ws, j) == if j < n then At(mine, j) else if j < n + i then At(other, j - n) else 0
  {
    hide ByteOf, Get;
    ZeroBytes(j % 4);
    if n <= j < n + i {
      assert (j - n) / 4 == j / 4 - n / 4 && (j - n) % 4 == j % 4;
    }
  }
}
