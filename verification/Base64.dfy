/** Base64 as the bundle writes it and reads it back. Reading ORs up to twelve bits at each
    byte position, so part of every second and third character lands in the byte before. */
module Base64 {
  import opened JsNumbers
  import opened WordArrays
  import opened WordNumbers
  import opened Padding

  /** `_map`: the 64 letters and the padding character. */
  const MAP: string := "ABCDEFGHIJKLM" + "NOPQRSTUVWXYZ" + "abcdefghijklm" + "nopqrstuvwxyz" + "0123456789+/="

  /** `s.indexOf(c)`, from position `i` on. */
  function IndexOf(s: string, c: char, i: nat): (r: int)
    requires i <= |s|
    ensures r == -1 || i <= r < |s|
    decreases |s| - i
  {
    if i == |s| then -1 else if s[i] == c then i else IndexOf(s, c, i + 1)
  }

  function Code(k: nat): int {
    if k < 26 then 65 + k else if k < 52 then 71 + k else if k < 62 then k - 4 else if k == 62 then 43 else if k == 63 then 47 else 61
  }

  lemma Segment0(k: nat)
    requires 0 <= k < 13
    ensures |MAP| == 65 && MAP[k] as int == Code(k)
  {
    var s := "ABCDEFGHIJKLM";
    assert |s| == 13 && MAP[k] == s[k - 0];
  }

  lemma Segment1(k: nat)
    requires 13 <= k < 26
    ensures |MAP| == 65 && MAP[k] as int == Code(k)
  {
    var s := "NOPQRSTUVWXYZ";
    assert |s| == 13 && MAP[k] == s[k - 13];
  }

  lemma Segment2(k: nat)
    requires 26 <= k < 39
    ensures |MAP| == 65 && MAP[k] as int == Code(k)
  {
    var s := "abcdefghijklm";
    assert |s| == 13 && MAP[k] == s[k - 26];
  }

  lemma Segment3(k: nat)
    requires 39 <= k < 52
    ensures |MAP| == 65 && MAP[k] as int == Code(k)
  {
    var s := "nopqrstuvwxyz";
    assert |s| == 13 && MAP[k] == s[k - 39];
  }

  lemma Segment4(k: nat)
    requires 52 <= k < 65
    ensures |MAP| == 65 && MAP[k] as int == Code(k)
  {
    var s := "0123456789+/=";
    assert |s| == 13 && MAP[k] == s[k - 52];
  }

  lemma MapCode(k: nat)
    requires k < 65
    ensures |MAP| == 65 && MAP[k] as int == Code(k)
  {
    hide *;
    if k < 13 { Segment0(k); } else if k < 26 { Segment1(k); } else if k < 39 { Segment2(k); }
    else if k < 52 { Segment3(k); } else { Segment4(k); }
  }

  lemma {:induction false} FoundAt(s: string, k: nat, i: nat)
    requires i <= k < |s| && forall j: nat :: j < k ==> s[j] != s[k]
    ensures IndexOf(s, s[k], i) == k
    decreases k - i
  {
    if i < k { FoundAt(s, k, i + 1); }
  }

  /** The letters are distinct, so `indexOf` inverts `charAt`. */
  lemma MapIndex(k: nat)
    requires k < 65
    ensures |MAP| == 65 && IndexOf(MAP, MAP[k], 0) == k
  {
    MapCode(k);
    forall j: nat | j < k ensures MAP[j] != MAP[k] { MapCode(j); }
    FoundAt(MAP, k, 0);
  }

  // ---------------------------------------------------------------- sextets

  function Six(w: Word): Word { w & 0x3f }

  /** A sextet as the low six bits of a word, and its letter. */
  lemma SixBits(v: Word)
    ensures Num(v & 0x3f) < 64 && Bits(Num(v & 0x3f)) == v & 0x3f
  {
    BitsNum(v & 0x3f);
    NumBelow(v & 0x3f, 0x3f);
    Num3F();
  }

  lemma Num3F()
    ensures Num(0x3f) == 63
  {
    assert Num(0) == 0;
    hide *;
    NumAppend(0x0, true);
    NumAppend(0x1, true);
    NumAppend(0x3, true);
    NumAppend(0x7, true);
    NumAppend(0xF, true);
    NumAppend(0x1F, true);
    assert Append(0x1F, true) == 0x3F;
  }

  /** `map.charAt(v & 0x3f)` */
  function Letter(v: Word): char {
    MapCode(0);
    SixBits(v);
    MAP[Num(v & 0x3f)]
  }

  /** `map.indexOf(c)` as an operand of a shift. */
  function Value(c: char): Word {
    Bits(IndexOf(MAP, c, 0))
  }

  lemma ValueOfLetter(v: Word)
    ensures Value(Letter(v)) == Six(v) && 0 <= IndexOf(MAP, Letter(v), 0) < 64
  {
    hide Num, Bits, IndexOf;
    SixBits(v);
    MapIndex(Num(v & 0x3f));
  }

  /** A letter of the alphabet, not the padding character. */
  predicate IsLetter(c: char) {
    0 <= IndexOf(MAP, c, 0) < 64
  }

  lemma LetterBits(c: char)
    requires IsLetter(c)
    ensures Value(c) & 0x3f == Value(c)
  {
    hide Num, FromNat, IndexOf;
    Num3F();
    assert IndexOf(MAP, c, 0) % TWO32 == IndexOf(MAP, c, 0);
    FromNatBelow(IndexOf(MAP, c, 0), 0x3f);
  }

  // ---------------------------------------------------------------- stringify

  function Triplet(b1: Byte, b2: Byte, b3: Byte): Word {
    ((b1 as Word) << 16) | ((b2 as Word) << 8) | (b3 as Word)
  }

  /** `triplet >>> (6 * (3 - j))` */
  function Sextet(t: Word, j: nat): Word
    requires j < 4
  {
    if j == 0 then t >> 18 else if j == 1 then t >> 12 else if j == 2 then t >> 6 else t
  }

  function ByteOr0(b: seq<Byte>, k: nat): Byte {
    if k < |b| then b[k] else 0
  }

  /** Sextet `i` of a byte string (section 4 of RFC 4648), not yet cut to six bits. */
  function TextSextet(b: seq<Byte>, i: nat): Word {
    var k := 3 * (i / 4);
    Sextet(Triplet(ByteOr0(b, k), ByteOr0(b, k + 1), ByteOr0(b, k + 2)), i % 4)
  }

  /** Letters for `n` bytes: four for every three, two or three for what remains. */
  function LetterCount(n: nat): nat {
    (4 * n + 2) / 3
  }

  function Letters(b: seq<Byte>, count: nat): (r: string)
    ensures |r| == count
  {
    seq(count, i requires 0 <= i => Letter(TextSextet(b, i)))
  }

  function PadChars(n: nat): string {
    if n % 4 == 0 then "" else if n % 4 == 1 then "===" else if n % 4 == 2 then "==" else "="
  }

  /** The reference text of a byte string. */
  function Text(b: seq<Byte>): string {
    Letters(b, LetterCount(|b|)) + PadChars(LetterCount(|b|))
  }

  lemma LettersSnoc(b: seq<Byte>, k: nat)
    ensures Letters(b, k + 1) == Letters(b, k) + [Letter(TextSextet(b, k))]
  {
    hide Letter, TextSextet;
  }

  method Stringify(wordArray: WordArray) returns (s: string)
    modifies wordArray
    ensures s == Text(old(wordArray.Content()))
    ensures wordArray.Content() == old(wordArray.Content())
  {
    hide Letter, Triplet, Sextet, Bytes, At, Clean, Letters, ByteOr0, PadChars;
    ghost var b := wordArray.Content();
    wordArray.Clamp();
    var words, sigBytes := wordArray.words, wordArray.sigBytes;
    assert b == Bytes(words, sigBytes);
    var chars: string := [];
    var i := 0;
    while i < sigBytes
      invariant i % 3 == 0 && i < sigBytes + 3 && Clean(words, sigBytes)
      invariant wordArray.words == words && wordArray.sigBytes == sigBytes
      invariant chars == Letters(b, if i < sigBytes then 4 * (i / 3) else LetterCount(sigBytes))
      decreases sigBytes - i
    {
      var triplet := Triplet(At(words, i), At(words, i + 1), At(words, i + 2));
      CleanByte(words, sigBytes, b, i);
      CleanByte(words, sigBytes, b, i + 1);
      CleanByte(words, sigBytes, b, i + 2);
      chars := StringifyTriplet(b, sigBytes, i, triplet, chars);
      i := i + 3;
    }
    s := PadOut(chars);
  }

  /** Padding characters up to a multiple of four. */
  method PadOut(letters: string) returns (s: string)
    ensures s == letters + PadChars(|letters|)
  {
    s := letters;
    while |s| % 4 != 0
      invariant |letters| <= |s| <= (|letters| + 3) / 4 * 4
      invariant s == letters + seq(|s| - |letters|, _ => '=')
      decreases (|letters| + 3) / 4 * 4 - |s|
    {
      s := s + ['='];
    }
  }

  /** The inner loop: the letters of one triplet, as far as the bytes reach. */
  method StringifyTriplet(ghost b: seq<Byte>, sigBytes: nat, i: nat, triplet: Word, before: string) returns (chars: string)
    requires i % 3 == 0 && i < sigBytes == |b|
    requires triplet == Triplet(ByteOr0(b, i), ByteOr0(b, i + 1), ByteOr0(b, i + 2))
    requires before == Letters(b, 4 * (i / 3))
    ensures chars == Letters(b, if i + 3 < |b| then 4 * (i / 3) + 4 else LetterCount(|b|))
  {
    hide Letter, Triplet, Sextet, ByteOr0, Letters;
    chars := before;
    var j := 0;
    ghost var first := 4 * (i / 3);
    while j < 4 && 4 * i + 3 * j < 4 * sigBytes
      invariant 0 <= j <= 4 && 4 * i + 3 * j < 4 * sigBytes + 3
      invariant chars == Letters(b, first + j)
    {
      assert (first + j) / 4 == i / 3 && (first + j) % 4 == j;
      LettersSnoc(b, first + j);
      chars := chars + [Letter(Sextet(triplet, j))];
      j := j + 1;
    }
  }

  lemma CleanByte(words: seq<Word>, n: nat, b: seq<Byte>, k: nat)
    requires b == Bytes(words, n) && Clean(words, n)
    ensures At(words, k) == ByteOr0(b, k)
  {
    hide At;
  }

  // ---------------------------------------------------------------- parse

  /** `bits1 | bits2` for two neighbouring characters at position `r` of their group; up to
      twelve bits. */
  function Joined(v0: Word, v1: Word, r: nat): Word
    requires r < 4
  {
    (v0 << (r * 2)) | (v1 >> (6 - r * 2))
  }

  /** `x << (24 - k * 8)`, where `x` may be wider than a byte. */
  function Wide(x: Word, k: nat): Word
    requires k < 4
  {
    if k == 0 then x << 24 else if k == 1 then x << 16 else if k == 2 then x << 8 else x
  }

  function Low(x: Word): Byte { (x & 0xff) as Byte }

  function Next(x: Word): Byte { ((x >> 8) & 0xff) as Byte }

  function OrB(a: Byte, b: Byte): Byte { a | b }

  /** A wide OR at byte `k` also reaches byte `k - 1`, and no further. */
  lemma OrWideBytes(w: Word, x: Word, k: nat, j: nat)
    requires k < 4 && j < 4 && x & 0xfff == x
    ensures ByteOf(w | Wide(x, k), j) ==
            if j == k then OrB(ByteOf(w, j), Low(x)) else if j + 1 == k then OrB(ByteOf(w, j), Next(x)) else ByteOf(w, j)
  {
    WideBytes(x, k, j);
    OrZeroRight(ByteOf(w, j));
    hide ByteOf, Low, Next, Wide;
    OrBytes(w, Wide(x, k), j);
  }

  lemma OrZeroRight(b: Byte)
    ensures OrB(b, 0) == b
  {}

  lemma WideBytes(x: Word, k: nat, j: nat)
    requires k < 4 && j < 4 && x & 0xfff == x
    ensures ByteOf(Wide(x, k), j) == if j == k then Low(x) else if j + 1 == k then Next(x) else 0
  {
    hide ByteOf, Low, Next;
    if k == 0 { WideAt0(x, j); } else if k == 1 { WideAt1(x, j); } else if k == 2 { WideAt2(x, j); } else { WideAt3(x, j); }
  }

  lemma WideAt0(x: Word, j: nat)
    requires j < 4 && x & 0xfff == x
    ensures ByteOf(x << 24, j) == if j == 0 then Low(x) else 0
  {
    if j == 0 {} else if j == 1 {} else if j == 2 {} else {}
  }

  lemma WideAt1(x: Word, j: nat)
    requires j < 4 && x & 0xfff == x
    ensures ByteOf(x << 16, j) == if j == 1 then Low(x) else if j == 0 then Next(x) else 0
  {
    if j == 0 {} else if j == 1 {} else if j == 2 {} else {}
  }

  lemma WideAt2(x: Word, j: nat)
    requires j < 4 && x & 0xfff == x
    ensures ByteOf(x << 8, j) == if j == 2 then Low(x) else if j == 1 then Next(x) else 0
  {
    if j == 0 {} else if j == 1 {} else if j == 2 {} else {}
  }

  lemma WideAt3(x: Word, j: nat)
    requires j < 4 && x & 0xfff == x
    ensures ByteOf(x, j) == if j == 3 then Low(x) else if j == 2 then Next(x) else 0
  {
    if j == 0 {} else if j == 1 {} else if j == 2 {} else {}
  }

  lemma JoinedTwelveBits(v0: Word, v1: Word, r: nat)
    requires 0 < r < 4 && v0 & 0x3f == v0 && v1 & 0x3f == v1
    ensures Joined(v0, v1, r) & 0xfff == Joined(v0, v1, r)
  {
    if r == 1 {} else if r == 2 {} else {}
  }

  /** The spill is nothing at the first position, and what is already there at the others. */
  lemma SpillAbsorbed(u: Word, v0: Word, v1: Word, r: nat)
    requires 0 < r < 4 && v0 & 0x3f == v0 && v1 & 0x3f == v1
    ensures r == 1 ==> Next(Joined(v0, v1, 1)) == 0
    ensures r > 1 ==> OrB(Low(Joined(u, v0, r - 1)), Next(Joined(v0, v1, r))) == Low(Joined(u, v0, r - 1))
  {
    if r == 1 {} else if r == 2 {} else {}
  }

  /** Where the text ends: at the first padding character. */
  function TextLength(s: string): nat {
    if IndexOf(s, '=', 0) == -1 then |s| else IndexOf(s, '=', 0)
  }

  lemma TextLengthFits(s: string)
    ensures TextLength(s) <= |s|
  {}

  lemma {:induction false} FirstFound(s: string, c: char, i: nat)
    requires i <= |s|
    ensures var r := IndexOf(s, c, i); if r == -1 then c !in s[i..] else i <= r < |s| && s[r] == c && c !in s[i..r]
    decreases |s| - i
  {
    if i < |s| && s[i] != c {
      FirstFound(s, c, i + 1);
      assert s[i..] == [s[i]] + s[i + 1..];
      if IndexOf(s, c, i) != -1 { assert s[i..IndexOf(s, c, i)] == [s[i]] + s[i + 1..IndexOf(s, c, i)]; }
    }
  }

  /** What counts of a text reaches up to the first padding character, or to its end. */
  lemma TextEnds(s: string)
    ensures var n := TextLength(s); n <= |s| && '=' !in s[..n] && (n == |s| || s[n] == '=')
  {
    FirstFound(s, '=', 0);
    assert s[0..] == s;
    hide IndexOf;
  }

  ghost predicate AllLetters(s: string) {
    forall i: nat :: i < |s| ==> IsLetter(s[i])
  }

  /** Characters at positions that are not the first of a group of four complete one byte each. */
  function DecodedCount(n: nat): nat {
    n - (n + 3) / 4
  }

  /** Byte `n` of the decoded text: the eight bits that start at bit `8 * n` of the sextets
      (section 4 of RFC 4648). */
  function DecodedByte(s: string, n: nat): Byte
    requires n < DecodedCount(|s|)
  {
    var i := n + n / 3;
    Low(Joined(Value(s[i]), Value(s[i + 1]), n % 3 + 1))
  }

  function Decoded(s: string): (b: seq<Byte>)
    ensures |b| == DecodedCount(|s|)
  {
    seq(DecodedCount(|s|), n requires 0 <= n < DecodedCount(|s|) => DecodedByte(s, n))
  }

  /** `words[n >>> 2] |= x << (24 - (n % 4) * 8)` */
  function OrWideAt(ws: seq<Word>, n: nat, x: Word): (r: seq<Word>)
    ensures |r| == (if n / 4 < |ws| then |ws| else n / 4 + 1)
  {
    Put(ws, n / 4, Get(ws, n / 4) | Wide(x, n % 4))
  }

  lemma OrWideAtByte(ws: seq<Word>, n: nat, x: Word, j: nat)
    requires x & 0xfff == x
    ensures At(OrWideAt(ws, n, x), j) ==
            if j == n then OrB(At(ws, j), Low(x))
            else if j + 1 == n && n % 4 != 0 then OrB(At(ws, j), Next(x))
            else At(ws, j)
  {
    hide ByteOf, Wide, Get, Put, Low, Next, OrB;
    if j / 4 == n / 4 {
      OrWideBytes(Get(ws, n / 4), x, n % 4, j % 4);
    }
  }

  /** Every byte decoded so far, and nothing after. */
  ghost predicate DecodedTo(ws: seq<Word>, s: string, n: nat) {
    && n <= DecodedCount(|s|) && |ws| == WordCount(n)
    && forall j: nat :: At(ws, j) == if j < n then DecodedByte(s, j) else 0
  }

  /** The character at `i` adds its byte; what it spills is already there. */
  lemma ParseStep(ws: seq<Word>, s: string, i: nat)
    requires i < |s| && i % 4 != 0 && AllLetters(s) && DecodedTo(ws, s, DecodedCount(i))
    ensures DecodedTo(OrWideAt(ws, DecodedCount(i), Joined(Value(s[i - 1]), Value(s[i]), i % 4)), s, DecodedCount(i + 1))
  {
    hide At, Wide, OrWideAt, Value, IsLetter, Low, Next, OrB, Joined, IndexOf;
    var n, r := DecodedCount(i), i % 4;
    var u, v := Value(s[i - 1]), Value(s[i]);
    var x := Joined(u, v, r);
    assert n / 3 == i / 4 && n % 3 == r - 1 && n + n / 3 + 1 == i;
    LetterBits(s[i - 1]);
    LetterBits(s[i]);
    JoinedTwelveBits(u, v, r);
    assert DecodedByte(s, n) == Low(x);
    forall j: nat ensures At(OrWideAt(ws, n, x), j) == if j < n + 1 then DecodedByte(s, j) else 0 {
      OrWideAtByte(ws, n, x, j);
      OrZeroRight(Low(x));
      OrZeroLeft(Low(x));
      if j + 1 == n && n % 4 != 0 {
        if r > 1 {
          assert j / 3 == i / 4 && j % 3 + 1 == r - 1 && j + j / 3 == i - 2;
          LetterBits(s[i - 2]);
          SpillAbsorbed(Value(s[i - 2]), u, v, r);
        } else {
          SpillAbsorbed(u, u, v, r);
          OrZeroRight(At(ws, j));
        }
      }
    }
  }

  lemma OrZeroLeft(b: Byte)
    ensures OrB(0, b) == b
  {}

  method Parse(base64Str: string) returns (wordArray: WordArray)
    ensures fresh(wordArray) && TextLength(base64Str) <= |base64Str|
    ensures wordArray.sigBytes == DecodedCount(TextLength(base64Str))
    ensures AllLetters(base64Str[..TextLength(base64Str)]) ==>
              wordArray.Content() == Decoded(base64Str[..TextLength(base64Str)]) && wordArray.Tidy()
  {
    hide At, DecodedByte, DecodedCount, AllLetters, Decoded, TextLength, IndexOf;
    var base64StrLength := EndOfText(base64Str);
    ghost var s := base64Str[..base64StrLength];
    var words: seq<Word> := [];
    var nBytes := 0;
    var i := 0;
    CountZero();
    assert DecodedTo(words, s, 0) by {
      forall j: nat ensures At(words, j) == 0 { ZeroAt(words, j); }
    }
    hide *;
    while i < base64StrLength
      invariant 0 <= i <= base64StrLength && nBytes == DecodedCount(i)
      invariant AllLetters(s) ==> DecodedTo(words, s, nBytes)
    {
      CountStep(i);
      if i % 4 != 0 {
        if AllLetters(s) { ParseStep(words, s, i); }
        words := OrWideAt(words, nBytes, Joined(Value(base64Str[i - 1]), Value(base64Str[i]), i % 4));
        nBytes := nBytes + 1;
      }
      i := i + 1;
    }
    wordArray := new WordArray(words, nBytes);
    if AllLetters(s) { DecodedContent(wordArray, s); }
  }

  /** The length of the text without its padding. */
  method EndOfText(base64Str: string) returns (base64StrLength: nat)
    ensures base64StrLength == TextLength(base64Str) <= |base64Str|
  {
    base64StrLength := |base64Str|;
    var paddingIndex := IndexOf(base64Str, '=', 0);
    if paddingIndex != -1 {
      base64StrLength := paddingIndex;
    }
  }

  lemma CountStep(i: nat)
    ensures DecodedCount(i + 1) == if i % 4 != 0 then DecodedCount(i) + 1 else DecodedCount(i)
  {}

  lemma CountZero()
    ensures DecodedCount(0) == 0
  {}

  lemma ZeroAt(ws: seq<Word>, j: nat)
    requires ws == []
    ensures At(ws, j) == 0
  {
    ZeroBytes(j % 4);
  }

  lemma DecodedContent(w: WordArray, s: string)
    requires w.sigBytes == DecodedCount(|s|) && DecodedTo(w.words, s, w.sigBytes)
    ensures w.Content() == Decoded(s) && w.Tidy()
  {
    hide At, DecodedByte;
  }

  // ---------------------------------------------------------------- round trip

  /** Two neighbouring sextets of a triplet give back the byte they share. */
  lemma SextetsRejoin(b1: Byte, b2: Byte, b3: Byte, r: nat)
    requires r < 3
    ensures var t := Triplet(b1, b2, b3);
            Low(Joined(Six(Sextet(t, r)), Six(Sextet(t, r + 1)), r + 1)) == if r == 0 then b1 else if r == 1 then b2 else b3
  {
    if r == 0 {} else if r == 1 {} else {}
  }

  /** The value read back for letter `r` of group `q`. */
  lemma GroupValue(b: seq<Byte>, count: nat, q: nat, r: nat)
    requires r < 4 && 4 * q + r < count
    ensures Value(Letters(b, count)[4 * q + r]) ==
            Six(Sextet(Triplet(ByteOr0(b, 3 * q), ByteOr0(b, 3 * q + 1), ByteOr0(b, 3 * q + 2)), r))
  {
    hide Value, Letter, Sextet, Triplet, ByteOr0, Six;
    assert (4 * q + r) / 4 == q && (4 * q + r) % 4 == r;
    ValueOfLetter(TextSextet(b, 4 * q + r));
  }

  lemma DecodedText(b: seq<Byte>, q: nat, r: nat)
    requires r < 3 && 3 * q + r < |b|
    ensures DecodedCount(LetterCount(|b|)) == |b|
    ensures DecodedByte(Letters(b, LetterCount(|b|)), 3 * q + r) == b[3 * q + r]
  {
    DecodedAt(Letters(b, LetterCount(|b|)), q, r);
    hide *;
    GroupRejoins(b, LetterCount(|b|), q, r);
  }

  lemma DecodedAt(s: string, q: nat, r: nat)
    requires r < 3 && 3 * q + r < DecodedCount(|s|)
    ensures 4 * q + r + 1 < |s|
    ensures DecodedByte(s, 3 * q + r) == Low(Joined(Value(s[4 * q + r]), Value(s[4 * q + r + 1]), r + 1))
  {
    hide Low, Joined, Value;
    assert (3 * q + r) / 3 == q && (3 * q + r) % 3 == r;
  }

  lemma GroupRejoins(b: seq<Byte>, count: nat, q: nat, r: nat)
    requires r < 3 && 4 * q + r + 1 < count
    ensures var s := Letters(b, count);
            Low(Joined(Value(s[4 * q + r]), Value(s[4 * q + r + 1]), r + 1)) == ByteOr0(b, 3 * q + r)
  {
    hide *;
    GroupValue(b, count, q, r);
    GroupValue(b, count, q, r + 1);
    SextetsRejoin(ByteOr0(b, 3 * q), ByteOr0(b, 3 * q + 1), ByteOr0(b, 3 * q + 2), r);
  }

  lemma {:induction false} NotFound(s: string, c: char, i: nat)
    requires i <= |s| && c !in s
    ensures IndexOf(s, c, i) == -1
    decreases |s| - i
  {
    if i < |s| { NotFound(s, c, i + 1); }
  }

  lemma NoLetterPads(v: Word)
    ensures Letter(v) != '=' && IsLetter(Letter(v))
  {
    hide IndexOf, Letter;
    ValueOfLetter(v);
    MapIndex(64);
    MapCode(64);
  }

  /** The text written for `b` ends, for the reader, after exactly its letters. */
  lemma TextPrefix(b: seq<Byte>)
    ensures var n := LetterCount(|b|);
            TextLength(Text(b)) == n && Text(b)[..n] == Letters(b, n) && AllLetters(Letters(b, n))
  {
    hide Letter, TextSextet, IsLetter, IndexOf;
    var n, s := LetterCount(|b|), Text(b);
    forall i: nat | i < n ensures s[i] != '=' && IsLetter(s[i]) {
      NoLetterPads(TextSextet(b, i));
    }
    if n % 4 == 0 {
      NotFound(s, '=', 0);
    } else {
      FoundAt(s, n, 0);
    }
  }

  /** Parsing what `stringify` wrote gives back exactly the bytes, for every length. */
  lemma ParseUndoesStringify(b: seq<Byte>)
    ensures TextLength(Text(b)) <= |Text(b)|
    ensures var s := Text(b)[..TextLength(Text(b))];
            AllLetters(s) && Decoded(s) == b
  {
    hide Letters, TextLength, Text, DecodedByte, IsLetter;
    TextLengthFits(Text(b));
    TextPrefix(b);
    var s := Letters(b, LetterCount(|b|));
    assert |Decoded(s)| == |b|;
    forall k: nat | k < |b| ensures Decoded(s)[k] == b[k] {
      DecodedText(b, k / 3, k % 3);
      assert k == 3 * (k / 3) + k % 3;
    }
  }

  // ---------------------------------------------------------------- section 4 of RFC 4648 in numbers

  /** Table 1 of RFC 4648. */
  lemma AlphabetIs(k: nat)
    requires k < 64
    ensures |MAP| == 65
    ensures k < 26 ==> MAP[k] as int == 'A' as int + k
    ensures 26 <= k < 52 ==> MAP[k] as int == 'a' as int + k - 26
    ensures 52 <= k < 62 ==> MAP[k] as int == '0' as int + k - 52
    ensures (k == 62 ==> MAP[k] == '+') && (k == 63 ==> MAP[k] == '/')
  {
    hide MAP;
    MapCode(k);
  }

  /** Byte `k` as a number; what is missing counts for 0. */
  ghost function NumAt(b: seq<Byte>, k: nat): nat {
    if k < |b| then ByteNum(b[k]) else 0
  }

  /** Three bytes as one number. */
  ghost function Group(b: seq<Byte>, q: nat): nat {
    0x1_0000 * NumAt(b, 3 * q) + 0x100 * NumAt(b, 3 * q + 1) + NumAt(b, 3 * q + 2)
  }

  /** Digit `j` of four to the base 64, the first one the most significant. */
  ghost function Digit64(x: nat, j: nat): (d: nat)
    ensures d < 64
  {
    (if j == 0 then x / 0x4_0000 else if j == 1 then x / 0x1000 else if j == 2 then x / 0x40 else x) % 64
  }

  lemma NumOfBytes(w: Word)
    ensures Num(w) == 0x100_0000 * ByteNum(ByteOf(w, 0)) + 0x1_0000 * ByteNum(ByteOf(w, 1)) + 0x100 * ByteNum(ByteOf(w, 2)) + ByteNum(ByteOf(w, 3))
  {
    hide *;
    FirstByte(w);
    SecondByte(w);
    ThirdByte(w);
    FourthByte(w);
    FourDigits(Num(w));
  }

  lemma FourDigits(x: nat)
    ensures x == 0x100_0000 * (x / 0x100_0000) + 0x1_0000 * (x / 0x1_0000 % 256) + 0x100 * (x / 256 % 256) + x % 256
  {
    assert x / 256 / 256 == x / 0x1_0000 && x / 0x1_0000 / 256 == x / 0x100_0000;
  }

  lemma TripletBytes(b1: Byte, b2: Byte, b3: Byte)
    ensures var t := Triplet(b1, b2, b3);
            ByteOf(t, 0) == 0 && ByteOf(t, 1) == b1 && ByteOf(t, 2) == b2 && ByteOf(t, 3) == b3
  {}

  lemma ByteNum0()
    ensures ByteNum(0) == 0
  {}

  lemma TripletNum(b1: Byte, b2: Byte, b3: Byte)
    ensures Num(Triplet(b1, b2, b3)) == 0x1_0000 * ByteNum(b1) + 0x100 * ByteNum(b2) + ByteNum(b3)
  {
    hide *;
    TripletBytes(b1, b2, b3);
    NumOfBytes(Triplet(b1, b2, b3));
    ByteNum0();
  }

  lemma Sextet0(t: Word)
    ensures Sextet(t, 0) == Shr(Shr(t, 16), 2)
  {
    hide *;
    SextetAt0(t);
    ShrBy16And2(t);
  }

  lemma SextetAt0(t: Word)
    ensures Sextet(t, 0) == Shr(t, 18)
  {}

  lemma ShrBy16And2(t: Word)
    ensures Shr(Shr(t, 16), 2) == Shr(t, 18)
  {}

  lemma Sextet1(t: Word)
    ensures Sextet(t, 1) == Shr(Shr(t, 8), 4)
  {
    hide *;
    SextetAt1(t);
    ShrBy8And4(t);
  }

  lemma SextetAt1(t: Word)
    ensures Sextet(t, 1) == Shr(t, 12)
  {}

  lemma ShrBy8And4(t: Word)
    ensures Shr(Shr(t, 8), 4) == Shr(t, 12)
  {}

  lemma Sextet2(t: Word)
    ensures Sextet(t, 2) == Shr(Shr(t, 4), 2)
  {}

  lemma Sextet3(t: Word)
    ensures Sextet(t, 3) == t
  {}

  lemma SixIs(w: Word)
    ensures Six(w) == And(w, 0x3f) && w & 0x3f == Six(w) && IsMask(0x3f)
  {}

  lemma SixNum(w: Word)
    ensures Num(Six(w)) == Num(w) % 64
  {
    hide *;
    SixIs(w);
    Num3F();
    NumLow(w, 0x3f);
  }

  lemma SextetNum(t: Word, j: nat)
    requires j < 4
    ensures Num(Six(Sextet(t, j))) == Digit64(Num(t), j)
  {
    hide Num, Six, Sextet, Shr;
    SixNum(Sextet(t, j));
    if j == 0 {
      Sextet0(t);
      Shr16(t);
      Shr2(Shr(t, 16));
    } else if j == 1 {
      Sextet1(t);
      Shr8(t);
      Shr4(Shr(t, 8));
    } else if j == 2 {
      Sextet2(t);
      Shr4(t);
      Shr2(Shr(t, 4));
    } else {
      Sextet3(t);
    }
  }

  lemma ByteOr0Num(b: seq<Byte>, k: nat)
    ensures ByteNum(ByteOr0(b, k)) == NumAt(b, k)
  {
    hide ByteNum;
    ByteNum0();
  }

  /** Letter `j` of group `q` stands for six of the 24 bits of three bytes, the first letter for the highest
      ones. */
  lemma LetterIs(b: seq<Byte>, q: nat, j: nat)
    requires j < 4 && 4 * q + j < LetterCount(|b|)
    ensures |MAP| == 65 && Text(b)[4 * q + j] == MAP[Digit64(Group(b, q), j)]
  {
    var t := Triplet(ByteOr0(b, 3 * q), ByteOr0(b, 3 * q + 1), ByteOr0(b, 3 * q + 2));
    assert Text(b)[4 * q + j] == Letter(Sextet(t, j)) by {
      hide Letter, Sextet, Triplet, ByteOr0;
      assert (4 * q + j) / 4 == q && (4 * q + j) % 4 == j;
    }
    LetterOf(Sextet(t, j));
    hide Text, Letter, Sextet, Triplet, ByteOr0, ByteNum, Num, NumAt, MAP, Digit64;
    SextetNum(t, j);
    TripletNum(ByteOr0(b, 3 * q), ByteOr0(b, 3 * q + 1), ByteOr0(b, 3 * q + 2));
    ByteOr0Num(b, 3 * q);
    ByteOr0Num(b, 3 * q + 1);
    ByteOr0Num(b, 3 * q + 2);
  }

  lemma LetterOf(v: Word)
    ensures Num(Six(v)) < 64 && |MAP| == 65 && Letter(v) == MAP[Num(Six(v))]
  {
    SixIs(v);
    SixBits(v);
    MapCode(0);
    hide Num, MAP;
  }

  /** The text comes in groups of four characters for every three bytes or what is left of them; as many
      padding characters as the last group lacks bytes end it. */
  lemma TextShape(b: seq<Byte>)
    ensures var s, pads := Text(b), (3 - |b| % 3) % 3;
            && |s| == 4 * ((|b| + 2) / 3) && |s| == LetterCount(|b|) + pads
            && forall i :: LetterCount(|b|) <= i < |s| ==> s[i] == '='
  {
    hide Letters;
  }

  /** Two neighbouring sextets as one number of twelve bits. */
  function Twelve(v: Word, w: Word): Word { (v << 6) | w }

  lemma TwelveHalves(v: Word, w: Word)
    requires Six(v) == v && Six(w) == w
    ensures Shr(Shr(Twelve(v, w), 4), 2) == v && And(Twelve(v, w), 0x3f) == w
  {}

  lemma TwelveNum(v: Word, w: Word)
    requires Six(v) == v && Six(w) == w
    ensures Num(Twelve(v, w)) == 64 * Num(v) + Num(w)
  {
    hide *;
    TwelveHalves(v, w);
    SixIs(w);
    Num3F();
    var t := Twelve(v, w);
    NumLow(t, 0x3f);
    Shr4(t);
    Shr2(Shr(t, 4));
    SixtyFours(Num(t), Num(v), Num(w));
  }

  lemma SixtyFours(x: nat, a: nat, b: nat)
    requires x / 16 / 4 == a && x % 64 == b
    ensures x == 64 * a + b
  {}

  lemma Joined1(v: Word, w: Word)
    requires Six(v) == v && Six(w) == w
    ensures Low(Joined(v, w, 1)) as Word == And(Shr(Twelve(v, w), 4), 0xff)
  {}

  lemma Joined2(v: Word, w: Word)
    requires Six(v) == v && Six(w) == w
    ensures Low(Joined(v, w, 2)) as Word == And(Shr(Twelve(v, w), 2), 0xff)
  {}

  lemma Joined3(v: Word, w: Word)
    requires Six(v) == v && Six(w) == w
    ensures Low(Joined(v, w, 3)) as Word == And(Twelve(v, w), 0xff)
  {}

  lemma LowByteNum(b: Byte, w: Word)
    requires b as Word == And(w, 0xff)
    ensures ByteNum(b) == Num(w) % 256
  {
    BytesAreLow(w);
    hide Num, And, IsMask, Shr, ByteOf;
    NumFF();
    NumLow(w, 0xff);
  }

  /** Eight bits of twelve: the first, the middle or the last ones. */
  ghost function Eight(x: nat, r: nat): nat {
    (if r == 0 then x / 16 else if r == 1 then x / 4 else x) % 256
  }

  /** Byte `r` of group `q` is eight of the twelve bits of two neighbouring letters, whatever the text. */
  lemma DecodedIs(s: string, q: nat, r: nat)
    requires r < 3 && 3 * q + r < DecodedCount(|s|) && AllLetters(s)
    ensures 4 * q + r + 1 < |s| && IsLetter(s[4 * q + r]) && IsLetter(s[4 * q + r + 1])
    ensures ByteNum(Decoded(s)[3 * q + r]) == Eight(64 * IndexOf(MAP, s[4 * q + r], 0) + IndexOf(MAP, s[4 * q + r + 1], 0), r)
  {
    DecodedAt(s, q, r);
    assert Decoded(s)[3 * q + r] == DecodedByte(s, 3 * q + r) by { hide DecodedByte; }
    hide DecodedByte, DecodedCount, Decoded, IsLetter;
    JoinedIs(s[4 * q + r], s[4 * q + r + 1], r);
  }

  lemma JoinedIs(c: char, d: char, r: nat)
    requires r < 3 && IsLetter(c) && IsLetter(d)
    ensures 0 <= IndexOf(MAP, c, 0) && 0 <= IndexOf(MAP, d, 0)
    ensures ByteNum(Low(Joined(Value(c), Value(d), r + 1))) == Eight(64 * IndexOf(MAP, c, 0) + IndexOf(MAP, d, 0), r)
  {
    hide *;
    LetterBits(c);
    LetterBits(d);
    SixIs(Value(c));
    SixIs(Value(d));
    ValueNum(c);
    ValueNum(d);
    BytesJoined(Value(c), Value(d), r);
  }

  lemma ValueNum(c: char)
    requires IsLetter(c)
    ensures 0 <= IndexOf(MAP, c, 0) && Num(Value(c)) == IndexOf(MAP, c, 0)
  {
    hide Num, Bits, IndexOf, MAP;
    NumBits(IndexOf(MAP, c, 0));
  }

  lemma BytesJoined(v: Word, w: Word, r: nat)
    requires r < 3 && Six(v) == v && Six(w) == w
    ensures ByteNum(Low(Joined(v, w, r + 1))) == Eight(64 * Num(v) + Num(w), r)
  {
    hide *;
    TwelveNum(v, w);
    var t := Twelve(v, w);
    EightIs(Num(t));
    if r == 0 {
      Joined1(v, w);
      LowByteNum(Low(Joined(v, w, 1)), Shr(t, 4));
      Shr4(t);
    } else if r == 1 {
      Joined2(v, w);
      LowByteNum(Low(Joined(v, w, 2)), Shr(t, 2));
      Shr2(t);
    } else {
      Joined3(v, w);
      LowByteNum(Low(Joined(v, w, 3)), t);
    }
  }

  lemma EightIs(x: nat)
    ensures Eight(x, 0) == x / 16 % 256 && Eight(x, 1) == x / 4 % 256 && Eight(x, 2) == x % 256
  {}
}
