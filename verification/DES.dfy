/** DES and TripleDES: bit-exchange permutations around sixteen Feistel rounds. The S-box
    tables (already composed with the round permutation) and the subkeys are parameters. */
module DES {
  import opened WordArrays
  import opened BlockModes

  /** `_lBlock` and `_rBlock`. */
  datatype Halves = Halves(l: Word, r: Word)

  /** Entry of table `i` for a masked word. */
  type Tables = (nat, Word) -> Word

  // ---------------------------------------------------------------- bit exchanges

  /** The bits where `a`, shifted, and `b` differ under the mask. */
  function Differing(a: Word, b: Word, offset: nat, mask: Word): Word
    requires offset <= 32
  {
    ((a >> offset) ^ b) & mask
  }

  function ShiftUp(t: Word, offset: nat): Word
    requires offset <= 32
  {
    t << offset
  }

  /** `a ^= t << offset` and `b ^= t` for those bits `t`. */
  function Upper(a: Word, b: Word, offset: nat, mask: Word): Word
    requires offset <= 32
  {
    Xor(a, ShiftUp(Differing(a, b, offset, mask), offset))
  }

  function Lower(a: Word, b: Word, offset: nat, mask: Word): Word
    requires offset <= 32
  {
    Xor(b, Differing(a, b, offset, mask))
  }

  function ExchangeLR(h: Halves, offset: nat, mask: Word): Halves
    requires offset <= 32
  {
    Halves(Upper(h.l, h.r, offset, mask), Lower(h.l, h.r, offset, mask))
  }

  function ExchangeRL(h: Halves, offset: nat, mask: Word): Halves
    requires offset <= 32
  {
    Halves(Lower(h.r, h.l, offset, mask), Upper(h.r, h.l, offset, mask))
  }

  function InitialPermutation(h: Halves): Halves {
    ExchangeLR(ExchangeRL(ExchangeRL(ExchangeLR(ExchangeLR(h, 4, 0x0f0f_0f0f), 16, 0x0000_ffff), 2, 0x3333_3333), 8, 0x00ff_00ff), 1, 0x5555_5555)
  }

  function FinalPermutation(h: Halves): Halves {
    ExchangeLR(ExchangeLR(ExchangeRL(ExchangeRL(ExchangeLR(h, 1, 0x5555_5555), 8, 0x00ff_00ff), 2, 0x3333_3333), 16, 0x0000_ffff), 4, 0x0f0f_0f0f)
  }

  /** The five exchanges the cipher uses; none of them shifts a masked bit out of the word. */
  predicate Used(offset: nat, mask: Word)
    ensures Used(offset, mask) ==> offset <= 32
  {
    || (offset == 1 && mask == 0x5555_5555) || (offset == 2 && mask == 0x3333_3333)
    || (offset == 4 && mask == 0x0f0f_0f0f) || (offset == 8 && mask == 0x00ff_00ff)
    || (offset == 16 && mask == 0x0000_ffff)
  }

  /** The word that gives its unmasked bits away and receives `b`'s masked ones, shifted up. */
  function Lifted(a: Word, b: Word, offset: nat, mask: Word): Word
    requires offset <= 32
  {
    (a & mask) | ((b & mask) << offset)
  }

  /** The word that gives its masked bits away and receives `a`'s, shifted down. */
  function Lowered(a: Word, b: Word, offset: nat, mask: Word): Word
    requires offset <= 32
  {
    (b & !mask) | ((a >> offset) & mask)
  }

  lemma WordsSwap1(a: Word, b: Word)
    ensures Upper(a, b, 1, 0x5555_5555) == Lifted(a, b, 1, 0x5555_5555)
    ensures Lower(a, b, 1, 0x5555_5555) == Lowered(a, b, 1, 0x5555_5555)
  {}

  lemma SwapTwice1(a: Word, b: Word)
    ensures Lifted(Lifted(a, b, 1, 0x5555_5555), Lowered(a, b, 1, 0x5555_5555), 1, 0x5555_5555) == a
    ensures Lowered(Lifted(a, b, 1, 0x5555_5555), Lowered(a, b, 1, 0x5555_5555), 1, 0x5555_5555) == b
  {}

  lemma WordsSwap2(a: Word, b: Word)
    ensures Upper(a, b, 2, 0x3333_3333) == Lifted(a, b, 2, 0x3333_3333)
    ensures Lower(a, b, 2, 0x3333_3333) == Lowered(a, b, 2, 0x3333_3333)
  {}

  lemma SwapTwice2(a: Word, b: Word)
    ensures Lifted(Lifted(a, b, 2, 0x3333_3333), Lowered(a, b, 2, 0x3333_3333), 2, 0x3333_3333) == a
    ensures Lowered(Lifted(a, b, 2, 0x3333_3333), Lowered(a, b, 2, 0x3333_3333), 2, 0x3333_3333) == b
  {}

  lemma WordsSwap4(a: Word, b: Word)
    ensures Upper(a, b, 4, 0x0f0f_0f0f) == Lifted(a, b, 4, 0x0f0f_0f0f)
    ensures Lower(a, b, 4, 0x0f0f_0f0f) == Lowered(a, b, 4, 0x0f0f_0f0f)
  {}

  lemma SwapTwice4(a: Word, b: Word)
    ensures Lifted(Lifted(a, b, 4, 0x0f0f_0f0f), Lowered(a, b, 4, 0x0f0f_0f0f), 4, 0x0f0f_0f0f) == a
    ensures Lowered(Lifted(a, b, 4, 0x0f0f_0f0f), Lowered(a, b, 4, 0x0f0f_0f0f), 4, 0x0f0f_0f0f) == b
  {}

  lemma WordsSwap8(a: Word, b: Word)
    ensures Upper(a, b, 8, 0x00ff_00ff) == Lifted(a, b, 8, 0x00ff_00ff)
    ensures Lower(a, b, 8, 0x00ff_00ff) == Lowered(a, b, 8, 0x00ff_00ff)
  {}

  lemma SwapTwice8(a: Word, b: Word)
    ensures Lifted(Lifted(a, b, 8, 0x00ff_00ff), Lowered(a, b, 8, 0x00ff_00ff), 8, 0x00ff_00ff) == a
    ensures Lowered(Lifted(a, b, 8, 0x00ff_00ff), Lowered(a, b, 8, 0x00ff_00ff), 8, 0x00ff_00ff) == b
  {}

  lemma WordsSwap16(a: Word, b: Word)
    ensures Upper(a, b, 16, 0x0000_ffff) == Lifted(a, b, 16, 0x0000_ffff)
    ensures Lower(a, b, 16, 0x0000_ffff) == Lowered(a, b, 16, 0x0000_ffff)
  {}

  lemma SwapTwice16(a: Word, b: Word)
    ensures Lifted(Lifted(a, b, 16, 0x0000_ffff), Lowered(a, b, 16, 0x0000_ffff), 16, 0x0000_ffff) == a
    ensures Lowered(Lifted(a, b, 16, 0x0000_ffff), Lowered(a, b, 16, 0x0000_ffff), 16, 0x0000_ffff) == b
  {}

  lemma SwapTwice(a: Word, b: Word, offset: nat, mask: Word)
    requires Used(offset, mask)
    ensures Lifted(Lifted(a, b, offset, mask), Lowered(a, b, offset, mask), offset, mask) == a
    ensures Lowered(Lifted(a, b, offset, mask), Lowered(a, b, offset, mask), offset, mask) == b
  {
    hide Lifted, Lowered;
    if offset == 1 { SwapTwice1(a, b); } else if offset == 2 { SwapTwice2(a, b); }
    else if offset == 4 { SwapTwice4(a, b); } else if offset == 8 { SwapTwice8(a, b); }
    else { SwapTwice16(a, b); }
  }

  /** An exchange is a swap: bit p + offset of one word against bit p of the other, for every
      p in the mask. */
  lemma ExchangeIsSwap(h: Halves, offset: nat, mask: Word)
    requires Used(offset, mask)
    ensures ExchangeLR(h, offset, mask) == Halves(Lifted(h.l, h.r, offset, mask), Lowered(h.l, h.r, offset, mask))
    ensures ExchangeRL(h, offset, mask) == Halves(Lowered(h.r, h.l, offset, mask), Lifted(h.r, h.l, offset, mask))
  {
    hide Upper, Lower, Lifted, Lowered;
    if offset == 1 {
      WordsSwap1(h.l, h.r); WordsSwap1(h.r, h.l);
    } else if offset == 2 {
      WordsSwap2(h.l, h.r); WordsSwap2(h.r, h.l);
    } else if offset == 4 {
      WordsSwap4(h.l, h.r); WordsSwap4(h.r, h.l);
    } else if offset == 8 {
      WordsSwap8(h.l, h.r); WordsSwap8(h.r, h.l);
    } else {
      WordsSwap16(h.l, h.r); WordsSwap16(h.r, h.l);
    }
  }

  lemma ExchangeTwice(h: Halves, offset: nat, mask: Word)
    requires Used(offset, mask)
    ensures ExchangeLR(ExchangeLR(h, offset, mask), offset, mask) == h
    ensures ExchangeRL(ExchangeRL(h, offset, mask), offset, mask) == h
  {
    hide ExchangeLR, ExchangeRL, Lifted, Lowered;
    ExchangeIsSwap(h, offset, mask);
    ExchangeIsSwap(ExchangeLR(h, offset, mask), offset, mask);
    ExchangeIsSwap(ExchangeRL(h, offset, mask), offset, mask);
    SwapTwice(h.l, h.r, offset, mask);
    SwapTwice(h.r, h.l, offset, mask);
  }

  lemma PermutationsCancel(h: Halves)
    ensures FinalPermutation(InitialPermutation(h)) == h
    ensures InitialPermutation(FinalPermutation(h)) == h
  {
    hide ExchangeLR, ExchangeRL;
    var a := ExchangeLR(h, 4, 0x0f0f_0f0f);
    var b := ExchangeLR(a, 16, 0x0000_ffff);
    var c := ExchangeRL(b, 2, 0x3333_3333);
    var d := ExchangeRL(c, 8, 0x00ff_00ff);
    ExchangeTwice(h, 4, 0x0f0f_0f0f);
    ExchangeTwice(a, 16, 0x0000_ffff);
    ExchangeTwice(b, 2, 0x3333_3333);
    ExchangeTwice(c, 8, 0x00ff_00ff);
    ExchangeTwice(d, 1, 0x5555_5555);
    var e := ExchangeLR(h, 1, 0x5555_5555);
    var f := ExchangeRL(e, 8, 0x00ff_00ff);
    var g := ExchangeRL(f, 2, 0x3333_3333);
    var i := ExchangeLR(g, 16, 0x0000_ffff);
    ExchangeTwice(h, 1, 0x5555_5555);
    ExchangeTwice(e, 8, 0x00ff_00ff);
    ExchangeTwice(f, 2, 0x3333_3333);
    ExchangeTwice(g, 16, 0x0000_ffff);
    ExchangeTwice(i, 4, 0x0f0f_0f0f);
  }

  // ---------------------------------------------------------------- Feistel rounds

  const SBOX_MASK: seq<Word> := [0xf800_0001, 0x1f80_0000, 0x01f8_0000, 0x001f_8000, 0x0001_f800, 0x0000_1f80, 0x0000_01f8, 0x8000_001f]

  /** The masked input of look-up `i`. */
  function Selected(r: Word, subKey: seq<Word>, i: nat): Word
    requires i < 8
  {
    (r ^ Get(subKey, i)) & SBOX_MASK[i]
  }

  function Or(a: Word, b: Word): Word { a | b }

  /** The first `n` of the eight table look-ups, OR-ed together. */
  function LookUps(tab: Tables, r: Word, subKey: seq<Word>, n: nat): Word
    requires n <= 8
  {
    if n == 0 then 0 else Or(LookUps(tab, r, subKey, n - 1), tab(n - 1, Selected(r, subKey, n - 1)))
  }

  function Round(tab: Tables, h: Halves, subKey: seq<Word>): Halves {
    Halves(h.r, Xor(h.l, LookUps(tab, h.r, subKey, 8)))
  }

  function Rounds(tab: Tables, h: Halves, subKeys: seq<seq<Word>>): Halves
    decreases |subKeys|
  {
    if subKeys == [] then h else Rounds(tab, Round(tab, h, subKeys[0]), subKeys[1..])
  }

  function Swapped(h: Halves): Halves {
    Halves(h.r, h.l)
  }

  function Reversed(keys: seq<seq<Word>>): (r: seq<seq<Word>>)
    ensures |r| == |keys|
  {
    if keys == [] then [] else Reversed(keys[1..]) + [keys[0]]
  }

  lemma RoundUndone(tab: Tables, h: Halves, k: seq<Word>)
    ensures Round(tab, Swapped(Round(tab, h, k)), k) == Swapped(h)
  {
    hide LookUps;
  }

  lemma {:induction false} RoundsSnoc(tab: Tables, h: Halves, keys: seq<seq<Word>>, k: seq<Word>)
    ensures Rounds(tab, h, keys + [k]) == Round(tab, Rounds(tab, h, keys), k)
    decreases |keys|
  {
    hide Round;
    if keys == [] {
      assert [] + [k] == [k] && [k][1..] == [];
    } else {
      assert (keys + [k])[1..] == keys[1..] + [k];
      RoundsSnoc(tab, Round(tab, h, keys[0]), keys[1..], k);
    }
  }

  /** Any number of rounds, swapped and run again with the subkeys reversed, cancel. */
  lemma {:induction false} RoundsUndone(tab: Tables, h: Halves, keys: seq<seq<Word>>)
    ensures Rounds(tab, Swapped(Rounds(tab, h, keys)), Reversed(keys)) == Swapped(h)
    decreases |keys|
  {
    hide Round;
    if keys != [] {
      RoundsUndone(tab, Round(tab, h, keys[0]), keys[1..]);
      RoundsSnoc(tab, Swapped(Rounds(tab, h, keys)), Reversed(keys[1..]), keys[0]);
      RoundUndone(tab, h, keys[0]);
    }
  }

  // ---------------------------------------------------------------- the block cipher

  function Crypt(tab: Tables, h: Halves, subKeys: seq<seq<Word>>): Halves {
    FinalPermutation(Swapped(Rounds(tab, InitialPermutation(h), subKeys)))
  }

  /** Decrypting is crypting with the subkeys reversed, for every table and every subkeys. */
  lemma CryptUndone(tab: Tables, h: Halves, keys: seq<seq<Word>>)
    ensures Crypt(tab, Crypt(tab, h, keys), Reversed(keys)) == h
    ensures Crypt(tab, Crypt(tab, h, Reversed(keys)), keys) == h
  {
    hide InitialPermutation, FinalPermutation, Rounds;
    var p := InitialPermutation(h);
    PermutationsCancel(h);
    PermutationsCancel(Swapped(Rounds(tab, p, keys)));
    PermutationsCancel(Swapped(Rounds(tab, p, Reversed(keys))));
    RoundsUndone(tab, p, keys);
    RoundsUndone(tab, p, Reversed(keys));
    ReversedTwice(keys);
  }

  lemma {:induction false} ReversedSnoc(keys: seq<seq<Word>>, k: seq<Word>)
    ensures Reversed(keys + [k]) == [k] + Reversed(keys)
  {
    if keys == [] {
      assert [] + [k] == [k] && [k][1..] == [];
    } else {
      assert (keys + [k])[1..] == keys[1..] + [k];
      ReversedSnoc(keys[1..], k);
    }
  }

  lemma {:induction false} ReversedTwice(keys: seq<seq<Word>>)
    ensures Reversed(Reversed(keys)) == keys
  {
    if keys != [] {
      ReversedTwice(keys[1..]);
      ReversedSnoc(Reversed(keys[1..]), keys[0]);
    }
  }

  lemma {:induction false} ReversedAt(keys: seq<seq<Word>>, i: nat)
    requires i < |keys|
    ensures Reversed(keys)[i] == keys[|keys| - 1 - i]
  {
    if i < |keys| - 1 { ReversedAt(keys[1..], i); }
  }

  function BlockOf(h: Halves): seq<Word> { [h.l, h.r] }

  function HalvesOf(b: seq<Word>): Halves { Halves(Get(b, 0), Get(b, 1)) }

  function EncryptedBlock(tab: Tables, keys: seq<seq<Word>>, b: seq<Word>): (r: seq<Word>)
    ensures |r| == 2
  {
    BlockOf(Crypt(tab, HalvesOf(b), keys))
  }

  function DecryptedBlock(tab: Tables, keys: seq<seq<Word>>, b: seq<Word>): (r: seq<Word>)
    ensures |r| == 2
  {
    BlockOf(Crypt(tab, HalvesOf(b), Reversed(keys)))
  }

  lemma BlockUndone(tab: Tables, keys: seq<seq<Word>>, b: seq<Word>)
    requires |b| == 2
    ensures DecryptedBlock(tab, keys, EncryptedBlock(tab, keys, b)) == b
    ensures EncryptedBlock(tab, keys, DecryptedBlock(tab, keys, b)) == b
  {
    hide Crypt;
    var h := HalvesOf(b);
    CryptUndone(tab, h, keys);
    assert HalvesOf(EncryptedBlock(tab, keys, b)) == Crypt(tab, h, keys);
    assert HalvesOf(DecryptedBlock(tab, keys, b)) == Crypt(tab, h, Reversed(keys));
    assert BlockOf(h) == b;
  }

  /** DES meets the condition every block mode asks of its cipher. */
  lemma DesInverse(tab: Tables, keys: seq<seq<Word>>)
    ensures Inverse(b => EncryptedBlock(tab, keys, b), b => DecryptedBlock(tab, keys, b), 2)
  {
    hide EncryptedBlock, DecryptedBlock;
    forall b: seq<Word> | |b| == 2 ensures DecryptedBlock(tab, keys, EncryptedBlock(tab, keys, b)) == b {
      BlockUndone(tab, keys, b);
    }
  }

  function TripleEncrypt(tab: Tables, k1: seq<seq<Word>>, k2: seq<seq<Word>>, k3: seq<seq<Word>>, b: seq<Word>): (r: seq<Word>)
    ensures |r| == 2
  {
    EncryptedBlock(tab, k3, DecryptedBlock(tab, k2, EncryptedBlock(tab, k1, b)))
  }

  function TripleDecrypt(tab: Tables, k1: seq<seq<Word>>, k2: seq<seq<Word>>, k3: seq<seq<Word>>, b: seq<Word>): (r: seq<Word>)
    ensures |r| == 2
  {
    DecryptedBlock(tab, k1, EncryptedBlock(tab, k2, DecryptedBlock(tab, k3, b)))
  }

  lemma TripleUndone(tab: Tables, k1: seq<seq<Word>>, k2: seq<seq<Word>>, k3: seq<seq<Word>>, b: seq<Word>)
    requires |b| == 2
    ensures TripleDecrypt(tab, k1, k2, k3, TripleEncrypt(tab, k1, k2, k3, b)) == b
    ensures TripleEncrypt(tab, k1, k2, k3, TripleDecrypt(tab, k1, k2, k3, b)) == b
  {
    hide EncryptedBlock, DecryptedBlock;
    var x, y := EncryptedBlock(tab, k1, b), DecryptedBlock(tab, k3, b);
    BlockUndone(tab, k1, b);
    BlockUndone(tab, k2, x);
    BlockUndone(tab, k3, DecryptedBlock(tab, k2, x));
    BlockUndone(tab, k3, b);
    BlockUndone(tab, k2, y);
    BlockUndone(tab, k1, EncryptedBlock(tab, k2, y));
  }

  lemma TripleInverse(tab: Tables, k1: seq<seq<Word>>, k2: seq<seq<Word>>, k3: seq<seq<Word>>)
    ensures Inverse(b => TripleEncrypt(tab, k1, k2, k3, b), b => TripleDecrypt(tab, k1, k2, k3, b), 2)
  {
    hide TripleEncrypt, TripleDecrypt;
    forall b: seq<Word> | |b| == 2 ensures TripleDecrypt(tab, k1, k2, k3, TripleEncrypt(tab, k1, k2, k3, b)) == b {
      TripleUndone(tab, k1, k2, k3, b);
    }
  }

  /** With the first two keys equal, TripleDES is single DES under the third. */
  lemma TripleDegenerates(tab: Tables, k: seq<seq<Word>>, k3: seq<seq<Word>>, b: seq<Word>)
    requires |b| == 2
    ensures TripleEncrypt(tab, k, k, k3, b) == EncryptedBlock(tab, k3, b)
  {
    hide EncryptedBlock, DecryptedBlock;
    BlockUndone(tab, k, b);
  }

  // ---------------------------------------------------------------- in place

  /** `invSubKeys[i] = subKeys[15 - i]` */
  method InverseSubKeys(subKeys: seq<seq<Word>>) returns (invSubKeys: seq<seq<Word>>)
    ensures invSubKeys == Reversed(subKeys)
  {
    var n := |subKeys|;
    var a := new seq<Word>[n](_ => []);
    for i := 0 to n
      invariant forall k :: 0 <= k < i ==> a[k] == subKeys[n - 1 - k]
    {
      a[i] := subKeys[n - 1 - i];
    }
    forall k: nat | k < n ensures a[k] == Reversed(subKeys)[k] { ReversedAt(subKeys, k); }
    invSubKeys := a[..];
    assert forall k: nat :: k < n ==> invSubKeys[k] == Reversed(subKeys)[k];
  }

  class DesCipher {
    const tab: Tables
    const subKeys: seq<seq<Word>>
    var invSubKeys: seq<seq<Word>>
    var lBlock: Word
    var rBlock: Word

    function Current(): Halves
      reads this
    {
      Halves(lBlock, rBlock)
    }

    /** The inverse subkeys are the subkeys reversed. */
    ghost predicate Valid()
      reads this
    {
      invSubKeys == Reversed(subKeys)
    }

    constructor (tab: Tables, subKeys: seq<seq<Word>>)
      ensures Valid() && this.tab == tab && this.subKeys == subKeys
    {
      this.tab, this.subKeys := tab, subKeys;
      invSubKeys := [];
      lBlock, rBlock := 0, 0;
      new;
      invSubKeys := InverseSubKeys(subKeys);
    }

    method EncryptBlock(M: array<Word>, offset: nat)
      requires Valid() && offset + 2 <= M.Length
      modifies this`lBlock, this`rBlock, M
      ensures M[offset..offset + 2] == EncryptedBlock(tab, subKeys, old(M[offset..offset + 2]))
      ensures forall k :: 0 <= k < M.Length && k != offset && k != offset + 1 ==> M[k] == old(M[k])
    {
      DoCryptBlock(M, offset, subKeys);
    }

    method DecryptBlock(M: array<Word>, offset: nat)
      requires Valid() && offset + 2 <= M.Length
      modifies this`lBlock, this`rBlock, M
      ensures M[offset..offset + 2] == DecryptedBlock(tab, subKeys, old(M[offset..offset + 2]))
      ensures forall k :: 0 <= k < M.Length && k != offset && k != offset + 1 ==> M[k] == old(M[k])
    {
      hide Crypt, Reversed;
      DoCryptBlock(M, offset, invSubKeys);
    }

    method DoExchangeLR(offset: nat, mask: Word)
      requires offset <= 32
      modifies this`lBlock, this`rBlock
      ensures Current() == ExchangeLR(old(Current()), offset, mask)
    {
      hide Differing, ShiftUp, Xor;
      var t := Differing(lBlock, rBlock, offset, mask);
      rBlock := Xor(rBlock, t);
      lBlock := Xor(lBlock, ShiftUp(t, offset));
    }

    method DoExchangeRL(offset: nat, mask: Word)
      requires offset <= 32
      modifies this`lBlock, this`rBlock
      ensures Current() == ExchangeRL(old(Current()), offset, mask)
    {
      hide Differing, ShiftUp, Xor;
      var t := Differing(rBlock, lBlock, offset, mask);
      lBlock := Xor(lBlock, t);
      rBlock := Xor(rBlock, ShiftUp(t, offset));
    }

    method DoRound(subKey: seq<Word>)
      modifies this`lBlock, this`rBlock
      ensures Current() == Round(tab, old(Current()), subKey)
    {
      hide Selected, Or, Xor;
      var f: Word := 0;
      for i := 0 to 8
        invariant f == LookUps(tab, rBlock, subKey, i)
      {
        f := Or(f, tab(i, Selected(rBlock, subKey, i)));
      }
      lBlock, rBlock := rBlock, Xor(lBlock, f);
    }

    method DoRounds(subKeys: seq<seq<Word>>)
      modifies this`lBlock, this`rBlock
      ensures Current() == Rounds(tab, old(Current()), subKeys)
    {
      hide Round;
      ghost var h0 := Current();
      for round := 0 to |subKeys|
        invariant Current() == Rounds(tab, h0, subKeys[..round])
      {
        assert subKeys[..round + 1] == subKeys[..round] + [subKeys[round]];
        RoundsSnoc(tab, h0, subKeys[..round], subKeys[round]);
        DoRound(subKeys[round]);
      }
      assert subKeys[..|subKeys|] == subKeys;
    }

    /** `_doCryptBlock`: the block at `offset` is replaced, the other words stay. */
    method DoCryptBlock(M: array<Word>, offset: nat, subKeys: seq<seq<Word>>)
      requires offset + 2 <= M.Length
      modifies this`lBlock, this`rBlock, M
      ensures M[offset..offset + 2] == EncryptedBlock(tab, subKeys, old(M[offset..offset + 2]))
      ensures forall k :: 0 <= k < M.Length && k != offset && k != offset + 1 ==> M[k] == old(M[k])
    {
      hide ExchangeLR, ExchangeRL, Rounds;
      lBlock, rBlock := M[offset], M[offset + 1];
      DoExchangeLR(4, 0x0f0f_0f0f);
      DoExchangeLR(16, 0x0000_ffff);
      DoExchangeRL(2, 0x3333_3333);
      DoExchangeRL(8, 0x00ff_00ff);
      DoExchangeLR(1, 0x5555_5555);
      DoRounds(subKeys);
      lBlock, rBlock := rBlock, lBlock;
      DoExchangeLR(1, 0x5555_5555);
      DoExchangeRL(8, 0x00ff_00ff);
      DoExchangeRL(2, 0x3333_3333);
      DoExchangeLR(16, 0x0000_ffff);
      DoExchangeLR(4, 0x0f0f_0f0f);
      M[offset], M[offset + 1] := lBlock, rBlock;
    }
  }

  /** Three single ciphers; encrypting decrypts with the second one, and the other way round. */
  class TripleDesCipher {
    const des1: DesCipher
    const des2: DesCipher
    const des3: DesCipher

    ghost predicate Valid()
      reads des1, des2, des3
    {
      des1.Valid() && des2.Valid() && des3.Valid() && des1.tab == des2.tab == des3.tab
    }

    constructor (tab: Tables, k1: seq<seq<Word>>, k2: seq<seq<Word>>, k3: seq<seq<Word>>)
      ensures Valid() && fresh(des1) && fresh(des2) && fresh(des3)
      ensures des1.tab == tab && des1.subKeys == k1 && des2.subKeys == k2 && des3.subKeys == k3
    {
      des1 := new DesCipher(tab, k1);
      des2 := new DesCipher(tab, k2);
      des3 := new DesCipher(tab, k3);
    }

    method EncryptBlock(M: array<Word>, offset: nat)
      requires Valid() && offset + 2 <= M.Length
      modifies des1, des2, des3, M
      ensures Valid()
      ensures M[offset..offset + 2] == TripleEncrypt(des1.tab, des1.subKeys, des2.subKeys, des3.subKeys, old(M[offset..offset + 2]))
      ensures forall k :: 0 <= k < M.Length && k != offset && k != offset + 1 ==> M[k] == old(M[k])
    {
      hide EncryptedBlock, DecryptedBlock, Reversed;
      des1.EncryptBlock(M, offset);
      des2.DecryptBlock(M, offset);
      des3.EncryptBlock(M, offset);
    }

    method DecryptBlock(M: array<Word>, offset: nat)
      requires Valid() && offset + 2 <= M.Length
      modifies des1, des2, des3, M
      ensures Valid()
      ensures M[offset..offset + 2] == TripleDecrypt(des1.tab, des1.subKeys, des2.subKeys, des3.subKeys, old(M[offset..offset + 2]))
      ensures forall k :: 0 <= k < M.Length && k != offset && k != offset + 1 ==> M[k] == old(M[k])
    {
      hide EncryptedBlock, DecryptedBlock, Reversed;
      des3.DecryptBlock(M, offset);
      des2.EncryptBlock(M, offset);
      des1.DecryptBlock(M, offset);
    }
  }

  // ---------------------------------------------------------------- the initial permutation

  /** Bit `n` of the 64-bit block, counted from 1 at the most significant bit. */
  function BitOf(h: Halves, n: nat): bool
    requires 1 <= n <= 64
  {
    if n <= 32 then WordBit(h.l, n) else WordBit(h.r, n - 32)
  }

  function WordBit(w: Word, n: nat): bool
    requires 1 <= n <= 32
  {
    (w >> (32 - n)) & 1 == 1
  }

  /** Table IP of the standard: entry `k` names the input bit that becomes bit `k`. Its rows
      start at 58, 60, 62, 64, 57, 59, 61, 63 and go down by 8. */
  function IP(k: nat): (n: nat)
    requires 1 <= k <= 64
    ensures 1 <= n <= 64
  {
    var row, col := (k - 1) / 8, (k - 1) % 8;
    (if row < 4 then 58 + 2 * row else 49 + 2 * row) - 8 * col
  }

  /** The five exchanges of the initial permutation as swaps. */
  lemma InitialSwaps(h: Halves)
    ensures var l1, r1 := Lifted(h.l, h.r, 4, 0x0f0f_0f0f), Lowered(h.l, h.r, 4, 0x0f0f_0f0f);
            var l2, r2 := Lifted(l1, r1, 16, 0x0000_ffff), Lowered(l1, r1, 16, 0x0000_ffff);
            var l3, r3 := Lowered(r2, l2, 2, 0x3333_3333), Lifted(r2, l2, 2, 0x3333_3333);
            var l4, r4 := Lowered(r3, l3, 8, 0x00ff_00ff), Lifted(r3, l3, 8, 0x00ff_00ff);
            InitialPermutation(h) == Halves(Lifted(l4, r4, 1, 0x5555_5555), Lowered(l4, r4, 1, 0x5555_5555))
  {
    hide ExchangeLR, ExchangeRL, Lifted, Lowered;
    var a := ExchangeLR(h, 4, 0x0f0f_0f0f);
    var b := ExchangeLR(a, 16, 0x0000_ffff);
    var c := ExchangeRL(b, 2, 0x3333_3333);
    var d := ExchangeRL(c, 8, 0x00ff_00ff);
    ExchangeIsSwap(h, 4, 0x0f0f_0f0f);
    ExchangeIsSwap(a, 16, 0x0000_ffff);
    ExchangeIsSwap(b, 2, 0x3333_3333);
    ExchangeIsSwap(c, 8, 0x00ff_00ff);
    ExchangeIsSwap(d, 1, 0x5555_5555);
  }

  lemma IpLeft(h: Halves)
    ensures var p := InitialPermutation(h);
            && BitOf(p, 1) == BitOf(h, 58) && BitOf(p, 2) == BitOf(h, 50) && BitOf(p, 3) == BitOf(h, 42) && BitOf(p, 4) == BitOf(h, 34)
            && BitOf(p, 5) == BitOf(h, 26) && BitOf(p, 6) == BitOf(h, 18) && BitOf(p, 7) == BitOf(h, 10) && BitOf(p, 8) == BitOf(h, 2)
            && BitOf(p, 9) == BitOf(h, 60) && BitOf(p, 10) == BitOf(h, 52) && BitOf(p, 11) == BitOf(h, 44) && BitOf(p, 12) == BitOf(h, 36)
            && BitOf(p, 13) == BitOf(h, 28) && BitOf(p, 14) == BitOf(h, 20) && BitOf(p, 15) == BitOf(h, 12) && BitOf(p, 16) == BitOf(h, 4)
            && BitOf(p, 17) == BitOf(h, 62) && BitOf(p, 18) == BitOf(h, 54) && BitOf(p, 19) == BitOf(h, 46) && BitOf(p, 20) == BitOf(h, 38)
            && BitOf(p, 21) == BitOf(h, 30) && BitOf(p, 22) == BitOf(h, 22) && BitOf(p, 23) == BitOf(h, 14) && BitOf(p, 24) == BitOf(h, 6)
            && BitOf(p, 25) == BitOf(h, 64) && BitOf(p, 26) == BitOf(h, 56) && BitOf(p, 27) == BitOf(h, 48) && BitOf(p, 28) == BitOf(h, 40)
            && BitOf(p, 29) == BitOf(h, 32) && BitOf(p, 30) == BitOf(h, 24) && BitOf(p, 31) == BitOf(h, 16) && BitOf(p, 32) == BitOf(h, 8)
  {
    InitialSwaps(h);
    hide InitialPermutation;
  }

  lemma IpRight(h: Halves)
    ensures var p := InitialPermutation(h);
            && BitOf(p, 33) == BitOf(h, 57) && BitOf(p, 34) == BitOf(h, 49) && BitOf(p, 35) == BitOf(h, 41) && BitOf(p, 36) == BitOf(h, 33)
            && BitOf(p, 37) == BitOf(h, 25) && BitOf(p, 38) == BitOf(h, 17) && BitOf(p, 39) == BitOf(h, 9) && BitOf(p, 40) == BitOf(h, 1)
            && BitOf(p, 41) == BitOf(h, 59) && BitOf(p, 42) == BitOf(h, 51) && BitOf(p, 43) == BitOf(h, 43) && BitOf(p, 44) == BitOf(h, 35)
            && BitOf(p, 45) == BitOf(h, 27) && BitOf(p, 46) == BitOf(h, 19) && BitOf(p, 47) == BitOf(h, 11) && BitOf(p, 48) == BitOf(h, 3)
            && BitOf(p, 49) == BitOf(h, 61) && BitOf(p, 50) == BitOf(h, 53) && BitOf(p, 51) == BitOf(h, 45) && BitOf(p, 52) == BitOf(h, 37)
            && BitOf(p, 53) == BitOf(h, 29) && BitOf(p, 54) == BitOf(h, 21) && BitOf(p, 55) == BitOf(h, 13) && BitOf(p, 56) == BitOf(h, 5)
            && BitOf(p, 57) == BitOf(h, 63) && BitOf(p, 58) == BitOf(h, 55) && BitOf(p, 59) == BitOf(h, 47) && BitOf(p, 60) == BitOf(h, 39)
            && BitOf(p, 61) == BitOf(h, 31) && BitOf(p, 62) == BitOf(h, 23) && BitOf(p, 63) == BitOf(h, 15) && BitOf(p, 64) == BitOf(h, 7)
  {
    InitialSwaps(h);
    hide InitialPermutation;
  }

  lemma IpBit(h: Halves, k: nat)
    requires 1 <= k <= 64
    ensures BitOf(InitialPermutation(h), k) == BitOf(h, IP(k))
  {
    hide BitOf, InitialPermutation;
    IpLeft(h); IpRight(h);
    if k == 1 {} else if k == 2 {} else if k == 3 {} else if k == 4 {} else if k == 5 {} else if k == 6 {} else if k == 7 {} else if k == 8 {} else
    if k == 9 {} else if k == 10 {} else if k == 11 {} else if k == 12 {} else if k == 13 {} else if k == 14 {} else if k == 15 {} else if k == 16 {} else
    if k == 17 {} else if k == 18 {} else if k == 19 {} else if k == 20 {} else if k == 21 {} else if k == 22 {} else if k == 23 {} else if k == 24 {} else
    if k == 25 {} else if k == 26 {} else if k == 27 {} else if k == 28 {} else if k == 29 {} else if k == 30 {} else if k == 31 {} else if k == 32 {} else
    if k == 33 {} else if k == 34 {} else if k == 35 {} else if k == 36 {} else if k == 37 {} else if k == 38 {} else if k == 39 {} else if k == 40 {} else
    if k == 41 {} else if k == 42 {} else if k == 43 {} else if k == 44 {} else if k == 45 {} else if k == 46 {} else if k == 47 {} else if k == 48 {} else
    if k == 49 {} else if k == 50 {} else if k == 51 {} else if k == 52 {} else if k == 53 {} else if k == 54 {} else if k == 55 {} else if k == 56 {} else
    if k == 57 {} else if k == 58 {} else if k == 59 {} else if k == 60 {} else if k == 61 {} else if k == 62 {} else if k == 63 {} else {}
  }

  /** The exchanges of `_doCryptBlock` are the initial permutation of the standard. */
  lemma InitialPermutationIsStandard(h: Halves)
    ensures forall k: nat :: 1 <= k <= 64 ==> BitOf(InitialPermutation(h), k) == BitOf(h, IP(k))
  {
    forall k: nat | 1 <= k <= 64 ensures BitOf(InitialPermutation(h), k) == BitOf(h, IP(k)) {
      IpBit(h, k);
    }
  }

  // ---------------------------------------------------------------- the rounds of the standard

  /** Table E of the standard: row `i` names the six bits that go into S-box `i`. */
  const E: seq<seq<nat>> := [[32, 1, 2, 3, 4, 5], [4, 5, 6, 7, 8, 9], [8, 9, 10, 11, 12, 13], [12, 13, 14, 15, 16, 17],
                             [16, 17, 18, 19, 20, 21], [20, 21, 22, 23, 24, 25], [24, 25, 26, 27, 28, 29], [28, 29, 30, 31, 32, 1]]

  /** The word with bit `n` alone. */
  function Alone(n: nat): Word
    requires 1 <= n <= 32
  {
    1 << (32 - n)
  }

  /** Each mask selects the bits that table E names for its S-box. */
  lemma MasksAreE(i: nat)
    requires i < 8
    ensures |E[i]| == 6 && forall j: nat :: j < 6 ==> 1 <= E[i][j] <= 32
    ensures SBOX_MASK[i] == Alone(E[i][0]) | Alone(E[i][1]) | Alone(E[i][2]) | Alone(E[i][3]) | Alone(E[i][4]) | Alone(E[i][5])
  {
    hide SBOX_MASK, Alone;
    if i < 4 { FirstMasks(i); } else { LastMasks(i); }
  }

  lemma FirstMasks(i: nat)
    requires i < 4
    ensures SBOX_MASK[i] == Alone(E[i][0]) | Alone(E[i][1]) | Alone(E[i][2]) | Alone(E[i][3]) | Alone(E[i][4]) | Alone(E[i][5])
  {
    if i == 0 {} else if i == 1 {} else if i == 2 {} else {}
  }

  lemma LastMasks(i: nat)
    requires 4 <= i < 8
    ensures SBOX_MASK[i] == Alone(E[i][0]) | Alone(E[i][1]) | Alone(E[i][2]) | Alone(E[i][3]) | Alone(E[i][4]) | Alone(E[i][5])
  {
    if i == 4 {} else if i == 5 {} else if i == 6 {} else {}
  }

  /** What S-box `i` contributes: the entry for the masked sum of the half and its part of the subkey. */
  function Substituted(tab: Tables, r: Word, subKey: seq<Word>, i: nat): Word
    requires i < 8
  {
    tab(i, (r ^ Get(subKey, i)) & SBOX_MASK[i])
  }

  /** All eight together. */
  function CipherFunction(tab: Tables, r: Word, subKey: seq<Word>): Word {
    Or(Or(Or(Substituted(tab, r, subKey, 0), Substituted(tab, r, subKey, 1)), Or(Substituted(tab, r, subKey, 2), Substituted(tab, r, subKey, 3))),
       Or(Or(Substituted(tab, r, subKey, 4), Substituted(tab, r, subKey, 5)), Or(Substituted(tab, r, subKey, 6), Substituted(tab, r, subKey, 7))))
  }

  /** The halves before each round: the right one goes to the left, and the left one is added to the
      function of the right one. */
  ghost predicate Feistel(tab: Tables, keys: seq<seq<Word>>, L: seq<Word>, R: seq<Word>) {
    && |L| == |R| == |keys| + 1
    && forall t: nat :: t < |keys| ==> L[t + 1] == R[t] && R[t + 1] == Xor(L[t], CipherFunction(tab, R[t], keys[t]))
  }

  lemma LookUpsAre(tab: Tables, r: Word, subKey: seq<Word>)
    ensures LookUps(tab, r, subKey, 8) == CipherFunction(tab, r, subKey)
  {
    hide Or, Substituted, LookUps;
    NextLookUp(tab, r, subKey, 0);
    NextLookUp(tab, r, subKey, 1);
    NextLookUp(tab, r, subKey, 2);
    NextLookUp(tab, r, subKey, 3);
    NextLookUp(tab, r, subKey, 4);
    NextLookUp(tab, r, subKey, 5);
    NextLookUp(tab, r, subKey, 6);
    NextLookUp(tab, r, subKey, 7);
    OrEight(Substituted(tab, r, subKey, 0), Substituted(tab, r, subKey, 1), Substituted(tab, r, subKey, 2), Substituted(tab, r, subKey, 3),
            Substituted(tab, r, subKey, 4), Substituted(tab, r, subKey, 5), Substituted(tab, r, subKey, 6), Substituted(tab, r, subKey, 7));
  }

  lemma NextLookUp(tab: Tables, r: Word, subKey: seq<Word>, n: nat)
    requires n < 8
    ensures LookUps(tab, r, subKey, n + 1) == Or(LookUps(tab, r, subKey, n), Substituted(tab, r, subKey, n))
    ensures LookUps(tab, r, subKey, 0) == 0
  {
    hide Or;
  }

  lemma OrEight(a: Word, b: Word, c: Word, d: Word, e: Word, f: Word, g: Word, h: Word)
    ensures Or(Or(Or(Or(Or(Or(Or(Or(0, a), b), c), d), e), f), g), h) == Or(Or(Or(a, b), Or(c, d)), Or(Or(e, f), Or(g, h)))
  {
    hide Or;
    OrAgain(0, a, b);
    OrAgain(Or(a, b), c, d);
    var x, y := Or(Or(a, b), Or(c, d)), Or(g, h);
    OrAgain(x, e, f);
    OrAgain(Or(x, Or(e, f)), g, h);
    OrAgain(x, Or(e, f), y);
  }

  lemma OrAgain(a: Word, b: Word, c: Word)
    ensures Or(Or(a, b), c) == Or(a, Or(b, c)) && Or(0, b) == b
  {}

  lemma {:induction false} RoundsAre(tab: Tables, keys: seq<seq<Word>>, L: seq<Word>, R: seq<Word>)
    requires Feistel(tab, keys, L, R)
    ensures Rounds(tab, Halves(L[0], R[0]), keys) == Halves(L[|keys|], R[|keys|])
    decreases |keys|
  {
    if keys != [] {
      hide LookUps, CipherFunction, Xor;
      LookUpsAre(tab, R[0], keys[0]);
      assert L[0 + 1] == R[0] && R[0 + 1] == Xor(L[0], CipherFunction(tab, R[0], keys[0]));
      forall t: nat | t < |keys| - 1
        ensures L[1..][t + 1] == R[1..][t] && R[1..][t + 1] == Xor(L[1..][t], CipherFunction(tab, R[1..][t], keys[1..][t]))
      {
        assert L[(t + 1) + 1] == R[t + 1] && R[(t + 1) + 1] == Xor(L[t + 1], CipherFunction(tab, R[t + 1], keys[t + 1]));
      }
      RoundsAre(tab, keys[1..], L[1..], R[1..]);
    }
  }

  /** The block that the initial permutation turns into the halves after the last round, exchanged. */
  lemma CryptIs(tab: Tables, h: Halves, keys: seq<seq<Word>>, L: seq<Word>, R: seq<Word>)
    requires Feistel(tab, keys, L, R) && InitialPermutation(h) == Halves(L[0], R[0])
    ensures InitialPermutation(Crypt(tab, h, keys)) == Halves(R[|keys|], L[|keys|])
  {
    hide InitialPermutation, FinalPermutation, Rounds, CipherFunction;
    RoundsAre(tab, keys, L, R);
    PermutationsCancel(Halves(R[|keys|], L[|keys|]));
  }

  /** The same of a block of two words, the first one the left half. */
  lemma EncryptedIs(tab: Tables, keys: seq<seq<Word>>, b: seq<Word>, L: seq<Word>, R: seq<Word>)
    requires |b| == 2 && Feistel(tab, keys, L, R) && InitialPermutation(Halves(b[0], b[1])) == Halves(L[0], R[0])
    ensures var r := EncryptedBlock(tab, keys, b); InitialPermutation(Halves(r[0], r[1])) == Halves(R[|keys|], L[|keys|])
  {
    hide InitialPermutation, FinalPermutation, Rounds, CipherFunction, Crypt;
    CryptIs(tab, Halves(b[0], b[1]), keys, L, R);
  }

  /** TripleDES, told by encryptions alone: `x` is the block under the first key, `y` what the second key
      turns into it. */
  lemma TripleIs(tab: Tables, k1: seq<seq<Word>>, k2: seq<seq<Word>>, k3: seq<seq<Word>>, b: seq<Word>, y: seq<Word>)
    requires |b| == |y| == 2 && EncryptedBlock(tab, k2, y) == EncryptedBlock(tab, k1, b)
    ensures TripleEncrypt(tab, k1, k2, k3, b) == EncryptedBlock(tab, k3, y)
  {
    hide EncryptedBlock, DecryptedBlock;
    BlockUndone(tab, k2, y);
  }
}
