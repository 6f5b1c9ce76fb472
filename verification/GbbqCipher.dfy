/** A balanced Feistel network over any word type whose xor cancels. */
module Feistel {

  datatype Halves<W> = Halves(num: W, numold: W)

  function Swap<W>(h: Halves<W>): Halves<W> { Halves(h.numold, h.num) }

  function Round<W>(xor: (W, W) -> W, mix: W -> W, subkey: W, h: Halves<W>): Halves<W> {
    Halves(xor(h.numold, xor(mix(h.num), subkey)), h.num)
  }

  /** `count` rounds with the subkeys numbered top, top-1, ... */
  function Rounds<W>(xor: (W, W) -> W, mix: W -> W, ks: seq<W>, top: nat, count: nat, h: Halves<W>): Halves<W>
    requires count <= top < |ks|
  {
    if count == 0 then h else Rounds(xor, mix, ks, top - 1, count - 1, Round(xor, mix, ks[top], h))
  }

  /** The last subkey whitens the input, the first one the output, and the others drive one round each. */
  function Network<W>(xor: (W, W) -> W, mix: W -> W, ks: seq<W>, a: W, b: W): (W, W)
    requires |ks| >= 2
  {
    var n := |ks| - 2;
    var h := Rounds(xor, mix, ks, n, n, Halves(xor(ks[n + 1], a), b));
    (xor(h.numold, ks[0]), h.num)
  }

  ghost predicate Cancels<W(!new)>(xor: (W, W) -> W) {
    && (forall a, b :: xor(xor(a, b), b) == a)
    && (forall a, b :: xor(a, b) == xor(b, a))
  }

  function Reverse<W>(ks: seq<W>): (r: seq<W>)
    ensures |r| == |ks|
    ensures forall i :: 0 <= i < |r| ==> r[i] == ks[|ks| - 1 - i]
  {
    seq(|ks|, i requires 0 <= i < |ks| => ks[|ks| - 1 - i])
  }

  /** A round is its own inverse once the halves are exchanged. */
  lemma RoundUndoesRound<W(!new)>(xor: (W, W) -> W, mix: W -> W, k: W, h: Halves<W>)
    requires Cancels(xor)
    ensures Round(xor, mix, k, Swap(Round(xor, mix, k, h))) == Swap(h)
  {
  }

  lemma {:induction false} LastRound<W>(xor: (W, W) -> W, mix: W -> W, ks: seq<W>, top: nat, count: nat, h: Halves<W>)
    requires 0 < count <= top < |ks|
    ensures Rounds(xor, mix, ks, top, count, h)
         == Round(xor, mix, ks[top - count + 1], Rounds(xor, mix, ks, top, count - 1, h))
  {
    if count > 1 {
      LastRound(xor, mix, ks, top - 1, count - 1, Round(xor, mix, ks[top], h));
    }
  }

  lemma {:induction false} RoundsUndoRounds<W(!new)>(xor: (W, W) -> W, mix: W -> W, ks: seq<W>, m: nat, h: Halves<W>)
    requires Cancels(xor) && m + 2 <= |ks|
    ensures Rounds(xor, mix, Reverse(ks), |ks| - 2, m, Swap(Rounds(xor, mix, ks, m, m, h))) == Swap(h)
  {
    if m > 0 {
      var t := Swap(Rounds(xor, mix, ks, m, m, h));
      RoundsUndoRounds(xor, mix, ks, m - 1, Round(xor, mix, ks[m], h));
      LastRound(xor, mix, Reverse(ks), |ks| - 2, m, t);
      RoundUndoesRound(xor, mix, ks[m], h);
    }
  }

  /** The network with its subkeys in the opposite order undoes the network, whatever `mix` computes. */
  lemma NetworkIsUndone<W(!new)>(xor: (W, W) -> W, mix: W -> W, ks: seq<W>, a: W, b: W)
    requires Cancels(xor) && |ks| >= 2
    ensures var (x, y) := Network(xor, mix, ks, a, b); Network(xor, mix, Reverse(ks), x, y) == (a, b)
  {
    var n := |ks| - 2;
    RoundsUndoRounds(xor, mix, ks, n, Halves(xor(ks[n + 1], a), b));
  }
}

/** The 16-round cipher that protects the gbbq file (lib/gbbq/gbbq.go, decryptBlock). Bytes and words
    are numbers in their range; masks and shifts are written as division and remainder. */
module GbbqCipher {
  import opened Feistel
  import opened LittleEndian

  /** Every byte the key table is read at lies below this length: eighteen subkeys, then four boxes of
      256 words. */
  const KEY_LENGTH: nat := 0x1048
  const BOXES_AT: nat := 0x48

  type Keys = k: Bytes | |k| >= KEY_LENGTH witness seq(KEY_LENGTH, _ => 0)
  type Block = b: Bytes | |b| == 8 witness seq(8, _ => 0)

  function Pow2(k: nat): nat { if k == 0 then 1 else 2 * Pow2(k - 1) }

  lemma Pow2Of32()
    ensures Pow2(32) == 0x1_0000_0000
  {
    assert Pow2(8) == 0x100;
    assert Pow2(16) == 0x1_0000;
    assert Pow2(24) == 0x100_0000;
  }

  /** Exclusive or, bit by bit. */
  function XorBits(a: nat, b: nat): nat {
    if a == 0 && b == 0 then 0 else (a + b) % 2 + 2 * XorBits(a / 2, b / 2)
  }

  lemma {:induction false} XorFits(a: nat, b: nat, k: nat)
    requires a < Pow2(k) && b < Pow2(k)
    ensures XorBits(a, b) < Pow2(k)
  {
    if k > 0 {
      XorFits(a / 2, b / 2, k - 1);
    }
  }

  lemma XorHalf(a: nat, b: nat)
    ensures XorBits(a, b) == (a + b) % 2 + 2 * XorBits(a / 2, b / 2)
  {
  }

  /** The lowest bit of x is that of a + b, and its other bits are h. */
  lemma BitsOf(a: nat, b: nat, h: nat, x: nat)
    requires x == (a + b) % 2 + 2 * h
    ensures x / 2 == h && (x + b) % 2 == a % 2
  {
  }

  lemma {:induction false} XorCancels(a: nat, b: nat)
    ensures XorBits(XorBits(a, b), b) == a
    decreases a + b
  {
    if a != 0 || b != 0 {
      var h, x := XorBits(a / 2, b / 2), XorBits(a, b);
      XorCancels(a / 2, b / 2);
      XorHalf(a, b);
      BitsOf(a, b, h, x);
      XorHalf(x, b);
    }
  }

  /** Bit k of a number, counted from the lowest. */
  function Bit(a: nat, k: nat): nat { if k == 0 then a % 2 else Bit(a / 2, k - 1) }

  lemma LowestBit(a: nat, b: nat, h: nat, x: nat)
    requires x == (a + b) % 2 + 2 * h
    ensures x % 2 == 1 <==> a % 2 != b % 2
  {
  }

  /** A bit of the result is set exactly when the two bits differ. */
  lemma {:induction false} XorBitwise(a: nat, b: nat, k: nat)
    ensures Bit(XorBits(a, b), k) == 1 <==> Bit(a, k) != Bit(b, k)
    decreases k
  {
    var h, x := XorBits(a / 2, b / 2), XorBits(a, b);
    XorHalf(a, b);
    if k > 0 {
      BitsOf(a, b, h, x);
      XorBitwise(a / 2, b / 2, k - 1);
    } else {
      LowestBit(a, b, h, x);
    }
  }

  lemma {:induction false} XorCommutes(a: nat, b: nat)
    ensures XorBits(a, b) == XorBits(b, a)
    decreases a + b
  {
    if a != 0 || b != 0 {
      XorCommutes(a / 2, b / 2);
    }
  }

  function Xored(a: Word, b: Word): Word {
    Pow2Of32();
    XorFits(a, b, 32);
    XorBits(a, b)
  }

  function Xor(): (Word, Word) -> Word { (a, b) => Xored(a, b) }

  lemma WordXorCancels()
    ensures Cancels(Xor())
  {
    forall a: Word, b: Word ensures Xor()(Xor()(a, b), b) == a && Xor()(a, b) == Xor()(b, a) {
      XorCancels(a, b);
      XorCommutes(a, b);
    }
  }

  /** uint32 addition wraps around. */
  function Add(a: Word, b: Word): Word { (a + b) % 0x1_0000_0000 }

  function WordAt(bs: Bytes, at: nat): Word
    requires at + 4 <= |bs|
  {
    Uint32(bs[at..at + 4])
  }

  /** The substitution-box entry that one byte of num selects. */
  function Box(keys: Keys, base: nat, index: Byte): Word
    requires BOXES_AT <= base <= 0xC48
  {
    WordAt(keys, base + 4 * index)
  }

  /** What the four substitution boxes make of num, before the round's subkey is mixed in. */
  function Mix(keys: Keys, num: Word): Word {
    Add(Xored(Add(Box(keys, 0x448, num / 0x1_0000 % 0x100), Box(keys, 0x48, num / 0x100_0000)),
              Box(keys, 0x848, num / 0x100 % 0x100)),
        Box(keys, 0xC48, num % 0x100))
  }

  function Mixer(keys: Keys): Word -> Word { (num: Word) => Mix(keys, num) }

  function Subkeys(keys: Keys): (ks: seq<Word>)
    ensures |ks| == 18
  {
    seq(18, i requires 0 <= i < 18 => WordAt(keys, 4 * i))
  }

  function Decrypted(keys: Keys, encrypted: Block): Block {
    var (a, b) := Network(Xor(), Mixer(keys), Subkeys(keys), WordAt(encrypted, 0), WordAt(encrypted, 4));
    PutUint32(a) + PutUint32(b)
  }

  /** The four table look-ups of one round. */
  method LookUp(keys: Keys, num: Word) returns (eax: Word)
    ensures eax == Mix(keys, num)
  {
    eax := Box(keys, 0x448, num / 0x1_0000 % 0x100);
    eax := Add(eax, Box(keys, 0x48, num / 0x100_0000));
    eax := Xored(eax, Box(keys, 0x848, num / 0x100 % 0x100));
    eax := Add(eax, Box(keys, 0xC48, num % 0x100));
  }

  method DecryptBlock(keys: Keys, encrypted: Block) returns (decrypted: Block)
    ensures decrypted == Decrypted(keys, encrypted)
  {
    ghost var xor, mix, ks := Xor(), Mixer(keys), Subkeys(keys);
    ghost var n := |ks| - 2;
    var a, b := WordAt(encrypted, 0), WordAt(encrypted, 4);
    ghost var end := Rounds(xor, mix, ks, n, n, Halves(xor(ks[n + 1], a), b));
    var num, numold := Xored(WordAt(keys, 0x44), a), b;
    var j := 0x40;
    ghost var i: nat := 16;
    while j >= 4
      invariant j == 4 * i && i <= 16
      invariant Rounds(xor, mix, ks, i, i, Halves(num, numold)) == end
    {
      var eax := LookUp(keys, num);
      eax := Xored(eax, WordAt(keys, j));
      assert eax == xor(mix(num), ks[i]);
      num, numold := Xored(numold, eax), num;
      j, i := j - 4, i - 1;
    }
    assert Halves(num, numold) == end;
    decrypted := PutUint32(Xored(numold, WordAt(keys, 0))) + PutUint32(num);
  }

  /** Four bytes of the key table as a word. */
  function TableWord(keys: Keys, at: nat): Word
    requires at + 4 <= KEY_LENGTH
  {
    Uint32([keys[at], keys[at + 1], keys[at + 2], keys[at + 3]])
  }

  /** Which table words the bytes of a word select, lowest byte first, and how they are combined: the third byte's from
      0x448 plus the fourth's from 0x48, exclusive or the second's from 0x848, plus the first's from 0xC48. */
  lemma BytesSelect(keys: Keys, b0: Byte, b1: Byte, b2: Byte, b3: Byte)
    ensures Mix(keys, Uint32([b0, b1, b2, b3]))
         == Add(Xored(Add(TableWord(keys, 0x448 + 4 * b2), TableWord(keys, 0x48 + 4 * b3)),
                      TableWord(keys, 0x848 + 4 * b1)),
                TableWord(keys, 0xC48 + 4 * b0))
  {
    ByteParts(b0, b1, b2, b3);
    forall base: nat, b: Byte | base in {0x448, 0x48, 0x848, 0xC48}
      ensures Box(keys, base, b) == TableWord(keys, base + 4 * b)
    {
      BoxIsTableWord(keys, base, b);
    }
  }

  lemma BoxIsTableWord(keys: Keys, base: nat, b: Byte)
    requires BOXES_AT <= base <= 0xC48
    ensures Box(keys, base, b) == TableWord(keys, base + 4 * b)
  {
    var at := base + 4 * b;
    assert keys[at..at + 4] == [keys[at], keys[at + 1], keys[at + 2], keys[at + 3]];
  }

  lemma ByteParts(b0: Byte, b1: Byte, b2: Byte, b3: Byte)
    ensures var num := Uint32([b0, b1, b2, b3]);
      num % 0x100 == b0 && num / 0x100 % 0x100 == b1 && num / 0x1_0000 % 0x100 == b2 && num / 0x100_0000 == b3
  {
    var x3: int, x2: int, x1: int := b3, b2 + 0x100 * b3, b1 + 0x100 * (b2 + 0x100 * b3);
    var num: int := Uint32([b0, b1, b2, b3]);
    assert num == b0 + 0x100 * x1;
    assert num / 0x100 == x1;
    assert num / 0x1_0000 == x2;
  }

  /** The halves after each round: before the first, the first word under the subkey at 0x44, and the second word. */
  ghost predicate RoundByRound(keys: Keys, block: Block, hs: seq<Halves<Word>>) {
    && |hs| == 17
    && hs[0] == Halves(Xored(TableWord(keys, 0x44), Uint32(block[..4])), Uint32(block[4..]))
    && forall t :: 0 <= t < 16 ==>
         hs[t + 1] == Halves(Xored(hs[t].numold, Xored(Mix(keys, hs[t].num), TableWord(keys, 0x40 - 4 * t))), hs[t].num)
  }

  /** The rounds of a network, one by one. */
  lemma {:induction false} RoundList<W>(xor: (W, W) -> W, mix: W -> W, ks: seq<W>, top: nat, count: nat, h: Halves<W>)
    returns (hs: seq<Halves<W>>)
    requires count <= top < |ks|
    ensures |hs| == count + 1 && hs[0] == h && hs[count] == Rounds(xor, mix, ks, top, count, h)
    ensures forall t :: 0 <= t < count ==> hs[t + 1] == Round(xor, mix, ks[top - t], hs[t])
  {
    hs := [h];
    if count > 0 {
      var rest := RoundList(xor, mix, ks, top - 1, count - 1, Round(xor, mix, ks[top], h));
      hs := [h] + rest;
    }
  }

  lemma SubkeyAt(keys: Keys, i: nat)
    requires i < 18
    ensures Subkeys(keys)[i] == TableWord(keys, 4 * i)
  {
    assert keys[4 * i..4 * i + 4] == [keys[4 * i], keys[4 * i + 1], keys[4 * i + 2], keys[4 * i + 3]];
  }

  lemma OneRound(keys: Keys, t: nat, h: Halves<Word>, k: Word)
    requires t < 16 && k == TableWord(keys, 0x40 - 4 * t)
    ensures Round(Xor(), Mixer(keys), Subkeys(keys)[16 - t], h)
         == Halves(Xored(h.numold, Xored(Mix(keys, h.num), k)), h.num)
  {
    SubkeyAt(keys, 16 - t);
  }

  lemma AllRounds(keys: Keys, hs: seq<Halves<Word>>)
    requires |hs| == 17
    requires forall t :: 0 <= t < 16 ==> hs[t + 1] == Round(Xor(), Mixer(keys), Subkeys(keys)[16 - t], hs[t])
    ensures forall t :: 0 <= t < 16 ==>
      hs[t + 1] == Halves(Xored(hs[t].numold, Xored(Mix(keys, hs[t].num), TableWord(keys, 0x40 - 4 * t))), hs[t].num)
  {
    forall t | 0 <= t < 16 ensures hs[t + 1]
      == Halves(Xored(hs[t].numold, Xored(Mix(keys, hs[t].num), TableWord(keys, 0x40 - 4 * t))), hs[t].num)
    {
      OneRound(keys, t, hs[t], TableWord(keys, 0x40 - 4 * t));
    }
  }

  lemma BlockWords(block: Block)
    ensures WordAt(block, 0) == Uint32(block[..4]) && WordAt(block, 4) == Uint32(block[4..])
  {
    assert block[0..4] == block[..4] && block[4..8] == block[4..];
  }

  lemma DecryptedIs(keys: Keys, block: Block, h: Halves<Word>, z: Halves<Word>, n: nat)
    requires h == Halves(Xored(Subkeys(keys)[17], WordAt(block, 0)), WordAt(block, 4))
    requires n == |Subkeys(keys)| - 2 && z == Rounds(Xor(), Mixer(keys), Subkeys(keys), n, n, h)
    ensures Decrypted(keys, block) == PutUint32(Xored(z.numold, Subkeys(keys)[0])) + PutUint32(z.num)
  {
  }

  /** Decryption is sixteen rounds with the subkeys at 0x40 down to 4, each mixing one half into the other; what comes
      out is the older half under the subkey at 0, and the newer one. */
  lemma DecryptionRoundByRound(keys: Keys, block: Block) returns (hs: seq<Halves<Word>>)
    ensures RoundByRound(keys, block, hs)
    ensures Decrypted(keys, block) == PutUint32(Xored(hs[16].numold, TableWord(keys, 0))) + PutUint32(hs[16].num)
  {
    SubkeyAt(keys, 0);
    SubkeyAt(keys, 17);
    BlockWords(block);
    var h := Halves(Xored(Subkeys(keys)[17], WordAt(block, 0)), WordAt(block, 4));
    var n := |Subkeys(keys)| - 2;
    hs := RoundList(Xor(), Mixer(keys), Subkeys(keys), n, n, h);
    AllRounds(keys, hs);
    DecryptedIs(keys, block, h, hs[16], n);
  }

  function FromWords(ks: seq<Word>): (bs: Bytes)
    ensures |bs| == 4 * |ks|
  {
    if ks == [] then [] else PutUint32(ks[0]) + FromWords(ks[1..])
  }

  lemma {:induction false} WordOfWords(ks: seq<Word>, i: nat)
    requires i < |ks|
    ensures WordAt(FromWords(ks), 4 * i) == ks[i]
  {
    var first: Bytes, rest: Bytes := PutUint32(ks[0]), FromWords(ks[1..]);
    if i == 0 {
      assert (first + rest)[0..4] == first;
      WordSurvivesBytes(ks[0]);
    } else {
      WordOfWords(ks[1..], i - 1);
      assert (first + rest)[4 * i..4 * i + 4] == rest[4 * (i - 1)..4 * (i - 1) + 4];
    }
  }

  /** The key table with its eighteen subkeys in the opposite order and the same substitution boxes. */
  function ReverseSubkeys(keys: Keys): Keys {
    FromWords(Reverse(Subkeys(keys))) + keys[BOXES_AT..]
  }

  lemma ReversedTable(keys: Keys)
    ensures Subkeys(ReverseSubkeys(keys)) == Reverse(Subkeys(keys))
    ensures forall num: Word :: Mix(ReverseSubkeys(keys), num) == Mix(keys, num)
  {
    var r, head := ReverseSubkeys(keys), FromWords(Reverse(Subkeys(keys)));
    forall i: nat | i < 18 ensures Subkeys(r)[i] == Reverse(Subkeys(keys))[i] {
      WordOfWords(Reverse(Subkeys(keys)), i);
      assert r[4 * i..4 * i + 4] == head[4 * i..4 * i + 4];
    }
    forall base: nat, index: Byte | BOXES_AT <= base <= 0xC48
      ensures Box(r, base, index) == Box(keys, base, index)
    {
      var at := base + 4 * index;
      assert r[at..at + 4] == keys[at..at + 4];
    }
  }

  lemma {:induction false} SameRounds(xor: (Word, Word) -> Word, f: Word -> Word, g: Word -> Word,
                                      ks: seq<Word>, top: nat, count: nat, h: Halves<Word>)
    requires count <= top < |ks|
    requires forall x: Word :: f(x) == g(x)
    ensures Rounds(xor, f, ks, top, count, h) == Rounds(xor, g, ks, top, count, h)
  {
    if count > 0 {
      SameRounds(xor, f, g, ks, top - 1, count - 1, Round(xor, f, ks[top], h));
    }
  }

  lemma ReversedNetwork(keys: Keys, x: Word, y: Word)
    ensures Network(Xor(), Mixer(ReverseSubkeys(keys)), Subkeys(ReverseSubkeys(keys)), x, y)
         == Network(Xor(), Mixer(keys), Reverse(Subkeys(keys)), x, y)
  {
    var r, ks := ReverseSubkeys(keys), Reverse(Subkeys(keys));
    ReversedTable(keys);
    var n := |ks| - 2;
    SameRounds(Xor(), Mixer(r), Mixer(keys), ks, n, n, Halves(Xor()(ks[n + 1], x), y));
  }

  lemma BlockOfWords(x: Word, y: Word)
    ensures WordAt(PutUint32(x) + PutUint32(y), 0) == x
    ensures WordAt(PutUint32(x) + PutUint32(y), 4) == y
  {
    var out := PutUint32(x) + PutUint32(y);
    assert out[0..4] == PutUint32(x) && out[4..8] == PutUint32(y);
    WordSurvivesBytes(x);
    WordSurvivesBytes(y);
  }

  lemma WordsOfBlock(block: Block)
    ensures PutUint32(WordAt(block, 0)) + PutUint32(WordAt(block, 4)) == block
  {
    BytesSurviveWord(block[0..4]);
    BytesSurviveWord(block[4..8]);
    assert block == block[0..4] + block[4..8];
  }

  /** Decrypting with the subkeys in the opposite order undoes decryption, for every key table. */
  lemma DecryptionIsUndone(keys: Keys, block: Block)
    ensures Decrypted(ReverseSubkeys(keys), Decrypted(keys, block)) == block
  {
    var a, b := WordAt(block, 0), WordAt(block, 4);
    var (x, y) := Network(Xor(), Mixer(keys), Subkeys(keys), a, b);
    BlockOfWords(x, y);
    WordXorCancels();
    NetworkIsUndone(Xor(), Mixer(keys), Subkeys(keys), a, b);
    ReversedNetwork(keys, x, y);
    WordsOfBlock(block);
  }

  /** decryptBlock is a bijection on 8-byte blocks: no two blocks decrypt alike, and every block is
      the decryption of some block. */
  lemma DecryptionIsABijection(keys: Keys, b1: Block, b2: Block)
    ensures Decrypted(keys, b1) == Decrypted(keys, b2) <==> b1 == b2
    ensures exists c: Block :: Decrypted(keys, c) == b1
  {
    DecryptionIsUndone(keys, b1);
    DecryptionIsUndone(keys, b2);
    DecryptionIsOnto(keys, b1);
  }

  lemma {:induction false} BytesOfWords(bs: Bytes, ks: seq<Word>)
    requires |bs| == 4 * |ks|
    requires forall i :: 0 <= i < |ks| ==> ks[i] == WordAt(bs, 4 * i)
    ensures FromWords(ks) == bs
  {
    if ks != [] {
      assert bs == bs[0..4] + bs[4..];
      BytesSurviveWord(bs[0..4]);
      forall i | 0 <= i < |ks[1..]| ensures ks[1..][i] == WordAt(bs[4..], 4 * i) {
        assert bs[4..][4 * i..4 * i + 4] == bs[4 * (i + 1)..4 * (i + 1) + 4];
      }
      BytesOfWords(bs[4..], ks[1..]);
    }
  }

  lemma TableHead(keys: Keys)
    ensures FromWords(Subkeys(keys)) == keys[..BOXES_AT]
  {
    forall i: nat | i < 18 ensures Subkeys(keys)[i] == WordAt(keys[..BOXES_AT], 4 * i) {
      assert keys[..BOXES_AT][4 * i..4 * i + 4] == keys[4 * i..4 * i + 4];
    }
    BytesOfWords(keys[..BOXES_AT], Subkeys(keys));
  }

  lemma ReverseTwice(keys: Keys)
    ensures ReverseSubkeys(ReverseSubkeys(keys)) == keys
  {
    var r := ReverseSubkeys(keys);
    ReversedTable(keys);
    TableHead(keys);
    assert Reverse(Reverse(Subkeys(keys))) == Subkeys(keys);
    assert r[BOXES_AT..] == keys[BOXES_AT..];
    assert keys == keys[..BOXES_AT] + keys[BOXES_AT..];
  }

  lemma DecryptionIsOnto(keys: Keys, block: Block)
    ensures Decrypted(keys, Decrypted(ReverseSubkeys(keys), block)) == block
  {
    DecryptionIsUndone(ReverseSubkeys(keys), block);
    ReverseTwice(keys);
  }
}
