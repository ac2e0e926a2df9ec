/** The 64-bit streaming hash. It returns only the first of its two words; what is shown here is that the pair
    of words, which is what its mixing works on, never collides for inputs that differ in one place. */
module Murmur64 {
  import opened BitMixing
  import opened BlockStream

  const WIDTH: nat := 16
  const MODULUS: nat := 0x1_0000_0000_0000_0000

  datatype Words = Words(h1: bv64, h2: bv64)

  function Pack(b0: bv8, b1: bv8, b2: bv8, b3: bv8, b4: bv8, b5: bv8, b6: bv8, b7: bv8): bv64 {
    (b0 as bv64) | ((b1 as bv64) << 8) | ((b2 as bv64) << 16) | ((b3 as bv64) << 24)
    | ((b4 as bv64) << 32) | ((b5 as bv64) << 40) | ((b6 as bv64) << 48) | ((b7 as bv64) << 56)
  }

  /** Little-endian load of eight bytes; missing bytes read as zero. */
  function Load(b: Bytes, from: nat): bv64 {
    Pack(ByteAt(b, from), ByteAt(b, from + 1), ByteAt(b, from + 2), ByteAt(b, from + 3),
         ByteAt(b, from + 4), ByteAt(b, from + 5), ByteAt(b, from + 6), ByteAt(b, from + 7))
  }

  function Scramble1(k: bv64): bv64 {
    Times64(Rotl64(Times64(k, 0x87c37b91114253d5), 31), 0x4cf5ad432745937f)
  }

  function Scramble2(k: bv64): bv64 {
    Times64(Rotl64(Times64(k, 0x4cf5ad432745937f), 33), 0x87c37b91114253d5)
  }

  function Stir1(h1: bv64, h2: bv64): bv64 {
    Plus64(Times64(Plus64(Rotl64(h1, 27), h2), 5), 0x52dce729)
  }

  function Stir2(h2: bv64, h1: bv64): bv64 {
    Plus64(Times64(Plus64(Rotl64(h2, 31), h1), 5), 0x38495ab5)
  }

  function Step(w: Words, block: Bytes): Words {
    var h1 := Stir1(Xor64(w.h1, Scramble1(Load(block, 0))), w.h2);
    Words(h1, Stir2(Xor64(w.h2, Scramble2(Load(block, 8))), h1))
  }

  function TailMixed(w: Words, p: Bytes): Words {
    Words(if |p| == 0 then w.h1 else Xor64(w.h1, Scramble1(Load(p, 0))),
          if |p| <= 8 then w.h2 else Xor64(w.h2, Scramble2(Load(p, 8))))
  }

  /** The low 64 bits of the length. */
  function Length(total: nat): bv64 {
    Pack(Digit(total, 0), Digit(total, 1), Digit(total, 2), Digit(total, 3),
         Digit(total, 4), Digit(total, 5), Digit(total, 6), Digit(total, 7))
  }

  /** The last mix of the two words; the hash is its first component. */
  function FinalMix(w: Words, length: bv64): Words {
    var g1 := Plus64(Xor64(w.h1, length), Xor64(w.h2, length));
    var g2 := Plus64(Xor64(w.h2, length), g1);
    Words(Plus64(Fmix64(g1), Fmix64(g2)), Fmix64(g2))
  }

  function Seal(w: Words, pending: Bytes, total: nat): Words {
    FinalMix(TailMixed(w, pending), Length(total))
  }

  /** The hash is the first of the two words. */
  function Result(w: Words): bv64 {
    w.h1
  }

  function Start(seed: bv64): Words {
    Words(seed, seed)
  }

  // ---- Nothing is lost ----

  lemma Rotl64Undone(x: bv64)
    ensures Rotl64(Rotl64(x, 31), 33) == x
    ensures Rotl64(Rotl64(x, 33), 31) == x
    ensures Rotl64(Rotl64(x, 27), 37) == x
  {
    assert Rotl64((x << 31) | (x >> 33), 33) == x;
    assert Rotl64((x << 33) | (x >> 31), 31) == x;
    assert Rotl64((x << 27) | (x >> 37), 37) == x;
  }

  lemma Rotl64Redone(x: bv64)
    ensures Rotl64(Rotl64(x, 37), 27) == x
  {
    assert Rotl64((x << 37) | (x >> 27), 27) == x;
  }

  function Unscramble1(k: bv64): bv64 {
    Times64(Rotl64(Times64(k, 0xa81e14edd9de2c7f), 33), 0xa98409e882ce4d7d)
  }

  function Unscramble2(k: bv64): bv64 {
    Times64(Rotl64(Times64(k, 0xa98409e882ce4d7d), 31), 0xa81e14edd9de2c7f)
  }

  lemma Scramble1Undone(k: bv64)
    ensures Unscramble1(Scramble1(k)) == k
  {
    var k1 := Times64(k, 0x87c37b91114253d5);
    BlockFirst64Undone(k);
    Rotl64Undone(k1);
    BlockSecond64Undone(Rotl64(k1, 31));
  }

  lemma Scramble2Undone(k: bv64)
    ensures Unscramble2(Scramble2(k)) == k
  {
    var k1 := Times64(k, 0x4cf5ad432745937f);
    BlockSecond64Undone(k);
    Rotl64Undone(k1);
    BlockFirst64Undone(Rotl64(k1, 33));
  }

  function Unstir1(h1: bv64, h2: bv64): bv64 {
    Rotl64(Plus64(Times64(Plus64(h1, 0 - 0x52dce729), 0xcccccccccccccccd), 0 - h2), 37)
  }

  function Unstir2(h2: bv64, h1: bv64): bv64 {
    Rotl64(Plus64(Times64(Plus64(h2, 0 - 0x38495ab5), 0xcccccccccccccccd), 0 - h1), 33)
  }

  lemma Stir1Reached(h1: bv64, h2: bv64)
    ensures Stir1(Unstir1(h1, h2), h2) == h1
  {
    var g := Plus64(h1, 0 - 0x52dce729);
    var f := Times64(g, 0xcccccccccccccccd);
    Rotl64Redone(Plus64(f, 0 - h2));
    Plus64Redone(f, h2);
    ByFive64Redone(g);
    Plus64Redone(h1, 0x52dce729);
  }

  lemma Stir2Reached(h2: bv64, h1: bv64)
    ensures Stir2(Unstir2(h2, h1), h1) == h2
  {
    var g := Plus64(h2, 0 - 0x38495ab5);
    var f := Times64(g, 0xcccccccccccccccd);
    Rotl64Undone(Plus64(f, 0 - h1));
    Plus64Redone(f, h1);
    ByFive64Redone(g);
    Plus64Redone(h2, 0x38495ab5);
  }

  lemma Stir1Undone(h1: bv64, h2: bv64)
    ensures Unstir1(Stir1(h1, h2), h2) == h1
    ensures Stir1(Unstir1(h1, h2), h2) == h1
  {
    Stir1Reached(h1, h2);
    var g := Plus64(Rotl64(h1, 27), h2);
    Plus64Undone(Times64(g, 5), 0x52dce729);
    ByFive64Undone(g);
    Plus64Undone(Rotl64(h1, 27), h2);
    Rotl64Undone(h1);
  }

  lemma Stir2Undone(h2: bv64, h1: bv64)
    ensures Unstir2(Stir2(h2, h1), h1) == h2
    ensures Stir2(Unstir2(h2, h1), h1) == h2
  {
    Stir2Reached(h2, h1);
    var g := Plus64(Rotl64(h2, 31), h1);
    Plus64Undone(Times64(g, 5), 0x38495ab5);
    ByFive64Undone(g);
    Plus64Undone(Rotl64(h2, 31), h1);
    Rotl64Undone(h2);
  }

  lemma PackInjective(a0: bv8, a1: bv8, a2: bv8, a3: bv8, a4: bv8, a5: bv8, a6: bv8, a7: bv8,
                      b0: bv8, b1: bv8, b2: bv8, b3: bv8, b4: bv8, b5: bv8, b6: bv8, b7: bv8)
    requires Pack(a0, a1, a2, a3, a4, a5, a6, a7) == Pack(b0, b1, b2, b3, b4, b5, b6, b7)
    ensures a0 == b0 && a1 == b1 && a2 == b2 && a3 == b3 && a4 == b4 && a5 == b5 && a6 == b6 && a7 == b7
  {
  }

  lemma LoadInjective(a: Bytes, b: Bytes, from: nat)
    requires Load(a, from) == Load(b, from)
    ensures forall i :: from <= i < from + 8 ==> ByteAt(a, i) == ByteAt(b, i)
  {
    PackInjective(
      ByteAt(a, from), ByteAt(a, from + 1), ByteAt(a, from + 2), ByteAt(a, from + 3),
      ByteAt(a, from + 4), ByteAt(a, from + 5), ByteAt(a, from + 6), ByteAt(a, from + 7),
      ByteAt(b, from), ByteAt(b, from + 1), ByteAt(b, from + 2), ByteAt(b, from + 3),
      ByteAt(b, from + 4), ByteAt(b, from + 5), ByteAt(b, from + 6), ByteAt(b, from + 7));
  }

  lemma SameXor(s: bv64, t: bv64, k: bv64)
    requires Xor64(s, k) == Xor64(t, k)
    ensures s == t
  {
    Xor64Undone(s, k);
    Xor64Undone(t, k);
  }

  lemma SameMask(s: bv64, k: bv64, l: bv64)
    requires Xor64(s, k) == Xor64(s, l)
    ensures k == l
  {
    Xor64Undone(s, k);
    Xor64Undone(s, l);
    SameXor(k, l, s);
  }

  lemma MixedFirst(h: bv64, a: Bytes, b: Bytes)
    requires Xor64(h, Scramble1(Load(a, 0))) == Xor64(h, Scramble1(Load(b, 0)))
    ensures forall i :: 0 <= i < 8 ==> ByteAt(a, i) == ByteAt(b, i)
  {
    SameMask(h, Scramble1(Load(a, 0)), Scramble1(Load(b, 0)));
    Scramble1Undone(Load(a, 0));
    Scramble1Undone(Load(b, 0));
    LoadInjective(a, b, 0);
  }

  lemma MixedSecond(h: bv64, a: Bytes, b: Bytes)
    requires Xor64(h, Scramble2(Load(a, 8))) == Xor64(h, Scramble2(Load(b, 8)))
    ensures forall i :: 8 <= i < 16 ==> ByteAt(a, i) == ByteAt(b, i)
  {
    SameMask(h, Scramble2(Load(a, 8)), Scramble2(Load(b, 8)));
    Scramble2Undone(Load(a, 8));
    Scramble2Undone(Load(b, 8));
    LoadInjective(a, b, 8);
  }

  lemma SameBytes(a: Bytes, b: Bytes)
    requires |a| == |b| <= WIDTH
    requires forall i :: 0 <= i < |a| ==> ByteAt(a, i) == ByteAt(b, i)
    ensures a == b
  {
    forall i | 0 <= i < |a| ensures a[i] == b[i] {
      assert ByteAt(a, i) == ByteAt(b, i);
    }
  }

  lemma SameStep(s: Words, t: Words, a: Bytes, b: Bytes)
    requires Step(s, a) == Step(t, b)
    ensures s.h2 == t.h2 ==> Xor64(s.h1, Scramble1(Load(a, 0))) == Xor64(t.h1, Scramble1(Load(b, 0)))
    ensures Xor64(s.h2, Scramble2(Load(a, 8))) == Xor64(t.h2, Scramble2(Load(b, 8)))
  {
    var x, y := Xor64(s.h1, Scramble1(Load(a, 0))), Xor64(t.h1, Scramble1(Load(b, 0)));
    Stir1Undone(x, s.h2);
    Stir1Undone(y, t.h2);
    Stir2Undone(Xor64(s.h2, Scramble2(Load(a, 8))), Stir1(x, s.h2));
    Stir2Undone(Xor64(t.h2, Scramble2(Load(b, 8))), Stir1(y, t.h2));
  }

  /** A block step is injective in the pair of words and injective in the block. */
  lemma StepLossless()
    ensures Lossless(Step, WIDTH)
  {
    forall s, t, b | |b| == WIDTH && Step(s, b) == Step(t, b) ensures s == t {
      SameStep(s, t, b, b);
      SameXor(s.h2, t.h2, Scramble2(Load(b, 8)));
      SameXor(s.h1, t.h1, Scramble1(Load(b, 0)));
    }
    forall s, b, c | |b| == |c| == WIDTH && Step(s, b) == Step(s, c) ensures b == c {
      SameStep(s, s, b, c);
      MixedFirst(s.h1, b, c);
      MixedSecond(s.h2, b, c);
      SameBytes(b, c);
    }
  }

  /** The pair of words that a block step takes to `w`. */
  function Before(w: Words, block: Bytes): Words {
    var h2 := Xor64(Unstir2(w.h2, w.h1), Scramble2(Load(block, 8)));
    Words(Xor64(Unstir1(w.h1, h2), Scramble1(Load(block, 0))), h2)
  }

  /** For a fixed block the step is a bijection on the pair of words. */
  lemma StepBijective(w: Words, block: Bytes)
    ensures Step(Before(w, block), block) == w
    ensures Before(Step(w, block), block) == w
  {
    StepReached(w, block);
    StepReturns(w, block);
  }

  lemma StepReached(w: Words, block: Bytes)
    ensures Step(Before(w, block), block) == w
  {
    var k1, k2 := Scramble1(Load(block, 0)), Scramble2(Load(block, 8));
    var h2 := Xor64(Unstir2(w.h2, w.h1), k2);
    Xor64Undone(Unstir2(w.h2, w.h1), k2);
    Xor64Undone(Unstir1(w.h1, h2), k1);
    Stir1Undone(w.h1, h2);
    Stir2Undone(w.h2, w.h1);
  }

  lemma StepReturns(w: Words, block: Bytes)
    ensures Before(Step(w, block), block) == w
  {
    var k1, k2 := Scramble1(Load(block, 0)), Scramble2(Load(block, 8));
    var x1 := Xor64(w.h1, k1);
    Xor64Undone(w.h1, k1);
    Xor64Undone(w.h2, k2);
    Stir1Undone(x1, w.h2);
    Stir2Undone(Xor64(w.h2, k2), Stir1(x1, w.h2));
  }

  lemma TailBytes(w: Words, a: Bytes, b: Bytes)
    requires 0 < |a| == |b| < WIDTH && TailMixed(w, a) == TailMixed(w, b)
    ensures a == b
  {
    MixedFirst(w.h1, a, b);
    if |a| > 8 {
      MixedSecond(w.h2, a, b);
    }
    SameBytes(a, b);
  }

  lemma TailState(s: Words, t: Words, p: Bytes)
    requires TailMixed(s, p) == TailMixed(t, p)
    ensures s == t
  {
    if |p| > 0 {
      SameXor(s.h1, t.h1, Scramble1(Load(p, 0)));
    }
    if |p| > 8 {
      SameXor(s.h2, t.h2, Scramble2(Load(p, 8)));
    }
  }

  lemma TailMixedSeparates(s: Words, t: Words, a: Bytes, b: Bytes)
    requires |a| == |b| < WIDTH && (s != t <==> a == b)
    ensures TailMixed(s, a) != TailMixed(t, b)
  {
    if TailMixed(s, a) == TailMixed(t, b) {
      if s == t {
        TailBytes(s, a, b);
      } else {
        TailState(s, t, a);
      }
    }
  }

  lemma SamePlus(x: bv64, y: bv64, c: bv64)
    requires Plus64(x, c) == Plus64(y, c)
    ensures x == y
  {
    Plus64Undone(x, c);
    Plus64Undone(y, c);
  }

  lemma FinalMixSeparates(s: Words, t: Words, length: bv64)
    requires s != t
    ensures FinalMix(s, length) != FinalMix(t, length)
  {
    var s1, s2, t1, t2 := Xor64(s.h1, length), Xor64(s.h2, length), Xor64(t.h1, length), Xor64(t.h2, length);
    var g1, g2 := Plus64(s1, s2), Plus64(s2, Plus64(s1, s2));
    var k1, k2 := Plus64(t1, t2), Plus64(t2, Plus64(t1, t2));
    if FinalMix(s, length) == FinalMix(t, length) {
      SamePlus(Fmix64(g1), Fmix64(k1), Fmix64(g2));
      Fmix64Undone(g1);
      Fmix64Undone(k1);
      Fmix64Undone(g2);
      Fmix64Undone(k2);
      SamePlus(s2, t2, g1);
      SamePlus(s1, t1, s2);
      SameXor(s.h1, t.h1, length);
      SameXor(s.h2, t.h2, length);
    }
  }

  lemma SealKeepsApart()
    ensures SealSeparates(Seal, WIDTH)
  {
    forall s, t, a, b, total: nat | |a| == |b| < WIDTH && (s != t <==> a == b)
      ensures Seal(s, a, total) != Seal(t, b, total)
    {
      TailMixedSeparates(s, t, a, b);
      FinalMixSeparates(TailMixed(s, a), TailMixed(t, b), Length(total));
    }
  }

  /** Inputs of one length that differ in a single 16-byte block, or only in the tail, end with different words. */
  lemma OneBlockSeparatesWords(seed: bv64, a: Bytes, b: Bytes, i: nat)
    requires DifferOnlyInBlock(WIDTH, a, b, i)
    ensures Digest(Step, Seal, WIDTH, MODULUS, Start(seed), a) != Digest(Step, Seal, WIDTH, MODULUS, Start(seed), b)
  {
    StepLossless();
    SealKeepsApart();
    OneBlockSeparates(Step, Seal, WIDTH, MODULUS, Start(seed), a, b, i);
  }

  /** Lengths that differ modulo 2^64 are told apart. */
  lemma LengthsSeparate(acc: Words, pending: Bytes, t1: nat, t2: nat)
    requires |pending| < WIDTH && t1 % 0x1_0000_0000_0000_0000 != t2 % 0x1_0000_0000_0000_0000
    ensures Seal(acc, pending, t1) != Seal(acc, pending, t2)
  {
    var w := TailMixed(acc, pending);
    LengthsDiffer(t1, t2);
    MixedLengths(w, Length(t1), Length(t2));
  }

  lemma LengthsDiffer(t1: nat, t2: nat)
    requires t1 % 0x1_0000_0000_0000_0000 != t2 % 0x1_0000_0000_0000_0000
    ensures Length(t1) != Length(t2)
  {
    assert Pow256(4) == 0x1_0000_0000;
    assert Pow256(8) == 0x1_0000_0000_0000_0000;
    if Length(t1) == Length(t2) {
      PackInjective(
        Digit(t1, 0), Digit(t1, 1), Digit(t1, 2), Digit(t1, 3), Digit(t1, 4), Digit(t1, 5), Digit(t1, 6), Digit(t1, 7),
        Digit(t2, 0), Digit(t2, 1), Digit(t2, 2), Digit(t2, 3), Digit(t2, 4), Digit(t2, 5), Digit(t2, 6), Digit(t2, 7));
      SameDigits(t1, t2, 8);
    }
  }

  /** Mixing lengths into the same words is mixing one length into words that differ. */
  lemma MixedLengths(w: Words, l1: bv64, l2: bv64)
    requires l1 != l2
    ensures FinalMix(w, l1) != FinalMix(w, l2)
  {
    var u := Words(Xor64(w.h1, l1), Xor64(w.h2, l1));
    var v := Words(Xor64(w.h1, l2), Xor64(w.h2, l2));
    if u.h1 == v.h1 {
      SameMask(w.h1, l1, l2);
    }
    FinalMixSeparates(u, v, 0);
    XorNothing(u.h1);
    XorNothing(u.h2);
    XorNothing(v.h1);
    XorNothing(v.h2);
  }

  /** Different seeds end every input in different words. */
  lemma SeedsSeparate(seed: bv64, seed': bv64, data: Bytes)
    requires seed != seed'
    ensures Digest(Step, Seal, WIDTH, MODULUS, Start(seed), data)
         != Digest(Step, Seal, WIDTH, MODULUS, Start(seed'), data)
  {
    StepLossless();
    SealKeepsApart();
    StartsSeparate(Step, Seal, WIDTH, MODULUS, Start(seed), Start(seed'), data);
  }

  // ---- The operations, statement by statement ----

  method HandleBlock(w: Words, block: Bytes) returns (w': Words)
    requires |block| == WIDTH
    ensures w' == Step(w, block)
  {
    var k1, k2 := Load(block, 0), Load(block, 8);
    k1 := ScrambleWord1(k1);
    var h1 := Xor64(w.h1, k1);
    h1 := Rotl64(h1, 27);
    h1 := Plus64(h1, w.h2);
    h1 := Plus64(Times64(h1, 5), 0x52dce729);
    k2 := ScrambleWord2(k2);
    var h2 := Xor64(w.h2, k2);
    h2 := Rotl64(h2, 31);
    h2 := Plus64(h2, h1);
    h2 := Plus64(Times64(h2, 5), 0x38495ab5);
    w' := Words(h1, h2);
  }

  method ScrambleWord1(word: bv64) returns (k: bv64)
    ensures k == Scramble1(word)
  {
    k := Times64(word, 0x87c37b91114253d5);
    k := Rotl64(k, 31);
    k := Times64(k, 0x4cf5ad432745937f);
  }

  method ScrambleWord2(word: bv64) returns (k: bv64)
    ensures k == Scramble2(word)
  {
    k := Times64(word, 0x4cf5ad432745937f);
    k := Rotl64(k, 33);
    k := Times64(k, 0x87c37b91114253d5);
  }

  function XorByte(k: bv64, b: bv8, shift: bv8): bv64
    requires shift <= 64
  {
    k ^ ((b as bv64) << shift)
  }

  lemma XorNothing(k: bv64)
    ensures forall shift: bv8 | shift <= 64 :: XorByte(k, 0, shift) == k
  {
    forall shift: bv8 | shift <= 64 ensures XorByte(k, 0, shift) == k {
      assert k ^ ((0 as bv64) << shift) == k;
    }
  }

  lemma XorUpIsPack(b0: bv8, b1: bv8, b2: bv8, b3: bv8, b4: bv8, b5: bv8, b6: bv8, b7: bv8)
    ensures XorByte(XorByte(XorByte(XorByte(XorByte(XorByte(XorByte(XorByte(
              0, b7, 56), b6, 48), b5, 40), b4, 32), b3, 24), b2, 16), b1, 8), b0, 0)
         == Pack(b0, b1, b2, b3, b4, b5, b6, b7)
  {
  }

  /** Bytes from..to of the buffer, assembled from the last one down as the fall-through switch does. */
  method TailWord(buf: array<bv8>, from: nat, to: nat) returns (k: bv64)
    requires from < to <= buf.Length
    ensures k == Load(buf[..to], from)
  {
    ghost var p := buf[..to];
    k := 0;
    XorNothing(k);
    if to >= from + 8 { k := XorByte(k, buf[from + 7], 56); }
    assert k == XorByte(0, ByteAt(p, from + 7), 56);
    XorNothing(k);
    if to >= from + 7 { k := XorByte(k, buf[from + 6], 48); }
    XorNothing(k);
    if to >= from + 6 { k := XorByte(k, buf[from + 5], 40); }
    XorNothing(k);
    if to >= from + 5 { k := XorByte(k, buf[from + 4], 32); }
    XorNothing(k);
    if to >= from + 4 { k := XorByte(k, buf[from + 3], 24); }
    XorNothing(k);
    if to >= from + 3 { k := XorByte(k, buf[from + 2], 16); }
    XorNothing(k);
    if to >= from + 2 { k := XorByte(k, buf[from + 1], 8); }
    k := XorByte(k, buf[from], 0);
    XorUpIsPack(ByteAt(p, from), ByteAt(p, from + 1), ByteAt(p, from + 2), ByteAt(p, from + 3),
                ByteAt(p, from + 4), ByteAt(p, from + 5), ByteAt(p, from + 6), ByteAt(p, from + 7));
  }

  method MixTail(hasher: Hasher<Words>)
    requires hasher.Valid() && hasher.n == WIDTH
    modifies hasher`acc
    ensures hasher.acc == TailMixed(old(hasher.acc), hasher.buf[..hasher.buflen])
  {
    var w := hasher.acc;
    if hasher.buflen >= 9 {
      var k2 := TailWord(hasher.buf, 8, hasher.buflen);
      k2 := ScrambleWord2(k2);
      hasher.acc := hasher.acc.(h2 := Xor64(hasher.acc.h2, k2));
    }
    if hasher.buflen >= 1 {
      var k1 := TailWord(hasher.buf, 0, hasher.buflen);
      k1 := ScrambleWord1(k1);
      hasher.acc := hasher.acc.(h1 := Xor64(hasher.acc.h1, k1));
    }
  }

  /** The finalizer: only the first word is returned, and the addition that would complete the second is skipped. */
  method Finalize(hasher: Hasher<Words>, ghost s: Snapshot<Words>) returns (h: bv64)
    requires hasher.Valid() && hasher.n == WIDTH && hasher.modulus == MODULUS && s == hasher.View()
    modifies hasher`acc
    ensures hasher.acc == Seal(s.acc, s.pending, s.total)
    ensures h == hasher.acc.h1
  {
    MixTail(hasher);
    var length := Length(hasher.totalLength);
    var h1, h2 := Xor64(hasher.acc.h1, length), Xor64(hasher.acc.h2, length);
    h1 := Plus64(h1, h2);
    h2 := Plus64(h2, h1);
    h1 := FinalMix64(h1);
    h2 := FinalMix64(h2);
    h1 := Plus64(h1, h2);
    hasher.acc := Words(h1, h2);
    h := h1;
  }

  /** A new hasher, fed the chunks. */
  method Fed(seed: bv64, chunks: seq<Bytes>) returns (hasher: Hasher<Words>)
    ensures fresh(hasher) && fresh(hasher.buf) && hasher.Valid() && hasher.n == WIDTH && hasher.modulus == MODULUS
    ensures hasher.View() == Feed(Step, WIDTH, MODULUS, Snapshot(Start(seed), [], 0), Concat(chunks))
  {
    hasher := new Hasher<Words>(WIDTH, MODULUS, Step, Start(seed));
    hasher.UpdateAll(chunks);
  }

  lemma DigestIsSealed(seed: bv64, data: Bytes, s: Snapshot<Words>)
    requires s == Feed(Step, WIDTH, MODULUS, Snapshot(Start(seed), [], 0), data)
    ensures Digest(Step, Seal, WIDTH, MODULUS, Start(seed), data) == Seal(s.acc, s.pending, s.total)
  {
    DigestOf(Step, Seal, WIDTH, MODULUS, Start(seed), data, s);
  }

  /** Construct, feed the chunks, finalize: the result is the digest of the concatenation. */
  method Hash(seed: bv64, chunks: seq<Bytes>) returns (h: bv64)
    ensures h == Result(Digest(Step, Seal, WIDTH, MODULUS, Start(seed), Concat(chunks)))
  {
    var hasher := Fed(seed, chunks);
    ghost var s := hasher.View();
    DigestIsSealed(seed, Concat(chunks), s);
    h := Finalize(hasher, s);
  }
}
