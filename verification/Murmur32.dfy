/** The 32-bit streaming hash. */
module Murmur32 {
  import opened BitMixing
  import opened BlockStream

  const WIDTH: nat := 4
  const MODULUS: nat := 0x1_0000_0000

  function Pack(b0: bv8, b1: bv8, b2: bv8, b3: bv8): bv32 {
    (b0 as bv32) | ((b1 as bv32) << 8) | ((b2 as bv32) << 16) | ((b3 as bv32) << 24)
  }

  /** Little-endian load; missing bytes read as zero. */
  function Load(b: Bytes): bv32 {
    Pack(ByteAt(b, 0), ByteAt(b, 1), ByteAt(b, 2), ByteAt(b, 3))
  }

  function Scramble(k: bv32): bv32 {
    Times32(Rotl32(Times32(k, 0xcc9e2d51), 15), 0x1b873593)
  }

  function Stir(h: bv32): bv32 {
    Plus32(Times32(Rotl32(h, 13), 5), 0xe6546b64)
  }

  function Step(h: bv32, block: Bytes): bv32 {
    Stir(Xor32(h, Scramble(Load(block))))
  }

  function TailMixed(acc: bv32, pending: Bytes): bv32 {
    if pending == [] then acc else Xor32(acc, Scramble(Load(pending)))
  }

  /** The low 32 bits of the length. */
  function Length(total: nat): bv32 {
    Pack(Digit(total, 0), Digit(total, 1), Digit(total, 2), Digit(total, 3))
  }

  function Seal(acc: bv32, pending: Bytes, total: nat): bv32 {
    Fmix32(Xor32(TailMixed(acc, pending), Length(total)))
  }

  function Start(seed: bv64): bv32 {
    (seed & 0xffff_ffff) as bv32
  }

  // ---- Nothing is lost ----

  function Unscramble(k: bv32): bv32 {
    Times32(Rotl32(Times32(k, 0x56ed309b), 17), 0xdee13bb1)
  }

  lemma Rotl32Undone(x: bv32)
    ensures Rotl32(Rotl32(x, 15), 17) == x
    ensures Rotl32(Rotl32(x, 13), 19) == x
  {
  }

  lemma Rotl32Redone(x: bv32)
    ensures Rotl32(Rotl32(x, 19), 13) == x
  {
    assert Rotl32((x << 19) | (x >> 13), 13) == x;
  }

  lemma ScrambleUndone(k: bv32)
    ensures Unscramble(Scramble(k)) == k
  {
    var k1 := Times32(k, 0xcc9e2d51);
    BlockFirst32Undone(k);
    Rotl32Undone(k1);
    BlockSecond32Undone(Rotl32(k1, 15));
  }

  function Unstir(h: bv32): bv32 {
    Rotl32(Times32(Plus32(h, 0 - 0xe6546b64), 0xcccccccd), 19)
  }

  lemma StirReached(h: bv32)
    ensures Stir(Unstir(h)) == h
  {
    var g := Plus32(h, 0 - 0xe6546b64);
    Rotl32Redone(Times32(g, 0xcccccccd));
    ByFive32Redone(g);
    Plus32Redone(h, 0xe6546b64);
  }

  lemma StirUndone(h: bv32)
    ensures Unstir(Stir(h)) == h
    ensures Stir(Unstir(h)) == h
  {
    StirReached(h);
    Plus32Undone(Times32(Rotl32(h, 13), 5), 0xe6546b64);
    ByFive32Undone(Rotl32(h, 13));
    Rotl32Undone(h);
  }

  /** Assembling a short tail byte by byte is the same little-endian load. */
  lemma TailLoad(b: Bytes)
    requires 1 <= |b| <= 3
    ensures |b| == 3 ==> Load(b) == 0 ^ ((b[2] as bv32) << 16) ^ ((b[1] as bv32) << 8) ^ (b[0] as bv32)
    ensures |b| == 2 ==> Load(b) == 0 ^ ((b[1] as bv32) << 8) ^ (b[0] as bv32)
    ensures |b| == 1 ==> Load(b) == 0 ^ (b[0] as bv32)
  {
  }

  lemma PackInjective(a0: bv8, a1: bv8, a2: bv8, a3: bv8, b0: bv8, b1: bv8, b2: bv8, b3: bv8)
    requires Pack(a0, a1, a2, a3) == Pack(b0, b1, b2, b3)
    ensures a0 == b0 && a1 == b1 && a2 == b2 && a3 == b3
  {
  }

  lemma LoadInjective(a: Bytes, b: Bytes)
    requires |a| == |b| <= WIDTH && Load(a) == Load(b)
    ensures a == b
  {
    PackInjective(ByteAt(a, 0), ByteAt(a, 1), ByteAt(a, 2), ByteAt(a, 3),
                  ByteAt(b, 0), ByteAt(b, 1), ByteAt(b, 2), ByteAt(b, 3));
    forall i | 0 <= i < |a| ensures a[i] == b[i] {
      assert ByteAt(a, i) == a[i] && ByteAt(b, i) == b[i];
    }
  }

  lemma MixedState(s: bv32, t: bv32, k: bv32)
    requires Xor32(s, k) == Xor32(t, k)
    ensures s == t
  {
    Xor32Undone(s, k);
    Xor32Undone(t, k);
  }

  /** Mixing into the same accumulator separates different bytes, a block and a tail alike. */
  lemma MixedBytes(s: bv32, a: Bytes, b: Bytes)
    requires |a| == |b| <= WIDTH && Xor32(s, Scramble(Load(a))) == Xor32(s, Scramble(Load(b)))
    ensures a == b
  {
    Xor32Undone(s, Scramble(Load(a)));
    Xor32Undone(s, Scramble(Load(b)));
    MixedState(Scramble(Load(a)), Scramble(Load(b)), s);
    ScrambleUndone(Load(a));
    ScrambleUndone(Load(b));
    LoadInjective(a, b);
  }

  /** A block step is injective in the accumulator and injective in the block. */
  lemma StepLossless()
    ensures Lossless(Step, WIDTH)
  {
    forall s, t, b | |b| == WIDTH && Step(s, b) == Step(t, b) ensures s == t {
      StirUndone(Xor32(s, Scramble(Load(b))));
      StirUndone(Xor32(t, Scramble(Load(b))));
      MixedState(s, t, Scramble(Load(b)));
    }
    forall s, b, c | |b| == |c| == WIDTH && Step(s, b) == Step(s, c) ensures b == c {
      StirUndone(Xor32(s, Scramble(Load(b))));
      StirUndone(Xor32(s, Scramble(Load(c))));
      MixedBytes(s, b, c);
    }
  }

  /** The accumulator that a block step takes to `h`. */
  function Before(h: bv32, block: Bytes): bv32 {
    Xor32(Unstir(h), Scramble(Load(block)))
  }

  /** For a fixed block the step is a bijection on the accumulator. */
  lemma StepBijective(h: bv32, block: Bytes)
    ensures Step(Before(h, block), block) == h
    ensures Before(Step(h, block), block) == h
  {
    var k := Scramble(Load(block));
    StirUndone(h);
    StirUndone(Xor32(h, k));
    Xor32Undone(Unstir(h), k);
    Xor32Undone(h, k);
  }

  lemma TailMixedSeparates(s: bv32, t: bv32, a: Bytes, b: Bytes)
    requires |a| == |b| < WIDTH && (s != t <==> a == b)
    ensures TailMixed(s, a) != TailMixed(t, b)
  {
    if TailMixed(s, a) == TailMixed(t, b) && a != [] {
      if s == t {
        MixedBytes(s, a, b);
      } else {
        MixedState(s, t, Scramble(Load(a)));
      }
    }
  }

  lemma SealKeepsApart()
    ensures SealSeparates(Seal, WIDTH)
  {
    forall s, t, a, b, total: nat | |a| == |b| < WIDTH && (s != t <==> a == b)
      ensures Seal(s, a, total) != Seal(t, b, total)
    {
      TailMixedSeparates(s, t, a, b);
      FinalMixSeparates(TailMixed(s, a), TailMixed(t, b), Length(total));
    }
  }

  lemma FinalMixSeparates(g: bv32, h: bv32, length: bv32)
    requires g != h
    ensures Fmix32(Xor32(g, length)) != Fmix32(Xor32(h, length))
  {
    Xor32Undone(g, length);
    Xor32Undone(h, length);
    Fmix32Undone(Xor32(g, length));
    Fmix32Undone(Xor32(h, length));
  }

  /** No collision between inputs of one length that differ in a single aligned block, or only in the tail. */
  lemma OneBlockNoCollision(seed: bv64, a: Bytes, b: Bytes, i: nat)
    requires DifferOnlyInBlock(WIDTH, a, b, i)
    ensures Digest(Step, Seal, WIDTH, MODULUS, Start(seed), a) != Digest(Step, Seal, WIDTH, MODULUS, Start(seed), b)
  {
    StepLossless();
    SealKeepsApart();
    OneBlockSeparates(Step, Seal, WIDTH, MODULUS, Start(seed), a, b, i);
  }

  /** Lengths that differ modulo 2^32 are told apart. */
  lemma LengthsSeparate(acc: bv32, pending: Bytes, t1: nat, t2: nat)
    requires |pending| < WIDTH && t1 % 0x1_0000_0000 != t2 % 0x1_0000_0000
    ensures Seal(acc, pending, t1) != Seal(acc, pending, t2)
  {
    var h := TailMixed(acc, pending);
    LengthsDiffer(t1, t2);
    Xor32Undone(h, Length(t1));
    Xor32Undone(h, Length(t2));
    if Xor32(h, Length(t1)) == Xor32(h, Length(t2)) {
      MixedState(Length(t1), Length(t2), h);
    }
    Fmix32Undone(Xor32(h, Length(t1)));
    Fmix32Undone(Xor32(h, Length(t2)));
  }

  lemma LengthsDiffer(t1: nat, t2: nat)
    requires t1 % 0x1_0000_0000 != t2 % 0x1_0000_0000
    ensures Length(t1) != Length(t2)
  {
    assert Pow256(4) == 0x1_0000_0000;
    if Length(t1) == Length(t2) {
      PackInjective(Digit(t1, 0), Digit(t1, 1), Digit(t1, 2), Digit(t1, 3),
                    Digit(t2, 0), Digit(t2, 1), Digit(t2, 2), Digit(t2, 3));
      SameDigits(t1, t2, 4);
    }
  }

  /** Seeds that differ in their low 32 bits give every input different hashes. */
  lemma SeedsSeparate(seed: bv64, seed': bv64, data: Bytes)
    requires seed & 0xffff_ffff != seed' & 0xffff_ffff
    ensures Digest(Step, Seal, WIDTH, MODULUS, Start(seed), data)
         != Digest(Step, Seal, WIDTH, MODULUS, Start(seed'), data)
  {
    StepLossless();
    SealKeepsApart();
    StartsDiffer(seed, seed');
    StartsSeparate(Step, Seal, WIDTH, MODULUS, Start(seed), Start(seed'), data);
  }

  lemma StartsDiffer(seed: bv64, seed': bv64)
    requires seed & 0xffff_ffff != seed' & 0xffff_ffff
    ensures Start(seed) != Start(seed')
  {
  }

  // ---- The operations, statement by statement ----

  method ScrambleWord(word: bv32) returns (k: bv32)
    ensures k == Scramble(word)
  {
    k := Times32(word, 0xcc9e2d51);
    k := Rotl32(k, 15);
    k := Times32(k, 0x1b873593);
  }

  method HandleBlock(out: bv32, block: Bytes) returns (out': bv32)
    requires |block| == WIDTH
    ensures out' == Step(out, block)
  {
    var k := ScrambleWord(Load(block));
    out' := Xor32(out, k);
    out' := Rotl32(out', 13);
    out' := Plus32(Times32(out', 5), 0xe6546b64);
  }

  /** The tail bytes as one little-endian word, most significant first. */
  method TailWord(buf: array<bv8>, buflen: nat) returns (k: bv32)
    requires 0 < buflen < WIDTH == buf.Length
    ensures k == Load(buf[..buflen])
  {
    k := 0;
    if buflen == 3 { k := k ^ ((buf[2] as bv32) << 16); }
    if buflen >= 2 { k := k ^ ((buf[1] as bv32) << 8); }
    k := k ^ (buf[0] as bv32);
    TailLoad(buf[..buflen]);
  }

  method MixTail(hasher: Hasher<bv32>)
    requires hasher.Valid() && hasher.n == WIDTH
    modifies hasher`acc
    ensures hasher.acc == TailMixed(old(hasher.acc), hasher.buf[..hasher.buflen])
  {
    if hasher.buflen > 0 {
      var k := TailWord(hasher.buf, hasher.buflen);
      k := ScrambleWord(k);
      hasher.acc := Xor32(hasher.acc, k);
    }
  }

  /** The finalizer. It leaves the accumulator mixed, so the hasher is spent afterwards. */
  method Finalize(hasher: Hasher<bv32>, ghost s: Snapshot<bv32>) returns (h: bv32)
    requires hasher.Valid() && hasher.n == WIDTH && hasher.modulus == MODULUS && s == hasher.View()
    modifies hasher`acc
    ensures h == Seal(s.acc, s.pending, s.total)
    ensures h == Fmix32(hasher.acc)
  {
    MixTail(hasher);
    hasher.acc := Xor32(hasher.acc, Length(hasher.totalLength));
    h := FinalMix32(hasher.acc);
  }

  /** A new hasher, fed the chunks. */
  method Fed(seed: bv64, chunks: seq<Bytes>) returns (hasher: Hasher<bv32>)
    ensures fresh(hasher) && fresh(hasher.buf) && hasher.Valid() && hasher.n == WIDTH && hasher.modulus == MODULUS
    ensures hasher.View() == Feed(Step, WIDTH, MODULUS, Snapshot(Start(seed), [], 0), Concat(chunks))
  {
    hasher := new Hasher<bv32>(WIDTH, MODULUS, Step, Start(seed));
    hasher.UpdateAll(chunks);
  }

  lemma DigestIsSealed(seed: bv64, data: Bytes, s: Snapshot<bv32>)
    requires s == Feed(Step, WIDTH, MODULUS, Snapshot(Start(seed), [], 0), data)
    ensures Digest(Step, Seal, WIDTH, MODULUS, Start(seed), data) == Seal(s.acc, s.pending, s.total)
  {
    DigestOf(Step, Seal, WIDTH, MODULUS, Start(seed), data, s);
  }

  /** Construct, feed the chunks, finalize: the result is the digest of the concatenation. */
  method Hash(seed: bv64, chunks: seq<Bytes>) returns (h: bv32)
    ensures h == Digest(Step, Seal, WIDTH, MODULUS, Start(seed), Concat(chunks))
  {
    var hasher := Fed(seed, chunks);
    ghost var s := hasher.View();
    DigestIsSealed(seed, Concat(chunks), s);
    h := Finalize(hasher, s);
  }
}
