/** Hashes of particular inputs. They fix every constant of the two hashes, the order of their operations and bytes, and
    the place of the length and the seed. */
module MurmurVectors {
  import opened ModArith
  import opened BlockStream
  import opened BitMixing
  import M32 = Murmur32
  import M64 = Murmur64

  function Hash32(seed: bv64, data: Bytes): bv32 {
    Digest(M32.Step, M32.Seal, M32.WIDTH, M32.MODULUS, M32.Start(seed), data)
  }

  function Hash64(seed: bv64, data: Bytes): M64.Words {
    Digest(M64.Step, M64.Seal, M64.WIDTH, M64.MODULUS, M64.Start(seed), data)
  }

  // ---- Inputs taken apart ----

  /** The length of an input that is not too long is its own count. */
  lemma Digested<S, R>(
      step: (S, Bytes) -> S, seal: (S, Bytes, nat) -> R, n: nat, modulus: nat, start: S, data: Bytes)
    requires 0 < n && |data| < modulus
    ensures Digest(step, seal, n, modulus, start, data) == seal(Absorb(step, n, start, data), Tail(n, data), |data|)
  {
    assert [] + data == data;
    ModUnique(|data|, modulus, 0, |data|);
  }

  lemma FirstBlock<S>(step: (S, Bytes) -> S, n: nat, acc: S, block: Bytes, rest: Bytes)
    requires n == |block| > 0
    ensures Absorb(step, n, acc, block + rest) == Absorb(step, n, step(acc, block), rest)
    ensures Tail(n, block + rest) == Tail(n, rest)
  {
    assert (block + rest)[..n] == block && (block + rest)[n..] == rest;
  }

  lemma NoBlock<S>(step: (S, Bytes) -> S, n: nat, acc: S, tail: Bytes)
    requires |tail| < n
    ensures Absorb(step, n, acc, tail) == acc && Tail(n, tail) == tail
  {
  }

  lemma OneBlock<S>(step: (S, Bytes) -> S, n: nat, acc: S, block: Bytes, tail: Bytes)
    requires |tail| < n == |block|
    ensures Absorb(step, n, acc, block + tail) == step(acc, block) && Tail(n, block + tail) == tail
  {
    FirstBlock(step, n, acc, block, tail);
    NoBlock(step, n, step(acc, block), tail);
  }

  lemma TwoBlocks<S>(step: (S, Bytes) -> S, n: nat, acc: S, first: Bytes, second: Bytes, tail: Bytes)
    requires |tail| < n == |first| == |second|
    ensures Absorb(step, n, acc, first + second + tail) == step(step(acc, first), second)
    ensures Tail(n, first + second + tail) == tail
  {
    assert first + second + tail == first + (second + tail);
    FirstBlock(step, n, acc, first, second + tail);
    OneBlock(step, n, step(acc, first), second, tail);
  }

  // ---- The steps of each, with their values ----

  lemma LowByte0()
    ensures Digit(0, 0) == 0
  {
    assert !BitAt(0, 0);
    assert !BitAt(0, 1);
    assert !BitAt(0, 2);
    assert !BitAt(0, 3);
    assert !BitAt(0, 4);
    assert !BitAt(0, 5);
    assert !BitAt(0, 6);
    assert !BitAt(0, 7);
  }

  lemma LowByte1()
    ensures Digit(1, 0) == 1
  {
    assert BitAt(1, 0);
    assert !BitAt(1, 1);
    assert !BitAt(1, 2);
    assert !BitAt(1, 3);
    assert !BitAt(1, 4);
    assert !BitAt(1, 5);
    assert !BitAt(1, 6);
    assert !BitAt(1, 7);
  }

  lemma LowByte4()
    ensures Digit(4, 0) == 4
  {
    assert !BitAt(4, 0);
    assert !BitAt(4, 1);
    assert BitAt(4, 2);
    assert !BitAt(4, 3);
    assert !BitAt(4, 4);
    assert !BitAt(4, 5);
    assert !BitAt(4, 6);
    assert !BitAt(4, 7);
  }

  lemma LowByte11()
    ensures Digit(11, 0) == 11
  {
    assert BitAt(11, 0);
    assert BitAt(11, 1);
    assert !BitAt(11, 2);
    assert BitAt(11, 3);
    assert !BitAt(11, 4);
    assert !BitAt(11, 5);
    assert !BitAt(11, 6);
    assert !BitAt(11, 7);
  }

  lemma LowByte43()
    ensures Digit(43, 0) == 43
  {
    assert BitAt(43, 0);
    assert BitAt(43, 1);
    assert !BitAt(43, 2);
    assert BitAt(43, 3);
    assert !BitAt(43, 4);
    assert BitAt(43, 5);
    assert !BitAt(43, 6);
    assert !BitAt(43, 7);
  }

  lemma Length32At0()
    ensures M32.Length(0) == 0
  {
    LowByte0();
    SmallDigit(0, 1);
    SmallDigit(0, 2);
    SmallDigit(0, 3);
    assert M32.Pack(0, 0, 0, 0) == 0;
  }

  lemma Length32At1()
    ensures M32.Length(1) == 1
  {
    LowByte1();
    SmallDigit(1, 1);
    SmallDigit(1, 2);
    SmallDigit(1, 3);
    assert M32.Pack(1, 0, 0, 0) == 1;
  }

  lemma Length32At4()
    ensures M32.Length(4) == 4
  {
    LowByte4();
    SmallDigit(4, 1);
    SmallDigit(4, 2);
    SmallDigit(4, 3);
    assert M32.Pack(4, 0, 0, 0) == 4;
  }

  lemma Length32At11()
    ensures M32.Length(11) == 11
  {
    LowByte11();
    SmallDigit(11, 1);
    SmallDigit(11, 2);
    SmallDigit(11, 3);
    assert M32.Pack(11, 0, 0, 0) == 11;
  }

  lemma Length64At0()
    ensures M64.Length(0) == 0
  {
    LowByte0();
    forall k | 1 <= k < 8 ensures Digit(0, k) == 0 {
      SmallDigit(0, k);
    }
    assert M64.Pack(0, 0, 0, 0, 0, 0, 0, 0) == 0;
  }

  lemma Length64At1()
    ensures M64.Length(1) == 1
  {
    LowByte1();
    forall k | 1 <= k < 8 ensures Digit(1, k) == 0 {
      SmallDigit(1, k);
    }
    assert M64.Pack(1, 0, 0, 0, 0, 0, 0, 0) == 1;
  }

  lemma Length64At43()
    ensures M64.Length(43) == 43
  {
    LowByte43();
    forall k | 1 <= k < 8 ensures Digit(43, k) == 0 {
      SmallDigit(43, k);
    }
    assert M64.Pack(43, 0, 0, 0, 0, 0, 0, 0) == 43;
  }

  lemma Seal32Empty()
    ensures M32.Seal(0x1, [], 0) == 0x514e28b7
  {
    Length32At0();
    assert Xor32(0x1, 0) == 0x1;
    assert Fmix32(0x1) == 0x514e28b7;
  }

  lemma Seal32Byte()
    ensures M32.Seal(0x0, [33], 1) == 0x72661cf4
  {
    assert M32.Load([33]) == 0x21;
    assert M32.Scramble(0x21) == 0xac5e5123;
    assert Xor32(0x0, 0xac5e5123) == 0xac5e5123;
    assert M32.TailMixed(0x0, [33]) == 0xac5e5123;
    Length32At1();
    assert Xor32(0xac5e5123, 1) == 0xac5e5122;
    assert Fmix32(0xac5e5122) == 0x72661cf4;
  }

  lemma Step32Block()
    ensures M32.Step(0x0, [33, 67, 101, 135]) == 0xbb095db4
  {
    assert M32.Load([33, 67, 101, 135]) == 0x87654321;
    assert M32.Scramble(0x87654321) == 0x5082edee;
    assert Xor32(0x0, 0x5082edee) == 0x5082edee;
    assert M32.Stir(0x5082edee) == 0xbb095db4;
  }

  lemma Seal32Block()
    ensures M32.Seal(0xbb095db4, [], 4) == 0xf55b516b
  {
    Length32At4();
    assert Xor32(0xbb095db4, 4) == 0xbb095db0;
    assert Fmix32(0xbb095db0) == 0xf55b516b;
  }

  lemma Step32First()
    ensures M32.Step(0x0, [1, 2, 3, 4]) == 0x4eb26727
  {
    assert M32.Load([1, 2, 3, 4]) == 0x4030201;
    assert M32.Scramble(0x4030201) == 0xf93bda2f;
    assert Xor32(0x0, 0xf93bda2f) == 0xf93bda2f;
    assert M32.Stir(0xf93bda2f) == 0x4eb26727;
  }

  lemma Step32Second()
    ensures M32.Step(0x4eb26727, [5, 6, 7, 8]) == 0xcb14a3c9
  {
    assert M32.Load([5, 6, 7, 8]) == 0x8070605;
    assert M32.Scramble(0x8070605) == 0x69bc5dea;
    assert Xor32(0x4eb26727, 0x69bc5dea) == 0x270e3acd;
    assert M32.Stir(0x270e3acd) == 0xcb14a3c9;
  }

  lemma Seal32Tail()
    ensures M32.Seal(0xcb14a3c9, [9, 10, 11], 11) == 0x1efb7fa
  {
    assert M32.Load([9, 10, 11]) == 0xb0a09;
    assert M32.Scramble(0xb0a09) == 0x95adcfa5;
    assert Xor32(0xcb14a3c9, 0x95adcfa5) == 0x5eb96c6c;
    assert M32.TailMixed(0xcb14a3c9, [9, 10, 11]) == 0x5eb96c6c;
    Length32At11();
    assert Xor32(0x5eb96c6c, 11) == 0x5eb96c67;
    assert Fmix32(0x5eb96c67) == 0x1efb7fa;
  }

  lemma Seal64EmptyMixed()
    ensures M64.FinalMix(M64.Words(0x1, 0x1), 0)
         == M64.Words(0x4610abe56eff5cb5, 0xb5181c509f8d8ce)
  {
    assert Xor64(0x1, 0) == 0x1;
    assert Xor64(0x1, 0) == 0x1;
    assert Plus64(0x1, 0x1) == 0x2;
    assert Plus64(0x1, 0x2) == 0x3;
    assert Fmix64(0x2) == 0x3abf2a20650683e7;
    assert Fmix64(0x3) == 0xb5181c509f8d8ce;
    assert Plus64(0x3abf2a20650683e7, 0xb5181c509f8d8ce) == 0x4610abe56eff5cb5;
  }

  lemma Seal64Empty()
    ensures M64.Seal(M64.Words(0x1, 0x1),
                     [], 0)
         == M64.Words(0x4610abe56eff5cb5, 0xb5181c509f8d8ce)
  {
    Length64At0();
    Seal64EmptyMixed();
  }

  lemma Step64First()
    ensures M64.Step(M64.Words(0x0, 0x0),
                     [1, 2, 3, 4, 5, 6, 7, 8, 9, 10, 11, 12, 13, 14, 15, 16])
         == M64.Words(0x178124fd7f939672, 0x561de10afd457487)
  {
    assert M64.Load([1, 2, 3, 4, 5, 6, 7, 8, 9, 10, 11, 12, 13, 14, 15, 16], 0) == 0x807060504030201;
    assert M64.Load([1, 2, 3, 4, 5, 6, 7, 8, 9, 10, 11, 12, 13, 14, 15, 16], 8) == 0x100f0e0d0c0b0a09;
    assert M64.Scramble1(0x807060504030201) == 0x84912ea0966db987;
    assert M64.Scramble2(0x100f0e0d0c0b0a09) == 0x1c70dd70c03cdcd6;
    assert Xor64(0x0, 0x84912ea0966db987) == 0x84912ea0966db987;
    assert Xor64(0x0, 0x1c70dd70c03cdcd6) == 0x1c70dd70c03cdcd6;
    assert M64.Stir1(0x84912ea0966db987, 0x0) == 0x178124fd7f939672;
    assert M64.Stir2(0x1c70dd70c03cdcd6, 0x178124fd7f939672) == 0x561de10afd457487;
  }

  lemma Step64Second()
    ensures M64.Step(M64.Words(0x178124fd7f939672, 0x561de10afd457487),
                     [17, 18, 19, 20, 21, 22, 23, 24, 25, 26, 27, 28, 29, 30, 31, 32])
         == M64.Words(0xba594ecfb8a1a4ef, 0x66a23bc2663e81eb)
  {
    assert M64.Load([17, 18, 19, 20, 21, 22, 23, 24, 25, 26, 27, 28, 29, 30, 31, 32], 0) == 0x1817161514131211;
    assert M64.Load([17, 18, 19, 20, 21, 22, 23, 24, 25, 26, 27, 28, 29, 30, 31, 32], 8) == 0x201f1e1d1c1b1a19;
    assert M64.Scramble1(0x1817161514131211) == 0x5e88441d34dfab1b;
    assert M64.Scramble2(0x201f1e1d1c1b1a19) == 0x3bf67394491e6766;
    assert Xor64(0x178124fd7f939672, 0x5e88441d34dfab1b) == 0x490960e04b4c3d69;
    assert Xor64(0x561de10afd457487, 0x3bf67394491e6766) == 0x6deb929eb45b13e1;
    assert M64.Stir1(0x490960e04b4c3d69, 0x561de10afd457487) == 0xba594ecfb8a1a4ef;
    assert M64.Stir2(0x6deb929eb45b13e1, 0xba594ecfb8a1a4ef) == 0x66a23bc2663e81eb;
  }

  lemma Seal64TailMixed()
    ensures M64.FinalMix(M64.Words(0x1e85c115ebf03840, 0xbf5b72efe6c19dff), 43)
         == M64.Words(0xa3931c893fa06d45, 0x4985e978ec23fc96)
  {
    assert Xor64(0x1e85c115ebf03840, 43) == 0x1e85c115ebf0386b;
    assert Xor64(0xbf5b72efe6c19dff, 43) == 0xbf5b72efe6c19dd4;
    assert Plus64(0x1e85c115ebf0386b, 0xbf5b72efe6c19dd4) == 0xdde13405d2b1d63f;
    assert Plus64(0xbf5b72efe6c19dd4, 0xdde13405d2b1d63f) == 0x9d3ca6f5b9737413;
    assert Fmix64(0xdde13405d2b1d63f) == 0x5a0d3310537c70af;
    assert Fmix64(0x9d3ca6f5b9737413) == 0x4985e978ec23fc96;
    assert Plus64(0x5a0d3310537c70af, 0x4985e978ec23fc96) == 0xa3931c893fa06d45;
  }

  lemma Seal64TailTailMixed()
    ensures M64.TailMixed(M64.Words(0xba594ecfb8a1a4ef, 0x66a23bc2663e81eb),
                          [33, 34, 35, 36, 37, 38, 39, 40, 41, 42, 43])
         == M64.Words(0x1e85c115ebf03840, 0xbf5b72efe6c19dff)
  {
    assert M64.Load([33, 34, 35, 36, 37, 38, 39, 40, 41, 42, 43], 0) == 0x2827262524232221;
    assert M64.Scramble1(0x2827262524232221) == 0xa4dc8fda53519caf;
    assert Xor64(0xba594ecfb8a1a4ef, 0xa4dc8fda53519caf) == 0x1e85c115ebf03840;
    assert M64.Load([33, 34, 35, 36, 37, 38, 39, 40, 41, 42, 43], 8) == 0x2b2a29;
    assert M64.Scramble2(0x2b2a29) == 0xd9f9492d80ff1c14;
    assert Xor64(0x66a23bc2663e81eb, 0xd9f9492d80ff1c14) == 0xbf5b72efe6c19dff;
  }

  lemma Seal64Tail()
    ensures M64.Seal(M64.Words(0xba594ecfb8a1a4ef, 0x66a23bc2663e81eb),
                     [33, 34, 35, 36, 37, 38, 39, 40, 41, 42, 43], 43)
         == M64.Words(0xa3931c893fa06d45, 0x4985e978ec23fc96)
  {
    Seal64TailTailMixed();
    Length64At43();
    Seal64TailMixed();
  }

  lemma Seal64ByteMixed()
    ensures M64.FinalMix(M64.Words(0x1f755a37035d90a7, 0x0), 1)
         == M64.Words(0x1411d0b2f8a2863d, 0x223dc7155ea78362)
  {
    assert Xor64(0x1f755a37035d90a7, 1) == 0x1f755a37035d90a6;
    assert Xor64(0x0, 1) == 0x1;
    assert Plus64(0x1f755a37035d90a6, 0x1) == 0x1f755a37035d90a7;
    assert Plus64(0x1, 0x1f755a37035d90a7) == 0x1f755a37035d90a8;
    assert Fmix64(0x1f755a37035d90a7) == 0xf1d4099d99fb02db;
    assert Fmix64(0x1f755a37035d90a8) == 0x223dc7155ea78362;
    assert Plus64(0xf1d4099d99fb02db, 0x223dc7155ea78362) == 0x1411d0b2f8a2863d;
  }

  lemma Seal64ByteTailMixed()
    ensures M64.TailMixed(M64.Words(0x0, 0x0),
                          [33])
         == M64.Words(0x1f755a37035d90a7, 0x0)
  {
    assert M64.Load([33], 0) == 0x21;
    assert M64.Scramble1(0x21) == 0x1f755a37035d90a7;
    assert Xor64(0x0, 0x1f755a37035d90a7) == 0x1f755a37035d90a7;
  }

  lemma Seal64Byte()
    ensures M64.Seal(M64.Words(0x0, 0x0),
                     [33], 1)
         == M64.Words(0x1411d0b2f8a2863d, 0x223dc7155ea78362)
  {
    Seal64ByteTailMixed();
    Length64At1();
    Seal64ByteMixed();
  }

  // ---- The hashes ----

  lemma Starts()
    ensures M32.Start(0) == 0 && M32.Start(1) == 1
    ensures M64.Start(0) == M64.Words(0, 0) && M64.Start(1) == M64.Words(1, 1)
  {
  }

  /** The 32-bit hash of nothing under seed 1, of one byte, of one block, and of two blocks and a tail. */
  lemma Vectors32()
    ensures Hash32(1, []) == 0x514e28b7
    ensures Hash32(0, [0x21]) == 0x72661cf4
    ensures Hash32(0, [0x21, 0x43, 0x65, 0x87]) == 0xf55b516b
    ensures Hash32(0, [1, 2, 3, 4] + [5, 6, 7, 8] + [9, 10, 11]) == 0x1efb7fa
  {
    Nothing32();
    Byte32();
    Block32();
    Blocks32();
  }

  lemma Nothing32()
    ensures Hash32(1, []) == 0x514e28b7
  {
    Starts();
    Seal32Empty();
    Digested(M32.Step, M32.Seal, M32.WIDTH, M32.MODULUS, M32.Start(1), []);
    NoBlock(M32.Step, M32.WIDTH, M32.Start(1), []);
  }

  lemma Byte32()
    ensures Hash32(0, [0x21]) == 0x72661cf4
  {
    Starts();
    Seal32Byte();
    Digested(M32.Step, M32.Seal, M32.WIDTH, M32.MODULUS, M32.Start(0), [0x21]);
    NoBlock(M32.Step, M32.WIDTH, M32.Start(0), [0x21]);
  }

  lemma Block32()
    ensures Hash32(0, [0x21, 0x43, 0x65, 0x87]) == 0xf55b516b
  {
    Starts();
    Step32Block();
    Seal32Block();
    var block: Bytes := [0x21, 0x43, 0x65, 0x87];
    Digested(M32.Step, M32.Seal, M32.WIDTH, M32.MODULUS, M32.Start(0), block);
    OneBlock(M32.Step, M32.WIDTH, M32.Start(0), block, []);
    assert block + [] == block;
  }

  lemma Blocks32()
    ensures Hash32(0, [1, 2, 3, 4] + [5, 6, 7, 8] + [9, 10, 11]) == 0x1efb7fa
  {
    Starts();
    Step32First();
    Step32Second();
    Seal32Tail();
    var first: Bytes, second: Bytes, tail: Bytes := [1, 2, 3, 4], [5, 6, 7, 8], [9, 10, 11];
    Digested(M32.Step, M32.Seal, M32.WIDTH, M32.MODULUS, M32.Start(0), first + second + tail);
    TwoBlocks(M32.Step, M32.WIDTH, M32.Start(0), first, second, tail);
  }

  /** The words of nothing under seed 1, of one byte, and of two blocks and a tail of eleven bytes; the hash is the
      first word. */
  lemma Vectors64()
    ensures Hash64(1, []) == M64.Words(0x4610abe56eff5cb5, 0xb5181c509f8d8ce)
    ensures Hash64(0, [0x21]) == M64.Words(0x1411d0b2f8a2863d, 0x223dc7155ea78362)
    ensures Hash64(0, [1, 2, 3, 4, 5, 6, 7, 8, 9, 10, 11, 12, 13, 14, 15, 16] +
                      [17, 18, 19, 20, 21, 22, 23, 24, 25, 26, 27, 28, 29, 30, 31, 32] +
                      [33, 34, 35, 36, 37, 38, 39, 40, 41, 42, 43])
         == M64.Words(0xa3931c893fa06d45, 0x4985e978ec23fc96)
    ensures M64.Result(Hash64(1, [])) == 0x4610abe56eff5cb5 && M64.Result(Hash64(0, [0x21])) == 0x1411d0b2f8a2863d
  {
    Nothing64();
    Byte64();
    Blocks64();
  }

  lemma Nothing64()
    ensures Hash64(1, []) == M64.Words(0x4610abe56eff5cb5, 0xb5181c509f8d8ce)
  {
    Starts();
    Seal64Empty();
    Digested(M64.Step, M64.Seal, M64.WIDTH, M64.MODULUS, M64.Start(1), []);
    NoBlock(M64.Step, M64.WIDTH, M64.Start(1), []);
  }

  lemma Byte64()
    ensures Hash64(0, [0x21]) == M64.Words(0x1411d0b2f8a2863d, 0x223dc7155ea78362)
  {
    Starts();
    Seal64Byte();
    Digested(M64.Step, M64.Seal, M64.WIDTH, M64.MODULUS, M64.Start(0), [0x21]);
    NoBlock(M64.Step, M64.WIDTH, M64.Start(0), [0x21]);
  }

  lemma Blocks64()
    ensures Hash64(0, [1, 2, 3, 4, 5, 6, 7, 8, 9, 10, 11, 12, 13, 14, 15, 16] +
                      [17, 18, 19, 20, 21, 22, 23, 24, 25, 26, 27, 28, 29, 30, 31, 32] +
                      [33, 34, 35, 36, 37, 38, 39, 40, 41, 42, 43])
         == M64.Words(0xa3931c893fa06d45, 0x4985e978ec23fc96)
  {
    Starts();
    Step64First();
    Step64Second();
    Seal64Tail();
    var first: Bytes := [1, 2, 3, 4, 5, 6, 7, 8, 9, 10, 11, 12, 13, 14, 15, 16];
    var second: Bytes := [17, 18, 19, 20, 21, 22, 23, 24, 25, 26, 27, 28, 29, 30, 31, 32];
    var tail: Bytes := [33, 34, 35, 36, 37, 38, 39, 40, 41, 42, 43];
    Digested(M64.Step, M64.Seal, M64.WIDTH, M64.MODULUS, M64.Start(0), first + second + tail);
    TwoBlocks(M64.Step, M64.WIDTH, M64.Start(0), first, second, tail);
  }
}
