/** The bit operations both hash widths are made of, each with the operation that undoes it.
    The proofs spell one inner call out as a bit expression, so that the solver can simplify the composite. */
module BitMixing {
  function Rotl32(x: bv32, r: bv8): bv32
    requires 0 < r < 32
  {
    (x << r) | (x >> (32 - r))
  }

  function Rotl64(x: bv64, r: bv8): bv64
    requires 0 < r < 64
  {
    (x << r) | (x >> (64 - r))
  }

  function XorShift32(x: bv32, r: bv8): bv32
    requires r <= 32
  {
    x ^ (x >> r)
  }

  function XorShift64(x: bv64, r: bv8): bv64
    requires r <= 64
  {
    x ^ (x >> r)
  }

  function Times32(x: bv32, c: bv32): bv32 { x * c }

  function Times64(x: bv64, c: bv64): bv64 { x * c }

  function Plus32(x: bv32, c: bv32): bv32 { x + c }

  function Plus64(x: bv64, c: bv64): bv64 { x + c }

  function Xor32(x: bv32, k: bv32): bv32 { x ^ k }

  function Xor64(x: bv64, k: bv64): bv64 { x ^ k }

  function Fmix32(h: bv32): bv32 {
    XorShift32(Times32(XorShift32(Times32(XorShift32(h, 16), 0x85ebca6b), 13), 0xc2b2ae35), 16)
  }

  function Fmix64(h: bv64): bv64 {
    XorShift64(Times64(XorShift64(Times64(XorShift64(h, 33), 0xff51afd7ed558ccd), 33), 0xc4ceb9fe1a85ec53), 33)
  }

  method FinalMix32(h: bv32) returns (r: bv32)
    ensures r == Fmix32(h)
    ensures Unfmix32(r) == h
  {
    r := XorShift32(h, 16);
    r := Times32(r, 0x85ebca6b);
    r := XorShift32(r, 13);
    r := Times32(r, 0xc2b2ae35);
    r := XorShift32(r, 16);
    Fmix32Undone(h);
  }

  method FinalMix64(h: bv64) returns (r: bv64)
    ensures r == Fmix64(h)
    ensures Unfmix64(r) == h
  {
    r := XorShift64(h, 33);
    r := Times64(r, 0xff51afd7ed558ccd);
    r := XorShift64(r, 33);
    r := Times64(r, 0xc4ceb9fe1a85ec53);
    r := XorShift64(r, 33);
    Fmix64Undone(h);
  }

  function Unfmix32(h: bv32): bv32 {
    var mid := Times32(XorShift32(h, 16), 0x7ed1b41d);
    XorShift32(Times32(XorShift32(XorShift32(mid, 13), 26), 0xa5cb9243), 16)
  }

  function Unfmix64(h: bv64): bv64 {
    XorShift64(Times64(XorShift64(Times64(XorShift64(h, 33), 0x9cb4b2f8129337db), 33), 0x4f74430c22a54005), 33)
  }

  lemma Halfway32Undone(x: bv32)
    ensures XorShift32(XorShift32(x, 16), 16) == x
  {
    assert XorShift32(x ^ (x >> 16), 16) == x;
  }

  lemma Third32Undone(x: bv32)
    ensures XorShift32(XorShift32(XorShift32(x, 13), 13), 26) == x
  {
    assert XorShift32(x ^ (x >> 13), 13) == x ^ (x >> 26);
    assert XorShift32(x ^ (x >> 26), 26) == x;
  }

  lemma Halfway64Undone(x: bv64)
    ensures XorShift64(XorShift64(x, 33), 33) == x
  {
    assert XorShift64(x ^ (x >> 33), 33) == x;
  }

  lemma Xor32Undone(x: bv32, k: bv32)
    ensures Xor32(Xor32(x, k), k) == x
    ensures Xor32(x, k) == Xor32(k, x)
  {
    assert Xor32(x ^ k, k) == x;
  }

  lemma Xor64Undone(x: bv64, k: bv64)
    ensures Xor64(Xor64(x, k), k) == x
    ensures Xor64(x, k) == Xor64(k, x)
  {
    assert Xor64(x ^ k, k) == x;
  }

  lemma Plus32Undone(x: bv32, c: bv32)
    ensures Plus32(Plus32(x, c), 0 - c) == x
  {
    assert Plus32(x + c, 0 - c) == x;
  }

  lemma Plus32Redone(x: bv32, c: bv32)
    ensures Plus32(Plus32(x, 0 - c), c) == x
  {
    assert Plus32(x + (0 - c), c) == x;
  }

  lemma Plus64Undone(x: bv64, c: bv64)
    ensures Plus64(Plus64(x, c), 0 - c) == x
  {
    assert Plus64(x + c, 0 - c) == x;
  }

  lemma Plus64Redone(x: bv64, c: bv64)
    ensures Plus64(Plus64(x, 0 - c), c) == x
  {
    assert Plus64(x + (0 - c), c) == x;
  }

  // Every multiplier is odd, so each has an inverse modulo 2^32 or 2^64.

  lemma FmixFirst32Undone(x: bv32)
    ensures Times32(Times32(x, 0x85ebca6b), 0xa5cb9243) == x
  {
    assert Times32(x * 0x85ebca6b, 0xa5cb9243) == x;
  }

  lemma FmixSecond32Undone(x: bv32)
    ensures Times32(Times32(x, 0xc2b2ae35), 0x7ed1b41d) == x
  {
    assert Times32(x * 0xc2b2ae35, 0x7ed1b41d) == x;
  }

  lemma BlockFirst32Undone(x: bv32)
    ensures Times32(Times32(x, 0xcc9e2d51), 0xdee13bb1) == x
  {
    assert Times32(x * 0xcc9e2d51, 0xdee13bb1) == x;
  }

  lemma BlockSecond32Undone(x: bv32)
    ensures Times32(Times32(x, 0x1b873593), 0x56ed309b) == x
  {
    assert Times32(x * 0x1b873593, 0x56ed309b) == x;
  }

  lemma ByFive32Undone(x: bv32)
    ensures Times32(Times32(x, 5), 0xcccccccd) == x
  {
    assert Times32(x * 5, 0xcccccccd) == x;
  }

  lemma ByFive32Redone(x: bv32)
    ensures Times32(Times32(x, 0xcccccccd), 5) == x
  {
    assert Times32(x * 0xcccccccd, 5) == x;
  }

  lemma FmixFirst64Undone(x: bv64)
    ensures Times64(Times64(x, 0xff51afd7ed558ccd), 0x4f74430c22a54005) == x
  {
    assert Times64(x * 0xff51afd7ed558ccd, 0x4f74430c22a54005) == x;
  }

  lemma FmixSecond64Undone(x: bv64)
    ensures Times64(Times64(x, 0xc4ceb9fe1a85ec53), 0x9cb4b2f8129337db) == x
  {
    assert Times64(x * 0xc4ceb9fe1a85ec53, 0x9cb4b2f8129337db) == x;
  }

  lemma BlockFirst64Undone(x: bv64)
    ensures Times64(Times64(x, 0x87c37b91114253d5), 0xa98409e882ce4d7d) == x
  {
    assert Times64(x * 0x87c37b91114253d5, 0xa98409e882ce4d7d) == x;
  }

  lemma BlockSecond64Undone(x: bv64)
    ensures Times64(Times64(x, 0x4cf5ad432745937f), 0xa81e14edd9de2c7f) == x
  {
    assert Times64(x * 0x4cf5ad432745937f, 0xa81e14edd9de2c7f) == x;
  }

  lemma ByFive64Undone(x: bv64)
    ensures Times64(Times64(x, 5), 0xcccccccccccccccd) == x
  {
    assert Times64(x * 5, 0xcccccccccccccccd) == x;
  }

  lemma ByFive64Redone(x: bv64)
    ensures Times64(Times64(x, 0xcccccccccccccccd), 5) == x
  {
    assert Times64(x * 0xcccccccccccccccd, 5) == x;
  }

  /** fmix loses nothing: Unfmix32 recovers its argument. */
  lemma Fmix32Undone(h: bv32)
    ensures Unfmix32(Fmix32(h)) == h
  {
    var h1 := XorShift32(h, 16);
    var h2 := Times32(h1, 0x85ebca6b);
    var h3 := XorShift32(h2, 13);
    Halfway32Undone(Times32(h3, 0xc2b2ae35));
    FmixSecond32Undone(h3);
    Third32Undone(h2);
    FmixFirst32Undone(h1);
    Halfway32Undone(h);
  }

  /** The 64-bit fmix loses nothing either. */
  lemma Fmix64Undone(h: bv64)
    ensures Unfmix64(Fmix64(h)) == h
  {
    var h1 := XorShift64(h, 33);
    var h2 := Times64(h1, 0xff51afd7ed558ccd);
    var h3 := XorShift64(h2, 33);
    Halfway64Undone(Times64(h3, 0xc4ceb9fe1a85ec53));
    FmixSecond64Undone(h3);
    Halfway64Undone(h2);
    FmixFirst64Undone(h1);
    Halfway64Undone(h);
  }
}
