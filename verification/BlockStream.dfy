/** A buffered, block-at-a-time hasher, independent of the block width and of how a block is mixed in.
    `step` folds one complete block of `n` bytes into the accumulator; an incomplete block waits in `pending`. */
module BlockStream {
  import opened ModArith

  type Bytes = seq<bv8>

  /** The byte at a place; missing bytes read as zero. */
  function ByteAt(b: Bytes, i: nat): bv8 {
    if i < |b| then b[i] else 0
  }

  predicate BitAt(n: nat, k: nat) {
    if k == 0 then n % 2 == 1 else BitAt(n / 2, k - 1)
  }

  function ByteOf(b0: bool, b1: bool, b2: bool, b3: bool, b4: bool, b5: bool, b6: bool, b7: bool): bv8 {
    (if b0 then 1 else 0) | (if b1 then 2 else 0) | (if b2 then 4 else 0) | (if b3 then 8 else 0)
      | (if b4 then 16 else 0) | (if b5 then 32 else 0) | (if b6 then 64 else 0) | (if b7 then 128 else 0)
  }

  /** The byte of a number at place `k`, least significant first. */
  function Digit(n: nat, k: nat): bv8 {
    if k == 0
    then ByteOf(BitAt(n, 0), BitAt(n, 1), BitAt(n, 2), BitAt(n, 3), BitAt(n, 4), BitAt(n, 5), BitAt(n, 6), BitAt(n, 7))
    else Digit(n / 256, k - 1)
  }

  lemma {:induction false} NoBits(k: nat)
    ensures !BitAt(0, k)
  {
    if k > 0 {
      NoBits(k - 1);
    }
  }

  /** A number below 256 is all in its last byte. */
  lemma {:induction false} SmallDigit(n: nat, k: nat)
    requires n < 256 && k > 0
    ensures Digit(n, k) == 0
  {
    if k > 1 {
      SmallDigit(0, k - 1);
    } else {
      forall i: nat ensures !BitAt(0, i) {
        NoBits(i);
      }
    }
  }

  function Pow2(k: nat): (p: nat)
    ensures p > 0
  {
    if k == 0 then 1 else 2 * Pow2(k - 1)
  }

  lemma {:induction false} SameBits(m: nat, n: nat, k: nat)
    requires forall i :: 0 <= i < k ==> BitAt(m, i) == BitAt(n, i)
    ensures m % Pow2(k) == n % Pow2(k)
  {
    if k > 0 {
      assert BitAt(m, 0) == BitAt(n, 0);
      forall i | 0 <= i < k - 1 ensures BitAt(m / 2, i) == BitAt(n / 2, i) {
        assert BitAt(m, i + 1) == BitAt(n, i + 1);
      }
      SameBits(m / 2, n / 2, k - 1);
      ModJoin(m, 2, Pow2(k - 1));
      ModJoin(n, 2, Pow2(k - 1));
    }
  }

  lemma SameByte(m: nat, n: nat)
    requires Digit(m, 0) == Digit(n, 0)
    ensures m % 256 == n % 256
  {
    BytesDiffer(BitAt(m, 0), BitAt(m, 1), BitAt(m, 2), BitAt(m, 3), BitAt(m, 4), BitAt(m, 5), BitAt(m, 6), BitAt(m, 7),
                BitAt(n, 0), BitAt(n, 1), BitAt(n, 2), BitAt(n, 3), BitAt(n, 4), BitAt(n, 5), BitAt(n, 6), BitAt(n, 7));
    SameBits(m, n, 8);
    assert Pow2(8) == 256;
  }

  lemma BytesDiffer(a0: bool, a1: bool, a2: bool, a3: bool, a4: bool, a5: bool, a6: bool, a7: bool,
                    b0: bool, b1: bool, b2: bool, b3: bool, b4: bool, b5: bool, b6: bool, b7: bool)
    requires ByteOf(a0, a1, a2, a3, a4, a5, a6, a7) == ByteOf(b0, b1, b2, b3, b4, b5, b6, b7)
    ensures a0 == b0 && a1 == b1 && a2 == b2 && a3 == b3 && a4 == b4 && a5 == b5 && a6 == b6 && a7 == b7
  {
  }

  function Pow256(k: nat): (p: nat)
    ensures p > 0
  {
    if k == 0 then 1 else 256 * Pow256(k - 1)
  }

  /** Numbers with the same last `k` bytes agree modulo 256 to the power of `k`. */
  lemma {:induction false} SameDigits(m: nat, n: nat, k: nat)
    requires forall i :: 0 <= i < k ==> Digit(m, i) == Digit(n, i)
    ensures m % Pow256(k) == n % Pow256(k)
  {
    if k > 0 {
      assert Digit(m, 0) == Digit(n, 0);
      SameByte(m, n);
      forall i | 0 <= i < k - 1 ensures Digit(m / 256, i) == Digit(n / 256, i) {
        assert Digit(m, i + 1) == Digit(n, i + 1);
      }
      SameDigits(m / 256, n / 256, k - 1);
      ModJoin(m, 256, Pow256(k - 1));
      ModJoin(n, 256, Pow256(k - 1));
    }
  }

  datatype Snapshot<S> = Snapshot(acc: S, pending: Bytes, total: nat)

  /** Folds the complete blocks of `data` into `acc`, first to last. */
  function Absorb<S>(step: (S, Bytes) -> S, n: nat, acc: S, data: Bytes): S
    requires n > 0
  {
    if |data| < n then acc else Absorb(step, n, step(acc, data[..n]), data[n..])
  }

  /** What is left once every complete block is taken off the front. */
  function Tail(n: nat, data: Bytes): (t: Bytes)
    requires n > 0
    ensures |t| < n && |t| <= |data|
  {
    if |data| < n then data else Tail(n, data[n..])
  }

  /** The length counter after `data`: unsigned, so it wraps. */
  function Count(total: nat, data: Bytes, modulus: nat): (c: nat)
    requires modulus > 0
    ensures c < modulus
  {
    (total + |data|) % modulus
  }

  /** What feeding `data` must do to a hasher; `modulus` is where the length counter wraps. */
  function Feed<S>(step: (S, Bytes) -> S, n: nat, modulus: nat, s: Snapshot<S>, data: Bytes): Snapshot<S>
    requires n > 0 && modulus > 0
  {
    var all := s.pending + data;
    Snapshot(Absorb(step, n, s.acc, all), Tail(n, all), Count(s.total, data, modulus))
  }

  function FeedAll<S>(step: (S, Bytes) -> S, n: nat, modulus: nat, s: Snapshot<S>, chunks: seq<Bytes>): Snapshot<S>
    requires n > 0 && modulus > 0
    decreases |chunks|
  {
    if chunks == [] then s
    else FeedAll(step, n, modulus, Feed(step, n, modulus, s, chunks[0]), chunks[1..])
  }

  function Concat(chunks: seq<Bytes>): Bytes {
    if chunks == [] then [] else chunks[0] + Concat(chunks[1..])
  }

  /** What every reachable hasher satisfies. */
  ghost predicate WellFormed<S>(n: nat, modulus: nat, s: Snapshot<S>) {
    && 0 < n
    && modulus % n == 0
    && s.total < modulus
    && |s.pending| == s.total % n
  }

  lemma {:induction false} TailLength(n: nat, data: Bytes)
    requires n > 0
    ensures |Tail(n, data)| == |data| % n
    decreases |data|
  {
    if |data| < n {
      ModUnique(|data|, n, 0, |data|);
    } else {
      TailLength(n, data[n..]);
      ModAdd(n, |data| - n, n);
      ModUnique(n, n, 1, 0);
    }
  }

  /** Absorbing `a` and then the leftover of `a` followed by `b` is absorbing `a + b`. */
  lemma {:induction false} AbsorbSplit<S>(step: (S, Bytes) -> S, n: nat, acc: S, a: Bytes, b: Bytes)
    requires n > 0
    ensures Absorb(step, n, acc, a + b) == Absorb(step, n, Absorb(step, n, acc, a), Tail(n, a) + b)
    ensures Tail(n, a + b) == Tail(n, Tail(n, a) + b)
    decreases |a|
  {
    if |a| < n {
      assert Tail(n, a) == a;
    } else {
      assert (a + b)[..n] == a[..n] && (a + b)[n..] == a[n..] + b;
      AbsorbSplit(step, n, step(acc, a[..n]), a[n..], b);
    }
  }

  lemma TotalSplit(total: nat, a: Bytes, b: Bytes, modulus: nat)
    requires modulus > 0
    ensures Count(Count(total, a, modulus), b, modulus) == Count(total, a + b, modulus)
  {
    var x, y := total + |a|, |b|;
    assert total + |a + b| == x + y;
    ModAdd(x, y, modulus);
  }

  /** Chunk independence: two calls leave the hasher exactly where one call on the concatenation does. */
  lemma FeedSplit<S>(step: (S, Bytes) -> S, n: nat, modulus: nat, s: Snapshot<S>, a: Bytes, b: Bytes)
    requires n > 0 && modulus > 0
    ensures Feed(step, n, modulus, Feed(step, n, modulus, s, a), b) == Feed(step, n, modulus, s, a + b)
  {
    AbsorbSplit(step, n, s.acc, s.pending + a, b);
    assert s.pending + a + b == s.pending + (a + b);
    TotalSplit(s.total, a, b, modulus);
  }

  /** The buffer length follows the length counter through every call, the counter's wrap-around included. */
  lemma FeedKeepsWellFormed<S>(step: (S, Bytes) -> S, n: nat, modulus: nat, s: Snapshot<S>, data: Bytes)
    requires WellFormed(n, modulus, s)
    ensures WellFormed(n, modulus, Feed(step, n, modulus, s, data))
  {
    var grown := s.total + |data|;
    TailLength(n, s.pending + data);
    ModAdd(s.total, |data|, n);
    ModOfWrap(grown, modulus, n);
  }

  lemma FeedNothing<S>(step: (S, Bytes) -> S, n: nat, modulus: nat, s: Snapshot<S>)
    requires |s.pending| < n && s.total < modulus
    ensures Feed(step, n, modulus, s, []) == s
  {
    assert s.pending + [] == s.pending;
    ModUnique(s.total, modulus, 0, s.total);
  }

  /** However an input is cut into chunks, only the concatenation matters. */
  lemma {:induction false} ChunkIndependence<S>(
      step: (S, Bytes) -> S, n: nat, modulus: nat, s: Snapshot<S>, chunks: seq<Bytes>)
    requires |s.pending| < n && s.total < modulus
    ensures FeedAll(step, n, modulus, s, chunks) == Feed(step, n, modulus, s, Concat(chunks))
    decreases |chunks|
  {
    if chunks == [] {
      FeedNothing(step, n, modulus, s);
    } else {
      ChunkIndependence(step, n, modulus, Feed(step, n, modulus, s, chunks[0]), chunks[1..]);
      FeedSplit(step, n, modulus, s, chunks[0], Concat(chunks[1..]));
    }
  }

  // ---- Telling inputs apart ----

  /** Mixing one block in loses nothing: neither the accumulator nor the block. */
  ghost predicate Lossless<S(!new)>(step: (S, Bytes) -> S, n: nat) {
    && (forall s, t, b :: |b| == n && step(s, b) == step(t, b) ==> s == t)
    && (forall s, b, c :: |b| == |c| == n && step(s, b) == step(s, c) ==> b == c)
  }

  /** `a` and `b` are equal outside the `i`-th run of `n` bytes; the last run may be the short tail. */
  ghost predicate DifferOnlyInBlock(n: nat, a: Bytes, b: Bytes, i: nat)
    requires n > 0
  {
    && |a| == |b|
    && a != b
    && forall k :: 0 <= k < |a| && !(i * n <= k < (i + 1) * n) ==> a[k] == b[k]
  }

  lemma HalvesDiffer(n: nat, a: Bytes, b: Bytes)
    requires n <= |a| == |b| && a != b
    ensures a[..n] != b[..n] || a[n..] != b[n..]
  {
    assert a == a[..n] + a[n..] && b == b[..n] + b[n..];
  }

  lemma {:induction false} SameBytesOtherStart<S(!new)>(step: (S, Bytes) -> S, n: nat, s: S, t: S, data: Bytes)
    requires n > 0 && Lossless(step, n) && s != t
    ensures Absorb(step, n, s, data) != Absorb(step, n, t, data)
    decreases |data|
  {
    if |data| >= n {
      SameBytesOtherStart(step, n, step(s, data[..n]), step(t, data[..n]), data[n..]);
    }
  }

  /** A difference confined to one block survives to the end, in the accumulator or in the tail and never in both. */
  lemma {:induction false} OneBlockSurvives<S(!new)>(step: (S, Bytes) -> S, n: nat, s: S, a: Bytes, b: Bytes, i: nat)
    requires n > 0 && Lossless(step, n) && DifferOnlyInBlock(n, a, b, i)
    ensures Absorb(step, n, s, a) != Absorb(step, n, s, b) <==> Tail(n, a) == Tail(n, b)
    decreases |a|
  {
    if |a| < n {
      assert Tail(n, a) == a && Tail(n, b) == b;
    } else {
      if i == 0 {
        assert a[n..] == b[n..];
        HalvesDiffer(n, a, b);
        SameBytesOtherStart(step, n, step(s, a[..n]), step(s, b[..n]), a[n..]);
      } else {
        Multiple(i, n);
        assert a[..n] == b[..n];
        HalvesDiffer(n, a, b);
        assert (i - 1) * n == i * n - n && (i - 1 + 1) * n == (i + 1) * n - n;
        OneBlockSurvives(step, n, step(s, a[..n]), a[n..], b[n..], i - 1);
      }
    }
  }

  /** The whole hash of `data`: absorb the blocks, then seal accumulator, tail and length into the result. */
  function Digest<S, R>(
      step: (S, Bytes) -> S, seal: (S, Bytes, nat) -> R, n: nat, modulus: nat, start: S, data: Bytes): R
    requires n > 0 && modulus > 0
  {
    var s := Feed(step, n, modulus, Snapshot(start, [], 0), data);
    seal(s.acc, s.pending, s.total)
  }

  lemma DigestOf<S, R>(step: (S, Bytes) -> S, seal: (S, Bytes, nat) -> R, n: nat, modulus: nat, start: S,
                       data: Bytes, s: Snapshot<S>)
    requires n > 0 && modulus > 0 && s == Feed(step, n, modulus, Snapshot(start, [], 0), data)
    ensures Digest(step, seal, n, modulus, start, data) == seal(s.acc, s.pending, s.total)
  {
  }

  /** Sealing keeps two hashers apart that differ in the accumulator or in the tail, but not in both. */
  ghost predicate SealSeparates<S(!new), R>(seal: (S, Bytes, nat) -> R, n: nat) {
    forall s, t, a, b, total | |a| == |b| < n && (s != t <==> a == b) :: seal(s, a, total) != seal(t, b, total)
  }

  /** Equal-length inputs that differ in one block, or only in the tail, get different results. */
  lemma OneBlockSeparates<S(!new), R>(
      step: (S, Bytes) -> S, seal: (S, Bytes, nat) -> R, n: nat, modulus: nat, start: S, a: Bytes, b: Bytes, i: nat)
    requires n > 0 && modulus > 0 && Lossless(step, n) && SealSeparates(seal, n)
    requires DifferOnlyInBlock(n, a, b, i)
    ensures Digest(step, seal, n, modulus, start, a) != Digest(step, seal, n, modulus, start, b)
  {
    assert [] + a == a && [] + b == b;
    OneBlockSurvives(step, n, start, a, b, i);
    TailLength(n, a);
    TailLength(n, b);
  }

  /** Different starts give every input different results. */
  lemma StartsSeparate<S(!new), R>(
      step: (S, Bytes) -> S, seal: (S, Bytes, nat) -> R, n: nat, modulus: nat, start: S, start': S, data: Bytes)
    requires n > 0 && modulus > 0 && Lossless(step, n) && SealSeparates(seal, n) && start != start'
    ensures Digest(step, seal, n, modulus, start, data) != Digest(step, seal, n, modulus, start', data)
  {
    assert [] + data == data;
    SameBytesOtherStart(step, n, start, start', data);
  }

  // ---- The hasher object ----

  /** The buffered hasher; `acc` stands for out_ at 4 bytes and for the pair h1_, h2_ at 16. */
  class Hasher<S> {
    const n: nat
    const modulus: nat
    const step: (S, Bytes) -> S
    var acc: S
    var buf: array<bv8>
    var buflen: nat
    var totalLength: nat

    ghost predicate Valid()
      reads this, buf
    {
      && 0 < n == buf.Length
      && buflen < n
      && totalLength < modulus
    }

    ghost function View(): Snapshot<S>
      reads this, buf
      requires buflen <= buf.Length
    {
      Snapshot(acc, buf[..buflen], totalLength)
    }

    constructor (n: nat, modulus: nat, step: (S, Bytes) -> S, start: S)
      requires n > 0 && modulus > 0
      ensures Valid() && fresh(buf) && View() == Snapshot(start, [], 0)
      ensures this.n == n && this.modulus == modulus && this.step == step
    {
      this.n, this.modulus, this.step := n, modulus, step;
      acc := start;
      buf := new bv8[n];
      buflen, totalLength := 0, 0;
    }

    /** Tops up a partial block left over from the last call; returns how many bytes that took. */
    method TopUp(data: Bytes) returns (pos: nat)
      requires buf.Length == n && buflen < n
      modifies this`buflen, buf
      ensures pos <= |data| && buflen <= n
      ensures buf[..buflen] + data[pos..] == old(buf[..buflen]) + data
      ensures old(buflen) == 0 ==> buflen == pos == 0
      ensures 0 < buflen < n ==> pos == |data|
    {
      pos := 0;
      while 0 < buflen < n && pos < |data|
        invariant pos <= |data| && buflen <= n
        invariant old(buflen) == 0 ==> buflen == pos == 0
        invariant buf[..buflen] + data[pos..] == old(buf[..buflen]) + data
      {
        buf[buflen] := data[pos];
        buflen, pos := buflen + 1, pos + 1;
      }
    }

    /** Handles the complete blocks of data[from..]; returns where the first incomplete one starts. */
    method HandleBlocks(data: Bytes, from: nat) returns (pos: nat)
      requires from <= |data| && n > 0
      modifies this`acc
      ensures from <= pos <= |data|
      ensures acc == Absorb(step, n, old(acc), data[from..])
      ensures data[pos..] == Tail(n, data[from..])
    {
      var nblocks := (|data| - from) / n;
      pos := from;
      for i := 0 to nblocks
        invariant from <= pos <= |data|
        invariant (|data| - pos) / n == nblocks - i
        invariant Absorb(step, n, acc, data[pos..]) == Absorb(step, n, old(acc), data[from..])
        invariant Tail(n, data[pos..]) == Tail(n, data[from..])
      {
        BlocksLeft(|data| - pos, n);
        assert data[pos..][..n] == data[pos..pos + n] && data[pos..][n..] == data[pos + n..];
        acc := step(acc, data[pos..pos + n]);
        pos := pos + n;
      }
      BlocksLeft(|data| - pos, n);
    }

    /** Handles a block completed by TopUp. */
    method Flush(ghost rest: Bytes)
      requires buf.Length == n > 0 && buflen <= n
      modifies this`acc, this`buflen
      ensures buflen < n && (buflen == 0 || buflen == old(buflen))
      ensures Absorb(step, n, acc, buf[..buflen] + rest) == Absorb(step, n, old(acc), old(buf[..buflen]) + rest)
      ensures Tail(n, buf[..buflen] + rest) == Tail(n, old(buf[..buflen]) + rest)
    {
      ghost var all := buf[..buflen] + rest;
      if buflen == n {
        assert all[..n] == buf[..] && all[n..] == rest;
        acc := step(acc, buf[..]);
        buflen := 0;
        assert buf[..buflen] + rest == rest;
      }
    }

    /** Keeps an incomplete block for the next call, or for finalizing. */
    method Stash(data: Bytes, pos: nat)
      requires pos <= |data| < pos + buf.Length
      requires buflen == 0 || pos == |data|
      requires buflen <= buf.Length
      modifies this`buflen, buf
      ensures buflen < buf.Length || pos == |data|
      ensures buflen <= buf.Length
      ensures buf[..buflen] == old(buf[..buflen]) + data[pos..]
    {
      if pos < |data| {
        buflen := |data| - pos;
        forall j | 0 <= j < buflen { buf[j] := data[pos + j]; }
        assert buf[..buflen] == data[pos..];
      }
    }

    /** One more chunk, of any length, from any reachable state. */
    method Update(data: Bytes)
      requires Valid()
      modifies this, buf
      ensures Valid() && buf == old(buf)
      ensures View() == Feed(step, n, modulus, old(View()), data)
    {
      totalLength := Count(totalLength, data, modulus);
      var pos := TopUp(data);
      Flush(data[pos..]);
      assert buflen > 0 ==> data[pos..] == [];
      assert buflen == 0 ==> buf[..buflen] + data[pos..] == data[pos..];
      pos := HandleBlocks(data, pos);
      Stash(data, pos);
    }

    /** All chunks of an input, one after another: only their concatenation matters. */
    method UpdateAll(chunks: seq<Bytes>)
      requires Valid()
      modifies this, buf
      ensures Valid() && buf == old(buf)
      ensures View() == Feed(step, n, modulus, old(View()), Concat(chunks))
    {
      ghost var start := View();
      for i := 0 to |chunks|
        invariant Valid() && buf == old(buf)
        invariant FeedAll(step, n, modulus, View(), chunks[i..]) == FeedAll(step, n, modulus, start, chunks)
      {
        assert chunks[i..][1..] == chunks[i + 1..];
        Update(chunks[i]);
      }
      ChunkIndependence(step, n, modulus, start, chunks);
    }
  }
}
