/** Signatures of shingle sets: for each hash function, the least value it takes on the set. */
module MinHash {
  import opened Integers

  const SIGNATURE_SIZE: nat := 100
  const MINHASH_RANGE_MAX: int32 := 100000000

  type Signature = s: seq<int32> | |s| == SIGNATURE_SIZE witness seq(SIGNATURE_SIZE, _ => 0)

  /** The least value of `f` on a set, or `top` when the set is empty. */
  ghost function Minimum(f: int32 -> int, elems: set<int32>, top: int): (m: int)
    ensures elems == {} ==> m == top
    ensures elems != {} ==> exists e :: e in elems && f(e) == m
    ensures forall e :: e in elems ==> m <= f(e)
  {
    if elems == {} then top
    else
      var e :| e in elems;
      var m := Minimum(f, elems - {e}, f(e));
      if m < f(e) then m else f(e)
  }

  /** A minimum is what the set attains and nothing undercuts; it depends on nothing else. */
  lemma MinimumIs(f: int32 -> int, elems: set<int32>, top: int, m: int)
    requires if elems == {} then m == top
             else (exists e :: e in elems && f(e) == m) && forall e :: e in elems ==> m <= f(e)
    ensures Minimum(f, elems, top) == m
  {
  }

  /** The minimum over a union is the smaller of the two minima. */
  lemma MinimumOfUnion(f: int32 -> int, a: set<int32>, b: set<int32>, top: int)
    requires forall e :: e in a + b ==> f(e) <= top
    ensures var ma, mb := Minimum(f, a, top), Minimum(f, b, top);
            Minimum(f, a + b, top) == if ma < mb then ma else mb
  {
    var ma, mb := Minimum(f, a, top), Minimum(f, b, top);
    MinimumIs(f, a + b, top, if ma < mb then ma else mb);
  }

  /** Hash functions are told apart by their index. */
  type Hash = (int32, nat) -> int32

  class MinHasher {
    const hashFctsNo: nat
    const rangeMax: int32
    const hash: Hash

    ghost predicate Valid() {
      hashFctsNo <= SIGNATURE_SIZE && 0 < rangeMax < 0x7fff_ffff
    }

    constructor (hashFctsNo: nat, rangeMax: int32, hash: Hash)
      requires hashFctsNo <= SIGNATURE_SIZE && 0 < rangeMax < 0x7fff_ffff
      ensures Valid() && this.hashFctsNo == hashFctsNo && this.rangeMax == rangeMax && this.hash == hash
    {
      this.hashFctsNo := hashFctsNo;
      this.rangeMax := rangeMax;
      this.hash := hash;
    }

    /** One pass over the set, in whatever order it comes, leaves every entry at its minimum. */
    method ComputeSignature(shingles: set<int32>) returns (signature: Signature)
      requires Valid()
      ensures signature == SignatureOf(shingles, hash, hashFctsNo, rangeMax)
    {
      var entries := new int32[SIGNATURE_SIZE];
      for i := 0 to entries.Length
        invariant forall h :: 0 <= h < i ==> entries[h] == rangeMax + 1
      {
        entries[i] := rangeMax + 1;
      }
      ghost var done: set<int32> := {};
      var rest := shingles;
      assert entries[..] == SignatureOf(done, hash, hashFctsNo, rangeMax);
      while rest != {}
        invariant done + rest == shingles && done !! rest
        invariant entries[..] == SignatureOf(done, hash, hashFctsNo, rangeMax)
        decreases rest
      {
        var elem :| elem in rest;
        rest := rest - {elem};
        SignatureWithOneMore(done, elem, hash, hashFctsNo, rangeMax);
        Lower(entries, elem);
        assert entries[..] == SignatureOf(done + {elem}, hash, hashFctsNo, rangeMax);
        done := done + {elem};
      }
      assert done == shingles;
      signature := entries[..];
    }

    /** Takes the element's own hashes wherever they are less than what is there. */
    method Lower(entries: array<int32>, elem: int32)
      requires Valid() && entries.Length == SIGNATURE_SIZE
      modifies entries
      ensures forall h :: 0 <= h < SIGNATURE_SIZE ==>
        entries[h] == if h < hashFctsNo && old(entries[h]) > TruncMod(hash(elem, h), rangeMax)
                      then TruncMod(hash(elem, h), rangeMax) else old(entries[h])
    {
      for i := 0 to hashFctsNo
        invariant forall h :: 0 <= h < i ==>
          entries[h] == if old(entries[h]) > TruncMod(hash(elem, h), rangeMax)
                        then TruncMod(hash(elem, h), rangeMax) else old(entries[h])
        invariant forall h :: i <= h < SIGNATURE_SIZE ==> entries[h] == old(entries[h])
      {
        var value: int32 := TruncMod(hash(elem, i), rangeMax);
        if entries[i] > value {
          entries[i] := value;
        }
      }
    }
  }

  // ---- What a signature is ----

  function Hashed(hash: Hash, h: nat, rangeMax: int32): (f: int32 -> int)
    requires rangeMax > 0
    ensures forall e: int32 :: f(e) == TruncMod(hash(e, h), rangeMax) && -rangeMax < f(e) < rangeMax
  {
    (e: int32) => TruncMod(hash(e, h), rangeMax)
  }

  /** Entry `h` of the signature of a set; the entries past the last hash function keep their first value. */
  ghost function Entry(shingles: set<int32>, h: nat, hash: Hash, hashFctsNo: nat, rangeMax: int32): int
    requires rangeMax > 0
  {
    if h < hashFctsNo then Minimum(Hashed(hash, h, rangeMax), shingles, rangeMax + 1) else rangeMax + 1
  }

  ghost function SignatureOf(shingles: set<int32>, hash: Hash, hashFctsNo: nat, rangeMax: int32): (s: Signature)
    requires 0 < rangeMax < 0x7fff_ffff
    ensures forall h :: 0 <= h < SIGNATURE_SIZE ==> s[h] == Entry(shingles, h, hash, hashFctsNo, rangeMax)
  {
    var entries := seq(SIGNATURE_SIZE, h requires h >= 0 => Entry(shingles, h, hash, hashFctsNo, rangeMax));
    assert forall h :: 0 <= h < SIGNATURE_SIZE ==> -rangeMax < entries[h] <= rangeMax + 1;
    entries
  }

  lemma EntryWithOneMore(shingles: set<int32>, elem: int32, h: nat, hash: Hash, hashFctsNo: nat, rangeMax: int32)
    requires rangeMax > 0 && h < hashFctsNo
    ensures var was := Entry(shingles, h, hash, hashFctsNo, rangeMax);
            var value := TruncMod(hash(elem, h), rangeMax);
            Entry(shingles + {elem}, h, hash, hashFctsNo, rangeMax) == if was > value then value else was
  {
    var f := Hashed(hash, h, rangeMax);
    MinimumIs(f, {elem}, rangeMax + 1, f(elem));
    MinimumOfUnion(f, shingles, {elem}, rangeMax + 1);
  }

  /** Every entry of a non-empty set is some element's hash and lies strictly inside the range, on either side of
      zero. */
  lemma EntriesInRange(shingles: set<int32>, h: nat, hash: Hash, hashFctsNo: nat, rangeMax: int32)
    requires rangeMax > 0 && h < hashFctsNo
    ensures var v := Entry(shingles, h, hash, hashFctsNo, rangeMax);
            && (shingles == {} ==> v == rangeMax + 1)
            && (shingles != {} ==>
                  -rangeMax < v < rangeMax && exists e :: e in shingles && v == TruncMod(hash(e, h), rangeMax))
            && forall e :: e in shingles ==> v <= TruncMod(hash(e, h), rangeMax)
  {
  }

  /** An entry is negative exactly when some element's remainder is: the minimum does not hide the sign. */
  lemma NegativeEntries(shingles: set<int32>, h: nat, hash: Hash, hashFctsNo: nat, rangeMax: int32)
    requires rangeMax > 0 && h < hashFctsNo
    ensures Entry(shingles, h, hash, hashFctsNo, rangeMax) < 0
       <==> exists e :: e in shingles && TruncMod(hash(e, h), rangeMax) < 0
  {
    var f := Hashed(hash, h, rangeMax);
    assert forall e: int32 :: f(e) == TruncMod(hash(e, h), rangeMax);
  }

  /** It happens: the remainder of a negative hash value keeps its sign. */
  lemma NegativeEntryHappens(value: int32)
    requires -MINHASH_RANGE_MAX < value < 0
    ensures Entry({0}, 0, (e: int32, h: nat) => value, SIGNATURE_SIZE, MINHASH_RANGE_MAX) == value
  {
    var hash := (e: int32, h: nat) => value;
    var elems: set<int32> := {0};
    assert TruncMod(value, MINHASH_RANGE_MAX) == value;
    MinimumIs(Hashed(hash, 0, MINHASH_RANGE_MAX), elems, MINHASH_RANGE_MAX + 1, value);
  }

  /** The signature of a union is the entry-by-entry minimum of the signatures. */
  lemma SignatureOfUnion(a: set<int32>, b: set<int32>, hash: Hash, hashFctsNo: nat, rangeMax: int32)
    requires 0 < rangeMax < 0x7fff_ffff
    ensures var sa := SignatureOf(a, hash, hashFctsNo, rangeMax);
            var sb := SignatureOf(b, hash, hashFctsNo, rangeMax);
            forall h :: 0 <= h < SIGNATURE_SIZE ==>
              SignatureOf(a + b, hash, hashFctsNo, rangeMax)[h] == if sa[h] < sb[h] then sa[h] else sb[h]
  {
    var sa := SignatureOf(a, hash, hashFctsNo, rangeMax);
    var sb := SignatureOf(b, hash, hashFctsNo, rangeMax);
    forall h | 0 <= h < SIGNATURE_SIZE
      ensures SignatureOf(a + b, hash, hashFctsNo, rangeMax)[h] == if sa[h] < sb[h] then sa[h] else sb[h]
    {
      if h < hashFctsNo {
        MinimumOfUnion(Hashed(hash, h, rangeMax), a, b, rangeMax + 1);
      }
    }
  }

  lemma SignatureWithOneMore(shingles: set<int32>, elem: int32, hash: Hash, hashFctsNo: nat, rangeMax: int32)
    requires 0 < rangeMax < 0x7fff_ffff
    ensures var was := SignatureOf(shingles, hash, hashFctsNo, rangeMax);
            var now := SignatureOf(shingles + {elem}, hash, hashFctsNo, rangeMax);
            forall h :: 0 <= h < SIGNATURE_SIZE ==>
              now[h] == if h < hashFctsNo && was[h] > TruncMod(hash(elem, h), rangeMax)
                        then TruncMod(hash(elem, h), rangeMax) else was[h]
  {
    forall h | 0 <= h < hashFctsNo
      ensures var was := Entry(shingles, h, hash, hashFctsNo, rangeMax);
              var value := TruncMod(hash(elem, h), rangeMax);
              Entry(shingles + {elem}, h, hash, hashFctsNo, rangeMax) == if was > value then value else was
    {
      EntryWithOneMore(shingles, elem, h, hash, hashFctsNo, rangeMax);
    }
  }
}
