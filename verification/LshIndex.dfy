/** The index of signatures: a signature is cut into bands, and every band is a key into its own table of buckets. */
module LshIndex {
  import opened Integers
  import opened MinHash
  import opened Sets

  const BANDS_NO: nat := 20

  datatype Doc = Doc(id: string, signature: Signature)

  /** How one more row is folded into a band's hash; the library's function, whatever it computes. */
  type Combine = (size, int32) -> size

  type Buckets = seq<map<int32, set<string>>>

  // ---- What the index means ----

  /** The hash of rows `from` up to `end`. */
  function Folded(combine: Combine, signature: Signature, from: nat, end: nat): size
    requires from <= end <= SIGNATURE_SIZE
  {
    if from == end then 17 else combine(Folded(combine, signature, from, end - 1), signature[end - 1])
  }

  /** A band's key: its hash, narrowed to the table's 32-bit keys. */
  function Key(combine: Combine, rows: nat, signature: Signature, band: nat): int32
    requires band < BANDS_NO && BANDS_NO * rows <= SIGNATURE_SIZE
  {
    BandEnd(rows, band);
    ToInt32(Folded(combine, signature, band * rows, (band + 1) * rows))
  }

  lemma BandEnd(rows: nat, band: nat)
    requires band < BANDS_NO
    ensures band * rows <= (band + 1) * rows <= BANDS_NO * rows
  {
  }

  function Bucket(table: map<int32, set<string>>, key: int32): set<string> {
    if key in table then table[key] else {}
  }

  function Filed(table: map<int32, set<string>>, key: int32, id: string): map<int32, set<string>> {
    table[key := Bucket(table, key) + {id}]
  }

  /** The ids of the documents that have this key in this band. */
  function IdsWith(combine: Combine, rows: nat, docs: seq<Doc>, band: nat, key: int32): set<string>
    requires band < BANDS_NO && BANDS_NO * rows <= SIGNATURE_SIZE
  {
    set i | 0 <= i < |docs| && Key(combine, rows, docs[i].signature, band) == key :: docs[i].id
  }

  /** The tables hold the documents: every bucket is the documents with its key, and no bucket is empty. */
  ghost predicate Indexes(combine: Combine, rows: nat, buckets: Buckets, docs: seq<Doc>)
    requires BANDS_NO * rows <= SIGNATURE_SIZE
  {
    && |buckets| == BANDS_NO
    && forall band :: 0 <= band < BANDS_NO ==> TableOf(combine, rows, buckets[band], docs, band)
  }

  ghost predicate TableOf(combine: Combine, rows: nat, table: map<int32, set<string>>, docs: seq<Doc>, band: nat)
    requires band < BANDS_NO && BANDS_NO * rows <= SIGNATURE_SIZE
  {
    && (forall key: int32 :: Bucket(table, key) == IdsWith(combine, rows, docs, band, key))
    && (forall key: int32 :: key in table ==> table[key] != {})
  }

  predicate ShareBand(combine: Combine, rows: nat, a: Signature, b: Signature)
    requires BANDS_NO * rows <= SIGNATURE_SIZE
  {
    exists band :: 0 <= band < BANDS_NO && Key(combine, rows, a, band) == Key(combine, rows, b, band)
  }

  /** Comparing a signature with every document in turn. */
  function LinearScan(combine: Combine, rows: nat, docs: seq<Doc>, signature: Signature): set<string>
    requires BANDS_NO * rows <= SIGNATURE_SIZE
  {
    set i | 0 <= i < |docs| && ShareBand(combine, rows, docs[i].signature, signature) :: docs[i].id
  }

  // ---- The tables are what the documents make them, in any order ----

  /** Two lists with the same documents, in whatever order and however often, fill the same tables. */
  lemma SameDocsSameTables(combine: Combine, rows: nat, buckets: Buckets, docs: seq<Doc>,
                           buckets': Buckets, docs': seq<Doc>)
    requires BANDS_NO * rows <= SIGNATURE_SIZE
    requires Indexes(combine, rows, buckets, docs) && Indexes(combine, rows, buckets', docs')
    requires forall d :: d in docs <==> d in docs'
    ensures buckets == buckets'
  {
    forall band | 0 <= band < BANDS_NO ensures buckets[band] == buckets'[band] {
      forall key: int32 ensures Bucket(buckets[band], key) == Bucket(buckets'[band], key) {
        SameIds(combine, rows, docs, docs', band, key);
        SameIds(combine, rows, docs', docs, band, key);
      }
      SameTable(buckets[band], buckets'[band]);
    }
  }

  lemma SameIds(combine: Combine, rows: nat, docs: seq<Doc>, docs': seq<Doc>, band: nat, key: int32)
    requires band < BANDS_NO && BANDS_NO * rows <= SIGNATURE_SIZE
    requires forall d :: d in docs ==> d in docs'
    ensures IdsWith(combine, rows, docs, band, key) <= IdsWith(combine, rows, docs', band, key)
  {
    forall i | 0 <= i < |docs| && Key(combine, rows, docs[i].signature, band) == key
      ensures docs[i].id in IdsWith(combine, rows, docs', band, key)
    {
      assert docs[i] in docs';
      var j :| 0 <= j < |docs'| && docs'[j] == docs[i];
    }
  }

  lemma SameTable(table: map<int32, set<string>>, table': map<int32, set<string>>)
    requires forall key: int32 :: Bucket(table, key) == Bucket(table', key)
    requires forall key: int32 :: key in table ==> table[key] != {}
    requires forall key: int32 :: key in table' ==> table'[key] != {}
    ensures table == table'
  {
    forall key | key in table ensures key in table' && table'[key] == table[key] {
      assert Bucket(table, key) == table[key];
    }
    forall key | key in table' ensures key in table {
      assert Bucket(table', key) == table'[key];
    }
  }

  /** Filing a document's id under its key in a band is indexing one more document there. */
  lemma FileOne(combine: Combine, rows: nat, table: map<int32, set<string>>, docs: seq<Doc>, band: nat, doc: Doc)
    requires band < BANDS_NO && BANDS_NO * rows <= SIGNATURE_SIZE
    requires TableOf(combine, rows, table, docs, band)
    ensures var key := Key(combine, rows, doc.signature, band);
            TableOf(combine, rows, Filed(table, key, doc.id), docs + [doc], band)
  {
    var mine := Key(combine, rows, doc.signature, band);
    var table' := Filed(table, mine, doc.id);
    var docs' := docs + [doc];
    forall key: int32 ensures Bucket(table', key) == IdsWith(combine, rows, docs', band, key) {
      var ids, ids' := IdsWith(combine, rows, docs, band, key), IdsWith(combine, rows, docs', band, key);
      forall id | id in ids ensures id in ids' {
        var i :| 0 <= i < |docs| && Key(combine, rows, docs[i].signature, band) == key && docs[i].id == id;
        assert docs'[i] == docs[i];
      }
      assert docs'[|docs|] == doc;
      assert ids' == ids + if key == mine then {doc.id} else {};
    }
  }

  // ---- The pigeonhole bound ----

  function DifferingRows(a: Signature, b: Signature, end: nat): set<nat>
    requires end <= SIGNATURE_SIZE
  {
    set i: nat | i < end && a[i] != b[i]
  }

  function DifferingBands(combine: Combine, rows: nat, a: Signature, b: Signature, end: nat): set<nat>
    requires end <= BANDS_NO && BANDS_NO * rows <= SIGNATURE_SIZE
  {
    set band: nat | band < end && Key(combine, rows, a, band) != Key(combine, rows, b, band)
  }

  lemma {:induction false} FoldedAgree(combine: Combine, a: Signature, b: Signature, from: nat, end: nat)
    requires from <= end <= SIGNATURE_SIZE
    requires forall i :: from <= i < end ==> a[i] == b[i]
    ensures Folded(combine, a, from, end) == Folded(combine, b, from, end)
  {
    if from < end {
      FoldedAgree(combine, a, b, from, end - 1);
    }
  }

  /** Bands with different keys take at least one differing row each. */
  lemma {:induction false} BandsNeedRows(combine: Combine, rows: nat, a: Signature, b: Signature, end: nat)
    requires end <= BANDS_NO && BANDS_NO * rows <= SIGNATURE_SIZE
    ensures end * rows <= SIGNATURE_SIZE
    ensures |DifferingBands(combine, rows, a, b, end)| <= |DifferingRows(a, b, end * rows)|
  {
    if end == 0 {
      assert DifferingBands(combine, rows, a, b, 0) == {};
    } else {
      BandsNeedRows(combine, rows, a, b, end - 1);
      OneMoreBand(combine, rows, a, b, end - 1);
    }
  }

  lemma OneMoreBand(combine: Combine, rows: nat, a: Signature, b: Signature, band: nat)
    requires band < BANDS_NO && BANDS_NO * rows <= SIGNATURE_SIZE
    ensures band * rows <= (band + 1) * rows <= SIGNATURE_SIZE
    ensures |DifferingBands(combine, rows, a, b, band + 1)| - |DifferingBands(combine, rows, a, b, band)|
         <= |DifferingRows(a, b, (band + 1) * rows)| - |DifferingRows(a, b, band * rows)|
  {
    BandEnd(rows, band);
    var bands, bands' := DifferingBands(combine, rows, a, b, band), DifferingBands(combine, rows, a, b, band + 1);
    var diff, diff' := DifferingRows(a, b, band * rows), DifferingRows(a, b, (band + 1) * rows);
    if Key(combine, rows, a, band) == Key(combine, rows, b, band) {
      assert bands' == bands;
      SmallerSet(diff, diff');
    } else {
      assert bands' == bands + {band};
      var i := DifferingRow(combine, rows, a, b, band);
      SmallerSet(diff + {i}, diff');
    }
  }

  lemma DifferingRow(combine: Combine, rows: nat, a: Signature, b: Signature, band: nat) returns (i: nat)
    requires band < BANDS_NO && BANDS_NO * rows <= SIGNATURE_SIZE
    requires Key(combine, rows, a, band) != Key(combine, rows, b, band)
    ensures band * rows <= i < (band + 1) * rows <= SIGNATURE_SIZE && a[i] != b[i]
  {
    BandEnd(rows, band);
    if forall i :: band * rows <= i < (band + 1) * rows ==> a[i] == b[i] {
      FoldedAgree(combine, a, b, band * rows, (band + 1) * rows);
    }
    i :| band * rows <= i < (band + 1) * rows && a[i] != b[i];
  }

  function BandsBelow(n: nat): (bands: set<nat>)
    ensures |bands| == n && forall k: nat :: k in bands <==> k < n
  {
    if n == 0 then {} else BandsBelow(n - 1) + {n - 1}
  }

  function SharedBands(combine: Combine, rows: nat, a: Signature, b: Signature): set<nat>
    requires BANDS_NO * rows <= SIGNATURE_SIZE
  {
    set band: nat | band < BANDS_NO && Key(combine, rows, a, band) == Key(combine, rows, b, band)
  }

  /** Signatures that differ in d rows have all but d of their band keys in common. */
  lemma SharedBandsBound(combine: Combine, rows: nat, a: Signature, b: Signature)
    requires BANDS_NO * rows <= SIGNATURE_SIZE
    ensures |SharedBands(combine, rows, a, b)| >= BANDS_NO - |DifferingRows(a, b, SIGNATURE_SIZE)|
    ensures |DifferingRows(a, b, SIGNATURE_SIZE)| < BANDS_NO ==> ShareBand(combine, rows, a, b)
  {
    BandsNeedRows(combine, rows, a, b, BANDS_NO);
    SmallerSet(DifferingRows(a, b, BANDS_NO * rows), DifferingRows(a, b, SIGNATURE_SIZE));
    var shared, differing := SharedBands(combine, rows, a, b), DifferingBands(combine, rows, a, b, BANDS_NO);
    assert BandsBelow(BANDS_NO) == shared + differing;
    assert |shared + differing| == |shared| + |differing|;
    if |shared| > 0 {
      var band :| band in shared;
    }
  }

  // ---- What a key is made of ----

  /** Rows folded in one after another. */
  function FoldRows(combine: Combine, hash: size, rows: seq<int32>): size
    decreases |rows|
  {
    if rows == [] then hash else FoldRows(combine, combine(hash, rows[0]), rows[1..])
  }

  lemma {:induction false} FoldRowsLast(combine: Combine, hash: size, rows: seq<int32>, last: int32)
    ensures FoldRows(combine, hash, rows + [last]) == combine(FoldRows(combine, hash, rows), last)
    decreases |rows|
  {
    if rows == [] {
      assert rows + [last] == [last];
      assert FoldRows(combine, combine(hash, last), []) == combine(hash, last);
    } else {
      assert (rows + [last])[1..] == rows[1..] + [last];
      FoldRowsLast(combine, combine(hash, rows[0]), rows[1..], last);
    }
  }

  lemma {:induction false} FoldedRows(combine: Combine, signature: Signature, from: nat, end: nat)
    requires from <= end <= SIGNATURE_SIZE
    ensures Folded(combine, signature, from, end) == FoldRows(combine, 17, signature[from..end])
  {
    if from < end {
      FoldedRows(combine, signature, from, end - 1);
      FoldRowsLast(combine, 17, signature[from..end - 1], signature[end - 1]);
      assert signature[from..end] == signature[from..end - 1] + [signature[end - 1]];
    }
  }

  /** The rows of a band. */
  function BandRows(rows: nat, signature: Signature, band: nat): seq<int32>
    requires band < BANDS_NO && BANDS_NO * rows <= SIGNATURE_SIZE
  {
    BandEnd(rows, band);
    signature[band * rows..(band + 1) * rows]
  }

  predicate SameLowBits(x: size, y: size) {
    x % 0x1_0000_0000 == y % 0x1_0000_0000
  }

  /** Two keys are equal exactly when the rows of the bands, folded from 17, agree in their low 32 bits. */
  lemma SameKeyExactly(combine: Combine, rows: nat, a: Signature, b: Signature, band: nat)
    requires band < BANDS_NO && BANDS_NO * rows <= SIGNATURE_SIZE
    ensures Key(combine, rows, a, band) == Key(combine, rows, b, band)
       <==> SameLowBits(FoldRows(combine, 17, BandRows(rows, a, band)), FoldRows(combine, 17, BandRows(rows, b, band)))
  {
    BandEnd(rows, band);
    FoldedRows(combine, a, band * rows, (band + 1) * rows);
    FoldedRows(combine, b, band * rows, (band + 1) * rows);
    SameInt32(Folded(combine, a, band * rows, (band + 1) * rows), Folded(combine, b, band * rows, (band + 1) * rows));
  }

  // ---- The index at work ----

  class LshDeduplication {
    const signatureSize: nat
    const rowsNo: nat
    const combine: Combine
    var lshBuckets: Buckets
    /** The documents indexed so far. */
    ghost var docs: seq<Doc>

    ghost predicate Valid()
      reads this
    {
      && BANDS_NO < signatureSize <= SIGNATURE_SIZE
      && rowsNo == signatureSize / BANDS_NO
      && BANDS_NO * rowsNo <= SIGNATURE_SIZE
      && Indexes(combine, rowsNo, lshBuckets, docs)
    }

    constructor (signatureSize: nat, docs: seq<Doc>, combine: Combine)
      requires BANDS_NO < signatureSize <= SIGNATURE_SIZE
      ensures Valid() && this.signatureSize == signatureSize && this.combine == combine && this.docs == docs
    {
      this.signatureSize := signatureSize;
      this.rowsNo := signatureSize / BANDS_NO;
      this.combine := combine;
      this.lshBuckets := seq(BANDS_NO, _ => map[]);
      this.docs := [];
      new;
      for i := 0 to |docs|
        invariant Valid() && this.docs == docs[..i]
      {
        ComputeGroups(docs[i]);
        assert docs[..i + 1] == docs[..i] + [docs[i]];
      }
      assert docs[..|docs|] == docs;
    }

    /** Files one document under its key in every band. */
    method ComputeGroups(doc: Doc)
      requires Valid()
      modifies this
      ensures Valid() && docs == old(docs) + [doc]
    {
      var bandRows, row := 0, 0;
      for band := 0 to BANDS_NO
        invariant row == bandRows == band * rowsNo
        invariant |lshBuckets| == BANDS_NO && docs == old(docs)
        invariant forall b :: 0 <= b < band ==> TableOf(combine, rowsNo, lshBuckets[b], docs + [doc], b)
        invariant forall b :: band <= b < BANDS_NO ==> TableOf(combine, rowsNo, lshBuckets[b], docs, b)
      {
        BandEnd(rowsNo, band);
        var hashValue: size := 17;
        bandRows := bandRows + rowsNo;
        while row < bandRows
          invariant band * rowsNo <= row <= bandRows
          invariant hashValue == Folded(combine, doc.signature, band * rowsNo, row)
        {
          hashValue := combine(hashValue, doc.signature[row]);
          row := row + 1;
        }
        FileOne(combine, rowsNo, lshBuckets[band], docs, band, doc);
        Insert(band, ToInt32(hashValue), doc.id);
      }
      docs := docs + [doc];
    }

    method Insert(band: nat, key: int32, id: string)
      requires band < |lshBuckets|
      modifies this`lshBuckets
      ensures lshBuckets == old(lshBuckets)[band := Filed(old(lshBuckets)[band], key, id)]
    {
      lshBuckets := lshBuckets[band := Filed(lshBuckets[band], key, id)];
    }

    /** Returns the document's own id and that of every document indexed so far that shares a band with it, then indexes
        it. */
    method ProcessSignature(doc: Doc) returns (duplicates: set<string>)
      requires Valid()
      modifies this
      ensures Valid() && docs == old(docs) + [doc]
      ensures duplicates == {doc.id} + LinearScan(combine, rowsNo, old(docs), doc.signature)
    {
      duplicates := {doc.id};
      var bandRows, row := 0, 0;
      var hashes: seq<(nat, size)> := [];
      for band := 0 to BANDS_NO
        invariant unchanged(this)
        invariant row == bandRows == band * rowsNo
        invariant |hashes| == band
        invariant forall b :: 0 <= b < band ==>
          hashes[b].0 == b && ToInt32(hashes[b].1) == Key(combine, rowsNo, doc.signature, b)
        invariant duplicates == {doc.id} + ScanBands(combine, rowsNo, docs, doc.signature, band)
      {
        BandEnd(rowsNo, band);
        var hashValue: size := 17;
        bandRows := bandRows + rowsNo;
        while row < bandRows
          invariant unchanged(this)
          invariant band * rowsNo <= row <= bandRows
          invariant hashValue == Folded(combine, doc.signature, band * rowsNo, row)
        {
          hashValue := combine(hashValue, doc.signature[row]);
          row := row + 1;
        }
        assert TableOf(combine, rowsNo, lshBuckets[band], docs, band);
        if ToInt32(hashValue) in lshBuckets[band] {
          duplicates := duplicates + lshBuckets[band][ToInt32(hashValue)];
        }
        hashes := hashes + [(band, hashValue)];
      }
      ScanAll(combine, rowsNo, docs, doc.signature);
      FileAll(hashes, doc);
    }

    method FileAll(hashes: seq<(nat, size)>, doc: Doc)
      requires Valid() && |hashes| == BANDS_NO
      requires forall b :: 0 <= b < BANDS_NO ==>
        hashes[b].0 == b && ToInt32(hashes[b].1) == Key(combine, rowsNo, doc.signature, b)
      modifies this
      ensures Valid() && docs == old(docs) + [doc]
    {
      for k := 0 to |hashes|
        invariant |lshBuckets| == BANDS_NO && docs == old(docs)
        invariant forall b :: 0 <= b < k ==> TableOf(combine, rowsNo, lshBuckets[b], docs + [doc], b)
        invariant forall b :: k <= b < BANDS_NO ==> TableOf(combine, rowsNo, lshBuckets[b], docs, b)
      {
        FileOne(combine, rowsNo, lshBuckets[k], docs, k, doc);
        Insert(hashes[k].0, ToInt32(hashes[k].1), doc.id);
      }
      docs := docs + [doc];
    }
  }

  /** What the first bands of a scan have found. */
  function ScanBands(combine: Combine, rows: nat, docs: seq<Doc>, signature: Signature, end: nat): set<string>
    requires end <= BANDS_NO && BANDS_NO * rows <= SIGNATURE_SIZE
  {
    if end == 0 then {}
    else
      var found := ScanBands(combine, rows, docs, signature, end - 1);
      found + IdsWith(combine, rows, docs, end - 1, Key(combine, rows, signature, end - 1))
  }

  lemma {:induction false} ScanBandsIs(combine: Combine, rows: nat, docs: seq<Doc>, signature: Signature,
                                       end: nat, id: string)
    requires end <= BANDS_NO && BANDS_NO * rows <= SIGNATURE_SIZE
    ensures id in ScanBands(combine, rows, docs, signature, end)
       <==> exists band, i :: 0 <= band < end && 0 <= i < |docs| && docs[i].id == id
              && Key(combine, rows, docs[i].signature, band) == Key(combine, rows, signature, band)
  {
    if end > 0 {
      ScanBandsIs(combine, rows, docs, signature, end - 1, id);
    }
  }

  /** Looking band by band finds what comparing document by document finds. */
  lemma ScanAll(combine: Combine, rows: nat, docs: seq<Doc>, signature: Signature)
    requires BANDS_NO * rows <= SIGNATURE_SIZE
    ensures ScanBands(combine, rows, docs, signature, BANDS_NO) == LinearScan(combine, rows, docs, signature)
  {
    forall id: string
      ensures id in ScanBands(combine, rows, docs, signature, BANDS_NO)
         <==> id in LinearScan(combine, rows, docs, signature)
    {
      ScanBandsIs(combine, rows, docs, signature, BANDS_NO, id);
    }
  }
}
