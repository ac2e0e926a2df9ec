/** Deciding whether an article repeats an earlier one, from its shingles to the answer. */
module ArticleDedup {
  import opened Integers
  import opened MinHash
  import opened LshIndex

  const ROWS_NO: nat := SIGNATURE_SIZE / BANDS_NO

  /** Some document with another id shares a band with this one. */
  predicate Flagged(combine: Combine, docs: seq<Doc>, doc: Doc) {
    exists i :: 0 <= i < |docs| && docs[i].id != doc.id
             && ShareBand(combine, ROWS_NO, docs[i].signature, doc.signature)
  }

  class ArticleDedup {
    const lshDeduplication: LshDeduplication

    ghost predicate Valid()
      reads this, lshDeduplication
    {
      lshDeduplication.Valid() && lshDeduplication.signatureSize == SIGNATURE_SIZE
    }

    constructor (docs: seq<Doc>, combine: Combine)
      ensures Valid() && fresh(lshDeduplication)
      ensures lshDeduplication.docs == docs && lshDeduplication.combine == combine
    {
      lshDeduplication := new LshDeduplication(SIGNATURE_SIZE, docs, combine);
    }

    /** An article is a duplicate exactly when some different id qualifies; either way it is indexed from now on. */
    method IsDuplicate(doc: Doc) returns (duplicate: bool)
      requires Valid()
      modifies lshDeduplication
      ensures Valid() && lshDeduplication.docs == old(lshDeduplication.docs) + [doc]
      ensures duplicate <==> Flagged(lshDeduplication.combine, old(lshDeduplication.docs), doc)
    {
      var duplicates := lshDeduplication.ProcessSignature(doc);
      MoreThanOne(lshDeduplication.combine, old(lshDeduplication.docs), doc, duplicates);
      duplicate := |duplicates| > 1;
    }
  }

  /** The server's loop: requests are answered one at a time, each against everything indexed before it. */
  method Serve(dedup: ArticleDedup, requests: seq<Doc>) returns (answers: seq<bool>)
    requires dedup.Valid()
    modifies dedup.lshDeduplication
    ensures dedup.Valid() && dedup.lshDeduplication.docs == old(dedup.lshDeduplication.docs) + requests
    ensures IsHistory(dedup.lshDeduplication.combine, old(dedup.lshDeduplication.docs), requests, answers)
  {
    ghost var combine, indexed := dedup.lshDeduplication.combine, dedup.lshDeduplication.docs;
    answers := [];
    for k := 0 to |requests|
      invariant dedup.Valid() && dedup.lshDeduplication.docs == indexed + requests[..k]
      invariant IsHistory(combine, indexed, requests[..k], answers)
    {
      var duplicate := dedup.IsDuplicate(requests[k]);
      OneMoreAnswer(combine, indexed, requests, k, answers, duplicate);
      answers := answers + [duplicate];
      assert indexed + requests[..k + 1] == indexed + requests[..k] + [requests[k]];
    }
    assert requests[..|requests|] == requests;
  }

  /** Each answer says whether an earlier document, indexed at the start or requested before, qualifies. */
  ghost predicate IsHistory(combine: Combine, indexed: seq<Doc>, requests: seq<Doc>, answers: seq<bool>) {
    && |answers| == |requests|
    && forall k :: 0 <= k < |requests| ==> (answers[k] <==> Flagged(combine, indexed + requests[..k], requests[k]))
  }

  lemma OneMoreAnswer(combine: Combine, indexed: seq<Doc>, requests: seq<Doc>, k: nat, answers: seq<bool>, answer: bool)
    requires k < |requests| && IsHistory(combine, indexed, requests[..k], answers)
    requires answer <==> Flagged(combine, indexed + requests[..k], requests[k])
    ensures IsHistory(combine, indexed, requests[..k + 1], answers + [answer])
  {
    var more := requests[..k + 1];
    forall j | 0 <= j <= k ensures (answers + [answer])[j] <==> Flagged(combine, indexed + more[..j], more[j]) {
      assert more[..j] == requests[..j];
      if j < k {
        assert requests[..k][..j] == requests[..j];
      }
    }
  }

  /** In every history a request is answered yes if one before it, under another id, differs in fewer than twenty
      rows. */
  lemma LaterCopiesAreFlagged(combine: Combine, indexed: seq<Doc>, requests: seq<Doc>, answers: seq<bool>,
                              i: nat, k: nat)
    requires IsHistory(combine, indexed, requests, answers) && i < k < |requests|
    requires requests[i].id != requests[k].id
    requires |DifferingRows(requests[i].signature, requests[k].signature, SIGNATURE_SIZE)| < BANDS_NO
    ensures answers[k]
  {
    var earlier := indexed + requests[..k];
    assert earlier[|indexed| + i] == requests[i];
    NearCopiesAreFlagged(combine, earlier, requests[k], |indexed| + i);
  }

  lemma MoreThanOne(combine: Combine, docs: seq<Doc>, doc: Doc, duplicates: set<string>)
    requires duplicates == {doc.id} + LinearScan(combine, ROWS_NO, docs, doc.signature)
    ensures |duplicates| > 1 <==> Flagged(combine, docs, doc)
  {
    var others := duplicates - {doc.id};
    assert duplicates == others + {doc.id};
    assert |duplicates| == |others| + 1;
    if others != {} {
      var id :| id in others;
    }
    if Flagged(combine, docs, doc) {
      var i :| 0 <= i < |docs| && docs[i].id != doc.id && ShareBand(combine, ROWS_NO, docs[i].signature, doc.signature);
      assert docs[i].id in others;
    }
  }

  /** An article whose signature differs from an indexed one's in fewer than twenty of its hundred rows is flagged. */
  lemma NearCopiesAreFlagged(combine: Combine, docs: seq<Doc>, doc: Doc, i: nat)
    requires i < |docs| && docs[i].id != doc.id
    requires |DifferingRows(docs[i].signature, doc.signature, SIGNATURE_SIZE)| < BANDS_NO
    ensures Flagged(combine, docs, doc)
  {
    SharedBandsBound(combine, ROWS_NO, docs[i].signature, doc.signature);
  }

  function FiveRows(doc: Doc, band: nat): seq<int32>
    requires band < 20
  {
    doc.signature[5 * band..5 * band + 5]
  }

  lemma FiveRowsAre(doc: Doc, band: nat)
    requires band < 20
    ensures BandRows(ROWS_NO, doc.signature, band) == FiveRows(doc, band)
  {
  }

  lemma KeysOfFiveRows(combine: Combine, a: Doc, b: Doc, band: nat)
    requires band < 20
    ensures Key(combine, ROWS_NO, a.signature, band) == Key(combine, ROWS_NO, b.signature, band)
       <==> SameLowBits(FoldRows(combine, 17, FiveRows(a, band)), FoldRows(combine, 17, FiveRows(b, band)))
  {
    SameKeyExactly(combine, ROWS_NO, a.signature, b.signature, band);
    FiveRowsAre(a, band);
    FiveRowsAre(b, band);
  }

  /** An article is flagged exactly when, in some band, its five rows and those of an article with another id fold to
      hashes with the same low 32 bits. */
  lemma FlaggedByFolds(combine: Combine, docs: seq<Doc>, doc: Doc)
    ensures Flagged(combine, docs, doc)
       <==> exists i, band :: 0 <= i < |docs| && 0 <= band < 20 && docs[i].id != doc.id
              && SameLowBits(FoldRows(combine, 17, FiveRows(docs[i], band)), FoldRows(combine, 17, FiveRows(doc, band)))
  {
    forall i, band | 0 <= i < |docs| && 0 <= band < 20
      ensures Key(combine, ROWS_NO, docs[i].signature, band) == Key(combine, ROWS_NO, doc.signature, band)
         <==> SameLowBits(FoldRows(combine, 17, FiveRows(docs[i], band)), FoldRows(combine, 17, FiveRows(doc, band)))
    {
      KeysOfFiveRows(combine, docs[i], doc, band);
    }
  }

  /** Different rows that occur in one band of an indexed article and of this one stay different when they are folded
      from 17 and narrowed to 32 bits. */
  ghost predicate BandsToldApart(combine: Combine, docs: seq<Doc>, doc: Doc) {
    forall i, band :: 0 <= i < |docs| && 0 <= band < 20 && FiveRows(docs[i], band) != FiveRows(doc, band) ==>
      !SameLowBits(FoldRows(combine, 17, FiveRows(docs[i], band)), FoldRows(combine, 17, FiveRows(doc, band)))
  }

  /** Unless the hash confuses rows, an article is flagged if and only if some article with another id has the same five
      rows in some band. */
  lemma FlaggedExactly(combine: Combine, docs: seq<Doc>, doc: Doc)
    requires BandsToldApart(combine, docs, doc)
    ensures Flagged(combine, docs, doc)
       <==> exists i, band :: 0 <= i < |docs| && 0 <= band < 20 && docs[i].id != doc.id
              && FiveRows(docs[i], band) == FiveRows(doc, band)
  {
    FlaggedByFolds(combine, docs, doc);
  }

  ghost function ArticleSignature(hash: Hash, shingles: set<int32>): Signature {
    SignatureOf(shingles, hash, SIGNATURE_SIZE, MINHASH_RANGE_MAX)
  }

  /** A signature has a hundred entries; each is the least remainder modulo 100000000 of its own hash function on the
      shingles, or 100000001 when there are none. */
  lemma SignatureOfArticle(hash: Hash, shingles: set<int32>, h: nat)
    requires h < 100
    ensures |ArticleSignature(hash, shingles)| == 100
    ensures shingles == {} ==> ArticleSignature(hash, shingles)[h] == 100000001
    ensures shingles != {} ==>
      exists e :: e in shingles && ArticleSignature(hash, shingles)[h] == TruncMod(hash(e, h), 100000000)
    ensures forall e :: e in shingles ==> ArticleSignature(hash, shingles)[h] <= TruncMod(hash(e, h), 100000000)
  {
    EntriesInRange(shingles, h, hash, SIGNATURE_SIZE, MINHASH_RANGE_MAX);
  }

  /** The same shingles under another id are always flagged, whatever the hashes are. */
  lemma CopiesAreFlagged(combine: Combine, hash: Hash, docs: seq<Doc>, i: nat, id: string, shingles: set<int32>)
    requires i < |docs| && docs[i].id != id && docs[i].signature == ArticleSignature(hash, shingles)
    ensures Flagged(combine, docs, Doc(id, ArticleSignature(hash, shingles)))
  {
    assert Key(combine, ROWS_NO, docs[i].signature, 0) == Key(combine, ROWS_NO, ArticleSignature(hash, shingles), 0);
  }

  /** Whether some added shingle gets a lower value from hash function `h` than the article's own ones do. */
  ghost predicate Undercut(hash: Hash, shingles: set<int32>, added: set<int32>, h: nat) {
    exists e :: e in added &&
      TruncMod(hash(e, h), MINHASH_RANGE_MAX) < Entry(shingles, h, hash, SIGNATURE_SIZE, MINHASH_RANGE_MAX)
  }

  /** Adding shingles changes the signature exactly at the hash functions they undercut. */
  lemma UndercutRows(hash: Hash, shingles: set<int32>, added: set<int32>)
    ensures DifferingRows(ArticleSignature(hash, shingles), ArticleSignature(hash, shingles + added), SIGNATURE_SIZE)
         == set h: nat | h < SIGNATURE_SIZE && Undercut(hash, shingles, added, h)
  {
    forall h: nat | h < SIGNATURE_SIZE
      ensures ArticleSignature(hash, shingles)[h] != ArticleSignature(hash, shingles + added)[h]
         <==> Undercut(hash, shingles, added, h)
    {
      MinimumOfUnion(Hashed(hash, h, MINHASH_RANGE_MAX), shingles, added, MINHASH_RANGE_MAX + 1);
    }
  }

  /** An article that only adds shingles to an indexed one is flagged if they undercut fewer than twenty hash
      functions. */
  lemma ExtensionsAreFlagged(combine: Combine, hash: Hash, docs: seq<Doc>, i: nat, id: string,
                             shingles: set<int32>, added: set<int32>)
    requires i < |docs| && docs[i].id != id && docs[i].signature == ArticleSignature(hash, shingles)
    requires |set h: nat | h < SIGNATURE_SIZE && Undercut(hash, shingles, added, h)| < BANDS_NO
    ensures Flagged(combine, docs, Doc(id, ArticleSignature(hash, shingles + added)))
  {
    UndercutRows(hash, shingles, added);
    NearCopiesAreFlagged(combine, docs, Doc(id, ArticleSignature(hash, shingles + added)), i);
  }
}
