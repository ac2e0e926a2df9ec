/** How often each selected stem is used in each article. */
module TermDocMatrix {
  import opened SortedStems
  import opened Vocabulary
  import opened ArticleParser

  const MAX_FREQ: nat := 50
  const MIN_FREQ: nat := 3

  // ---- What rows and entries mean ----

  /** The ids below `end` that are in more than `threshold` articles and in fewer than fifty, in order. */
  function Selected(freqs: seq<nat>, end: nat, threshold: nat): seq<nat>
    requires end <= |freqs|
  {
    if end == 0 then []
    else
      var before := Selected(freqs, end - 1, threshold);
      if threshold < freqs[end - 1] < MAX_FREQ then before + [end - 1] else before
  }

  /** A row for each id that qualifies and for no other, each once and in order. */
  lemma {:induction false} SelectedAre(freqs: seq<nat>, end: nat, threshold: nat)
    requires end <= |freqs|
    ensures var ids := Selected(freqs, end, threshold);
            && (forall id: nat :: id in ids <==> id < end && threshold < freqs[id] < MAX_FREQ)
            && (forall i, j :: 0 <= i < j < |ids| ==> ids[i] < ids[j])
  {
    if end > 0 {
      SelectedAre(freqs, end - 1, threshold);
      var before := Selected(freqs, end - 1, threshold);
      forall i | 0 <= i < |before| ensures before[i] < end - 1 {
        assert before[i] in before;
      }
    }
  }

  /** An id's share of an article's tokens. */
  function Weight(ids: seq<nat>, tokensNo: nat, id: nat): real
    requires tokensNo != 0
  {
    multiset(ids)[id] as real / tokensNo as real
  }

  /** The tokens of an article that stand for an id, as places in its list of ids. */
  ghost function PlacesOf(ids: seq<nat>, id: nat): set<nat> {
    set k: nat | k < |ids| && ids[k] == id
  }

  lemma {:induction false} PlacesCount(ids: seq<nat>, id: nat)
    ensures multiset(ids)[id] == |PlacesOf(ids, id)|
  {
    if ids != [] {
      var n := |ids| - 1;
      PlacesCount(ids[..n], id);
      assert ids == ids[..n] + [ids[n]];
      assert PlacesOf(ids, id) == PlacesOf(ids[..n], id) + if ids[n] == id then {n} else {};
    }
  }

  /** An entry is the number of the article's tokens that stand for the id, over its length. */
  lemma WeightIs(ids: seq<nat>, tokensNo: nat, id: nat)
    requires tokensNo != 0
    ensures Weight(ids, tokensNo, id) == |PlacesOf(ids, id)| as real / tokensNo as real
  {
    PlacesCount(ids, id);
  }

  lemma WeightIsZero(ids: seq<nat>, tokensNo: nat, id: nat)
    requires tokensNo != 0
    ensures Weight(ids, tokensNo, id) == 0.0 <==> id !in ids
    ensures Weight(ids, tokensNo, id) >= 0.0
  {
    assert id in ids <==> multiset(ids)[id] > 0;
    Quotient(multiset(ids)[id], tokensNo);
  }

  lemma Quotient(a: nat, b: nat)
    requires b != 0
    ensures a as real / b as real >= 0.0
    ensures a as real / b as real == 0.0 <==> a == 0
    ensures a <= b ==> a as real / b as real <= 1.0
  {
  }

  lemma AddQuotients(a: nat, b: nat, n: nat)
    requires n != 0
    ensures a as real / n as real + b as real / n as real == (a + b) as real / n as real
  {
  }

  // ---- Column sums ----

  function Uses(ids: multiset<nat>, rows: seq<nat>): nat {
    if rows == [] then 0 else Uses(ids, rows[..|rows| - 1]) + ids[rows[|rows| - 1]]
  }

  function ColumnSum(ids: seq<nat>, tokensNo: nat, rows: seq<nat>): real
    requires tokensNo != 0
  {
    if rows == [] then 0.0
    else ColumnSum(ids, tokensNo, rows[..|rows| - 1]) + Weight(ids, tokensNo, rows[|rows| - 1])
  }

  lemma {:induction false} UsesWithout(ids: multiset<nat>, rows: seq<nat>, id: nat)
    requires id !in rows
    ensures Uses(ids[id := 0], rows) == Uses(ids, rows)
  {
    if rows != [] {
      UsesWithout(ids, rows[..|rows| - 1], id);
    }
  }

  /** Different rows count different uses. */
  lemma {:induction false} UsesBounded(ids: multiset<nat>, rows: seq<nat>)
    requires forall i, j :: 0 <= i < j < |rows| ==> rows[i] != rows[j]
    ensures Uses(ids, rows) <= |ids|
    decreases |rows|
  {
    if rows != [] {
      var last := rows[|rows| - 1];
      var before := rows[..|rows| - 1];
      UsesBounded(ids[last := 0], before);
      UsesWithout(ids, before, last);
      assert |ids[last := 0]| == |ids| - ids[last];
    }
  }

  lemma {:induction false} ColumnSumIs(ids: seq<nat>, tokensNo: nat, rows: seq<nat>)
    requires tokensNo != 0
    ensures ColumnSum(ids, tokensNo, rows) == Uses(multiset(ids), rows) as real / tokensNo as real
  {
    if rows != [] {
      ColumnSumIs(ids, tokensNo, rows[..|rows| - 1]);
      AddQuotients(Uses(multiset(ids), rows[..|rows| - 1]), multiset(ids)[rows[|rows| - 1]], tokensNo);
    }
  }

  /** A column's entries add up to at most one: the part of the article's tokens that stand for some row. */
  lemma ColumnSumBounded(ids: seq<nat>, tokensNo: nat, rows: seq<nat>)
    requires tokensNo != 0 && |ids| <= tokensNo
    requires forall i, j :: 0 <= i < j < |rows| ==> rows[i] != rows[j]
    ensures 0.0 <= ColumnSum(ids, tokensNo, rows) <= 1.0
  {
    UsesBounded(multiset(ids), rows);
    ColumnSumIs(ids, tokensNo, rows);
    Quotient(Uses(multiset(ids), rows), tokensNo);
  }

  // ---- The matrix under construction ----

  class Lsa {
    const vocabulary: Vocabulary
    var termsMatToVocab: seq<nat>
    var termDocMat: array2<real>

    constructor (vocabulary: Vocabulary)
      ensures this.vocabulary == vocabulary && termsMatToVocab == []
    {
      this.vocabulary := vocabulary;
      termsMatToVocab := [];
      termDocMat := new real[0, 0];
    }

    /** The rows name existing stems that have tokens. */
    ghost predicate RowsOk()
      reads this, vocabulary, vocabulary.stemsFreq
    {
      forall id :: id in termsMatToVocab ==>
        id < |vocabulary.stems| && id < vocabulary.stemsFreq.Length && TokensAt(vocabulary.stemidTokens, id) != {}
    }

    /** Appends a row for each id selected now to those there already, and fills the whole matrix anew. The loop over
        ids runs one past the last stem; that id is never selected. */
    method BuildTermDocMatrix(articles: seq<ProcessedArticle>, threshold: nat)
      requires vocabulary.Valid() && vocabulary.Consistent() && |vocabulary.stems| < MAX_STEMS_NO
      requires RowsOk()
      requires |articles| > 0
      requires forall c :: 0 <= c < |articles| ==> articles[c].tokensNo != 0
      requires forall c, i :: 0 <= c < |articles| && 0 <= i < |articles[c].stemIds| ==>
        articles[c].stemIds[i] < |vocabulary.stems|
      modifies this
      ensures RowsOk()
      ensures |vocabulary.stems| <= |vocabulary.stemsFreq[..]|
      ensures termsMatToVocab
           == old(termsMatToVocab) + Selected(vocabulary.stemsFreq[..], |vocabulary.stems|, threshold)
      ensures fresh(termDocMat) && termDocMat.Length0 == |termsMatToVocab| && termDocMat.Length1 == |articles|
      ensures forall r, c :: 0 <= r < |termsMatToVocab| && 0 <= c < |articles| ==>
        termDocMat[r, c] == Weight(articles[c].stemIds, articles[c].tokensNo, termsMatToVocab[r])
    {
      SelectTerms(threshold);
      termDocMat := new real[|termsMatToVocab|, |articles|]((_, _) => 0.0);
      for c := 0 to |articles|
        invariant fresh(termDocMat) && termDocMat.Length0 == |termsMatToVocab| && termDocMat.Length1 == |articles|
        invariant RowsOk() && vocabulary.Valid()
        invariant termsMatToVocab
               == old(termsMatToVocab) + Selected(vocabulary.stemsFreq[..], |vocabulary.stems|, threshold)
        invariant forall r, d :: 0 <= r < |termsMatToVocab| && c <= d < |articles| ==> termDocMat[r, d] == 0.0
        invariant forall r, d :: 0 <= r < |termsMatToVocab| && 0 <= d < c ==>
          termDocMat[r, d] == Weight(articles[d].stemIds, articles[d].tokensNo, termsMatToVocab[r])
      {
        FillColumn(c, articles[c]);
      }
    }

    method SelectTerms(threshold: nat)
      requires vocabulary.Valid() && vocabulary.Consistent() && |vocabulary.stems| < MAX_STEMS_NO
      requires RowsOk()
      modifies this`termsMatToVocab
      ensures RowsOk()
      ensures termsMatToVocab
           == old(termsMatToVocab) + Selected(vocabulary.stemsFreq[..], |vocabulary.stems|, threshold)
    {
      var stemsNo := |vocabulary.stems|;
      var id := 0;
      while id <= stemsNo
        invariant id <= stemsNo + 1
        invariant termsMatToVocab == old(termsMatToVocab) + Selected(vocabulary.stemsFreq[..], id, threshold)
      {
        var freq := vocabulary.GetStemFreq(id);
        if freq > threshold && freq < MAX_FREQ {
          termsMatToVocab := termsMatToVocab + [id];
        }
        id := id + 1;
      }
      SelectedAre(vocabulary.stemsFreq[..], stemsNo + 1, threshold);
      assert FreqAt(vocabulary.stemsFreq[..], stemsNo) == 0;
      forall i | i in Selected(vocabulary.stemsFreq[..], stemsNo, threshold)
        ensures i < stemsNo && TokensAt(vocabulary.stemidTokens, i) != {}
      {
        assert FreqAt(vocabulary.stemsFreq[..], i) > 0;
      }
    }

    method FillColumn(c: nat, article: ProcessedArticle)
      requires RowsOk()
      requires termDocMat.Length0 == |termsMatToVocab| && c < termDocMat.Length1 && article.tokensNo != 0
      requires forall i :: 0 <= i < |article.stemIds| ==> article.stemIds[i] < |vocabulary.stems|
      requires forall r :: 0 <= r < |termsMatToVocab| ==> termDocMat[r, c] == 0.0
      modifies termDocMat
      ensures forall r :: 0 <= r < |termsMatToVocab| ==>
        termDocMat[r, c] == Weight(article.stemIds, article.tokensNo, termsMatToVocab[r])
      ensures forall r, d :: 0 <= r < |termsMatToVocab| && 0 <= d < termDocMat.Length1 && d != c ==>
        termDocMat[r, d] == old(termDocMat[r, d])
    {
      var termsFreq := CountTerms(article.stemIds);
      for r := 0 to |termsMatToVocab|
        invariant forall id :: 0 <= id < termsFreq.Length ==> termsFreq[id] == multiset(article.stemIds)[id]
        invariant forall q :: 0 <= q < r ==>
          termDocMat[q, c] == Weight(article.stemIds, article.tokensNo, termsMatToVocab[q])
        invariant forall q :: r <= q < |termsMatToVocab| ==> termDocMat[q, c] == 0.0
        invariant forall q, d :: 0 <= q < |termsMatToVocab| && 0 <= d < termDocMat.Length1 && d != c ==>
          termDocMat[q, d] == old(termDocMat[q, d])
      {
        assert termsMatToVocab[r] in termsMatToVocab;
        var tf := termsFreq[termsMatToVocab[r]];
        Quotient(tf, article.tokensNo);
        if tf > 0 {
          termDocMat[r, c] := tf as real / article.tokensNo as real;
        }
      }
    }

    method CountTerms(stemIds: seq<nat>) returns (termsFreq: array<nat>)
      requires forall i :: 0 <= i < |stemIds| ==> stemIds[i] < |vocabulary.stems|
      ensures fresh(termsFreq) && termsFreq.Length == |vocabulary.stems|
      ensures forall id :: 0 <= id < termsFreq.Length ==> termsFreq[id] == multiset(stemIds)[id]
    {
      termsFreq := new nat[|vocabulary.stems|](_ => 0);
      for k := 0 to |stemIds|
        invariant forall id :: 0 <= id < termsFreq.Length ==> termsFreq[id] == multiset(stemIds[..k])[id]
      {
        assert stemIds[..k + 1] == stemIds[..k] + [stemIds[k]];
        termsFreq[stemIds[k]] := termsFreq[stemIds[k]] + 1;
      }
      assert stemIds[..|stemIds|] == stemIds;
    }

    /** The word shown for a row: the first of its tokens, which always exists. */
    method RowTerm(row: nat) returns (term: string)
      requires RowsOk() && row < |termsMatToVocab|
      ensures term in TokensAt(vocabulary.stemidTokens, termsMatToVocab[row])
      ensures forall t :: t in TokensAt(vocabulary.stemidTokens, termsMatToVocab[row]) ==> !Less(t, term)
    {
      var tokens := TokensAt(vocabulary.stemidTokens, termsMatToVocab[row]);
      assert tokens != {};
      term :| term in tokens;
      LessIsStrict(term);
      var rest := tokens - {term};
      while rest != {}
        invariant rest <= tokens && term in tokens
        invariant forall t :: t in tokens - rest ==> !Less(t, term)
        decreases rest
      {
        var t :| t in rest;
        rest := rest - {t};
        if Less(t, term) {
          LeastSoFar(tokens - rest, t, term);
          term := t;
        }
      }
    }
  }

  lemma LeastSoFar(seen: set<string>, t: string, term: string)
    requires Less(t, term) && forall s :: s in seen && s != t ==> !Less(s, term)
    ensures forall s :: s in seen ==> !Less(s, t)
  {
    forall s | s in seen ensures !Less(s, t) {
      if s == t {
        LessIsStrict(t);
      } else if Less(s, t) {
        LessIsTransitive(s, t, term);
      }
    }
  }
}
