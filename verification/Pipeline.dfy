/** The running engine: each acceptable article first brings its stems into the vocabulary and is then read. */
module Pipeline {
  import opened SortedStems
  import opened Sets
  import opened Vocabulary
  import opened ArticleParser
  import opened VocabularyRuns
  import Driver

  function EventsOf(reading: Reading, docs: seq<seq<string>>): seq<Event> {
    if docs == [] then []
    else
      var last := docs[|docs| - 1];
      var before := EventsOf(reading, docs[..|docs| - 1]);
      if Acceptable(reading, last) then before + [Merge(ValidStems(reading, last)), Article(last)] else before
  }

  ghost predicate IsHistory(reading: Reading, docs: seq<seq<string>>, history: seq<Ledger>) {
    IsRun(reading, EventsOf(reading, docs), history)
  }

  /** A history of the articles that ends in a given ledger. */
  ghost predicate Reaches(reading: Reading, docs: seq<seq<string>>, history: seq<Ledger>, ledger: Ledger) {
    IsHistory(reading, docs, history) && history[|history| - 1] == ledger
  }

  lemma RejectedDoc(reading: Reading, docs: seq<seq<string>>, k: nat)
    requires k < |docs| && !Acceptable(reading, docs[k])
    ensures EventsOf(reading, docs[..k + 1]) == EventsOf(reading, docs[..k])
  {
    assert docs[..k + 1][..k] == docs[..k];
  }

  lemma OneMoreDoc(reading: Reading, docs: seq<seq<string>>, k: nat, history: seq<Ledger>,
                   was: Ledger, merged: Ledger, read: Ledger)
    requires k < |docs| && Reaches(reading, docs[..k], history, was) && Acceptable(reading, docs[k])
    requires Happens(reading, was, Merge(ValidStems(reading, docs[k])), merged)
    requires Happens(reading, merged, Article(docs[k]), read)
    ensures Reaches(reading, docs[..k + 1], history + [merged, read], read)
  {
    assert docs[..k + 1][..k] == docs[..k];
  }

  lemma StemsBounded(reading: Reading, docs: seq<seq<string>>, k: nat)
    requires k < |docs|
    ensures Driver.StemsOf(reading, docs[..k + 1]) == Driver.StemsOf(reading, docs[..k]) + ValidStems(reading, docs[k])
    ensures Driver.StemsOf(reading, docs[..k + 1]) <= Driver.StemsOf(reading, docs)
  {
    assert docs[..k + 1][..k] == docs[..k];
    StemsGrow(reading, docs, k + 1);
  }

  lemma {:induction false} StemsGrow(reading: Reading, docs: seq<seq<string>>, k: nat)
    requires k <= |docs|
    ensures Driver.StemsOf(reading, docs[..k]) <= Driver.StemsOf(reading, docs)
    decreases |docs|
  {
    if k < |docs| {
      var before := docs[..|docs| - 1];
      StemsGrow(reading, before, k);
      assert before[..k] == docs[..k];
    } else {
      assert docs[..k] == docs;
    }
  }

  /** What the engine does to a fresh vocabulary is a run of merges and readings. */
  method Ingest(parser: ArticleParser, vocabulary: Vocabulary, docs: seq<seq<string>>)
    returns (ghost history: seq<Ledger>)
    requires parser.vocabulary == vocabulary && parser.Valid() && vocabulary.stems == []
    requires forall id :: 0 <= id < MAX_STEMS_NO ==> vocabulary.stemsFreq[id] == 0
    requires |Driver.StemsOf(parser.reading, docs)| < MAX_STEMS_NO
    modifies vocabulary, vocabulary.stemsFreq
    ensures parser.Valid() && Reaches(parser.reading, docs, history, Ledger(vocabulary.stems, vocabulary.stemsFreq[..]))
    ensures vocabulary.freqStemsNo == Excess(history[|history| - 1].freqs)
  {
    history := [Ledger(vocabulary.stems, vocabulary.stemsFreq[..])];
    for k := 0 to |docs|
      invariant parser.Valid()
      invariant Reaches(parser.reading, docs[..k], history, Ledger(vocabulary.stems, vocabulary.stemsFreq[..]))
      invariant Elements(vocabulary.stems) <= Driver.StemsOf(parser.reading, docs[..k])
    {
      StemsBounded(parser.reading, docs, k);
      var valid, stems := parser.TokenizeValidate(docs[k]);
      if valid {
        ghost var was := Ledger(vocabulary.stems, vocabulary.stemsFreq[..]);
        var merged, read := IngestOne(parser, vocabulary, docs, k, stems);
        OneMoreDoc(parser.reading, docs, k, history, was, merged, read);
        history := history + [merged, read];
      } else {
        RejectedDoc(parser.reading, docs, k);
      }
    }
    assert docs[..|docs|] == docs;
  }

  method IngestOne(parser: ArticleParser, vocabulary: Vocabulary, docs: seq<seq<string>>, k: nat, stems: set<string>)
    returns (ghost merged: Ledger, ghost read: Ledger)
    requires k < |docs| && parser.vocabulary == vocabulary && parser.Valid()
    requires |Driver.StemsOf(parser.reading, docs)| < MAX_STEMS_NO
    requires Elements(vocabulary.stems) + stems <= Driver.StemsOf(parser.reading, docs)
    modifies vocabulary, vocabulary.stemsFreq
    ensures parser.Valid()
    ensures Happens(parser.reading, old(Ledger(vocabulary.stems, vocabulary.stemsFreq[..])), Merge(stems), merged)
    ensures Happens(parser.reading, merged, Article(docs[k]), read)
    ensures read == Ledger(vocabulary.stems, vocabulary.stemsFreq[..])
    ensures Elements(vocabulary.stems) == Elements(old(vocabulary.stems)) + stems
  {
    vocabulary.AddStems(stems);
    ElementsCount(vocabulary.stems);
    SmallerSet(Elements(vocabulary.stems), Driver.StemsOf(parser.reading, docs));
    merged := Ledger(vocabulary.stems, vocabulary.stemsFreq[..]);
    var article, shingles := parser.ProcessTokens(docs[k], true);
    read := Ledger(vocabulary.stems, vocabulary.stemsFreq[..]);
  }

  // ---- Runs in which every article is accepted ----

  ghost predicate AllAccepted(reading: Reading, docs: seq<seq<string>>) {
    forall k :: 0 <= k < |docs| ==> Acceptable(reading, docs[k])
  }

  lemma {:induction false} AcceptedEvents(reading: Reading, docs: seq<seq<string>>, k: nat)
    requires AllAccepted(reading, docs) && k < |docs|
    ensures var events := EventsOf(reading, docs);
            && |events| == 2 * |docs|
            && events[2 * k] == Merge(ValidStems(reading, docs[k])) && events[2 * k + 1] == Article(docs[k])
    decreases |docs|
  {
    var before := docs[..|docs| - 1];
    if k < |before| {
      AcceptedEvents(reading, before, k);
    } else if before != [] {
      AcceptedEvents(reading, before, 0);
    }
  }

  /** Only the k-th article's own reading counts in its round. */
  lemma AcceptedUses(reading: Reading, docs: seq<seq<string>>, k: nat, stem: string)
    requires AllAccepted(reading, docs) && k < |docs|
    ensures |EventsOf(reading, docs)| == 2 * |docs|
    ensures ArticlesWith(reading, EventsOf(reading, docs), 2 * k + 2, stem)
         == ArticlesWith(reading, EventsOf(reading, docs), 2 * k, stem)
          + if UsesStem(reading, docs[k], stem) then 1 else 0
  {
    AcceptedEvents(reading, docs, k);
    var events := EventsOf(reading, docs);
    assert ArticlesWith(reading, events, 2 * k + 1, stem) == ArticlesWith(reading, events, 2 * k, stem);
  }

  /** The articles that use a stem, when every article is accepted. */
  ghost function Using(reading: Reading, docs: seq<seq<string>>, n: nat, stem: string): nat
    requires n <= |docs|
  {
    if n == 0 then 0 else Using(reading, docs, n - 1, stem) + if UsesStem(reading, docs[n - 1], stem) then 1 else 0
  }

  lemma {:induction false} AcceptedArticles(reading: Reading, docs: seq<seq<string>>, n: nat, stem: string)
    requires AllAccepted(reading, docs) && n <= |docs|
    ensures |EventsOf(reading, docs)| == 2 * |docs|
    ensures ArticlesWith(reading, EventsOf(reading, docs), 2 * n, stem) == Using(reading, docs, n, stem)
  {
    if n > 0 {
      AcceptedArticles(reading, docs, n - 1, stem);
      AcceptedUses(reading, docs, n - 1, stem);
    } else if docs != [] {
      AcceptedEvents(reading, docs, 0);
    }
  }
}
