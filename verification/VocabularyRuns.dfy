/**
 * Whole runs of a vocabulary: merges of new stems and readings of articles, in any order. A merge may move a stem to
 * another id, while its counter stays behind; these are the runs in which counters go on counting their stems.
 */
module VocabularyRuns {
  import opened Options
  import opened SortedStems
  import opened Sets
  import opened Vocabulary
  import opened ArticleParser

  datatype Event = Merge(added: set<string>) | Article(tokens: seq<string>)

  /** The stems and the counters at one moment. */
  datatype Ledger = Ledger(stems: seq<string>, freqs: seq<nat>)

  ghost predicate Happens(reading: Reading, was: Ledger, event: Event, now: Ledger) {
    && Increasing(now.stems) && |now.freqs| == |was.freqs| && |now.stems| <= |now.freqs|
    && match event
       case Merge(added) => Elements(now.stems) == Elements(was.stems) + added && now.freqs == was.freqs
       case Article(tokens) =>
         now.stems == was.stems && now.freqs == Counted(was.freqs, IdsOf(reading, was.stems, tokens))
  }

  ghost predicate StartsEmpty(ledger: Ledger) {
    ledger.stems == [] && forall i :: 0 <= i < |ledger.freqs| ==> ledger.freqs[i] == 0
  }

  /** A run from an empty vocabulary: `history[k]` is what the first `k` events left. */
  ghost predicate IsRun(reading: Reading, events: seq<Event>, history: seq<Ledger>) {
    && |history| == |events| + 1
    && StartsEmpty(history[0])
    && forall k :: 0 <= k < |events| ==> Happens(reading, history[k], events[k], history[k + 1])
  }

  // ---- How many articles use a stem ----

  /** Some token that is not passed over stems to `stem`, whether the vocabulary has the stem by then or not. */
  ghost predicate UsesStem(reading: Reading, tokens: seq<string>, stem: string) {
    exists k :: 0 <= k < |tokens| && !Skipped(reading, tokens[k]) && reading.stem(reading.lower(tokens[k])) == stem
  }

  /** The articles among the first `n` events that use a stem. */
  ghost function ArticlesWith(reading: Reading, events: seq<Event>, n: nat, stem: string): nat
    requires n <= |events|
  {
    if n == 0 then 0
    else
      ArticlesWith(reading, events, n - 1, stem)
        + if events[n - 1].Article? && UsesStem(reading, events[n - 1].tokens, stem) then 1 else 0
  }

  /** The counter of every stem of the vocabulary is the number of articles read that use the stem. */
  ghost predicate CountsRight(reading: Reading, events: seq<Event>, history: seq<Ledger>, n: nat)
    requires n <= |events| < |history|
  {
    forall stem :: stem in history[n].stems ==>
      && IdOf(history[n].stems, stem).Some?
      && FreqAt(history[n].freqs, IdOf(history[n].stems, stem).value) == ArticlesWith(reading, events, n, stem)
  }

  // ---- What every run keeps ----

  lemma UsedId(reading: Reading, stems: seq<string>, tokens: seq<string>, id: nat)
    requires Increasing(stems) && id < |stems|
    ensures id in IdsOf(reading, stems, tokens) <==> UsesStem(reading, tokens, stems[id])
  {
    IdsAre(reading, stems, tokens, id);
    IdOfStem(stems, id);
    forall k | 0 <= k < |tokens| && !Skipped(reading, tokens[k])
      ensures TokenId(reading, stems, tokens[k]) == Some(id) <==> reading.stem(reading.lower(tokens[k])) == stems[id]
    {
    }
  }

  /** Ids past the last stem are never counted. */
  lemma {:induction false} NothingBeyond(reading: Reading, events: seq<Event>, history: seq<Ledger>, n: nat)
    requires IsRun(reading, events, history) && n <= |events|
    ensures Increasing(history[n].stems) && |history[n].freqs| == |history[0].freqs|
    ensures forall i: nat :: |history[n].stems| <= i ==> FreqAt(history[n].freqs, i) == 0
  {
    if n > 0 {
      NothingBeyond(reading, events, history, n - 1);
      var was, now := history[n - 1], history[n];
      assert Happens(reading, was, events[n - 1], now);
      match events[n - 1]
      case Merge(_) =>
        ElementsCount(was.stems);
        ElementsCount(now.stems);
        SmallerSet(Elements(was.stems), Elements(now.stems));
      case Article(tokens) =>
        forall i: nat | |now.stems| <= i ensures FreqAt(now.freqs, i) == 0 {
          IdsAre(reading, was.stems, tokens, i);
          assert FreqAt(was.freqs, i) == 0;
        }
    }
  }

  // ---- When the counters are right ----

  /** Reading an article keeps right counters right. */
  lemma ArticleKeepsRight(reading: Reading, events: seq<Event>, history: seq<Ledger>, n: nat)
    requires IsRun(reading, events, history) && n < |events| && events[n].Article?
    requires CountsRight(reading, events, history, n)
    ensures CountsRight(reading, events, history, n + 1)
  {
    NothingBeyond(reading, events, history, n);
    var was, now := history[n], history[n + 1];
    assert Happens(reading, was, events[n], now);
    forall stem | stem in now.stems
      ensures IdOf(now.stems, stem).Some?
      ensures FreqAt(now.freqs, IdOf(now.stems, stem).value) == ArticlesWith(reading, events, n + 1, stem)
    {
      UsedId(reading, was.stems, events[n].tokens, IdOf(was.stems, stem).value);
    }
  }

  /** No genuinely new stem is used by an article read before. */
  ghost predicate NewAreUnused(reading: Reading, events: seq<Event>, n: nat, stems: seq<string>, added: set<string>)
    requires n <= |events|
  {
    forall stem :: stem in added && stem !in stems ==> ArticlesWith(reading, events, n, stem) == 0
  }

  /** A merge passes no counted stem, and comes before every article that uses one of its new stems. */
  ghost predicate Harmless(reading: Reading, events: seq<Event>, n: nat, was: Ledger, added: set<string>)
    requires n <= |events|
  {
    PassesNoCounted(was.freqs, was.stems, added) && NewAreUnused(reading, events, n, was.stems, added)
  }

  /** Merging stems keeps right counters right exactly when the merge is harmless. */
  lemma MergeKeepsRight(reading: Reading, events: seq<Event>, history: seq<Ledger>, n: nat)
    requires IsRun(reading, events, history) && n < |events| && events[n].Merge?
    requires CountsRight(reading, events, history, n)
    ensures CountsRight(reading, events, history, n + 1)
       <==> Harmless(reading, events, n, history[n], events[n].added)
  {
    NothingBeyond(reading, events, history, n);
    var was, now, added := history[n], history[n + 1], events[n].added;
    assert Happens(reading, was, events[n], now);
    MergeKeepsCounts(was.freqs, was.stems, now.stems, added);
    if PassesNoCounted(was.freqs, was.stems, added) {
      NewCountsRight(reading, events, history, n);
    } else {
      var stem :| stem in was.stems
        && FreqAt(was.freqs, IdOf(now.stems, stem).value) != FreqAt(was.freqs, IdOf(was.stems, stem).value);
      assert stem in Elements(was.stems);
      assert stem in Elements(now.stems);
    }
  }

  lemma NewCountsRight(reading: Reading, events: seq<Event>, history: seq<Ledger>, n: nat)
    requires IsRun(reading, events, history) && n < |events| && events[n].Merge?
    requires CountsRight(reading, events, history, n)
    requires PassesNoCounted(history[n].freqs, history[n].stems, events[n].added)
    ensures CountsRight(reading, events, history, n + 1)
       <==> NewAreUnused(reading, events, n, history[n].stems, events[n].added)
  {
    NothingBeyond(reading, events, history, n);
    var was, now, added := history[n], history[n + 1], events[n].added;
    assert Happens(reading, was, events[n], now);
    MergeKeepsCounts(was.freqs, was.stems, now.stems, added);
    forall stem | stem in added && stem !in was.stems
      ensures stem in now.stems && IdOf(now.stems, stem).Some?
      ensures FreqAt(now.freqs, IdOf(now.stems, stem).value) == 0
    {
      NewStartsUncounted(was.freqs, was.stems, now.stems, added, stem);
      assert stem in Elements(now.stems);
    }
    forall stem | stem in now.stems ensures stem in was.stems || stem in added {
      assert stem in Elements(now.stems);
    }
    forall stem | stem in was.stems ensures stem in now.stems {
      assert stem in Elements(was.stems) && stem in Elements(now.stems);
    }
  }

  lemma MergeKeepsCounts(freqs: seq<nat>, stems: seq<string>, stems': seq<string>, added: set<string>)
    requires Increasing(stems) && Increasing(stems') && Elements(stems') == Elements(stems) + added
    requires forall i: nat :: |stems| <= i ==> FreqAt(freqs, i) == 0
    ensures CountsFollow(freqs, stems, stems') <==> PassesNoCounted(freqs, stems, added)
    ensures forall s :: s in stems ==> IdOf(stems, s).Some? && IdOf(stems', s).Some?
  {
    var count := (id: nat) => FreqAt(freqs, id);
    FollowExactly(count, 0, stems, stems', added);
    assert CountsFollow(freqs, stems, stems') <==> Follows(count, stems, stems');
    assert PassesNoCounted(freqs, stems, added) <==> PassesOnlyEmpty(count, 0, stems, added);
    forall s | s in stems ensures IdOf(stems, s).Some? && IdOf(stems', s).Some? {
      assert s in Elements(stems');
    }
  }

  lemma NewStartsUncounted(freqs: seq<nat>, stems: seq<string>, stems': seq<string>, added: set<string>, n: string)
    requires Increasing(stems) && Increasing(stems') && Elements(stems') == Elements(stems) + added
    requires forall i: nat :: |stems| <= i ==> FreqAt(freqs, i) == 0
    requires PassesNoCounted(freqs, stems, added) && n in added && n !in stems
    ensures IdOf(stems', n).Some? && FreqAt(freqs, IdOf(stems', n).value) == 0
  {
    var count := (id: nat) => FreqAt(freqs, id);
    assert PassesOnlyEmpty(count, 0, stems, added);
    NewStartsEmpty(count, 0, stems, stems', added, n);
  }

  ghost predicate MergesHarmless(reading: Reading, events: seq<Event>, history: seq<Ledger>, n: nat)
    requires n <= |events| < |history|
  {
    forall k :: 0 <= k < n && events[k].Merge? ==> Harmless(reading, events, k, history[k], events[k].added)
  }

  lemma EventKeepsRight(reading: Reading, events: seq<Event>, history: seq<Ledger>, n: nat)
    requires IsRun(reading, events, history) && n < |events| && CountsRight(reading, events, history, n)
    ensures CountsRight(reading, events, history, n + 1)
       <==> (events[n].Merge? ==> Harmless(reading, events, n, history[n], events[n].added))
  {
    if events[n].Article? {
      ArticleKeepsRight(reading, events, history, n);
    } else {
      MergeKeepsRight(reading, events, history, n);
    }
  }

  ghost predicate AlwaysRight(reading: Reading, events: seq<Event>, history: seq<Ledger>, n: nat)
    requires n <= |events| < |history|
  {
    forall m :: 0 <= m <= n ==> CountsRight(reading, events, history, m)
  }

  /** The counters are right at every moment up to the n-th exactly when every merge before it was harmless. */
  lemma {:induction false} CountsRightExactly(reading: Reading, events: seq<Event>, history: seq<Ledger>, n: nat)
    requires IsRun(reading, events, history) && n <= |events|
    ensures AlwaysRight(reading, events, history, n) <==> MergesHarmless(reading, events, history, n)
  {
    if n > 0 {
      CountsRightExactly(reading, events, history, n - 1);
      RightOneMore(reading, events, history, n - 1);
      if AlwaysRight(reading, events, history, n - 1) {
        EventKeepsRight(reading, events, history, n - 1);
      }
    } else {
      assert CountsRight(reading, events, history, 0);
    }
  }

  lemma RightOneMore(reading: Reading, events: seq<Event>, history: seq<Ledger>, n: nat)
    requires n < |events| < |history|
    ensures AlwaysRight(reading, events, history, n + 1)
       <==> AlwaysRight(reading, events, history, n) && CountsRight(reading, events, history, n + 1)
    ensures AlwaysRight(reading, events, history, n) ==> CountsRight(reading, events, history, n)
    ensures MergesHarmless(reading, events, history, n + 1)
       <==> (MergesHarmless(reading, events, history, n)
             && (events[n].Merge? ==> Harmless(reading, events, n, history[n], events[n].added)))
  {
  }

  lemma {:induction false} NothingReadYet(reading: Reading, events: seq<Event>, history: seq<Ledger>, n: nat)
    requires IsRun(reading, events, history) && n <= |events|
    requires forall k :: 0 <= k < n ==> events[k].Merge?
    ensures forall id: nat :: FreqAt(history[n].freqs, id) == 0
    ensures forall stem :: ArticlesWith(reading, events, n, stem) == 0
  {
    if n > 0 {
      NothingReadYet(reading, events, history, n - 1);
      assert Happens(reading, history[n - 1], events[n - 1], history[n]);
    }
  }

  /** When all merges come before all articles, the counters are always right. */
  lemma TwoPhasesCountRight(reading: Reading, events: seq<Event>, history: seq<Ledger>)
    requires IsRun(reading, events, history)
    requires forall i, k :: 0 <= i < k < |events| && events[k].Merge? ==> events[i].Merge?
    ensures AlwaysRight(reading, events, history, |events|)
  {
    forall k | 0 <= k < |events| && events[k].Merge?
      ensures Harmless(reading, events, k, history[k], events[k].added)
    {
      NothingReadYet(reading, events, history, k);
      forall s | s in history[k].stems ensures IdOf(history[k].stems, s).Some? {}
    }
    CountsRightExactly(reading, events, history, |events|);
  }

  // ---- The counter of frequent stems ----

  /** The stems of the vocabulary that more than three of the articles read use. */
  ghost function FrequentStems(reading: Reading, events: seq<Event>, history: seq<Ledger>, n: nat): set<string>
    requires n <= |events| < |history|
  {
    set stem | stem in history[n].stems && ArticlesWith(reading, events, n, stem) > 3
  }

  function CountedOften(stems: seq<string>, freqs: seq<nat>): set<string> {
    set i | 0 <= i < |stems| && FreqAt(freqs, i) > 3 :: stems[i]
  }

  lemma {:induction false} CountedOftenSize(stems: seq<string>, freqs: seq<nat>)
    requires Increasing(stems) && |stems| <= |freqs|
    ensures |CountedOften(stems, freqs)| == Frequent(freqs[..|stems|])
  {
    if stems != [] {
      var last := |stems| - 1;
      var before := CountedOften(stems[..last], freqs);
      CountedOftenSize(stems[..last], freqs);
      assert freqs[..|stems|][..last] == freqs[..last];
      OneMoreOften(stems, freqs, last);
    }
  }

  lemma OneMoreOften(stems: seq<string>, freqs: seq<nat>, last: nat)
    requires Increasing(stems) && |stems| == last + 1
    ensures CountedOften(stems, freqs)
         == CountedOften(stems[..last], freqs) + if FreqAt(freqs, last) > 3 then {stems[last]} else {}
    ensures stems[last] !in CountedOften(stems[..last], freqs)
  {
    forall i | 0 <= i < last ensures stems[i] != stems[last] {
      LessIsStrict(stems[last]);
    }
    assert forall i :: 0 <= i < last ==> stems[..last][i] == stems[i];
  }

  lemma {:induction false} FrequentBelow(freqs: seq<nat>, end: nat)
    requires end <= |freqs| && forall i :: end <= i < |freqs| ==> freqs[i] == 0
    ensures Frequent(freqs) == Frequent(freqs[..end])
    decreases |freqs|
  {
    if end < |freqs| {
      FrequentBelow(freqs[..|freqs| - 1], end);
      assert freqs[..|freqs| - 1][..end] == freqs[..end];
    } else {
      assert freqs[..end] == freqs;
    }
  }

  lemma FrequentAreStems(reading: Reading, events: seq<Event>, history: seq<Ledger>, n: nat)
    requires IsRun(reading, events, history) && n <= |events| && CountsRight(reading, events, history, n)
    ensures Frequent(history[n].freqs) == |FrequentStems(reading, events, history, n)|
  {
    NothingBeyond(reading, events, history, n);
    LedgerFits(reading, events, history, n);
    var stems, freqs := history[n].stems, history[n].freqs;
    forall i | |stems| <= i < |freqs| ensures freqs[i] == 0 {
      assert FreqAt(freqs, i) == 0;
    }
    FrequentBelow(freqs, |stems|);
    CountedOftenSize(stems, freqs);
    forall i | 0 <= i < |stems| ensures FreqAt(freqs, i) == ArticlesWith(reading, events, n, stems[i]) {
      IdOfStem(stems, i);
    }
    assert CountedOften(stems, freqs) == FrequentStems(reading, events, history, n);
  }

  lemma LedgerFits(reading: Reading, events: seq<Event>, history: seq<Ledger>, n: nat)
    requires IsRun(reading, events, history) && n <= |events|
    ensures |history[n].stems| <= |history[n].freqs|
  {
    if n > 0 {
      assert Happens(reading, history[n - 1], events[n - 1], history[n]);
    }
  }

  /** As long as the counters are right, the counter of frequent stems is the number of the vocabulary's stems in more
      than three articles if and only if none of them is in more than four. */
  lemma FrequentCounterExactly(reading: Reading, events: seq<Event>, history: seq<Ledger>, n: nat)
    requires IsRun(reading, events, history) && n <= |events| && CountsRight(reading, events, history, n)
    ensures Excess(history[n].freqs) == |FrequentStems(reading, events, history, n)|
       <==> forall stem :: stem in history[n].stems ==> ArticlesWith(reading, events, n, stem) <= 4
  {
    var stems, freqs := history[n].stems, history[n].freqs;
    FrequentAreStems(reading, events, history, n);
    ExcessCountsFrequent(freqs);
    NothingBeyond(reading, events, history, n);
    LedgerFits(reading, events, history, n);
    if forall stem :: stem in stems ==> ArticlesWith(reading, events, n, stem) <= 4 {
      forall i | 0 <= i < |freqs| ensures freqs[i] <= 4 {
        assert freqs[i] == FreqAt(freqs, i);
        if i < |stems| {
          IdOfStem(stems, i);
        }
      }
    } else {
      var stem :| stem in stems && ArticlesWith(reading, events, n, stem) > 4;
      assert freqs[IdOf(stems, stem).value] > 4;
    }
  }
}
