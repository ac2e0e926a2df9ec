/** Articles that make the counters of a running engine wrong, in the two ways in which a merge can. */
module PipelineExamples {
  import opened SortedStems
  import opened Vocabulary
  import opened ArticleParser
  import opened VocabularyRuns
  import opened Pipeline

  /** Words of two letters that are their own stems; CC is cc in capitals, and unknown as it stands. */
  const SAMPLE: Reading := Reading(
    (w: string) => if w == "CC" then "cc" else w,
    (w: string) => w,
    (u: string, v: string, w: string) => 0,
    {"aa", "bb", "cc"},
    {})

  function Repeated(word: string): seq<string> {
    seq(MIN_TOKENS, i => word)
  }

  /** CC once, then only bb. */
  function Mixed(): seq<string> {
    seq(MIN_TOKENS, i => if i == 0 then "CC" else "bb")
  }

  lemma {:induction false} FewUnknown(tokens: seq<string>)
    requires forall k :: 0 < k < |tokens| ==> tokens[k] in SAMPLE.words
    ensures Unknown(SAMPLE, tokens) <= 1
    ensures tokens != [] && tokens[0] in SAMPLE.words ==> Unknown(SAMPLE, tokens) == 0
  {
    if |tokens| > 1 {
      FewUnknown(tokens[..|tokens| - 1]);
    } else if |tokens| == 1 {
      assert tokens[..0] == [];
    }
  }

  lemma RepeatedAccepted(word: string)
    requires word in SAMPLE.words
    ensures Acceptable(SAMPLE, Repeated(word)) && ValidStems(SAMPLE, Repeated(word)) == {word}
    ensures forall stem :: UsesStem(SAMPLE, Repeated(word), stem) <==> stem == word
  {
    FewUnknown(Repeated(word));
    assert Repeated(word)[0] == word;
    assert !Skipped(SAMPLE, word);
  }

  lemma MixedAccepted()
    ensures Acceptable(SAMPLE, Mixed()) && ValidStems(SAMPLE, Mixed()) == {"bb"}
    ensures forall stem :: UsesStem(SAMPLE, Mixed(), stem) <==> stem == "bb" || stem == "cc"
  {
    FewUnknown(Mixed());
    assert Mixed()[0] == "CC" && Mixed()[1] == "bb";
    assert !Skipped(SAMPLE, "CC") && !Skipped(SAMPLE, "bb");
  }

  // ---- One round of a run ----

  /** Just these stems, counters of the first two ids, and nothing beyond them. */
  ghost predicate Holds(ledger: Ledger, stems: seq<string>, c0: nat, c1: nat) {
    && ledger.stems == stems && Increasing(stems) && |stems| <= 2 <= |ledger.freqs|
    && ledger.freqs[0] == c0 && ledger.freqs[1] == c1
    && forall i :: 2 <= i < |ledger.freqs| ==> ledger.freqs[i] == 0
  }

  ghost function Use(tokens: seq<string>, stems: seq<string>, id: nat): nat {
    if id < |stems| && UsesStem(SAMPLE, tokens, stems[id]) then 1 else 0
  }

  lemma ReadingCounts(was: Ledger, tokens: seq<string>, now: Ledger, stems: seq<string>, c0: nat, c1: nat)
    requires Holds(was, stems, c0, c1) && Happens(SAMPLE, was, Article(tokens), now)
    ensures Holds(now, stems, c0 + Use(tokens, stems, 0), c1 + Use(tokens, stems, 1))
  {
    forall i: nat | i < |now.freqs| ensures now.freqs[i] == was.freqs[i] + Use(tokens, stems, i) {
      IdsAre(SAMPLE, stems, tokens, i);
      if i < |stems| {
        UsedId(SAMPLE, stems, tokens, i);
      }
    }
  }

  lemma Round(docs: seq<seq<string>>, history: seq<Ledger>, k: nat,
              stems: seq<string>, stems': seq<string>, c0: nat, c1: nat)
    requires IsHistory(SAMPLE, docs, history) && AllAccepted(SAMPLE, docs) && k < |docs|
    requires |history| == 2 * |docs| + 1 && Holds(history[2 * k], stems, c0, c1)
    requires Increasing(stems') && |stems'| <= 2 && Elements(stems') == Elements(stems) + ValidStems(SAMPLE, docs[k])
    ensures Holds(history[2 * k + 1], stems', c0, c1)
    ensures Holds(history[2 * k + 2], stems', c0 + Use(docs[k], stems', 0), c1 + Use(docs[k], stems', 1))
  {
    AcceptedEvents(SAMPLE, docs, k);
    var events := EventsOf(SAMPLE, docs);
    assert Happens(SAMPLE, history[2 * k], events[2 * k], history[2 * k + 1]);
    assert Happens(SAMPLE, history[2 * k + 1], events[2 * k + 1], history[2 * k + 2]);
    OneOrder(history[2 * k + 1].stems, stems');
    ReadingCounts(history[2 * k + 1], docs[k], history[2 * k + 2], stems', c0, c1);
  }

  lemma {:induction false} ExcessOfTwo(freqs: seq<nat>)
    requires |freqs| >= 2 && forall i :: 2 <= i < |freqs| ==> freqs[i] == 0
    ensures Excess(freqs) == (if freqs[0] > 3 then freqs[0] - 3 else 0) + if freqs[1] > 3 then freqs[1] - 3 else 0
  {
    if |freqs| > 2 {
      ExcessOfTwo(freqs[..|freqs| - 1]);
    } else {
      assert freqs[..1] == [freqs[0]];
      assert Excess(freqs) == Excess([freqs[0]]) + if freqs[1] > 3 then freqs[1] - 3 else 0;
    }
  }

  lemma InOrder()
    ensures Increasing([]) && Increasing(["bb"]) && Increasing(["aa", "bb"]) && Increasing(["bb", "cc"])
    ensures Less("aa", "bb") && !Less("cc", "bb")
  {
  }

  // ---- A merge passes a counted stem ----

  /** Three articles that use only bb, then one that brings and uses only aa. */
  function PassingDocs(): seq<seq<string>> {
    [Repeated("bb"), Repeated("bb"), Repeated("bb"), Repeated("aa")]
  }

  lemma PassingRun(history: seq<Ledger>)
    requires IsHistory(SAMPLE, PassingDocs(), history) && |history[0].freqs| >= 2
    ensures AllAccepted(SAMPLE, PassingDocs()) && |history| == 9
    ensures Holds(history[8], ["aa", "bb"], 4, 0)
  {
    var docs := PassingDocs();
    RepeatedAccepted("aa");
    RepeatedAccepted("bb");
    InOrder();
    AcceptedEvents(SAMPLE, docs, 0);
    Round(docs, history, 0, [], ["bb"], 0, 0);
    Round(docs, history, 1, ["bb"], ["bb"], 1, 0);
    Round(docs, history, 2, ["bb"], ["bb"], 2, 0);
    Round(docs, history, 3, ["bb"], ["aa", "bb"], 3, 0);
  }

  /** In every history of these articles the counter of aa ends at four, though one article uses aa and three use bb;
      and although no stem is in more than three articles, the counter of frequent stems is one. */
  lemma CountersGoWrong(history: seq<Ledger>)
    requires IsHistory(SAMPLE, PassingDocs(), history) && |history[0].freqs| >= 2
    ensures var events := EventsOf(SAMPLE, PassingDocs());
            && |events| == 8 && |history| == 9
            && IdOf(history[8].stems, "aa").Some?
            && FreqAt(history[8].freqs, IdOf(history[8].stems, "aa").value) == 4
            && ArticlesWith(SAMPLE, events, 8, "aa") == 1 && ArticlesWith(SAMPLE, events, 8, "bb") == 3
            && !CountsRight(SAMPLE, events, history, 8)
            && FrequentStems(SAMPLE, events, history, 8) == {}
    ensures Excess(history[8].freqs) == 1
  {
    PassingRun(history);
    RepeatedAccepted("aa");
    RepeatedAccepted("bb");
    AcceptedArticles(SAMPLE, PassingDocs(), 4, "aa");
    AcceptedArticles(SAMPLE, PassingDocs(), 4, "bb");
    IdOfStem(["aa", "bb"], 0);
    ExcessOfTwo(history[8].freqs);
  }

  // ---- A merge comes late ----

  /** An article that uses cc in capitals only, so that the stem is not merged; then three articles of cc. */
  function LateDocs(): seq<seq<string>> {
    [Mixed(), Repeated("cc"), Repeated("cc"), Repeated("cc")]
  }

  lemma LateRun(history: seq<Ledger>)
    requires IsHistory(SAMPLE, LateDocs(), history) && |history[0].freqs| >= 2
    ensures AllAccepted(SAMPLE, LateDocs()) && |history| == 9
    ensures history[0].stems == [] && history[2].stems == ["bb"]
    ensures history[4].stems == ["bb", "cc"] && history[6].stems == ["bb", "cc"]
    ensures Holds(history[8], ["bb", "cc"], 1, 3)
  {
    var docs := LateDocs();
    RepeatedAccepted("cc");
    MixedAccepted();
    InOrder();
    AcceptedEvents(SAMPLE, docs, 0);
    Round(docs, history, 0, [], ["bb"], 0, 0);
    Round(docs, history, 1, ["bb"], ["bb", "cc"], 1, 0);
    Round(docs, history, 2, ["bb", "cc"], ["bb", "cc"], 1, 1);
    Round(docs, history, 3, ["bb", "cc"], ["bb", "cc"], 1, 2);
  }

  /** None of its merges passes a counted stem. */
  lemma LateMergesPassNone(history: seq<Ledger>, k: nat)
    requires IsHistory(SAMPLE, LateDocs(), history) && |history[0].freqs| >= 2 && k < 4
    ensures AllAccepted(SAMPLE, LateDocs()) && |history| == 9
    ensures PassesNoCounted(history[2 * k].freqs, history[2 * k].stems, ValidStems(SAMPLE, LateDocs()[k]))
  {
    LateRun(history);
    RepeatedAccepted("cc");
    MixedAccepted();
    InOrder();
  }

  /** Still, in every history of these articles the counter of cc ends at three, though four articles use it; and the
      counter of frequent stems is zero, though cc is in more than three articles and no stem in more than four. */
  lemma LateStemsGoUncounted(history: seq<Ledger>)
    requires IsHistory(SAMPLE, LateDocs(), history) && |history[0].freqs| >= 2
    ensures var events := EventsOf(SAMPLE, LateDocs());
            && |events| == 8 && |history| == 9
            && IdOf(history[8].stems, "cc").Some?
            && FreqAt(history[8].freqs, IdOf(history[8].stems, "cc").value) == 3
            && ArticlesWith(SAMPLE, events, 8, "cc") == 4 && ArticlesWith(SAMPLE, events, 8, "bb") == 1
            && !CountsRight(SAMPLE, events, history, 8)
            && FrequentStems(SAMPLE, events, history, 8) == {"cc"}
    ensures Excess(history[8].freqs) == 0
  {
    LateRun(history);
    RepeatedAccepted("cc");
    MixedAccepted();
    AcceptedArticles(SAMPLE, LateDocs(), 4, "bb");
    AcceptedArticles(SAMPLE, LateDocs(), 4, "cc");
    IdOfStem(["bb", "cc"], 1);
    ExcessOfTwo(history[8].freqs);
  }
}
