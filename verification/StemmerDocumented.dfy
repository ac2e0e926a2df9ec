/** The whole stemmer against its documented reading: where single steps differ, and that the differences inside
    step 2 never reach the stem. */
module StemmerDocumented {
  import opened StemmerText
  import opened StemmerSteps
  import opened Options
  import opened StemmerSafety
  import opened StemmerTables
  import opened StemmerReference
  import opened StemmerEndings

  // ---- Words no rule of a table applies to ----

  /** Every listed suffix is longer than `k` or ends in another letter than `c`. */
  predicate AllMiss(rules: Rules, c: char, k: nat)
    decreases rules
  {
    match rules
    case End => true
    case Row(s, _, rest) => (|s| > k || (s != "" && s[|s| - 1] != c)) && AllMiss(rest, c, k)
  }

  lemma {:induction false} NoneMatches(rules: Rules, w: string, start: nat, k: nat)
    requires w != "" && |w| <= start + k && AllMiss(rules, w[|w| - 1], k)
    ensures ApplyFirst(rules, w, start).None?
    decreases rules
  {
    if rules.Row? {
      if |rules.suffix| <= k {
        LetterOf(w, rules.suffix, |rules.suffix| - 1);
      }
      NoneMatches(rules.rest, w, start, k);
    }
  }

  // ---- What falling through comes to ----

  /** The code turns the ation of ization into ate. */
  lemma FallThroughByCode(w: string, r1: nat)
    requires FallsThrough(w, r1)
    ensures EndsWith(w, "ation") && Step2(w, r1) == w[..r1] + "ate"
  {
    LetterOf(w, "ization", 6);
    IzationEndsInAtion(w);
    MissedBeforeAtion();
    NoneMatches(Take(STEP2, 4), w, r1, 5);
    NoneMatches(Take(STEP2_FROM5, 4), w, r1, 5);
    Cuts2();
    ApplyInParts(STEP2, 4, w, r1);
    ApplyInParts(STEP2_FROM5, 4, w, r1);
    FirstOfFrom9(w, r1);
  }

  lemma IzationEndsInAtion(w: string)
    requires EndsWith(w, "ization")
    ensures EndsWith(w, "ation")
  {
    assert "ization"[2..] == "ation";
    ShorterSuffix(w, "ization", "ation");
  }

  lemma MissedBeforeAtion()
    ensures AllMiss(Take(STEP2, 4), 'n', 5) && AllMiss(Take(STEP2_FROM5, 4), 'n', 5)
  {
  }

  lemma FirstOfFrom9(w: string, r1: nat)
    requires InRegion(w, "ation", r1)
    ensures ApplyFirst(STEP2_FROM9, w, r1) == Some(Replaced(w, "ation", "ate"))
  {
  }

  /** The documented step leaves the word alone, since ization itself is not in R1. */
  lemma FallThroughByDocument(w: string, r1: nat)
    requires FallsThrough(w, r1)
    ensures DocumentedStep2(STEP2, w, r1) == w
  {
    Parts2();
    assert Drop(STEP2_FROM5, 3).suffix == "ization";
    FitsRow2(w, 4, 3, r1);
    NotOgiNorLi(w);
  }

  // ---- The early steps leave a beginning of the word, unless they leave an e or an i at its end ----

  lemma Step0Cuts(w: string)
    ensures Step0(w) <= w
  {
  }

  lemma Step1ACuts(w: string)
    ensures Step1A(w) <= w
  {
    if EndsWith(w, "sses") {
      SuffixChar(w, "sses", 0);
      SuffixChar(w, "sses", 1);
      assert Step1A(w) == w[..|w| - 2];
    }
  }

  predicate CutOrE(w: string, w': string) {
    w' <= w || (w' != "" && w'[|w'| - 1] == 'e')
  }

  lemma RepairedCuts(w: string, k: nat, r1: nat)
    requires k <= |w|
    ensures CutOrE(w, Repaired(w[..k], r1))
  {
  }

  lemma Step1BCuts(w: string, r1: nat)
    ensures CutOrE(w, Step1B(w, r1))
  {
    if EndsWith(w, "eedly") || EndsWith(w, "eed") {
    } else if Deletable(w).Some? {
      RepairedCuts(w, |w| - |Deletable(w).value|, r1);
    }
  }

  lemma Step1CCuts(w: string)
    ensures Step1C(w) == w || (w != "" && Step1C(w)[|w| - 1] == 'i')
  {
  }

  lemma CutOfCut(a: string, b: string, c: string)
    requires a <= b && b <= c
    ensures a <= c
  {
    assert a == b[..|a|] == c[..|a|];
  }

  lemma EarlyCuts(word: string)
    ensures RunOf(word).w1a <= word
    ensures CutOrE(word, RunOf(word).w1b)
  {
    var run := RunOf(word);
    Step0Cuts(word);
    Step1ACuts(run.w0);
    CutOfCut(run.w1a, run.w0, word);
    Step1BCuts(run.w1a, run.r1);
    if run.w1b <= run.w1a {
      CutOfCut(run.w1b, run.w1a, word);
    }
  }

  // ---- The late steps ----

  /** Steps 2 to 5 as documented. */
  function DocumentedLate(w: string, r1: nat, r2: nat): string {
    var w2 := DocumentedStep2(STEP2, w, r1);
    var w3 := DocumentedStep3(STEP3, w2, r1, r2);
    DocumentedStep5(DocumentedStep4(STEP4, w3, r2), r1, r2)
  }

  lemma RegionAfterAt(word: string, w: string, r1: nat)
    requires FallsThrough(w, r1) && w <= word
    ensures StartR2(word, r1) == r1 + 2
  {
    LetterOf(w, "ization", 2);
    LetterOf(w, "ization", 3);
    assert word[r1] == 'a' && word[r1 + 1] == 't';
    assert VowelThenNon(word, r1 + 1);
  }

  /** Where ization falls through, R2 begins right after its at. */
  lemma FallThroughRegions(word: string)
    requires FallsThrough(RunOf(word).w1c, RunOf(word).r1)
    ensures var run := RunOf(word); run.w1c <= word && run.r2 == run.r1 + 2
  {
    var run := RunOf(word);
    EarlyCuts(word);
    IzationIsCut(word, run.w1b);
    RegionAfterAt(word, run.w1c, run.r1);
  }

  lemma IzationIsCut(word: string, w: string)
    requires CutOrE(word, w) && EndsWith(Step1C(w), "ization")
    ensures Step1C(w) == w <= word
  {
    Step1CCuts(w);
    LetterOf(Step1C(w), "ization", 6);
  }

  /** What is left for step 5 by the code. */
  lemma AteSurvives(w: string, r1: nat)
    requires EndsWith(w, "ate") && |w| == r1 + 3
    ensures Step4(Step3(w, r1, r1 + 2), r1 + 2) == w
  {
    LetterOf(w, "ate", 2);
    NoneMatches(STEP3, w, r1, 3);
    NothingInRegion(w, r1 + 2);
  }

  lemma NothingInRegion(w: string, r2: nat)
    requires w != "" && |w| == r2 + 1
    ensures Step4(w, r2) == w
  {
    AllLonger4(w[|w| - 1]);
    NoneMatches(STEP4, w, r2, 1);
  }

  /** Every suffix of step 4 has more than one letter. */
  lemma AllLonger4(c: char)
    ensures AllMiss(STEP4, c, 1)
  {
    assert AllMiss(STEP4_FROM13, c, 1);
    assert AllMiss(STEP4_FROM9, c, 1);
    assert AllMiss(STEP4_FROM5, c, 1);
  }

  lemma HealedByCode(w: string, r1: nat)
    requires FallsThrough(w, r1) && r1 > 0
    ensures Step5(Step4(Step3(Step2(w, r1), r1, r1 + 2), r1 + 2), r1, r1 + 2) == Some(w[..r1] + "at")
  {
    FallThroughByCode(w, r1);
    var x := w[..r1] + "ate";
    assert x[|x| - 3..] == "ate";
    AteSurvives(x, r1);
    assert x[|x| - 1] == 'e' && Chop(x, 1) == w[..r1] + "at";
  }

  lemma HealedByDocument(w: string, r1: nat)
    requires FallsThrough(w, r1) && r1 > 0 && Boundary(w, r1)
    ensures DocumentedLate(w, r1, r1 + 2) == w[..r1] + "at"
  {
    var r2 := r1 + 2;
    FallThroughByDocument(w, r1);
    LetterOf(w, "ization", 6);
    NoneMatches(STEP3, w, r1, 5);
    LetterOf(w, "ative", 4);
    Step3AsDocumented(w, r1, r2);
    assert Step3(w, r1, r2) == w;
    IonOfIzation(w, r1);
    var x := w[..r1] + "at";
    NoFinalL(x, r1, r2);
    assert x[|x| - 1] == 't';
  }

  lemma IonOfIzation(w: string, r1: nat)
    requires FallsThrough(w, r1)
    ensures DocumentedStep4(STEP4, w, r1 + 2) == w[..r1] + "at"
  {
    IzationEndsInIon(w, r1);
    IonAlone(w);
    IonByDocument(STEP4, w, r1 + 2);
  }

  lemma IzationEndsInIon(w: string, r1: nat)
    requires FallsThrough(w, r1)
    ensures EndsWith(w, "ion") && IonCut(w, r1 + 2) == w[..r1] + "at"
  {
    assert "ization"[4..] == "ion";
    ShorterSuffix(w, "ization", "ion");
    LetterOf(w, "ization", 2);
    LetterOf(w, "ization", 3);
    assert w[..|w| - 3] == w[..r1] + "at";
  }

  lemma Healed(w: string, w4: string, r1: nat, r2: nat)
    requires FallsThrough(w, r1) && r1 > 0 && r2 == r1 + 2 && Boundary(w, r1)
    requires w4 == Step4(Step3(Step2(w, r1), r1, r2), r2)
    ensures Step5(w4, r1, r2) == Some(DocumentedLate(w, r1, r2))
  {
    HealedByCode(w, r1);
    HealedByDocument(w, r1);
  }

  /** From step 2 on every run ends as documented: where ization falls through, later steps make up for it. */
  lemma LateStepsAsDocumented(word: string)
    requires |word| >= 2 && Step0(word) != ""
    ensures var run := RunOf(word);
            Step5(run.w4, run.r1, run.r2) == Some(DocumentedLate(run.w1c, run.r1, run.r2))
  {
    var run := RunOf(word);
    RunBoundaries(word);
    RunNonEmpty(word);
    if FallsThrough(run.w1c, run.r1) {
      FallThroughRegions(word);
      Healed(run.w1c, run.w4, run.r1, run.r2);
    } else {
      LateWithoutFallThrough(run.w1c, run.w2, run.w3, run.w4, run.r1, run.r2);
    }
  }

  lemma LateWithoutFallThrough(w: string, w2: string, w3: string, w4: string, r1: nat, r2: nat)
    requires 2 <= r1 <= r2 && w2 == Step2(w, r1) && w3 == Step3(w2, r1, r2) && w4 == Step4(w3, r2)
    requires Boundary(w, r1) && Boundary(w2, r1) && Boundary(w3, r2)
    requires !FallsThrough(w, r1) && w4 != ""
    ensures Step5(w4, r1, r2) == Some(DocumentedLate(w, r1, r2))
  {
    Step2AsDocumented(w, r1);
    Step3AsDocumented(w2, r1, r2);
    Step4AsDocumented(w3, r2);
    Step5AsDocumented(w4, r1, r2);
  }

  // ---- The whole run ----

  /** Every step of every run is as documented, but for the three differences in steps 1c, 2 and 5. */
  lemma RunAsDocumented(word: string)
    requires |word| >= 2
    ensures var run := RunOf(word);
            && run.w0 == DocumentedStep0(word)
            && run.w1a == DocumentedStep1A(run.w0)
            && run.w1b == DocumentedStep1B(run.w1a, run.r1)
            && (run.w1c == DocumentedStep1C(run.w1b) <==> !YBeforeLastY(run.w1b))
            && (run.w2 == DocumentedStep2(STEP2, run.w1c, run.r1) <==> !FallsThrough(run.w1c, run.r1))
            && run.w3 == DocumentedStep3(STEP3, run.w2, run.r1, run.r2)
            && run.w4 == DocumentedStep4(STEP4, run.w3, run.r2)
            && (Step5(run.w4, run.r1, run.r2) == Some(DocumentedStep5(run.w4, run.r1, run.r2)) <==> run.w0 != "")
  {
    var run := RunOf(word);
    RunBoundaries(word);
    EarlyCuts(word);
    Step0AsDocumented(word);
    Step1AAsDocumented(run.w0);
    Step1BAsDocumented(word, run.w1a);
    Step1CAsDocumented(run.w1b);
    Step2AsDocumented(run.w1c, run.r1);
    Step3AsDocumented(run.w2, run.r1, run.r2);
    Step4AsDocumented(run.w3, run.r2);
    Step5AsDocumented(run.w4, run.r1, run.r2);
    if run.w0 == "" {
      RunEmpty(word);
    } else {
      RunNonEmpty(word);
    }
  }

  // ---- The stem ----

  /** The documented stem of a marked word. */
  function DocumentedFinish(word: string): string {
    var r1 := StartR1(word);
    var r2 := StartR2(word, r1);
    var w1a := DocumentedStep1A(DocumentedStep0(word));
    if StopsAfter1A(w1a) then Unmarked(w1a)
    else Unmarked(DocumentedLate(DocumentedStep1C(DocumentedStep1B(w1a, r1)), r1, r2))
  }

  /** The documented stem: the listed words first, cosmos among them, and every step as described. */
  function DocumentedStem(w: string): string {
    var p := Prepared(w);
    if LeftAlone(w) then w
    else if p in EXCEPTIONS then EXCEPTIONS[p]
    else if p in INVARIANTS then p
    else DocumentedFinish(DocumentedMarked(p))
  }

  /** A y directly before another y, marked or not. */
  predicate HasDoubleY(w: string) {
    exists i :: 0 < i < |w| && w[i - 1] == 'y' && (w[i] == 'y' || w[i] == 'Y')
  }

  lemma NoYBeforeLastY(p: string, w: string)
    requires !HasDoubleY(p) && CutOrE(Marked(p), w)
    ensures !YBeforeLastY(w)
  {
  }

  lemma EarlyAsDocumented(p: string)
    requires |p| >= 2 && !HasDoubleY(p)
    ensures var run := RunOf(Marked(p));
            && run.w1a == DocumentedStep1A(DocumentedStep0(Marked(p)))
            && run.w1c == DocumentedStep1C(DocumentedStep1B(run.w1a, run.r1))
  {
    RunAsDocumented(Marked(p));
    EarlyCuts(Marked(p));
    NoYBeforeLastY(p, RunOf(Marked(p)).w1b);
  }

  /** Every run on a word without double y ends as documented, unless step 0 empties the word. */
  lemma FinishAsDocumented(p: string)
    requires |p| >= 2 && !HasDoubleY(p) && Step0(Marked(p)) != ""
    ensures Finish(RunOf(Marked(p))) == Some(DocumentedFinish(DocumentedMarked(p)))
  {
    MarkedAsDocumented(p);
    assert Marked(p) == DocumentedMarked(p) by {
      forall i | 0 < i < |p| ensures !YAfterY(p, i) {}
    }
    EarlyAsDocumented(p);
    LateStepsAsDocumented(Marked(p));
  }

  /** The early steps take the last s of cosmos, which the length guard keeps out of the list. */
  lemma CosmosEarly()
    ensures !LeftAlone("cosmos") && Prepared("cosmos") == "cosmos" && Exception("cosmos").None?
    ensures Marked("cosmos") == "cosmos" && Step1A(Step0("cosmos")) == "cosmo"
  {
    OnlyCosmosMissed("cosmos");
    MarkedPlain("cosmos", "cosmos");
    CosmosCut();
  }

  lemma CosmosCut()
    ensures Step0("cosmos") == "cosmos" && Step1A("cosmos") == "cosmo"
  {
    assert IsVowelY("cosmos"[1]);
  }

  lemma CosmosRegions()
    ensures StartR1("cosmos") == 3 && StartR2("cosmos", 3) == 6
  {
    assert !VowelThenNon("cosmos", 1) && VowelThenNon("cosmos", 2);
    assert !VowelThenNon("cosmos", 4) && VowelThenNon("cosmos", 5);
  }

  /** No suffix that the later steps look for ends in o. */
  lemma CosmoKept(w: string)
    requires w == "cosmo"
    ensures Step1B(w, 3) == w && Step1C(w) == w && Step2(w, 3) == w && Step3(w, 3, 6) == w && Step4(w, 6) == w
    ensures Step5(w, 3, 6) == Some(w) && Unmarked(w) == w && !StopsAfter1A(w)
  {
    Step1BUnchanged(w, 3);
    OUnchanged2(w, 3);
    OUnchanged34(w, 3, 6);
  }

  lemma OUnchanged2(w: string, r1: nat)
    requires w != "" && w[|w| - 1] == 'o'
    ensures Step2(w, r1) == w
  {
    EndsInO(w, r1);
    LetterOf(w, "logi", 3);
    LetterOf(w, "li", 1);
  }

  lemma OUnchanged34(w: string, r1: nat, r2: nat)
    requires w != "" && w[|w| - 1] == 'o'
    ensures Step3(w, r1, r2) == w && Step4(w, r2) == w
  {
    EndsInO(w, r1);
    EndsInO(w, r2);
    LetterOf(w, "ative", 4);
    LetterOf(w, "ent", 2);
    LetterOf(w, "sion", 3);
    LetterOf(w, "tion", 3);
  }

  /** No table lists a suffix that ends in o. */
  lemma EndsInO(w: string, start: nat)
    requires w != "" && w[|w| - 1] == 'o'
    ensures ApplyFirst(STEP2, w, start).None? && ApplyFirst(STEP3, w, start).None? && ApplyFirst(STEP4, w, start).None?
  {
    NoneEndsInO2();
    NoneEndsInO34();
    NoneListed(STEP2, w, start);
    NoneListed(STEP3, w, start);
    NoneListed(STEP4, w, start);
  }

  predicate NoneEndsIn(rules: Rules, c: char)
    decreases rules
  {
    rules.End? || (rules.suffix != "" && rules.suffix[|rules.suffix| - 1] != c && NoneEndsIn(rules.rest, c))
  }

  lemma {:induction false} NoneListed(rules: Rules, w: string, start: nat)
    requires w != "" && NoneEndsIn(rules, w[|w| - 1])
    ensures ApplyFirst(rules, w, start).None?
    decreases rules
  {
    if rules.Row? {
      LetterOf(w, rules.suffix, |rules.suffix| - 1);
      NoneListed(rules.rest, w, start);
    }
  }

  lemma NoneEndsInO2()
    ensures NoneEndsIn(STEP2, 'o')
  {
    assert NoneEndsIn(STEP2_FROM16, 'o');
    assert NoneEndsIn(STEP2_FROM9, 'o');
  }

  lemma NoneEndsInO34()
    ensures NoneEndsIn(STEP3, 'o') && NoneEndsIn(STEP4, 'o')
  {
    assert NoneEndsIn(STEP4_FROM9, 'o');
  }

  /** Listed as invariant, cosmos loses its s. */
  lemma CosmosShortened(word: string)
    requires word == "cosmos"
    ensures Stem(word) == Some("cosmo")
  {
    CosmosEarly();
    CosmosRegions();
    CosmoKept("cosmo");
  }

  /** For a word without double y the stem is the documented one if and only if it is neither cosmos nor one of the two
      words that step 0 empties. */
  lemma StemAsDocumented(w: string)
    requires !HasDoubleY(Prepared(w))
    ensures Stem(w) == Some(DocumentedStem(w))
       <==> LeftAlone(w) || (Prepared(w) != "cosmos" && w != "''s" && w != "''s'")
  {
    if !LeftAlone(w) {
      var p := Prepared(w);
      StemFaultsExactly(w);
      if p == "cosmos" {
        CosmosEarly();
        CosmosShortened(p);
        SamePrepared(w, p);
      } else if Exception(p).Some? {
        ListedAsDocumented(p);
      } else if w != "''s" && w != "''s'" {
        ListedAsDocumented(p);
        PreparedShape(w);
        PreparedPossessive(w);
        EmptiedByStep0(p);
        FinishAsDocumented(p);
      }
    }
  }

  /** Only the prepared word decides. */
  lemma SamePrepared(w: string, p: string)
    requires !LeftAlone(w) && !LeftAlone(p) && Prepared(w) == Prepared(p)
    ensures Stem(w) == Stem(p)
  {
  }

  lemma ListedAsDocumented(p: string)
    requires p != "cosmos"
    ensures Exception(p) == if p in EXCEPTIONS then Some(EXCEPTIONS[p]) else if p in INVARIANTS then Some(p) else None
  {
    if p in INVARIANTS {
      OnlyCosmosMissed(p);
    }
  }

  // ---- Words on which steps differ ----

  /** A word that ends in neither s, d, g, an apostrophe nor ly goes through steps 0 to 1b unchanged. */
  lemma EarlyUnchanged(w: string, r1: nat)
    requires |w| >= 2 && w[|w| - 1] !in "sdg'" && (w[|w| - 1] == 'y' ==> w[|w| - 2] != 'l')
    ensures Step0(w) == w && Step1A(w) == w && Step1B(w, r1) == w
  {
    Step0Unchanged(w);
    Step1AUnchanged(w);
    Step1BUnchanged(w, r1);
  }

  lemma Step0Unchanged(w: string)
    requires w != "" && w[|w| - 1] !in "s'"
    ensures Step0(w) == w
  {
    LetterOf(w, "'s'", 2);
    LetterOf(w, "'s", 1);
    LetterOf(w, "'", 0);
  }

  lemma Step1AUnchanged(w: string)
    requires w != "" && w[|w| - 1] !in "sd"
    ensures Step1A(w) == w
  {
    LetterOf(w, "sses", 3);
    LetterOf(w, "ied", 2);
    LetterOf(w, "ies", 2);
    LetterOf(w, "s", 0);
  }

  lemma Step1BUnchanged(w: string, r1: nat)
    requires |w| >= 2 && w[|w| - 1] !in "dg" && (w[|w| - 1] == 'y' ==> w[|w| - 2] != 'l')
    ensures Step1B(w, r1) == w
  {
    LetterOf(w, "eedly", 4);
    LetterOf(w, "eedly", 3);
    LetterOf(w, "eed", 2);
    LetterOf(w, "ed", 1);
    LetterOf(w, "edly", 3);
    LetterOf(w, "edly", 2);
    LetterOf(w, "ing", 2);
    LetterOf(w, "ingly", 4);
    LetterOf(w, "ingly", 3);
  }

  /** The run on a marked word that ends in ization hands step 2 that very word. */
  lemma IzationReachesStep2(word: string)
    requires EndsWith(word, "ization")
    ensures RunOf(word).w0 == word && RunOf(word).w1a == word && RunOf(word).w1c == word
  {
    LetterOf(word, "ization", 6);
    EarlyUnchanged(word, RunOf(word).r1);
    assert Step1C(word) == word;
  }

  lemma BizationRegion()
    ensures Marked("bization") == "bization" && StartR1("bization") == 3 && FallsThrough("bization", 3)
  {
    MarkedPlain("bization", "bization");
    assert !VowelThenNon("bization", 1) && VowelThenNon("bization", 2);
  }

  /** Falling through happens in a run and changes what step 2 leaves, though not the stem. */
  lemma FallThroughHappens(word: string)
    requires word == "bization"
    ensures Marked(word) == word
    ensures var run := RunOf(word);
            && run.w1c == word && FallsThrough(run.w1c, run.r1)
            && run.w2 == "bizate" && DocumentedStep2(STEP2, run.w1c, run.r1) == word
            && Finish(run) == Some("bizat")
    ensures Stem(word) == Some("bizat")
  {
    BizationRegion();
    BizationSpelled();
    BizationUnlisted();
    FallThroughInRun(word);
  }

  lemma BizationUnlisted()
    ensures !LeftAlone("bization") && Prepared("bization") == "bization" && Exception("bization").None?
  {
  }

  lemma BizationSpelled()
    ensures "bization"[..3] + "ate" == "bizate" && Unmarked("bization"[..3] + "at") == "bizat"
  {
    assert "bization"[..3] + "at" == "bizat";
    assert Unmarked("bizat") == "bizat";
  }

  lemma FallThroughInRun(word: string)
    requires FallsThrough(word, StartR1(word)) && |word| >= 2
    ensures var run := RunOf(word);
            && run.w1c == word
            && run.w2 == word[..run.r1] + "ate" && DocumentedStep2(STEP2, word, run.r1) == word
            && Finish(run) == Some(Unmarked(word[..run.r1] + "at"))
  {
    var run := RunOf(word);
    RunBoundaries(word);
    IzationReachesStep2(word);
    FallThroughByCode(word, run.r1);
    FallThroughByDocument(word, run.r1);
    FallThroughRegions(word);
    HealedByCode(word, run.r1);
    LetterOf(word, "ization", 2);
  }

  /** On byy the code does not mark the second y, and its step 1c turns it into i. */
  lemma DoubleYInRun(word: string)
    requires word == "byy"
    ensures Marked(word) == word && RunOf(word).w1b == word && RunOf(word).w1c == "byi"
    ensures Finish(RunOf(word)) == Some("byi")
  {
    ByyMarked();
    ByyRegion();
    EarlyUnchanged(word, 3);
    ByyStep1C();
    KeptWhole(word);
  }

  /** Its stem is byi; documented, the second y is a consonant and stays. */
  lemma DoubleYHappens(word: string)
    requires word == "byy"
    ensures Stem(word) == Some("byi") && DocumentedStem(word) == word
    ensures DocumentedStep1C(RunOf(word).w1b) == word != RunOf(word).w1c
  {
    ByyUnlisted();
    DoubleYInRun(word);
    ByyMarked();
    ByyStep1C();
    DocumentedDoubleY();
  }

  lemma ByyUnlisted()
    ensures !LeftAlone("byy") && Prepared("byy") == "byy" && "byy" !in EXCEPTIONS && "byy" !in INVARIANTS
  {
  }

  lemma ByyMarked()
    ensures Marked("byy") == "byy" && DocumentedMarked("byy") == "byY"
  {
  }

  lemma ByyStep1C()
    ensures Step1C("byy") == "byi" && DocumentedStep1C("byy") == "byy" && Unmarked("byi") == "byi"
  {
  }

  lemma ByyRegion()
    ensures StartR1("byy") == 3 && StartR1("byY") == 3
  {
    assert !VowelThenNon("byy", 1) && !VowelThenNon("byy", 2);
    assert !VowelThenNon("byY", 1) && VowelThenNon("byY", 2);
  }

  /** With nothing in R1, steps 2 to 5 change nothing. */
  lemma KeptWhole(word: string)
    requires |word| >= 2 && Step0(word) != "" && RunOf(word).r1 >= |RunOf(word).w1c|
    ensures var run := RunOf(word); Step5(run.w4, run.r1, run.r2) == Some(run.w1c)
  {
    var run := RunOf(word);
    RunBoundaries(word);
    RunNonEmpty(word);
    Step5Defined(run.w4, run.r1, run.r2);
    LateStepsKeepR1(word);
    TidyWhole(run.w1c, Step5(run.w4, run.r1, run.r2).value, run.r1);
  }

  lemma TidyWhole(w: string, w': string, r1: nat)
    requires Tidy(w, w', r1) && r1 >= |w|
    ensures w' == w
  {
    assert w'[..|w|] == w[..|w|];
  }

  lemma DocumentedDoubleY()
    ensures DocumentedFinish("byY") == "byy"
  {
    ByyRegion();
    EarlyUnchanged("byY", 3);
    Step0AsDocumented("byY");
    Step1AAsDocumented("byY");
    Step1BAsDocumented("byY", "byY");
    NothingLate("byY", 3);
  }

  /** The documented late steps leave a word alone that ends where R1 begins. */
  lemma NothingLate(w: string, r1: nat)
    requires 2 <= r1 == |w|
    ensures DocumentedLate(w, r1, r1) == w
  {
    Step2Tidy(w, r1);
    Step3Tidy(w, r1, r1);
    Step4Tidy(w, r1);
    Step5Tidy(w, r1, r1);
    assert Step2(w, r1)[..|w|] == w[..|w|] && Step3(w, r1, r1)[..|w|] == w[..|w|] && Step4(w, r1)[..|w|] == w[..|w|];
    LateWithoutFallThrough(w, w, w, w, r1, r1);
  }
}
