/** The stems of the words the stemmer's documentation quotes, and of one plural for each vowel. */
module StemmerWords {
  import opened Options
  import opened StemmerText
  import opened StemmerSteps
  import opened StemmerSafety
  import opened StemmerTables
  import opened StemmerReference
  import opened StemmerEndings
  import opened StemmerDocumented

  lemma AllLonger(c: char)
    ensures AllMiss(STEP2, c, 1) && AllMiss(STEP3, c, 1) && AllMiss(STEP4, c, 1)
  {
    AllLonger2(c);
    AllLonger4(c);
  }

  lemma AllLonger2(c: char)
    ensures AllMiss(STEP2, c, 1)
  {
    assert AllMiss(STEP2_FROM16, c, 1);
    assert AllMiss(STEP2_FROM9, c, 1);
  }

  /** With one letter at most in R1, and that not an e or l, steps 2 to 5 change nothing. */
  lemma LateUnchanged(w: string, r1: nat, r2: nat)
    requires w != "" && 2 <= r1 <= r2 && |w| <= r1 + 1
    requires |w| <= r1 || w[|w| - 1] !in {'e', 'l'}
    ensures Step2(w, r1) == w && Step3(w, r1, r2) == w && Step4(w, r2) == w && Step5(w, r1, r2) == Some(w)
  {
    AllLonger(w[|w| - 1]);
    NoneMatches(STEP2, w, r1, 1);
    NoneMatches(STEP3, w, r1, 1);
    NoneMatches(STEP4, w, r2, 1);
  }

  /** A word that its early steps bring down to R1, or to one letter more, is stemmed by them alone. */
  lemma EarlyStem(w: string, m: string, early: string, r1: nat)
    requires !LeftAlone(w) && Prepared(w) == w && Exception(w).None? && Marked(w) == m && StartR1(m) == r1
    requires Step1C(Step1B(Step1A(Step0(m)), r1)) == early != "" && !StopsAfter1A(Step1A(Step0(m)))
    requires |early| <= r1 + 1 && (|early| <= r1 || early[|early| - 1] !in {'e', 'l'})
    ensures Stem(w) == Some(Unmarked(early))
  {
    RunBoundaries(m);
    LateUnchanged(early, r1, RunOf(m).r2);
  }

  predicate ConsonantVowelConsonantS(w: string) {
    && |w| == 4 && w[3] == 's' && !IsVowelY(w[0]) && IsVowelY(w[1]) && !IsVowelY(w[2])
    && w[0] !in {'\'', '<', 'Y'} && w[2] !in {'s', '\'', 'd', 'g', 'Y'}
  }

  /** Consonant, vowel, consonant and s, with no other rule in the way: the s goes. */
  lemma PluralOfThree(w: string)
    requires ConsonantVowelConsonantS(w) && Exception(w).None?
    ensures Stem(w) == Some(w[..3])
  {
    PluralPlain(w);
    PluralEarly(w);
    EarlyStem(w, w, w[..3], 3);
  }

  lemma PluralPlain(w: string)
    requires ConsonantVowelConsonantS(w)
    ensures Marked(w) == w && Unmarked(w[..3]) == w[..3] && StartR1(w) == 3
    ensures !LeftAlone(w) && Prepared(w) == w && !StopsAfter1A(w[..3])
  {
    assert VowelThenNon(w, 2) && !VowelThenNon(w, 1);
    assert RegionFrom(w, 2) == 3;
  }

  lemma PluralEarly(w: string)
    requires ConsonantVowelConsonantS(w)
    ensures Step0(w) == w && Step1A(w) == w[..3] && Step1B(w[..3], 3) == w[..3] && Step1C(w[..3]) == w[..3]
  {
    LetterOf(w, "'s'", 2);
    LetterOf(w, "'s", 0);
    LetterOf(w, "'", 0);
    assert IsVowelY(w[1]) && ContainsVowel(w, 2);
    PlainS(w);
    Step1BUnchanged(w[..3], 3);
  }

  const PLURALS_OF_THREE: map<string, string> :=
    map["gaps" := "gap", "pens" := "pen", "pins" := "pin", "cops" := "cop", "cups" := "cup", "gyms" := "gym"]

  /** One plural for each vowel. */
  lemma PluralsStemmed(w: string)
    requires w in PLURALS_OF_THREE
    ensures Stem(w) == Some(PLURALS_OF_THREE[w])
  {
    PluralSpelled(w);
    PluralOfThree(w);
  }

  lemma PluralSpelled(w: string)
    requires w in PLURALS_OF_THREE
    ensures ConsonantVowelConsonantS(w) && PLURALS_OF_THREE[w] == w[..3] && Exception(w).None?
  {
  }

  // ---- The words the documentation quotes ----

  lemma Step0KeepsS(w: string)
    requires |w| >= 2 && w[|w| - 1] == 's' && w[|w| - 2] != '\''
    ensures Step0(w) == w
  {
    LetterOf(w, "'s'", 2);
    LetterOf(w, "'s", 0);
    LetterOf(w, "'", 0);
  }

  lemma PlainS(w: string)
    requires |w| >= 3 && w[|w| - 1] == 's' && w[|w| - 2] !in {'u', 's', 'e'}
    ensures Step1A(w) == if ContainsVowel(w, |w| - 2) then Chop(w, 1) else w
  {
    LetterOf(w, "sses", 2);
    LetterOf(w, "ied", 2);
    LetterOf(w, "ies", 1);
    LetterOf(w, "us", 0);
    LetterOf(w, "ss", 0);
    LastLetter(w, 's');
  }

  lemma IesCut(w: string)
    requires EndsWith(w, "ies")
    ensures Step1A(w) == Chop(w, if |w| <= 4 then 1 else 2)
  {
    LetterOf(w, "ies", 0);
    LetterOf(w, "sses", 1);
  }

  lemma KiwisMarked()
    ensures Marked("kiwis") == "kiwis" && StartR1("kiwis") == 3 && Unmarked("kiwi") == "kiwi"
  {
    assert !VowelThenNon("kiwis", 1) && VowelThenNon("kiwis", 2);
  }

  lemma KiwisCut()
    ensures Step0("kiwis") == "kiwis" && Step1A("kiwis") == "kiwi" && Step1C("kiwi") == "kiwi"
  {
    Step0KeepsS("kiwis");
    assert IsVowelY("kiwis"[1]);
    PlainS("kiwis");
  }

  lemma GasMarked()
    ensures Marked("gas") == "gas" && StartR1("gas") == 3 && Unmarked("gas") == "gas"
  {
    assert !VowelThenNon("gas", 1) && VowelThenNon("gas", 2);
  }

  lemma GasCut()
    ensures Step0("gas") == "gas" && Step1A("gas") == "gas" && Step1C("gas") == "gas"
  {
    Step0KeepsS("gas");
    PlainS("gas");
  }

  lemma ThisMarked()
    ensures Marked("this") == "this" && StartR1("this") == 4 && Unmarked("this") == "this"
  {
    assert !VowelThenNon("this", 1) && !VowelThenNon("this", 2) && VowelThenNon("this", 3);
  }

  lemma ThisCut()
    ensures Step0("this") == "this" && Step1A("this") == "this" && Step1C("this") == "this"
  {
    Step0KeepsS("this");
    PlainS("this");
  }

  lemma TiesMarked()
    ensures Marked("ties") == "ties" && StartR1("ties") == 4 && Unmarked("tie") == "tie"
  {
    assert !VowelThenNon("ties", 1) && !VowelThenNon("ties", 2) && VowelThenNon("ties", 3);
  }

  lemma TiesCut()
    ensures Step0("ties") == "ties" && Step1A("ties") == "tie" && Step1C("tie") == "tie"
  {
    Step0KeepsS("ties");
    IesCut("ties");
  }

  lemma CriesMarked()
    ensures Marked("cries") == "cries" && StartR1("cries") == 5 && Unmarked("cri") == "cri"
  {
    assert !VowelThenNon("cries", 1) && !VowelThenNon("cries", 2) && !VowelThenNon("cries", 3);
    assert VowelThenNon("cries", 4);
  }

  lemma CriesCut()
    ensures Step0("cries") == "cries" && Step1A("cries") == "cri" && Step1C("cri") == "cri"
  {
    Step0KeepsS("cries");
    IesCut("cries");
  }

  lemma CryMarked()
    ensures Marked("cry") == "cry" && StartR1("cry") == 3 && Unmarked("cri") == "cri"
  {
    assert !VowelThenNon("cry", 1) && !VowelThenNon("cry", 2);
  }

  lemma CryCut()
    ensures Step0("cry") == "cry" && Step1A("cry") == "cry" && Step1C("cry") == "cri"
  {
    Step0Unchanged("cry");
    Step1AUnchanged("cry");
  }

  lemma SayMarked()
    ensures Marked("say") == "saY" && StartR1("saY") == 3 && Unmarked("saY") == "say"
  {
    assert !VowelThenNon("saY", 1) && VowelThenNon("saY", 2);
  }

  lemma SayCut()
    ensures Step0("saY") == "saY" && Step1A("saY") == "saY" && Step1C("saY") == "saY"
  {
    Step0Unchanged("saY");
    Step1AUnchanged("saY");
  }

  const QUOTED: map<string, string> :=
    map["gaps" := "gap", "kiwis" := "kiwi", "gas" := "gas", "this" := "this", "ties" := "tie", "cries" := "cri",
        "cry" := "cri", "by" := "by", "say" := "say"]

  lemma QuotedPlain(w: string)
    requires w in QUOTED && w != "by"
    ensures !LeftAlone(w) && Prepared(w) == w && Exception(w).None?
  {
  }

  /** Steps 0 to 1c lead from the marked word to `early`, and no later step applies. */
  lemma StemmedEarly(w: string, m: string, w1a: string, early: string, r1: nat)
    requires !LeftAlone(w) && Prepared(w) == w && Exception(w).None? && Marked(w) == m && StartR1(m) == r1
    requires Step0(m) == m && Step1A(m) == w1a && Step1C(w1a) == early && !StopsAfter1A(w1a)
    requires |w1a| >= 2 && w1a[|w1a| - 1] !in {'d', 'g'} && (w1a[|w1a| - 1] == 'y' ==> w1a[|w1a| - 2] != 'l')
    requires early != "" && |early| <= r1 + 1 && (|early| <= r1 || early[|early| - 1] !in {'e', 'l'})
    ensures Stem(w) == Some(Unmarked(early))
  {
    Step1BUnchanged(w1a, r1);
    EarlyStem(w, m, early, r1);
  }

  lemma KiwisStemmed(w: string)
    requires w == "kiwis"
    ensures Stem(w) == Some("kiwi")
  {
    QuotedPlain(w);
    KiwisMarked();
    KiwisCut();
    StemmedEarly(w, "kiwis", "kiwi", "kiwi", 3);
  }

  lemma GasStemmed(w: string)
    requires w == "gas"
    ensures Stem(w) == Some("gas")
  {
    QuotedPlain(w);
    GasMarked();
    GasCut();
    StemmedEarly(w, "gas", "gas", "gas", 3);
  }

  lemma ThisStemmed(w: string)
    requires w == "this"
    ensures Stem(w) == Some("this")
  {
    QuotedPlain(w);
    ThisMarked();
    ThisCut();
    StemmedEarly(w, "this", "this", "this", 4);
  }

  lemma TiesStemmed(w: string)
    requires w == "ties"
    ensures Stem(w) == Some("tie")
  {
    QuotedPlain(w);
    TiesMarked();
    TiesCut();
    StemmedEarly(w, "ties", "tie", "tie", 4);
  }

  lemma CriesStemmed(w: string)
    requires w == "cries"
    ensures Stem(w) == Some("cri")
  {
    QuotedPlain(w);
    CriesMarked();
    CriesCut();
    StemmedEarly(w, "cries", "cri", "cri", 5);
  }

  lemma CryStemmed(w: string)
    requires w == "cry"
    ensures Stem(w) == Some("cri")
  {
    QuotedPlain(w);
    CryMarked();
    CryCut();
    StemmedEarly(w, "cry", "cry", "cri", 3);
  }

  lemma SayStemmed(w: string)
    requires w == "say"
    ensures Stem(w) == Some("say")
  {
    QuotedPlain(w);
    SayMarked();
    SayCut();
    StemmedEarly(w, "saY", "saY", "saY", 3);
  }

  lemma QuotedAre(w: string)
    requires w in QUOTED
    ensures || (w == "gaps" && QUOTED[w] == "gap") || (w == "kiwis" && QUOTED[w] == "kiwi")
            || (w == "gas" && QUOTED[w] == "gas") || (w == "this" && QUOTED[w] == "this")
            || (w == "ties" && QUOTED[w] == "tie") || (w == "cries" && QUOTED[w] == "cri")
            || (w == "cry" && QUOTED[w] == "cri") || (w == "by" && QUOTED[w] == "by")
            || (w == "say" && QUOTED[w] == "say")
  {
  }

  lemma GapsStemmed(w: string)
    requires w == "gaps"
    ensures Stem(w) == Some("gap")
  {
    PluralsStemmed(w);
    GapsSpelled();
  }

  lemma GapsSpelled()
    ensures PLURALS_OF_THREE["gaps"] == "gap"
  {
  }

  /** Every word the documentation quotes has the stem it gives. */
  lemma QuotedStemmed(w: string)
    requires w in QUOTED
    ensures Stem(w) == Some(QUOTED[w])
  {
    QuotedAre(w);
    if w == "kiwis" { KiwisStemmed(w); }
    else if w == "gas" { GasStemmed(w); }
    else if w == "this" { ThisStemmed(w); }
    else if w == "ties" { TiesStemmed(w); }
    else if w == "cries" { CriesStemmed(w); }
    else if w == "cry" { CryStemmed(w); }
    else if w == "say" { SayStemmed(w); }
    else if w == "gaps" { GapsStemmed(w); }
  }
}
