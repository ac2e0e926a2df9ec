/** The stemmer against its description: every letter, list, region and step of the one against those of the other. */
module StemmerAgreement {
  import opened Options
  import opened StemmerText
  import opened StemmerSteps
  import opened StemmerSafety
  import opened StemmerTables
  import opened StemmerReference
  import opened StemmerEndings
  import opened StemmerDocumented
  import Porter2

  // ---- Letters ----

  lemma LettersAgree(c: char)
    ensures Porter2.Vowel(c) <==> IsVowelY(c)
    ensures Porter2.Vowel(c) && c != 'y' <==> IsVowel(c)
    ensures c in Porter2.LI_LETTERS <==> IsValidLiEnding(c)
  {
  }

  lemma VowelsAgree(w: string)
    ensures Porter2.HasVowel(w) <==> HasVowel(w)
  {
  }

  lemma MarksAgree(w: string)
    ensures Porter2.Mark(w, Porter2.Vowel) == DocumentedMarked(w)
    ensures Porter2.Mark(w, Porter2.PlainVowel) == Marked(w)
    ensures Porter2.Unmark(w) == Unmarked(w)
  {
  }

  lemma DoublesAgree(w: string)
    ensures |w| >= 2 && w[|w| - 2..] in Porter2.DOUBLES <==> EndsInDouble(w)
  {
    if |w| >= 2 {
      var a, b := w[|w| - 2], w[|w| - 1];
      assert w[|w| - 2..] == [a, b];
      DoubleSpelled(a, b);
    }
  }

  lemma DoubleSpelled(a: char, b: char)
    ensures [a, b] in Porter2.DOUBLES <==> a == b && a in "bdfgmnprt"
  {
    var w := [a, b];
    assert w[0] == a && w[1] == b;
    assert w == "bb" <==> a == 'b' && b == 'b';
    assert w == "dd" <==> a == 'd' && b == 'd';
    assert w == "ff" <==> a == 'f' && b == 'f';
    assert w == "gg" <==> a == 'g' && b == 'g';
    assert w == "mm" <==> a == 'm' && b == 'm';
    assert w == "nn" <==> a == 'n' && b == 'n';
    assert w == "pp" <==> a == 'p' && b == 'p';
    assert w == "rr" <==> a == 'r' && b == 'r';
    assert w == "tt" <==> a == 't' && b == 't';
  }

  lemma ShortAgrees(w: string)
    ensures Porter2.EndsShort(w) <==> IsShort(w)
  {
  }

  // ---- Regions ----

  lemma {:induction false} RegionAgrees(w: string)
    ensures Porter2.Region(w) == RegionFrom(w, 1)
  {
    if |w| >= 2 && !(Porter2.Vowel(w[0]) && !Porter2.Vowel(w[1])) {
      RegionAgrees(w[1..]);
      RegionOfSuffix(w, 1, 1);
    }
  }

  /** R1 and R2 are the described regions, special beginnings included. */
  lemma RegionsAgree(w: string)
    ensures Porter2.R1(w) == StartR1(w) <= |w|
    ensures Porter2.R2(w) == StartR2(w, StartR1(w))
  {
    RegionAgrees(w);
    RegionsNest(w);
    RegionAgrees(w[StartR1(w)..]);
  }

  // ---- The longest ending ----

  /** What a table makes of an ending. */
  function Lookup(rules: Rules, s: string): Option<string>
    decreases Length(rules)
  {
    match rules
    case End => None
    case Row(suffix, replacement, rest) => if s == suffix then Some(replacement) else Lookup(rest, s)
  }

  ghost predicate SameList(rules: Rules, list: Porter2.List) {
    forall s :: Lookup(rules, s) == list(s)
  }

  lemma {:induction false} LookupIsListed(rules: Rules, s: string)
    ensures Lookup(rules, s).Some? <==> Listed(rules, s)
    decreases rules
  {
    if rules.Row? {
      LookupIsListed(rules.rest, s);
    }
  }

  lemma {:induction false} LookupOfLongest(rules: Rules, w: string)
    ensures var best := Longest(rules, w); best.Some? ==> Lookup(rules, best.value.0) == Some(best.value.1)
    decreases rules
  {
    if rules.Row? {
      LookupOfLongest(rules.rest, w);
    }
  }

  lemma {:induction false} FirstListed(list: Porter2.List, w: string, i: nat)
    requires i <= |w|
    ensures var at := Porter2.Longest(list, w, i);
            forall j :: i <= j <= |w| && (at.Some? ==> j < at.value) ==> list(w[j..]).None?
    decreases |w| - i
  {
    if list(w[i..]).None? && i < |w| {
      FirstListed(list, w, i + 1);
    }
  }

  /** Looking from the front for the first listed remainder finds the longest listed suffix. */
  lemma LongestAgrees(rules: Rules, list: Porter2.List, w: string)
    requires SameList(rules, list)
    ensures match Porter2.Longest(list, w, 0)
            case None => Longest(rules, w).None?
            case Some(i) => Longest(rules, w) == Some((w[i..], list(w[i..]).value))
  {
    FirstListed(list, w, 0);
    LookupOfLongest(rules, w);
    LongestIsLongest(rules, w);
    var best := Longest(rules, w);
    if best.Some? {
      var j := |w| - |best.value.0|;
      assert w[j..] == best.value.0 && Lookup(rules, w[j..]) == list(w[j..]);
    }
    if Porter2.Longest(list, w, 0).Some? {
      var s := w[Porter2.Longest(list, w, 0).value..];
      assert Lookup(rules, s) == list(s);
      LookupIsListed(rules, s);
      assert EndsWith(w, s);
    }
  }

  // ---- The lists ----

  lemma PossessivesAgree()
    ensures SameList(POSSESSIVES, Porter2.Possessives)
  {
  }

  lemma PluralsAgree()
    ensures SameList(PLURALS, Porter2.Plurals)
  {
  }

  lemma Lists3Agree()
    ensures SameList(Row("ative", "", STEP3), Porter2.List3)
  {
  }

  const PAST: Rules :=
    Row("eedly", "ee", Row("eed", "ee", Row("edly", "", Row("ed", "", Row("ingly", "", Row("ing", "", End))))))

  lemma PastAgrees()
    ensures SameList(PAST, Porter2.PastEndings)
  {
  }

  lemma LastRows4(s: string)
    ensures Lookup(STEP4_FROM9, s)
         == if || s == "ement" || s == "ment" || s == "ism" || s == "ate" || s == "iti" || s == "ous" || s == "ive"
               || s == "ize"
            then Some("") else None
  {
    assert Lookup(STEP4_FROM13, s) == if s == "iti" || s == "ous" || s == "ive" || s == "ize" then Some("") else None;
  }

  lemma FirstRows4(s: string)
    ensures Lookup(Row("ent", "", Row("ion", "", STEP4)), s)
         == if || s == "ent" || s == "ion" || s == "al" || s == "ance" || s == "ence" || s == "er" || s == "ic"
               || s == "able" || s == "ible" || s == "ant"
            then Some("") else Lookup(STEP4_FROM9, s)
  {
    assert Lookup(STEP4_FROM5, s)
        == if s == "ic" || s == "able" || s == "ible" || s == "ant" then Some("") else Lookup(STEP4_FROM9, s);
  }

  lemma Lists4Agree()
    ensures SameList(Row("ent", "", Row("ion", "", STEP4)), Porter2.List4)
  {
    forall s ensures Lookup(Row("ent", "", Row("ion", "", STEP4)), s) == Porter2.List4(s) {
      LastRows4(s);
      FirstRows4(s);
    }
  }

  lemma LastRows2(s: string)
    ensures Lookup(STEP2_FROM13, s)
         == if s == "alli" then Some("al") else if s == "fulness" || s == "fulli" then Some("ful")
            else if s == "ousli" || s == "ousness" then Some("ous")
            else if s == "iveness" || s == "iviti" then Some("ive")
            else if s == "biliti" || s == "bli" then Some("ble") else if s == "lessli" then Some("less") else None
  {
    assert Lookup(STEP2_FROM19, s)
        == if s == "fulli" then Some("ful") else if s == "biliti" || s == "bli" then Some("ble")
           else if s == "lessli" then Some("less") else None;
  }

  lemma MiddleRows2(s: string)
    ensures Lookup(STEP2_FROM5, s)
         == if s == "abli" then Some("able") else if s == "entli" then Some("ent")
            else if s == "izer" || s == "ization" then Some("ize") else if s == "ation" || s == "ator" then Some("ate")
            else if s == "alism" || s == "aliti" then Some("al") else Lookup(STEP2_FROM13, s)
  {
    assert Lookup(STEP2_FROM9, s)
        == if s == "ation" || s == "ator" then Some("ate") else if s == "alism" || s == "aliti" then Some("al")
           else Lookup(STEP2_FROM13, s);
  }

  lemma FirstRows2(s: string)
    ensures Lookup(Row("ogi", "og", Row("li", "", STEP2)), s)
         == if s == "ogi" then Some("og") else if s == "li" then Some("") else if s == "ational" then Some("ate")
            else if s == "tional" then Some("tion") else if s == "enci" then Some("ence")
            else if s == "anci" then Some("ance") else Lookup(STEP2_FROM5, s)
  {
  }

  lemma Lists2Agree()
    ensures SameList(Row("ogi", "og", Row("li", "", STEP2)), Porter2.List2)
  {
    forall s ensures Lookup(Row("ogi", "og", Row("li", "", STEP2)), s) == Porter2.List2(s) {
      LastRows2(s);
      MiddleRows2(s);
      FirstRows2(s);
    }
  }

  // ---- The steps ----

  lemma Step0Agrees(w: string)
    ensures Porter2.Step0(w) == DocumentedStep0(w)
  {
    PossessivesAgree();
    LongestAgrees(POSSESSIVES, Porter2.Possessives, w);
  }

  lemma SingularAgrees(p: string, s: string, w: string)
    requires w == p + s && Porter2.Plurals(s).Some?
    ensures EndsWith(w, s) && Porter2.Singular(p, s) == WithoutPlural(w, Some((s, Porter2.Plurals(s).value)))
  {
    assert Chop(w, |s|) == p;
    if p != "" {
      VowelsAgree(p[..|p| - 1]);
    }
  }

  lemma Step1AAgrees(w: string)
    ensures Porter2.Step1A(w) == DocumentedStep1A(w)
  {
    PluralsAgree();
    LongestAgrees(PLURALS, Porter2.Plurals, w);
    if Porter2.Longest(Porter2.Plurals, w, 0).Some? {
      var i := Porter2.Longest(Porter2.Plurals, w, 0).value;
      SingularAgrees(w[..i], w[i..], w);
    }
  }

  lemma Step1CAgrees(w: string)
    ensures Porter2.Step1C(w, Porter2.Vowel) == DocumentedStep1C(w)
    ensures Porter2.Step1C(w, Porter2.PlainVowel) == Step1C(w)
  {
    if w != "" {
      LastLetter(w, 'y');
      LastLetter(w, 'Y');
    }
  }

  lemma Step2Agrees(w: string, r1: nat)
    ensures Porter2.Step2(w, r1) == DocumentedStep2(STEP2, w, r1)
  {
    Lists2Agree();
    LongestAgrees(Row("ogi", "og", Row("li", "", STEP2)), Porter2.List2, w);
  }

  lemma Step3Agrees(w: string, r1: nat, r2: nat)
    ensures Porter2.Step3(w, r1, r2) == DocumentedStep3(STEP3, w, r1, r2)
  {
    Lists3Agree();
    LongestAgrees(Row("ative", "", STEP3), Porter2.List3, w);
  }

  lemma Step4Agrees(w: string, r2: nat)
    ensures Porter2.Step4(w, r2) == DocumentedStep4(STEP4, w, r2)
  {
    Lists4Agree();
    LongestAgrees(Row("ent", "", Row("ion", "", STEP4)), Porter2.List4, w);
  }

  lemma Step5Agrees(w: string, r1: nat, r2: nat)
    ensures Porter2.Step5(w, r1, r2) == DocumentedStep5(w, r1, r2)
  {
    LongestLast(w);
    if w != "" {
      LastLetter(w, 'e');
      LastLetter(w, 'l');
      ShortAgrees(w[..|w| - 1]);
      DoubleL(w);
    }
  }

  lemma DoubleL(w: string)
    requires w != ""
    ensures Porter2.Ends(w, "ll") <==> w[|w| - 1] == 'l' && EndsWith(Chop(w, 1), "l")
  {
    if |w| > 1 {
      assert w[|w| - 2..] == [w[|w| - 2], w[|w| - 1]];
      LastLetter(Chop(w, 1), 'l');
    }
  }

  // ---- Step 1b ----

  lemma LongestPast(w: string)
    ensures Longest(PAST, w)
         == if EndsWith(w, "eedly") then Some(("eedly", "ee")) else if EndsWith(w, "eed") then Some(("eed", "ee"))
            else if EndsWith(w, "edly") then Some(("edly", "")) else if EndsWith(w, "ed") then Some(("ed", ""))
            else if EndsWith(w, "ingly") then Some(("ingly", "")) else if EndsWith(w, "ing") then Some(("ing", ""))
            else None
  {
    EndingLetters(w);
    LetterOf(w, "eedly", 4);
    LetterOf(w, "eedly", 2);
    LetterOf(w, "eed", 2);
    var ing: Rules := Row("ing", "", End);
    var ingly: Rules := Row("ingly", "", ing);
    var ed: Rules := Row("ed", "", ingly);
    var edly: Rules := Row("edly", "", ed);
    var eed: Rules := Row("eed", "ee", edly);
    assert Longest(End, w) == None;
    assert Longest(ing, w) == if EndsWith(w, "ing") then Some(("ing", "")) else None;
    assert Longest(ingly, w) == if EndsWith(w, "ingly") then Some(("ingly", "")) else Longest(ing, w);
    assert Longest(ed, w) == if EndsWith(w, "ed") then Some(("ed", "")) else Longest(ingly, w);
    assert Longest(edly, w) == if EndsWith(w, "edly") then Some(("edly", "")) else Longest(ed, w);
    assert Longest(eed, w) == if EndsWith(w, "eed") then Some(("eed", "ee")) else Longest(edly, w);
  }

  lemma MendAgrees(p: string, r1: nat)
    ensures Porter2.Mend(p, r1) == DocumentedRepair(p, r1)
  {
    DoublesAgree(p);
    ShortAgrees(p);
  }

  lemma EedAgrees(p: string, s: string, w: string, r1: nat)
    requires w == p + s && (s == "eed" || s == "eedly") && Longest(PAST, w) == Some((s, "ee"))
    ensures DocumentedStep1B(w, r1) == Porter2.PastGone(p, s, r1)
  {
    LongestPast(w);
    assert EndsWith(w, s) && Replaced(w, s, "ee") == p + "ee";
  }

  predicate EdOrIng(s: string) {
    s == "ed" || s == "edly" || s == "ing" || s == "ingly"
  }

  lemma EdEnding(s: string, w: string)
    requires EdOrIng(s) && Longest(PAST, w) == Some((s, ""))
    ensures Ending1B(w) == s && s != "" && !EndsWith(w, "eedly") && !EndsWith(w, "eed")
  {
    LongestPast(w);
    OneEnding(w);
  }

  lemma EdDocumented(p: string, s: string, w: string, r1: nat)
    requires w == p + s && EdOrIng(s) && Longest(PAST, w) == Some((s, ""))
    ensures DocumentedStep1B(w, r1) == if HasVowel(p) then DocumentedRepair(p, r1) else w
  {
    EdEnding(s, w);
    assert Chop(w, |s|) == p;
  }

  lemma EdAgrees(p: string, s: string, w: string, r1: nat)
    requires w == p + s && EdOrIng(s) && Longest(PAST, w) == Some((s, ""))
    ensures DocumentedStep1B(w, r1) == Porter2.PastGone(p, s, r1)
  {
    EdDocumented(p, s, w, r1);
    VowelsAgree(p);
    MendAgrees(p, r1);
  }

  lemma PastGoneAgrees(p: string, s: string, w: string, r1: nat)
    requires w == p + s && Porter2.PastEndings(s).Some? && Longest(PAST, w) == Some((s, Porter2.PastEndings(s).value))
    ensures DocumentedStep1B(w, r1) == Porter2.PastGone(p, s, r1)
  {
    if s == "eed" || s == "eedly" {
      EedAgrees(p, s, w, r1);
    } else {
      EdAgrees(p, s, w, r1);
    }
  }

  lemma NoPastAgrees(w: string, r1: nat)
    requires Longest(PAST, w).None?
    ensures DocumentedStep1B(w, r1) == w
  {
    LongestPast(w);
  }

  lemma Step1BAgrees(w: string, r1: nat)
    ensures Porter2.Step1B(w, r1) == DocumentedStep1B(w, r1)
  {
    PastAgrees();
    LongestAgrees(PAST, Porter2.PastEndings, w);
    match Porter2.Longest(Porter2.PastEndings, w, 0)
    case None => NoPastAgrees(w, r1);
    case Some(i) => PastGoneAgrees(w[..i], w[i..], w, r1);
  }

  // ---- Whole runs ----

  /** In every run each step of the stemmer is the described one, but for the exact conditions of steps 1c, 2 and 5; and
      step 1c is the described one for the five plain vowels. */
  lemma RunIsDescribed(word: string)
    requires |word| >= 2
    ensures var run := RunOf(word);
            && run.r1 == Porter2.R1(word) && run.r2 == Porter2.R2(word)
            && run.w0 == Porter2.Step0(word)
            && run.w1a == Porter2.Step1A(run.w0)
            && run.w1b == Porter2.Step1B(run.w1a, run.r1)
            && run.w1c == Porter2.Step1C(run.w1b, Porter2.PlainVowel)
            && (run.w1c == Porter2.Step1C(run.w1b, Porter2.Vowel) <==> !YBeforeLastY(run.w1b))
            && (run.w2 == Porter2.Step2(run.w1c, run.r1) <==> !FallsThrough(run.w1c, run.r1))
            && run.w3 == Porter2.Step3(run.w2, run.r1, run.r2)
            && run.w4 == Porter2.Step4(run.w3, run.r2)
            && (Step5(run.w4, run.r1, run.r2) == Some(Porter2.Step5(run.w4, run.r1, run.r2)) <==> run.w0 != "")
  {
    var run := RunOf(word);
    RunAsDocumented(word);
    RegionsAgree(word);
    Step0Agrees(word);
    Step1AAgrees(run.w0);
    Step1BAgrees(run.w1a, run.r1);
    Step1CAgrees(run.w1b);
    Step2Agrees(run.w1c, run.r1);
    Step3Agrees(run.w2, run.r1, run.r2);
    Step4Agrees(run.w3, run.r2);
    Step5Agrees(run.w4, run.r1, run.r2);
  }

  // ---- The stem ----

  lemma LateAgrees(w: string, r1: nat, r2: nat)
    ensures Porter2.Step5(Porter2.Step4(Porter2.Step3(Porter2.Step2(w, r1), r1, r2), r2), r1, r2)
         == DocumentedLate(w, r1, r2)
  {
    Step2Agrees(w, r1);
    var w2 := Porter2.Step2(w, r1);
    Step3Agrees(w2, r1, r2);
    var w3 := Porter2.Step3(w2, r1, r2);
    Step4Agrees(w3, r2);
    Step5Agrees(Porter2.Step4(w3, r2), r1, r2);
  }

  lemma StopsAgree(w: string)
    ensures Porter2.StopsAfter1A(w) <==> StopsAfter1A(w)
  {
  }

  lemma FinishAgrees(word: string)
    ensures Porter2.StemMarked(word, Porter2.Vowel) == DocumentedFinish(word)
  {
    RegionsAgree(word);
    Step0Agrees(word);
    Step1AAgrees(Porter2.Step0(word));
    var w1a := Porter2.Step1A(Porter2.Step0(word));
    StopsAgree(w1a);
    Step1BAgrees(w1a, Porter2.R1(word));
    var w1b := Porter2.Step1B(w1a, Porter2.R1(word));
    Step1CAgrees(w1b);
    LateAgrees(Porter2.Step1C(w1b, Porter2.Vowel), Porter2.R1(word), Porter2.R2(word));
    MarksAgree(if StopsAfter1A(w1a) then w1a
               else Porter2.AfterStep1A(w1a, Porter2.R1(word), Porter2.R2(word), Porter2.Vowel));
  }

  lemma CutAgrees(w: string)
    ensures Porter2.Cut(w) == Prepared(w)
  {
  }

  lemma SpecialAgrees(p: string)
    ensures Porter2.Special(p)
         == if p in EXCEPTIONS then Some(EXCEPTIONS[p]) else if p in INVARIANTS then Some(p) else None
  {
  }

  lemma StemAgrees(w: string)
    ensures Porter2.Stem(w, Porter2.Vowel) == DocumentedStem(w)
  {
    CutAgrees(w);
    SpecialAgrees(Prepared(w));
    MarksAgree(Prepared(w));
    FinishAgrees(DocumentedMarked(Prepared(w)));
  }

  /** A y directly before a y, or before a Y, in the word as it is after cutting. */
  ghost predicate DoubleY(w: string) {
    exists i :: 0 < i < |Porter2.Cut(w)| && Porter2.Cut(w)[i - 1] == 'y' && Porter2.Cut(w)[i] in {'y', 'Y'}
  }

  /** The words whose stem is not the described one for another reason than the vowels before y. */
  predicate Odd(w: string) {
    Porter2.Cut(w) == "cosmos" || w == "''s" || w == "''s'"
  }

  /** Without double y the stem is the described one if and only if the word is neither cosmos nor one of the two words
      that step 0 empties. */
  lemma StemIsDescribed(w: string)
    requires !DoubleY(w)
    ensures Stem(w) == Some(Porter2.Stem(w, Porter2.Vowel)) <==> !Odd(w)
  {
    CutAgrees(w);
    StemAgrees(w);
    assert !HasDoubleY(Prepared(w)) by {
      forall i | 0 < i < |Prepared(w)| ensures !(Prepared(w)[i - 1] == 'y' && Prepared(w)[i] in {'y', 'Y'}) {}
    }
    StemAsDocumented(w);
  }

  // ---- Every word ----

  lemma PlainFinish(word: string)
    requires |word| >= 2 && Step0(word) != ""
    ensures Finish(RunOf(word)) == Some(Porter2.StemMarked(word, Porter2.PlainVowel))
  {
    var run := RunOf(word);
    RunIsDescribed(word);
    StopsAgree(run.w1a);
    LateStepsAsDocumented(word);
    LateAgrees(run.w1c, run.r1, run.r2);
    MarksAgree(run.w1a);
    MarksAgree(DocumentedLate(run.w1c, run.r1, run.r2));
  }

  /** For every word the stem is the described one, with the five plain vowels for the vowels before y, if and only if
      the word is neither cosmos nor one of the two words that step 0 empties. */
  lemma StemIsDescribedPlainly(w: string)
    ensures Stem(w) == Some(Porter2.Stem(w, Porter2.PlainVowel)) <==> !Odd(w)
  {
    CutAgrees(w);
    if !LeftAlone(w) {
      var p := Prepared(w);
      SpecialAgrees(p);
      StemFaultsExactly(w);
      if p == "cosmos" {
        CosmosEarly();
        CosmosShortened(p);
        SamePrepared(w, p);
      } else {
        ListedAsDocumented(p);
        if Exception(p).None? && w != "''s" && w != "''s'" {
          PreparedShape(w);
          PreparedPossessive(w);
          EmptiedByStep0(p);
          MarksAgree(p);
          PlainFinish(Marked(p));
        }
      }
    }
  }
}
