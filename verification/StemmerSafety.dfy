/** Whole-run guarantees of the stemmer: where it is defined, how long its results are, what they are made of. */
module StemmerSafety {
  import opened StemmerText
  import opened StemmerSteps
  import opened Options

  // ---- What the rule tables have in common ----

  predicate Lower(s: string) {
    forall i :: 0 <= i < |s| ==> 'a' <= s[i] <= 'z'
  }

  /** Every rule changes its suffix, none lengthens it, and up to its last letter a replacement brings in no new
      vowel. */
  predicate Tame(suffix: string, replacement: string) {
    && 0 < |suffix|
    && |replacement| <= |suffix|
    && replacement != suffix
    && Lower(replacement)
    && forall k :: 0 <= k < |replacement| - 1 ==> replacement[k] == suffix[k] || !IsVowelY(replacement[k])
  }

  predicate AllTame(rules: Rules)
    decreases rules
  {
    rules.End? || (Tame(rules.suffix, rules.replacement) && AllTame(rules.rest))
  }

  /** The rule that a table applied. */
  lemma {:induction false} Applied(rules: Rules, w: string, start: nat) returns (suffix: string, replacement: string)
    requires AllTame(rules) && ApplyFirst(rules, w, start).Some?
    ensures Tame(suffix, replacement) && InRegion(w, suffix, start)
    ensures ApplyFirst(rules, w, start).value == Replaced(w, suffix, replacement)
    decreases rules
  {
    if InRegion(w, rules.suffix, start) {
      suffix, replacement := rules.suffix, rules.replacement;
    } else {
      suffix, replacement := Applied(rules.rest, w, start);
    }
  }

  // The longer tables are checked in parts.

  function Take(rules: Rules, k: nat): (t: Rules)
    ensures Length(t) <= k
    decreases k
  {
    if k == 0 || rules.End? then End else Row(rules.suffix, rules.replacement, Take(rules.rest, k - 1))
  }

  function Drop(rules: Rules, k: nat): Rules
    decreases k
  {
    if k == 0 || rules.End? then rules else Drop(rules.rest, k - 1)
  }

  lemma {:induction false} ApplyInParts(rules: Rules, k: nat, w: string, start: nat)
    ensures ApplyFirst(rules, w, start)
         == var first := ApplyFirst(Take(rules, k), w, start);
            if first.Some? then first else ApplyFirst(Drop(rules, k), w, start)
    decreases k
  {
    if k > 0 && rules.Row? {
      ApplyInParts(rules.rest, k - 1, w, start);
    }
  }

  // ---- A change confined to the end of a word ----

  predicate Letter(c: char) {
    Kept(c) || c == 'Y'
  }

  predicate Letters(w: string) {
    forall i :: 0 <= i < |w| ==> Letter(w[i])
  }

  /** `w'` has everything that `w` has before position `r`. */
  predicate Keeps(w: string, w': string, r: nat) {
    var k := if |w| <= r then |w| else r;
    k <= |w'| && w'[..k] == w[..k]
  }

  /** What one step may do to a word: nothing before `r`, nothing longer, no region boundary broken, no new
      characters. */
  ghost predicate Tidy(w: string, w': string, r: nat) {
    && |w'| <= |w|
    && Keeps(w, w', r)
    && (forall q: nat :: Boundary(w, q) ==> Boundary(w', q))
    && (Letters(w) ==> Letters(w'))
  }

  lemma TidyAgain(w: string, w': string, w'': string, r: nat)
    requires Tidy(w, w', r) && Tidy(w', w'', r)
    ensures Tidy(w, w'', r)
  {
    var k := if |w| <= r then |w| else r;
    assert w''[..k] == w''[..if |w'| <= r then |w'| else r][..k];
    assert w'[..k] == w'[..if |w'| <= r then |w'| else r][..k];
  }

  lemma PrefixTidy(w: string, k: nat, r: nat)
    requires k <= |w| && (k == |w| || r <= k)
    ensures Tidy(w, w[..k], r)
  {
  }

  lemma RuleTidy(w: string, suffix: string, replacement: string, start: nat)
    requires Tame(suffix, replacement) && InRegion(w, suffix, start)
    ensures Tidy(w, Replaced(w, suffix, replacement), start)
  {
    var w' := Replaced(w, suffix, replacement);
    var at := |w| - |suffix|;
    forall q: nat | Boundary(w, q) ensures Boundary(w', q) {
      if at < q < |w'| {
        SuffixChar(w, suffix, q - 1 - at);
      }
    }
    if Letters(w) {
      forall i | 0 <= i < |w'| ensures Letter(w'[i]) {
        if i >= at {
          assert w'[i] == replacement[i - at];
        }
      }
    }
  }

  /** Where a table applies, there is a change, and a tidy one. */
  ghost predicate TidyTable(rules: Rules, w: string, start: nat) {
    ApplyFirst(rules, w, start).Some? ==>
      w != "" && ApplyFirst(rules, w, start).value != w && Tidy(w, ApplyFirst(rules, w, start).value, start)
  }

  lemma TableTidy(rules: Rules, w: string, start: nat)
    requires AllTame(rules)
    ensures TidyTable(rules, w, start)
  {
    if ApplyFirst(rules, w, start).Some? {
      var suffix, replacement := Applied(rules, w, start);
      RuleTidy(w, suffix, replacement, start);
      RuleChanges(w, suffix, replacement);
    }
  }

  lemma RuleChanges(w: string, suffix: string, replacement: string)
    requires EndsWith(w, suffix) && replacement != suffix
    ensures Replaced(w, suffix, replacement) != w
  {
    var at := |w| - |suffix|;
    assert Replaced(w, suffix, replacement)[at..] == replacement;
  }

  lemma TameLast2()
    ensures AllTame(STEP2_FROM13)
  {
    assert AllTame(STEP2_FROM19);
    assert AllTame(STEP2_FROM16);
  }

  lemma TameFrom5()
    ensures AllTame(STEP2_FROM5)
  {
    TameLast2();
    assert AllTame(STEP2_FROM9);
  }

  lemma Tame2()
    ensures AllTame(STEP2)
  {
    TameFrom5();
  }

  lemma Tame4()
    ensures AllTame(STEP4)
  {
    assert AllTame(STEP4_FROM13);
    assert AllTame(STEP4_FROM9);
    assert AllTame(STEP4_FROM5);
  }

  lemma Table2Tidy(w: string, start: nat)
    ensures TidyTable(STEP2, w, start)
  {
    Tame2();
    TableTidy(STEP2, w, start);
  }

  lemma Table3Tidy(w: string, start: nat)
    ensures TidyTable(STEP3, w, start)
  {
    TableTidy(STEP3, w, start);
  }

  lemma Table4Tidy(w: string, start: nat)
    ensures TidyTable(STEP4, w, start)
  {
    Tame4();
    TableTidy(STEP4, w, start);
  }

  lemma WeakerRegion(w: string, w': string, r: nat, r': nat)
    requires Tidy(w, w', r') && r <= r'
    ensures Tidy(w, w', r)
  {
    var k := if |w| <= r then |w| else r;
    assert w'[..k] == w'[..if |w| <= r' then |w| else r'][..k];
    assert w[..k] == w[..if |w| <= r' then |w| else r'][..k];
  }

  /** Replacing a suffix by a beginning of itself only cuts the word. */
  lemma CutTidy(w: string, suffix: string, k: nat, r: nat)
    requires EndsWith(w, suffix) && k <= |suffix| && |w| - |suffix| + k >= r
    ensures Tidy(w, Replaced(w, suffix, suffix[..k]), r)
  {
    assert Replaced(w, suffix, suffix[..k]) == w[..|w| - |suffix| + k];
    PrefixTidy(w, |w| - |suffix| + k, r);
  }

  /** Step 2 leaves the word alone before R1, its logi rule included. */
  lemma Step2Tidy(w: string, r1: nat)
    requires r1 > 0
    ensures Tidy(w, Step2(w, r1), r1)
  {
    Table2Tidy(w, r1);
    if ApplyFirst(STEP2, w, r1).None? {
      if InRegion(w, "logi", Minus(r1, 1)) {
        assert "logi"[..3] == "log";
        CutTidy(w, "logi", 3, r1);
      } else {
        PrefixTidy(w, |Step2(w, r1)|, r1);
      }
    }
  }

  /** Step 3 leaves the word alone before R1. */
  lemma Step3Tidy(w: string, r1: nat, r2: nat)
    requires r1 <= r2
    ensures Tidy(w, Step3(w, r1, r2), r1)
  {
    Table3Tidy(w, r1);
    if ApplyFirst(STEP3, w, r1).None? {
      if InRegion(w, "ative", r2) {
        assert "ative"[..0] == "";
        CutTidy(w, "ative", 0, r1);
      } else {
        PrefixTidy(w, |w|, r1);
      }
    }
  }

  lemma Step4RestTidy(w: string, r2: nat)
    requires r2 > 0 && ApplyFirst(STEP4, w, r2).None?
    ensures Tidy(w, Step4(w, r2), r2)
  {
    if !EndsWith(w, "ement") && !EndsWith(w, "ment") && InRegion(w, "ent", r2) {
      assert "ent"[..0] == "";
      CutTidy(w, "ent", 0, r2);
    } else if InRegion(w, "sion", Minus(r2, 1)) {
      assert "sion"[..1] == "s";
      CutTidy(w, "sion", 1, r2);
    } else if InRegion(w, "tion", Minus(r2, 1)) {
      assert "tion"[..1] == "t";
      CutTidy(w, "tion", 1, r2);
    } else {
      PrefixTidy(w, |w|, r2);
    }
  }

  /** Step 4 leaves the word alone before R2, its sion and tion rules included. */
  lemma Step4Tidy(w: string, r2: nat)
    requires r2 > 0
    ensures Tidy(w, Step4(w, r2), r2)
  {
    Table4Tidy(w, r2);
    if ApplyFirst(STEP4, w, r2).None? {
      Step4RestTidy(w, r2);
    }
  }

  lemma Step5Tidy(w: string, r1: nat, r2: nat)
    requires r1 <= r2 && Step5(w, r1, r2).Some?
    ensures Tidy(w, Step5(w, r1, r2).value, r1)
  {
    PrefixTidy(w, |Step5(w, r1, r2).value|, r1);
  }

  lemma Step0Tidy(w: string)
    ensures Tidy(w, Step0(w), 0)
  {
    PrefixTidy(w, |Step0(w)|, 0);
  }

  lemma Step1ATidy(w: string)
    ensures Tidy(w, Step1A(w), 0)
  {
    if EndsWith(w, "sses") {
      assert "sses"[..2] == "ss";
      CutTidy(w, "sses", 2, 0);
    } else {
      PrefixTidy(w, |Step1A(w)|, 0);
    }
  }

  lemma PlusETidy(w: string, k: nat)
    requires k + 2 <= |w|
    ensures Tidy(w, w[..k] + "e", 0)
  {
  }

  lemma RepairedTidy(w: string, k: nat, r1: nat)
    requires k + 2 <= |w|
    ensures Tidy(w, Repaired(w[..k], r1), 0)
  {
    var w' := Repaired(w[..k], r1);
    if w' == w[..k] + "e" {
      PlusETidy(w, k);
    } else {
      assert w' == w[..|w'|];
      PrefixTidy(w, |w'|, 0);
    }
  }

  lemma Step1BTidy(w: string, r1: nat)
    ensures Tidy(w, Step1B(w, r1), 0)
  {
    if EndsWith(w, "eedly") || EndsWith(w, "eed") {
      assert "eedly"[..2] == "eed"[..2] == "ee";
      if InRegion(w, "eedly", r1) {
        CutTidy(w, "eedly", 2, 0);
      } else if InRegion(w, "eed", r1) {
        CutTidy(w, "eed", 2, 0);
      } else {
        PrefixTidy(w, |w|, 0);
      }
    } else if Deletable(w).Some? {
      RepairedTidy(w, |w| - |Deletable(w).value|, r1);
    } else {
      PrefixTidy(w, |w|, 0);
    }
  }

  lemma Step1CTidy(w: string)
    ensures Tidy(w, Step1C(w), 0) && |Step1C(w)| == |w|
  {
  }

  // ---- A whole run ----

  /** On every run, at every step, what is left of R1 and of R2 still starts right after a non-vowel. */
  lemma RunBoundaries(word: string)
    requires |word| >= 2
    ensures var run := RunOf(word); 2 <= run.r1 <= run.r2 <= |word|
    ensures var run := RunOf(word);
            forall w | w in {run.word, run.w0, run.w1a, run.w1b, run.w1c, run.w2, run.w3, run.w4} ::
              Boundary(w, run.r1) && Boundary(w, run.r2)
  {
    var run := RunOf(word);
    RegionBoundaries(word);
    RegionsNest(word);
    Step0Tidy(word);
    Step1ATidy(run.w0);
    Step1BTidy(run.w1a, run.r1);
    Step1CTidy(run.w1b);
    Step2Tidy(run.w1c, run.r1);
    Step3Tidy(run.w2, run.r1, run.r2);
    Step4Tidy(run.w3, run.r2);
  }

  /** Before step 2 nothing grows and nothing foreign comes in. */
  lemma EarlySteps(word: string)
    ensures Tidy(word, RunOf(word).w1c, 0)
    ensures Tidy(word, RunOf(word).w1a, 0)
  {
    var run := RunOf(word);
    Step0Tidy(word);
    Step1ATidy(run.w0);
    TidyAgain(word, run.w0, run.w1a, 0);
    Step1BTidy(run.w1a, run.r1);
    TidyAgain(word, run.w1a, run.w1b, 0);
    Step1CTidy(run.w1b);
    TidyAgain(word, run.w1b, run.w1c, 0);
  }

  /** Steps 2 to 5 together leave everything before R1 as it was, and never cut into it. */
  lemma LateStepsKeepR1(word: string)
    requires |word| >= 2
    ensures var run := RunOf(word); Tidy(run.w1c, run.w4, run.r1)
    ensures var run := RunOf(word);
            Step5(run.w4, run.r1, run.r2).Some? ==> Tidy(run.w1c, Step5(run.w4, run.r1, run.r2).value, run.r1)
  {
    var run := RunOf(word);
    RunBoundaries(word);
    Step2Tidy(run.w1c, run.r1);
    Step3Tidy(run.w2, run.r1, run.r2);
    TidyAgain(run.w1c, run.w2, run.w3, run.r1);
    Step4Tidy(run.w3, run.r2);
    WeakerRegion(run.w3, run.w4, run.r1, run.r2);
    TidyAgain(run.w1c, run.w3, run.w4, run.r1);
    if Step5(run.w4, run.r1, run.r2).Some? {
      Step5Tidy(run.w4, run.r1, run.r2);
      TidyAgain(run.w1c, run.w4, Step5(run.w4, run.r1, run.r2).value, run.r1);
    }
  }

  lemma Step1ANonEmpty(w: string)
    requires w != ""
    ensures Step1A(w) != ""
  {
  }

  lemma DeletableLeavesSome(w: string)
    ensures Deletable(w).Some? ==> EndsWith(w, Deletable(w).value) && |w| > |Deletable(w).value|
  {
  }

  lemma Step1BNonEmpty(w: string, r1: nat)
    requires w != ""
    ensures Step1B(w, r1) != ""
  {
    DeletableLeavesSome(w);
  }

  lemma EarlyNonEmpty(w: string, r1: nat)
    requires w != ""
    ensures Step1A(w) != "" && Step1B(w, r1) != ""
  {
    Step1ANonEmpty(w);
    Step1BNonEmpty(w, r1);
  }

  lemma Step5Defined(w: string, r1: nat, r2: nat)
    requires w != "" && 2 <= r1 <= r2
    ensures Step5(w, r1, r2).Some? && Step5(w, r1, r2).value != ""
  {
  }

  /** Only step 0 can empty a word; after that some letter always survives. */
  lemma RunNonEmpty(word: string)
    requires |word| >= 2 && Step0(word) != ""
    ensures RunOf(word).w1a != "" && RunOf(word).w4 != ""
  {
    var run := RunOf(word);
    RunBoundaries(word);
    EarlyNonEmpty(run.w0, run.r1);
    EarlyNonEmpty(run.w1a, run.r1);
    Step1CTidy(run.w1b);
    LateStepsKeepR1(word);
  }

  lemma RunEmpty(word: string)
    requires RunOf(word).w0 == ""
    ensures RunOf(word).w1a == "" && RunOf(word).w4 == ""
  {
    var run := RunOf(word);
    EmptyStaysEmpty(run.r1, run.r2);
  }

  lemma EmptyStaysEmpty(r1: nat, r2: nat)
    ensures Step1A("") == Step1B("", r1) == Step1C("") == Step2("", r1) == Step3("", r1, r2) == Step4("", r2) == ""
  {
    Step1ATidy("");
    Step1BTidy("", r1);
    Table2Tidy("", r1);
    Table3Tidy("", r1);
    Table4Tidy("", r2);
  }

  // ---- The results ----

  lemma PreparedShape(w: string)
    requires !LeftAlone(w)
    ensures 2 <= |Prepared(w)| <= 35 && |Prepared(w)| <= |w|
    ensures Letters(w) ==> Letters(Prepared(w))
  {
  }

  lemma Step0Empties(m: string)
    requires |m| >= 2
    ensures Step0(m) == "" <==> m == "'s" || m == "'s'"
  {
    assert m[0..] == m;
  }

  lemma MarkedPlain(p: string, plain: string)
    requires forall c | c in plain :: c != 'y' && c != 'Y'
    ensures Marked(p) == plain <==> p == plain
  {
    if Marked(p) == plain {
      forall i | 0 <= i < |p| ensures p[i] == plain[i] {
        assert plain[i] in plain && Marked(p)[i] == MarkedAt(p, i);
      }
    } else if p == plain {
      forall i | 0 <= i < |p| ensures Marked(p)[i] == p[i] {
        assert p[i] in plain;
      }
    }
  }

  /** What step 0 empties: exactly the possessive endings standing alone. */
  lemma EmptiedByStep0(p: string)
    requires |p| >= 2
    ensures Step0(Marked(p)) == "" <==> p == "'s" || p == "'s'"
  {
    Step0Empties(Marked(p));
    MarkedPlain(p, "'s");
    MarkedPlain(p, "'s'");
  }

  lemma FinishFaults(word: string)
    requires |word| >= 2
    ensures Finish(RunOf(word)).None? <==> RunOf(word).w0 == ""
  {
    var run := RunOf(word);
    RunBoundaries(word);
    if run.w0 == "" {
      RunEmpty(word);
    } else {
      RunNonEmpty(word);
      Step5Defined(run.w4, run.r1, run.r2);
    }
  }

  lemma PreparedPossessive(w: string)
    requires !LeftAlone(w)
    ensures Prepared(w) == "'s" <==> w == "''s"
    ensures Prepared(w) == "'s'" <==> w == "''s'"
  {
    if Prepared(w) == "'s" || Prepared(w) == "'s'" {
      assert w == ['\''] + Prepared(w);
    }
  }

  /** `stem` is defined on every input but two; on those, step 5 reads the last character of an empty string. */
  lemma StemFaultsExactly(w: string)
    ensures Stem(w).None? <==> w == "''s" || w == "''s'"
  {
    if !LeftAlone(w) {
      var p := Prepared(w);
      PreparedShape(w);
      PreparedPossessive(w);
      if Exception(p).None? {
        FinishFaults(Marked(p));
        EmptiedByStep0(p);
      }
    }
  }

  /** Of the words listed as invariant, cosmos is too long for the test in front of the list. */
  lemma OnlyCosmosMissed(p: string)
    requires p in INVARIANTS
    ensures Exception(p).None? <==> p == "cosmos"
  {
  }

  lemma ExceptionShape(p: string)
    requires Exception(p).Some?
    ensures 0 < |Exception(p).value| <= |p|
    ensures Lower(Exception(p).value)
  {
  }

  /** No stem is longer than its word or than 35 letters, and no word is stemmed to nothing. */
  lemma StemLength(w: string)
    requires w != "''s" && w != "''s'"
    ensures Stem(w).Some? && |Stem(w).value| <= |w| && |Stem(w).value| <= 35
    ensures w != "" ==> Stem(w).value != ""
  {
    if !LeftAlone(w) {
      var p := Prepared(w);
      PreparedShape(w);
      if Exception(p).Some? {
        ExceptionShape(p);
      } else {
        PreparedPossessive(w);
        EmptiedByStep0(p);
        RunLength(Marked(p));
      }
    }
  }

  lemma RunLength(word: string)
    requires |word| >= 2 && Step0(word) != ""
    ensures Finish(RunOf(word)).Some? && 0 < |Finish(RunOf(word)).value| <= |word|
  {
    var run := RunOf(word);
    RunBoundaries(word);
    EarlySteps(word);
    LateStepsKeepR1(word);
    FinishFaults(word);
    RunNonEmpty(word);
    Step5Defined(run.w4, run.r1, run.r2);
  }

  lemma RunLetters(word: string)
    requires |word| >= 2 && Letters(word)
    ensures Finish(RunOf(word)).Some? ==> Trimmed(Finish(RunOf(word)).value)
  {
    RunBoundaries(word);
    EarlySteps(word);
    LateStepsKeepR1(word);
  }

  /** Trimmed words have trimmed stems: lower-case letters and apostrophes, with every consonant mark on y removed. */
  lemma StemLetters(w: string)
    requires Trimmed(w) && w != "''s" && w != "''s'"
    ensures Stem(w).Some? && Trimmed(Stem(w).value)
  {
    StemFaultsExactly(w);
    if !LeftAlone(w) {
      var p := Prepared(w);
      PreparedShape(w);
      if Exception(p).Some? {
        ExceptionShape(p);
      } else {
        RunLetters(Marked(p));
      }
    }
  }
}
