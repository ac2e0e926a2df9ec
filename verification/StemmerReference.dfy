/** The steps as their specification words them: find the longest suffix in the list, then look whether it is in the
    region. The code instead tries a fixed order and tests the region first. Region boundaries make the two agree. */
module StemmerReference {
  import opened StemmerText
  import opened StemmerSteps
  import opened Options
  import opened StemmerSafety
  import opened StemmerTables

  predicate Listed(rules: Rules, suffix: string)
    decreases Length(rules)
  {
    rules.Row? && (rules.suffix == suffix || Listed(rules.rest, suffix))
  }

  /** `Longest` is what it says: a listed suffix of the word that no other listed suffix of the word exceeds. */
  lemma {:induction false} LongestIsLongest(rules: Rules, w: string)
    ensures Longest(rules, w).Some? ==> Listed(rules, Longest(rules, w).value.0)
    ensures forall other :: Listed(rules, other) && EndsWith(w, other) ==>
              Longest(rules, w).Some? && |other| <= |Longest(rules, w).value.0|
    decreases rules
  {
    if rules.Row? {
      LongestIsLongest(rules.rest, w);
    }
  }

  /** The documented reading of a table: only the longest suffix counts, and it must lie in the region. */
  function LongestInRegion(rules: Rules, w: string, start: nat): Option<string> {
    match Longest(rules, w)
    case None => None
    case Some(best) => if |w| - |best.0| >= start then Some(Replaced(w, best.0, best.1)) else None
  }

  // ---- Why the order of a table is harmless ----

  /** The one situation in which step 2 goes on to a shorter suffix: ization is cut by R1 right before ation. */
  predicate FallsThrough(w: string, r1: nat) {
    EndsWith(w, "ization") && r1 == |w| - 5
  }

  lemma {:induction false} LongestInside(w: string, s: string, rules: Rules)
    requires AllInside(w, s, rules) && EndsWith(w, s) && Longest(rules, w).Some?
    ensures Inside(w, s, Longest(rules, w).value.0)
    decreases rules
  {
    if Longest(rules.rest, w).Some? {
      LongestInside(w, s, rules.rest);
    }
  }

  /** No region starts between a suffix and a shorter one inside it. */
  lemma NoRegionBetween(w: string, r: nat, s: string, t: string)
    requires Boundary(w, r) && !FallsThrough(w, r)
    requires EndsWith(w, s) && EndsWith(w, t) && Inside(w, s, t)
    ensures |t| < |s|
    ensures |w| - |s| < r ==> |w| - |t| < r
  {
    SuffixChar(w, s, 0);
  }

  /** Trying a table in order, region first, finds what taking the longest suffix and then testing the region finds. */
  lemma {:induction false} OrderedIsLongest(rules: Rules, w: string, r: nat)
    requires Nested(w, rules) && Boundary(w, r) && !FallsThrough(w, r)
    ensures ApplyFirst(rules, w, r) == LongestInRegion(rules, w, r)
    decreases rules
  {
    if rules.Row? {
      OrderedIsLongest(rules.rest, w, r);
      if EndsWith(w, rules.suffix) && Longest(rules.rest, w).Some? {
        LongestInside(w, rules.suffix, rules.rest);
        NoRegionBetween(w, r, rules.suffix, Longest(rules.rest, w).value.0);
      }
    }
  }

  lemma {:induction false} NoneApplies(rules: Rules, w: string, r: nat)
    requires Longest(rules, w).None?
    ensures ApplyFirst(rules, w, r).None?
    decreases rules
  {
    if rules.Row? {
      NoneApplies(rules.rest, w, r);
    }
  }

  lemma Table3AsDocumented(w: string, r: nat)
    requires Boundary(w, r)
    ensures ApplyFirst(STEP3, w, r) == LongestInRegion(STEP3, w, r)
  {
    if EndsWith(w, "ization") {
      UnlikeBest(w, "ization", {}, STEP3);
      NoneApplies(STEP3, w, r);
    } else {
      Step3Nested(w);
      OrderedIsLongest(STEP3, w, r);
    }
  }

  lemma Table4AsDocumented(w: string, r: nat)
    requires Boundary(w, r)
    ensures ApplyFirst(STEP4, w, r) == LongestInRegion(STEP4, w, r)
  {
    if EndsWith(w, "ization") {
      assert EndsWith("ization", "ion");
      ShorterSuffix(w, "ization", "ion");
      IonAlone(w);
      NoneApplies(STEP4, w, r);
    } else {
      Step4Nested(w);
      OrderedIsLongest(STEP4, w, r);
    }
  }

  lemma ShorterSuffix(w: string, s: string, t: string)
    requires EndsWith(w, s) && EndsWith(s, t)
    ensures EndsWith(w, t)
  {
    assert w[|w| - |t|..] == w[|w| - |s|..][|s| - |t|..];
  }

  // ---- The steps, as documented ----

  /** Step 3: the longest of the listed suffixes, in R1; ative in R2. */
  function DocumentedStep3(table: Rules, w: string, r1: nat, r2: nat): string {
    match Longest(Row("ative", "", table), w)
    case None => w
    case Some(best) =>
      if |w| - |best.0| >= (if best.0 == "ative" then r2 else r1) then Replaced(w, best.0, best.1) else w
  }

  /** Step 4: the longest of the listed suffixes, in R2; ion only after s or t. */
  function DocumentedStep4(table: Rules, w: string, r2: nat): string {
    match Longest(Row("ent", "", Row("ion", "", table)), w)
    case None => w
    case Some(best) =>
      var at := |w| - |best.0|;
      if at >= r2 && (best.0 == "ion" ==> at > 0 && w[at - 1] in "st") then Replaced(w, best.0, best.1) else w
  }

  /** Step 2: the longest of the listed suffixes, in R1; ogi only after l, li only after a valid li-ending. */
  function DocumentedStep2(table: Rules, w: string, r1: nat): string {
    match Longest(Row("ogi", "og", Row("li", "", table)), w)
    case None => w
    case Some(best) =>
      var at := |w| - |best.0|;
      if at >= r1 && (best.0 == "ogi" ==> at > 0 && w[at - 1] == 'l')
         && (best.0 == "li" ==> at > 0 && IsValidLiEnding(w[at - 1]))
      then Replaced(w, best.0, best.1) else w
  }

  lemma Step3Core(table: Rules, w: string, r1: nat, r2: nat)
    requires ApplyFirst(table, w, r1) == LongestInRegion(table, w, r1)
    requires EndsWith(w, "ative") ==> Longest(table, w).None?
    ensures Step3By(table, w, r1, r2) == DocumentedStep3(table, w, r1, r2)
  {
  }

  /** Step 3 is exactly its documented reading. */
  lemma Step3AsDocumented(w: string, r1: nat, r2: nat)
    requires Boundary(w, r1)
    ensures Step3(w, r1, r2) == DocumentedStep3(STEP3, w, r1, r2)
  {
    Table3AsDocumented(w, r1);
    if EndsWith(w, "ative") {
      AtiveAlone(w);
    }
    Step3Core(STEP3, w, r1, r2);
  }

  /** A suffix with one letter required in front of it is the longer suffix, one position earlier. */
  lemma OneMoreLetter(w: string, long: string, start: nat)
    requires |long| > 1 && start > 0
    ensures InRegion(w, long, start - 1) <==>
            InRegion(w, long[1..], start) && |w| >= |long| && w[|w| - |long|] == long[0]
  {
    if |w| >= |long| {
      assert w[|w| - |long|..] == [w[|w| - |long|]] + w[|w| - |long| + 1..];
      assert long == [long[0]] + long[1..];
    }
  }

  lemma EndsInOneWay(w: string)
    ensures !(EndsWith(w, "ion") && EndsWith(w, "ent"))
    ensures !(EndsWith(w, "ogi") && EndsWith(w, "li"))
  {
    if EndsWith(w, "ion") {
      SuffixChar(w, "ion", 2);
    }
    if EndsWith(w, "ogi") {
      SuffixChar(w, "ogi", 1);
    }
  }

  /** How ent and ion join the table of step 4. */
  lemma WithEntAndIon(table: Rules, w: string)
    requires EndsWith(w, "ion") ==> Longest(table, w).None?
    requires EndsWith(w, "ent") ==> BestAmong(w, {"ement", "ment"}, table)
    ensures Longest(Row("ent", "", Row("ion", "", table)), w)
         == if EndsWith(w, "ion") then Some(("ion", ""))
            else if EndsWith(w, "ent") && Longest(table, w).None? then Some(("ent", ""))
            else Longest(table, w)
    ensures Longest(table, w).Some? ==> Longest(table, w).value.0 != "ion"
  {
    EndsInOneWay(w);
  }

  lemma IonReplaced(w: string)
    ensures EndsWith(w, "sion") ==> Replaced(w, "sion", "s") == w[..|w| - 3]
    ensures EndsWith(w, "tion") ==> Replaced(w, "tion", "t") == w[..|w| - 3]
    ensures EndsWith(w, "ion") ==> Replaced(w, "ion", "") == w[..|w| - 3]
  {
    if EndsWith(w, "sion") {
      SuffixChar(w, "sion", 0);
    }
    if EndsWith(w, "tion") {
      SuffixChar(w, "tion", 0);
    }
  }

  /** What either reading of step 4 makes of a word that ends in ion and in no listed suffix. */
  function IonCut(w: string, r2: nat): string
    requires EndsWith(w, "ion")
  {
    if |w| > 3 && |w| - 3 >= r2 && w[|w| - 4] in "st" then w[..|w| - 3] else w
  }

  lemma IonByCode(table: Rules, w: string, r2: nat)
    requires r2 > 0 && EndsWith(w, "ion") && ApplyFirst(table, w, r2).None?
    ensures Step4By(table, w, r2) == IonCut(w, r2)
  {
    EndsInOneWay(w);
    OneMoreLetter(w, "sion", r2);
    OneMoreLetter(w, "tion", r2);
    assert "sion"[1..] == "ion" && "tion"[1..] == "ion";
    IonReplaced(w);
  }

  lemma IonByDocument(table: Rules, w: string, r2: nat)
    requires EndsWith(w, "ion") && Longest(table, w).None?
    ensures DocumentedStep4(table, w, r2) == IonCut(w, r2)
  {
    WithEntAndIon(table, w);
    IonReplaced(w);
  }

  lemma IonCore(table: Rules, w: string, r2: nat)
    requires r2 > 0 && EndsWith(w, "ion") && Longest(table, w).None? && ApplyFirst(table, w, r2).None?
    ensures Step4By(table, w, r2) == DocumentedStep4(table, w, r2)
  {
    IonByCode(table, w, r2);
    IonByDocument(table, w, r2);
  }

  lemma NotIonCore(table: Rules, w: string, r2: nat)
    requires r2 > 0 && !EndsWith(w, "ion")
    requires ApplyFirst(table, w, r2) == LongestInRegion(table, w, r2)
    requires EndsWith(w, "ent") ==> BestAmong(w, {"ement", "ment"}, table)
    requires EndsWith(w, "ent") ==> (Longest(table, w).Some? <==> EndsWith(w, "ement") || EndsWith(w, "ment"))
    ensures Step4By(table, w, r2) == DocumentedStep4(table, w, r2)
  {
    NoIon(w);
    WithEntAndIon(table, w);
    if EndsWith(w, "ent") && Longest(table, w).None? {
      EntCore(table, w, r2);
    } else {
      ListedCore(table, w, r2);
    }
  }

  lemma EntCore(table: Rules, w: string, r2: nat)
    requires EndsWith(w, "ent") && !EndsWith(w, "ement") && !EndsWith(w, "ment")
    requires !EndsWith(w, "sion") && !EndsWith(w, "tion")
    requires ApplyFirst(table, w, r2).None? && Longest(Row("ent", "", Row("ion", "", table)), w) == Some(("ent", ""))
    ensures Step4By(table, w, r2) == DocumentedStep4(table, w, r2)
  {
  }

  lemma ListedCore(table: Rules, w: string, r2: nat)
    requires EndsWith(w, "ent") ==> EndsWith(w, "ement") || EndsWith(w, "ment")
    requires !EndsWith(w, "sion") && !EndsWith(w, "tion")
    requires ApplyFirst(table, w, r2) == LongestInRegion(table, w, r2)
    requires Longest(Row("ent", "", Row("ion", "", table)), w) == Longest(table, w)
    requires Longest(table, w).Some? ==> Longest(table, w).value.0 != "ion"
    ensures Step4By(table, w, r2) == DocumentedStep4(table, w, r2)
  {
  }

  lemma NoIon(w: string)
    requires !EndsWith(w, "ion")
    ensures !EndsWith(w, "sion") && !EndsWith(w, "tion")
  {
    OneMoreLetter(w, "sion", 1);
    OneMoreLetter(w, "tion", 1);
    assert "sion"[1..] == "ion" && "tion"[1..] == "ion";
  }

  lemma Listed4(w: string)
    requires EndsWith(w, "ement") || EndsWith(w, "ment")
    ensures Longest(STEP4, w).Some?
  {
    DropDrop(STEP4, 4, 4);
    assert Drop(STEP4, 8) == STEP4_FROM9;
    if EndsWith(w, "ement") {
      Fits(STEP4, 8, w, 0);
    } else {
      DropDrop(STEP4, 8, 1);
      Fits(STEP4, 9, w, 0);
    }
  }

  lemma EntOrLonger(w: string)
    requires EndsWith(w, "ent")
    ensures Longest(STEP4, w).Some? <==> EndsWith(w, "ement") || EndsWith(w, "ment")
  {
    EntInside(w);
    if EndsWith(w, "ement") || EndsWith(w, "ment") {
      Listed4(w);
    }
  }

  /** Step 4 is exactly its documented reading. */
  lemma Step4AsDocumented(w: string, r2: nat)
    requires Boundary(w, r2) && r2 > 0
    ensures Step4(w, r2) == DocumentedStep4(STEP4, w, r2)
  {
    Table4AsDocumented(w, r2);
    if EndsWith(w, "ion") {
      IonAlone(w);
      IonCore(STEP4, w, r2);
    } else {
      if EndsWith(w, "ent") {
        EntInside(w);
        EntOrLonger(w);
      }
      NotIonCore(STEP4, w, r2);
    }
  }

  /** How ogi and li join the table of step 2. */
  lemma WithOgiAndLi(table: Rules, w: string)
    requires EndsWith(w, "ogi") ==> Longest(table, w).None?
    requires EndsWith(w, "li") && Longest(table, w).Some? ==> |Longest(table, w).value.0| >= 3
    ensures Longest(Row("ogi", "og", Row("li", "", table)), w)
         == if EndsWith(w, "ogi") then Some(("ogi", "og"))
            else if EndsWith(w, "li") && Longest(table, w).None? then Some(("li", ""))
            else Longest(table, w)
    ensures Longest(table, w).Some? ==> Longest(table, w).value.0 != "ogi" && Longest(table, w).value.0 != "li"
  {
    EndsInOneWay(w);
  }

  lemma LogiReplaced(w: string)
    ensures EndsWith(w, "logi") ==> Replaced(w, "logi", "log") == w[..|w| - 1]
    ensures EndsWith(w, "ogi") ==> Replaced(w, "ogi", "og") == w[..|w| - 1]
  {
    if EndsWith(w, "logi") {
      assert "logi"[..3] == "log";
      SuffixChar(w, "logi", 0);
      SuffixChar(w, "logi", 1);
      SuffixChar(w, "logi", 2);
    }
    if EndsWith(w, "ogi") {
      SuffixChar(w, "ogi", 0);
      SuffixChar(w, "ogi", 1);
    }
  }

  lemma OgiCore(table: Rules, w: string, r1: nat)
    requires r1 > 0 && EndsWith(w, "ogi") && Longest(table, w).None? && ApplyFirst(table, w, r1).None?
    ensures Step2By(table, w, r1) == DocumentedStep2(table, w, r1)
  {
    EndsInOneWay(w);
    WithOgiAndLi(table, w);
    OneMoreLetter(w, "logi", r1);
    assert "logi"[1..] == "ogi";
    LogiReplaced(w);
  }

  lemma NotOgiCore(table: Rules, w: string, r1: nat)
    requires r1 >= 2 && !EndsWith(w, "ogi")
    requires ApplyFirst(table, w, r1) == LongestInRegion(table, w, r1)
    requires EndsWith(w, "li") && Longest(table, w).Some? ==> |Longest(table, w).value.0| >= 3
    requires EndsWith(w, "li") ==> (Longest(table, w).Some? <==> EndsInLongerLi(w))
    ensures Step2By(table, w, r1) == DocumentedStep2(table, w, r1)
  {
    OneMoreLetter(w, "logi", r1);
    assert "logi"[1..] == "ogi";
    WithOgiAndLi(table, w);
    if EndsWith(w, "li") && Longest(table, w).None? {
      LiCore(table, w, r1);
    }
  }

  lemma LiCore(table: Rules, w: string, r1: nat)
    requires r1 >= 2 && EndsWith(w, "li") && !EndsInLongerLi(w) && !InRegion(w, "logi", r1 - 1)
    requires ApplyFirst(table, w, r1).None? && Longest(Row("ogi", "og", Row("li", "", table)), w) == Some(("li", ""))
    ensures Step2By(table, w, r1) == DocumentedStep2(table, w, r1)
  {
    LiByCode(table, w, r1);
    LiByDocument(table, w, r1);
  }

  lemma LiByCode(table: Rules, w: string, r1: nat)
    requires r1 >= 2 && !InRegion(w, "logi", r1 - 1) && ApplyFirst(table, w, r1).None?
    ensures Step2By(table, w, r1) == LiDeleted(w, r1)
  {
  }

  lemma LiByDocument(table: Rules, w: string, r1: nat)
    requires r1 >= 2 && EndsWith(w, "li") && !EndsInLongerLi(w)
    requires Longest(Row("ogi", "og", Row("li", "", table)), w) == Some(("li", ""))
    ensures DocumentedStep2(table, w, r1) == LiDeleted(w, r1)
  {
    assert Replaced(w, "li", "") == Chop(w, 2);
  }

  lemma {:induction false} DropDrop(rules: Rules, j: nat, k: nat)
    ensures Drop(Drop(rules, j), k) == Drop(rules, j + k)
    decreases j
  {
    if j > 0 && rules.Row? {
      DropDrop(rules.rest, j - 1, k);
    }
  }

  lemma Parts2()
    ensures Drop(STEP2, 4) == STEP2_FROM5
    ensures Drop(STEP2, 8) == STEP2_FROM9
    ensures Drop(STEP2, 12) == STEP2_FROM13
    ensures Drop(STEP2, 15) == STEP2_FROM16
    ensures Drop(STEP2, 18) == STEP2_FROM19
  {
    DropDrop(STEP2, 4, 4);
    DropDrop(STEP2, 8, 4);
    DropDrop(STEP2, 12, 3);
    DropDrop(STEP2, 15, 3);
  }

  lemma FitsRow2(w: string, from: nat, k: nat, r1: nat)
    requires Drop(Drop(STEP2, from), k).Row? && EndsWith(w, Drop(Drop(STEP2, from), k).suffix)
    ensures Longest(STEP2, w).Some? && |Drop(Drop(STEP2, from), k).suffix| <= |Longest(STEP2, w).value.0|
    ensures |w| - |Drop(Drop(STEP2, from), k).suffix| >= r1 ==> ApplyFirst(STEP2, w, r1).Some?
  {
    DropDrop(STEP2, from, k);
    Fits(STEP2, from + k, w, r1);
  }

  lemma LongerLiFits(w: string, name: string)
    requires name in LI_ENDINGS && EndsWith(w, name)
    ensures Longest(STEP2, w).Some?
  {
    Parts2();
    if name == "abli" { FitsRow2(w, 4, 0, 0); }
    else if name == "entli" { FitsRow2(w, 4, 1, 0); }
    else if name == "alli" { FitsRow2(w, 12, 0, 0); }
    else if name == "ousli" { FitsRow2(w, 12, 2, 0); }
    else if name == "bli" { FitsRow2(w, 18, 1, 0); }
    else if name == "fulli" { FitsRow2(w, 18, 2, 0); }
    else { FitsRow2(w, 18, 3, 0); }
  }

  lemma LongerLiNamed(w: string) returns (name: string)
    requires EndsWith(w, "li") && EndsInLongerLi(w)
    ensures name in LI_ENDINGS && EndsWith(w, name)
  {
    SuffixChar(w, "li", 0);
    if EndsWith(w, "aliti") {
      SuffixChar(w, "aliti", 3);
    }
    name := if EndsWith(w, "abli") then "abli" else if EndsWith(w, "entli") then "entli"
      else if EndsWith(w, "alli") then "alli" else if EndsWith(w, "ousli") then "ousli"
      else if EndsWith(w, "bli") then "bli" else if EndsWith(w, "fulli") then "fulli" else "lessli";
  }

  lemma NamedIsLonger(w: string, name: string)
    requires name in LI_ENDINGS && EndsWith(w, name)
    ensures EndsInLongerLi(w) && |name| >= 3
  {
    if name == "abli" {} else if name == "entli" {} else if name == "alli" {} else if name == "ousli" {
    } else if name == "bli" {} else if name == "fulli" {} else { assert name == "lessli"; }
  }

  lemma LongestLi(w: string)
    requires EndsWith(w, "li") && Longest(STEP2, w).Some?
    ensures EndsInLongerLi(w) && |Longest(STEP2, w).value.0| >= 3
  {
    var name := Longest(STEP2, w).value.0;
    assert name in LI_ENDINGS by {
      LiInside(w);
    }
    NamedIsLonger(w, name);
  }

  lemma LiOrLonger(w: string)
    requires EndsWith(w, "li")
    ensures Longest(STEP2, w).Some? <==> EndsInLongerLi(w)
    ensures Longest(STEP2, w).Some? ==> |Longest(STEP2, w).value.0| >= 3
  {
    if Longest(STEP2, w).Some? {
      LongestLi(w);
    } else if EndsInLongerLi(w) {
      var name := LongerLiNamed(w);
      LongerLiFits(w, name);
    }
  }

  /** In the exceptional situation the code replaces ation where the specification leaves ization alone. */
  lemma FallThroughDiffers(w: string, r1: nat)
    requires FallsThrough(w, r1)
    ensures Step2(w, r1) != DocumentedStep2(STEP2, w, r1)
  {
    Parts2();
    assert Drop(STEP2_FROM5, 3).suffix == "ization" && Drop(STEP2_FROM9, 0).suffix == "ation";
    assert EndsWith("ization", "ation");
    ShorterSuffix(w, "ization", "ation");
    FitsRow2(w, 4, 3, r1);
    FitsRow2(w, 8, 0, r1);
    Table2Tidy(w, r1);
    NotOgiNorLi(w);
  }

  lemma NotOgiNorLi(w: string)
    requires EndsWith(w, "ization")
    ensures !EndsWith(w, "ogi") && !EndsWith(w, "li")
  {
    SuffixChar(w, "ization", 6);
  }

  /** Step 2 is its documented reading, except exactly where R1 cuts ization right before ation. */
  lemma Step2AsDocumented(w: string, r1: nat)
    requires Boundary(w, r1) && r1 >= 2
    ensures Step2(w, r1) == DocumentedStep2(STEP2, w, r1) <==> !FallsThrough(w, r1)
  {
    if FallsThrough(w, r1) {
      FallThroughDiffers(w, r1);
    } else if EndsWith(w, "ogi") {
      OgiAlone(w);
      NoneApplies(STEP2, w, r1);
      OgiCore(STEP2, w, r1);
    } else {
      Step2Nested(w);
      OrderedIsLongest(STEP2, w, r1);
      if EndsWith(w, "li") {
        LiOrLonger(w);
      }
      NotOgiCore(STEP2, w, r1);
    }
  }

  // ---- Step 1b ----

  /** A short word is one that ends in a short syllable and has an empty R1. */
  function DocumentedRepair(s: string, r1: nat): string {
    if EndsWith(s, "at") || EndsWith(s, "bl") || EndsWith(s, "iz") then s + "e"
    else if EndsInDouble(s) then Chop(s, 1)
    else if IsShort(s) && |s| <= r1 then s + "e"
    else s
  }

  /** The ending of step 1b that a word has; no word has two of them once eed and eedly are ruled out. */
  function Ending1B(w: string): string {
    if EndsWith(w, "ed") then "ed" else if EndsWith(w, "edly") then "edly"
    else if EndsWith(w, "ing") then "ing" else if EndsWith(w, "ingly") then "ingly" else ""
  }

  function DocumentedStep1B(w: string, r1: nat): string {
    if EndsWith(w, "eedly") then if InRegion(w, "eedly", r1) then Replaced(w, "eedly", "ee") else w
    else if EndsWith(w, "eed") then if InRegion(w, "eed", r1) then Replaced(w, "eed", "ee") else w
    else
      var s := Chop(w, |Ending1B(w)|);
      if Ending1B(w) != "" && HasVowel(s) then DocumentedRepair(s, r1) else w
  }

  lemma VowelBefore(w: string, k: nat)
    requires k <= |w|
    ensures ContainsVowel(w, Minus(|w|, k)) <==> HasVowel(Chop(w, k))
  {
    if ContainsVowel(w, |w| - k) {
      var i :| 0 <= i < |w| - k && IsVowelY(w[i]);
      assert Chop(w, k)[i] == w[i];
    }
  }

  lemma EndingLetters(w: string)
    ensures EndsWith(w, "ed") ==> w[|w| - 1] == 'd'
    ensures EndsWith(w, "edly") ==> w[|w| - 1] == 'y' && w[|w| - 3] == 'd'
    ensures EndsWith(w, "ing") ==> w[|w| - 1] == 'g'
    ensures EndsWith(w, "ingly") ==> w[|w| - 1] == 'y' && w[|w| - 3] == 'g'
  {
    assert EndsWith(w, "ed") ==> w[|w| - 2..][1] == w[|w| - 1];
    assert EndsWith(w, "edly") ==> w[|w| - 4..][1] == w[|w| - 3] && w[|w| - 4..][3] == w[|w| - 1];
    assert EndsWith(w, "ing") ==> w[|w| - 3..][2] == w[|w| - 1];
    assert EndsWith(w, "ingly") ==> w[|w| - 5..][2] == w[|w| - 3] && w[|w| - 5..][4] == w[|w| - 1];
  }

  lemma OneEnding(w: string)
    ensures EndsWith(w, "ed") ==> !EndsWith(w, "edly") && !EndsWith(w, "ing") && !EndsWith(w, "ingly")
    ensures EndsWith(w, "edly") ==> !EndsWith(w, "ing") && !EndsWith(w, "ingly")
    ensures EndsWith(w, "ing") ==> !EndsWith(w, "ingly")
  {
    EndingLetters(w);
  }

  lemma DeletableAsDocumented(w: string)
    ensures Deletable(w) == if Ending1B(w) != "" && HasVowel(Chop(w, |Ending1B(w)|)) then Some(Ending1B(w)) else None
  {
    OneEnding(w);
    if EndsWith(w, "ed") {
      VowelBefore(w, 2);
    } else if EndsWith(w, "edly") {
      VowelBefore(w, 4);
    } else if EndsWith(w, "ing") {
      VowelBefore(w, 3);
    } else if EndsWith(w, "ingly") {
      VowelBefore(w, 5);
    }
  }

  /** A word that still has one of these endings and whose stem would be short has its R1 inside the stem:
      comparing R1 with the length of the stem for equality is as good as asking whether R1 is empty. */
  lemma ShortStemHasR1(word: string, w: string, ending: string)
    requires |word| >= 2 && w <= word && EndsWith(w, ending) && ending in {"ed", "edly", "ing", "ingly"}
    requires IsShort(Chop(w, |ending|))
    ensures StartR1(word) <= |w| - |ending|
  {
    var k := |w| - |ending|;
    assert VowelThenNon(word, k - 1);
    SuffixChar(w, ending, 0);
    SuffixChar(w, ending, 1);
    RegionIsFirst(word, 1);
    if "gener" <= word {
      assert word[..5] == "gener";
      assert word[0] == 'g' && word[1] == 'e' && word[2] == 'n' && word[3] == 'e' && word[4] == 'r';
    } else if "arsen" <= word {
      assert word[0] == 'a' && word[1] == 'r' && word[2] == 's' && word[3] == 'e' && word[4] == 'n';
    } else if "commun" <= word {
      assert word[0] == 'c' && word[1] == 'o' && word[2] == 'm' && word[3] == 'm' && word[4] == 'u' && word[5] == 'n';
    }
  }

  /** Step 1b is exactly its documented reading on every prefix of a word whose R1 it is given. */
  lemma Step1BAsDocumented(word: string, w: string)
    requires |word| >= 2 && w <= word
    ensures Step1B(w, StartR1(word)) == DocumentedStep1B(w, StartR1(word))
  {
    if !EndsWith(w, "eedly") && !EndsWith(w, "eed") {
      DeletableAsDocumented(w);
      RepairAsDocumented(word, w);
    } else if EndsWith(w, "eedly") {
      NotBothEed(w);
    }
  }

  lemma RepairAsDocumented(word: string, w: string)
    requires |word| >= 2 && w <= word
    ensures Deletable(w).Some? ==>
              var s := Chop(w, |Deletable(w).value|);
              Repaired(s, StartR1(word)) == DocumentedRepair(s, StartR1(word))
  {
    if Deletable(w).Some? && IsShort(Chop(w, |Deletable(w).value|)) {
      ShortStemHasR1(word, w, Deletable(w).value);
    }
  }

  lemma NotBothEed(w: string)
    requires EndsWith(w, "eedly")
    ensures !EndsWith(w, "eed")
  {
    SuffixChar(w, "eedly", 4);
    if EndsWith(w, "eed") {
      SuffixChar(w, "eed", 2);
    }
  }
}
