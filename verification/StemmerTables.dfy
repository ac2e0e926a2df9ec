/** Facts about the spelling of the suffix tables, checked row against row: of two listed suffixes that one word can
    have, the earlier is the longer, by a single leading vowel. One pair of step 2 is different, ization and ation. */
module StemmerTables {
  import opened StemmerText
  import opened StemmerSteps
  import opened Options
  import opened StemmerSafety

  /** The longest suffix of `w` that the table lists, and its replacement. */
  function Longest(rules: Rules, w: string): (best: Option<(string, string)>)
    ensures best.Some? ==> EndsWith(w, best.value.0)
    decreases Length(rules)
  {
    match rules
    case End => None
    case Row(suffix, replacement, rest) =>
      var other := Longest(rest, w);
      if EndsWith(w, suffix) && (other.None? || |other.value.0| <= |suffix|) then Some((suffix, replacement)) else other
  }

  /** `s` cannot be mistaken for `t`: they end differently, or `t` is `s` without a leading vowel. The last
      alternative is the one pair, in step 2, for which neither holds. */
  predicate Apart(s: string, t: string) {
    || (|s| >= 1 && |t| >= 1 && s[|s| - 1] != t[|t| - 1])
    || (|s| >= 2 && |t| >= 2 && s[|s| - 2] != t[|t| - 2])
    || (|s| >= 3 && |t| >= 3 && s[|s| - 3] != t[|t| - 3])
    || (|s| >= 4 && |t| >= 4 && s[|s| - 4] != t[|t| - 4])
    || (|s| >= 5 && |t| >= 5 && s[|s| - 5] != t[|t| - 5])
    || (|s| == |t| + 1 && |t| > 0 && IsVowelY(s[0]))
    || (|s| == 7 && |t| == 5 && s[0] == 'i' && s[1] == 'z' && s[2..] == "ation")
  }

  predicate ApartFromAll(s: string, rules: Rules)
    decreases rules
  {
    match rules
    case End => true
    case Row(t, _, rest) => Apart(s, t) && ApartFromAll(s, rest)
  }

  predicate AllApart(rules: Rules)
    decreases rules
  {
    rules.End? || (ApartFromAll(rules.suffix, rules.rest) && AllApart(rules.rest))
  }

  predicate PartsApart(first: Rules, later: Rules)
    decreases first
  {
    first.End? || (ApartFromAll(first.suffix, later) && PartsApart(first.rest, later))
  }

  /** What that means for one word: of two listed suffixes it has, the later one lies a vowel inside the earlier. */
  predicate Inside(w: string, s: string, t: string) {
    EndsWith(w, s) && EndsWith(w, t) ==>
      || (|s| == |t| + 1 && |t| > 0 && IsVowelY(s[0]))
      || (s == "ization" && |t| == 5)
  }

  predicate AllInside(w: string, s: string, rules: Rules)
    decreases Length(rules)
  {
    rules.End? || (Inside(w, s, rules.suffix) && AllInside(w, s, rules.rest))
  }

  predicate Nested(w: string, rules: Rules)
    decreases Length(rules)
  {
    rules.End? || (AllInside(w, rules.suffix, rules.rest) && Nested(w, rules.rest))
  }

  predicate PartsNested(w: string, first: Rules, later: Rules)
    decreases Length(first)
  {
    first.End? || (AllInside(w, first.suffix, later) && PartsNested(w, first.rest, later))
  }

  lemma SameFromEnd(w: string, s: string, t: string, k: nat)
    requires EndsWith(w, s) && EndsWith(w, t) && 0 < k
    ensures k <= |s| && k <= |t| ==> s[|s| - k] == t[|t| - k]
  {
    if k <= |s| && k <= |t| {
      SuffixChar(w, s, |s| - k);
      SuffixChar(w, t, |t| - k);
    }
  }

  lemma ApartInside(w: string, s: string, t: string)
    requires Apart(s, t)
    ensures Inside(w, s, t)
  {
    if EndsWith(w, s) && EndsWith(w, t) {
      SameFromEnd(w, s, t, 1);
      SameFromEnd(w, s, t, 2);
      SameFromEnd(w, s, t, 3);
      SameFromEnd(w, s, t, 4);
      SameFromEnd(w, s, t, 5);
      assert |s| == 7 && s[0] == 'i' && s[1] == 'z' && s[2..] == "ation" ==> s == "ization";
    }
  }

  lemma {:induction false} RowInside(w: string, s: string, rules: Rules)
    requires ApartFromAll(s, rules)
    ensures AllInside(w, s, rules)
    decreases rules
  {
    if rules.Row? {
      ApartInside(w, s, rules.suffix);
      RowInside(w, s, rules.rest);
    }
  }

  lemma {:induction false} ApartNested(w: string, rules: Rules)
    requires AllApart(rules)
    ensures Nested(w, rules)
    decreases rules
  {
    if rules.Row? {
      RowInside(w, rules.suffix, rules.rest);
      ApartNested(w, rules.rest);
    }
  }

  lemma {:induction false} PartsApartNested(w: string, first: Rules, later: Rules)
    requires PartsApart(first, later)
    ensures PartsNested(w, first, later)
    decreases first
  {
    if first.Row? {
      RowInside(w, first.suffix, later);
      PartsApartNested(w, first.rest, later);
    }
  }

  lemma {:induction false} JoinInside(w: string, s: string, rules: Rules, k: nat)
    requires AllInside(w, s, Take(rules, k)) && AllInside(w, s, Drop(rules, k))
    ensures AllInside(w, s, rules)
    decreases k
  {
    if k > 0 && rules.Row? {
      JoinInside(w, s, rules.rest, k - 1);
    }
  }

  lemma {:induction false} JoinParts(w: string, first: Rules, rules: Rules, k: nat)
    requires PartsNested(w, first, Take(rules, k)) && PartsNested(w, first, Drop(rules, k))
    ensures PartsNested(w, first, rules)
    decreases first
  {
    if first.Row? {
      JoinInside(w, first.suffix, rules, k);
      JoinParts(w, first.rest, rules, k);
    }
  }

  lemma {:induction false} JoinNested(w: string, rules: Rules, k: nat)
    requires Nested(w, Take(rules, k)) && Nested(w, Drop(rules, k)) && PartsNested(w, Take(rules, k), Drop(rules, k))
    ensures Nested(w, rules)
    decreases k
  {
    if k > 0 && rules.Row? {
      JoinInside(w, rules.suffix, rules.rest, k - 1);
      JoinNested(w, rules.rest, k - 1);
    }
  }

  // ---- Suffixes kept outside the tables ----

  /** `s` and `t` differ in one of their last three letters. */
  predicate Unlike(s: string, t: string) {
    || (|s| >= 1 && |t| >= 1 && s[|s| - 1] != t[|t| - 1])
    || (|s| >= 2 && |t| >= 2 && s[|s| - 2] != t[|t| - 2])
    || (|s| >= 3 && |t| >= 3 && s[|s| - 3] != t[|t| - 3])
  }

  /** No listed suffix can be mistaken for `s`, except those named. */
  predicate UnlikeBut(s: string, names: set<string>, rules: Rules)
    decreases rules
  {
    match rules
    case End => true
    case Row(t, _, rest) => (Unlike(s, t) || t in names) && UnlikeBut(s, names, rest)
  }

  predicate BestAmong(w: string, names: set<string>, rules: Rules) {
    Longest(rules, w).Some? ==> Longest(rules, w).value.0 in names
  }

  lemma {:induction false} UnlikeBest(w: string, s: string, names: set<string>, rules: Rules)
    requires UnlikeBut(s, names, rules) && EndsWith(w, s)
    ensures BestAmong(w, names, rules)
    decreases rules
  {
    if rules.Row? {
      if EndsWith(w, rules.suffix) {
        SameFromEnd(w, s, rules.suffix, 1);
        SameFromEnd(w, s, rules.suffix, 2);
        SameFromEnd(w, s, rules.suffix, 3);
      }
      UnlikeBest(w, s, names, rules.rest);
    }
  }

  /** A word that has a listed suffix has a longest one, no shorter; and if it is in the region, some rule applies. */
  lemma {:induction false} Fits(rules: Rules, k: nat, w: string, start: nat)
    requires Drop(rules, k).Row? && EndsWith(w, Drop(rules, k).suffix)
    ensures Longest(rules, w).Some? && |Drop(rules, k).suffix| <= |Longest(rules, w).value.0|
    ensures |w| - |Drop(rules, k).suffix| >= start ==> ApplyFirst(rules, w, start).Some?
    decreases k
  {
    if k > 0 {
      Fits(rules.rest, k - 1, w, start);
    }
  }

  lemma Cuts2()
    ensures STEP2_FROM5 == Drop(STEP2, 4)
    ensures STEP2_FROM9 == Drop(STEP2_FROM5, 4)
    ensures STEP2_FROM13 == Drop(STEP2_FROM9, 4)
    ensures STEP2_FROM16 == Drop(STEP2_FROM13, 3)
    ensures STEP2_FROM19 == Drop(STEP2_FROM16, 3)
  {
  }

  lemma AtiveAlone(w: string)
    requires EndsWith(w, "ative")
    ensures BestAmong(w, {}, STEP3)
  {
    UnlikeBest(w, "ative", {}, STEP3);
  }

  lemma IonAlone(w: string)
    requires EndsWith(w, "ion")
    ensures BestAmong(w, {}, STEP4)
  {
    UnlikeIon();
    UnlikeBest(w, "ion", {}, STEP4);
  }

  lemma UnlikeIon()
    ensures UnlikeBut("ion", {}, STEP4)
  {
    assert UnlikeBut("ion", {}, STEP4_FROM13);
    assert UnlikeBut("ion", {}, STEP4_FROM9);
    assert UnlikeBut("ion", {}, STEP4_FROM5);
  }

  lemma EntInside(w: string)
    requires EndsWith(w, "ent")
    ensures BestAmong(w, {"ement", "ment"}, STEP4)
  {
    UnlikeEnt();
    UnlikeBest(w, "ent", {"ement", "ment"}, STEP4);
  }

  lemma UnlikeEnt()
    ensures UnlikeBut("ent", {"ement", "ment"}, STEP4)
  {
    assert UnlikeBut("ent", {"ement", "ment"}, STEP4_FROM13);
    assert UnlikeBut("ent", {"ement", "ment"}, STEP4_FROM9);
    assert UnlikeBut("ent", {"ement", "ment"}, STEP4_FROM5);
  }

  lemma OgiAlone(w: string)
    requires EndsWith(w, "ogi")
    ensures BestAmong(w, {}, STEP2)
  {
    UnlikeOgi();
    UnlikeBest(w, "ogi", {}, STEP2);
  }

  lemma UnlikeOgi()
    ensures UnlikeBut("ogi", {}, STEP2)
  {
    assert UnlikeBut("ogi", {}, STEP2_FROM19);
    assert UnlikeBut("ogi", {}, STEP2_FROM16);
    assert UnlikeBut("ogi", {}, STEP2_FROM13);
    assert UnlikeBut("ogi", {}, STEP2_FROM9);
    assert UnlikeBut("ogi", {}, STEP2_FROM5);
  }

  const LI_ENDINGS := {"abli", "entli", "alli", "ousli", "bli", "fulli", "lessli"}

  lemma LiInside(w: string)
    requires EndsWith(w, "li")
    ensures BestAmong(w, LI_ENDINGS, STEP2)
  {
    UnlikeLi();
    UnlikeBest(w, "li", LI_ENDINGS, STEP2);
  }

  lemma UnlikeLi()
    ensures UnlikeBut("li", LI_ENDINGS, STEP2)
  {
    assert UnlikeBut("li", LI_ENDINGS, STEP2_FROM19);
    assert UnlikeBut("li", LI_ENDINGS, STEP2_FROM16);
    assert UnlikeBut("li", LI_ENDINGS, STEP2_FROM13);
    assert UnlikeBut("li", LI_ENDINGS, STEP2_FROM9);
    assert UnlikeBut("li", LI_ENDINGS, STEP2_FROM5);
  }

  // The suffixes of the tables are pairwise Apart. Each of these compares the spellings of two parts of a table, or of
  // one with itself; a whole table is too much to compare at once.

  lemma Step2Part1(w: string) ensures Nested(w, Take(STEP2, 4)) { ApartNested(w, Take(STEP2, 4)); }

  lemma Step2Parts12(w: string)
    ensures PartsNested(w, Take(STEP2, 4), Take(STEP2_FROM5, 4))
  {
    PartsApartNested(w, Take(STEP2, 4), Take(STEP2_FROM5, 4));
  }

  lemma Step2Parts13(w: string)
    ensures PartsNested(w, Take(STEP2, 4), Take(STEP2_FROM9, 4))
  {
    PartsApartNested(w, Take(STEP2, 4), Take(STEP2_FROM9, 4));
  }

  lemma Step2Parts14(w: string)
    ensures PartsNested(w, Take(STEP2, 4), Take(STEP2_FROM13, 3))
  {
    PartsApartNested(w, Take(STEP2, 4), Take(STEP2_FROM13, 3));
  }

  lemma Step2Parts15(w: string)
    ensures PartsNested(w, Take(STEP2, 4), Take(STEP2_FROM16, 3))
  {
    PartsApartNested(w, Take(STEP2, 4), Take(STEP2_FROM16, 3));
  }

  lemma Step2Parts16(w: string)
    ensures PartsNested(w, Take(STEP2, 4), STEP2_FROM19)
  {
    PartsApartNested(w, Take(STEP2, 4), STEP2_FROM19);
  }

  lemma Step2Part2(w: string) ensures Nested(w, Take(STEP2_FROM5, 4)) { ApartNested(w, Take(STEP2_FROM5, 4)); }

  lemma Step2Parts23(w: string)
    ensures PartsNested(w, Take(STEP2_FROM5, 4), Take(STEP2_FROM9, 4))
  {
    PartsApartNested(w, Take(STEP2_FROM5, 4), Take(STEP2_FROM9, 4));
  }

  lemma Step2Parts24(w: string)
    ensures PartsNested(w, Take(STEP2_FROM5, 4), Take(STEP2_FROM13, 3))
  {
    PartsApartNested(w, Take(STEP2_FROM5, 4), Take(STEP2_FROM13, 3));
  }

  lemma Step2Parts25(w: string)
    ensures PartsNested(w, Take(STEP2_FROM5, 4), Take(STEP2_FROM16, 3))
  {
    PartsApartNested(w, Take(STEP2_FROM5, 4), Take(STEP2_FROM16, 3));
  }

  lemma Step2Parts26(w: string)
    ensures PartsNested(w, Take(STEP2_FROM5, 4), STEP2_FROM19)
  {
    PartsApartNested(w, Take(STEP2_FROM5, 4), STEP2_FROM19);
  }

  lemma Step2Part3(w: string) ensures Nested(w, Take(STEP2_FROM9, 4)) { ApartNested(w, Take(STEP2_FROM9, 4)); }

  lemma Step2Parts34(w: string)
    ensures PartsNested(w, Take(STEP2_FROM9, 4), Take(STEP2_FROM13, 3))
  {
    PartsApartNested(w, Take(STEP2_FROM9, 4), Take(STEP2_FROM13, 3));
  }

  lemma Step2Parts35(w: string)
    ensures PartsNested(w, Take(STEP2_FROM9, 4), Take(STEP2_FROM16, 3))
  {
    PartsApartNested(w, Take(STEP2_FROM9, 4), Take(STEP2_FROM16, 3));
  }

  lemma Step2Parts36(w: string)
    ensures PartsNested(w, Take(STEP2_FROM9, 4), STEP2_FROM19)
  {
    PartsApartNested(w, Take(STEP2_FROM9, 4), STEP2_FROM19);
  }

  lemma Step2Part4(w: string) ensures Nested(w, Take(STEP2_FROM13, 3)) { ApartNested(w, Take(STEP2_FROM13, 3)); }

  lemma Step2Parts45(w: string)
    ensures PartsNested(w, Take(STEP2_FROM13, 3), Take(STEP2_FROM16, 3))
  {
    PartsApartNested(w, Take(STEP2_FROM13, 3), Take(STEP2_FROM16, 3));
  }

  lemma Step2Parts46(w: string)
    ensures PartsNested(w, Take(STEP2_FROM13, 3), STEP2_FROM19)
  {
    PartsApartNested(w, Take(STEP2_FROM13, 3), STEP2_FROM19);
  }

  lemma Step2Part5(w: string) ensures Nested(w, Take(STEP2_FROM16, 3)) { ApartNested(w, Take(STEP2_FROM16, 3)); }

  lemma Step2Parts56(w: string)
    ensures PartsNested(w, Take(STEP2_FROM16, 3), STEP2_FROM19)
  {
    PartsApartNested(w, Take(STEP2_FROM16, 3), STEP2_FROM19);
  }

  lemma Step2Part6(w: string) ensures Nested(w, STEP2_FROM19) { ApartNested(w, STEP2_FROM19); }

  lemma Step4Part1(w: string) ensures Nested(w, Take(STEP4, 4)) { ApartNested(w, Take(STEP4, 4)); }

  lemma Step4Parts12(w: string)
    ensures PartsNested(w, Take(STEP4, 4), Take(STEP4_FROM5, 4))
  {
    PartsApartNested(w, Take(STEP4, 4), Take(STEP4_FROM5, 4));
  }

  lemma Step4Parts13(w: string)
    ensures PartsNested(w, Take(STEP4, 4), Take(STEP4_FROM9, 4))
  {
    PartsApartNested(w, Take(STEP4, 4), Take(STEP4_FROM9, 4));
  }

  lemma Step4Parts14(w: string)
    ensures PartsNested(w, Take(STEP4, 4), STEP4_FROM13)
  {
    PartsApartNested(w, Take(STEP4, 4), STEP4_FROM13);
  }

  lemma Step4Part2(w: string) ensures Nested(w, Take(STEP4_FROM5, 4)) { ApartNested(w, Take(STEP4_FROM5, 4)); }

  lemma Step4Parts23(w: string)
    ensures PartsNested(w, Take(STEP4_FROM5, 4), Take(STEP4_FROM9, 4))
  {
    PartsApartNested(w, Take(STEP4_FROM5, 4), Take(STEP4_FROM9, 4));
  }

  lemma Step4Parts24(w: string)
    ensures PartsNested(w, Take(STEP4_FROM5, 4), STEP4_FROM13)
  {
    PartsApartNested(w, Take(STEP4_FROM5, 4), STEP4_FROM13);
  }

  lemma Step4Part3(w: string) ensures Nested(w, Take(STEP4_FROM9, 4)) { ApartNested(w, Take(STEP4_FROM9, 4)); }

  lemma Step4Parts34(w: string)
    ensures PartsNested(w, Take(STEP4_FROM9, 4), STEP4_FROM13)
  {
    PartsApartNested(w, Take(STEP4_FROM9, 4), STEP4_FROM13);
  }

  lemma Step4Part4(w: string) ensures Nested(w, STEP4_FROM13) { ApartNested(w, STEP4_FROM13); }

  lemma Step3Nested(w: string) ensures Nested(w, STEP3) { ApartNested(w, STEP3); }

  lemma Step2NestedFrom5(w: string)
    ensures Nested(w, STEP2_FROM16)
  {
    Step2Part6(w);
    Step2Part5(w); Step2Parts56(w);
    JoinNested(w, STEP2_FROM16, 3);
  }

  lemma Step2NestedFrom4(w: string)
    ensures Nested(w, STEP2_FROM13)
  {
    Step2NestedFrom5(w);
    Step2Part4(w); Step2Parts45(w); Step2Parts46(w);
    JoinParts(w, Take(STEP2_FROM13, 3), STEP2_FROM16, 3);
    JoinNested(w, STEP2_FROM13, 3);
  }

  lemma Step2NestedFrom3(w: string)
    ensures Nested(w, STEP2_FROM9)
  {
    Step2NestedFrom4(w);
    Step2Part3(w); Step2Parts34(w); Step2Parts35(w); Step2Parts36(w);
    JoinParts(w, Take(STEP2_FROM9, 4), STEP2_FROM16, 3);
    JoinParts(w, Take(STEP2_FROM9, 4), STEP2_FROM13, 3);
    JoinNested(w, STEP2_FROM9, 4);
  }

  lemma Step2NestedFrom2(w: string)
    ensures Nested(w, STEP2_FROM5)
  {
    Step2NestedFrom3(w);
    Step2Part2(w); Step2Parts23(w); Step2Parts24(w); Step2Parts25(w); Step2Parts26(w);
    JoinParts(w, Take(STEP2_FROM5, 4), STEP2_FROM16, 3);
    JoinParts(w, Take(STEP2_FROM5, 4), STEP2_FROM13, 3);
    JoinParts(w, Take(STEP2_FROM5, 4), STEP2_FROM9, 4);
    JoinNested(w, STEP2_FROM5, 4);
  }

  lemma Step2Nested(w: string)
    ensures Nested(w, STEP2)
  {
    Step2NestedFrom2(w);
    Step2Part1(w); Step2Parts12(w); Step2Parts13(w); Step2Parts14(w); Step2Parts15(w); Step2Parts16(w);
    JoinParts(w, Take(STEP2, 4), STEP2_FROM16, 3);
    JoinParts(w, Take(STEP2, 4), STEP2_FROM13, 3);
    JoinParts(w, Take(STEP2, 4), STEP2_FROM9, 4);
    JoinParts(w, Take(STEP2, 4), STEP2_FROM5, 4);
    JoinNested(w, STEP2, 4);
  }

  lemma Step4NestedFrom3(w: string)
    ensures Nested(w, STEP4_FROM9)
  {
    Step4Part4(w);
    Step4Part3(w); Step4Parts34(w);
    JoinNested(w, STEP4_FROM9, 4);
  }

  lemma Step4NestedFrom2(w: string)
    ensures Nested(w, STEP4_FROM5)
  {
    Step4NestedFrom3(w);
    Step4Part2(w); Step4Parts23(w); Step4Parts24(w);
    JoinParts(w, Take(STEP4_FROM5, 4), STEP4_FROM9, 4);
    JoinNested(w, STEP4_FROM5, 4);
  }

  lemma Step4Nested(w: string)
    ensures Nested(w, STEP4)
  {
    Step4NestedFrom2(w);
    Step4Part1(w); Step4Parts12(w); Step4Parts13(w); Step4Parts14(w);
    JoinParts(w, Take(STEP4, 4), STEP4_FROM9, 4);
    JoinParts(w, Take(STEP4, 4), STEP4_FROM5, 4);
    JoinNested(w, STEP4, 4);
  }
}
