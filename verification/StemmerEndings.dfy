/** Marking and steps 0, 1a, 1c and 5 as they are documented: find the longest of the listed endings, then look at
    what stands before it. The code tries endings in a fixed order under guards of its own. */
module StemmerEndings {
  import opened StemmerText
  import opened StemmerSteps
  import opened Options
  import opened StemmerTables

  // ---- Marking y ----

  /** An initial y, and a y after a vowel, is a consonant; y itself counts as a vowel. */
  function DocumentedMarked(w: string): (m: string)
    ensures |m| == |w|
    ensures forall i :: 0 <= i < |w| ==> m[i] == if w[i] == 'y' && (i == 0 || IsVowelY(w[i - 1])) then 'Y' else w[i]
  {
    seq(|w|, i requires 0 <= i < |w| => if w[i] == 'y' && (i == 0 || IsVowelY(w[i - 1])) then 'Y' else w[i])
  }

  predicate YAfterY(w: string, i: nat) {
    0 < i < |w| && w[i] == 'y' && w[i - 1] == 'y'
  }

  /** The code marks a y only after one of the other five vowels: it differs exactly when a y directly follows a y. */
  lemma MarkedAsDocumented(w: string)
    ensures Marked(w) == DocumentedMarked(w) <==> forall i :: 0 < i < |w| ==> !YAfterY(w, i)
  {
    if i :| 0 < i < |w| && YAfterY(w, i) {
      assert Marked(w)[i] == MarkedAt(w, i) == 'y' && DocumentedMarked(w)[i] == 'Y';
    } else {
      forall i | 0 <= i < |w| ensures Marked(w)[i] == DocumentedMarked(w)[i] {
        assert i > 0 ==> !YAfterY(w, i);
      }
    }
  }

  // ---- Step 0 ----

  const POSSESSIVES: Rules := Row("'", "", Row("'s", "", Row("'s'", "", End)))

  lemma LongestPossessive(w: string)
    ensures Longest(POSSESSIVES, w)
         == if EndsWith(w, "'s'") then Some(("'s'", "")) else if EndsWith(w, "'s") then Some(("'s", ""))
            else if EndsWith(w, "'") then Some(("'", "")) else None
  {
    LetterOf(w, "'s", 1);
    LetterOf(w, "'", 0);
    LetterOf(w, "'s'", 2);
    var last: Rules := Row("'s'", "", End);
    var two: Rules := Row("'s", "", last);
    assert Longest(End, w) == None;
    assert Longest(last, w) == if EndsWith(w, "'s'") then Some(("'s'", "")) else None;
    assert Longest(two, w)
        == if EndsWith(w, "'s'") then Some(("'s'", "")) else if EndsWith(w, "'s") then Some(("'s", "")) else None;
  }

  /** Step 0: the longest possessive ending goes. */
  function DocumentedStep0(w: string): string {
    match Longest(POSSESSIVES, w)
    case None => w
    case Some(ending) => Chop(w, |ending.0|)
  }

  lemma Step0AsDocumented(w: string)
    ensures Step0(w) == DocumentedStep0(w)
  {
    LongestPossessive(w);
  }

  // ---- Step 1a ----

  const PLURALS: Rules := Row("sses", "ss", Row("ied", "i", Row("ies", "i", Row("us", "us", LAST_PLURALS))))

  const LAST_PLURALS: Rules := Row("ss", "ss", Row("s", "", End))

  /** Step 1a: the longest of the endings decides. ied and ies leave ie after a single letter; a plain s goes if a vowel
      stands before it, but not only right before it. */
  function DocumentedStep1A(w: string): string {
    WithoutPlural(w, Longest(PLURALS, w))
  }

  function WithoutPlural(w: string, longest: Option<(string, string)>): string
    requires longest.Some? ==> EndsWith(w, longest.value.0)
  {
    match longest
    case None => w
    case Some(ending) =>
      var p := Chop(w, |ending.0|);
      if ending.0 == "ied" || ending.0 == "ies" then p + (if |p| > 1 then "i" else "ie")
      else if ending.0 == "s" then if p != "" && HasVowel(Chop(p, 1)) then p else w
      else p + ending.1
  }

  lemma PluralLetters(w: string)
    ensures EndsWith(w, "ss") || EndsWith(w, "us") || EndsWith(w, "ies") ==> EndsWith(w, "s")
    ensures EndsWith(w, "sses") ==> w[|w| - 2] == 'e' && w[|w| - 3] == 's'
    ensures EndsWith(w, "ies") ==> w[|w| - 2] == 'e' && w[|w| - 3] == 'i'
    ensures EndsWith(w, "ied") ==> w[|w| - 1] == 'd'
    ensures EndsWith(w, "us") ==> w[|w| - 2] == 'u'
    ensures EndsWith(w, "ss") ==> w[|w| - 2] == 's'
    ensures EndsWith(w, "s") ==> w[|w| - 1] == 's'
  {
  }

  lemma LongestLastPlural(w: string)
    ensures Longest(LAST_PLURALS, w)
         == if EndsWith(w, "ss") then Some(("ss", "ss")) else if EndsWith(w, "s") then Some(("s", "")) else None
  {
    var last: Rules := Row("s", "", End);
    assert Longest(End, w) == None;
    assert Longest(last, w) == if EndsWith(w, "s") then Some(("s", "")) else None;
  }

  lemma LongestPlural(w: string)
    ensures Longest(PLURALS, w)
         == if EndsWith(w, "sses") then Some(("sses", "ss"))
            else if EndsWith(w, "ied") then Some(("ied", "i")) else if EndsWith(w, "ies") then Some(("ies", "i"))
            else if EndsWith(w, "us") then Some(("us", "us")) else Longest(LAST_PLURALS, w)
  {
    PluralLetters(w);
    LongestLastPlural(w);
    var us: Rules := Row("us", "us", LAST_PLURALS);
    var ies: Rules := Row("ies", "i", us);
    var ied: Rules := Row("ied", "i", ies);
    assert Longest(us, w) == if EndsWith(w, "us") then Some(("us", "us")) else Longest(LAST_PLURALS, w);
    assert Longest(ies, w) == if EndsWith(w, "ies") then Some(("ies", "i")) else Longest(us, w);
    assert Longest(ied, w) == if EndsWith(w, "ied") then Some(("ied", "i")) else Longest(ies, w);
  }

  lemma IedReplaced(w: string)
    requires EndsWith(w, "ied") || EndsWith(w, "ies")
    ensures Chop(w, if |w| <= 4 then 1 else 2) == Chop(w, 3) + if |Chop(w, 3)| > 1 then "i" else "ie"
  {
    LetterOf(w, "ied", 0);
    LetterOf(w, "ied", 1);
    LetterOf(w, "ies", 0);
    LetterOf(w, "ies", 1);
  }

  /** Vowels in the first |w| - 2 letters of w + s. */
  lemma VowelNotLast(w: string)
    requires EndsWith(w, "s")
    ensures |w| > 2 && ContainsVowel(w, |w| - 2) <==> Chop(w, 1) != "" && HasVowel(Chop(Chop(w, 1), 1))
  {
    if Chop(w, 1) != "" {
      assert Chop(Chop(w, 1), 1) == w[..|w| - 2];
    }
  }

  lemma LongPluralAsDocumented(w: string)
    requires EndsWith(w, "sses") || EndsWith(w, "ied") || EndsWith(w, "ies")
    ensures Step1A(w) == DocumentedStep1A(w)
  {
    LongestPlural(w);
    if !EndsWith(w, "sses") {
      IedReplaced(w);
    }
  }

  predicate NoLongPlural(w: string) {
    !EndsWith(w, "sses") && !EndsWith(w, "ied") && !EndsWith(w, "ies")
  }

  lemma KeptPlural(w: string)
    requires NoLongPlural(w) && (EndsWith(w, "us") || EndsWith(w, "ss"))
    ensures Step1A(w) == DocumentedStep1A(w)
  {
    KeptByDocument(w);
  }

  lemma KeptByDocument(w: string)
    requires NoLongPlural(w) && (EndsWith(w, "us") || EndsWith(w, "ss"))
    ensures DocumentedStep1A(w) == w
  {
    LongestPlural(w);
    LongestLastPlural(w);
    PutBack(w, if EndsWith(w, "us") then "us" else "ss");
  }

  lemma PutBack(w: string, ending: string)
    requires EndsWith(w, ending) && ending != "ied" && ending != "ies" && ending != "s"
    ensures WithoutPlural(w, Some((ending, ending))) == w
  {
  }

  lemma PlainPlural(w: string)
    requires NoLongPlural(w) && !EndsWith(w, "us") && !EndsWith(w, "ss") && EndsWith(w, "s")
    ensures Step1A(w) == DocumentedStep1A(w)
  {
    LongestPlural(w);
    LongestLastPlural(w);
    VowelNotLast(w);
  }

  lemma NoPlural(w: string)
    requires NoLongPlural(w) && !EndsWith(w, "us") && !EndsWith(w, "ss") && !EndsWith(w, "s")
    ensures Step1A(w) == w == DocumentedStep1A(w)
  {
    LongestPlural(w);
    LongestLastPlural(w);
  }

  /** Step 1a is its documented reading for every word. */
  lemma Step1AAsDocumented(w: string)
    ensures Step1A(w) == DocumentedStep1A(w)
  {
    if !NoLongPlural(w) {
      LongPluralAsDocumented(w);
    } else if EndsWith(w, "us") || EndsWith(w, "ss") {
      KeptPlural(w);
    } else if EndsWith(w, "s") {
      PlainPlural(w);
    } else {
      NoPlural(w);
    }
  }

  // ---- Step 1c ----

  /** Step 1c: a final y becomes i after a non-vowel that does not begin the word; y itself counts as a vowel. */
  function DocumentedStep1C(w: string): string {
    if |w| > 2 && w[|w| - 1] in {'y', 'Y'} && !IsVowelY(w[|w| - 2]) then Chop(w, 1) + "i" else w
  }

  predicate YBeforeLastY(w: string) {
    |w| > 2 && w[|w| - 1] in {'y', 'Y'} && w[|w| - 2] == 'y'
  }

  /** The code counts a y before the final y as a non-vowel; only there does it differ. */
  lemma Step1CAsDocumented(w: string)
    ensures Step1C(w) == DocumentedStep1C(w) <==> !YBeforeLastY(w)
  {
    if |w| > 2 && w[|w| - 1] in {'y', 'Y'} {
      assert w[|w| - 1 := 'i'] == Chop(w, 1) + "i";
      assert w[|w| - 1 := 'i'][|w| - 1] == 'i';
    }
  }

  // ---- Step 5 ----

  const LAST_LETTERS: Rules := Row("e", "", Row("l", "", End))

  /** Step 5: a final e goes if it is in R2, or in R1 and not after a short syllable; a final l if it is in R2 and
      after another l. */
  function DocumentedStep5(w: string, r1: nat, r2: nat): string {
    match Longest(LAST_LETTERS, w)
    case None => w
    case Some(ending) =>
      var p := Chop(w, 1);
      if |p| >= r2 && (ending.0 == "l" ==> EndsWith(p, "l")) then p
      else if ending.0 == "e" && |p| >= r1 && !IsShort(p) then p
      else w
  }

  lemma LongestLast(w: string)
    ensures Longest(LAST_LETTERS, w)
         == if EndsWith(w, "e") then Some(("e", "")) else if EndsWith(w, "l") then Some(("l", "")) else None
  {
    LetterOf(w, "e", 0);
    LetterOf(w, "l", 0);
    var l: Rules := Row("l", "", End);
    assert Longest(End, w) == None;
    assert Longest(l, w) == if EndsWith(w, "l") then Some(("l", "")) else None;
  }

  lemma LastLetter(w: string, c: char)
    requires w != ""
    ensures EndsWith(w, [c]) <==> w[|w| - 1] == c
  {
    assert w[|w| - 1..] == [w[|w| - 1]];
  }

  lemma FinalL(w: string, r1: nat, r2: nat)
    requires w != "" && w[|w| - 1] == 'l'
    ensures Step5(w, r1, r2) == if w == "l" && r2 == 0 then None else Some(DocumentedStep5(w, r1, r2))
  {
    LongestLast(w);
    LastLetter(w, 'e');
    LastLetter(w, 'l');
    if |w| > 1 {
      LastLetter(Chop(w, 1), 'l');
    }
  }

  lemma NoFinalL(w: string, r1: nat, r2: nat)
    requires w != "" && w[|w| - 1] != 'l'
    ensures Step5(w, r1, r2) == Some(DocumentedStep5(w, r1, r2))
  {
    LongestLast(w);
    LastLetter(w, 'e');
    LastLetter(w, 'l');
  }

  /** Step 5 is its documented reading except where it reads outside the word: the empty word, and l alone in R2. */
  lemma Step5AsDocumented(w: string, r1: nat, r2: nat)
    ensures Step5(w, r1, r2) == if w == "" || (w == "l" && r2 == 0) then None else Some(DocumentedStep5(w, r1, r2))
  {
    if w != "" {
      if w[|w| - 1] == 'l' {
        FinalL(w, r1, r2);
      } else {
        NoFinalL(w, r1, r2);
      }
    }
  }
}
