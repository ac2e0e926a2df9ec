/** The stemmer as it works: one word, rewritten in place. */
module Stemmer {
  import opened StemmerText
  import opened StemmerSteps
  import opened Options
  import opened StemmerSafety

  // ---- What trimming means ----

  function Lowered(c: char): char {
    if 'A' <= c <= 'Z' then c - 'A' + 'a' else c
  }

  /** The kept characters of a word, lowered, in their order. */
  function KeptOf(w: string): (kept: string)
    ensures |kept| <= |w| && Trimmed(kept)
  {
    if w == "" then ""
    else
      var c := Lowered(w[|w| - 1]);
      KeptOf(w[..|w| - 1]) + if Kept(c) then [c] else []
  }

  /** A single character: capitals are 32 before their small letters, and nothing but letters and apostrophes is
      kept. */
  lemma KeptOfOne(c: char)
    ensures KeptOf([c]) == if 'a' <= c <= 'z' || c == '\'' then [c]
                           else if 'A' <= c <= 'Z' then [(c as int + 32) as char]
                           else ""
  {
    assert [c][..0] == "";
  }

  lemma {:induction false} KeptOfConcat(a: string, b: string)
    ensures KeptOf(a + b) == KeptOf(a) + KeptOf(b)
  {
    if b == "" {
      assert a + b == a;
    } else {
      assert (a + b)[..|a + b| - 1] == a + b[..|b| - 1];
      KeptOfConcat(a, b[..|b| - 1]);
    }
  }

  // ---- Searches ----

  method FirstNonVowelAfterVowel(w: string, start: nat) returns (r: nat)
    requires start > 0
    ensures r == RegionFrom(w, start)
  {
    var i := start;
    while i != 0 && i < |w|
      invariant start <= i
      invariant RegionFrom(w, i) == RegionFrom(w, start)
      decreases |w| - i
    {
      if !IsVowelY(w[i]) && IsVowelY(w[i - 1]) {
        return i + 1;
      }
      i := i + 1;
    }
    return |w|;
  }

  method VowelWithin(w: string, start: nat, end: nat) returns (found: bool)
    ensures found <==> end <= |w| && exists i :: start <= i < end && IsVowelY(w[i])
  {
    if end <= |w| {
      for i := start to if start <= end then end else start
        invariant forall j :: start <= j < i ==> !IsVowelY(w[j])
      {
        if IsVowelY(w[i]) {
          return true;
        }
      }
    }
    return false;
  }

  method FindR1(w: string) returns (r: nat)
    ensures r == StartR1(w)
  {
    if |w| >= 5 && w[0] == 'g' && w[1] == 'e' && w[2] == 'n' && w[3] == 'e' && w[4] == 'r' {
      assert w[..5] == "gener";
      return 5;
    }
    if |w| >= 6 && w[0] == 'c' && w[1] == 'o' && w[2] == 'm' && w[3] == 'm' && w[4] == 'u' && w[5] == 'n' {
      assert w[..6] == "commun";
      return 6;
    }
    if |w| >= 5 && w[0] == 'a' && w[1] == 'r' && w[2] == 's' && w[3] == 'e' && w[4] == 'n' {
      assert w[..5] == "arsen";
      return 5;
    }
    r := FirstNonVowelAfterVowel(w, 1);
  }

  method FindR2(w: string, r1: nat) returns (r: nat)
    ensures r == StartR2(w, r1)
  {
    if r1 == |w| {
      return r1;
    }
    r := FirstNonVowelAfterVowel(w, r1 + 1);
  }

  // ---- The word under rewriting ----

  class Token {
    var word: string

    constructor (word: string)
      ensures this.word == word
    {
      this.word := word;
    }

    method Trim()
      modifies this
      ensures word == if old(word) == "<s>" || old(word) == "</s>" then old(word) else KeptOf(old(word))
    {
      if word == "<s>" || word == "</s>" {
        return;
      }
      var kept := "";
      for i := 0 to |word|
        invariant word == old(word)
        invariant kept == KeptOf(word[..i])
      {
        assert word[..i + 1][..i] == word[..i];
        var c := Lowered(word[i]);
        if Kept(c) {
          kept := kept + [c];
        }
      }
      assert word[..|word|] == word;
      word := kept;
    }

    /** Each marked y makes the search skip the next letter; nothing is lost by that. */
    method ChangeY()
      requires word != ""
      modifies this
      ensures word == Marked(old(word))
    {
      if word[0] == 'y' {
        word := word[0 := 'Y'];
      }
      var i := 1;
      while i < |word|
        invariant |word| == |old(word)| && 1 <= i <= |word| + 1
        invariant forall j :: 0 <= j < i && j < |word| ==> word[j] == MarkedAt(old(word), j)
        invariant forall j :: i <= j < |word| ==> word[j] == old(word)[j]
      {
        if word[i] == 'y' && IsVowel(word[i - 1]) {
          word := word[i := 'Y'];
          i := i + 1;
        }
        i := i + 1;
      }
    }

    method Unmark()
      modifies this
      ensures word == Unmarked(old(word))
    {
      for i := 0 to |word|
        invariant |word| == |old(word)|
        invariant forall j :: 0 <= j < i ==> word[j] == if old(word)[j] == 'Y' then 'y' else old(word)[j]
        invariant forall j :: i <= j < |word| ==> word[j] == old(word)[j]
      {
        if word[i] == 'Y' {
          word := word[i := 'y'];
        }
      }
    }

    method PopBack()
      requires word != ""
      modifies this
      ensures word == Chop(old(word), 1)
    {
      word := word[..|word| - 1];
    }

    method ReplaceIfExists(suffix: string, replacement: string, start: nat) returns (done: bool)
      modifies this
      ensures done == InRegion(old(word), suffix, start)
      ensures word == if done then Replaced(old(word), suffix, replacement) else old(word)
    {
      if |suffix| > |word| {
        return false;
      }
      var idx := |word| - |suffix|;
      if idx < start {
        return false;
      }
      if word[idx..] == suffix {
        word := word[..idx] + replacement;
        return true;
      }
      return false;
    }

    /** Tries a table's rows in order and stops at the first that applies. */
    method ReplaceFirst(table: Rules, start: nat) returns (done: bool)
      modifies this
      ensures done == ApplyFirst(table, old(word), start).Some?
      ensures word == if done then ApplyFirst(table, old(word), start).value else old(word)
    {
      var rest := table;
      while rest.Row?
        invariant word == old(word)
        invariant ApplyFirst(rest, word, start) == ApplyFirst(table, word, start)
        decreases rest
      {
        done := ReplaceIfExists(rest.suffix, rest.replacement, start);
        if done {
          return;
        }
        rest := rest.rest;
      }
      return false;
    }

    method Step0()
      modifies this
      ensures word == StemmerSteps.Step0(old(word))
    {
      var done := ReplaceIfExists("'s'", "", 0);
      if !done {
        done := ReplaceIfExists("'s", "", 0);
      }
      if !done {
        done := ReplaceIfExists("'", "", 0);
      }
    }

    method Step1A() returns (stop: bool)
      modifies this
      ensures word == StemmerSteps.Step1A(old(word))
      ensures stop == StopsAfter1A(word)
    {
      CutPlural();
      return (|word| == 6 || |word| == 7) && StopsAfter1A(word);
    }

    method CutPlural()
      modifies this
      ensures word == StemmerSteps.Step1A(old(word))
    {
      var done := ReplaceIfExists("sses", "ss", 0);
      if !done {
        if EndsWith(word, "ied") || EndsWith(word, "ies") {
          if |word| <= 4 {
            PopBack();
          } else {
            PopBack();
            PopBack();
          }
        } else if EndsWith(word, "s") && !EndsWith(word, "us") && !EndsWith(word, "ss") {
          if |word| > 2 {
            var vowel := VowelWithin(word, 0, |word| - 2);
            if vowel {
              PopBack();
            }
          }
        }
      }
    }

    /** Deletes `ending` when a vowel stands before `end`, counted from the front. */
    method DeleteAfterVowel(ending: string, end: nat) returns (deleted: bool)
      modifies this
      ensures deleted == (ContainsVowel(old(word), end) && EndsWith(old(word), ending))
      ensures word == if deleted then Chop(old(word), |ending|) else old(word)
    {
      deleted := VowelWithin(word, 0, end);
      if deleted {
        deleted := ReplaceIfExists(ending, "", 0);
      }
    }

    method Step1B(r1: nat)
      modifies this
      ensures word == StemmerSteps.Step1B(old(word), r1)
    {
      if EndsWith(word, "eedly") || EndsWith(word, "eed") {
        var done := ReplaceIfExists("eedly", "ee", r1);
        if !done {
          done := ReplaceIfExists("eed", "ee", r1);
        }
      } else {
        var size := |word|;
        var deleted := DeleteAfterVowel("ed", Minus(size, 2));
        if !deleted {
          deleted := DeleteAfterVowel("edly", Minus(size, 4));
        }
        if !deleted {
          deleted := DeleteAfterVowel("ing", Minus(size, 3));
        }
        if !deleted {
          deleted := DeleteAfterVowel("ingly", Minus(size, 5));
        }
        if deleted {
          Repair(r1);
        }
      }
    }

    method Repair(r1: nat)
      modifies this
      ensures word == Repaired(old(word), r1)
    {
      if EndsWith(word, "at") || EndsWith(word, "bl") || EndsWith(word, "iz") {
        word := word + "e";
      } else if EndsInDouble(word) {
        PopBack();
      } else if r1 == |word| && IsShort(word) {
        word := word + "e";
      }
    }

    method Step1C()
      modifies this
      ensures word == StemmerSteps.Step1C(old(word))
    {
      var size := |word|;
      if size > 2 && (word[size - 1] == 'y' || word[size - 1] == 'Y') {
        if !IsVowel(word[size - 2]) {
          word := word[size - 1 := 'i'];
        }
      }
    }

    method Step2(r1: nat)
      modifies this
      ensures word == StemmerSteps.Step2(old(word), r1)
    {
      var done := ReplaceFirst(STEP2, r1);
      if done {
        return;
      }
      done := ReplaceIfExists("logi", "log", Minus(r1, 1));
      if !done {
        DeleteLi(r1);
      }
    }

    method DeleteLi(r1: nat)
      modifies this
      ensures word == LiDeleted(old(word), r1)
    {
      if EndsWith(word, "li") && !EndsInLongerLi(word) {
        if |word| > 3 && |word| - 2 >= r1 && IsValidLiEnding(word[|word| - 3]) {
          PopBack();
          PopBack();
        }
      }
    }

    method Step3(r1: nat, r2: nat)
      modifies this
      ensures word == StemmerSteps.Step3(old(word), r1, r2)
    {
      var done := ReplaceFirst(STEP3, r1);
      if done {
        return;
      }
      done := ReplaceIfExists("ative", "", r2);
    }

    method Step4(r2: nat)
      modifies this
      ensures word == StemmerSteps.Step4(old(word), r2)
    {
      var done := ReplaceFirst(STEP4, r2);
      if done {
        return;
      }
      if !EndsWith(word, "ement") && !EndsWith(word, "ment") {
        done := ReplaceIfExists("ent", "", r2);
        if done {
          return;
        }
      }
      done := ReplaceIfExists("sion", "s", Minus(r2, 1));
      if !done {
        done := ReplaceIfExists("tion", "t", Minus(r2, 1));
      }
    }

    method Step5(r1: nat, r2: nat)
      requires StemmerSteps.Step5(word, r1, r2).Some?
      modifies this
      ensures Some(word) == StemmerSteps.Step5(old(word), r1, r2)
    {
      var size := |word|;
      if word[size - 1] == 'e' {
        if size - 1 >= r2 {
          PopBack();
        } else if size - 1 >= r1 && !IsShort(word[..size - 1]) {
          PopBack();
        }
      } else if word[size - 1] == 'l' {
        if size - 1 >= r2 && word[size - 2] == 'l' {
          PopBack();
        }
      }
    }

    method Special() returns (found: bool)
      modifies this
      ensures found == Exception(old(word)).Some?
      ensures word == if found then Exception(old(word)).value else old(word)
    {
      if word in EXCEPTIONS {
        word := EXCEPTIONS[word];
        return true;
      }
      return 3 <= |word| <= 5
          && (word == "sky" || word == "news" || word == "howe" || word == "atlas" || word == "cosmos"
              || word == "bias" || word == "andes");
    }

    /** The two excluded words are exactly those for which step 5 would read an emptied string. */
    method Stem()
      requires word != "''s" && word != "''s'"
      modifies this
      ensures Some(word) == StemmerSteps.Stem(old(word))
    {
      StemFaultsExactly(word);
      if |word| <= 2 || word == "<s>" || word == "</s>" {
        return;
      }
      if |word| > 35 {
        word := word[..35];
      }
      if word[0] == '\'' {
        word := word[1..];
      }
      assert word == Prepared(old(word));
      var found := Special();
      if found {
        return;
      }
      ChangeY();
      ghost var run := RunOf(word);
      var r1 := FindR1(word);
      var r2 := FindR2(word, r1);
      Step0();
      var stop := Step1A();
      if stop {
        Unmark();
        return;
      }
      Step1B(r1);
      Step1C();
      Step2(r1);
      Step3(r1, r2);
      Step4(r2);
      assert word == run.w4;
      Step5(r1, r2);
      Unmark();
    }
  }
}
