/** Letters, suffixes and regions: what every step of the stemmer is written in. */
module StemmerText {
  const SIZE_MODULUS: nat := 0x1_0000_0000_0000_0000

  /** Subtraction of unsigned sizes: it wraps when the result would be negative. */
  function Minus(a: nat, b: nat): nat {
    if b <= a then a - b else if b - a <= SIZE_MODULUS then SIZE_MODULUS - (b - a) else 0
  }

  predicate IsVowel(c: char) {
    c == 'e' || c == 'a' || c == 'i' || c == 'o' || c == 'u'
  }

  predicate IsVowelY(c: char) {
    IsVowel(c) || c == 'y'
  }

  /** The characters that trimming keeps. */
  predicate Kept(c: char) {
    'a' <= c <= 'z' || c == '\''
  }

  predicate Trimmed(w: string) {
    forall i :: 0 <= i < |w| ==> Kept(w[i])
  }

  predicate IsValidLiEnding(c: char) {
    c in "cdeghkmnrt"
  }

  predicate EndsWith(w: string, suffix: string) {
    |suffix| <= |w| && w[|w| - |suffix|..] == suffix
  }

  /** Whether a suffix is there and starts no earlier than `start`. */
  predicate InRegion(w: string, suffix: string, start: nat) {
    EndsWith(w, suffix) && |w| - |suffix| >= start
  }

  function Replaced(w: string, suffix: string, replacement: string): string
    requires EndsWith(w, suffix)
  {
    w[..|w| - |suffix|] + replacement
  }

  predicate ContainsVowel(w: string, end: nat) {
    end <= |w| && exists i :: 0 <= i < end && IsVowelY(w[i])
  }

  predicate HasVowel(w: string) {
    exists i :: 0 <= i < |w| && IsVowelY(w[i])
  }

  predicate EndsInDouble(w: string) {
    |w| >= 2 && w[|w| - 1] == w[|w| - 2] && w[|w| - 1] in "bdfgmnprt"
  }

  predicate IsShort(w: string) {
    var n := |w|;
    || (n >= 3 && !IsVowelY(w[n - 3]) && IsVowelY(w[n - 2]) && !IsVowelY(w[n - 1])
        && w[n - 1] != 'w' && w[n - 1] != 'x' && w[n - 1] != 'Y')
    || (n == 2 && IsVowelY(w[0]) && !IsVowelY(w[1]))
  }

  // ---- Regions ----

  /** A non-vowel right after a vowel. */
  predicate VowelThenNon(w: string, i: nat) {
    0 < i < |w| && IsVowelY(w[i - 1]) && !IsVowelY(w[i])
  }

  function RegionFrom(w: string, start: nat): (r: nat)
    requires start > 0
    ensures r <= |w|
    decreases |w| - start
  {
    if start >= |w| then |w| else if VowelThenNon(w, start) then start + 1 else RegionFrom(w, start + 1)
  }

  function StartR1(w: string): (r: nat)
    ensures r <= |w|
  {
    if "gener" <= w || "arsen" <= w then 5 else if "commun" <= w then 6 else RegionFrom(w, 1)
  }

  function StartR2(w: string, r1: nat): nat {
    if r1 == |w| then r1 else RegionFrom(w, r1 + 1)
  }

  /** The search returns just past the first vowel/non-vowel pair, or the end of the word when there is none. */
  lemma {:induction false} RegionIsFirst(w: string, start: nat)
    requires start > 0
    ensures forall i :: start <= i < RegionFrom(w, start) - 1 ==> !VowelThenNon(w, i)
    ensures || (start < RegionFrom(w, start) <= |w| && VowelThenNon(w, RegionFrom(w, start) - 1))
            || (RegionFrom(w, start) == |w| && forall i :: start <= i ==> !VowelThenNon(w, i))
    decreases |w| - start
  {
    if start < |w| && !VowelThenNon(w, start) {
      RegionIsFirst(w, start + 1);
    }
  }

  /** Searching a word from the middle is searching its remainder from the front. */
  lemma {:induction false} RegionOfSuffix(w: string, from: nat, start: nat)
    requires from <= |w| && start > 0
    ensures RegionFrom(w, from + start) == from + RegionFrom(w[from..], start)
    decreases |w| - start
  {
    if from + start < |w| {
      assert VowelThenNon(w, from + start) <==> VowelThenNon(w[from..], start);
      RegionOfSuffix(w, from, start + 1);
    }
  }

  /** R2 relates to R1 exactly as R1 relates to the word. */
  lemma RegionsNest(w: string)
    ensures StartR2(w, StartR1(w)) == StartR1(w) + RegionFrom(w[StartR1(w)..], 1)
    ensures StartR1(w) <= StartR2(w, StartR1(w)) <= |w|
  {
    var r1 := StartR1(w);
    RegionIsFirst(w, 1);
    if r1 < |w| {
      RegionOfSuffix(w, r1, 1);
      RegionIsFirst(w, r1 + 1);
    }
  }

  /** A region never starts right after a vowel, as long as something of it is left. */
  predicate Boundary(w: string, r: nat) {
    |w| > r ==> r > 0 && !IsVowelY(w[r - 1])
  }

  lemma RegionBoundaries(w: string)
    ensures Boundary(w, StartR1(w))
    ensures Boundary(w, StartR2(w, StartR1(w)))
    ensures |w| >= 2 ==> StartR1(w) >= 2
  {
    RegionIsFirst(w, 1);
    RegionsNest(w);
    RegionIsFirst(w, StartR1(w) + 1);
  }

  // ---- Marking y ----

  /** Which y count as consonants: an initial one, and one after a vowel. */
  function MarkedAt(w: string, i: nat): char
    requires i < |w|
  {
    if w[i] == 'y' && (i == 0 || IsVowel(w[i - 1])) then 'Y' else w[i]
  }

  /** All such y marked at once, each judged by the original word. */
  function Marked(w: string): (m: string)
    ensures |m| == |w|
    ensures forall i :: 0 <= i < |w| ==> m[i] == MarkedAt(w, i)
  {
    seq(|w|, i requires 0 <= i < |w| => MarkedAt(w, i))
  }

  function Unmarked(w: string): (u: string)
    ensures |u| == |w|
    ensures forall i :: 0 <= i < |w| ==> u[i] == if w[i] == 'Y' then 'y' else w[i]
  {
    seq(|w|, i requires 0 <= i < |w| => if w[i] == 'Y' then 'y' else w[i])
  }

  // ---- Suffixes of suffixes ----

  lemma SuffixChar(w: string, suffix: string, k: nat)
    requires EndsWith(w, suffix) && k < |suffix|
    ensures w[|w| - |suffix| + k] == suffix[k]
  {
    assert w[|w| - |suffix|..][k] == suffix[k];
  }

  lemma LetterOf(w: string, suffix: string, k: nat)
    requires k < |suffix|
    ensures EndsWith(w, suffix) ==> w[|w| - |suffix| + k] == suffix[k]
  {
    if EndsWith(w, suffix) {
      SuffixChar(w, suffix, k);
    }
  }
}
