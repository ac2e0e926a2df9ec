/**
 * The English (Porter2) stemmer as it is described: in the description's own words, with its letters, endings and word
 * lists spelled out. Nothing here is shared with the stemmer that is compared with it.
 */
module Porter2 {
  import opened Options

  // ---- Letters ----

  predicate Vowel(c: char) {
    c in {'a', 'e', 'i', 'o', 'u', 'y'}
  }

  predicate PlainVowel(c: char) {
    c in {'a', 'e', 'i', 'o', 'u'}
  }

  /** Which letters count as vowels in front of a y. In the description all vowels do: `Vowel`. */
  type BeforeY = char -> bool

  const DOUBLES: set<string> := {"bb", "dd", "ff", "gg", "mm", "nn", "pp", "rr", "tt"}

  const LI_LETTERS: set<char> := {'c', 'd', 'e', 'g', 'h', 'k', 'm', 'n', 'r', 't'}

  predicate HasVowel(w: string) {
    exists i :: 0 <= i < |w| && Vowel(w[i])
  }

  /** An initial y, and a y after a vowel, is a consonant and is written Y. */
  function Mark(w: string, vowel: BeforeY): (m: string)
    ensures |m| == |w|
  {
    seq(|w|, i requires 0 <= i < |w| => if w[i] == 'y' && (i == 0 || vowel(w[i - 1])) then 'Y' else w[i])
  }

  function Unmark(w: string): (u: string)
    ensures |u| == |w|
  {
    seq(|w|, i requires 0 <= i < |w| => if w[i] == 'Y' then 'y' else w[i])
  }

  // ---- Regions ----

  /** What follows the first non-vowel after a vowel begins here; nothing does if there is none. */
  function Region(w: string): nat {
    if |w| < 2 then |w| else if Vowel(w[0]) && !Vowel(w[1]) then 2 else 1 + Region(w[1..])
  }

  function R1(w: string): nat {
    if "gener" <= w || "arsen" <= w then 5 else if "commun" <= w then 6 else Region(w)
  }

  function R2(w: string): nat {
    if R1(w) <= |w| then R1(w) + Region(w[R1(w)..]) else |w|
  }

  // ---- Short syllables ----

  /** A vowel between non-vowels, the last of them not w, x or Y; or a vowel and a non-vowel that are the whole word. */
  predicate EndsShort(w: string) {
    var n := |w|;
    || (n == 2 && Vowel(w[0]) && !Vowel(w[1]))
    || (n > 2 && !Vowel(w[n - 3]) && Vowel(w[n - 2]) && !Vowel(w[n - 1]) && w[n - 1] !in {'w', 'x', 'Y'})
  }

  // ---- The longest ending ----

  predicate Ends(w: string, s: string) {
    |s| <= |w| && w[|w| - |s|..] == s
  }

  /** What a list makes of an ending, or None if the ending is not listed. */
  type List = string -> Option<string>

  /** Where the longest listed ending begins, from place `i` on. */
  function Longest(list: List, w: string, i: nat): (at: Option<nat>)
    requires i <= |w|
    ensures at.Some? ==> i <= at.value <= |w| && list(w[at.value..]).Some?
    decreases |w| - i
  {
    if list(w[i..]).Some? then Some(i) else if i == |w| then None else Longest(list, w, i + 1)
  }

  // ---- The steps ----

  function Possessives(s: string): Option<string> {
    if s == "'" || s == "'s" || s == "'s'" then Some("") else None
  }

  /** Step 0 removes the longest possessive ending. */
  function Step0(w: string): string {
    match Longest(Possessives, w, 0)
    case None => w
    case Some(i) => w[..i]
  }

  function Plurals(s: string): Option<string> {
    if s == "sses" then Some("ss")
    else if s == "ied" || s == "ies" then Some("i")
    else if s == "us" || s == "ss" then Some(s)
    else if s == "s" then Some("")
    else None
  }

  /** After a single letter ied and ies leave ie; an s needs a vowel before it that is not right before it. */
  function Singular(p: string, s: string): string
    requires Plurals(s).Some?
  {
    if (s == "ied" || s == "ies") && |p| <= 1 then p + "ie"
    else if s == "s" && !(p != "" && HasVowel(p[..|p| - 1])) then p + s
    else p + Plurals(s).value
  }

  /** Step 1a: the longest of the endings decides. */
  function Step1A(w: string): string {
    match Longest(Plurals, w, 0)
    case None => w
    case Some(i) => Singular(w[..i], w[i..])
  }

  predicate StopsAfter1A(w: string) {
    w in {"inning", "outing", "canning", "herring", "earring", "proceed", "exceed", "succeed"}
  }

  function PastEndings(s: string): Option<string> {
    if s == "eed" || s == "eedly" then Some("ee")
    else if s == "ed" || s == "edly" || s == "ing" || s == "ingly" then Some("")
    else None
  }

  /** What step 1b does after a deletion; a word is short if it ends in a short syllable and R1 is empty. */
  function Mend(p: string, r1: nat): string {
    if Ends(p, "at") || Ends(p, "bl") || Ends(p, "iz") then p + "e"
    else if |p| >= 2 && p[|p| - 2..] in DOUBLES then p[..|p| - 1]
    else if EndsShort(p) && |p| <= r1 then p + "e"
    else p
  }

  /** eed and eedly need R1, the others a vowel before them. */
  function PastGone(p: string, s: string, r1: nat): string {
    if s == "eed" || s == "eedly" then p + (if |p| >= r1 then "ee" else s)
    else if HasVowel(p) then Mend(p, r1)
    else p + s
  }

  /** Step 1b: the longest of the endings decides. */
  function Step1B(w: string, r1: nat): string {
    match Longest(PastEndings, w, 0)
    case None => w
    case Some(i) => PastGone(w[..i], w[i..], r1)
  }

  /** Step 1c: y becomes i after a non-vowel that does not begin the word. */
  function Step1C(w: string, vowel: BeforeY): string {
    if |w| > 2 && (Ends(w, "y") || Ends(w, "Y")) && !vowel(w[|w| - 2]) then w[..|w| - 1] + "i" else w
  }

  function List2(s: string): Option<string> {
    if s == "tional" then Some("tion")
    else if s == "enci" then Some("ence")
    else if s == "anci" then Some("ance")
    else if s == "abli" then Some("able")
    else if s == "entli" then Some("ent")
    else if s == "izer" || s == "ization" then Some("ize")
    else if s == "ational" || s == "ation" || s == "ator" then Some("ate")
    else if s == "alism" || s == "aliti" || s == "alli" then Some("al")
    else if s == "fulness" then Some("ful")
    else if s == "ousli" || s == "ousness" then Some("ous")
    else if s == "iveness" || s == "iviti" then Some("ive")
    else if s == "biliti" || s == "bli" then Some("ble")
    else if s == "ogi" then Some("og")
    else if s == "fulli" then Some("ful")
    else if s == "lessli" then Some("less")
    else if s == "li" then Some("")
    else None
  }

  /** Step 2, in R1: ogi only after l, li only after a letter that allows it. */
  function Step2(w: string, r1: nat): string {
    match Longest(List2, w, 0)
    case None => w
    case Some(i) =>
      if i < r1 then w
      else if w[i..] == "ogi" && !(i > 0 && w[i - 1] == 'l') then w
      else if w[i..] == "li" && !(i > 0 && w[i - 1] in LI_LETTERS) then w
      else w[..i] + List2(w[i..]).value
  }

  function List3(s: string): Option<string> {
    if s == "ational" then Some("ate")
    else if s == "tional" then Some("tion")
    else if s == "alize" then Some("al")
    else if s == "icate" || s == "iciti" || s == "ical" then Some("ic")
    else if s == "ful" || s == "ness" || s == "ative" then Some("")
    else None
  }

  /** Step 3, in R1, and for ative in R2. */
  function Step3(w: string, r1: nat, r2: nat): string {
    match Longest(List3, w, 0)
    case None => w
    case Some(i) => if i < (if w[i..] == "ative" then r2 else r1) then w else w[..i] + List3(w[i..]).value
  }

  function List4(s: string): Option<string> {
    if || s == "al" || s == "ance" || s == "ence" || s == "er" || s == "ic" || s == "able" || s == "ible" || s == "ant"
       || s == "ement" || s == "ment" || s == "ent" || s == "ism" || s == "ate" || s == "iti" || s == "ous"
       || s == "ive" || s == "ize" || s == "ion"
    then Some("") else None
  }

  /** Step 4, in R2: ion only after s or t. */
  function Step4(w: string, r2: nat): string {
    match Longest(List4, w, 0)
    case None => w
    case Some(i) =>
      if i < r2 || (w[i..] == "ion" && !(i > 0 && (w[i - 1] == 's' || w[i - 1] == 't'))) then w else w[..i]
  }

  /** Step 5: e in R2, or in R1 and not after a short syllable; l in R2 and after l. */
  function Step5(w: string, r1: nat, r2: nat): string {
    if w == "" then w
    else
      var p := w[..|w| - 1];
      if Ends(w, "e") && (|p| >= r2 || (|p| >= r1 && !EndsShort(p))) then p
      else if Ends(w, "ll") && |p| >= r2 then p
      else w
  }

  // ---- The whole ----

  function Special(w: string): Option<string> {
    if w == "skis" then Some("ski")
    else if w == "skies" then Some("sky")
    else if w == "dying" then Some("die")
    else if w == "lying" then Some("lie")
    else if w == "tying" then Some("tie")
    else if w == "idly" then Some("idl")
    else if w == "gently" then Some("gentl")
    else if w == "ugly" then Some("ugli")
    else if w == "early" then Some("earli")
    else if w == "only" then Some("onli")
    else if w == "singly" then Some("singl")
    else if || w == "sky" || w == "news" || w == "howe" || w == "atlas" || w == "cosmos" || w == "bias"
            || w == "andes"
    then Some(w)
    else None
  }

  function AfterStep1A(w: string, r1: nat, r2: nat, vowel: BeforeY): string {
    Step5(Step4(Step3(Step2(Step1C(Step1B(w, r1), vowel), r1), r1, r2), r2), r1, r2)
  }

  function StemMarked(w: string, vowel: BeforeY): string {
    var w1a := Step1A(Step0(w));
    Unmark(if StopsAfter1A(w1a) then w1a else AfterStep1A(w1a, R1(w), R2(w), vowel))
  }

  /** Words are cut to 35 letters, and a leading apostrophe is dropped. */
  function Cut(w: string): string {
    var c := if |w| <= 35 then w else w[..35];
    if "'" <= c then c[1..] else c
  }

  function Stem(w: string, vowel: BeforeY): string {
    if |w| <= 2 || w == "<s>" || w == "</s>" then w
    else
      match Special(Cut(w))
      case Some(stem) => stem
      case None => StemMarked(Mark(Cut(w), vowel), vowel)
  }
}
