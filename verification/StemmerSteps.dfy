/** What each step of the stemmer does to a word, branch by branch. */
module StemmerSteps {
  import opened StemmerText
  import opened Options

  /** A table of suffixes and what replaces them, in the order they are tried. */
  datatype Rules = End | Row(suffix: string, replacement: string, rest: Rules)

  function Length(rules: Rules): nat {
    if rules.End? then 0 else 1 + Length(rules.rest)
  }

  // The longer tables are named again part-way, where the proofs about them cut them.

  const STEP2: Rules :=
    Row("ational", "ate", Row("tional", "tion", Row("enci", "ence", Row("anci", "ance", STEP2_FROM5))))

  const STEP2_FROM5: Rules :=
    Row("abli", "able", Row("entli", "ent", Row("izer", "ize", Row("ization", "ize", STEP2_FROM9))))

  const STEP2_FROM9: Rules :=
    Row("ation", "ate", Row("ator", "ate", Row("alism", "al", Row("aliti", "al", STEP2_FROM13))))

  const STEP2_FROM13: Rules :=
    Row("alli", "al", Row("fulness", "ful", Row("ousli", "ous", STEP2_FROM16)))

  const STEP2_FROM16: Rules :=
    Row("ousness", "ous", Row("iveness", "ive", Row("iviti", "ive", STEP2_FROM19)))

  const STEP2_FROM19: Rules :=
    Row("biliti", "ble", Row("bli", "ble", Row("fulli", "ful", Row("lessli", "less", End))))

  const STEP3: Rules :=
    Row("ational", "ate", Row("tional", "tion", Row("alize", "al", Row("icate", "ic", Row("iciti", "ic",
    Row("ical", "ic", Row("ful", "", Row("ness", "", End))))))))

  const STEP4: Rules :=
    Row("al", "", Row("ance", "", Row("ence", "", Row("er", "", STEP4_FROM5))))

  const STEP4_FROM5: Rules :=
    Row("ic", "", Row("able", "", Row("ible", "", Row("ant", "", STEP4_FROM9))))

  const STEP4_FROM9: Rules :=
    Row("ement", "", Row("ment", "", Row("ism", "", Row("ate", "", STEP4_FROM13))))

  const STEP4_FROM13: Rules :=
    Row("iti", "", Row("ous", "", Row("ive", "", Row("ize", "", End))))

  /** The first rule in table order whose suffix is there and far enough to the right. */
  function ApplyFirst(rules: Rules, w: string, start: nat): Option<string>
    decreases Length(rules)
  {
    match rules
    case End => None
    case Row(suffix, replacement, rest) =>
      if InRegion(w, suffix, start) then Some(Replaced(w, suffix, replacement)) else ApplyFirst(rest, w, start)
  }

  function Chop(w: string, k: nat): string
    requires k <= |w|
  {
    w[..|w| - k]
  }

  function Step0(w: string): string {
    if EndsWith(w, "'s'") then Chop(w, 3) else if EndsWith(w, "'s") then Chop(w, 2)
    else if EndsWith(w, "'") then Chop(w, 1) else w
  }

  function Step1A(w: string): string {
    if EndsWith(w, "sses") then Replaced(w, "sses", "ss")
    else if EndsWith(w, "ied") || EndsWith(w, "ies") then Chop(w, if |w| <= 4 then 1 else 2)
    else if EndsWith(w, "s") && !EndsWith(w, "us") && !EndsWith(w, "ss") && |w| > 2 && ContainsVowel(w, |w| - 2)
    then Chop(w, 1)
    else w
  }

  /** The words that stop the run after step 1a. */
  predicate StopsAfter1A(w: string) {
    w == "inning" || w == "outing" || w == "canning" || w == "herring" || w == "earring"
    || w == "proceed" || w == "exceed" || w == "succeed"
  }

  /** Which ending step 1b deletes, tried in this order; sizes wrap as unsigned numbers do. */
  function Deletable(w: string): Option<string> {
    if ContainsVowel(w, Minus(|w|, 2)) && EndsWith(w, "ed") then Some("ed")
    else if ContainsVowel(w, Minus(|w|, 4)) && EndsWith(w, "edly") then Some("edly")
    else if ContainsVowel(w, Minus(|w|, 3)) && EndsWith(w, "ing") then Some("ing")
    else if ContainsVowel(w, Minus(|w|, 5)) && EndsWith(w, "ingly") then Some("ingly")
    else None
  }

  function Repaired(w: string, r1: nat): string {
    if EndsWith(w, "at") || EndsWith(w, "bl") || EndsWith(w, "iz") then w + "e"
    else if EndsInDouble(w) then Chop(w, 1)
    else if r1 == |w| && IsShort(w) then w + "e"
    else w
  }

  function Step1B(w: string, r1: nat): string {
    if EndsWith(w, "eedly") || EndsWith(w, "eed") then
      if InRegion(w, "eedly", r1) then Replaced(w, "eedly", "ee")
      else if InRegion(w, "eed", r1) then Replaced(w, "eed", "ee")
      else w
    else
      match Deletable(w)
      case None => w
      case Some(ending) => Repaired(Chop(w, |ending|), r1)
  }

  function Step1C(w: string): string {
    if |w| > 2 && (w[|w| - 1] == 'y' || w[|w| - 1] == 'Y') && !IsVowel(w[|w| - 2]) then w[|w| - 1 := 'i'] else w
  }

  predicate EndsInLongerLi(w: string) {
    EndsWith(w, "abli") || EndsWith(w, "entli") || EndsWith(w, "aliti") || EndsWith(w, "alli")
    || EndsWith(w, "ousli") || EndsWith(w, "bli") || EndsWith(w, "fulli") || EndsWith(w, "lessli")
  }

  function Step2By(table: Rules, w: string, r1: nat): string {
    match ApplyFirst(table, w, r1)
    case Some(w') => w'
    case None =>
      if InRegion(w, "logi", Minus(r1, 1)) then Replaced(w, "logi", "log")
      else LiDeleted(w, r1)
  }

  function LiDeleted(w: string, r1: nat): string {
    if EndsWith(w, "li") && !EndsInLongerLi(w) && |w| > 3 && |w| - 2 >= r1 && IsValidLiEnding(w[|w| - 3])
    then Chop(w, 2)
    else w
  }

  function Step3By(table: Rules, w: string, r1: nat, r2: nat): string {
    match ApplyFirst(table, w, r1)
    case Some(w') => w'
    case None => if InRegion(w, "ative", r2) then Replaced(w, "ative", "") else w
  }

  function Step4By(table: Rules, w: string, r2: nat): string {
    match ApplyFirst(table, w, r2)
    case Some(w') => w'
    case None =>
      if !EndsWith(w, "ement") && !EndsWith(w, "ment") && InRegion(w, "ent", r2) then Replaced(w, "ent", "")
      else if InRegion(w, "sion", Minus(r2, 1)) then Replaced(w, "sion", "s")
      else if InRegion(w, "tion", Minus(r2, 1)) then Replaced(w, "tion", "t")
      else w
  }

  function Step2(w: string, r1: nat): string { Step2By(STEP2, w, r1) }

  function Step3(w: string, r1: nat, r2: nat): string { Step3By(STEP3, w, r1, r2) }

  function Step4(w: string, r2: nat): string { Step4By(STEP4, w, r2) }

  /** Step 5 reads the last character without looking at the length first. */
  function Step5(w: string, r1: nat, r2: nat): Option<string> {
    if w == "" then None
    else
      var n := |w|;
      if w[n - 1] == 'e' then
        Some(if n - 1 >= r2 || (n - 1 >= r1 && !IsShort(w[..n - 1])) then Chop(w, 1) else w)
      else if w[n - 1] == 'l' && n - 1 >= r2 then
        if n == 1 then None else Some(if w[n - 2] == 'l' then Chop(w, 1) else w)
      else
        Some(w)
  }

  // ---- The whole run ----

  const EXCEPTIONS: map<string, string> :=
    map["skis" := "ski", "skies" := "sky", "dying" := "die", "lying" := "lie", "tying" := "tie", "idly" := "idl",
        "gently" := "gentl", "ugly" := "ugli", "early" := "earli", "only" := "onli", "singly" := "singl"]

  const INVARIANTS: set<string> := {"sky", "news", "howe", "atlas", "cosmos", "bias", "andes"}

  function Exception(w: string): Option<string> {
    if w in EXCEPTIONS then Some(EXCEPTIONS[w])
    else if 3 <= |w| <= 5 && w in INVARIANTS then Some(w)
    else None
  }

  /** Every word a run passes through, from the marked word on. */
  datatype Run = Run(word: string, r1: nat, r2: nat, w0: string, w1a: string, w1b: string, w1c: string,
                     w2: string, w3: string, w4: string)

  function RunOf(word: string): Run {
    var r1 := StartR1(word);
    var r2 := StartR2(word, r1);
    var w0 := Step0(word);
    var w1a := Step1A(w0);
    var w1b := Step1B(w1a, r1);
    var w1c := Step1C(w1b);
    var w2 := Step2(w1c, r1);
    var w3 := Step3(w2, r1, r2);
    Run(word, r1, r2, w0, w1a, w1b, w1c, w2, w3, Step4(w3, r2))
  }

  function Finish(run: Run): Option<string> {
    if StopsAfter1A(run.w1a) then Some(Unmarked(run.w1a))
    else match Step5(run.w4, run.r1, run.r2)
      case None => None
      case Some(w) => Some(Unmarked(w))
  }

  predicate LeftAlone(w: string) {
    |w| <= 2 || w == "<s>" || w == "</s>"
  }

  /** Cut to 35 letters, without a leading apostrophe. */
  function Prepared(w: string): string {
    var cut := if |w| > 35 then w[..35] else w;
    if cut != "" && cut[0] == '\'' then cut[1..] else cut
  }

  /** The stem of a word, or None where step 5 would read before the start of an emptied string. */
  function Stem(w: string): Option<string> {
    if LeftAlone(w) then Some(w)
    else match Exception(Prepared(w))
      case Some(stem) => Some(stem)
      case None => Finish(RunOf(Marked(Prepared(w))))
  }
}
