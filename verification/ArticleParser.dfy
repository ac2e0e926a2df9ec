/** Turning an article's words into stem ids, and what that records in the vocabulary. */
module ArticleParser {
  import opened Options
  import opened Integers
  import opened SortedStems
  import opened Vocabulary

  const MIN_TOKENS: nat := 100

  /** The functions on words that the parser takes as given, and the words it passes over. */
  datatype Reading = Reading(
    lower: string -> string,
    stem: string -> string,
    shingle: (string, string, string) -> int32,
    words: set<string>,
    stopWords: set<string>)

  datatype ProcessedArticle = ProcessedArticle(stemIds: seq<nat>, idsTokens: map<nat, nat>, tokensNo: nat)

  // ---- What an article's tokens mean ----

  /** A token that is passed over: a stop word or a single character. */
  predicate Skipped(reading: Reading, token: string) {
    reading.lower(token) in reading.stopWords || |reading.lower(token)| < 2
  }

  /** The stem id an accepted token stands for. */
  function TokenId(reading: Reading, stems: seq<string>, token: string): Option<nat> {
    if Skipped(reading, token) then None else IdOf(stems, reading.stem(reading.lower(token)))
  }

  /** The ids of the accepted tokens, in the order of the text. */
  function IdsOf(reading: Reading, stems: seq<string>, tokens: seq<string>): (ids: seq<nat>)
    ensures |ids| <= |tokens|
  {
    if tokens == [] then []
    else
      var before := tokens[..|tokens| - 1];
      match TokenId(reading, stems, tokens[|tokens| - 1])
      case None => IdsOf(reading, stems, before)
      case Some(id) => IdsOf(reading, stems, before) + [id]
  }

  /** They are the ids some token stands for, and all of them are ids of stems. */
  lemma {:induction false} IdsAre(reading: Reading, stems: seq<string>, tokens: seq<string>, id: nat)
    ensures id in IdsOf(reading, stems, tokens)
       <==> exists k :: 0 <= k < |tokens| && TokenId(reading, stems, tokens[k]) == Some(id)
    ensures id in IdsOf(reading, stems, tokens) ==> id < |stems|
  {
    if tokens != [] {
      var before := tokens[..|tokens| - 1];
      IdsAre(reading, stems, before, id);
      assert tokens == before + [tokens[|tokens| - 1]];
    }
  }

  /** A token stands for an id when its lower-case form is not a stop word, has two characters at least, and stems to
      the id's stem. */
  predicate StandsFor(reading: Reading, stems: seq<string>, token: string, id: nat) {
    && reading.lower(token) !in reading.stopWords && |reading.lower(token)| >= 2
    && id < |stems| && stems[id] == reading.stem(reading.lower(token))
  }

  lemma StandsForIs(reading: Reading, stems: seq<string>, token: string, id: nat)
    requires Increasing(stems)
    ensures TokenId(reading, stems, token) == Some(id) <==> StandsFor(reading, stems, token, id)
  {
    if id < |stems| {
      IdOfStem(stems, id);
    }
  }

  /** The ids of a text are those of its parts in order, and a single token has the one id it stands for, if any. */
  lemma {:induction false} IdsOfText(reading: Reading, stems: seq<string>, a: seq<string>, b: seq<string>)
    ensures IdsOf(reading, stems, a + b) == IdsOf(reading, stems, a) + IdsOf(reading, stems, b)
    decreases |b|
  {
    if b == [] {
      assert a + b == a;
    } else {
      var last := b[|b| - 1];
      assert (a + b)[..|a + b| - 1] == a + b[..|b| - 1];
      IdsOfText(reading, stems, a, b[..|b| - 1]);
    }
  }

  lemma IdsOfToken(reading: Reading, stems: seq<string>, token: string, id: nat)
    requires Increasing(stems)
    ensures IdsOf(reading, stems, [token]) == [id] <==> StandsFor(reading, stems, token, id)
    ensures IdsOf(reading, stems, [token]) != [] ==> exists i :: IdsOf(reading, stems, [token]) == [i]
  {
    assert [token][..0] == [];
    assert IdsOf(reading, stems, []) == [];
    StandsForIs(reading, stems, token, id);
    match TokenId(reading, stems, token)
    case None => assert IdsOf(reading, stems, [token]) == [];
    case Some(i) => assert IdsOf(reading, stems, [token]) == [i];
  }

  /** Where each id was last used. */
  function LastUses(reading: Reading, stems: seq<string>, tokens: seq<string>): map<nat, nat> {
    if tokens == [] then map[]
    else
      var last := |tokens| - 1;
      match TokenId(reading, stems, tokens[last])
      case None => LastUses(reading, stems, tokens[..last])
      case Some(id) => LastUses(reading, stems, tokens[..last])[id := last]
  }

  lemma {:induction false} LastUseIs(reading: Reading, stems: seq<string>, tokens: seq<string>, id: nat)
    ensures var uses := LastUses(reading, stems, tokens);
            if id in uses then
              && uses[id] < |tokens| && TokenId(reading, stems, tokens[uses[id]]) == Some(id)
              && forall j :: uses[id] < j < |tokens| ==> TokenId(reading, stems, tokens[j]) != Some(id)
            else
              forall j :: 0 <= j < |tokens| ==> TokenId(reading, stems, tokens[j]) != Some(id)
  {
    if tokens != [] {
      var before := tokens[..|tokens| - 1];
      LastUseIs(reading, stems, before, id);
      forall j | 0 <= j < |before| ensures TokenId(reading, stems, tokens[j]) == TokenId(reading, stems, before[j]) {}
    }
  }

  /** The lower-case forms of the tokens that stand for an id. */
  function FormsOf(reading: Reading, stems: seq<string>, tokens: seq<string>, id: nat): set<string> {
    set k | 0 <= k < |tokens| && TokenId(reading, stems, tokens[k]) == Some(id) :: reading.lower(tokens[k])
  }

  lemma FormsAre(reading: Reading, stems: seq<string>, tokens: seq<string>, id: nat)
    ensures FormsOf(reading, stems, tokens, id) != {} <==> id in IdsOf(reading, stems, tokens)
  {
    IdsAre(reading, stems, tokens, id);
    var forms := FormsOf(reading, stems, tokens, id);
    if id in IdsOf(reading, stems, tokens) {
      var k :| 0 <= k < |tokens| && TokenId(reading, stems, tokens[k]) == Some(id);
      assert reading.lower(tokens[k]) in forms;
    }
  }

  /** They are the lower-case forms of just those tokens. */
  lemma FormsExactly(reading: Reading, stems: seq<string>, tokens: seq<string>, id: nat, form: string)
    requires Increasing(stems)
    ensures form in FormsOf(reading, stems, tokens, id)
       <==> exists k :: 0 <= k < |tokens| && StandsFor(reading, stems, tokens[k], id)
              && reading.lower(tokens[k]) == form
  {
    forall k | 0 <= k < |tokens|
      ensures TokenId(reading, stems, tokens[k]) == Some(id) <==> StandsFor(reading, stems, tokens[k], id)
    {
      StandsForIs(reading, stems, tokens[k], id);
    }
  }

  /** Three words in a row, wherever the first is passed over. */
  function ShinglesOf(reading: Reading, tokens: seq<string>, end: nat): set<int32> {
    set k | 0 <= k < end && k + 2 < |tokens| && Skipped(reading, tokens[k])
      :: reading.shingle(tokens[k], tokens[k + 1], tokens[k + 2])
  }

  /** Three words from place `k`, the first a stop word or a single character. */
  predicate ShingleAt(reading: Reading, tokens: seq<string>, k: nat, x: int32) {
    && k + 2 < |tokens|
    && (reading.lower(tokens[k]) in reading.stopWords || |reading.lower(tokens[k])| < 2)
    && reading.shingle(tokens[k], tokens[k + 1], tokens[k + 2]) == x
  }

  lemma ShinglesExactly(reading: Reading, tokens: seq<string>, x: int32)
    ensures x in ShinglesOf(reading, tokens, |tokens|) <==> exists k: nat :: ShingleAt(reading, tokens, k, x)
  {
    if x in ShinglesOf(reading, tokens, |tokens|) {
      var k :| 0 <= k < |tokens| && k + 2 < |tokens| && Skipped(reading, tokens[k])
            && reading.shingle(tokens[k], tokens[k + 1], tokens[k + 2]) == x;
      assert ShingleAt(reading, tokens, k, x);
    }
    if k: nat :| ShingleAt(reading, tokens, k, x) {
      assert Skipped(reading, tokens[k]);
    }
  }

  predicate Known(reading: Reading, token: string) {
    token in reading.words
  }

  function Unknown(reading: Reading, tokens: seq<string>): nat {
    if tokens == [] then 0
    else
      var last := tokens[|tokens| - 1];
      Unknown(reading, tokens[..|tokens| - 1])
        + if !Known(reading, last) && last !in reading.stopWords && |last| > 1 then 1 else 0
  }

  ghost function UnknownTokens(reading: Reading, tokens: seq<string>): set<nat> {
    set k: nat | k < |tokens| && tokens[k] !in reading.words && tokens[k] !in reading.stopWords && |tokens[k]| > 1
  }

  lemma {:induction false} UnknownIs(reading: Reading, tokens: seq<string>)
    ensures Unknown(reading, tokens) == |UnknownTokens(reading, tokens)|
  {
    if tokens != [] {
      var n := |tokens| - 1;
      UnknownIs(reading, tokens[..n]);
      var before := UnknownTokens(reading, tokens[..n]);
      var isUnknown := tokens[n] !in reading.words && tokens[n] !in reading.stopWords && |tokens[n]| > 1;
      assert UnknownTokens(reading, tokens) == before + if isUnknown then {n} else {};
    }
  }

  /** An article is acceptable with a hundred tokens at least, when the tokens that are no words, no stop words and
      longer than one character, and one more, are at most three tenths of all. */
  lemma AcceptableExactly(reading: Reading, tokens: seq<string>)
    ensures Acceptable(reading, tokens)
       <==> |tokens| >= 100 && 10 * (|UnknownTokens(reading, tokens)| + 1) <= 3 * |tokens|
  {
    UnknownIs(reading, tokens);
  }

  /** Long enough, with few enough unknown words. */
  predicate Acceptable(reading: Reading, tokens: seq<string>) {
    |tokens| >= MIN_TOKENS && 10 * (Unknown(reading, tokens) + 1) <= 3 * |tokens|
  }

  function ValidStems(reading: Reading, tokens: seq<string>): set<string> {
    set k | 0 <= k < |tokens| && Known(reading, tokens[k]) :: reading.stem(reading.lower(tokens[k]))
  }

  /** The counters after an article with these ids. */
  function Counted(freqs: seq<nat>, ids: seq<nat>): (counted: seq<nat>)
    ensures |counted| == |freqs|
    ensures forall i :: 0 <= i < |freqs| ==> counted[i] == freqs[i] + if i in ids then 1 else 0
  {
    seq(|freqs|, i requires 0 <= i < |freqs| => freqs[i] + if i in ids then 1 else 0)
  }

  lemma CountedOneMore(freqs: seq<nat>, ids: seq<nat>, id: nat)
    requires id < |freqs|
    ensures var counted := Counted(freqs, ids);
            Counted(freqs, ids + [id]) == if id in ids then counted else counted[id := counted[id] + 1]
  {
  }

  /** The tokens after reading an article. */
  ghost predicate Filed(filed: map<nat, set<string>>, before: map<nat, set<string>>,
                        reading: Reading, stems: seq<string>, tokens: seq<string>)
  {
    forall id: nat :: TokensAt(filed, id) == TokensAt(before, id) + FormsOf(reading, stems, tokens, id)
  }

  lemma FiledOneMore(filed': map<nat, set<string>>, filed: map<nat, set<string>>, before: map<nat, set<string>>,
                     reading: Reading, stems: seq<string>, tokens: seq<string>, k: nat)
    requires k < |tokens| && Filed(filed, before, reading, stems, tokens[..k])
    requires forall id: nat :: TokensAt(filed', id) == TokensAt(filed, id)
                            + if TokenId(reading, stems, tokens[k]) == Some(id) then {reading.lower(tokens[k])} else {}
    ensures Filed(filed', before, reading, stems, tokens[..k + 1])
  {
    forall id: nat ensures TokensAt(filed', id) == TokensAt(before, id) + FormsOf(reading, stems, tokens[..k + 1], id) {
      OneMoreForm(reading, stems, tokens, k, id);
    }
  }

  lemma OneMoreForm(reading: Reading, stems: seq<string>, tokens: seq<string>, k: nat, id: nat)
    requires k < |tokens|
    ensures FormsOf(reading, stems, tokens[..k + 1], id) == FormsOf(reading, stems, tokens[..k], id)
          + if TokenId(reading, stems, tokens[k]) == Some(id) then {reading.lower(tokens[k])} else {}
  {
    var more, less := tokens[..k + 1], tokens[..k];
    assert more == less + [tokens[k]];
    forall j | 0 <= j < k ensures more[j] == less[j] {}
    assert more[k] == tokens[k];
  }

  lemma OneMoreWord(reading: Reading, tokens: seq<string>, k: nat)
    requires k < |tokens|
    ensures Unknown(reading, tokens[..k + 1]) == Unknown(reading, tokens[..k])
          + if !Known(reading, tokens[k]) && tokens[k] !in reading.stopWords && |tokens[k]| > 1 then 1 else 0
    ensures ValidStems(reading, tokens[..k + 1]) == ValidStems(reading, tokens[..k])
          + if Known(reading, tokens[k]) then {reading.stem(reading.lower(tokens[k]))} else {}
  {
    var more, less := tokens[..k + 1], tokens[..k];
    assert more[..k] == less;
    forall j | 0 <= j < k ensures more[j] == less[j] {}
    assert more[k] == tokens[k];
  }

  lemma ShareAtMost(part: real, all: real, share: real)
    requires all > 0.0
    ensures part / all <= share <==> part <= share * all
  {
    var actual := part / all;
    assert actual * all == part;
    if actual <= share {
      assert (share - actual) * all >= 0.0;
    } else {
      assert (actual - share) * all > 0.0;
    }
  }

  lemma UnknownShare(unknown: nat, all: nat)
    requires all > 0
    ensures unknown as real / all as real <= 0.3 <==> 10 * unknown <= 3 * all
  {
    ShareAtMost(unknown as real, all as real, 0.3);
    assert (10 * unknown) as real == 10.0 * unknown as real;
    assert (3 * all) as real == 3.0 * all as real;
  }

  lemma OneMoreToken(reading: Reading, stems: seq<string>, tokens: seq<string>, k: nat)
    requires k < |tokens|
    ensures var ids, uses := IdsOf(reading, stems, tokens[..k]), LastUses(reading, stems, tokens[..k]);
            match TokenId(reading, stems, tokens[k])
            case None => && IdsOf(reading, stems, tokens[..k + 1]) == ids
                         && LastUses(reading, stems, tokens[..k + 1]) == uses
            case Some(id) => && IdsOf(reading, stems, tokens[..k + 1]) == ids + [id]
                             && LastUses(reading, stems, tokens[..k + 1]) == uses[id := k]
  {
    assert tokens[..k + 1][..k] == tokens[..k];
  }

  /** Where the loop over the tokens has got to. */
  datatype Progress = Progress(stemIds: seq<nat>, seen: set<nat>, idsTokens: map<nat, nat>, shingles: set<int32>)

  function Seen(ids: seq<nat>): set<nat> {
    set id | id in ids
  }

  /** What one token does to the counters and the filed tokens: nothing if it stands for no stem. */
  ghost predicate Took(id: Option<nat>, seen: set<nat>, token: string,
                       freqs: seq<nat>, filed: map<nat, set<string>>, freqs': seq<nat>, filed': map<nat, set<string>>)
  {
    && freqs' == (if id.Some? && id.value !in seen && id.value < |freqs|
                  then freqs[id.value := freqs[id.value] + 1] else freqs)
    && forall i: nat :: TokensAt(filed', i) == TokensAt(filed, i) + if id == Some(i) then {token} else {}
  }

  /** All that reading some tokens produces, out of a vocabulary with given counters and tokens. */
  ghost predicate HasRead(reading: Reading, stems: seq<string>, freqs: seq<nat>, before: map<nat, set<string>>,
                          tokens: seq<string>, progress: Progress, freqs': seq<nat>, filed: map<nat, set<string>>)
  {
    && progress.stemIds == IdsOf(reading, stems, tokens)
    && progress.seen == Seen(progress.stemIds)
    && progress.idsTokens == LastUses(reading, stems, tokens)
    && freqs' == Counted(freqs, progress.stemIds)
    && Filed(filed, before, reading, stems, tokens)
  }

  lemma ReadOneMore(reading: Reading, stems: seq<string>, freqs: seq<nat>, before: map<nat, set<string>>,
                    tokens: seq<string>, k: nat, was: Progress, freqs': seq<nat>, filed: map<nat, set<string>>,
                    freqs'': seq<nat>, filed': map<nat, set<string>>)
    requires k < |tokens| && |stems| <= |freqs|
    requires HasRead(reading, stems, freqs, before, tokens[..k], was, freqs', filed)
    requires Took(TokenId(reading, stems, tokens[k]), was.seen, reading.lower(tokens[k]),
                  freqs', filed, freqs'', filed')
    ensures match TokenId(reading, stems, tokens[k])
            case None => forall shingles ::
              HasRead(reading, stems, freqs, before, tokens[..k + 1], was.(shingles := shingles), freqs'', filed')
            case Some(id) => HasRead(reading, stems, freqs, before, tokens[..k + 1],
              was.(stemIds := was.stemIds + [id], seen := was.seen + {id}, idsTokens := was.idsTokens[id := k]),
              freqs'', filed')
  {
    OneMoreToken(reading, stems, tokens, k);
    FiledOneMore(filed', filed, before, reading, stems, tokens, k);
    match TokenId(reading, stems, tokens[k])
    case None =>
    case Some(id) =>
      CountedOneMore(freqs, was.stemIds, id);
      assert Seen(was.stemIds + [id]) == Seen(was.stemIds) + {id};
  }

  ghost predicate AllCounted(freqs: seq<nat>, seen: set<nat>) {
    forall id :: id in seen ==> FreqAt(freqs, id) > 0
  }

  lemma SeenAreCounted(reading: Reading, stems: seq<string>, freqs: seq<nat>, tokens: seq<string>)
    requires |stems| <= |freqs|
    ensures var ids := IdsOf(reading, stems, tokens); AllCounted(Counted(freqs, ids), Seen(ids))
  {
    var ids := IdsOf(reading, stems, tokens);
    forall id | id in Seen(ids) ensures FreqAt(Counted(freqs, ids), id) > 0 {
      IdsAre(reading, stems, tokens, id);
    }
  }

  lemma NoShingle(reading: Reading, tokens: seq<string>, k: nat)
    ensures k < |tokens| && !Skipped(reading, tokens[k]) ==>
              ShinglesOf(reading, tokens, k + 1) == ShinglesOf(reading, tokens, k)
  {
  }

  // ---- The parser at work ----

  class ArticleParser {
    const vocabulary: Vocabulary
    const reading: Reading

    ghost predicate Valid()
      reads vocabulary, vocabulary.stemsFreq
    {
      && vocabulary.Valid() && vocabulary.Consistent()
      && reading.words == vocabulary.words && reading.stopWords == vocabulary.stopWords
      && |vocabulary.stems| < MAX_STEMS_NO
    }

    constructor (vocabulary: Vocabulary, reading: Reading)
      ensures this.vocabulary == vocabulary && this.reading == reading
    {
      this.vocabulary := vocabulary;
      this.reading := reading;
    }

    /** An article is worth keeping when it is long enough and few enough of its words are unknown. */
    method TokenizeValidate(tokens: seq<string>) returns (valid: bool, validStems: set<string>)
      ensures valid <==> Acceptable(reading, tokens)
      ensures validStems == if |tokens| >= MIN_TOKENS then ValidStems(reading, tokens) else {}
    {
      validStems := {};
      if |tokens| < MIN_TOKENS {
        return false, validStems;
      }
      var unknown := 0;
      for k := 0 to |tokens|
        invariant unknown == Unknown(reading, tokens[..k])
        invariant validStems == ValidStems(reading, tokens[..k])
      {
        OneMoreWord(reading, tokens, k);
        var token := tokens[k];
        if Known(reading, token) {
          validStems := validStems + {reading.stem(reading.lower(token))};
        } else if token !in reading.stopWords && |token| > 1 {
          unknown := unknown + 1;
        }
      }
      assert tokens[..|tokens|] == tokens;
      UnknownShare(unknown + 1, |tokens|);
      valid := (unknown + 1) as real / |tokens| as real <= 0.3;
    }

    /** Unless the token is passed over or stands for no stem, counts the article for its stem if it was not counted
        before, and files the token under the stem. */
    method Read(token: string, seen: set<nat>) returns (skipped: bool, id: Option<nat>)
      requires Valid() && AllCounted(vocabulary.stemsFreq[..], seen)
      modifies vocabulary`freqStemsNo, vocabulary`stemidTokens, vocabulary.stemsFreq
      ensures Valid()
      ensures skipped == Skipped(reading, token)
      ensures id == TokenId(reading, vocabulary.stems, token)
      ensures id.Some? ==> id.value < |vocabulary.stems|
      ensures Took(id, seen, reading.lower(token), old(vocabulary.stemsFreq[..]), old(vocabulary.stemidTokens),
                   vocabulary.stemsFreq[..], vocabulary.stemidTokens)
    {
      var lowerToken := reading.lower(token);
      if lowerToken in vocabulary.stopWords || |lowerToken| < 2 {
        return true, None;
      }
      skipped := false;
      id := vocabulary.GetStemId(reading.stem(lowerToken));
      if id.Some? {
        Record(id.value, lowerToken, seen);
      }
    }

    method Record(id: nat, lowerToken: string, seen: set<nat>)
      requires Valid() && id < |vocabulary.stems| && AllCounted(vocabulary.stemsFreq[..], seen)
      modifies vocabulary`freqStemsNo, vocabulary`stemidTokens, vocabulary.stemsFreq
      ensures Valid()
      ensures Took(Some(id), seen, lowerToken, old(vocabulary.stemsFreq[..]), old(vocabulary.stemidTokens),
                   vocabulary.stemsFreq[..], vocabulary.stemidTokens)
    {
      if id !in seen {
        vocabulary.IncreaseStemFreq(id);
      }
      vocabulary.AddToken(id, lowerToken);
      CountedWithToken(old(vocabulary.stemsFreq[..]), |vocabulary.stems|, old(vocabulary.stemidTokens),
                       vocabulary.stemsFreq[..], vocabulary.stemidTokens, id, lowerToken);
    }

    /** One round of the loop over an article's tokens. */
    method ReadAt(tokens: seq<string>, k: nat, collectShingles: bool, was: Progress,
                  ghost freqs: seq<nat>, ghost filed: map<nat, set<string>>) returns (now: Progress)
      requires Valid() && k < |tokens| && |freqs| == MAX_STEMS_NO
      requires HasRead(reading, vocabulary.stems, freqs, filed, tokens[..k], was,
                       vocabulary.stemsFreq[..], vocabulary.stemidTokens)
      requires collectShingles ==> was.shingles == ShinglesOf(reading, tokens, k)
      modifies vocabulary`freqStemsNo, vocabulary`stemidTokens, vocabulary.stemsFreq
      ensures Valid()
      ensures HasRead(reading, vocabulary.stems, freqs, filed, tokens[..k + 1], now,
                      vocabulary.stemsFreq[..], vocabulary.stemidTokens)
      ensures now.shingles == if collectShingles then ShinglesOf(reading, tokens, k + 1) else was.shingles
    {
      NoShingle(reading, tokens, k);
      SeenAreCounted(reading, vocabulary.stems, freqs, tokens[..k]);
      var skipped, stemId := Read(tokens[k], was.seen);
      ReadOneMore(reading, vocabulary.stems, freqs, filed, tokens, k, was, old(vocabulary.stemsFreq[..]),
                  old(vocabulary.stemidTokens), vocabulary.stemsFreq[..], vocabulary.stemidTokens);
      now := was;
      if stemId.Some? {
        now := now.(stemIds := was.stemIds + [stemId.value], seen := was.seen + {stemId.value},
                    idsTokens := was.idsTokens[stemId.value := k]);
      } else if skipped && collectShingles && k + 2 < |tokens| {
        now := now.(shingles := was.shingles + {reading.shingle(tokens[k], tokens[k + 1], tokens[k + 2])});
      }
    }

    /** Each stem's counter goes up by one however often the article uses the stem, every accepted token is recorded
        under its stem, and nothing else in the vocabulary changes. */
    method ProcessTokens(tokens: seq<string>, collectShingles: bool)
      returns (article: ProcessedArticle, shingles: set<int32>)
      requires Valid()
      modifies vocabulary`freqStemsNo, vocabulary`stemidTokens, vocabulary.stemsFreq
      ensures Valid()
      ensures article.stemIds == IdsOf(reading, vocabulary.stems, tokens)
      ensures article.idsTokens == LastUses(reading, vocabulary.stems, tokens)
      ensures article.tokensNo == |tokens|
      ensures shingles == if collectShingles then ShinglesOf(reading, tokens, |tokens|) else {}
      ensures vocabulary.stemsFreq[..] == Counted(old(vocabulary.stemsFreq[..]), article.stemIds)
      ensures Filed(vocabulary.stemidTokens, old(vocabulary.stemidTokens), reading, vocabulary.stems, tokens)
    {
      var progress := Progress([], {}, map[], {});
      for k := 0 to |tokens|
        invariant Valid()
        invariant HasRead(reading, vocabulary.stems, old(vocabulary.stemsFreq[..]), old(vocabulary.stemidTokens),
                          tokens[..k], progress, vocabulary.stemsFreq[..], vocabulary.stemidTokens)
        invariant progress.shingles == if collectShingles then ShinglesOf(reading, tokens, k) else {}
      {
        progress := ReadAt(tokens, k, collectShingles, progress,
                           old(vocabulary.stemsFreq[..]), old(vocabulary.stemidTokens));
      }
      assert tokens[..|tokens|] == tokens;
      article := ProcessedArticle(progress.stemIds, progress.idsTokens, |tokens|);
      shingles := progress.shingles;
    }
  }
}
