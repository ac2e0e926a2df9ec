/** The stems met so far, how many articles each was seen in, and the tokens it came from. */
module Vocabulary {
  import opened Options
  import opened Integers
  import opened SortedStems
  import TokenMap

  const MAX_STEMS_NO: nat := TokenMap.MAX_STEMS_NO

  function TokensAt(tokens: map<nat, set<string>>, id: nat): set<string> {
    if id in tokens then tokens[id] else {}
  }

  function FreqAt(freqs: seq<nat>, id: nat): nat {
    if id < |freqs| then freqs[id] else 0
  }

  /** An id is counted exactly when tokens are filed under it, and only ids of stems are. */
  ghost predicate SeenHaveTokens(freqs: seq<nat>, stemsNo: nat, tokens: map<nat, set<string>>) {
    forall id: nat ::
      (FreqAt(freqs, id) > 0 <==> TokensAt(tokens, id) != {}) && (FreqAt(freqs, id) > 0 ==> id < stemsNo)
  }

  /** Counting a stem and filing a token of it go together; a counted stem may be given more tokens. */
  lemma CountedWithToken(freqs: seq<nat>, stemsNo: nat, tokens: map<nat, set<string>>,
                         freqs': seq<nat>, tokens': map<nat, set<string>>, id: nat, token: string)
    requires SeenHaveTokens(freqs, stemsNo, tokens) && id < stemsNo && id < |freqs|
    requires freqs' == freqs[id := freqs[id] + 1] || (freqs' == freqs && freqs[id] > 0)
    requires forall i: nat :: TokensAt(tokens', i) == TokensAt(tokens, i) + if i == id then {token} else {}
    ensures SeenHaveTokens(freqs', stemsNo, tokens')
  {
    forall i: nat
      ensures FreqAt(freqs', i) > 0 <==> TokensAt(tokens', i) != {}
      ensures FreqAt(freqs', i) > 0 ==> i < stemsNo
    {
      assert FreqAt(freqs, i) > 0 <==> TokensAt(tokens, i) != {};
      if i == id {
        assert token in TokensAt(tokens', i);
      }
    }
  }

  // ---- What a merge does to what is kept by id ----

  /** No counted stem is above a genuinely new one. */
  ghost predicate PassesNoCounted(freqs: seq<nat>, stems: seq<string>, added: set<string>) {
    forall s, n :: s in stems && n in added && n !in stems && Less(n, s) ==>
      IdOf(stems, s).Some? && FreqAt(freqs, IdOf(stems, s).value) == 0
  }

  /** Each stem keeps its count. */
  ghost predicate CountsFollow(freqs: seq<nat>, stems: seq<string>, stems': seq<string>) {
    forall s :: s in stems ==>
      && IdOf(stems, s).Some? && IdOf(stems', s).Some?
      && FreqAt(freqs, IdOf(stems', s).value) == FreqAt(freqs, IdOf(stems, s).value)
  }

  /** Each stem keeps its tokens. */
  ghost predicate TokensFollow(tokens: map<nat, set<string>>, stems: seq<string>, stems': seq<string>) {
    forall s :: s in stems ==>
      && IdOf(stems, s).Some? && IdOf(stems', s).Some?
      && TokensAt(tokens, IdOf(stems', s).value) == TokensAt(tokens, IdOf(stems, s).value)
  }

  /** Merging moves stems to higher ids and leaves counters and tokens where they are: both still belong to the same
      stems exactly when no counted stem is above a new one. */
  lemma MergeKeepsBelongings(freqs: seq<nat>, tokens: map<nat, set<string>>,
                             stems: seq<string>, stems': seq<string>, added: set<string>)
    requires Increasing(stems) && Increasing(stems') && Elements(stems') == Elements(stems) + added
    requires SeenHaveTokens(freqs, |stems|, tokens)
    ensures CountsFollow(freqs, stems, stems') <==> PassesNoCounted(freqs, stems, added)
    ensures TokensFollow(tokens, stems, stems') <==> PassesNoCounted(freqs, stems, added)
  {
    var count := (id: nat) => FreqAt(freqs, id);
    var filed := (id: nat) => TokensAt(tokens, id);
    FollowExactly(count, 0, stems, stems', added);
    FollowExactly(filed, {}, stems, stems', added);
    assert CountsFollow(freqs, stems, stems') <==> Follows(count, stems, stems');
    assert TokensFollow(tokens, stems, stems') <==> Follows(filed, stems, stems');
    assert PassesNoCounted(freqs, stems, added) <==> PassesOnlyEmpty(count, 0, stems, added);
    assert PassesNoCounted(freqs, stems, added) <==> PassesOnlyEmpty(filed, {}, stems, added);
  }

  // ---- What the counter of frequent stems counts ----

  /** The increments past the third, over all stems. */
  function Excess(freqs: seq<nat>): nat {
    if freqs == [] then 0
    else
      var f := freqs[|freqs| - 1];
      Excess(freqs[..|freqs| - 1]) + if f > 3 then f - 3 else 0
  }

  /** The ids counted more than three times. */
  function Frequent(freqs: seq<nat>): nat {
    if freqs == [] then 0
    else Frequent(freqs[..|freqs| - 1]) + if freqs[|freqs| - 1] > 3 then 1 else 0
  }

  lemma {:induction false} ExcessAfterOne(freqs: seq<nat>, id: nat)
    requires id < |freqs|
    ensures Excess(freqs[id := freqs[id] + 1]) == Excess(freqs) + if freqs[id] + 1 > 3 then 1 else 0
  {
    var n := |freqs| - 1;
    var freqs' := freqs[id := freqs[id] + 1];
    if id < n {
      ExcessAfterOne(freqs[..n], id);
      assert freqs'[..n] == freqs[..n][id := freqs[id] + 1];
    } else {
      assert freqs'[..n] == freqs[..n];
    }
  }

  lemma {:induction false} NoExcess(freqs: seq<nat>)
    requires forall i :: 0 <= i < |freqs| ==> freqs[i] == 0
    ensures Excess(freqs) == 0
  {
    if freqs != [] {
      NoExcess(freqs[..|freqs| - 1]);
    }
  }

  /** The excess is the number of ids counted more than three times if and only if none is counted more than four
      times. */
  lemma {:induction false} ExcessCountsFrequent(freqs: seq<nat>)
    ensures Excess(freqs) >= Frequent(freqs)
    ensures Excess(freqs) == Frequent(freqs) <==> forall i :: 0 <= i < |freqs| ==> freqs[i] <= 4
  {
    if freqs != [] {
      var n := |freqs| - 1;
      ExcessCountsFrequent(freqs[..n]);
      assert forall i :: 0 <= i < n ==> freqs[..n][i] == freqs[i];
    }
  }

  // ---- The vocabulary at work ----

  class Vocabulary {
    const words: set<string>
    const stopWords: set<string>
    var stems: seq<string>
    const stemsFreq: array<nat>
    var freqStemsNo: nat
    /** The shared map of tokens, seen one call at a time. */
    var stemidTokens: map<nat, set<string>>

    ghost predicate Valid()
      reads this, stemsFreq
    {
      && Increasing(stems)
      && stemsFreq.Length == MAX_STEMS_NO
      && freqStemsNo == Excess(stemsFreq[..])
    }

    /** Only ids of stems were seen in articles, and exactly those have tokens. */
    ghost predicate Consistent()
      reads this, stemsFreq
    {
      SeenHaveTokens(stemsFreq[..], |stems|, stemidTokens)
    }

    constructor (words: set<string>, stopWords: set<string>)
      ensures Valid() && Consistent() && fresh(stemsFreq)
      ensures this.words == words && this.stopWords == stopWords && stems == [] && stemidTokens == map[]
      ensures forall id :: 0 <= id < stemsFreq.Length ==> stemsFreq[id] == 0
    {
      this.words := words;
      this.stopWords := stopWords;
      stems := [];
      stemsFreq := new nat[MAX_STEMS_NO](_ => 0);
      freqStemsNo := 0;
      stemidTokens := map[];
      new;
      NoExcess(stemsFreq[..]);
    }

    method IncreaseStemFreq(id: nat)
      requires Valid() && id < stemsFreq.Length
      modifies this`freqStemsNo, stemsFreq
      ensures Valid() && stemsFreq[..] == old(stemsFreq[..])[id := old(stemsFreq[id]) + 1]
    {
      ExcessAfterOne(stemsFreq[..], id);
      stemsFreq[id] := stemsFreq[id] + 1;
      if stemsFreq[id] > 3 {
        freqStemsNo := freqStemsNo + 1;
      }
    }

    method GetStemFreq(id: nat) returns (freq: nat)
      requires id < stemsFreq.Length
      ensures freq == stemsFreq[id]
    {
      freq := stemsFreq[id];
    }

    /** A negative id reads as a very large one and is not found. */
    method GetStem(idx: int32) returns (stem: Option<string>)
      ensures stem.Some? <==> 0 <= idx < |stems|
      ensures stem.Some? ==> stem.value == stems[idx]
      ensures Increasing(stems) && stem.Some? ==> IdOf(stems, stem.value) == Some(idx)
    {
      if idx < 0 || idx >= |stems| {
        return None;
      }
      if Increasing(stems) {
        IdOfStem(stems, idx);
      }
      stem := Some(stems[idx]);
    }

    method GetStemId(stem: string) returns (id: Option<nat>)
      requires Valid()
      ensures id == IdOf(stems, stem)
      ensures id.Some? ==> id.value == |Below(Elements(stems), stem)|
    {
      var i := 0;
      while i < |stems|
        invariant i <= |stems|
        invariant stem !in stems[..i]
      {
        if stems[i] == stem {
          IdOfStem(stems, i);
          IdIsRank(stems, stem);
          return Some(i);
        }
        i := i + 1;
      }
      return None;
    }

    /** Merges a set of stems in. Counters and tokens stay at their ids, and so belong to the same stems as before only
        if no counted stem is above a new one. */
    method AddStems(added: set<string>)
      requires Valid()
      modifies this`stems
      ensures Valid() && Elements(stems) == Elements(old(stems)) + added
      ensures |stems| >= |old(stems)|
      ensures old(Consistent()) ==> Consistent()
      ensures old(Consistent()) ==>
        (CountsFollow(stemsFreq[..], old(stems), stems) <==> PassesNoCounted(stemsFreq[..], old(stems), added))
      ensures old(Consistent()) ==>
        (TokensFollow(stemidTokens, old(stems), stems) <==> PassesNoCounted(stemsFreq[..], old(stems), added))
    {
      var rest := added;
      while rest != {}
        invariant Increasing(stems) && |stems| >= |old(stems)| && rest <= added
        invariant Elements(stems) == Elements(old(stems)) + (added - rest)
        decreases rest
      {
        var stem :| stem in rest;
        rest := rest - {stem};
        if stem !in stems {
          InsertStem(stem);
        }
      }
      if old(Consistent()) {
        MergeKeepsBelongings(stemsFreq[..], stemidTokens, old(stems), stems, added);
      }
    }

    method InsertStem(stem: string)
      requires Increasing(stems) && stem !in stems
      modifies this`stems
      ensures Increasing(stems) && Elements(stems) == Elements(old(stems)) + {stem}
      ensures |stems| == |old(stems)| + 1
    {
      var pos := 0;
      while pos < |stems| && Less(stems[pos], stem)
        invariant pos <= |stems|
        invariant forall i :: 0 <= i < pos ==> Less(stems[i], stem)
      {
        pos := pos + 1;
      }
      InsertKeepsOrder(stems, pos, stem);
      stems := stems[..pos] + [stem] + stems[pos..];
    }

    method AddToken(id: nat, token: string)
      requires id < MAX_STEMS_NO
      modifies this`stemidTokens
      ensures forall i: nat :: TokensAt(stemidTokens, i)
                            == TokensAt(old(stemidTokens), i) + if i == id then {token} else {}
      ensures id in stemidTokens
      ensures forall i :: i != id ==> (i in stemidTokens <==> i in old(stemidTokens))
    {
      stemidTokens := stemidTokens[id := TokensAt(stemidTokens, id) + {token}];
    }
  }
}
