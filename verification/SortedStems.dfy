/** Sets of strings kept in increasing order, where an element's place is its rank. */
module SortedStems {
  import opened Options
  import opened Sets

  /** Character by character, a proper prefix before the longer string. */
  predicate Less(a: string, b: string) {
    b != "" && (a == "" || a[0] < b[0] || (a[0] == b[0] && Less(a[1..], b[1..])))
  }

  /** One string is less than another when, past a common beginning, it ends or has the smaller character. */
  lemma {:induction false} LessExactly(a: string, b: string)
    ensures Less(a, b) <==> exists k :: 0 <= k <= |a| && k < |b| && a[..k] == b[..k] && (k == |a| || a[k] < b[k])
    decreases |a|
  {
    if a != "" && b != "" && a[0] == b[0] {
      LessExactly(a[1..], b[1..]);
      if k :| 0 <= k <= |a| - 1 && k < |b| - 1 && a[1..][..k] == b[1..][..k]
              && (k == |a| - 1 || a[1..][k] < b[1..][k])
      {
        assert a[..k + 1] == [a[0]] + a[1..][..k] && b[..k + 1] == [b[0]] + b[1..][..k];
      }
      if k :| 0 <= k <= |a| && k < |b| && a[..k] == b[..k] && (k == |a| || a[k] < b[k]) {
        if k > 0 {
          assert a[1..][..k - 1] == a[..k][1..] && b[1..][..k - 1] == b[..k][1..];
        }
      }
    } else if b != "" {
      assert a[..0] == b[..0];
    }
  }

  lemma {:induction false} LessIsStrict(a: string)
    ensures !Less(a, a)
  {
    if a != "" {
      LessIsStrict(a[1..]);
    }
  }

  lemma {:induction false} LessIsTransitive(a: string, b: string, c: string)
    requires Less(a, b) && Less(b, c)
    ensures Less(a, c)
  {
    if a != "" && a[0] == b[0] == c[0] {
      LessIsTransitive(a[1..], b[1..], c[1..]);
    }
  }

  lemma {:induction false} LessIsTotal(a: string, b: string)
    ensures a == b || Less(a, b) || Less(b, a)
  {
    if a != "" && b != "" && a[0] == b[0] {
      LessIsTotal(a[1..], b[1..]);
      assert a == [a[0]] + a[1..] && b == [b[0]] + b[1..];
    }
  }

  ghost predicate Increasing(stems: seq<string>) {
    forall i, j :: 0 <= i < j < |stems| ==> Less(stems[i], stems[j])
  }

  function Elements(stems: seq<string>): set<string> {
    set s | s in stems
  }

  function Below(stems: set<string>, stem: string): set<string> {
    set s | s in stems && Less(s, stem)
  }

  /** The place of a stem, if it is there. */
  function IdOf(stems: seq<string>, stem: string): (id: Option<nat>)
    ensures id.Some? ==> id.value < |stems| && stems[id.value] == stem
    ensures id.None? <==> stem !in stems
  {
    if stems == [] then None
    else if stems[|stems| - 1] == stem then Some(|stems| - 1)
    else
      assert stems == stems[..|stems| - 1] + [stems[|stems| - 1]];
      IdOf(stems[..|stems| - 1], stem)
  }

  lemma {:induction false} ElementsCount(stems: seq<string>)
    requires Increasing(stems)
    ensures |Elements(stems)| == |stems|
  {
    if stems != [] {
      var n := |stems| - 1;
      ElementsCount(stems[..n]);
      forall i | 0 <= i < n ensures stems[i] != stems[n] {
        LessIsStrict(stems[n]);
      }
      assert stems == stems[..n] + [stems[n]];
      assert Elements(stems) == Elements(stems[..n]) + {stems[n]};
    }
  }

  /** What stands before place `i` is what is below the stem there. */
  lemma BelowIsBefore(stems: seq<string>, i: nat)
    requires Increasing(stems) && i < |stems|
    ensures Below(Elements(stems), stems[i]) == Elements(stems[..i])
  {
    forall j | i <= j < |stems| ensures !Less(stems[j], stems[i]) {
      if j == i {
        LessIsStrict(stems[i]);
      } else if Less(stems[j], stems[i]) {
        LessIsTransitive(stems[i], stems[j], stems[i]);
        LessIsStrict(stems[i]);
      }
    }
  }

  /** A stem's place is its rank: the number of stems below it. */
  lemma IdIsRank(stems: seq<string>, stem: string)
    requires Increasing(stems) && stem in stems
    ensures IdOf(stems, stem) == Some(|Below(Elements(stems), stem)|)
  {
    var i := IdOf(stems, stem).value;
    BelowIsBefore(stems, i);
    ElementsCount(stems[..i]);
  }

  /** Going from a place to its stem and back changes nothing. */
  lemma IdOfStem(stems: seq<string>, i: nat)
    requires Increasing(stems) && i < |stems|
    ensures IdOf(stems, stems[i]) == Some(i)
  {
    IdIsRank(stems, stems[i]);
    BelowIsBefore(stems, i);
    ElementsCount(stems[..i]);
  }

  /** There is one increasing list of a set: ids depend on the set of stems and not on how it was put together. */
  lemma {:induction false} OneOrder(stems: seq<string>, stems': seq<string>)
    requires Increasing(stems) && Increasing(stems') && Elements(stems) == Elements(stems')
    ensures stems == stems'
  {
    ElementsCount(stems);
    ElementsCount(stems');
    forall i | 0 <= i < |stems| ensures stems[i] == stems'[i] {
      assert stems[i] in Elements(stems');
      IdIsRank(stems, stems[i]);
      IdIsRank(stems', stems[i]);
      IdOfStem(stems, i);
    }
  }

  /** Adding stems leaves a stem's id alone exactly when none of the new ones is smaller; otherwise the id moves up. */
  lemma IdStability(stems: seq<string>, stems': seq<string>, added: set<string>, stem: string)
    requires Increasing(stems) && Increasing(stems') && stem in stems
    requires Elements(stems') == Elements(stems) + added
    ensures IdOf(stems, stem).Some? && IdOf(stems', stem).Some?
    ensures IdOf(stems, stem).value <= IdOf(stems', stem).value
    ensures IdOf(stems', stem) == IdOf(stems, stem) <==> forall s :: s in added && Less(s, stem) ==> s in stems
  {
    assert stem in Elements(stems');
    IdIsRank(stems, stem);
    IdIsRank(stems', stem);
    var below, below' := Below(Elements(stems), stem), Below(Elements(stems'), stem);
    assert below <= below';
    SmallerSet(below, below');
    if below' == below {
      forall s | s in added && Less(s, stem) ensures s in stems {
        assert s in below';
      }
    } else {
      var s :| s in below' && s !in below;
    }
  }

  /** Putting a new stem where it belongs keeps the order. */
  lemma InsertKeepsOrder(stems: seq<string>, pos: nat, stem: string)
    requires Increasing(stems) && pos <= |stems| && stem !in stems
    requires forall i :: 0 <= i < pos ==> Less(stems[i], stem)
    requires pos < |stems| ==> !Less(stems[pos], stem)
    ensures Increasing(stems[..pos] + [stem] + stems[pos..])
    ensures Elements(stems[..pos] + [stem] + stems[pos..]) == Elements(stems) + {stem}
  {
    forall i | pos <= i < |stems| ensures Less(stem, stems[i]) {
      LessIsTotal(stem, stems[pos]);
      if i > pos {
        LessIsTransitive(stem, stems[pos], stems[i]);
      }
    }
    var stems' := stems[..pos] + [stem] + stems[pos..];
    forall s ensures s in Elements(stems') <==> s in Elements(stems) + {stem} {
      assert stems == stems[..pos] + stems[pos..];
    }
  }

  // ---- What is kept by id, when ids move ----

  /** Every old stem finds at its new id what it had at its old one. */
  ghost predicate Follows<T(!new)>(at: nat -> T, stems: seq<string>, stems': seq<string>) {
    forall s :: s in stems ==>
      IdOf(stems, s).Some? && IdOf(stems', s).Some? && at(IdOf(stems', s).value) == at(IdOf(stems, s).value)
  }

  /** No stem that holds anything is above a genuinely new one. */
  ghost predicate PassesOnlyEmpty<T(!new)>(at: nat -> T, empty: T, stems: seq<string>, added: set<string>) {
    forall s, n :: s in stems && n in added && n !in stems && Less(n, s) ==>
      IdOf(stems, s).Some? && at(IdOf(stems, s).value) == empty
  }

  /** Values kept by id follow their stems through a merge exactly when no stem that holds one is above a new stem. */
  lemma FollowExactly<T(!new)>(at: nat -> T, empty: T, stems: seq<string>, stems': seq<string>, added: set<string>)
    requires Increasing(stems) && Increasing(stems') && Elements(stems') == Elements(stems) + added
    requires forall i: nat :: |stems| <= i ==> at(i) == empty
    ensures Follows(at, stems, stems') <==> PassesOnlyEmpty(at, empty, stems, added)
  {
    if PassesOnlyEmpty(at, empty, stems, added) {
      forall s | s in stems
        ensures IdOf(stems, s).Some? && IdOf(stems', s).Some? && at(IdOf(stems', s).value) == at(IdOf(stems, s).value)
      {
        EmptyFollows(at, empty, stems, stems', added, s);
      }
    } else {
      var s, n :| s in stems && n in added && n !in stems && Less(n, s) && at(IdOf(stems, s).value) != empty;
      var t := FullStaysBehind(at, empty, stems, stems', added, s, n);
    }
  }

  lemma EmptyFollows<T(!new)>(at: nat -> T, empty: T, stems: seq<string>, stems': seq<string>, added: set<string>,
                              s: string)
    requires Increasing(stems) && Increasing(stems') && Elements(stems') == Elements(stems) + added
    requires forall i: nat :: |stems| <= i ==> at(i) == empty
    requires PassesOnlyEmpty(at, empty, stems, added) && s in stems
    ensures IdOf(stems, s).Some? && IdOf(stems', s).Some? && at(IdOf(stems', s).value) == at(IdOf(stems, s).value)
  {
    IdStability(stems, stems', added, s);
    var i, i' := IdOf(stems, s).value, IdOf(stems', s).value;
    if i != i' {
      var n :| n in added && Less(n, s) && n !in stems;
      if i' < |stems| {
        LessIsTransitive(n, s, stems[i']);
        IdOfStem(stems, i');
      }
    }
  }

  /** The last place from `i` on that holds something. */
  lemma LastFull<T(!new)>(at: nat -> T, empty: T, i: nat, end: nat) returns (j: nat)
    requires i < end && at(i) != empty
    ensures i <= j < end && at(j) != empty && forall k :: j < k < end ==> at(k) == empty
  {
    j := end - 1;
    while at(j) == empty
      invariant i <= j < end && forall k :: j < k < end ==> at(k) == empty
      decreases j
    {
      j := j - 1;
    }
  }

  lemma FullStaysBehind<T(!new)>(at: nat -> T, empty: T, stems: seq<string>, stems': seq<string>, added: set<string>,
                                 s: string, n: string)
    returns (t: string)
    requires Increasing(stems) && Increasing(stems') && Elements(stems') == Elements(stems) + added
    requires forall i: nat :: |stems| <= i ==> at(i) == empty
    requires s in stems && n in added && n !in stems && Less(n, s) && at(IdOf(stems, s).value) != empty
    ensures t in stems && IdOf(stems, t).Some? && IdOf(stems', t).Some?
    ensures at(IdOf(stems', t).value) == empty != at(IdOf(stems, t).value)
  {
    var i := IdOf(stems, s).value;
    var j := LastFull(at, empty, i, |stems|);
    t := stems[j];
    IdOfStem(stems, j);
    if i < j {
      LessIsTransitive(n, s, t);
    }
    IdStability(stems, stems', added, t);
  }

  /** A new stem then finds nothing at its id. */
  lemma NewStartsEmpty<T(!new)>(at: nat -> T, empty: T, stems: seq<string>, stems': seq<string>, added: set<string>,
                                n: string)
    requires Increasing(stems) && Increasing(stems') && Elements(stems') == Elements(stems) + added
    requires forall i: nat :: |stems| <= i ==> at(i) == empty
    requires PassesOnlyEmpty(at, empty, stems, added) && n in added && n !in stems
    ensures IdOf(stems', n).Some? && at(IdOf(stems', n).value) == empty
  {
    assert n in Elements(stems');
    IdIsRank(stems', n);
    var i := IdOf(stems', n).value;
    if i < |stems| {
      var t := stems[i];
      IdOfStem(stems, i);
      IdIsRank(stems, t);
      LessIsTotal(n, t);
      if Less(t, n) {
        BelowGrows(stems, stems', t, n);
      }
    }
  }

  lemma BelowGrows(stems: seq<string>, stems': seq<string>, t: string, n: string)
    requires Elements(stems) <= Elements(stems') && t in stems && Less(t, n)
    ensures |Below(Elements(stems), t)| < |Below(Elements(stems'), n)|
  {
    var below, below' := Below(Elements(stems), t), Below(Elements(stems'), n);
    forall s | s in below ensures s in below' {
      LessIsTransitive(s, t, n);
    }
    LessIsStrict(t);
    assert t in below' && t !in below;
    SmallerSet(below, below');
  }
}
