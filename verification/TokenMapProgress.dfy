/** Why the retry loop ends: what a failed exchange means, and a measure that every step lowers. */
module TokenMapProgress {
  import opened Options
  import opened TokenMap
  import opened Sets
  import opened TokenMapSafety

  // ---- Failed exchanges ----

  predicate Fails(s: State, a: Action) {
    a.Exchange? && Enabled(s, a) && Slot(s, s.calls[a.call].op.id) != s.calls[a.call].pc.was
  }

  lemma SequentialBefore(log: seq<Event>)
    requires Sequential(log) && log != []
    ensures var e := log[|log| - 1];
            var before := log[..|log| - 1];
            Sequential(before) && e.response == Answer(e.op, Inserted(before, e.op.id))
  {
    var before := log[..|log| - 1];
    forall k | 0 <= k < |before| ensures before[..k] == log[..k] {}
  }

  /** A token that was not in a slot before place `from` of the log was added at or after it. */
  lemma {:induction false} WhoAdded(log: seq<Event>, from: nat, id: nat, token: string) returns (k: nat)
    requires Sequential(log) && from <= |log|
    requires token in Inserted(log, id) && token !in Inserted(log[..from], id)
    ensures from <= k < |log| && log[k].op == Add(id, token) && log[k].response.Added?
  {
    assert log[..|log|] == log;
    var before := log[..|log| - 1];
    if token in Inserted(before, id) {
      assert before[..from] == log[..from];
      SequentialBefore(log);
      k := WhoAdded(before, from, id, token);
    } else {
      k := |log| - 1;
    }
  }

  /** An exchange fails only if, since this call's read, another call has added to the slot a token that the set the
      read found did not have. */
  lemma FailureMeansGrowth(s: State, a: Action) returns (token: string, k: nat)
    requires Valid(s) && Fails(s, a)
    ensures var c := s.calls[a.call];
            && token !in Deref(s, c.pc.was) && token in Contents(s, c.op.id)
            && c.began <= c.readAt <= k < |s.log|
            && s.log[k].call != a.call && s.log[k].op == Add(c.op.id, token) && s.log[k].response.Added?
  {
    assert CallOk(s, a.call);
    var c := s.calls[a.call];
    token :| token in Contents(s, c.op.id) && token !in Deref(s, c.pc.was);
    k := WhoAdded(s.log, c.readAt, c.op.id, token);
  }

  /** The tokens that calls other than `i` have added to a slot from place `from` of the log on. */
  ghost function AddedByOthers(log: seq<Event>, from: nat, id: nat, i: nat): set<string> {
    set k | from <= k < |log| && log[k].call != i && log[k].response.Added? && log[k].op.Add? && log[k].op.id == id
      :: log[k].op.token
  }

  /** A call has failed at most as often as other calls have added a new token to its slot since it began. */
  lemma RetriesBounded(run: seq<Action>, i: nat)
    requires Possible(EMPTY, run) && i < |After(EMPTY, run).calls|
    ensures var s := After(EMPTY, run);
            var c := s.calls[i];
            c.retries <= |AddedByOthers(s.log, c.began, c.op.id, i)|
  {
    EmptyIsValid();
    RunKeeps(EMPTY, run);
    RetriesBoundedIn(After(EMPTY, run), i);
  }

  lemma RetriesBoundedIn(s: State, i: nat)
    requires Valid(s) && i < |s.calls|
    ensures var c := s.calls[i]; c.retries <= |AddedByOthers(s.log, c.began, c.op.id, i)|
  {
    var c := s.calls[i];
    assert CallOk(s, i);
    var start, now := Inserted(s.log[..c.began], c.op.id), Contents(s, c.op.id);
    var others := AddedByOthers(s.log, c.began, c.op.id, i);
    var own := if c.pc.Done? && s.log[c.pc.at].response.Added? then {c.op.token} else {};
    forall token | token in now - start ensures token in others + own {
      var k := WhoAdded(s.log, c.began, c.op.id, token);
    }
    SmallerSet(now - start, others + own);
    assert |now| <= |start| + |now - start| by {
      SmallerSet(now, start + (now - start));
    }
  }

  /** Calls that answered one after another swapped a slot's pointer once for each token it holds. */
  lemma {:induction false} SequentialExchanges(log: seq<Event>, id: nat)
    requires Sequential(log)
    ensures Exchanges(log, id) == |Inserted(log, id)|
  {
    if log != [] {
      var before := log[..|log| - 1];
      SequentialBefore(log);
      SequentialExchanges(before, id);
      var op := log[|log| - 1].op;
      if op.Add? && op.id == id {
        OneMoreToken(Inserted(before, id), op.token);
      }
    }
  }

  lemma OneMoreToken(tokens: set<string>, token: string)
    ensures |tokens + {token}| == |tokens| + if token in tokens then 0 else 1
  {
    if token in tokens {
      assert tokens + {token} == tokens;
    }
  }

  lemma ExchangesAreTokens(run: seq<Action>, id: nat)
    requires Possible(EMPTY, run)
    ensures Exchanges(After(EMPTY, run).log, id) == |Contents(After(EMPTY, run), id)|
  {
    RunsAreLinearizable(run);
    SequentialExchanges(After(EMPTY, run).log, id);
  }

  // ---- Termination ----

  /** How many own steps a call still needs if no other call swaps its slot meanwhile. */
  function Rank(s: State, c: Call): nat {
    match c.pc
    case Ready => if c.op.Add? then 3 else 2
    case Loaded(was) => if Slot(s, c.op.id) == was then 2 else 5
    case Copied(was, _) => if Slot(s, c.op.id) == was then 1 else 4
    case Holding(_, _) => 1
    case Done(_) => 0
  }

  function Ranks(s: State, calls: seq<Call>): nat {
    if calls == [] then 0 else Ranks(s, calls[..|calls| - 1]) + Rank(s, calls[|calls| - 1])
  }

  function Pending(calls: seq<Call>): nat {
    if calls == [] then 0
    else Pending(calls[..|calls| - 1]) + if calls[|calls| - 1].pc.Done? then 0 else 1
  }

  /** How many pairs n calls make. */
  function Pairs(n: nat): nat {
    if n == 0 then 0 else Pairs(n - 1) + (n - 1)
  }

  function Measure(s: State): nat {
    Ranks(s, s.calls) + 3 * Pairs(Pending(s.calls))
  }

  lemma {:induction false} OneCallMoves(s: State, s': State, calls: seq<Call>, i: nat, c: Call)
    requires i < |calls| && s'.slots == s.slots
    ensures Ranks(s', calls[i := c]) == Ranks(s, calls) - Rank(s, calls[i]) + Rank(s', c)
    ensures Pending(calls[i := c])
         == Pending(calls) - (if calls[i].pc.Done? then 0 else 1) + if c.pc.Done? then 0 else 1
  {
    var n := |calls| - 1;
    if i < n {
      assert calls[i := c][..n] == calls[..n][i := c];
      OneCallMoves(s, s', calls[..n], i, c);
    } else {
      assert calls[i := c][..n] == calls[..n];
      SameRanks(s, s', calls[..n]);
    }
  }

  lemma {:induction false} SameRanks(s: State, s': State, calls: seq<Call>)
    requires s'.slots == s.slots
    ensures Ranks(s', calls) == Ranks(s, calls)
  {
    if calls != [] {
      SameRanks(s, s', calls[..|calls| - 1]);
    }
  }

  /** A swap sets each pending call back by three steps at most, and finished ones not at all. */
  lemma {:induction false} SwapCosts(s: State, s': State, calls: seq<Call>)
    ensures Ranks(s', calls) <= Ranks(s, calls) + 3 * Pending(calls)
  {
    if calls != [] {
      SwapCosts(s, s', calls[..|calls| - 1]);
    }
  }

  lemma {:induction false} SwapCostsOthers(s: State, s': State, calls: seq<Call>, i: nat, c: Call)
    requires i < |calls| && !calls[i].pc.Done? && c.pc.Done?
    ensures Pending(calls) >= 1 && Pending(calls[i := c]) == Pending(calls) - 1
    ensures Ranks(s', calls[i := c]) <= Ranks(s, calls) - Rank(s, calls[i]) + 3 * (Pending(calls) - 1)
  {
    var n := |calls| - 1;
    if i < n {
      assert calls[i := c][..n] == calls[..n][i := c];
      SwapCostsOthers(s, s', calls[..n], i, c);
    } else {
      assert calls[i := c][..n] == calls[..n];
      SwapCosts(s, s', calls[..n]);
    }
  }

  lemma SwapLowersMeasure(s: State, a: Action)
    requires Valid(s) && Enabled(s, a) && a.Exchange? && IsEffect(s, a)
    ensures Measure(Next(s, a)) < Measure(s)
  {
    var i := a.call;
    var s' := Next(s, a);
    SwapCostsOthers(s, s', s.calls, i, s'.calls[i]);
    assert Pairs(Pending(s.calls)) == Pairs(Pending(s.calls) - 1) + (Pending(s.calls) - 1);
  }

  lemma MoveLowersMeasure(s: State, a: Action)
    requires Valid(s) && Enabled(s, a) && !a.Invoke? && !(a.Exchange? && IsEffect(s, a))
    ensures Measure(Next(s, a)) < Measure(s)
  {
    var i := a.call;
    var s' := Next(s, a);
    assert s'.calls == s.calls[i := s'.calls[i]];
    OneCallMoves(s, s', s.calls, i, s'.calls[i]);
    MoverRankDrops(s, a);
    PairsGrow(Pending(s'.calls), Pending(s.calls));
  }

  lemma {:induction false} PairsGrow(m: nat, n: nat)
    requires m <= n
    ensures Pairs(m) <= Pairs(n)
  {
    if m < n {
      PairsGrow(m, n - 1);
    }
  }

  /** Every step but a new call lowers the measure. */
  lemma StepLowersMeasure(s: State, a: Action)
    requires Valid(s) && Enabled(s, a) && !a.Invoke?
    ensures Measure(Next(s, a)) < Measure(s)
  {
    if a.Exchange? && IsEffect(s, a) {
      SwapLowersMeasure(s, a);
    } else {
      MoveLowersMeasure(s, a);
    }
  }

  lemma MoverRankDrops(s: State, a: Action)
    requires Enabled(s, a) && !a.Invoke? && !(a.Exchange? && IsEffect(s, a))
    ensures Rank(Next(s, a), Next(s, a).calls[a.call]) < Rank(s, s.calls[a.call])
    ensures !s.calls[a.call].pc.Done?
  {
  }

  predicate NoNewCalls(run: seq<Action>) {
    forall k :: 0 <= k < |run| ==> !run[k].Invoke?
  }

  lemma {:induction false} RunsEnd(s: State, run: seq<Action>)
    requires Valid(s) && Possible(s, run) && NoNewCalls(run)
    ensures |run| + Measure(After(s, run)) <= Measure(s)
    decreases |run|
  {
    if run != [] {
      StepKeeps(s, run[0]);
      StepLowersMeasure(s, run[0]);
      RunsEnd(Next(s, run[0]), run[1..]);
    }
  }

  lemma {:induction false} PendingRanks(s: State, calls: seq<Call>)
    requires forall i :: 0 <= i < |calls| ==> calls[i].pc.Ready? || calls[i].pc.Done?
    ensures Ranks(s, calls) <= 3 * Pending(calls)
  {
    if calls != [] {
      PendingRanks(s, calls[..|calls| - 1]);
    }
  }

  lemma {:induction false} PairsIs(n: nat)
    ensures 2 * (n + Pairs(n)) == n * (n + 1)
  {
    if n > 0 {
      PairsIs(n - 1);
    }
  }

  /** In any interleaving n calls that are about to start take at most 3n(n+1)/2 steps in all. */
  lemma CallsEnd(s: State, run: seq<Action>)
    requires Valid(s) && Possible(s, run) && NoNewCalls(run)
    requires forall i :: 0 <= i < |s.calls| ==> s.calls[i].pc.Ready? || s.calls[i].pc.Done?
    ensures var n := Pending(s.calls); 2 * |run| <= 3 * (n * (n + 1))
  {
    var n := Pending(s.calls);
    RunsEnd(s, run);
    PendingRanks(s, s.calls);
    PairsIs(n);
  }

  // ---- No call is ever stuck ----

  lemma {:induction false} UnusedBeyond(calls: seq<Call>) returns (p: Ptr)
    ensures forall q, i :: p <= q && 0 <= i < |calls| ==> !Refers(calls[i].pc, q)
  {
    if calls == [] {
      return 0;
    }
    var last := calls[|calls| - 1];
    p := UnusedBeyond(calls[..|calls| - 1]);
    forall q, i | p <= q && 0 <= i < |calls| - 1 ensures !Refers(calls[i].pc, q) {
      assert calls[i] == calls[..|calls| - 1][i];
    }
    match last.pc
    case Loaded(was) => if was.Some? && p <= was.value { p := was.value + 1; }
    case Copied(was, made) =>
      if p <= made { p := made + 1; }
      if was.Some? && p <= was.value { p := was.value + 1; }
    case Holding(result, _) => if result.Some? && p <= result.value { p := result.value + 1; }
    case _ =>
  }

  lemma {:induction false} Above(used: set<Ptr>) returns (p: Ptr)
    ensures forall q :: q in used ==> q < p
  {
    if used == {} {
      return 0;
    }
    var last :| last in used;
    p := Above(used - {last});
    assert used == used - {last} + {last};
    if p <= last {
      p := last + 1;
    }
  }

  lemma FreeExists(s: State) returns (p: Ptr)
    ensures Free(s, p)
  {
    var a := UnusedBeyond(s.calls);
    var b := Above(s.slots.Values);
    p := if a < b then b else a;
    forall id | id in s.slots ensures s.slots[id] != p {
      assert s.slots[id] in s.slots.Values;
    }
  }

  /** A call that is not done can always take a step, whatever the other calls are doing. */
  lemma NeverStuck(s: State, i: nat) returns (a: Action)
    requires Valid(s) && i < |s.calls| && !s.calls[i].pc.Done?
    ensures !a.Invoke? && a.call == i && Enabled(s, a)
  {
    assert CallOk(s, i);
    var c := s.calls[i];
    match c.pc
    case Ready => a := Read(i);
    case Loaded(was) =>
      if c.op.token in Deref(s, was) {
        a := ReturnFound(i);
      } else {
        var p := FreeExists(s);
        a := Copy(i, p);
      }
    case Copied(_, _) => a := Exchange(i);
    case Holding(_, _) => a := Release(i);
  }
}
