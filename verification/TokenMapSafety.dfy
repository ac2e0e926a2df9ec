/** What every interleaving of the token map's calls keeps. */
module TokenMapSafety {
  import opened Options
  import opened TokenMap
  import opened Sets

  lemma NextLog(log: seq<Event>, e: Event)
    requires Sequential(log) && e.response == Answer(e.op, Inserted(log, e.op.id))
    ensures Sequential(log + [e])
    ensures forall id: nat :: Inserted(log + [e], id)
                           == Inserted(log, id) + if e.op.Add? && e.op.id == id then {e.op.token} else {}
  {
    var log' := log + [e];
    assert log'[..|log|] == log;
    forall k | 0 <= k < |log'| ensures log'[k].response == Answer(log'[k].op, Inserted(log'[..k], log'[k].op.id)) {
      if k < |log| {
        assert log'[..k] == log[..k];
      }
    }
  }

  /** Nothing a slot or a running call refers to has changed. */
  ghost predicate Untouched(s: State, s': State) {
    forall p :: p in s.heap && !Free(s, p) ==> p in s'.heap && s'.heap[p] == s.heap[p]
  }

  /** A call that stands still keeps its part of the invariant when only free addresses are written, the log only
      gains another call's event, and its slot either keeps its pointer or gains a token. */
  lemma StandsStill(s: State, s': State, j: nat)
    requires j < |s.calls| && j < |s'.calls| && s'.calls[j] == s.calls[j] && CallOk(s, j)
    requires Untouched(s, s')
    requires s.log <= s'.log && forall k :: |s.log| <= k < |s'.log| ==> s'.log[k].call != j
    requires var id := s.calls[j].op.id;
             || (Slot(s', id) == Slot(s, id) && Contents(s', id) == Contents(s, id))
             || Contents(s, id) < Contents(s', id)
    requires s.calls[j].pc.Copied? ==> Private(s', j, s.calls[j].pc.made)
    ensures CallOk(s', j)
  {
    var c := s.calls[j];
    assert CallOk(s, j);
    SameStart(s.log, s'.log, c.began);
    if c.readAt <= |s.log| {
      SameStart(s.log, s'.log, c.readAt);
    }
    SmallerSet(Contents(s, c.op.id), Contents(s', c.op.id));
    match c.pc
    case Ready =>
    case Done(at) =>
    case Loaded(was) => SameDeref(s, s', j, was);
    case Holding(result, at) => SameDeref(s, s', j, result);
    case Copied(was, made) =>
      SameDeref(s, s', j, was);
      SameDeref(s, s', j, Some(made));
  }

  lemma SameStart(log: seq<Event>, log': seq<Event>, began: nat)
    requires log <= log' && began <= |log|
    ensures log'[..began] == log[..began]
  {
  }

  lemma SameDeref(s: State, s': State, j: nat, p: Option<Ptr>)
    requires Untouched(s, s') && j < |s.calls|
    requires p.Some? ==> p.value in s.heap && Refers(s.calls[j].pc, p.value)
    ensures Deref(s', p) == Deref(s, p)
    ensures p.Some? ==> p.value in s'.heap
  {
    if p.Some? {
      assert !Free(s, p.value);
    }
  }

  lemma SameContents(s: State, s': State, id: nat)
    requires SlotsOk(s) && Untouched(s, s') && Slot(s', id) == Slot(s, id)
    ensures Contents(s', id) == Contents(s, id)
  {
    if id in s.slots {
      assert !Free(s, s.slots[id]);
    }
  }

  lemma NewCallOk(s: State, op: Op)
    requires LogOk(s) && Enabled(s, Invoke(op)) && Contents(s, op.id) == Inserted(s.log, op.id)
    ensures CallOk(Next(s, Invoke(op)), |s.calls|)
  {
    assert s.log[..|s.log|] == s.log;
    assert Contents(Next(s, Invoke(op)), op.id) == Contents(s, op.id);
  }

  lemma OldCallOk(s: State, op: Op, j: nat)
    requires Enabled(s, Invoke(op)) && SlotsOk(s) && j < |s.calls| && CallOk(s, j)
    ensures CallOk(Next(s, Invoke(op)), j)
  {
    var s' := Next(s, Invoke(op));
    SameContents(s, s', s.calls[j].op.id);
    StandsStill(s, s', j);
  }

  lemma InvokeKeeps(s: State, op: Op)
    requires Valid(s) && Enabled(s, Invoke(op))
    ensures Valid(Next(s, Invoke(op)))
  {
    var s' := Next(s, Invoke(op));
    forall id: nat ensures Contents(s', id) == Contents(s, id) {}
    NewCallOk(s, op);
    forall j | 0 <= j < |s.calls| ensures CallOk(s', j) {
      OldCallOk(s, op, j);
    }
  }

  /** A step that neither logs nor swaps: call `i` moves, and what it newly refers to was free or in a slot. */
  ghost predicate Quiet(s: State, s': State, i: nat) {
    && i < |s.calls| == |s'.calls|
    && s'.slots == s.slots && s'.log == s.log && Untouched(s, s')
    && (forall j :: 0 <= j < |s.calls| && j != i ==> s'.calls[j] == s.calls[j])
    && (forall p :: Refers(s'.calls[i].pc, p) ==> Refers(s.calls[i].pc, p) || Free(s, p) || p in s.slots.Values)
    && (Finished(s.calls[i].pc) ==> Finished(s'.calls[i].pc) && s'.calls[i].pc.at == s.calls[i].pc.at)
  }

  lemma QuietForOthers(s: State, s': State, i: nat, j: nat)
    requires Quiet(s, s', i) && SlotsOk(s) && j < |s.calls| && j != i && CallOk(s, j)
    ensures CallOk(s', j)
  {
    SameContents(s, s', s.calls[j].op.id);
    StandsStill(s, s', j);
  }

  lemma QuietForSlots(s: State, s': State, i: nat)
    requires Quiet(s, s', i) && SlotsOk(s)
    ensures SlotsOk(s') && forall id: nat :: Contents(s', id) == Contents(s, id)
  {
    forall id: nat ensures Contents(s', id) == Contents(s, id) {
      SameContents(s, s', id);
    }
    forall id | id in s.slots ensures s.slots[id] in s'.heap && s'.heap[s.slots[id]] != {} {
      assert !Free(s, s.slots[id]);
    }
  }

  lemma QuietKeeps(s: State, s': State, i: nat)
    requires Valid(s) && Quiet(s, s', i) && CallOk(s', i)
    ensures Valid(s')
  {
    QuietForSlots(s, s', i);
    forall j | 0 <= j < |s.calls| ensures CallOk(s', j) {
      if j != i {
        QuietForOthers(s, s', i, j);
      }
    }
  }

  /** A step by which call `i` takes effect and answers `response`; an insertion may swap its slot's pointer. */
  ghost predicate Effect(s: State, s': State, i: nat, response: Response) {
    && i < |s.calls| == |s'.calls| && !Finished(s.calls[i].pc)
    && s'.heap == s.heap
    && s'.log == s.log + [Event(i, s.calls[i].op, response)]
    && response == Answer(s.calls[i].op, Contents(s, s.calls[i].op.id))
    && (forall j :: 0 <= j < |s.calls| && j != i ==> s'.calls[j] == s.calls[j])
    && Finished(s'.calls[i].pc) && s'.calls[i].pc.at == |s.log|
    && (forall id: nat :: Slot(s', id) == Slot(s, id) || (id == s.calls[i].op.id && response.Added?))
    && (forall id: nat :: Contents(s', id) == Contents(s, id)
                       + if s.calls[i].op.Add? && s.calls[i].op.id == id then {s.calls[i].op.token} else {})
    && (forall p :: p in s'.slots.Values ==> p in s.slots.Values || Refers(s.calls[i].pc, p))
    && (forall p :: Refers(s'.calls[i].pc, p) ==> p in s'.slots.Values)
  }

  lemma EffectForOthers(s: State, s': State, i: nat, response: Response, j: nat)
    requires Effect(s, s', i, response) && j < |s.calls| && j != i && CallOk(s, j)
    ensures CallOk(s', j)
  {
    if s.calls[j].pc.Copied? {
      PrivateStays(s, s', i, j);
    }
    StandsStill(s, s', j);
  }

  lemma EffectForLog(s: State, s': State, i: nat, response: Response)
    requires Effect(s, s', i, response) && LogOk(s) && Unlogged(s.log, i)
    ensures LogOk(s')
  {
  }

  lemma EffectKeeps(s: State, s': State, i: nat, response: Response)
    requires Valid(s) && Effect(s, s', i, response) && SlotsOk(s') && CallOk(s', i)
    ensures Valid(s')
  {
    NextLog(s.log, Event(i, s.calls[i].op, response));
    assert CallOk(s, i);
    EffectForLog(s, s', i, response);
    forall j | 0 <= j < |s.calls| ensures CallOk(s', j) {
      if j != i {
        EffectForOthers(s, s', i, response, j);
      }
    }
  }

  lemma PrivateStays(s: State, s': State, i: nat, j: nat)
    requires i < |s.calls| == |s'.calls| && j < |s.calls| && i != j
    requires CallOk(s, j) && s.calls[j].pc.Copied?
    requires forall k :: 0 <= k < |s.calls| && k != i ==> s'.calls[k] == s.calls[k]
    requires forall p :: p in s'.slots.Values ==> p in s.slots.Values || Refers(s.calls[i].pc, p)
    requires forall p :: Refers(s'.calls[i].pc, p) ==> p in s'.slots.Values
    ensures Private(s', j, s.calls[j].pc.made)
  {
    var p := s.calls[j].pc.made;
    assert !Refers(s.calls[i].pc, p);
    assert p !in s.slots.Values;
    assert p !in s'.slots.Values;
  }

  lemma GetTakesEffect(s: State, i: nat)
    requires Enabled(s, Read(i)) && s.calls[i].op.Get? && SlotsOk(s) && CallOk(s, i)
    ensures var s' := Next(s, Read(i));
            Effect(s, s', i, Tokens(Contents(s, s.calls[i].op.id))) && SlotsOk(s') && CallOk(s', i)
  {
    var s' := Next(s, Read(i));
    SameStart(s.log, s'.log, s.calls[i].began);
    forall id: nat ensures Contents(s', id) == Contents(s, id) {}
  }

  lemma ReadIsQuiet(s: State, i: nat)
    requires Enabled(s, Read(i)) && s.calls[i].op.Add? && SlotsOk(s) && CallOk(s, i)
    requires Contents(s, s.calls[i].op.id) == Inserted(s.log, s.calls[i].op.id)
    ensures Quiet(s, Next(s, Read(i)), i) && CallOk(Next(s, Read(i)), i)
  {
    assert s.log[..|s.log|] == s.log;
  }

  lemma ReturnTakesEffect(s: State, i: nat)
    requires Enabled(s, ReturnFound(i)) && SlotsOk(s) && CallOk(s, i)
    ensures var s' := Next(s, ReturnFound(i));
            Effect(s, s', i, AlreadyThere) && SlotsOk(s') && CallOk(s', i)
  {
    var s' := Next(s, ReturnFound(i));
    SameStart(s.log, s'.log, s.calls[i].began);
    forall id: nat ensures Contents(s', id) == Contents(s, id) {}
  }

  lemma CopyIsQuiet(s: State, i: nat, p: Ptr)
    requires Enabled(s, Copy(i, p)) && SlotsOk(s) && CallOk(s, i)
    ensures Quiet(s, Next(s, Copy(i, p)), i) && CallOk(Next(s, Copy(i, p)), i)
  {
    var s' := Next(s, Copy(i, p));
    assert Untouched(s, s');
    SameDeref(s, s', i, s.calls[i].pc.was);
    SameContents(s, s', s.calls[i].op.id);
  }

  ghost predicate Swaps(s: State, i: nat) {
    && Enabled(s, Exchange(i)) && Slot(s, s.calls[i].op.id) == s.calls[i].pc.was
    && SlotsOk(s) && CallOk(s, i)
  }

  lemma SwapContents(s: State, i: nat)
    requires Swaps(s, i)
    ensures var s' := Next(s, Exchange(i));
            var op := s.calls[i].op;
            && op.token !in Contents(s, op.id)
            && forall id: nat :: Contents(s', id) == Contents(s, id) + if op.id == id then {op.token} else {}
  {
    var s' := Next(s, Exchange(i));
    var op := s.calls[i].op;
    forall id: nat ensures Contents(s', id) == Contents(s, id) + if op.id == id then {op.token} else {} {}
  }

  lemma SwapCallOk(s: State, i: nat)
    requires Swaps(s, i)
    ensures CallOk(Next(s, Exchange(i)), i)
  {
    var s' := Next(s, Exchange(i));
    var c := s.calls[i];
    SwapContents(s, i);
    SameStart(s.log, s'.log, c.began);
    SmallerSet(Contents(s, c.op.id), Contents(s', c.op.id));
  }

  lemma SwapTakesEffect(s: State, i: nat)
    requires Swaps(s, i)
    ensures Effect(s, Next(s, Exchange(i)), i, Added) && SlotsOk(Next(s, Exchange(i)))
  {
    SwapContents(s, i);
    assert Next(s, Exchange(i)).slots.Values <= s.slots.Values + {s.calls[i].pc.made};
  }

  lemma RetryIsQuiet(s: State, i: nat)
    requires Enabled(s, Exchange(i)) && Slot(s, s.calls[i].op.id) != s.calls[i].pc.was && SlotsOk(s) && CallOk(s, i)
    ensures Quiet(s, Next(s, Exchange(i)), i) && CallOk(Next(s, Exchange(i)), i)
  {
    SmallerSet(Deref(s, s.calls[i].pc.was), Contents(s, s.calls[i].op.id));
  }

  lemma ReleaseIsQuiet(s: State, i: nat)
    requires Enabled(s, Release(i)) && SlotsOk(s) && CallOk(s, i)
    ensures Quiet(s, Next(s, Release(i)), i) && CallOk(Next(s, Release(i)), i)
  {
  }

  /** Whether a step is the one by which its call takes effect, rather than one only its own call can notice. */
  predicate IsEffect(s: State, a: Action)
    requires Enabled(s, a)
  {
    match a
    case Read(i) => s.calls[i].op.Get?
    case ReturnFound(i) => true
    case Exchange(i) => Slot(s, s.calls[i].op.id) == s.calls[i].pc.was
    case _ => false
  }

  function ResponseOf(s: State, a: Action): Response
    requires Enabled(s, a) && IsEffect(s, a)
  {
    match a
    case Read(i) => Tokens(Contents(s, s.calls[i].op.id))
    case ReturnFound(i) => AlreadyThere
    case Exchange(i) => Added
  }

  lemma StepShape(s: State, a: Action)
    requires Enabled(s, a) && !a.Invoke? && SlotsOk(s) && CallOk(s, a.call)
    requires Contents(s, s.calls[a.call].op.id) == Inserted(s.log, s.calls[a.call].op.id)
    ensures CallOk(Next(s, a), a.call)
    ensures IsEffect(s, a) ==> Effect(s, Next(s, a), a.call, ResponseOf(s, a)) && SlotsOk(Next(s, a))
    ensures !IsEffect(s, a) ==> Quiet(s, Next(s, a), a.call)
  {
    match a
    case Read(i) => if s.calls[i].op.Get? { GetTakesEffect(s, i); } else { ReadIsQuiet(s, i); }
    case ReturnFound(i) => ReturnTakesEffect(s, i);
    case Copy(i, p) => CopyIsQuiet(s, i, p);
    case Exchange(i) => if IsEffect(s, a) { SwapCallOk(s, i); SwapTakesEffect(s, i); } else { RetryIsQuiet(s, i); }
    case Release(i) => ReleaseIsQuiet(s, i);
  }

  lemma StepKeeps(s: State, a: Action)
    requires Valid(s) && Enabled(s, a)
    ensures Valid(Next(s, a))
  {
    if a.Invoke? {
      InvokeKeeps(s, a.op);
    } else {
      StepShape(s, a);
      if IsEffect(s, a) {
        EffectKeeps(s, Next(s, a), a.call, ResponseOf(s, a));
      } else {
        QuietKeeps(s, Next(s, a), a.call);
      }
    }
  }

  /** Each step either leaves what every reader would be given, or is one call acting alone: it answers what that call
      would answer on the slot's set, and leaves the set that call would leave. */
  lemma StepIsAtomic(s: State, a: Action)
    requires Valid(s) && Enabled(s, a)
    ensures !IsEffect(s, a) ==>
              && Next(s, a).log == s.log
              && forall id: nat :: Contents(Next(s, a), id) == Contents(s, id)
    ensures IsEffect(s, a) ==>
              var op := s.calls[a.call].op;
              && Next(s, a).log == s.log + [Event(a.call, op, Answer(op, Contents(s, op.id)))]
              && forall id: nat :: Contents(Next(s, a), id)
                                == Contents(s, id) + if op.Add? && op.id == id then {op.token} else {}
  {
    if !a.Invoke? {
      assert CallOk(s, a.call);
      StepShape(s, a);
      if !IsEffect(s, a) {
        QuietForSlots(s, Next(s, a), a.call);
      }
    }
  }

  /** Published sets only grow, the log is only added to, and a call is never forgotten. */
  lemma StepGrows(s: State, a: Action)
    requires Valid(s) && Enabled(s, a)
    ensures s.log <= Next(s, a).log && |s.calls| <= |Next(s, a).calls|
    ensures forall id: nat :: Contents(s, id) <= Contents(Next(s, a), id)
  {
    StepIsAtomic(s, a);
  }

  // ---- Whole runs ----

  lemma EmptyIsValid()
    ensures Valid(EMPTY)
  {
  }

  /** Whatever the calls are and however their steps interleave, the invariant holds and nothing is ever lost. */
  lemma {:induction false} RunKeeps(s: State, run: seq<Action>)
    requires Valid(s) && Possible(s, run)
    ensures Valid(After(s, run))
    ensures s.log <= After(s, run).log && |s.calls| <= |After(s, run).calls|
    ensures forall id: nat :: Contents(s, id) <= Contents(After(s, run), id)
    decreases |run|
  {
    if run != [] {
      StepKeeps(s, run[0]);
      StepGrows(s, run[0]);
      RunKeeps(Next(s, run[0]), run[1..]);
      var mid := Next(s, run[0]).log;
      assert s.log == mid[..|s.log|] == After(s, run).log[..|s.log|];
    }
  }

  /** In every run from the empty map the calls that have taken effect answered as if they had run one after another,
      in the order of the log, each slot holds exactly the tokens they inserted, and no published set is empty. */
  lemma RunsAreLinearizable(run: seq<Action>)
    requires Possible(EMPTY, run)
    ensures var s := After(EMPTY, run);
            && Sequential(s.log)
            && (forall id: nat :: Contents(s, id) == Inserted(s.log, id))
            && (forall id :: id in s.slots ==> Contents(s, id) != {})
  {
    EmptyIsValid();
    RunKeeps(EMPTY, run);
  }

  /** Every finished call has exactly one place in the log, and a call that has not finished has none. */
  lemma TakesEffectOnce(run: seq<Action>, i: nat)
    requires Possible(EMPTY, run) && i < |After(EMPTY, run).calls|
    ensures var s := After(EMPTY, run);
            && (Finished(s.calls[i].pc) ==>
                  s.calls[i].pc.at < |s.log|
                  && forall k :: 0 <= k < |s.log| ==> (s.log[k].call == i <==> k == s.calls[i].pc.at))
            && (!Finished(s.calls[i].pc) ==> Unlogged(s.log, i))
  {
    EmptyIsValid();
    RunKeeps(EMPTY, run);
    assert CallOk(After(EMPTY, run), i);
  }

  lemma PrefixAt(log: seq<Event>, log': seq<Event>, k: nat)
    requires log <= log' && k < |log|
    ensures log'[k] == log[k]
  {
  }

  /** The order of the log respects time: a call that finished before another was made comes first. */
  lemma LogRespectsTime(s: State, run: seq<Action>, i: nat, j: nat)
    requires Valid(s) && Possible(s, run) && i < |s.calls| && Finished(s.calls[i].pc)
    requires |s.calls| <= j < |After(s, run).calls| && Finished(After(s, run).calls[j].pc)
    ensures s.calls[i].pc.at < After(s, run).calls[j].pc.at
  {
    RunKeeps(s, run);
    assert CallOk(s, i);
    var s' := After(s, run);
    assert CallOk(s', j);
    forall k | 0 <= k < |s.log| ensures s'.log[k].call < |s.calls| {
      PrefixAt(s.log, s'.log, k);
    }
  }

  /** The set a reader was given stays as it was for as long as the reader holds it. */
  lemma SnapshotsStay(run: seq<Action>, i: nat)
    requires Possible(EMPTY, run)
    requires i < |After(EMPTY, run).calls| && After(EMPTY, run).calls[i].pc.Holding?
    ensures var s := After(EMPTY, run);
            var pc := s.calls[i].pc;
            && pc.at < |s.log|
            && Deref(s, pc.result) == Inserted(s.log[..pc.at], s.calls[i].op.id)
            && (pc.result.None? <==> Deref(s, pc.result) == {})
  {
    EmptyIsValid();
    RunKeeps(EMPTY, run);
    SnapshotIs(After(EMPTY, run), i);
  }

  lemma SnapshotIs(s: State, i: nat)
    requires Valid(s) && i < |s.calls| && s.calls[i].pc.Holding?
    ensures var pc := s.calls[i].pc;
            && pc.at < |s.log|
            && Deref(s, pc.result) == Inserted(s.log[..pc.at], s.calls[i].op.id)
            && (pc.result.None? <==> Deref(s, pc.result) == {})
  {
    assert CallOk(s, i);
  }
}
