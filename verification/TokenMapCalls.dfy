/** What a run of the token map does for the calls its caller makes: from the actions of the run alone. */
module TokenMapCalls {
  import opened Options
  import opened TokenMap
  import opened TokenMapSafety
  import opened TokenMapProgress

  /** The operations a run invokes, in order. */
  function Invoked(run: seq<Action>): seq<Op> {
    if run == [] then [] else (if run[0].Invoke? then [run[0].op] else []) + Invoked(run[1..])
  }

  function Ops(calls: seq<Call>): (ops: seq<Op>)
    ensures |ops| == |calls|
    ensures forall i :: 0 <= i < |calls| ==> ops[i] == calls[i].op
  {
    seq(|calls|, i requires 0 <= i < |calls| => calls[i].op)
  }

  lemma StepCalls(s: State, a: Action)
    requires Enabled(s, a)
    ensures Ops(Next(s, a).calls) == Ops(s.calls) + if a.Invoke? then [a.op] else []
  {
  }

  lemma FirstStep(s: State, run: seq<Action>)
    requires run != [] && Possible(s, run)
    ensures Enabled(s, run[0]) && Possible(Next(s, run[0]), run[1..])
    ensures After(s, run) == After(Next(s, run[0]), run[1..])
    ensures Invoked(run) == (if run[0].Invoke? then [run[0].op] else []) + Invoked(run[1..])
  {
  }

  lemma {:induction false} RunCalls(s: State, run: seq<Action>)
    requires Possible(s, run)
    ensures Ops(After(s, run).calls) == Ops(s.calls) + Invoked(run)
    decreases |run|
  {
    if run != [] {
      FirstStep(s, run);
      StepCalls(s, run[0]);
      RunCalls(Next(s, run[0]), run[1..]);
      Associative(Ops(s.calls), if run[0].Invoke? then [run[0].op] else [], Invoked(run[1..]));
    }
  }

  lemma Associative<T>(a: seq<T>, b: seq<T>, c: seq<T>)
    ensures (a + b) + c == a + (b + c)
  {
  }

  /** The calls of a run are those it invokes, in order, each with the operation it was invoked with. */
  lemma CallsAreInvoked(run: seq<Action>)
    requires Possible(EMPTY, run)
    ensures Ops(After(EMPTY, run).calls) == Invoked(run)
  {
    RunCalls(EMPTY, run);
  }

  lemma {:induction false} InvokedInRun(run: seq<Action>, i: nat) returns (k: nat)
    requires i < |Invoked(run)|
    ensures k < |run| && run[k] == Invoke(Invoked(run)[i])
  {
    if run[0].Invoke? && i == 0 {
      k := 0;
    } else {
      k := InvokedInRun(run[1..], if run[0].Invoke? then i - 1 else i);
      k := k + 1;
    }
  }

  lemma {:induction false} LoggedIsInserted(log: seq<Event>, k: nat)
    requires k < |log| && log[k].op.Add?
    ensures log[k].op.token in Inserted(log, log[k].op.id)
  {
    if k < |log| - 1 {
      LoggedIsInserted(log[..|log| - 1], k);
    }
  }

  lemma {:induction false} InsertedIsLogged(log: seq<Event>, id: nat, token: string) returns (k: nat)
    requires token in Inserted(log, id)
    ensures k < |log| && log[k].op == Add(id, token)
  {
    if log[|log| - 1].op == Add(id, token) {
      k := |log| - 1;
    } else {
      k := InsertedIsLogged(log[..|log| - 1], id, token);
    }
  }

  /** A slot only ever holds tokens that the run was asked to add to it. */
  lemma OnlyInvokedTokens(run: seq<Action>, id: nat, token: string) returns (k: nat)
    requires Possible(EMPTY, run) && token in Contents(After(EMPTY, run), id)
    ensures k < |run| && run[k] == Invoke(Add(id, token))
  {
    var s := After(EMPTY, run);
    EmptyIsValid();
    RunKeeps(EMPTY, run);
    CallsAreInvoked(run);
    var at := InsertedIsLogged(s.log, id, token);
    var i := s.log[at].call;
    assert CallOk(s, i);
    assert Ops(s.calls)[i] == Add(id, token);
    k := InvokedInRun(run, i);
  }

  /** A slot holds the token of every finished call that was invoked to add to it. */
  lemma FinishedTokens(run: seq<Action>, i: nat)
    requires Possible(EMPTY, run) && i < |Invoked(run)| && Invoked(run)[i].Add?
    ensures i < |After(EMPTY, run).calls|
    ensures After(EMPTY, run).calls[i].pc.Done? ==>
      Invoked(run)[i].token in Contents(After(EMPTY, run), Invoked(run)[i].id)
  {
    var s := After(EMPTY, run);
    EmptyIsValid();
    RunKeeps(EMPTY, run);
    CallsAreInvoked(run);
    assert Ops(s.calls)[i] == Invoked(run)[i];
    assert CallOk(s, i);
    if s.calls[i].pc.Done? {
      LoggedIsInserted(s.log, s.calls[i].pc.at);
    }
  }

  predicate AllDone(s: State) {
    forall i :: 0 <= i < |s.calls| ==> s.calls[i].pc.Done?
  }

  /** When all calls are done, a slot holds exactly the tokens that calls were invoked to add to it. */
  lemma DoneTokensAreInvoked(run: seq<Action>, id: nat, token: string)
    requires Possible(EMPTY, run) && AllDone(After(EMPTY, run))
    ensures token in Contents(After(EMPTY, run), id) <==> Add(id, token) in Invoked(run)
  {
    CallsAreInvoked(run);
    if token in Contents(After(EMPTY, run), id) {
      var k := OnlyInvokedTokens(run, id, token);
      RunInvokes(run, k);
    }
    if Add(id, token) in Invoked(run) {
      var i :| 0 <= i < |Invoked(run)| && Invoked(run)[i] == Add(id, token);
      FinishedTokens(run, i);
    }
  }

  lemma {:induction false} RunInvokes(run: seq<Action>, k: nat)
    requires k < |run| && run[k].Invoke?
    ensures run[k].op in Invoked(run)
  {
    if k > 0 {
      RunInvokes(run[1..], k - 1);
    }
  }

  // ---- Any calls can be made, and can finish ----

  lemma ThenRun(s: State, a: Action, s': State, rest: seq<Action>)
    requires Enabled(s, a) && s' == Next(s, a) && Possible(s', rest)
    ensures Possible(s, [a] + rest) && After(s, [a] + rest) == After(s', rest)
    ensures Invoked([a] + rest) == (if a.Invoke? then [a.op] else []) + Invoked(rest)
  {
    assert ([a] + rest)[1..] == rest;
  }

  lemma {:induction false} AfterConcat(s: State, run: seq<Action>, more: seq<Action>)
    requires Possible(s, run) && Possible(After(s, run), more)
    ensures Possible(s, run + more) && After(s, run + more) == After(After(s, run), more)
    ensures Invoked(run + more) == Invoked(run) + Invoked(more)
    decreases |run|
  {
    if run == [] {
      assert run + more == more;
    } else {
      FirstStep(s, run);
      AfterConcat(Next(s, run[0]), run[1..], more);
      ThenRun(s, run[0], Next(s, run[0]), run[1..] + more);
      Associative([run[0]], run[1..], more);
      Associative(if run[0].Invoke? then [run[0].op] else [], Invoked(run[1..]), Invoked(more));
      assert [run[0]] + run[1..] == run;
    }
  }

  /** From every reachable state the pending calls can be run to their ends. */
  lemma {:induction false} CallsCanFinish(s: State) returns (run: seq<Action>)
    requires Valid(s)
    ensures Possible(s, run) && Invoked(run) == [] && AllDone(After(s, run))
    decreases Measure(s)
  {
    if AllDone(s) {
      run := [];
    } else {
      var i :| 0 <= i < |s.calls| && !s.calls[i].pc.Done?;
      var a := NeverStuck(s, i);
      StepKeeps(s, a);
      StepLowersMeasure(s, a);
      var rest := CallsCanFinish(Next(s, a));
      ThenRun(s, a, Next(s, a), rest);
      run := [a] + rest;
    }
  }

  lemma {:induction false} CallsCanBegin(s: State, ops: seq<Op>) returns (run: seq<Action>)
    requires Valid(s) && forall i :: 0 <= i < |ops| ==> ops[i].id < 152588
    ensures Possible(s, run) && Invoked(run) == ops
    decreases |ops|
  {
    if ops == [] {
      run := [];
    } else {
      StepKeeps(s, Invoke(ops[0]));
      var rest := CallsCanBegin(Next(s, Invoke(ops[0])), ops[1..]);
      ThenRun(s, Invoke(ops[0]), Next(s, Invoke(ops[0])), rest);
      run := [Invoke(ops[0])] + rest;
    }
  }

  /** Any calls whatever on the 152588 slots can be made together and run to their ends, and then every slot holds
      exactly the tokens they were to add. */
  lemma AnyCallsComplete(ops: seq<Op>) returns (run: seq<Action>)
    requires forall i :: 0 <= i < |ops| ==> ops[i].id < 152588
    ensures Possible(EMPTY, run) && Invoked(run) == ops && AllDone(After(EMPTY, run))
    ensures forall id: nat, token :: token in Contents(After(EMPTY, run), id) <==> Add(id, token) in ops
  {
    EmptyIsValid();
    var begin := CallsCanBegin(EMPTY, ops);
    RunKeeps(EMPTY, begin);
    var finish := CallsCanFinish(After(EMPTY, begin));
    AfterConcat(EMPTY, begin, finish);
    run := begin + finish;
    forall id: nat, token ensures token in Contents(After(EMPTY, run), id) <==> Add(id, token) in ops {
      DoneTokensAreInvoked(run, id, token);
    }
  }

  /** A reader that has been answered holds the token of every call on its slot that had finished before the reader was
      made. */
  lemma ReadersSeeFinished(before: seq<Action>, more: seq<Action>, i: nat, j: nat)
    requires Possible(EMPTY, before) && Possible(After(EMPTY, before), more)
    requires i < |Invoked(before)| && Invoked(before)[i].Add?
    requires i < |After(EMPTY, before).calls| && After(EMPTY, before).calls[i].pc.Done?
    requires |Invoked(before)| <= j < |Invoked(before + more)|
    requires Invoked(before + more)[j] == Get(Invoked(before)[i].id)
    ensures var s := After(After(EMPTY, before), more);
            && j < |s.calls|
            && (s.calls[j].pc.Holding? ==> Invoked(before)[i].token in Deref(s, s.calls[j].pc.result))
  {
    EmptyIsValid();
    RunKeeps(EMPTY, before);
    var mid := After(EMPTY, before);
    RunKeeps(mid, more);
    var s := After(mid, more);
    AfterConcat(EMPTY, before, more);
    CallsAreInvoked(before);
    CallsAreInvoked(before + more);
    assert Ops(mid.calls)[i] == Invoked(before)[i] && Ops(s.calls)[j] == Invoked(before + more)[j];
    if s.calls[j].pc.Holding? {
      LogRespectsTime(mid, more, i, j);
      SnapshotIs(s, j);
      assert CallOk(mid, i);
      var at, read := mid.calls[i].pc.at, s.calls[j].pc.at;
      PrefixAt(mid.log, s.log, at);
      assert s.log[..read][at] == s.log[at];
      LoggedIsInserted(s.log[..read], at);
    }
  }
}
