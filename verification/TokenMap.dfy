/**
 * The map from stem ids to published token sets, shared without locks. A writer reads the slot's pointer,
 * builds a private copy of the set behind it with its token added, and swaps the pointer in if the slot still
 * holds the one it read; otherwise it starts over. Any number of calls run at once, and their steps interleave
 * in any order. Each read of a slot and each exchange is one atomic step.
 */
module TokenMap {
  import opened Options

  /** Where a set lives. An address is free for reuse as soon as no slot and no running call refers to it. */
  type Ptr = nat

  const MAX_STEMS_NO: nat := 152588

  datatype Op = Add(id: nat, token: string) | Get(id: nat)

  /** How far a call has come; `was`, `made` and `result` are the references it holds. */
  datatype Pc =
    | Ready
    | Loaded(was: Option<Ptr>)
    | Copied(was: Option<Ptr>, made: Ptr)
    | Holding(result: Option<Ptr>, at: nat)
    | Done(at: nat)

  /** One call, with what the proofs remember of it: when it began, its slot's size then,
      where the log stood at its last read, its failed exchanges. */
  datatype Call = Call(op: Op, pc: Pc, began: nat, sizeAtStart: nat, readAt: nat, retries: nat)

  datatype Response = Added | AlreadyThere | Tokens(tokens: set<string>)

  /** A call that has taken effect, and what it answered. */
  datatype Event = Event(call: nat, op: Op, response: Response)

  datatype State = State(slots: map<nat, Ptr>, heap: map<Ptr, set<string>>, calls: seq<Call>, log: seq<Event>)

  const EMPTY: State := State(map[], map[], [], [])

  function Slot(s: State, id: nat): Option<Ptr> {
    if id in s.slots then Some(s.slots[id]) else None
  }

  function Deref(s: State, p: Option<Ptr>): set<string> {
    if p.Some? && p.value in s.heap then s.heap[p.value] else {}
  }

  /** What a reader of a slot would be given now. */
  function Contents(s: State, id: nat): set<string> {
    Deref(s, Slot(s, id))
  }

  // ---- Steps ----

  datatype Action =
    | Invoke(op: Op)
    | Read(call: nat)
    | ReturnFound(call: nat)
    | Copy(call: nat, p: Ptr)
    | Exchange(call: nat)
    | Release(call: nat)

  predicate Refers(pc: Pc, p: Ptr) {
    match pc
    case Loaded(was) => was == Some(p)
    case Copied(was, made) => was == Some(p) || made == p
    case Holding(result, _) => result == Some(p)
    case _ => false
  }

  predicate Free(s: State, p: Ptr) {
    && (forall id :: id in s.slots ==> s.slots[id] != p)
    && (forall i :: 0 <= i < |s.calls| ==> !Refers(s.calls[i].pc, p))
  }

  predicate Enabled(s: State, a: Action) {
    match a
    case Invoke(op) => op.id < MAX_STEMS_NO
    case Read(i) => i < |s.calls| && s.calls[i].pc.Ready?
    case ReturnFound(i) =>
      && i < |s.calls| && s.calls[i].pc.Loaded? && s.calls[i].op.Add?
      && s.calls[i].op.token in Deref(s, s.calls[i].pc.was)
    case Copy(i, p) =>
      && i < |s.calls| && s.calls[i].pc.Loaded? && s.calls[i].op.Add?
      && s.calls[i].op.token !in Deref(s, s.calls[i].pc.was)
      && Free(s, p)
    case Exchange(i) => i < |s.calls| && s.calls[i].pc.Copied? && s.calls[i].op.Add?
    case Release(i) => i < |s.calls| && s.calls[i].pc.Holding?
  }

  function Next(s: State, a: Action): State
    requires Enabled(s, a)
  {
    match a
    case Invoke(op) =>
      s.(calls := s.calls + [Call(op, Ready, |s.log|, |Contents(s, op.id)|, |s.log|, 0)])
    case Read(i) =>
      var c := s.calls[i];
      if c.op.Get? then
        s.(calls := s.calls[i := c.(pc := Holding(Slot(s, c.op.id), |s.log|))],
           log := s.log + [Event(i, c.op, Tokens(Contents(s, c.op.id)))])
      else
        s.(calls := s.calls[i := c.(pc := Loaded(Slot(s, c.op.id)), readAt := |s.log|)])
    case ReturnFound(i) =>
      var c := s.calls[i];
      s.(calls := s.calls[i := c.(pc := Done(|s.log|))], log := s.log + [Event(i, c.op, AlreadyThere)])
    case Copy(i, p) =>
      var c := s.calls[i];
      s.(calls := s.calls[i := c.(pc := Copied(c.pc.was, p))],
         heap := s.heap[p := Deref(s, c.pc.was) + {c.op.token}])
    case Exchange(i) =>
      var c := s.calls[i];
      if Slot(s, c.op.id) == c.pc.was then
        s.(slots := s.slots[c.op.id := c.pc.made],
           calls := s.calls[i := c.(pc := Done(|s.log|))],
           log := s.log + [Event(i, c.op, Added)])
      else
        s.(calls := s.calls[i := c.(pc := Ready, retries := c.retries + 1)])
    case Release(i) =>
      s.(calls := s.calls[i := s.calls[i].(pc := Done(s.calls[i].pc.at))])
  }

  predicate Possible(s: State, run: seq<Action>)
    decreases |run|
  {
    run == [] || (Enabled(s, run[0]) && Possible(Next(s, run[0]), run[1..]))
  }

  function After(s: State, run: seq<Action>): State
    requires Possible(s, run)
    decreases |run|
  {
    if run == [] then s else After(Next(s, run[0]), run[1..])
  }

  // ---- What the same calls mean one after another ----

  /** The tokens the logged calls have put into a slot. */
  function Inserted(log: seq<Event>, id: nat): set<string> {
    if log == [] then {}
    else
      var e := log[|log| - 1];
      Inserted(log[..|log| - 1], id) + if e.op.Add? && e.op.id == id then {e.op.token} else {}
  }

  /** The answer a call gets from a slot that holds `tokens` when it runs alone. */
  function Answer(op: Op, tokens: set<string>): Response {
    match op
    case Add(_, token) => if token in tokens then AlreadyThere else Added
    case Get(_) => Tokens(tokens)
  }

  /** Every logged answer is the one its call gets when the logged calls run alone, in the order of the log. */
  ghost predicate Sequential(log: seq<Event>) {
    forall k :: 0 <= k < |log| ==> log[k].response == Answer(log[k].op, Inserted(log[..k], log[k].op.id))
  }

  /** How many logged calls swapped a slot's pointer. */
  function Exchanges(log: seq<Event>, id: nat): nat {
    if log == [] then 0
    else
      var e := log[|log| - 1];
      Exchanges(log[..|log| - 1], id) + if e.response.Added? && e.op.id == id then 1 else 0
  }

  // ---- What every step keeps ----

  predicate Finished(pc: Pc) {
    pc.Holding? || pc.Done?
  }

  ghost predicate Unlogged(log: seq<Event>, i: nat) {
    forall k :: 0 <= k < |log| ==> log[k].call != i
  }

  /** A call that has taken effect did so at one place of the log, within its own time. */
  predicate LoggedAt(s: State, i: nat, at: nat)
    requires i < |s.calls|
  {
    at < |s.log| && s.log[at].call == i && s.log[at].op == s.calls[i].op && s.calls[i].began <= at
  }

  /** What a call read is still there: all that was inserted up to then. The slot has grown past it if its pointer was
      swapped since. */
  predicate ReadOk(s: State, c: Call, was: Option<Ptr>) {
    && (was.Some? ==> was.value in s.heap)
    && c.began <= c.readAt <= |s.log|
    && Deref(s, was) == Inserted(s.log[..c.readAt], c.op.id)
    && Deref(s, was) <= Contents(s, c.op.id)
    && (Slot(s, c.op.id) != was ==> Deref(s, was) < Contents(s, c.op.id))
    && c.retries + c.sizeAtStart <= |Deref(s, was)|
  }

  ghost predicate Private(s: State, i: nat, p: Ptr) {
    && (forall id :: id in s.slots ==> s.slots[id] != p)
    && (forall j :: 0 <= j < |s.calls| && j != i ==> !Refers(s.calls[j].pc, p))
  }

  ghost predicate CallOk(s: State, i: nat)
    requires i < |s.calls|
  {
    var c := s.calls[i];
    && c.began <= |s.log|
    && c.sizeAtStart == |Inserted(s.log[..c.began], c.op.id)|
    && c.retries + c.sizeAtStart <= |Contents(s, c.op.id)|
    && (!Finished(c.pc) ==> Unlogged(s.log, i))
    && match c.pc
       case Ready => true
       case Loaded(was) => c.op.Add? && ReadOk(s, c, was)
       case Copied(was, made) =>
         && c.op.Add? && ReadOk(s, c, was)
         && c.op.token !in Deref(s, was)
         && was != Some(made)
         && made in s.heap && s.heap[made] == Deref(s, was) + {c.op.token}
         && Private(s, i, made)
       case Holding(result, at) =>
         && c.op.Get? && LoggedAt(s, i, at)
         && (result.Some? ==> result.value in s.heap && s.heap[result.value] != {})
         && s.log[at].response == Tokens(Deref(s, result))
       case Done(at) =>
         && LoggedAt(s, i, at)
         && (s.log[at].response.Added? ==> c.retries + c.sizeAtStart < |Contents(s, c.op.id)|)
  }

  predicate SlotsOk(s: State) {
    forall id :: id in s.slots ==> s.slots[id] in s.heap && s.heap[s.slots[id]] != {}
  }

  predicate LogOk(s: State) {
    forall k :: 0 <= k < |s.log| ==>
      s.log[k].call < |s.calls| && Finished(s.calls[s.log[k].call].pc) && s.calls[s.log[k].call].pc.at == k
  }

  ghost predicate Valid(s: State) {
    && SlotsOk(s)
    && LogOk(s)
    && Sequential(s.log)
    && (forall id: nat :: Contents(s, id) == Inserted(s.log, id))
    && (forall i :: 0 <= i < |s.calls| ==> CallOk(s, i))
  }
}
