/** The life of a WifiCommand, as a step machine over every interleaving of API threads (start, cancel)
    and threads that deliver events. A table operation, an addRef, a releaseRef and a use of a command are
    one step each; cb_lock makes the handler-table operations atomic, the command-table operations are
    taken to be. */
module Lifetime {
  import opened Assoc

  type Ptr = nat
  type Tid = nat

  /** What never changes about a command: its request id, the keys its start may register, and, for a
      command that finishes itself from inside its own callback (RTT), the key it then unregisters. */
  datatype Info = Info(id: int, keys: set<Key>, completion: Option<Key>)

  /** Where a thread is. */
  datatype Pc =
    | Idle
    | Starting(c: Ptr)                          // inside start(), or registering c before it
    | Cancelling(c: Ptr, pending: set<Key>)     // took c out of the command table; keys still to unregister
    | Callback(c: Ptr)                          // event_handler is running for c
    | Completed(c: Ptr)                         // c unregistered its handler inside its own callback
    | Took(c: Ptr, d: Ptr)                      // the callback of c took d out of the command table
    | Signalling(c: Ptr)                        // handleEvent returned, the condition is still to be signalled
    | Releasing(c: Ptr)                         // the callback returned to the dispatcher

  /** refs holds mRefs of the commands that are not deleted; released remembers the commands whose owner
      reference has been given up; info remembers every command ever made. */
  datatype State = State(info: map<Ptr, Info>, refs: map<Ptr, int>, released: set<Ptr>,
                         handlers: seq<Entry<Key, Ptr>>, table: seq<Entry<int, Ptr>>, threads: map<Tid, Pc>)

  datatype Step =
    | NewCommand(t: Tid, p: Ptr, info: Info)
    | UseInStart(t: Tid)
    | RegisterKey(t: Tid, k: Key)
    | UnregisterInStart(t: Tid, k: Key)
    | FinishStart(t: Tid, drop: bool)
    | TakeForCancel(t: Tid, id: int)
    | UseInCancel(t: Tid)
    | UnregisterInCancel(t: Tid, k: Key)
    | ReleaseInCancel(t: Tid)
    | UnregisterByKey(t: Tid, k: Key)
    | LookupAndRef(t: Tid, k: Key)
    | UseInCallback(t: Tid)
    | UnregisterOnCompletion(t: Tid)
    | TakeOnCompletion(t: Tid)
    | ReleaseOnCompletion(t: Tid)
    | ReturnFromCallback(t: Tid)
    | Signal(t: Tid)
    | ReleaseAfterDispatch(t: Tid)

  function SetPc(s: State, t: Tid, pc: Pc): State {
    s.(threads := s.threads[t := pc])
  }

  /** addRef. On a deleted command it has no meaning; the state is left alone. */
  function AddRef(s: State, p: Ptr): State {
    if p in s.refs then s.(refs := s.refs[p := s.refs[p] + 1]) else s
  }

  /** releaseRef: the command is deleted when the count reaches zero. */
  function ReleaseRef(s: State, p: Ptr): State {
    if p !in s.refs then s
    else if s.refs[p] == 1 then s.(refs := s.refs - {p})
    else s.(refs := s.refs[p := s.refs[p] - 1])
  }

  function ReleaseOwner(s: State, p: Ptr): State {
    ReleaseRef(s.(released := s.released + {p}), p)
  }

  /** A command is made with one reference and entered in the command table, if there is room. */
  function WithCommand(s: State, t: Tid, p: Ptr, info: Info): State {
    SetPc(s.(info := s.info[p := info], refs := s.refs[p := 1],
             table := Append(s.table, DEFAULT_CMD_SIZE, Entry(info.id, p))), t, Starting(p))
  }

  /** RttCommand::start does not use the command any more once its handler is registered. */
  function WithHandler(s: State, t: Tid, c: Ptr, k: Key): State
    requires c in s.info
  {
    SetPc(s.(handlers := Append(s.handlers, DEFAULT_EVENT_CB_SIZE, Entry(k, c))), t,
          if s.info[c].completion.Some? then Idle else Starting(c))
  }

  /** When the code can take the step; nothing here looks at whether a command still exists. */
  predicate Enabled(s: State, step: Step) {
    && step.t in s.threads
    && var pc := s.threads[step.t];
       match step
       case NewCommand(t, p, info) =>
         pc.Idle? && p !in s.info && (info.completion.Some? ==> info.keys == {info.completion.value})
       case UseInStart(t) => pc.Starting?
       case RegisterKey(t, k) => pc.Starting? && pc.c in s.info && k in s.info[pc.c].keys
       case UnregisterInStart(t, k) => pc.Starting? && pc.c in s.info && k in s.info[pc.c].keys
       case FinishStart(t, drop) => pc.Starting? && pc.c in s.info
       case TakeForCancel(t, id) => pc.Idle?
       case UseInCancel(t) => pc.Cancelling?
       case UnregisterInCancel(t, k) => pc.Cancelling? && k in pc.pending
       case ReleaseInCancel(t) => pc.Cancelling? && pc.pending == {}
       case UnregisterByKey(t, k) => pc.Idle?
       case LookupAndRef(t, k) => pc.Idle?
       case UseInCallback(t) => pc.Callback?
       case UnregisterOnCompletion(t) => pc.Callback? && pc.c in s.info && s.info[pc.c].completion.Some?
       case TakeOnCompletion(t) => pc.Completed? && pc.c in s.info
       case ReleaseOnCompletion(t) => pc.Took?
       case ReturnFromCallback(t) => pc.Callback?
       case Signal(t) => pc.Signalling?
       case ReleaseAfterDispatch(t) => pc.Releasing?
  }

  function Next(s: State, step: Step): State
    requires Enabled(s, step)
  {
    var pc := s.threads[step.t];
    match step
    case NewCommand(t, p, info) =>
      WithCommand(s, t, p, info)
    case UseInStart(t) => s
    case RegisterKey(t, k) =>
      WithHandler(s, t, pc.c, k)
    case UnregisterInStart(t, k) => s.(handlers := RemoveFirst(s.handlers, k))
    case FinishStart(t, drop) =>
      SetPc(s.(table := if drop then RemoveFirst(s.table, s.info[pc.c].id) else s.table), t, Idle)
    case TakeForCancel(t, id) =>
      (match Lookup(s.table, id)
       case None => s
       case Some(c) => SetPc(s.(table := RemoveFirst(s.table, id)), t,
                             Cancelling(c, if c in s.info then s.info[c].keys else {})))
    case UseInCancel(t) => s
    case UnregisterInCancel(t, k) =>
      SetPc(s.(handlers := RemoveFirst(s.handlers, k)), t, Cancelling(pc.c, pc.pending - {k}))
    case ReleaseInCancel(t) => SetPc(ReleaseOwner(s, pc.c), t, Idle)
    case UnregisterByKey(t, k) => s.(handlers := RemoveFirst(s.handlers, k))
    case LookupAndRef(t, k) =>
      (match Lookup(s.handlers, k)
       case None => s
       case Some(c) => SetPc(AddRef(s, c), t, Callback(c)))
    case UseInCallback(t) => s
    case UnregisterOnCompletion(t) =>
      SetPc(s.(handlers := RemoveFirst(s.handlers, s.info[pc.c].completion.value)), t, Completed(pc.c))
    case TakeOnCompletion(t) =>
      (match Lookup(s.table, s.info[pc.c].id)
       case None => SetPc(s, t, Signalling(pc.c))
       case Some(d) => SetPc(s.(table := RemoveFirst(s.table, s.info[pc.c].id)), t, Took(pc.c, d)))
    case ReleaseOnCompletion(t) => SetPc(ReleaseOwner(s, pc.d), t, Signalling(pc.c))
    case ReturnFromCallback(t) => SetPc(s, t, Signalling(pc.c))
    case Signal(t) => SetPc(s, t, Releasing(pc.c))
    case ReleaseAfterDispatch(t) => SetPc(ReleaseRef(s, pc.c), t, Idle)
  }

  /** The commands whose memory the step reads or writes. */
  function Touched(s: State, step: Step): set<Ptr>
    requires Enabled(s, step)
  {
    var pc := s.threads[step.t];
    match step
    case NewCommand(_, _, _) => {}
    case UseInStart(_) => {pc.c}
    case RegisterKey(_, _) => {pc.c}
    case UnregisterInStart(_, _) => {pc.c}
    case FinishStart(_, _) => {}
    case TakeForCancel(_, _) => {}
    case UseInCancel(_) => {pc.c}
    case UnregisterInCancel(_, _) => {pc.c}
    case ReleaseInCancel(_) => {pc.c}
    case UnregisterByKey(_, _) => {}
    case LookupAndRef(_, k) => (match Lookup(s.handlers, k) case None => {} case Some(c) => {c})
    case UseInCallback(_) => {pc.c}
    case UnregisterOnCompletion(_) => {pc.c}
    case TakeOnCompletion(_) => {pc.c}
    case ReleaseOnCompletion(_) => {pc.c, pc.d}
    case ReturnFromCallback(_) => {pc.c}
    case Signal(_) => {pc.c}
    case ReleaseAfterDispatch(_) => {pc.c}
  }

  ghost predicate Safe(s: State, step: Step)
    requires Enabled(s, step)
  {
    Touched(s, step) <= s.refs.Keys
  }

  /** What the callers of the library must respect: a key is not registered while it is in the table, a
      request id is not reused while it is in the command table or a self-completing command with it exists,
      and a request is not cancelled while the start that made it is still running. */
  ghost predicate FreshKey(s: State, step: Step) {
    step.RegisterKey? ==> !HasKey(s.handlers, step.k)
  }

  /** No entry of the command table has the id, and no command that completes itself and still exists. What
      a failed start left behind may have it. */
  ghost predicate IdUnused(s: State, id: int) {
    && !HasKey(s.table, id)
    && forall p :: p in s.refs && p in s.info && s.info[p].completion.Some? ==> s.info[p].id != id
  }

  ghost predicate FreshId(s: State, step: Step) {
    step.NewCommand? ==> IdUnused(s, step.info.id)
  }

  ghost predicate NotStarting(s: State, step: Step) {
    step.TakeForCancel? ==>
      forall t :: t in s.threads && s.threads[t].Starting? ==> Lookup(s.table, step.id) != Some(s.threads[t].c)
  }

  ghost predicate Disciplined(s: State, step: Step) {
    FreshKey(s, step) && FreshId(s, step) && NotStarting(s, step)
  }

  ghost predicate Init(s: State) {
    && s.info == map[] && s.refs == map[] && s.released == {} && s.handlers == [] && s.table == []
    && forall t :: t in s.threads ==> s.threads[t] == Idle
  }

  /** A run: states[i] steps to states[i + 1] by steps[i], by any thread at any moment. */
  ghost predicate Run(states: seq<State>, steps: seq<Step>) {
    Path(states, steps) && Init(states[0])
  }

  ghost predicate Path(states: seq<State>, steps: seq<Step>) {
    && |states| == |steps| + 1
    && forall i :: 0 <= i < |steps| ==> Enabled(states[i], steps[i]) && states[i + 1] == Next(states[i], steps[i])
  }

  ghost predicate DisciplinedRun(states: seq<State>, steps: seq<Step>) {
    Run(states, steps) && forall i :: 0 <= i < |steps| ==> Disciplined(states[i], steps[i])
  }

  /** The command on which the thread holds a dispatch reference. */
  function Dispatching(pc: Pc): Option<Ptr> {
    if pc.Callback? || pc.Completed? || pc.Took? || pc.Signalling? || pc.Releasing? then Some(pc.c) else None
  }

  /** The command whose owner reference the thread relies on, or is about to release. */
  function Claim(pc: Pc): Option<Ptr> {
    if pc.Starting? || pc.Cancelling? || pc.Took? then Some(pc.c) else None
  }

  /** The threads with a dispatch in flight on p. */
  function InFlight(threads: map<Tid, Pc>, p: Ptr): set<Tid> {
    set t | t in threads && Dispatching(threads[t]) == Some(p)
  }

  function OwnerRefs(s: State, p: Ptr): nat {
    if p in s.released then 0 else 1
  }

  ghost predicate NoHandler(s: State, p: Ptr) {
    forall e :: e in s.handlers ==> e.val != p
  }

  ghost predicate NotInTable(s: State, p: Ptr) {
    forall e :: e in s.table ==> e.val != p
  }

  ghost predicate HandlersOk(s: State) {
    && DistinctKeys(s.handlers)
    && forall e :: e in s.handlers ==>
         e.val in s.refs && e.val in s.info && e.val !in s.released && e.key in s.info[e.val].keys
  }

  ghost predicate TableOk(s: State) {
    && DistinctKeys(s.table)
    && forall e :: e in s.table ==>
         e.val in s.refs && e.val in s.info && e.val !in s.released && s.info[e.val].id == e.key
  }

  /** A self-completing command finds nothing but itself under its id. */
  ghost predicate IdsOk(s: State) {
    forall p, e :: p in s.refs && p in s.info && s.info[p].completion.Some? && e in s.table && e.key == s.info[p].id ==>
      e.val == p
  }

  /** Reference conservation: mRefs is the owner reference plus the dispatches in flight. */
  ghost predicate CountsOk(s: State) {
    forall p :: p in s.refs ==>
      p in s.info && s.refs[p] >= 1 && s.refs[p] == OwnerRefs(s, p) + |InFlight(s.threads, p)|
  }

  ghost predicate InfoOk(s: State) {
    && s.released <= s.info.Keys
    && (forall p :: p in s.info && p !in s.refs ==> p in s.released)
    && (forall p :: p in s.info && s.info[p].completion.Some? ==> s.info[p].keys == {s.info[p].completion.value})
    && IdsOk(s)
  }

  ghost predicate PcOk(s: State, pc: Pc) {
    match pc
    case Idle => true
    case Starting(c) => c in s.refs && c !in s.released
    case Cancelling(c, pending) =>
      c in s.refs && c !in s.released && NotInTable(s, c)
      && forall e :: e in s.handlers && e.val == c ==> e.key in pending
    case Callback(c) => c in s.refs
    case Completed(c) => c in s.refs && c in s.info && s.info[c].completion.Some? && NoHandler(s, c)
    case Took(c, d) => d == c && c in s.refs && c !in s.released && NoHandler(s, c) && NotInTable(s, c)
    case Signalling(c) => c in s.refs
    case Releasing(c) => c in s.refs
  }

  ghost predicate ThreadsOk(s: State) {
    forall t :: t in s.threads ==> PcOk(s, s.threads[t])
  }

  ghost predicate ClaimsOk(s: State) {
    forall t, u :: t in s.threads && u in s.threads && t != u && Claim(s.threads[t]).Some? ==>
      Claim(s.threads[t]) != Claim(s.threads[u])
  }

  /** A self-completing command gets no event before its start is done with it. */
  ghost predicate CompletionOk(s: State) {
    forall t :: t in s.threads && s.threads[t].Starting? ==> CompletionPending(s, s.threads[t].c)
  }

  ghost predicate CompletionPending(s: State, c: Ptr) {
    c in s.info && s.info[c].completion.Some? ==> NoHandler(s, c) && InFlight(s.threads, c) == {}
  }

  ghost predicate Inv(s: State) {
    HandlersOk(s) && TableOk(s) && CountsOk(s) && InfoOk(s) && ThreadsOk(s) && ClaimsOk(s) && CompletionOk(s)
  }

  // ----- preservation, one kind of step at a time

  /** Moving one thread changes the dispatches in flight by that thread alone. */
  lemma InFlightAfterMove(threads: map<Tid, Pc>, t: Tid, pc: Pc, p: Ptr)
    requires t in threads
    ensures InFlight(threads[t := pc], p)
         == if Dispatching(pc) == Some(p) then InFlight(threads, p) + {t} else InFlight(threads, p) - {t}
  {
  }

  ghost predicate SameFlights(a: map<Tid, Pc>, b: map<Tid, Pc>) {
    forall p: Ptr :: InFlight(a, p) == InFlight(b, p)
  }

  lemma MoveKeepsFlights(threads: map<Tid, Pc>, t: Tid, pc: Pc)
    requires t in threads && Dispatching(pc) == Dispatching(threads[t])
    ensures SameFlights(threads[t := pc], threads)
  {
    forall p: Ptr ensures InFlight(threads[t := pc], p) == InFlight(threads, p) {
      InFlightAfterMove(threads, t, pc, p);
    }
  }

  /** A removal by key from either table only takes entries away. */
  lemma RemovedSubset<K, V>(s: seq<Entry<K, V>>, k: K)
    ensures forall e :: e in RemoveFirst(s, k) ==> e in s
    ensures DistinctKeys(s) ==> DistinctKeys(RemoveFirst(s, k)) && forall e :: e in RemoveFirst(s, k) ==> e.key != k
  {
    forall e {
      RemoveKeepsOthers(s, k, e);
    }
    if DistinctKeys(s) {
      RemoveKeepsDistinct(s, k);
    }
  }

  lemma LookupMember<K, V>(s: seq<Entry<K, V>>, k: K)
    ensures Lookup(s, k).Some? ==> Entry(k, Lookup(s, k).value) in s
    ensures Lookup(s, k).None? ==> forall e :: e in s ==> e.key != k
  {
    var i := IndexOf(s, k);
    if i < |s| {
      assert s[i] == Entry(k, s[i].val);
    }
  }

  /** Fewer handler entries never hurt. */
  lemma DropHandlerKeepsInv(s: State, k: Key)
    requires Inv(s)
    ensures Inv(s.(handlers := RemoveFirst(s.handlers, k)))
  {
    RemovedSubset(s.handlers, k);
    FewerEntriesKeepInv(s, s.(handlers := RemoveFirst(s.handlers, k)));
  }

  lemma DropTableEntryKeepsInv(s: State, id: int)
    requires Inv(s)
    ensures Inv(s.(table := RemoveFirst(s.table, id)))
  {
    RemovedSubset(s.table, id);
    FewerEntriesKeepInv(s, s.(table := RemoveFirst(s.table, id)));
  }

  lemma FewerEntriesKeepInv(s: State, s': State)
    requires Inv(s) && s' == s.(handlers := s'.handlers, table := s'.table)
    requires DistinctKeys(s'.handlers) && forall e :: e in s'.handlers ==> e in s.handlers
    requires DistinctKeys(s'.table) && forall e :: e in s'.table ==> e in s.table
    ensures Inv(s')
  {
    forall t | t in s.threads
      ensures PcOk(s', s.threads[t])
      ensures s.threads[t].Starting? ==> CompletionPending(s', s.threads[t].c)
    {
      assert PcOk(s, s.threads[t]);
      assert s.threads[t].Starting? ==> CompletionPending(s, s.threads[t].c);
    }
  }

  /** A thread moves without changing what it dispatches on: the tables and the counts are not concerned. */
  lemma MoveKeepsTables(s: State, t: Tid, pc: Pc)
    requires Inv(s) && t in s.threads && Dispatching(pc) == Dispatching(s.threads[t])
    ensures var s' := SetPc(s, t, pc); HandlersOk(s') && TableOk(s') && InfoOk(s') && CountsOk(s')
  {
    hide ThreadsOk, ClaimsOk, CompletionOk;
    MoveKeepsFlights(s.threads, t, pc);
  }

  lemma MoveKeepsThreads(s: State, t: Tid, pc: Pc)
    requires Inv(s) && t in s.threads && PcOk(s, pc)
    ensures ThreadsOk(SetPc(s, t, pc))
  {
    hide HandlersOk, TableOk, CountsOk, InfoOk, ClaimsOk, CompletionOk;
    var s' := SetPc(s, t, pc);
    forall u | u in s'.threads ensures PcOk(s', s'.threads[u]) {
      assert PcOk(s, s'.threads[u]);
    }
  }

  lemma MoveKeepsCompletion(s: State, t: Tid, pc: Pc)
    requires Inv(s) && t in s.threads && Dispatching(pc) == Dispatching(s.threads[t])
    requires pc.Starting? ==> s.threads[t].Starting? && pc.c == s.threads[t].c
    ensures CompletionOk(SetPc(s, t, pc))
  {
    hide HandlersOk, TableOk, CountsOk, InfoOk, ThreadsOk, ClaimsOk;
    MoveKeepsFlights(s.threads, t, pc);
    var s' := SetPc(s, t, pc);
    forall u | u in s'.threads && s'.threads[u].Starting? ensures CompletionPending(s', s'.threads[u].c) {
      assert CompletionPending(s, s'.threads[u].c);
    }
  }

  lemma MoveKeepsInv(s: State, t: Tid, pc: Pc)
    requires Inv(s) && t in s.threads && PcOk(s, pc)
    requires Dispatching(pc) == Dispatching(s.threads[t])
    requires Claim(pc) == None || Claim(pc) == Claim(s.threads[t])
    requires pc.Starting? ==> s.threads[t].Starting?
    ensures Inv(SetPc(s, t, pc))
  {
    MoveKeepsTables(s, t, pc);
    MoveKeepsThreads(s, t, pc);
    MoveKeepsCompletion(s, t, pc);
    hide HandlersOk, TableOk, CountsOk, InfoOk, ThreadsOk, CompletionOk;
    assert ClaimsOk(SetPc(s, t, pc));
  }

  /** Moving one thread, with the other threads' obligations already seen to, keeps ThreadsOk. */
  lemma ThreadsOkAfterMove(s: State, s': State, t: Tid, pc: Pc)
    requires t in s.threads && s'.threads == s.threads[t := pc] && PcOk(s', pc)
    requires forall u :: u in s.threads && u != t ==> PcOk(s', s.threads[u])
    ensures ThreadsOk(s')
  {
  }

  lemma CompletionOkAfterMove(s: State, s': State, t: Tid, pc: Pc)
    requires t in s.threads && s'.threads == s.threads[t := pc]
    requires pc.Starting? ==> CompletionPending(s', pc.c)
    requires forall u :: u in s.threads && u != t && s.threads[u].Starting? ==> CompletionPending(s', s.threads[u].c)
    ensures CompletionOk(s')
  {
  }

  /** Nothing refers to a command that does not exist yet. */
  lemma UnknownCommand(s: State, p: Ptr)
    requires Inv(s) && p !in s.info
    ensures p !in s.refs && p !in s.released && NoHandler(s, p) && NotInTable(s, p) && InFlight(s.threads, p) == {}
    ensures forall u :: u in s.threads ==> Claim(s.threads[u]) != Some(p)
  {
    forall u | u in s.threads ensures Dispatching(s.threads[u]) != Some(p) && Claim(s.threads[u]) != Some(p) {
      assert PcOk(s, s.threads[u]);
    }
  }

  lemma NewCommandTables(s: State, t: Tid, p: Ptr, info: Info)
    requires Inv(s) && t in s.threads && s.threads[t].Idle? && p !in s.info && IdUnused(s, info.id)
    ensures var s' := WithCommand(s, t, p, info); HandlersOk(s') && TableOk(s')
  {
    UnknownCommand(s, p);
    var s' := WithCommand(s, t, p, info);
    assert forall e :: e in s'.table ==> e in s.table || e == Entry(info.id, p);
    assert forall i :: 0 <= i < |s.table| ==> s.table[i].key != info.id;
  }

  lemma NewCommandInfo(s: State, t: Tid, p: Ptr, info: Info)
    requires Inv(s) && t in s.threads && s.threads[t].Idle? && p !in s.info && IdUnused(s, info.id)
    requires info.completion.Some? ==> info.keys == {info.completion.value}
    ensures InfoOk(WithCommand(s, t, p, info))
  {
    UnknownCommand(s, p);
    var s' := WithCommand(s, t, p, info);
    assert forall e :: e in s'.table ==> e in s.table || e == Entry(info.id, p);
    assert forall i :: 0 <= i < |s.table| ==> s.table[i].key != info.id;
    assert IdsOk(s');
  }

  lemma NewCommandCounts(s: State, t: Tid, p: Ptr, info: Info)
    requires Inv(s) && t in s.threads && s.threads[t].Idle? && p !in s.info
    ensures CountsOk(WithCommand(s, t, p, info))
  {
    UnknownCommand(s, p);
    MoveKeepsFlights(s.threads, t, Starting(p));
  }

  lemma NewCommandThreads(s: State, t: Tid, p: Ptr, info: Info)
    requires Inv(s) && t in s.threads && s.threads[t].Idle? && p !in s.info
    ensures var s' := WithCommand(s, t, p, info); ThreadsOk(s') && ClaimsOk(s') && CompletionOk(s')
  {
    UnknownCommand(s, p);
    MoveKeepsFlights(s.threads, t, Starting(p));
    var s' := WithCommand(s, t, p, info);
    forall u | u in s.threads && u != t
      ensures PcOk(s', s.threads[u])
      ensures s.threads[u].Starting? ==> CompletionPending(s', s.threads[u].c)
    {
      assert PcOk(s, s.threads[u]);
      assert s.threads[u].Starting? ==> CompletionPending(s, s.threads[u].c);
    }
    ThreadsOkAfterMove(s, s', t, Starting(p));
    CompletionOkAfterMove(s, s', t, Starting(p));
  }

  lemma NewCommandKeepsInv(s: State, t: Tid, p: Ptr, info: Info)
    requires Inv(s) && t in s.threads && s.threads[t].Idle? && p !in s.info
    requires IdUnused(s, info.id)
    requires info.completion.Some? ==> info.keys == {info.completion.value}
    ensures Inv(WithCommand(s, t, p, info))
  {
    NewCommandTables(s, t, p, info);
    NewCommandInfo(s, t, p, info);
    NewCommandCounts(s, t, p, info);
    NewCommandThreads(s, t, p, info);
  }

  /** No other thread relies on the command that a thread is starting, and a self-completing one is idle. */
  lemma StartingAlone(s: State, t: Tid, u: Tid)
    requires Inv(s) && t in s.threads && u in s.threads && t != u && s.threads[t].Starting?
    ensures Claim(s.threads[u]) != Some(s.threads[t].c)
    ensures s.threads[u].Completed? ==> s.threads[u].c != s.threads[t].c
  {
    var c := s.threads[t].c;
    assert Claim(s.threads[t]) == Some(c);
    assert CompletionPending(s, c);
    assert Dispatching(s.threads[u]) == Some(c) ==> u in InFlight(s.threads, c);
    assert PcOk(s, s.threads[u]);
  }

  lemma RegisterKeyTables(s: State, t: Tid, k: Key)
    requires Inv(s) && t in s.threads && s.threads[t].Starting? && s.threads[t].c in s.info
    requires k in s.info[s.threads[t].c].keys && !HasKey(s.handlers, k)
    ensures var s' := WithHandler(s, t, s.threads[t].c, k); HandlersOk(s') && TableOk(s') && InfoOk(s')
  {
    hide CountsOk, ClaimsOk, CompletionOk;
    var c := s.threads[t].c;
    assert PcOk(s, s.threads[t]);
    var s' := WithHandler(s, t, c, k);
    assert forall e :: e in s'.handlers ==> e in s.handlers || e == Entry(k, c);
  }

  lemma RegisterKeyCounts(s: State, t: Tid, k: Key)
    requires Inv(s) && t in s.threads && s.threads[t].Starting? && s.threads[t].c in s.info
    ensures var s' := WithHandler(s, t, s.threads[t].c, k); CountsOk(s') && ClaimsOk(s')
  {
    var s' := WithHandler(s, t, s.threads[t].c, k);
    MoveKeepsFlights(s.threads, t, s'.threads[t]);
  }

  lemma RegisterKeyThreads(s: State, t: Tid, k: Key)
    requires Inv(s) && t in s.threads && s.threads[t].Starting? && s.threads[t].c in s.info
    requires k in s.info[s.threads[t].c].keys
    ensures var s' := WithHandler(s, t, s.threads[t].c, k); ThreadsOk(s') && CompletionOk(s')
  {
    hide HandlersOk, TableOk, CountsOk, ClaimsOk;
    var c := s.threads[t].c;
    var s' := WithHandler(s, t, c, k);
    MoveKeepsFlights(s.threads, t, s'.threads[t]);
    assert PcOk(s, s.threads[t]) && CompletionPending(s, c);
    assert forall e :: e in s'.handlers ==> e in s.handlers || e == Entry(k, c);
    forall u | u in s.threads && u != t
      ensures PcOk(s', s.threads[u])
      ensures s.threads[u].Starting? ==> CompletionPending(s', s.threads[u].c)
    {
      StartingAlone(s, t, u);
      assert PcOk(s, s.threads[u]);
      assert s.threads[u].Starting? ==> CompletionPending(s, s.threads[u].c);
    }
    ThreadsOkAfterMove(s, s', t, s'.threads[t]);
    CompletionOkAfterMove(s, s', t, s'.threads[t]);
  }

  lemma RegisterKeyKeepsInv(s: State, t: Tid, k: Key)
    requires Inv(s) && t in s.threads && s.threads[t].Starting? && s.threads[t].c in s.info
    requires k in s.info[s.threads[t].c].keys && !HasKey(s.handlers, k)
    ensures Inv(WithHandler(s, t, s.threads[t].c, k))
  {
    RegisterKeyTables(s, t, k);
    RegisterKeyCounts(s, t, k);
    RegisterKeyThreads(s, t, k);
  }

  /** A thread becomes the one that holds the owner reference of a command nobody else claims. */
  lemma GainClaimKeepsInv(s: State, t: Tid, pc: Pc)
    requires Inv(s) && t in s.threads && PcOk(s, pc) && (pc.Cancelling? || pc.Took?)
    requires Dispatching(pc) == Dispatching(s.threads[t])
    requires forall u :: u in s.threads ==> Claim(s.threads[u]) != Claim(pc)
    ensures Inv(SetPc(s, t, pc))
  {
    MoveKeepsTables(s, t, pc);
    MoveKeepsThreads(s, t, pc);
    MoveKeepsCompletion(s, t, pc);
    hide HandlersOk, TableOk, CountsOk, InfoOk, ThreadsOk, CompletionOk;
    assert ClaimsOk(SetPc(s, t, pc));
  }

  lemma TakeKeepsInv(s: State, id: int, c: Ptr)
    requires Inv(s) && Lookup(s.table, id) == Some(c)
    ensures Inv(s.(table := RemoveFirst(s.table, id)))
    ensures NotInTable(s.(table := RemoveFirst(s.table, id)), c)
    ensures c in s.refs && c in s.info && c !in s.released && s.info[c].id == id && !NotInTable(s, c)
  {
    LookupMember(s.table, id);
    assert Entry(id, c) in s.table;
    DropTableEntryKeepsInv(s, id);
    RemovedSubset(s.table, id);
  }

  /** What is still in the command table is claimed by no cancel and no completion. */
  lemma InTableUnclaimed(s: State, c: Ptr, u: Tid)
    requires Inv(s) && !NotInTable(s, c) && u in s.threads && !s.threads[u].Starting?
    ensures Claim(s.threads[u]) != Some(c)
  {
    assert PcOk(s, s.threads[u]);
  }

  /** Cancel gets the entry from the command table, and with it the owner reference. */
  lemma TakeForCancelKeepsInv(s: State, t: Tid, id: int, c: Ptr)
    requires Inv(s) && t in s.threads && s.threads[t].Idle? && Lookup(s.table, id) == Some(c)
    requires forall u :: u in s.threads && s.threads[u].Starting? ==> s.threads[u].c != c
    ensures c in s.info
    ensures Inv(SetPc(s.(table := RemoveFirst(s.table, id)), t, Cancelling(c, s.info[c].keys)))
  {
    TakeKeepsInv(s, id, c);
    var mid := s.(table := RemoveFirst(s.table, id));
    forall u | u in s.threads ensures Claim(s.threads[u]) != Some(c) {
      if !s.threads[u].Starting? {
        InTableUnclaimed(s, c, u);
      }
    }
    GainClaimKeepsInv(mid, t, Cancelling(c, s.info[c].keys));
  }

  /** Completion gets at most its own command out of the table, and only if no cancel got it first. */
  lemma TakeOnCompletionKeepsInv(s: State, t: Tid, d: Ptr)
    requires Inv(s) && t in s.threads && s.threads[t].Completed? && s.threads[t].c in s.info
    requires Lookup(s.table, s.info[s.threads[t].c].id) == Some(d)
    ensures d == s.threads[t].c
    ensures Inv(SetPc(s.(table := RemoveFirst(s.table, s.info[s.threads[t].c].id)), t, Took(d, d)))
  {
    var c := s.threads[t].c;
    var id := s.info[c].id;
    assert PcOk(s, s.threads[t]);
    TakeKeepsInv(s, id, d);
    var mid := s.(table := RemoveFirst(s.table, id));
    forall u | u in s.threads ensures Claim(s.threads[u]) != Some(c) {
      if s.threads[u].Starting? {
        if u != t {
          StartingAlone(s, u, t);
        }
      } else {
        InTableUnclaimed(s, c, u);
      }
    }
    GainClaimKeepsInv(mid, t, Took(c, c));
  }

  /** A release of c leaves the obligations of a thread that does not rely on c. */
  lemma PcOkAfterRelease(s: State, s': State, pc: Pc, c: Ptr)
    requires PcOk(s, pc) && s'.info == s.info && s'.handlers == s.handlers && s'.table == s.table
    requires s'.released <= s.released + {c}
    requires forall q :: q in s.refs && q != c ==> q in s'.refs
    requires Dispatching(pc) == Some(c) ==> c in s'.refs
    requires Claim(pc) == Some(c) ==> c in s'.refs && c !in s'.released
    ensures PcOk(s', pc)
  {
  }

  lemma TablesAfterRelease(s: State, s': State, c: Ptr)
    requires Inv(s) && s'.info == s.info && s'.handlers == s.handlers && s'.table == s.table
    requires s'.refs.Keys <= s.refs.Keys && forall q :: q in s.refs && q != c ==> q in s'.refs
    requires s.released <= s'.released <= s.released + {c} && c in s.info && (c in s'.refs || c in s'.released)
    requires (c in s'.refs && s'.released == s.released) || (NoHandler(s, c) && NotInTable(s, c))
    ensures HandlersOk(s') && TableOk(s') && InfoOk(s')
  {
  }

  lemma ReleaseOwnerCounts(s: State, t: Tid, c: Ptr, pc: Pc)
    requires Inv(s) && t in s.threads && c in s.refs && c !in s.released
    requires Dispatching(pc) == Dispatching(s.threads[t])
    ensures CountsOk(SetPc(ReleaseOwner(s, c), t, pc))
    ensures c !in SetPc(ReleaseOwner(s, c), t, pc).refs ==> InFlight(s.threads, c) == {}
  {
    MoveKeepsFlights(s.threads, t, pc);
    assert s.refs[c] == 1 + |InFlight(s.threads, c)|;
    var s' := SetPc(ReleaseOwner(s, c), t, pc);
    forall q | q in s'.refs
      ensures s'.refs[q] >= 1 && s'.refs[q] == OwnerRefs(s', q) + |InFlight(s'.threads, q)|
    {
      assert InFlight(s'.threads, q) == InFlight(s.threads, q);
    }
  }

  lemma OtherAfterOwnerRelease(s: State, t: Tid, c: Ptr, pc: Pc, u: Tid)
    requires Inv(s) && t in s.threads && u in s.threads && u != t && Claim(s.threads[t]) == Some(c)
    requires c in s.refs && c !in s.released && NoHandler(s, c) && NotInTable(s, c)
    requires Dispatching(pc) == Dispatching(s.threads[t])
    ensures PcOk(SetPc(ReleaseOwner(s, c), t, pc), s.threads[u])
  {
    ReleaseOwnerCounts(s, t, c, pc);
    assert PcOk(s, s.threads[u]);
    assert Claim(s.threads[u]) != Some(c);
    assert Dispatching(s.threads[u]) == Some(c) ==> u in InFlight(s.threads, c);
    PcOkAfterRelease(s, SetPc(ReleaseOwner(s, c), t, pc), s.threads[u], c);
  }

  lemma OwnerReleaseThreads(s: State, t: Tid, c: Ptr, pc: Pc)
    requires Inv(s) && t in s.threads && Claim(s.threads[t]) == Some(c) && NoHandler(s, c) && NotInTable(s, c)
    requires c in s.refs && c !in s.released
    requires pc.Idle? || (pc == Signalling(c) && Dispatching(s.threads[t]) == Some(c))
    requires Dispatching(pc) == Dispatching(s.threads[t])
    ensures ThreadsOk(SetPc(ReleaseOwner(s, c), t, pc))
  {
    var s' := SetPc(ReleaseOwner(s, c), t, pc);
    forall u | u in s.threads && u != t ensures PcOk(s', s.threads[u]) {
      OtherAfterOwnerRelease(s, t, c, pc, u);
    }
    ReleaseOwnerCounts(s, t, c, pc);
    assert pc == Signalling(c) ==> t in InFlight(s.threads, c);
    ThreadsOkAfterMove(s, s', t, pc);
  }

  lemma OwnerReleaseClaims(s: State, t: Tid, c: Ptr, pc: Pc)
    requires Inv(s) && t in s.threads
    requires pc.Idle? || pc.Signalling?
    requires Dispatching(pc) == Dispatching(s.threads[t])
    ensures var s' := SetPc(ReleaseOwner(s, c), t, pc); CompletionOk(s') && ClaimsOk(s')
  {
    OwnerReleaseCompletion(s, t, c, pc);
    hide HandlersOk, TableOk, CountsOk, InfoOk, ThreadsOk, CompletionOk;
    assert SetPc(ReleaseOwner(s, c), t, pc).threads == s.threads[t := pc];
  }

  lemma OwnerReleaseCompletion(s: State, t: Tid, c: Ptr, pc: Pc)
    requires Inv(s) && t in s.threads && (pc.Idle? || pc.Signalling?)
    requires Dispatching(pc) == Dispatching(s.threads[t])
    ensures CompletionOk(SetPc(ReleaseOwner(s, c), t, pc))
  {
    hide HandlersOk, TableOk, CountsOk, ThreadsOk, ClaimsOk;
    var s' := SetPc(ReleaseOwner(s, c), t, pc);
    MoveKeepsFlights(s.threads, t, pc);
    forall u | u in s.threads && u != t && s.threads[u].Starting? ensures CompletionPending(s', s.threads[u].c) {
      assert CompletionPending(s, s.threads[u].c);
    }
    CompletionOkAfterMove(s, s', t, pc);
  }

  /** The owner reference is given up by a thread that claims it, after the last handler entry is gone. */
  lemma ReleaseOwnerKeepsInv(s: State, t: Tid, c: Ptr, pc: Pc)
    requires Inv(s) && t in s.threads && Claim(s.threads[t]) == Some(c) && NoHandler(s, c) && NotInTable(s, c)
    requires pc.Idle? || (pc == Signalling(c) && Dispatching(s.threads[t]) == Some(c))
    requires Dispatching(pc) == Dispatching(s.threads[t])
    ensures Inv(SetPc(ReleaseOwner(s, c), t, pc))
    ensures c !in s.released
  {
    ClaimHolds(s, t, c);
    ReleaseOwnerCounts(s, t, c, pc);
    OwnerReleaseThreads(s, t, c, pc);
    OwnerReleaseClaims(s, t, c, pc);
    OwnerReleaseTables(s, t, c, pc);
    hide HandlersOk, TableOk, CountsOk, InfoOk, ThreadsOk, ClaimsOk, CompletionOk;
  }

  lemma ClaimHolds(s: State, t: Tid, c: Ptr)
    requires Inv(s) && t in s.threads && Claim(s.threads[t]) == Some(c)
    ensures c in s.refs && c in s.info && c !in s.released
  {
    assert PcOk(s, s.threads[t]);
  }

  lemma OwnerReleaseTables(s: State, t: Tid, c: Ptr, pc: Pc)
    requires Inv(s) && t in s.threads && c in s.refs && c in s.info && NoHandler(s, c) && NotInTable(s, c)
    ensures var s' := SetPc(ReleaseOwner(s, c), t, pc); HandlersOk(s') && TableOk(s') && InfoOk(s')
  {
    TablesAfterRelease(s, SetPc(ReleaseOwner(s, c), t, pc), c);
  }

  lemma AddRefTables(s: State, t: Tid, c: Ptr)
    requires Inv(s) && t in s.threads && c in s.refs
    ensures var s' := SetPc(AddRef(s, c), t, Callback(c)); HandlersOk(s') && TableOk(s') && InfoOk(s')
  {
    assert SetPc(AddRef(s, c), t, Callback(c)).refs.Keys == s.refs.Keys;
  }

  lemma AddRefCounts(s: State, t: Tid, c: Ptr)
    requires CountsOk(s) && t in s.threads && s.threads[t].Idle? && c in s.refs
    ensures CountsOk(SetPc(AddRef(s, c), t, Callback(c)))
  {
    var s' := SetPc(AddRef(s, c), t, Callback(c));
    forall q | q in s'.refs ensures s'.refs[q] >= 1 && s'.refs[q] == OwnerRefs(s', q) + |InFlight(s'.threads, q)| {
      InFlightAfterMove(s.threads, t, Callback(c), q);
      assert t !in InFlight(s.threads, q);
      assert q != c ==> InFlight(s'.threads, q) == InFlight(s.threads, q);
    }
  }

  lemma HandlerHolds(s: State, k: Key, c: Ptr)
    requires Inv(s) && Lookup(s.handlers, k) == Some(c)
    ensures Entry(k, c) in s.handlers && c in s.refs && c !in s.released && s.refs[c] >= 1
  {
    LookupMember(s.handlers, k);
  }

  lemma AddRefThreads(s: State, t: Tid, k: Key, c: Ptr)
    requires Inv(s) && t in s.threads && s.threads[t].Idle? && c in s.refs && Entry(k, c) in s.handlers
    ensures var s' := SetPc(AddRef(s, c), t, Callback(c)); ThreadsOk(s') && CompletionOk(s')
  {
    hide HandlersOk, TableOk, CountsOk, ClaimsOk;
    var s' := SetPc(AddRef(s, c), t, Callback(c));
    forall u | u in s.threads && u != t
      ensures PcOk(s', s.threads[u])
      ensures s.threads[u].Starting? ==> CompletionPending(s', s.threads[u].c)
    {
      assert PcOk(s, s.threads[u]);
      if s.threads[u].Starting? {
        assert CompletionPending(s, s.threads[u].c);
        InFlightAfterMove(s.threads, t, Callback(c), s.threads[u].c);
      }
    }
    ThreadsOkAfterMove(s, s', t, Callback(c));
    CompletionOkAfterMove(s, s', t, Callback(c));
  }

  /** addRef under the lock: the entry found names a command that still has its owner reference. */
  lemma AddRefKeepsInv(s: State, t: Tid, k: Key, c: Ptr)
    requires Inv(s) && t in s.threads && s.threads[t].Idle? && Lookup(s.handlers, k) == Some(c)
    ensures c in s.refs && c !in s.released && s.refs[c] >= 1
    ensures Inv(SetPc(AddRef(s, c), t, Callback(c)))
  {
    HandlerHolds(s, k, c);
    AddRefCounts(s, t, c);
    AddRefTables(s, t, c);
    AddRefThreads(s, t, k, c);
    hide HandlersOk, TableOk, CountsOk, InfoOk, ThreadsOk, CompletionOk;
    assert ClaimsOk(SetPc(AddRef(s, c), t, Callback(c)));
  }

  lemma DispatchReleaseCounts(s: State, t: Tid, c: Ptr)
    requires Inv(s) && t in s.threads && s.threads[t] == Releasing(c)
    ensures CountsOk(SetPc(ReleaseRef(s, c), t, Idle)) && c in s.refs
    ensures c !in SetPc(ReleaseRef(s, c), t, Idle).refs ==> InFlight(s.threads, c) == {t} && c in s.released
  {
    hide HandlersOk, TableOk, InfoOk, ClaimsOk, CompletionOk;
    var s' := SetPc(ReleaseRef(s, c), t, Idle);
    assert PcOk(s, s.threads[t]);
    assert t in InFlight(s.threads, c);
    if s.refs[c] == 1 {
      OnlyMember(InFlight(s.threads, c), t);
    }
    forall q | q in s'.refs
      ensures s'.refs[q] >= 1 && s'.refs[q] == OwnerRefs(s', q) + |InFlight(s'.threads, q)|
    {
      InFlightAfterMove(s.threads, t, Idle, q);
      assert q != c ==> InFlight(s'.threads, q) == InFlight(s.threads, q);
    }
  }

  lemma OnlyMember(ts: set<Tid>, t: Tid)
    requires t in ts && |ts| <= 1
    ensures ts == {t}
  {
    assert |ts - {t}| == 0;
    assert ts == (ts - {t}) + {t};
  }

  lemma OtherAfterDispatchRelease(s: State, t: Tid, c: Ptr, u: Tid)
    requires Inv(s) && t in s.threads && s.threads[t] == Releasing(c) && u in s.threads && u != t
    ensures PcOk(SetPc(ReleaseRef(s, c), t, Idle), s.threads[u])
  {
    DispatchReleaseCounts(s, t, c);
    assert PcOk(s, s.threads[u]);
    assert Dispatching(s.threads[u]) == Some(c) ==> u in InFlight(s.threads, c);
    PcOkAfterRelease(s, SetPc(ReleaseRef(s, c), t, Idle), s.threads[u], c);
  }

  lemma DispatchReleaseThreads(s: State, t: Tid, c: Ptr)
    requires Inv(s) && t in s.threads && s.threads[t] == Releasing(c)
    ensures var s' := SetPc(ReleaseRef(s, c), t, Idle); ThreadsOk(s') && CompletionOk(s') && ClaimsOk(s')
  {
    var s' := SetPc(ReleaseRef(s, c), t, Idle);
    forall u | u in s.threads && u != t ensures PcOk(s', s.threads[u]) {
      OtherAfterDispatchRelease(s, t, c, u);
    }
    ThreadsOkAfterMove(s, s', t, Idle);
    forall u | u in s.threads && u != t && s.threads[u].Starting? ensures CompletionPending(s', s.threads[u].c) {
      assert CompletionPending(s, s.threads[u].c);
      InFlightAfterMove(s.threads, t, Idle, s.threads[u].c);
    }
    CompletionOkAfterMove(s, s', t, Idle);
  }

  /** The dispatcher's own release; the last one deletes the command. */
  lemma DispatchReleaseKeepsInv(s: State, t: Tid, c: Ptr)
    requires Inv(s) && t in s.threads && s.threads[t] == Releasing(c)
    ensures Inv(SetPc(ReleaseRef(s, c), t, Idle))
  {
    DispatchReleaseCounts(s, t, c);
    TablesAfterRelease(s, SetPc(ReleaseRef(s, c), t, Idle), c);
    DispatchReleaseThreads(s, t, c);
  }

  lemma UnregisterInCancelKeepsInv(s: State, t: Tid, k: Key)
    requires Inv(s) && Enabled(s, UnregisterInCancel(t, k))
    ensures Inv(Next(s, UnregisterInCancel(t, k)))
  {
    var mid := s.(handlers := RemoveFirst(s.handlers, k));
    DropHandlerKeepsInv(s, k);
    RemovedSubset(s.handlers, k);
    assert PcOk(s, s.threads[t]);
    MoveKeepsInv(mid, t, Cancelling(s.threads[t].c, s.threads[t].pending - {k}));
  }

  lemma UnregisterOnCompletionKeepsInv(s: State, t: Tid)
    requires Inv(s) && Enabled(s, UnregisterOnCompletion(t))
    ensures Inv(Next(s, UnregisterOnCompletion(t)))
  {
    var c := s.threads[t].c;
    assert PcOk(s, s.threads[t]);
    var k := s.info[c].completion.value;
    var mid := s.(handlers := RemoveFirst(s.handlers, k));
    DropHandlerKeepsInv(s, k);
    RemovedSubset(s.handlers, k);
    assert NoHandler(mid, c);
    MoveKeepsInv(mid, t, Completed(c));
  }

  /** The steps of start, and registration from outside. */
  predicate IsStartStep(step: Step) {
    step.NewCommand? || step.UseInStart? || step.RegisterKey? || step.UnregisterInStart? || step.FinishStart?
  }

  predicate IsCancelStep(step: Step) {
    step.TakeForCancel? || step.UseInCancel? || step.UnregisterInCancel? || step.ReleaseInCancel?
    || step.UnregisterByKey?
  }

  /** The steps by which a command finishes itself. */
  predicate IsCompletionStep(step: Step) {
    step.UnregisterOnCompletion? || step.TakeOnCompletion? || step.ReleaseOnCompletion?
  }

  lemma StartKeepsInv(s: State, step: Step)
    requires Inv(s) && Enabled(s, step) && Disciplined(s, step) && IsStartStep(step)
    ensures Safe(s, step) && Inv(Next(s, step))
  {
    var t := step.t;
    assert PcOk(s, s.threads[t]);
    match step
    case NewCommand(_, p, info) => NewCommandKeepsInv(s, t, p, info);
    case UseInStart(_) =>
    case RegisterKey(_, k) => RegisterKeyKeepsInv(s, t, k);
    case UnregisterInStart(_, k) => DropHandlerKeepsInv(s, k);
    case FinishStart(_, drop) =>
      var mid := s.(table := if drop then RemoveFirst(s.table, s.info[s.threads[t].c].id) else s.table);
      if drop {
        DropTableEntryKeepsInv(s, s.info[s.threads[t].c].id);
      }
      MoveKeepsInv(mid, t, Idle);
  }

  lemma CancelKeepsInv(s: State, step: Step)
    requires Inv(s) && Enabled(s, step) && Disciplined(s, step) && IsCancelStep(step)
    ensures Safe(s, step) && Inv(Next(s, step))
  {
    var t := step.t;
    assert PcOk(s, s.threads[t]);
    match step
    case TakeForCancel(_, id) =>
      if Lookup(s.table, id).Some? {
        TakeForCancelKeepsInv(s, t, id, Lookup(s.table, id).value);
      }
    case UseInCancel(_) =>
    case UnregisterInCancel(_, k) => UnregisterInCancelKeepsInv(s, t, k);
    case ReleaseInCancel(_) => ReleaseOwnerKeepsInv(s, t, s.threads[t].c, Idle);
    case UnregisterByKey(_, k) => DropHandlerKeepsInv(s, k);
  }

  lemma CompletionKeepsInv(s: State, step: Step)
    requires Inv(s) && Enabled(s, step) && IsCompletionStep(step)
    ensures Safe(s, step) && Inv(Next(s, step))
  {
    var t := step.t;
    assert PcOk(s, s.threads[t]);
    match step
    case UnregisterOnCompletion(_) => UnregisterOnCompletionKeepsInv(s, t);
    case TakeOnCompletion(_) =>
      if Lookup(s.table, s.info[s.threads[t].c].id).Some? {
        TakeOnCompletionKeepsInv(s, t, Lookup(s.table, s.info[s.threads[t].c].id).value);
      } else {
        MoveKeepsInv(s, t, Signalling(s.threads[t].c));
      }
    case ReleaseOnCompletion(_) => ReleaseOwnerKeepsInv(s, t, s.threads[t].c, Signalling(s.threads[t].c));
  }

  lemma LookupKeepsInv(s: State, t: Tid, k: Key)
    requires Inv(s) && Enabled(s, LookupAndRef(t, k))
    ensures Safe(s, LookupAndRef(t, k)) && Inv(Next(s, LookupAndRef(t, k)))
  {
    hide Inv, ReleaseOwner, ReleaseRef, WithCommand, WithHandler;
    if Lookup(s.handlers, k).Some? {
      AddRefKeepsInv(s, t, k, Lookup(s.handlers, k).value);
    }
  }

  lemma DispatchKeepsInv(s: State, step: Step)
    requires Inv(s) && Enabled(s, step)
    requires !IsStartStep(step) && !IsCancelStep(step) && !IsCompletionStep(step)
    ensures Safe(s, step) && Inv(Next(s, step))
  {
    var t := step.t;
    assert PcOk(s, s.threads[t]);
    match step
    case LookupAndRef(_, k) => LookupKeepsInv(s, t, k);
    case UseInCallback(_) =>
    case ReturnFromCallback(_) => MoveKeepsInv(s, t, Signalling(s.threads[t].c));
    case Signal(_) => MoveKeepsInv(s, t, Releasing(s.threads[t].c));
    case ReleaseAfterDispatch(_) => DispatchReleaseKeepsInv(s, t, s.threads[t].c);
  }

  /** One step: every command it touches exists, and the invariant is kept. */
  lemma StepKeepsInv(s: State, step: Step)
    requires Inv(s) && Enabled(s, step) && Disciplined(s, step)
    ensures Safe(s, step) && Inv(Next(s, step))
  {
    hide Inv, Enabled, Next, Safe, Disciplined;
    if IsStartStep(step) {
      StartKeepsInv(s, step);
    } else if IsCancelStep(step) {
      CancelKeepsInv(s, step);
    } else if IsCompletionStep(step) {
      CompletionKeepsInv(s, step);
    } else {
      DispatchKeepsInv(s, step);
    }
  }

  /** A start that failed and took its command out of the table can be tried again with the same id, although
      its owner reference is never released. */
  lemma RetryAllowed(s: State, t: Tid)
    requires Inv(s) && Enabled(s, FinishStart(t, true))
    requires s.info[s.threads[t].c].completion.None?
    requires Entry(s.info[s.threads[t].c].id, s.threads[t].c) in s.table
    ensures IdUnused(Next(s, FinishStart(t, true)), s.info[s.threads[t].c].id)
  {
    RemoveKeepsDistinct(s.table, s.info[s.threads[t].c].id);
  }

  // ----- whole runs

  lemma InitInv(s: State)
    requires Init(s)
    ensures Inv(s)
  {
  }

  /** Every state of a disciplined run satisfies the invariant. */
  lemma {:induction false} RunInv(states: seq<State>, steps: seq<Step>, i: nat)
    requires DisciplinedRun(states, steps) && i < |states|
    ensures Inv(states[i])
  {
    if i == 0 {
      InitInv(states[0]);
    } else {
      RunInv(states, steps, i - 1);
      StepKeepsInv(states[i - 1], steps[i - 1]);
    }
  }

  /** No step of any interleaving touches a deleted command. */
  lemma NoUseAfterDelete(states: seq<State>, steps: seq<Step>, i: nat)
    requires DisciplinedRun(states, steps) && i < |steps|
    ensures Safe(states[i], steps[i])
  {
    RunInv(states, steps, i);
    StepKeepsInv(states[i], steps[i]);
  }

  /** Every handler entry names a command that exists and still has its owner reference, so the addRef
      under the lock starts from a count of at least one. */
  lemma HandlersNameOwnedCommands(states: seq<State>, steps: seq<Step>, i: nat, e: Entry<Key, Ptr>)
    requires DisciplinedRun(states, steps) && i < |states|
    requires e in states[i].handlers
    ensures e.val in states[i].refs && states[i].refs[e.val] >= 1 && e.val !in states[i].released
  {
    RunInv(states, steps, i);
  }

  /** Conservation: mRefs of an existing command is its owner reference plus the dispatches in flight on
      it; a deleted command has neither. */
  lemma ReferencesConserved(states: seq<State>, steps: seq<Step>, i: nat, p: Ptr)
    requires DisciplinedRun(states, steps) && i < |states| && p in states[i].info
    ensures p in states[i].refs ==>
              states[i].refs[p] == OwnerRefs(states[i], p) + |InFlight(states[i].threads, p)|
    ensures p in states[i].refs <==> OwnerRefs(states[i], p) + |InFlight(states[i].threads, p)| > 0
  {
    RunInv(states, steps, i);
    var s := states[i];
    if p !in s.refs {
      forall t | t in s.threads ensures Dispatching(s.threads[t]) != Some(p) {
        assert PcOk(s, s.threads[t]);
      }
      assert InFlight(s.threads, p) == {};
    }
  }

  ghost predicate Deletes(s: State, step: Step, p: Ptr)
    requires Enabled(s, step)
  {
    p in s.refs && p !in Next(s, step).refs
  }

  /** The command whose owner reference the step releases. */
  function OwnerReleased(s: State, step: Step): Option<Ptr>
    requires Enabled(s, step)
  {
    if step.ReleaseInCancel? then Some(s.threads[step.t].c)
    else if step.ReleaseOnCompletion? then Some(s.threads[step.t].d)
    else None
  }

  /** What is gone stays gone, and what is given up stays given up. */
  ghost predicate Later(s: State, s': State) {
    && s.info.Keys <= s'.info.Keys
    && s.released <= s'.released
    && forall p :: p in s.info && p !in s.refs ==> p !in s'.refs
  }

  lemma StepMonotone(s: State, step: Step)
    requires Enabled(s, step)
    ensures Later(s, Next(s, step))
    ensures OwnerReleased(s, step).Some? ==> OwnerReleased(s, step).value in Next(s, step).released
  {
  }

  lemma {:induction false} RunMonotone(states: seq<State>, steps: seq<Step>, i: nat, j: nat)
    requires Path(states, steps) && i <= j < |states|
    ensures Later(states[i], states[j])
  {
    hide Enabled, Next;
    if i < j {
      RunMonotone(states, steps, i, j - 1);
      StepMonotone(states[j - 1], steps[j - 1]);
      assert states[j - 1 + 1] == Next(states[j - 1], steps[j - 1]);
    }
  }

  /** Only the thread that claims an unreleased command releases its owner reference. */
  lemma OwnerReleaseIsFirst(s: State, step: Step)
    requires Inv(s) && Enabled(s, step) && OwnerReleased(s, step).Some?
    ensures OwnerReleased(s, step).value !in s.released
  {
  }

  /** Cancel and completion, racing on one request any number of times, release the owner reference of a
      command at most once in a run. */
  lemma OwnerReleasedOnce(states: seq<State>, steps: seq<Step>, i: nat, j: nat, p: Ptr)
    requires DisciplinedRun(states, steps) && i < |steps| && j < |steps|
    requires OwnerReleased(states[i], steps[i]) == Some(p) && OwnerReleased(states[j], steps[j]) == Some(p)
    ensures i == j
  {
    if i < j {
      StepMonotone(states[i], steps[i]);
      RunMonotone(states, steps, i + 1, j);
      RunInv(states, steps, j);
      OwnerReleaseIsFirst(states[j], steps[j]);
    } else if j < i {
      OwnerReleasedOnce(states, steps, j, i, p);
    }
  }

  /** A command is deleted at most once in a run. */
  lemma DeletedOnce(states: seq<State>, steps: seq<Step>, i: nat, j: nat, p: Ptr)
    requires DisciplinedRun(states, steps) && i < |steps| && j < |steps|
    requires Deletes(states[i], steps[i], p) && Deletes(states[j], steps[j], p)
    ensures i == j
  {
    if i < j {
      RunInv(states, steps, i);
      StepMonotone(states[i], steps[i]);
      RunMonotone(states, steps, i + 1, j);
    } else if j < i {
      DeletedOnce(states, steps, j, i, p);
    }
  }

  /** A command that a thread is dispatching exists, also after it released itself from inside its own
      callback; only that thread's final release can delete it from under no other dispatch. */
  lemma DispatchedCommandLives(states: seq<State>, steps: seq<Step>, i: nat, t: Tid, p: Ptr)
    requires DisciplinedRun(states, steps) && i < |steps|
    requires t in states[i].threads && Dispatching(states[i].threads[t]) == Some(p)
    ensures p in states[i].refs
    ensures Deletes(states[i], steps[i], p) ==> steps[i] == ReleaseAfterDispatch(t) && p in states[i].released
    ensures p in states[i + 1].refs || steps[i] == ReleaseAfterDispatch(t)
  {
    hide HandlersOk, TableOk, CountsOk, InfoOk, ClaimsOk, CompletionOk;
    var s := states[i];
    RunInv(states, steps, i);
    RunInv(states, steps, i + 1);
    assert PcOk(s, s.threads[t]);
    if steps[i] != ReleaseAfterDispatch(t) {
      var s' := states[i + 1];
      KeepsDispatching(s, steps[i], t);
      assert PcOk(s', s'.threads[t]);
    } else {
      DispatchReleaseCounts(s, t, p);
    }
  }

  /** Only its own final release ends a dispatch. */
  lemma KeepsDispatching(s: State, step: Step, t: Tid)
    requires Enabled(s, step) && t in s.threads && Dispatching(s.threads[t]).Some?
    requires step != ReleaseAfterDispatch(t)
    ensures t in Next(s, step).threads && Dispatching(Next(s, step).threads[t]) == Dispatching(s.threads[t])
  {
  }

  /** A command that a thread is starting, cancelling or completing exists and has its owner reference. */
  lemma ClaimedCommandLives(states: seq<State>, steps: seq<Step>, i: nat, t: Tid)
    requires DisciplinedRun(states, steps) && i < |states| && t in states[i].threads
    requires var pc := states[i].threads[t]; pc.Starting? || pc.Cancelling? || pc.Took?
    ensures var p := states[i].threads[t].c; p in states[i].refs && p !in states[i].released
  {
    RunInv(states, steps, i);
    assert PcOk(states[i], states[i].threads[t]);
  }

  /** Once a key is registered, with room in the table, its events find the command, and those of all other keys
      what they found before. */
  lemma RegisteredIsFound(s: State, t: Tid, k: Key, l: Key)
    requires Enabled(s, RegisterKey(t, k)) && FreshKey(s, RegisterKey(t, k)) && |s.handlers| < 64
    ensures var after := Next(s, RegisterKey(t, k)).handlers;
            Lookup(after, l) == if l == k then Some(s.threads[t].c) else Lookup(s.handlers, l)
  {
    var after := Next(s, RegisterKey(t, k)).handlers;
    assert after == s.handlers + [Entry(k, s.threads[t].c)];
    if l == k {
      IndexOfUnique(after, k, |s.handlers|);
    } else {
      var i := IndexOf(s.handlers, l);
      IndexOfUnique(after, l, if i < |s.handlers| then i else |after|);
    }
  }

  /** The key that a step unregisters. */
  function Unregisters(s: State, step: Step): Option<Key>
    requires Enabled(s, step)
  {
    match step
    case UnregisterInStart(_, k) => Some(k)
    case UnregisterInCancel(_, k) => Some(k)
    case UnregisterByKey(_, k) => Some(k)
    case UnregisterOnCompletion(t) => s.info[s.threads[t].c].completion
    case _ => None
  }

  /** Once a key is unregistered, its events find nothing. */
  lemma UnregisteredIsGone(s: State, step: Step)
    requires Inv(s) && Enabled(s, step) && Unregisters(s, step).Some?
    ensures Lookup(Next(s, step).handlers, Unregisters(s, step).value) == None
  {
    var k := Unregisters(s, step).value;
    RemoveKeepsDistinct(s.handlers, k);
    LookupMember(RemoveFirst(s.handlers, k), k);
    assert Next(s, step).handlers == RemoveFirst(s.handlers, k);
    assert Lookup(RemoveFirst(s.handlers, k), k).Some? ==> HasKey(RemoveFirst(s.handlers, k), k);
  }

  /** The last step of a cancel, and the release of a completing command: no entry of either table names the
      command any more, and it is gone unless a dispatch of it is in flight. */
  lemma OwnerReleaseEnds(s: State, step: Step)
    requires Inv(s) && Enabled(s, step) && OwnerReleased(s, step).Some?
    ensures var p, s' := OwnerReleased(s, step).value, Next(s, step);
            && NoHandler(s', p) && NotInTable(s', p)
            && (p in s'.refs <==> InFlight(s'.threads, p) != {})
  {
    var p, s' := OwnerReleased(s, step).value, Next(s, step);
    assert PcOk(s, s.threads[step.t]);
    ClaimHolds(s, step.t, p);
    assert NoHandler(s, p) && NotInTable(s, p);
    MoveKeepsFlights(s.threads, step.t, s'.threads[step.t]);
    assert s.refs[p] == 1 + |InFlight(s.threads, p)|;
  }

  // ----- each of the three rules is needed: without it the code does touch a deleted command

  /** A run whose end can take a step that touches a deleted command. */
  ghost predicate UseAfterDelete(states: seq<State>, steps: seq<Step>, last: Step) {
    Run(states, steps) && Enabled(states[|steps|], last) && !Safe(states[|steps|], last)
  }

  datatype Rules = Rules(freshKey: bool, freshId: bool, notStarting: bool)

  ghost predicate Obeys(states: seq<State>, steps: seq<Step>, rules: Rules)
    requires |states| == |steps| + 1
  {
    forall i :: 0 <= i < |steps| ==> Allows(rules, states[i], steps[i])
  }

  ghost predicate Allows(rules: Rules, s: State, step: Step) {
    && (rules.freshKey ==> FreshKey(s, step))
    && (rules.freshId ==> FreshId(s, step))
    && (rules.notStarting ==> NotStarting(s, step))
  }

  /** Three steps in a row, each enabled and allowed. */
  lemma ThreeSteps(states: seq<State>, steps: seq<Step>, rules: Rules)
    requires |states| == 4 && |steps| == 3
    requires Enabled(states[0], steps[0]) && Next(states[0], steps[0]) == states[1]
    requires Allows(rules, states[0], steps[0])
    requires Enabled(states[1], steps[1]) && Next(states[1], steps[1]) == states[2]
    requires Allows(rules, states[1], steps[1])
    requires Enabled(states[2], steps[2]) && Next(states[2], steps[2]) == states[3]
    requires Allows(rules, states[2], steps[2])
    ensures Path(states, steps) && Obeys(states, steps, rules)
  {
    hide Enabled, Next, Allows;
  }

  const IDLE: State := State(map[], map[], {}, [], [], map[0 := Idle, 1 := Idle])
  /** The keys of GSCAN_EVENT_FULL_SCAN_RESULTS and RTT_EVENT_COMPLETE. */
  const FULL_SCAN: Key := Key(103, 6689, 3)
  const RTT: Key := Key(103, 6689, 4)

  /** Idle thread t makes command p, registers its one key and returns from start. */
  lemma StartPath(s: State, t: Tid, p: Ptr, info: Info, k: Key, rules: Rules)
    returns (states: seq<State>, steps: seq<Step>)
    requires t in s.threads && s.threads[t] == Idle && p !in s.info && info.keys == {k} && info.completion.None?
    requires |s.handlers| < DEFAULT_EVENT_CB_SIZE && |s.table| < DEFAULT_CMD_SIZE
    requires rules.freshKey ==> !HasKey(s.handlers, k)
    requires rules.freshId ==> FreshId(s, NewCommand(t, p, info))
    ensures |steps| == 3 && Path(states, steps) && Obeys(states, steps, rules) && states[0] == s
    ensures states[3] == State(s.info[p := info], s.refs[p := 1], s.released, s.handlers + [Entry(k, p)],
                               s.table + [Entry(info.id, p)], s.threads)
  {
    steps := [NewCommand(t, p, info), RegisterKey(t, k), FinishStart(t, false)];
    var s1 := Next(s, steps[0]);
    var s2 := Next(s1, steps[1]);
    var s3 := Next(s2, steps[2]);
    states := [s, s1, s2, s3];
    ThreeSteps(states, steps, rules);
    assert s3.threads == s.threads;
  }

  /** Idle thread t cancels request id, whose command p has the one key k. */
  lemma CancelPath(s: State, t: Tid, id: int, p: Ptr, k: Key, rules: Rules)
    returns (states: seq<State>, steps: seq<Step>)
    requires t in s.threads && s.threads[t] == Idle && Lookup(s.table, id) == Some(p)
    requires p in s.info && s.info[p].keys == {k}
    requires rules.notStarting ==> forall u :: u in s.threads ==> !s.threads[u].Starting?
    ensures |steps| == 3 && Path(states, steps) && Obeys(states, steps, rules) && states[0] == s
    ensures states[3] == ReleaseOwner(s.(table := RemoveFirst(s.table, id), handlers := RemoveFirst(s.handlers, k)), p)
  {
    steps := [TakeForCancel(t, id), UnregisterInCancel(t, k), ReleaseInCancel(t)];
    var s1 := Next(s, steps[0]);
    var s2 := Next(s1, steps[1]);
    var s3 := Next(s2, steps[2]);
    states := [s, s1, s2, s3];
    ThreeSteps(states, steps, rules);
    assert s3.threads == s.threads;
  }

  lemma JoinPaths(xs: seq<State>, a: seq<Step>, ys: seq<State>, b: seq<Step>, rules: Rules)
    requires Path(xs, a) && Path(ys, b) && xs[|a|] == ys[0] && Obeys(xs, a, rules) && Obeys(ys, b, rules)
    ensures Path(xs + ys[1..], a + b) && Obeys(xs + ys[1..], a + b, rules)
    ensures (xs + ys[1..])[0] == xs[0] && (xs + ys[1..])[|a| + |b|] == ys[|b|]
  {
    hide Enabled, Next, Allows;
    var zs, c := xs + ys[1..], a + b;
    assert forall i :: 0 <= i <= |a| ==> zs[i] == xs[i];
    assert forall i :: 0 <= i <= |b| ==> zs[|a| + i] == ys[i];
    forall i | 0 <= i < |c|
      ensures Enabled(zs[i], c[i]) && zs[i + 1] == Next(zs[i], c[i])
    {
      if i >= |a| {
        assert c[i] == b[i - |a|] && zs[i] == ys[i - |a|] && zs[i + 1] == ys[i - |a| + 1];
      }
    }
    assert forall i :: |a| <= i < |c| ==> c[i] == b[i - |a|] && zs[i] == ys[i - |a|];
  }

  /** An event that finds a deleted command. */
  lemma LookupOfDeleted(s: State, t: Tid, k: Key, p: Ptr)
    requires t in s.threads && s.threads[t] == Idle && s.handlers == [Entry(k, p)] && p !in s.refs
    ensures Enabled(s, LookupAndRef(t, k)) && !Safe(s, LookupAndRef(t, k))
  {
    IndexOfUnique(s.handlers, k, 0);
  }

  /** Two commands are started on one key and the second is cancelled. */
  lemma SharedKeyPath(rules: Rules) returns (states: seq<State>, steps: seq<Step>)
    requires rules == Rules(false, true, true)
    ensures |steps| == 9 && Path(states, steps) && Obeys(states, steps, rules) && states[0] == IDLE
    ensures states[9].handlers == [Entry(FULL_SCAN, 2)] && states[9].threads == IDLE.threads && 2 !in states[9].refs
  {
    hide Enabled, Next, Allows;
    var x, a := StartPath(IDLE, 0, 1, Info(1, {FULL_SCAN}, None), FULL_SCAN, rules);
    var y, b := StartPath(x[3], 0, 2, Info(2, {FULL_SCAN}, None), FULL_SCAN, rules);
    assert y[3].handlers == [Entry(FULL_SCAN, 1), Entry(FULL_SCAN, 2)] && y[3].table == [Entry(1, 1), Entry(2, 2)];
    IndexOfUnique(y[3].table, 2, 1);
    IndexOfUnique(y[3].handlers, FULL_SCAN, 0);
    var z, c := CancelPath(y[3], 0, 2, 2, FULL_SCAN, rules);
    JoinPaths(x, a, y, b, rules);
    JoinPaths(x + y[1..], a + b, z, c, rules);
    states, steps := x + y[1..] + z[1..], a + b + c;
  }

  /** Two commands register one key (as ScanCommand and FullScanResultsCommand do): cancelling the second
      removes the entry of the first, and the next event finds the deleted second. */
  lemma SharedKeyBreaks()
    ensures exists states: seq<State>, steps: seq<Step>, last: Step ::
              UseAfterDelete(states, steps, last) && Obeys(states, steps, Rules(false, true, true))
  {
    var states, steps := SharedKeyPath(Rules(false, true, true));
    LookupOfDeleted(states[9], 0, FULL_SCAN, 2);
    assert UseAfterDelete(states, steps, LookupAndRef(0, FULL_SCAN));
  }

  /** A whole cancel of a full-scan command by thread 1 while thread 0 is still in start. */
  lemma OverlapPath(rules: Rules) returns (states: seq<State>, steps: seq<Step>)
    requires rules == Rules(true, true, false)
    ensures |steps| == 4 && Path(states, steps) && Obeys(states, steps, rules) && states[0] == IDLE
    ensures states[4].threads == map[0 := Starting(1), 1 := Idle] && 1 !in states[4].refs
  {
    var first := NewCommand(0, 1, Info(1, {FULL_SCAN}, None));
    var s1 := Next(IDLE, first);
    assert s1.table == [Entry(1, 1)];
    IndexOfUnique(s1.table, 1, 0);
    var z, c := CancelPath(s1, 1, 1, 1, FULL_SCAN, rules);
    JoinPaths([IDLE, s1], [first], z, c, rules);
    states, steps := [IDLE, s1] + z[1..], [first] + c;
  }

  /** A cancel that overlaps the start of the same request deletes the command under it. */
  lemma OverlappingCancelBreaks()
    ensures exists states: seq<State>, steps: seq<Step>, last: Step ::
              UseAfterDelete(states, steps, last) && Obeys(states, steps, Rules(true, true, false))
  {
    var states, steps := OverlapPath(Rules(true, true, false));
    assert UseAfterDelete(states, steps, UseInStart(0));
  }

  /** An event for a self-completing command is taken by thread 0 right after its start. */
  lemma DispatchPath(rules: Rules) returns (states: seq<State>, steps: seq<Step>)
    ensures |steps| == 3 && Path(states, steps) && Obeys(states, steps, rules) && states[0] == IDLE
    ensures states[3] == State(map[1 := Info(7, {RTT}, Some(RTT))], map[1 := 2], {}, [Entry(RTT, 1)], [Entry(7, 1)],
                               map[0 := Callback(1), 1 := Idle])
  {
    steps := [NewCommand(0, 1, Info(7, {RTT}, Some(RTT))), RegisterKey(0, RTT), LookupAndRef(0, RTT)];
    var s1 := Next(IDLE, steps[0]);
    var s2 := Next(s1, steps[1]);
    assert s2.handlers == [Entry(RTT, 1)];
    IndexOfUnique(s2.handlers, RTT, 0);
    var s3 := Next(s2, steps[2]);
    states := [IDLE, s1, s2, s3];
    ThreeSteps(states, steps, rules);
  }

  /** The completion of command 1 takes the entry of command 2, which has the same request id. */
  lemma CompletionPath(s: State, rules: Rules) returns (states: seq<State>, steps: seq<Step>)
    requires s.handlers == [Entry(FULL_SCAN, 2)] && s.table == [Entry(7, 2)]
    requires 0 in s.threads && s.threads[0] == Callback(1) && 1 in s.threads && s.threads[1] == Idle
    requires 1 in s.info && s.info[1] == Info(7, {RTT}, Some(RTT)) && 2 in s.refs && s.refs[2] == 1
    ensures |steps| == 3 && Path(states, steps) && Obeys(states, steps, rules) && states[0] == s
    ensures states[3].handlers == [Entry(FULL_SCAN, 2)] && 2 !in states[3].refs
    ensures 1 in states[3].threads && states[3].threads[1] == Idle
  {
    steps := [UnregisterOnCompletion(0), TakeOnCompletion(0), ReleaseOnCompletion(0)];
    IndexOfUnique(s.handlers, RTT, 1);
    var s1 := Next(s, steps[0]);
    IndexOfUnique(s1.table, 7, 0);
    var s2 := Next(s1, steps[1]);
    assert s2.threads[0] == Took(1, 2);
    var s3 := Next(s2, steps[2]);
    states := [s, s1, s2, s3];
    ThreeSteps(states, steps, rules);
  }

  /** Cancelled while dispatched, command 1 lives on; command 2 is started with the same request id. */
  lemma ReusePath(rules: Rules) returns (states: seq<State>, steps: seq<Step>)
    requires rules == Rules(true, false, true)
    ensures |steps| == 9 && Path(states, steps) && Obeys(states, steps, rules) && states[0] == IDLE
    ensures states[9] == State(map[1 := Info(7, {RTT}, Some(RTT)), 2 := Info(7, {FULL_SCAN}, None)],
                               map[1 := 1, 2 := 1], {1},
                               [Entry(FULL_SCAN, 2)], [Entry(7, 2)], map[0 := Callback(1), 1 := Idle])
  {
    hide Enabled, Next, Allows;
    var w, a := DispatchPath(rules);
    IndexOfUnique(w[3].table, 7, 0);
    IndexOfUnique(w[3].handlers, RTT, 0);
    var x, b := CancelPath(w[3], 1, 7, 1, RTT, rules);
    assert x[3].handlers == [] && x[3].table == [];
    var y, c := StartPath(x[3], 1, 2, Info(7, {FULL_SCAN}, None), FULL_SCAN, rules);
    JoinPaths(w, a, x, b, rules);
    JoinPaths(w + x[1..], a + b, y, c, rules);
    states, steps := w + x[1..] + y[1..], a + b + c;
  }

  /** A request id used again while the cancelled command with it is still being dispatched: that
      command's completion takes and releases the new one, which keeps its handler entry. */
  lemma ReusedIdBreaks()
    ensures exists states: seq<State>, steps: seq<Step>, last: Step ::
              UseAfterDelete(states, steps, last) && Obeys(states, steps, Rules(true, false, true))
  {
    var rules := Rules(true, false, true);
    var y, c := ReusePath(rules);
    var z, d := CompletionPath(y[9], rules);
    JoinPaths(y, c, z, d, rules);
    LookupOfDeleted(z[3], 1, FULL_SCAN, 2);
    assert UseAfterDelete(y + z[1..], c + d, LookupAndRef(1, FULL_SCAN));
  }
}
