/** The ordered snapshot pipeline as a step relation.

    The caller, the worker goroutines, the closer, the committer and the
    cancellation of the parent context move in any order; a step is named by an
    Action, and an action carries whatever the environment decides (which worker
    moves, what the snapshotter answers, which of several equal minima the heap
    yields). Enabled says when an action can happen and Apply what it does. */
module Pipeline {
  import opened Wrappers
  import opened ChainTable

  /** An event: the value of its index label (None when the label is missing or
      is not a number) and the commit options it carries. */
  datatype Event = Event(index: Option<int>, commitOptions: seq<string>)

  datatype Failure =
    | InvalidSequence
    | OutOfRange(index: int)
    | MountsFailed(layer: nat, code: int)
    | PrepareFailed(layer: nat, code: int)
    | ActionFailed(layer: nat, code: int)
    | CommitFailed(layer: nat, code: int)
    | CommitCancelled(layer: nat)
    | ContextEnded
    | EarlyClose(next: nat)
    | SequenceGap(next: nat)

  datatype Verdict = Success | Failed(failure: Failure)

  /** index is -1 exactly for results that never enter the heap. */
  datatype WorkerResult = WorkerResult(index: int, event: Event, err: Option<Failure>, alreadyCommitted: bool)

  /** One call of the snapshotter's Commit. */
  datatype CommitCall = CommitCall(layer: nat, name: Digest, key: Digest, parent: Option<Digest>, options: seq<string>)

  /* ---- the worker's Prepare and Action ---- */

  datatype Reply = Ok | AlreadyExists | Error(code: int)

  /** What the snapshotter and the user's action answer while one event is
      processed; only the answers that are asked for matter. */
  datatype Answers = Answers(statCommitted: bool, prepare: Reply, mounts: Option<int>, action: Option<int>)

  function ProcessEvent(chains: seq<ChainInfo>, e: Event, a: Answers): (r: WorkerResult)
    ensures r.err.None? ==> e.index == Some(r.index) && 0 <= r.index < |chains| && r.event == e
    ensures r.alreadyCommitted <==> r.err.None? && a.statCommitted
    ensures r.err.None? <==>
            && e.index.Some? && 0 <= e.index.value < |chains|
            && (a.statCommitted || ((a.prepare.Ok? || (a.prepare.AlreadyExists? && a.mounts.None?)) && a.action.None?))
  {
    match e.index
    case None => WorkerResult(-1, e, Some(InvalidSequence), false)
    case Some(i) =>
      if i < 0 || i >= |chains| then WorkerResult(-1, e, Some(OutOfRange(i)), false)
      else if a.statCommitted then WorkerResult(i, e, None, true)
      else if a.prepare.Error? then WorkerResult(i, e, Some(PrepareFailed(i, a.prepare.code)), false)
      else if a.prepare.AlreadyExists? && a.mounts.Some? then
        WorkerResult(i, e, Some(MountsFailed(i, a.mounts.value)), false)
      else if a.action.Some? then WorkerResult(i, e, Some(ActionFailed(i, a.action.value)), false)
      else WorkerResult(i, e, None, false)
  }

  /** The snapshotter has prepared the layer, now or in an earlier run that left it. */
  predicate Prepared(a: Answers) {
    a.prepare.Ok? || (a.prepare.AlreadyExists? && a.mounts.None?)
  }

  /** The error of a result names the first thing that went wrong, and where. */
  lemma FailureTellsCause(chains: seq<ChainInfo>, e: Event, a: Answers)
    ensures var err := ProcessEvent(chains, e, a).err;
            var inRange := e.index.Some? && 0 <= e.index.value < |chains|;
            && (err == Some(InvalidSequence) <==> e.index.None?)
            && (forall i :: err == Some(OutOfRange(i)) <==> e.index == Some(i) && !inRange)
            && (forall i: nat, code :: err == Some(PrepareFailed(i, code)) <==>
                  inRange && i == e.index.value && !a.statCommitted && a.prepare == Error(code))
            && (forall i: nat, code :: err == Some(MountsFailed(i, code)) <==>
                  && inRange && i == e.index.value && !a.statCommitted
                  && a.prepare.AlreadyExists? && a.mounts == Some(code))
            && (forall i: nat, code :: err == Some(ActionFailed(i, code)) <==>
                  inRange && i == e.index.value && !a.statCommitted && Prepared(a) && a.action == Some(code))
  {
  }

  /* ---- state ---- */

  /** The chain table and the number of workers (the number of CPUs when the
      caller asked for none). */
  datatype Config = Config(chains: seq<ChainInfo>, workers: nat) {
    predicate Valid() { chains != [] && workers >= 1 }
    function Total(): nat { |chains| }
    function Name(i: nat): Digest requires i < Total() { chains[i].chainID }

    /** The call the committer makes for layer i. */
    function Call(i: nat, options: seq<string>): CommitCall
      requires i < Total()
    {
      CommitCall(i, chains[i].chainID, chains[i].diffID, chains[i].parentChainID, options)
    }
  }

  /** Where a worker is: at the range over the event channel, before the check of
      the context, inside processEvent, before the error is stored, before the
      context is cancelled, at the select that forwards the result, or gone. */
  datatype Worker =
    | Waiting
    | Received(event: Event)
    | Processing(event: Event)
    | Storing(result: WorkerResult)
    | Cancelling(result: WorkerResult)
    | Forwarding(result: WorkerResult)
    | Exited

  datatype Committer =
    | Selecting
    | Draining
    | Committing(ready: WorkerResult)
    | StoringFailure(failure: Failure)
    | CancellingAll(failure: Failure)
    | Delivering(verdict: Verdict, blocking: bool)
    | Returning
    | Done

  datatype State = State(
    toSend: seq<Event>,            // what the caller has not sent yet
    closed: bool,                  // the caller closed the event channel
    events: seq<Event>,            // the buffered event channel
    workers: seq<Worker>,
    results: seq<WorkerResult>,    // the buffered result channel
    resultsClosed: bool,
    cancelled: bool,               // the pipeline context is done
    firstErr: Option<Failure>,
    committer: Committer,
    heap: multiset<WorkerResult>,
    next: nat,
    store: set<Digest>,            // committed snapshots, by chain ID
    calls: seq<CommitCall>,        // every Commit issued so far
    errCh: seq<Verdict>)           // every value ever put on the error channel

  function Init(c: Config, toSend: seq<Event>, store: set<Digest>): State {
    State(toSend, false, [], seq(c.workers, _ => Waiting), [], false, false, None,
          Selecting, multiset{}, 0, store, [], [])
  }

  /* ---- actions ---- */

  datatype CommitReply = Committed | Existed | Cancelled | Refused(code: int)

  /** Moves of the caller, of the parent context and of the closer. */
  datatype OuterMove = Send | Close | CancelParent | CloseResults

  datatype WorkerMove =
    | Receive
    | Exit
    | CheckContext
    | Process(answers: Answers)
    | StoreError
    | CancelPipeline
    | Forward
    | Drop

  datatype CommitterMove =
    | SeeCancelled
    | TakeResult
    | SeeClosed
    | Pop(ready: WorkerResult)
    | StopDraining
    | CommitReturns(reply: CommitReply)
    | StoreFailure
    | CancelAll
    | Deliver
    | Return

  datatype Action = Outer(outer: OuterMove) | Work(w: nat, work: WorkerMove) | Commit(commit: CommitterMove)

  /** The snapshotter is honest: it reports a committed snapshot only if there is
      one, both from Stat and by answering AlreadyExists to Commit. */
  predicate Honest(c: Config, s: State, e: Event, a: Answers) {
    a.statCommitted && e.index.Some? && 0 <= e.index.value < c.Total() ==> c.Name(e.index.value) in s.store
  }

  function SetFirst(current: Option<Failure>, f: Failure): Option<Failure> {
    if current.None? then Some(f) else current
  }

  /* ---- the caller and the closer ---- */

  predicate OuterEnabled(c: Config, s: State, m: OuterMove) {
    match m
    case Send => s.toSend != [] && |s.events| < c.workers
    case Close => s.toSend == [] && !s.closed
    case CancelParent => !s.cancelled
    case CloseResults => !s.resultsClosed && forall w :: 0 <= w < |s.workers| ==> s.workers[w].Exited?
  }

  function OuterStep(c: Config, s: State, m: OuterMove): State
    requires OuterEnabled(c, s, m)
  {
    match m
    case Send => s.(toSend := s.toSend[1..], events := s.events + [s.toSend[0]])
    case Close => s.(closed := true)
    case CancelParent => s.(cancelled := true)
    case CloseResults => s.(resultsClosed := true)
  }

  /* ---- a worker ---- */

  predicate WorkerEnabled(c: Config, s: State, w: nat, m: WorkerMove) {
    w < |s.workers| &&
    match m
    case Receive => s.workers[w].Waiting? && s.events != []
    case Exit => s.workers[w].Waiting? && s.events == [] && s.closed
    case CheckContext => s.workers[w].Received?
    case Process(answers) => s.workers[w].Processing? && Honest(c, s, s.workers[w].event, answers)
    case StoreError => s.workers[w].Storing? && s.workers[w].result.err.Some?
    case CancelPipeline => s.workers[w].Cancelling?
    case Forward => s.workers[w].Forwarding? && |s.results| < c.workers
    case Drop => s.workers[w].Forwarding? && s.cancelled
  }

  function WorkerStep(c: Config, s: State, w: nat, m: WorkerMove): State
    requires WorkerEnabled(c, s, w, m)
  {
    var k := s.workers[w];
    match m
    case Receive => s.(events := s.events[1..], workers := s.workers[w := Received(s.events[0])])
    case Exit => s.(workers := s.workers[w := Exited])
    case CheckContext => s.(workers := s.workers[w := if s.cancelled then Waiting else Processing(k.event)])
    case Process(answers) =>
      var r := ProcessEvent(c.chains, k.event, answers);
      s.(workers := s.workers[w := if r.err.Some? then Storing(r) else Forwarding(r)])
    case StoreError =>
      s.(firstErr := SetFirst(s.firstErr, k.result.err.value), workers := s.workers[w := Cancelling(k.result)])
    case CancelPipeline => s.(cancelled := true, workers := s.workers[w := Forwarding(k.result)])
    case Forward => s.(results := s.results + [k.result], workers := s.workers[w := Waiting])
    case Drop => s.(workers := s.workers[w := Waiting])
  }

  /* ---- the committer ---- */

  /** h[0] of the heap may be r. */
  ghost predicate IsMin(h: multiset<WorkerResult>, r: WorkerResult) {
    r in h && forall q :: q in h ==> r.index <= q.index
  }

  ghost predicate Ready(heap: multiset<WorkerResult>, next: nat, r: WorkerResult) {
    IsMin(heap, r) && r.index == next
  }

  ghost predicate CommitterEnabled(c: Config, s: State, m: CommitterMove) {
    match m
    case SeeCancelled => s.committer.Selecting? && s.cancelled
    case TakeResult => s.committer.Selecting? && s.results != []
    case SeeClosed => s.committer.Selecting? && s.results == [] && s.resultsClosed
    case Pop(r) => s.committer.Draining? && s.next < c.Total() && Ready(s.heap, s.next, r)
    case StopDraining => s.committer.Draining? && !exists r :: Ready(s.heap, s.next, r)
    case CommitReturns(reply) =>
      s.committer.Committing? && s.next < c.Total() && (reply.Existed? ==> c.Name(s.next) in s.store)
    case StoreFailure => s.committer.StoringFailure?
    case CancelAll => s.committer.CancellingAll?
    case Deliver => s.committer.Delivering? && (s.committer.blocking ==> |s.errCh| < 1)
    case Return => s.committer.Returning?
  }

  /** next++, and success once every layer is accounted for. */
  function Advance(c: Config, s: State): State {
    s.(next := s.next + 1,
       committer := if s.next + 1 == c.Total() then Delivering(Success, true) else Draining)
  }

  /** The result channel is closed and empty. */
  function OnClosed(c: Config, s: State): Committer {
    if s.heap == multiset{} then
      if s.next == c.Total() then Delivering(Success, true)
      else if s.firstErr.Some? then Delivering(Failed(s.firstErr.value), true)
      else if s.cancelled then Delivering(Failed(ContextEnded), true)
      else Delivering(Failed(EarlyClose(s.next)), true)
    else if s.firstErr.Some? then Delivering(Failed(s.firstErr.value), false)
    else Delivering(Failed(SequenceGap(s.next)), true)
  }

  function OnResult(s: State): State
    requires s.results != []
  {
    var r := s.results[0];
    if r.err.Some? then s.(results := s.results[1..], committer := StoringFailure(r.err.value))
    else s.(results := s.results[1..], heap := s.heap + multiset{r}, committer := Draining)
  }

  function OnReady(c: Config, s: State, r: WorkerResult): State
    requires s.next < c.Total()
  {
    if r.alreadyCommitted then Advance(c, s.(heap := s.heap - multiset{r}))
    else s.(heap := s.heap - multiset{r}, committer := Committing(r),
            calls := s.calls + [c.Call(s.next, r.event.commitOptions)])
  }

  function OnReply(c: Config, s: State, reply: CommitReply): State
    requires s.next < c.Total()
  {
    match reply
    case Committed => Advance(c, s.(store := s.store + {c.Name(s.next)}))
    case Existed => Advance(c, s)
    case Cancelled =>
      s.(committer := if s.firstErr.Some? then Delivering(Failed(s.firstErr.value), true)
                      else StoringFailure(CommitCancelled(s.next)))
    case Refused(code) => s.(committer := StoringFailure(CommitFailed(s.next, code)))
  }

  ghost function CommitterStep(c: Config, s: State, m: CommitterMove): State
    requires CommitterEnabled(c, s, m)
  {
    match m
    case SeeCancelled =>
      s.(committer := Delivering(Failed(if s.firstErr.Some? then s.firstErr.value else ContextEnded), false))
    case TakeResult => OnResult(s)
    case SeeClosed => s.(committer := OnClosed(c, s))
    case Pop(r) => OnReady(c, s, r)
    case StopDraining => s.(committer := Selecting)
    case CommitReturns(reply) => OnReply(c, s, reply)
    case StoreFailure =>
      s.(firstErr := SetFirst(s.firstErr, s.committer.failure), committer := CancellingAll(s.committer.failure))
    case CancelAll => s.(cancelled := true, committer := Delivering(Failed(s.committer.failure), true))
    case Deliver =>
      s.(errCh := if |s.errCh| < 1 then s.errCh + [s.committer.verdict] else s.errCh, committer := Returning)
    case Return => s.(cancelled := true, committer := Done)
  }

  ghost predicate Enabled(c: Config, s: State, a: Action) {
    match a
    case Outer(m) => OuterEnabled(c, s, m)
    case Work(w, m) => WorkerEnabled(c, s, w, m)
    case Commit(m) => CommitterEnabled(c, s, m)
  }

  ghost function Apply(c: Config, s: State, a: Action): State
    requires Enabled(c, s, a)
  {
    match a
    case Outer(m) => OuterStep(c, s, m)
    case Work(w, m) => WorkerStep(c, s, w, m)
    case Commit(m) => CommitterStep(c, s, m)
  }

  /* ---- runs ---- */

  /** The state after the actions, or None when some action is not enabled. */
  ghost function Exec(c: Config, s: State, acts: seq<Action>): Option<State>
  {
    if acts == [] then Some(s)
    else
      var before := Exec(c, s, acts[..|acts| - 1]);
      var a := acts[|acts| - 1];
      if before.Some? && Enabled(c, before.value, a) then Some(Apply(c, before.value, a)) else None
  }

  ghost predicate Stuck(c: Config, s: State) {
    forall a :: !Enabled(c, s, a)
  }

  /** Everybody is finished. */
  predicate Final(s: State) {
    && s.toSend == [] && s.closed && s.events == [] && s.resultsClosed && s.committer.Done?
    && forall w :: 0 <= w < |s.workers| ==> s.workers[w].Exited?
  }
}
