/** Clean runs of the snapshot pipeline refine the sequential commit loop.

    A run is clean when the events are a permutation of the layers, the parent
    context is not cancelled, and the snapshotter and the actions do not fail. */
module PipelineRefinement {
  import opened Wrappers
  import opened ChainTable
  import opened Pipeline
  import opened PipelineSafety
  import opened PipelineLiveness

  /** The job: one event for each layer, and what the snapshotter holds already. */
  datatype Job = Job(c: Config, plan: seq<Event>, store: set<Digest>) {
    predicate Valid() {
      && c.Valid()
      && |plan| == c.Total()
      && forall i :: 0 <= i < |plan| ==> plan[i].index == Some(i)
    }

    /** The only result a clean run can produce for layer i. */
    function Want(i: nat): WorkerResult
      requires Valid() && i < |plan|
    {
      WorkerResult(i, plan[i], None, c.Name(i) in store)
    }

    predicate Planned(e: Event) {
      e in plan
    }
  }

  /** The calls of the loop that commits layer after layer, skipping those that
      the snapshotter already has. */
  function SequentialCalls(j: Job, k: nat): seq<CommitCall>
    requires j.Valid() && k <= |j.plan|
  {
    if k == 0 then []
    else SequentialCalls(j, k - 1) +
         if j.c.Name(k - 1) in j.store then [] else [j.c.Call(k - 1, j.plan[k - 1].commitOptions)]
  }

  /** Nothing fails, nothing is cancelled, and Stat answers exactly. */
  predicate Clean(c: Config, s: State, a: Action) {
    match a
    case Outer(m) => !m.CancelParent?
    case Work(w, Process(x)) =>
      w < |s.workers| && s.workers[w].Processing? &&
      var e := s.workers[w].event;
      && e.index.Some? && 0 <= e.index.value < c.Total()
      && (x.statCommitted <==> c.Name(e.index.value) in s.store)
      && (x.prepare.Ok? || (x.prepare.AlreadyExists? && x.mounts.None?)) && x.action.None?
    case Work(w, _) => true
    case Commit(CommitReturns(reply)) => reply.Committed? || reply.Existed?
    case Commit(_) => true
  }

  ghost predicate CleanRun(c: Config, s: State, acts: seq<Action>) {
    acts == [] ||
    var before := Exec(c, s, acts[..|acts| - 1]);
    && CleanRun(c, s, acts[..|acts| - 1])
    && before.Some?
    && Clean(c, before.value, acts[|acts| - 1])
  }

  /* ---- where the work for one layer is ---- */

  function HeldBy(k: Worker): Option<Event> {
    match k
    case Received(e) => Some(e)
    case Processing(e) => Some(e)
    case Storing(r) => Some(r.event)
    case Cancelling(r) => Some(r.event)
    case Forwarding(r) => Some(r.event)
    case _ => None
  }

  function Holding(k: Worker, e: Event): nat {
    if HeldBy(k) == Some(e) then 1 else 0
  }

  function InWorkers(ws: seq<Worker>, e: Event): nat {
    if ws == [] then 0 else Holding(ws[0], e) + InWorkers(ws[1..], e)
  }

  lemma {:induction false} InWorkersUpdate(ws: seq<Worker>, w: nat, k: Worker, e: Event)
    requires w < |ws|
    ensures InWorkers(ws[w := k], e) == InWorkers(ws, e) - Holding(ws[w], e) + Holding(k, e)
  {
    if w == 0 {
      assert ws[0 := k][1..] == ws[1..];
    } else {
      assert ws[w := k][1..] == ws[1..][w - 1 := k];
      InWorkersUpdate(ws[1..], w - 1, k, e);
    }
  }

  lemma {:induction false} InWorkersIdle(ws: seq<Worker>, e: Event)
    requires forall w :: 0 <= w < |ws| ==> HeldBy(ws[w]).None?
    ensures InWorkers(ws, e) == 0
  {
    if ws != [] {
      InWorkersIdle(ws[1..], e);
    }
  }

  function InCommitter(k: Committer, r: WorkerResult): nat {
    if k.Committing? && k.ready == r then 1 else 0
  }

  /** How often the work for layer i occurs: not yet sent, queued, in a worker, in
      the result channel, in the heap, with the committer, or committed. */
  function Places(j: Job, s: State, i: nat): nat
    requires j.Valid() && i < |j.plan|
  {
    multiset(s.toSend)[j.plan[i]] + multiset(s.events)[j.plan[i]] + InWorkers(s.workers, j.plan[i])
    + multiset(s.results)[j.Want(i)] + s.heap[j.Want(i)] + InCommitter(s.committer, j.Want(i))
    + (if i < s.next then 1 else 0)
  }

  /* ---- the invariant of clean runs ---- */

  predicate CleanWorker(j: Job, k: Worker)
    requires j.Valid()
  {
    match k
    case Received(e) => j.Planned(e)
    case Processing(e) => j.Planned(e)
    case Forwarding(r) => CleanResult(j, r)
    case Storing(_) => false
    case Cancelling(_) => false
    case _ => true
  }

  predicate CleanResult(j: Job, r: WorkerResult)
    requires j.Valid()
  {
    0 <= r.index < |j.plan| && r == j.Want(r.index)
  }

  predicate OnlyPlanned(j: Job, s: State)
    requires j.Valid()
  {
    && (forall e :: e in s.toSend ==> j.Planned(e))
    && (forall e :: e in s.events ==> j.Planned(e))
    && (forall k :: k in s.workers ==> CleanWorker(j, k))
    && (forall r :: r in s.results ==> CleanResult(j, r))
    && (forall r :: r in s.heap ==> CleanResult(j, r))
    && (s.committer.Committing? ==> CleanResult(j, s.committer.ready))
  }

  predicate NoFailure(s: State) {
    && s.firstErr.None?
    && (s.cancelled ==> s.committer.Done?)
    && !s.committer.StoringFailure? && !s.committer.CancellingAll?
    && (s.committer.Delivering? ==> s.committer.verdict.Success?)
    && forall v :: v in s.errCh ==> v.Success?
  }

  /** The snapshotter holds what it held before and what was committed since. */
  predicate StoreExact(j: Job, s: State)
    requires j.Valid()
  {
    forall i :: 0 <= i < |j.plan| ==> (j.c.Name(i) in s.store <==> j.c.Name(i) in j.store || i < s.next)
  }

  predicate CallsExact(j: Job, s: State)
    requires j.Valid()
  {
    s.next <= |j.plan| &&
    s.calls == SequentialCalls(j, s.next) +
               if s.committer.Committing? && s.next < |j.plan|
               then [j.c.Call(s.next, j.plan[s.next].commitOptions)] else []
  }

  predicate OncePerLayer(j: Job, s: State)
    requires j.Valid()
  {
    forall i :: 0 <= i < |j.plan| ==> Places(j, s, i) == 1
  }

  /** The committer commits only layers that the snapshotter did not have. */
  predicate NewLayer(j: Job, s: State)
    requires j.Valid()
  {
    s.committer.Committing? ==> s.next < |j.plan| && j.c.Name(s.next) !in j.store
  }

  /** Where everything is, apart from how often. */
  predicate OnPlan(j: Job, s: State)
    requires j.Valid()
  {
    OnlyPlanned(j, s) && NoFailure(s) && StoreExact(j, s) && NewLayer(j, s)
  }

  ghost predicate CleanInv(j: Job, s: State)
    requires j.Valid()
  {
    Inv(j.c, s) && OnPlan(j, s) && CallsExact(j, s) && OncePerLayer(j, s)
  }

  lemma PlanHasNoRepeats(j: Job, i: nat)
    requires j.Valid() && i < |j.plan|
    ensures multiset(j.plan)[j.plan[i]] == 1
  {
    assert j.plan == j.plan[..i] + [j.plan[i]] + j.plan[i + 1..];
    assert j.plan[i] !in j.plan[..i] && j.plan[i] !in j.plan[i + 1..];
  }

  lemma InitClean(j: Job, toSend: seq<Event>)
    requires j.Valid() && multiset(toSend) == multiset(j.plan)
    ensures CleanInv(j, Init(j.c, toSend, j.store))
  {
    var s := Init(j.c, toSend, j.store);
    InitInv(j.c, toSend, j.store);
    forall e | e in toSend ensures j.Planned(e) {
      assert e in multiset(toSend);
    }
    forall i | 0 <= i < |j.plan| ensures Places(j, s, i) == 1 {
      PlanHasNoRepeats(j, i);
      InWorkersIdle(s.workers, j.plan[i]);
    }
  }

  lemma HeadCount<T>(s: seq<T>, x: T)
    requires s != []
    ensures multiset(s)[x] == multiset(s[1..])[x] + if s[0] == x then 1 else 0
  {
    assert s == [s[0]] + s[1..];
  }

  lemma OuterOnce(j: Job, s: State, m: OuterMove)
    requires j.Valid() && OncePerLayer(j, s) && OuterEnabled(j.c, s, m)
    ensures OncePerLayer(j, OuterStep(j.c, s, m))
  {
    forall i | 0 <= i < |j.plan| ensures Places(j, OuterStep(j.c, s, m), i) == 1 {
      assert Places(j, s, i) == 1;
      if m.Send? {
        HeadCount(s.toSend, j.plan[i]);
      }
    }
  }

  lemma OuterOnPlan(j: Job, s: State, m: OuterMove)
    requires j.Valid() && OnPlan(j, s) && OuterEnabled(j.c, s, m) && !m.CancelParent?
    ensures OnPlan(j, OuterStep(j.c, s, m))
  {
  }

  /** While a worker holds a layer, that layer is not behind next. */
  lemma HeldIsAhead(j: Job, s: State, w: nat, i: nat)
    requires j.Valid() && CleanInv(j, s) && w < |s.workers| && i < |j.plan| && HeldBy(s.workers[w]) == Some(j.plan[i])
    ensures s.next <= i && !s.committer.Done?
  {
    InWorkersUpdate(s.workers, w, Waiting, j.plan[i]);
    assert Places(j, s, i) == 1;
  }

  lemma WorkerPlaces(j: Job, s: State, w: nat, m: WorkerMove, i: nat)
    requires j.Valid() && WorkerEnabled(j.c, s, w, m) && i < |j.plan|
    requires CleanWorker(j, s.workers[w]) && CleanWorker(j, WorkerStep(j.c, s, w, m).workers[w])
    requires m.CheckContext? || m.Process? ==>
               HeldBy(s.workers[w]) == HeldBy(WorkerStep(j.c, s, w, m).workers[w])
    requires !m.Drop?
    ensures Places(j, WorkerStep(j.c, s, w, m), i) == Places(j, s, i)
  {
    var t := WorkerStep(j.c, s, w, m);
    InWorkersUpdate(s.workers, w, t.workers[w], j.plan[i]);
    match m {
      case Receive => HeadCount(s.events, j.plan[i]);
      case Forward => assert multiset(t.results) == multiset(s.results) + multiset{s.workers[w].result};
      case _ =>
    }
  }

  /** What a worker does with the layer it holds. */
  lemma WorkerKeepsLayer(j: Job, s: State, w: nat, m: WorkerMove)
    requires j.Valid() && CleanInv(j, s) && WorkerEnabled(j.c, s, w, m) && Clean(j.c, s, Work(w, m))
    ensures CleanWorker(j, s.workers[w]) && !m.Drop?
    ensures CleanWorker(j, WorkerStep(j.c, s, w, m).workers[w])
    ensures m.CheckContext? || m.Process? ==>
              HeldBy(s.workers[w]) == HeldBy(WorkerStep(j.c, s, w, m).workers[w])
  {
    assert s.workers[w] in s.workers;
    if HeldBy(s.workers[w]).Some? {
      var i :| 0 <= i < |j.plan| && HeldBy(s.workers[w]) == Some(j.plan[i]);
      HeldIsAhead(j, s, w, i);
      if m.Process? {
        assert WorkerStep(j.c, s, w, m).workers[w] == Forwarding(j.Want(i));
      }
    }
  }

  lemma WorkerOnPlan(j: Job, s: State, w: nat, m: WorkerMove)
    requires j.Valid() && OnPlan(j, s) && WorkerEnabled(j.c, s, w, m)
    requires CleanWorker(j, s.workers[w]) && CleanWorker(j, WorkerStep(j.c, s, w, m).workers[w])
    ensures OnPlan(j, WorkerStep(j.c, s, w, m))
  {
    var t := WorkerStep(j.c, s, w, m);
    forall k | k in t.workers ensures CleanWorker(j, k) {
      assert k == t.workers[w] || k in s.workers;
    }
  }

  lemma WorkerOnce(j: Job, s: State, w: nat, m: WorkerMove)
    requires j.Valid() && OncePerLayer(j, s) && WorkerEnabled(j.c, s, w, m)
    requires CleanWorker(j, s.workers[w]) && CleanWorker(j, WorkerStep(j.c, s, w, m).workers[w])
    requires m.CheckContext? || m.Process? ==>
               HeldBy(s.workers[w]) == HeldBy(WorkerStep(j.c, s, w, m).workers[w])
    requires !m.Drop?
    ensures OncePerLayer(j, WorkerStep(j.c, s, w, m))
  {
    forall i | 0 <= i < |j.plan| ensures Places(j, WorkerStep(j.c, s, w, m), i) == 1 {
      assert Places(j, s, i) == 1;
      WorkerPlaces(j, s, w, m, i);
    }
  }

  /** In a clean run the result channel is never seen closed: the next layer is
      still somewhere, and when nothing else can hold it, it is the least result
      in the heap. */
  lemma NeverSeesClosed(j: Job, s: State)
    requires j.Valid() && CleanInv(j, s)
    ensures !CommitterEnabled(j.c, s, SeeClosed)
  {
    if CommitterEnabled(j.c, s, SeeClosed) {
      var n := s.next;
      forall w | 0 <= w < |s.workers| ensures HeldBy(s.workers[w]).None? {
        assert s.workers[w].Exited?;
      }
      InWorkersIdle(s.workers, j.plan[n]);
      assert GoodWorker(j.c, s, s.workers[0]);
      assert Places(j, s, n) == 1;
      assert j.Want(n) in s.heap;
      forall q | q in s.heap ensures n <= q.index {
        assert Places(j, s, q.index) == 1;
      }
      assert Ready(s.heap, n, j.Want(n));
    }
  }

  lemma ReadyPlaces(j: Job, s: State, i: nat)
    requires j.Valid() && s.committer.Draining? && s.next < |j.plan| && j.Want(s.next) in s.heap && i < |j.plan|
    requires j.c.Total() == |j.plan|
    ensures Places(j, OnReady(j.c, s, j.Want(s.next)), i) == Places(j, s, i)
  {
  }

  lemma ReadyCalls(j: Job, s: State)
    requires j.Valid() && CallsExact(j, s) && s.committer.Draining? && s.next < |j.plan|
    ensures CallsExact(j, OnReady(j.c, s, j.Want(s.next)))
  {
    var t := OnReady(j.c, s, j.Want(s.next));
    if j.c.Name(s.next) in j.store {
      assert t.next == s.next + 1 && t.calls == s.calls && !t.committer.Committing?;
    } else {
      assert t.next == s.next && t.committer.Committing?;
    }
  }

  lemma ReadyOnce(j: Job, s: State)
    requires j.Valid() && OncePerLayer(j, s) && s.committer.Draining? && s.next < |j.plan| && j.Want(s.next) in s.heap
    requires j.c.Total() == |j.plan|
    ensures OncePerLayer(j, OnReady(j.c, s, j.Want(s.next)))
  {
    forall i | 0 <= i < |j.plan| ensures Places(j, OnReady(j.c, s, j.Want(s.next)), i) == 1 {
      assert Places(j, s, i) == 1;
      ReadyPlaces(j, s, i);
    }
  }

  lemma ReadyOnPlan(j: Job, s: State)
    requires j.Valid() && OnPlan(j, s) && s.committer.Draining? && s.next < |j.plan| && j.Want(s.next) in s.heap
    requires !s.cancelled
    ensures OnPlan(j, OnReady(j.c, s, j.Want(s.next)))
  {
    assert forall q :: q in OnReady(j.c, s, j.Want(s.next)).heap ==> q in s.heap;
  }

  lemma ReplyPlaces(j: Job, s: State, reply: CommitReply, i: nat)
    requires j.Valid() && s.next < |j.plan| && s.committer == Committing(j.Want(s.next)) && i < |j.plan|
    requires reply.Committed? || reply.Existed?
    ensures Places(j, OnReply(j.c, s, reply), i) == Places(j, s, i)
  {
  }

  lemma ReplyCalls(j: Job, s: State, reply: CommitReply)
    requires j.Valid() && CallsExact(j, s) && s.committer.Committing? && s.next < |j.plan|
    requires j.c.Name(s.next) !in j.store && (reply.Committed? || reply.Existed?)
    ensures CallsExact(j, OnReply(j.c, s, reply))
  {
    var t := OnReply(j.c, s, reply);
    assert t.next == s.next + 1 && t.calls == s.calls && !t.committer.Committing?;
    assert SequentialCalls(j, t.next) == s.calls;
    assert t.calls == SequentialCalls(j, t.next) + [];
  }

  lemma ReplyOnce(j: Job, s: State, reply: CommitReply)
    requires j.Valid() && OncePerLayer(j, s) && s.next < |j.plan| && s.committer == Committing(j.Want(s.next))
    requires reply.Committed? || reply.Existed?
    ensures OncePerLayer(j, OnReply(j.c, s, reply))
  {
    forall i | 0 <= i < |j.plan| ensures Places(j, OnReply(j.c, s, reply), i) == 1 {
      assert Places(j, s, i) == 1;
      ReplyPlaces(j, s, reply, i);
    }
  }

  lemma ReplyOnPlan(j: Job, s: State, reply: CommitReply)
    requires j.Valid() && Linked(j.c.chains) && OnPlan(j, s)
    requires s.next < |j.plan| && s.committer == Committing(j.Want(s.next))
    requires !s.cancelled && (reply.Committed? || (reply.Existed? && j.c.Name(s.next) in s.store))
    ensures OnPlan(j, OnReply(j.c, s, reply))
  {
  }

  lemma ResultOnce(j: Job, s: State)
    requires j.Valid() && OncePerLayer(j, s) && s.committer.Selecting? && s.results != [] && s.results[0].err.None?
    ensures OncePerLayer(j, OnResult(s))
  {
    forall i | 0 <= i < |j.plan| ensures Places(j, OnResult(s), i) == 1 {
      assert Places(j, s, i) == 1;
      HeadCount(s.results, j.Want(i));
    }
  }

  lemma ResultOnPlan(j: Job, s: State)
    requires j.Valid() && OnPlan(j, s) && s.committer.Selecting? && s.results != []
    ensures OnPlan(j, OnResult(s)) && s.results[0].err.None?
  {
    assert CleanResult(j, s.results[0]);
  }

  lemma ResultCalls(j: Job, s: State)
    requires j.Valid() && CallsExact(j, s) && s.committer.Selecting? && s.results != []
    ensures CallsExact(j, OnResult(s))
  {
  }

  predicate QuietMove(m: CommitterMove) {
    m.StopDraining? || m.Deliver? || m.Return?
  }

  lemma QuietOnPlan(j: Job, s: State, m: CommitterMove)
    requires j.Valid() && OnPlan(j, s) && CommitterEnabled(j.c, s, m) && QuietMove(m)
    ensures OnPlan(j, CommitterStep(j.c, s, m))
  {
  }

  lemma QuietOnce(j: Job, s: State, m: CommitterMove)
    requires j.Valid() && OncePerLayer(j, s) && CallsExact(j, s) && CommitterEnabled(j.c, s, m) && QuietMove(m)
    ensures OncePerLayer(j, CommitterStep(j.c, s, m)) && CallsExact(j, CommitterStep(j.c, s, m))
  {
    forall i | 0 <= i < |j.plan| ensures Places(j, CommitterStep(j.c, s, m), i) == 1 {
      assert Places(j, s, i) == 1;
    }
  }

  /** The committer's state is the one its moves start from, and a clean run keeps the
      context alive until the end. */
  lemma CleanCommitter(j: Job, s: State)
    requires j.Valid() && CleanInv(j, s)
    ensures s.committer.Draining? || s.committer.Committing? || s.committer.Selecting? ==>
              s.next < |j.plan| && !s.cancelled
    ensures s.committer.Committing? ==> s.committer == Committing(j.Want(s.next))
    ensures forall r :: s.committer.Draining? && Ready(s.heap, s.next, r) ==> r == j.Want(s.next)
  {
    forall r | r in s.heap ensures CleanResult(j, r) {
    }
  }

  lemma CommitClean(j: Job, s: State, m: CommitterMove)
    requires j.Valid() && Linked(j.c.chains) && CleanInv(j, s)
    requires CommitterEnabled(j.c, s, m) && Clean(j.c, s, Commit(m))
    ensures OnPlan(j, CommitterStep(j.c, s, m)) && CallsExact(j, CommitterStep(j.c, s, m))
    ensures OncePerLayer(j, CommitterStep(j.c, s, m))
  {
    CleanCommitter(j, s);
    match m {
      case Pop(r) =>
        ReadyOnPlan(j, s);
        ReadyCalls(j, s);
        ReadyOnce(j, s);
      case CommitReturns(reply) =>
        ReplyOnPlan(j, s, reply);
        ReplyCalls(j, s, reply);
        ReplyOnce(j, s, reply);
      case TakeResult =>
        ResultOnPlan(j, s);
        ResultCalls(j, s);
        ResultOnce(j, s);
      case SeeClosed => NeverSeesClosed(j, s);
      case SeeCancelled =>
      case StoreFailure =>
      case CancelAll =>
      case _ =>
        QuietOnPlan(j, s, m);
        QuietOnce(j, s, m);
    }
  }

  lemma StepClean(j: Job, s: State, a: Action)
    requires j.Valid() && Linked(j.c.chains) && CleanInv(j, s) && Enabled(j.c, s, a) && Clean(j.c, s, a)
    ensures CleanInv(j, Apply(j.c, s, a))
  {
    StepKeepsInv(j.c, s, a);
    match a {
      case Outer(m) =>
        OuterOnPlan(j, s, m);
        OuterOnce(j, s, m);
      case Work(w, m) =>
        WorkerKeepsLayer(j, s, w, m);
        WorkerOnPlan(j, s, w, m);
        WorkerOnce(j, s, w, m);
      case Commit(m) => CommitClean(j, s, m);
    }
  }

  /** Conservation: at every moment of a clean run each layer is in exactly one
      place, from the caller's hands to the snapshotter. */
  lemma {:induction false} CleanRunsConserve(j: Job, toSend: seq<Event>, acts: seq<Action>)
    requires j.Valid() && Linked(j.c.chains) && multiset(toSend) == multiset(j.plan)
    requires Exec(j.c, Init(j.c, toSend, j.store), acts).Some? && CleanRun(j.c, Init(j.c, toSend, j.store), acts)
    ensures CleanInv(j, Exec(j.c, Init(j.c, toSend, j.store), acts).value)
  {
    if acts == [] {
      InitClean(j, toSend);
    } else {
      CleanRunsConserve(j, toSend, acts[..|acts| - 1]);
      StepClean(j, Exec(j.c, Init(j.c, toSend, j.store), acts[..|acts| - 1]).value, acts[|acts| - 1]);
    }
  }

  /** Refinement: every maximal clean run, in whatever order events were sent,
      workers ran and results arrived, issues exactly the calls of the sequential
      loop, in its order, reports success, and leaves every layer committed. */
  lemma CleanRunsCommitSequentially(j: Job, toSend: seq<Event>, acts: seq<Action>, s: State)
    requires j.Valid() && Linked(j.c.chains) && multiset(toSend) == multiset(j.plan)
    requires Reaches(j.c, toSend, j.store, acts, s) && CleanRun(j.c, Init(j.c, toSend, j.store), acts) && Stuck(j.c, s)
    ensures s.calls == SequentialCalls(j, |j.plan|)
    ensures s.errCh == [Success]
    ensures forall i :: 0 <= i < |j.plan| ==> j.c.Name(i) in s.store
  {
    CleanRunsConserve(j, toSend, acts);
    MaximalRunsFinish(j.c, toSend, j.store, acts, s);
    assert s.errCh[0] in s.errCh;
  }
}
