/** What every run of the snapshot pipeline keeps, and that it cannot get stuck
    before everybody is finished. */
module PipelineSafety {
  import opened Wrappers
  import opened ChainTable
  import opened Pipeline

  /* ---- the invariant ---- */

  predicate GoodResult(c: Config, store: set<Digest>, r: WorkerResult) {
    r.err.None? ==>
      && 0 <= r.index < c.Total()
      && r.event.index == Some(r.index)
      && (r.alreadyCommitted ==> c.Name(r.index) in store)
  }

  predicate GoodWorker(c: Config, s: State, k: Worker) {
    match k
    case Storing(r) => r.err.Some? && GoodResult(c, s.store, r)
    case Cancelling(r) => r.err.Some? && s.firstErr.Some? && GoodResult(c, s.store, r)
    case Forwarding(r) => GoodResult(c, s.store, r) && (r.err.Some? ==> s.firstErr.Some? && s.cancelled)
    case Exited => s.closed && s.events == []
    case _ => true
  }

  /** The goroutines and the two channels. */
  predicate WorkersOk(c: Config, s: State) {
    && |s.workers| == c.workers
    && |s.events| <= c.workers && |s.results| <= c.workers
    && (s.closed ==> s.toSend == [])
    && (forall w :: 0 <= w < |s.workers| ==> GoodWorker(c, s, s.workers[w]))
    && (forall i :: 0 <= i < |s.results| ==> GoodResult(c, s.store, s.results[i]))
    && (s.resultsClosed ==> forall w :: 0 <= w < |s.workers| ==> s.workers[w].Exited?)
  }

  /** Everything before next is in the snapshotter. */
  predicate PrefixCommitted(c: Config, s: State) {
    s.next <= c.Total() && forall j :: 0 <= j < s.next ==> c.Name(j) in s.store
  }

  ghost predicate HeapOk(c: Config, s: State) {
    forall r :: r in s.heap ==> r.err.None? && GoodResult(c, s.store, r)
  }

  /** The committer goes back to its select only when the least result in the
      heap is not the next one. */
  ghost predicate Drained(s: State) {
    s.committer.Selecting? ==> !exists r :: Ready(s.heap, s.next, r)
  }

  /** The verdict is success exactly when every layer is accounted for, and it is
      given once. */
  predicate VerdictOk(c: Config, s: State) {
    match s.committer
    case Delivering(v, _) => s.errCh == [] && (v.Success? <==> s.next == c.Total())
    case Returning => |s.errCh| == 1 && (s.errCh[0].Success? <==> s.next == c.Total())
    case Done => s.cancelled && |s.errCh| == 1 && (s.errCh[0].Success? <==> s.next == c.Total())
    case Committing(r) => s.errCh == [] && s.next < c.Total() && r.index == s.next
    case _ => s.errCh == [] && s.next < c.Total()
  }

  /** Every Commit ever issued carries the name, key and parent of its layer, and
      names a layer below next, or next itself while that one is committed. */
  predicate CallsOk(c: Config, s: State) {
    forall k :: 0 <= k < |s.calls| ==>
      && s.calls[k].layer < c.Total()
      && s.calls[k] == c.Call(s.calls[k].layer, s.calls[k].options)
      && (s.calls[k].layer < s.next ||
          (s.calls[k].layer == s.next && !s.committer.Draining? && !s.committer.Selecting?))
  }

  /** No layer is committed twice, and none before a smaller one. */
  predicate Increasing(calls: seq<CommitCall>) {
    forall k, l :: 0 <= k < l < |calls| ==> calls[k].layer < calls[l].layer
  }

  ghost predicate Inv(c: Config, s: State) {
    && WorkersOk(c, s)
    && PrefixCommitted(c, s)
    && HeapOk(c, s)
    && Drained(s)
    && VerdictOk(c, s)
    && CallsOk(c, s)
    && Increasing(s.calls)
  }

  lemma InitInv(c: Config, toSend: seq<Event>, store: set<Digest>)
    requires c.Valid()
    ensures Inv(c, Init(c, toSend, store))
  {
  }

  lemma OuterKeeps(c: Config, s: State, m: OuterMove)
    requires c.Valid() && Inv(c, s) && OuterEnabled(c, s, m)
    ensures Inv(c, OuterStep(c, s, m))
  {
    var t := OuterStep(c, s, m);
    forall v | 0 <= v < |t.workers| ensures GoodWorker(c, t, t.workers[v]) {
      assert GoodWorker(c, s, s.workers[v]);
    }
    CommitterFrame(c, s, t);
  }

  /** A step that leaves the committer's state alone keeps its part of the
      invariant. */
  lemma CommitterFrame(c: Config, s: State, t: State)
    requires Inv(c, s)
    requires t.committer == s.committer && t.heap == s.heap && t.next == s.next && t.store == s.store
    requires t.calls == s.calls && t.errCh == s.errCh && (s.cancelled ==> t.cancelled)
    ensures PrefixCommitted(c, t) && HeapOk(c, t) && Drained(t) && VerdictOk(c, t)
    ensures CallsOk(c, t) && Increasing(t.calls)
  {
  }

  /** One worker moves to k and flags are only raised. */
  lemma WorkerMoves(c: Config, s: State, t: State, w: nat, k: Worker)
    requires WorkersOk(c, s) && w < |s.workers| && !s.workers[w].Exited?
    requires t.workers == s.workers[w := k] && GoodWorker(c, t, k)
    requires t.toSend == s.toSend && t.closed == s.closed && t.resultsClosed == s.resultsClosed && t.store == s.store
    requires t.events == s.events || (s.events != [] && t.events == s.events[1..])
    requires (s.firstErr.Some? ==> t.firstErr.Some?) && (s.cancelled ==> t.cancelled)
    requires |t.results| <= c.workers && forall i :: 0 <= i < |t.results| ==> GoodResult(c, t.store, t.results[i])
    ensures WorkersOk(c, t)
  {
    forall v | 0 <= v < |t.workers| ensures GoodWorker(c, t, t.workers[v]) {
      if v != w {
        assert GoodWorker(c, s, s.workers[v]);
      }
    }
  }

  lemma WorkerKeeps(c: Config, s: State, w: nat, m: WorkerMove)
    requires c.Valid() && Inv(c, s) && WorkerEnabled(c, s, w, m)
    ensures Inv(c, WorkerStep(c, s, w, m))
  {
    var t := WorkerStep(c, s, w, m);
    assert GoodWorker(c, s, s.workers[w]);
    assert GoodWorker(c, t, t.workers[w]);
    WorkerMoves(c, s, t, w, t.workers[w]);
    CommitterFrame(c, s, t);
  }

  /** A committer step that leaves the goroutines alone keeps their part of the
      invariant. */
  lemma WorkersFrame(c: Config, s: State, t: State)
    requires WorkersOk(c, s)
    requires t.workers == s.workers && t.toSend == s.toSend && t.closed == s.closed && t.events == s.events
    requires t.resultsClosed == s.resultsClosed && s.store <= t.store
    requires t.results == s.results || (s.results != [] && t.results == s.results[1..])
    requires (s.firstErr.Some? ==> t.firstErr.Some?) && (s.cancelled ==> t.cancelled)
    ensures WorkersOk(c, t)
  {
    forall v | 0 <= v < |t.workers| ensures GoodWorker(c, t, t.workers[v]) {
      assert GoodWorker(c, s, s.workers[v]);
    }
  }

  lemma ReadyKeepsWorkers(c: Config, s: State, r: WorkerResult)
    requires WorkersOk(c, s) && s.next < c.Total()
    ensures WorkersOk(c, OnReady(c, s, r))
  {
    WorkersFrame(c, s, OnReady(c, s, r));
  }

  lemma ReplyKeepsWorkers(c: Config, s: State, reply: CommitReply)
    requires WorkersOk(c, s) && s.next < c.Total()
    ensures WorkersOk(c, OnReply(c, s, reply))
  {
    WorkersFrame(c, s, OnReply(c, s, reply));
  }

  lemma ResultKeepsWorkers(c: Config, s: State)
    requires WorkersOk(c, s) && s.results != []
    ensures WorkersOk(c, OnResult(s))
  {
    WorkersFrame(c, s, OnResult(s));
  }

  lemma CommitterKeepsWorkers(c: Config, s: State, m: CommitterMove)
    requires WorkersOk(c, s) && CommitterEnabled(c, s, m)
    ensures WorkersOk(c, CommitterStep(c, s, m))
  {
    match m {
      case TakeResult => ResultKeepsWorkers(c, s);
      case Pop(r) => ReadyKeepsWorkers(c, s, r);
      case CommitReturns(reply) => ReplyKeepsWorkers(c, s, reply);
      case _ => WorkersFrame(c, s, CommitterStep(c, s, m));
    }
  }

  lemma ReadyKeepsPrefix(c: Config, s: State, r: WorkerResult)
    requires PrefixCommitted(c, s) && GoodResult(c, s.store, r) && r.err.None?
    requires s.next < c.Total() && r.index == s.next
    ensures PrefixCommitted(c, OnReady(c, s, r))
  {
  }

  lemma ReplyKeepsPrefix(c: Config, s: State, reply: CommitReply)
    requires PrefixCommitted(c, s) && s.next < c.Total() && (reply.Existed? ==> c.Name(s.next) in s.store)
    ensures PrefixCommitted(c, OnReply(c, s, reply))
  {
  }

  lemma CommitterKeepsPrefix(c: Config, s: State, m: CommitterMove)
    requires PrefixCommitted(c, s) && HeapOk(c, s) && CommitterEnabled(c, s, m)
    ensures PrefixCommitted(c, CommitterStep(c, s, m))
  {
    match m {
      case TakeResult => assert OnResult(s).next == s.next && OnResult(s).store == s.store;
      case Pop(r) => ReadyKeepsPrefix(c, s, r);
      case CommitReturns(reply) => ReplyKeepsPrefix(c, s, reply);
      case _ =>
        var t := CommitterStep(c, s, m);
        assert t.next == s.next && t.store == s.store;
    }
  }

  lemma ResultKeepsVerdict(c: Config, s: State)
    requires VerdictOk(c, s) && s.committer.Selecting? && s.results != []
    ensures VerdictOk(c, OnResult(s))
  {
  }

  lemma ClosedKeepsVerdict(c: Config, s: State)
    requires VerdictOk(c, s) && s.committer.Selecting?
    ensures VerdictOk(c, s.(committer := OnClosed(c, s)))
  {
  }

  lemma ReadyKeepsVerdict(c: Config, s: State, r: WorkerResult)
    requires VerdictOk(c, s) && s.committer.Draining? && s.next < c.Total() && r.index == s.next
    ensures VerdictOk(c, OnReady(c, s, r))
  {
  }

  lemma ReplyKeepsVerdict(c: Config, s: State, reply: CommitReply)
    requires VerdictOk(c, s) && s.committer.Committing? && s.next < c.Total()
    ensures VerdictOk(c, OnReply(c, s, reply))
  {
  }

  lemma CommitterKeepsVerdict(c: Config, s: State, m: CommitterMove)
    requires VerdictOk(c, s) && CommitterEnabled(c, s, m)
    ensures VerdictOk(c, CommitterStep(c, s, m))
  {
    match m {
      case TakeResult => ResultKeepsVerdict(c, s);
      case SeeClosed => ClosedKeepsVerdict(c, s);
      case Pop(r) => ReadyKeepsVerdict(c, s, r);
      case CommitReturns(reply) => ReplyKeepsVerdict(c, s, reply);
      case _ =>
    }
  }

  lemma HeapFrame(c: Config, s: State, t: State)
    requires HeapOk(c, s) && t.heap <= s.heap && s.store <= t.store
    ensures HeapOk(c, t)
  {
    forall r | r in t.heap ensures r.err.None? && GoodResult(c, t.store, r) {
      assert r in s.heap;
    }
  }

  lemma ResultKeepsHeap(c: Config, s: State)
    requires WorkersOk(c, s) && HeapOk(c, s) && s.results != []
    ensures HeapOk(c, OnResult(s))
  {
    assert GoodResult(c, s.store, s.results[0]);
  }

  lemma ReadyKeepsHeap(c: Config, s: State, r: WorkerResult)
    requires HeapOk(c, s) && s.next < c.Total()
    ensures HeapOk(c, OnReady(c, s, r))
  {
    HeapFrame(c, s, OnReady(c, s, r));
  }

  lemma ReplyKeepsHeap(c: Config, s: State, reply: CommitReply)
    requires HeapOk(c, s) && s.next < c.Total()
    ensures HeapOk(c, OnReply(c, s, reply))
  {
    HeapFrame(c, s, OnReply(c, s, reply));
  }

  lemma CommitterKeepsHeap(c: Config, s: State, m: CommitterMove)
    requires WorkersOk(c, s) && HeapOk(c, s) && CommitterEnabled(c, s, m)
    ensures HeapOk(c, CommitterStep(c, s, m))
  {
    match m {
      case TakeResult => ResultKeepsHeap(c, s);
      case Pop(r) => ReadyKeepsHeap(c, s, r);
      case CommitReturns(reply) => ReplyKeepsHeap(c, s, reply);
      case _ => HeapFrame(c, s, CommitterStep(c, s, m));
    }
  }

  lemma ReadyDoesNotSelect(c: Config, s: State, r: WorkerResult)
    requires s.next < c.Total()
    ensures !OnReady(c, s, r).committer.Selecting?
  {
  }

  lemma ReplyDoesNotSelect(c: Config, s: State, reply: CommitReply)
    requires s.next < c.Total()
    ensures !OnReply(c, s, reply).committer.Selecting?
  {
  }

  lemma CommitterDrains(c: Config, s: State, m: CommitterMove)
    requires Drained(s) && CommitterEnabled(c, s, m)
    ensures Drained(CommitterStep(c, s, m))
  {
    match m {
      case TakeResult => assert !OnResult(s).committer.Selecting?;
      case SeeClosed => assert !OnClosed(c, s).Selecting?;
      case Pop(r) => ReadyDoesNotSelect(c, s, r);
      case CommitReturns(reply) => ReplyDoesNotSelect(c, s, reply);
      case StopDraining =>
        var t := CommitterStep(c, s, m);
        assert t.heap == s.heap && t.next == s.next;
      case _ => assert !CommitterStep(c, s, m).committer.Selecting?;
    }
  }

  /** Nothing new is issued, and the committer does not go back to a layer. */
  lemma CallsFrame(c: Config, s: State, t: State)
    requires CallsOk(c, s) && t.calls == s.calls && s.next <= t.next
    requires s.next == t.next && (t.committer.Draining? || t.committer.Selecting?) ==>
               s.committer.Draining? || s.committer.Selecting?
    ensures CallsOk(c, t)
  {
  }

  lemma ReadyKeepsCalls(c: Config, s: State, r: WorkerResult)
    requires CallsOk(c, s) && s.committer.Draining? && s.next < c.Total()
    ensures CallsOk(c, OnReady(c, s, r))
  {
    var t := OnReady(c, s, r);
    if r.alreadyCommitted {
      CallsFrame(c, s, t);
    } else {
      assert t.calls == s.calls + [c.Call(s.next, r.event.commitOptions)];
    }
  }

  lemma CommitterKeepsCalls(c: Config, s: State, m: CommitterMove)
    requires CallsOk(c, s) && CommitterEnabled(c, s, m)
    ensures CallsOk(c, CommitterStep(c, s, m))
  {
    if m.Pop? {
      ReadyKeepsCalls(c, s, m.ready);
    } else {
      CallsFrame(c, s, CommitterStep(c, s, m));
    }
  }

  lemma CommitterKeepsOrder(c: Config, s: State, m: CommitterMove)
    requires CallsOk(c, s) && Increasing(s.calls) && CommitterEnabled(c, s, m)
    ensures Increasing(CommitterStep(c, s, m).calls)
  {
    var t := CommitterStep(c, s, m);
    if m.Pop? && !m.ready.alreadyCommitted {
      assert forall k :: 0 <= k < |s.calls| ==> s.calls[k].layer < s.next;
    } else {
      assert t.calls == s.calls;
    }
  }

  lemma StepKeepsInv(c: Config, s: State, a: Action)
    requires c.Valid() && Inv(c, s) && Enabled(c, s, a)
    ensures Inv(c, Apply(c, s, a))
  {
    match a {
      case Outer(m) => OuterKeeps(c, s, m);
      case Work(w, m) => WorkerKeeps(c, s, w, m);
      case Commit(m) =>
        CommitterKeepsWorkers(c, s, m);
        CommitterKeepsPrefix(c, s, m);
        CommitterKeepsVerdict(c, s, m);
        CommitterKeepsHeap(c, s, m);
        CommitterDrains(c, s, m);
        CommitterKeepsCalls(c, s, m);
        CommitterKeepsOrder(c, s, m);
    }
  }

  /** The invariant holds in every reachable state. */
  lemma {:induction false} RunKeepsInv(c: Config, toSend: seq<Event>, store: set<Digest>, acts: seq<Action>)
    requires c.Valid() && Exec(c, Init(c, toSend, store), acts).Some?
    ensures Inv(c, Exec(c, Init(c, toSend, store), acts).value)
  {
    if acts == [] {
      InitInv(c, toSend, store);
    } else {
      RunKeepsInv(c, toSend, store, acts[..|acts| - 1]);
      StepKeepsInv(c, Exec(c, Init(c, toSend, store), acts[..|acts| - 1]).value, acts[|acts| - 1]);
    }
  }

  /* ---- what the invariant gives ---- */

  ghost predicate Reaches(c: Config, toSend: seq<Event>, store: set<Digest>, acts: seq<Action>, s: State) {
    Exec(c, Init(c, toSend, store), acts) == Some(s)
  }

  lemma OnlyPopIssuesCalls(c: Config, s: State, m: CommitterMove)
    requires CommitterEnabled(c, s, m) && CommitterStep(c, s, m).calls != s.calls
    ensures m.Pop? && s.next < c.Total()
    ensures CommitterStep(c, s, m).calls == s.calls + [c.Call(s.next, m.ready.event.commitOptions)]
  {
  }

  lemma OnlyCommitterIssuesCalls(c: Config, s: State, a: Action)
    requires Enabled(c, s, a) && Apply(c, s, a).calls != s.calls
    ensures a.Commit? && Apply(c, s, a) == CommitterStep(c, s, a.commit)
  {
  }

  /** A call that may be made in state s: under its layer's chain ID, with exactly
      the previous layer's chain ID as parent and no parent for layer 0, all its
      predecessors in the snapshotter, and its layer above all earlier ones. */
  predicate ParentsFirst(c: Config, s: State, call: CommitCall) {
    && call.layer < c.Total() && call.name == c.Name(call.layer)
    && call.parent == ChainIDBefore(c.chains, call.layer)
    && (forall j :: 0 <= j < call.layer ==> c.Name(j) in s.store)
    && (forall k :: 0 <= k < |s.calls| ==> s.calls[k].layer < call.layer)
  }

  lemma IssuedCall(c: Config, s: State, call: CommitCall)
    requires Linked(c.chains) && PrefixCommitted(c, s) && CallsOk(c, s) && s.committer.Draining? && s.next < c.Total()
    requires call == c.Call(s.next, call.options)
    ensures ParentsFirst(c, s, call)
  {
  }

  /** Parent before child: whatever happened before, a step issues at most one
      Commit, and only one that may be made in that state. */
  lemma CommitOnlyAfterParents(c: Config, toSend: seq<Event>, store: set<Digest>, acts: seq<Action>, s: State,
                               a: Action)
    requires c.Valid() && Linked(c.chains) && Reaches(c, toSend, store, acts, s) && Enabled(c, s, a)
    ensures || Apply(c, s, a).calls == s.calls
            || exists call :: Apply(c, s, a).calls == s.calls + [call] && ParentsFirst(c, s, call)
  {
    RunKeepsInv(c, toSend, store, acts);
    if Apply(c, s, a).calls != s.calls {
      OnlyCommitterIssuesCalls(c, s, a);
      OnlyPopIssuesCalls(c, s, a.commit);
      IssuedCall(c, s, c.Call(s.next, a.commit.ready.event.commitOptions));
    }
  }

  /** One verdict: at any moment at most one value was put on the error channel,
      a blocking send of the committer finds the channel empty, and the value is
      nil exactly when every layer is accounted for, and then every layer is in
      the snapshotter. */
  lemma SingleVerdict(c: Config, toSend: seq<Event>, store: set<Digest>, acts: seq<Action>, s: State)
    requires c.Valid() && Reaches(c, toSend, store, acts, s)
    ensures |s.errCh| <= 1 && (s.committer.Delivering? ==> s.errCh == [])
    ensures s.committer.Done? ==> |s.errCh| == 1
    ensures s.errCh != [] ==> (s.errCh[0].Success? <==> s.next == c.Total())
    ensures s.errCh == [Success] ==> forall j :: 0 <= j < c.Total() ==> c.Name(j) in s.store
  {
    RunKeepsInv(c, toSend, store, acts);
  }
}
