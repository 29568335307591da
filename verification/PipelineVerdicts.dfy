/** What a failed verdict tells: every failure delivered has really happened in the run;
    and what the end of the context stops. */
module PipelineVerdicts {
  import opened Wrappers
  import opened ChainTable
  import opened Pipeline
  import opened PipelineSafety
  import opened PipelineErrors

  /* ---- causes ---- */

  /** What goes wrong in one step: the event that is processed fails, or the snapshotter
      does not commit. */
  ghost function TroubleOf(c: Config, s: State, a: Action): seq<Failure>
    requires Enabled(c, s, a)
  {
    if a.Commit? && a.commit.CommitReturns? then
      match a.commit.reply
      case Cancelled => [CommitCancelled(s.next)]
      case Refused(code) => [CommitFailed(s.next, code)]
      case _ => []
    else FailureOf(c, s, a)
  }

  /** All that went wrong in a run. */
  ghost function Troubles(c: Config, s: State, acts: seq<Action>): seq<Failure>
    requires Exec(c, s, acts).Some?
  {
    if acts == [] then []
    else
      var before := acts[..|acts| - 1];
      Troubles(c, s, before) + TroubleOf(c, Exec(c, s, before).value, acts[|acts| - 1])
  }

  /** Why the failure may be the verdict: the context is done; or every result has been
      taken, no error was stored, and the layer at next never came, with nothing or with
      later layers left in the heap; or it went wrong in the run. */
  ghost predicate Cause(s: State, fs: seq<Failure>, f: Failure) {
    match f
    case ContextEnded => s.cancelled
    case EarlyClose(n) => n == s.next && RanDry(s) && s.heap == multiset{}
    case SequenceGap(n) => n == s.next && RanDry(s) && s.heap != multiset{} && !exists r :: Ready(s.heap, n, r)
    case _ => f in fs
  }

  predicate RanDry(s: State) {
    s.resultsClosed && s.results == [] && s.firstErr.None?
  }

  /** The failures of single steps, as opposed to the three that the committer infers. */
  predicate OfAStep(f: Failure) {
    !f.ContextEnded? && !f.EarlyClose? && !f.SequenceGap?
  }

  predicate Known(fs: seq<Failure>, err: Option<Failure>) {
    err.Some? ==> err.value in fs && OfAStep(err.value)
  }

  predicate HoldsKnown(fs: seq<Failure>, k: Worker) {
    k.Storing? || k.Cancelling? || k.Forwarding? ==> Known(fs, k.result.err)
  }

  ghost predicate CommitterKnown(s: State, fs: seq<Failure>) {
    match s.committer
    case StoringFailure(f) => Known(fs, Some(f))
    case CancellingAll(f) => Known(fs, Some(f))
    case Delivering(v, _) => v.Failed? ==> Cause(s, fs, v.failure)
    case _ => s.errCh != [] && s.errCh[0].Failed? ==> Cause(s, fs, s.errCh[0].failure)
  }

  ghost predicate Caused(s: State, fs: seq<Failure>) {
    && Known(fs, s.firstErr)
    && (forall k :: k in s.workers ==> HoldsKnown(fs, k))
    && (forall r :: r in s.results ==> Known(fs, r.err))
    && CommitterKnown(s, fs)
  }

  lemma CausedGrows(s: State, fs: seq<Failure>, more: seq<Failure>)
    requires Caused(s, fs)
    ensures Caused(s, fs + more)
  {
    assert forall k :: k in s.workers ==> HoldsKnown(fs, k) && HoldsKnown(fs + more, k);
  }

  lemma OuterCaused(c: Config, s: State, m: OuterMove, fs: seq<Failure>)
    requires Inv(c, s) && Caused(s, fs) && OuterEnabled(c, s, m)
    ensures Caused(OuterStep(c, s, m), fs)
  {
  }

  lemma WorkerHolds(c: Config, s: State, w: nat, m: WorkerMove, fs: seq<Failure>)
    requires WorkerEnabled(c, s, w, m) && HoldsKnown(fs, s.workers[w]) && GoodWorker(c, s, s.workers[w])
    requires forall f :: f in FailureOf(c, s, Work(w, m)) ==> f in fs
    ensures HoldsKnown(fs, WorkerStep(c, s, w, m).workers[w])
    ensures m.StoreError? ==> Known(fs, s.workers[w].result.err)
    ensures m.Forward? ==> Known(fs, s.workers[w].result.err)
  {
    if m.Process? {
      var r := ProcessEvent(c.chains, s.workers[w].event, m.answers);
      assert r.err.Some? ==> r.err.value in FailureOf(c, s, Work(w, m));
    }
  }

  /** While a worker moves, the result channel is open, so that nothing has run dry. */
  lemma CommitterUnmoved(s: State, t: State, fs: seq<Failure>)
    requires CommitterKnown(s, fs) && !s.resultsClosed && t.committer == s.committer && t.errCh == s.errCh
    requires s.cancelled ==> t.cancelled
    ensures CommitterKnown(t, fs)
  {
  }

  lemma WorkerCaused(c: Config, s: State, w: nat, m: WorkerMove, fs: seq<Failure>)
    requires Inv(c, s) && Caused(s, fs) && WorkerEnabled(c, s, w, m)
    requires forall f :: f in FailureOf(c, s, Work(w, m)) ==> f in fs
    ensures Caused(WorkerStep(c, s, w, m), fs)
  {
    var t := WorkerStep(c, s, w, m);
    assert GoodWorker(c, s, s.workers[w]) && s.workers[w] in s.workers && !s.resultsClosed;
    WorkerHolds(c, s, w, m, fs);
    CommitterUnmoved(s, t, fs);
    forall k | k in t.workers ensures HoldsKnown(fs, k) {
      assert k == t.workers[w] || k in s.workers;
    }
  }

  lemma ResultCaused(s: State, fs: seq<Failure>)
    requires Caused(s, fs) && s.committer.Selecting? && s.results != []
    ensures Caused(OnResult(s), fs)
  {
    assert s.results[0] in s.results;
  }

  lemma ClosedCaused(c: Config, s: State, fs: seq<Failure>)
    requires Inv(c, s) && Caused(s, fs) && CommitterEnabled(c, s, SeeClosed)
    ensures Caused(s.(committer := OnClosed(c, s)), fs)
  {
  }

  lemma ReadyCaused(c: Config, s: State, r: WorkerResult, fs: seq<Failure>)
    requires VerdictOk(c, s) && Caused(s, fs) && s.committer.Draining? && s.next < c.Total()
    ensures Caused(OnReady(c, s, r), fs)
  {
  }

  lemma ReplyCaused(c: Config, s: State, reply: CommitReply, fs: seq<Failure>)
    requires VerdictOk(c, s) && Caused(s, fs) && s.committer.Committing? && s.next < c.Total()
    requires reply.Cancelled? ==> CommitCancelled(s.next) in fs
    requires reply.Refused? ==> CommitFailed(s.next, reply.code) in fs
    ensures Caused(OnReply(c, s, reply), fs)
  {
  }

  /** The other moves of the committer. */
  lemma OtherCaused(c: Config, s: State, m: CommitterMove, fs: seq<Failure>)
    requires Inv(c, s) && Caused(s, fs) && CommitterEnabled(c, s, m)
    requires m.SeeCancelled? || m.StopDraining? || m.StoreFailure? || m.CancelAll? || m.Deliver? || m.Return?
    ensures Caused(CommitterStep(c, s, m), fs)
  {
  }

  lemma CommitterCaused(c: Config, s: State, m: CommitterMove, fs: seq<Failure>)
    requires Inv(c, s) && Caused(s, fs) && CommitterEnabled(c, s, m)
    requires forall f :: f in TroubleOf(c, s, Commit(m)) ==> f in fs
    ensures Caused(CommitterStep(c, s, m), fs)
  {
    match m {
      case TakeResult => ResultCaused(s, fs);
      case SeeClosed => ClosedCaused(c, s, fs);
      case Pop(r) => ReadyCaused(c, s, r, fs);
      case CommitReturns(reply) =>
        assert reply.Cancelled? ==> CommitCancelled(s.next) in TroubleOf(c, s, Commit(m));
        assert reply.Refused? ==> CommitFailed(s.next, reply.code) in TroubleOf(c, s, Commit(m));
        ReplyCaused(c, s, reply, fs);
      case _ => OtherCaused(c, s, m, fs);
    }
  }

  lemma StepCaused(c: Config, s: State, a: Action, fs: seq<Failure>)
    requires Inv(c, s) && Caused(s, fs) && Enabled(c, s, a)
    ensures Caused(Apply(c, s, a), fs + TroubleOf(c, s, a))
  {
    CausedGrows(s, fs, TroubleOf(c, s, a));
    match a {
      case Outer(m) => OuterCaused(c, s, m, fs + TroubleOf(c, s, a));
      case Work(w, m) => WorkerCaused(c, s, w, m, fs + TroubleOf(c, s, a));
      case Commit(m) => CommitterCaused(c, s, m, fs + TroubleOf(c, s, a));
    }
  }

  lemma {:induction false} RunCaused(c: Config, toSend: seq<Event>, store: set<Digest>, acts: seq<Action>)
    requires c.Valid() && Exec(c, Init(c, toSend, store), acts).Some?
    ensures Caused(Exec(c, Init(c, toSend, store), acts).value, Troubles(c, Init(c, toSend, store), acts))
  {
    if acts != [] {
      var n, s0 := |acts| - 1, Init(c, toSend, store);
      RunCaused(c, toSend, store, acts[..n]);
      RunKeepsInv(c, toSend, store, acts[..n]);
      StepCaused(c, Exec(c, s0, acts[..n]).value, acts[n], Troubles(c, s0, acts[..n]));
    }
  }

  /** In every run, a failure that is delivered has a cause in that run: it went wrong in
      some step, or the context is done, or the results have run dry without the next
      layer. */
  lemma VerdictHasCause(c: Config, toSend: seq<Event>, store: set<Digest>, acts: seq<Action>, s: State)
    requires c.Valid() && Reaches(c, toSend, store, acts, s) && s.errCh != [] && s.errCh[0].Failed?
    ensures Cause(s, Troubles(c, Init(c, toSend, store), acts), s.errCh[0].failure)
  {
    RunCaused(c, toSend, store, acts);
    RunKeepsInv(c, toSend, store, acts);
  }

  /* ---- cancellation ---- */

  /** How many workers are inside processEvent. */
  function Busy(ws: seq<Worker>): nat {
    if ws == [] then 0 else (if ws[0].Processing? then 1 else 0) + Busy(ws[1..])
  }

  lemma {:induction false} BusyUpdate(ws: seq<Worker>, w: nat, k: Worker)
    requires w < |ws|
    ensures Busy(ws[w := k]) + (if ws[w].Processing? then 1 else 0) == Busy(ws) + if k.Processing? then 1 else 0
  {
    if w == 0 {
      assert ws[0 := k][1..] == ws[1..];
    } else {
      assert ws[w := k][1..] == ws[1..][w - 1 := k];
      BusyUpdate(ws[1..], w - 1, k);
    }
  }

  function Processed(acts: seq<Action>): nat {
    if acts == [] then 0
    else
      var a := acts[|acts| - 1];
      Processed(acts[..|acts| - 1]) + if a.Work? && a.work.Process? then 1 else 0
  }

  lemma StepAfterEnd(c: Config, s: State, a: Action)
    requires Enabled(c, s, a) && s.cancelled
    ensures Apply(c, s, a).cancelled
    ensures Busy(Apply(c, s, a).workers) + (if a.Work? && a.work.Process? then 1 else 0) <= Busy(s.workers)
  {
    if a.Work? {
      BusyUpdate(s.workers, a.w, Apply(c, s, a).workers[a.w]);
    }
  }

  /** Once the context is done, no event is processed any more, except by the workers
      that are at it already: whatever is still queued or received is dropped. */
  lemma {:induction false} EndStopsProcessing(c: Config, s: State, acts: seq<Action>)
    requires s.cancelled && Exec(c, s, acts).Some?
    ensures Exec(c, s, acts).value.cancelled
    ensures Busy(Exec(c, s, acts).value.workers) + Processed(acts) <= Busy(s.workers)
  {
    if acts != [] {
      var n := |acts| - 1;
      EndStopsProcessing(c, s, acts[..n]);
      StepAfterEnd(c, Exec(c, s, acts[..n]).value, acts[n]);
    }
  }
}
