/** When the error channel carries the first error stored: over all runs, exactly when
    the committer never passes over it; and a condition on the run that guarantees it. */
module PipelineErrors {
  import opened Wrappers
  import opened ChainTable
  import opened Pipeline
  import opened PipelineSafety

  /** The committer tries to store its own failure after a different one was stored, or
      gives up on the cancelled context before any error is stored. */
  ghost predicate PassesOver(s: State, a: Action) {
    || (a == Commit(StoreFailure) && s.committer.StoringFailure?
        && s.firstErr.Some? && s.firstErr.value != s.committer.failure)
    || (a == Commit(SeeCancelled) && s.firstErr.None?)
  }

  /** No step of the run passes over the first error. */
  ghost predicate Loyal(c: Config, s: State, acts: seq<Action>)
    requires Exec(c, s, acts).Some?
  {
    acts == [] ||
    var before := acts[..|acts| - 1];
    Loyal(c, s, before) && !PassesOver(Exec(c, s, before).value, acts[|acts| - 1])
  }

  /** The failure the committer has settled on, once it has. */
  function Settled(s: State): Option<Failure> {
    match s.committer
    case CancellingAll(f) => Some(f)
    case Delivering(v, _) => if v.Failed? then Some(v.failure) else None
    case Returning => if s.errCh != [] && s.errCh[0].Failed? then Some(s.errCh[0].failure) else None
    case Done => if s.errCh != [] && s.errCh[0].Failed? then Some(s.errCh[0].failure) else None
    case _ => None
  }

  /** The failure settled on is the stored one; or none is stored and no goroutine is
      left to store one. */
  predicate KeepsFaith(s: State) {
    Settled(s).Some? ==> s.firstErr == Settled(s) || (s.firstErr.None? && s.resultsClosed)
  }

  /** The failure settled on is not the stored one and will not be. */
  predicate Betrays(s: State) {
    && Settled(s).Some?
    && s.firstErr != Settled(s)
    && (s.firstErr.None? ==> Settled(s) == Some(ContextEnded))
  }

  /** Workers report failures of their own, never the end of the context. */
  predicate OwnFailures(s: State) {
    forall k :: k in s.workers && k.Storing? ==> k.result.err != Some(ContextEnded)
  }

  predicate Told(s: State, loyal: bool) {
    OwnFailures(s) && if loyal then KeepsFaith(s) else Betrays(s)
  }

  lemma WorkerTold(c: Config, s: State, w: nat, m: WorkerMove, loyal: bool)
    requires Inv(c, s) && Told(s, loyal) && WorkerEnabled(c, s, w, m)
    ensures Told(WorkerStep(c, s, w, m), loyal)
  {
    var t := WorkerStep(c, s, w, m);
    assert s.workers[w] in s.workers && !s.workers[w].Exited?;
    assert Settled(t) == Settled(s) && !s.resultsClosed;
    forall k | k in t.workers && k.Storing? ensures k.result.err != Some(ContextEnded) {
      if k !in s.workers {
        assert k == t.workers[w];
      }
    }
  }

  lemma ResultTold(c: Config, s: State)
    requires Told(s, true) && s.committer.Selecting? && s.results != []
    ensures Told(OnResult(s), true)
  {
  }

  lemma ReadyTold(c: Config, s: State, r: WorkerResult)
    requires Told(s, true) && s.committer.Draining? && s.next < c.Total()
    ensures Told(OnReady(c, s, r), true)
  {
  }

  lemma ReplyTold(c: Config, s: State, reply: CommitReply)
    requires Told(s, true) && s.committer.Committing? && s.next < c.Total()
    ensures Told(OnReply(c, s, reply), true)
  {
  }

  /** Nothing but the delivery is left once the committer has settled. */
  lemma SettledTold(c: Config, s: State, m: CommitterMove, loyal: bool)
    requires VerdictOk(c, s) && Told(s, loyal) && Settled(s).Some? && CommitterEnabled(c, s, m)
    ensures Told(CommitterStep(c, s, m), loyal)
  {
    var t := CommitterStep(c, s, m);
    assert m.CancelAll? || m.Deliver? || m.Return?;
    assert Settled(t) == Settled(s) && t.firstErr == s.firstErr && t.resultsClosed == s.resultsClosed;
  }

  lemma UnsettledTold(c: Config, s: State, m: CommitterMove)
    requires VerdictOk(c, s) && Told(s, true) && Settled(s).None? && CommitterEnabled(c, s, m)
    ensures Told(CommitterStep(c, s, m), !PassesOver(s, Commit(m)))
  {
    match m {
      case TakeResult => ResultTold(c, s);
      case Pop(r) => ReadyTold(c, s, r);
      case CommitReturns(reply) => ReplyTold(c, s, reply);
      case _ =>
    }
  }

  lemma CommitterTold(c: Config, s: State, m: CommitterMove, loyal: bool)
    requires Inv(c, s) && Told(s, loyal) && CommitterEnabled(c, s, m)
    ensures Told(CommitterStep(c, s, m), loyal && !PassesOver(s, Commit(m)))
  {
    if Settled(s).Some? {
      SettledTold(c, s, m, loyal);
    } else {
      UnsettledTold(c, s, m);
    }
  }

  lemma {:induction false} RunTold(c: Config, toSend: seq<Event>, store: set<Digest>, acts: seq<Action>)
    requires c.Valid() && Exec(c, Init(c, toSend, store), acts).Some?
    ensures Told(Exec(c, Init(c, toSend, store), acts).value, Loyal(c, Init(c, toSend, store), acts))
  {
    if acts != [] {
      var n := |acts| - 1;
      var s := Exec(c, Init(c, toSend, store), acts[..n]).value;
      var loyal := Loyal(c, Init(c, toSend, store), acts[..n]);
      RunTold(c, toSend, store, acts[..n]);
      RunKeepsInv(c, toSend, store, acts[..n]);
      match acts[n] {
        case Outer(m) => assert Settled(OuterStep(c, s, m)) == Settled(s);
        case Work(w, m) => WorkerTold(c, s, w, m, loyal);
        case Commit(m) => CommitterTold(c, s, m, loyal);
      }
    }
  }

  /** Of every run that delivered an error and in which one was stored: the one
      delivered is the one stored first if and only if no step passed over it. Every
      other way to a delivery carries the stored error. */
  lemma DeliversFirstIffLoyal(c: Config, toSend: seq<Event>, store: set<Digest>, acts: seq<Action>, s: State)
    requires c.Valid() && Reaches(c, toSend, store, acts, s)
    requires s.errCh != [] && s.errCh[0].Failed? && s.firstErr.Some?
    ensures s.firstErr == Some(s.errCh[0].failure) <==> Loyal(c, Init(c, toSend, store), acts)
  {
    RunTold(c, toSend, store, acts);
    RunKeepsInv(c, toSend, store, acts);
    assert Settled(s) == Some(s.errCh[0].failure);
  }

  /* ---- a condition on the run ---- */

  /** The parent context is left alone, and Commit fails only when the pipeline's own
      context was cancelled. */
  predicate Quiet(s: State, a: Action) {
    && a != Outer(CancelParent)
    && (a.Commit? && a.commit.CommitReturns? ==>
          !a.commit.reply.Refused? && (a.commit.reply.Cancelled? ==> s.cancelled))
  }

  ghost predicate QuietRun(c: Config, s: State, acts: seq<Action>)
    requires Exec(c, s, acts).Some?
  {
    acts == [] ||
    var before := acts[..|acts| - 1];
    QuietRun(c, s, before) && Quiet(Exec(c, s, before).value, acts[|acts| - 1])
  }

  /** The failure of the event that the step processes, if it fails. */
  ghost function FailureOf(c: Config, s: State, a: Action): seq<Failure>
    requires Enabled(c, s, a)
  {
    if a.Work? && a.work.Process? then
      var r := ProcessEvent(c.chains, s.workers[a.w].event, a.work.answers);
      if r.err.Some? then [r.err.value] else []
    else []
  }

  /** The failures of all events processed, in order. */
  ghost function Failures(c: Config, s: State, acts: seq<Action>): seq<Failure>
    requires Exec(c, s, acts).Some?
  {
    if acts == [] then []
    else
      var before := acts[..|acts| - 1];
      Failures(c, s, before) + FailureOf(c, Exec(c, s, before).value, acts[|acts| - 1])
  }

  /** Every failure in sight comes from an event, and the context is cancelled only
      because of a stored one. */
  predicate FailureFrom(fs: seq<Failure>, err: Option<Failure>) {
    err.None? || err.value in fs
  }

  predicate HeldFrom(fs: seq<Failure>, k: Worker) {
    k.Storing? || k.Cancelling? || k.Forwarding? ==> FailureFrom(fs, k.result.err)
  }

  predicate Calm(s: State, fs: seq<Failure>) {
    && FailureFrom(fs, s.firstErr)
    && (forall k :: k in s.workers ==> HeldFrom(fs, k))
    && (forall r :: r in s.results ==> FailureFrom(fs, r.err))
    && (s.committer.StoringFailure? ==> s.committer.failure in fs)
    && (s.committer.CancellingAll? ==> s.firstErr.Some?)
    && (s.cancelled ==> s.firstErr.Some? || s.committer.Done?)
  }

  lemma CalmGrows(s: State, fs: seq<Failure>, more: seq<Failure>)
    requires Calm(s, fs)
    ensures Calm(s, fs + more)
  {
    assert forall k :: k in s.workers ==> HeldFrom(fs, k) && HeldFrom(fs + more, k);
  }

  lemma WorkerCalm(c: Config, s: State, w: nat, m: WorkerMove, fs: seq<Failure>)
    requires Inv(c, s) && Calm(s, fs) && WorkerEnabled(c, s, w, m)
    requires forall f :: f in FailureOf(c, s, Work(w, m)) ==> f in fs
    ensures Calm(WorkerStep(c, s, w, m), fs)
  {
    var t := WorkerStep(c, s, w, m);
    assert GoodWorker(c, s, s.workers[w]);
    assert s.workers[w] in s.workers && HeldFrom(fs, s.workers[w]);
    if m.Process? {
      var r := ProcessEvent(c.chains, s.workers[w].event, m.answers);
      assert r.err.Some? ==> r.err.value in FailureOf(c, s, Work(w, m));
    }
    assert HeldFrom(fs, t.workers[w]);
    forall k | k in t.workers ensures HeldFrom(fs, k) {
      if k !in s.workers {
        assert k == t.workers[w];
      }
    }
  }

  lemma ResultCalm(s: State, fs: seq<Failure>)
    requires Calm(s, fs) && s.committer.Selecting? && s.results != []
    ensures Calm(OnResult(s), fs)
  {
    assert s.results[0] in s.results && FailureFrom(fs, s.results[0].err);
  }

  lemma ReadyCalm(c: Config, s: State, r: WorkerResult, fs: seq<Failure>)
    requires Calm(s, fs) && s.committer.Draining? && s.next < c.Total()
    ensures Calm(OnReady(c, s, r), fs)
  {
  }

  lemma ReplyCalm(c: Config, s: State, reply: CommitReply, fs: seq<Failure>)
    requires Calm(s, fs) && Quiet(s, Commit(CommitReturns(reply))) && s.committer.Committing? && s.next < c.Total()
    ensures Calm(OnReply(c, s, reply), fs)
  {
  }

  lemma CommitterCalm(c: Config, s: State, m: CommitterMove, fs: seq<Failure>)
    requires Calm(s, fs) && Quiet(s, Commit(m)) && CommitterEnabled(c, s, m)
    ensures Calm(CommitterStep(c, s, m), fs)
  {
    match m {
      case TakeResult => ResultCalm(s, fs);
      case Pop(r) => ReadyCalm(c, s, r, fs);
      case CommitReturns(reply) => ReplyCalm(c, s, reply, fs);
      case _ =>
    }
  }

  lemma {:induction false} QuietRunCalm(c: Config, toSend: seq<Event>, store: set<Digest>, acts: seq<Action>)
    requires c.Valid() && Exec(c, Init(c, toSend, store), acts).Some? && QuietRun(c, Init(c, toSend, store), acts)
    ensures Calm(Exec(c, Init(c, toSend, store), acts).value, Failures(c, Init(c, toSend, store), acts))
  {
    if acts != [] {
      var n, s0 := |acts| - 1, Init(c, toSend, store);
      var s, fs := Exec(c, s0, acts[..n]).value, Failures(c, s0, acts[..n]);
      var more := FailureOf(c, s, acts[n]);
      QuietRunCalm(c, toSend, store, acts[..n]);
      RunKeepsInv(c, toSend, store, acts[..n]);
      CalmGrows(s, fs, more);
      match acts[n] {
        case Outer(m) =>
        case Work(w, m) => WorkerCalm(c, s, w, m, fs + more);
        case Commit(m) => CommitterCalm(c, s, m, fs + more);
      }
    }
  }

  predicate AllAlike(fs: seq<Failure>) {
    forall i, j :: 0 <= i < |fs| && 0 <= j < |fs| ==> fs[i] == fs[j]
  }

  lemma {:induction false} QuietRunLoyal(c: Config, toSend: seq<Event>, store: set<Digest>, acts: seq<Action>)
    requires c.Valid() && Exec(c, Init(c, toSend, store), acts).Some? && QuietRun(c, Init(c, toSend, store), acts)
    requires AllAlike(Failures(c, Init(c, toSend, store), acts))
    ensures Loyal(c, Init(c, toSend, store), acts)
  {
    if acts != [] {
      var n, s0 := |acts| - 1, Init(c, toSend, store);
      var fs, all := Failures(c, s0, acts[..n]), Failures(c, s0, acts);
      assert forall i :: 0 <= i < |fs| ==> fs[i] == all[i];
      QuietRunLoyal(c, toSend, store, acts[..n]);
      QuietRunCalm(c, toSend, store, acts[..n]);
    }
  }

  /** An error is stored, or a worker is about to store one. */
  predicate Remembered(s: State) {
    s.firstErr.Some? || exists w :: 0 <= w < |s.workers| && s.workers[w].Storing?
  }

  lemma WorkerRemembers(c: Config, s: State, w: nat, m: WorkerMove)
    requires WorkerEnabled(c, s, w, m) && (Remembered(s) || FailureOf(c, s, Work(w, m)) != [])
    ensures Remembered(WorkerStep(c, s, w, m))
  {
    var t := WorkerStep(c, s, w, m);
    if Remembered(s) && s.firstErr.None? {
      var v :| 0 <= v < |s.workers| && s.workers[v].Storing?;
      assert v != w ==> t.workers[v].Storing?;
    } else if s.firstErr.None? {
      assert t.workers[w].Storing?;
    }
  }

  lemma CommitterRemembers(c: Config, s: State, m: CommitterMove)
    requires CommitterEnabled(c, s, m) && Remembered(s)
    ensures Remembered(CommitterStep(c, s, m))
  {
    var t := CommitterStep(c, s, m);
    assert t.workers == s.workers;
    assert s.firstErr.Some? ==> t.firstErr.Some?;
  }

  /** Once an event has failed, its error is not forgotten. */
  lemma {:induction false} FailureIsRemembered(c: Config, s0: State, acts: seq<Action>)
    requires Exec(c, s0, acts).Some? && Failures(c, s0, acts) != []
    ensures Remembered(Exec(c, s0, acts).value)
  {
    var n := |acts| - 1;
    var s := Exec(c, s0, acts[..n]).value;
    if Failures(c, s0, acts[..n]) != [] {
      FailureIsRemembered(c, s0, acts[..n]);
    }
    match acts[n] {
      case Outer(m) =>
        var t := OuterStep(c, s, m);
        assert t.workers == s.workers && t.firstErr == s.firstErr;
      case Work(w, m) => WorkerRemembers(c, s, w, m);
      case Commit(m) => CommitterRemembers(c, s, m);
    }
  }

  /** With at most one failing event (or events that all fail alike), a parent context
      that is left alone and no refused Commit: once an event has failed, a failed
      verdict is that event's own failure. */
  lemma OneFailureIsDelivered(c: Config, toSend: seq<Event>, store: set<Digest>, acts: seq<Action>, s: State)
    requires c.Valid() && Reaches(c, toSend, store, acts, s) && QuietRun(c, Init(c, toSend, store), acts)
    requires AllAlike(Failures(c, Init(c, toSend, store), acts)) && Failures(c, Init(c, toSend, store), acts) != []
    requires s.errCh != [] && s.errCh[0].Failed?
    ensures s.errCh[0].failure == Failures(c, Init(c, toSend, store), acts)[0]
    ensures s.firstErr == Some(s.errCh[0].failure)
  {
    var s0 := Init(c, toSend, store);
    QuietRunLoyal(c, toSend, store, acts);
    QuietRunCalm(c, toSend, store, acts);
    FailureIsRemembered(c, s0, acts);
    RunKeepsInv(c, toSend, store, acts);
    RunTold(c, toSend, store, acts);
    assert Settled(s) == Some(s.errCh[0].failure);
    assert s.firstErr.value in Failures(c, s0, acts);
  }
}
