/** Every run of the snapshot pipeline is finite, and it ends only when the
    caller, the workers, the closer and the committer are all finished: nobody
    waits forever, in particular not the caller's send. */
module PipelineLiveness {
  import opened Wrappers
  import opened ChainTable
  import opened Pipeline
  import opened PipelineSafety

  /* ---- no reachable state is stuck ---- */

  lemma WorkerCanMove(c: Config, s: State, w: nat)
    requires c.Valid() && Inv(c, s) && w < |s.workers| && !s.workers[w].Exited?
    requires s.cancelled || s.results == []
    ensures exists a :: Enabled(c, s, a)
  {
    assert GoodWorker(c, s, s.workers[w]);
    match s.workers[w] {
      case Waiting =>
        if s.events != [] {
          assert Enabled(c, s, Work(w, Receive));
        } else if s.closed {
          assert Enabled(c, s, Work(w, Exit));
        } else if s.toSend != [] {
          assert Enabled(c, s, Outer(Send));
        } else {
          assert Enabled(c, s, Outer(Close));
        }
      case Received(_) => assert Enabled(c, s, Work(w, CheckContext));
      case Processing(e) => assert Enabled(c, s, Work(w, Process(Answers(false, Ok, None, None))));
      case Storing(_) => assert Enabled(c, s, Work(w, StoreError));
      case Cancelling(_) => assert Enabled(c, s, Work(w, CancelPipeline));
      case Forwarding(_) =>
        if s.cancelled {
          assert Enabled(c, s, Work(w, Drop));
        } else {
          assert Enabled(c, s, Work(w, Forward));
        }
    }
  }

  /** The goroutines and the caller: unless they are all finished, one can move
      once the context is cancelled or the result channel is empty. */
  lemma OthersCanMove(c: Config, s: State)
    requires c.Valid() && Inv(c, s)
    requires s.cancelled || s.results == []
    requires !s.resultsClosed
    ensures exists a :: Enabled(c, s, a)
  {
    if w :| 0 <= w < |s.workers| && !s.workers[w].Exited? {
      WorkerCanMove(c, s, w);
    } else {
      assert Enabled(c, s, Outer(CloseResults));
    }
  }

  lemma CommitterCanMove(c: Config, s: State)
    requires c.Valid() && Inv(c, s) && !s.committer.Done?
    requires s.committer.Selecting? ==> s.cancelled || s.results != [] || s.resultsClosed
    ensures exists a :: Enabled(c, s, a)
  {
    match s.committer {
      case Selecting =>
        if s.cancelled {
          assert Enabled(c, s, Commit(SeeCancelled));
        } else if s.results != [] {
          assert Enabled(c, s, Commit(TakeResult));
        } else {
          assert Enabled(c, s, Commit(SeeClosed));
        }
      case Draining =>
        if r :| Ready(s.heap, s.next, r) {
          assert Enabled(c, s, Commit(Pop(r)));
        } else {
          assert Enabled(c, s, Commit(StopDraining));
        }
      case Committing(_) => assert Enabled(c, s, Commit(CommitReturns(Committed)));
      case StoringFailure(_) => assert Enabled(c, s, Commit(StoreFailure));
      case CancellingAll(_) => assert Enabled(c, s, Commit(CancelAll));
      case Delivering(_, _) => assert Enabled(c, s, Commit(Deliver));
      case Returning => assert Enabled(c, s, Commit(Return));
    }
  }

  /** A state that satisfies the invariant is stuck exactly when all are finished. */
  lemma StuckMeansFinal(c: Config, s: State)
    requires c.Valid() && Inv(c, s) && Stuck(c, s)
    ensures Final(s)
  {
    if !s.committer.Done? {
      if s.committer.Selecting? && !s.cancelled && s.results == [] && !s.resultsClosed {
        OthersCanMove(c, s);
      } else {
        CommitterCanMove(c, s);
      }
    } else if !s.resultsClosed {
      OthersCanMove(c, s);
    } else {
      assert GoodWorker(c, s, s.workers[0]);
    }
  }

  /* ---- every step uses something up ---- */

  function WorkerWeight(k: Worker): nat {
    match k
    case Waiting => 1
    case Received(_) => 19
    case Processing(_) => 18
    case Storing(_) => 17
    case Cancelling(_) => 16
    case Forwarding(_) => 15
    case Exited => 0
  }

  function WorkersWeight(ws: seq<Worker>): nat {
    if ws == [] then 0 else WorkerWeight(ws[0]) + WorkersWeight(ws[1..])
  }

  function CommitterWeight(k: Committer): nat {
    match k
    case Selecting => 10
    case Draining => 11
    case Committing(_) => 15
    case StoringFailure(_) => 4
    case CancellingAll(_) => 3
    case Delivering(_, _) => 2
    case Returning => 1
    case Done => 0
  }

  function Flag(done: bool): nat { if done then 0 else 1 }

  /** What is left to do. */
  function Potential(s: State): nat {
    20 * |s.toSend| + 19 * |s.events| + WorkersWeight(s.workers) + 13 * |s.results| + 10 * |s.heap|
    + CommitterWeight(s.committer) + Flag(s.closed) + Flag(s.resultsClosed) + Flag(s.cancelled)
  }

  lemma {:induction false} WorkersWeightUpdate(ws: seq<Worker>, w: nat, k: Worker)
    requires w < |ws|
    ensures WorkersWeight(ws[w := k]) == WorkersWeight(ws) - WorkerWeight(ws[w]) + WorkerWeight(k)
  {
    if w == 0 {
      assert ws[0 := k][1..] == ws[1..];
    } else {
      assert ws[w := k][1..] == ws[1..][w - 1 := k];
      WorkersWeightUpdate(ws[1..], w - 1, k);
    }
  }

  lemma WorkerUses(c: Config, s: State, w: nat, m: WorkerMove)
    requires WorkerEnabled(c, s, w, m)
    ensures Potential(WorkerStep(c, s, w, m)) < Potential(s)
  {
    var t := WorkerStep(c, s, w, m);
    WorkersWeightUpdate(s.workers, w, t.workers[w]);
    assert t.workers == s.workers[w := t.workers[w]];
  }

  lemma ReadyUses(c: Config, s: State, r: WorkerResult)
    requires s.committer.Draining? && s.next < c.Total() && r in s.heap
    ensures Potential(OnReady(c, s, r)) < Potential(s)
  {
    assert |s.heap - multiset{r}| == |s.heap| - 1;
  }

  lemma ReplyUses(c: Config, s: State, reply: CommitReply)
    requires s.committer.Committing? && s.next < c.Total()
    ensures Potential(OnReply(c, s, reply)) < Potential(s)
  {
  }

  lemma ResultUses(s: State)
    requires s.committer.Selecting? && s.results != []
    ensures Potential(OnResult(s)) < Potential(s)
  {
  }

  lemma VerdictUses(c: Config, s: State, m: CommitterMove)
    requires CommitterEnabled(c, s, m) && !m.TakeResult? && !m.Pop? && !m.CommitReturns?
    ensures Potential(CommitterStep(c, s, m)) < Potential(s)
  {
  }

  lemma CommitterUses(c: Config, s: State, m: CommitterMove)
    requires CommitterEnabled(c, s, m)
    ensures Potential(CommitterStep(c, s, m)) < Potential(s)
  {
    match m {
      case TakeResult => ResultUses(s);
      case Pop(r) => ReadyUses(c, s, r);
      case CommitReturns(reply) => ReplyUses(c, s, reply);
      case _ => VerdictUses(c, s, m);
    }
  }

  lemma StepUses(c: Config, s: State, a: Action)
    requires Enabled(c, s, a)
    ensures Potential(Apply(c, s, a)) < Potential(s)
  {
    match a {
      case Outer(m) =>
      case Work(w, m) => WorkerUses(c, s, w, m);
      case Commit(m) => CommitterUses(c, s, m);
    }
  }

  /** No run is longer than the potential of its first state. */
  lemma {:induction false} RunsAreFinite(c: Config, s: State, acts: seq<Action>)
    requires Exec(c, s, acts).Some?
    ensures |acts| + Potential(Exec(c, s, acts).value) <= Potential(s)
  {
    if acts != [] {
      RunsAreFinite(c, s, acts[..|acts| - 1]);
      StepUses(c, Exec(c, s, acts[..|acts| - 1]).value, acts[|acts| - 1]);
    }
  }

  /** The main result about one run: a maximal run, whatever the schedule, the
      answers and the cancellations, has sent every event, has stopped every
      goroutine, and has put exactly one value on the error channel, which is nil
      exactly when every layer was committed in order. */
  lemma MaximalRunsFinish(c: Config, toSend: seq<Event>, store: set<Digest>, acts: seq<Action>, s: State)
    requires c.Valid() && Reaches(c, toSend, store, acts, s) && Stuck(c, s)
    ensures Final(s) && |s.errCh| == 1
    ensures s.errCh[0].Success? <==> s.next == c.Total()
    ensures s.errCh[0].Success? ==> forall j :: 0 <= j < c.Total() ==> c.Name(j) in s.store
  {
    RunKeepsInv(c, toSend, store, acts);
    StuckMeansFinal(c, s);
  }

  /** From every reachable state the rest of the run is bounded by its potential,
      and as long as something is unfinished there is a next step. */
  lemma NeverStuckNorEndless(c: Config, toSend: seq<Event>, store: set<Digest>, acts: seq<Action>, s: State,
                             more: seq<Action>)
    requires c.Valid() && Reaches(c, toSend, store, acts, s)
    ensures !Final(s) ==> exists a :: Enabled(c, s, a)
    ensures Exec(c, s, more).Some? ==> |more| <= Potential(s)
  {
    RunKeepsInv(c, toSend, store, acts);
    if Stuck(c, s) {
      StuckMeansFinal(c, s);
    }
    if Exec(c, s, more).Some? {
      RunsAreFinite(c, s, more);
    }
  }
}
