/** Which error the error channel carries. The documentation says the first one
    encountered; a run in which two workers fail can deliver the second. */
module PipelineFirstError {
  import opened Wrappers
  import opened ChainTable
  import opened Pipeline
  import opened PipelineSafety

  lemma ReachesNext(c: Config, toSend: seq<Event>, store: set<Digest>, acts: seq<Action>, s: State, a: Action)
    requires Reaches(c, toSend, store, acts, s) && Enabled(c, s, a)
    ensures Reaches(c, toSend, store, acts + [a], Apply(c, s, a))
  {
    assert (acts + [a])[..|acts|] == acts;
  }

  lemma ReachesAfter(c: Config, toSend: seq<Event>, store: set<Digest>, acts: seq<Action>, s: State,
                     a: Action, b: Action)
    requires Reaches(c, toSend, store, acts, s) && Enabled(c, s, a) && Enabled(c, Apply(c, s, a), b)
    ensures Reaches(c, toSend, store, acts + [a] + [b], Apply(c, Apply(c, s, a), b))
  {
    ReachesNext(c, toSend, store, acts, s, a);
    ReachesNext(c, toSend, store, acts + [a], Apply(c, s, a), b);
  }

  const ONE_LAYER := [ChainInfo(Plain("d"), Plain("d"), None)]
  const TWO_WORKERS := Config(ONE_LAYER, 2)
  const MISSING := Event(None, [])
  const BEYOND := Event(Some(5), [])
  const NO_ANSWERS := Answers(false, Ok, None, None)
  const FIRST := WorkerResult(-1, MISSING, Some(InvalidSequence), false)
  const SECOND := WorkerResult(-1, BEYOND, Some(OutOfRange(5)), false)

  const JOB := [MISSING, BEYOND]

  /** The states of the run that matter, by their workers. */
  function Shown(workers: seq<Worker>, firstErr: Option<Failure>): State {
    Init(TWO_WORKERS, [], {}).(workers := workers, firstErr := firstErr)
  }

  lemma BothReceive() returns (acts: seq<Action>)
    ensures Reaches(TWO_WORKERS, JOB, {}, acts, Shown([Received(MISSING), Received(BEYOND)], None))
  {
    var c := TWO_WORKERS;
    var s := Init(c, JOB, {});
    assert s.workers == [Waiting, Waiting] && JOB[1..] == [BEYOND] && JOB[1..][1..] == [];
    assert [] + [JOB[0]] + [BEYOND] == JOB;
    ReachesAfter(c, JOB, {}, [], s, Outer(Send), Outer(Send));
    acts, s := [] + [Outer(Send)] + [Outer(Send)], s.(toSend := [], events := JOB);
    assert Reaches(c, JOB, {}, acts, s);
    ReachesAfter(c, JOB, {}, acts, s, Work(0, Receive), Work(1, Receive));
    assert s.workers[0 := Received(MISSING)][1 := Received(BEYOND)] == [Received(MISSING), Received(BEYOND)];
    acts := acts + [Work(0, Receive)] + [Work(1, Receive)];
  }

  lemma BothProcess() returns (acts: seq<Action>)
    ensures Reaches(TWO_WORKERS, JOB, {}, acts, Shown([Processing(MISSING), Processing(BEYOND)], None))
  {
    acts := BothReceive();
    var s := Shown([Received(MISSING), Received(BEYOND)], None);
    ReachesAfter(TWO_WORKERS, JOB, {}, acts, s, Work(0, CheckContext), Work(1, CheckContext));
    assert s.workers[0 := Processing(MISSING)][1 := Processing(BEYOND)] == [Processing(MISSING), Processing(BEYOND)];
    acts := acts + [Work(0, CheckContext)] + [Work(1, CheckContext)];
  }

  lemma BothFail() returns (acts: seq<Action>)
    ensures Reaches(TWO_WORKERS, JOB, {}, acts, Shown([Storing(FIRST), Storing(SECOND)], None))
  {
    acts := BothProcess();
    var s := Shown([Processing(MISSING), Processing(BEYOND)], None);
    var p := Process(NO_ANSWERS);
    assert ProcessEvent(ONE_LAYER, MISSING, NO_ANSWERS) == FIRST;
    assert ProcessEvent(ONE_LAYER, BEYOND, NO_ANSWERS) == SECOND;
    ReachesAfter(TWO_WORKERS, JOB, {}, acts, s, Work(0, p), Work(1, p));
    assert s.workers[0 := Storing(FIRST)][1 := Storing(SECOND)] == [Storing(FIRST), Storing(SECOND)];
    acts := acts + [Work(0, p)] + [Work(1, p)];
  }

  lemma FirstIsStored() returns (acts: seq<Action>)
    ensures Reaches(TWO_WORKERS, JOB, {}, acts, Shown([Cancelling(FIRST), Cancelling(SECOND)], Some(InvalidSequence)))
  {
    acts := BothFail();
    var s := Shown([Storing(FIRST), Storing(SECOND)], None);
    ReachesAfter(TWO_WORKERS, JOB, {}, acts, s, Work(0, StoreError), Work(1, StoreError));
    assert s.workers[0 := Cancelling(FIRST)][1 := Cancelling(SECOND)] == [Cancelling(FIRST), Cancelling(SECOND)];
    acts := acts + [Work(0, StoreError)] + [Work(1, StoreError)];
  }

  lemma SecondIsForwarded() returns (acts: seq<Action>)
    ensures Reaches(TWO_WORKERS, JOB, {}, acts,
              Shown([Cancelling(FIRST), Waiting], Some(InvalidSequence)).(cancelled := true, results := [SECOND]))
  {
    acts := FirstIsStored();
    var s := Shown([Cancelling(FIRST), Cancelling(SECOND)], Some(InvalidSequence));
    ReachesAfter(TWO_WORKERS, JOB, {}, acts, s, Work(1, CancelPipeline), Work(1, Forward));
    assert s.workers[1 := Forwarding(SECOND)][1 := Waiting] == [Cancelling(FIRST), Waiting];
    assert [] + [SECOND] == [SECOND];
    acts := acts + [Work(1, CancelPipeline)] + [Work(1, Forward)];
  }

  /** The documented promise fails: the first error stored is the one of worker 0,
      the error delivered is the one of worker 1. */
  lemma SecondErrorCanBeDelivered() returns (acts: seq<Action>, s: State)
    ensures Reaches(TWO_WORKERS, JOB, {}, acts, s)
    ensures s.firstErr == Some(InvalidSequence) && s.errCh == [Failed(OutOfRange(5))]
  {
    acts := SecondIsForwarded();
    s := Shown([Cancelling(FIRST), Waiting], Some(InvalidSequence)).(cancelled := true, results := [SECOND]);
    assert [SECOND][1..] == [];
    ReachesNext(TWO_WORKERS, JOB, {}, acts, s, Commit(TakeResult));
    acts, s := acts + [Commit(TakeResult)], s.(results := [], committer := StoringFailure(OutOfRange(5)));
    DeliversFirstErrorIff(TWO_WORKERS, JOB, {}, acts, s);
    acts := acts + [Commit(StoreFailure)] + [Commit(CancelAll)] + [Commit(Deliver)];
    s :| Reaches(TWO_WORKERS, JOB, {}, acts, s) &&
         s.errCh == [Failed(OutOfRange(5))] && s.firstErr == Some(InvalidSequence);
  }

  /** It fails on the other path as well: worker 0 has failed but not yet stored its
      error when the committer sees the parent's cancellation. */
  lemma ContextErrorCanBeDelivered() returns (acts: seq<Action>, s: State)
    ensures Reaches(TWO_WORKERS, JOB, {}, acts, s)
    ensures s.firstErr == Some(InvalidSequence) && s.errCh == [Failed(ContextEnded)]
  {
    acts := BothFail();
    s := Shown([Storing(FIRST), Storing(SECOND)], None);
    ReachesAfter(TWO_WORKERS, JOB, {}, acts, s, Outer(CancelParent), Commit(SeeCancelled));
    acts := acts + [Outer(CancelParent)] + [Commit(SeeCancelled)];
    s := s.(cancelled := true, committer := Delivering(Failed(ContextEnded), false));
    ReachesAfter(TWO_WORKERS, JOB, {}, acts, s, Commit(Deliver), Work(0, StoreError));
    acts := acts + [Commit(Deliver)] + [Work(0, StoreError)];
    assert [] + [Failed(ContextEnded)] == [Failed(ContextEnded)];
    s := s.(errCh := [Failed(ContextEnded)], committer := Returning, firstErr := Some(InvalidSequence),
            workers := s.workers[0 := Cancelling(FIRST)]);
  }

  /** One step of it: a failure the committer handles itself, f, is what the channel
      can carry next, and it is the first error stored if and only if no error was
      stored before it or the one stored is f. */
  lemma DeliversFirstErrorIff(c: Config, toSend: seq<Event>, store: set<Digest>, acts: seq<Action>, s: State)
    requires c.Valid() && Reaches(c, toSend, store, acts, s) && s.committer.StoringFailure?
    ensures exists t ::
              && Reaches(c, toSend, store, acts + [Commit(StoreFailure)] + [Commit(CancelAll)] + [Commit(Deliver)], t)
                        && t.errCh == [Failed(s.committer.failure)]
                        && t.firstErr == SetFirst(s.firstErr, s.committer.failure)
                        && (t.firstErr == Some(s.committer.failure) <==>
                            s.firstErr.None? || s.firstErr.value == s.committer.failure)
  {
    RunKeepsInv(c, toSend, store, acts);
    var f := s.committer.failure;
    ReachesAfter(c, toSend, store, acts, s, Commit(StoreFailure), Commit(CancelAll));
    var t := s.(firstErr := SetFirst(s.firstErr, f), cancelled := true, committer := Delivering(Failed(f), true));
    ReachesNext(c, toSend, store, acts + [Commit(StoreFailure)] + [Commit(CancelAll)], t, Commit(Deliver));
    assert Apply(c, t, Commit(Deliver)) == t.(errCh := [Failed(f)], committer := Returning);
  }
}
