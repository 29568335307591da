/** What the Commit calls of a run are, told by the diff IDs of the image and the events
    that were submitted. */
module PipelineCalls {
  import opened Wrappers
  import opened ChainTable
  import opened Pipeline
  import opened PipelineSafety
  import opened PipelineRefinement

  /** The work at hand and every call made so far come from submitted events. */
  ghost predicate Submitted(all: seq<Event>, s: State) {
    && (forall e :: e in s.toSend ==> e in all)
    && (forall e :: e in s.events ==> e in all)
    && (forall k :: k in s.workers && HeldBy(k).Some? ==> HeldBy(k).value in all)
    && (forall r :: r in s.results ==> r.event in all)
    && (forall r :: r in s.heap ==> r.event in all)
    && (forall call :: call in s.calls ==> Ordered(all, call))
  }

  /** Some submitted event is labelled with the call's layer and carries its options. */
  ghost predicate Ordered(all: seq<Event>, call: CommitCall) {
    exists e :: e in all && e.index == Some(call.layer as int) && e.commitOptions == call.options
  }

  lemma WorkerSubmitted(c: Config, all: seq<Event>, s: State, w: nat, m: WorkerMove)
    requires Submitted(all, s) && WorkerEnabled(c, s, w, m)
    ensures Submitted(all, WorkerStep(c, s, w, m))
  {
    var t := WorkerStep(c, s, w, m);
    assert s.workers[w] in s.workers;
    assert HeldBy(t.workers[w]).Some? ==> HeldBy(t.workers[w]).value in all;
    forall k | k in t.workers && HeldBy(k).Some? ensures HeldBy(k).value in all {
      assert k == t.workers[w] || k in s.workers;
    }
  }

  lemma ResultSubmitted(all: seq<Event>, s: State)
    requires Submitted(all, s) && s.results != []
    ensures Submitted(all, OnResult(s))
  {
    assert s.results[0] in s.results;
  }

  lemma ReadySubmitted(c: Config, all: seq<Event>, s: State, r: WorkerResult)
    requires Submitted(all, s) && s.next < c.Total() && r in s.heap && r.event.index == Some(s.next as int)
    ensures Submitted(all, OnReady(c, s, r))
  {
    var t := OnReady(c, s, r);
    assert forall q :: q in t.heap ==> q in s.heap;
    if !r.alreadyCommitted {
      assert Ordered(all, c.Call(s.next, r.event.commitOptions));
    }
  }

  lemma ReplySubmitted(c: Config, all: seq<Event>, s: State, reply: CommitReply)
    requires Submitted(all, s) && s.next < c.Total()
    ensures Submitted(all, OnReply(c, s, reply))
  {
  }

  lemma CommitterSubmitted(c: Config, all: seq<Event>, s: State, m: CommitterMove)
    requires HeapOk(c, s) && Submitted(all, s) && CommitterEnabled(c, s, m)
    ensures Submitted(all, CommitterStep(c, s, m))
  {
    match m {
      case TakeResult => ResultSubmitted(all, s);
      case Pop(r) => ReadySubmitted(c, all, s, r);
      case CommitReturns(reply) => ReplySubmitted(c, all, s, reply);
      case _ =>
    }
  }

  lemma OuterSubmitted(c: Config, all: seq<Event>, s: State, m: OuterMove)
    requires Submitted(all, s) && OuterEnabled(c, s, m)
    ensures Submitted(all, OuterStep(c, s, m))
  {
  }

  lemma StepSubmitted(c: Config, all: seq<Event>, s: State, a: Action)
    requires HeapOk(c, s) && Submitted(all, s) && Enabled(c, s, a)
    ensures Submitted(all, Apply(c, s, a))
  {
    match a {
      case Outer(m) => OuterSubmitted(c, all, s, m);
      case Work(w, m) => WorkerSubmitted(c, all, s, w, m);
      case Commit(m) => CommitterSubmitted(c, all, s, m);
    }
  }

  lemma {:induction false} RunSubmitted(c: Config, all: seq<Event>, store: set<Digest>, acts: seq<Action>)
    requires c.Valid() && Exec(c, Init(c, all, store), acts).Some?
    ensures Submitted(all, Exec(c, Init(c, all, store), acts).value)
  {
    if acts == [] {
      assert Submitted(all, Init(c, all, store));
    } else {
      var n := |acts| - 1;
      RunSubmitted(c, all, store, acts[..n]);
      RunKeepsInv(c, all, store, acts[..n]);
      StepSubmitted(c, all, Exec(c, Init(c, all, store), acts[..n]).value, acts[n]);
    }
  }

  /** The call for layer i: the active snapshot prepared under the layer's diff ID is
      committed under the chain ID of the layers up to i, on top of the one before. */
  predicate CommitsLayer(diffs: seq<Digest>, call: CommitCall, i: nat)
    requires i < |diffs|
  {
    && call.layer == i
    && call.key == diffs[i]
    && call.name == ChainID(diffs[..i + 1])
    && call.parent == if i == 0 then None else Some(ChainID(diffs[..i]))
  }

  /** In every reachable state every call issued so far is that of its layer, with the
      options of a submitted event that is labelled with it. */
  lemma EveryCallIsItsLayers(c: Config, diffs: seq<Digest>, toSend: seq<Event>, store: set<Digest>,
                             acts: seq<Action>, s: State, k: nat)
    requires c.Valid() && c.chains == Table(diffs) && Reaches(c, toSend, store, acts, s) && k < |s.calls|
    ensures s.calls[k].layer < |diffs| && CommitsLayer(diffs, s.calls[k], s.calls[k].layer)
    ensures Ordered(toSend, s.calls[k])
  {
    RunKeepsInv(c, toSend, store, acts);
    RunSubmitted(c, toSend, store, acts);
    assert s.calls[k] in s.calls;
    assert c.chains[s.calls[k].layer] == Info(diffs, s.calls[k].layer);
  }

  predicate Stored(diffs: seq<Digest>, store: set<Digest>, i: nat)
    requires i < |diffs|
  {
    ChainID(diffs[..i + 1]) in store
  }

  /** The layers of the plan that the snapshotter did not have, in order. */
  function Missing(diffs: seq<Digest>, store: set<Digest>, k: nat): seq<nat>
    requires k <= |diffs|
  {
    if k == 0 then []
    else Missing(diffs, store, k - 1) + if Stored(diffs, store, k - 1) then [] else [k - 1]
  }

  /** The calls are exactly those of the missing layers, in order. */
  predicate CommitsInOrder(j: Job, diffs: seq<Digest>, calls: seq<CommitCall>, layers: seq<nat>)
    requires j.Valid() && |diffs| == |j.plan|
  {
    && |calls| == |layers|
    && forall k :: 0 <= k < |calls| ==>
         && layers[k] < |diffs|
         && CommitsLayer(diffs, calls[k], layers[k])
         && calls[k].options == j.plan[layers[k]].commitOptions
  }

  lemma {:induction false} SequenceIsOfMissing(j: Job, diffs: seq<Digest>, k: nat)
    requires j.Valid() && j.c.chains == Table(diffs) && k <= |diffs|
    ensures CommitsInOrder(j, diffs, SequentialCalls(j, k), Missing(diffs, j.store, k))
  {
    if k > 0 {
      SequenceIsOfMissing(j, diffs, k - 1);
      assert j.c.chains[k - 1] == Info(diffs, k - 1);
    }
  }

  /** A complete run without failures commits, one after the other, exactly the layers
      that the snapshotter did not have, each with the options of its own event. */
  lemma CleanRunsCommitMissing(j: Job, diffs: seq<Digest>, toSend: seq<Event>, acts: seq<Action>, s: State)
    requires j.Valid() && j.c.chains == Table(diffs) && multiset(toSend) == multiset(j.plan)
    requires Reaches(j.c, toSend, j.store, acts, s) && CleanRun(j.c, Init(j.c, toSend, j.store), acts) && Stuck(j.c, s)
    ensures CommitsInOrder(j, diffs, s.calls, Missing(diffs, j.store, |diffs|))
    ensures s.errCh == [Success]
    ensures forall i :: 0 <= i < |diffs| ==> Stored(diffs, s.store, i)
  {
    TableIsLinked(diffs);
    CleanRunsCommitSequentially(j, toSend, acts, s);
    SequenceIsOfMissing(j, diffs, |diffs|);
    forall i | 0 <= i < |diffs| ensures Stored(diffs, s.store, i) {
      assert j.c.chains[i] == Info(diffs, i) && j.c.Name(i) in s.store;
    }
  }
}
