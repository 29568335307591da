/** The body of the committer's loop, on its own heap and snapshotter, as a run of
    the step relation: nothing but committer moves, in the order in which the
    loop makes them. */
module Committer {
  import opened Wrappers
  import opened ChainTable
  import opened Pipeline
  import opened ResultHeap

  /** A snapshotter that answers Commit. What it has not committed yet it may
      refuse, as decided by answers; a name it has is reported as existing. */
  class Snapshotter {
    const answers: CommitCall -> CommitReply
    var store: set<Digest>
    var calls: seq<CommitCall>

    constructor (answers: CommitCall -> CommitReply, store: set<Digest>)
      ensures this.answers == answers && this.store == store && calls == []
    {
      this.answers := answers;
      this.store := store;
      calls := [];
    }

    method Commit(call: CommitCall) returns (reply: CommitReply)
      modifies this
      ensures calls == old(calls) + [call]
      ensures reply.Existed? <==> call.name in old(store)
      ensures store == if reply.Committed? then old(store) + {call.name} else old(store)
    {
      calls := calls + [call];
      if call.name in store {
        reply := Existed;
      } else {
        reply := answers(call);
        if reply.Existed? { reply := Committed; }
        if reply.Committed? { store := store + {call.name}; }
      }
    }
  }

  /** acts are committer moves that lead from s to t. */
  ghost predicate Leads(c: Config, s: State, acts: seq<Action>, t: State) {
    Exec(c, s, acts) == Some(t) && forall a :: a in acts ==> a.Commit?
  }

  lemma LeadsThen(c: Config, s: State, acts: seq<Action>, t: State, m: CommitterMove)
    requires Leads(c, s, acts, t) && CommitterEnabled(c, t, m)
    ensures Leads(c, s, acts + [Commit(m)], CommitterStep(c, t, m))
  {
    assert (acts + [Commit(m)])[..|acts|] == acts;
    assert Apply(c, t, Commit(m)) == CommitterStep(c, t, m);
  }

  lemma LeadsPop(c: Config, s: State, acts: seq<Action>, t: State, r: WorkerResult)
    requires Leads(c, s, acts, t) && t.committer.Draining? && t.next < c.Total() && Ready(t.heap, t.next, r)
    ensures Leads(c, s, acts + [Commit(Pop(r))], OnReady(c, t, r))
  {
    LeadsThen(c, s, acts, t, Pop(r));
  }

  lemma LeadsReply(c: Config, s: State, acts: seq<Action>, t: State, reply: CommitReply)
    requires Leads(c, s, acts, t) && t.committer.Committing? && t.next < c.Total()
    requires reply.Existed? ==> c.Name(t.next) in t.store
    ensures Leads(c, s, acts + [Commit(CommitReturns(reply))], OnReply(c, t, reply))
  {
    LeadsThen(c, s, acts, t, CommitReturns(reply));
  }

  lemma LeadsTake(c: Config, s: State)
    requires s.committer.Selecting? && s.results != []
    ensures Leads(c, s, [Commit(TakeResult)], Pipeline.OnResult(s))
  {
    assert Leads(c, s, [], s);
    LeadsThen(c, s, [], s, TakeResult);
    assert [] + [Commit(TakeResult)] == [Commit(TakeResult)];
  }

  lemma LeadsStop(c: Config, s: State, acts: seq<Action>, t: State)
    requires Leads(c, s, acts, t) && t.committer.Draining? && !exists r :: Ready(t.heap, t.next, r)
    ensures Leads(c, s, acts + [Commit(StopDraining)], t.(committer := Selecting))
  {
    LeadsThen(c, s, acts, t, StopDraining);
  }

  /** One turn of the loop: the pop, and the answer to Commit when it is issued. */
  lemma LeadsTurn(c: Config, s: State, acts: seq<Action>, t: State, ready: WorkerResult, reply: CommitReply)
    returns (acts': seq<Action>, t': State)
    requires Leads(c, s, acts, t) && t.committer.Draining? && t.next < c.Total() && Ready(t.heap, t.next, ready)
    requires !ready.alreadyCommitted && reply.Existed? ==> c.Name(t.next) in t.store
    ensures Leads(c, s, acts', t')
    ensures t' == if ready.alreadyCommitted then OnReady(c, t, ready) else OnReply(c, OnReady(c, t, ready), reply)
    ensures t'.firstErr == t.firstErr
    ensures t'.committer.Draining? || t'.committer.Delivering? || t'.committer.StoringFailure?
    ensures t'.committer.Draining? ==> t'.next < c.Total()
  {
    LeadsPop(c, s, acts, t, ready);
    acts', t' := acts + [Commit(Pop(ready))], OnReady(c, t, ready);
    if !ready.alreadyCommitted {
      LeadsReply(c, s, acts', t', reply);
      acts', t' := acts' + [Commit(CommitReturns(reply))], OnReply(c, t', reply);
    }
  }

  class OrderedCommitter {
    const c: Config
    const heap: Heap
    const sn: Snapshotter
    var next: nat

    constructor (c: Config, sn: Snapshotter)
      ensures this.c == c && this.sn == sn && next == 0 && fresh(heap) && heap.items == []
    {
      this.c := c;
      this.sn := sn;
      heap := new Heap();
      next := 0;
    }

    /** The fields are those of state s of the step relation. */
    ghost predicate Shows(s: State)
      reads this, heap, sn
    {
      multiset(heap.items) == s.heap && next == s.next && sn.store == s.store && sn.calls == s.calls
    }

    /** Commit for the layer at next, whose result is ready. */
    method CommitReady(ready: WorkerResult, firstErr: Option<Failure>, ghost t: State)
      returns (outcome: Pipeline.Committer, ghost reply: CommitReply)
      requires next < c.Total() && next == t.next && multiset(heap.items) == t.heap && sn.store == t.store
      requires sn.calls + [c.Call(next, ready.event.commitOptions)] == t.calls && t.firstErr == firstErr
      modifies this, sn
      ensures reply.Existed? ==> c.Name(t.next) in t.store
      ensures Shows(OnReply(c, t, reply)) && OnReply(c, t, reply).committer == outcome
    {
      var said := sn.Commit(c.Call(next, ready.event.commitOptions));
      reply := said;
      match said {
        case Cancelled =>
          outcome := if firstErr.Some? then Delivering(Failed(firstErr.value), true)
                     else StoringFailure(CommitCancelled(next));
        case Refused(code) =>
          outcome := StoringFailure(CommitFailed(next, code));
        case _ =>
          next := next + 1;
          outcome := if next == c.Total() then Delivering(Success, true) else Draining;
      }
    }

    /** The loop body for the least result, which is the next layer. */
    method CommitNext(firstErr: Option<Failure>, ghost t: State)
      returns (outcome: Pipeline.Committer, ghost ready: WorkerResult, ghost reply: CommitReply)
      requires Ordered(heap.items) && heap.items != [] && heap.items[0].index == next && next < c.Total()
      requires Shows(t) && t.firstErr == firstErr
      modifies this, heap, sn
      ensures Ordered(heap.items) && |heap.items| < |old(heap.items)|
      ensures Ready(t.heap, t.next, ready) && t.next < c.Total()
      ensures var popped := OnReady(c, t, ready);
              && (ready.alreadyCommitted ==> Shows(popped) && popped.committer == outcome)
              && (!ready.alreadyCommitted ==>
                    && (reply.Existed? ==> c.Name(t.next) in t.store)
                    && Shows(OnReply(c, popped, reply)) && OnReply(c, popped, reply).committer == outcome)
    {
      var least := heap.Pop();
      ready, reply := least, Existed;
      assert |old(heap.items)| == |multiset(old(heap.items))| && |heap.items| == |multiset(heap.items)|;
      if least.alreadyCommitted {
        next := next + 1;
        outcome := if next == c.Total() then Delivering(Success, true) else Draining;
      } else {
        outcome, reply := CommitReady(least, firstErr, OnReady(c, t, least));
      }
    }

    /** One result received from the channel: push it, then commit every layer
        that is ready. firstErr is the error stored so far. The outcome is where
        the committer goes next: back to its select, to the delivery of a
        verdict, or to the handling of a failure. */
    method OnResult(res: WorkerResult, firstErr: Option<Failure>, ghost s: State)
      returns (outcome: Pipeline.Committer, ghost acts: seq<Action>, ghost t: State)
      requires Ordered(heap.items) && Shows(s) && next < c.Total()
      requires s.committer.Selecting? && s.results != [] && s.results[0] == res && s.firstErr == firstErr
      modifies this, heap, sn
      ensures Leads(c, s, acts, t) && Shows(t) && t.committer == outcome
      ensures outcome.Selecting? || outcome.Delivering? || outcome.StoringFailure?
      ensures outcome.Selecting? ==> Ordered(heap.items) && next < c.Total()
    {
      LeadsTake(c, s);
      acts, t := [Commit(TakeResult)], Pipeline.OnResult(s);
      if res.err.Some? {
        outcome := StoringFailure(res.err.value);
        return;
      }
      heap.Push(res);
      outcome := Draining;
      while |heap.items| > 0 && heap.items[0].index == next
        invariant Leads(c, s, acts, t) && Shows(t) && t.committer.Draining? && t.firstErr == firstErr
        invariant Ordered(heap.items) && next < c.Total()
        decreases |heap.items|
      {
        RootIsMinOfAll(heap.items);
        ghost var ready, reply;
        outcome, ready, reply := CommitNext(firstErr, t);
        acts, t := LeadsTurn(c, s, acts, t, ready, reply);
        if !outcome.Draining? {
          return;
        }
      }
      if heap.items != [] {
        RootIsMinOfAll(heap.items);
      }
      LeadsStop(c, s, acts, t);
      acts, t := acts + [Commit(StopDraining)], t.(committer := Selecting);
      outcome := Selecting;
    }
  }
}
