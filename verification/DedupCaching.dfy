/** What the shared cache saves: as long as nothing is evicted, a file that was resolved
    once is answered from the cache from then on. */
module DedupCaching {
  import opened Wrappers
  import opened StackKey
  import opened Dedup
  import opened DedupRuns
  import T = PathText

  predicate NoEvictions(moves: seq<Move>) {
    forall k :: 0 <= k < |moves| ==> moves[k].Step?
  }

  /** Where the entries are that the caller has stored or found. */
  predicate Kept(r: Request, k: Caller, cache: Cache) {
    match k
    case Reusing(o, _) => CacheKey(o, r.path) in cache
    case StoringTop(o, _) => CacheKey(o, r.path) in cache
    case Returning(Hashed(_)) => r.TopKey() in cache
    case Completed(Hashed(_)) => r.TopKey() in cache
    case Done(Hashed(_)) => r.TopKey() in cache
    case _ => true
  }

  predicate AllKept(reqs: seq<Request>, s: State)
    requires |s.callers| == |reqs|
  {
    forall i :: 0 <= i < |reqs| ==> Kept(reqs[i], s.callers[i], s.cache)
  }

  /** Disciplined requests that share a call ask for one entry. */
  lemma SharedCallSharesEntry(reqs: seq<Request>, i: nat, j: nat)
    requires Disciplined(reqs) && i < |reqs| && j < |reqs| && SameKey(reqs[i], reqs[j])
    ensures reqs[i].TopKey() == reqs[j].TopKey()
  {
    var r, q := reqs[i], reqs[j];
    KeyInjective(r.stack, T.Render(r.path), q.stack, T.Render(q.path));
    T.IsPathUnderIsAncestry(r.path, q.path);
  }

  lemma StepGrowsCache(w: World, reqs: seq<Request>, s: State, i: nat)
    requires |s.callers| == |reqs| && Enabled(reqs, s, Step(i))
    ensures s.cache.Keys <= Apply(w, reqs, s, Step(i)).cache.Keys
  {
  }

  lemma StepKeeps(w: World, reqs: seq<Request>, s: State, i: nat)
    requires Disciplined(reqs) && |s.callers| == |reqs| && Flights(reqs, s) && AllKept(reqs, s)
    requires Enabled(reqs, s, Step(i))
    ensures Kept(reqs[i], Next(w, reqs, s, i), Apply(w, reqs, s, Step(i)).cache)
  {
    assert Kept(reqs[i], s.callers[i], s.cache) && WaiterOk(reqs, s, i);
    if s.callers[i].Waiting? {
      var j := s.callers[i].leader;
      assert Kept(reqs[j], s.callers[j], s.cache);
      SharedCallSharesEntry(reqs, j, i);
    }
  }

  lemma {:induction false} RunKeeps(w: World, reqs: seq<Request>, moves: seq<Move>)
    requires Disciplined(reqs) && NoEvictions(moves) && Exec(w, reqs, moves).Some?
    ensures AllKept(reqs, Exec(w, reqs, moves).value)
  {
    if moves != [] {
      var n := |moves| - 1;
      var s := Exec(w, reqs, moves[..n]).value;
      RunKeeps(w, reqs, moves[..n]);
      RunKeepsFlights(w, reqs, moves[..n]);
      var i := moves[n].caller;
      StepKeeps(w, reqs, s, i);
      StepGrowsCache(w, reqs, s, i);
      forall j | 0 <= j < |reqs| ensures Kept(reqs[j], Exec(w, reqs, moves).value.callers[j],
                                             Exec(w, reqs, moves).value.cache) {
        assert Kept(reqs[j], s.callers[j], s.cache);
      }
    }
  }

  /** Once a caller has been answered with a hash, every caller that starts with the same
      top layer and path gets that hash in its first step, without looking for the owner
      or hashing again. */
  lemma ResolvedIsCached(w: World, reqs: seq<Request>, moves: seq<Move>, s: State, i: nat, j: nat, h: Hash)
    requires Disciplined(reqs) && NoEvictions(moves) && Exec(w, reqs, moves) == Some(s)
    requires i < |reqs| && j < |reqs| && s.callers[i] == Done(Hashed(h)) && s.callers[j].Start?
    requires reqs[j].stack != [] && reqs[j].TopKey() == reqs[i].TopKey()
    ensures Next(w, reqs, s, j) == Done(Hashed(h))
  {
    DisciplineSuffices(w, reqs);
    RunKeeps(w, reqs, moves);
    RunKeepsInv(w, reqs, moves);
    var k := reqs[i].TopKey();
    assert Kept(reqs[i], s.callers[i], s.cache) && CallerOk(w, reqs[i], s.callers[i]);
    assert GoodEntry(w, reqs, k, s.cache[k]);
    assert reqs[i].stack != [];
  }
}
