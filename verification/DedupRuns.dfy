/** Concurrent resolution: any number of callers, coalesced per key, around a shared
    cache that may lose entries at any moment. */
module DedupRuns {
  import opened Wrappers
  import opened FileTree
  import opened OwnerLookup
  import W = Whiteout
  import opened Dedup

  /** Where a caller is. Finding to Completed is the caller that runs the shared call;
      Waiting is one that joined the call of another. */
  datatype Caller =
    | Start
    | Missed
    | Waiting(leader: nat)
    | Finding
    | Found(owner: Layer)
    | Reusing(owner: Layer, hash: Hash)
    | Hashing(owner: Layer)
    | StoringOwner(owner: Layer, hash: Hash)
    | StoringTop(owner: Layer, hash: Hash)
    | Returning(outcome: Outcome)
    | Completed(outcome: Outcome)
    | Done(outcome: Outcome)

  datatype State = State(callers: seq<Caller>, cache: Cache, inflight: map<string, nat>)

  /** A caller moves, or the cache loses entries. */
  datatype Move = Step(caller: nat) | Forget(keys: set<CacheKey>)

  predicate Leading(k: Caller) {
    !k.Start? && !k.Missed? && !k.Waiting? && !k.Done?
  }

  predicate Answered(k: Caller) { k.Completed? || k.Done? }

  function Init(reqs: seq<Request>): State {
    State(seq(|reqs|, _ => Start), map[], map[])
  }

  predicate Enabled(reqs: seq<Request>, s: State, m: Move)
    requires |s.callers| == |reqs|
  {
    match m
    case Forget(_) => true
    case Step(i) =>
      && i < |s.callers|
      && !s.callers[i].Done?
      && (s.callers[i].Waiting? ==> s.callers[i].leader < |s.callers| && Answered(s.callers[s.callers[i].leader]))
  }

  /** Where the caller goes. */
  function Next(w: World, reqs: seq<Request>, s: State, i: nat): Caller
    requires |s.callers| == |reqs| && Enabled(reqs, s, Step(i))
  {
    var r := reqs[i];
    match s.callers[i]
    case Start =>
      if r.stack == [] then Done(InvalidStack)
      else if r.TopKey() in s.cache then Done(Hashed(s.cache[r.TopKey()]))
      else Missed
    case Missed => if r.Key() in s.inflight then Waiting(s.inflight[r.Key()]) else Finding
    case Waiting(j) => Done(s.callers[j].outcome)
    case Finding =>
      (match Owner(w.registry, r.stack, r.path)
       case OwnedBy(o) => Found(o)
       case WhitedOut => Returning(Deleted)
       case NotFound => Returning(NoOwner))
    case Found(o) => if CacheKey(o, r.path) in s.cache then Reusing(o, s.cache[CacheKey(o, r.path)]) else Hashing(o)
    case Reusing(_, h) => Returning(Hashed(h))
    case Hashing(o) =>
      if CacheKey(o, r.path) in w.hashes then StoringOwner(o, w.hashes[CacheKey(o, r.path)]) else Returning(Unreadable)
    case StoringOwner(o, h) => StoringTop(o, h)
    case StoringTop(_, h) => Returning(Hashed(h))
    case Returning(o) => Completed(o)
    case Completed(o) => Done(o)
  }

  /** What the caller stores: the owner's entry, then the requesting layer's unless it
      is the owner. */
  function CacheAfter(r: Request, k: Caller, cache: Cache): Cache {
    match k
    case Reusing(o, h) => if r.Top() != o then cache[r.TopKey() := h] else cache
    case StoringOwner(o, h) => cache[CacheKey(o, r.path) := h]
    case StoringTop(o, h) => if r.Top() != o then cache[r.TopKey() := h] else cache
    case _ => cache
  }

  /** The table of shared calls: entered by the caller that finds none, left once its
      outcome has been published. */
  function InflightAfter(r: Request, i: nat, k: Caller, inflight: map<string, nat>): map<string, nat> {
    match k
    case Missed => if r.Key() in inflight then inflight else inflight[r.Key() := i]
    case Completed(_) => inflight - {r.Key()}
    case _ => inflight
  }

  function Apply(w: World, reqs: seq<Request>, s: State, m: Move): (t: State)
    requires |s.callers| == |reqs| && Enabled(reqs, s, m)
    ensures |t.callers| == |reqs|
  {
    match m
    case Forget(keys) => s.(cache := s.cache - keys)
    case Step(i) =>
      var k := s.callers[i];
      State(s.callers[i := Next(w, reqs, s, i)],
            CacheAfter(reqs[i], k, s.cache),
            InflightAfter(reqs[i], i, k, s.inflight))
  }

  /** The state after the moves, if each was possible in turn. */
  function Exec(w: World, reqs: seq<Request>, moves: seq<Move>): (r: Option<State>)
    ensures r.Some? ==> |r.value.callers| == |reqs|
  {
    if moves == [] then Some(Init(reqs))
    else
      var before := Exec(w, reqs, moves[..|moves| - 1]);
      var m := moves[|moves| - 1];
      if before.Some? && Enabled(reqs, before.value, m) then Some(Apply(w, reqs, before.value, m)) else None
  }

  /* ---- the invariant ---- */

  /** What a caller holds is right for its request. */
  predicate CallerOk(w: World, r: Request, k: Caller) {
    match k
    case Start => true
    case Missed => r.stack != []
    case Waiting(_) => r.stack != []
    case Finding => r.stack != []
    case Found(o) => r.stack != [] && Owner(w.registry, r.stack, r.path) == OwnedBy(o)
    case Hashing(o) => r.stack != [] && Owner(w.registry, r.stack, r.path) == OwnedBy(o)
    case Reusing(o, h) => OwnedWith(w, r, o, h)
    case StoringOwner(o, h) => OwnedWith(w, r, o, h)
    case StoringTop(o, h) => OwnedWith(w, r, o, h)
    case Returning(o) => r.stack != [] && o == Answer(w, r)
    case Completed(o) => r.stack != [] && o == Answer(w, r)
    case Done(o) => o == Answer(w, r)
  }

  /** A waiting caller has joined a call of its own key that runs or has ended. */
  predicate WaiterOk(reqs: seq<Request>, s: State, i: nat)
    requires |s.callers| == |reqs| && i < |reqs|
  {
    s.callers[i].Waiting? ==>
      var j := s.callers[i].leader;
      j < |reqs| && SameKey(reqs[j], reqs[i]) && (Leading(s.callers[j]) || s.callers[j].Done?)
  }

  /** The table holds the running calls. */
  predicate FlightOk(reqs: seq<Request>, s: State, key: string)
    requires |s.callers| == |reqs| && key in s.inflight
  {
    var j := s.inflight[key];
    j < |reqs| && reqs[j].stack != [] && reqs[j].Key() == key && Leading(s.callers[j])
  }

  predicate LeaderOk(reqs: seq<Request>, s: State, i: nat)
    requires |s.callers| == |reqs| && i < |reqs|
  {
    Leading(s.callers[i]) ==> reqs[i].Key() in s.inflight && s.inflight[reqs[i].Key()] == i
  }

  /** Nobody gets past the start without a stack. */
  predicate Begun(reqs: seq<Request>, s: State)
    requires |s.callers| == |reqs|
  {
    forall i :: 0 <= i < |reqs| && !s.callers[i].Start? && !s.callers[i].Done? ==> reqs[i].stack != []
  }

  predicate Flights(reqs: seq<Request>, s: State)
    requires |s.callers| == |reqs|
  {
    && Begun(reqs, s)
    && (forall key :: key in s.inflight ==> FlightOk(reqs, s, key))
    && (forall i :: 0 <= i < |reqs| ==> LeaderOk(reqs, s, i))
    && (forall i :: 0 <= i < |reqs| ==> WaiterOk(reqs, s, i))
  }

  predicate CallersOk(w: World, reqs: seq<Request>, s: State)
    requires |s.callers| == |reqs|
  {
    forall i :: 0 <= i < |reqs| ==> CallerOk(w, reqs[i], s.callers[i])
  }

  ghost predicate Inv(w: World, reqs: seq<Request>, s: State) {
    |s.callers| == |reqs| && CacheOk(w, reqs, s.cache) && CallersOk(w, reqs, s) && Flights(reqs, s)
  }

  lemma StepKeepsCache(w: World, reqs: seq<Request>, s: State, i: nat)
    requires Agree(w, reqs) && Inv(w, reqs, s) && Enabled(reqs, s, Step(i))
    ensures CacheOk(w, reqs, Apply(w, reqs, s, Step(i)).cache)
  {
    assert CallerOk(w, reqs[i], s.callers[i]);
    var k := s.callers[i];
    if k.Reusing? || k.StoringTop? {
      TopEntryGood(w, reqs, i, k.owner, k.hash);
    } else if k.StoringOwner? {
      OwnerEntryGood(w, reqs, reqs[i], k.owner, k.hash);
    }
  }

  lemma StepKeepsCaller(w: World, reqs: seq<Request>, s: State, i: nat)
    requires Agree(w, reqs) && Inv(w, reqs, s) && Enabled(reqs, s, Step(i))
    ensures CallerOk(w, reqs[i], Next(w, reqs, s, i))
  {
    var r := reqs[i];
    assert CallerOk(w, r, s.callers[i]);
    match s.callers[i] {
      case Start =>
        if r.stack != [] && r.TopKey() in s.cache {
          assert GoodEntry(w, reqs, r.TopKey(), s.cache[r.TopKey()]);
        }
      case Waiting(j) =>
        assert WaiterOk(reqs, s, i);
        assert CallerOk(w, reqs[j], s.callers[j]);
        assert Compatible(w, reqs[j], reqs[i]);
      case Found(o) =>
        OwnerHasIt(w, r);
        if CacheKey(o, r.path) in s.cache {
          assert GoodEntry(w, reqs, CacheKey(o, r.path), s.cache[CacheKey(o, r.path)]);
        }
      case _ =>
    }
  }

  lemma StepKeepsFlight(w: World, reqs: seq<Request>, s: State, i: nat, key: string)
    requires |s.callers| == |reqs| && Flights(reqs, s) && Enabled(reqs, s, Step(i))
    requires key in Apply(w, reqs, s, Step(i)).inflight
    ensures FlightOk(reqs, Apply(w, reqs, s, Step(i)), key)
  {
    assert LeaderOk(reqs, s, i);
    if key in s.inflight {
      assert FlightOk(reqs, s, key);
    }
  }

  lemma StepKeepsLeader(w: World, reqs: seq<Request>, s: State, i: nat, j: nat)
    requires |s.callers| == |reqs| && Flights(reqs, s) && Enabled(reqs, s, Step(i)) && j < |reqs|
    ensures LeaderOk(reqs, Apply(w, reqs, s, Step(i)), j)
  {
    assert LeaderOk(reqs, s, i) && LeaderOk(reqs, s, j);
  }

  lemma StepKeepsWaiter(w: World, reqs: seq<Request>, s: State, i: nat, j: nat)
    requires |s.callers| == |reqs| && Flights(reqs, s) && Enabled(reqs, s, Step(i)) && j < |reqs|
    ensures WaiterOk(reqs, Apply(w, reqs, s, Step(i)), j)
  {
    assert WaiterOk(reqs, s, j);
    if j == i && reqs[i].Key() in s.inflight {
      assert FlightOk(reqs, s, reqs[i].Key());
    }
  }

  lemma MoveKeepsFlights(w: World, reqs: seq<Request>, s: State, m: Move)
    requires |s.callers| == |reqs| && Flights(reqs, s) && Enabled(reqs, s, m)
    ensures Flights(reqs, Apply(w, reqs, s, m))
  {
    var t := Apply(w, reqs, s, m);
    if m.Step? {
      forall key | key in t.inflight ensures FlightOk(reqs, t, key) { StepKeepsFlight(w, reqs, s, m.caller, key); }
      forall j | 0 <= j < |reqs| ensures LeaderOk(reqs, t, j) && WaiterOk(reqs, t, j) {
        StepKeepsLeader(w, reqs, s, m.caller, j);
        StepKeepsWaiter(w, reqs, s, m.caller, j);
      }
    } else {
      assert forall key :: key in s.inflight ==> FlightOk(reqs, s, key) && FlightOk(reqs, t, key);
      assert forall i :: 0 <= i < |reqs| ==> LeaderOk(reqs, s, i) && LeaderOk(reqs, t, i);
      assert forall i :: 0 <= i < |reqs| ==> WaiterOk(reqs, s, i) && WaiterOk(reqs, t, i);
    }
  }

  lemma {:induction false} RunKeepsFlights(w: World, reqs: seq<Request>, moves: seq<Move>)
    requires Exec(w, reqs, moves).Some?
    ensures Flights(reqs, Exec(w, reqs, moves).value)
  {
    if moves != [] {
      RunKeepsFlights(w, reqs, moves[..|moves| - 1]);
      MoveKeepsFlights(w, reqs, Exec(w, reqs, moves[..|moves| - 1]).value, moves[|moves| - 1]);
    }
  }

  lemma MoveKeepsInv(w: World, reqs: seq<Request>, s: State, m: Move)
    requires Agree(w, reqs) && Inv(w, reqs, s) && Enabled(reqs, s, m)
    ensures Inv(w, reqs, Apply(w, reqs, s, m))
  {
    var t := Apply(w, reqs, s, m);
    MoveKeepsFlights(w, reqs, s, m);
    if m.Step? {
      StepKeepsCache(w, reqs, s, m.caller);
      forall j | 0 <= j < |reqs| ensures CallerOk(w, reqs[j], t.callers[j]) {
        assert CallerOk(w, reqs[j], s.callers[j]);
        if j == m.caller {
          StepKeepsCaller(w, reqs, s, j);
        }
      }
    }
  }

  lemma {:induction false} RunKeepsInv(w: World, reqs: seq<Request>, moves: seq<Move>)
    requires Agree(w, reqs) && Exec(w, reqs, moves).Some?
    ensures Inv(w, reqs, Exec(w, reqs, moves).value)
  {
    if moves != [] {
      RunKeepsInv(w, reqs, moves[..|moves| - 1]);
      MoveKeepsInv(w, reqs, Exec(w, reqs, moves[..|moves| - 1]).value, moves[|moves| - 1]);
    }
  }

  /* ---- transparency ---- */

  /** Every caller that has an answer has the uncached one. */
  predicate AllRight(w: World, reqs: seq<Request>, s: State)
    requires |s.callers| == |reqs|
  {
    forall i :: 0 <= i < |reqs| && s.callers[i].Done? ==> s.callers[i].outcome == Answer(w, reqs[i])
  }

  /** The cache and the coalescing are transparent: in every interleaving, whatever
      the cache forgets and when, each caller gets the hash of the file in its owner
      layer, or the error the uncached lookup would give. */
  lemma Transparent(w: World, reqs: seq<Request>, moves: seq<Move>)
    requires Agree(w, reqs) && Exec(w, reqs, moves).Some?
    ensures AllRight(w, reqs, Exec(w, reqs, moves).value)
  {
    RunKeepsInv(w, reqs, moves);
    var s := Exec(w, reqs, moves).value;
    forall i | 0 <= i < |reqs| && s.callers[i].Done? ensures s.callers[i].outcome == Answer(w, reqs[i]) {
      assert CallerOk(w, reqs[i], s.callers[i]);
    }
  }

  lemma Push(w: World, reqs: seq<Request>, moves: seq<Move>, s: State, i: nat)
    requires Exec(w, reqs, moves) == Some(s) && |s.callers| == |reqs| && Enabled(reqs, s, Step(i))
    ensures Exec(w, reqs, moves + [Step(i)]) == Some(Apply(w, reqs, s, Step(i)))
  {
    var n := |moves|;
    assert (moves + [Step(i)])[..n] == moves && (moves + [Step(i)])[n] == Step(i);
  }

  /** With nothing cached, the caller that runs the call computes the uncached answer
      and leaves its hash under the requesting layer. */
  lemma LeadAlone(w: World, reqs: seq<Request>, moves: seq<Move>, s: State, i: nat) returns (more: seq<Move>, t: State)
    requires Exec(w, reqs, moves) == Some(s) && |s.callers| == |reqs| && i < |reqs| && reqs[i].stack != []
    requires s.callers[i] == Finding && s.cache == map[]
    ensures Exec(w, reqs, more) == Some(t)
    ensures t.callers == s.callers[i := Completed(Answer(w, reqs[i]))] && t.inflight == s.inflight
    ensures Answer(w, reqs[i]).Hashed? ==>
              reqs[i].TopKey() in t.cache && t.cache[reqs[i].TopKey()] == Answer(w, reqs[i]).hash
  {
    more, t := moves, s;
    while !t.callers[i].Completed?
      invariant |t.callers| == |reqs| && Exec(w, reqs, more) == Some(t)
      invariant t.callers == s.callers[i := t.callers[i]] && t.inflight == s.inflight
      invariant Leading(t.callers[i]) && CallerOk(w, reqs[i], t.callers[i])
      invariant t.callers[i].Finding? || t.callers[i].Found? || t.callers[i].Hashing? ==> t.cache == map[]
      invariant t.callers[i].StoringTop? ==>
                  var k := CacheKey(t.callers[i].owner, reqs[i].path);
                  k in t.cache && t.cache[k] == t.callers[i].hash
      invariant !t.callers[i].Reusing?
      invariant (t.callers[i].Returning? || t.callers[i].Completed?) && Answer(w, reqs[i]).Hashed? ==>
                  reqs[i].TopKey() in t.cache && t.cache[reqs[i].TopKey()] == Answer(w, reqs[i]).hash
      decreases Weight(t.callers[i])
    {
      Push(w, reqs, more, t, i);
      more, t := more + [Step(i)], Apply(w, reqs, t, Step(i));
    }
  }

  /** The first caller's first two moves. */
  lemma StartLeading(w: World, reqs: seq<Request>, i: nat) returns (moves: seq<Move>, s: State)
    requires i < |reqs| && reqs[i].stack != []
    ensures Exec(w, reqs, moves) == Some(s)
    ensures s == State(Init(reqs).callers[i := Finding], map[], map[reqs[i].Key() := i])
  {
    var s0 := Init(reqs);
    Push(w, reqs, [], s0, i);
    s := Apply(w, reqs, s0, Step(i));
    moves := [] + [Step(i)];
    Push(w, reqs, moves, s, i);
    moves, s := moves + [Step(i)], Apply(w, reqs, s, Step(i));
    assert s.callers == s0.callers[i := Finding];
  }

  /** The second caller joins the first one's call. */
  lemma WrongByKey(w: World, reqs: seq<Request>, i: nat, j: nat) returns (moves: seq<Move>)
    requires i < |reqs| && j < |reqs| && SameKey(reqs[i], reqs[j]) && Answer(w, reqs[j]) != Answer(w, reqs[i])
    ensures Exec(w, reqs, moves).Some? && !AllRight(w, reqs, Exec(w, reqs, moves).value)
  {
    var s: State;
    moves, s := StartLeading(w, reqs, i);
    Push(w, reqs, moves, s, j);
    moves, s := moves + [Step(j)], s.(callers := s.callers[j := Missed]);
    Push(w, reqs, moves, s, j);
    moves, s := moves + [Step(j)], s.(callers := s.callers[j := Waiting(i)]);
    moves, s := LeadAlone(w, reqs, moves, s, i);
    Push(w, reqs, moves, s, j);
    moves, s := moves + [Step(j)], s.(callers := s.callers[j := Done(Answer(w, reqs[i]))]);
    assert s.callers[j].Done?;
  }

  /** The second caller finds the first one's hash under its own top layer. */
  lemma WrongByTop(w: World, reqs: seq<Request>, i: nat, j: nat) returns (moves: seq<Move>)
    requires i < |reqs| && j < |reqs| && SameTop(reqs[i], reqs[j])
    requires Answer(w, reqs[i]).Hashed? && Answer(w, reqs[j]) != Answer(w, reqs[i])
    ensures Exec(w, reqs, moves).Some? && !AllRight(w, reqs, Exec(w, reqs, moves).value)
  {
    var s: State;
    moves, s := StartLeading(w, reqs, i);
    moves, s := LeadAlone(w, reqs, moves, s, i);
    Push(w, reqs, moves, s, j);
    moves, s := moves + [Step(j)], s.(callers := s.callers[j := Done(Answer(w, reqs[i]))]);
    assert s.callers[j].Done?;
  }

  /** Two stacks, a-t and b-t, of which t does not have the file: the second caller gets
      the hash of a's file for b's. */
  lemma TwoStacksOneTop() returns (moves: seq<Move>)
    ensures var file := Dir([Entry("f", Leaf(Regular))]);
            var w := World(map["a" := file, "b" := file, "t" := Dir([])],
                           map[CacheKey("a", ["f"]) := "x", CacheKey("b", ["f"]) := "y"]);
            var reqs := [Request(["a", "t"], ["f"]), Request(["b", "t"], ["f"])];
            Exec(w, reqs, moves).Some? && !AllRight(w, reqs, Exec(w, reqs, moves).value)
  {
    var file := Dir([Entry("f", Leaf(Regular))]);
    var registry := map["a" := file, "b" := file, "t" := Dir([])];
    var w := World(registry, map[CacheKey("a", ["f"]) := "x", CacheKey("b", ["f"]) := "y"]);
    var reqs := [Request(["a", "t"], ["f"]), Request(["b", "t"], ["f"])];
    OwnerUnderEmptyTop(registry, "a");
    OwnerUnderEmptyTop(registry, "b");
    assert Answer(w, reqs[0]) == Hashed("x") && Answer(w, reqs[1]) == Hashed("y");
    moves := WrongByTop(w, reqs, 0, 1);
  }

  lemma OwnerUnderEmptyTop(registry: Registry, l: Layer)
    requires "t" in registry && registry["t"] == Dir([])
    requires l in registry && registry[l] == Dir([Entry("f", Leaf(Regular))])
    ensures Owner(registry, [l, "t"], ["f"]) == OwnedBy(l)
  {
    EmptyDiff(["f"]);
    OneFileDiff();
    assert [l, "t"][..1] == [l];
    assert StatOf(registry, "t", ["f"]) == StatAbsent && StatOf(registry, l, ["f"]) == StatPresent;
  }

  lemma EmptyDiff(p: Path)
    requires |p| == 1
    ensures FsStat(Dir([]), p) == StatAbsent
  {
  }

  lemma OneFileDiff()
    ensures FsStat(Dir([Entry("f", Leaf(Regular))]), ["f"]) == StatPresent
  {
    var diff := Dir([Entry("f", Leaf(Regular))]);
    assert ["f"][..0] == [] && [] + [W.OPQ] == [W.OPQ] && [] + [W.WH + "f"] == [W.WH + "f"];
    assert diff.entries[1..] == [] && |W.OPQ| > 1 && |W.WH + "f"| > 1;
    assert Find(diff.entries, W.OPQ) == None && Find(diff.entries, W.WH + "f") == None;
    assert Find(diff.entries, "f") == Some(Leaf(Regular)) && ["f"][1..] == [];
  }

  /** Transparency holds exactly when any two requests under one top layer and path,
      or under one text key, have the same answer to share. */
  lemma TransparentIff(w: World, reqs: seq<Request>)
    ensures Agree(w, reqs) <==>
            forall moves :: Exec(w, reqs, moves).Some? ==> AllRight(w, reqs, Exec(w, reqs, moves).value)
  {
    if Agree(w, reqs) {
      forall moves | Exec(w, reqs, moves).Some? ensures AllRight(w, reqs, Exec(w, reqs, moves).value) {
        Transparent(w, reqs, moves);
      }
    } else {
      var i, j :| 0 <= i < |reqs| && 0 <= j < |reqs| && !Compatible(w, reqs[i], reqs[j]);
      if SameKey(reqs[i], reqs[j]) && Answer(w, reqs[j]) != Answer(w, reqs[i]) {
        var moves := WrongByKey(w, reqs, i, j);
      } else {
        var moves := WrongByTop(w, reqs, i, j);
      }
    }
  }

  /** For requests whose identifiers are digests and whose top layers stand for one
      stack each, the cache is transparent. */
  lemma DisciplinedIsTransparent(w: World, reqs: seq<Request>, moves: seq<Move>)
    requires Disciplined(reqs) && Exec(w, reqs, moves).Some?
    ensures AllRight(w, reqs, Exec(w, reqs, moves).value)
  {
    DisciplineSuffices(w, reqs);
    Transparent(w, reqs, moves);
  }

  /* ---- coalescing and progress ---- */

  /** At any moment at most one caller works on a key. */
  lemma OneCallPerKey(w: World, reqs: seq<Request>, moves: seq<Move>, i: nat, j: nat)
    requires Exec(w, reqs, moves).Some? && i < |reqs| && j < |reqs| && i != j
    ensures Leading(Exec(w, reqs, moves).value.callers[i]) && Leading(Exec(w, reqs, moves).value.callers[j]) ==>
              reqs[i].Key() != reqs[j].Key()
  {
    RunKeepsFlights(w, reqs, moves);
    var s := Exec(w, reqs, moves).value;
    assert LeaderOk(reqs, s, i) && LeaderOk(reqs, s, j);
  }

  /** While anyone is without an answer, some caller can move. */
  lemma NobodyIsStuck(w: World, reqs: seq<Request>, moves: seq<Move>, i: nat)
    requires Exec(w, reqs, moves).Some? && i < |reqs|
    ensures !Exec(w, reqs, moves).value.callers[i].Done? ==>
              exists j :: 0 <= j < |reqs| && Enabled(reqs, Exec(w, reqs, moves).value, Step(j))
  {
    RunKeepsFlights(w, reqs, moves);
    var s := Exec(w, reqs, moves).value;
    assert WaiterOk(reqs, s, i);
    if s.callers[i].Waiting? && !Answered(s.callers[s.callers[i].leader]) {
      assert Enabled(reqs, s, Step(s.callers[i].leader));
    } else if !s.callers[i].Done? {
      assert Enabled(reqs, s, Step(i));
    }
  }

  /** The most moves a caller can still make. */
  function Weight(k: Caller): nat {
    match k
    case Start => 9
    case Missed => 8
    case Waiting(_) => 1
    case Finding => 7
    case Found(_) => 6
    case Hashing(_) => 5
    case StoringOwner(_, _) => 4
    case StoringTop(_, _) => 3
    case Reusing(_, _) => 3
    case Returning(_) => 2
    case Completed(_) => 1
    case Done(_) => 0
  }

  function MovesOf(moves: seq<Move>, i: nat): nat {
    if moves == [] then 0
    else MovesOf(moves[..|moves| - 1], i) + if moves[|moves| - 1] == Step(i) then 1 else 0
  }

  /** No caller makes more than nine moves, whatever the others and the cache do. */
  lemma {:induction false} AtMostNineMoves(w: World, reqs: seq<Request>, moves: seq<Move>, i: nat)
    requires Exec(w, reqs, moves).Some? && i < |reqs|
    ensures MovesOf(moves, i) + Weight(Exec(w, reqs, moves).value.callers[i]) <= 9
  {
    if moves != [] {
      AtMostNineMoves(w, reqs, moves[..|moves| - 1], i);
    }
  }
}
