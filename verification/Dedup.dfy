/** Hash resolution behind a shared cache: what a request should be answered, and the
    engine's two methods as one caller sees them. */
module Dedup {
  import opened Wrappers
  import opened FileTree
  import opened OwnerLookup
  import opened StackKey
  import T = PathText

  type Hash = string
  type FilePath = p: Path | p != [] witness ["file"]

  datatype CacheKey = CacheKey(layer: Layer, path: FilePath)
  datatype Request = Request(stack: Stack, path: FilePath) {
    function Top(): Layer {
      if stack == [] then "" else stack[|stack| - 1]
    }
    function TopKey(): CacheKey { CacheKey(Top(), path) }
    function Key(): string { SingleflightKey(stack, T.Render(path)) }
  }

  /** The immutable diffs, and what the hasher returns for each file it can read. */
  datatype World = World(registry: Registry, hashes: map<CacheKey, Hash>)

  datatype Outcome = Hashed(hash: Hash) | InvalidStack | Deleted | NoOwner | Unreadable

  type Cache = map<CacheKey, Hash>

  /** The uncached answer: the hash of the file in the layer that owns it. */
  function Answer(w: World, r: Request): Outcome {
    if r.stack == [] then InvalidStack
    else
      match Owner(w.registry, r.stack, r.path)
      case OwnedBy(o) =>
        if CacheKey(o, r.path) in w.hashes then Hashed(w.hashes[CacheKey(o, r.path)]) else Unreadable
      case WhitedOut => Deleted
      case NotFound => NoOwner
  }

  /** The topmost layer that has or hides the request's path has it, and the hasher
      returns h for that layer's file (an error for None). */
  ghost predicate TopHashes(w: World, r: Request, h: Option<Hash>) {
    exists i :: TopHas(w.registry, r.stack, r.path, i) && FileHash(w, r.stack[i], r.path) == h
  }

  function FileHash(w: World, l: Layer, p: FilePath): Option<Hash> {
    if CacheKey(l, p) in w.hashes then Some(w.hashes[CacheKey(l, p)]) else None
  }

  /** What each answer means in terms of the layers' trees. */
  lemma AnswerExact(w: World, r: Request)
    ensures Answer(w, r) == InvalidStack <==> r.stack == []
    ensures Answer(w, r) == Deleted <==> exists i :: TopHides(w.registry, r.stack, r.path, i)
    ensures Answer(w, r) == NoOwner <==> r.stack != [] && NothingAbove(w.registry, r.stack, r.path, -1)
    ensures Answer(w, r) == Unreadable <==> TopHashes(w, r, None)
    ensures forall h :: Answer(w, r) == Hashed(h) <==> TopHashes(w, r, Some(h))
  {
    if r.stack != [] {
      forall l ensures Owner(w.registry, r.stack, r.path) == OwnedBy(l) <==>
                       exists i :: TopHas(w.registry, r.stack, r.path, i) && r.stack[i] == l
      {
        OwnerIsTopmost(w.registry, r.stack, r.path, l);
      }
      OwnerIsTopmost(w.registry, r.stack, r.path, "");
    }
  }

  /** Both requests look under the same cache key first. */
  predicate SameTop(r: Request, q: Request) {
    r.stack != [] && q.stack != [] && r.TopKey() == q.TopKey()
  }

  predicate SameKey(r: Request, q: Request) {
    r.stack != [] && q.stack != [] && r.Key() == q.Key()
  }

  /** The two may share an answer. */
  predicate Compatible(w: World, r: Request, q: Request) {
    && (SameTop(r, q) && Answer(w, r).Hashed? ==> Answer(w, q) == Answer(w, r))
    && (SameKey(r, q) ==> Answer(w, q) == Answer(w, r))
  }

  /** Any two requests may share what they share. */
  predicate Agree(w: World, reqs: seq<Request>) {
    forall i, j :: 0 <= i < |reqs| && 0 <= j < |reqs| ==> Compatible(w, reqs[i], reqs[j])
  }

  predicate OneStackPerTop(r: Request, q: Request) {
    r.stack != [] && q.stack != [] && r.Top() == q.Top() ==> r.stack == q.stack
  }

  /** What a caller can check: layer identifiers are digests, paths are clean, and a
      top layer stands for one stack. */
  predicate Disciplined(reqs: seq<Request>) {
    && (forall i :: 0 <= i < |reqs| && reqs[i].stack != [] ==> ProperStack(reqs[i].stack) && T.Clean(reqs[i].path))
    && (forall i, j :: 0 <= i < |reqs| && 0 <= j < |reqs| ==> OneStackPerTop(reqs[i], reqs[j]))
  }

  lemma DisciplineSuffices(w: World, reqs: seq<Request>)
    requires Disciplined(reqs)
    ensures Agree(w, reqs)
  {
    forall i, j | 0 <= i < |reqs| && 0 <= j < |reqs| ensures Compatible(w, reqs[i], reqs[j]) {
      var r, q := reqs[i], reqs[j];
      assert OneStackPerTop(r, q);
      if SameKey(r, q) {
        KeyInjective(r.stack, T.Render(r.path), q.stack, T.Render(q.path));
        T.IsPathUnderIsAncestry(r.path, q.path);
      }
    }
  }

  /** An entry that no request is misled by, whether it finds it as its top layer or
      as the owner. */
  ghost predicate GoodEntry(w: World, reqs: seq<Request>, k: CacheKey, h: Hash) {
    && (StatOf(w.registry, k.layer, k.path).StatPresent? ==> k in w.hashes && w.hashes[k] == h)
    && (forall i :: 0 <= i < |reqs| && reqs[i].stack != [] && reqs[i].TopKey() == k ==> Answer(w, reqs[i]) == Hashed(h))
  }

  ghost predicate CacheOk(w: World, reqs: seq<Request>, cache: Cache) {
    forall k :: k in cache ==> GoodEntry(w, reqs, k, cache[k])
  }

  /** The request's file is in layer o and hashes to h. */
  predicate OwnedWith(w: World, r: Request, o: Layer, h: Hash) {
    && r.stack != []
    && Owner(w.registry, r.stack, r.path) == OwnedBy(o)
    && CacheKey(o, r.path) in w.hashes && w.hashes[CacheKey(o, r.path)] == h
  }

  /** The owner has the path; a top layer that has the path is the owner. */
  lemma OwnerHasIt(w: World, r: Request)
    requires r.stack != []
    ensures StatOf(w.registry, r.Top(), r.path).StatPresent? ==> Owner(w.registry, r.stack, r.path) == OwnedBy(r.Top())
    ensures forall o :: Owner(w.registry, r.stack, r.path) == OwnedBy(o) ==> StatOf(w.registry, o, r.path).StatPresent?
  {
    forall o | Owner(w.registry, r.stack, r.path) == OwnedBy(o) ensures StatOf(w.registry, o, r.path).StatPresent? {
      OwnerDecides(w.registry, r.stack, r.path, o);
    }
  }

  /** The entry stored for the owner layer. */
  lemma OwnerEntryGood(w: World, reqs: seq<Request>, r: Request, o: Layer, h: Hash)
    requires OwnedWith(w, r, o, h)
    ensures GoodEntry(w, reqs, CacheKey(o, r.path), h)
  {
    OwnerHasIt(w, r);
    forall i | 0 <= i < |reqs| && reqs[i].stack != [] && reqs[i].TopKey() == CacheKey(o, r.path)
      ensures Answer(w, reqs[i]) == Hashed(h)
    {
      OwnerHasIt(w, reqs[i]);
    }
  }

  /** The entry stored for the requesting layer. */
  lemma TopEntryGood(w: World, reqs: seq<Request>, i: nat, o: Layer, h: Hash)
    requires Agree(w, reqs) && i < |reqs| && OwnedWith(w, reqs[i], o, h)
    ensures GoodEntry(w, reqs, reqs[i].TopKey(), h)
  {
    OwnerHasIt(w, reqs[i]);
    forall j | 0 <= j < |reqs| && reqs[j].stack != [] && reqs[j].TopKey() == reqs[i].TopKey()
      ensures Answer(w, reqs[j]) == Hashed(h)
    {
      assert Compatible(w, reqs[i], reqs[j]);
    }
  }

  /** What a slow resolution offers the cache, given what it holds: the owner's entry
      when the file had to be hashed, and the requesting layer's unless it is the owner;
      nothing without a hash. */
  function Offered(w: World, r: Request, cache: Cache): seq<CacheKey>
    requires r.stack != []
  {
    match Owner(w.registry, r.stack, r.path)
    case OwnedBy(l) =>
      var k := CacheKey(l, r.path);
      var top := if l != r.Top() then [r.TopKey()] else [];
      if k in cache then top else if k in w.hashes then [k] + top else []
    case _ => []
  }

  /** The layer that owns the request's file. */
  predicate OwnedIn(w: World, r: Request, l: Layer) {
    Owner(w.registry, r.stack, r.path) == OwnedBy(l)
  }

  /** Exactly these entries are offered, and only when the answer is a hash: the owner's,
      unless the cache has it; the requesting layer's, unless it is the owner. So a cache
      that keeps what it is offered has both afterwards. */
  lemma OfferedExact(w: World, reqs: seq<Request>, r: Request, cache: Cache, k: CacheKey)
    requires r.stack != [] && CacheOk(w, reqs, cache)
    ensures k in Offered(w, r, cache) <==>
            && Answer(w, r).Hashed?
            && exists l :: OwnedIn(w, r, l) && ((k == CacheKey(l, r.path) && k !in cache) ||
                                                (k == r.TopKey() && l != r.Top()))
    ensures Answer(w, r).Hashed? ==> r.TopKey() in cache || r.TopKey() in Offered(w, r, cache)
  {
    if Owner(w.registry, r.stack, r.path).OwnedBy? {
      var l := Owner(w.registry, r.stack, r.path).layer;
      OwnerHasIt(w, r);
      assert OwnedIn(w, r, l);
      if CacheKey(l, r.path) in cache {
        assert GoodEntry(w, reqs, CacheKey(l, r.path), cache[CacheKey(l, r.path)]);
      }
    }
  }

  /** The engine with a cache that may forget anything whenever it stores. */
  class Engine {
    ghost const reqs: seq<Request>
    const world: World
    const resolver: OverlayResolver
    var cache: Cache
    var given: seq<CacheKey>    // the keys of all entries stored so far

    constructor (world: World, resolver: OverlayResolver, ghost reqs: seq<Request>)
      requires resolver.Valid() && resolver.registry == world.registry && Agree(world, reqs)
      ensures this.world == world && this.resolver == resolver && this.reqs == reqs && Valid()
      ensures cache == map[] && given == []
    {
      this.world, this.resolver, this.reqs := world, resolver, reqs;
      cache, given := map[], [];
    }

    ghost predicate Valid()
      reads this, resolver
    {
      resolver.Valid() && resolver.registry == world.registry && Agree(world, reqs) && CacheOk(world, reqs, cache)
    }

    /** Set, on a cache that is free to evict, the new entry included. */
    method Store(k: CacheKey, h: Hash)
      modifies this`cache, this`given
      ensures given == old(given) + [k]
      ensures forall j :: j in cache ==> if j == k then cache[j] == h else j in old(cache) && cache[j] == old(cache)[j]
    {
      var kept: set<CacheKey> := *;
      given := given + [k];
      cache := cache[k := h];
      cache := map j | j in cache && j in kept :: cache[j];
    }

    /** The requesting layer's entry, unless that layer is the owner. */
    method StoreTop(ghost i: nat, r: Request, l: Layer, h: Hash)
      requires Valid() && i < |reqs| && reqs[i] == r && OwnedWith(world, r, l, h)
      modifies this`cache, this`given
      ensures Valid() && given == old(given) + if l != r.Top() then [r.TopKey()] else []
    {
      if r.Top() != l {
        TopEntryGood(world, reqs, i, l, h);
        Store(r.TopKey(), h);
      }
    }

    /** The file is hashed in its owner layer, and the hash is stored. */
    method HashOwned(ghost i: nat, r: Request, l: Layer) returns (o: Outcome)
      requires Valid() && i < |reqs| && reqs[i] == r && r.stack != []
      requires Owner(world.registry, r.stack, r.path) == OwnedBy(l) && CacheKey(l, r.path) !in cache
      modifies this`cache, this`given, resolver`statCache
      ensures Valid() && o == Answer(world, r)
      ensures given == old(given) + Offered(world, r, old(cache))
    {
      var k := CacheKey(l, r.path);
      OwnerHasIt(world, r);
      // The owner has the path, so the lookup of its file cannot fail here.
      var at := resolver.DiffAbsPath(l, r.path);
      assert at == AbsPath(l, r.path);
      if k !in world.hashes {
        return Unreadable;
      }
      o := Hashed(world.hashes[k]);
      OwnerEntryGood(world, reqs, r, l, o.hash);
      Store(k, o.hash);
      StoreTop(i, r, l, o.hash);
    }

    /** The owner's entry is in the cache. */
    method ReuseOwned(ghost i: nat, r: Request, l: Layer) returns (o: Outcome)
      requires Valid() && i < |reqs| && reqs[i] == r && r.stack != []
      requires Owner(world.registry, r.stack, r.path) == OwnedBy(l) && CacheKey(l, r.path) in cache
      modifies this`cache, this`given
      ensures Valid() && o == Answer(world, r)
      ensures given == old(given) + Offered(world, r, old(cache))
    {
      var k := CacheKey(l, r.path);
      OwnerHasIt(world, r);
      assert GoodEntry(world, reqs, k, cache[k]);
      o := Hashed(cache[k]);
      StoreTop(i, r, l, o.hash);
    }

    /** resolve: the slow path, with the owner's entry consulted before the hasher. */
    method ResolveSlowly(ghost i: nat, r: Request) returns (o: Outcome)
      requires Valid() && i < |reqs| && reqs[i] == r && r.stack != []
      modifies this`cache, this`given, resolver`statCache
      ensures Valid() && o == Answer(world, r)
      ensures given == old(given) + Offered(world, r, old(cache))
    {
      var owner := resolver.FindOwnerLayer(r.stack, r.path);
      if owner.WhitedOut? {
        return Deleted;
      }
      if owner.NotFound? {
        return NoOwner;
      }
      if CacheKey(owner.layer, r.path) in cache {
        o := ReuseOwned(i, r, owner.layer);
      } else {
        o := HashOwned(i, r, owner.layer);
      }
    }

    /** Resolve, with no other caller in between: the cache is transparent. */
    method Resolve(ghost i: nat, r: Request) returns (o: Outcome)
      requires Valid() && i < |reqs| && reqs[i] == r
      modifies this`cache, this`given, resolver`statCache
      ensures Valid() && o == Answer(world, r)
      ensures given == old(given) + if r.stack == [] || r.TopKey() in old(cache) then []
                                    else Offered(world, r, old(cache))
    {
      if r.stack == [] {
        return InvalidStack;
      }
      if r.TopKey() in cache {
        assert GoodEntry(world, reqs, r.TopKey(), cache[r.TopKey()]);
        return Hashed(cache[r.TopKey()]);
      }
      o := ResolveSlowly(i, r);
    }
  }
}
