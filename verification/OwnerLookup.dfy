/** Which layer of a stack owns a path: the overlay resolver with its bounded cache
    of stat results, over immutable diffs. */
module OwnerLookup {
  import opened FileTree
  import W = Whiteout

  type Layer = string
  type Stack = seq<Layer>

  /** StatUnregistered stands for the error of a layer that is not registered. */
  datatype Stat = StatPresent | StatAbsent | StatWhiteout | StatUnregistered

  datatype OwnerResult = OwnedBy(layer: Layer) | WhitedOut | NotFound

  /** Where a layer keeps a file, or why it does not. */
  datatype DiffPath = AbsPath(layer: Layer, path: Path) | HiddenInDiff | NotInDiff

  /** The registered layers with their diff trees. */
  type Registry = map<Layer, Node>

  /** fsStat: the opaque marker of the directory, then the marker of the file, then
      the file. */
  function FsStat(diff: Node, p: Path): Stat
    requires p != []
  {
    if W.ParentIsOpaque(diff, p) then StatWhiteout
    else if W.HasFileWhiteout(diff, p) then StatWhiteout
    else if W.Exists(diff, p) then StatPresent
    else StatAbsent
  }

  function StatOf(reg: Registry, l: Layer, p: Path): Stat
    requires p != []
  {
    if l in reg then FsStat(reg[l], p) else StatUnregistered
  }

  /** The layer's tree has, beside the path, the opaque marker or the marker of its last
      name. */
  predicate Hides(reg: Registry, l: Layer, p: Path)
    requires p != []
  {
    var n := |p| - 1;
    l in reg && (Lookup(reg[l], p[..n] + [".wh..wh..opq"]).Some? || Lookup(reg[l], p[..n] + [".wh." + p[n]]).Some?)
  }

  /** The layer's tree has the path and does not hide it. */
  predicate Has(reg: Registry, l: Layer, p: Path)
    requires p != []
  {
    l in reg && Lookup(reg[l], p).Some? && !Hides(reg, l, p)
  }

  /** What the four results of a lookup mean: markers win over the file itself. */
  lemma StatExact(reg: Registry, l: Layer, p: Path)
    requires p != []
    ensures StatOf(reg, l, p) == StatWhiteout <==> Hides(reg, l, p)
    ensures StatOf(reg, l, p) == StatPresent <==> Has(reg, l, p)
    ensures StatOf(reg, l, p) == StatUnregistered <==> l !in reg
    ensures l in reg ==> (FsStat(reg[l], p) == StatWhiteout <==> W.PlainMasks(reg[l], p))
  {
    assert W.OPQ == ".wh..wh..opq" && W.WH == ".wh.";
    assert W.Parent(p) == p[..|p| - 1] && W.Last(p) == p[|p| - 1];
  }

  /** From the top of the stack down: the first layer that has or hides the path. */
  function Owner(reg: Registry, stack: Stack, p: Path): OwnerResult
    requires p != []
  {
    if stack == [] then NotFound
    else
      var top := stack[|stack| - 1];
      match StatOf(reg, top, p)
      case StatPresent => OwnedBy(top)
      case StatWhiteout => WhitedOut
      case _ => Owner(reg, stack[..|stack| - 1], p)
  }

  /** Nothing above position i has or hides the path. */
  predicate SilentAbove(reg: Registry, stack: Stack, p: Path, i: int)
    requires p != []
  {
    forall j :: 0 <= j < |stack| && i < j ==>
      StatOf(reg, stack[j], p).StatAbsent? || StatOf(reg, stack[j], p).StatUnregistered?
  }

  /** The layer at i decides. */
  predicate Decides(reg: Registry, stack: Stack, p: Path, i: int, s: Stat)
    requires p != []
  {
    0 <= i < |stack| && StatOf(reg, stack[i], p) == s && SilentAbove(reg, stack, p, i)
  }

  /** Without its last layer, which decides nothing, the stack is decided as before. */
  lemma DecidesBelow(reg: Registry, stack: Stack, p: Path, i: int, s: Stat)
    requires p != [] && stack != [] && SilentAbove(reg, stack, p, |stack| - 2)
    ensures Decides(reg, stack, p, i, s) && i < |stack| - 1 <==> Decides(reg, stack[..|stack| - 1], p, i, s)
  {
    assert forall j :: 0 <= j < |stack| - 1 ==> stack[..|stack| - 1][j] == stack[j];
  }

  lemma {:induction false} OwnerDecides(reg: Registry, stack: Stack, p: Path, l: Layer)
    requires p != []
    ensures Owner(reg, stack, p) == OwnedBy(l) <==> exists i :: Decides(reg, stack, p, i, StatPresent) && stack[i] == l
    ensures Owner(reg, stack, p) == WhitedOut <==> exists i :: Decides(reg, stack, p, i, StatWhiteout)
    ensures Owner(reg, stack, p) == NotFound <==> SilentAbove(reg, stack, p, -1)
  {
    if stack != [] {
      var n := |stack| - 1;
      var s := StatOf(reg, stack[n], p);
      if s.StatPresent? || s.StatWhiteout? {
        assert Decides(reg, stack, p, n, s);
      } else {
        OwnerDecides(reg, stack[..n], p, l);
        SilentBelow(reg, stack, p);
        forall i, x ensures Decides(reg, stack, p, i, x) && i < n <==> Decides(reg, stack[..n], p, i, x) {
          DecidesBelow(reg, stack, p, i, x);
        }
      }
    }
  }

  lemma SilentBelow(reg: Registry, stack: Stack, p: Path)
    requires p != [] && stack != [] && SilentAbove(reg, stack, p, |stack| - 2)
    ensures SilentAbove(reg, stack, p, -1) <==> SilentAbove(reg, stack[..|stack| - 1], p, -1)
  {
    var init := stack[..|stack| - 1];
    assert forall j :: 0 <= j < |init| ==> init[j] == stack[j];
  }

  /** No layer above position i has or hides the path. */
  predicate NothingAbove(reg: Registry, stack: Stack, p: Path, i: int)
    requires p != []
  {
    forall j :: 0 <= j < |stack| && i < j ==> !Has(reg, stack[j], p) && !Hides(reg, stack[j], p)
  }

  /** The layer at i is the topmost that has or hides the path, and it has it ... */
  predicate TopHas(reg: Registry, stack: Stack, p: Path, i: int)
    requires p != []
  {
    0 <= i < |stack| && Has(reg, stack[i], p) && NothingAbove(reg, stack, p, i)
  }

  /** ... or hides it. */
  predicate TopHides(reg: Registry, stack: Stack, p: Path, i: int)
    requires p != []
  {
    0 <= i < |stack| && Hides(reg, stack[i], p) && NothingAbove(reg, stack, p, i)
  }

  lemma DecidesExact(reg: Registry, stack: Stack, p: Path, i: int)
    requires p != []
    ensures SilentAbove(reg, stack, p, i) <==> NothingAbove(reg, stack, p, i)
    ensures Decides(reg, stack, p, i, StatPresent) <==> TopHas(reg, stack, p, i)
    ensures Decides(reg, stack, p, i, StatWhiteout) <==> TopHides(reg, stack, p, i)
  {
    forall j | 0 <= j < |stack|
      ensures StatOf(reg, stack[j], p) == StatWhiteout <==> Hides(reg, stack[j], p)
      ensures StatOf(reg, stack[j], p) == StatPresent <==> Has(reg, stack[j], p)
    {
      StatExact(reg, stack[j], p);
    }
  }

  /** In terms of the layers' trees: the owner is the topmost layer that has the path,
      unless that layer or one above it has a marker for it; such a marker hides every
      layer below. Layers that are not registered are passed over. */
  lemma OwnerIsTopmost(reg: Registry, stack: Stack, p: Path, l: Layer)
    requires p != []
    ensures Owner(reg, stack, p) == OwnedBy(l) <==> exists i :: TopHas(reg, stack, p, i) && stack[i] == l
    ensures Owner(reg, stack, p) == WhitedOut <==> exists i :: TopHides(reg, stack, p, i)
    ensures Owner(reg, stack, p) == NotFound <==> NothingAbove(reg, stack, p, -1)
  {
    OwnerDecides(reg, stack, p, l);
    forall i
      ensures SilentAbove(reg, stack, p, i) <==> NothingAbove(reg, stack, p, i)
      ensures Decides(reg, stack, p, i, StatPresent) <==> TopHas(reg, stack, p, i)
      ensures Decides(reg, stack, p, i, StatWhiteout) <==> TopHides(reg, stack, p, i)
    {
      DecidesExact(reg, stack, p, i);
    }
  }

  /** One turn of the scan. */
  lemma OwnerTurn(reg: Registry, stack: Stack, p: Path, i: nat)
    requires p != [] && i < |stack|
    ensures Owner(reg, stack[..i + 1], p) == match StatOf(reg, stack[i], p)
                                             case StatPresent => OwnedBy(stack[i])
                                             case StatWhiteout => WhitedOut
                                             case _ => Owner(reg, stack[..i], p)
  {
    assert stack[..i + 1][..i] == stack[..i];
  }

  /** A cache key. */
  datatype StatKey = StatKey(layer: Layer, path: Path)

  class OverlayResolver {
    const registry: Registry
    const cacheSize: nat
    var statCache: map<StatKey, Stat>

    constructor (registry: Registry, cacheCapacity: int)
      ensures this.registry == registry && Valid() && statCache == map[]
      ensures cacheSize == if cacheCapacity <= 0 then 100_000 else cacheCapacity
    {
      this.registry := registry;
      cacheSize := if cacheCapacity <= 0 then 100_000 else cacheCapacity;
      statCache := map[];
    }

    /** Whatever is cached is what the file system says. */
    ghost predicate Valid()
      reads this
    {
      |statCache| <= cacheSize &&
      forall k :: k in statCache ==>
        k.path != [] && k.layer in registry && statCache[k] == FsStat(registry[k.layer], k.path)
    }

    /** statInLayer: transparent, and within the capacity. */
    method StatInLayer(l: Layer, p: Path) returns (s: Stat)
      requires Valid() && p != []
      modifies this`statCache
      ensures Valid() && s == StatOf(registry, l, p)
    {
      var k := StatKey(l, p);
      if k in statCache {
        return statCache[k];
      }
      if l !in registry {
        return StatUnregistered;
      }
      s := FsStat(registry[l], p);
      if |statCache| < cacheSize {
        statCache := statCache[k := s];
      }
    }

    method FindOwnerLayer(stack: Stack, p: Path) returns (r: OwnerResult)
      requires Valid() && p != []
      modifies this`statCache
      ensures Valid() && r == Owner(registry, stack, p)
    {
      var i := |stack|;
      assert stack[..i] == stack;
      while i > 0
        invariant 0 <= i <= |stack| && Valid()
        invariant Owner(registry, stack[..i], p) == Owner(registry, stack, p)
      {
        i := i - 1;
        OwnerTurn(registry, stack, p, i);
        var s := StatInLayer(stack[i], p);
        if s.StatPresent? {
          return OwnedBy(stack[i]);
        }
        if s.StatWhiteout? {
          return WhitedOut;
        }
      }
      return NotFound;
    }

    /** DiffAbsPath: only for a file the layer has and does not hide. */
    method DiffAbsPath(l: Layer, p: Path) returns (r: DiffPath)
      requires Valid() && p != []
      modifies this`statCache
      ensures Valid()
      ensures r == AbsPath(l, p) <==> StatOf(registry, l, p).StatPresent?
      ensures r == HiddenInDiff <==> StatOf(registry, l, p).StatWhiteout?
      ensures r == NotInDiff <==> StatOf(registry, l, p).StatAbsent? || StatOf(registry, l, p).StatUnregistered?
    {
      if l !in registry {
        return NotInDiff;
      }
      var s := StatInLayer(l, p);
      if s.StatWhiteout? {
        return HiddenInDiff;
      }
      if !s.StatPresent? {
        return NotInDiff;
      }
      return AbsPath(l, p);
    }

    /** InvalidateLayer: every cached result of the layer goes, no other. */
    method InvalidateLayer(l: Layer)
      requires Valid()
      modifies this`statCache
      ensures Valid()
      ensures forall k :: k in statCache <==> k in old(statCache) && k.layer != l
      ensures forall k :: k in statCache ==> statCache[k] == old(statCache)[k]
    {
      var todo := statCache.Keys;
      while todo != {}
        invariant Valid()
        invariant forall k :: k in todo ==> k in statCache
        invariant forall k :: k in statCache <==> k in old(statCache) && (k.layer != l || k in todo)
        invariant forall k :: k in statCache ==> statCache[k] == old(statCache)[k]
      {
        var k :| k in todo;
        todo := todo - {k};
        if k.layer == l {
          SmallerWithout(statCache, k);
          statCache := statCache - {k};
        }
      }
    }
  }

  lemma SmallerWithout<K, V>(m: map<K, V>, k: K)
    requires k in m
    ensures |m - {k}| <= |m|
  {
    assert (m - {k}).Keys == m.Keys - {k};
    assert |(m - {k}).Keys| == |m - {k}|;
  }
}
