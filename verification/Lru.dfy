/** One shard of the hash cache: a map and a recency list that forget the least
    recently used key, and what a sequence of calls leaves in it. */
module Lru {
  import opened Wrappers

  datatype Key = Key(layer: string, path: string)
  type Hash = string
  datatype Item = Item(key: Key, hash: Hash)

  /* ---- the shard as a list, most recently used first ---- */

  predicate Has(s: seq<Item>, k: Key) {
    exists i :: 0 <= i < |s| && s[i].key == k
  }

  predicate DistinctKeys(s: seq<Item>) {
    forall i, j :: 0 <= i < j < |s| ==> s[i].key != s[j].key
  }

  function IndexOf(s: seq<Item>, k: Key): (i: nat)
    requires Has(s, k)
    ensures i < |s| && s[i].key == k
    ensures forall j :: 0 <= j < i ==> s[j].key != k
  {
    if s[0].key == k then 0 else 1 + IndexOf(s[1..], k)
  }

  function ValueOf(s: seq<Item>, k: Key): Hash
    requires Has(s, k)
  {
    s[IndexOf(s, k)].hash
  }

  function RemoveAt(s: seq<Item>, i: nat): seq<Item>
    requires i < |s|
  {
    s[..i] + s[i + 1..]
  }

  function Removed(s: seq<Item>, k: Key): seq<Item> {
    if Has(s, k) then RemoveAt(s, IndexOf(s, k)) else s
  }

  function AfterGet(s: seq<Item>, k: Key): seq<Item> {
    if Has(s, k) then [Item(k, ValueOf(s, k))] + Removed(s, k) else s
  }

  function AfterSet(s: seq<Item>, cap: nat, k: Key, h: Hash): seq<Item> {
    if Has(s, k) then [Item(k, h)] + Removed(s, k)
    else [Item(k, h)] + if |s| >= cap && s != [] then s[..|s| - 1] else s
  }

  function WithoutLayer(s: seq<Item>, layer: string): seq<Item> {
    if s == [] then []
    else
      var init := WithoutLayer(s[..|s| - 1], layer);
      if s[|s| - 1].key.layer == layer then init else init + [s[|s| - 1]]
  }

  /* ---- the shard as it is kept ---- */

  /** The recency list holds the keys; the hash of a list element is kept with the
      map entry that refers to it. */
  class Shard {
    var entries: map<Key, Hash>
    var lru: seq<Key>
    const cap: nat

    constructor (cap: nat)
      requires cap >= 1
      ensures Valid() && this.cap == cap && Contents() == []
    {
      this.cap := cap;
      entries := map[];
      lru := [];
    }

    /** Map and list agree, no key is listed twice, and the list is within the
        capacity. */
    ghost predicate Valid()
      reads this
    {
      && 1 <= cap && |lru| <= cap
      && (forall i, j :: 0 <= i < j < |lru| ==> lru[i] != lru[j])
      && (forall k :: k in entries <==> k in lru)
    }

    function Contents(): (s: seq<Item>)
      requires Valid()
      reads this
      ensures |s| == |lru| && DistinctKeys(s)
    {
      Items(lru, entries)
    }

    /** Where the list element of a key is. */
    method Locate(k: Key) returns (i: nat)
      requires Valid() && k in entries
      ensures i < |lru| && lru[i] == k && Has(Contents(), k) && IndexOf(Contents(), k) == i
    {
      i := 0;
      while lru[i] != k
        invariant 0 <= i < |lru| && k in lru[i..]
        decreases |lru| - i
      {
        i := i + 1;
      }
      assert Contents()[i].key == k;
    }

    /** get: a hit moves the key to the front. */
    method Get(k: Key) returns (r: Option<Hash>)
      requires Valid()
      modifies this
      ensures Valid() && Contents() == AfterGet(old(Contents()), k)
      ensures r == if Has(old(Contents()), k) then Some(ValueOf(old(Contents()), k)) else None
    {
      HasIff(lru, entries, k);
      if k !in entries {
        return None;
      }
      var i := Locate(k);
      MoveKeeps(lru, entries, i, entries[k]);
      lru := [k] + (lru[..i] + lru[i + 1..]);
      return Some(entries[k]);
    }

    /** set: an existing key is moved to the front and updated in place; a new key
        first evicts the last one when the shard is full. */
    method Set(k: Key, h: Hash)
      requires Valid()
      modifies this
      ensures Valid() && Contents() == AfterSet(old(Contents()), cap, k, h)
    {
      HasIff(lru, entries, k);
      if k in entries {
        var i := Locate(k);
        MoveKeeps(lru, entries, i, h);
        lru := [k] + (lru[..i] + lru[i + 1..]);
        entries := entries[k := h];
        return;
      }
      if |lru| >= cap {
        EvictOldest();
      }
      PushFront(k, h);
    }

    /** A key that is not there yet becomes the first. */
    method PushFront(k: Key, h: Hash)
      requires Listed(lru, entries) && k !in entries && |lru| < cap
      modifies this
      ensures Valid() && Contents() == [Item(k, h)] + old(Items(lru, entries))
    {
      PushKeeps(lru, entries, k, h);
      lru := [k] + lru;
      entries := entries[k := h];
    }

    method EvictOldest()
      requires Valid() && lru != []
      modifies this
      ensures Valid() && lru == old(lru)[..|old(lru)| - 1] && entries == old(entries) - {old(lru)[|old(lru)| - 1]}
      ensures Contents() == old(Contents())[..|old(lru)| - 1]
    {
      var n := |lru| - 1;
      var oldest := lru[n];
      CutKeeps(lru, entries, n);
      entries := entries - {oldest};
      lru := lru[..n] + lru[n + 1..];
    }

    method Delete(k: Key)
      requires Valid()
      modifies this
      ensures Valid() && Contents() == Removed(old(Contents()), k)
    {
      HasIff(lru, entries, k);
      if k !in entries {
        return;
      }
      var i := Locate(k);
      CutKeeps(lru, entries, i);
      entries := entries - {k};
      lru := lru[..i] + lru[i + 1..];
    }

    /** DeleteLayer for this shard: the map is ranged over in any order. */
    method DeleteLayer(layer: string)
      requires Valid()
      modifies this
      ensures Valid() && Contents() == WithoutLayer(old(Contents()), layer)
    {
      ghost var before, gone: set<Key> := Contents(), {};
      var todo := entries.Keys;
      WithoutNone(before, gone);
      while todo != {}
        invariant Valid() && Contents() == Without(before, gone) && DistinctKeys(before)
        invariant todo !! gone && forall k :: k in gone ==> k.layer == layer
        invariant forall i :: 0 <= i < |before| && before[i].key.layer == layer ==>
                                before[i].key in todo || before[i].key in gone
      {
        var k :| k in todo;
        todo := todo - {k};
        if k.layer == layer {
          RemovedIs(Contents(), k);
          WithoutTwice(before, gone, {k});
          Delete(k);
          gone := gone + {k};
        }
      }
      WithoutLayerIs(before, layer, gone);
    }
  }

  /** The list without some keys. */
  function Without(s: seq<Item>, gone: set<Key>): seq<Item> {
    if s == [] then []
    else
      var init := Without(s[..|s| - 1], gone);
      if s[|s| - 1].key in gone then init else init + [s[|s| - 1]]
  }

  lemma {:induction false} WithoutLayerIs(s: seq<Item>, l: string, gone: set<Key>)
    requires forall i :: 0 <= i < |s| ==> (s[i].key in gone <==> s[i].key.layer == l)
    ensures WithoutLayer(s, l) == Without(s, gone)
  {
    if s != [] {
      WithoutLayerIs(s[..|s| - 1], l, gone);
    }
  }

  lemma {:induction false} WithoutNone(s: seq<Item>, gone: set<Key>)
    requires forall i :: 0 <= i < |s| ==> s[i].key !in gone
    ensures Without(s, gone) == s
  {
    if s != [] {
      WithoutNone(s[..|s| - 1], gone);
      assert s == s[..|s| - 1] + [s[|s| - 1]];
    }
  }

  lemma IndexInPrefix(t: seq<Item>, k: Key)
    requires DistinctKeys(t) && Has(t, k) && IndexOf(t, k) < |t| - 1
    ensures Has(t[..|t| - 1], k) && IndexOf(t[..|t| - 1], k) == IndexOf(t, k)
  {
    var init, i := t[..|t| - 1], IndexOf(t, k);
    assert init[i].key == k;
    var j := IndexOf(init, k);
    assert init[j] == t[j];
  }

  lemma RemoveAtPrefix(t: seq<Item>, i: nat)
    requires i < |t| - 1
    ensures RemoveAt(t, i) == RemoveAt(t[..|t| - 1], i) + [t[|t| - 1]]
  {
  }

  lemma {:induction false} RemovedIs(t: seq<Item>, k: Key)
    requires DistinctKeys(t)
    ensures Removed(t, k) == Without(t, {k})
  {
    if !Has(t, k) {
      WithoutNone(t, {k});
    } else {
      var n := |t| - 1;
      var i := IndexOf(t, k);
      if i == n {
        WithoutNone(t[..n], {k});
        assert RemoveAt(t, n) == t[..n];
      } else {
        IndexInPrefix(t, k);
        RemovedIs(t[..n], k);
        RemoveAtPrefix(t, i);
        assert t[n].key != k;
      }
    }
  }

  lemma {:induction false} WithoutTwice(s: seq<Item>, gone: set<Key>, more: set<Key>)
    ensures Without(Without(s, gone), more) == Without(s, gone + more)
  {
    if s != [] {
      var init := Without(s[..|s| - 1], gone);
      WithoutTwice(s[..|s| - 1], gone, more);
      if s[|s| - 1].key !in gone {
        assert (init + [s[|s| - 1]])[..|init|] == init;
      }
    }
  }

  ghost predicate Listed(lru: seq<Key>, entries: map<Key, Hash>) {
    && (forall i, j :: 0 <= i < j < |lru| ==> lru[i] != lru[j])
    && (forall k :: k in entries <==> k in lru)
  }

  function Items(lru: seq<Key>, entries: map<Key, Hash>): (s: seq<Item>)
    requires forall k :: k in lru ==> k in entries
    ensures |s| == |lru|
    ensures forall i :: 0 <= i < |s| ==> s[i] == Item(lru[i], entries[lru[i]])
  {
    seq(|lru|, i requires 0 <= i < |lru| => Item(lru[i], entries[lru[i]]))
  }

  lemma HasIff(lru: seq<Key>, entries: map<Key, Hash>, k: Key)
    requires Listed(lru, entries)
    ensures k in entries <==> Has(Items(lru, entries), k)
  {
    if k in entries {
      var i :| 0 <= i < |lru| && lru[i] == k;
      assert Items(lru, entries)[i].key == k;
    }
  }

  lemma CutAt(lru: seq<Key>, i: nat)
    requires i < |lru|
    ensures var cut := lru[..i] + lru[i + 1..];
            |cut| == |lru| - 1 && forall j :: 0 <= j < |cut| ==> cut[j] == lru[if j < i then j else j + 1]
  {
  }

  lemma CutListed(lru: seq<Key>, entries: map<Key, Hash>, i: nat)
    requires Listed(lru, entries) && i < |lru|
    ensures Listed(lru[..i] + lru[i + 1..], entries - {lru[i]})
  {
    var cut := lru[..i] + lru[i + 1..];
    CutAt(lru, i);
    forall k ensures k in entries - {lru[i]} <==> k in cut {
      if k in lru && k != lru[i] {
        var j :| 0 <= j < |lru| && lru[j] == k;
        assert cut[if j < i then j else j - 1] == k;
      }
    }
  }

  lemma CutKeeps(lru: seq<Key>, entries: map<Key, Hash>, i: nat)
    requires Listed(lru, entries) && i < |lru|
    ensures Listed(lru[..i] + lru[i + 1..], entries - {lru[i]})
    ensures Items(lru[..i] + lru[i + 1..], entries - {lru[i]}) == RemoveAt(Items(lru, entries), i)
  {
    CutListed(lru, entries, i);
    CutAt(lru, i);
    var left := Items(lru[..i] + lru[i + 1..], entries - {lru[i]});
    forall j | 0 <= j < |left| ensures left[j] == RemoveAt(Items(lru, entries), i)[j] {
      assert lru[if j < i then j else j + 1] != lru[i];
    }
  }

  lemma PushKeeps(lru: seq<Key>, entries: map<Key, Hash>, k: Key, h: Hash)
    requires Listed(lru, entries) && k !in entries
    ensures Listed([k] + lru, entries[k := h])
    ensures Items([k] + lru, entries[k := h]) == [Item(k, h)] + Items(lru, entries)
  {
  }

  lemma CutAndPut(entries: map<Key, Hash>, k: Key, h: Hash)
    ensures (entries - {k})[k := h] == entries[k := h]
    ensures k in entries && entries[k] == h ==> entries[k := h] == entries
  {
  }

  lemma MoveKeeps(lru: seq<Key>, entries: map<Key, Hash>, i: nat, h: Hash)
    requires Listed(lru, entries) && i < |lru|
    ensures var moved := [lru[i]] + (lru[..i] + lru[i + 1..]);
            && Listed(moved, entries[lru[i] := h])
            && Items(moved, entries[lru[i] := h]) == [Item(lru[i], h)] + RemoveAt(Items(lru, entries), i)
    ensures entries[lru[i]] == h ==> entries[lru[i] := h] == entries
  {
    CutKeeps(lru, entries, i);
    PushKeeps(lru[..i] + lru[i + 1..], entries - {lru[i]}, lru[i], h);
    CutAndPut(entries, lru[i], h);
  }

  /* ---- what a sequence of calls leaves ---- */

  datatype Call = Get(key: Key) | Set(key: Key, hash: Hash) | Delete(key: Key) | DeleteLayer(layer: string)

  function After(s: seq<Item>, cap: nat, c: Call): seq<Item> {
    match c
    case Get(k) => AfterGet(s, k)
    case Set(k, h) => AfterSet(s, cap, k, h)
    case Delete(k) => Removed(s, k)
    case DeleteLayer(l) => WithoutLayer(s, l)
  }

  function Run(cap: nat, calls: seq<Call>): seq<Item> {
    if calls == [] then [] else After(Run(cap, calls[..|calls| - 1]), cap, calls[|calls| - 1])
  }

  /** The hash of the last Set of k since its last deletion, in an unbounded map. */
  function Latest(calls: seq<Call>, k: Key): Option<Hash> {
    if calls == [] then None
    else
      var before, c := Latest(calls[..|calls| - 1], k), calls[|calls| - 1];
      match c
      case Get(_) => before
      case Set(j, h) => if j == k then Some(h) else before
      case Delete(j) => if j == k then None else before
      case DeleteLayer(l) => if k.layer == l then None else before
  }

  /** The other keys that were set or hit since k was. */
  function TouchedSince(cap: nat, calls: seq<Call>, k: Key): set<Key> {
    if calls == [] then {}
    else
      var init, c := calls[..|calls| - 1], calls[|calls| - 1];
      match c
      case Get(j) =>
        if !Has(Run(cap, init), j) then TouchedSince(cap, init, k)
        else if j == k then {} else TouchedSince(cap, init, k) + {j}
      case Set(j, _) => if j == k then {} else TouchedSince(cap, init, k) + {j}
      case _ => TouchedSince(cap, init, k)
  }

  /** The keys that are ahead of position i. */
  function Ahead(s: seq<Item>, i: nat): set<Key>
    requires i <= |s|
  {
    set j | 0 <= j < i :: s[j].key
  }

  lemma {:induction false} AheadSize(s: seq<Item>, i: nat)
    requires DistinctKeys(s) && i <= |s|
    ensures |Ahead(s, i)| == i
  {
    if i > 0 {
      var k := s[i - 1].key;
      AheadSize(s, i - 1);
      assert k !in Ahead(s, i - 1);
      assert Ahead(s, i) == Ahead(s, i - 1) + {k};
    }
  }

  lemma RemoveAtPositions(s: seq<Item>, i: nat)
    requires DistinctKeys(s) && i < |s|
    ensures DistinctKeys(RemoveAt(s, i)) && |RemoveAt(s, i)| == |s| - 1
    ensures forall j :: 0 <= j < |s| - 1 ==> RemoveAt(s, i)[j] == s[if j < i then j else j + 1]
  {
  }

  lemma StaysUnless(s: seq<Item>, i: nat, x: Item)
    requires DistinctKeys(s) && i < |s|
    ensures x in RemoveAt(s, i) <==> x in s && x.key != s[i].key
  {
    RemoveAtPositions(s, i);
    if x in s && x.key != s[i].key {
      var j :| 0 <= j < |s| && s[j] == x;
      assert RemoveAt(s, i)[if j < i then j else j - 1] == x;
    }
  }

  /** What a list without one position still holds. */
  lemma RemoveAtExact(s: seq<Item>, i: nat)
    requires DistinctKeys(s) && i < |s|
    ensures DistinctKeys(RemoveAt(s, i)) && |RemoveAt(s, i)| == |s| - 1
    ensures forall x :: x in RemoveAt(s, i) <==> x in s && x.key != s[i].key
  {
    RemoveAtPositions(s, i);
    forall x ensures x in RemoveAt(s, i) <==> x in s && x.key != s[i].key {
      StaysUnless(s, i, x);
    }
  }

  lemma {:induction false} WithoutLayerExact(s: seq<Item>, l: string)
    requires DistinctKeys(s)
    ensures DistinctKeys(WithoutLayer(s, l)) && |WithoutLayer(s, l)| <= |s|
    ensures forall x :: x in WithoutLayer(s, l) <==> x in s && x.key.layer != l
  {
    if s != [] {
      var init, last := s[..|s| - 1], s[|s| - 1];
      WithoutLayerExact(init, l);
      assert s == init + [last];
    }
  }

  lemma HasItem(s: seq<Item>, k: Key)
    requires DistinctKeys(s)
    ensures Has(s, k) <==> exists x :: x in s && x.key == k
    ensures Has(s, k) ==> Item(k, ValueOf(s, k)) in s
    ensures forall x :: x in s && x.key == k ==> Has(s, k) && ValueOf(s, k) == x.hash
  {
    if Has(s, k) {
      assert s[IndexOf(s, k)].key == k;
    }
    forall x | x in s && x.key == k ensures Has(s, k) && ValueOf(s, k) == x.hash {
      var i :| 0 <= i < |s| && s[i] == x;
      assert s[i].key == k;
    }
  }

  predicate ShardOk(s: seq<Item>, cap: nat, calls: seq<Call>) {
    && DistinctKeys(s) && |s| <= cap
    && (forall x :: x in s ==> Latest(calls, x.key) == Some(x.hash))
  }

  lemma FrontOk(s: seq<Item>, k: Key, h: Hash)
    requires DistinctKeys(s) && !Has(s, k)
    ensures DistinctKeys([Item(k, h)] + s)
    ensures forall x :: x in [Item(k, h)] + s <==> x == Item(k, h) || x in s
  {
    forall i | 0 <= i < |s| ensures s[i].key != k {
    }
  }

  /** What a front item and the rest say of the calls. */
  lemma FrontShardOk(s: seq<Item>, cap: nat, init: seq<Call>, c: Call, rest: seq<Item>, k: Key, h: Hash)
    requires ShardOk(s, cap, init) && DistinctKeys(rest) && |rest| < cap && !Has(rest, k)
    requires forall x :: x in rest ==> x in s
    requires Latest(init + [c], k) == Some(h) && forall j :: j != k ==> Latest(init + [c], j) == Latest(init, j)
    ensures ShardOk([Item(k, h)] + rest, cap, init + [c])
  {
    FrontOk(rest, k, h);
    HasItem(rest, k);
  }

  lemma GetOk(s: seq<Item>, cap: nat, init: seq<Call>, k: Key)
    requires ShardOk(s, cap, init) && Has(s, k)
    ensures ShardOk(AfterGet(s, k), cap, init + [Get(k)])
  {
    assert (init + [Get(k)])[..|init|] == init;
    HasItem(s, k);
    RemoveAtExact(s, IndexOf(s, k));
    HasItem(Removed(s, k), k);
    FrontShardOk(s, cap, init, Get(k), Removed(s, k), k, ValueOf(s, k));
  }

  lemma SetOk(s: seq<Item>, cap: nat, init: seq<Call>, k: Key, h: Hash)
    requires cap >= 1 && ShardOk(s, cap, init)
    ensures ShardOk(AfterSet(s, cap, k, h), cap, init + [Set(k, h)])
  {
    assert (init + [Set(k, h)])[..|init|] == init;
    if Has(s, k) {
      RemoveAtExact(s, IndexOf(s, k));
      HasItem(Removed(s, k), k);
      FrontShardOk(s, cap, init, Set(k, h), Removed(s, k), k, h);
    } else {
      var rest := if |s| >= cap && s != [] then s[..|s| - 1] else s;
      forall i | 0 <= i < |rest| ensures rest[i].key != k {
        assert rest[i] == s[i];
      }
      FrontShardOk(s, cap, init, Set(k, h), rest, k, h);
    }
  }

  lemma DeleteOk(s: seq<Item>, cap: nat, init: seq<Call>, k: Key)
    requires ShardOk(s, cap, init)
    ensures ShardOk(Removed(s, k), cap, init + [Delete(k)])
  {
    assert (init + [Delete(k)])[..|init|] == init;
    HasItem(s, k);
    if Has(s, k) {
      RemoveAtExact(s, IndexOf(s, k));
    }
  }

  lemma {:induction false} RunOk(cap: nat, calls: seq<Call>)
    requires cap >= 1
    ensures ShardOk(Run(cap, calls), cap, calls)
  {
    if calls != [] {
      var init, c := calls[..|calls| - 1], calls[|calls| - 1];
      var s := Run(cap, init);
      RunOk(cap, init);
      assert calls == init + [c];
      match c {
        case Get(k) => if Has(s, k) { GetOk(s, cap, init, k); }
        case Set(k, h) => SetOk(s, cap, init, k, h);
        case Delete(k) => DeleteOk(s, cap, init, k);
        case DeleteLayer(l) => WithoutLayerExact(s, l);
      }
    }
  }

  /** A hit is the hash of the latest Set of that key since its last deletion. */
  lemma HitIsLatest(cap: nat, calls: seq<Call>, k: Key)
    requires cap >= 1 && Has(Run(cap, calls), k)
    ensures Latest(calls, k) == Some(ValueOf(Run(cap, calls), k))
  {
    RunOk(cap, calls);
    HasItem(Run(cap, calls), k);
  }
}
