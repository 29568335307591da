/** When a bounded shard may have forgotten a key, and that the sharded cache is as
    good as one shard. */
module LruForgets {
  import opened Collections
  import opened Wrappers
  import opened Lru

  lemma IndexIs(s: seq<Item>, k: Key, i: nat)
    requires DistinctKeys(s) && i < |s| && s[i].key == k
    ensures Has(s, k) && IndexOf(s, k) == i
  {
  }

  lemma PushAhead(s: seq<Item>, j: Key, h: Hash, k: Key)
    requires DistinctKeys(s) && !Has(s, j) && Has(s, k)
    ensures var t := [Item(j, h)] + s; Has(t, k) && Ahead(t, IndexOf(t, k)) == Ahead(s, IndexOf(s, k)) + {j}
  {
    var t, i := [Item(j, h)] + s, IndexOf(s, k);
    FrontOk(s, j, h);
    assert t[i + 1].key == k;
    IndexIs(t, k, i + 1);
    forall x ensures x in Ahead(t, i + 1) <==> x in Ahead(s, i) + {j} {
      if x in Ahead(s, i) {
        var m :| 0 <= m < i && s[m].key == x;
        assert t[m + 1].key == x;
      }
      assert t[0].key == j;
    }
  }

  /** Keys ahead of i' in t are ahead of i in s when every item before i' comes
      from before i. */
  lemma AheadWithin(t: seq<Item>, i': nat, s: seq<Item>, i: nat)
    requires i' <= |t| && i <= |s| && forall m :: 0 <= m < i' ==> t[m] in s[..i]
    ensures Ahead(t, i') <= Ahead(s, i)
  {
    forall x | x in Ahead(t, i') ensures x in Ahead(s, i) {
      var m :| 0 <= m < i' && t[m].key == x;
      var o :| 0 <= o < i && s[..i][o] == t[m];
      assert s[o].key == x;
    }
  }

  lemma RemoveAhead(s: seq<Item>, at: nat, k: Key)
    requires DistinctKeys(s) && at < |s| && s[at].key != k
    ensures Has(RemoveAt(s, at), k) <==> Has(s, k)
    ensures Has(s, k) ==> Ahead(RemoveAt(s, at), IndexOf(RemoveAt(s, at), k)) <= Ahead(s, IndexOf(s, k))
  {
    var t := RemoveAt(s, at);
    RemoveAtExact(s, at);
    HasItem(s, k);
    HasItem(t, k);
    if Has(s, k) {
      RemoveAheadAt(s, at, k, IndexOf(s, k));
    }
  }

  lemma RemoveAheadAt(s: seq<Item>, at: nat, k: Key, i: nat)
    requires DistinctKeys(s) && at < |s| && i < |s| && s[i].key == k && at != i && DistinctKeys(RemoveAt(s, at))
    ensures Has(RemoveAt(s, at), k) && Ahead(RemoveAt(s, at), IndexOf(RemoveAt(s, at), k)) <= Ahead(s, i)
  {
    var t := RemoveAt(s, at);
    var i' := if i < at then i else i - 1;
    assert t[i'] == s[i];
    IndexIs(t, k, i');
    forall m | 0 <= m < i' ensures t[m] in s[..i] {
      assert t[m] == s[..i][if m < at then m else m + 1];
    }
    AheadWithin(t, i', s, i);
  }

  lemma {:induction false} LayerAhead(s: seq<Item>, l: string, k: Key)
    requires DistinctKeys(s) && k.layer != l
    ensures Has(WithoutLayer(s, l), k) <==> Has(s, k)
    ensures Has(s, k) ==> Ahead(WithoutLayer(s, l), IndexOf(WithoutLayer(s, l), k)) <= Ahead(s, IndexOf(s, k))
  {
    WithoutLayerExact(s, l);
    HasItem(s, k);
    HasItem(WithoutLayer(s, l), k);
    if Has(s, k) {
      var n, i := |s| - 1, IndexOf(s, k);
      var t := WithoutLayer(s, l);
      if i == n {
        LayerAheadLast(s, l);
        IndexIs(t, k, |t| - 1);
      } else {
        var init, t' := s[..n], WithoutLayer(s[..n], l);
        IndexIs(init, k, i);
        LayerAhead(init, l, k);
        var i' := IndexOf(t', k);
        assert t[i'] == t'[i'];
        IndexIs(t, k, i');
        AheadWithin(t, i', t', i');
        AheadWithin(init, i, s, i);
      }
    }
  }

  lemma LayerAheadLast(s: seq<Item>, l: string)
    requires DistinctKeys(s) && s != [] && s[|s| - 1].key.layer != l
    ensures var t := WithoutLayer(s, l);
            t != [] && t[|t| - 1] == s[|s| - 1] && Ahead(t, |t| - 1) <= Ahead(s, |s| - 1)
  {
    var init, kept := s[..|s| - 1], WithoutLayer(s[..|s| - 1], l);
    var t := WithoutLayer(s, l);
    WithoutLayerExact(init, l);
    assert t == kept + [s[|s| - 1]];
    forall m | 0 <= m < |t| - 1 ensures t[m] in init {
      assert t[m] == kept[m] && kept[m] in kept;
    }
    AheadWithin(t, |t| - 1, s, |s| - 1);
  }

  /** What is ahead of k was touched since k was; and once k is gone without having
      been deleted, at least cap other keys were. */
  ghost predicate Forgets(cap: nat, s: seq<Item>, calls: seq<Call>, k: Key) {
    && (Has(s, k) ==> Ahead(s, IndexOf(s, k)) <= TouchedSince(cap, calls, k))
    && (Latest(calls, k).Some? && !Has(s, k) ==> |TouchedSince(cap, calls, k)| >= cap)
  }

  /** A key other than k comes to the front of a list in which k is still (or still
      not). */
  lemma FrontForgets(cap: nat, s: seq<Item>, rest: seq<Item>, init: seq<Call>, c: Call, k: Key, j: Key, h: Hash)
    requires Forgets(cap, s, init, k) && j != k && DistinctKeys(rest) && !Has(rest, j)
    requires Has(rest, k) <==> Has(s, k)
    requires Has(s, k) ==> Ahead(rest, IndexOf(rest, k)) <= Ahead(s, IndexOf(s, k))
    requires TouchedSince(cap, init + [c], k) == TouchedSince(cap, init, k) + {j}
    requires Latest(init + [c], k) == Latest(init, k)
    ensures Forgets(cap, [Item(j, h)] + rest, init + [c], k)
  {
    var t := [Item(j, h)] + rest;
    FrontOk(rest, j, h);
    HasItem(rest, k);
    HasItem(t, k);
    if Has(s, k) {
      PushAhead(rest, j, h, k);
    }
    SubsetIsSmaller(TouchedSince(cap, init, k), TouchedSince(cap, init + [c], k));
  }

  /** k was last in a full shard and makes room. */
  lemma EvictForgets(cap: nat, s: seq<Item>, init: seq<Call>, k: Key, j: Key, h: Hash)
    requires cap >= 1 && Forgets(cap, s, init, k) && j != k && DistinctKeys(s) && |s| == cap && !Has(s, j)
    requires s[cap - 1].key == k
    ensures Forgets(cap, [Item(j, h)] + s[..cap - 1], init + [Set(j, h)], k)
  {
    var n, c := cap - 1, Set(j, h);
    assert (init + [c])[..|init|] == init;
    IndexIs(s, k, n);
    AheadSize(s, n);
    HasItem(s, j);
    assert j !in Ahead(s, n);
    SubsetIsSmaller(Ahead(s, n) + {j}, TouchedSince(cap, init + [c], k));
    NotInFront(s, n, j, h, k);
  }

  lemma NotInFront(s: seq<Item>, n: nat, j: Key, h: Hash, k: Key)
    requires DistinctKeys(s) && n < |s| && s[n].key == k && j != k
    ensures !Has([Item(j, h)] + s[..n], k)
  {
    var t := [Item(j, h)] + s[..n];
    assert forall m :: 0 < m < |t| ==> t[m] == s[m - 1];
  }

  lemma UpdateForgets(cap: nat, s: seq<Item>, init: seq<Call>, k: Key, j: Key, h: Hash)
    requires cap >= 1 && Forgets(cap, s, init, k) && j != k && DistinctKeys(s) && |s| <= cap && Has(s, j)
    ensures Forgets(cap, AfterSet(s, cap, j, h), init + [Set(j, h)], k)
  {
    assert (init + [Set(j, h)])[..|init|] == init;
    RemoveAtExact(s, IndexOf(s, j));
    RemoveAhead(s, IndexOf(s, j), k);
    HasItem(Removed(s, j), j);
    FrontForgets(cap, s, Removed(s, j), init, Set(j, h), k, j, h);
  }

  lemma EvictOtherForgets(cap: nat, s: seq<Item>, init: seq<Call>, k: Key, j: Key, h: Hash)
    requires cap >= 1 && Forgets(cap, s, init, k) && j != k && DistinctKeys(s) && !Has(s, j)
    requires |s| == cap && s[cap - 1].key != k
    ensures Forgets(cap, AfterSet(s, cap, j, h), init + [Set(j, h)], k)
  {
    var n := cap - 1;
    assert (init + [Set(j, h)])[..|init|] == init;
    assert s[..n] == RemoveAt(s, n);
    HasItem(s, j);
    HasItem(s[..n], j);
    RemoveAhead(s, n, k);
    FrontForgets(cap, s, s[..n], init, Set(j, h), k, j, h);
  }

  lemma SetForgets(cap: nat, s: seq<Item>, init: seq<Call>, k: Key, j: Key, h: Hash)
    requires cap >= 1 && Forgets(cap, s, init, k) && j != k && DistinctKeys(s) && |s| <= cap
    ensures Forgets(cap, AfterSet(s, cap, j, h), init + [Set(j, h)], k)
  {
    assert (init + [Set(j, h)])[..|init|] == init;
    if Has(s, j) {
      UpdateForgets(cap, s, init, k, j, h);
    } else if |s| < cap {
      FrontForgets(cap, s, s, init, Set(j, h), k, j, h);
    } else if s[cap - 1].key == k {
      EvictForgets(cap, s, init, k, j, h);
    } else {
      EvictOtherForgets(cap, s, init, k, j, h);
    }
  }

  lemma CallForgets(cap: nat, init: seq<Call>, c: Call, k: Key)
    requires cap >= 1 && Forgets(cap, Run(cap, init), init, k)
    ensures Forgets(cap, Run(cap, init + [c]), init + [c], k)
  {
    var s := Run(cap, init);
    assert (init + [c])[..|init|] == init;
    RunOk(cap, init);
    RunOk(cap, init + [c]);
    match c {
      case Get(j) =>
        if Has(s, j) {
          if j == k {
            IndexIs(Run(cap, init + [c]), k, 0);
          } else {
            RemoveAtExact(s, IndexOf(s, j));
            RemoveAhead(s, IndexOf(s, j), k);
            HasItem(Removed(s, j), j);
            FrontForgets(cap, s, Removed(s, j), init, c, k, j, ValueOf(s, j));
          }
        }
      case Set(j, h) =>
        if j == k {
          IndexIs(Run(cap, init + [c]), k, 0);
        } else {
          SetForgets(cap, s, init, k, j, h);
        }
      case Delete(j) =>
        if Has(s, j) {
          if j == k {
            RemoveAtExact(s, IndexOf(s, j));
            HasItem(Removed(s, j), k);
          } else {
            RemoveAhead(s, IndexOf(s, j), k);
          }
        }
      case DeleteLayer(l) =>
        if k.layer == l {
          WithoutLayerExact(s, l);
          HasItem(WithoutLayer(s, l), k);
        } else {
          LayerAhead(s, l, k);
        }
    }
  }

  lemma {:induction false} RunForgets(cap: nat, calls: seq<Call>, k: Key)
    requires cap >= 1
    ensures Forgets(cap, Run(cap, calls), calls, k)
  {
    if calls == [] {
      assert Latest(calls, k).None?;
    } else {
      var init, c := calls[..|calls| - 1], calls[|calls| - 1];
      assert calls == init + [c];
      RunForgets(cap, init, k);
      CallForgets(cap, init, c, k);
    }
  }

  /** A shard forgets a key that was not deleted only after at least cap distinct
      other keys were set or hit since that key last was. */
  lemma LostOnlyAfterManyOthers(cap: nat, calls: seq<Call>, k: Key)
    requires cap >= 1 && Latest(calls, k).Some? && !Has(Run(cap, calls), k)
    ensures k !in TouchedSince(cap, calls, k) && |TouchedSince(cap, calls, k)| >= cap
  {
    RunForgets(cap, calls, k);
    NotItself(cap, calls, k);
  }

  lemma {:induction false} NotItself(cap: nat, calls: seq<Call>, k: Key)
    ensures k !in TouchedSince(cap, calls, k)
  {
    if calls != [] {
      NotItself(cap, calls[..|calls| - 1], k);
    }
  }

  /* ---- without deletions ---- */

  predicate NoDeletions(calls: seq<Call>) {
    forall i :: 0 <= i < |calls| ==> calls[i].Get? || calls[i].Set?
  }

  /** j was used more recently than k. */
  predicate Precedes(s: seq<Item>, j: Key, k: Key) {
    exists a, b :: 0 <= a < b < |s| && s[a].key == j && s[b].key == k
  }

  lemma FrontPrecedes(rest: seq<Item>, x: Key, h: Hash, j: Key, k: Key)
    requires (j == x && Has(rest, k)) || Precedes(rest, j, k)
    ensures Precedes([Item(x, h)] + rest, j, k)
  {
    var t := [Item(x, h)] + rest;
    if j == x && Has(rest, k) {
      var b :| 0 <= b < |rest| && rest[b].key == k;
      assert t[0].key == j && t[b + 1].key == k;
    } else {
      var a, b :| 0 <= a < b < |rest| && rest[a].key == j && rest[b].key == k;
      assert t[a + 1].key == j && t[b + 1].key == k;
    }
  }

  lemma RemovePrecedes(s: seq<Item>, at: nat, j: Key, k: Key)
    requires at < |s| && s[at].key != j && s[at].key != k && Precedes(s, j, k)
    ensures Precedes(RemoveAt(s, at), j, k)
  {
    var a, b :| 0 <= a < b < |s| && s[a].key == j && s[b].key == k;
    var t := RemoveAt(s, at);
    var a', b' := if a < at then a else a - 1, if b < at then b else b - 1;
    assert t[a'].key == j && t[b'].key == k;
  }

  lemma CutPrecedes(s: seq<Item>, j: Key, k: Key)
    requires DistinctKeys(s) && s != [] && Precedes(s, j, k) && Has(s[..|s| - 1], k)
    ensures Precedes(s[..|s| - 1], j, k)
  {
    var n := |s| - 1;
    var a, b :| 0 <= a < b < |s| && s[a].key == j && s[b].key == k;
    var i :| 0 <= i < n && s[..n][i].key == k;
    assert i == b;
    assert s[..n][a].key == j && s[..n][b].key == k;
  }

  /** Every key used since k was is ahead of it. */
  ghost predicate AllAhead(cap: nat, s: seq<Item>, calls: seq<Call>, k: Key) {
    Has(s, k) ==> forall j :: j in TouchedSince(cap, calls, k) ==> Precedes(s, j, k)
  }

  /** x, not k, comes to the front of what is kept. */
  lemma FrontAhead(cap: nat, s: seq<Item>, rest: seq<Item>, init: seq<Call>, c: Call, k: Key, x: Key, h: Hash)
    requires AllAhead(cap, s, init, k) && x != k
    requires TouchedSince(cap, init + [c], k) == TouchedSince(cap, init, k) + {x}
    requires Has(rest, k) ==> Has(s, k)
    requires forall j :: Has(rest, k) && j != x && Precedes(s, j, k) ==> Precedes(rest, j, k)
    ensures AllAhead(cap, [Item(x, h)] + rest, init + [c], k)
  {
    var t := [Item(x, h)] + rest;
    if Has(t, k) {
      var i :| 0 <= i < |t| && t[i].key == k;
      assert rest[i - 1].key == k;
      forall j | j in TouchedSince(cap, init + [c], k) ensures Precedes(t, j, k) {
        FrontPrecedes(rest, x, h, j, k);
      }
    }
  }

  /** An item other than k is moved from its place to the front. */
  lemma MoveAhead(cap: nat, s: seq<Item>, init: seq<Call>, c: Call, k: Key, x: Key, h: Hash)
    requires AllAhead(cap, s, init, k) && x != k && DistinctKeys(s) && Has(s, x)
    requires TouchedSince(cap, init + [c], k) == TouchedSince(cap, init, k) + {x}
    ensures AllAhead(cap, [Item(x, h)] + Removed(s, x), init + [c], k)
  {
    var at := IndexOf(s, x);
    RemoveAtExact(s, at);
    HasItem(s, k);
    HasItem(Removed(s, x), k);
    forall j | Has(Removed(s, x), k) && j != x && Precedes(s, j, k) ensures Precedes(Removed(s, x), j, k) {
      RemovePrecedes(s, at, j, k);
    }
    FrontAhead(cap, s, Removed(s, x), init, c, k, x, h);
  }

  /** A new key comes to the front, in a full shard at the cost of the last item. */
  lemma PushedAhead(cap: nat, s: seq<Item>, init: seq<Call>, c: Call, k: Key, x: Key, h: Hash)
    requires cap >= 1 && AllAhead(cap, s, init, k) && x != k && DistinctKeys(s) && |s| <= cap && !Has(s, x)
    requires TouchedSince(cap, init + [c], k) == TouchedSince(cap, init, k) + {x}
    ensures AllAhead(cap, AfterSet(s, cap, x, h), init + [c], k)
  {
    if |s| < cap {
      FrontAhead(cap, s, s, init, c, k, x, h);
    } else {
      var rest := s[..|s| - 1];
      if i :| 0 <= i < |rest| && rest[i].key == k {
        assert s[i].key == k;
      }
      forall j | Has(rest, k) && j != x && Precedes(s, j, k) ensures Precedes(rest, j, k) {
        CutPrecedes(s, j, k);
      }
      FrontAhead(cap, s, rest, init, c, k, x, h);
    }
  }

  lemma {:induction false} RunAllAhead(cap: nat, calls: seq<Call>, k: Key)
    requires cap >= 1 && NoDeletions(calls)
    ensures AllAhead(cap, Run(cap, calls), calls, k)
  {
    if calls != [] {
      var init, c := calls[..|calls| - 1], calls[|calls| - 1];
      var s := Run(cap, init);
      assert calls == init + [c];
      RunAllAhead(cap, init, k);
      RunOk(cap, init);
      match c {
        case Get(j) =>
          if Has(s, j) && j != k { MoveAhead(cap, s, init, c, k, j, ValueOf(s, j)); }
        case Set(j, h) =>
          if j != k {
            if Has(s, j) {
              MoveAhead(cap, s, init, c, k, j, h);
            } else {
              PushedAhead(cap, s, init, c, k, j, h);
            }
          }
      }
    }
  }

  /** As long as nothing is deleted, a key that was set is still there if and only if
      fewer than cap other keys were set or hit since it last was. */
  lemma PresentIff(cap: nat, calls: seq<Call>, k: Key)
    requires cap >= 1 && NoDeletions(calls) && Latest(calls, k).Some?
    ensures Has(Run(cap, calls), k) <==> |TouchedSince(cap, calls, k)| < cap
  {
    var s := Run(cap, calls);
    if Has(s, k) {
      RunAllAhead(cap, calls, k);
      RunOk(cap, calls);
      var i := IndexOf(s, k);
      forall j | j in TouchedSince(cap, calls, k) ensures j in Ahead(s, i) {
        var a, b :| 0 <= a < b < |s| && s[a].key == j && s[b].key == k;
        assert b == i;
      }
      AheadSize(s, i);
      SubsetIsSmaller(TouchedSince(cap, calls, k), Ahead(s, i));
    } else {
      LostOnlyAfterManyOthers(cap, calls, k);
    }
  }

  /* ---- many shards ---- */

  predicate Concerns(c: Call, shardOf: Key -> nat, shard: nat) {
    match c
    case Get(k) => shardOf(k) == shard
    case Set(k, _) => shardOf(k) == shard
    case Delete(k) => shardOf(k) == shard
    case DeleteLayer(_) => true
  }

  /** The calls that reach one shard: those for its keys, and every DeleteLayer. */
  function Routed(calls: seq<Call>, shardOf: Key -> nat, shard: nat): seq<Call> {
    if calls == [] then []
    else
      var before := Routed(calls[..|calls| - 1], shardOf, shard);
      if Concerns(calls[|calls| - 1], shardOf, shard) then before + [calls[|calls| - 1]] else before
  }

  lemma {:induction false} RoutedLatest(calls: seq<Call>, shardOf: Key -> nat, k: Key)
    ensures Latest(Routed(calls, shardOf, shardOf(k)), k) == Latest(calls, k)
  {
    if calls != [] {
      var init, c := calls[..|calls| - 1], calls[|calls| - 1];
      RoutedLatest(init, shardOf, k);
      var before := Routed(init, shardOf, shardOf(k));
      assert (before + [c])[..|before|] == before;
    }
  }

  /** However keys are spread over shards, a hit of the sharded cache is the latest
      Set of the key among all calls, since its last deletion. */
  lemma ShardedHitIsLatest(cap: nat, calls: seq<Call>, shardOf: Key -> nat, k: Key)
    requires cap >= 1 && Has(Run(cap, Routed(calls, shardOf, shardOf(k))), k)
    ensures Latest(calls, k) == Some(ValueOf(Run(cap, Routed(calls, shardOf, shardOf(k))), k))
  {
    HitIsLatest(cap, Routed(calls, shardOf, shardOf(k)), k);
    RoutedLatest(calls, shardOf, k);
  }
}
