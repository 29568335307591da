/** When the pruning set is what it is documented to be: the minimum collection of paths
    that removes what was added. */
module PruningMinimum {
  import opened Collections
  import opened PathText
  import opened PruningSet

  ghost predicate SameRemoval(a: seq<ExclusivePath>, b: seq<ExclusivePath>) {
    forall path :: Removed(a, path) <==> Removed(b, path)
  }

  /** No smaller collection removes the same paths. */
  ghost predicate Minimum(es: seq<ExclusivePath>) {
    forall other :: SameRemoval(es, other) ==> |es| <= |other|
  }

  /* ---- a fresh path below a path ---- */

  function Longest(es: seq<ExclusivePath>): (n: nat)
    ensures forall i :: 0 <= i < |es| ==> |es[i].path| <= n
  {
    if es == [] then 0
    else
      var rest := Longest(es[..|es| - 1]);
      if |es[|es| - 1].path| > rest then |es[|es| - 1].path| else rest
  }

  /** A name without a slash, longer than every path of the collection. */
  function LongName(es: seq<ExclusivePath>): (w: string)
    ensures |w| > Longest(es) && '/' !in w
  {
    seq(Longest(es) + 1, _ => 'x')
  }

  /** What has a long name under q at or below it has q at or below it. */
  lemma AboveFresh(q: string, w: string, c: string)
    requires '/' !in w && |c| < |w| && IsPathUnder(q + "/" + w, c)
    ensures IsPathUnder(q, c)
  {
    var z := q + "/" + w;
    assert c + "/" <= z;
    assert z[|c|] == '/';
    assert forall k :: |q| < k < |z| ==> z[k] == w[k - |q| - 1];
    assert |c| <= |q|;
    assert c + "/" == z[..|c| + 1] == (q + "/")[..|c| + 1];
    WithSlash(q, c);
  }

  /** An entry of any collection with the same effect accounts for at most one entry of
      a set without overlap and repeats. */
  lemma OneEach(es: seq<ExclusivePath>, other: seq<ExclusivePath>, j: nat, i: nat, k: nat)
    requires NoOverlap(es) && DistinctPaths(es) && SameRemoval(es, other)
    requires j < |other| && i < |es| && k < |es|
    requires Removes(other[j], es[i].path) && Removes(other[j], es[k].path)
    ensures i == k
  {
    if other[j].collapsed {
      var q, w := other[j].path, LongName(es);
      var z := q + "/" + w;
      assert HasPrefix(z, q + "/");
      assert Removes(other[j], z) && Removed(es, z);
      var m :| 0 <= m < |es| && Removes(es[m], z);
      AboveFresh(q, w, es[m].path);
      UnderTransitive(es[i].path, q, es[m].path);
      UnderTransitive(es[k].path, q, es[m].path);
    }
  }

  /* ---- counting ---- */

  ghost function Holder(other: seq<ExclusivePath>, path: string): (j: nat)
    requires Removed(other, path)
    ensures j < |other| && Removes(other[j], path)
  {
    var j :| 0 <= j < |other| && Removes(other[j], path);
    j
  }

  ghost function Holders(es: seq<ExclusivePath>, other: seq<ExclusivePath>, n: nat): set<nat>
    requires SameRemoval(es, other) && n <= |es|
  {
    if n == 0 then {}
    else
      assert Removes(es[n - 1], es[n - 1].path);
      Holders(es, other, n - 1) + {Holder(other, es[n - 1].path)}
  }

  lemma {:induction false} HoldersFrom(es: seq<ExclusivePath>, other: seq<ExclusivePath>, n: nat, j: nat)
    requires SameRemoval(es, other) && n <= |es| && j in Holders(es, other, n)
    ensures exists i :: 0 <= i < n && j < |other| && Removes(other[j], es[i].path)
  {
    assert Removes(es[n - 1], es[n - 1].path);
    if j == Holder(other, es[n - 1].path) {
      assert Removes(other[j], es[n - 1].path);
    } else {
      HoldersFrom(es, other, n - 1, j);
    }
  }

  lemma {:induction false} HoldersDiffer(es: seq<ExclusivePath>, other: seq<ExclusivePath>, n: nat)
    requires NoOverlap(es) && DistinctPaths(es) && SameRemoval(es, other) && n <= |es|
    ensures |Holders(es, other, n)| == n
  {
    if n > 0 {
      HoldersDiffer(es, other, n - 1);
      assert Removes(es[n - 1], es[n - 1].path);
      var j := Holder(other, es[n - 1].path);
      if j in Holders(es, other, n - 1) {
        HoldersFrom(es, other, n - 1, j);
        var i :| 0 <= i < n - 1 && Removes(other[j], es[i].path);
        OneEach(es, other, j, i, n - 1);
      }
    }
  }

  function Below(n: nat): (s: set<nat>)
    ensures (forall j: nat :: j in s <==> j < n) && |s| == n
  {
    if n == 0 then {}
    else
      var rest := Below(n - 1);
      assert n - 1 !in rest;
      rest + {n - 1}
  }

  /** Nothing smaller does the same. */
  lemma DistinctIsMinimum(es: seq<ExclusivePath>, other: seq<ExclusivePath>)
    requires NoOverlap(es) && DistinctPaths(es) && SameRemoval(es, other)
    ensures |es| <= |other|
  {
    HoldersDiffer(es, other, |es|);
    forall j | j in Holders(es, other, |es|) ensures j in Below(|other|) {
      HoldersFrom(es, other, |es|, j);
    }
    SubsetIsSmaller(Holders(es, other, |es|), Below(|other|));
  }

  /* ---- otherwise something can be dropped ---- */

  lemma DropRedundant(es: seq<ExclusivePath>, i: nat, k: nat)
    requires i < |es| && k < |es| && i != k && forall path :: Removes(es[i], path) ==> Removes(es[k], path)
    ensures SameRemoval(es, es[..i] + es[i + 1..])
  {
    var rest := es[..i] + es[i + 1..];
    forall path ensures Removed(es, path) <==> Removed(rest, path) {
      if m :| 0 <= m < |es| && Removes(es[m], path) {
        var n := if m == i then k else m;
        assert rest[if n < i then n else n - 1] == es[n];
      }
      if m :| 0 <= m < |rest| && Removes(rest[m], path) {
        assert es[if m < i then m else m + 1] == rest[m];
      }
    }
  }

  lemma Subsumes(e: ExclusivePath, over: ExclusivePath, path: string)
    requires over.collapsed && IsPathUnder(e.path, over.path) && Removes(e, path)
    ensures Removes(over, path)
  {
    if e.collapsed {
      UnderTransitive(path, e.path, over.path);
    }
  }

  lemma OverlapIsRedundant(es: seq<ExclusivePath>, i: nat, k: nat)
    requires i < |es| && k < |es| && i != k && es[k].collapsed && IsPathUnder(es[i].path, es[k].path)
    ensures !Minimum(es)
  {
    forall path | Removes(es[i], path) ensures Removes(es[k], path) {
      Subsumes(es[i], es[k], path);
    }
    DropRedundant(es, i, k);
    assert |es[..i] + es[i + 1..]| < |es|;
  }

  lemma RepeatIsRedundant(es: seq<ExclusivePath>, i: nat, k: nat)
    requires i < k < |es| && es[i].path == es[k].path
    ensures !Minimum(es)
  {
    if es[k].collapsed {
      OverlapIsRedundant(es, i, k);
    } else if es[i].collapsed {
      OverlapIsRedundant(es, k, i);
    } else {
      DropRedundant(es, i, k);
      assert |es[..i] + es[i + 1..]| < |es|;
    }
  }

  /** A collection is minimum exactly when no entry lies under a different collapsed one
      and no path is listed twice. */
  lemma MinimumIff(es: seq<ExclusivePath>)
    ensures Minimum(es) <==> NoOverlap(es) && DistinctPaths(es)
  {
    if NoOverlap(es) && DistinctPaths(es) {
      forall other | SameRemoval(es, other) ensures |es| <= |other| {
        DistinctIsMinimum(es, other);
      }
    } else if !NoOverlap(es) {
      var i, k :| 0 <= i < |es| && 0 <= k < |es| && i != k && es[k].collapsed && IsPathUnder(es[i].path, es[k].path);
      OverlapIsRedundant(es, i, k);
    } else {
      var i, k :| 0 <= i < k < |es| && es[i].path == es[k].path;
      RepeatIsRedundant(es, i, k);
    }
  }

  /* ---- after any Adds ---- */

  /** How often a path is listed. */
  function Listed(es: seq<ExclusivePath>, path: string): nat {
    if es == [] then 0 else Listed(es[..|es| - 1], path) + if es[|es| - 1].path == path then 1 else 0
  }

  lemma {:induction false} ListedOutside(es: seq<ExclusivePath>, top: string, path: string)
    ensures Listed(Outside(es, top), path) == if IsPathUnder(path, top) then 0 else Listed(es, path)
  {
    if es != [] {
      var init, last := Outside(es[..|es| - 1], top), es[|es| - 1];
      ListedOutside(es[..|es| - 1], top, path);
      assert (init + [last])[..|init|] == init;
    }
  }

  lemma ListedMore(es: seq<ExclusivePath>, e: ExclusivePath, path: string)
    ensures Listed(es + [e], path) == Listed(es, path) + if e.path == path then 1 else 0
  {
    assert (es + [e])[..|es|] == es;
  }

  /** A path that no collapsed entry covers is listed as often as it was added, a covered
      one at most once. */
  lemma {:induction false} ListedAfterAdds(eps: seq<ExclusivePath>, path: string)
    ensures !CoveredBy(eps, path) ==> Listed(AddAll(eps), path) == Listed(eps, path)
    ensures CoveredBy(eps, path) ==> Listed(AddAll(eps), path) <= 1
  {
    if eps != [] {
      var init, last := eps[..|eps| - 1], eps[|eps| - 1];
      var before := AddAll(init);
      ListedAfterAdds(init, path);
      assert eps == init + [last];
      ListedMore(init, last, path);
      OneMore(init, last, path);
      AddsAreExact(init, path);
      AddsAreExact(init, last.path);
      ListedOutside(before, last.path, path);
      ListedMore(Outside(before, last.path), last, path);
      ListedMore(before, last, path);
      if CoveredBy(before, last.path) && !CoveredBy(init, path) && last.collapsed && IsPathUnder(path, last.path) {
        CoveredBelow(init, last.path, path);
      }
    }
  }

  lemma CoveredBelow(es: seq<ExclusivePath>, top: string, path: string)
    requires CoveredBy(es, top) && IsPathUnder(path, top)
    ensures CoveredBy(es, path)
  {
    var i :| 0 <= i < |es| && es[i].collapsed && IsPathUnder(top, es[i].path);
    UnderTransitive(path, top, es[i].path);
  }

  lemma {:induction false} ListedTwiceIff(es: seq<ExclusivePath>, path: string)
    ensures Listed(es, path) >= 1 <==> exists i :: 0 <= i < |es| && es[i].path == path
    ensures Listed(es, path) >= 2 <==> exists i, j :: 0 <= i < j < |es| && es[i].path == path && es[j].path == path
  {
    if es != [] {
      var n := |es| - 1;
      var init := es[..n];
      ListedTwiceIff(init, path);
      forall i | 0 <= i < n ensures init[i] == es[i] {
      }
      if Listed(init, path) >= 2 {
        var i, j :| 0 <= i < j < n && init[i].path == path && init[j].path == path;
        assert es[i].path == path && es[j].path == path;
      } else if Listed(es, path) >= 2 {
        var i :| 0 <= i < n && init[i].path == path;
        assert es[i].path == path && es[n].path == path;
      }
      if i, j :| 0 <= i < j < |es| && es[i].path == path && es[j].path == path {
        assert init[i].path == path;
        if j < n { assert init[j].path == path; }
      }
    }
  }

  /** No path was added twice, unless a collapsed path at or above it was added too. */
  predicate NoBareRepeat(eps: seq<ExclusivePath>) {
    forall i, j :: 0 <= i < j < |eps| && eps[i].path == eps[j].path ==> CoveredBy(eps, eps[i].path)
  }

  lemma DistinctAfterAddsIff(eps: seq<ExclusivePath>)
    ensures DistinctPaths(AddAll(eps)) <==> NoBareRepeat(eps)
  {
    var es := AddAll(eps);
    if i, j :| 0 <= i < j < |es| && es[i].path == es[j].path {
      var path := es[i].path;
      ListedTwiceIff(es, path);
      ListedAfterAdds(eps, path);
      ListedTwiceIff(eps, path);
    }
    if i, j :| 0 <= i < j < |eps| && eps[i].path == eps[j].path && !CoveredBy(eps, eps[i].path) {
      var path := eps[i].path;
      ListedTwiceIff(eps, path);
      ListedAfterAdds(eps, path);
      ListedTwiceIff(es, path);
    }
  }

  /** After any Adds the set is the minimum collection for what was added if and only if
      no path was added twice without a collapsed path at or above it. */
  lemma AddsAreMinimumIff(eps: seq<ExclusivePath>)
    ensures Minimum(AddAll(eps)) <==> NoBareRepeat(eps)
  {
    AddsAreExact(eps, "");
    MinimumIff(AddAll(eps));
    DistinctAfterAddsIff(eps);
  }
}
