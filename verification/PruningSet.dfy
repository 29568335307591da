/** The prefix-aware set of removals: entries added under a collapsed directory are
    refused, and a collapsed directory prunes what lies under it. */
module PruningSet {
  import opened PathText

  datatype ExclusivePath = ExclusivePath(path: string, isDir: bool, collapsed: bool)

  /** Some collapsed entry is the path or an ancestor of it. */
  predicate CoveredBy(es: seq<ExclusivePath>, path: string) {
    exists i :: 0 <= i < |es| && es[i].collapsed && IsPathUnder(path, es[i].path)
  }

  /** The entries that are not at or under a path. */
  function Outside(es: seq<ExclusivePath>, path: string): seq<ExclusivePath> {
    if es == [] then []
    else
      var init := Outside(es[..|es| - 1], path);
      if IsPathUnder(es[|es| - 1].path, path) then init else init + [es[|es| - 1]]
  }

  function Added(es: seq<ExclusivePath>, ep: ExclusivePath): seq<ExclusivePath> {
    if CoveredBy(es, ep.path) then es
    else if ep.collapsed then Outside(es, ep.path) + [ep]
    else es + [ep]
  }

  class Set {
    var entries: seq<ExclusivePath>

    constructor ()
      ensures entries == []
    {
      entries := [];
    }

    method Covered(path: string) returns (r: bool)
      ensures r <==> CoveredBy(entries, path)
    {
      for i := 0 to |entries|
        invariant !CoveredBy(entries[..i], path)
      {
        if entries[i].collapsed && IsPathUnder(path, entries[i].path) {
          return true;
        }
        assert entries[..i + 1] == entries[..i] + [entries[i]];
      }
      assert entries[..|entries|] == entries;
      return false;
    }

    /** The accepted flag tells whether ep was not yet covered; the entries are
        compacted in place. */
    method Add(ep: ExclusivePath) returns (accepted: bool)
      modifies this
      ensures accepted <==> !CoveredBy(old(entries), ep.path)
      ensures entries == Added(old(entries), ep)
    {
      var refused := Covered(ep.path);
      if refused {
        return false;
      }
      if ep.collapsed {
        ghost var before := entries;
        var n := 0;
        for i := 0 to |entries|
          invariant 0 <= n <= i <= |entries| == |before|
          invariant entries[..n] == Outside(before[..i], ep.path)
          invariant entries[i..] == before[i..]
        {
          assert before[..i + 1][..i] == before[..i] && entries[i] == before[i];
          if !IsPathUnder(entries[i].path, ep.path) {
            entries := entries[n := entries[i]];
            n := n + 1;
          }
        }
        assert before[..|before|] == before;
        entries := entries[..n] + [ep];
      } else {
        entries := entries + [ep];
      }
      return true;
    }

    /** Empties the set and hands over what was in it. */
    method Drain() returns (snapshot: seq<ExclusivePath>)
      modifies this
      ensures snapshot == old(entries) && entries == []
    {
      snapshot := entries;
      entries := [];
    }

    method Reset()
      modifies this
      ensures entries == []
    {
      entries := entries[..0];
    }
  }

  /* ---- what the set means ---- */

  predicate Removes(e: ExclusivePath, path: string) {
    if e.collapsed then IsPathUnder(path, e.path) else path == e.path
  }

  /** What removing every entry removes. */
  predicate Removed(es: seq<ExclusivePath>, path: string) {
    exists i :: 0 <= i < |es| && Removes(es[i], path)
  }

  /** No entry lies under a different collapsed entry. */
  predicate NoOverlap(es: seq<ExclusivePath>) {
    forall i, j :: 0 <= i < |es| && 0 <= j < |es| && i != j && es[j].collapsed ==> !IsPathUnder(es[i].path, es[j].path)
  }

  lemma {:induction false} OutsideExact(es: seq<ExclusivePath>, path: string, e: ExclusivePath)
    ensures e in Outside(es, path) <==> e in es && !IsPathUnder(e.path, path)
  {
    if es != [] {
      OutsideExact(es[..|es| - 1], path, e);
      assert es == es[..|es| - 1] + [es[|es| - 1]];
    }
  }

  lemma {:induction false} OutsideKeepsNoOverlap(es: seq<ExclusivePath>, path: string)
    requires NoOverlap(es)
    ensures NoOverlap(Outside(es, path))
  {
    if es != [] {
      var n := |es| - 1;
      var init := Outside(es[..n], path);
      OutsideKeepsNoOverlap(es[..n], path);
      forall i | 0 <= i < |init| ensures init[i] in es[..n] {
        OutsideExact(es[..n], path, init[i]);
      }
    }
  }

  lemma AddKeepsNoOverlap(es: seq<ExclusivePath>, ep: ExclusivePath)
    requires NoOverlap(es)
    ensures NoOverlap(Added(es, ep))
  {
    if !CoveredBy(es, ep.path) && ep.collapsed {
      var kept := Outside(es, ep.path);
      OutsideKeepsNoOverlap(es, ep.path);
      forall i | 0 <= i < |kept| ensures kept[i] in es && !IsPathUnder(kept[i].path, ep.path) {
        OutsideExact(es, ep.path, kept[i]);
      }
    }
  }

  /** Adding adds exactly what the entry removes, accepted or not. */
  lemma AddAddsRemoval(es: seq<ExclusivePath>, ep: ExclusivePath, path: string)
    ensures Removed(Added(es, ep), path) <==> Removed(es, path) || Removes(ep, path)
  {
    if CoveredBy(es, ep.path) {
      var j :| 0 <= j < |es| && es[j].collapsed && IsPathUnder(ep.path, es[j].path);
      if Removes(ep, path) {
        UnderTransitive(path, ep.path, es[j].path);
        assert Removes(es[j], path);
      }
    } else if ep.collapsed {
      var kept := Outside(es, ep.path);
      if i :| 0 <= i < |es| && Removes(es[i], path) {
        OutsideExact(es, ep.path, es[i]);
        if IsPathUnder(es[i].path, ep.path) {
          UnderTransitive(path, es[i].path, ep.path);
          assert (kept + [ep])[|kept|] == ep;
        } else {
          var k :| 0 <= k < |kept| && kept[k] == es[i];
          assert (kept + [ep])[k] == es[i];
        }
      }
      if k :| 0 <= k < |kept| && Removes(kept[k], path) {
        OutsideExact(es, ep.path, kept[k]);
      }
      assert (kept + [ep])[|kept|] == ep;
    } else {
      assert (es + [ep])[|es|] == ep;
      if i :| 0 <= i < |es| && Removes(es[i], path) {
        assert (es + [ep])[i] == es[i];
      }
    }
  }

  /** Covered sees every collapsed path ever added, pruned ones included. */
  lemma AddAddsCoverage(es: seq<ExclusivePath>, ep: ExclusivePath, path: string)
    ensures CoveredBy(Added(es, ep), path) <==> CoveredBy(es, path) || (ep.collapsed && IsPathUnder(path, ep.path))
  {
    if CoveredBy(es, ep.path) {
      var j :| 0 <= j < |es| && es[j].collapsed && IsPathUnder(ep.path, es[j].path);
      if IsPathUnder(path, ep.path) {
        UnderTransitive(path, ep.path, es[j].path);
      }
    } else if ep.collapsed {
      var kept := Outside(es, ep.path);
      if i :| 0 <= i < |es| && es[i].collapsed && IsPathUnder(path, es[i].path) {
        OutsideExact(es, ep.path, es[i]);
        if IsPathUnder(es[i].path, ep.path) {
          UnderTransitive(path, es[i].path, ep.path);
          assert (kept + [ep])[|kept|] == ep;
        } else {
          var k :| 0 <= k < |kept| && kept[k] == es[i];
          assert (kept + [ep])[k] == es[i];
        }
      }
      if k :| 0 <= k < |kept| && kept[k].collapsed && IsPathUnder(path, kept[k].path) {
        OutsideExact(es, ep.path, kept[k]);
      }
      assert (kept + [ep])[|kept|] == ep;
    } else if i :| 0 <= i < |es| && es[i].collapsed && IsPathUnder(path, es[i].path) {
      assert (es + [ep])[i] == es[i];
    }
  }

  /** The set after a sequence of Adds since it was last empty. */
  function AddAll(eps: seq<ExclusivePath>): seq<ExclusivePath> {
    if eps == [] then [] else Added(AddAll(eps[..|eps| - 1]), eps[|eps| - 1])
  }

  /** With one more entry, its share is added. */
  lemma OneMore(es: seq<ExclusivePath>, e: ExclusivePath, path: string)
    ensures Removed(es + [e], path) <==> Removed(es, path) || Removes(e, path)
    ensures CoveredBy(es + [e], path) <==> CoveredBy(es, path) || (e.collapsed && IsPathUnder(path, e.path))
  {
    var more := es + [e];
    assert more[|es|] == e;
    if i :| 0 <= i < |es| && Removes(es[i], path) {
      assert more[i] == es[i];
    }
    if i :| 0 <= i < |es| && es[i].collapsed && IsPathUnder(path, es[i].path) {
      assert more[i] == es[i];
    }
  }

  /** Whatever was added in whatever order: no entry lies under a different collapsed
      one, the set removes the union of what was added, a path is covered exactly when a
      collapsed path at or above it was added, and every entry is one that was added. */
  lemma {:induction false} AddsAreExact(eps: seq<ExclusivePath>, path: string)
    ensures NoOverlap(AddAll(eps))
    ensures Removed(AddAll(eps), path) <==> Removed(eps, path)
    ensures CoveredBy(AddAll(eps), path) <==> CoveredBy(eps, path)
    ensures forall e :: e in AddAll(eps) ==> e in eps
  {
    if eps != [] {
      var init, last := eps[..|eps| - 1], eps[|eps| - 1];
      AddsAreExact(init, path);
      AddKeepsNoOverlap(AddAll(init), last);
      AddAddsRemoval(AddAll(init), last, path);
      AddAddsCoverage(AddAll(init), last, path);
      assert eps == init + [last];
      OneMore(init, last, path);
      forall e | e in AddAll(eps) ensures e in eps {
        OutsideExact(AddAll(init), last.path, e);
      }
    }
  }

  /** Every Add of the sequence is accepted. */
  predicate AllAccepted(eps: seq<ExclusivePath>) {
    eps == [] ||
    (AllAccepted(eps[..|eps| - 1]) && !CoveredBy(AddAll(eps[..|eps| - 1]), eps[|eps| - 1].path))
  }

  /** A further path that is unrelated to all earlier ones is accepted and prunes
      nothing. */
  lemma UnrelatedAccepted(es: seq<ExclusivePath>, ep: ExclusivePath)
    requires forall e :: e in es ==> !IsPathUnder(e.path, ep.path) && !IsPathUnder(ep.path, e.path)
    ensures !CoveredBy(es, ep.path) && Added(es, ep) == es + [ep]
  {
    OutsideAll(es, ep.path);
  }

  lemma {:induction false} OutsideAll(es: seq<ExclusivePath>, path: string)
    requires forall i :: 0 <= i < |es| ==> !IsPathUnder(es[i].path, path)
    ensures Outside(es, path) == es
  {
    if es != [] {
      OutsideAll(es[..|es| - 1], path);
      assert es == es[..|es| - 1] + [es[|es| - 1]];
    }
  }

  /* ---- the documented minimality ---- */

  predicate DistinctPaths(es: seq<ExclusivePath>) {
    forall i, j :: 0 <= i < j < |es| ==> es[i].path != es[j].path
  }

  /** The set is documented as the minimum collection of paths to remove. It is not
      when the same leaf is added twice. */
  lemma SameLeafTwice()
    ensures var leaf := ExclusivePath("a", false, false);
            AddAll([leaf, leaf]) == [leaf, leaf] && !DistinctPaths(AddAll([leaf, leaf]))
  {
    var leaf := ExclusivePath("a", false, false);
    assert [leaf, leaf][..1] == [leaf] && [leaf][..0] == [];
    assert AddAll([leaf]) == [] + [leaf];
    assert AddAll([leaf, leaf]) == [leaf] + [leaf];
  }

  /** Exactly then: an Add keeps the paths of the set distinct if and only if it is
      not an accepted leaf whose path is in the set already. */
  lemma AddKeepsDistinctIff(es: seq<ExclusivePath>, ep: ExclusivePath)
    requires DistinctPaths(es)
    ensures DistinctPaths(Added(es, ep)) <==>
            CoveredBy(es, ep.path) || ep.collapsed || forall e :: e in es ==> e.path != ep.path
  {
    var t := Added(es, ep);
    if !CoveredBy(es, ep.path) {
      if ep.collapsed {
        OutsideKeepsDistinct(es, ep.path);
        var kept := Outside(es, ep.path);
        forall i | 0 <= i < |kept| ensures kept[i].path != ep.path {
          OutsideExact(es, ep.path, kept[i]);
        }
      } else if i :| 0 <= i < |es| && es[i].path == ep.path {
        assert t[i].path == t[|es|].path;
      }
    }
  }

  lemma {:induction false} OutsideKeepsDistinct(es: seq<ExclusivePath>, path: string)
    requires DistinctPaths(es)
    ensures DistinctPaths(Outside(es, path))
  {
    if es != [] {
      var n := |es| - 1;
      var init := Outside(es[..n], path);
      OutsideKeepsDistinct(es[..n], path);
      forall i | 0 <= i < |init| ensures init[i] in es[..n] {
        OutsideExact(es[..n], path, init[i]);
      }
    }
  }
}
