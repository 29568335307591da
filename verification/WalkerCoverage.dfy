/** Exactly which paths of the lower tree a filtered walk removes. */
module WalkerCoverage {
  import opened Wrappers
  import opened FileTree
  import opened NameOrder
  import opened Walker
  import opened WalkerProperties

  predicate IsDir(n: Node, r: Path) {
    Lookup(n, r).Some? && Lookup(n, r).value.Dir?
  }

  /** The prefix of length j is let through as what it is in the lower tree. */
  predicate Passes(f: Filter, p: Path, l: Node, r: Path, j: nat)
    requires j <= |r|
  {
    f(p + r[..j], IsDir(l, r[..j]))
  }

  /** Every prefix of r from the given length on, r included, is let through. */
  ghost predicate LetThrough(f: Filter, p: Path, l: Node, r: Path, from: nat) {
    forall j :: from <= j <= |r| ==> Passes(f, p, l, r, j)
  }

  /** The walk emits r itself: a directory that faces a non-directory, or an accepted
      path that upper lacks. */
  predicate TakenAt(f: Filter, p: Path, l: Node, u: Node, r: Path) {
    if Lookup(u, r).Some? then IsDir(l, r) && !Lookup(u, r).value.Dir? else f(p + r, false)
  }

  /** Some prefix of r is reached and taken. */
  ghost predicate Reached(f: Filter, p: Path, l: Node, u: Node, r: Path, k: nat) {
    k <= |r| && LetThrough(f, p, l, r[..k], 1) && TakenAt(f, p, l, u, r[..k])
  }

  ghost predicate LoneReached(f: Filter, p: Path, n: Node, r: Path, k: nat) {
    k <= |r| && LetThrough(f, p, n, r[..k], 0) && f(p + r[..k], false)
  }

  lemma PrefixStep(p: Path, n: Node, r: Path, j: nat)
    requires n.Dir? && r != [] && Find(n.entries, r[0]).Some? && 1 <= j <= |r|
    ensures p + r[..j] == (p + [r[0]]) + r[1..][..j - 1]
    ensures Lookup(n, r[..j]) == Lookup(Find(n.entries, r[0]).value, r[1..][..j - 1])
    ensures IsDir(n, r[..j]) == IsDir(Find(n.entries, r[0]).value, r[1..][..j - 1])
  {
    assert r[..j][0] == r[0] && r[..j][1..] == r[1..][..j - 1];
  }

  lemma Prefixes(r: Path, k: nat, j: nat)
    requires j <= k <= |r|
    ensures r[..k][..j] == r[..j]
  {
  }

  lemma LetThroughAt(f: Filter, p: Path, n: Node, r: Path, k: nat, j: nat)
    requires n.Dir? && r != [] && Find(n.entries, r[0]).Some? && 1 <= j <= k <= |r|
    ensures Passes(f, p, n, r[..k], j) == Passes(f, p + [r[0]], Find(n.entries, r[0]).value, r[1..][..k - 1], j - 1)
  {
    Prefixes(r, k, j);
    Prefixes(r[1..], k - 1, j - 1);
    PrefixStep(p, n, r, j);
  }

  /** Being let through below p is being let through below the first component. */
  lemma LetThroughStep(f: Filter, p: Path, n: Node, r: Path, k: nat)
    requires n.Dir? && r != [] && Find(n.entries, r[0]).Some? && 1 <= k <= |r|
    ensures LetThrough(f, p, n, r[..k], 1) <==>
            LetThrough(f, p + [r[0]], Find(n.entries, r[0]).value, r[1..][..k - 1], 0)
  {
    var child, q, rest := Find(n.entries, r[0]).value, p + [r[0]], r[1..][..k - 1];
    if LetThrough(f, p, n, r[..k], 1) {
      forall j | 0 <= j <= |rest| ensures Passes(f, q, child, rest, j) {
        LetThroughAt(f, p, n, r, k, j + 1);
        assert Passes(f, p, n, r[..k], j + 1);
      }
    }
    if LetThrough(f, q, child, rest, 0) {
      forall j | 1 <= j <= k ensures Passes(f, p, n, r[..k], j) {
        LetThroughAt(f, p, n, r, k, j);
        assert Passes(f, q, child, rest, j - 1);
      }
    }
  }

  lemma FromZero(f: Filter, p: Path, n: Node, r: Path)
    ensures LetThrough(f, p, n, r, 0) <==> f(p, n.Dir?) && LetThrough(f, p, n, r, 1)
  {
    assert r[..0] == [] && p + [] == p;
    if LetThrough(f, p, n, r, 0) {
      assert Passes(f, p, n, r, 0);
    }
  }

  lemma LoneReachedStep(f: Filter, p: Path, n: Node, r: Path, k: nat)
    requires n.Dir? && r != [] && Find(n.entries, r[0]).Some? && 1 <= k <= |r| && f(p, true)
    ensures LoneReached(f, p, n, r, k) <==> LoneReached(f, p + [r[0]], Find(n.entries, r[0]).value, r[1..], k - 1)
  {
    FromZero(f, p, n, r[..k]);
    LetThroughStep(f, p, n, r, k);
    PrefixStep(p, n, r, k);
  }

  lemma LoneReachedHere(f: Filter, p: Path, n: Node, r: Path)
    ensures LoneReached(f, p, n, r, 0) <==> f(p, n.Dir?) && f(p, false)
    ensures !f(p, n.Dir?) ==> forall k :: !LoneReached(f, p, n, r, k)
  {
    assert r[..0] == [] && p + [] == p;
    FromZero(f, p, n, []);
    forall k: nat ensures LoneReached(f, p, n, r, k) ==> f(p, n.Dir?) {
      if LoneReached(f, p, n, r, k) {
        FromZero(f, p, n, r[..k]);
      }
    }
  }

  /** A lower-only entry covers what it reaches. */
  lemma {:induction false} LoneCoversIff(f: Filter, p: Path, n: Node, r: Path)
    requires SortedTree(n) && Lookup(n, r).Some?
    ensures Covered(Lone(f, p, n), p + r) <==> exists k :: LoneReached(f, p, n, r, k)
    decreases |r|
  {
    LoneReachedHere(f, p, n, r);
    assert p + [] == p;
    if !f(p, n.Dir?) {
    } else if n.Leaf? || f(p, false) {
      var e := Lone(f, p, n)[0];
      assert Covers(e, p + r);
      assert LoneReached(f, p, n, r, 0);
    } else if r == [] {
      if e :| e in Lone(f, p, n) && Covers(e, p) {
        MergeBelow(f, p, n.entries, [], e);
      }
    } else {
      var child, q := Find(n.entries, r[0]).value, p + [r[0]];
      assert q + r[1..] == p + r;
      CoveredByName(f, p, n.entries, [], r);
      LoneCoversIff(f, q, child, r[1..]);
      if k: nat :| LoneReached(f, p, n, r, k) {
        LoneReachedStep(f, p, n, r, k);
      }
      if k: nat :| LoneReached(f, q, child, r[1..], k) {
        LoneReachedStep(f, p, n, r, k + 1);
      }
    }
  }

  /** In an entry of both trees, a step down the common directories. */
  lemma ReachedStep(f: Filter, p: Path, l: Node, u: Node, r: Path, k: nat)
    requires l.Dir? && u.Dir? && r != [] && Find(l.entries, r[0]).Some? && 1 <= k <= |r|
    ensures var child, q, above := Find(l.entries, r[0]).value, p + [r[0]], Find(u.entries, r[0]);
            Reached(f, p, l, u, r, k) <==>
            if above.None? then LoneReached(f, q, child, r[1..], k - 1)
            else f(q, child.Dir?) && Reached(f, q, child, above.value, r[1..], k - 1)
  {
    var child, q, above := Find(l.entries, r[0]).value, p + [r[0]], Find(u.entries, r[0]);
    LetThroughStep(f, p, l, r, k);
    PrefixStep(p, l, r, k);
    assert r[..k][0] == r[0] && r[..k][1..] == r[1..][..k - 1];
    FromZero(f, q, child, r[1..][..k - 1]);
  }

  lemma ReachedBelow(f: Filter, p: Path, l: Node, u: Node, r: Path)
    requires l.Dir? && u.Dir? && r != [] && Find(l.entries, r[0]).Some?
    ensures var child, q, above := Find(l.entries, r[0]).value, p + [r[0]], Find(u.entries, r[0]);
            (exists k :: Reached(f, p, l, u, r, k)) <==>
            if above.None? then exists k :: LoneReached(f, q, child, r[1..], k)
            else f(q, child.Dir?) && exists k :: Reached(f, q, child, above.value, r[1..], k)
  {
    var child, q, above := Find(l.entries, r[0]).value, p + [r[0]], Find(u.entries, r[0]);
    assert r[..0] == [] && !TakenAt(f, p, l, u, []);
    if k: nat :| Reached(f, p, l, u, r, k) {
      ReachedStep(f, p, l, u, r, k);
    }
    if above.None? {
      if k: nat :| LoneReached(f, q, child, r[1..], k) {
        ReachedStep(f, p, l, u, r, k + 1);
      }
    } else {
      if k: nat :| Reached(f, q, child, above.value, r[1..], k) {
        ReachedStep(f, p, l, u, r, k + 1);
      }
    }
  }

  lemma {:induction false} BothCoversIff(f: Filter, p: Path, l: Node, u: Node, r: Path)
    requires SortedTree(l) && SortedTree(u) && Lookup(l, r).Some?
    ensures Covered(Both(f, p, l, u), p + r) <==> exists k :: Reached(f, p, l, u, r, k)
    decreases |r|
  {
    var es := Both(f, p, l, u);
    assert r[..0] == [] && p + [] == p;
    if !l.Dir? {
      assert r == [];
      assert forall k: nat :: k <= |r| ==> r[..k] == [];
    } else if !u.Dir? {
      assert Covers(es[1], p + r);
      assert Reached(f, p, l, u, r, 0);
    } else if r == [] {
      if e :| e in es && Covers(e, p) {
        MergeBelow(f, p, l.entries, u.entries, e);
      }
      assert forall k: nat :: k <= |r| ==> r[..k] == [];
    } else {
      StepCoversIff(f, p, l, u, r);
    }
  }

  lemma {:induction false} StepCoversIff(f: Filter, p: Path, l: Node, u: Node, r: Path)
    requires SortedTree(l) && SortedTree(u) && l.Dir? && u.Dir? && r != [] && Lookup(l, r).Some?
    ensures Covered(Both(f, p, l, u), p + r) <==> exists k :: Reached(f, p, l, u, r, k)
    decreases |r|, 0
  {
    var child, q, above := Find(l.entries, r[0]).value, p + [r[0]], Find(u.entries, r[0]);
    assert q + r[1..] == p + r;
    CoveredByName(f, p, l.entries, u.entries, r);
    ReachedBelow(f, p, l, u, r);
    if above.None? {
      LoneCoversIff(f, q, child, r[1..]);
    } else {
      BothCoversIff(f, q, child, above.value, r[1..]);
    }
  }

  /** For every filter: a path of lower is covered by an exclusive emission exactly when
      one of its prefixes is taken (an accepted path that upper lacks, or a directory
      that faces a non-directory) and that prefix and everything above it is let
      through. */
  lemma WalkCoversIff(f: Filter, lower: seq<Entry>, upper: Option<seq<Entry>>, q: Path)
    requires SortedTree(Dir(lower)) && SortedTree(UpperRoot(upper)) && Lookup(Dir(lower), q).Some?
    ensures Covered(Walk(f, lower, upper), q) <==> exists k :: Reached(f, [], Dir(lower), UpperRoot(upper), q, k)
  {
    assert Walk(f, lower, upper) == Both(f, [], Dir(lower), UpperRoot(upper));
    assert [] + q == q;
    BothCoversIff(f, [], Dir(lower), UpperRoot(upper), q);
  }

  lemma {:induction false} OrphanedLeafIsAbsent(l: Node, u: Node, q: Path)
    requires Lookup(l, q).Some? && Lookup(l, q).value.Leaf? && Orphaned(l, u, q)
    ensures Lookup(u, q).None?
    decreases |q|
  {
    if q != [] && u.Dir? && Find(u.entries, q[0]).Some? {
      OrphanedStep(l, u, q);
      OrphanedLeafIsAbsent(Find(l.entries, q[0]).value, Find(u.entries, q[0]).value, q[1..]);
    }
  }

  lemma PrefixPasses(f: Filter, l: Node, q: Path, j: nat)
    requires Lookup(l, q).Some? && Lookup(l, q).value.Leaf? && 1 <= j <= |q|
    requires if j < |q| then f(q[..j], true) else f(q, false)
    ensures Passes(f, [], l, q, j)
  {
    LookupPrefix(l, q[..j], q);
    assert [] + q[..j] == q[..j];
    assert j == |q| ==> q[..j] == q;
  }

  lemma LeafIsReached(f: Filter, l: Node, u: Node, q: Path)
    requires Lookup(l, q).Some? && Lookup(l, q).value.Leaf? && Lookup(u, q).None? && f(q, false)
    requires forall j :: 1 <= j <= |q| ==> Passes(f, [], l, q, j)
    ensures Reached(f, [], l, u, q, |q|)
  {
    assert q[..|q|] == q && [] + q == q;
    assert LetThrough(f, [], l, q, 1);
  }

  /** With any filter that lets the directories above an accepted leaf through, the
      leaf is not lost when upper does not have it. */
  lemma WalkFindsAcceptedLeaf(f: Filter, lower: seq<Entry>, upper: Option<seq<Entry>>, q: Path)
    requires SortedTree(Dir(lower)) && SortedTree(UpperRoot(upper))
    requires Lookup(Dir(lower), q).Some? && Lookup(Dir(lower), q).value.Leaf?
    requires f(q, false) && Orphaned(Dir(lower), UpperRoot(upper), q)
    requires forall k :: 0 < k < |q| ==> f(q[..k], true)
    ensures Covered(Walk(f, lower, upper), q)
  {
    var l, u := Dir(lower), UpperRoot(upper);
    forall j | 1 <= j <= |q| ensures Passes(f, [], l, q, j) {
      PrefixPasses(f, l, q, j);
    }
    OrphanedLeafIsAbsent(l, u, q);
    LeafIsReached(f, l, u, q);
    WalkCoversIff(f, lower, upper, q);
  }

  lemma ReachedIsLetThrough(f: Filter, l: Node, u: Node, q: Path)
    requires q != [] && Reached(f, [], l, u, q, |q|)
    ensures f(q, IsDir(l, q))
  {
    assert q[..|q|] == q && [] + q == q;
    assert Passes(f, [], l, q, |q|);
  }

  /** So a path that the filter refuses is covered exactly when a proper prefix of it is
      reached and taken. */
  lemma RefusedCoveredIff(f: Filter, lower: seq<Entry>, upper: Option<seq<Entry>>, q: Path)
    requires SortedTree(Dir(lower)) && SortedTree(UpperRoot(upper)) && Lookup(Dir(lower), q).Some?
    requires q != [] && !f(q, IsDir(Dir(lower), q))
    ensures Covered(Walk(f, lower, upper), q) <==>
            exists k: nat :: k < |q| && Reached(f, [], Dir(lower), UpperRoot(upper), q, k)
  {
    var l, u := Dir(lower), UpperRoot(upper);
    WalkCoversIff(f, lower, upper, q);
    if k: nat :| Reached(f, [], l, u, q, k) {
      if k == |q| {
        ReachedIsLetThrough(f, l, u, q);
      }
    }
  }
}
