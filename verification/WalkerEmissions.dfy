/** Exactly what the walk emits, for every filter: which exclusive and common emissions,
    with which flags, how often, and in which order. */
module WalkerEmissions {
  import opened Wrappers
  import opened FileTree
  import opened NameOrder
  import opened Walker
  import opened WalkerProperties
  import opened WalkerCoverage

  /* ---- the flags ---- */

  /** The emission tells the truth about the path in the lower tree, which starts with
      n at p: it is there, and it is a directory when it is said to be. Exactly the
      exclusive directories are collapsed. */
  predicate Truthful(n: Node, p: Path, e: Emission) {
    && p <= e.path
    && Lookup(n, e.path[|p|..]).Some?
    && e.isDir == IsDir(n, e.path[|p|..])
    && (e.Exclusive? ==> e.collapsed == e.isDir)
  }

  lemma TruthfulHere(n: Node, p: Path, e: Emission)
    requires e.path == p && e.isDir == n.Dir? && (e.Exclusive? ==> e.collapsed == e.isDir)
    ensures Truthful(n, p, e)
  {
    assert e.path[|p|..] == [];
  }

  lemma TruthfulBelow(n: Node, p: Path, name: string, e: Emission)
    requires n.Dir? && Find(n.entries, name).Some? && Truthful(Find(n.entries, name).value, p + [name], e)
    ensures Truthful(n, p, e)
  {
    assert e.path[|p|..][0] == name && e.path[|p|..][1..] == e.path[|p| + 1..];
  }

  lemma {:induction false} LoneTruthful(f: Filter, p: Path, n: Node, e: Emission)
    requires SortedTree(n) && e in Lone(f, p, n)
    ensures Truthful(n, p, e)
    decreases n, 1
  {
    if n.Dir? && f(p, true) && !f(p, false) {
      MergeTruthful(f, p, n, [], e);
    } else {
      TruthfulHere(n, p, e);
    }
  }

  lemma {:induction false} BothTruthful(f: Filter, p: Path, l: Node, u: Node, e: Emission)
    requires SortedTree(l) && SortedTree(u) && e in Both(f, p, l, u)
    ensures Truthful(l, p, e)
    decreases l, 1
  {
    if l.Dir? && u.Dir? {
      MergeTruthful(f, p, l, u.entries, e);
    } else {
      TruthfulHere(l, p, e);
    }
  }

  lemma {:induction false} MergeTruthful(f: Filter, p: Path, l: Node, us: seq<Entry>, e: Emission)
    requires l.Dir? && SortedTree(l) && SortedTree(Dir(us)) && e in Merge(f, p, l.entries, us)
    ensures Truthful(l, p, e)
    decreases l, 0
  {
    MergeBelow(f, p, l.entries, us, e);
    var name := e.path[|p|];
    MemberByName(f, p, l.entries, us, name, e);
    var child, above := Find(l.entries, name).value, Find(us, name);
    assert Entry(name, child) in l.entries;
    if above.None? {
      LoneTruthful(f, p + [name], child, e);
    } else {
      assert Entry(name, above.value) in us;
      BothTruthful(f, p + [name], child, above.value, e);
    }
    TruthfulBelow(l, p, name, e);
  }

  lemma WalkIsTruthful(f: Filter, lower: seq<Entry>, upper: Option<seq<Entry>>, e: Emission)
    requires SortedTree(Dir(lower)) && SortedTree(UpperRoot(upper)) && e in Walk(f, lower, upper)
    ensures Truthful(Dir(lower), [], e)
  {
    MergeTruthful(f, [], Dir(lower), UpperRoot(upper).entries, e);
  }

  /* ---- exclusive emissions ---- */

  /** q is reached and taken, and nothing above it is. */
  ghost predicate FirstReached(f: Filter, l: Node, u: Node, q: Path) {
    Reached(f, [], l, u, q, |q|) && forall k: nat :: k < |q| ==> !Reached(f, [], l, u, q, k)
  }

  lemma ReachedAbove(f: Filter, l: Node, u: Node, q: Path, j: nat, k: nat)
    requires k <= j <= |q|
    ensures Reached(f, [], l, u, q[..j], k) <==> Reached(f, [], l, u, q, k)
  {
    assert q[..j][..k] == q[..k];
  }

  lemma CoveredAbove(f: Filter, lower: seq<Entry>, upper: Option<seq<Entry>>, q: Path, k: nat)
    requires SortedTree(Dir(lower)) && SortedTree(UpperRoot(upper)) && Lookup(Dir(lower), q).Some?
    requires k <= |q| && Reached(f, [], Dir(lower), UpperRoot(upper), q, k)
    ensures Covered(Walk(f, lower, upper), q[..k])
  {
    LookupPrefix(Dir(lower), q[..k], q);
    ReachedAbove(f, Dir(lower), UpperRoot(upper), q, k, k);
    WalkCoversIff(f, lower, upper, q[..k]);
  }

  lemma NothingAboveIsCovered(es: seq<Emission>, e: Emission, k: nat)
    requires Disjoint(es) && e in es && e.Exclusive? && k < |e.path|
    ensures !Covered(es, e.path[..k])
  {
    assert forall d :: d in es && Covers(d, e.path[..k]) ==> d.path <= e.path && |d.path| < |e.path|;
  }

  lemma EmittedIsReached(f: Filter, lower: seq<Entry>, upper: Option<seq<Entry>>, e: Emission) returns (k: nat)
    requires SortedTree(Dir(lower)) && SortedTree(UpperRoot(upper))
    requires e in Walk(f, lower, upper) && e.Exclusive?
    ensures Lookup(Dir(lower), e.path).Some?
    ensures k <= |e.path| && Reached(f, [], Dir(lower), UpperRoot(upper), e.path, k)
  {
    WalkIsTruthful(f, lower, upper, e);
    assert e.path[0..] == e.path && Covers(e, e.path);
    WalkCoversIff(f, lower, upper, e.path);
    k :| Reached(f, [], Dir(lower), UpperRoot(upper), e.path, k);
  }

  lemma EmittedIsFirst(f: Filter, lower: seq<Entry>, upper: Option<seq<Entry>>, e: Emission)
    requires SortedTree(Dir(lower)) && SortedTree(UpperRoot(upper))
    requires e in Walk(f, lower, upper) && e.Exclusive?
    ensures FirstReached(f, Dir(lower), UpperRoot(upper), e.path)
  {
    var j := EmittedIsReached(f, lower, upper, e);
    WalkIsDisjoint(f, lower, upper);
    forall k: nat | k < |e.path| ensures !Reached(f, [], Dir(lower), UpperRoot(upper), e.path, k) {
      NothingAboveIsCovered(Walk(f, lower, upper), e, k);
      if Reached(f, [], Dir(lower), UpperRoot(upper), e.path, k) {
        CoveredAbove(f, lower, upper, e.path, k);
      }
    }
  }

  lemma FirstIsEmitted(f: Filter, lower: seq<Entry>, upper: Option<seq<Entry>>, q: Path) returns (e: Emission)
    requires SortedTree(Dir(lower)) && SortedTree(UpperRoot(upper)) && Lookup(Dir(lower), q).Some?
    requires FirstReached(f, Dir(lower), UpperRoot(upper), q)
    ensures e in Walk(f, lower, upper) && e.Exclusive? && e.path == q
  {
    WalkCoversIff(f, lower, upper, q);
    e :| e in Walk(f, lower, upper) && Covers(e, q);
    EmittedIsFirst(f, lower, upper, e);
    var k := |e.path|;
    assert q[..k] == e.path;
    ReachedAbove(f, Dir(lower), UpperRoot(upper), q, k, k);
  }

  /** For every filter an exclusive emission is made exactly for the lower paths that are
      reached and taken while nothing above them is, each once; it is marked as a
      directory and as collapsed exactly when the path is one. */
  lemma ExclusiveIff(f: Filter, lower: seq<Entry>, upper: Option<seq<Entry>>, q: Path, isDir: bool, collapsed: bool)
    requires SortedTree(Dir(lower)) && SortedTree(UpperRoot(upper))
    ensures multiset(Walk(f, lower, upper))[Exclusive(q, isDir, collapsed)] ==
            if Lookup(Dir(lower), q).Some? && FirstReached(f, Dir(lower), UpperRoot(upper), q)
               && isDir == collapsed == IsDir(Dir(lower), q) then 1 else 0
  {
    var e := Exclusive(q, isDir, collapsed);
    WalkIsDisjoint(f, lower, upper);
    assert q[0..] == q;
    if e in Walk(f, lower, upper) {
      WalkIsTruthful(f, lower, upper, e);
      EmittedIsFirst(f, lower, upper, e);
    } else if Lookup(Dir(lower), q).Some? && FirstReached(f, Dir(lower), UpperRoot(upper), q) {
      var d := FirstIsEmitted(f, lower, upper, q);
      WalkIsTruthful(f, lower, upper, d);
    }
  }

  /* ---- common emissions ---- */

  lemma CommonHere(f: Filter, p: Path, l: Node, u: Node, isDir: bool)
    requires SortedTree(l) && SortedTree(u)
    ensures multiset(Both(f, p, l, u))[Common(p, isDir)] == CommonCount(Some(l), Some(u), isDir)
  {
    if l.Dir? && u.Dir? && Common(p, isDir) in Both(f, p, l, u) {
      MergeBelow(f, p, l.entries, u.entries, Common(p, isDir));
    }
  }

  lemma CommonBelowFile(f: Filter, p: Path, l: Node, u: Node, e: Emission)
    requires !(l.Dir? && u.Dir?) && e.Common? && |e.path| > |p|
    ensures multiset(Both(f, p, l, u))[e] == 0
  {
  }

  /** An entry of one tree only is never reported as common. */
  lemma NoCommonAlone(f: Filter, p: Path, name: string, l: Option<Node>, u: Option<Node>, e: Emission)
    requires e.Common? && (l.None? || u.None?)
    ensures multiset(Part(f, p, name, l, u))[e] == 0
  {
    if l.Some? && e in Part(f, p, name, l, u) {
      LoneBelow(f, p + [name], l.value, e);
    }
  }

  function CommonIf(open: bool, l: Option<Node>, u: Option<Node>, isDir: bool): nat {
    if open then CommonCount(l, u, isDir) else 0
  }

  lemma {:induction false} CommonOnce(f: Filter, p: Path, l: Node, u: Node, r: Path, isDir: bool)
    requires SortedTree(l) && SortedTree(u)
    ensures multiset(Both(f, p, l, u))[Common(p + r, isDir)] ==
            CommonIf(LetThrough(f, p, l, r, 1), Lookup(l, r), Lookup(u, r), isDir)
    decreases |r|
  {
    var e := Common(p + r, isDir);
    if r == [] {
      assert p + r == p;
      CommonHere(f, p, l, u, isDir);
    } else if l.Dir? && u.Dir? {
      var name, q := r[0], p + [r[0]];
      var l', u' := Find(l.entries, name), Find(u.entries, name);
      assert q + r[1..] == p + r;
      MergeByName(f, p, l.entries, u.entries, name, e);
      if l'.Some? && u'.Some? {
        LetThroughChild(f, p, l, r);
        if f(q, l'.value.Dir?) {
          CommonOnce(f, q, l'.value, u'.value, r[1..], isDir);
        }
      } else {
        NoCommonAlone(f, p, name, l', u', e);
      }
    } else {
      CommonBelowFile(f, p, l, u, e);
    }
  }

  lemma LetThroughChild(f: Filter, p: Path, l: Node, r: Path)
    requires l.Dir? && r != [] && Find(l.entries, r[0]).Some?
    ensures var child, q := Find(l.entries, r[0]).value, p + [r[0]];
            LetThrough(f, p, l, r, 1) <==> f(q, child.Dir?) && LetThrough(f, q, child, r[1..], 1)
  {
    assert r[..|r|] == r && r[1..][..|r| - 1] == r[1..];
    LetThroughStep(f, p, l, r, |r|);
    FromZero(f, p + [r[0]], Find(l.entries, r[0]).value, r[1..]);
  }

  /** For every filter a path is emitted as common exactly once when both trees have it,
      not both as a directory, and it and everything above it is let through; the flag
      says whether the lower one is a directory. Otherwise it never is. */
  lemma CommonIff(f: Filter, lower: seq<Entry>, upper: Option<seq<Entry>>, q: Path, isDir: bool)
    requires SortedTree(Dir(lower)) && SortedTree(UpperRoot(upper))
    ensures multiset(Walk(f, lower, upper))[Common(q, isDir)] ==
            CommonIf(LetThrough(f, [], Dir(lower), q, 1), Lookup(Dir(lower), q), Lookup(UpperRoot(upper), q), isDir)
  {
    assert Walk(f, lower, upper) == Both(f, [], Dir(lower), UpperRoot(upper));
    assert [] + q == q;
    CommonOnce(f, [], Dir(lower), UpperRoot(upper), q, isDir);
  }

  /** Without a filter: a path of lower is covered by an exclusive emission exactly
      when it is orphaned; it is emitted as common exactly once when upper has it
      too and the two are not both directories, and otherwise never. */
  lemma WalkClassifiesExactly(lower: seq<Entry>, upper: Option<seq<Entry>>, q: Path)
    requires SortedTree(Dir(lower)) && SortedTree(UpperRoot(upper)) && Lookup(Dir(lower), q).Some?
    ensures Covered(Walk(PassAll(), lower, upper), q) <==> Orphaned(Dir(lower), UpperRoot(upper), q)
    ensures forall d :: multiset(Walk(PassAll(), lower, upper))[Common(q, d)]
                        == CommonCount(Lookup(Dir(lower), q), Lookup(UpperRoot(upper), q), d)
  {
    WalkCoversIff(PassAll(), lower, upper, q);
    forall k: nat | k <= |q|
      ensures Reached(PassAll(), [], Dir(lower), UpperRoot(upper), q, k) <==>
              OrphanAt(Dir(lower), UpperRoot(upper), q[..k])
    {
      LookupPrefix(Dir(lower), q[..k], q);
    }
    CommonIff(PassAll(), lower, upper, q, true);
    CommonIff(PassAll(), lower, upper, q, false);
  }

  /* ---- the order ---- */

  /** Component by component; a directory comes before what is in it. */
  predicate PathBefore(a: Path, b: Path) {
    b != [] && (a == [] || Before(a[0], b[0]) || (a[0] == b[0] && PathBefore(a[1..], b[1..])))
  }

  /** Of two emissions for one path the common one comes first. */
  predicate EmittedBefore(d: Emission, e: Emission) {
    PathBefore(d.path, e.path) || (d.path == e.path && d.Common? && e.Exclusive?)
  }

  predicate Ordered(es: seq<Emission>) {
    forall i, j :: 0 <= i < j < |es| ==> EmittedBefore(es[i], es[j])
  }

  lemma OrderedJoin(a: seq<Emission>, b: seq<Emission>)
    requires Ordered(a) && Ordered(b) && forall d, e :: d in a && e in b ==> EmittedBefore(d, e)
    ensures Ordered(a + b)
  {
    var es := a + b;
    forall i, j | 0 <= i < j < |es| ensures EmittedBefore(es[i], es[j]) {
      if i < |a| <= j {
        assert es[i] in a && es[j] in b;
      }
    }
  }

  lemma {:induction false} Diverge(p: Path, a: Path, b: Path)
    requires p < a && p < b && Before(a[|p|], b[|p|])
    ensures PathBefore(a, b)
    decreases |p|
  {
    if p != [] {
      Diverge(p[1..], a[1..], b[1..]);
    }
  }

  /** Every emission of a merge lies under a name of the lower listing. */
  lemma UnderListedName(f: Filter, p: Path, ls: seq<Entry>, us: seq<Entry>, e: Emission)
    requires Sorted(ls) && Sorted(us) && e in Merge(f, p, ls, us)
    ensures p < e.path && exists le :: le in ls && le.name == e.path[|p|]
  {
    MergeBelow(f, p, ls, us, e);
    MemberByName(f, p, ls, us, e.path[|p|], e);
    assert Entry(e.path[|p|], Find(ls, e.path[|p|]).value) in ls;
  }

  /** The share of the first name comes before that of the others. */
  lemma HeadFirst(f: Filter, p: Path, ls: seq<Entry>, us: seq<Entry>, d: Emission, e: Emission)
    requires Sorted(ls) && Sorted(us) && ls != [] && p + [ls[0].name] <= d.path && e in Merge(f, p, ls[1..], us)
    ensures EmittedBefore(d, e)
  {
    SortedTail(ls);
    UnderListedName(f, p, ls[1..], us, e);
    assert d.path[|p|] == ls[0].name;
    Diverge(p, d.path, e.path);
  }

  lemma {:induction false} LoneOrdered(f: Filter, p: Path, n: Node)
    requires SortedTree(n)
    ensures Ordered(Lone(f, p, n))
    decreases n, 1, 0
  {
    if n.Dir? && f(p, true) && !f(p, false) {
      MergeOrdered(f, p, n.entries, []);
    }
  }

  lemma {:induction false} BothOrdered(f: Filter, p: Path, l: Node, u: Node)
    requires SortedTree(l) && SortedTree(u)
    ensures Ordered(Both(f, p, l, u))
    decreases l, 1, 0
  {
    if l.Dir? && u.Dir? {
      MergeOrdered(f, p, l.entries, u.entries);
    }
  }

  lemma {:induction false} MergeOrdered(f: Filter, p: Path, ls: seq<Entry>, us: seq<Entry>)
    requires SortedTree(Dir(ls)) && SortedTree(Dir(us))
    ensures Ordered(Merge(f, p, ls, us))
    decreases ls, 0, |us|
  {
    if ls != [] {
      var here := p + [ls[0].name];
      SortedTail(ls);
      if us != [] {
        SortedTail(us);
      }
      if us == [] || Before(ls[0].name, us[0].name) {
        LoneOrdered(f, here, ls[0].node);
        MergeOrdered(f, p, ls[1..], us);
        PartFirst(f, p, ls, us, None);
      } else if Before(us[0].name, ls[0].name) {
        MergeOrdered(f, p, ls, us[1..]);
      } else {
        BothOrdered(f, here, ls[0].node, us[0].node);
        MergeOrdered(f, p, ls[1..], us[1..]);
        PartFirst(f, p, ls, us[1..], Some(us[0].node));
      }
    }
  }

  lemma PartFirst(f: Filter, p: Path, ls: seq<Entry>, us: seq<Entry>, u: Option<Node>)
    requires Sorted(ls) && Sorted(us) && ls != []
    requires Ordered(Part(f, p, ls[0].name, Some(ls[0].node), u)) && Ordered(Merge(f, p, ls[1..], us))
    ensures Ordered(Part(f, p, ls[0].name, Some(ls[0].node), u) + Merge(f, p, ls[1..], us))
  {
    var part, rest := Part(f, p, ls[0].name, Some(ls[0].node), u), Merge(f, p, ls[1..], us);
    forall d, e | d in part && e in rest ensures EmittedBefore(d, e) {
      PartBelow(f, p, ls[0].name, Some(ls[0].node), u, d);
      HeadFirst(f, p, ls, us, d, e);
    }
    OrderedJoin(part, rest);
  }

  /** The walk emits in the order of the paths; for one path the common emission comes
      before the exclusive one. */
  lemma WalkIsOrdered(f: Filter, lower: seq<Entry>, upper: Option<seq<Entry>>)
    requires SortedTree(Dir(lower)) && SortedTree(UpperRoot(upper))
    ensures Ordered(Walk(f, lower, upper))
  {
    MergeOrdered(f, [], lower, UpperRoot(upper).entries);
  }
}
