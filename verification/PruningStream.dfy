/** The walker's own stream of exclusive paths, added to a pruning set. */
module PruningStream {
  import opened Wrappers
  import opened FileTree
  import opened NameOrder
  import opened PathText
  import opened PruningSet
  import opened Walker
  import WP = WalkerProperties

  predicate CleanTree(n: Node) {
    n.Dir? ==> forall e :: e in n.entries ==> CleanName(e.name) && CleanTree(e.node)
  }

  predicate CleanListing(es: seq<Entry>) {
    forall e :: e in es ==> CleanName(e.name) && CleanTree(e.node)
  }

  lemma {:induction false} LoneIsClean(f: Filter, p: Path, n: Node, e: Emission)
    requires e in Lone(f, p, n) && Clean(p) && CleanTree(n)
    ensures Clean(e.path)
    decreases n, 1, 0
  {
    if n.Dir? && f(p, true) && !f(p, false) {
      MergeIsClean(f, p, n.entries, [], e);
    }
  }

  /** The walk reports only paths made of names it has read. */
  lemma {:induction false} MergeIsClean(f: Filter, p: Path, ls: seq<Entry>, us: seq<Entry>, e: Emission)
    requires e in Merge(f, p, ls, us) && Clean(p) && CleanListing(ls)
    ensures Clean(e.path)
    decreases ls, 0, |us|
  {
    var here := p + [ls[0].name];
    assert Clean(here) && CleanTree(ls[0].node) by {
      assert ls[0] in ls;
    }
    if us == [] || Before(ls[0].name, us[0].name) {
      if e in Lone(f, here, ls[0].node) {
        LoneIsClean(f, here, ls[0].node, e);
      } else {
        MergeIsClean(f, p, ls[1..], us, e);
      }
    } else if Before(us[0].name, ls[0].name) {
      MergeIsClean(f, p, ls, us[1..], e);
    } else if f(here, ls[0].node.Dir?) && e in Both(f, here, ls[0].node, us[0].node) {
      if ls[0].node.Dir? && us[0].node.Dir? {
        MergeIsClean(f, here, ls[0].node.entries, us[0].node.entries, e);
      }
    } else {
      MergeIsClean(f, p, ls[1..], us[1..], e);
    }
  }

  function AsEntry(e: Emission): ExclusivePath
    requires e.Exclusive?
  {
    ExclusivePath(Render(e.path), e.isDir, e.collapsed)
  }

  /** The exclusive emissions, as they go down the channel. */
  function Stream(es: seq<Emission>): seq<ExclusivePath> {
    if es == [] then []
    else
      var init, last := Stream(es[..|es| - 1]), es[|es| - 1];
      if last.Exclusive? then init + [AsEntry(last)] else init
  }

  lemma {:induction false} FromEmission(es: seq<Emission>, x: ExclusivePath)
    requires x in Stream(es)
    ensures exists e :: e in es && e.Exclusive? && x == AsEntry(e)
  {
    var last := es[|es| - 1];
    if last.Exclusive? && x == AsEntry(last) {
      assert last in es;
    } else {
      FromEmission(es[..|es| - 1], x);
    }
  }

  lemma LastIsNew(es: seq<Emission>)
    requires WP.Disjoint(es) && es != []
    ensures WP.Disjoint(es[..|es| - 1]) && es[|es| - 1] !in es[..|es| - 1]
  {
    var init, last := es[..|es| - 1], es[|es| - 1];
    assert es == init + [last];
    assert multiset(es)[last] == multiset(init)[last] + 1;
    forall e | e in init ensures multiset(init)[e] == 1 {
      assert multiset(es)[e] == multiset(init)[e] + if e == last then 1 else 0;
    }
  }

  /** Pairwise unrelated emissions are all accepted and nothing is pruned. */
  lemma {:induction false} DisjointStreamAccepted(es: seq<Emission>)
    requires WP.Disjoint(es) && forall e :: e in es ==> Clean(e.path) && e.path != []
    ensures AddAll(Stream(es)) == Stream(es) && AllAccepted(Stream(es))
  {
    if es != [] {
      var init, last := es[..|es| - 1], es[|es| - 1];
      LastIsNew(es);
      DisjointStreamAccepted(init);
      if last.Exclusive? {
        var s, ep := Stream(init), AsEntry(last);
        forall x | x in s ensures !IsPathUnder(x.path, ep.path) && !IsPathUnder(ep.path, x.path) {
          FromEmission(init, x);
          var e :| e in init && e.Exclusive? && x == AsEntry(e);
          IsPathUnderIsAncestry(e.path, last.path);
          IsPathUnderIsAncestry(last.path, e.path);
        }
        UnrelatedAccepted(s, ep);
        assert (s + [ep])[..|s|] == s;
      }
    }
  }

  /** Whatever the filter and the trees, a pruning set fed with the walk's stream
      refuses nothing, prunes nothing and ends up holding the stream. */
  lemma WalkStreamAccepted(f: Filter, lower: seq<Entry>, upper: Option<seq<Entry>>)
    requires SortedTree(Dir(lower)) && SortedTree(WP.UpperRoot(upper)) && CleanListing(lower)
    ensures var s := Stream(Walk(f, lower, upper)); AddAll(s) == s && AllAccepted(s)
  {
    var es := Walk(f, lower, upper);
    WP.WalkIsDisjoint(f, lower, upper);
    forall e | e in es ensures Clean(e.path) && e.path != [] {
      MergeIsClean(f, [], lower, WP.UpperRoot(upper).entries, e);
      WP.MergeBelow(f, [], lower, WP.UpperRoot(upper).entries, e);
    }
    DisjointStreamAccepted(es);
  }
}
