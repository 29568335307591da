/** The include and exclude lists of literal patterns, and that the filter lets the
    walk reach what it accepts. */
module PatternFilter {
  import opened Wrappers
  import opened FileTree
  import opened NameOrder
  import opened PathText
  import opened Walker
  import WC = WalkerCoverage
  import WP = WalkerProperties

  datatype Patterns = Patterns(includes: seq<string>, excludes: seq<string>)

  /** MatchesOrParentMatches for literal patterns: the path or one of its ancestors
      is a pattern. */
  predicate Matches(patterns: seq<string>, path: string) {
    exists i :: 0 <= i < |patterns| && IsPathUnder(path, patterns[i])
  }

  predicate CouldHaveMatchingDescendant(patterns: seq<string>, dir: string) {
    exists i :: 0 <= i < |patterns| && HasPrefix(patterns[i], dir + "/")
  }

  /** Include, step by step. */
  predicate Includes(f: Patterns, path: string, isDir: bool) {
    if f.excludes != [] && Matches(f.excludes, path) then false
    else if f.includes == [] then true
    else if Matches(f.includes, path) then true
    else isDir && CouldHaveMatchingDescendant(f.includes, path)
  }

  /** The patterns are the texts of clean paths: no negation, no wildcard and no
      stray slash. */
  ghost predicate CleanPatterns(patterns: seq<string>) {
    forall i :: 0 <= i < |patterns| ==> exists p: Path :: p != [] && Clean(p) && patterns[i] == Render(p)
  }

  lemma MatchesIff(patterns: seq<string>, pat: Path, q: Path, i: nat)
    requires i < |patterns| && pat != [] && Clean(pat) && patterns[i] == Render(pat) && q != [] && Clean(q)
    ensures IsPathUnder(Render(q), patterns[i]) <==> pat <= q
    ensures HasPrefix(patterns[i], Render(q) + "/") <==> q < pat
  {
    IsPathUnderIsAncestry(q, pat);
    IsPathUnderIsAncestry(pat, q);
    if HasPrefix(patterns[i], Render(q) + "/") {
      assert Render(pat) != Render(q);
    }
  }

  predicate AtOrAbove(pat: Path, q: Path) { pat <= q }

  predicate StrictlyBelow(pat: Path, q: Path) { q < pat }

  /** Some pattern is the path or one of its ancestors. */
  predicate Under(patterns: seq<Path>, q: Path) {
    exists i :: 0 <= i < |patterns| && AtOrAbove(patterns[i], q)
  }

  /** Some pattern lies strictly below the path. */
  predicate Above(patterns: seq<Path>, q: Path) {
    exists i :: 0 <= i < |patterns| && StrictlyBelow(patterns[i], q)
  }

  ghost predicate CleanPaths(patterns: seq<Path>) {
    forall pat :: pat in patterns ==> pat != [] && Clean(pat)
  }

  function Texts(patterns: seq<Path>): (r: seq<string>)
    ensures |r| == |patterns| && forall i :: 0 <= i < |r| ==> r[i] == Render(patterns[i])
  {
    if patterns == [] then [] else [Render(patterns[0])] + Texts(patterns[1..])
  }

  lemma TextAncestry(patterns: seq<Path>, q: Path, i: nat)
    requires CleanPaths(patterns) && q != [] && Clean(q) && i < |patterns|
    ensures IsPathUnder(Render(q), Texts(patterns)[i]) <==> AtOrAbove(patterns[i], q)
    ensures HasPrefix(Texts(patterns)[i], Render(q) + "/") <==> StrictlyBelow(patterns[i], q)
  {
    assert patterns[i] in patterns;
    MatchesIff(Texts(patterns), patterns[i], q, i);
  }

  lemma MatchesAncestry(patterns: seq<Path>, q: Path)
    requires CleanPaths(patterns) && q != [] && Clean(q)
    ensures Matches(Texts(patterns), Render(q)) <==> Under(patterns, q)
  {
    var texts, text := Texts(patterns), Render(q);
    if i :| 0 <= i < |texts| && IsPathUnder(text, texts[i]) {
      TextAncestry(patterns, q, i);
    }
    if i :| 0 <= i < |patterns| && AtOrAbove(patterns[i], q) {
      TextAncestry(patterns, q, i);
    }
  }

  lemma DescentAncestry(patterns: seq<Path>, q: Path)
    requires CleanPaths(patterns) && q != [] && Clean(q)
    ensures CouldHaveMatchingDescendant(Texts(patterns), Render(q)) <==> Above(patterns, q)
  {
    var texts, text := Texts(patterns), Render(q);
    if i :| 0 <= i < |texts| && HasPrefix(texts[i], text + "/") {
      TextAncestry(patterns, q, i);
    }
    if i :| 0 <= i < |patterns| && StrictlyBelow(patterns[i], q) {
      TextAncestry(patterns, q, i);
    }
  }

  /** Which paths literal patterns let through: none at or below an excluded path; of the
      others all when nothing is included, else those at or below an included path, and
      directories on the way to one. */
  lemma IncludesIff(includes: seq<Path>, excludes: seq<Path>, q: Path, isDir: bool)
    requires CleanPaths(includes) && CleanPaths(excludes) && q != [] && Clean(q)
    ensures Includes(Patterns(Texts(includes), Texts(excludes)), Render(q), isDir) <==>
            !Under(excludes, q) && (includes == [] || Under(includes, q) || (isDir && Above(includes, q)))
  {
    MatchesAncestry(includes, q);
    MatchesAncestry(excludes, q);
    DescentAncestry(includes, q);
  }

  /** Whoever accepts a leaf lets the walk descend to it: every ancestor directory
      passes. */
  lemma AcceptedMeansReachable(f: Patterns, q: Path, k: nat)
    requires CleanPatterns(f.includes) && Clean(q) && 0 < k < |q| && Includes(f, Render(q), false)
    ensures Includes(f, Render(q[..k]), true)
  {
    var d := q[..k];
    assert Clean(d) && d < q;
    if Matches(f.excludes, Render(d)) {
      var i :| 0 <= i < |f.excludes| && IsPathUnder(Render(d), f.excludes[i]);
      IsPathUnderIsAncestry(q, d);
      UnderTransitive(Render(q), Render(d), f.excludes[i]);
    }
    if f.includes != [] {
      var i :| 0 <= i < |f.includes| && IsPathUnder(Render(q), f.includes[i]);
      var pat: Path :| pat != [] && Clean(pat) && f.includes[i] == Render(pat);
      MatchesIff(f.includes, pat, q, i);
      MatchesIff(f.includes, pat, d, i);
    }
  }

  function AsFilter(f: Patterns): Filter {
    (p: Path, isDir: bool) => Includes(f, Render(p), isDir)
  }

  /** With literal patterns the walk loses no accepted leaf: a leaf of lower that
      the filter accepts and that upper lacks is emitted or lies under a collapsed
      emission. */
  lemma WalkFindsIncludedLeaf(f: Patterns, lower: seq<Entry>, upper: Option<seq<Entry>>, q: Path)
    requires CleanPatterns(f.includes) && Clean(q)
    requires SortedTree(Dir(lower)) && SortedTree(WP.UpperRoot(upper))
    requires Lookup(Dir(lower), q).Some? && Lookup(Dir(lower), q).value.Leaf?
    requires Includes(f, Render(q), false) && WP.Orphaned(Dir(lower), WP.UpperRoot(upper), q)
    ensures WP.Covered(Walk(AsFilter(f), lower, upper), q)
  {
    forall k | 0 < k < |q| ensures AsFilter(f)(q[..k], true) {
      AcceptedMeansReachable(f, q, k);
    }
    WC.WalkFindsAcceptedLeaf(AsFilter(f), lower, upper, q);
  }

  /** Exclusion is documented to win over everything. It does not over a collapsed
      directory: with "a" included and "a/b" excluded, "a/b" is removed with "a". */
  lemma ExcludedCanBeCovered()
    ensures var f := Patterns(["a"], ["a/b"]);
            var lower := [Entry("a", Dir([Entry("b", Leaf(Regular))]))];
            && !Includes(f, Render(["a", "b"]), false)
            && WP.Covered(Walk(AsFilter(f), lower, None), ["a", "b"])
  {
    var f := Patterns(["a"], ["a/b"]);
    var inner := [Entry("b", Leaf(Regular))];
    var lower := [Entry("a", Dir(inner))];
    InclusionOfExample();
    assert [] + ["a"] == ["a"];
    var es := Walk(AsFilter(f), lower, None);
    assert es == Lone(AsFilter(f), ["a"], Dir(inner)) + Merge(AsFilter(f), [], lower[1..], []);
    assert es[0] == Exclusive(["a"], true, true);
    assert WP.Covers(es[0], ["a", "b"]);
  }

  lemma InclusionOfExample()
    ensures var f := Patterns(["a"], ["a/b"]);
            && !Includes(f, Render(["a", "b"]), false)
            && Includes(f, Render(["a"]), true)
            && Includes(f, Render(["a"]), false)
  {
    var f := Patterns(["a"], ["a/b"]);
    assert ["a"][..0] == [] && ["a", "b"][..1] == ["a"];
    assert Render(["a"]) == "a" && Render(["a", "b"]) == "a" + "/" + "b" == "a/b";
    assert IsPathUnder("a/b", f.excludes[0]) && IsPathUnder("a", f.includes[0]);
    assert !IsPathUnder("a", f.excludes[0]);
  }
}
