/** Relative paths as text, components separated by a slash. */
module PathText {
  import opened FileTree

  predicate CleanName(name: string) {
    name != "" && '/' !in name
  }

  predicate Clean(p: Path) {
    forall name :: name in p ==> CleanName(name)
  }

  /** joinRelPath: the name alone at the root. */
  function JoinRelPath(relDir: string, name: string): string {
    if relDir == "" then name else relDir + "/" + name
  }

  /** The text of a path, as the walk builds it from the root down. */
  function Render(p: Path): string {
    if p == [] then "" else JoinRelPath(Render(p[..|p| - 1]), p[|p| - 1])
  }

  predicate HasPrefix(s: string, prefix: string) {
    prefix <= s
  }

  predicate IsPathUnder(child: string, parent: string) {
    child == parent || HasPrefix(child, parent + "/")
  }

  /** Every component followed by a slash. */
  function Slashed(p: Path): string {
    if p == [] then "" else p[0] + "/" + Slashed(p[1..])
  }

  lemma {:induction false} SlashedLast(p: Path)
    requires p != []
    ensures Slashed(p) == Slashed(p[..|p| - 1]) + p[|p| - 1] + "/"
  {
    if |p| > 1 {
      SlashedLast(p[1..]);
      assert p[1..][..|p| - 2] == p[..|p| - 1][1..];
    } else {
      assert p == [p[0]] && p[1..] == [];
    }
  }

  lemma {:induction false} RenderSlashed(p: Path)
    requires Clean(p) && p != []
    ensures Render(p) != "" && Render(p) + "/" == Slashed(p)
  {
    SlashedLast(p);
    var last := p[|p| - 1];
    assert last in p;
    if |p| > 1 {
      var init := p[..|p| - 1];
      RenderSlashed(init);
      assert Render(p) == Render(init) + "/" + last;
      assert Render(p) + "/" == (Render(init) + "/") + last + "/";
    } else {
      assert p[..0] == [];
      assert Render(p) == last;
    }
  }

  lemma SlashedStart(p: Path, q: Path)
    requires Clean(p) && Clean(q) && p != [] && q != [] && Slashed(p) <= Slashed(q)
    ensures p[0] == q[0] && Slashed(p[1..]) <= Slashed(q[1..])
  {
    assert p[0] in p && q[0] in q;
    var p', q' := Slashed(p[1..]), Slashed(q[1..]);
    assert Slashed(p) == (p[0] + "/") + p' && Slashed(q) == (q[0] + "/") + q';
    StartsWith('/', p[0], p', q[0], q');
  }

  /** Up to the first separator. */
  lemma StartsWith(sep: char, a: string, a': string, b: string, b': string)
    requires sep !in a && sep !in b && (a + [sep]) + a' <= (b + [sep]) + b'
    ensures a == b && a' <= b'
  {
    var s, t := (a + [sep]) + a', (b + [sep]) + b';
    assert s[|a|] == sep && t[|b|] == sep;
    assert forall k :: 0 <= k < |a| ==> s[k] == a[k] && a[k] != sep;
    assert forall k :: 0 <= k < |b| ==> t[k] == b[k] && b[k] != sep;
    assert forall k :: 0 <= k < |s| ==> s[k] == t[k];
    if |a| == |b| {
      assert a == s[..|a|] && b == t[..|b|];
      assert a' == s[|a| + 1..] && b' == t[|b| + 1..];
    }
  }

  lemma {:induction false} SlashedPrefix(p: Path, q: Path)
    requires Clean(p) && Clean(q)
    ensures Slashed(p) <= Slashed(q) <==> p <= q
  {
    if p != [] && q != [] {
      SlashedPrefix(p[1..], q[1..]);
      if Slashed(p) <= Slashed(q) {
        SlashedStart(p, q);
        assert p == [p[0]] + p[1..] && q == [q[0]] + q[1..];
      }
      if p <= q {
        assert p[1..] <= q[1..];
      }
    }
  }

  /** isPathUnder decides ancestry: on clean paths the text test holds exactly when
      the parent's components are a prefix of the child's, so that "a/bc" is not
      under "a/b". */
  lemma IsPathUnderIsAncestry(child: Path, parent: Path)
    requires Clean(child) && Clean(parent) && child != [] && parent != []
    ensures IsPathUnder(Render(child), Render(parent)) <==> parent <= child
    ensures Render(child) == Render(parent) <==> child == parent
  {
    RenderSlashed(child);
    RenderSlashed(parent);
    SlashedPrefix(parent, child);
    SlashedPrefix(child, parent);
    WithSlash(Render(child), Render(parent));
  }

  lemma WithSlash(c: string, p: string)
    ensures IsPathUnder(c, p) <==> p + "/" <= c + "/"
    ensures c == p <==> p + "/" <= c + "/" && c + "/" <= p + "/"
  {
    if p + "/" <= c + "/" {
      if |p| == |c| {
        assert c == (c + "/")[..|c|] && p == (p + "/")[..|c|];
      } else {
        assert (c + "/")[..|p| + 1] == c[..|p| + 1];
      }
    }
    assert c <= c + "/";
  }

  lemma UnderTransitive(a: string, b: string, c: string)
    requires IsPathUnder(a, b) && IsPathUnder(b, c)
    ensures IsPathUnder(a, c)
  {
    if a != b && b != c {
      assert c + "/" <= b <= b + "/" <= a;
    }
  }
}
