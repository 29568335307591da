/** What the merge walk guarantees about its emissions. */
module WalkerProperties {
  import opened Wrappers
  import opened FileTree
  import opened NameOrder
  import opened Walker

  /** The share of one name in the merge of two listings. */
  function Part(f: Filter, p: Path, name: string, l: Option<Node>, u: Option<Node>): seq<Emission> {
    if l.None? then []
    else if u.None? then Lone(f, p + [name], l.value)
    else if f(p + [name], l.value.Dir?) then Both(f, p + [name], l.value, u.value)
    else []
  }

  lemma {:induction false} LoneBelow(f: Filter, p: Path, n: Node, e: Emission)
    requires e in Lone(f, p, n)
    ensures p <= e.path && e.Exclusive?
    decreases n, 1, 0
  {
    if n.Dir? && f(p, true) && !f(p, false) {
      MergeBelow(f, p, n.entries, [], e);
    }
  }

  lemma {:induction false} BothBelow(f: Filter, p: Path, l: Node, u: Node, e: Emission)
    requires e in Both(f, p, l, u)
    ensures p <= e.path
    decreases l, 1, 0
  {
    if l.Dir? && u.Dir? {
      MergeBelow(f, p, l.entries, u.entries, e);
    }
  }

  /** A merge below p reports only what is strictly below p, and without an upper
      tree nothing as common. */
  lemma {:induction false} MergeBelow(f: Filter, p: Path, ls: seq<Entry>, us: seq<Entry>, e: Emission)
    requires e in Merge(f, p, ls, us)
    ensures p < e.path && (us == [] ==> e.Exclusive?)
    decreases ls, 0, |us|
  {
    var here := p + [ls[0].name];
    if us == [] || Before(ls[0].name, us[0].name) {
      if e in Lone(f, here, ls[0].node) {
        LoneBelow(f, here, ls[0].node, e);
      } else {
        MergeBelow(f, p, ls[1..], us, e);
      }
    } else if Before(us[0].name, ls[0].name) {
      MergeBelow(f, p, ls, us[1..], e);
    } else if f(here, ls[0].node.Dir?) && e in Both(f, here, ls[0].node, us[0].node) {
      BothBelow(f, here, ls[0].node, us[0].node, e);
    } else {
      MergeBelow(f, p, ls[1..], us[1..], e);
    }
  }

  lemma PartBelow(f: Filter, p: Path, name: string, l: Option<Node>, u: Option<Node>, e: Emission)
    requires e in Part(f, p, name, l, u)
    ensures p + [name] <= e.path
  {
    if u.None? {
      LoneBelow(f, p + [name], l.value, e);
    } else {
      BothBelow(f, p + [name], l.value, u.value, e);
    }
  }

  lemma CountSum<T>(a: seq<T>, b: seq<T>, e: T)
    ensures multiset(a + b)[e] == multiset(a)[e] + multiset(b)[e]
  {
  }

  lemma SameName(p: Path, a: string, b: string, q: Path)
    requires p + [a] <= q && p + [b] <= q
    ensures a == b
  {
    assert (p + [a])[|p|] == q[|p|] == (p + [b])[|p|];
  }

  lemma PartOfOther(f: Filter, p: Path, name: string, other: string, l: Option<Node>, u: Option<Node>, e: Emission)
    requires p + [name] <= e.path && name != other
    ensures multiset(Part(f, p, other, l, u))[e] == 0
  {
    if e in Part(f, p, other, l, u) {
      PartBelow(f, p, other, l, u, e);
      SameName(p, name, other, e.path);
    }
  }

  /** One turn of the merge, seen from one name. */
  lemma {:induction false} MergeByName(f: Filter, p: Path, ls: seq<Entry>, us: seq<Entry>, name: string, e: Emission)
    requires Sorted(ls) && Sorted(us) && p + [name] <= e.path
    ensures multiset(Merge(f, p, ls, us))[e] == multiset(Part(f, p, name, Find(ls, name), Find(us, name)))[e]
    decreases |ls| + |us|
  {
    if ls != [] {
      var l := ls[0];
      SortedTail(ls);
      HeadNotInTail(ls);
      if us != [] {
        SortedTail(us);
        HeadNotInTail(us);
        Compare(l.name, us[0].name);
      }
      if us == [] || Before(l.name, us[0].name) {
        if us != [] { NotListed(l.name, us); }
        CountSum(Part(f, p, l.name, Some(l.node), None), Merge(f, p, ls[1..], us), e);
        MergeByName(f, p, ls[1..], us, name, e);
        if name != l.name { PartOfOther(f, p, name, l.name, Some(l.node), None, e); }
      } else if Before(us[0].name, l.name) {
        NotListed(us[0].name, ls);
        MergeByName(f, p, ls, us[1..], name, e);
      } else {
        CountSum(Part(f, p, l.name, Some(l.node), Some(us[0].node)), Merge(f, p, ls[1..], us[1..]), e);
        MergeByName(f, p, ls[1..], us[1..], name, e);
        if name != l.name { PartOfOther(f, p, name, l.name, Some(l.node), Some(us[0].node), e); }
      }
    }
  }

  lemma MemberByName(f: Filter, p: Path, ls: seq<Entry>, us: seq<Entry>, name: string, e: Emission)
    requires Sorted(ls) && Sorted(us) && p + [name] <= e.path
    ensures e in Merge(f, p, ls, us) <==> e in Part(f, p, name, Find(ls, name), Find(us, name))
  {
    MergeByName(f, p, ls, us, name, e);
  }

  /** What an exclusive emission removes. */
  predicate Covers(e: Emission, q: Path) {
    e.Exclusive? && if e.collapsed then e.path <= q else e.path == q
  }

  ghost predicate Covered(es: seq<Emission>, q: Path) {
    exists e :: e in es && Covers(e, q)
  }

  lemma CoveredByName(f: Filter, p: Path, ls: seq<Entry>, us: seq<Entry>, r: Path)
    requires Sorted(ls) && Sorted(us) && r != []
    ensures Covered(Merge(f, p, ls, us), p + r) <==>
            Covered(Part(f, p, r[0], Find(ls, r[0]), Find(us, r[0])), p + r)
  {
    var part := Part(f, p, r[0], Find(ls, r[0]), Find(us, r[0]));
    if e :| e in Merge(f, p, ls, us) && Covers(e, p + r) {
      MergeBelow(f, p, ls, us, e);
      SameStart(p, e.path, r);
      MemberByName(f, p, ls, us, r[0], e);
      assert e in part;
    }
    if e :| e in part && Covers(e, p + r) {
      PartBelow(f, p, r[0], Find(ls, r[0]), Find(us, r[0]), e);
      MemberByName(f, p, ls, us, r[0], e);
      assert e in Merge(f, p, ls, us);
    }
  }

  lemma SameStart(p: Path, q: Path, r: Path)
    requires p < q <= p + r
    ensures r != [] && p + [r[0]] <= q
  {
    assert q[|p|] == (p + r)[|p|];
  }

  /* ---- exact classification without a filter ---- */

  function PassAll(): Filter { (p: Path, isDir: bool) => true }

  /** Some prefix of r is absent from upper, or a lower directory that faces an
      upper non-directory. */
  ghost predicate Orphaned(l: Node, u: Node, r: Path) {
    exists k :: 0 <= k <= |r| && OrphanAt(l, u, r[..k])
  }

  predicate OrphanAt(l: Node, u: Node, r: Path) {
    Lookup(u, r).None? || (Lookup(l, r).Some? && Lookup(l, r).value.Dir? && !Lookup(u, r).value.Dir?)
  }

  lemma OrphanedStep(l: Node, u: Node, r: Path)
    requires l.Dir? && u.Dir? && r != [] && Find(l.entries, r[0]).Some?
    ensures Orphaned(l, u, r) <==>
            Find(u.entries, r[0]).None? || Orphaned(Find(l.entries, r[0]).value, Find(u.entries, r[0]).value, r[1..])
  {
    assert !OrphanAt(l, u, r[..0]);
    forall k | 1 <= k <= |r| ensures r[..k] != [] && r[..k][0] == r[0] && r[..k][1..] == r[1..][..k - 1] {
    }
    if Find(u.entries, r[0]).None? {
      assert OrphanAt(l, u, r[..1]);
    } else {
      var l', u' := Find(l.entries, r[0]).value, Find(u.entries, r[0]).value;
      if k :| 0 <= k <= |r| && OrphanAt(l, u, r[..k]) {
        assert k >= 1 && OrphanAt(l', u', r[1..][..k - 1]);
      }
      if k :| 0 <= k <= |r| - 1 && OrphanAt(l', u', r[1..][..k]) {
        assert OrphanAt(l, u, r[..k + 1]);
      }
    }
  }

  function CommonCount(l: Option<Node>, u: Option<Node>, isDir: bool): nat {
    if l.Some? && u.Some? && !(l.value.Dir? && u.value.Dir?) && isDir == l.value.Dir? then 1 else 0
  }

  /* ---- for every filter ---- */

  /** No exclusive emission lies at or below another one, and nothing is emitted
      twice. */
  ghost predicate Disjoint(es: seq<Emission>) {
    && (forall d, e :: d in es && e in es && d.Exclusive? && e.Exclusive? && d.path <= e.path ==> d == e)
    && (forall e :: e in es ==> multiset(es)[e] == 1)
  }

  lemma {:induction false} LoneDisjoint(f: Filter, p: Path, n: Node)
    requires SortedTree(n)
    ensures Disjoint(Lone(f, p, n))
    decreases n, 1
  {
    if n.Dir? && f(p, true) && !f(p, false) {
      MergeDisjoint(f, p, n.entries, []);
    }
  }

  lemma {:induction false} BothDisjoint(f: Filter, p: Path, l: Node, u: Node)
    requires SortedTree(l) && SortedTree(u)
    ensures Disjoint(Both(f, p, l, u))
    decreases l, 1
  {
    if l.Dir? && u.Dir? {
      MergeDisjoint(f, p, l.entries, u.entries);
    }
  }

  lemma {:induction false} PartDisjoint(f: Filter, p: Path, ls: seq<Entry>, us: seq<Entry>, name: string)
    requires Sorted(ls) && Sorted(us)
    requires (forall e :: e in ls ==> SortedTree(e.node)) && (forall e :: e in us ==> SortedTree(e.node))
    ensures Disjoint(Part(f, p, name, Find(ls, name), Find(us, name)))
    decreases ls, 0
  {
    if Find(ls, name).Some? {
      var l := Entry(name, Find(ls, name).value);
      if Find(us, name).Some? {
        var u := Entry(name, Find(us, name).value);
        assert u in us;
        BothDisjoint(f, p + [name], l.node, u.node);
      } else {
        LoneDisjoint(f, p + [name], l.node);
      }
    }
  }

  lemma {:induction false} MergeDisjoint(f: Filter, p: Path, ls: seq<Entry>, us: seq<Entry>)
    requires Sorted(ls) && Sorted(us)
    requires (forall e :: e in ls ==> SortedTree(e.node)) && (forall e :: e in us ==> SortedTree(e.node))
    ensures Disjoint(Merge(f, p, ls, us))
    decreases ls, 1
  {
    var es := Merge(f, p, ls, us);
    forall d | d in es
      ensures multiset(es)[d] == 1
      ensures d.Exclusive? ==> forall e :: e in es && e.Exclusive? && d.path <= e.path ==> d == e
    {
      MergeBelow(f, p, ls, us, d);
      PartDisjoint(f, p, ls, us, d.path[|p|]);
      OneIsDisjoint(f, p, ls, us, d);
    }
  }

  /** One emission, given that its name's share is disjoint. */
  lemma OneIsDisjoint(f: Filter, p: Path, ls: seq<Entry>, us: seq<Entry>, d: Emission)
    requires Sorted(ls) && Sorted(us) && d in Merge(f, p, ls, us) && p < d.path
    requires Disjoint(Part(f, p, d.path[|p|], Find(ls, d.path[|p|]), Find(us, d.path[|p|])))
    ensures multiset(Merge(f, p, ls, us))[d] == 1
    ensures d.Exclusive? ==> forall e :: e in Merge(f, p, ls, us) && e.Exclusive? && d.path <= e.path ==> d == e
  {
    CountsOnce(f, p, ls, us, d);
    forall e | e in Merge(f, p, ls, us) && e.Exclusive? && d.Exclusive? && d.path <= e.path ensures d == e {
      TwoAreDisjoint(f, p, ls, us, d, e);
    }
  }

  lemma CountsOnce(f: Filter, p: Path, ls: seq<Entry>, us: seq<Entry>, d: Emission)
    requires Sorted(ls) && Sorted(us) && d in Merge(f, p, ls, us) && p < d.path
    requires Disjoint(Part(f, p, d.path[|p|], Find(ls, d.path[|p|]), Find(us, d.path[|p|])))
    ensures multiset(Merge(f, p, ls, us))[d] == 1
  {
    var name := d.path[|p|];
    MergeByName(f, p, ls, us, name, d);
    OnceInShare(Merge(f, p, ls, us), Part(f, p, name, Find(ls, name), Find(us, name)), d);
  }

  lemma OnceInShare(es: seq<Emission>, share: seq<Emission>, d: Emission)
    requires Disjoint(share) && d in es && multiset(es)[d] == multiset(share)[d]
    ensures multiset(es)[d] == 1
  {
    assert d in multiset(es);
    assert d in share;
  }

  lemma TwoAreDisjoint(f: Filter, p: Path, ls: seq<Entry>, us: seq<Entry>, d: Emission, e: Emission)
    requires Sorted(ls) && Sorted(us) && d in Merge(f, p, ls, us) && e in Merge(f, p, ls, us)
    requires p < d.path && d.Exclusive? && e.Exclusive? && d.path <= e.path
    requires Disjoint(Part(f, p, d.path[|p|], Find(ls, d.path[|p|]), Find(us, d.path[|p|])))
    ensures d == e
  {
    var name := d.path[|p|];
    assert e.path[|p|] == name;
    MemberByName(f, p, ls, us, name, d);
    MemberByName(f, p, ls, us, name, e);
  }

  /* ---- the main results, for a whole walk ---- */

  function UpperRoot(upper: Option<seq<Entry>>): Node {
    Dir(if upper.Some? then upper.value else [])
  }

  /** With any filter: no exclusive path at or below another, nothing twice. */
  lemma WalkIsDisjoint(f: Filter, lower: seq<Entry>, upper: Option<seq<Entry>>)
    requires SortedTree(Dir(lower)) && SortedTree(UpperRoot(upper))
    ensures Disjoint(Walk(f, lower, upper))
  {
    MergeDisjoint(f, [], lower, UpperRoot(upper).entries);
  }
}
