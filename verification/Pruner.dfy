/** The filter-driven pruner: which delete operations its walk emits, and what
    they leave of the tree. The filter is arbitrary. */
module Pruner {
  import opened Wrappers
  import opened FileTree

  datatype OpKind = Remove | RemoveAll
  datatype Op = Op(kind: OpKind, path: Path)

  /* ---- what walkDir emits ---- */

  function OpsOf(f: Filter, p: Path, n: Node): seq<Op>
    decreases n, 1
  {
    match n
    case Leaf(_) => if f(p, false) then [] else [Op(Remove, p)]
    case Dir(es) =>
      if !f(p, true) then [Op(RemoveAll, p)]
      else OpsBelow(f, p, es) + if f(p, false) || KeepsBelow(f, p, es) then [] else [Op(RemoveAll, p)]
  }

  function OpsBelow(f: Filter, p: Path, es: seq<Entry>): seq<Op>
    decreases es, 0
  {
    if es == [] then [] else OpsOf(f, p + [es[0].name], es[0].node) + OpsBelow(f, p, es[1..])
  }

  predicate Keeps(f: Filter, p: Path, n: Node)
    decreases n, 1
  {
    match n
    case Leaf(_) => f(p, false)
    case Dir(es) => f(p, true) && (f(p, false) || KeepsBelow(f, p, es))
  }

  predicate KeepsBelow(f: Filter, p: Path, es: seq<Entry>)
    decreases es, 0
  {
    es != [] && (Keeps(f, p + [es[0].name], es[0].node) || KeepsBelow(f, p, es[1..]))
  }

  class Walk {
    const accepts: Filter
    var jobs: seq<Op>     // the job channel: everything enqueued so far

    constructor (accepts: Filter)
      ensures this.accepts == accepts && jobs == []
    {
      this.accepts := accepts;
      jobs := [];
    }

    method Enqueue(kind: OpKind, path: Path)
      modifies this
      ensures jobs == old(jobs) + [Op(kind, path)]
    {
      jobs := jobs + [Op(kind, path)];
    }

    /** walkDir: visits one directory level and recurses; the result tells whether
        something below was kept. */
    method WalkDir(dir: Path, entries: seq<Entry>) returns (keptAny: bool)
      modifies this
      ensures jobs == old(jobs) + OpsBelow(accepts, dir, entries)
      ensures keptAny <==> KeepsBelow(accepts, dir, entries)
      decreases entries, 0
    {
      keptAny := false;
      ghost var before, emitted: seq<Op> := jobs, [];
      for i := 0 to |entries|
        invariant jobs == before + emitted
        invariant emitted + OpsBelow(accepts, dir, entries[i..]) == OpsBelow(accepts, dir, entries)
        invariant keptAny || KeepsBelow(accepts, dir, entries[i..]) <==> KeepsBelow(accepts, dir, entries)
      {
        ghost var ops := OpsOf(accepts, dir + [entries[i].name], entries[i].node);
        NextEntry(accepts, dir, entries, i, before, emitted);
        var kept := WalkEntry(dir, entries[i]);
        keptAny := keptAny || kept;
        emitted := emitted + ops;
      }
      assert emitted == OpsBelow(accepts, dir, entries);
    }

    /** The body of the loop over a directory. */
    method WalkEntry(dir: Path, e: Entry) returns (kept: bool)
      modifies this
      ensures jobs == old(jobs) + OpsOf(accepts, dir + [e.name], e.node)
      ensures kept <==> Keeps(accepts, dir + [e.name], e.node)
      decreases e.node, 1
    {
      var path := dir + [e.name];
      if !accepts(path, e.node.Dir?) {
        Enqueue(if e.node.Dir? then RemoveAll else Remove, path);
        return false;
      }
      if !e.node.Dir? {
        return true;
      }
      var directMatch := accepts(path, false);
      var childKept := WalkDir(path, e.node.entries);
      if directMatch || childKept {
        return true;
      }
      Enqueue(RemoveAll, path);
      return false;
    }
  }

  lemma NextEntry(f: Filter, p: Path, es: seq<Entry>, i: nat, before: seq<Op>, emitted: seq<Op>)
    requires i < |es|
    ensures var ops := OpsOf(f, p + [es[i].name], es[i].node);
            && (before + emitted) + ops == before + (emitted + ops)
            && emitted + OpsBelow(f, p, es[i..]) == (emitted + ops) + OpsBelow(f, p, es[i + 1..])
    ensures KeepsBelow(f, p, es[i..]) <==> Keeps(f, p + [es[i].name], es[i].node) || KeepsBelow(f, p, es[i + 1..])
  {
    assert es[i..][0] == es[i] && es[i..][1..] == es[i + 1..];
  }

  /* ---- what the operations do ---- */

  predicate Covers(op: Op, q: Path) {
    if op.kind.RemoveAll? then op.path <= q else op.path == q
  }

  ghost predicate Covered(ops: seq<Op>, q: Path) {
    exists op :: op in ops && Covers(op, q)
  }

  function ApplyAll(fs: set<Path>, ops: seq<Op>): set<Path> {
    if ops == [] then fs else ApplyAll((set q | q in fs && !Covers(ops[0], q)), ops[1..])
  }

  /** Only what is covered disappears, so the order does not matter. */
  lemma {:induction false} AppliedExactly(fs: set<Path>, ops: seq<Op>, q: Path)
    ensures q in ApplyAll(fs, ops) <==> q in fs && !Covered(ops, q)
  {
    if ops != [] {
      var rest := set r | r in fs && !Covers(ops[0], r);
      AppliedExactly(rest, ops[1..], q);
      if Covered(ops, q) {
        var op :| op in ops && Covers(op, q);
        assert op == ops[0] || op in ops[1..];
      }
    }
  }

  /* ---- what should survive ---- */

  /** The path p + r must stay for its own sake: it exists, every directory above
      it (from p on) is let through, and it is an accepted leaf or a directory
      that matches directly. */
  ghost predicate Anchor(f: Filter, p: Path, n: Node, r: Path) {
    && Lookup(n, r).Some?
    && (forall k :: 0 <= k < |r| ==> f(p + r[..k], true))
    && f(p + r, false)
    && (Lookup(n, r).value.Dir? ==> f(p + r, true))
  }

  /** p + r must stay: it is an anchor or lies above one. */
  ghost predicate Survives(f: Filter, p: Path, n: Node, r: Path) {
    exists a :: r <= a && Anchor(f, p, n, a)
  }

  lemma AnchorStep(f: Filter, p: Path, n: Node, name: string, child: Node, r: Path)
    requires n.Dir? && Find(n.entries, name) == Some(child)
    ensures Anchor(f, p, n, [name] + r) <==> f(p, true) && Anchor(f, p + [name], child, r)
  {
    var whole := [name] + r;
    assert whole[1..] == r && p + whole == (p + [name]) + r && p + whole[..0] == p;
    forall k | 0 <= k < |r| ensures p + whole[..k + 1] == (p + [name]) + r[..k] {
    }
    if f(p, true) && Anchor(f, p + [name], child, r) {
      forall k | 0 <= k < |whole| ensures f(p + whole[..k], true) {
        if k > 0 {
          assert f((p + [name]) + r[..k - 1], true);
        }
      }
    }
    if Anchor(f, p, n, whole) {
      assert f(p + whole[..0], true);
      forall k | 0 <= k < |r| ensures f((p + [name]) + r[..k], true) {
        assert f(p + whole[..k + 1], true);
      }
    }
  }

  lemma {:induction false} KeepsBelowSome(f: Filter, p: Path, es: seq<Entry>)
    ensures KeepsBelow(f, p, es) <==> exists e :: e in es && Keeps(f, p + [e.name], e.node)
  {
    if es != [] {
      KeepsBelowSome(f, p, es[1..]);
      if e :| e in es && Keeps(f, p + [e.name], e.node) {
        assert e == es[0] || e in es[1..];
      }
    }
  }

  /** keptAny means what it says: something at or below p survives. */
  lemma {:induction false} KeepsIffAnchor(f: Filter, p: Path, n: Node)
    requires WellFormed(n)
    ensures Keeps(f, p, n) <==> exists r :: Anchor(f, p, n, r)
    decreases n
  {
    assert p + [] == p;
    if n.Leaf? {
      assert Anchor(f, p, n, []) <==> f(p, false);
      if r :| Anchor(f, p, n, r) {
        assert r == [];
      }
    } else {
      KeepsBelowSome(f, p, n.entries);
      assert Anchor(f, p, n, []) <==> f(p, false) && f(p, true);
      if Keeps(f, p, n) && !f(p, false) {
        var e :| e in n.entries && Keeps(f, p + [e.name], e.node);
        KeepsIffAnchor(f, p + [e.name], e.node);
        var r :| Anchor(f, p + [e.name], e.node, r);
        EntryIsFound(n.entries, e);
        AnchorStep(f, p, n, e.name, e.node, r);
      }
      if r :| Anchor(f, p, n, r) && r != [] {
        AnchorBelow(f, p, n, r);
        var e := Entry(r[0], Find(n.entries, r[0]).value);
        KeepsIffAnchor(f, p + [e.name], e.node);
      }
    }
  }

  lemma EntryIsFound(es: seq<Entry>, e: Entry)
    requires DistinctNames(es) && e in es
    ensures Find(es, e.name) == Some(e.node)
  {
    var i :| 0 <= i < |es| && es[i] == e;
    FindEntry(es, i);
  }

  lemma AnchorBelow(f: Filter, p: Path, n: Node, r: Path)
    requires Anchor(f, p, n, r) && r != []
    ensures n.Dir? && Find(n.entries, r[0]).Some? && f(p, true)
    ensures Anchor(f, p + [r[0]], Find(n.entries, r[0]).value, r[1..])
  {
    AnchorStep(f, p, n, r[0], Find(n.entries, r[0]).value, r[1..]);
    assert [r[0]] + r[1..] == r;
  }

  /** Every operation emitted for p aims at p or below it. */
  lemma {:induction false} OpsAimBelow(f: Filter, p: Path, n: Node, op: Op)
    requires op in OpsOf(f, p, n)
    ensures p <= op.path && (op.path == p ==> op == Op(if n.Dir? then RemoveAll else Remove, p))
    ensures op.path == p && n.Dir? ==> !f(p, true) || !(f(p, false) || KeepsBelow(f, p, n.entries))
    decreases n, 1
  {
    if n.Dir? && op in OpsBelow(f, p, n.entries) {
      OpsBelowSome(f, p, n.entries, op);
    }
  }

  /** An operation emitted below p belongs to one entry. */
  lemma {:induction false} OpsBelowSome(f: Filter, p: Path, es: seq<Entry>, op: Op)
    requires op in OpsBelow(f, p, es)
    ensures exists e :: e in es && op in OpsOf(f, p + [e.name], e.node) && p + [e.name] <= op.path
    decreases es, 0
  {
    if op in OpsOf(f, p + [es[0].name], es[0].node) {
      OpsAimBelow(f, p + [es[0].name], es[0].node, op);
    } else {
      OpsBelowSome(f, p, es[1..], op);
    }
  }

  lemma {:induction false} OpsBelowHas(f: Filter, p: Path, es: seq<Entry>, e: Entry, op: Op)
    requires e in es && op in OpsOf(f, p + [e.name], e.node)
    ensures op in OpsBelow(f, p, es)
  {
    if e != es[0] {
      OpsBelowHas(f, p, es[1..], e, op);
    }
  }

  lemma CoveredOnlyByChild(f: Filter, p: Path, es: seq<Entry>, name: string, child: Node, q: Path, op: Op)
    requires DistinctNames(es) && Find(es, name) == Some(child) && p + [name] <= q
    requires op in OpsBelow(f, p, es) && Covers(op, q)
    ensures op in OpsOf(f, p + [name], child)
  {
    OpsBelowSome(f, p, es, op);
    var e :| e in es && op in OpsOf(f, p + [e.name], e.node) && p + [e.name] <= op.path;
    assert op.path <= q;
    assert e.name == q[|p|] == name;
    EntryIsFound(es, e);
  }

  /** Coverage below a directory is decided by the operations of one child. */
  lemma CoveredByChild(f: Filter, p: Path, es: seq<Entry>, name: string, child: Node, q: Path)
    requires DistinctNames(es) && Find(es, name) == Some(child) && p + [name] <= q
    ensures Covered(OpsBelow(f, p, es), q) <==> Covered(OpsOf(f, p + [name], child), q)
  {
    if Covered(OpsBelow(f, p, es), q) {
      var op :| op in OpsBelow(f, p, es) && Covers(op, q);
      CoveredOnlyByChild(f, p, es, name, child, q, op);
    }
    if Covered(OpsOf(f, p + [name], child), q) {
      var op :| op in OpsOf(f, p + [name], child) && Covers(op, q);
      OpsBelowHas(f, p, es, Entry(name, child), op);
    }
  }

  /** The heart of the matter, for the walk below p: what exists and is not covered
      is exactly what must survive. */
  lemma {:induction false} CoveredIffNotSurvives(f: Filter, p: Path, n: Node, r: Path)
    requires WellFormed(n) && Lookup(n, r).Some?
    ensures Covered(OpsOf(f, p, n), p + r) <==> !Survives(f, p, n, r)
    decreases |r|
  {
    KeepsIffAnchor(f, p, n);
    if !Keeps(f, p, n) {
      var op := Op(if n.Dir? then RemoveAll else Remove, p);
      assert op in OpsOf(f, p, n) && Covers(op, p + r);
    } else if r == [] {
      var a :| Anchor(f, p, n, a);
      assert p + r == p && r <= a;
      if op :| op in OpsOf(f, p, n) && Covers(op, p) {
        OpsAimBelow(f, p, n, op);
      }
    } else {
      DeeperCovered(f, p, n, r);
    }
  }

  lemma DeeperCovered(f: Filter, p: Path, n: Node, r: Path)
    requires WellFormed(n) && Lookup(n, r).Some? && r != [] && Keeps(f, p, n)
    ensures Covered(OpsOf(f, p, n), p + r) <==> !Survives(f, p, n, r)
    decreases |r|, 0
  {
    var child, q := Find(n.entries, r[0]).value, p + [r[0]];
    SurvivesBelow(f, p, n, r);
    assert p + r == q + r[1..];
    CoveredIffNotSurvives(f, q, child, r[1..]);
    CoveredByChild(f, p, n.entries, r[0], child, p + r);
    assert OpsOf(f, p, n) == OpsBelow(f, p, n.entries);
  }

  /** Under a directory that is kept, what survives is decided by the child. */
  lemma SurvivesBelow(f: Filter, p: Path, n: Node, r: Path)
    requires WellFormed(n) && Lookup(n, r).Some? && r != [] && Keeps(f, p, n)
    ensures Survives(f, p, n, r) <==> Survives(f, p + [r[0]], Find(n.entries, r[0]).value, r[1..])
  {
    var child := Find(n.entries, r[0]).value;
    if a :| r <= a && Anchor(f, p, n, a) {
      AnchorBelow(f, p, n, a);
      assert r[1..] <= a[1..];
    }
    if a :| r[1..] <= a && Anchor(f, p + [r[0]], child, a) {
      AnchorStep(f, p, n, r[0], child, a);
      assert r <= [r[0]] + a;
    }
  }

  /* ---- the main results, for a whole run from the root ---- */

  /** The root itself is never asked about. */
  function Rooted(f: Filter): Filter {
    (p: Path, isDir: bool) => p == [] || f(p, isDir)
  }

  /** A path under the root must stay: it or something below it is an accepted leaf
      or a directly matching directory, all of whose ancestors below the root are
      let through. */
  ghost predicate MustStay(f: Filter, root: Node, q: Path) {
    Survives(Rooted(f), [], root, q)
  }

  lemma {:induction false} RootedOps(f: Filter, p: Path, es: seq<Entry>)
    requires forall q, d :: p < q ==> f(q, d) == Rooted(f)(q, d)
    ensures OpsBelow(f, p, es) == OpsBelow(Rooted(f), p, es) && KeepsBelow(f, p, es) == KeepsBelow(Rooted(f), p, es)
    decreases es
  {
    if es != [] {
      RootedOps(f, p, es[1..]);
      var e := es[0];
      assert p < p + [e.name];
      if e.node.Dir? {
        RootedOps(f, p + [e.name], e.node.entries);
      }
    }
  }

  /** Applying the emitted operations in any order leaves exactly what must stay. */
  lemma PruneIsExact(f: Filter, root: Node, ops: seq<Op>, q: Path)
    requires root.Dir? && WellFormed(root) && q != []
    requires multiset(ops) == multiset(OpsBelow(f, [], root.entries))
    ensures q in ApplyAll(Paths([], root), ops) <==> Lookup(root, q).Some? && MustStay(f, root, q)
  {
    var emitted := OpsBelow(f, [], root.entries);
    AppliedExactly(Paths([], root), ops, q);
    PathsExact([], root, q);
    assert q[0..] == q && [] + q == q;
    assert forall op :: op in ops <==> op in emitted by {
      assert forall op :: op in ops <==> op in multiset(ops);
      assert forall op :: op in emitted <==> op in multiset(emitted);
    }
    assert Covered(ops, q) <==> Covered(emitted, q);
    RootedOps(f, [], root.entries);
    assert OpsOf(Rooted(f), [], root) == emitted;
    if Lookup(root, q).Some? {
      CoveredIffNotSurvives(Rooted(f), [], root, q);
    }
  }

  /** No operation aims at an ancestor of a path that must stay, nor at the path. */
  lemma NoOpAboveSurvivor(f: Filter, root: Node, op: Op, q: Path)
    requires root.Dir? && WellFormed(root) && q != [] && Lookup(root, q).Some?
    requires op in OpsBelow(f, [], root.entries) && MustStay(f, root, q)
    ensures !(op.path <= q)
  {
    RootedOps(f, [], root.entries);
    if op.path <= q {
      OpsBelowSome(Rooted(f), [], root.entries, op);
      var a :| q <= a && Anchor(Rooted(f), [], root, a);
      assert op in OpsOf(Rooted(f), [], root) && [] + op.path == op.path;
      assert MustStay(f, root, op.path);
      LookupPrefix(root, op.path, q);
      CoveredIffNotSurvives(Rooted(f), [], root, op.path);
      assert Covers(op, op.path);
    }
  }

  lemma {:induction false} OpTruthful(f: Filter, p: Path, n: Node, op: Op)
    requires WellFormed(n) && op in OpsOf(f, p, n)
    ensures p <= op.path && Lookup(n, op.path[|p|..]).Some?
    ensures op.kind.RemoveAll? <==> Lookup(n, op.path[|p|..]).value.Dir?
    decreases n
  {
    OpsAimBelow(f, p, n, op);
    if op.path == p {
      assert op.path[|p|..] == [];
    } else {
      OpsBelowSome(f, p, n.entries, op);
      var e :| e in n.entries && op in OpsOf(f, p + [e.name], e.node) && p + [e.name] <= op.path;
      EntryIsFound(n.entries, e);
      OpTruthful(f, p + [e.name], e.node, op);
      assert op.path[|p|..][0] == e.name && op.path[|p|..][1..] == op.path[|p| + 1..];
    }
  }

  /** Every operation aims at a path of the tree, and removes recursively exactly when
      that is a directory. */
  lemma OpsAreTruthful(f: Filter, root: Node, op: Op)
    requires root.Dir? && WellFormed(root) && op in OpsBelow(f, [], root.entries)
    ensures Lookup(root, op.path).Some?
    ensures op.kind.RemoveAll? <==> Lookup(root, op.path).value.Dir?
  {
    OpsBelowSome(f, [], root.entries, op);
    var e :| e in root.entries && op in OpsOf(f, [] + [e.name], e.node) && [] + [e.name] <= op.path;
    EntryIsFound(root.entries, e);
    OpTruthful(f, [] + [e.name], e.node, op);
    assert op.path[0] == e.name;
  }

  /** The result of the walk is true exactly when some path must stay. */
  lemma KeptAnyIffSomethingStays(f: Filter, root: Node)
    requires root.Dir? && WellFormed(root)
    ensures KeepsBelow(f, [], root.entries) <==> exists q :: q != [] && MustStay(f, root, q)
  {
    RootedOps(f, [], root.entries);
    KeepsBelowSome(Rooted(f), [], root.entries);
    if KeepsBelow(f, [], root.entries) {
      var e :| e in root.entries && Keeps(Rooted(f), [] + [e.name], e.node);
      KeepsIffAnchor(Rooted(f), [] + [e.name], e.node);
      var r :| Anchor(Rooted(f), [] + [e.name], e.node, r);
      EntryIsFound(root.entries, e);
      AnchorStep(Rooted(f), [], root, e.name, e.node, r);
      assert MustStay(f, root, [e.name] + r);
    }
    if q :| q != [] && MustStay(f, root, q) {
      var a :| q <= a && Anchor(Rooted(f), [], root, a);
      AnchorBelow(Rooted(f), [], root, a);
      var e := Entry(a[0], Find(root.entries, a[0]).value);
      KeepsIffAnchor(Rooted(f), [] + [e.name], e.node);
    }
  }
}
