/** Overlay whiteouts in one layer's diff tree: direct lookups, the pre-built index,
    and where the two agree. */
module Whiteout {
  import opened Wrappers
  import opened FileTree

  const WH := ".wh."
  const WHWH := ".wh..wh."
  const OPQ := ".wh..wh..opq"

  predicate StartsWith(name: string, prefix: string) { prefix <= name }

  function Parent(p: Path): Path
    requires p != []
  {
    p[..|p| - 1]
  }

  function Last(p: Path): string
    requires p != []
  {
    p[|p| - 1]
  }

  predicate Exists(diff: Node, p: Path) {
    Lookup(diff, p).Some?
  }

  /* ---- direct lookups ---- */

  /** hasFileWhiteout: a marker for the last component next to it. */
  predicate HasFileWhiteout(diff: Node, p: Path)
    requires p != []
  {
    Exists(diff, Parent(p) + [WH + Last(p)])
  }

  /** ancestorIsOpaque: an opaque marker in a proper ancestor below the root. */
  predicate AncestorIsOpaque(diff: Node, p: Path) {
    exists depth :: 1 <= depth < |p| && Exists(diff, p[..depth] + [OPQ])
  }

  /** The loop over the ancestors, nearest to the root first. */
  method FindOpaqueAncestor(diff: Node, p: Path) returns (opaqueFound: bool)
    ensures opaqueFound <==> AncestorIsOpaque(diff, p)
  {
    var depth := 1;
    while depth < |p|
      invariant 1 <= depth && forall d :: 1 <= d < depth && d < |p| ==> !Exists(diff, p[..d] + [OPQ])
    {
      if Exists(diff, p[..depth] + [OPQ]) {
        return true;
      }
      depth := depth + 1;
    }
    return false;
  }

  /* ---- the index ---- */

  predicate IsFileMarker(name: string) {
    name != OPQ && StartsWith(name, WH) && !StartsWith(name, WHWH)
  }

  /** What a marker at x masks. */
  function Masked(x: Path): Path
    requires x != [] && IsFileMarker(Last(x))
  {
    Parent(x) + [Last(x)[|WH|..]]
  }

  function MaskedBy(xs: set<Path>): set<Path> {
    set x | x in xs && x != [] && IsFileMarker(Last(x)) :: Masked(x)
  }

  function OpaqueBy(xs: set<Path>): set<Path> {
    set x | x in xs && x != [] && Last(x) == OPQ :: Parent(x)
  }

  class Index {
    var fileWhiteouts: set<Path>
    var opaqueDirectories: set<Path>

    /** BuildWhiteoutIndex: the walk starts at the diff directory itself, whose base
        name is looked at like any other. */
    constructor Build(base: string, diff: Node)
      ensures fileWhiteouts == MaskedBy({[base]}) + if diff.Dir? then MaskedBy(PathsBelow([], diff.entries)) else {}
      ensures opaqueDirectories == OpaqueBy({[base]}) + if diff.Dir? then OpaqueBy(PathsBelow([], diff.entries)) else {}
    {
      fileWhiteouts := {};
      opaqueDirectories := {};
      new;
      Visit([], base);
      if diff.Dir? {
        WalkDir([], diff.entries);
      }
    }

    /** The callback, for one name in one directory. */
    method Visit(dir: Path, name: string)
      modifies this
      ensures fileWhiteouts == old(fileWhiteouts) + MaskedBy({dir + [name]})
      ensures opaqueDirectories == old(opaqueDirectories) + OpaqueBy({dir + [name]})
    {
      var x := dir + [name];
      assert Parent(x) == dir && Last(x) == name;
      assert MaskedBy({x}) == if IsFileMarker(name) then {Masked(x)} else {};
      assert OpaqueBy({x}) == if name == OPQ then {dir} else {};
      if name == OPQ {
        opaqueDirectories := opaqueDirectories + {dir};
      } else if StartsWith(name, WH) && !StartsWith(name, WHWH) {
        fileWhiteouts := fileWhiteouts + {dir + [name[|WH|..]]};
      }
    }

    /** One entry with everything below it. */
    method VisitEntry(dir: Path, e: Entry)
      modifies this
      ensures fileWhiteouts == old(fileWhiteouts) + MaskedBy(Paths(dir + [e.name], e.node))
      ensures opaqueDirectories == old(opaqueDirectories) + OpaqueBy(Paths(dir + [e.name], e.node))
      decreases e.node, 1
    {
      var path := dir + [e.name];
      Visit(dir, e.name);
      if e.node.Dir? {
        WalkDir(path, e.node.entries);
        UnionMarks({path}, PathsBelow(path, e.node.entries));
        assert Paths(path, e.node) == {path} + PathsBelow(path, e.node.entries);
      } else {
        assert Paths(path, e.node) == {path};
      }
    }

    method WalkDir(dir: Path, entries: seq<Entry>)
      modifies this
      ensures fileWhiteouts == old(fileWhiteouts) + MaskedBy(PathsBelow(dir, entries))
      ensures opaqueDirectories == old(opaqueDirectories) + OpaqueBy(PathsBelow(dir, entries))
      decreases entries, 0
    {
      ghost var seen: set<Path> := {};
      for i := 0 to |entries|
        invariant seen + PathsBelow(dir, entries[i..]) == PathsBelow(dir, entries)
        invariant fileWhiteouts == old(fileWhiteouts) + MaskedBy(seen)
        invariant opaqueDirectories == old(opaqueDirectories) + OpaqueBy(seen)
      {
        var e := entries[i];
        ghost var below := Paths(dir + [e.name], e.node);
        PathsTurn(dir, entries, i);
        UnionMarks(seen, below);
        VisitEntry(dir, e);
        seen := seen + below;
      }
    }

    predicate IsMasked(p: Path)
      reads this
    {
      p in fileWhiteouts || exists depth :: 1 <= depth < |p| && p[..depth] in opaqueDirectories
    }
  }

  lemma PathsTurn(dir: Path, entries: seq<Entry>, i: nat)
    requires i < |entries|
    ensures PathsBelow(dir, entries[i..]) ==
            Paths(dir + [entries[i].name], entries[i].node) + PathsBelow(dir, entries[i + 1..])
  {
    assert entries[i..][0] == entries[i] && entries[i..][1..] == entries[i + 1..];
  }

  lemma UnionMarks(a: set<Path>, b: set<Path>)
    ensures MaskedBy(a + b) == MaskedBy(a) + MaskedBy(b)
    ensures OpaqueBy(a + b) == OpaqueBy(a) + OpaqueBy(b)
  {
  }

  /* ---- agreement ---- */

  /** The base name of the diff directory masks a path of one component. */
  predicate BaseMasks(base: string, p: Path) {
    |p| == 1 && IsFileMarker(base) && p[0] == base[|WH|..]
  }

  /** The marker of a name is a file marker exactly when the name itself does not
      look like one. */
  lemma MarkerOf(name: string)
    ensures IsFileMarker(WH + name) <==> !StartsWith(name, WH)
    ensures (WH + name)[|WH|..] == name
  {
    assert WHWH == WH + WH;
    if StartsWith(name, WH) {
      assert (WH + name)[..8] == WH + name[..4] == WHWH;
    }
    if StartsWith(WH + name, WHWH) {
      assert name[..4] == (WH + name)[4..8] == WHWH[4..8] == WH;
    }
    if WH + name == OPQ {
      assert name == OPQ[4..];
      assert OPQ[4..8] == WH;
    }
  }

  lemma MaskedBelowIff(diff: Node, p: Path)
    requires diff.Dir? && WellFormed(diff) && p != []
    ensures p in MaskedBy(PathsBelow([], diff.entries)) <==> HasFileWhiteout(diff, p) && !StartsWith(Last(p), WH)
  {
    var x := Parent(p) + [WH + Last(p)];
    BelowIff(diff, x);
    MarkerOf(Last(p));
    assert Parent(x) == Parent(p) && Last(x) == WH + Last(p) && Parent(p) + [Last(p)] == p;
    if p in MaskedBy(PathsBelow([], diff.entries)) {
      var y :| y in PathsBelow([], diff.entries) && y != [] && IsFileMarker(Last(y)) && Masked(y) == p;
      assert Parent(y) == Parent(p) && Last(y)[|WH|..] == Last(p);
      assert Last(y) == WH + Last(y)[|WH|..];
      assert y == Parent(y) + [Last(y)];
    }
    if HasFileWhiteout(diff, p) && !StartsWith(Last(p), WH) {
      assert Masked(x) == p;
    }
  }

  lemma OpaqueBelowIff(diff: Node, d: Path)
    requires diff.Dir? && WellFormed(diff)
    ensures d in OpaqueBy(PathsBelow([], diff.entries)) <==> Exists(diff, d + [OPQ])
  {
    var x := d + [OPQ];
    BelowIff(diff, x);
    assert Parent(x) == d && Last(x) == OPQ;
    if d in OpaqueBy(PathsBelow([], diff.entries)) {
      var y :| y in PathsBelow([], diff.entries) && y != [] && Last(y) == OPQ && Parent(y) == d;
      assert y == Parent(y) + [Last(y)];
    }
  }

  lemma BelowIff(diff: Node, x: Path)
    requires diff.Dir? && WellFormed(diff) && x != []
    ensures x in PathsBelow([], diff.entries) <==> Exists(diff, x)
  {
    PathsExact([], diff, x);
    assert x[0..] == x;
  }

  lemma MaskedByBase(base: string, p: Path)
    ensures p in MaskedBy({[base]}) <==> BaseMasks(base, p)
  {
    var x := [base];
    assert Parent(x) == [] && Last(x) == base;
    if IsFileMarker(base) {
      assert Masked(x) == [base[|WH|..]];
      assert x in {[base]} && Masked(x) in MaskedBy({[base]});
      if |p| == 1 {
        assert p == [p[0]];
      }
    }
  }

  /** What the index answers, for every tree and every path: the direct lookups,
      except that it misses the markers of names that start with ".wh.", and that it
      also obeys the base name of the diff directory. */
  lemma IndexAnswers(idx: Index, base: string, diff: Node, p: Path)
    requires diff.Dir? && WellFormed(diff) && p != []
    requires idx.fileWhiteouts == MaskedBy({[base]}) + MaskedBy(PathsBelow([], diff.entries))
    requires idx.opaqueDirectories == OpaqueBy({[base]}) + OpaqueBy(PathsBelow([], diff.entries))
    ensures idx.IsMasked(p) <==>
            || (HasFileWhiteout(diff, p) && !StartsWith(Last(p), WH))
            || AncestorIsOpaque(diff, p)
            || BaseMasks(base, p)
  {
    MaskedBelowIff(diff, p);
    MaskedByBase(base, p);
    forall depth | 1 <= depth < |p|
      ensures p[..depth] in idx.opaqueDirectories <==> Exists(diff, p[..depth] + [OPQ])
    {
      OpaqueBelowIff(diff, p[..depth]);
      assert p[..depth] != [] == Parent([base]);
    }
  }

  /** The index agrees with the direct lookups exactly when the path is masked by an
      opaque ancestor anyway, or: its last component does not start with ".wh." or
      has no marker, and the base name does not mask it or it has a marker. */
  lemma IndexAgreesIff(idx: Index, base: string, diff: Node, p: Path)
    requires diff.Dir? && WellFormed(diff) && p != []
    requires idx.fileWhiteouts == MaskedBy({[base]}) + MaskedBy(PathsBelow([], diff.entries))
    requires idx.opaqueDirectories == OpaqueBy({[base]}) + OpaqueBy(PathsBelow([], diff.entries))
    ensures (idx.IsMasked(p) <==> HasFileWhiteout(diff, p) || AncestorIsOpaque(diff, p)) <==>
            || AncestorIsOpaque(diff, p)
            || (if HasFileWhiteout(diff, p) then !StartsWith(Last(p), WH) || BaseMasks(base, p)
                else !BaseMasks(base, p))
  {
    IndexAnswers(idx, base, diff, p);
  }

  /** So it agrees on every path that does not itself look like a marker, when the
      diff directory does not look like one. */
  lemma IndexAgrees(idx: Index, base: string, diff: Node, p: Path)
    requires diff.Dir? && WellFormed(diff) && p != [] && !StartsWith(Last(p), WH) && !StartsWith(base, WH)
    requires idx.fileWhiteouts == MaskedBy({[base]}) + MaskedBy(PathsBelow([], diff.entries))
    requires idx.opaqueDirectories == OpaqueBy({[base]}) + OpaqueBy(PathsBelow([], diff.entries))
    ensures idx.IsMasked(p) <==> HasFileWhiteout(diff, p) || AncestorIsOpaque(diff, p)
  {
    IndexAnswers(idx, base, diff, p);
  }

  /** Where it does not: the marker of ".wh.x" is found directly, not by the index. */
  lemma IndexMissesMarkedMarker(idx: Index)
    requires var es := [Entry(".wh..wh.x", Leaf(Regular))];
             && idx.fileWhiteouts == MaskedBy({["fs"]}) + MaskedBy(PathsBelow([], es))
             && idx.opaqueDirectories == OpaqueBy({["fs"]}) + OpaqueBy(PathsBelow([], es))
    ensures HasFileWhiteout(Dir([Entry(".wh..wh.x", Leaf(Regular))]), [".wh.x"]) && !idx.IsMasked([".wh.x"])
  {
    var diff, p := Dir([Entry(".wh..wh.x", Leaf(Regular))]), [".wh.x"];
    assert Parent(p) == [] && WH + Last(p) == ".wh..wh.x";
    assert Parent(p) + [WH + Last(p)] == [".wh..wh.x"] && [".wh..wh.x"][1..] == [];
    assert Lookup(diff, [".wh..wh.x"]) == Some(Leaf(Regular));
    assert ".wh.x"[..4] == WH;
    IndexAnswers(idx, "fs", diff, p);
  }

  /* ---- the two resolvers' views of one layer ---- */

  /** fsStat of the plain resolver looks for an opaque marker only next to the path,
      and there also in the root of the diff. */
  predicate ParentIsOpaque(diff: Node, p: Path)
    requires p != []
  {
    Exists(diff, Parent(p) + [OPQ])
  }

  predicate PlainMasks(diff: Node, p: Path)
    requires p != []
  {
    ParentIsOpaque(diff, p) || HasFileWhiteout(diff, p)
  }

  predicate CompliantMasks(diff: Node, p: Path)
    requires p != []
  {
    HasFileWhiteout(diff, p) || AncestorIsOpaque(diff, p)
  }

  /** The compliant resolver is documented as extending the plain one. What the plain
      one masks it masks too, exactly except for a path of one component without a
      marker of its own under a diff whose root is opaque. */
  lemma CompliantExtendsPlainIff(diff: Node, p: Path)
    requires p != []
    ensures (PlainMasks(diff, p) ==> CompliantMasks(diff, p)) <==>
            !(|p| == 1 && Exists(diff, [OPQ]) && !HasFileWhiteout(diff, p))
  {
    if |p| == 1 {
      assert Parent(p) == [] && [] + [OPQ] == [OPQ];
    } else {
      assert Parent(p) == p[..|p| - 1];
    }
  }

  /** Such a path: "f" under a diff whose root is opaque. */
  lemma OpaqueRootIsMissed()
    ensures var diff := Dir([Entry(OPQ, Leaf(Regular))]); PlainMasks(diff, ["f"]) && !CompliantMasks(diff, ["f"])
  {
    var diff := Dir([Entry(OPQ, Leaf(Regular))]);
    assert Parent(["f"]) == [] && [] + [OPQ] == [OPQ] && [OPQ][1..] == [];
    assert diff.entries[0].name == OPQ;
    assert Find(diff.entries, OPQ) == Some(Leaf(Regular));
    assert Lookup(diff, [OPQ]) == Some(Leaf(Regular));
    var marker := [] + [WH + "f"];
    assert marker == [WH + "f"] && |OPQ| != |WH + "f"|;
    assert diff.entries[1..] == [];
    assert Find(diff.entries, WH + "f") == None;
  }
}
