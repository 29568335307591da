/** Finite directory trees and component paths. */
module FileTree {
  import opened Wrappers

  type Path = seq<string>

  /** Regular files, symbolic links (never followed) and everything else that has
      no entries are leaves. */
  datatype Kind = Regular | Symlink | Special
  datatype Node = Leaf(kind: Kind) | Dir(entries: seq<Entry>)
  datatype Entry = Entry(name: string, node: Node)

  /** Whether a path takes part; the flag says whether it is asked about as a
      directory. */
  type Filter = (Path, bool) -> bool

  function Find(es: seq<Entry>, name: string): (r: Option<Node>)
    ensures r.Some? ==> Entry(name, r.value) in es
    ensures r.None? <==> forall e :: e in es ==> e.name != name
  {
    if es == [] then None else if es[0].name == name then Some(es[0].node) else Find(es[1..], name)
  }

  /** The node at p, below n. */
  function Lookup(n: Node, p: Path): Option<Node> {
    if p == [] then Some(n)
    else if n.Leaf? then None
    else
      var child := Find(n.entries, p[0]);
      if child.None? then None else Lookup(child.value, p[1..])
  }

  /** Whatever is above a node is a directory. */
  lemma {:induction false} LookupPrefix(n: Node, p: Path, q: Path)
    requires p <= q && Lookup(n, q).Some?
    ensures Lookup(n, p).Some? && (p < q ==> Lookup(n, p).value.Dir?)
    decreases |p|
  {
    if p != [] {
      LookupPrefix(Find(n.entries, q[0]).value, p[1..], q[1..]);
    }
  }

  predicate DistinctNames(es: seq<Entry>) {
    forall i, j :: 0 <= i < j < |es| ==> es[i].name != es[j].name
  }

  /** No directory lists a name twice. */
  predicate WellFormed(n: Node) {
    n.Dir? ==> DistinctNames(n.entries) && forall e :: e in n.entries ==> WellFormed(e.node)
  }

  /** With distinct names an entry is found under its name. */
  lemma {:induction false} FindEntry(es: seq<Entry>, i: nat)
    requires DistinctNames(es) && i < |es|
    ensures Find(es, es[i].name) == Some(es[i].node)
  {
    if i > 0 {
      assert forall k :: 0 <= k < |es| - 1 ==> es[1..][k] == es[k + 1];
      FindEntry(es[1..], i - 1);
    }
  }

  /** Every path of the tree below p, p itself included. */
  function Paths(p: Path, n: Node): set<Path>
    decreases n, 1
  {
    {p} + if n.Leaf? then {} else PathsBelow(p, n.entries)
  }

  function PathsBelow(p: Path, es: seq<Entry>): set<Path>
    decreases es, 0
  {
    if es == [] then {} else Paths(p + [es[0].name], es[0].node) + PathsBelow(p, es[1..])
  }

  lemma {:induction false} PathsBelowExact(p: Path, es: seq<Entry>, q: Path)
    requires DistinctNames(es) && forall e :: e in es ==> WellFormed(e.node)
    ensures q in PathsBelow(p, es) <==>
            |p| < |q| && p <= q && Find(es, q[|p|]).Some? && Lookup(Find(es, q[|p|]).value, q[|p| + 1..]).Some?
    decreases es, 0
  {
    if es != [] {
      var e := es[0];
      PathsExact(p + [e.name], e.node, q);
      assert forall k :: 0 <= k < |es| - 1 ==> es[1..][k] == es[k + 1];
      PathsBelowExact(p, es[1..], q);
      if |p| < |q| && p <= q && q[|p|] == e.name {
        assert p + [e.name] <= q;
        assert Find(es[1..], e.name).None?;
      }
    }
  }

  /** Paths lists exactly the paths at which Lookup finds a node. */
  lemma {:induction false} PathsExact(p: Path, n: Node, q: Path)
    requires WellFormed(n)
    ensures q in Paths(p, n) <==> p <= q && Lookup(n, q[|p|..]).Some?
    decreases n, 1
  {
    if n.Dir? {
      PathsBelowExact(p, n.entries, q);
      if p <= q && |p| < |q| {
        assert q[|p|..][1..] == q[|p| + 1..];
      }
    }
    if p <= q && |p| == |q| {
      assert q == p && q[|p|..] == [];
    }
  }
}
