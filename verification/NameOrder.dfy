/** The byte order of names that directory listings are sorted by. */
module NameOrder {
  import opened FileTree

  predicate Before(a: string, b: string) {
    b != [] && (a == [] || a[0] < b[0] || (a[0] == b[0] && Before(a[1..], b[1..])))
  }

  /** Exactly one of before, equal and after holds. */
  lemma {:induction false} Compare(a: string, b: string)
    ensures Before(a, b) || a == b || Before(b, a)
    ensures !(Before(a, b) && Before(b, a)) && !Before(a, a)
    decreases a
  {
    if a != [] {
      Compare(a[1..], a[1..]);
      if b != [] && a[0] == b[0] {
        Compare(a[1..], b[1..]);
        assert a == [a[0]] + a[1..] && b == [b[0]] + b[1..];
      }
    }
  }

  lemma {:induction false} Transitive(a: string, b: string, c: string)
    requires Before(a, b) && Before(b, c)
    ensures Before(a, c)
    decreases a
  {
    if a != [] && a[0] == b[0] && b[0] == c[0] {
      Transitive(a[1..], b[1..], c[1..]);
    }
  }

  /** A listing in strictly increasing order. */
  predicate Sorted(es: seq<Entry>) {
    forall i, j :: 0 <= i < j < |es| ==> Before(es[i].name, es[j].name)
  }

  /** Every directory of the tree is listed in order. */
  predicate SortedTree(n: Node) {
    n.Dir? ==> Sorted(n.entries) && forall e :: e in n.entries ==> SortedTree(e.node)
  }

  lemma SortedTail(es: seq<Entry>)
    requires Sorted(es) && es != []
    ensures Sorted(es[1..]) && forall e :: e in es[1..] ==> Before(es[0].name, e.name)
  {
    assert forall k :: 0 <= k < |es| - 1 ==> es[1..][k] == es[k + 1];
  }

  /** What comes before a whole sorted listing is not in it. */
  lemma NotListed(name: string, es: seq<Entry>)
    requires Sorted(es) && es != [] && Before(name, es[0].name)
    ensures Find(es, name).None?
  {
    forall e | e in es ensures e.name != name {
      var i :| 0 <= i < |es| && es[i] == e;
      if i > 0 {
        Transitive(name, es[0].name, es[i].name);
      }
      Compare(name, name);
    }
  }

  lemma HeadNotInTail(es: seq<Entry>)
    requires Sorted(es) && es != []
    ensures Find(es[1..], es[0].name).None?
  {
    SortedTail(es);
    Compare(es[0].name, es[0].name);
  }
}
