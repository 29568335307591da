/** The committer's min-heap: a slice ordered by index, worked on in place by the
    sift-up and sift-down loops of container/heap. */
module ResultHeap {
  import opened Pipeline

  function Parent(k: int): int { (k - 1) / 2 }

  /** The result at k is not below its parent. */
  predicate EdgeOk(s: seq<WorkerResult>, k: int) {
    0 < k < |s| ==> s[Parent(k)].index <= s[k].index
  }

  /** The result at k is not below its grandparent. */
  predicate SkipOk(s: seq<WorkerResult>, k: int) {
    0 < k < |s| && 0 < Parent(k) ==> s[Parent(Parent(k))].index <= s[k].index
  }

  predicate Ordered(s: seq<WorkerResult>) {
    forall k :: 0 < k < |s| ==> EdgeOk(s, k)
  }

  /** Ordered, except perhaps between j and its parent; what is below j is already
      above j's parent. */
  predicate OrderedButUp(s: seq<WorkerResult>, j: int) {
    forall k :: 0 < k < |s| ==> (k != j ==> EdgeOk(s, k)) && (Parent(k) == j ==> SkipOk(s, k))
  }

  /** The first n are ordered, except perhaps between i and its children, which are
      already above i's parent. */
  predicate OrderedButDown(s: seq<WorkerResult>, n: int, i: int) {
    n <= |s| && forall k :: 0 < k < n ==> (Parent(k) != i ==> EdgeOk(s, k)) && (Parent(k) == i ==> SkipOk(s, k))
  }

  /** The root is a minimum. */
  lemma {:induction false} RootIsMin(s: seq<WorkerResult>, k: nat)
    requires Ordered(s) && k < |s|
    ensures s[0].index <= s[k].index
    decreases k
  {
    if k > 0 {
      assert EdgeOk(s, k);
      RootIsMin(s, Parent(k));
    }
  }

  lemma RootIsMinOfAll(s: seq<WorkerResult>)
    requires Ordered(s) && s != []
    ensures IsMin(multiset(s), s[0])
  {
    forall q | q in multiset(s) ensures s[0].index <= q.index {
      var k :| 0 <= k < |s| && s[k] == q;
      RootIsMin(s, k);
    }
  }

  lemma CutLast<T>(s: seq<T>)
    requires s != []
    ensures multiset(s) == multiset(s[..|s| - 1]) + multiset{s[|s| - 1]}
  {
    assert s == s[..|s| - 1] + [s[|s| - 1]];
  }

  function Swapped<T>(s: seq<T>, i: int, j: int): (t: seq<T>)
    requires 0 <= i < |s| && 0 <= j < |s|
    ensures |t| == |s| && multiset(t) == multiset(s)
    ensures forall k :: 0 <= k < |s| ==> t[k] == if k == i then s[j] else if k == j then s[i] else s[k]
  {
    s[i := s[j]][j := s[i]]
  }

  lemma SiftUp(s: seq<WorkerResult>, j: int)
    requires 0 < j < |s| && OrderedButUp(s, j) && s[j].index < s[Parent(j)].index
    ensures OrderedButUp(Swapped(s, Parent(j), j), Parent(j))
  {
    var p := Parent(j);
    var t := Swapped(s, p, j);
    forall k | 0 < k < |t| ensures (k != p ==> EdgeOk(t, k)) && (Parent(k) == p ==> SkipOk(t, k)) {
      assert EdgeOk(s, k) || k == j;
      assert p > 0 ==> EdgeOk(s, p);
      if Parent(k) == j {
        assert SkipOk(s, k);
      }
    }
  }

  lemma SiftDown(s: seq<WorkerResult>, n: int, i: int, j: int)
    requires 0 <= i < j < n <= |s| && Parent(j) == i && OrderedButDown(s, n, i)
    requires s[j].index < s[i].index
    requires forall k :: 0 < k < n && Parent(k) == i ==> s[j].index <= s[k].index
    ensures OrderedButDown(Swapped(s, i, j), n, j)
  {
    var t := Swapped(s, i, j);
    forall k | 0 < k < n ensures (Parent(k) != j ==> EdgeOk(t, k)) && (Parent(k) == j ==> SkipOk(t, k)) {
      assert Parent(k) != i ==> EdgeOk(s, k);
      assert SkipOk(s, j);
      if k == i {
        assert EdgeOk(t, k);
      }
    }
  }

  lemma AppendLast(s: seq<WorkerResult>, x: WorkerResult)
    requires Ordered(s)
    ensures OrderedButUp(s + [x], |s|)
  {
    var t := s + [x];
    forall k | 0 < k < |t| ensures (k != |s| ==> EdgeOk(t, k)) && (Parent(k) == |s| ==> SkipOk(t, k)) {
      assert k < |s| ==> EdgeOk(s, k);
    }
  }

  lemma LastToRoot(s: seq<WorkerResult>)
    requires Ordered(s) && s != []
    ensures OrderedButDown(Swapped(s, 0, |s| - 1), |s| - 1, 0)
  {
    var t := Swapped(s, 0, |s| - 1);
    forall k | 0 < k < |s| - 1 ensures (Parent(k) != 0 ==> EdgeOk(t, k)) && (Parent(k) == 0 ==> SkipOk(t, k)) {
      assert EdgeOk(s, k);
    }
  }

  class Heap {
    var items: seq<WorkerResult>

    constructor ()
      ensures items == []
    {
      items := [];
    }

    /** Push keeps the order and adds exactly x. */
    method Push(x: WorkerResult)
      requires Ordered(items)
      modifies this
      ensures Ordered(items)
      ensures multiset(items) == multiset(old(items)) + multiset{x}
    {
      AppendLast(items, x);
      items := items + [x];
      var j := |items| - 1;
      while j > 0 && items[j].index < items[Parent(j)].index
        invariant 0 <= j < |items|
        invariant OrderedButUp(items, j)
        invariant multiset(items) == multiset(old(items)) + multiset{x}
      {
        SiftUp(items, j);
        items := Swapped(items, Parent(j), j);
        j := Parent(j);
      }
    }

    /** Pop removes one result, a minimum: the one that h[0] showed. */
    method Pop() returns (x: WorkerResult)
      requires Ordered(items) && items != []
      modifies this
      ensures Ordered(items)
      ensures multiset(old(items)) == multiset(items) + multiset{x}
      ensures x == old(items)[0] && IsMin(multiset(old(items)), x)
    {
      RootIsMinOfAll(items);
      var n := |items| - 1;
      LastToRoot(items);
      items := Swapped(items, 0, n);
      Down(n);
      x := items[n];
      CutLast(items);
      items := items[..n];
    }

    method Down(n: nat)
      requires n < |items| && OrderedButDown(items, n, 0)
      modifies this
      ensures |items| == |old(items)| && items[n] == old(items)[n]
      ensures Ordered(items[..n])
      ensures multiset(items) == multiset(old(items))
    {
      var i := 0;
      while true
        invariant 0 <= i && |items| == |old(items)| && items[n] == old(items)[n]
        invariant i < n || n == 0
        invariant OrderedButDown(items, n, i)
        invariant multiset(items) == multiset(old(items))
        decreases n - i
      {
        var j := 2 * i + 1;
        if j >= n { break; }
        if j + 1 < n && items[j + 1].index < items[j].index { j := j + 1; }
        if items[j].index >= items[i].index { break; }
        SiftDown(items, n, i, j);
        items := Swapped(items, i, j);
        i := j;
      }
      forall k | 0 < k < n ensures EdgeOk(items[..n], k) {
        assert Parent(k) != i ==> EdgeOk(items, k);
      }
    }
  }
}
