/** The depth-first traversal of an LLB graph that both Walk and marshalling use. */
module LlbGraph {
  import opened Wrappers

  /** A vertex is known by its identity. */
  type Vertex = nat

  /** inputs lists the input outputs of each vertex; an entry is None when the
      output is nil or has no vertex. */
  datatype Graph = Graph(inputs: map<Vertex, seq<Option<Vertex>>>) {
    predicate Closed() {
      forall v, o :: v in inputs && o in inputs[v] && o.Some? ==> o.value in inputs
    }

    function InputsOf(v: Vertex): seq<Vertex>
      requires v in inputs
    {
      Present(inputs[v])
    }
  }

  /** The vertices behind a list of outputs, without the empty ones. */
  function Present(outputs: seq<Option<Vertex>>): (r: seq<Vertex>)
    ensures forall w :: w in r <==> Some(w) in outputs
  {
    if outputs == [] then []
    else if outputs[0].None? then Present(outputs[1..])
    else [outputs[0].value] + Present(outputs[1..])
  }

  datatype Trip = Trip(visited: set<Vertex>, order: seq<Vertex>)

  /** Visits the listed vertices in turn: what is visited afterwards, and the order
      in which the visitor saw the new vertices, each after its inputs. */
  function Dfs(g: Graph, visited: set<Vertex>, todo: seq<Vertex>): (t: Trip)
    requires g.Closed() && forall v :: v in todo ==> v in g.inputs
    ensures visited <= t.visited
    decreases g.inputs.Keys - visited, |todo|
  {
    if todo == [] then Trip(visited, [])
    else if todo[0] in visited then Dfs(g, visited, todo[1..])
    else
      var v := todo[0];
      assert g.inputs.Keys - (visited + {v}) < g.inputs.Keys - visited by {
        assert v in g.inputs.Keys - visited;
      }
      var below := Dfs(g, visited + {v}, g.InputsOf(v));
      assert g.inputs.Keys - below.visited < g.inputs.Keys - visited by {
        assert v in g.inputs.Keys - visited;
      }
      var rest := Dfs(g, below.visited, todo[1..]);
      Trip(rest.visited, below.order + [v] + rest.order)
  }

  function OrderFrom(g: Graph, root: Vertex): seq<Vertex>
    requires g.Closed() && root in g.inputs
  {
    Dfs(g, {}, [root]).order
  }

  /* ---- every reachable vertex exactly once ---- */

  /** path leads from its first vertex to its last along inputs. */
  predicate IsPath(g: Graph, path: seq<Vertex>) {
    && path != []
    && (forall k :: 0 <= k < |path| ==> path[k] in g.inputs)
    && (forall k :: 0 <= k < |path| - 1 ==> Some(path[k + 1]) in g.inputs[path[k]])
  }

  ghost predicate Reachable(g: Graph, root: Vertex, v: Vertex) {
    exists path :: IsPath(g, path) && path[0] == root && path[|path| - 1] == v
  }

  predicate NoRepeats(s: seq<Vertex>) {
    forall i, j :: 0 <= i < j < |s| ==> s[i] != s[j]
  }

  /** The visitor sees exactly the newly visited vertices, each once, and the inputs
      of each are visited in the end. */
  lemma {:induction false} DfsExact(g: Graph, visited: set<Vertex>, todo: seq<Vertex>)
    requires g.Closed() && forall v :: v in todo ==> v in g.inputs
    ensures var t := Dfs(g, visited, todo);
            && (forall v :: v in t.order <==> v in t.visited && v !in visited)
            && NoRepeats(t.order)
            && (forall v :: v in todo ==> v in t.visited)
            && (forall v :: v in t.order ==> v in g.inputs && forall w :: w in g.InputsOf(v) ==> w in t.visited)
    decreases g.inputs.Keys - visited, |todo|
  {
    if todo != [] {
      var v, rest := todo[0], todo[1..];
      assert todo == [v] + rest;
      if v in visited {
        DfsExact(g, visited, rest);
      } else {
        assert v in g.inputs.Keys - visited;
        DfsExact(g, visited + {v}, g.InputsOf(v));
        var below := Dfs(g, visited + {v}, g.InputsOf(v));
        DfsExact(g, below.visited, rest);
        JoinNoRepeats(below.order, v, Dfs(g, below.visited, rest).order);
      }
    }
  }

  lemma JoinNoRepeats(a: seq<Vertex>, v: Vertex, b: seq<Vertex>)
    requires NoRepeats(a) && NoRepeats(b) && v !in a && v !in b && forall w :: w in a ==> w !in b
    ensures NoRepeats(a + [v] + b)
  {
    var s := a + [v] + b;
    forall i, j | 0 <= i < j < |s| ensures s[i] != s[j] {
      if i < |a| < j {
        assert s[i] == a[i] && s[j] == b[j - |a| - 1] && b[j - |a| - 1] in b;
      }
    }
  }

  lemma {:induction false} VisitedIsReachable(g: Graph, visited: set<Vertex>, todo: seq<Vertex>, root: Vertex,
                                              v: Vertex)
    requires g.Closed() && forall w :: w in todo ==> w in g.inputs && Reachable(g, root, w)
    requires v in Dfs(g, visited, todo).order
    ensures Reachable(g, root, v)
    decreases g.inputs.Keys - visited, |todo|
  {
    var u, rest := todo[0], todo[1..];
    if u in visited {
      VisitedIsReachable(g, visited, rest, root, v);
    } else {
      assert u in g.inputs.Keys - visited;
      var below := Dfs(g, visited + {u}, g.InputsOf(u));
      if v in below.order {
        forall w | w in g.InputsOf(u) ensures Reachable(g, root, w) {
          ReachableStep(g, root, u, w);
        }
        VisitedIsReachable(g, visited + {u}, g.InputsOf(u), root, v);
      } else if v != u {
        VisitedIsReachable(g, below.visited, rest, root, v);
      }
    }
  }

  lemma ReachableStep(g: Graph, root: Vertex, u: Vertex, w: Vertex)
    requires g.Closed() && u in g.inputs && Reachable(g, root, u) && w in g.InputsOf(u)
    ensures Reachable(g, root, w)
  {
    var path :| IsPath(g, path) && path[0] == root && path[|path| - 1] == u;
    assert IsPath(g, path + [w]);
  }

  lemma {:induction false} PathStaysInside(g: Graph, inside: set<Vertex>, path: seq<Vertex>, k: nat)
    requires IsPath(g, path) && k < |path| && path[0] in inside
    requires forall v :: v in inside ==> v in g.inputs && forall w :: w in g.InputsOf(v) ==> w in inside
    ensures path[k] in inside
  {
    if k > 0 {
      PathStaysInside(g, inside, path, k - 1);
      var i := k - 1;
      assert Some(path[i + 1]) in g.inputs[path[i]];
    }
  }

  /** The traversal of a finite graph, acyclic or not, visits every reachable vertex
      exactly once and nothing else. */
  lemma VisitsReachableOnce(g: Graph, root: Vertex)
    requires g.Closed() && root in g.inputs
    ensures NoRepeats(OrderFrom(g, root))
    ensures forall v :: v in OrderFrom(g, root) <==> Reachable(g, root, v)
  {
    var t := Dfs(g, {}, [root]);
    DfsExact(g, {}, [root]);
    assert IsPath(g, [root]);
    assert Reachable(g, root, root) by {
      assert IsPath(g, [root]) && [root][0] == root;
    }
    forall v ensures v in t.order <==> Reachable(g, root, v) {
      if v in t.order {
        VisitedIsReachable(g, {}, [root], root, v);
      }
      if Reachable(g, root, v) {
        var path :| IsPath(g, path) && path[0] == root && path[|path| - 1] == v;
        assert root in [root];
        PathStaysInside(g, t.visited, path, |path| - 1);
      }
    }
  }

  /* ---- inputs first ---- */

  /** Every input of a listed vertex is listed before it. */
  predicate InputsFirst(g: Graph, order: seq<Vertex>) {
    forall k :: 0 <= k < |order| ==>
      order[k] in g.inputs && forall w :: w in g.InputsOf(order[k]) ==> w in order[..k]
  }

  /** rank falls along every input below the given vertices. */
  predicate Ranked(g: Graph, rank: map<Vertex, nat>, vs: set<Vertex>) {
    forall v :: v in vs ==>
      v in g.inputs && v in rank && forall w :: w in g.InputsOf(v) ==> w in vs && w in rank && rank[w] < rank[v]
  }

  /** No cycle can be reached from the root. */
  ghost predicate AcyclicFrom(g: Graph, root: Vertex) {
    exists rank, vs :: root in vs && Ranked(g, rank, vs)
  }

  /** Every input of a listed vertex is done or listed before it. */
  predicate InputsFirstOr(g: Graph, done: set<Vertex>, order: seq<Vertex>) {
    forall k, w :: 0 <= k < |order| && order[k] in g.inputs && w in g.InputsOf(order[k]) ==>
                     w in done || w in order[..k]
  }

  /** gray are the vertices being expanded; everything still to do ranks below all
      of them. done are the vertices finished before. */
  lemma {:induction false} DfsInputsFirst(g: Graph, gray: set<Vertex>, done: set<Vertex>, todo: seq<Vertex>,
                                          rank: map<Vertex, nat>, vs: set<Vertex>)
    requires g.Closed() && Ranked(g, rank, vs) && gray !! done && gray <= vs
    requires forall v :: v in todo ==> v in vs && forall y :: y in gray ==> rank[v] < rank[y]
    ensures InputsFirstOr(g, done, Dfs(g, gray + done, todo).order)
    decreases g.inputs.Keys - (gray + done), |todo|
  {
    if todo != [] {
      var v, rest := todo[0], todo[1..];
      var visited := gray + done;
      if v in visited {
        DfsInputsFirst(g, gray, done, rest, rank, vs);
      } else {
        assert v in g.inputs.Keys - visited && v in vs;
        var below := Dfs(g, visited + {v}, g.InputsOf(v));
        InputsFinished(g, gray, done, v, rank, vs);
        assert (gray + {v}) + done == visited + {v};
        DfsInputsFirst(g, gray + {v}, done, g.InputsOf(v), rank, vs);
        var done' := below.visited - gray;
        assert gray + done' == below.visited;
        DfsInputsFirst(g, gray, done', rest, rank, vs);
        JoinOrders(g, done, below.order, v, done', Dfs(g, below.visited, rest).order);
      }
    }
  }

  lemma InputsFinished(g: Graph, gray: set<Vertex>, done: set<Vertex>, v: Vertex, rank: map<Vertex, nat>,
                       vs: set<Vertex>)
    requires g.Closed() && Ranked(g, rank, vs) && gray !! done && gray <= vs
    requires v in vs && v !in gray + done && forall y :: y in gray ==> rank[v] < rank[y]
    ensures var below := Dfs(g, gray + done + {v}, g.InputsOf(v));
            && (forall w :: w in g.InputsOf(v) ==> w in done || w in below.order)
            && (forall w :: w in below.visited - gray ==> w in done || w in below.order || w == v)
  {
    DfsExact(g, gray + done + {v}, g.InputsOf(v));
  }

  lemma JoinOrders(g: Graph, done: set<Vertex>, below: seq<Vertex>, v: Vertex, done': set<Vertex>, after: seq<Vertex>)
    requires g.Closed() && v in g.inputs
    requires InputsFirstOr(g, done, below) && InputsFirstOr(g, done', after)
    requires forall w :: w in g.InputsOf(v) ==> w in done || w in below
    requires forall w :: w in done' ==> w in done || w in below || w == v
    ensures InputsFirstOr(g, done, below + [v] + after)
  {
    var order := below + [v] + after;
    forall k, w | 0 <= k < |order| && order[k] in g.inputs && w in g.InputsOf(order[k])
      ensures w in done || w in order[..k]
    {
      if k < |below| {
        assert order[..k] == below[..k];
      } else if k == |below| {
        assert order[..k] == below;
      } else {
        assert order[..k] == below + [v] + after[..k - |below| - 1];
      }
    }
  }

  lemma AcyclicPutsInputsFirst(g: Graph, root: Vertex)
    requires g.Closed() && root in g.inputs && AcyclicFrom(g, root)
    ensures InputsFirst(g, OrderFrom(g, root))
  {
    var rank, vs :| root in vs && Ranked(g, rank, vs);
    var none: set<Vertex> := {};
    assert none + none == none;
    DfsExact(g, none, [root]);
    DfsInputsFirst(g, none, none, [root], rank, vs);
    assert InputsFirstOr(g, none, OrderFrom(g, root));
  }

  /** An order with inputs first ranks its vertices. */
  lemma OrderRanks(g: Graph, order: seq<Vertex>)
    requires g.Closed() && InputsFirst(g, order) && forall v :: v in order ==> v in g.inputs
    ensures Ranked(g, map v | v in order :: PositionOf(order, v), set v | v in order)
  {
    var vs := set v | v in order;
    var rank := map v | v in order :: PositionOf(order, v);
    forall v | v in vs
      ensures v in g.inputs && v in rank && forall w :: w in g.InputsOf(v) ==> w in vs && w in rank && rank[w] < rank[v]
    {
      var k := PositionOf(order, v);
      forall w | w in g.InputsOf(v) ensures w in vs && rank[w] < rank[v] {
        assert w in order[..k];
        var j :| 0 <= j < k && order[..k][j] == w;
        PositionIsFirst(order, w, j);
      }
    }
  }

  /** Inputs always come before the vertex that uses them exactly when no cycle can
      be reached. */
  lemma InputsFirstIffAcyclic(g: Graph, root: Vertex)
    requires g.Closed() && root in g.inputs
    ensures InputsFirst(g, OrderFrom(g, root)) <==> AcyclicFrom(g, root)
  {
    var order := OrderFrom(g, root);
    DfsExact(g, {}, [root]);
    assert root in [root];
    if AcyclicFrom(g, root) {
      AcyclicPutsInputsFirst(g, root);
    }
    if InputsFirst(g, order) {
      OrderRanks(g, order);
    }
  }

  function PositionOf(s: seq<Vertex>, v: Vertex): (k: nat)
    requires v in s
    ensures k < |s| && s[k] == v
  {
    if s[0] == v then 0 else 1 + PositionOf(s[1..], v)
  }

  lemma {:induction false} PositionIsFirst(s: seq<Vertex>, v: Vertex, j: nat)
    requires j < |s| && s[j] == v
    ensures PositionOf(s, v) <= j
  {
    if s[0] != v {
      PositionIsFirst(s[1..], v, j - 1);
    }
  }
}
