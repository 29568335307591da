/** Walk and marshalVertex over an LLB graph, and the definition they produce. */
module LlbMarshal {
  import opened Collections
  import opened Wrappers
  import opened LlbGraph

  type Bytes = seq<bv8>

  /** digest.FromBytes, free of collisions. */
  datatype Digest = Of(bytes: Bytes)

  /** The part of an operation that refers to other operations, and the rest. */
  datatype Op = Op(inputs: seq<Digest>, payload: string)

  datatype Codec = Codec(encode: Op -> Bytes, decode: Bytes -> Option<Op>) {
    ghost predicate Good() {
      forall op :: decode(encode(op)) == Some(op)
    }
  }

  datatype Marshalled = Marshalled(dt: Bytes, md: Option<string>)

  /** What Vertex.Marshal returns; None when it fails. */
  type Marshalling = map<Vertex, Option<Marshalled>>

  /* ---- Walk ---- */

  /** Visiting a list is visiting its head and then the rest. */
  lemma DfsCons(g: Graph, visited: set<Vertex>, v: Vertex, rest: seq<Vertex>)
    requires g.Closed() && v in g.inputs && forall w :: w in rest ==> w in g.inputs
    ensures var first := Dfs(g, visited, [v]);
            var second := Dfs(g, first.visited, rest);
            Dfs(g, visited, [v] + rest) == Trip(second.visited, first.order + second.order)
  {
    assert ([v] + rest)[1..] == rest && [v][1..] == [];
    if v !in visited {
      var below := Dfs(g, visited + {v}, g.InputsOf(v));
      assert below.order + [v] + [] == below.order + [v];
    }
  }

  /** A visitor, by the vertices it returns an error for. */
  type Visitor = Vertex -> bool

  predicate Accepts(refuses: Visitor, order: seq<Vertex>) {
    forall i :: 0 <= i < |order| ==> !refuses(order[i])
  }

  /** The visits of a list up to the first error. */
  function UntilError(refuses: Visitor, order: seq<Vertex>): seq<Vertex> {
    if order == [] then []
    else if refuses(order[0]) then [order[0]]
    else [order[0]] + UntilError(refuses, order[1..])
  }

  lemma {:induction false} UntilErrorJoin(refuses: Visitor, a: seq<Vertex>, b: seq<Vertex>)
    ensures Accepts(refuses, a) ==> UntilError(refuses, a + b) == a + UntilError(refuses, b)
    ensures !Accepts(refuses, a) ==> UntilError(refuses, a + b) == UntilError(refuses, a)
    ensures Accepts(refuses, a + b) <==> Accepts(refuses, a) && Accepts(refuses, b)
  {
    var whole := a + b;
    assert forall i :: 0 <= i < |a| ==> whole[i] == a[i];
    assert forall i :: 0 <= i < |b| ==> whole[|a| + i] == b[i];
    if a == [] {
      assert whole == b && a + UntilError(refuses, b) == UntilError(refuses, b);
    } else {
      assert whole[1..] == a[1..] + b;
      UntilErrorJoin(refuses, a[1..], b);
      assert [a[0]] + (a[1..] + UntilError(refuses, b)) == a + UntilError(refuses, b);
    }
  }

  lemma AllVisited(refuses: Visitor, order: seq<Vertex>)
    ensures Accepts(refuses, order) ==> UntilError(refuses, order) == order
  {
    UntilErrorJoin(refuses, order, []);
    assert order + [] == order;
  }

  /** The visits end with the first vertex that is refused, or with the last one. */
  lemma {:induction false} UntilErrorExact(refuses: Visitor, order: seq<Vertex>)
    ensures UntilError(refuses, order) <= order
    ensures var visits := UntilError(refuses, order);
            && (forall i :: 0 <= i < |visits| - 1 ==> !refuses(visits[i]))
            && (Accepts(refuses, order) ==> visits == order)
            && (!Accepts(refuses, order) ==> visits != [] && refuses(visits[|visits| - 1]))
  {
    if order != [] {
      UntilErrorExact(refuses, order[1..]);
      assert order == [order[0]] + order[1..];
      if !Accepts(refuses, order) && !refuses(order[0]) {
        var i :| 0 <= i < |order| && refuses(order[i]);
        assert order[1..][i - 1] == order[i];
      }
    }
  }

  /** The vertex after its inputs. */
  lemma VisitLast(refuses: Visitor, below: seq<Vertex>, v: Vertex)
    ensures Accepts(refuses, below + [v]) <==> Accepts(refuses, below) && !refuses(v)
    ensures UntilError(refuses, below + [v]) ==
            if Accepts(refuses, below) then below + [v] else UntilError(refuses, below)
    ensures Accepts(refuses, below) ==> UntilError(refuses, below) == below
  {
    UntilErrorJoin(refuses, below, [v]);
    AllVisited(refuses, below);
    assert [v][1..] == [];
  }

  class Walker {
    const refuses: Visitor
    var visited: set<Vertex>
    var order: seq<Vertex>      // what the visitor has been called on

    constructor (refuses: Visitor)
      ensures this.refuses == refuses && visited == {} && order == []
    {
      this.refuses := refuses;
      visited := {};
      order := [];
    }

    /** walk: nothing for a missing output or vertex, nothing for a visited one, else
        the inputs and then the vertex, up to the visitor's first error. */
    method Walk(g: Graph, out: Option<Vertex>) returns (ok: bool)
      requires g.Closed() && (out.Some? ==> out.value in g.inputs)
      modifies this
      ensures ok <==> Accepts(refuses, Dfs(g, old(visited), Present([out])).order)
      ensures ok ==> visited == Dfs(g, old(visited), Present([out])).visited
      ensures order == old(order) + UntilError(refuses, Dfs(g, old(visited), Present([out])).order)
      decreases g.inputs.Keys - visited, 0
    {
      PresentOne(out);
      if out.None? {
        return true;
      }
      var v := out.value;
      if v in visited {
        return true;
      }
      assert v in g.inputs.Keys - visited;
      ghost var before := visited;
      visited := visited + {v};
      ghost var below := Dfs(g, visited, g.InputsOf(v)).order;
      DfsOne(g, before, v);
      VisitLast(refuses, below, v);
      Associate(order, below, [v]);
      ok := WalkInputs(g, g.inputs[v]);
      if !ok {
        return;
      }
      order := order + [v];
      ok := !refuses(v);
    }

    /** The loop over the inputs. */
    method WalkInputs(g: Graph, inputs: seq<Option<Vertex>>) returns (ok: bool)
      requires g.Closed() && forall o :: o in inputs && o.Some? ==> o.value in g.inputs
      modifies this
      ensures ok <==> Accepts(refuses, Dfs(g, old(visited), Present(inputs)).order)
      ensures ok ==> visited == Dfs(g, old(visited), Present(inputs)).visited
      ensures order == old(order) + UntilError(refuses, Dfs(g, old(visited), Present(inputs)).order)
      decreases g.inputs.Keys - visited, 2
    {
      ghost var before := order;
      ghost var whole := Dfs(g, visited, Present(inputs));
      ghost var reported: seq<Vertex> := [];
      LoopStarts(g, visited, inputs);
      for i := 0 to |inputs|
        invariant old(visited) <= visited && order == before + reported && Accepts(refuses, reported)
        invariant OnTheWay(g, inputs, i, visited, reported, whole)
      {
        ok, reported := WalkNext(g, inputs, i, before, reported, whole);
        if !ok {
          return;
        }
      }
      LoopEnds(g, inputs, visited, reported, whole);
      AllVisited(refuses, reported);
      return true;
    }

    /** The next input of the loop. */
    method WalkNext(g: Graph, inputs: seq<Option<Vertex>>, i: nat,
                    ghost before: seq<Vertex>, ghost reported: seq<Vertex>, ghost whole: Trip)
      returns (ok: bool, ghost reported': seq<Vertex>)
      requires g.Closed() && i < |inputs| && forall o :: o in inputs && o.Some? ==> o.value in g.inputs
      requires order == before + reported && Accepts(refuses, reported)
      requires OnTheWay(g, inputs, i, visited, reported, whole)
      modifies this
      ensures ok ==>
                && old(visited) <= visited && order == before + reported' && Accepts(refuses, reported')
                && OnTheWay(g, inputs, i + 1, visited, reported', whole)
      ensures !ok ==> !Accepts(refuses, whole.order) && order == before + UntilError(refuses, whole.order)
      decreases g.inputs.Keys - visited, 1
    {
      ghost var first := Dfs(g, visited, Present([inputs[i]]));
      ghost var left := LoopTurn(g, inputs, i, visited, reported, whole);
      VisitTurn(refuses, before, reported, first.order, left, whole.order);
      reported' := reported + first.order;
      ok := Walk(g, inputs[i]);
    }
  }

  /** After i inputs of a list that gives whole: what was reported, and what is left. */
  ghost predicate OnTheWay(g: Graph, inputs: seq<Option<Vertex>>, i: nat, visited: set<Vertex>,
                           reported: seq<Vertex>, whole: Trip)
    requires g.Closed() && i <= |inputs| && forall o :: o in inputs && o.Some? ==> o.value in g.inputs
  {
    var left := Dfs(g, visited, Present(inputs[i..]));
    left.visited == whole.visited && reported + left.order == whole.order
  }

  lemma LoopStarts(g: Graph, visited: set<Vertex>, inputs: seq<Option<Vertex>>)
    requires g.Closed() && forall o :: o in inputs && o.Some? ==> o.value in g.inputs
    ensures OnTheWay(g, inputs, 0, visited, [], Dfs(g, visited, Present(inputs)))
  {
    assert inputs[0..] == inputs;
    assert [] + Dfs(g, visited, Present(inputs)).order == Dfs(g, visited, Present(inputs)).order;
  }

  /** The next input's share of the trip, and what is left after it. */
  lemma LoopTurn(g: Graph, inputs: seq<Option<Vertex>>, i: nat, visited: set<Vertex>, reported: seq<Vertex>,
                 whole: Trip)
    returns (left: seq<Vertex>)
    requires g.Closed() && i < |inputs| && forall o :: o in inputs && o.Some? ==> o.value in g.inputs
    requires OnTheWay(g, inputs, i, visited, reported, whole)
    ensures var first := Dfs(g, visited, Present([inputs[i]]));
            && OnTheWay(g, inputs, i + 1, first.visited, reported + first.order, whole)
            && whole.order == (reported + first.order) + left
  {
    DfsTurn(g, visited, inputs, i);
    var first := Dfs(g, visited, Present([inputs[i]]));
    left := Dfs(g, first.visited, Present(inputs[i + 1..])).order;
    Associate(reported, first.order, left);
  }

  lemma LoopEnds(g: Graph, inputs: seq<Option<Vertex>>, visited: set<Vertex>, reported: seq<Vertex>, whole: Trip)
    requires g.Closed() && forall o :: o in inputs && o.Some? ==> o.value in g.inputs
    requires OnTheWay(g, inputs, |inputs|, visited, reported, whole)
    ensures visited == whole.visited && reported == whole.order
  {
    assert inputs[|inputs|..] == [];
  }

  /** What a turn's visits are in the whole list. */
  lemma VisitTurn(refuses: Visitor, before: seq<Vertex>, done: seq<Vertex>,
                  first: seq<Vertex>, left: seq<Vertex>, whole: seq<Vertex>)
    requires Accepts(refuses, done) && whole == (done + first) + left
    ensures Accepts(refuses, first) ==>
              && Accepts(refuses, done + first)
              && (before + done) + UntilError(refuses, first) == before + (done + first)
    ensures !Accepts(refuses, first) ==>
              && !Accepts(refuses, whole)
              && (before + done) + UntilError(refuses, first) == before + UntilError(refuses, whole)
  {
    UntilErrorJoin(refuses, done, first);
    UntilErrorJoin(refuses, done + first, left);
    AllVisited(refuses, first);
    Associate(before, done, UntilError(refuses, first));
  }

  lemma DfsOne(g: Graph, visited: set<Vertex>, v: Vertex)
    requires g.Closed() && v in g.inputs && v !in visited
    ensures Dfs(g, visited, [v]) ==
            Trip(Dfs(g, visited + {v}, g.InputsOf(v)).visited, Dfs(g, visited + {v}, g.InputsOf(v)).order + [v])
  {
    var below := Dfs(g, visited + {v}, g.InputsOf(v));
    assert [v][1..] == [] && below.order + [v] + [] == below.order + [v];
  }

  lemma PresentOne(out: Option<Vertex>)
    ensures Present([out]) == if out.None? then [] else [out.value]
  {
    assert [out][1..] == [];
  }

  /** One turn of the loop over the inputs. */
  lemma DfsTurn(g: Graph, visited: set<Vertex>, inputs: seq<Option<Vertex>>, i: nat)
    requires g.Closed() && i < |inputs| && forall o :: o in inputs && o.Some? ==> o.value in g.inputs
    ensures var first := Dfs(g, visited, Present([inputs[i]]));
            var second := Dfs(g, first.visited, Present(inputs[i + 1..]));
            Dfs(g, visited, Present(inputs[i..])) == Trip(second.visited, first.order + second.order)
  {
    PresentOne(inputs[i]);
    assert inputs[i..][1..] == inputs[i + 1..];
    if inputs[i].Some? {
      DfsCons(g, visited, inputs[i].value, Present(inputs[i + 1..]));
    }
  }

  /* ---- marshalVertex ---- */

  /** The growing definition, with the digests it has and the metadata. */
  datatype Definition = Definition(def: seq<Bytes>, digests: set<Digest>, metadata: map<Digest, string>)

  /** A marshalled vertex enters the definition unless its digest is there. */
  function Enter(d: Definition, x: Marshalled): Definition {
    if Of(x.dt) in d.digests then d
    else Definition(d.def + [x.dt], d.digests + {Of(x.dt)},
                    if x.md.Some? then d.metadata[Of(x.dt) := x.md.value] else d.metadata)
  }

  predicate AllMarshal(m: Marshalling, order: seq<Vertex>) {
    forall k :: 0 <= k < |order| ==> order[k] in m && m[order[k]].Some?
  }

  function EnterAll(d: Definition, m: Marshalling, order: seq<Vertex>): Definition
    requires AllMarshal(m, order)
  {
    if order == [] then d
    else Enter(EnterAll(d, m, order[..|order| - 1]), m[order[|order| - 1]].value)
  }

  lemma {:induction false} EnterAllJoin(d: Definition, m: Marshalling, a: seq<Vertex>, b: seq<Vertex>)
    requires AllMarshal(m, a) && AllMarshal(m, b)
    ensures EnterAll(d, m, a + b) == EnterAll(EnterAll(d, m, a), m, b)
    decreases |b|
  {
    if b == [] {
      assert a + b == a;
    } else {
      var n := |b| - 1;
      assert (a + b)[..|a + b| - 1] == a + b[..n];
      EnterAllJoin(d, m, a, b[..n]);
    }
  }

  class Marshaller {
    var d: Definition
    var vertexCache: set<Vertex>

    constructor ()
      ensures d == Definition([], {}, map[]) && vertexCache == {}
    {
      d := Definition([], {}, map[]);
      vertexCache := {};
    }

    /** marshalVertex succeeds when every newly visited vertex marshals, and then
        enters them in the order of Walk. */
    method MarshalVertex(g: Graph, m: Marshalling, v: Vertex) returns (ok: bool)
      requires g.Closed() && v in g.inputs && g.inputs.Keys <= m.Keys
      modifies this
      ensures ok <==> AllMarshal(m, Dfs(g, old(vertexCache), [v]).order)
      ensures ok ==> vertexCache == Dfs(g, old(vertexCache), [v]).visited
      ensures ok ==> d == EnterAll(old(d), m, Dfs(g, old(vertexCache), [v]).order)
      decreases g.inputs.Keys - vertexCache, 0
    {
      if v in vertexCache {
        return true;
      }
      assert v in g.inputs.Keys - vertexCache;
      vertexCache := vertexCache + {v};
      ghost var below := Dfs(g, vertexCache, g.InputsOf(v)).order;
      ghost var before := d;
      assert Dfs(g, old(vertexCache), [v]).order == below + [v] by {
        assert [v][1..] == [] && below + [v] + [] == below + [v];
      }
      ok := MarshalInputs(g, m, g.inputs[v]);
      LastMarshals(m, below, v);
      if !ok || m[v].None? {
        return false;
      }
      EnterAllLast(before, m, below, v);
      d := Enter(d, m[v].value);
    }

    /** One input of the loop: skipped when it is missing. */
    method MarshalInput(g: Graph, m: Marshalling, out: Option<Vertex>) returns (ok: bool)
      requires g.Closed() && g.inputs.Keys <= m.Keys && (out.Some? ==> out.value in g.inputs)
      modifies this
      ensures ok <==> AllMarshal(m, Dfs(g, old(vertexCache), Present([out])).order)
      ensures ok ==> vertexCache == Dfs(g, old(vertexCache), Present([out])).visited
      ensures ok ==> d == EnterAll(old(d), m, Dfs(g, old(vertexCache), Present([out])).order)
      decreases g.inputs.Keys - vertexCache, 1
    {
      PresentOne(out);
      if out.None? {
        return true;
      }
      ok := MarshalVertex(g, m, out.value);
    }

    /** The loop over the inputs. */
    method MarshalInputs(g: Graph, m: Marshalling, inputs: seq<Option<Vertex>>) returns (ok: bool)
      requires g.Closed() && g.inputs.Keys <= m.Keys && forall o :: o in inputs && o.Some? ==> o.value in g.inputs
      modifies this
      ensures ok <==> AllMarshal(m, Dfs(g, old(vertexCache), Present(inputs)).order)
      ensures ok ==> vertexCache == Dfs(g, old(vertexCache), Present(inputs)).visited
      ensures ok ==> d == EnterAll(old(d), m, Dfs(g, old(vertexCache), Present(inputs)).order)
      decreases g.inputs.Keys - vertexCache, 2
    {
      ghost var before := d;
      ghost var whole := Dfs(g, vertexCache, Present(inputs));
      ghost var emitted: seq<Vertex> := [];
      LoopStarts(g, vertexCache, inputs);
      for i := 0 to |inputs|
        invariant old(vertexCache) <= vertexCache
        invariant AllMarshal(m, emitted) && d == EnterAll(before, m, emitted)
        invariant OnTheWay(g, inputs, i, vertexCache, emitted, whole)
      {
        ghost var first := Dfs(g, vertexCache, Present([inputs[i]]));
        ghost var left := LoopTurn(g, inputs, i, vertexCache, emitted, whole);
        PartMarshals(m, emitted, first.order, left);
        ok := MarshalInput(g, m, inputs[i]);
        if !ok {
          return;
        }
        EnterAllJoin(before, m, emitted, first.order);
        emitted := emitted + first.order;
      }
      LoopEnds(g, inputs, vertexCache, emitted, whole);
      return true;
    }
  }

  lemma EnterAllLast(d: Definition, m: Marshalling, order: seq<Vertex>, v: Vertex)
    requires AllMarshal(m, order + [v]) && AllMarshal(m, order)
    ensures EnterAll(d, m, order + [v]) == Enter(EnterAll(d, m, order), m[v].value)
  {
    assert (order + [v])[..|order|] == order;
  }

  lemma PartMarshals(m: Marshalling, a: seq<Vertex>, part: seq<Vertex>, rest: seq<Vertex>)
    ensures AllMarshal(m, (a + part) + rest) ==> AllMarshal(m, part)
    ensures AllMarshal(m, a) && AllMarshal(m, part) ==> AllMarshal(m, a + part)
  {
    var whole := (a + part) + rest;
    forall k | 0 <= k < |part| ensures part[k] == whole[|a| + k] {
    }
  }

  lemma LastMarshals(m: Marshalling, order: seq<Vertex>, v: Vertex)
    ensures AllMarshal(m, order + [v]) <==> AllMarshal(m, order) && v in m && m[v].Some?
  {
    var whole := order + [v];
    assert whole[|order|] == v;
    forall k | 0 <= k < |order| ensures order[k] == whole[k] {
    }
  }

  /* ---- what the definition contains ---- */

  predicate Distinct(def: seq<Bytes>) {
    forall i, j :: 0 <= i < j < |def| ==> def[i] != def[j]
  }

  function Dt(m: Marshalling, v: Vertex): Bytes
    requires v in m && m[v].Some?
  {
    m[v].value.dt
  }

  /** Entries are distinct, they are the bytes of the listed vertices, and the entry
      of each is in place no later than the vertex. */
  lemma {:induction false} EntersEachOnce(m: Marshalling, order: seq<Vertex>)
    requires AllMarshal(m, order)
    ensures var d := EnterAll(Definition([], {}, map[]), m, order);
            && Distinct(d.def)
            && (forall b :: b in d.def <==> Of(b) in d.digests)
            && (forall b :: b in d.def <==> exists v :: v in order && Dt(m, v) == b)
  {
    if order != [] {
      var init, v := order[..|order| - 1], order[|order| - 1];
      EntersEachOnce(m, init);
      assert order == init + [v];
      var before := EnterAll(Definition([], {}, map[]), m, init);
      if Of(Dt(m, v)) !in before.digests {
        var after := Enter(before, m[v].value);
        assert forall b :: b in after.def <==> b in before.def || b == Dt(m, v);
      }
    }
  }

  /** No vertex before position k has the same bytes. */
  predicate FirstWithBytes(m: Marshalling, order: seq<Vertex>, k: nat)
    requires AllMarshal(m, order) && k < |order|
  {
    forall j :: 0 <= j < k ==> Dt(m, order[j]) != Dt(m, order[k])
  }

  function MetadataOf(d: Definition, x: Digest): Option<string> {
    if x in d.metadata then Some(d.metadata[x]) else None
  }

  lemma {:induction false} MetadataIsEntered(m: Marshalling, order: seq<Vertex>)
    requires AllMarshal(m, order)
    ensures var d := EnterAll(Definition([], {}, map[]), m, order); d.metadata.Keys <= d.digests
  {
    if order != [] {
      MetadataIsEntered(m, order[..|order| - 1]);
    }
  }

  lemma EnteredDigest(m: Marshalling, order: seq<Vertex>, v: Vertex)
    requires AllMarshal(m, order) && v in m && m[v].Some?
    ensures Of(Dt(m, v)) in EnterAll(Definition([], {}, map[]), m, order).digests <==>
            exists w :: w in order && Dt(m, w) == Dt(m, v)
  {
    EntersEachOnce(m, order);
  }

  /** The metadata of a digest are those of the first vertex with its bytes; without any,
      there are none, whatever later vertices with the same bytes bring. */
  lemma {:induction false} MetadataIsFirst(m: Marshalling, order: seq<Vertex>, k: nat)
    requires AllMarshal(m, order) && k < |order| && FirstWithBytes(m, order, k)
    ensures MetadataOf(EnterAll(Definition([], {}, map[]), m, order), Of(Dt(m, order[k]))) == m[order[k]].value.md
  {
    var n := |order| - 1;
    var init, before := order[..n], EnterAll(Definition([], {}, map[]), m, order[..n]);
    EnteredDigest(m, init, order[k]);
    if k == n {
      assert forall w :: w in init ==> Dt(m, w) != Dt(m, order[k]);
      MetadataIsEntered(m, init);
    } else {
      assert init[k] == order[k] && FirstWithBytes(m, init, k);
      MetadataIsFirst(m, init, k);
      assert order[k] in init;
    }
  }

  /** Entry k is the bytes of v, and the entries of v's inputs stand before it. */
  predicate Supports(g: Graph, m: Marshalling, order: seq<Vertex>, def: seq<Bytes>, k: nat, v: Vertex)
    requires AllMarshal(m, order) && k < |def|
  {
    && v in order && v in g.inputs && v in m && m[v].Some? && Dt(m, v) == def[k]
    && forall w :: w in g.InputsOf(v) ==> w in order && w in m && m[w].Some? && Dt(m, w) in def[..k]
  }

  lemma SupportsLater(g: Graph, m: Marshalling, init: seq<Vertex>, order: seq<Vertex>,
                      before: seq<Bytes>, def: seq<Bytes>, k: nat, v: Vertex)
    requires AllMarshal(m, init) && AllMarshal(m, order) && init <= order && before <= def && k < |before|
    requires Supports(g, m, init, before, k, v)
    ensures Supports(g, m, order, def, k, v)
  {
    assert def[..k] == before[..k];
    assert forall x :: x in init ==> x in order;
  }

  /** The last vertex supports the entry it adds. */
  lemma LastSupports(g: Graph, m: Marshalling, init: seq<Vertex>, v: Vertex, before: seq<Bytes>, def: seq<Bytes>)
    requires g.Closed() && AllMarshal(m, init) && AllMarshal(m, init + [v]) && InputsFirst(g, init + [v])
    requires v in m && m[v].Some?
    requires def == before + [Dt(m, v)] && (forall w :: w in init ==> w in m && m[w].Some? && Dt(m, w) in before)
    ensures v in g.inputs ==> Supports(g, m, init + [v], def, |before|, v)
  {
    var order := init + [v];
    assert order[|init|] == v && order[..|init|] == init && def[..|before|] == before;
    assert forall w :: w in init ==> w in order;
  }

  /** Each entry stands after the entries of the inputs of a vertex it is the bytes
      of. */
  lemma {:induction false} EntersInputsFirst(g: Graph, m: Marshalling, order: seq<Vertex>, k: nat)
    requires g.Closed() && AllMarshal(m, order) && InputsFirst(g, order)
    requires k < |EnterAll(Definition([], {}, map[]), m, order).def|
    ensures exists v :: Supports(g, m, order, EnterAll(Definition([], {}, map[]), m, order).def, k, v)
  {
    var n := |order| - 1;
    var init, v := order[..n], order[n];
    assert order == init + [v];
    InputsFirstOfPart(g, order, n);
    var before := EnterAll(Definition([], {}, map[]), m, init).def;
    var def := EnterAll(Definition([], {}, map[]), m, order).def;
    EntersEachOnce(m, init);
    assert forall w :: w in init ==> w in m && m[w].Some? && Dt(m, w) in before;
    if k < |before| {
      EntersInputsFirst(g, m, init, k);
      var u :| Supports(g, m, init, before, k, u);
      SupportsLater(g, m, init, order, before, def, k, u);
    } else {
      LastSupports(g, m, init, v, before, def);
    }
  }

  lemma InputsFirstOfPart(g: Graph, order: seq<Vertex>, n: nat)
    requires InputsFirst(g, order) && n <= |order|
    ensures InputsFirst(g, order[..n])
  {
    forall i | 0 <= i < n ensures order[..n][i] == order[i] && order[..n][..i] == order[..i] {
    }
  }

  /** Every vertex's bytes encode an operation whose inputs are digests of the
      vertex's inputs. */
  ghost predicate Faithful(g: Graph, m: Marshalling, c: Codec) {
    forall v :: v in g.inputs && v in m && m[v].Some? ==>
      exists op :: Dt(m, v) == c.encode(op) && RefersToInputs(g, m, v, op)
  }

  ghost predicate RefersToInputs(g: Graph, m: Marshalling, v: Vertex, op: Op)
    requires v in g.inputs
  {
    forall x :: x in op.inputs ==> exists w :: w in g.InputsOf(v) && w in m && m[w].Some? && x == Of(Dt(m, w))
  }

  /** What an entry refers to stands before it. */
  lemma EntryRefersBack(g: Graph, m: Marshalling, c: Codec, order: seq<Vertex>, k: nat)
    requires g.Closed() && c.Good() && Faithful(g, m, c) && AllMarshal(m, order) && InputsFirst(g, order)
    requires k < |EnterAll(Definition([], {}, map[]), m, order).def|
    ensures RefersBack(c, EnterAll(Definition([], {}, map[]), m, order).def, k)
  {
    var def := EnterAll(Definition([], {}, map[]), m, order).def;
    EntersInputsFirst(g, m, order, k);
    var v :| Supports(g, m, order, def, k, v);
    var op :| Dt(m, v) == c.encode(op) && RefersToInputs(g, m, v, op);
    assert c.decode(def[k]) == Some(op);
  }

  /** The definition of an acyclic graph can be read front to back: every digest an
      entry refers to is the digest of an earlier entry; every reachable vertex has
      its digest in it, once. */
  lemma DefinitionIsTopological(g: Graph, m: Marshalling, c: Codec, root: Vertex)
    requires g.Closed() && root in g.inputs && c.Good() && Faithful(g, m, c)
    requires AllMarshal(m, OrderFrom(g, root)) && AcyclicFrom(g, root)
    ensures var def := EnterAll(Definition([], {}, map[]), m, OrderFrom(g, root)).def;
            && Distinct(def)
            && (forall v :: Reachable(g, root, v) ==> v in m && m[v].Some? && Dt(m, v) in def)
            && (forall k :: 0 <= k < |def| ==> RefersBack(c, def, k))
  {
    var order := OrderFrom(g, root);
    var def := EnterAll(Definition([], {}, map[]), m, order).def;
    InputsFirstIffAcyclic(g, root);
    forall k | 0 <= k < |def| ensures RefersBack(c, def, k) {
      EntryRefersBack(g, m, c, order, k);
    }
    AllReachableIn(g, m, root);
  }

  lemma AllReachableIn(g: Graph, m: Marshalling, root: Vertex)
    requires g.Closed() && root in g.inputs && AllMarshal(m, OrderFrom(g, root))
    ensures var def := EnterAll(Definition([], {}, map[]), m, OrderFrom(g, root)).def;
            Distinct(def) && forall v :: Reachable(g, root, v) ==> v in m && m[v].Some? && Dt(m, v) in def
  {
    VisitsReachableOnce(g, root);
    EntersEachOnce(m, OrderFrom(g, root));
  }

  predicate RefersBack(c: Codec, def: seq<Bytes>, k: nat)
    requires k < |def|
  {
    c.decode(def[k]).Some? && forall x :: x in c.decode(def[k]).value.inputs ==> x.bytes in def[..k]
  }

  /* ---- State.Marshal and Definition.Head ---- */

  /** Head: the digest the last entry refers to first. */
  function Head(c: Codec, def: seq<Bytes>): Option<Digest> {
    if def == [] then None
    else
      var op := c.decode(def[|def| - 1]);
      if op.None? || op.value.inputs == [] then None else Some(op.value.inputs[0])
  }

  /** State.Marshal: the graph below the root and a final entry that refers to it;
      nothing at all without an output. */
  method Marshal(g: Graph, m: Marshalling, c: Codec, root: Option<Vertex>)
    returns (def: Option<seq<Bytes>>, metadata: map<Digest, string>)
    requires g.Closed() && g.inputs.Keys <= m.Keys && (root.Some? ==> root.value in g.inputs) && c.Good()
    ensures root.None? ==> def == Some([]) && metadata == map[] && Head(c, []) == None
    ensures root.Some? ==> (def.Some? <==> AllMarshal(m, OrderFrom(g, root.value)))
    ensures root.Some? && def.Some? ==>
              && root.value in m && m[root.value].Some?
              && Head(c, def.value) == Some(Of(Dt(m, root.value)))
              && def.value == EnterAll(Definition([], {}, map[]), m, OrderFrom(g, root.value)).def
                              + [c.encode(Op([Of(Dt(m, root.value))], ""))]
              && metadata == EnterAll(Definition([], {}, map[]), m, OrderFrom(g, root.value)).metadata
  {
    if root.None? {
      return Some([]), map[];
    }
    var v := root.value;
    var w := new Marshaller();
    var ok := w.MarshalVertex(g, m, v);
    if !ok {
      return None, map[];
    }
    DfsExact(g, {}, [v]);
    assert v in [v] && v in OrderFrom(g, v);
    var terminal := c.encode(Op([Of(m[v].value.dt)], ""));
    return Some(w.d.def + [terminal]), w.d.metadata;
  }
}
