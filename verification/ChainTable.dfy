/** The chain table of the snapshot pipeline: for every layer its diff ID, its
    chain ID and the chain ID of its parent.

    A digest is a free term, so that hashing is injective and never cyclic. */
module ChainTable {
  import opened Wrappers

  datatype Digest = Plain(text: string) | Chained(parent: Digest, diff: Digest)

  datatype ChainInfo = ChainInfo(diffID: Digest, chainID: Digest, parentChainID: Option<Digest>)

  /** The in-place recursion of identity.ChainIDs, reduced to the entry that
      identity.ChainID returns: the first two entries are hashed into one and
      the recursion goes on with the rest of the slice. */
  function ChainID(diffs: seq<Digest>): Digest
    requires diffs != []
    decreases |diffs|
  {
    if |diffs| == 1 then diffs[0] else ChainID([Chained(diffs[0], diffs[1])] + diffs[2..])
  }

  function Info(diffs: seq<Digest>, i: nat): ChainInfo
    requires i < |diffs|
  {
    ChainInfo(diffs[i], ChainID(diffs[..i + 1]), if i > 0 then Some(ChainID(diffs[..i])) else None)
  }

  function Table(diffs: seq<Digest>): (t: seq<ChainInfo>)
    ensures |t| == |diffs|
  {
    seq(|diffs|, i requires 0 <= i < |diffs| => Info(diffs, i))
  }

  /** buildChainTable: one pass over the diff IDs, no parent for the root layer. */
  method BuildChainTable(diffs: seq<Digest>) returns (chains: array<ChainInfo>)
    ensures fresh(chains)
    ensures chains[..] == Table(diffs)
  {
    chains := new ChainInfo[|diffs|](_ => ChainInfo(Plain(""), Plain(""), None));
    for i := 0 to |diffs|
      invariant forall k :: 0 <= k < i ==> chains[k] == Info(diffs, k)
    {
      chains[i] := ChainInfo(diffs[i], ChainID(diffs[..i + 1]), None);
      if i > 0 {
        chains[i] := chains[i].(parentChainID := Some(ChainID(diffs[..i])));
      }
    }
    assert chains[..] == Table(diffs);
  }

  /** "Layer ChainID" of config.md of the OCI Image Format Specification: the
      chain ID of one layer is its diff ID, that of a stack is the digest of the chain
      ID of the stack without its last layer, followed by that layer's diff ID. */
  lemma {:induction false} ChainIDFollowsSpec(diffs: seq<Digest>)
    requires diffs != []
    ensures |diffs| == 1 ==> ChainID(diffs) == diffs[0]
    ensures |diffs| >= 2 ==> ChainID(diffs) == Chained(ChainID(diffs[..|diffs| - 1]), diffs[|diffs| - 1])
    decreases |diffs|
  {
    var n := |diffs|;
    if n > 2 {
      var folded := [Chained(diffs[0], diffs[1])] + diffs[2..];
      ChainIDFollowsSpec(folded);
      assert folded[..n - 2] == [Chained(diffs[0], diffs[1])] + diffs[..n - 1][2..];
    }
  }

  function Height(d: Digest): nat {
    match d case Plain(_) => 0 case Chained(p, _) => 1 + Height(p)
  }

  lemma {:induction false} ChainIDHeight(diffs: seq<Digest>)
    requires diffs != []
    ensures Height(ChainID(diffs)) == Height(diffs[0]) + |diffs| - 1
    decreases |diffs|
  {
    if |diffs| > 1 {
      ChainIDFollowsSpec(diffs);
      ChainIDHeight(diffs[..|diffs| - 1]);
    }
  }

  function ChainIDBefore(chains: seq<ChainInfo>, i: nat): Option<Digest>
    requires i < |chains|
  {
    if i == 0 then None else Some(chains[i - 1].chainID)
  }

  /** What the pipeline needs of the table: the root layer alone has no parent,
      every other layer's parent is exactly the chain ID of the layer before it,
      and different layers have different chain IDs. */
  predicate Linked(chains: seq<ChainInfo>) {
    && (forall i :: 0 <= i < |chains| ==> chains[i].parentChainID == ChainIDBefore(chains, i))
    && (forall i, j :: 0 <= i < |chains| && 0 <= j < |chains| && i != j ==> chains[i].chainID != chains[j].chainID)
  }

  lemma ChainIDsDiffer(diffs: seq<Digest>, i: nat, j: nat)
    requires i < |diffs| && j < |diffs| && i != j
    ensures Table(diffs)[i].chainID != Table(diffs)[j].chainID
  {
    ChainIDHeight(diffs[..i + 1]);
    ChainIDHeight(diffs[..j + 1]);
  }

  /** Every table is linked, even when two layers have equal diff IDs. */
  lemma TableIsLinked(diffs: seq<Digest>)
    ensures Linked(Table(diffs))
  {
    var t := Table(diffs);
    forall i, j | 0 <= i < |t| && 0 <= j < |t| && i != j ensures t[i].chainID != t[j].chainID {
      ChainIDsDiffer(diffs, i, j);
    }
    forall i | 0 <= i < |t| ensures t[i].parentChainID == ChainIDBefore(t, i) {
      assert t[i] == Info(diffs, i);
      if i > 0 {
        assert t[i - 1] == Info(diffs, i - 1);
      }
    }
  }
}
