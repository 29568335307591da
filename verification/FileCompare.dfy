/** Content comparison of two files: the sequential chunk loop, and the parallel
    comparison of segments with early cancellation under every schedule. */
module FileCompare {
  type Bytes = seq<bv8>

  function Min(a: int, b: int): int { if a < b then a else b }

  function Max(a: int, b: int): int { if a > b then a else b }

  /** The bytes at [from, from + length), as far as the file has them. */
  function Slice(f: Bytes, from: nat, length: nat): Bytes {
    f[Min(from, |f|)..Min(from + length, |f|)]
  }

  /* ---- sequential ---- */

  /** compareContentsSequential: both files in lockstep, one buffer at a time, until
      a chunk differs or both end in the same chunk. */
  method CompareSequential(l: Bytes, u: Bytes, bufSize: nat) returns (equal: bool)
    requires bufSize > 0
    ensures equal <==> l == u
  {
    var pos := 0;
    while true
      invariant 0 <= pos <= |l| && pos <= |u| && l[..pos] == u[..pos]
      decreases |l| - pos
    {
      var lChunk, uChunk := Slice(l, pos, bufSize), Slice(u, pos, bufSize);
      assert l[..pos] + lChunk == l[..pos + |lChunk|] && u[..pos] + uChunk == u[..pos + |uChunk|];
      if |lChunk| != |uChunk| || lChunk != uChunk {
        assert l == u ==> lChunk == uChunk;
        return false;
      }
      var lEnded, uEnded := |lChunk| < bufSize, |uChunk| < bufSize;
      if lEnded && uEnded {
        assert l[..|l|] == l && u[..|u|] == u;
        return true;
      }
      if lEnded != uEnded {
        return false;
      }
      pos := pos + bufSize;
    }
  }

  /* ---- how the file is cut into segments ---- */

  datatype Plan = Plan(size: nat, workers: nat, minSegment: nat) {
    predicate Valid() { workers > 0 && minSegment > 0 }

    function SegSize(): (s: nat)
      requires Valid()
      ensures s > 0
    {
      Max(size / workers, minSegment)
    }

    function Segments(): nat
      requires Valid()
    {
      (size + SegSize() - 1) / SegSize()
    }

    function Offset(i: nat): nat
      requires Valid()
    {
      i * SegSize()
    }

    function Length(i: nat): int
      requires Valid()
    {
      if i == Segments() - 1 then size - Offset(i) else SegSize()
    }

    predicate Covers(i: nat, pos: nat)
      requires Valid()
    {
      Offset(i) <= pos < Offset(i) + Length(i)
    }

    function SegmentOf(pos: nat): nat
      requires Valid()
    {
      pos / SegSize()
    }
  }

  lemma CeilDiv(a: nat, b: nat)
    requires b > 0
    ensures var q := (a + b - 1) / b; q * b >= a && if a == 0 then q == 0 else q >= 1 && (q - 1) * b < a
  {
    var q, r := (a + b - 1) / b, (a + b - 1) % b;
    assert a + b - 1 == b * q + r;
    assert (q - 1) * b == q * b - b;
  }

  /** Every segment is a non-empty range inside the file. */
  lemma SegmentInside(p: Plan, i: nat)
    requires p.Valid() && i < p.Segments()
    ensures 0 < p.Length(i) <= p.SegSize() && p.Offset(i) + p.Length(i) <= p.size
    ensures i < p.Segments() - 1 ==> p.Offset(i) + p.Length(i) == p.Offset(i + 1)
    ensures i == p.Segments() - 1 ==> p.Offset(i) + p.Length(i) == p.size
  {
    var s, n := p.SegSize(), p.Segments();
    CeilDiv(p.size, s);
    MulMono(i, n - 1, s);
    MulMono(i + 1, n - 1, s);
    assert (i + 1) * s == i * s + s && n * s == (n - 1) * s + s;
  }

  lemma MulMono(a: int, b: int, s: nat)
    ensures a <= b ==> a * s <= b * s
  {
  }

  /** The segments tile the file: every position lies in exactly one of them. */
  lemma SegmentsTile(p: Plan, pos: nat)
    requires p.Valid() && pos < p.size
    ensures p.SegmentOf(pos) < p.Segments() && p.Covers(p.SegmentOf(pos), pos)
    ensures forall j: nat :: j < p.Segments() && p.Covers(j, pos) ==> j == p.SegmentOf(pos)
  {
    var s, n, i := p.SegSize(), p.Segments(), p.SegmentOf(pos);
    CeilDiv(p.size, s);
    assert pos == s * i + pos % s;
    MulMono(n, i, s);
    SegmentInside(p, i);
    forall j: nat | j < n && p.Covers(j, pos) ensures j == i {
      OneSegment(p, i, j, pos);
    }
  }

  lemma OneSegment(p: Plan, i: nat, j: nat, pos: nat)
    requires p.Valid() && i < p.Segments() && j < p.Segments() && p.Covers(i, pos) && p.Covers(j, pos)
    ensures i == j
  {
    var s := p.SegSize();
    SegmentInside(p, i);
    SegmentInside(p, j);
    MulMono(j + 1, i, s);
    MulMono(i + 1, j, s);
    assert (j + 1) * s == j * s + s && (i + 1) * s == i * s + s;
  }

  /** There is at most one goroutine more than the limit, as long as a segment is
      at least workers - 1 bytes long. */
  lemma AtMostOneExtra(p: Plan)
    requires p.Valid() && p.workers - 1 <= p.SegSize()
    ensures p.Segments() <= p.workers + 1
  {
    var s: int, n: int, w: int := p.SegSize(), p.Segments(), p.workers;
    CeilDiv(p.size, s);
    FloorDiv(p.size, w);
    MulLe(w, p.size / w, s);
    MulMono(w + 1, n - 1, s);
    assert (w + 1) * s == w * s + s;
  }

  lemma FloorDiv(a: nat, b: nat)
    requires b > 0
    ensures a <= b * (a / b) + (b - 1)
  {
    assert a == b * (a / b) + a % b;
  }

  lemma MulLe(w: nat, a: nat, b: nat)
    requires a <= b
    ensures w * a <= w * b
  {
  }

  /** That many segments cover the file, or one more is needed. */
  lemma LimitCovers(p: Plan)
    requires p.Valid()
    ensures p.Segments() <= p.workers <==> p.size <= p.workers * p.SegSize()
  {
    var s, n, w := p.SegSize(), p.Segments(), p.workers;
    CeilDiv(p.size, s);
    if n <= w { MulMono(n, w, s); }
    if n > w { MulMono(w, n - 1, s); }
  }

  /** SegmentWorkers is documented as the maximum number of goroutines. It is kept
      exactly when the workers divide the size, or their share of it is below the
      smallest segment ... */
  lemma WithinLimitIff(p: Plan)
    requires p.Valid()
    ensures p.Segments() <= p.workers <==> p.size % p.workers == 0 || p.size / p.workers < p.minSegment
  {
    var share, left := p.size / p.workers, p.size % p.workers;
    LimitCovers(p);
    FloorDiv(p.size, p.workers);
    if share < p.minSegment {
      MulLe(p.workers, share + 1, p.minSegment);
      assert p.workers * (share + 1) == p.workers * share + p.workers;
    }
  }

  /** ... which fails for a file of 3 * 1048576 + 1 bytes and three workers: four
      goroutines are started. */
  lemma LimitExceeded()
    ensures var p := Plan(3145729, 3, 262144); p.Valid() && p.Segments() == 4
  {
    assert 3145729 / 3 == 1048576;
  }

  /* ---- one segment ---- */

  /** The files agree on a range, or have both ended the same way in it. */
  predicate SameSlice(l: Bytes, u: Bytes, from: nat, length: nat) {
    Slice(l, from, length) == Slice(u, from, length)
  }

  /** compareSegment; polls(k) is what the k-th look at the context says. */
  method CompareSegment(l: Bytes, u: Bytes, offset: nat, length: nat, bufSize: nat, polls: nat -> bool)
    returns (equal: bool)
    requires bufSize > 0
    ensures equal ==> SameSlice(l, u, offset, length)
    ensures !equal ==> !SameSlice(l, u, offset, length) || exists k :: polls(k)
  {
    var end, pos, k := offset + length, offset, 0;
    assert SameSlice(l, u, offset, 0);
    while pos < end
      invariant offset <= pos <= end && SameSlice(l, u, offset, pos - offset)
      decreases end - pos
    {
      if polls(k) {
        return false;
      }
      k := k + 1;
      var chunkLen := Min(bufSize, end - pos);
      var lChunk, uChunk := Slice(l, pos, chunkLen), Slice(u, pos, chunkLen);
      if |lChunk| != |uChunk| || lChunk != uChunk {
        SliceDiffers(l, u, offset, length, pos, chunkLen);
        return false;
      }
      EqualSoFar(l, u, offset, pos - offset, chunkLen);
      SliceLength(l, pos, chunkLen);
      SliceLength(u, pos, chunkLen);
      if |lChunk| < chunkLen {
        BothEnd(l, u, offset, pos + chunkLen - offset, length);
        return true;
      }
      pos := pos + |lChunk|;
    }
    return true;
  }

  lemma SliceLength(f: Bytes, from: nat, length: nat)
    ensures |Slice(f, from, length)| <= length
    ensures |Slice(f, from, length)| < length ==> |f| < from + length
  {
  }

  lemma SliceJoin(f: Bytes, from: nat, a: nat, b: nat)
    ensures Slice(f, from, a) + Slice(f, from + a, b) == Slice(f, from, a + b)
  {
  }

  lemma EqualSoFar(l: Bytes, u: Bytes, from: nat, a: nat, b: nat)
    requires SameSlice(l, u, from, a) && SameSlice(l, u, from + a, b)
    ensures SameSlice(l, u, from, a + b)
  {
    SliceJoin(l, from, a, b);
    SliceJoin(u, from, a, b);
  }

  /** Slices differ as soon as a part of them differs. */
  lemma SliceDiffers(l: Bytes, u: Bytes, from: nat, length: nat, at: nat, part: nat)
    requires from <= at && at + part <= from + length && !SameSlice(l, u, at, part)
    ensures !SameSlice(l, u, from, length)
  {
    SlicePart(l, from, length, at, part);
    SlicePart(u, from, length, at, part);
  }

  lemma SlicePart(f: Bytes, from: nat, length: nat, at: nat, part: nat)
    requires from <= at && at + part <= from + length
    ensures Slice(f, at, part) == Slice(Slice(f, from, length), at - from, part)
  {
  }

  /** Once a file has ended, longer slices are the same. */
  lemma SliceEnds(f: Bytes, from: nat, a: nat, b: nat)
    requires a <= b && |f| <= from + a
    ensures Slice(f, from, a) == Slice(f, from, b)
  {
  }

  lemma BothEnd(l: Bytes, u: Bytes, from: nat, a: nat, b: nat)
    requires a <= b && |l| <= from + a && |u| <= from + a && SameSlice(l, u, from, a)
    ensures SameSlice(l, u, from, b)
  {
    SliceEnds(l, from, a, b);
    SliceEnds(u, from, a, b);
  }
}
