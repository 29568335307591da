/** Flushing a batch of removals through a submission ring in chunks: which operations
    are carried out, and when each is carried out exactly once. */
module IoRing {
  import opened Bits

  function Min(a: int, b: int): int { if a <= b then a else b }

  /** How many submissions the kernel takes at the enter call of the chunk that starts
      at a work index; it never takes more than it is told to. */
  type Kernel = nat -> nat

  function Taken(kernel: Kernel, start: nat, len: nat): (k: nat)
    ensures k <= len
  {
    Min(kernel(start), len)
  }

  /** The work index found in the slot of position p when tail entries have been
      written: the last one written there. */
  function Seen(p: nat, tail: nat, e: nat): (x: int)
    requires e > 0 && p < tail
  {
    p + (tail - 1 - p) / e * e
  }

  /** What the kernel carries out: the entries from its head on. */
  function Consumed(head: nat, k: nat, tail: nat, e: nat): seq<int>
    requires e > 0 && head + k <= tail
  {
    seq(k, i requires 0 <= i < k => Seen(head + i, tail, e))
  }

  function Range(start: int, len: nat): (r: seq<int>)
    ensures |r| == len && forall i :: 0 <= i < len ==> r[i] == start + i
  {
    seq(len, i => start + i)
  }

  /** One chunk: the goroutine pool carries the chunk out when the kernel did not take
      all of it. */
  function Chunk(start: nat, len: nat, head: nat, k: nat, e: nat): seq<int>
    requires e > 0 && head <= start && k <= len
  {
    Consumed(head, k, start + len, e) + if k < len then Range(start, len) else []
  }

  /** The operations carried out, in order, from a chunk on. */
  function Executed(n: nat, r: nat, e: nat, kernel: Kernel, start: nat, head: nat): seq<int>
    requires 0 < r <= e && head <= start
    decreases n - start
  {
    if start >= n then []
    else
      var len := Min(r, n - start);
      var k := Taken(kernel, start, len);
      Chunk(start, len, head, k, e) + Executed(n, r, e, kernel, start + len, head + k)
  }

  function Count(xs: seq<int>, x: int): nat {
    if xs == [] then 0 else (if xs[0] == x then 1 else 0) + Count(xs[1..], x)
  }

  function Within(x: int, from: int, to: int): nat { if from <= x < to then 1 else 0 }

  /** Each of the n operations once, nothing else. */
  ghost predicate ExactlyOnce(n: nat, executed: seq<int>) {
    forall x :: Count(executed, x) == Within(x, 0, n)
  }

  /** No enter call takes a chunk in part, and one that takes a chunk finds the backlog
      of the chunks not taken to be a multiple of the ring. */
  predicate CleanTake(start: nat, len: nat, head: nat, k: nat, e: nat)
    requires e > 0
  {
    k == 0 || (k == len && (start - head) % e == 0)
  }

  predicate Clean(n: nat, r: nat, e: nat, kernel: Kernel, start: nat, head: nat)
    requires 0 < r <= e && head <= start
    decreases n - start
  {
    start >= n ||
    var len := Min(r, n - start);
    var k := Taken(kernel, start, len);
    CleanTake(start, len, head, k, e) && Clean(n, r, e, kernel, start + len, head + k)
  }

  /* ---- arithmetic ---- */

  lemma SeenFacts(p: nat, tail: nat, e: nat)
    requires e > 0 && p < tail
    ensures Seen(p, tail, e) < tail <= Seen(p, tail, e) + e && p <= Seen(p, tail, e)
  {
    var d := tail - 1 - p;
    assert d == d / e * e + d % e;
    if d / e == 0 {
    } else {
      MulAtLeast(d / e, e);
    }
  }

  /** The slot of a position. */
  function SlotOf(p: nat, e: nat): (s: nat)
    requires e > 0
    ensures s < e
  {
    p % e
  }

  lemma NearbySlotsDiffer(p: nat, q: nat, e: nat)
    requires e > 0 && p < q < p + e
    ensures SlotOf(p, e) != SlotOf(q, e)
  {
    if p % e == q % e {
      assert q - p == (q / e - p / e) * e;
      MulAtLeast(q / e - p / e, e);
    }
  }

  lemma SeenSameSlot(p: nat, tail: nat, e: nat)
    requires e > 0 && p < tail
    ensures 0 <= Seen(p, tail, e) && SlotOf(Seen(p, tail, e), e) == SlotOf(p, e)
  {
    SeenFacts(p, tail, e);
    var t := (tail - 1 - p) / e;
    assert Seen(p, tail, e) == (p / e + t) * e + p % e;
    DivUnique(Seen(p, tail, e), p / e + t, p % e, e);
  }

  /** With a backlog that is a multiple of the ring, the kernel finds the chunk itself. */
  lemma AlignedSeesChunk(start: nat, len: nat, head: nat, e: nat)
    requires 0 < len <= e && head <= start && (start - head) % e == 0
    ensures Consumed(head, len, start + len, e) == Range(start, len)
  {
    var q := (start - head) / e;
    assert start - head == q * e;
    var taken := Consumed(head, len, start + len, e);
    forall i | 0 <= i < len ensures taken[i] == start + i {
      DivUnique(start + len - 1 - (head + i), q, len - 1 - i, e);
      assert taken[i] == Seen(head + i, start + len, e) == head + i + q * e;
    }
  }

  /** With any other backlog it finds at least one earlier operation again. */
  lemma MisalignedSeesOld(start: nat, len: nat, head: nat, e: nat) returns (i: nat)
    requires 0 < len < e && head <= start && (start - head) % e != 0
    ensures i < len && 0 <= Seen(head + i, start + len, e) < start
  {
    var q, d := (start - head) / e, (start - head) % e;
    assert start - head == q * e + d;
    i := Min(d, len) - 1;
    var tail := start + len;
    var x := Seen(head + i, tail, e);
    var t := (tail - 1 - (head + i)) / e;
    assert x == head + i + t * e;
    SeenFacts(head + i, tail, e);
    if x >= start {
      assert x - start == i - d + (t - q) * e by {
        assert t * e - q * e == (t - q) * e;
      }
      MulAtLeast(t - q, e);
    }
  }

  /* ---- each operation exactly once ---- */

  lemma {:induction false} CountConcat(xs: seq<int>, ys: seq<int>, x: int)
    ensures Count(xs + ys, x) == Count(xs, x) + Count(ys, x)
  {
    if xs == [] {
      assert xs + ys == ys;
    } else {
      assert (xs + ys)[1..] == xs[1..] + ys;
      CountConcat(xs[1..], ys, x);
    }
  }

  lemma {:induction false} CountRange(start: int, len: nat, x: int)
    ensures Count(Range(start, len), x) == Within(x, start, start + len)
    decreases len
  {
    if len > 0 {
      assert Range(start, len)[1..] == Range(start + 1, len - 1);
      CountRange(start + 1, len - 1, x);
    }
  }

  lemma {:induction false} CountAt(xs: seq<int>, i: nat)
    requires i < |xs|
    ensures Count(xs, xs[i]) >= 1
  {
    if i > 0 {
      CountAt(xs[1..], i - 1);
    }
  }

  lemma {:induction false} CountNone(xs: seq<int>, x: int)
    requires forall i :: 0 <= i < |xs| ==> xs[i] != x
    ensures Count(xs, x) == 0
  {
    if xs != [] {
      CountNone(xs[1..], x);
    }
  }

  /** How often one chunk carries x out. */
  function ChunkCount(start: nat, len: nat, head: nat, k: nat, e: nat, x: int): nat
    requires e > 0 && head <= start && k <= len
  {
    Count(Consumed(head, k, start + len, e), x) + if k < len then Within(x, start, start + len) else 0
  }

  lemma CountChunk(start: nat, len: nat, head: nat, k: nat, e: nat, x: int)
    requires e > 0 && head <= start && k <= len
    ensures Count(Chunk(start, len, head, k, e), x) == ChunkCount(start, len, head, k, e, x)
  {
    var taken := Consumed(head, k, start + len, e);
    if k < len {
      CountConcat(taken, Range(start, len), x);
      CountRange(start, len, x);
    } else {
      assert taken + [] == taken;
    }
  }

  /** A chunk taken whole behind an aligned backlog, or not at all, is carried out once. */
  lemma CleanChunk(start: nat, len: nat, head: nat, k: nat, e: nat)
    requires 0 < len <= e && head <= start && CleanTake(start, len, head, k, e)
    ensures Chunk(start, len, head, k, e) == Range(start, len)
  {
    if k == len {
      AlignedSeesChunk(start, len, head, e);
    } else {
      assert Consumed(head, k, start + len, e) == [];
    }
  }

  /** What a chunk is followed by. */
  lemma OneChunk(n: nat, r: nat, e: nat, kernel: Kernel, start: nat, head: nat, len: nat, k: nat)
    returns (rest: seq<int>)
    requires 0 < r <= e && head <= start < n && len == Min(r, n - start) && k == Taken(kernel, start, len)
    ensures rest == Executed(n, r, e, kernel, start + len, head + k)
    ensures Executed(n, r, e, kernel, start, head) == Chunk(start, len, head, k, e) + rest
    ensures Clean(n, r, e, kernel, start, head) <==>
            CleanTake(start, len, head, k, e) && Clean(n, r, e, kernel, start + len, head + k)
  {
    rest := Executed(n, r, e, kernel, start + len, head + k);
  }

  lemma CountOneChunk(n: nat, r: nat, e: nat, kernel: Kernel, start: nat, head: nat, len: nat, k: nat, x: int)
    returns (rest: seq<int>)
    requires 0 < r <= e && head <= start < n && len == Min(r, n - start) && k == Taken(kernel, start, len)
    ensures rest == Executed(n, r, e, kernel, start + len, head + k)
    ensures Count(Executed(n, r, e, kernel, start, head), x) == ChunkCount(start, len, head, k, e, x) + Count(rest, x)
  {
    rest := OneChunk(n, r, e, kernel, start, head, len, k);
    CountConcat(Chunk(start, len, head, k, e), rest, x);
    CountChunk(start, len, head, k, e, x);
  }

  lemma {:induction false} CleanRunsEach(n: nat, r: nat, e: nat, kernel: Kernel, start: nat, head: nat,
                                         executed: seq<int>, x: int)
    requires 0 < r <= e && head <= start && Clean(n, r, e, kernel, start, head)
    requires executed == Executed(n, r, e, kernel, start, head)
    ensures Count(executed, x) == Within(x, start, n)
    decreases n - start
  {
    if start < n {
      var len := Min(r, n - start);
      var k := Taken(kernel, start, len);
      var rest := OneChunk(n, r, e, kernel, start, head, len, k);
      CleanChunk(start, len, head, k, e);
      CleanRunsEach(n, r, e, kernel, start + len, head + k, rest, x);
      CountConcat(Range(start, len), rest, x);
      CountRange(start, len, x);
    }
  }

  /** A chunk taken in part, or behind another backlog, repeats an operation. */
  lemma UncleanChunk(start: nat, len: nat, head: nat, k: nat, e: nat) returns (x: int)
    requires 0 < len <= e && head <= start && 0 < k <= len
    requires k < len || ((start - head) % e != 0 && len < e)
    ensures Count(Chunk(start, len, head, k, e), x) + Within(x, 0, start) >= 2
  {
    var taken := Consumed(head, k, start + len, e);
    if k < len {
      x := taken[0];
      SeenFacts(head, start + len, e);
      CountAt(taken, 0);
      CountConcat(taken, Range(start, len), x);
      CountRange(start, len, x);
    } else {
      var i := MisalignedSeesOld(start, len, head, e);
      x := taken[i];
      CountAt(taken, i);
      assert Chunk(start, len, head, k, e) == taken;
    }
  }

  /** Otherwise some operation is carried out again. */
  lemma {:induction false} UncleanRepeats(n: nat, r: nat, e: nat, kernel: Kernel, start: nat, head: nat,
                                          executed: seq<int>)
    returns (x: int)
    requires 0 < r <= e && head <= start && !Clean(n, r, e, kernel, start, head)
    requires start < n ==> (start - head) % r == 0
    requires executed == Executed(n, r, e, kernel, start, head)
    ensures Count(executed, x) + Within(x, 0, start) >= 2
    decreases n - start
  {
    var len := Min(r, n - start);
    var k := Taken(kernel, start, len);
    var rest := OneChunk(n, r, e, kernel, start, head, len, k);
    if !CleanTake(start, len, head, k, e) {
      SmallerThanRing(start, head, r, e, len, k);
      x := UncleanChunk(start, len, head, k, e);
      CountConcat(Chunk(start, len, head, k, e), rest, x);
    } else {
      StaysMultiple(start - head, len, k, r, n - start);
      CleanChunk(start, len, head, k, e);
      x := UncleanRepeats(n, r, e, kernel, start + len, head + k, rest);
      CountConcat(Range(start, len), rest, x);
      CountRange(start, len, x);
    }
  }

  lemma StaysMultiple(backlog: int, len: nat, k: nat, r: nat, left: int)
    requires r > 0 && backlog % r == 0 && len == Min(r, left) && (k == 0 || k == len) && left > 0
    ensures left > len ==> (backlog + len - k) % r == 0
  {
    if left > len && k == 0 {
      var q := backlog / r;
      assert backlog == q * r;
      assert backlog + r == (q + 1) * r + 0;
      DivUnique(backlog + r, q + 1, 0, r);
    }
  }

  /** A whole chunk as large as the ring is always aligned. */
  lemma SmallerThanRing(start: nat, head: nat, r: nat, e: nat, len: nat, k: nat)
    requires 0 < len <= r <= e && k <= len && head <= start && (start - head) % r == 0
    requires !CleanTake(start, len, head, k, e)
    ensures 0 < k && (k < len || ((start - head) % e != 0 && len < e))
  {
  }

  /** Every operation of the batch is carried out exactly once if and only if no enter
      call takes a chunk in part and none takes one behind a backlog that is not a
      multiple of the ring. */
  lemma ExactlyOnceIffClean(n: nat, r: nat, e: nat, kernel: Kernel)
    requires 0 < r <= e
    ensures ExactlyOnce(n, Executed(n, r, e, kernel, 0, 0)) <==> Clean(n, r, e, kernel, 0, 0)
  {
    var executed := Executed(n, r, e, kernel, 0, 0);
    if Clean(n, r, e, kernel, 0, 0) {
      forall x ensures Count(executed, x) == Within(x, 0, n) {
        CleanRunsEach(n, r, e, kernel, 0, 0, executed, x);
      }
    } else {
      var x := UncleanRepeats(n, r, e, kernel, 0, 0, executed);
      assert Count(executed, x) != Within(x, 0, n);
    }
  }

  /* ---- when the condition holds ---- */

  /** No enter call takes a chunk in part. */
  predicate AllOrNothing(n: nat, r: nat, kernel: Kernel, start: nat)
    requires r > 0
    decreases n - start
  {
    start >= n ||
    var len := Min(r, n - start);
    (Taken(kernel, start, len) == 0 || Taken(kernel, start, len) == len) && AllOrNothing(n, r, kernel, start + len)
  }

  /** In a ring as large as a chunk, failed enter calls repeat nothing: partial ones alone
      do. */
  lemma {:induction false} FullRingIsClean(n: nat, r: nat, kernel: Kernel, start: nat, head: nat)
    requires r > 0 && head <= start && (start < n ==> (start - head) % r == 0)
    ensures Clean(n, r, r, kernel, start, head) <==> AllOrNothing(n, r, kernel, start)
    decreases n - start
  {
    if start < n {
      var len := Min(r, n - start);
      var k := Taken(kernel, start, len);
      if k == 0 || k == len {
        StaysMultiple(start - head, len, k, r, n - start);
        FullRingIsClean(n, r, kernel, start + len, head + k);
      }
    }
  }

  /** Every enter call completes its chunk. */
  predicate AllTaken(n: nat, r: nat, kernel: Kernel, start: nat)
    requires r > 0
    decreases n - start
  {
    start >= n ||
    var len := Min(r, n - start);
    Taken(kernel, start, len) == len && AllTaken(n, r, kernel, start + len)
  }

  /** When every enter call completes, the kernel carries the batch out in order. */
  lemma {:induction false} AllTakenInOrder(n: nat, r: nat, e: nat, kernel: Kernel, start: nat)
    requires 0 < r <= e && start <= n && AllTaken(n, r, kernel, start)
    ensures Executed(n, r, e, kernel, start, start) == Range(start, n - start)
    decreases n - start
  {
    if start < n {
      var len := Min(r, n - start);
      CleanChunk(start, len, start, len, e);
      AllTakenInOrder(n, r, e, kernel, start + len);
      assert Range(start, len) + Range(start + len, n - (start + len)) == Range(start, n - start);
    }
  }

  /* ---- each operation at least once ---- */

  /** No operation of the batch is lost. */
  ghost predicate AtLeastOnce(n: nat, executed: seq<int>) {
    forall x :: 0 <= x < n ==> Count(executed, x) >= 1
  }

  /** The last chunk is as long as the ring, or the kernel does not take all of it, or
      its backlog is a multiple of the ring. */
  predicate LastIsCovered(n: nat, r: nat, kernel: Kernel, start: nat, head: nat)
    requires r > 0 && head <= start
    decreases n - start
  {
    start >= n ||
    var len := Min(r, n - start);
    var k := Taken(kernel, start, len);
    if start + len < n then LastIsCovered(n, r, kernel, start + len, head + k) else Covered(start, len, head, k, r)
  }

  predicate Covered(start: nat, len: nat, head: nat, k: nat, r: nat)
    requires r > 0
  {
    len == r || k < len || (start - head) % r == 0
  }

  /** A chunk that fills the ring leaves nothing else in it: taken whole, it is carried
      out behind any backlog. */
  lemma FullChunkCovers(start: nat, head: nat, r: nat, x: int)
    requires r > 0 && head <= start <= x < start + r
    ensures Count(Consumed(head, r, start + r, r), x) >= 1
  {
    var taken := Consumed(head, r, start + r, r);
    var q, i := (x - head) / r, (x - head) % r;
    assert x - head == q * r + i;
    DivUnique(start + r - 1 - (head + i), q, start + r - 1 - x, r);
    assert taken[i] == Seen(head + i, start + r, r) == x;
    CountAt(taken, i);
  }

  lemma CoveredChunk(start: nat, len: nat, head: nat, k: nat, r: nat, x: int)
    requires 0 < len <= r && head <= start && k <= len && Covered(start, len, head, k, r)
    requires start <= x < start + len
    ensures ChunkCount(start, len, head, k, r, x) >= 1
  {
    if k < len {
      assert Within(x, start, start + len) == 1;
    } else if len == r {
      FullChunkCovers(start, head, r, x);
    } else {
      AlignedSeesChunk(start, len, head, r);
      CountRange(start, len, x);
    }
  }

  lemma {:induction false} CoveredRuns(n: nat, r: nat, kernel: Kernel, start: nat, head: nat,
                                       executed: seq<int>, x: int)
    requires r > 0 && head <= start <= x < n && LastIsCovered(n, r, kernel, start, head)
    requires executed == Executed(n, r, r, kernel, start, head)
    ensures Count(executed, x) >= 1
    decreases n - start
  {
    var len := Min(r, n - start);
    var k := Taken(kernel, start, len);
    var rest := CountOneChunk(n, r, r, kernel, start, head, len, k, x);
    if x < start + len {
      assert start + len < n ==> len == r;
      CoveredChunk(start, len, head, k, r, x);
    } else {
      CoveredRuns(n, r, kernel, start + len, head + k, rest, x);
    }
  }

  /** A chunk shorter than the ring and taken whole behind any other backlog misses one
      of its operations: its slot is not among those taken. */
  lemma ShortChunkMisses(start: nat, len: nat, head: nat, r: nat) returns (x: nat)
    requires 0 < len < r && head <= start && (start - head) % r != 0
    ensures start <= x < start + len && Count(Consumed(head, len, start + len, r), x) == 0
  {
    var taken := Consumed(head, len, start + len, r);
    var q, d := (start - head) / r, (start - head) % r;
    assert start - head == q * r + d;
    x := if d < len then start + len - d else start;
    var p := x - q * r;
    SameSlot(p, q, r);
    forall i | 0 <= i < len ensures taken[i] != x {
      SeenSameSlot(head + i, start + len, r);
      NearbySlotsDiffer(head + i, p, r);
    }
    CountNone(taken, x);
  }

  lemma SameSlot(p: nat, q: nat, e: nat)
    requires e > 0
    ensures 0 <= p + q * e && SlotOf(p + q * e, e) == SlotOf(p, e)
  {
    assert p + q * e == (p / e + q) * e + p % e by {
      assert (p / e + q) * e == p / e * e + q * e;
    }
    if q > 0 {
      MulAtLeast(q, e);
    }
    DivUnique(p + q * e, p / e + q, p % e, e);
  }

  /** The kernel takes nothing that is submitted later. */
  lemma NothingAhead(head: nat, k: nat, tail: nat, e: nat, x: int)
    requires e > 0 && head + k <= tail <= x
    ensures Count(Consumed(head, k, tail, e), x) == 0
  {
    var taken := Consumed(head, k, tail, e);
    forall i | 0 <= i < k ensures taken[i] != x {
      SeenFacts(head + i, tail, e);
    }
    CountNone(taken, x);
  }

  /** What a chunk does not carry out is left to the rest. */
  lemma LeftToRest(start: nat, len: nat, head: nat, k: nat, r: nat, rest: seq<int>, x: int)
    requires r > 0 && head <= start && k <= len && Count(Consumed(head, k, start + len, r), x) == 0
    requires k < len ==> start + len <= x
    ensures Count(Chunk(start, len, head, k, r) + rest, x) == Count(rest, x)
  {
    CountConcat(Chunk(start, len, head, k, r), rest, x);
    CountChunk(start, len, head, k, r, x);
  }

  lemma {:induction false} UncoveredLoses(n: nat, r: nat, kernel: Kernel, start: nat, head: nat, executed: seq<int>)
    returns (x: nat)
    requires r > 0 && head <= start && !LastIsCovered(n, r, kernel, start, head)
    requires executed == Executed(n, r, r, kernel, start, head)
    ensures start <= x < n && Count(executed, x) == 0
    decreases n - start
  {
    var len := Min(r, n - start);
    var k := Taken(kernel, start, len);
    var rest := OneChunk(n, r, r, kernel, start, head, len, k);
    if start + len < n {
      x := UncoveredLoses(n, r, kernel, start + len, head + k, rest);
      NothingAhead(head, k, start + len, r, x);
    } else {
      x := ShortChunkMisses(start, len, head, r);
      assert rest == [];
    }
    LeftToRest(start, len, head, k, r, rest, x);
  }

  /** In a ring as large as a chunk no operation is lost if and only if the last chunk
      is as long as the ring, is not taken whole, or finds a backlog that is a multiple
      of the ring. */
  lemma AtLeastOnceIff(n: nat, r: nat, kernel: Kernel)
    requires r > 0
    ensures AtLeastOnce(n, Executed(n, r, r, kernel, 0, 0)) <==> LastIsCovered(n, r, kernel, 0, 0)
  {
    var executed := Executed(n, r, r, kernel, 0, 0);
    if LastIsCovered(n, r, kernel, 0, 0) {
      forall x | 0 <= x < n ensures Count(executed, x) >= 1 {
        CoveredRuns(n, r, kernel, 0, 0, executed, x);
      }
    } else {
      var x := UncoveredLoses(n, r, kernel, 0, 0, executed);
      assert 0 <= x < n && Count(executed, x) < 1;
    }
  }

  /* ---- two batches that lose operations ---- */

  /** What each of the two chunks of a batch adds. */
  lemma TwoChunks(n: nat, r: nat, e: nat, kernel: Kernel, k: nat, m: nat, x: int)
    requires 0 < r <= e && r < n <= r + r && k == Taken(kernel, 0, r) && m == Taken(kernel, r, n - r)
    ensures Count(Executed(n, r, e, kernel, 0, 0), x) ==
            ChunkCount(0, r, 0, k, e, x) + ChunkCount(r, n - r, k, m, e, x)
  {
    var second := CountOneChunk(n, r, e, kernel, 0, 0, r, k, x);
    var rest := CountOneChunk(n, r, e, kernel, r, k, n - r, m, x);
    assert rest == [];
  }

  /** A ring of 128 slots used in chunks of 100, as the option allows: behind one failed
      enter call the next one, complete, carries operation 72 out again and never carries
      out operation 100. */
  lemma OddEntriesRepeat(n: nat, r: nat, e: nat, kernel: Kernel)
    requires n == 200 && r == 100 && e == 128 && kernel(0) == 0 && kernel(100) == 100
    ensures var executed := Executed(n, r, e, kernel, 0, 0);
            Count(executed, 72) >= 2 && Count(executed, 100) == 0
  {
    TwoChunks(n, r, e, kernel, 0, r, 72);
    TwoChunks(n, r, e, kernel, 0, r, 100);
    TakeBehindFailure(n, r, e);
  }

  lemma TakeBehindFailure(n: nat, r: nat, e: nat)
    requires n == 200 && r == 100 && e == 128
    ensures Count(Consumed(0, r, n, e), 72) >= 1 && Count(Consumed(0, r, n, e), 100) == 0
  {
    var taken := Consumed(0, r, n, e);
    assert taken[72] == 72;
    CountAt(taken, 72);
    CountNone(taken, 100);
  }

  /** A ring of 64 slots and 100 operations: the first enter call takes 32 of 64, the
      second all 36. Operation 40 runs twice and operation 80 not at all. */
  lemma PartialTakeLoses(n: nat, r: nat, kernel: Kernel)
    requires n == 100 && r == 64 && kernel(0) == 32 && kernel(64) == 36
    ensures var executed := Executed(n, r, r, kernel, 0, 0);
            Count(executed, 40) >= 2 && Count(executed, 80) == 0
  {
    TwoChunks(n, r, r, kernel, 32, 36, 40);
    TwoChunks(n, r, r, kernel, 32, 36, 80);
    NothingAhead(0, 32, r, r, 80);
    TakeBehindPart(n, r);
  }

  lemma TakeBehindPart(n: nat, r: nat)
    requires n == 100 && r == 64
    ensures Count(Consumed(32, 36, n, r), 40) >= 1 && Count(Consumed(32, 36, n, r), 80) == 0
  {
    var taken := Consumed(32, 36, n, r);
    assert taken[8] == 40;
    CountAt(taken, 8);
    CountNone(taken, 80);
  }

  /* ---- the ring itself ---- */

  const WORD_BITS := 32

  function Word(n: nat): nat { n % Pow2(WORD_BITS) }

  /** The slot as it is computed: a sum of 32-bit words that wraps around, masked with
      the ring size less one. */
  function MaskedSlot(submitted: nat, j: nat, e: nat): nat
    requires e > 0
  {
    And(Word(Word(submitted) + Word(j)), e - 1)
  }

  lemma WordsAdd(a: nat, b: nat)
    ensures Word(Word(a) + Word(b)) == Word(a + b)
  {
    var w := Pow2(WORD_BITS);
    var q, r := a / w + b / w, Word(a) + Word(b);
    assert a + b == q * w + r;
    assert r == r / w * w + r % w;
    assert q * w + r / w * w == (q + r / w) * w;
    DivUnique(a + b, q + r / w, r % w, w);
  }

  /** In a ring of a power of two it is the slot of the position, past the end of the
      word too. */
  lemma MaskedSlotIsSlot(submitted: nat, j: nat, k: nat)
    requires k <= WORD_BITS
    ensures MaskedSlot(submitted, j, Pow2(k)) == SlotOf(submitted + j, Pow2(k))
  {
    WordsAdd(submitted, j);
    MaskIsRemainder(Word(submitted + j), k);
    RemainderOfWord(submitted + j, WORD_BITS, k);
  }

  /** The submissions of one chunk never share a slot. */
  lemma SlotsAreDistinct(submitted: nat, i: nat, j: nat, k: nat)
    requires k <= WORD_BITS && i < j < Pow2(k)
    ensures MaskedSlot(submitted, i, Pow2(k)) != MaskedSlot(submitted, j, Pow2(k))
  {
    MaskedSlotIsSlot(submitted, i, k);
    MaskedSlotIsSlot(submitted, j, k);
    NearbySlotsDiffer(submitted + i, submitted + j, Pow2(k));
  }

  /** Each slot holds the last work index written to it. */
  ghost predicate Holds(slots: seq<int>, tail: nat) {
    |slots| > 0 && forall p: nat :: p < tail <= p + |slots| ==> slots[SlotOf(p, |slots|)] == p
  }

  lemma WriteHolds(slots: seq<int>, tail: nat)
    requires Holds(slots, tail)
    ensures Holds(slots[SlotOf(tail, |slots|) := tail], tail + 1)
  {
    forall p: nat | p < tail < p + |slots| ensures SlotOf(p, |slots|) != SlotOf(tail, |slots|) {
      NearbySlotsDiffer(p, tail, |slots|);
    }
  }

  lemma ReadSeen(slots: seq<int>, tail: nat, p: nat)
    requires Holds(slots, tail) && p < tail
    ensures slots[SlotOf(p, |slots|)] == Seen(p, tail, |slots|)
  {
    SeenFacts(p, tail, |slots|);
    SeenSameSlot(p, tail, |slots|);
  }

  /** The submission ring: slots written at the tail, taken by the kernel at its head.
      The kernel makes the number of slots a power of two. */
  class Ring {
    const order: nat
    const slots: array<int>
    var head: nat
    var tail: nat

    constructor (order: nat)
      requires order <= WORD_BITS
      ensures this.order == order && fresh(slots) && slots.Length == Pow2(order)
      ensures head == 0 && tail == 0 && Valid()
    {
      this.order := order;
      slots := new int[Pow2(order)];
      head, tail := 0, 0;
    }

    ghost predicate Valid()
      reads this, slots
    {
      order <= WORD_BITS && slots.Length == Pow2(order) && head <= tail && Holds(slots[..], tail)
    }

    /** Writes the chunk and advances the tail past it. */
    method Submit(chunkStart: nat, len: nat)
      requires Valid() && chunkStart == tail && len <= slots.Length
      modifies slots, this`tail
      ensures Valid() && tail == chunkStart + len
    {
      for j := 0 to len
        invariant tail == chunkStart && Holds(slots[..], chunkStart + j)
      {
        MaskedSlotIsSlot(tail, j, order);
        WriteHolds(slots[..], chunkStart + j);
        slots[MaskedSlot(tail, j, slots.Length)] := chunkStart + j;
      }
      tail := tail + len;
    }

    /** The kernel takes k submissions, whatever their slots hold by now. */
    method Enter(k: nat) returns (done: seq<int>)
      requires Valid() && head + k <= tail
      modifies this`head
      ensures Valid() && head == old(head) + k
      ensures done == Consumed(old(head), k, tail, slots.Length)
    {
      done := [];
      for i := 0 to k
        invariant head == old(head) && |done| == i
        invariant forall j :: 0 <= j < i ==> done[j] == Seen(head + j, tail, slots.Length)
      {
        MaskedSlotIsSlot(head, i, order);
        ReadSeen(slots[..], tail, head + i);
        done := done + [slots[MaskedSlot(head, i, slots.Length)]];
      }
      head := head + k;
    }

    /** One turn: submit the chunk, enter the kernel, and carry the chunk out otherwise
        unless the kernel took all of it. */
    method FlushChunk(chunkStart: nat, len: nat, k: nat) returns (done: seq<int>)
      requires Valid() && chunkStart == tail && k <= len <= slots.Length
      modifies slots, this`head, this`tail
      ensures Valid() && tail == chunkStart + len && head == old(head) + k
      ensures done == Chunk(chunkStart, len, old(head), k, slots.Length)
    {
      Submit(chunkStart, len);
      done := Enter(k);
      if k < len {
        done := done + Range(chunkStart, len);
      }
    }

    /** The next chunk of a batch, and what is left after it. */
    method FlushNext(n: nat, ringSize: nat, kernel: Kernel) returns (done: seq<int>, ghost rest: seq<int>)
      requires Valid() && tail < n && 0 < ringSize <= slots.Length
      modifies slots, this`head, this`tail
      ensures Valid() && tail == old(tail) + Min(ringSize, n - old(tail))
      ensures Executed(n, ringSize, slots.Length, kernel, old(tail), old(head)) == done + rest
      ensures rest == Executed(n, ringSize, slots.Length, kernel, tail, head)
    {
      var len := Min(ringSize, n - tail);
      var k := Taken(kernel, tail, len);
      rest := OneChunk(n, ringSize, slots.Length, kernel, tail, head, len, k);
      done := FlushChunk(tail, len, k);
    }

    /** The chunk loop: the tail always equals the number submitted, which is the index
        of the next operation. */
    method Flush(n: nat, ringSize: nat, kernel: Kernel) returns (executed: seq<int>)
      requires Valid() && head == tail == 0 && 0 < ringSize <= slots.Length
      modifies slots, this`head, this`tail
      ensures Valid() && tail == n
      ensures executed == Executed(n, ringSize, slots.Length, kernel, 0, 0)
    {
      executed := [];
      var chunkStart := 0;
      ghost var whole := Executed(n, ringSize, slots.Length, kernel, 0, 0);
      ghost var rest := whole;
      while chunkStart < n
        invariant Valid() && chunkStart == tail <= n
        invariant rest == Executed(n, ringSize, slots.Length, kernel, chunkStart, head)
        invariant executed + rest == whole
      {
        var done;
        done, rest := FlushNext(n, ringSize, kernel);
        assert executed + (done + rest) == (executed + done) + rest;
        executed := executed + done;
        chunkStart := chunkStart + Min(ringSize, n - chunkStart);
      }
    }
  }
}
