/** The hash cache in front of the write-ahead log: what a restart brings back. */
module PersistentCache {
  import opened Wrappers
  import opened Lru
  import opened Wal

  function CallOf(e: Entry): Call {
    if e.deleted then Delete(e.key) else Set(e.key, e.hash)
  }

  function CallsOf(es: seq<Entry>): (calls: seq<Call>)
    ensures |calls| == |es|
  {
    seq(|es|, i requires 0 <= i < |es| => CallOf(es[i]))
  }

  lemma OneMoreEntry(cap: nat, es: seq<Entry>, i: nat)
    requires i < |es|
    ensures Run(cap, CallsOf(es[..i + 1])) == After(Run(cap, CallsOf(es[..i])), cap, CallOf(es[i]))
  {
    assert CallsOf(es[..i + 1])[..i] == CallsOf(es[..i]);
  }

  /** The replay loop, into an empty shard. */
  method ApplyAll(inner: Shard, entries: seq<Entry>)
    requires inner.Valid() && inner.Contents() == []
    modifies inner
    ensures inner.Valid() && inner.Contents() == Run(inner.cap, CallsOf(entries))
  {
    for i := 0 to |entries|
      invariant inner.Valid() && inner.Contents() == Run(inner.cap, CallsOf(entries[..i]))
    {
      OneMoreEntry(inner.cap, entries, i);
      if entries[i].deleted {
        inner.Delete(entries[i].key);
      } else {
        inner.Set(entries[i].key, entries[i].hash);
      }
    }
    assert entries[..|entries|] == entries;
  }

  /** What the disk does with one append: how many bytes of the record reach the file,
      and whether a compaction, if due, can create its temporary file. */
  datatype Disk = Disk(written: nat, compacts: bool)

  /** The part of a record that reaches the file. */
  function Reached(d: Disk, record: Bytes): Bytes {
    if d.written < |record| then record[..d.written] else record
  }

  /** The counter after an append: unchanged by a failed write, reset by a compaction. */
  function Counted(d: Disk, record: Bytes, count: nat, compactAt: nat): nat {
    if d.written < |record| then count
    else if count + 1 >= compactAt && d.compacts then 0
    else count + 1
  }

  /** An append: what the disk does, and the record. */
  datatype Append = Append(disk: Disk, record: Bytes) {
    predicate Whole() { disk.written >= |record| }
  }

  function CountAfter(appends: seq<Append>, count: nat, compactAt: nat): nat {
    if appends == [] then count
    else
      var last := appends[|appends| - 1];
      Counted(last.disk, last.record, CountAfter(appends[..|appends| - 1], count, compactAt), compactAt)
  }

  function WholeOnes(appends: seq<Append>): nat {
    if appends == [] then 0
    else WholeOnes(appends[..|appends| - 1]) + if appends[|appends| - 1].Whole() then 1 else 0
  }

  lemma {:induction false} CounterCountsOn(appends: seq<Append>, count: nat, compactAt: nat)
    requires forall i :: 0 <= i < |appends| ==> !appends[i].disk.compacts
    ensures CountAfter(appends, count, compactAt) == count + WholeOnes(appends)
  {
    if appends != [] {
      CounterCountsOn(appends[..|appends| - 1], count, compactAt);
    }
  }

  lemma {:induction false} CounterStartsAgain(appends: seq<Append>, count: nat, compactAt: nat)
    requires count < compactAt && forall i :: 0 <= i < |appends| ==> appends[i].disk.compacts
    ensures CountAfter(appends, count, compactAt) == (count + WholeOnes(appends)) % compactAt
  {
    if appends == [] {
      ModIs(count, compactAt, 0, count);
    } else {
      CounterStartsAgain(appends[..|appends| - 1], count, compactAt);
      NextRemainder(count + WholeOnes(appends[..|appends| - 1]), compactAt);
    }
  }

  /** Only records that reach the file whole are counted. With compactions that succeed
      the counter starts again at every multiple of the threshold; when none does, it
      just counts on. */
  lemma CounterCounts(appends: seq<Append>, count: nat, compactAt: nat)
    requires count < compactAt
    ensures (forall i :: 0 <= i < |appends| ==> appends[i].disk.compacts) ==>
              CountAfter(appends, count, compactAt) == (count + WholeOnes(appends)) % compactAt
    ensures (forall i :: 0 <= i < |appends| ==> !appends[i].disk.compacts) ==>
              CountAfter(appends, count, compactAt) == count + WholeOnes(appends)
  {
    if forall i :: 0 <= i < |appends| ==> appends[i].disk.compacts {
      CounterStartsAgain(appends, count, compactAt);
    }
    if forall i :: 0 <= i < |appends| ==> !appends[i].disk.compacts {
      CounterCountsOn(appends, count, compactAt);
    }
  }

  lemma NextRemainder(n: nat, d: nat)
    requires d > 0
    ensures (n + 1) % d == if n % d + 1 == d then 0 else n % d + 1
  {
    var q, r := n / d, n % d;
    assert n == d * q + r;
    if r + 1 == d {
      assert n + 1 == d * (q + 1) + 0;
      ModIs(n + 1, d, q + 1, 0);
    } else {
      ModIs(n + 1, d, q, r + 1);
    }
  }

  class Cache {
    const c: Codec
    const inner: Shard
    const compactAt: nat
    var walFile: Bytes
    var walCount: nat

    /** openAndReplay: the log is replayed into the empty cache, in order; new
        entries will be appended at the end of the file. */
    constructor Open(c: Codec, capacity: nat, compactionThreshold: int, file: Bytes)
      requires capacity >= 1
      ensures this.c == c && walFile == file && fresh(inner)
      ensures compactAt == if compactionThreshold <= 0 then 100_000 else compactionThreshold
      ensures inner.Valid() && inner.cap == capacity
      ensures inner.Contents() == Run(capacity, CallsOf(Replay(c, file)))
      ensures walCount == |Replay(c, file)|
    {
      this.c := c;
      inner := new Shard(capacity);
      compactAt := if compactionThreshold <= 0 then 100_000 else compactionThreshold;
      walFile := file;
      walCount := 0;
      new;
      var entries, count := ReadWAL(c, file);
      ApplyAll(inner, entries);
      walCount := count;
    }

    /** A write that fails leaves what reached the file; a compaction that is due only
        resets the counter. */
    method AppendWAL(e: Entry, d: Disk)
      modifies this`walFile, this`walCount
      ensures walFile == old(walFile) + Reached(d, Frame(c, e))
      ensures walCount == Counted(d, Frame(c, e), old(walCount), compactAt)
    {
      var record := Frame(c, e);
      if d.written < |record| {
        walFile := walFile + record[..d.written];
        return;
      }
      walFile := walFile + record;
      walCount := walCount + 1;
      if walCount < compactAt {
        return;
      }
      if d.compacts {
        walCount := 0;
      }
    }

    method Set(k: Key, h: Hash, now: int, d: Disk)
      requires inner.Valid()
      modifies this`walFile, this`walCount, inner
      ensures inner.Valid() && inner.Contents() == AfterSet(old(inner.Contents()), inner.cap, k, h)
      ensures walFile == old(walFile) + Reached(d, Frame(c, Entry(k, h, false, now)))
      ensures walCount == Counted(d, Frame(c, Entry(k, h, false, now)), old(walCount), compactAt)
    {
      inner.Set(k, h);
      AppendWAL(Entry(k, h, false, now), d);
    }

    method Delete(k: Key, now: int, d: Disk)
      requires inner.Valid()
      modifies this`walFile, this`walCount, inner
      ensures inner.Valid() && inner.Contents() == Removed(old(inner.Contents()), k)
      ensures walFile == old(walFile) + Reached(d, Frame(c, Entry(k, "", true, now)))
      ensures walCount == Counted(d, Frame(c, Entry(k, "", true, now)), old(walCount), compactAt)
    {
      inner.Delete(k);
      AppendWAL(Entry(k, "", true, now), d);
    }
  }

  /** The value of the last entry for k, unless that is a deletion. */
  function LastSet(es: seq<Entry>, k: Key): Option<Hash> {
    if es == [] then None
    else
      var last := es[|es| - 1];
      if last.key != k then LastSet(es[..|es| - 1], k)
      else if last.deleted then None else Some(last.hash)
  }

  lemma {:induction false} LatestIsLastSet(es: seq<Entry>, k: Key)
    ensures Latest(CallsOf(es), k) == LastSet(es, k)
  {
    if es != [] {
      LatestIsLastSet(es[..|es| - 1], k);
      assert CallsOf(es)[..|es| - 1] == CallsOf(es[..|es| - 1]);
    }
  }

  /** A crash may cut the log anywhere. After the restart every hit is the hash of
      the last Set of its key, not followed by a Delete, among the entries that were
      written completely. */
  lemma HitsAfterCrash(c: Codec, cap: nat, es: seq<Entry>, cut: nat, k: Key)
    requires c.Good() && AllFit(c, es) && cut <= |Log(c, es)| && cap >= 1
    requires Has(Run(cap, CallsOf(Replay(c, Log(c, es)[..cut]))), k)
    ensures LastSet(es[..Whole(c, es, cut)], k) == Some(ValueOf(Run(cap, CallsOf(Replay(c, Log(c, es)[..cut]))), k))
  {
    ReplayPrefix(c, es, cut);
    var survivors := es[..Whole(c, es, cut)];
    HitIsLatest(cap, CallsOf(survivors), k);
    LatestIsLastSet(survivors, k);
  }
}
