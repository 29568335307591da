/** The write-ahead log of the persistent hash cache: length-prefixed entries, and
    their replay from a file that may have been cut off. */
module Wal {
  import opened Collections
  import opened Wrappers
  import opened Lru

  newtype byte = x: int | 0 <= x < 256
  type Bytes = seq<byte>

  const UINT32 := 0x1_0000_0000
  const MAX_ENTRY := 0x10_0000

  datatype Entry = Entry(key: Key, hash: Hash, deleted: bool, ts: int)

  /** The gob encoding of an entry. */
  datatype Codec = Codec(encode: Entry -> Bytes, decode: Bytes -> Option<Entry>) {
    ghost predicate Good() {
      forall e :: decode(encode(e)) == Some(e)
    }

    function Size(e: Entry): nat { |encode(e)| }
  }

  /* ---- the length prefix ---- */

  /** Little-endian bytes of n, as many as wanted; higher digits are cut off. */
  function LittleEndian(n: nat, width: nat): (b: Bytes)
    ensures |b| == width
  {
    if width == 0 then [] else [(n % 256) as byte] + LittleEndian(n / 256, width - 1)
  }

  function FromLittleEndian(b: Bytes): nat {
    if b == [] then 0 else b[0] as nat + 256 * FromLittleEndian(b[1..])
  }

  function Power256(width: nat): (p: nat)
    ensures p >= 1
  {
    if width == 0 then 1 else 256 * Power256(width - 1)
  }

  lemma {:induction false} EndianRoundTrip(n: nat, width: nat)
    ensures FromLittleEndian(LittleEndian(n, width)) == n % Power256(width)
  {
    if width > 0 {
      EndianRoundTrip(n / 256, width - 1);
      assert LittleEndian(n, width)[1..] == LittleEndian(n / 256, width - 1);
      ModByDigit(n, Power256(width - 1));
    }
  }

  lemma ModByDigit(n: nat, p: nat)
    requires p >= 1
    ensures n % (256 * p) == n % 256 + 256 * (n / 256 % p)
  {
    var q := n / 256;
    var t, x := q / p, n % 256 + 256 * (q % p);
    assert q == p * t + q % p;
    assert 256 * (p * t) == (256 * p) * t;
    ModIs(n, 256 * p, t, x);
  }

  lemma ModIs(n: nat, d: nat, q: nat, r: nat)
    requires d > 0 && n == d * q + r && r < d
    ensures n % d == r
  {
    var k: int := n / d - q;
    assert n == d * (n / d) + n % d;
    assert d * (q + k) == d * q + d * k;
    if k >= 1 { MulGrows(d, k); }
    if k <= -1 { MulGrows(d, -k); }
  }

  lemma MulGrows(d: int, k: int)
    requires d > 0 && k >= 1
    ensures d * k >= d && d * (-k) <= -d
  {
  }

  /** PutUint32: the length is first truncated to 32 bits. */
  function PutUint32(n: nat): (b: Bytes)
    ensures |b| == 4
  {
    LittleEndian(n, 4)
  }

  function Uint32(b: Bytes): nat {
    FromLittleEndian(b)
  }

  lemma Uint32Put(n: nat)
    ensures Uint32(PutUint32(n)) == n % UINT32
  {
    EndianRoundTrip(n, 4);
    assert Power256(4) == UINT32;
  }

  /* ---- writing and reading ---- */

  function Frame(c: Codec, e: Entry): Bytes {
    PutUint32(c.Size(e)) + c.encode(e)
  }

  function Log(c: Codec, es: seq<Entry>): Bytes {
    if es == [] then [] else Frame(c, es[0]) + Log(c, es[1..])
  }

  /** The entries that replay finds. */
  function Replay(c: Codec, file: Bytes): seq<Entry> {
    if |file| < 4 then []
    else
      var n := Uint32(file[..4]);
      if n == 0 || n > MAX_ENTRY || |file| < 4 + n then []
      else
        var e := c.decode(file[4..4 + n]);
        if e.None? then [] else [e.value] + Replay(c, file[4 + n..])
  }

  /** A whole record is at the front of the file. */
  predicate Readable(c: Codec, file: Bytes) {
    |file| >= 4 &&
    var n := Uint32(file[..4]);
    n != 0 && n <= MAX_ENTRY && |file| >= 4 + n && c.decode(file[4..4 + n]).Some?
  }

  /** One turn of the reading loop. */
  lemma ReplayTurn(c: Codec, file: Bytes)
    ensures !Readable(c, file) ==> Replay(c, file) == []
    ensures Readable(c, file) ==>
              var n := Uint32(file[..4]);
              Replay(c, file) == [c.decode(file[4..4 + n]).value] + Replay(c, file[4 + n..])
  {
  }

  lemma Skip<T>(s: seq<T>, a: nat, b: nat)
    requires a + b <= |s|
    ensures s[a..][b..] == s[a + b..]
  {
  }

  /** One record: its header, its size check, its payload. None at the end of the
      file or at a malformed record. */
  method ReadEntry(c: Codec, file: Bytes, pos: nat) returns (e: Option<Entry>, end: nat)
    requires pos <= |file|
    ensures e.None? ==> Replay(c, file[pos..]) == []
    ensures e.Some? ==> pos < end <= |file| && Replay(c, file[pos..]) == [e.value] + Replay(c, file[end..])
  {
    var rest := file[pos..];
    ReplayTurn(c, rest);
    e, end := None, pos;
    if |rest| < 4 {
      return;
    }
    var n := Uint32(rest[..4]);
    if n == 0 || n > MAX_ENTRY {
      return;
    }
    if |rest| < 4 + n {
      return;
    }
    Skip(file, pos, 4 + n);
    e, end := c.decode(rest[4..4 + n]), pos + (4 + n);
  }

  /** readWAL: the records up to the first that cannot be read. */
  method ReadWAL(c: Codec, file: Bytes) returns (entries: seq<Entry>, count: nat)
    ensures entries == Replay(c, file) && count == |entries|
  {
    entries, count := [], 0;
    var pos := 0;
    assert file[0..] == file;
    while true
      invariant 0 <= pos <= |file| && count == |entries|
      invariant entries + Replay(c, file[pos..]) == Replay(c, file)
      decreases |file| - pos
    {
      var e, end := ReadEntry(c, file, pos);
      if e.None? {
        break;
      }
      Associate(entries, [e.value], Replay(c, file[end..]));
      entries := entries + [e.value];
      count := count + 1;
      pos := end;
    }
    assert entries + [] == entries;
  }

  /* ---- what survives ---- */

  predicate Fits(c: Codec, e: Entry) {
    1 <= c.Size(e) <= MAX_ENTRY
  }

  predicate AllFit(c: Codec, es: seq<Entry>) {
    forall i :: 0 <= i < |es| ==> Fits(c, es[i])
  }

  lemma FrameParts(c: Codec, e: Entry, rest: Bytes)
    requires Fits(c, e)
    ensures var file, n := Frame(c, e) + rest, c.Size(e);
            |file| >= 4 + n && Uint32(file[..4]) == n && file[4..4 + n] == c.encode(e) && file[4 + n..] == rest
  {
    var file := Frame(c, e) + rest;
    assert file[..4] == PutUint32(c.Size(e));
    Uint32Put(c.Size(e));
  }

  /** A frame in front is read back. */
  lemma ReplayFrame(c: Codec, e: Entry, rest: Bytes)
    requires c.Good() && Fits(c, e)
    ensures Replay(c, Frame(c, e) + rest) == [e] + Replay(c, rest)
  {
    var file, n := Frame(c, e) + rest, c.Size(e);
    FrameParts(c, e, rest);
    assert c.decode(file[4..4 + n]) == Some(e);
    ReplayTurn(c, file);
  }

  /** A proper prefix of a frame yields nothing. */
  lemma ReplayTorn(c: Codec, e: Entry, k: nat)
    requires Fits(c, e) && k < |Frame(c, e)|
    ensures Replay(c, Frame(c, e)[..k]) == []
  {
    if k >= 4 {
      Uint32Put(c.Size(e));
      assert Frame(c, e)[..k][..4] == PutUint32(c.Size(e));
    }
  }

  /** The number of entries that lie wholly inside the first k bytes of the log. */
  function Whole(c: Codec, es: seq<Entry>, k: nat): (m: nat)
    ensures m <= |es|
  {
    if es == [] || k < |Frame(c, es[0])| then 0 else 1 + Whole(c, es[1..], k - |Frame(c, es[0])|)
  }

  lemma {:induction false} WholeExact(c: Codec, es: seq<Entry>, k: nat)
    ensures var m := Whole(c, es, k); |Log(c, es[..m])| <= k && (m < |es| ==> k < |Log(c, es[..m + 1])|)
  {
    if es != [] {
      var f := |Frame(c, es[0])|;
      if k < f {
        assert es[..1] == [es[0]] && [es[0]][1..] == [];
      } else {
        WholeExact(c, es[1..], k - f);
        var m := Whole(c, es[1..], k - f);
        assert es[..m + 1][1..] == es[1..][..m];
        if m < |es| - 1 {
          assert es[..m + 2][1..] == es[1..][..m + 1];
        }
      }
    }
  }

  /** A prefix that holds the first frame ends in a prefix of the rest. */
  lemma CutBehind(frame: Bytes, rest: Bytes, k: nat)
    requires |frame| <= k <= |frame + rest|
    ensures (frame + rest)[..k] == frame + rest[..k - |frame|]
  {
  }

  lemma CutBefore(frame: Bytes, rest: Bytes, k: nat)
    requires k <= |frame|
    ensures (frame + rest)[..k] == frame[..k]
  {
  }

  /** For every byte prefix of the log, replay returns exactly the entries that lie
      wholly inside it; a torn last entry is dropped. */
  lemma {:induction false} ReplayPrefix(c: Codec, es: seq<Entry>, k: nat)
    requires c.Good() && AllFit(c, es) && k <= |Log(c, es)|
    ensures Replay(c, Log(c, es)[..k]) == es[..Whole(c, es, k)]
    decreases |es|
  {
    if es != [] {
      var frame, rest := Frame(c, es[0]), Log(c, es[1..]);
      if k < |frame| {
        CutBefore(frame, rest, k);
        ReplayTorn(c, es[0], k);
      } else {
        CutBehind(frame, rest, k);
        ReplayFrame(c, es[0], rest[..k - |frame|]);
        ReplayPrefix(c, es[1..], k - |frame|);
        assert es[..Whole(c, es, k)] == [es[0]] + es[1..][..Whole(c, es[1..], k - |frame|)];
      }
    }
  }

  /** Entries that were appended after a clean end are read as well. */
  lemma {:induction false} ReplayJoin(c: Codec, es: seq<Entry>, rest: Bytes)
    requires c.Good() && AllFit(c, es)
    ensures Replay(c, Log(c, es) + rest) == es + Replay(c, rest)
    decreases |es|
  {
    if es == [] {
      assert Log(c, es) + rest == rest && es + Replay(c, rest) == Replay(c, rest);
    } else {
      var tail := Log(c, es[1..]) + rest;
      Associate(Frame(c, es[0]), Log(c, es[1..]), rest);
      ReplayFrame(c, es[0], tail);
      ReplayJoin(c, es[1..], rest);
      Associate([es[0]], es[1..], Replay(c, rest));
      assert es == [es[0]] + es[1..];
    }
  }

  /* ---- where the log does not keep its promise ---- */

  /** writeWALEntry accepts entries that readWAL refuses. Such an entry hides itself
      and everything written after it. */
  lemma OversizedHidesTheRest(c: Codec, es: seq<Entry>, big: Entry, more: seq<Entry>)
    requires c.Good() && AllFit(c, es) && !Fits(c, big) && c.Size(big) < UINT32
    ensures Replay(c, Log(c, es + ([big] + more))) == es
  {
    LogJoin(c, es, [big] + more);
    ReplayJoin(c, es, Log(c, [big] + more));
    OversizedIsRefused(c, big, more);
    assert es + [] == es;
  }

  lemma OversizedIsRefused(c: Codec, big: Entry, more: seq<Entry>)
    requires !Fits(c, big) && c.Size(big) < UINT32
    ensures Replay(c, Log(c, [big] + more)) == []
  {
    LogHead(c, big, more);
    Uint32Put(c.Size(big));
    RefusedHeader(c, PutUint32(c.Size(big)), Log(c, [big] + more));
  }

  lemma LogHead(c: Codec, e: Entry, more: seq<Entry>)
    ensures PutUint32(c.Size(e)) <= Log(c, [e] + more)
    ensures Log(c, [e] + more) == Frame(c, e) + Log(c, more)
  {
    assert ([e] + more)[0] == e && ([e] + more)[1..] == more;
  }

  lemma RefusedHeader(c: Codec, header: Bytes, file: Bytes)
    requires |header| == 4 && header <= file && (Uint32(header) == 0 || Uint32(header) > MAX_ENTRY)
    ensures Replay(c, file) == []
  {
    assert file[..4] == header;
  }

  lemma {:induction false} LogJoin(c: Codec, a: seq<Entry>, b: seq<Entry>)
    ensures Log(c, a + b) == Log(c, a) + Log(c, b)
    decreases |a|
  {
    if a == [] {
      assert a + b == b;
    } else {
      assert (a + b)[0] == a[0] && (a + b)[1..] == a[1..] + b;
      LogJoin(c, a[1..], b);
    }
  }

  /** A record of a proper length whose payload cannot be decoded hides itself and
      everything written after it, too. */
  lemma BadPayloadHidesTheRest(c: Codec, es: seq<Entry>, payload: Bytes, rest: Bytes)
    requires c.Good() && AllFit(c, es) && 1 <= |payload| <= MAX_ENTRY && c.decode(payload).None?
    ensures Replay(c, Log(c, es) + (PutUint32(|payload|) + payload + rest)) == es
  {
    var file := PutUint32(|payload|) + payload + rest;
    ReplayJoin(c, es, file);
    BadPayloadIsUnreadable(c, payload, rest);
    ReplayTurn(c, file);
    assert es + [] == es;
  }

  lemma BadPayloadIsUnreadable(c: Codec, payload: Bytes, rest: Bytes)
    requires |payload| < UINT32 && c.decode(payload).None?
    ensures !Readable(c, PutUint32(|payload|) + payload + rest)
  {
    var file := PutUint32(|payload|) + payload + rest;
    Uint32Put(|payload|);
    assert file[..4] == PutUint32(|payload|) && file[4..4 + |payload|] == payload;
  }

  /** So a complete log is read back completely exactly when every entry has between
      1 byte and 1 MiB. */
  lemma ReplayCompleteIff(c: Codec, es: seq<Entry>)
    requires c.Good() && forall i :: 0 <= i < |es| ==> c.Size(es[i]) < UINT32
    ensures Replay(c, Log(c, es)) == es <==> AllFit(c, es)
  {
    if AllFit(c, es) {
      FittingIsComplete(c, es);
    } else {
      var i := FirstUnfit(c, es);
      SplitAt(es, i);
      OversizedHidesTheRest(c, es[..i], es[i], es[i + 1..]);
      assert |es[..i]| != |es|;
    }
  }

  lemma SplitAt<T>(s: seq<T>, i: nat)
    requires i < |s|
    ensures s == s[..i] + ([s[i]] + s[i + 1..])
  {
  }

  lemma FittingIsComplete(c: Codec, es: seq<Entry>)
    requires c.Good() && AllFit(c, es)
    ensures Replay(c, Log(c, es)) == es
  {
    ReplayJoin(c, es, []);
    assert Log(c, es) + [] == Log(c, es) && es + [] == es;
    assert Replay(c, []) == [];
  }

  lemma {:induction false} FirstUnfit(c: Codec, es: seq<Entry>) returns (i: nat)
    requires !AllFit(c, es)
    ensures i < |es| && !Fits(c, es[i]) && AllFit(c, es[..i])
  {
    var n := |es| - 1;
    if AllFit(c, es[..n]) {
      i := n;
      assert forall j :: 0 <= j < n ==> es[..n][j] == es[j];
    } else {
      i := FirstUnfit(c, es[..n]);
      assert es[..n][..i] == es[..i];
    }
  }

  /* ---- appending after a torn tail ---- */

  /** openAndReplay appends at the end of the file, after a torn tail if there is one.
      A tail that holds a whole header swallows what follows into its payload: nothing
      is read until the missing bytes are there. */
  lemma TornPayloadSwallows(c: Codec, es: seq<Entry>, torn: Entry, k: nat, rest: Bytes)
    requires c.Good() && AllFit(c, es) && Fits(c, torn)
    requires 4 <= k && k + |rest| < |Frame(c, torn)|
    ensures Replay(c, Log(c, es) + (Frame(c, torn)[..k] + rest)) == es
  {
    var tail := Frame(c, torn)[..k] + rest;
    ReplayJoin(c, es, tail);
    TornIsUnreadable(c, torn, k, rest);
    ReplayTurn(c, tail);
    assert es + [] == es;
  }

  lemma TornIsUnreadable(c: Codec, torn: Entry, k: nat, rest: Bytes)
    requires Fits(c, torn) && 4 <= k && k + |rest| < |Frame(c, torn)|
    ensures !Readable(c, Frame(c, torn)[..k] + rest)
  {
    var tail := Frame(c, torn)[..k] + rest;
    Uint32Put(c.Size(torn));
    assert tail[..4] == PutUint32(c.Size(torn));
  }

  /** A tail that ends inside the header is completed by the next entry's header. */
  function MixedLength(torn: nat, k: nat, next: nat): nat
    requires k <= 4
  {
    torn % Power256(k) + Power256(k) * (next % Power256(4 - k))
  }

  lemma MixedHeader(torn: nat, k: nat, next: nat)
    requires k <= 4
    ensures |PutUint32(torn)[..k] + PutUint32(next)[..4 - k]| == 4
    ensures Uint32(PutUint32(torn)[..k] + PutUint32(next)[..4 - k]) == MixedLength(torn, k, next)
  {
    CutDigits(torn, k, 4);
    CutDigits(next, 4 - k, 4);
    EndianRoundTrip(torn, k);
    EndianRoundTrip(next, 4 - k);
    EndianJoin(LittleEndian(torn, k), LittleEndian(next, 4 - k));
  }

  lemma {:induction false} CutDigits(n: nat, k: nat, width: nat)
    requires k <= width
    ensures LittleEndian(n, width)[..k] == LittleEndian(n, k)
  {
    if k > 0 {
      CutDigits(n / 256, k - 1, width - 1);
    }
  }

  lemma Associative(x: int, y: int, z: int)
    ensures x * (y * z) == (x * y) * z
  {
  }

  lemma {:induction false} EndianJoin(a: Bytes, b: Bytes)
    ensures FromLittleEndian(a + b) == FromLittleEndian(a) + Power256(|a|) * FromLittleEndian(b)
    decreases |a|
  {
    if a == [] {
      assert a + b == b;
    } else {
      EndianJoin(a[1..], b);
      assert (a + b)[1..] == a[1..] + b;
      Associative(256, Power256(|a| - 1), FromLittleEndian(b));
    }
  }

  /** When the mixed length is not that of a record, everything after the restart is
      lost. */
  lemma TornHeaderHides(c: Codec, es: seq<Entry>, torn: Entry, k: nat, next: Entry, more: seq<Entry>)
    requires c.Good() && AllFit(c, es) && 1 <= k <= 3
    requires var n := MixedLength(c.Size(torn), k, c.Size(next)); n == 0 || n > MAX_ENTRY
    ensures Replay(c, Log(c, es) + (Frame(c, torn)[..k] + Log(c, [next] + more))) == es
  {
    var tail := Frame(c, torn)[..k] + Log(c, [next] + more);
    ReplayJoin(c, es, tail);
    LogHead(c, next, more);
    var header := PutUint32(c.Size(torn))[..k] + PutUint32(c.Size(next))[..4 - k];
    assert header <= tail;
    MixedHeader(c.Size(torn), k, c.Size(next));
    RefusedHeader(c, header, tail);
    assert es + [] == es;
  }

  /** So after a tail of one byte every entry of at least 4097 bytes is lost, with all
      later ones. */
  lemma AppendAfterTornByteIsLost(c: Codec, es: seq<Entry>, torn: Entry, next: Entry, more: seq<Entry>)
    requires c.Good() && AllFit(c, es) && Fits(c, next) && c.Size(next) >= 4097
    ensures Replay(c, Log(c, es) + (Frame(c, torn)[..1] + Log(c, [next] + more))) == es
  {
    assert Power256(1) == 256 && Power256(3) == 0x100_0000;
    TornHeaderHides(c, es, torn, 1, next, more);
  }

  /** Without a torn tail, restarting and appending keeps everything. */
  lemma AppendAfterCleanEndIsKept(c: Codec, es: seq<Entry>, more: seq<Entry>)
    requires c.Good() && AllFit(c, es) && AllFit(c, more)
    ensures Replay(c, Log(c, es) + Log(c, more)) == es + more
  {
    ReplayJoin(c, es, Log(c, more));
    ReplayJoin(c, more, []);
    assert Log(c, more) + [] == Log(c, more) && more + [] == more;
  }

  /** All entries that may be appended after the restart are read back. */
  ghost predicate KeepsAppends(c: Codec, es: seq<Entry>, tail: Bytes) {
    forall more :: AllFit(c, more) ==> Replay(c, Log(c, es) + (tail + Log(c, more))) == es + more
  }

  /** Two entries whose frames differ only behind as many bytes as the frame of a third
      has: two time stamps for a long key, say, and a short key. */
  predicate Telling(c: Codec, a: Entry, b: Entry, short: Entry) {
    var l := |Frame(c, short)|;
    Fits(c, a) && Fits(c, b) && Fits(c, short) && a != b &&
    l <= |Frame(c, a)| && l <= |Frame(c, b)| && Frame(c, a)[..l] == Frame(c, b)[..l] &&
    c.Size(a) < 0x1_0000 && c.Size(a) % 256 != 0
  }

  /** The one entry read back is what a whole record at the front of the file holds. */
  lemma ReadAlone(c: Codec, file: Bytes, e: Entry)
    requires Replay(c, file) == [e]
    ensures Readable(c, file) && c.decode(file[4..4 + Uint32(file[..4])]) == Some(e)
  {
    ReplayTurn(c, file);
    assert Readable(c, file);
    var n := Uint32(file[..4]);
    assert Replay(c, file)[0] == c.decode(file[4..4 + n]).value;
  }

  /** Two files with the same record in front do not hold two different entries. */
  lemma SameRecord(c: Codec, file: Bytes, other: Bytes, n: nat, e: Entry, f: Entry)
    requires |file| >= 4 && |other| >= 4 && file[..4] == other[..4] && n == Uint32(file[..4]) && e != f
    requires 4 + n <= |file| && 4 + n <= |other| && file[4..4 + n] == other[4..4 + n]
    requires Replay(c, file) == [e]
    ensures Replay(c, other) != [f]
  {
    ReadAlone(c, file, e);
    if Replay(c, other) == [f] {
      ReadAlone(c, other, f);
    }
  }

  /** A tail that holds a header has the same record in front whichever of two frames
      follows that start alike: if a third one completes it that is no longer than what
      they share, both do, with the same bytes. */
  lemma SwallowedAlike(c: Codec, tail: Bytes, f: Bytes, g: Bytes, third: Bytes, a: Entry, b: Entry, short: Entry)
    requires |tail| >= 4 && a != b
    requires |third| <= |f| && |third| <= |g| && f[..|third|] == g[..|third|]
    requires Replay(c, tail + third) == [short] && Replay(c, tail + f) == [a]
    ensures Replay(c, tail + g) != [b]
  {
    var n := Uint32(tail[..4]);
    HeaderOfTail(tail, third);
    ReadAlone(c, tail + third, short);
    HeaderOfTail(tail, f);
    HeaderOfTail(tail, g);
    PayloadOfTail(tail, f, g, n, |third|);
    SameRecord(c, tail + f, tail + g, n, a, b);
  }

  lemma HeaderOfTail(tail: Bytes, rest: Bytes)
    requires |tail| >= 4
    ensures (tail + rest)[..4] == tail[..4]
  {
  }

  lemma PayloadOfTail(tail: Bytes, f: Bytes, g: Bytes, n: nat, l: nat)
    requires |tail| >= 4 && l <= |f| && l <= |g| && f[..l] == g[..l] && 4 + n <= |tail| + l
    ensures (tail + f)[4..4 + n] == (tail + g)[4..4 + n]
  {
    assert (tail + f)[..|tail| + l] == tail + f[..l] == (tail + g)[..|tail| + l];
    assert (tail + f)[4..4 + n] == (tail + f)[..|tail| + l][4..4 + n];
    assert (tail + g)[4..4 + n] == (tail + g)[..|tail| + l][4..4 + n];
  }

  /** A shorter tail takes its missing header bytes from the next entry: the length is
      then at least that entry's, moved up by whole digits. */
  lemma ShortTailHeader(tail: Bytes, size: nat, rest: Bytes)
    requires 1 <= |tail| <= 3
    ensures |tail + (PutUint32(size) + rest)| == |tail| + 4 + |rest|
    ensures Uint32((tail + (PutUint32(size) + rest))[..4]) >= Power256(|tail|) * (size % Power256(4 - |tail|))
  {
    var k := |tail|;
    var digits := PutUint32(size)[..4 - k];
    assert (tail + (PutUint32(size) + rest))[..4] == tail + digits;
    CutDigits(size, 4 - k, 4);
    EndianRoundTrip(size, 4 - k);
    EndianJoin(tail, digits);
  }

  lemma MovedUp(k: nat, size: nat)
    requires 1 <= k <= 3 && 1 <= size < 0x1_0000 && size % 256 != 0
    ensures var n := Power256(k) * (size % Power256(4 - k)); n > MAX_ENTRY || n > k + size
  {
    assert Power256(1) == 256 && Power256(2) == 0x1_0000 && Power256(3) == 0x100_0000;
  }

  /** No record has such a length: it is over the limit or behind the end of the file. */
  lemma ShortTailHides(c: Codec, tail: Bytes, a: Entry)
    requires 1 <= |tail| <= 3 && 1 <= c.Size(a) < 0x1_0000 && c.Size(a) % 256 != 0
    ensures Replay(c, tail + Frame(c, a)) == []
  {
    ShortTailHeader(tail, c.Size(a), c.encode(a));
    MovedUp(|tail|, c.Size(a));
  }

  /** One of the three entries is lost behind any tail. */
  lemma SomeAppendIsLost(c: Codec, tail: Bytes, a: Entry, b: Entry, short: Entry) returns (e: Entry)
    requires tail != [] && Telling(c, a, b, short)
    ensures Fits(c, e) && Replay(c, tail + Frame(c, e)) != [e]
  {
    if |tail| < 4 {
      ShortTailHides(c, tail, a);
      e := a;
    } else if Replay(c, tail + Frame(c, short)) != [short] {
      e := short;
    } else if Replay(c, tail + Frame(c, a)) != [a] {
      e := a;
    } else {
      SwallowedAlike(c, tail, Frame(c, a), Frame(c, b), Frame(c, short), a, b, short);
      e := b;
    }
  }

  /** The exact condition, for whatever bytes a crash leaves behind the last whole entry:
      appends are kept if and only if there are none. */
  lemma AppendsKeptIff(c: Codec, es: seq<Entry>, tail: Bytes, a: Entry, b: Entry, short: Entry)
    requires c.Good() && AllFit(c, es) && Telling(c, a, b, short)
    ensures KeepsAppends(c, es, tail) <==> tail == []
  {
    if tail == [] {
      forall more | AllFit(c, more) ensures Replay(c, Log(c, es) + (tail + Log(c, more))) == es + more {
        AppendAfterCleanEndIsKept(c, es, more);
        assert tail + Log(c, more) == Log(c, more);
      }
    } else {
      var e := SomeAppendIsLost(c, tail, a, b, short);
      var file := tail + Log(c, [e]);
      assert Log(c, [e]) == Frame(c, e) by {
        assert Log(c, [e][1..]) == [];
      }
      ReplayJoin(c, es, file);
      assert (es + Replay(c, file))[|es|..] == Replay(c, file) && (es + [e])[|es|..] == [e];
      assert AllFit(c, [e]) && Replay(c, Log(c, es) + file) != es + [e];
    }
  }

  /** In particular for every torn entry: a proper, non-empty prefix of a frame. */
  lemma TornEntryLosesAppends(c: Codec, es: seq<Entry>, torn: Entry, k: nat, a: Entry, b: Entry, short: Entry)
    requires c.Good() && AllFit(c, es) && k <= |Frame(c, torn)| && Telling(c, a, b, short)
    ensures KeepsAppends(c, es, Frame(c, torn)[..k]) <==> k == 0
  {
    AppendsKeptIff(c, es, Frame(c, torn)[..k], a, b, short);
  }
}
