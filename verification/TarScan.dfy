/** Reading a blob of data and header pairs from its tail: the scan undoes the layout
    in which every header follows its data. */
module TarScan {
  import opened Wrappers

  type Bytes = seq<bv8>

  const HEADER := 512

  datatype Header = Header(name: string, size: nat)

  /** A header format: fixed-length blocks, read back as they were written, for the
      headers that fit one block. The archive reader never reports a negative size. */
  datatype Codec = Codec(fits: Header -> bool, encode: Header -> Bytes, decode: Bytes -> Option<Header>) {
    ghost predicate Valid() {
      forall h :: fits(h) ==> |encode(h)| == HEADER && decode(encode(h)) == Some(h)
    }
  }

  datatype File = File(name: string, data: Bytes) {
    function Head(): Header { Header(name, |data|) }
  }

  predicate AllFit(c: Codec, files: seq<File>) {
    forall i :: 0 <= i < |files| ==> c.fits(files[i].Head())
  }

  /** The layout: each file's data, then its header. */
  function Blob(c: Codec, files: seq<File>): Bytes {
    if files == [] then []
    else
      var f := files[|files| - 1];
      Blob(c, files[..|files| - 1]) + f.data + c.encode(f.Head())
  }

  datatype Scan = Found(offset: nat, data: Bytes) | NotFound | TooShort | BadHeader | BadSize | TooLarge

  function Block(blob: Bytes, cur: nat): Bytes
    requires cur + HEADER <= |blob|
  {
    blob[cur..cur + HEADER]
  }

  /** What the scan from a header position on finds. */
  function ScanFrom(c: Codec, blob: Bytes, name: string, maxSize: Option<int>, cur: int): Scan
    requires cur + HEADER <= |blob|
    decreases cur
  {
    if cur < 0 then NotFound
    else
      var h := c.decode(Block(blob, cur));
      if h.None? then BadHeader
      else if cur < h.value.size then BadSize
      else if h.value.name == name then
        if maxSize.Some? && h.value.size > maxSize.value then TooLarge
        else Found(cur - h.value.size, blob[cur - h.value.size..cur])
      else ScanFrom(c, blob, name, maxSize, cur - h.value.size - HEADER)
  }

  /** The loop: every offset it seeks lies in the blob, and each turn moves at least a
      header's length towards the front. */
  method SeekFile(c: Codec, blob: Bytes, name: string, maxSize: Option<int>) returns (r: Scan)
    ensures |blob| < HEADER ==> r == TooShort
    ensures |blob| >= HEADER ==> r == ScanFrom(c, blob, name, maxSize, |blob| - HEADER)
    ensures r.Found? ==> r.offset + |r.data| + HEADER <= |blob| && r.data == blob[r.offset..r.offset + |r.data|]
  {
    if HEADER > |blob| {
      return TooShort;
    }
    var cur := |blob| - HEADER;
    while true
      invariant 0 <= cur <= |blob| - HEADER
      invariant ScanFrom(c, blob, name, maxSize, cur) == ScanFrom(c, blob, name, maxSize, |blob| - HEADER)
      decreases cur
    {
      var h := c.decode(Block(blob, cur));
      if h.None? {
        return BadHeader;
      }
      if cur < h.value.size {
        return BadSize;
      }
      if h.value.name == name {
        if maxSize.Some? && h.value.size > maxSize.value {
          return TooLarge;
        }
        return Found(cur - h.value.size, blob[cur - h.value.size..cur]);
      }
      cur := cur - h.value.size - HEADER;
      if cur < 0 {
        break;
      }
    }
    return NotFound;
  }

  /** The scan passes over the file in front of this header position. */
  predicate PassesOver(c: Codec, blob: Bytes, name: string, cur: int)
    requires cur + HEADER <= |blob|
  {
    cur >= 0 &&
    var h := c.decode(Block(blob, cur));
    h.Some? && h.value.size <= cur && h.value.name != name
  }

  /** The header positions that the scan visits, each in front of the data of the file
      passed over before. */
  predicate Trail(c: Codec, blob: Bytes, name: string, ps: seq<int>) {
    && ps != []
    && (forall i :: 0 <= i < |ps| ==> ps[i] + HEADER <= |blob|)
    && forall i :: 0 <= i < |ps| - 1 ==>
         && PassesOver(c, blob, name, ps[i])
         && ps[i + 1] == ps[i] - c.decode(Block(blob, ps[i])).value.size - HEADER
  }

  /** The header at a position, if the position is in the blob and it can be read. */
  function HeaderAt(c: Codec, blob: Bytes, p: int): Option<Header>
    requires p + HEADER <= |blob|
  {
    if p >= 0 then c.decode(Block(blob, p)) else None
  }

  /** What stops the scan at a position, on any blob, well laid out or not. */
  predicate StopsWith(c: Codec, blob: Bytes, name: string, maxSize: Option<int>, p: int, r: Scan)
    requires p + HEADER <= |blob|
  {
    var h := HeaderAt(c, blob, p);
    match r
    case TooShort => false
    case NotFound => p < 0
    case BadHeader => p >= 0 && h.None?
    case BadSize => h.Some? && h.value.size > p
    case TooLarge =>
      h.Some? && h.value.size <= p && h.value.name == name && maxSize.Some? && h.value.size > maxSize.value
    case Found(offset, data) =>
      && h.Some? && h.value.size <= p && h.value.name == name && (maxSize.Some? ==> h.value.size <= maxSize.value)
      && offset + h.value.size == p && data == blob[offset..p]
  }

  /** Whatever the bytes: the scan passes over files of other names and then stops for
      the reason it gives. */
  lemma {:induction false} ScanTellsWhy(c: Codec, blob: Bytes, name: string, maxSize: Option<int>, cur: int)
    returns (ps: seq<int>)
    requires cur + HEADER <= |blob|
    ensures Trail(c, blob, name, ps) && ps[0] == cur
    ensures StopsWith(c, blob, name, maxSize, ps[|ps| - 1], ScanFrom(c, blob, name, maxSize, cur))
    decreases cur
  {
    if PassesOver(c, blob, name, cur) {
      var rest := ScanTellsWhy(c, blob, name, maxSize, cur - c.decode(Block(blob, cur)).value.size - HEADER);
      ps := [cur] + rest;
      forall i | 0 <= i < |ps| - 1
        ensures PassesOver(c, blob, name, ps[i])
        ensures ps[i + 1] == ps[i] - c.decode(Block(blob, ps[i])).value.size - HEADER
      {
        assert i > 0 ==> ps[i] == rest[i - 1];
      }
    } else {
      ps := [cur];
    }
  }

  /** The last file of the name. */
  function LastNamed(files: seq<File>, name: string): (r: Option<nat>)
    ensures r.Some? ==> r.value < |files|
  {
    if files == [] then None
    else if files[|files| - 1].name == name then Some(|files| - 1)
    else LastNamed(files[..|files| - 1], name)
  }

  lemma {:induction false} LastNamedIsLast(files: seq<File>, name: string)
    ensures match LastNamed(files, name)
            case None => forall i :: 0 <= i < |files| ==> files[i].name != name
            case Some(k) => files[k].name == name && forall i :: k < i < |files| ==> files[i].name != name
  {
    if files != [] {
      LastNamedIsLast(files[..|files| - 1], name);
    }
  }

  /** What the layout promises a reader. */
  function Promised(c: Codec, files: seq<File>, name: string, maxSize: Option<int>): Scan {
    match LastNamed(files, name)
    case None => NotFound
    case Some(k) =>
      if maxSize.Some? && |files[k].data| > maxSize.value then TooLarge
      else Found(|Blob(c, files[..k])|, files[k].data)
  }

  /** Where the last file ends and its header begins. */
  lemma LastFile(c: Codec, files: seq<File>)
    requires c.Valid() && AllFit(c, files) && files != []
    ensures var f := files[|files| - 1];
            var front := |Blob(c, files[..|files| - 1])|;
            var blob := Blob(c, files);
            && |blob| == front + |f.data| + HEADER
            && c.decode(Block(blob, |blob| - HEADER)) == Some(f.Head())
            && blob[front..front + |f.data|] == f.data
            && blob[..front] == Blob(c, files[..|files| - 1])
  {
    var f := files[|files| - 1];
    var front := Blob(c, files[..|files| - 1]);
    var head := c.encode(f.Head());
    var blob := Blob(c, files);
    assert blob == front + f.data + head;
    assert Block(blob, |blob| - HEADER) == head;
  }

  /** The scan looks at nothing behind the header it stands on. */
  lemma {:induction false} ScanInFront(c: Codec, blob: Bytes, front: Bytes, name: string, maxSize: Option<int>,
                                       cur: int)
    requires front <= blob && cur + HEADER <= |front|
    ensures ScanFrom(c, blob, name, maxSize, cur) == ScanFrom(c, front, name, maxSize, cur)
    decreases cur
  {
    if cur >= 0 {
      assert Block(blob, cur) == Block(front, cur);
      var h := c.decode(Block(blob, cur));
      if h.Some? && h.value.size <= cur {
        assert blob[cur - h.value.size..cur] == front[cur - h.value.size..cur];
        ScanInFront(c, blob, front, name, maxSize, cur - h.value.size - HEADER);
      }
    }
  }

  /** A last file of another name changes nothing. */
  lemma PromisedBefore(c: Codec, files: seq<File>, name: string, maxSize: Option<int>)
    requires files != [] && files[|files| - 1].name != name
    ensures Promised(c, files, name, maxSize) == Promised(c, files[..|files| - 1], name, maxSize)
  {
    var init := files[..|files| - 1];
    var k := LastNamed(init, name);
    if k.Some? {
      assert init[..k.value] == files[..k.value] && init[k.value] == files[k.value];
    }
  }

  /** One turn at the end of a blob. */
  lemma ScanLast(c: Codec, files: seq<File>, name: string, maxSize: Option<int>)
    requires c.Valid() && AllFit(c, files) && files != []
    ensures var blob, front, f := Blob(c, files), Blob(c, files[..|files| - 1]), files[|files| - 1];
            ScanFrom(c, blob, name, maxSize, |blob| - HEADER) ==
            if f.name != name then ScanFrom(c, front, name, maxSize, |front| - HEADER)
            else if maxSize.Some? && |f.data| > maxSize.value then TooLarge
            else Found(|front|, f.data)
  {
    var blob, front := Blob(c, files), Blob(c, files[..|files| - 1]);
    LastFile(c, files);
    ScanInFront(c, blob, front, name, maxSize, |front| - HEADER);
  }

  /** On every blob so laid out, the scan finds exactly the data of the last file of
      the name, or that there is none. */
  lemma {:induction false} ScanUndoesLayout(c: Codec, files: seq<File>, name: string, maxSize: Option<int>)
    requires c.Valid() && AllFit(c, files)
    ensures ScanFrom(c, Blob(c, files), name, maxSize, |Blob(c, files)| - HEADER) == Promised(c, files, name, maxSize)
  {
    if files != [] {
      ScanLast(c, files, name, maxSize);
      if files[|files| - 1].name != name {
        PromisedBefore(c, files, name, maxSize);
        ScanUndoesLayout(c, files[..|files| - 1], name, maxSize);
      }
    }
  }
}
