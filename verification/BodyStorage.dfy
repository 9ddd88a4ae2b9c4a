/** Request bodies kept for replay: an in-memory and an on-disk storage of one seekable body, the choice between them,
    and the usage counters. */
module BodyStorage {
  import opened Options

  type Bytes = seq<bv8>

  // ---------- the body both storages stand for ----------

  datatype Body = Body(bytes: Bytes, pos: nat, closed: bool)

  datatype ReadResult = ReadClosed | Eof | Got(chunk: Bytes)

  /** A read may be short, but gives at least one byte unless none was asked for or none is left. */
  ghost predicate ReadStep(b: Body, want: nat, r: ReadResult, after: Body) {
    match r
    case ReadClosed => b.closed && after == b
    case Eof => !b.closed && b.pos >= |b.bytes| && after == b
    case Got(chunk) =>
      && !b.closed && after == b.(pos := b.pos + |chunk|) && |chunk| <= want && (chunk == [] ==> want == 0)
      && (chunk == [] || (after.pos <= |b.bytes| && chunk == b.bytes[b.pos..after.pos]))
  }

  datatype SeekResult = SeekClosed | Invalid | At(offset: nat)

  function SeekStep(b: Body, offset: int, whence: int): (SeekResult, Body) {
    if b.closed then (SeekClosed, b)
    else if whence !in {0, 1, 2} then (Invalid, b)
    else
      var base := if whence == 0 then 0 else if whence == 1 then b.pos else |b.bytes|;
      if base + offset < 0 then (Invalid, b) else (At(base + offset), b.(pos := base + offset))
  }

  /** Seeking lands at the offset counted from the start, from the position or from the end, changes nothing else, and is
      refused for another origin, before the start, or on a closed body. */
  lemma SeekLands(b: Body, offset: int, whence: int)
    ensures var (r, after) := SeekStep(b, offset, whence);
            var target := match whence case 0 => offset case 1 => b.pos + offset case _ => |b.bytes| + offset;
            if b.closed then r == SeekClosed && after == b
            else if whence < 0 || whence > 2 || target < 0 then r == Invalid && after == b
            else r == At(target) && after == Body(b.bytes, target, false)
  {
  }

  // ---------- usage counters ----------

  datatype Counters = Counters(diskFiles: int, diskBytes: int, buffers: int, bufferBytes: int)

  function Floor(n: int): int {
    if n < 0 then 0 else n
  }

  /** DecrementDiskFiles, with its clamps at zero. */
  function DiskReleased(c: Counters, size: int): Counters {
    c.(diskFiles := Floor(c.diskFiles - 1), diskBytes := Floor(c.diskBytes - size))
  }

  function DiskTaken(c: Counters, size: int): Counters {
    c.(diskFiles := c.diskFiles + 1, diskBytes := c.diskBytes + size)
  }

  function BufferReleased(c: Counters, size: int): Counters {
    c.(buffers := c.buffers - 1, bufferBytes := c.bufferBytes - size)
  }

  function BufferTaken(c: Counters, size: int): Counters {
    c.(buffers := c.buffers + 1, bufferBytes := c.bufferBytes + size)
  }

  class Stats {
    var c: Counters

    constructor ()
      ensures c == Counters(0, 0, 0, 0)
    {
      c := Counters(0, 0, 0, 0);
    }
  }

  // ---------- the two storages ----------

  class MemoryStorage {
    const data: Bytes
    var index: int
    var closed: bool
    const stats: Stats

    ghost predicate Valid()
      reads this
    {
      index >= 0
    }

    ghost function View(): Body
      requires Valid()
      reads this
    {
      Body(data, index, closed)
    }

    constructor (data: Bytes, stats: Stats)
      modifies stats
      ensures Valid() && View() == Body(data, 0, false) && this.stats == stats
      ensures stats.c == BufferTaken(old(stats.c), |data|)
    {
      this.data, this.index, this.closed, this.stats := data, 0, false, stats;
      new;
      stats.c := BufferTaken(stats.c, |data|);
    }

    method Read(want: nat) returns (r: ReadResult)
      requires Valid()
      modifies this
      ensures Valid() && ReadStep(old(View()), want, r, View())
    {
      if closed {
        return ReadClosed;
      }
      if index >= |data| {
        return Eof;
      }
      var n := if |data| - index < want then |data| - index else want;
      r := Got(data[index..index + n]);
      index := index + n;
    }

    method Seek(offset: int, whence: int) returns (r: SeekResult)
      requires Valid()
      modifies this
      ensures Valid() && (r, View()) == SeekStep(old(View()), offset, whence)
    {
      if closed {
        return SeekClosed;
      }
      var abs;
      if whence == 0 {
        abs := offset;
      } else if whence == 1 {
        abs := index + offset;
      } else if whence == 2 {
        abs := |data| + offset;
      } else {
        return Invalid;
      }
      if abs < 0 {
        return Invalid;
      }
      index := abs;
      r := At(abs);
    }

    method Contents() returns (r: Option<Bytes>)
      requires Valid()
      ensures r == if closed then None else Some(View().bytes)
    {
      r := if closed then None else Some(data);
    }

    /** A second Close does nothing. */
    method Close()
      requires Valid()
      modifies this, stats
      ensures Valid() && View() == old(View()).(closed := true)
      ensures stats.c == if old(closed) then old(stats.c) else BufferReleased(old(stats.c), |data|)
    {
      if !closed {
        closed := true;
        stats.c := BufferReleased(stats.c, |data|);
      }
    }
  }

  /** An open temporary file. */
  class File {
    const contents: Bytes
    var offset: int

    constructor (contents: Bytes)
      ensures this.contents == contents && offset == 0
    {
      this.contents, this.offset := contents, 0;
    }

    /** A read of a file may return fewer bytes than asked for. */
    method Read(want: nat) returns (r: ReadResult)
      requires offset >= 0
      modifies this
      ensures offset >= 0
      ensures ReadStep(Body(contents, old(offset), false), want, r, Body(contents, offset, false))
    {
      if want == 0 {
        return Got([]);
      }
      if offset >= |contents| {
        return Eof;
      }
      var n :| 1 <= n <= want && offset + n <= |contents|;
      r := Got(contents[offset..offset + n]);
      offset := offset + n;
    }

    method Seek(pos: int, whence: int) returns (r: SeekResult)
      requires offset >= 0
      modifies this
      ensures offset >= 0
      ensures (r, Body(contents, offset, false)) == SeekStep(Body(contents, old(offset), false), pos, whence)
    {
      if whence !in {0, 1, 2} {
        return Invalid;
      }
      var base := if whence == 0 then 0 else if whence == 1 then offset else |contents|;
      if base + pos < 0 {
        return Invalid;
      }
      offset := base + pos;
      r := At(offset);
    }

    /** io.ReadFull into a buffer of the given size: reads until it is full or the file ends. */
    method ReadFull(size: nat) returns (r: Option<Bytes>)
      requires 0 <= offset
      modifies this
      ensures offset >= 0
      ensures old(offset) + size <= |contents| ==>
                r == Some(contents[old(offset)..old(offset) + size]) && offset == old(offset) + size
    {
      var buffer: Bytes := [];
      var start := offset;
      while |buffer| < size
        invariant 0 <= start <= offset && |buffer| <= size && offset == start + |buffer|
        invariant buffer != [] ==> offset <= |contents| && buffer == contents[start..offset]
        decreases size - |buffer|
      {
        var got := Read(size - |buffer|);
        match got {
          case Got(chunk) => buffer := buffer + chunk;
          case _ => return None;
        }
      }
      r := Some(buffer);
    }
  }

  class DiskStorage {
    const file: File
    const size: nat
    var closed: bool
    const stats: Stats

    ghost predicate Valid()
      reads this, file
    {
      file.offset >= 0 && size == |file.contents|
    }

    ghost function View(): Body
      requires Valid()
      reads this, file
    {
      Body(file.contents, file.offset, closed)
    }

    /** The file has been written and rewound. */
    constructor (file: File, stats: Stats)
      requires file.offset == 0
      modifies stats
      ensures Valid() && View() == Body(file.contents, 0, false) && this.stats == stats && this.file == file
      ensures stats.c == DiskTaken(old(stats.c), |file.contents|)
    {
      this.file, this.size, this.closed, this.stats := file, |file.contents|, false, stats;
      new;
      stats.c := DiskTaken(stats.c, size);
    }

    method Read(want: nat) returns (r: ReadResult)
      requires Valid()
      modifies file
      ensures Valid() && ReadStep(old(View()), want, r, View())
    {
      if closed {
        return ReadClosed;
      }
      r := file.Read(want);
    }

    method Seek(offset: int, whence: int) returns (r: SeekResult)
      requires Valid()
      modifies file
      ensures Valid() && (r, View()) == SeekStep(old(View()), offset, whence)
    {
      if closed {
        return SeekClosed;
      }
      r := file.Seek(offset, whence);
    }

    /** All bytes, with the read position put back. */
    method Contents() returns (r: Option<Bytes>)
      requires Valid()
      modifies file
      ensures Valid() && View() == old(View())
      ensures r == if closed then None else Some(View().bytes)
    {
      if closed {
        return None;
      }
      var current := file.Seek(0, 1);
      var _ := file.Seek(0, 0);
      r := file.ReadFull(size);
      assert file.contents[0..size] == file.contents;
      var _ := file.Seek(current.offset, 0);
    }

    method Close()
      requires Valid()
      modifies this, stats
      ensures Valid() && View() == old(View()).(closed := true)
      ensures stats.c == if old(closed) then old(stats.c) else DiskReleased(old(stats.c), size)
    {
      if !closed {
        closed := true;
        stats.c := DiskReleased(stats.c, size);
      }
    }
  }

  // ---------- choosing a storage ----------

  datatype Config = Config(enabled: bool, threshold: int, maxDisk: int)

  /** The interface BodyStorage over its two implementations. */
  datatype Storage = InMemory(m: MemoryStorage) | OnDisk(d: DiskStorage)

  ghost function Footprint(s: Storage): set<object> {
    match s
    case InMemory(m) => {m}
    case OnDisk(d) => {d, d.file}
  }

  ghost predicate Valid(s: Storage)
    reads Footprint(s)
  {
    match s
    case InMemory(m) => m.Valid()
    case OnDisk(d) => d.Valid()
  }

  ghost function View(s: Storage): Body
    requires Valid(s)
    reads Footprint(s)
  {
    match s
    case InMemory(m) => m.View()
    case OnDisk(d) => d.View()
  }

  ghost function StatsOf(s: Storage): Stats {
    match s
    case InMemory(m) => m.stats
    case OnDisk(d) => d.stats
  }

  /** What a storage is to the counters. */
  datatype Kept = Kept(disk: bool, size: nat, closed: bool)

  predicate Available(c: Counters, cfg: Config, size: int) {
    cfg.enabled && c.diskBytes + size <= cfg.maxDisk
  }

  /** CreateBodyStorage, for data of the given size. */
  function PlaceData(c: Counters, cfg: Config, size: nat, diskOk: bool): Kept {
    Kept(cfg.enabled && size >= cfg.threshold && Available(c, cfg, size) && diskOk, size, false)
  }

  predicate Streamed(c: Counters, cfg: Config, declared: int) {
    cfg.enabled && declared > 0 && declared >= cfg.threshold && Available(c, cfg, declared)
  }

  /** CreateBodyStorageFromReader, for a body of the given length.  It looks for room at the start, and again once it
      has read a body that is not streamed. */
  function PlaceStream(start: Counters, read: Counters, cfg: Config, length: nat, declared: int, maxBytes: nat,
                       diskOk: bool): Option<Kept>
  {
    if Streamed(start, cfg, declared) then
      if diskOk && length <= maxBytes then Some(Kept(true, length, false)) else None
    else if length <= maxBytes then Some(PlaceData(read, cfg, length, diskOk))
    else None
  }

  function Taken(c: Counters, k: Kept): Counters {
    if k.disk then DiskTaken(c, k.size) else BufferTaken(c, k.size)
  }

  function Released(c: Counters, k: Kept): Counters {
    if k.disk then DiskReleased(c, k.size) else BufferReleased(c, k.size)
  }

  /** Where a body goes: to disk if that is enabled, the body is large enough, fits, and can be written.  A body from a
      connection goes there at once if its declared length meets this; then a failing write or too long a body refuses
      it.  Otherwise it is read first, refused if too long, and its real length decides. */
  lemma PlacedOnDiskIff(start: Counters, read: Counters, cfg: Config, length: nat, declared: int, maxBytes: nat,
                        diskOk: bool)
    ensures PlaceData(read, cfg, length, diskOk) ==
            Kept(cfg.enabled && cfg.threshold <= length && read.diskBytes + length <= cfg.maxDisk && diskOk, length, false)
    ensures var fits := start.diskBytes + declared <= cfg.maxDisk;
            var atOnce := cfg.enabled && 0 < declared && cfg.threshold <= declared && fits;
            var k := PlaceStream(start, read, cfg, length, declared, maxBytes, diskOk);
            && (k.Some? <==> length <= maxBytes && (atOnce ==> diskOk))
            && (k.Some? ==>
                 && k.value.size == length && !k.value.closed
                 && (k.value.disk <==>
                      || atOnce
                      || (cfg.enabled && cfg.threshold <= length && read.diskBytes + length <= cfg.maxDisk && diskOk)))
  {
  }

  method CreateBodyStorage(stats: Stats, cfg: Config, data: Bytes, diskOk: bool) returns (s: Storage)
    modifies stats
    ensures Valid(s) && fresh(Footprint(s)) && StatsOf(s) == stats && View(s) == Body(data, 0, false)
    ensures var k := PlaceData(old(stats.c), cfg, |data|, diskOk);
            s.OnDisk? == k.disk && stats.c == Taken(old(stats.c), k)
  {
    if cfg.enabled && |data| >= cfg.threshold && cfg.enabled && stats.c.diskBytes + |data| <= cfg.maxDisk {
      if diskOk {
        var file := new File(data);
        var d := new DiskStorage(file, stats);
        return OnDisk(d);
      }
    }
    var m := new MemoryStorage(data, stats);
    s := InMemory(m);
  }

  /** io.LimitReader. */
  function Limited(reader: Bytes, n: nat): Bytes {
    if |reader| <= n then reader else reader[..n]
  }

  /** On either route a body is kept whole if it has at most maxBytes bytes, and refused otherwise. */
  method CreateFromReader(stats: Stats, cfg: Config, reader: Bytes, declared: int, maxBytes: nat, diskOk: bool)
    returns (r: Option<Storage>)
    modifies stats
    ensures r.Some? <==> |reader| <= maxBytes && (Streamed(old(stats.c), cfg, declared) ==> diskOk)
    ensures r.Some? ==> Valid(r.value) && fresh(Footprint(r.value)) && StatsOf(r.value) == stats
    ensures r.Some? ==> View(r.value) == Body(reader, 0, false)
    ensures var k := PlaceStream(old(stats.c), old(stats.c), cfg, |reader|, declared, maxBytes, diskOk);
            && r.Some? == k.Some?
            && (r.Some? ==> r.value.OnDisk? == k.value.disk)
            && stats.c == if k.Some? then Taken(old(stats.c), k.value) else old(stats.c)
  {
    var received := Limited(reader, maxBytes + 1);
    if cfg.enabled && declared > 0 && declared >= cfg.threshold && stats.c.diskBytes + declared <= cfg.maxDisk {
      if !diskOk || |received| > maxBytes {
        return None;
      }
      var file := new File(received);
      var d := new DiskStorage(file, stats);
      return Some(OnDisk(d));
    }
    if |received| > maxBytes {
      return None;
    }
    var s := CreateBodyStorage(stats, cfg, received, diskOk);
    r := Some(s);
  }

  method SeekStorage(s: Storage, offset: int, whence: int) returns (r: SeekResult)
    requires Valid(s)
    modifies Footprint(s)
    ensures Valid(s) && (r, View(s)) == SeekStep(old(View(s)), offset, whence)
  {
    match s
    case InMemory(m) => r := m.Seek(offset, whence);
    case OnDisk(d) => r := d.Seek(offset, whence);
  }

  method CloseStorage(s: Storage, stats: Stats)
    requires Valid(s) && StatsOf(s) == stats
    modifies Footprint(s), stats
    ensures Valid(s) && View(s) == old(View(s)).(closed := true)
    ensures var k := Kept(s.OnDisk?, |View(s).bytes|, old(View(s).closed));
            stats.c == if k.closed then old(stats.c) else Released(old(stats.c), k)
  {
    match s
    case InMemory(m) => m.Close();
    case OnDisk(d) => d.Close();
  }
}
