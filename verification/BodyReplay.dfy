/** The body storage of a request: kept in the request context, rewound for every relay attempt, closed at the end. */
module BodyReplay {
  import opened Options
  import opened BodyStorage

  // ---------- reading to the end ----------

  /** One read: what was asked for, the answer, and the body afterwards. */
  datatype Read = Read(want: nat, r: ReadResult, after: Body)

  /** The reads follow each other from body b, each asking for at least one byte. */
  ghost predicate Reads(b: Body, rs: seq<Read>)
    decreases |rs|
  {
    rs == [] || (rs[0].want > 0 && ReadStep(b, rs[0].want, rs[0].r, rs[0].after) && Reads(rs[0].after, rs[1..]))
  }

  function Chunks(rs: seq<Read>): Bytes
    decreases |rs|
  {
    if rs == [] then [] else (if rs[0].r.Got? then rs[0].r.chunk else []) + Chunks(rs[1..])
  }

  /** However short the reads of an open body are, what they give until the end of file is all that was left of it. */
  lemma {:induction false} ReadsGiveTheRest(b: Body, rs: seq<Read>)
    requires !b.closed && b.pos <= |b.bytes| && Reads(b, rs)
    ensures Chunks(rs) <= b.bytes[b.pos..]
    ensures rs != [] && rs[|rs| - 1].r.Eof? ==> Chunks(rs) == b.bytes[b.pos..]
    decreases |rs|
  {
    if rs != [] {
      var first, rest := rs[0], rs[1..];
      ReadsGiveTheRest(first.after, rest);
      if first.r.Got? {
        assert b.bytes[b.pos..] == first.r.chunk + b.bytes[first.after.pos..];
        assert rest != [] ==> rest[|rest| - 1] == rs[|rs| - 1];
      } else {
        assert b.bytes[b.pos..] == [];
      }
    }
  }

  // ---------- the request context ----------

  /** The context's storage, and the body still on the connection (None once it was read and closed). */
  datatype Context = Context(storage: Option<Body>, network: Option<Bytes>)

  /** GetBodyStorage: the context afterwards, and whether it gave the storage. */
  function GetStep(x: Context, maxBytes: nat, writable: bool): (Context, bool) {
    match x.storage
    case Some(b) => if b.closed then (x, false) else (x.(storage := Some(b.(pos := 0))), true)
    case None =>
      if x.network.None? then (x, false)
      else if |x.network.value| <= maxBytes && writable then
        (Context(Some(Body(x.network.value, 0, false)), None), true)
      else (Context(None, None), false)
  }

  class RequestContext {
    var storage: Option<Storage>
    var network: Option<Bytes>
    const declared: int
    const maxBytes: nat
    const cfg: Config
    const stats: Stats

    ghost predicate Valid()
      reads this, if storage.Some? then Footprint(storage.value) else {}
    {
      storage.Some? ==>
        BodyStorage.Valid(storage.value) && StatsOf(storage.value) == stats && this !in Footprint(storage.value)
    }

    ghost function View(): Context
      requires Valid()
      reads this, if storage.Some? then Footprint(storage.value) else {}
    {
      Context(if storage.Some? then Some(BodyStorage.View(storage.value)) else None, network)
    }

    constructor (body: Bytes, declared: int, maxBytes: nat, cfg: Config, stats: Stats)
      ensures Valid() && View() == Context(None, Some(body))
      ensures this.declared == declared && this.maxBytes == maxBytes && this.cfg == cfg && this.stats == stats
    {
      storage, network := None, Some(body);
      this.declared, this.maxBytes, this.cfg, this.stats := declared, maxBytes, cfg, stats;
    }

    /** A storage kept from before is rewound; otherwise the body is read off the connection. */
    method GetBodyStorage(diskOk: bool) returns (r: Option<Storage>)
      requires Valid()
      modifies this, stats, if storage.Some? then Footprint(storage.value) else {}
      ensures Valid()
      ensures (View(), r.Some?) ==
              GetStep(old(View()), maxBytes, Streamed(old(stats.c), cfg, declared) ==> diskOk)
      ensures r.Some? ==> r == storage
    {
      if storage.Some? {
        var sought := SeekStorage(storage.value, 0, 0);
        return if sought.At? then storage else None;
      }
      if network.None? {
        return None;
      }
      r := CreateFromReader(stats, cfg, network.value, declared, maxBytes, diskOk);
      storage, network := r, None;
    }

    /** CleanupBodyStorage: the storage is closed and given up. */
    method Cleanup()
      requires Valid()
      modifies this, stats, if storage.Some? then Footprint(storage.value) else {}
      ensures Valid() && View() == Context(None, old(View()).network)
    {
      if storage.Some? {
        CloseStorage(storage.value, stats);
        storage := None;
      }
    }
  }

  datatype Event =
    | Gets(writable: bool)
    | Moves(pos: nat)   // any reads and seeks by whoever holds the storage
    | Cleans

  function Step(x: Context, maxBytes: nat, e: Event): Context {
    match e
    case Gets(writable) => GetStep(x, maxBytes, writable).0
    case Moves(pos) => if x.storage.None? then x else x.(storage := Some(x.storage.value.(pos := pos)))
    case Cleans => x.(storage := None)
  }

  function Exec(x: Context, maxBytes: nat, es: seq<Event>): Context {
    if es == [] then x else Step(Exec(x, maxBytes, es[..|es| - 1]), maxBytes, es[|es| - 1])
  }

  /** The run does not clean the context up, and the body can be written to disk when it has to be. */
  predicate Uninterrupted(es: seq<Event>) {
    forall i :: 0 <= i < |es| ==> !es[i].Cleans? && (es[i].Gets? ==> es[i].writable)
  }

  /** After any number of attempts that read and seek as they like, the next GetBodyStorage gives the whole body from
      its beginning, provided it is within the limit and the context has not been cleaned up. */
  lemma {:induction false} ReplayedWhole(body: Bytes, maxBytes: nat, es: seq<Event>)
    requires |body| <= maxBytes && Uninterrupted(es)
    ensures GetStep(Exec(Context(None, Some(body)), maxBytes, es), maxBytes, true) ==
            (Context(Some(Body(body, 0, false)), None), true)
  {
    if es != [] {
      ReplayedWhole(body, maxBytes, es[..|es| - 1]);
    }
  }

  /** A body over the limit is not given at any attempt. */
  lemma {:induction false} RefusedForGood(body: Bytes, maxBytes: nat, es: seq<Event>, writable: bool)
    requires |body| > maxBytes
    ensures Exec(Context(None, Some(body)), maxBytes, es) in {Context(None, Some(body)), Context(None, None)}
    ensures !GetStep(Exec(Context(None, Some(body)), maxBytes, es), maxBytes, writable).1
  {
    if es != [] {
      RefusedForGood(body, maxBytes, es[..|es| - 1], writable);
    }
  }

  /** Once the body has been read off the connection and the context cleaned up, it is gone. */
  lemma {:induction false} GoneAfterCleanup(x: Context, maxBytes: nat, es: seq<Event>, writable: bool)
    requires x.network.None?
    ensures !GetStep(Exec(Step(x, maxBytes, Cleans), maxBytes, es), maxBytes, writable).1
    ensures Exec(Step(x, maxBytes, Cleans), maxBytes, es) == Context(None, None)
  {
    if es != [] {
      GoneAfterCleanup(x, maxBytes, es[..|es| - 1], writable);
    }
  }

  // ---------- counters over any run ----------

  /** `swept` are the storages whose file the stale-file cleanup has removed.  `seen` and `again` are the counters as
      creations under way found them when they looked for room, and when they looked again. */
  datatype World = World(
    c: Counters, kept: seq<Kept>, swept: set<nat>, seen: map<nat, Counters>, again: map<nat, Counters>)

  datatype Use =
    | Looks(k: nat)        // creation k looks for room
    | LooksAgain(k: nat)   // and again, having read its body
    | FromReader(k: nat, length: nat, declared: int, maxBytes: nat, diskOk: bool)
    | FromData(k: nat, size: nat, diskWritable: bool)
    | Closes(i: nat)
    | SweepsFile(j: nat)   // stale-file cleanup comes to the file of a storage

  /** The file is there to be swept: the storage is on disk, not closed (closing removes the file) and not swept yet. */
  predicate FileThere(x: World, j: nat) {
    j < |x.kept| && x.kept[j].disk && !x.kept[j].closed && j !in x.swept
  }

  /** What creation k goes by: the counters it has seen, or those of the moment. */
  function SeenBy(x: World, k: nat): Counters {
    if k in x.seen then x.seen[k] else x.c
  }

  function SeenAgainBy(x: World, k: nat): Counters {
    if k in x.again then x.again[k] else x.c
  }

  /** The storage an event creates, if any. */
  function Creates(x: World, cfg: Config, e: Use): Option<Kept> {
    match e
    case FromReader(k, length, declared, maxBytes, diskOk) =>
      PlaceStream(SeenBy(x, k), SeenAgainBy(x, k), cfg, length, declared, maxBytes, diskOk)
    case FromData(k, size, diskOk) => Some(PlaceData(SeenBy(x, k), cfg, size, diskOk))
    case _ => None
  }

  function UseStep(x: World, cfg: Config, e: Use): World {
    match e
    case Looks(k) => x.(seen := x.seen[k := x.c])
    case LooksAgain(k) => x.(again := x.again[k := x.c])
    case FromReader(k, _, _, _, _) => Opened(x, k, Creates(x, cfg, e))
    case FromData(k, _, _) => Opened(x, k, Creates(x, cfg, e))
    case Closes(i) =>
      if i >= |x.kept| || x.kept[i].closed then x
      else x.(c := Released(x.c, x.kept[i]), kept := x.kept[i := x.kept[i].(closed := true)])
    case SweepsFile(j) =>
      if !FileThere(x, j) then x else x.(c := DiskReleased(x.c, x.kept[j].size), swept := x.swept + {j})
  }

  /** Creation k is over, with or without a storage. */
  function Opened(x: World, k: nat, made: Option<Kept>): World {
    var y := x.(seen := x.seen - {k}, again := x.again - {k});
    if made.None? then y else y.(c := Taken(x.c, made.value), kept := x.kept + [made.value])
  }

  function UseAll(x: World, cfg: Config, es: seq<Use>): World {
    if es == [] then x else UseStep(UseAll(x, cfg, es[..|es| - 1]), cfg, es[|es| - 1])
  }

  /** The counters as they should be: one for every open storage, and its bytes. */
  function Tally(kept: seq<Kept>): Counters {
    if kept == [] then Counters(0, 0, 0, 0)
    else
      var k, rest := kept[|kept| - 1], Tally(kept[..|kept| - 1]);
      if k.closed then rest else Taken(rest, k)
  }

  /** The tally without the storage at i. */
  lemma {:induction false} TallyClose(kept: seq<Kept>, i: nat)
    requires i < |kept| && !kept[i].closed
    ensures Tally(kept) == Taken(Tally(kept[i := kept[i].(closed := true)]), kept[i])
  {
    var last := |kept| - 1;
    var shut := kept[i := kept[i].(closed := true)];
    if i == last {
      assert shut[..last] == kept[..last];
    } else {
      assert shut[..last] == kept[..last][i := kept[i].(closed := true)];
      TallyClose(kept[..last], i);
    }
  }

  lemma {:induction false} TallyNonNegative(kept: seq<Kept>)
    ensures Tally(kept).diskFiles >= 0 && Tally(kept).diskBytes >= 0
  {
    if kept != [] {
      TallyNonNegative(kept[..|kept| - 1]);
    }
  }

  lemma TallyOpen(kept: seq<Kept>, k: Kept)
    requires !k.closed
    ensures Tally(kept + [k]) == Taken(Tally(kept), k)
  {
    assert (kept + [k])[..|kept|] == kept;
  }

  /** The open storages on disk, or in memory. */
  function Open(kept: seq<Kept>, disk: bool): set<int> {
    set i | 0 <= i < |kept| && !kept[i].closed && kept[i].disk == disk
  }

  function Bytes(kept: seq<Kept>, at: set<int>): nat {
    if kept == [] then 0
    else Bytes(kept[..|kept| - 1], at) + if |kept| - 1 in at then kept[|kept| - 1].size else 0
  }

  lemma OpenNext(kept: seq<Kept>, disk: bool)
    requires kept != []
    ensures var init, k := kept[..|kept| - 1], kept[|kept| - 1];
            && Open(kept, disk) == Open(init, disk) + (if !k.closed && k.disk == disk then {|kept| - 1} else {})
            && |Open(kept, disk)| == |Open(init, disk)| + if !k.closed && k.disk == disk then 1 else 0
  {
    var init := kept[..|kept| - 1];
    assert forall i :: 0 <= i < |init| ==> init[i] == kept[i];
    assert |kept| - 1 !in Open(init, disk);
  }

  lemma {:induction false} BytesOfSame(kept: seq<Kept>, a: set<int>, b: set<int>)
    requires forall i :: 0 <= i < |kept| ==> (i in a <==> i in b)
    ensures Bytes(kept, a) == Bytes(kept, b)
  {
    if kept != [] { BytesOfSame(kept[..|kept| - 1], a, b); }
  }

  lemma BytesNext(kept: seq<Kept>, disk: bool)
    requires kept != []
    ensures var init, k := kept[..|kept| - 1], kept[|kept| - 1];
            Bytes(kept, Open(kept, disk)) ==
            Bytes(init, Open(init, disk)) + if !k.closed && k.disk == disk then k.size else 0
  {
    var init := kept[..|kept| - 1];
    OpenNext(kept, disk);
    BytesOfSame(init, Open(kept, disk), Open(init, disk));
  }

  /** The tally is plain: how many storages are open on disk and in memory, and how many bytes they hold. */
  lemma {:induction false} TallyCounts(kept: seq<Kept>)
    ensures Tally(kept).diskFiles == |Open(kept, true)| && Tally(kept).diskBytes == Bytes(kept, Open(kept, true))
    ensures Tally(kept).buffers == |Open(kept, false)| && Tally(kept).bufferBytes == Bytes(kept, Open(kept, false))
  {
    if kept == [] {
      assert Open(kept, true) == {} && Open(kept, false) == {};
    } else {
      TallyCounts(kept[..|kept| - 1]);
      OpenNext(kept, true);
      OpenNext(kept, false);
      BytesNext(kept, true);
      BytesNext(kept, false);
    }
  }

  /** The counters are the number and bytes of the open storages. */
  predicate Exact(x: World) {
    x.c == Tally(x.kept)
  }

  lemma CreationStaysExact(x: World, k: Kept)
    requires Exact(x) && !k.closed
    ensures Exact(x.(c := Taken(x.c, k), kept := x.kept + [k]))
  {
    TallyOpen(x.kept, k);
  }

  lemma CloseStaysExact(x: World, i: nat)
    requires Exact(x) && i < |x.kept| && !x.kept[i].closed
    ensures Exact(x.(c := Released(x.c, x.kept[i]), kept := x.kept[i := x.kept[i].(closed := true)]))
  {
    TallyClose(x.kept, i);
    TallyNonNegative(x.kept[i := x.kept[i].(closed := true)]);
  }

  lemma SweepIsInexact(x: World, j: nat)
    requires Exact(x) && FileThere(x, j)
    ensures DiskReleased(x.c, x.kept[j].size) != Tally(x.kept)
  {
    TallyClose(x.kept, j);
    TallyNonNegative(x.kept[j := x.kept[j].(closed := true)]);
  }

  /** A step from exact counters leaves them exact if and only if it does not sweep a file that is there: whatever is
      closed twice and whatever fails, the clamps at zero never fire otherwise. */
  lemma StaysExactIff(x: World, cfg: Config, e: Use)
    requires Exact(x)
    ensures Exact(UseStep(x, cfg, e)) <==> !(e.SweepsFile? && FileThere(x, e.j))
  {
    if Creates(x, cfg, e).Some? {
      CreationStaysExact(x, Creates(x, cfg, e).value);
    }
    match e
    case Closes(i) =>
      if i < |x.kept| && !x.kept[i].closed {
        CloseStaysExact(x, i);
      }
    case SweepsFile(j) =>
      if FileThere(x, j) {
        SweepIsInexact(x, j);
      }
    case _ =>
  }

  /** No sweep of the run comes to a file that is there. */
  predicate Unswept(x: World, cfg: Config, es: seq<Use>) {
    es == [] || (Unswept(x, cfg, es[..|es| - 1])
                 && !(es[|es| - 1].SweepsFile? && FileThere(UseAll(x, cfg, es[..|es| - 1]), es[|es| - 1].j)))
  }

  predicate ExactThroughout(x: World, cfg: Config, es: seq<Use>) {
    Exact(UseAll(x, cfg, es)) && (es == [] || ExactThroughout(x, cfg, es[..|es| - 1]))
  }

  /** The counters are exact at every point of a run if and only if the stale-file cleanup never finds the file of an
      open storage. */
  lemma {:induction false} CountersAreTallyIff(x: World, cfg: Config, es: seq<Use>)
    requires Exact(x)
    ensures ExactThroughout(x, cfg, es) <==> Unswept(x, cfg, es)
  {
    if es != [] {
      CountersAreTallyIff(x, cfg, es[..|es| - 1]);
      if Exact(UseAll(x, cfg, es[..|es| - 1])) {
        StaysExactIff(UseAll(x, cfg, es[..|es| - 1]), cfg, es[|es| - 1]);
      }
    }
  }

  // ---------- the limit ----------

  predicate IsCreation(e: Use) {
    e.FromReader? || e.FromData?
  }

  /** The counters by which a creation goes to disk, if it does. */
  function Consulted(x: World, cfg: Config, e: Use): Counters
    requires IsCreation(e)
  {
    if e.FromReader? && !Streamed(SeenBy(x, e.k), cfg, e.declared) then SeenAgainBy(x, e.k) else SeenBy(x, e.k)
  }

  /** By how much a creation takes more than it looked for: a streamed body looks for its declared length only, and the
      usage may have risen since. */
  function Excess(x: World, cfg: Config, e: Use): int
    requires IsCreation(e)
  {
    var risen := x.c.diskBytes - Consulted(x, cfg, e).diskBytes;
    if e.FromReader? && Streamed(SeenBy(x, e.k), cfg, e.declared) then e.length - e.declared + risen else risen
  }

  predicate ExcessUpTo(x: World, cfg: Config, es: seq<Use>, m: nat) {
    es == [] || (&& ExcessUpTo(x, cfg, es[..|es| - 1], m)
                 && (IsCreation(es[|es| - 1]) ==> Excess(UseAll(x, cfg, es[..|es| - 1]), cfg, es[|es| - 1]) <= m))
  }

  /** Disk usage is at most n after each event of the run. */
  predicate UsageUpTo(x: World, cfg: Config, es: seq<Use>, n: int) {
    UseAll(x, cfg, es).c.diskBytes <= n && (es == [] || UsageUpTo(x, cfg, es[..|es| - 1], n))
  }

  lemma CreationIsBounded(x: World, cfg: Config, e: Use)
    requires IsCreation(e)
    ensures var k := Creates(x, cfg, e);
            k.Some? && k.value.disk ==> x.c.diskBytes + k.value.size <= cfg.maxDisk + Excess(x, cfg, e)
  {
  }

  /** In every run, overlapping creations and sweeps included, disk usage exceeds the maximum by no more than the
      largest excess of a single creation: excesses do not add up. */
  lemma {:induction false} OverrunIsBounded(x: World, cfg: Config, es: seq<Use>, m: nat)
    requires x.c.diskBytes <= cfg.maxDisk + m && 0 <= cfg.maxDisk && ExcessUpTo(x, cfg, es, m)
    ensures UsageUpTo(x, cfg, es, cfg.maxDisk + m)
  {
    if es != [] {
      var y, e := UseAll(x, cfg, es[..|es| - 1]), es[|es| - 1];
      OverrunIsBounded(x, cfg, es[..|es| - 1], m);
      if IsCreation(e) {
        CreationIsBounded(y, cfg, e);
      }
    }
  }

  /** So it stays within the maximum in every run in which no streamed body outgrows its declared length together with
      what the usage has risen by since it looked, and no other body finds the usage risen. */
  lemma HonestRunsStayInLimit(x: World, cfg: Config, es: seq<Use>)
    requires x.c.diskBytes <= cfg.maxDisk && 0 <= cfg.maxDisk && ExcessUpTo(x, cfg, es, 0)
    ensures UsageUpTo(x, cfg, es, cfg.maxDisk)
  {
    OverrunIsBounded(x, cfg, es, 0);
  }

  /** Creations one at a time, none longer than declared. */
  predicate Sequential(es: seq<Use>) {
    forall i :: 0 <= i < |es| ==>
      && !es[i].Looks? && !es[i].LooksAgain?
      && (es[i].FromReader? ==> es[i].declared <= 0 || es[i].length <= es[i].declared)
  }

  lemma {:induction false} SequentialHasNoExcess(x: World, cfg: Config, es: seq<Use>)
    requires Sequential(es) && x.seen == map[] && x.again == map[]
    ensures UseAll(x, cfg, es).seen == map[] && UseAll(x, cfg, es).again == map[]
    ensures ExcessUpTo(x, cfg, es, 0)
  {
    if es != [] {
      SequentialHasNoExcess(x, cfg, es[..|es| - 1]);
    }
  }

  /** In particular in every run of creations that do not overlap, with bodies no longer than declared. */
  lemma SequentialRunsStayInLimit(x: World, cfg: Config, es: seq<Use>)
    requires x.c.diskBytes <= cfg.maxDisk && 0 <= cfg.maxDisk
    requires Sequential(es) && x.seen == map[] && x.again == map[]
    ensures UsageUpTo(x, cfg, es, cfg.maxDisk)
  {
    SequentialHasNoExcess(x, cfg, es);
    HonestRunsStayInLimit(x, cfg, es);
  }

  /** The usage has risen (or fallen) by so much since creation 0 looked. */
  predicate RisenBy(x: World, risen: int) {
    0 in x.seen && 0 <= x.seen[0].diskBytes && 0 <= x.c.diskBytes == x.seen[0].diskBytes + risen
  }

  function WithUsage(seen: int, now: int): World {
    World(Counters(0, now, 0, 0), [], {}, map[0 := Counters(0, seen, 0, 0)], map[])
  }

  /** This is exact: a streamed body stays within the maximum at every usage that admitted it if and only if its length
      and what the usage has risen by since are together at most its declared length, */
  lemma StreamStaysInLimitIff(cfg: Config, length: nat, declared: int, maxBytes: nat, risen: int)
    requires cfg.enabled && 0 < declared && cfg.threshold <= declared <= cfg.maxDisk && length <= maxBytes
    requires cfg.maxDisk - declared + risen >= 0
    ensures (forall x: World | RisenBy(x, risen) && Streamed(x.seen[0], cfg, declared) ::
               UseStep(x, cfg, FromReader(0, length, declared, maxBytes, true)).c.diskBytes <= cfg.maxDisk) <==>
              length + risen <= declared
  {
    if length + risen > declared {
      var full := WithUsage(cfg.maxDisk - declared, cfg.maxDisk - declared + risen);
      assert RisenBy(full, risen) && Streamed(full.seen[0], cfg, declared);
      assert UseStep(full, cfg, FromReader(0, length, declared, maxBytes, true)).c.diskBytes > cfg.maxDisk;
    }
  }

  /** and data that are at hand do so if and only if the usage has not risen. */
  lemma DataStaysInLimitIff(cfg: Config, size: nat, risen: int)
    requires cfg.enabled && cfg.threshold <= size <= cfg.maxDisk && cfg.maxDisk - size + risen >= 0
    ensures (forall x: World | RisenBy(x, risen) && Available(x.seen[0], cfg, size) ::
               UseStep(x, cfg, FromData(0, size, true)).c.diskBytes <= cfg.maxDisk) <==>
              risen <= 0
  {
    if risen > 0 {
      var full := WithUsage(cfg.maxDisk - size, cfg.maxDisk - size + risen);
      assert RisenBy(full, risen) && Available(full.seen[0], cfg, size);
      assert UseStep(full, cfg, FromData(0, size, true)).c.diskBytes > cfg.maxDisk;
    }
  }

  /** Two bodies that each fit, but not both, and that look before either is counted, both go to disk. */
  lemma OverlappingCreationsExceed(x: World, cfg: Config, size: nat)
    requires x.seen == map[] && cfg.enabled && cfg.threshold <= size
    requires x.c.diskBytes + size <= cfg.maxDisk < x.c.diskBytes + 2 * size
    ensures UseAll(x, cfg, [Looks(0), FromData(1, size, true), FromData(0, size, true)]).c.diskBytes > cfg.maxDisk
  {
    var a, b, c := Looks(0), FromData(1, size, true), FromData(0, size, true);
    assert [a, b, c][..2] == [a, b] && [a, b][..1] == [a] && [a][..0] == [];
    assert UseAll(x, cfg, [a]) == UseStep(x, cfg, a);
    assert UseAll(x, cfg, [a, b]) == UseStep(UseStep(x, cfg, a), cfg, b);
  }

  predicate NotOver(x: World) {
    0 <= x.c.diskFiles <= Tally(x.kept).diskFiles && 0 <= x.c.diskBytes <= Tally(x.kept).diskBytes
  }

  lemma OpenNotOver(x: World, k: Kept)
    requires NotOver(x) && !k.closed
    ensures NotOver(x.(c := Taken(x.c, k), kept := x.kept + [k]))
  {
    TallyOpen(x.kept, k);
  }

  lemma CloseNotOver(x: World, i: nat)
    requires NotOver(x) && i < |x.kept| && !x.kept[i].closed
    ensures NotOver(x.(c := Released(x.c, x.kept[i]), kept := x.kept[i := x.kept[i].(closed := true)]))
  {
    TallyClose(x.kept, i);
    TallyNonNegative(x.kept[i := x.kept[i].(closed := true)]);
  }

  /** With stale-file cleanup the counters may fall behind, but they never report more than what is open. */
  lemma {:induction false} CountersNeverOverReport(x: World, cfg: Config, es: seq<Use>)
    requires NotOver(x)
    ensures NotOver(UseAll(x, cfg, es))
  {
    if es != [] {
      CountersNeverOverReport(x, cfg, es[..|es| - 1]);
      var y, e := UseAll(x, cfg, es[..|es| - 1]), es[|es| - 1];
      if Creates(y, cfg, e).Some? {
        OpenNotOver(y, Creates(y, cfg, e).value);
      }
      match e
      case Closes(i) =>
        if i < |y.kept| && !y.kept[i].closed {
          CloseNotOver(y, i);
        }
      case _ =>
    }
  }

  /** Sweeping the file of an open storage and closing the storage take its bytes off twice, as long as the counter
      reaches. */
  lemma SweptFileCountsTwice(x: World, cfg: Config, j: nat)
    requires Exact(x) && FileThere(x, j)
    ensures var y := UseStep(UseStep(x, cfg, SweepsFile(j)), cfg, Closes(j));
            && Tally(y.kept).diskBytes == x.c.diskBytes - x.kept[j].size
            && y.c.diskBytes == Floor(x.c.diskBytes - 2 * x.kept[j].size)
            && y.c.diskFiles == Floor(Tally(y.kept).diskFiles - 1)
  {
    TallyClose(x.kept, j);
    TallyNonNegative(x.kept[j := x.kept[j].(closed := true)]);
  }
}
