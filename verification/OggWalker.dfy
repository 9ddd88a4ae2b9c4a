/** Duration of an Opus file: a walk over the pages of its Ogg container (section 6 of RFC 3533) that keeps the largest
    granule position (section 4 of RFC 7845). */
module OggWalker {

  type byte = x: int | 0 <= x < 256

  const HEADER: int := 27
  const CAPTURE: seq<byte> := [0x4F, 0x67, 0x67, 0x53]   // "OggS"
  const TWO_TO_63: int := 0x8000_0000_0000_0000
  const TWO_TO_64: int := 0x1_0000_0000_0000_0000

  // ---------- little-endian numbers ----------

  function FromLittleEndian(bytes: seq<byte>): nat {
    if bytes == [] then 0 else bytes[0] + 256 * FromLittleEndian(bytes[1..])
  }

  function ToLittleEndian(n: nat, width: nat): (bytes: seq<byte>)
    ensures |bytes| == width
  {
    if width == 0 then [] else [n % 256] + ToLittleEndian(n / 256, width - 1)
  }

  function Power256(width: nat): (p: nat)
    ensures p > 0
  {
    if width == 0 then 1 else 256 * Power256(width - 1)
  }

  lemma {:induction false} LittleEndianRoundTrip(n: nat, width: nat)
    requires n < Power256(width)
    ensures FromLittleEndian(ToLittleEndian(n, width)) == n
  {
    if width > 0 { LittleEndianRoundTrip(n / 256, width - 1); }
  }

  /** Reinterpretation of a 64-bit word as a signed number, and back. */
  function Signed(u: int): int {
    if u < TWO_TO_63 then u else u - TWO_TO_64
  }

  function Unsigned(g: int): nat
    requires -TWO_TO_63 <= g < TWO_TO_63
  {
    if g >= 0 then g else g + TWO_TO_64
  }

  // ---------- the walk ----------

  predicate CaptureAt(data: seq<byte>, pos: nat) {
    pos + 4 <= |data| && data[pos..pos + 4] == CAPTURE
  }

  predicate PageAt(data: seq<byte>, pos: nat) {
    pos + HEADER <= |data| && CaptureAt(data, pos)
  }

  function GranuleAt(data: seq<byte>, pos: nat): int
    requires pos + HEADER <= |data|
  {
    Signed(FromLittleEndian(data[pos + 6..pos + 14]))
  }

  function Sum(table: seq<byte>): nat {
    if table == [] then 0 else Sum(table[..|table| - 1]) + table[|table| - 1]
  }

  /** Where the walk goes after a page header; the walk ends when the segment table is cut short. */
  function AfterPage(data: seq<byte>, pos: nat): nat
    requires pos + HEADER <= |data| && pos + HEADER + data[pos + 26] <= |data|
  {
    pos + HEADER + data[pos + 26] + Sum(data[pos + HEADER..pos + HEADER + data[pos + 26]])
  }

  /** Positions at which a walk from `pos` recognizes a page header. */
  function Visits(data: seq<byte>, pos: nat): seq<nat>
    decreases |data| - pos
  {
    if pos + HEADER > |data| then []
    else if !CaptureAt(data, pos) then Visits(data, pos + 1)
    else if pos + HEADER + data[pos + 26] > |data| then [pos]
    else [pos] + Visits(data, AfterPage(data, pos))
  }

  /** The largest of `total` and the granule positions of the pages at `visited`. */
  function Largest(data: seq<byte>, visited: seq<nat>, total: int): int
    requires forall k :: 0 <= k < |visited| ==> visited[k] + HEADER <= |data|
  {
    if visited == [] then total
    else
      var g := GranuleAt(data, visited[0]);
      Largest(data, visited[1..], if g > total then g else total)
  }

  lemma {:induction false} VisitsHaveHeaders(data: seq<byte>, pos: nat)
    ensures forall k :: 0 <= k < |Visits(data, pos)| ==> pos <= Visits(data, pos)[k] && PageAt(data, Visits(data, pos)[k])
    decreases |data| - pos
  {
    if pos + HEADER <= |data| {
      if !CaptureAt(data, pos) {
        VisitsHaveHeaders(data, pos + 1);
      } else if pos + HEADER + data[pos + 26] <= |data| {
        VisitsHaveHeaders(data, AfterPage(data, pos));
      }
    }
  }

  /** The walk as one function of the position and the maximum so far. */
  function Walk(data: seq<byte>, pos: nat, total: int): int
    decreases |data| - pos
  {
    if pos + HEADER > |data| then total
    else if !CaptureAt(data, pos) then Walk(data, pos + 1, total)
    else
      var g := GranuleAt(data, pos);
      var total' := if g > total then g else total;
      if pos + HEADER + data[pos + 26] > |data| then total' else Walk(data, AfterPage(data, pos), total')
  }

  lemma {:induction false} WalkFindsLargest(data: seq<byte>, pos: nat, total: int)
    ensures forall k :: 0 <= k < |Visits(data, pos)| ==> Visits(data, pos)[k] + HEADER <= |data|
    ensures Walk(data, pos, total) == Largest(data, Visits(data, pos), total)
    decreases |data| - pos
  {
    VisitsHaveHeaders(data, pos);
    if pos + HEADER <= |data| {
      if !CaptureAt(data, pos) {
        WalkFindsLargest(data, pos + 1, total);
      } else {
        var g := GranuleAt(data, pos);
        if pos + HEADER + data[pos + 26] <= |data| {
          WalkFindsLargest(data, AfterPage(data, pos), if g > total then g else total);
        }
        assert Visits(data, pos)[1..] ==
               if pos + HEADER + data[pos + 26] > |data| then [] else Visits(data, AfterPage(data, pos));
      }
    }
  }

  /** Being the largest: at least the start value and every granule position, and one of them. */
  lemma {:induction false} LargestIsMaximum(data: seq<byte>, visited: seq<nat>, total: int)
    requires forall k :: 0 <= k < |visited| ==> visited[k] + HEADER <= |data|
    ensures Largest(data, visited, total) >= total
    ensures forall k :: 0 <= k < |visited| ==> GranuleAt(data, visited[k]) <= Largest(data, visited, total)
    ensures Largest(data, visited, total) == total
            || exists k :: 0 <= k < |visited| && GranuleAt(data, visited[k]) == Largest(data, visited, total)
  {
    if visited != [] {
      var g := GranuleAt(data, visited[0]);
      LargestIsMaximum(data, visited[1..], if g > total then g else total);
      var m := Largest(data, visited, total);
      if m != total && m != g {
        var k :| 0 <= k < |visited[1..]| && GranuleAt(data, visited[1..][k]) == m;
        assert visited[k + 1] == visited[1..][k];
      }
      forall k | 0 <= k < |visited| ensures GranuleAt(data, visited[k]) <= m {
        if k > 0 { assert visited[k] == visited[1..][k - 1]; }
      }
    }
  }

  method PageSize(table: seq<byte>) returns (size: nat)
    ensures size == Sum(table)
  {
    size := 0;
    for i := 0 to |table|
      invariant size == Sum(table[..i])
    {
      assert table[..i + 1][..i] == table[..i];
      size := size + table[i];
    }
    assert table[..|table|] == table;
  }

  method OpusDuration(data: seq<byte>) returns (total: int, duration: real)
    ensures total == Walk(data, 0, 0)
    ensures duration == total as real / 48000.0
  {
    total := 0;
    var pos: nat := 0;
    var reading := true;
    while reading
      invariant Walk(data, 0, 0) == if reading then Walk(data, pos, total) else total
      decreases reading, |data| - pos
    {
      // a short read, or the end of the file, ends the walk
      if pos + HEADER > |data| {
        reading := false;
      } else if data[pos..pos + 4] != CAPTURE {
        pos := pos + HEADER - 26;
      } else {
        var granule := Signed(FromLittleEndian(data[pos + 6..pos + 14]));
        if granule > total {
          total := granule;
        }
        var segments := data[pos + 26];
        if pos + HEADER + segments > |data| {
          reading := false;
        } else {
          var size := PageSize(data[pos + HEADER..pos + HEADER + segments]);
          pos := pos + HEADER + segments + size;
        }
      }
    }
    duration := total as real / 48000.0;
  }

  // ---------- well-formed files ----------

  /** An Ogg page: `rest` is serial number, sequence number and checksum. */
  datatype RawPage = RawPage(version: byte, kind: byte, granule: int, rest: seq<byte>, table: seq<byte>, payload: seq<byte>)

  predicate WellFormed(p: RawPage) {
    -TWO_TO_63 <= p.granule < TWO_TO_63 && |p.rest| == 12 && |p.table| < 256 && |p.payload| == Sum(p.table)
  }

  type Page = p: RawPage | WellFormed(p) witness RawPage(0, 0, 0, [0, 0, 0, 0, 0, 0, 0, 0, 0, 0, 0, 0], [], [])

  function Header(p: Page): (h: seq<byte>)
    ensures |h| == HEADER && h[0..4] == CAPTURE && h[6..14] == ToLittleEndian(Unsigned(p.granule), 8) && h[26] == |p.table|
  {
    CAPTURE + [p.version, p.kind] + ToLittleEndian(Unsigned(p.granule), 8) + p.rest + [|p.table|]
  }

  function Encode(p: Page): seq<byte> {
    Header(p) + p.table + p.payload
  }

  function Concat(pages: seq<Page>): seq<byte> {
    if pages == [] then [] else Encode(pages[0]) + Concat(pages[1..])
  }

  /** Where the pages of a file start. */
  function Starts(pos: nat, pages: seq<Page>): seq<nat>
    decreases |pages|
  {
    if pages == [] then [] else [pos] + Starts(pos + |Encode(pages[0])|, pages[1..])
  }

  function LargestGranule(pages: seq<Page>, total: int): int {
    if pages == [] then total
    else LargestGranule(pages[1..], if pages[0].granule > total then pages[0].granule else total)
  }

  lemma GranuleReadsBack(g: int)
    requires -TWO_TO_63 <= g < TWO_TO_63
    ensures Signed(FromLittleEndian(ToLittleEndian(Unsigned(g), 8))) == g
  {
    assert Power256(8) == TWO_TO_64 by {
      assert Power256(4) == 0x1_0000_0000;
      assert Power256(6) == 0x1_0000_0000_0000;
    }
    LittleEndianRoundTrip(Unsigned(g), 8);
  }

  lemma SliceInside(before: seq<byte>, middle: seq<byte>, after: seq<byte>, lo: nat, hi: nat)
    requires lo <= hi <= |middle|
    ensures (before + middle + after)[|before| + lo..|before| + hi] == middle[lo..hi]
  {
  }

  /** A page embedded anywhere is read as what was encoded, and the walk leaves it at its end. */
  lemma PageIsRead(before: seq<byte>, p: Page, after: seq<byte>)
    ensures var data, pos := before + Encode(p) + after, |before|;
            && PageAt(data, pos) && GranuleAt(data, pos) == p.granule
            && pos + HEADER + data[pos + 26] <= |data| && AfterPage(data, pos) == pos + |Encode(p)|
  {
    var data, pos, h := before + Encode(p) + after, |before|, Header(p);
    var tail := p.table + p.payload + after;
    assert data == before + h + tail;
    SliceInside(before, h, tail, 0, 4);
    SliceInside(before, h, tail, 6, 14);
    assert data[pos + 26] == h[26];
    GranuleReadsBack(p.granule);
    assert data == (before + h) + p.table + (p.payload + after);
    SliceInside(before + h, p.table, p.payload + after, 0, |p.table|);
    assert p.table[0..|p.table|] == p.table;
  }

  lemma WalkOverPage(data: seq<byte>, pos: nat, total: int, granule: int, next: nat)
    requires PageAt(data, pos) && GranuleAt(data, pos) == granule
    requires pos + HEADER + data[pos + 26] <= |data| && AfterPage(data, pos) == next
    ensures Visits(data, pos) == [pos] + Visits(data, next)
    ensures Walk(data, pos, total) == Walk(data, next, if granule > total then granule else total)
  {
  }

  lemma NextPage(data: seq<byte>, pos: nat, p: Page, after: seq<byte>, total: int) returns (next: nat)
    requires pos <= |data| && data[pos..] == Encode(p) + after
    ensures next == pos + |Encode(p)| && next <= |data| && data[next..] == after
    ensures Visits(data, pos) == [pos] + Visits(data, next)
    ensures Walk(data, pos, total) == Walk(data, next, if p.granule > total then p.granule else total)
  {
    next := pos + |Encode(p)|;
    assert data == data[..pos] + Encode(p) + after;
    PageIsRead(data[..pos], p, after);
    WalkOverPage(data, pos, total, p.granule, next);
  }

  lemma {:induction false} VisitsOverPages(data: seq<byte>, pos: nat, pages: seq<Page>)
    requires pos <= |data| && data[pos..] == Concat(pages)
    ensures Visits(data, pos) == Starts(pos, pages)
    decreases |pages|
  {
    if pages == [] {
      assert pos == |data|;
    } else {
      var rest := pages[1..];
      var next := NextPage(data, pos, pages[0], Concat(rest), 0);
      VisitsOverPages(data, next, rest);
      StartsAre(Visits(data, pos), Visits(data, next), pos, next, pages);
    }
  }

  lemma StartsAre(all: seq<nat>, later: seq<nat>, pos: nat, next: nat, pages: seq<Page>)
    requires pages != [] && next == pos + |Encode(pages[0])| && all == [pos] + later && later == Starts(next, pages[1..])
    ensures all == Starts(pos, pages)
  {
  }

  lemma {:induction false} WalkOverPages(data: seq<byte>, pos: nat, pages: seq<Page>, total: int)
    requires pos <= |data| && data[pos..] == Concat(pages)
    ensures Walk(data, pos, total) == LargestGranule(pages, total)
    decreases |pages|
  {
    if pages == [] {
      assert pos == |data|;
    } else {
      var rest := pages[1..];
      var next := NextPage(data, pos, pages[0], Concat(rest), total);
      WalkOverPages(data, next, rest, if pages[0].granule > total then pages[0].granule else total);
    }
  }

  /** Bytes in which no capture pattern starts are passed over one by one. */
  lemma {:induction false} WalkOverNoise(data: seq<byte>, pos: nat, end: nat)
    requires pos <= end && (end + HEADER <= |data| || end == |data|)
    requires forall i :: pos <= i < end ==> !CaptureAt(data, i)
    ensures Visits(data, pos) == Visits(data, end) && Walk(data, pos, 0) == Walk(data, end, 0)
    decreases end - pos
  {
    if pos < end && pos + HEADER <= |data| { WalkOverNoise(data, pos + 1, end); }
  }

  /** On any concatenation of well-formed pages, after any prefix in which no capture pattern starts, the walk visits
      exactly the page boundaries and returns the largest granule position that is not negative (pages marked -1 do
      not count); with no page it returns zero. */
  lemma WalkVisitsThePages(prefix: seq<byte>, pages: seq<Page>)
    requires forall i :: 0 <= i < |prefix| ==> !CaptureAt(prefix + Concat(pages), i)
    ensures Visits(prefix + Concat(pages), 0) == Starts(|prefix|, pages)
    ensures Walk(prefix + Concat(pages), 0, 0) == LargestGranule(pages, 0)
  {
    var data := prefix + Concat(pages);
    assert pages != [] ==> |Concat(pages)| >= HEADER;
    WalkOverNoise(data, 0, |prefix|);
    VisitsOverPages(data, |prefix|, pages);
    WalkOverPages(data, |prefix|, pages, 0);
  }

  /** On every byte string the result is zero or the granule position of a recognized page header. */
  lemma ResultIsGenuine(data: seq<byte>)
    ensures Walk(data, 0, 0) >= 0
    ensures Walk(data, 0, 0) != 0 ==> exists pos: nat :: PageAt(data, pos) && GranuleAt(data, pos) == Walk(data, 0, 0)
  {
    VisitsHaveHeaders(data, 0);
    WalkFindsLargest(data, 0, 0);
    LargestIsMaximum(data, Visits(data, 0), 0);
  }

  lemma {:induction false} LargestGranuleIsMaximum(pages: seq<Page>, total: int)
    ensures LargestGranule(pages, total) >= total
    ensures forall i :: 0 <= i < |pages| ==> pages[i].granule <= LargestGranule(pages, total)
    ensures LargestGranule(pages, total) == total ||
            exists i :: 0 <= i < |pages| && pages[i].granule == LargestGranule(pages, total)
  {
    if pages != [] {
      var next := if pages[0].granule > total then pages[0].granule else total;
      LargestGranuleIsMaximum(pages[1..], next);
      forall i | 0 <= i < |pages| ensures pages[i].granule <= LargestGranule(pages, total) {
        if i > 0 { assert pages[i] == pages[1..][i - 1]; }
      }
      var m := LargestGranule(pages, total);
      if m != total && m != pages[0].granule {
        var i :| 0 <= i < |pages[1..]| && pages[1..][i].granule == m;
        assert pages[i + 1].granule == m;
      }
    }
  }
}
