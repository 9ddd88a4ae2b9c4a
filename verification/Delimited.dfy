/** Lists kept in one delimiter-separated string, as the channel table keeps model names ("," between them). */
module Delimited {

  function Join(xs: seq<string>, sep: char): string {
    if xs == [] then ""
    else if |xs| == 1 then xs[0]
    else xs[0] + [sep] + Join(xs[1..], sep)
  }

  function Split(s: string, sep: char): (parts: seq<string>)
    ensures |parts| >= 1
  {
    if s == "" then [""]
    else
      var rest := Split(s[1..], sep);
      if s[0] == sep then [""] + rest else [[s[0]] + rest[0]] + rest[1..]
  }

  function TrimLeft(s: string, sep: char): string {
    if s != "" && s[0] == sep then TrimLeft(s[1..], sep) else s
  }

  function TrimRight(s: string, sep: char): string {
    if s != "" && s[|s| - 1] == sep then TrimRight(s[..|s| - 1], sep) else s
  }

  /** What GetModels reads back from the column. */
  function ReadList(s: string, sep: char): seq<string> {
    if s == "" then [] else Split(TrimRight(TrimLeft(s, sep), sep), sep)
  }

  ghost predicate Free(x: string, sep: char) {
    sep !in x
  }

  ghost predicate AllFree(xs: seq<string>, sep: char) {
    forall i :: 0 <= i < |xs| ==> Free(xs[i], sep)
  }

  ghost predicate NoEmpty(xs: seq<string>) {
    forall i :: 0 <= i < |xs| ==> xs[i] != ""
  }

  lemma {:induction false} SplitIsFree(s: string, sep: char)
    ensures AllFree(Split(s, sep), sep)
  {
    if s != "" { SplitIsFree(s[1..], sep); }
  }

  lemma {:induction false} SplitPrefix(x: string, rest: string, sep: char)
    requires Free(x, sep)
    ensures Split(x + [sep] + rest, sep) == [x] + Split(rest, sep)
    ensures Split(x, sep) == [x]
  {
    if x == "" {
      assert x + [sep] + rest == [sep] + rest;
    } else {
      assert x[0] in x && forall c :: c in x[1..] ==> c in x;
      SplitPrefix(x[1..], rest, sep);
      assert (x + [sep] + rest)[1..] == x[1..] + [sep] + rest;
      assert [x[0]] + x[1..] == x;
      var tail := Split(rest, sep);
      assert ([x[1..]] + tail)[0] == x[1..] && ([x[1..]] + tail)[1..] == tail;
    }
  }

  lemma {:induction false} SplitJoin(xs: seq<string>, sep: char)
    requires xs != [] && AllFree(xs, sep)
    ensures Split(Join(xs, sep), sep) == xs
  {
    if |xs| == 1 {
      SplitPrefix(xs[0], "", sep);
    } else {
      SplitJoin(xs[1..], sep);
      SplitPrefix(xs[0], Join(xs[1..], sep), sep);
    }
  }

  lemma {:induction false} JoinEnds(xs: seq<string>, sep: char)
    requires xs != [] && AllFree(xs, sep) && NoEmpty(xs)
    ensures var s := Join(xs, sep); s != "" && s[0] != sep && s[|s| - 1] != sep
  {
    assert xs[0][0] in xs[0] && xs[0][|xs[0]| - 1] in xs[0];
    if |xs| > 1 {
      JoinEnds(xs[1..], sep);
      var rest := Join(xs[1..], sep);
      var s := Join(xs, sep);
      assert s[|s| - 1] == rest[|rest| - 1];
    }
  }

  /** Writing a list of non-empty, delimiter-free names and reading it back gives the list. */
  lemma RoundTrip(xs: seq<string>, sep: char)
    requires AllFree(xs, sep) && NoEmpty(xs)
    ensures ReadList(Join(xs, sep), sep) == xs
  {
    if xs != [] {
      JoinEnds(xs, sep);
      SplitJoin(xs, sep);
    }
  }

  // ---------- which lists survive ----------

  /** Blank items inside a list survive; the list must begin and end with others. */
  predicate EndsProper(xs: seq<string>) {
    xs != [] && xs[0] != "" && xs[|xs| - 1] != ""
  }

  function Count(s: string, sep: char): nat {
    if s == "" then 0 else (if s[0] == sep then 1 else 0) + Count(s[1..], sep)
  }

  lemma {:induction false} CountConcat(s: string, t: string, sep: char)
    ensures Count(s + t, sep) == Count(s, sep) + Count(t, sep)
  {
    if s == "" {
      assert s + t == t;
    } else {
      assert (s + t)[1..] == s[1..] + t;
      CountConcat(s[1..], t, sep);
    }
  }

  lemma {:induction false} FreeCountsZero(s: string, sep: char)
    requires Free(s, sep)
    ensures Count(s, sep) == 0
  {
    if s != "" {
      assert s[0] in s && forall c :: c in s[1..] ==> c in s;
      FreeCountsZero(s[1..], sep);
    }
  }

  lemma {:induction false} SplitCounts(s: string, sep: char)
    ensures |Split(s, sep)| == Count(s, sep) + 1
  {
    if s != "" { SplitCounts(s[1..], sep); }
  }

  lemma {:induction false} TrimLeftCounts(s: string, sep: char)
    ensures Count(TrimLeft(s, sep), sep) <= Count(s, sep)
    ensures s != "" && s[0] == sep ==> Count(TrimLeft(s, sep), sep) < Count(s, sep)
    ensures TrimLeft(s, sep) != "" ==> TrimLeft(s, sep)[0] != sep && TrimLeft(s, sep)[|TrimLeft(s, sep)| - 1] == s[|s| - 1]
  {
    if s != "" && s[0] == sep { TrimLeftCounts(s[1..], sep); }
  }

  lemma {:induction false} TrimRightCounts(s: string, sep: char)
    ensures Count(TrimRight(s, sep), sep) <= Count(s, sep)
    ensures s != "" && s[|s| - 1] == sep ==> Count(TrimRight(s, sep), sep) < Count(s, sep)
    ensures TrimRight(s, sep) != "" ==>
              TrimRight(s, sep)[0] == s[0] && TrimRight(s, sep)[|TrimRight(s, sep)| - 1] != sep
  {
    if s != "" && s[|s| - 1] == sep {
      var init := s[..|s| - 1];
      TrimRightCounts(init, sep);
      assert s == init + [sep];
      CountConcat(init, [sep], sep);
    }
  }

  lemma {:induction false} JoinFacts(xs: seq<string>, sep: char)
    requires xs != [] && AllFree(xs, sep)
    ensures Count(Join(xs, sep), sep) == |xs| - 1
    ensures Join(xs, sep) == "" <==> xs == [""]
    ensures Join(xs, sep) != "" ==> (Join(xs, sep)[0] == sep <==> xs[0] == "")
    ensures Join(xs, sep) != "" ==> (Join(xs, sep)[|Join(xs, sep)| - 1] == sep <==> xs[|xs| - 1] == "")
  {
    FreeCountsZero(xs[0], sep);
    if xs[0] != "" { assert xs[0][0] in xs[0] && xs[0][|xs[0]| - 1] in xs[0]; }
    if |xs| > 1 {
      var rest := Join(xs[1..], sep);
      JoinFacts(xs[1..], sep);
      CountConcat(xs[0] + [sep], rest, sep);
      CountConcat(xs[0], [sep], sep);
      if rest != "" { assert Join(xs, sep)[|Join(xs, sep)| - 1] == rest[|rest| - 1]; }
    }
  }

  /** A list that begins and ends with a non-empty item is read back; any other non-empty list comes back shorter. */
  lemma RoundTripIff(xs: seq<string>, sep: char)
    requires xs != [] && AllFree(xs, sep)
    ensures if EndsProper(xs) then Join(xs, sep) != "" && ReadList(Join(xs, sep), sep) == xs
            else |ReadList(Join(xs, sep), sep)| < |xs|
  {
    var s := Join(xs, sep);
    JoinFacts(xs, sep);
    SplitJoin(xs, sep);
    TrimLeftCounts(s, sep);
    TrimRightCounts(TrimLeft(s, sep), sep);
    SplitCounts(TrimRight(TrimLeft(s, sep), sep), sep);
    if s != "" && !EndsProper(xs) { StripsEnds(s, sep); }
  }

  lemma StripsEnds(s: string, sep: char)
    requires s != "" && (s[0] == sep || s[|s| - 1] == sep)
    ensures Count(TrimRight(TrimLeft(s, sep), sep), sep) < Count(s, sep)
  {
    TrimLeftCounts(s, sep);
    TrimRightCounts(TrimLeft(s, sep), sep);
  }

  lemma {:induction false} SplitEnds(s: string, sep: char)
    requires s != ""
    ensures s[0] != sep ==> Split(s, sep)[0] != ""
    ensures s[|s| - 1] != sep ==> Split(s, sep)[|Split(s, sep)| - 1] != ""
  {
    if |s| > 1 { SplitEnds(s[1..], sep); }
  }

  /** Whatever a column holds, the list read from it begins and ends with non-empty items, unless it is one blank. */
  lemma ReadListEnds(s: string, sep: char)
    requires s != ""
    ensures EndsProper(ReadList(s, sep)) || ReadList(s, sep) == [""]
  {
    var t := TrimRight(TrimLeft(s, sep), sep);
    TrimLeftCounts(s, sep);
    TrimRightCounts(TrimLeft(s, sep), sep);
    if t != "" { SplitEnds(t, sep); }
  }

  // ---------- every string ----------

  /** Joining is the inverse of splitting on every string. */
  lemma {:induction false} JoinSplit(s: string, sep: char)
    ensures Join(Split(s, sep), sep) == s
  {
    if s != "" {
      var rest := Split(s[1..], sep);
      JoinSplit(s[1..], sep);
      assert s == [s[0]] + s[1..];
      if s[0] == sep {
        assert ([""] + rest)[1..] == rest;
      } else if |rest| > 1 {
        assert ([[s[0]] + rest[0]] + rest[1..])[1..] == rest[1..];
        assert [s[0]] + rest[0] + [sep] + Join(rest[1..], sep) == [s[0]] + (rest[0] + [sep] + Join(rest[1..], sep));
      }
    }
  }

  ghost predicate AllSep(s: string, sep: char) {
    forall i :: 0 <= i < |s| ==> s[i] == sep
  }

  lemma {:induction false} TrimLeftSkips(a: string, y: string, sep: char)
    requires AllSep(a, sep) && (y != "" ==> y[0] != sep)
    ensures TrimLeft(a + y, sep) == y
  {
    if a == "" {
      assert a + y == y;
    } else {
      assert (a + y)[0] == a[0] && (a + y)[1..] == a[1..] + y;
      TrimLeftSkips(a[1..], y, sep);
    }
  }

  lemma {:induction false} TrimRightSkips(y: string, b: string, sep: char)
    requires AllSep(b, sep) && (y != "" ==> y[|y| - 1] != sep)
    ensures TrimRight(y + b, sep) == y
    decreases |b|
  {
    if b == "" {
      assert y + b == y;
    } else {
      assert (y + b)[|y + b| - 1] == b[|b| - 1] && (y + b)[..|y + b| - 1] == y + b[..|b| - 1];
      TrimRightSkips(y, b[..|b| - 1], sep);
    }
  }

  /** Reading a column takes it apart at every delimiter, but for those at its ends. */
  lemma ReadListStrips(a: string, core: string, b: string, sep: char)
    requires AllSep(a, sep) && AllSep(b, sep) && core != "" && core[0] != sep && core[|core| - 1] != sep
    ensures AllFree(ReadList(a + core + b, sep), sep) && Join(ReadList(a + core + b, sep), sep) == core
  {
    assert a + core + b == a + (core + b);
    TrimLeftSkips(a, core + b, sep);
    TrimRightSkips(core, b, sep);
    JoinSplit(core, sep);
    SplitIsFree(core, sep);
  }
}
