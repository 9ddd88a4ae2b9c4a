/** Lists used as sets that remember an order: removing members, removing repetitions, and what that keeps. */
module Lists {

  ghost predicate Distinct<T>(xs: seq<T>) {
    forall i, j :: 0 <= i < j < |xs| ==> xs[i] != xs[j]
  }

  /** First occurrences only, in order. */
  function Uniq<T(==)>(xs: seq<T>): seq<T> {
    if xs == [] then []
    else
      var rest, x := Uniq(xs[..|xs| - 1]), xs[|xs| - 1];
      if x in rest then rest else rest + [x]
  }

  /** The members of `xs` outside `s`, in order. */
  function Drop<T(==)>(xs: seq<T>, s: set<T>): seq<T> {
    if xs == [] then []
    else Drop(xs[..|xs| - 1], s) + if xs[|xs| - 1] in s then [] else [xs[|xs| - 1]]
  }

  /** The members of `xs` inside `s`, in order. */
  function Keep<T(==)>(xs: seq<T>, s: set<T>): seq<T> {
    if xs == [] then []
    else Keep(xs[..|xs| - 1], s) + if xs[|xs| - 1] in s then [xs[|xs| - 1]] else []
  }

  function Elems<T(==)>(xs: seq<T>): set<T> {
    set x | x in xs
  }

  lemma Snoc<T>(xs: seq<T>, x: T, s: set<T>)
    ensures Drop(xs + [x], s) == Drop(xs, s) + if x in s then [] else [x]
    ensures Elems(xs + [x]) == Elems(xs) + {x}
  {
    assert (xs + [x])[..|xs + [x]| - 1] == xs;
  }

  lemma {:induction false} UniqMembers<T>(xs: seq<T>, x: T)
    ensures x in Uniq(xs) <==> x in xs
  {
    if xs != [] {
      UniqMembers(xs[..|xs| - 1], x);
      assert xs == xs[..|xs| - 1] + [xs[|xs| - 1]];
    }
  }

  lemma {:induction false} UniqIsDistinct<T>(xs: seq<T>)
    ensures Distinct(Uniq(xs))
    ensures Distinct(xs) ==> Uniq(xs) == xs
  {
    if xs != [] {
      UniqIsDistinct(xs[..|xs| - 1]);
      UniqMembers(xs[..|xs| - 1], xs[|xs| - 1]);
    }
  }

  lemma {:induction false} DropMembers<T>(xs: seq<T>, s: set<T>, x: T)
    ensures x in Drop(xs, s) <==> x in xs && x !in s
  {
    if xs != [] {
      DropMembers(xs[..|xs| - 1], s, x);
      assert xs == xs[..|xs| - 1] + [xs[|xs| - 1]];
    }
  }

  lemma {:induction false} DropIsDistinct<T>(xs: seq<T>, s: set<T>)
    requires Distinct(xs)
    ensures Distinct(Drop(xs, s))
  {
    if xs != [] {
      var init, x := xs[..|xs| - 1], xs[|xs| - 1];
      DropIsDistinct(init, s);
      DropMembers(init, s, x);
    }
  }

  lemma {:induction false} KeepIsDrop<T>(xs: seq<T>, s: set<T>, t: set<T>)
    requires forall x :: x in xs ==> (x in s <==> x !in t)
    ensures Keep(xs, s) == Drop(xs, t)
  {
    if xs != [] { KeepIsDrop(xs[..|xs| - 1], s, t); }
  }

  /** Dropping depends only on which members of the list are dropped. */
  lemma {:induction false} DropAgrees<T>(xs: seq<T>, s: set<T>, t: set<T>)
    requires forall x :: x in xs ==> (x in s <==> x in t)
    ensures Drop(xs, s) == Drop(xs, t)
  {
    if xs != [] { DropAgrees(xs[..|xs| - 1], s, t); }
  }

  lemma {:induction false} DropNothing<T>(xs: seq<T>, s: set<T>)
    requires forall x :: x in xs ==> x !in s
    ensures Drop(xs, s) == xs
  {
    if xs != [] { DropNothing(xs[..|xs| - 1], s); }
  }

  lemma {:induction false} DropEverything<T>(xs: seq<T>, s: set<T>)
    requires forall x :: x in xs ==> x in s
    ensures Drop(xs, s) == []
  {
    if xs != [] { DropEverything(xs[..|xs| - 1], s); }
  }

  lemma {:induction false} DropTwice<T>(xs: seq<T>, s: set<T>, t: set<T>)
    ensures Drop(Drop(xs, s), t) == Drop(xs, s + t)
  {
    if xs != [] {
      var init, x := xs[..|xs| - 1], xs[|xs| - 1];
      DropTwice(init, s, t);
      if x in s {
        assert Drop(xs, s) == Drop(init, s);
      } else {
        assert Drop(xs, s)[..|Drop(xs, s)| - 1] == Drop(init, s);
      }
    }
  }

  lemma {:induction false} DropConcat<T>(xs: seq<T>, ys: seq<T>, s: set<T>)
    ensures Drop(xs + ys, s) == Drop(xs, s) + Drop(ys, s)
    decreases |ys|
  {
    if ys == [] {
      assert xs + ys == xs;
    } else {
      assert (xs + ys)[..|xs + ys| - 1] == xs + ys[..|ys| - 1];
      DropConcat(xs, ys[..|ys| - 1], s);
    }
  }

  /** A distinct list splits into what is kept and what is dropped. */
  lemma {:induction false} DropCounts<T>(xs: seq<T>, s: set<T>)
    ensures |Keep(xs, s)| + |Drop(xs, s)| == |xs|
  {
    if xs != [] { DropCounts(xs[..|xs| - 1], s); }
  }

  lemma DistinctConcat<T>(xs: seq<T>, ys: seq<T>)
    requires Distinct(xs) && Distinct(ys) && forall x :: x in ys ==> x !in xs
    ensures Distinct(xs + ys)
  {
    forall i, j | 0 <= i < j < |xs + ys| ensures (xs + ys)[i] != (xs + ys)[j] {
      if i < |xs| <= j { assert ys[j - |xs|] in ys && xs[i] in xs; }
    }
  }

  // ---------- the loops over such lists ----------

  /** The sets the program builds before it filters. */
  method ToSet<T(==)>(xs: seq<T>) returns (s: set<T>)
    ensures s == Elems(xs)
  {
    s := {};
    for i := 0 to |xs|
      invariant s == Elems(xs[..i])
    {
      s := s + {xs[i]};
      Snoc(xs[..i], xs[i], {});
      assert xs[..i + 1] == xs[..i] + [xs[i]];
    }
    assert xs[..|xs|] == xs;
  }

  /** Appends what has not been seen, with a growing set of what has. */
  method AppendUnseen<T(==)>(base: seq<T>, more: seq<T>) returns (merged: seq<T>)
    requires Distinct(more)
    ensures merged == base + Drop(more, Elems(base))
  {
    merged := base;
    var seen := ToSet(base);
    for i := 0 to |more|
      invariant merged == base + Drop(more[..i], Elems(base))
      invariant seen == Elems(base) + Elems(more[..i])
    {
      Snoc(more[..i], more[i], Elems(base));
      assert more[..i + 1] == more[..i] + [more[i]];
      assert more[i] !in more[..i];
      if more[i] !in seen {
        seen := seen + {more[i]};
        merged := merged + [more[i]];
      }
    }
    assert more[..|more|] == more;
  }

  /** Filters out what a set holds. */
  method FilterOut<T(==)>(xs: seq<T>, s: set<T>) returns (left: seq<T>)
    ensures left == Drop(xs, s)
    ensures forall x :: x in left <==> x in xs && x !in s
  {
    left := [];
    for i := 0 to |xs|
      invariant left == Drop(xs[..i], s)
    {
      Snoc(xs[..i], xs[i], s);
      assert xs[..i + 1] == xs[..i] + [xs[i]];
      if xs[i] !in s {
        left := left + [xs[i]];
      }
    }
    assert xs[..|xs|] == xs;
    forall x ensures x in left <==> x in xs && x !in s { DropMembers(xs, s, x); }
  }

  /** Keeps the first occurrence of everything. */
  method Unique<T(==)>(xs: seq<T>) returns (once: seq<T>)
    ensures once == Uniq(xs)
  {
    once := [];
    var seen: set<T> := {};
    for i := 0 to |xs|
      invariant once == Uniq(xs[..i])
      invariant forall x :: x in seen <==> x in xs[..i]
    {
      assert xs[..i + 1][..i] == xs[..i] && xs[..i + 1] == xs[..i] + [xs[i]];
      UniqMembers(xs[..i], xs[i]);
      if xs[i] !in seen {
        seen := seen + {xs[i]};
        once := once + [xs[i]];
      }
    }
    assert xs[..|xs|] == xs;
  }
}
