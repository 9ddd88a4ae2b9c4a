/** Ordered, duplicate-free lists of model names: normalization and the list algebra over it. */
module ModelNames {
  import opened Lists
  import Delimited

  // ---------- trimming ----------

  /** White space as the Go library trims it. */
  predicate IsSpace(c: char) {
    || '\t' <= c <= '\r' || c == ' ' || c == '\U{85}' || c == '\U{A0}' || c == '\U{1680}'
    || '\U{2000}' <= c <= '\U{200A}' || c == '\U{2028}' || c == '\U{2029}' || c == '\U{202F}' || c == '\U{205F}'
    || c == '\U{3000}'
  }

  function TrimStart(s: string): string {
    if s != "" && IsSpace(s[0]) then TrimStart(s[1..]) else s
  }

  function TrimEnd(s: string): string {
    if s != "" && IsSpace(s[|s| - 1]) then TrimEnd(s[..|s| - 1]) else s
  }

  function TrimSpace(s: string): string {
    TrimEnd(TrimStart(s))
  }

  ghost predicate Trimmed(s: string) {
    s != "" ==> !IsSpace(s[0]) && !IsSpace(s[|s| - 1])
  }

  lemma {:induction false} TrimStartTrims(s: string)
    ensures TrimStart(s) != "" ==> !IsSpace(TrimStart(s)[0])
  {
    if s != "" && IsSpace(s[0]) { TrimStartTrims(s[1..]); }
  }

  lemma {:induction false} TrimEndTrims(s: string)
    ensures TrimEnd(s) <= s && (TrimEnd(s) != "" ==> !IsSpace(TrimEnd(s)[|TrimEnd(s)| - 1]))
  {
    if s != "" && IsSpace(s[|s| - 1]) { TrimEndTrims(s[..|s| - 1]); }
  }

  lemma TrimSpaceTrims(s: string)
    ensures Trimmed(TrimSpace(s))
    ensures Trimmed(s) ==> TrimSpace(s) == s
  {
    TrimStartTrims(s);
    TrimEndTrims(TrimStart(s));
  }

  // ---------- normalization ----------

  /** A clean list holds trimmed, non-empty names without repetition. */
  ghost predicate Clean(xs: seq<string>) {
    Distinct(xs) && forall x :: x in xs ==> x != "" && Trimmed(x)
  }

  function NonBlank(models: seq<string>): seq<string> {
    if models == [] then []
    else
      var trimmed := TrimSpace(models[|models| - 1]);
      NonBlank(models[..|models| - 1]) + if trimmed != "" then [trimmed] else []
  }

  function Normalize(models: seq<string>): seq<string> {
    Uniq(NonBlank(models))
  }

  lemma {:induction false} NonBlankTrims(models: seq<string>, x: string)
    requires x in NonBlank(models)
    ensures x != "" && Trimmed(x)
  {
    var init, last := models[..|models| - 1], models[|models| - 1];
    TrimSpaceTrims(last);
    if x in NonBlank(init) { NonBlankTrims(init, x); }
  }

  lemma {:induction false} NonBlankOfClean(models: seq<string>)
    requires forall i :: 0 <= i < |models| ==> models[i] != "" && Trimmed(models[i])
    ensures NonBlank(models) == models
  {
    if models != [] {
      NonBlankOfClean(models[..|models| - 1]);
      TrimSpaceTrims(models[|models| - 1]);
    }
  }

  /** Normalizing gives a clean list, and leaves a clean list as it is. */
  lemma NormalizeCleans(models: seq<string>)
    ensures Clean(Normalize(models))
    ensures Clean(models) ==> Normalize(models) == models
  {
    UniqIsDistinct(NonBlank(models));
    forall x | x in Normalize(models) ensures x != "" && Trimmed(x) {
      UniqMembers(NonBlank(models), x);
      NonBlankTrims(models, x);
    }
    if Clean(models) {
      assert forall i :: 0 <= i < |models| ==> models[i] in models;
      NonBlankOfClean(models);
    }
  }

  // ---------- what normalizing keeps ----------

  ghost predicate AllSpace(s: string) {
    forall i :: 0 <= i < |s| ==> IsSpace(s[i])
  }

  ghost predicate Between(s: string, a: string, x: string, b: string) {
    s == a + x + b && AllSpace(a) && AllSpace(b)
  }

  /** The name stands in the string between white space, and neither begins nor ends with any. */
  ghost predicate IsTrimOf(x: string, s: string) {
    (x != "" ==> !IsSpace(x[0]) && !IsSpace(x[|x| - 1])) && exists a, b :: Between(s, a, x, b)
  }

  lemma {:induction false} TrimStartStrips(s: string) returns (a: string)
    ensures s == a + TrimStart(s) && AllSpace(a)
  {
    a := "";
    if s != "" && IsSpace(s[0]) {
      var rest := TrimStartStrips(s[1..]);
      a := [s[0]] + rest;
      assert s == [s[0]] + s[1..];
    }
  }

  lemma {:induction false} TrimEndStrips(s: string) returns (b: string)
    ensures s == TrimEnd(s) + b && AllSpace(b)
  {
    b := "";
    if s != "" && IsSpace(s[|s| - 1]) {
      var rest := TrimEndStrips(s[..|s| - 1]);
      b := rest + [s[|s| - 1]];
      assert s == s[..|s| - 1] + [s[|s| - 1]];
    }
  }

  lemma {:induction false} TrimStartSkips(a: string, y: string)
    requires AllSpace(a) && (y != "" ==> !IsSpace(y[0]))
    ensures TrimStart(a + y) == y
  {
    if a == "" {
      assert a + y == y;
    } else {
      assert (a + y)[0] == a[0] && (a + y)[1..] == a[1..] + y;
      TrimStartSkips(a[1..], y);
    }
  }

  lemma {:induction false} TrimEndSkips(y: string, b: string)
    requires AllSpace(b) && (y != "" ==> !IsSpace(y[|y| - 1]))
    ensures TrimEnd(y + b) == y
    decreases |b|
  {
    if b == "" {
      assert y + b == y;
    } else {
      assert (y + b)[|y + b| - 1] == b[|b| - 1] && (y + b)[..|y + b| - 1] == y + b[..|b| - 1];
      TrimEndSkips(y, b[..|b| - 1]);
    }
  }

  /** Trimming a string gives what stands in it between white space, and nothing else does. */
  lemma TrimSpaceIsTheTrim(s: string, x: string)
    ensures IsTrimOf(x, s) <==> x == TrimSpace(s)
  {
    var a := TrimStartStrips(s);
    var b := TrimEndStrips(TrimStart(s));
    TrimSpaceTrims(s);
    assert Between(s, a, TrimSpace(s), b);
    if IsTrimOf(x, s) {
      var c, d :| Between(s, c, x, d);
      TrimFound(s, c, x, d);
    }
  }

  lemma TrimFound(s: string, c: string, x: string, d: string)
    requires Between(s, c, x, d) && (x != "" ==> !IsSpace(x[0]) && !IsSpace(x[|x| - 1]))
    ensures TrimSpace(s) == x
  {
    if x == "" {
      assert s == (c + d) + "";
      TrimStartSkips(c + d, "");
    } else {
      assert s == c + (x + d);
      TrimStartSkips(c, x + d);
      TrimEndSkips(x, d);
    }
  }

  lemma {:induction false} NonBlankMembers(xs: seq<string>, x: string)
    ensures x in NonBlank(xs) <==> x != "" && exists i :: 0 <= i < |xs| && x == TrimSpace(xs[i])
  {
    if xs != [] {
      var init := xs[..|xs| - 1];
      NonBlankMembers(init, x);
      if i :| 0 <= i < |init| && x == TrimSpace(init[i]) { assert x == TrimSpace(xs[i]); }
      if i :| 0 <= i < |xs| - 1 && x == TrimSpace(xs[i]) { assert x == TrimSpace(init[i]); }
    }
  }

  lemma NonBlankAreTrims(xs: seq<string>, x: string)
    ensures x in NonBlank(xs) <==> x != "" && exists i :: 0 <= i < |xs| && IsTrimOf(x, xs[i])
  {
    NonBlankMembers(xs, x);
    forall i | 0 <= i < |xs| ensures IsTrimOf(x, xs[i]) <==> x == TrimSpace(xs[i]) { TrimSpaceIsTheTrim(xs[i], x); }
  }

  /** Normalizing keeps exactly the names that stand, trimmed, in some entry of the list. */
  lemma NormalizeMembers(xs: seq<string>, x: string)
    ensures x in Normalize(xs) <==> x != "" && exists i :: 0 <= i < |xs| && IsTrimOf(x, xs[i])
  {
    UniqMembers(NonBlank(xs), x);
    NonBlankAreTrims(xs, x);
  }

  lemma NormalizeNext(xs: seq<string>)
    requires xs != []
    ensures var names, t := Normalize(xs[..|xs| - 1]), TrimSpace(xs[|xs| - 1]);
            Normalize(xs) == if t == "" || t in names then names else names + [t]
  {
    var kept, t := NonBlank(xs[..|xs| - 1]), TrimSpace(xs[|xs| - 1]);
    if t == "" {
      assert NonBlank(xs) == kept + [] == kept;
    } else {
      assert NonBlank(xs) == kept + [t];
      assert (kept + [t])[..|kept + [t]| - 1] == kept;
    }
  }

  /** And it keeps them in the order of their first occurrences: some entry gives the earlier name, and neither it nor
      any entry before it gives the later one. */
  lemma {:induction false} NormalizeOrder(xs: seq<string>, p: nat, q: nat) returns (i: nat)
    requires p < q < |Normalize(xs)|
    ensures i < |xs| && IsTrimOf(Normalize(xs)[p], xs[i])
    ensures forall j :: 0 <= j <= i ==> !IsTrimOf(Normalize(xs)[q], xs[j])
  {
    var init := xs[..|xs| - 1];
    NormalizeNext(xs);
    if q < |Normalize(init)| {
      i := NormalizeOrder(init, p, q);
      assert forall j :: 0 <= j <= i ==> xs[j] == init[j];
    } else {
      var x, y := Normalize(xs)[p], Normalize(xs)[q];
      NormalizeMembers(init, x);
      NormalizeMembers(init, y);
      i :| 0 <= i < |init| && IsTrimOf(x, init[i]);
      forall j | 0 <= j <= i ensures !IsTrimOf(y, xs[j]) { assert xs[j] == init[j]; }
    }
  }

  // ---------- normalizing introduces no delimiter ----------

  lemma {:induction false} TrimStartIsFree(s: string, sep: char)
    requires Delimited.Free(s, sep)
    ensures Delimited.Free(TrimStart(s), sep)
  {
    if s != "" && IsSpace(s[0]) { TrimStartIsFree(s[1..], sep); }
  }

  lemma TrimSpaceIsFree(s: string, sep: char)
    requires Delimited.Free(s, sep)
    ensures Delimited.Free(TrimSpace(s), sep)
  {
    TrimEndTrims(TrimStart(s));
    TrimStartIsFree(s, sep);
  }

  lemma {:induction false} NonBlankIsFree(xs: seq<string>, sep: char)
    requires Delimited.AllFree(xs, sep)
    ensures forall x :: x in NonBlank(xs) ==> Delimited.Free(x, sep)
  {
    if xs != [] {
      NonBlankIsFree(xs[..|xs| - 1], sep);
      TrimSpaceIsFree(xs[|xs| - 1], sep);
    }
  }

  lemma NormalizeIsFree(xs: seq<string>, sep: char)
    requires Delimited.AllFree(xs, sep)
    ensures forall x :: x in Normalize(xs) ==> Delimited.Free(x, sep)
  {
    NonBlankIsFree(xs, sep);
    forall x | x in Normalize(xs) ensures Delimited.Free(x, sep) { UniqMembers(NonBlank(xs), x); }
  }

  // ---------- the list algebra, as specifications ----------

  function Merge(base: seq<string>, appended: seq<string>): seq<string> {
    Normalize(base) + Drop(Normalize(appended), Elems(Normalize(base)))
  }

  function Subtract(base: seq<string>, removed: seq<string>): seq<string> {
    Drop(Normalize(base), Elems(Normalize(removed)))
  }

  function Intersect(base: seq<string>, allowed: seq<string>): seq<string> {
    Keep(Normalize(base), Elems(Normalize(allowed)))
  }

  function ApplySelected(origin: seq<string>, add: seq<string>, remove: seq<string>): seq<string> {
    Subtract(Merge(origin, Normalize(add)), Subtract(Normalize(remove), Normalize(add)))
  }

  lemma DropIsClean(xs: seq<string>, s: set<string>)
    requires Clean(xs)
    ensures Clean(Drop(xs, s))
  {
    DropIsDistinct(xs, s);
    forall x | x in Drop(xs, s) ensures x in xs { DropMembers(xs, s, x); }
  }

  lemma SubtractFacts(base: seq<string>, removed: seq<string>)
    ensures Clean(Subtract(base, removed))
    ensures forall x :: x in Subtract(base, removed) <==> x in Normalize(base) && x !in Normalize(removed)
  {
    NormalizeCleans(base);
    DropIsClean(Normalize(base), Elems(Normalize(removed)));
    forall x ensures x in Subtract(base, removed) <==> x in Normalize(base) && x !in Normalize(removed) {
      DropMembers(Normalize(base), Elems(Normalize(removed)), x);
    }
  }

  lemma IntersectFacts(base: seq<string>, allowed: seq<string>)
    ensures Clean(Intersect(base, allowed))
    ensures forall x :: x in Intersect(base, allowed) <==> x in Normalize(base) && x in Normalize(allowed)
  {
    NormalizeCleans(base);
    var xs, s := Normalize(base), Elems(Normalize(allowed));
    KeepIsDrop(xs, s, Elems(xs) - s);
    DropIsClean(xs, Elems(xs) - s);
    forall x ensures x in Intersect(base, allowed) <==> x in Normalize(base) && x in Normalize(allowed) {
      DropMembers(xs, Elems(xs) - s, x);
    }
  }

  lemma MergeFacts(base: seq<string>, appended: seq<string>)
    ensures Clean(Merge(base, appended))
    ensures forall x :: x in Merge(base, appended) <==> x in Normalize(base) || x in Normalize(appended)
  {
    var xs, ys := Normalize(base), Normalize(appended);
    NormalizeCleans(base);
    NormalizeCleans(appended);
    DropIsClean(ys, Elems(xs));
    forall x ensures x in Drop(ys, Elems(xs)) <==> x in ys && x !in xs { DropMembers(ys, Elems(xs), x); }
    DistinctConcat(xs, Drop(ys, Elems(xs)));
  }

  /** Adding wins over removing, survivors keep their order, and additions follow in their own order. */
  lemma ApplySelectedFacts(origin: seq<string>, add: seq<string>, remove: seq<string>)
    requires Clean(origin) && Clean(add) && Clean(remove)
    ensures ApplySelected(origin, add, remove)
            == Drop(origin, Elems(remove) - Elems(add)) + Drop(add, Elems(origin))
    ensures Clean(ApplySelected(origin, add, remove))
  {
    NormalizeCleans(origin);
    NormalizeCleans(add);
    NormalizeCleans(remove);
    MergeFacts(origin, add);
    NormalizeCleans(Merge(origin, add));
    SubtractFacts(remove, add);
    var gone := Subtract(remove, add);
    NormalizeCleans(gone);
    SubtractFacts(Merge(origin, add), gone);
    var extra := Drop(add, Elems(origin));
    DropConcat(origin, extra, Elems(gone));
    DropAgrees(origin, Elems(gone), Elems(remove) - Elems(add));
    forall x | x in extra ensures x !in Elems(gone) { DropMembers(add, Elems(origin), x); }
    DropNothing(extra, Elems(gone));
  }

  // ---------- the loops of the program ----------

  /** Trims every name, leaves out the blank ones and then the repeated ones. */
  method NormalizeModelNames(models: seq<string>) returns (names: seq<string>)
    ensures names == Normalize(models)
    ensures Clean(names)
    ensures forall x :: x in names <==> x != "" && exists i :: 0 <= i < |models| && IsTrimOf(x, models[i])
  {
    var kept: seq<string> := [];
    for i := 0 to |models|
      invariant kept == NonBlank(models[..i])
    {
      assert models[..i + 1][..i] == models[..i];
      var trimmed := TrimSpace(models[i]);
      if trimmed != "" {
        kept := kept + [trimmed];
      }
    }
    assert models[..|models|] == models;
    names := Unique(kept);
    NormalizeCleans(models);
    forall x ensures x in names <==> x != "" && exists i :: 0 <= i < |models| && IsTrimOf(x, models[i]) {
      NormalizeMembers(models, x);
    }
  }

  method MergeModelNames(base: seq<string>, appended: seq<string>) returns (merged: seq<string>)
    ensures merged == Merge(base, appended)
  {
    var names := NormalizeModelNames(base);
    var more := NormalizeModelNames(appended);
    merged := AppendUnseen(names, more);
  }

  /** The names of `base` that are not removed, each once, in their order. */
  method SubtractModelNames(base: seq<string>, removed: seq<string>) returns (left: seq<string>)
    ensures left == Subtract(base, removed)
    ensures Clean(left) && forall x :: x in left <==> x in Normalize(base) && x !in Normalize(removed)
  {
    var gone := NormalizeModelNames(removed);
    var removeSet := ToSet(gone);
    var names := NormalizeModelNames(base);
    left := FilterOut(names, removeSet);
    SubtractFacts(base, removed);
  }

  /** The names of `base` that are allowed, each once, in their order. */
  method IntersectModelNames(base: seq<string>, allowed: seq<string>) returns (common: seq<string>)
    ensures common == Intersect(base, allowed)
    ensures Clean(common) && forall x :: x in common <==> x in Normalize(base) && x in Normalize(allowed)
  {
    var permitted := NormalizeModelNames(allowed);
    var allowedSet := ToSet(permitted);
    var names := NormalizeModelNames(base);
    common := [];
    for i := 0 to |names|
      invariant common == Keep(names[..i], allowedSet)
    {
      assert names[..i + 1][..i] == names[..i];
      if names[i] in allowedSet {
        common := common + [names[i]];
      }
    }
    assert names[..|names|] == names;
    IntersectFacts(base, allowed);
  }

  method ApplySelectedModelChanges(origin: seq<string>, add: seq<string>, remove: seq<string>)
    returns (next: seq<string>)
    ensures next == ApplySelected(origin, add, remove)
  {
    var normalizedAdd := NormalizeModelNames(add);
    var normalizedRemove := NormalizeModelNames(remove);
    normalizedRemove := SubtractModelNames(normalizedRemove, normalizedAdd);
    var merged := MergeModelNames(origin, normalizedAdd);
    next := SubtractModelNames(merged, normalizedRemove);
  }
}
