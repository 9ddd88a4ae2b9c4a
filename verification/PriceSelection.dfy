/** Choosing one price per model from the models.dev catalogue, where several providers may list the same model. */
module PriceSelection {
  import opened Options
  import opened RatioDifferences

  datatype Cost = Cost(input: Option<real>, output: Option<real>, cacheRead: Option<real>)

  datatype Candidate = Candidate(provider: string, input: real, output: Option<real>, cacheRead: Option<real>)

  type Catalogue = map<string, map<string, Cost>>   // provider, then model

  /** buildModelsDevCandidate: a usable price needs a non-negative input cost, a non-negative output cost if there is
      one, and an output cost of zero when the input is free. */
  function BuildCandidate(provider: string, cost: Cost): Option<Candidate> {
    if cost.input.None? || cost.input.value < 0.0 then None
    else if cost.output.Some? && cost.output.value < 0.0 then None
    else if cost.input.value == 0.0 && cost.output.Some? && cost.output.value > 0.0 then None
    else
      Some(Candidate(provider, cost.input.value, cost.output,
                     if cost.cacheRead.Some? && cost.cacheRead.value >= 0.0 then cost.cacheRead else None))
  }

  predicate ShouldReplace(current: Candidate, next: Candidate) {
    var currentNonZero, nextNonZero := current.input > 0.0, next.input > 0.0;
    if currentNonZero != nextNonZero then nextNonZero
    else if nextNonZero && !NearlyEqual(next.input, current.input) then next.input < current.input
    else Less(next.provider, current.provider)
  }

  // ---------- the order of names ----------

  predicate Less(a: string, b: string) {
    b != "" && (a == "" || a[0] < b[0] || (a[0] == b[0] && Less(a[1..], b[1..])))
  }

  /** The first difference decides, and a prefix comes first. */
  ghost predicate DiffersAt(a: string, b: string, k: nat) {
    k <= |a| && k < |b| && a[..k] == b[..k] && (k == |a| || a[k] < b[k])
  }

  lemma {:induction false} LessIsLexicographic(a: string, b: string)
    ensures Less(a, b) <==> exists k: nat :: DiffersAt(a, b, k)
  {
    if a != "" && b != "" && a[0] == b[0] {
      LessIsLexicographic(a[1..], b[1..]);
      if Less(a, b) {
        var k: nat :| DiffersAt(a[1..], b[1..], k);
        assert a[..k + 1] == [a[0]] + a[1..][..k] && b[..k + 1] == [b[0]] + b[1..][..k];
        assert DiffersAt(a, b, k + 1);
      }
      if k: nat :| DiffersAt(a, b, k) {
        FirstDifference(a, b, k);
      }
    } else if Less(a, b) {
      assert DiffersAt(a, b, 0);
    } else if k: nat :| DiffersAt(a, b, k) {
      DifferenceAtStart(a, b, k);
    }
  }

  lemma FirstDifference(a: string, b: string, k: nat)
    requires DiffersAt(a, b, k) && a != "" && b != "" && a[0] == b[0]
    ensures k > 0 && DiffersAt(a[1..], b[1..], k - 1)
  {
    assert a[1..][..k - 1] == a[..k][1..] && b[1..][..k - 1] == b[..k][1..];
  }

  lemma DifferenceAtStart(a: string, b: string, k: nat)
    requires DiffersAt(a, b, k) && (a == "" || a[0] != b[0])
    ensures Less(a, b)
  {
    SameStart(a, b, k);
  }

  lemma SameStart(a: string, b: string, k: nat)
    requires k <= |a| && k <= |b| && a[..k] == b[..k]
    ensures k > 0 ==> a[0] == b[0]
  {
    if k > 0 { assert a[..k][0] == a[0] && b[..k][0] == b[0]; }
  }

  lemma {:induction false} LessIsStrict(a: string, b: string)
    ensures Less(a, b) ==> !Less(b, a) && a != b
    ensures Less(a, b) || Less(b, a) || a == b
  {
    if a != "" && b != "" && a[0] == b[0] {
      LessIsStrict(a[1..], b[1..]);
      if a[1..] == b[1..] { assert a == [a[0]] + a[1..] && b == [b[0]] + b[1..]; }
    }
  }

  lemma {:induction false} LessIsTransitive(a: string, b: string, c: string)
    requires Less(a, b) && Less(b, c)
    ensures Less(a, c)
  {
    if a != "" && a[0] == b[0] == c[0] { LessIsTransitive(a[1..], b[1..], c[1..]); }
  }

  ghost predicate Sorted(names: seq<string>) {
    forall i, j :: 0 <= i < j < |names| ==> Less(names[i], names[j])
  }

  ghost predicate IsLeast(s: set<string>, x: string) {
    x in s && forall y :: y in s && y != x ==> Less(x, y)
  }

  lemma {:induction false} LeastExists(s: set<string>) returns (x: string)
    requires s != {}
    ensures IsLeast(s, x)
    decreases |s|
  {
    x :| x in s;
    if s != {x} {
      assert |s - {x}| < |s|;
      var y := LeastExists(s - {x});
      LessIsStrict(x, y);
      if Less(y, x) {
        x := y;
      } else {
        forall z | z in s && z != x ensures Less(x, z) {
          if z != y { LessIsTransitive(x, y, z); }
        }
      }
    }
  }

  /** The keys in increasing order, as the library sorts them. */
  method SortedKeys(s: set<string>) returns (names: seq<string>)
    ensures Sorted(names) && forall x :: x in names <==> x in s
  {
    names := [];
    var rest := s;
    while rest != {}
      invariant rest <= s && Sorted(names)
      invariant forall x :: x in names <==> x in s - rest
      invariant forall x, y :: x in names && y in rest ==> Less(x, y)
      decreases |rest|
    {
      ghost var least := LeastExists(rest);
      var x :| x in rest && forall y :: y in rest && y != x ==> Less(x, y);
      rest := rest - {x};
      names := names + [x];
    }
  }

  // ---------- selection ----------

  function CandidateOf(catalogue: Catalogue, provider: string, model: string): Option<Candidate> {
    if provider in catalogue && model in catalogue[provider] then BuildCandidate(provider, catalogue[provider][model])
    else None
  }

  function Better(current: Option<Candidate>, next: Option<Candidate>): Option<Candidate> {
    if next.None? then current
    else if current.None? || ShouldReplace(current.value, next.value) then next
    else current
  }

  /** The candidate left for a model after the providers in this order. */
  function Pick(catalogue: Catalogue, providers: seq<string>, model: string): Option<Candidate> {
    if providers == [] then None
    else
      Better(Pick(catalogue, providers[..|providers| - 1], model), CandidateOf(catalogue, providers[|providers| - 1], model))
  }

  function Held(selected: map<string, Candidate>, model: string): Option<Candidate> {
    if model in selected then Some(selected[model]) else None
  }

  method SelectFromProvider(catalogue: Catalogue, provider: string, before: map<string, Candidate>)
    returns (selected: map<string, Candidate>)
    requires provider in catalogue
    ensures forall m :: Held(selected, m) == Better(Held(before, m), CandidateOf(catalogue, provider, m))
  {
    selected := before;
    var models := catalogue[provider];
    var names := SortedKeys(models.Keys);
    for i := 0 to |names|
      invariant forall m :: Held(selected, m) ==
                  if m in names[..i] then Better(Held(before, m), CandidateOf(catalogue, provider, m)) else Held(before, m)
    {
      var m := names[i];
      DistinctSoFar(names, i);
      assert names[..i + 1] == names[..i] + [m];
      var candidate := BuildCandidate(provider, models[m]);
      if candidate.Some? {
        if m !in selected || ShouldReplace(selected[m], candidate.value) {
          selected := selected[m := candidate.value];
        }
      }
    }
    assert names[..|names|] == names;
  }

  lemma DistinctSoFar(names: seq<string>, i: nat)
    requires Sorted(names) && i < |names|
    ensures names[i] !in names[..i]
  {
    forall j | 0 <= j < i ensures names[j] != names[i] { LessIsStrict(names[j], names[i]); }
  }

  method SelectCandidates(catalogue: Catalogue)
    returns (selected: map<string, Candidate>, order: seq<string>)
    ensures Sorted(order) && forall p :: p in order <==> p in catalogue
    ensures forall m :: Held(selected, m) == Pick(catalogue, order, m)
    ensures forall m :: WellPicked(catalogue, order, m, Held(selected, m))
  {
    var providers := SortedKeys(catalogue.Keys);
    order := providers;
    selected := map[];
    for i := 0 to |providers|
      invariant forall m :: Held(selected, m) == Pick(catalogue, providers[..i], m)
    {
      assert providers[..i + 1][..i] == providers[..i];
      selected := SelectFromProvider(catalogue, providers[i], selected);
    }
    assert providers[..|providers|] == providers;
    forall m
      ensures WellPicked(catalogue, order, m, Held(selected, m))
    {
      PickIsCheapest(catalogue, order, m);
    }
  }

  // ---------- what is selected ----------

  /** `c` is what some provider of the list offers. */
  ghost predicate Offered(catalogue: Catalogue, providers: seq<string>, model: string, c: Candidate) {
    exists i :: 0 <= i < |providers| && CandidateOf(catalogue, providers[i], model) == Some(c)
  }

  /** The selection for a model: none without an offer; otherwise an offer that is free only if every offer is, and
      whose price is less than epsilon above that of any priced offer; among equally priced offers, the first
      provider's. */
  ghost predicate WellPicked(catalogue: Catalogue, providers: seq<string>, model: string, pick: Option<Candidate>) {
    match pick
    case None => forall c :: !Offered(catalogue, providers, model, c)
    case Some(c) =>
      && Offered(catalogue, providers, model, c) && c.input >= 0.0
      && (forall o :: Offered(catalogue, providers, model, o) && o.input > 0.0 ==>
            c.input > 0.0 && c.input < o.input + EPSILON)
      && (forall o :: Offered(catalogue, providers, model, o) && o.input == c.input && o != c ==>
            Less(c.provider, o.provider))
  }

  /** What a provider offers for a model: its input cost, which must be there and not negative; its output cost, if any,
      which must not be negative, nor positive when the input is free; and its cache cost, if it is not negative. */
  lemma OfferIff(catalogue: Catalogue, p: string, model: string, c: Candidate)
    ensures CandidateOf(catalogue, p, model) == Some(c) <==>
              && p in catalogue && model in catalogue[p] && c.provider == p
              && catalogue[p][model].input == Some(c.input) && c.input >= 0.0
              && catalogue[p][model].output == c.output
              && (c.output.Some? ==> c.output.value >= 0.0 && (c.input == 0.0 ==> c.output.value == 0.0))
              && (match catalogue[p][model].cacheRead
                  case None => c.cacheRead.None?
                  case Some(v) => c.cacheRead == if v >= 0.0 then Some(v) else None)
  {
  }

  lemma OfferedNext(catalogue: Catalogue, providers: seq<string>, p: string, model: string, c: Candidate)
    ensures Offered(catalogue, providers + [p], model, c) <==>
            Offered(catalogue, providers, model, c) || CandidateOf(catalogue, p, model) == Some(c)
  {
    var now := providers + [p];
    if Offered(catalogue, providers, model, c) {
      var i :| 0 <= i < |providers| && CandidateOf(catalogue, providers[i], model) == Some(c);
      assert now[i] == providers[i];
    }
    assert now[|providers|] == p;
  }

  lemma OfferProvider(catalogue: Catalogue, providers: seq<string>, p: string, model: string, c: Candidate)
    requires Sorted(providers + [p]) && Offered(catalogue, providers, model, c)
    ensures Less(c.provider, p) && !Less(p, c.provider) && c.input >= 0.0
  {
    var i :| 0 <= i < |providers| && CandidateOf(catalogue, providers[i], model) == Some(c);
    assert (providers + [p])[i] == providers[i] && (providers + [p])[|providers|] == p;
    LessIsStrict(providers[i], p);
  }

  lemma BetterIsWellPicked(catalogue: Catalogue, providers: seq<string>, p: string, model: string, before: Option<Candidate>)
    requires Sorted(providers + [p]) && WellPicked(catalogue, providers, model, before)
    ensures WellPicked(catalogue, providers + [p], model, Better(before, CandidateOf(catalogue, p, model)))
  {
    forall c
      ensures Offered(catalogue, providers + [p], model, c) <==>
              Offered(catalogue, providers, model, c) || CandidateOf(catalogue, p, model) == Some(c)
      ensures Offered(catalogue, providers, model, c) ==> Less(c.provider, p) && !Less(p, c.provider) && c.input >= 0.0
    {
      OfferedNext(catalogue, providers, p, model, c);
      if Offered(catalogue, providers, model, c) { OfferProvider(catalogue, providers, p, model, c); }
    }
  }

  /** For every catalogue, the price selected for a model is non-zero whenever some usable offer is, and then it is
      less than epsilon above the cheapest non-zero one, although near-equality is not transitive. */
  lemma {:induction false} PickIsCheapest(catalogue: Catalogue, providers: seq<string>, model: string)
    requires Sorted(providers)
    ensures WellPicked(catalogue, providers, model, Pick(catalogue, providers, model))
  {
    if providers != [] {
      var init, p := providers[..|providers| - 1], providers[|providers| - 1];
      PickIsCheapest(catalogue, init, model);
      assert providers == init + [p];
      BetterIsWellPicked(catalogue, init, p, model, Pick(catalogue, init, model));
    }
  }

  lemma LastIsGreatest(a: seq<string>, x: string)
    requires a != [] && Sorted(a) && x in a && x != a[|a| - 1]
    ensures Less(x, a[|a| - 1]) && !Less(a[|a| - 1], x)
  {
    var i :| 0 <= i < |a| && a[i] == x;
    LessIsStrict(x, a[|a| - 1]);
  }

  lemma InitMembers(a: seq<string>, x: string)
    requires a != [] && Sorted(a)
    ensures x in a[..|a| - 1] <==> x in a && x != a[|a| - 1]
  {
    if x in a[..|a| - 1] {
      var i :| 0 <= i < |a| - 1 && a[i] == x;
      LessIsStrict(a[i], a[|a| - 1]);
    }
  }

  lemma {:induction false} SortedIsUnique(a: seq<string>, b: seq<string>)
    requires Sorted(a) && Sorted(b) && forall x :: x in a <==> x in b
    ensures a == b
  {
    assert b != [] ==> b[0] in a;
    assert a != [] ==> a[0] in b;
    if a != [] {
      var m, n := a[|a| - 1], b[|b| - 1];
      assert m in b && n in a;
      if m != n {
        LastIsGreatest(a, n);
        LastIsGreatest(b, m);
      }
      var c, d := a[..|a| - 1], b[..|b| - 1];
      forall x ensures x in c <==> x in d {
        InitMembers(a, x);
        InitMembers(b, x);
      }
      SortedIsUnique(c, d);
    }
  }

  /** The selection does not depend on the order in which a map yields its providers. */
  lemma SelectionIsDeterministic(catalogue: Catalogue, order: seq<string>, other: seq<string>, model: string)
    requires Sorted(order) && Sorted(other)
    requires forall p :: p in order <==> p in catalogue
    requires forall p :: p in other <==> p in catalogue
    ensures Pick(catalogue, order, model) == Pick(catalogue, other, model)
  {
    SortedIsUnique(order, other);
  }
}
