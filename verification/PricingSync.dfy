/** Synchronizing pricing options from an upstream site: a merge into six option maps, preceded by a backup, and
    restoring a backup.  Each backup is a snapshot of all six maps; the newest comes first and twenty are kept. */
module PricingSync {
  import opened Options

  const MAX_BACKUPS: nat := 20

  type Ratios = map<string, real>

  datatype Settings = Settings(
    modelRatio: Ratios, completionRatio: Ratios, modelPrice: Ratios, groupRatio: Ratios, cacheRatio: Ratios,
    createCacheRatio: Ratios)

  datatype PricedModel = PricedModel(
    name: string, quotaType: int, ratio: real, price: real, completion: real, cache: Option<real>, createCache: Option<real>)

  // ---------- merging ----------

  predicate IsPriced(m: PricedModel) {
    m.quotaType == 1 && m.price > 0.0
  }

  // what a model writes into each option map

  function RatioOf(m: PricedModel): Option<real> {
    if IsPriced(m) then None else Some(m.ratio)
  }

  function PriceOf(m: PricedModel): Option<real> {
    if IsPriced(m) then Some(m.price) else None
  }

  function CompletionOf(m: PricedModel): Option<real> {
    if m.completion != 0.0 && m.completion != 1.0 then Some(m.completion) else None
  }

  function CacheOf(m: PricedModel): Option<real> {
    m.cache
  }

  function CreateCacheOf(m: PricedModel): Option<real> {
    m.createCache
  }

  function Put(ratios: Ratios, name: string, v: Option<real>): Ratios {
    if v.Some? then ratios[name := v.value] else ratios
  }

  /** One option map after the models, in order. */
  function PutAll(ratios: Ratios, models: seq<PricedModel>, what: PricedModel -> Option<real>): Ratios {
    if models == [] then ratios
    else
      var m := models[|models| - 1];
      Put(PutAll(ratios, models[..|models| - 1], what), m.name, what(m))
  }

  function MergeModels(s: Settings, models: seq<PricedModel>): Settings {
    Settings(
      PutAll(s.modelRatio, models, RatioOf), PutAll(s.completionRatio, models, CompletionOf),
      PutAll(s.modelPrice, models, PriceOf), s.groupRatio,
      PutAll(s.cacheRatio, models, CacheOf),
      PutAll(s.createCacheRatio, models, CreateCacheOf))
  }

  function KnownNames(s: Settings): set<string> {
    s.modelRatio.Keys + s.modelPrice.Keys
  }

  predicate NonNegative(ratios: Ratios) {
    forall g :: g in ratios ==> ratios[g] >= 0.0
  }

  /** Writing all six options; a group map with a negative ratio is refused, the others are still written. */
  function Written(before: Settings, after: Settings): Settings {
    if NonNegative(after.groupRatio) then after else after.(groupRatio := before.groupRatio)
  }

  function Sync(s: Settings, models: seq<PricedModel>, groups: Ratios): Settings {
    if models == [] then s
    else
      var merged := MergeModels(s, models);
      Written(s, merged.(groupRatio := merged.groupRatio + groups))
  }

  function Truncated<T>(xs: seq<T>): seq<T> {
    if |xs| > MAX_BACKUPS then xs[..MAX_BACKUPS] else xs
  }

  // ---------- the handlers ----------

  function Merged(s: Settings, m: PricedModel): Settings {
    Settings(
      Put(s.modelRatio, m.name, RatioOf(m)), Put(s.completionRatio, m.name, CompletionOf(m)),
      Put(s.modelPrice, m.name, PriceOf(m)), s.groupRatio,
      Put(s.cacheRatio, m.name, m.cache), Put(s.createCacheRatio, m.name, m.createCache))
  }

  lemma MergedNames(s: Settings, m: PricedModel)
    ensures KnownNames(Merged(s, m)) == KnownNames(s) + {m.name}
  {
    if IsPriced(m) {
      assert Merged(s, m).modelPrice.Keys == s.modelPrice.Keys + {m.name};
    } else {
      assert Merged(s, m).modelRatio.Keys == s.modelRatio.Keys + {m.name};
    }
  }

  lemma MergeModelsStep(s: Settings, models: seq<PricedModel>, i: nat)
    requires i < |models|
    ensures MergeModels(s, models[..i + 1]) == Merged(MergeModels(s, models[..i]), models[i])
  {
    assert models[..i + 1][..i] == models[..i];
  }

  method MergeOne(s: Settings, m: PricedModel) returns (r: Settings)
    ensures r == Merged(s, m)
  {
    var ratios, prices, completions := s.modelRatio, s.modelPrice, s.completionRatio;
    var caches, createCaches := s.cacheRatio, s.createCacheRatio;
    if m.quotaType == 1 && m.price > 0.0 {
      prices := prices[m.name := m.price];
    } else {
      ratios := ratios[m.name := m.ratio];
    }
    assert ratios == Put(s.modelRatio, m.name, RatioOf(m)) && prices == Put(s.modelPrice, m.name, PriceOf(m));
    if m.completion != 0.0 && m.completion != 1.0 {
      completions := completions[m.name := m.completion];
    }
    assert completions == Put(s.completionRatio, m.name, CompletionOf(m));
    if m.cache.Some? {
      caches := caches[m.name := m.cache.value];
    }
    assert caches == Put(s.cacheRatio, m.name, m.cache);
    if m.createCache.Some? {
      createCaches := createCaches[m.name := m.createCache.value];
    }
    r := Settings(ratios, completions, prices, s.groupRatio, caches, createCaches);
  }

  /** The merge loop.  A model counts as added when neither its ratio nor its price was known at that point, so the
      count is the number of names that become known. */
  method MergeLoop(s: Settings, models: seq<PricedModel>) returns (existing: Settings, added: nat, updated: nat)
    ensures existing == MergeModels(s, models)
    ensures added + updated == |models|
    ensures added == NewNames(s, existing)
  {
    existing, added, updated := s, 0, 0;
    NoNewNames(s);
    for i := 0 to |models|
      invariant existing == MergeModels(s, models[..i])
      invariant added + updated == i
      invariant KnownNames(s) <= KnownNames(existing) && added == NewNames(s, existing)
    {
      MergeModelsStep(s, models, i);
      NewNamesStep(s, existing, models[i]);
      if IsKnown(existing, models[i].name) {
        updated := updated + 1;
      } else {
        added := added + 1;
      }
      existing := MergeOne(existing, models[i]);
    }
    assert models[..|models|] == models;
  }

  /** How many names became known. */
  function NewNames(before: Settings, after: Settings): nat {
    |KnownNames(after) - KnownNames(before)|
  }

  lemma NoNewNames(s: Settings)
    ensures NewNames(s, s) == 0
  {
    assert KnownNames(s) - KnownNames(s) == {};
  }

  lemma NewNamesStep(s: Settings, existing: Settings, m: PricedModel)
    requires KnownNames(s) <= KnownNames(existing)
    ensures KnownNames(s) <= KnownNames(Merged(existing, m))
    ensures NewNames(s, Merged(existing, m)) == NewNames(s, existing) + if IsKnown(existing, m.name) then 0 else 1
  {
    MergedNames(existing, m);
    OneMoreName(KnownNames(s), KnownNames(existing), m.name);
  }

  predicate IsKnown(s: Settings, name: string)
    ensures IsKnown(s, name) <==> name in KnownNames(s)
  {
    name in s.modelRatio || name in s.modelPrice
  }

  lemma OneMoreName(was: set<string>, known: set<string>, name: string)
    requires was <= known
    ensures |known + {name} - was| == |known - was| + if name in known then 0 else 1
  {
    if name in known {
      assert known + {name} == known;
    } else {
      assert known + {name} - was == (known - was) + {name};
    }
  }

  class PricingOptions {
    var settings: Settings
    var backups: seq<Settings>

    constructor (settings: Settings)
      ensures this.settings == settings && backups == []
    {
      this.settings := settings;
      backups := [];
    }

    /** SyncUpstreamPricing on the models left after filtering. */
    method SyncUpstream(models: seq<PricedModel>, groups: Ratios) returns (added: nat, updated: nat)
      modifies this
      ensures settings == Sync(old(settings), models, groups)
      ensures backups == if models == [] then old(backups) else Truncated([old(settings)] + old(backups))
      ensures added + updated == |models|
    {
      added, updated := 0, 0;
      if |models| == 0 {
        return;
      }
      SaveBackup(settings);
      var existing;
      existing, added, updated := MergeLoop(settings, models);
      existing := existing.(groupRatio := existing.groupRatio + groups);
      settings := Written(settings, existing);
    }

    /** savePricingSyncBackup. */
    method SaveBackup(snapshot: Settings)
      modifies this`backups
      ensures backups == Truncated([snapshot] + old(backups))
    {
      backups := [snapshot] + backups;
      if |backups| > 20 {
        backups := backups[..20];
      }
    }

    /** RestorePricingSyncBackup. */
    method Restore(index: int) returns (ok: bool)
      modifies this`settings
      ensures ok <==> 0 <= index < |backups|
      ensures settings == if ok then Written(old(settings), backups[index]) else old(settings)
    {
      if index < 0 || index >= |backups| {
        return false;
      }
      settings := Written(settings, backups[index]);
      return true;
    }
  }

  // ---------- what a sync leaves ----------

  /** The last model of its name in the list. */
  predicate IsLast(models: seq<PricedModel>, i: int) {
    0 <= i < |models| && forall j :: i < j < |models| ==> models[j].name != models[i].name
  }

  lemma {:induction false} PutAllLast(a: Ratios, models: seq<PricedModel>, what: PricedModel -> Option<real>, i: nat)
    requires IsLast(models, i) && what(models[i]).Some?
    ensures models[i].name in PutAll(a, models, what)
    ensures PutAll(a, models, what)[models[i].name] == what(models[i]).value
  {
    if i < |models| - 1 {
      PutAllLast(a, models[..|models| - 1], what, i);
    }
  }

  lemma {:induction false} PutAllUnnamed(a: Ratios, models: seq<PricedModel>, what: PricedModel -> Option<real>, k: string)
    requires forall j :: 0 <= j < |models| && models[j].name == k ==> what(models[j]).None?
    ensures k in PutAll(a, models, what) <==> k in a
    ensures k in a ==> PutAll(a, models, what)[k] == a[k]
  {
    if models != [] {
      PutAllUnnamed(a, models[..|models| - 1], what, k);
    }
  }

  ghost predicate SameAt(a: Ratios, b: Ratios, k: string) {
    (k in a <==> k in b) && (k in a ==> a[k] == b[k])
  }

  lemma PutNothing(ratios: Ratios, what: PricedModel -> Option<real>)
    ensures PutAll(ratios, [], what) == ratios
  {
  }

  lemma SyncMaps(s: Settings, models: seq<PricedModel>, groups: Ratios)
    ensures Sync(s, models, groups) == MergeModels(s, models).(groupRatio := Sync(s, models, groups).groupRatio)
  {
    if models == [] {
      PutNothing(s.modelRatio, RatioOf);
      PutNothing(s.modelPrice, PriceOf);
      PutNothing(s.completionRatio, CompletionOf);
      PutNothing(s.cacheRatio, CacheOf);
      PutNothing(s.createCacheRatio, CreateCacheOf);
    }
  }

  /** The map has the value at the name, if there is a value. */
  ghost predicate Has(ratios: Ratios, name: string, v: Option<real>) {
    v.Some? ==> name in ratios && ratios[name] == v.value
  }

  lemma PutAllHas(a: Ratios, models: seq<PricedModel>, what: PricedModel -> Option<real>, i: nat)
    requires IsLast(models, i)
    ensures Has(PutAll(a, models, what), models[i].name, what(models[i]))
  {
    if what(models[i]).Some? { PutAllLast(a, models, what, i); }
  }

  /** The last upstream entry of a name decides its price, if it is priced, or else its ratio, and whatever else that
      entry gives. */
  lemma SyncFollowsUpstream(s: Settings, models: seq<PricedModel>, groups: Ratios, i: nat)
    requires IsLast(models, i)
    ensures var m, r := models[i], Sync(s, models, groups);
            && (if m.quotaType == 1 && m.price > 0.0 then Has(r.modelPrice, m.name, Some(m.price))
                else Has(r.modelRatio, m.name, Some(m.ratio)))
            && (m.completion !in {0.0, 1.0} ==> Has(r.completionRatio, m.name, Some(m.completion)))
            && Has(r.cacheRatio, m.name, m.cache) && Has(r.createCacheRatio, m.name, m.createCache)
  {
    SyncMaps(s, models, groups);
    PutAllHas(s.modelPrice, models, PriceOf, i);
    PutAllHas(s.modelRatio, models, RatioOf, i);
    PutAllHas(s.completionRatio, models, CompletionOf, i);
    PutAllHas(s.cacheRatio, models, CacheOf, i);
    PutAllHas(s.createCacheRatio, models, CreateCacheOf, i);
  }

  /** A name that upstream does not list keeps all its options. */
  lemma SyncKeepsUnlisted(s: Settings, models: seq<PricedModel>, groups: Ratios, k: string)
    requires forall j :: 0 <= j < |models| ==> models[j].name != k
    ensures var r := Sync(s, models, groups);
            && SameAt(r.modelRatio, s.modelRatio, k) && SameAt(r.modelPrice, s.modelPrice, k)
            && SameAt(r.completionRatio, s.completionRatio, k) && SameAt(r.cacheRatio, s.cacheRatio, k)
            && SameAt(r.createCacheRatio, s.createCacheRatio, k)
  {
    SyncMaps(s, models, groups);
    PutAllUnnamed(s.modelRatio, models, RatioOf, k);
    PutAllUnnamed(s.modelPrice, models, PriceOf, k);
    PutAllUnnamed(s.completionRatio, models, CompletionOf, k);
    PutAllUnnamed(s.cacheRatio, models, CacheOf, k);
    PutAllUnnamed(s.createCacheRatio, models, CreateCacheOf, k);
  }

  /** Every entry of the name satisfies the condition. */
  ghost predicate AllOf(models: seq<PricedModel>, k: string, p: PricedModel -> bool) {
    forall j :: 0 <= j < |models| && models[j].name == k ==> p(models[j])
  }

  /** A sync removes nothing, and writes no more than upstream says: the price of a name that upstream lists by ratio
      only stays, so does the ratio of one it lists by price only, a completion ratio it lists as 0 or 1, and a cache or
      cache-creation ratio it does not give. */
  lemma SyncKeepsOldValues(s: Settings, models: seq<PricedModel>, groups: Ratios, k: string)
    ensures AllOf(models, k, (m: PricedModel) => m.quotaType != 1 || m.price <= 0.0) ==>
              SameAt(Sync(s, models, groups).modelPrice, s.modelPrice, k)
    ensures AllOf(models, k, (m: PricedModel) => m.quotaType == 1 && m.price > 0.0) ==>
              SameAt(Sync(s, models, groups).modelRatio, s.modelRatio, k)
    ensures AllOf(models, k, (m: PricedModel) => m.completion == 0.0 || m.completion == 1.0) ==>
              SameAt(Sync(s, models, groups).completionRatio, s.completionRatio, k)
    ensures AllOf(models, k, (m: PricedModel) => m.cache.None?) ==>
              SameAt(Sync(s, models, groups).cacheRatio, s.cacheRatio, k)
    ensures AllOf(models, k, (m: PricedModel) => m.createCache.None?) ==>
              SameAt(Sync(s, models, groups).createCacheRatio, s.createCacheRatio, k)
  {
    SyncMaps(s, models, groups);
    if AllOf(models, k, (m: PricedModel) => m.quotaType != 1 || m.price <= 0.0) {
      PutAllUnnamed(s.modelPrice, models, PriceOf, k);
    }
    if AllOf(models, k, (m: PricedModel) => m.quotaType == 1 && m.price > 0.0) {
      PutAllUnnamed(s.modelRatio, models, RatioOf, k);
    }
    if AllOf(models, k, (m: PricedModel) => m.completion == 0.0 || m.completion == 1.0) {
      PutAllUnnamed(s.completionRatio, models, CompletionOf, k);
    }
    if AllOf(models, k, (m: PricedModel) => m.cache.None?) {
      PutAllUnnamed(s.cacheRatio, models, CacheOf, k);
    }
    if AllOf(models, k, (m: PricedModel) => m.createCache.None?) {
      PutAllUnnamed(s.createCacheRatio, models, CreateCacheOf, k);
    }
  }

  /** The requested group ratios are in force and every other group has kept its own. */
  ghost predicate GroupsFollow(before: Ratios, groups: Ratios, after: Ratios) {
    && (forall g :: g in after <==> g in before || g in groups)
    && (forall g :: g in groups && g in after ==> after[g] == groups[g])
    && (forall g :: g in before && g !in groups && g in after ==> after[g] == before[g])
  }

  /** A negative ratio is requested, or left over from before without being replaced. */
  ghost predicate NegativeGroup(before: Ratios, groups: Ratios) {
    (exists g :: g in groups && groups[g] < 0.0) || exists g :: g in before && g !in groups && before[g] < 0.0
  }

  /** The group ratios after a sync are as requested if and only if that leaves no negative one, or changes nothing; if
      not they are all as before.  Without models nothing is written. */
  lemma SyncedGroupsIff(s: Settings, models: seq<PricedModel>, groups: Ratios)
    ensures models == [] ==> Sync(s, models, groups) == s
    ensures models != [] ==>
              (GroupsFollow(s.groupRatio, groups, Sync(s, models, groups).groupRatio) <==>
                 !NegativeGroup(s.groupRatio, groups) || GroupsFollow(s.groupRatio, groups, s.groupRatio))
    ensures models != [] && NegativeGroup(s.groupRatio, groups) ==> Sync(s, models, groups).groupRatio == s.groupRatio
  {
    var wanted := s.groupRatio + groups;
    assert NonNegative(wanted) <==> !NegativeGroup(s.groupRatio, groups) by {
      if !NonNegative(wanted) {
        var g :| g in wanted && wanted[g] < 0.0;
        assert g in groups || g in s.groupRatio;
      }
      if g :| g in groups && groups[g] < 0.0 { assert wanted[g] == groups[g]; }
      if g :| g in s.groupRatio && g !in groups && s.groupRatio[g] < 0.0 { assert wanted[g] == s.groupRatio[g]; }
    }
    assert GroupsFollow(s.groupRatio, groups, wanted);
  }

  /** Some model of the name writes. */
  ghost predicate Writes(models: seq<PricedModel>, what: PricedModel -> Option<real>, k: string) {
    exists j :: 0 <= j < |models| && models[j].name == k && what(models[j]).Some?
  }

  lemma {:induction false} PutAllHasIff(a: Ratios, models: seq<PricedModel>, what: PricedModel -> Option<real>, k: string)
    ensures k in PutAll(a, models, what) <==> k in a || Writes(models, what, k)
  {
    if models != [] {
      var init, m := models[..|models| - 1], models[|models| - 1];
      PutAllHasIff(a, init, what, k);
      if Writes(init, what, k) {
        var j :| 0 <= j < |init| && init[j].name == k && what(init[j]).Some?;
        assert models[j] == init[j];
      }
      if Writes(models, what, k) && !(m.name == k && what(m).Some?) {
        var j :| 0 <= j < |models| && models[j].name == k && what(models[j]).Some?;
        assert init[j] == models[j];
      }
    }
  }

  /** How a model is billed: by its price if it has one, else by its ratio. */
  datatype Billed = ByPrice(price: real) | ByRatio(ratio: real) | Unknown

  function BilledBy(s: Settings, name: string): Billed {
    if name in s.modelPrice then ByPrice(s.modelPrice[name])
    else if name in s.modelRatio then ByRatio(s.modelRatio[name])
    else Unknown
  }

  /** What an upstream entry asks for. */
  function Asked(m: PricedModel): Billed {
    if IsPriced(m) then ByPrice(m.price) else ByRatio(m.ratio)
  }

  /** A sync removes nothing.  So a name ends billed as its last upstream entry says if and only if that entry has a
      price, or neither the settings nor any upstream entry of the name had one. */
  lemma BilledAsListedIff(s: Settings, models: seq<PricedModel>, groups: Ratios, i: nat)
    requires IsLast(models, i)
    ensures var m := models[i];
            BilledBy(Sync(s, models, groups), m.name) == Asked(m) <==>
              IsPriced(m) || (m.name !in s.modelPrice && !Writes(models, PriceOf, m.name))
  {
    SyncMaps(s, models, groups);
    SyncFollowsUpstream(s, models, groups, i);
    PutAllHasIff(s.modelPrice, models, PriceOf, models[i].name);
  }

  /** And an entry with completion 0 or 1 leaves the name without a completion ratio if and only if it had none and no
      upstream entry of the name gives one. */
  lemma CompletionGoneIff(s: Settings, models: seq<PricedModel>, groups: Ratios, k: string)
    ensures k !in Sync(s, models, groups).completionRatio <==>
              k !in s.completionRatio && !Writes(models, CompletionOf, k)
  {
    SyncMaps(s, models, groups);
    PutAllHasIff(s.completionRatio, models, CompletionOf, k);
  }

  /** A model billed at 3 per call that upstream now lists at ratio 2 is still billed at 3. */
  lemma OldPriceStays(s: Settings, groups: Ratios)
    requires s.modelPrice == map["m" := 3.0]
    ensures BilledBy(Sync(s, [PricedModel("m", 0, 2.0, 0.0, 1.0, None, None)], groups), "m") == ByPrice(3.0)
  {
    var m := PricedModel("m", 0, 2.0, 0.0, 1.0, None, None);
    SyncMaps(s, [m], groups);
    PutAllUnnamed(s.modelPrice, [m], PriceOf, "m");
  }

  // ---------- repeating a sync ----------

  /** A key that some model writes ends with a value that does not depend on what was there; any other key keeps its
      value. */
  lemma {:induction false} PutAllAt(a: Ratios, b: Ratios, models: seq<PricedModel>, what: PricedModel -> Option<real>,
                                    k: string)
    requires k in a ==> k in b && (b[k] == a[k] || Wrote(models, what, k))
    requires k in b ==> k in a || Wrote(models, what, k)
    ensures k in PutAll(a, models, what) <==> k in PutAll(b, models, what)
    ensures k in PutAll(a, models, what) ==> PutAll(a, models, what)[k] == PutAll(b, models, what)[k]
  {
    if models != [] {
      var init, m := models[..|models| - 1], models[|models| - 1];
      if !(m.name == k && what(m).Some?) { PutAllAt(a, b, init, what, k); }
    }
  }

  predicate Wrote(models: seq<PricedModel>, what: PricedModel -> Option<real>, k: string) {
    models != [] &&
    ((models[|models| - 1].name == k && what(models[|models| - 1]).Some?) || Wrote(models[..|models| - 1], what, k))
  }

  lemma {:induction false} PutAllKeeps(a: Ratios, models: seq<PricedModel>, what: PricedModel -> Option<real>, k: string)
    ensures k in a ==> k in PutAll(a, models, what)
    ensures !Wrote(models, what, k) ==>
              (k in PutAll(a, models, what) <==> k in a) && (k in a ==> PutAll(a, models, what)[k] == a[k])
  {
    if models != [] { PutAllKeeps(a, models[..|models| - 1], what, k); }
  }

  lemma PutAllTwice(a: Ratios, models: seq<PricedModel>, what: PricedModel -> Option<real>)
    ensures PutAll(PutAll(a, models, what), models, what) == PutAll(a, models, what)
  {
    var b := PutAll(a, models, what);
    forall k
      ensures k in PutAll(b, models, what) <==> k in b
      ensures k in b ==> PutAll(b, models, what)[k] == b[k]
    {
      PutAllKeeps(a, models, what, k);
      PutAllAt(a, b, models, what, k);
    }
  }

  /** Repeating a sync on unchanged input changes no option. */
  lemma SyncIsIdempotent(s: Settings, models: seq<PricedModel>, groups: Ratios)
    ensures Sync(Sync(s, models, groups), models, groups) == Sync(s, models, groups)
  {
    PutAllTwice(s.modelRatio, models, RatioOf);
    PutAllTwice(s.completionRatio, models, CompletionOf);
    PutAllTwice(s.modelPrice, models, PriceOf);
    PutAllTwice(s.cacheRatio, models, CacheOf);
    PutAllTwice(s.createCacheRatio, models, CreateCacheOf);
    assert s.groupRatio + groups + groups == s.groupRatio + groups;
  }

  // ---------- every run of syncs, restores and other edits ----------

  datatype Event =
    | Synced(models: seq<PricedModel>, groups: Ratios)
    | Restored(index: int)
    | Edited(settings: Settings)     // the options changed by other means

  datatype State = State(settings: Settings, backups: seq<Settings>)

  function Step(s: State, e: Event): State {
    match e
    case Synced(models, groups) =>
      State(Sync(s.settings, models, groups), if models == [] then s.backups else Truncated([s.settings] + s.backups))
    case Restored(i) => if 0 <= i < |s.backups| then s.(settings := Written(s.settings, s.backups[i])) else s
    case Edited(settings) => s.(settings := settings)
  }

  function Exec(s: State, es: seq<Event>): State {
    if es == [] then s else Step(Exec(s, es[..|es| - 1]), es[|es| - 1])
  }

  /** The option maps just before each sync that had something to do, newest first. */
  function BeforeSyncs(s: State, es: seq<Event>): seq<Settings> {
    if es == [] then []
    else
      var init, e := es[..|es| - 1], es[|es| - 1];
      (if e.Synced? && e.models != [] then [Exec(s, init).settings] else []) + BeforeSyncs(s, init)
  }

  /** In every run from an empty backup list, backup i is the value of all six option maps just before the i-th most
      recent sync, for every i below the number of syncs and twenty. */
  lemma {:induction false} BackupsAreSnapshots(s: State, es: seq<Event>)
    requires s.backups == []
    ensures Exec(s, es).backups == Truncated(BeforeSyncs(s, es))
  {
    if es != [] {
      var init, e := es[..|es| - 1], es[|es| - 1];
      BackupsAreSnapshots(s, init);
      var older := BeforeSyncs(s, init);
      assert [] + older == older;
      if e.Synced? && e.models != [] {
        TruncatedAgain(Exec(s, init).settings, older);
      }
    }
  }

  lemma TruncatedAgain<T>(x: T, xs: seq<T>)
    ensures Truncated([x] + Truncated(xs)) == Truncated([x] + xs)
  {
    if |xs| > MAX_BACKUPS { assert ([x] + xs[..MAX_BACKUPS])[..MAX_BACKUPS] == ([x] + xs)[..MAX_BACKUPS]; }
  }

  /** Restoring backup i right after any run brings back exactly the maps before that sync, if and only if their group
      ratios pass the check or are in force already: a refused group map is the one thing a restore leaves behind. */
  lemma RestoreBringsBack(s: State, es: seq<Event>, i: nat)
    requires s.backups == [] && i < |BeforeSyncs(s, es)| && i < 20
    ensures var was := BeforeSyncs(s, es)[i];
            Exec(s, es + [Restored(i)]).settings == was <==>
            NonNegative(was.groupRatio) || Exec(s, es).settings.groupRatio == was.groupRatio
  {
    BackupsAreSnapshots(s, es);
    assert (es + [Restored(i)])[..|es + [Restored(i)]| - 1] == es;
  }

  /** Group maps that pass the check stay so: then every restore of a run is exact. */
  lemma {:induction false} GroupRatiosStayValid(s: State, es: seq<Event>)
    requires s.backups == [] && NonNegative(s.settings.groupRatio)
    requires forall i :: 0 <= i < |es| && es[i].Edited? ==> NonNegative(es[i].settings.groupRatio)
    ensures NonNegative(Exec(s, es).settings.groupRatio)
    ensures forall i :: 0 <= i < |Exec(s, es).backups| ==> NonNegative(Exec(s, es).backups[i].groupRatio)
  {
    if es != [] { GroupRatiosStayValid(s, es[..|es| - 1]); }
  }
}
