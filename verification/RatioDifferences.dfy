/** Comparing local pricing ratios with those of upstream channels: which (model, ratio type) entries differ, and what
    each channel says about them.  Ratios are reals, with the program's explicit epsilon. */
module RatioDifferences {
  import opened Options

  datatype RatioType = ModelRatio | CompletionRatio | CacheRatio | ModelPrice

  const RATIO_TYPES: seq<RatioType> := [ModelRatio, CompletionRatio, CacheRatio, ModelPrice]
  const EPSILON: real := 0.000000001

  type Data = map<RatioType, map<string, real>>

  datatype Channel = Channel(name: string, data: Data)

  /** A cell of the comparison: the channel's own value, the marker "same", or nothing. */
  datatype Cell = Value(v: real) | Same | Missing

  datatype Item = Item(current: Option<real>, upstreams: map<string, Cell>, confidence: map<string, bool>)

  type Differences = map<string, map<RatioType, Item>>

  predicate NearlyEqual(a: real, b: real) {
    if a > b then a - b < EPSILON else b - a < EPSILON
  }

  function Lookup(data: Data, t: RatioType, m: string): Option<real> {
    if t in data && m in data[t] then Some(data[t][m]) else None
  }

  /** The channel has a value that is missing locally or differs beyond epsilon. */
  predicate Disagrees(local: Option<real>, up: Option<real>) {
    up.Some? && (local.None? || !NearlyEqual(local.value, up.value))
  }

  function CellOf(local: Option<real>, up: Option<real>): Cell {
    if Disagrees(local, up) then Value(up.value)
    else if up.None? && local.Some? then Missing
    else Same
  }

  /** Placeholder ratios of an untrusted price list: 37.5 for input with completion ratio 1. */
  predicate Confident(data: Data, m: string) {
    !(Lookup(data, ModelRatio, m) == Some(37.5) && Lookup(data, CompletionRatio, m) == Some(1.0))
  }

  /** A cell shows the channel's value if there is none here or it is at least a billionth off, "missing" if only the
      channel has none, and "same" otherwise. */
  lemma CellMeans(local: Option<real>, up: Option<real>)
    ensures up.Some? && (local.None? || local.value - up.value >= 0.000000001 || up.value - local.value >= 0.000000001) ==>
              CellOf(local, up) == Value(up.value) && Disagrees(local, up)
    ensures up.None? && local.Some? ==> CellOf(local, up) == Missing && !Disagrees(local, up)
    ensures up.None? && local.None? ==> CellOf(local, up) == Same && !Disagrees(local, up)
    ensures up.Some? && local.Some? && -0.000000001 < local.value - up.value < 0.000000001 ==>
              CellOf(local, up) == Same && !Disagrees(local, up)
  {
  }

  /** A channel is not trusted about a model for which it gives input ratio 37.5 with completion ratio 1, and is trusted
      about every other. */
  lemma ConfidentMeans(data: Data, m: string)
    ensures !Confident(data, m) <==>
              && ModelRatio in data && m in data[ModelRatio] && data[ModelRatio][m] == 37.5
              && CompletionRatio in data && m in data[CompletionRatio] && data[CompletionRatio][m] == 1.0
  {
  }

  // ---------- models ----------

  function ModelsOfType(data: Data, t: RatioType): set<string> {
    if t in data then data[t].Keys else {}
  }

  function ModelsUpTo(data: Data, k: nat): set<string>
    requires k <= |RATIO_TYPES|
  {
    if k == 0 then {} else ModelsUpTo(data, k - 1) + ModelsOfType(data, RATIO_TYPES[k - 1])
  }

  function ModelsIn(data: Data): set<string> {
    ModelsUpTo(data, |RATIO_TYPES|)
  }

  function AllModels(local: Data, channels: seq<Channel>): set<string> {
    if channels == [] then ModelsIn(local)
    else AllModels(local, channels[..|channels| - 1]) + ModelsIn(channels[|channels| - 1].data)
  }

  method AddModels(models: set<string>, data: Data) returns (more: set<string>)
    ensures more == models + ModelsIn(data)
  {
    more := models;
    for k := 0 to |RATIO_TYPES|
      invariant more == models + ModelsUpTo(data, k)
    {
      if RATIO_TYPES[k] in data {
        more := more + data[RATIO_TYPES[k]].Keys;
      }
    }
  }

  method CollectModels(local: Data, channels: seq<Channel>) returns (models: set<string>)
    ensures models == AllModels(local, channels)
  {
    models := AddModels({}, local);
    for i := 0 to |channels|
      invariant models == AllModels(local, channels[..i])
    {
      assert channels[..i + 1][..i] == channels[..i];
      models := AddModels(models, channels[i].data);
    }
    assert channels[..|channels|] == channels;
  }

  // ---------- one entry ----------

  function Upstreams(channels: seq<Channel>, local: Option<real>, t: RatioType, m: string): map<string, Cell> {
    if channels == [] then map[]
    else
      var ch := channels[|channels| - 1];
      Upstreams(channels[..|channels| - 1], local, t, m)[ch.name := CellOf(local, Lookup(ch.data, t, m))]
  }

  function Confidences(channels: seq<Channel>, m: string): map<string, bool> {
    if channels == [] then map[]
    else
      var ch := channels[|channels| - 1];
      Confidences(channels[..|channels| - 1], m)[ch.name := Confident(ch.data, m)]
  }

  predicate SomeDisagrees(channels: seq<Channel>, local: Option<real>, t: RatioType, m: string) {
    channels != [] && (SomeDisagrees(channels[..|channels| - 1], local, t, m)
                       || Disagrees(local, Lookup(channels[|channels| - 1].data, t, m)))
  }

  predicate Differs(local: Data, channels: seq<Channel>, m: string, t: RatioType) {
    SomeDisagrees(channels, Lookup(local, t, m), t, m)
  }

  function ItemOf(local: Data, channels: seq<Channel>, m: string, t: RatioType): Item {
    Item(Lookup(local, t, m), Upstreams(channels, Lookup(local, t, m), t, m), Confidences(channels, m))
  }

  method CompareCell(localValue: Option<real>, data: Data, t: RatioType, m: string)
    returns (cell: Cell, hasValue: bool, differs: bool)
    ensures cell == CellOf(localValue, Lookup(data, t, m))
    ensures differs <==> Disagrees(localValue, Lookup(data, t, m))
    ensures hasValue <==> Lookup(data, t, m).Some?
  {
    cell, hasValue, differs := Missing, false, false;
    if t in data && m in data[t] {
      var val := data[t][m];
      cell := Value(val);
      hasValue := true;
      if localValue.Some? && !NearlyEqual(localValue.value, val) {
        differs := true;
      } else if localValue.Some? {
        cell := Same;
      }
    }
    if cell == Missing && localValue.None? {
      cell := Same;
    }
    if localValue.None? && cell != Missing && cell != Same {
      differs := true;
    }
  }

  method CompareEntry(local: Data, channels: seq<Channel>, m: string, t: RatioType) returns (item: Item, listed: bool)
    ensures item == ItemOf(local, channels, m, t)
    ensures listed <==> Differs(local, channels, m, t)
  {
    var localValue := Lookup(local, t, m);
    var upstreams, confidence := map[], map[];
    var hasUpstreamValue, hasDifference := false, false;
    for i := 0 to |channels|
      invariant upstreams == Upstreams(channels[..i], localValue, t, m) && confidence == Confidences(channels[..i], m)
      invariant hasDifference <==> SomeDisagrees(channels[..i], localValue, t, m)
      invariant localValue.None? ==> (hasUpstreamValue <==> hasDifference)
    {
      assert channels[..i + 1][..i] == channels[..i];
      var cell, hasValue, differs := CompareCell(localValue, channels[i].data, t, m);
      hasUpstreamValue := hasUpstreamValue || hasValue;
      hasDifference := hasDifference || differs;
      upstreams := upstreams[channels[i].name := cell];
      confidence := confidence[channels[i].name := Confident(channels[i].data, m)];
    }
    assert channels[..|channels|] == channels;
    item := Item(localValue, upstreams, confidence);
    listed := if localValue.Some? then hasDifference else hasUpstreamValue;
  }

  // ---------- first pass: every entry on which some channel disagrees ----------

  type Row = map<RatioType, Item>

  function RowUpTo(local: Data, channels: seq<Channel>, m: string, k: nat): Row
    requires k <= |RATIO_TYPES|
  {
    if k == 0 then map[]
    else
      var row, t := RowUpTo(local, channels, m, k - 1), RATIO_TYPES[k - 1];
      if Differs(local, channels, m, t) then row[t := ItemOf(local, channels, m, t)] else row
  }

  function RowOf(local: Data, channels: seq<Channel>, m: string): Row {
    RowUpTo(local, channels, m, |RATIO_TYPES|)
  }

  lemma {:induction false} RowUpToFacts(local: Data, channels: seq<Channel>, m: string, k: nat, t: RatioType)
    requires k <= |RATIO_TYPES|
    ensures t in RowUpTo(local, channels, m, k) <==>
              Differs(local, channels, m, t) && exists j :: 0 <= j < k && RATIO_TYPES[j] == t
    ensures t in RowUpTo(local, channels, m, k) ==> RowUpTo(local, channels, m, k)[t] == ItemOf(local, channels, m, t)
  {
    if k > 0 { RowUpToFacts(local, channels, m, k - 1, t); }
  }

  /** The entries of a model are those on which some channel disagrees. */
  lemma RowFacts(local: Data, channels: seq<Channel>, m: string, t: RatioType)
    ensures t in RowOf(local, channels, m) <==> Differs(local, channels, m, t)
    ensures t in RowOf(local, channels, m) ==> RowOf(local, channels, m)[t] == ItemOf(local, channels, m, t)
  {
    RowUpToFacts(local, channels, m, |RATIO_TYPES|, t);
    var j := match t case ModelRatio => 0 case CompletionRatio => 1 case CacheRatio => 2 case ModelPrice => 3;
    assert RATIO_TYPES[j] == t;
  }

  method CompareModel(local: Data, channels: seq<Channel>, m: string) returns (row: Row)
    ensures row == RowOf(local, channels, m)
  {
    row := map[];
    for k := 0 to |RATIO_TYPES|
      invariant row == RowUpTo(local, channels, m, k)
    {
      var item, listed := CompareEntry(local, channels, m, RATIO_TYPES[k]);
      if listed {
        row := row[RATIO_TYPES[k] := item];
      }
    }
  }

  ghost predicate FirstPassFor(local: Data, channels: seq<Channel>, models: set<string>, d: Differences) {
    && (forall m :: m in d <==> m in models && RowOf(local, channels, m) != map[])
    && (forall m :: m in d ==> d[m] == RowOf(local, channels, m))
  }

  method CompareAll(local: Data, channels: seq<Channel>) returns (d: Differences)
    ensures FirstPassFor(local, channels, AllModels(local, channels), d)
  {
    d := map[];
    var models := CollectModels(local, channels);
    var rest := models;
    while rest != {}
      invariant rest <= models && FirstPassFor(local, channels, models - rest, d)
      decreases |rest|
    {
      var m :| m in rest;
      rest := rest - {m};
      var row := CompareModel(local, channels, m);
      if row != map[] {
        d := d[m := row];
      }
    }
  }

  // ---------- marking the channels that disagree somewhere ----------

  predicate HasValue(item: Item, name: string) {
    name in item.upstreams && item.upstreams[name].Value?
  }

  predicate ValueInRow(row: Row, name: string) {
    exists t :: t in row.Keys && HasValue(row[t], name)
  }

  predicate ValueIn(d: Differences, name: string) {
    exists m :: m in d.Keys && ValueInRow(d[m], name)
  }

  method MarkItem(marked: set<string>, item: Item) returns (more: set<string>)
    ensures forall n :: n in more <==> n in marked || HasValue(item, n)
  {
    more := marked;
    var rest := item.upstreams.Keys;
    while rest != {}
      invariant rest <= item.upstreams.Keys
      invariant forall n :: n in more <==> n in marked || (HasValue(item, n) && n !in rest)
      decreases |rest|
    {
      var n :| n in rest;
      rest := rest - {n};
      if item.upstreams[n] != Missing && item.upstreams[n] != Same {
        more := more + {n};
      }
    }
  }

  method MarkRow(marked: set<string>, row: Row) returns (more: set<string>)
    ensures forall n :: n in more <==> n in marked || ValueInRow(row, n)
  {
    more := marked;
    var rest := row.Keys;
    while rest != {}
      invariant rest <= row.Keys
      invariant forall n :: n in more <==> n in marked || exists t :: t in row.Keys - rest && HasValue(row[t], n)
      decreases |rest|
    {
      var t :| t in rest;
      ghost var done := row.Keys - rest;
      rest := rest - {t};
      assert row.Keys - rest == done + {t};
      more := MarkItem(more, row[t]);
    }
  }

  method Mark(d: Differences) returns (marked: set<string>)
    ensures forall n :: n in marked <==> ValueIn(d, n)
  {
    marked := {};
    var rest := d.Keys;
    while rest != {}
      invariant rest <= d.Keys
      invariant forall n :: n in marked <==> exists m :: m in d.Keys - rest && ValueInRow(d[m], n)
      decreases |rest|
    {
      var m :| m in rest;
      ghost var done := d.Keys - rest;
      rest := rest - {m};
      assert d.Keys - rest == done + {m};
      marked := MarkRow(marked, d[m]);
    }
  }

  // ---------- pruning ----------

  function Restrict(item: Item, marked: set<string>): Item {
    Item(item.current, item.upstreams - (item.upstreams.Keys - marked), item.confidence - (item.upstreams.Keys - marked))
  }

  predicate Uninformative(item: Item) {
    forall n :: n in item.upstreams ==> item.upstreams[n] == Same
  }

  /** Entries keep their informative cells of marked channels; entries left without one go. */
  ghost predicate PrunedRow(row: Row, marked: set<string>, pruned: Row) {
    && (forall t :: t in pruned <==> t in row && !Uninformative(Restrict(row[t], marked)))
    && (forall t :: t in pruned ==> pruned[t] == Restrict(row[t], marked))
  }

  ghost predicate Pruned(d: Differences, marked: set<string>, pruned: Differences) {
    && pruned.Keys <= d.Keys
    && (forall m :: m in d.Keys - pruned.Keys ==> PrunedRow(d[m], marked, map[]))
    && (forall m :: m in pruned ==> pruned[m] != map[] && PrunedRow(d[m], marked, pruned[m]))
  }

  lemma RemoveOneMore<V>(m: map<string, V>, gone: set<string>, n: string)
    ensures m - gone - {n} == m - (gone + {n})
  {
  }

  method RestrictItem(item: Item, marked: set<string>) returns (r: Item)
    ensures r == Restrict(item, marked)
  {
    var upstreams, confidence := item.upstreams, item.confidence;
    var rest := item.upstreams.Keys;
    ghost var gone: set<string> := {};
    while rest != {}
      invariant rest <= item.upstreams.Keys && gone == item.upstreams.Keys - rest - marked
      invariant upstreams == item.upstreams - gone && confidence == item.confidence - gone
      decreases |rest|
    {
      var n :| n in rest;
      rest := rest - {n};
      if n !in marked {
        RemoveOneMore(item.upstreams, gone, n);
        RemoveOneMore(item.confidence, gone, n);
        gone := gone + {n};
        upstreams := upstreams - {n};
        confidence := confidence - {n};
      }
    }
    assert gone == item.upstreams.Keys - marked;
    r := Item(item.current, upstreams, confidence);
  }

  method IsUninformative(item: Item) returns (drop: bool)
    ensures drop <==> Uninformative(item)
  {
    var allSame := true;
    var rest := item.upstreams.Keys;
    while rest != {} && allSame
      invariant rest <= item.upstreams.Keys
      invariant allSame <==> forall n :: n in item.upstreams.Keys - rest ==> item.upstreams[n] == Same
      decreases |rest|
    {
      var n :| n in rest;
      rest := rest - {n};
      if item.upstreams[n] != Same {
        allSame := false;
      }
    }
    drop := |item.upstreams| == 0 || allSame;
  }

  method PruneRow(row: Row, marked: set<string>) returns (pruned: Row)
    ensures PrunedRow(row, marked, pruned)
  {
    pruned := row;
    var rest := row.Keys;
    while rest != {}
      invariant rest <= row.Keys && rest <= pruned.Keys <= row.Keys
      invariant forall t :: t in rest ==> pruned[t] == row[t]
      invariant forall t :: t in row.Keys - rest ==> (t in pruned <==> !Uninformative(Restrict(row[t], marked)))
      invariant forall t :: t in pruned.Keys - rest ==> pruned[t] == Restrict(row[t], marked)
      decreases |rest|
    {
      var t :| t in rest;
      rest := rest - {t};
      var item := RestrictItem(pruned[t], marked);
      var drop := IsUninformative(item);
      if drop {
        pruned := pruned - {t};
      } else {
        pruned := pruned[t := item];
      }
    }
  }

  method Prune(d: Differences, marked: set<string>) returns (pruned: Differences)
    ensures Pruned(d, marked, pruned)
  {
    pruned := d;
    var rest := d.Keys;
    while rest != {}
      invariant rest <= pruned.Keys <= d.Keys
      invariant forall m :: m in rest ==> pruned[m] == d[m]
      invariant forall m :: m in d.Keys - pruned.Keys ==> PrunedRow(d[m], marked, map[])
      invariant forall m :: m in pruned.Keys - rest ==> pruned[m] != map[] && PrunedRow(d[m], marked, pruned[m])
      decreases |rest|
    {
      var m :| m in rest;
      rest := rest - {m};
      var row := PruneRow(pruned[m], marked);
      if row == map[] {
        pruned := pruned - {m};
      } else {
        pruned := pruned[m := row];
      }
    }
  }

  // ---------- what the result says ----------

  ghost predicate DistinctNames(channels: seq<Channel>) {
    forall i, j :: 0 <= i < j < |channels| ==> channels[i].name != channels[j].name
  }

  /** The channel disagrees with the local data on some entry. */
  ghost predicate DisagreesSomewhere(local: Data, ch: Channel) {
    exists m, t :: Disagrees(Lookup(local, t, m), Lookup(ch.data, t, m))
  }

  /** Of channels that share a name, the last one's cells are shown. */
  predicate Speaks(channels: seq<Channel>, i: int) {
    0 <= i < |channels| && forall j :: i < j < |channels| ==> channels[j].name != channels[i].name
  }

  ghost predicate Listed(local: Data, channels: seq<Channel>, name: string) {
    exists i :: Speaks(channels, i) && channels[i].name == name && DisagreesSomewhere(local, channels[i])
  }

  /** Some listed channel shows something other than agreement. */
  ghost predicate Telling(local: Data, channels: seq<Channel>, m: string, t: RatioType) {
    exists i :: Speaks(channels, i) && Listed(local, channels, channels[i].name)
                && CellOf(Lookup(local, t, m), Lookup(channels[i].data, t, m)) != Same
  }

  lemma {:induction false} SpeakerOf(channels: seq<Channel>, i: nat) returns (k: int)
    requires i < |channels|
    ensures Speaks(channels, k) && channels[k].name == channels[i].name
    decreases |channels| - i
  {
    k := i;
    if !Speaks(channels, i) {
      var j :| i < j < |channels| && channels[j].name == channels[i].name;
      k := SpeakerOf(channels, j);
    }
  }

  lemma {:induction false} SomeDisagreesWitness(channels: seq<Channel>, local: Option<real>, t: RatioType, m: string)
    ensures SomeDisagrees(channels, local, t, m) <==>
            exists i :: 0 <= i < |channels| && Disagrees(local, Lookup(channels[i].data, t, m))
  {
    if channels != [] {
      var init := channels[..|channels| - 1];
      SomeDisagreesWitness(init, local, t, m);
      if SomeDisagrees(init, local, t, m) {
        var i :| 0 <= i < |init| && Disagrees(local, Lookup(init[i].data, t, m));
        assert channels[i] == init[i];
      }
    }
  }

  lemma {:induction false} CellsOfSpeaker(channels: seq<Channel>, local: Option<real>, t: RatioType, m: string, i: int)
    requires Speaks(channels, i)
    ensures channels[i].name in Upstreams(channels, local, t, m)
    ensures Upstreams(channels, local, t, m)[channels[i].name] == CellOf(local, Lookup(channels[i].data, t, m))
    ensures channels[i].name in Confidences(channels, m)
    ensures Confidences(channels, m)[channels[i].name] == Confident(channels[i].data, m)
  {
    if i < |channels| - 1 {
      var init := channels[..|channels| - 1];
      assert init[i] == channels[i] && channels[|channels| - 1].name != channels[i].name;
      assert Speaks(init, i);
      CellsOfSpeaker(init, local, t, m, i);
    }
  }

  lemma {:induction false} CellsAreNamed(channels: seq<Channel>, local: Option<real>, t: RatioType, m: string, name: string)
    ensures name in Upstreams(channels, local, t, m) <==> exists i :: 0 <= i < |channels| && channels[i].name == name
    ensures name in Confidences(channels, m) <==> exists i :: 0 <= i < |channels| && channels[i].name == name
  {
    if channels != [] {
      var init := channels[..|channels| - 1];
      CellsAreNamed(init, local, t, m, name);
      if i :| 0 <= i < |init| && init[i].name == name { assert channels[i].name == name; }
    }
  }

  /** A channel that disagrees on an entry shows its value there. */
  lemma DisagreementShows(local: Data, channels: seq<Channel>, m: string, t: RatioType, i: int)
    requires Speaks(channels, i) && Disagrees(Lookup(local, t, m), Lookup(channels[i].data, t, m))
    ensures Differs(local, channels, m, t) && HasValue(ItemOf(local, channels, m, t), channels[i].name)
  {
    SomeDisagreesWitness(channels, Lookup(local, t, m), t, m);
    CellsOfSpeaker(channels, Lookup(local, t, m), t, m, i);
  }

  lemma {:induction false} ModelsOfChannel(local: Data, channels: seq<Channel>, m: string, t: RatioType, i: nat)
    requires i < |channels| && Lookup(channels[i].data, t, m).Some?
    ensures m in AllModels(local, channels)
  {
    if i < |channels| - 1 {
      assert channels[..|channels| - 1][i] == channels[i];
      ModelsOfChannel(local, channels[..|channels| - 1], m, t, i);
    } else {
      ModelsOfData(channels[i].data, m, t);
    }
  }

  lemma ModelsOfData(data: Data, m: string, t: RatioType)
    requires Lookup(data, t, m).Some?
    ensures m in ModelsIn(data)
  {
    var a, b, c := ModelsUpTo(data, 1), ModelsUpTo(data, 2), ModelsUpTo(data, 3);
    assert a == ModelsUpTo(data, 0) + ModelsOfType(data, ModelRatio);
    assert b == a + ModelsOfType(data, CompletionRatio);
    assert c == b + ModelsOfType(data, CacheRatio);
    assert ModelsIn(data) == c + ModelsOfType(data, ModelPrice);
  }

  lemma FirstPassEntries(local: Data, channels: seq<Channel>, d: Differences, m: string, t: RatioType)
    requires FirstPassFor(local, channels, AllModels(local, channels), d)
    ensures m in d && t in d[m] <==> Differs(local, channels, m, t)
    ensures m in d && t in d[m] ==> d[m][t] == ItemOf(local, channels, m, t)
  {
    RowFacts(local, channels, m, t);
    if Differs(local, channels, m, t) {
      SomeDisagreesWitness(channels, Lookup(local, t, m), t, m);
      var i :| 0 <= i < |channels| && Disagrees(Lookup(local, t, m), Lookup(channels[i].data, t, m));
      ModelsOfChannel(local, channels, m, t, i);
    }
  }

  lemma ValueIsDisagreement(local: Data, channels: seq<Channel>, m: string, t: RatioType, name: string)
    requires HasValue(ItemOf(local, channels, m, t), name)
    ensures Listed(local, channels, name)
  {
    CellsAreNamed(channels, Lookup(local, t, m), t, m, name);
    var i :| 0 <= i < |channels| && channels[i].name == name;
    var k := SpeakerOf(channels, i);
    CellsOfSpeaker(channels, Lookup(local, t, m), t, m, k);
    assert Disagrees(Lookup(local, t, m), Lookup(channels[k].data, t, m));
  }

  lemma MarkedAreListed(local: Data, channels: seq<Channel>, d: Differences, name: string)
    requires FirstPassFor(local, channels, AllModels(local, channels), d)
    ensures ValueIn(d, name) <==> Listed(local, channels, name)
  {
    if ValueIn(d, name) {
      var m :| m in d.Keys && ValueInRow(d[m], name);
      var t :| t in d[m].Keys && HasValue(d[m][t], name);
      FirstPassEntries(local, channels, d, m, t);
      ValueIsDisagreement(local, channels, m, t, name);
    }
    if Listed(local, channels, name) {
      var i :| Speaks(channels, i) && channels[i].name == name && DisagreesSomewhere(local, channels[i]);
      var m, t :| Disagrees(Lookup(local, t, m), Lookup(channels[i].data, t, m));
      DisagreementShows(local, channels, m, t, i);
      FirstPassEntries(local, channels, d, m, t);
      assert HasValue(d[m][t], name) && ValueInRow(d[m], name);
    }
  }

  /** An entry lists exactly the channels that disagree somewhere, with each one's own cell and confidence. */
  ghost predicate Tells(local: Data, channels: seq<Channel>, m: string, t: RatioType, item: Item) {
    && item.current == Lookup(local, t, m)
    && (forall n :: n in item.upstreams <==> Listed(local, channels, n))
    && (forall n :: n in item.confidence <==> Listed(local, channels, n))
    && (forall i :: Speaks(channels, i) && channels[i].name in item.upstreams ==>
          item.upstreams[channels[i].name] == CellOf(Lookup(local, t, m), Lookup(channels[i].data, t, m)))
    && (forall i :: Speaks(channels, i) && channels[i].name in item.confidence ==>
          item.confidence[channels[i].name] == Confident(channels[i].data, m))
  }

  ghost predicate Exact(local: Data, channels: seq<Channel>, d: Differences) {
    && (forall m, t :: m in d && t in d[m] <==> Differs(local, channels, m, t) && Telling(local, channels, m, t))
    && (forall m :: m in d ==> d[m] != map[])
    && (forall m, t :: m in d && t in d[m] ==> Tells(local, channels, m, t, d[m][t]))
  }

  lemma RestrictedTells(local: Data, channels: seq<Channel>, m: string, t: RatioType, marked: set<string>)
    requires forall n :: n in marked <==> Listed(local, channels, n)
    ensures Tells(local, channels, m, t, Restrict(ItemOf(local, channels, m, t), marked))
  {
    var item := ItemOf(local, channels, m, t);
    forall n ensures n in Restrict(item, marked).upstreams <==> Listed(local, channels, n)
             ensures n in Restrict(item, marked).confidence <==> Listed(local, channels, n)
    {
      CellsAreNamed(channels, Lookup(local, t, m), t, m, n);
    }
    forall i | Speaks(channels, i)
      ensures channels[i].name in item.upstreams && channels[i].name in item.confidence
      ensures item.upstreams[channels[i].name] == CellOf(Lookup(local, t, m), Lookup(channels[i].data, t, m))
      ensures item.confidence[channels[i].name] == Confident(channels[i].data, m)
    {
      CellsOfSpeaker(channels, Lookup(local, t, m), t, m, i);
    }
  }

  /** Pruning keeps exactly the entries in which some listed channel shows something other than agreement. */
  lemma SurvivesIffTelling(local: Data, channels: seq<Channel>, m: string, t: RatioType, marked: set<string>)
    requires forall n :: n in marked <==> Listed(local, channels, n)
    ensures !Uninformative(Restrict(ItemOf(local, channels, m, t), marked)) <==> Telling(local, channels, m, t)
  {
    var item := Restrict(ItemOf(local, channels, m, t), marked);
    RestrictedTells(local, channels, m, t, marked);
    if !Uninformative(item) {
      var n :| n in item.upstreams && item.upstreams[n] != Same;
      var i :| Speaks(channels, i) && channels[i].name == n && DisagreesSomewhere(local, channels[i]);
      assert CellOf(Lookup(local, t, m), Lookup(channels[i].data, t, m)) != Same;
    }
  }

  /** With distinct names an entry on which some channel disagrees always tells: that channel shows its value. */
  lemma EntrySurvives(local: Data, channels: seq<Channel>, m: string, t: RatioType)
    requires DistinctNames(channels) && Differs(local, channels, m, t)
    ensures Telling(local, channels, m, t)
  {
    SomeDisagreesWitness(channels, Lookup(local, t, m), t, m);
    var i :| 0 <= i < |channels| && Disagrees(Lookup(local, t, m), Lookup(channels[i].data, t, m));
    assert Speaks(channels, i) && DisagreesSomewhere(local, channels[i]);
    assert Listed(local, channels, channels[i].name);
  }

  /** Without them the difference can go unseen: two channels of one name, the first disagreeing and the second not. */
  lemma NamesakeHidesDifference(local: Data, first: Channel, second: Channel, m: string, t: RatioType)
    requires first.name == second.name && Disagrees(Lookup(local, t, m), Lookup(first.data, t, m))
    requires !DisagreesSomewhere(local, second)
    ensures Differs(local, [first, second], m, t) && !Telling(local, [first, second], m, t)
  {
    var channels := [first, second];
    assert channels[0] == first && channels[1] == second;
    SomeDisagreesWitness(channels, Lookup(local, t, m), t, m);
    assert !Speaks(channels, 0);
  }

  lemma PrunedEntries(d: Differences, marked: set<string>, pruned: Differences, m: string, t: RatioType)
    requires Pruned(d, marked, pruned)
    ensures m in pruned && t in pruned[m] <==> m in d && t in d[m] && !Uninformative(Restrict(d[m][t], marked))
    ensures m in pruned && t in pruned[m] ==> pruned[m][t] == Restrict(d[m][t], marked)
  {
  }

  lemma PrunedEntryIsExact(local: Data, channels: seq<Channel>, d: Differences, marked: set<string>, pruned: Differences,
                           m: string, t: RatioType)
    requires FirstPassFor(local, channels, AllModels(local, channels), d)
    requires (forall n :: n in marked <==> Listed(local, channels, n)) && Pruned(d, marked, pruned)
    ensures m in pruned && t in pruned[m] <==> Differs(local, channels, m, t) && Telling(local, channels, m, t)
    ensures m in pruned && t in pruned[m] ==> Tells(local, channels, m, t, pruned[m][t])
  {
    FirstPassEntries(local, channels, d, m, t);
    PrunedEntries(d, marked, pruned, m, t);
    SurvivesIffTelling(local, channels, m, t, marked);
    RestrictedTells(local, channels, m, t, marked);
  }

  lemma PrunedIsExact(local: Data, channels: seq<Channel>, d: Differences, marked: set<string>, pruned: Differences)
    requires FirstPassFor(local, channels, AllModels(local, channels), d)
    requires (forall n :: n in marked <==> ValueIn(d, n)) && Pruned(d, marked, pruned)
    ensures Exact(local, channels, pruned)
  {
    forall n ensures n in marked <==> Listed(local, channels, n) { MarkedAreListed(local, channels, d, n); }
    forall m, t
      ensures m in pruned && t in pruned[m] <==> Differs(local, channels, m, t) && Telling(local, channels, m, t)
      ensures m in pruned && t in pruned[m] ==> Tells(local, channels, m, t, pruned[m][t])
    {
      PrunedEntryIsExact(local, channels, d, marked, pruned, m, t);
    }
  }

  /** buildDifferences: an entry is in the result exactly when some channel's value is missing locally or differs beyond
      epsilon, and some listed channel shows it, which with distinct names it always does.  Every entry lists the same
      channels, those that disagree somewhere, and no model is left without an entry. */
  method BuildDifferences(local: Data, channels: seq<Channel>) returns (d: Differences)
    ensures Exact(local, channels, d)
    ensures DistinctNames(channels) ==> forall m, t :: m in d && t in d[m] <==> Differs(local, channels, m, t)
  {
    var first := CompareAll(local, channels);
    var marked := Mark(first);
    d := Prune(first, marked);
    PrunedIsExact(local, channels, first, marked, d);
    if DistinctNames(channels) {
      forall m, t | Differs(local, channels, m, t) ensures Telling(local, channels, m, t) {
        EntrySurvives(local, channels, m, t);
      }
    }
  }
}
