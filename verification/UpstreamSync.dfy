/** Reconciling a channel's model list with its upstream: detection of pending changes, automatic synchronization,
    and applying what an administrator selects.  A `Row` is what the channel table stores.  A check works with the redirects
    its caller has loaded with the channel, which need not be the stored ones. */
module UpstreamSync {
  import opened Options
  import opened Lists
  import opened ModelNames
  import Delimited

  datatype Row = Row(
    models: string,              // comma-separated
    detected: seq<string>,       // pending additions
    removed: seq<string>,        // pending removals
    ignored: seq<string>,
    lastCheck: int,
    autoSync: bool,
    mapping: map<string, string>)  // redirects: local name to upstream name, already normalized

  function Local(row: Row): seq<string> {
    Normalize(Delimited.ReadList(row.models, ','))
  }

  function PendingAdd(local: seq<string>, upstream: seq<string>, ignored: seq<string>, mapping: map<string, string>)
    : seq<string>
  {
    Drop(Normalize(upstream), Elems(Normalize(local)) + mapping.Values + Elems(Normalize(ignored)))
  }

  function PendingRemove(local: seq<string>, upstream: seq<string>, mapping: map<string, string>): seq<string> {
    Drop(Normalize(local), mapping.Keys + Elems(Normalize(upstream)))
  }

  lemma PendingIsClean(local: seq<string>, upstream: seq<string>, ignored: seq<string>, mapping: map<string, string>)
    ensures Clean(PendingAdd(local, upstream, ignored, mapping)) && Clean(PendingRemove(local, upstream, mapping))
    ensures Normalize(PendingAdd(local, upstream, ignored, mapping)) == PendingAdd(local, upstream, ignored, mapping)
    ensures Normalize(PendingRemove(local, upstream, mapping)) == PendingRemove(local, upstream, mapping)
  {
    NormalizeCleans(local);
    NormalizeCleans(upstream);
    DropIsClean(Normalize(upstream), Elems(Normalize(local)) + mapping.Values + Elems(Normalize(ignored)));
    DropIsClean(Normalize(local), mapping.Keys + Elems(Normalize(upstream)));
    NormalizeCleans(PendingAdd(local, upstream, ignored, mapping));
    NormalizeCleans(PendingRemove(local, upstream, mapping));
  }

  /** Names that redirect and names redirected to, collected in any order. */
  method RedirectSets(mapping: map<string, string>) returns (sources: set<string>, targets: set<string>)
    ensures sources == mapping.Keys && targets == mapping.Values
  {
    sources, targets := {}, {};
    var rest := mapping.Keys;
    while rest != {}
      invariant rest <= mapping.Keys && sources == mapping.Keys - rest
      invariant forall t :: t in targets <==> exists k :: k in sources && mapping[k] == t
      decreases |rest|
    {
      var source :| source in rest;
      rest := rest - {source};
      sources := sources + {source};
      targets := targets + {mapping[source]};
    }
  }

  /** collectPendingUpstreamModelChangesFromModels. */
  method CollectPending(local: seq<string>, upstream: seq<string>, ignored: seq<string>, mapping: map<string, string>)
    returns (add: seq<string>, remove: seq<string>)
    ensures add == PendingAdd(local, upstream, ignored, mapping) && Clean(add)
    ensures remove == PendingRemove(local, upstream, mapping) && Clean(remove)
  {
    var localModels := NormalizeModelNames(local);
    var upstreamModels := NormalizeModelNames(upstream);
    var ignoredModels := NormalizeModelNames(ignored);
    var localSet := ToSet(localModels);
    var upstreamSet := ToSet(upstreamModels);
    var ignoredSet := ToSet(ignoredModels);
    var sources, targets := RedirectSets(mapping);
    var covered := localSet + targets;
    add := FilterOut(upstreamModels, covered + ignoredSet);
    remove := FilterOut(localModels, sources + upstreamSet);
    PendingIsClean(local, upstream, ignored, mapping);
    add := NormalizeModelNames(add);
    remove := NormalizeModelNames(remove);
  }

  // ---------- the two operations on the stored row ----------

  /** Not yet due for another check. */
  predicate TooSoon(row: Row, force: bool, minInterval: int, now: int) {
    !force && row.lastCheck > 0 && now - row.lastCheck < minInterval
  }

  /** checkAndPersistChannelUpstreamModelUpdates.  `loaded` are the redirects loaded with the channel, `upstream` is
      None when fetching fails, and `saved` says whether the final write succeeds. */
  function Check(row: Row, loaded: map<string, string>, force: bool, allowAuto: bool, minInterval: int, now: int,
                 upstream: Option<seq<string>>, saved: bool): Row
  {
    if TooSoon(row, force, minInterval, now) then row
    else if !saved then row
    else if upstream.None? then row.(lastCheck := now)
    else
      var add := PendingAdd(Delimited.ReadList(row.models, ','), upstream.value, row.ignored, loaded);
      var remove := PendingRemove(Delimited.ReadList(row.models, ','), upstream.value, loaded);
      if allowAuto && row.autoSync && |add| > 0 then
        var merged := Merge(Local(row), add);
        var models := if |merged| > |Local(row)| then Delimited.Join(merged, ',') else row.models;
        row.(models := models, detected := [], removed := remove, lastCheck := now)
      else row.(detected := add, removed := remove, lastCheck := now)
  }

  /** How many names a check adds by itself: all that are pending, or none. */
  function AutoAdds(row: Row, loaded: map<string, string>, force: bool, allowAuto: bool, minInterval: int, now: int,
                    upstream: Option<seq<string>>): nat
  {
    if TooSoon(row, force, minInterval, now) || upstream.None? || !allowAuto || !row.autoSync then 0
    else |PendingAdd(Delimited.ReadList(row.models, ','), upstream.value, row.ignored, loaded)|
  }

  lemma MergeAddsAll(row: Row, add: seq<string>)
    requires Clean(add) && forall x :: x in add ==> x !in Local(row)
    ensures Merge(Local(row), add) == Local(row) + add
  {
    LocalIsClean(row);
    NormalizeCleans(add);
    DropNothing(add, Elems(Local(row)));
  }

  /** What is pending is new, so a synchronization adds all of it. */
  lemma MergedPending(row: Row, upstream: seq<string>, loaded: map<string, string>)
    ensures var add := PendingAdd(Delimited.ReadList(row.models, ','), upstream, row.ignored, loaded);
            Merge(Local(row), add) == Local(row) + add
  {
    var add := PendingAdd(Delimited.ReadList(row.models, ','), upstream, row.ignored, loaded);
    PendingIsClean(Delimited.ReadList(row.models, ','), upstream, row.ignored, loaded);
    forall x | x in add ensures x !in Local(row) {
      DropMembers(Normalize(upstream), Elems(Local(row)) + loaded.Values + Elems(Normalize(row.ignored)), x);
    }
    MergeAddsAll(row, add);
  }

  datatype Selection = Selection(add: seq<string>, ignore: seq<string>, remove: seq<string>)

  /** What of a request takes effect: only pending names, and adding wins over removing. */
  function Effective(row: Row, request: Selection): Selection {
    var add := Intersect(request.add, Normalize(row.detected));
    Selection(add,
              Intersect(request.ignore, Normalize(row.detected)),
              Subtract(Intersect(request.remove, Normalize(row.removed)), add))
  }

  /** applyChannelUpstreamModelUpdates. */
  function Apply(row: Row, request: Selection, now: int, saved: bool): Row {
    if !saved then row
    else
      var e := Effective(row, request);
      var next := ApplySelected(Local(row), e.add, e.remove);
      var ignored := Merge(row.ignored, e.ignore);
      row.(models := if Local(row) != next then Delimited.Join(next, ',') else row.models,
           ignored := if |e.add| > 0 then Subtract(ignored, e.add) else ignored,
           detected := Subtract(Normalize(row.detected), e.add + e.ignore),
           removed := Subtract(Normalize(row.removed), e.remove),
           lastCheck := now)
  }

  /** Whether applying a request changes the list of models of the channel as it was loaded. */
  predicate ModelsChange(copy: Row, request: Selection) {
    var e := Effective(copy, request);
    Local(copy) != ApplySelected(Local(copy), e.add, e.remove)
  }

  // ---------- what is written, and over what ----------

  /** updateChannelUpstreamModelSettings: the settings are written whole, the models only when they changed, and the
      redirects not at all. */
  function Written(row: Row, next: Row, updateModels: bool): Row {
    next.(models := if updateModels then next.models else row.models, mapping := row.mapping)
  }

  /** A check computes from the copy of the channel that was loaded, and writes over the row as it is by then. */
  function CheckOver(row: Row, copy: Row, force: bool, allowAuto: bool, minInterval: int, now: int,
                     upstream: Option<seq<string>>, saved: bool): Row
  {
    if TooSoon(copy, force, minInterval, now) || !saved then row
    else Written(row, Check(copy, copy.mapping, force, allowAuto, minInterval, now, upstream, true),
                 AutoAdds(copy, copy.mapping, force, allowAuto, minInterval, now, upstream) > 0)
  }

  /** And so does an application. */
  function ApplyOver(row: Row, copy: Row, request: Selection, now: int, saved: bool): Row {
    if !saved then row else Written(row, Apply(copy, request, now, true), ModelsChange(copy, request))
  }

  /** The models column with the pending names merged in, and how many came in. */
  method AppendPending(models: string, add: seq<string>) returns (next: string, more: nat)
    ensures var origin := Normalize(Delimited.ReadList(models, ','));
            var merged := Merge(origin, add);
            && next == (if |merged| > |origin| then Delimited.Join(merged, ',') else models)
            && more == if |merged| > |origin| then |merged| - |origin| else 0
  {
    var origin := NormalizeModelNames(Delimited.ReadList(models, ','));
    var merged := MergeModelNames(origin, add);
    next, more := models, 0;
    if |merged| > |origin| {
      next := Delimited.Join(merged, ',');
      more := |merged| - |origin|;
    }
  }

  /** The stored channel row, updated by the handlers from the copies they have loaded. */
  class Channel {
    var row: Row

    constructor (row: Row)
      ensures this.row == row
    {
      this.row := row;
    }

    method UpdateSettings(next: Row, updateModels: bool)
      modifies this
      ensures row == Written(old(row), next, updateModels)
    {
      row := row.(detected := next.detected, removed := next.removed, ignored := next.ignored,
                  lastCheck := next.lastCheck, autoSync := next.autoSync);
      if updateModels { row := row.(models := next.models); }
    }

    method CheckAndPersist(copy: Row, force: bool, allowAuto: bool, minInterval: int, now: int,
                           upstream: Option<seq<string>>, saved: bool)
      returns (modelsChanged: bool, autoAdded: int)
      modifies this
      ensures row == CheckOver(old(row), copy, force, allowAuto, minInterval, now, upstream, saved)
      ensures autoAdded == AutoAdds(copy, copy.mapping, force, allowAuto, minInterval, now, upstream)
      ensures modelsChanged <==> saved && autoAdded > 0
    {
      modelsChanged, autoAdded := false, 0;
      if !force {
        if copy.lastCheck > 0 && now - copy.lastCheck < minInterval {
          return;
        }
      }
      var settings := copy.(lastCheck := now);
      if upstream.None? {
        if saved { UpdateSettings(settings, false); }
        return;
      }
      var listed := Delimited.ReadList(copy.models, ',');
      var add, remove := CollectPending(listed, upstream.value, copy.ignored, copy.mapping);
      if allowAuto && settings.autoSync && |add| > 0 {
        MergedPending(copy, upstream.value, copy.mapping);
        var next, more := AppendPending(copy.models, add);
        settings := settings.(models := next);
        autoAdded := more;
        modelsChanged := more > 0;
        settings := settings.(detected := []);
      } else {
        settings := settings.(detected := add);
      }
      settings := settings.(removed := remove);
      if saved { UpdateSettings(settings, modelsChanged); } else { modelsChanged := false; }
    }

    method ApplyUpdates(copy: Row, request: Selection, now: int, saved: bool)
      returns (applied: Selection, modelsChanged: bool)
      modifies this
      ensures row == ApplyOver(old(row), copy, request, now, saved)
      ensures saved ==> applied == Effective(copy, request)
      ensures saved ==> (modelsChanged <==> ModelsChange(copy, request))
    {
      var pendingAdd := NormalizeModelNames(copy.detected);
      var pendingRemove := NormalizeModelNames(copy.removed);
      var add := IntersectModelNames(request.add, pendingAdd);
      var ignore := IntersectModelNames(request.ignore, pendingAdd);
      var remove := IntersectModelNames(request.remove, pendingRemove);
      remove := SubtractModelNames(remove, add);
      var origin := NormalizeModelNames(Delimited.ReadList(copy.models, ','));
      var next := ApplySelectedModelChanges(origin, add, remove);
      var settings := copy;
      modelsChanged := origin != next;
      if modelsChanged {
        settings := settings.(models := Delimited.Join(next, ','));
      }
      var ignored := MergeModelNames(settings.ignored, ignore);
      if |add| > 0 {
        ignored := SubtractModelNames(ignored, add);
      }
      var remaining := SubtractModelNames(pendingAdd, add + ignore);
      var remainingRemove := SubtractModelNames(pendingRemove, remove);
      settings := settings.(ignored := ignored, detected := remaining, removed := remainingRemove, lastCheck := now);
      if !saved {
        return Selection([], [], []), false;
      }
      UpdateSettings(settings, modelsChanged);
      applied := Selection(add, ignore, remove);
    }
  }

  // ---------- names and commas ----------

  ghost predicate CommaFree(xs: seq<string>) {
    forall x :: x in xs ==> Delimited.Free(x, ',')
  }

  /** Whatever the column holds, the names read from it are clean and comma-free. */
  lemma LocalIsClean(row: Row)
    ensures Clean(Local(row)) && CommaFree(Local(row)) && Normalize(Local(row)) == Local(row)
  {
    var listed := Delimited.ReadList(row.models, ',');
    NormalizeCleans(listed);
    NormalizeCleans(Local(row));
    if row.models != "" { Delimited.SplitIsFree(Delimited.TrimRight(Delimited.TrimLeft(row.models, ','), ','), ','); }
    NormalizeIsFree(listed, ',');
  }

  /** A clean, comma-free list survives being written to the column. */
  lemma WriteBack(xs: seq<string>)
    requires Clean(xs) && CommaFree(xs)
    ensures Normalize(Delimited.ReadList(Delimited.Join(xs, ','), ',')) == xs
  {
    assert forall i :: 0 <= i < |xs| ==> xs[i] in xs;
    Delimited.RoundTrip(xs, ',');
    NormalizeCleans(xs);
  }
}
