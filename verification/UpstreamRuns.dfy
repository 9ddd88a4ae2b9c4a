/** What one round of reconciliation promises: what it keeps, what it does with each pending name, and that it
    converges. */
module UpstreamRuns {
  import opened Options
  import opened Lists
  import opened ModelNames
  import opened UpstreamSync
  import Delimited

  // ---------- the invariant ----------

  /** The two pending lists are clean, the additions comma-free and not ignored.  This is about the settings alone. */
  ghost predicate Tidy(row: Row) {
    && Clean(row.detected) && CommaFree(row.detected) && Clean(row.removed)
    && (forall x :: x in row.detected ==> x !in Normalize(row.ignored))
  }

  /** Pending additions are not served, and pending removals are.  This is about the settings and the models. */
  ghost predicate Apart(row: Row) {
    && (forall x :: x in row.detected ==> x !in Local(row))
    && (forall x :: x in row.removed ==> x in Local(row))
  }

  ghost predicate Inv(row: Row) {
    Tidy(row) && Apart(row)
  }

  /** A detection that is due and saved, with the redirects its caller has loaded. */
  function Detect(row: Row, loaded: map<string, string>, upstream: seq<string>, now: int): Row {
    Check(row, loaded, true, false, 0, now, Some(upstream), true)
  }

  /** Members of the two lists a detection finds. */
  lemma DetectFacts(row: Row, loaded: map<string, string>, upstream: seq<string>, now: int)
    ensures var d := Detect(row, loaded, upstream, now);
            && Local(d) == Local(row) && d.ignored == row.ignored && d.mapping == row.mapping
            && Clean(d.detected) && Clean(d.removed)
            && d.detected == Drop(Normalize(upstream), Elems(Local(row)) + loaded.Values + Elems(Normalize(row.ignored)))
            && d.removed == Drop(Local(row), loaded.Keys + Elems(Normalize(upstream)))
            && (forall x :: x in d.detected <==>
                  x in Normalize(upstream) && x !in Local(row) && x !in loaded.Values && x !in Normalize(row.ignored))
            && (forall x :: x in d.removed <==> x in Local(row) && x !in loaded.Keys && x !in Normalize(upstream))
            && (CommaFree(upstream) ==> Inv(d))
  {
    var listed := Delimited.ReadList(row.models, ',');
    PendingIsClean(listed, upstream, row.ignored, loaded);
    var d := Detect(row, loaded, upstream, now);
    forall x
      ensures x in d.detected <==>
              x in Normalize(upstream) && x !in Local(row) && x !in loaded.Values && x !in Normalize(row.ignored)
    {
      DropMembers(Normalize(upstream), Elems(Local(row)) + loaded.Values + Elems(Normalize(row.ignored)), x);
    }
    forall x ensures x in d.removed <==> x in Local(row) && x !in loaded.Keys && x !in Normalize(upstream) {
      DropMembers(Local(row), loaded.Keys + Elems(Normalize(upstream)), x);
    }
    if CommaFree(upstream) {
      assert forall i :: 0 <= i < |upstream| ==> upstream[i] in upstream;
      NormalizeIsFree(upstream, ',');
    }
  }

  // ---------- applying a selection ----------

  /** What an effective selection consists of. */
  lemma EffectiveFacts(row: Row, request: Selection)
    requires Tidy(row)
    ensures var e := Effective(row, request);
            && Clean(e.add) && Clean(e.ignore) && Clean(e.remove)
            && (forall x :: x in e.add <==> x in Normalize(request.add) && x in row.detected)
            && (forall x :: x in e.ignore <==> x in Normalize(request.ignore) && x in row.detected)
            && (forall x :: x in e.remove <==> x in Normalize(request.remove) && x in row.removed && x !in e.add)
            && (Apart(row) ==> forall x :: x in e.remove <==> x in Normalize(request.remove) && x in row.removed)
  {
    NormalizeCleans(row.detected);
    NormalizeCleans(row.removed);
    IntersectFacts(request.add, row.detected);
    IntersectFacts(request.ignore, row.detected);
    IntersectFacts(request.remove, row.removed);
    var add, remove := Intersect(request.add, row.detected), Intersect(request.remove, row.removed);
    NormalizeCleans(add);
    NormalizeCleans(remove);
    SubtractFacts(remove, add);
  }

  /** The model list after applying: survivors in their old order, then the additions. */
  lemma AppliedModels(row: Row, request: Selection, now: int)
    requires Inv(row)
    ensures var e := Effective(row, request);
            Local(Apply(row, request, now, true)) == Drop(Local(row), Elems(e.remove)) + e.add
  {
    var e := Effective(row, request);
    var origin := Local(row);
    EffectiveFacts(row, request);
    LocalIsClean(row);
    ApplySelectedFacts(origin, e.add, e.remove);
    DropAgrees(origin, Elems(e.remove) - Elems(e.add), Elems(e.remove));
    DropNothing(e.add, Elems(origin));
    var next := ApplySelected(origin, e.add, e.remove);
    if origin != next {
      forall x | x in next ensures Delimited.Free(x, ',') {
        if x !in e.add { DropMembers(origin, Elems(e.remove), x); }
      }
      WriteBack(next);
    }
  }

  /** The pending lists after applying, and who is ignored. */
  lemma AppliedLists(row: Row, request: Selection, now: int)
    requires Tidy(row)
    ensures var e, r := Effective(row, request), Apply(row, request, now, true);
            && r.detected == Drop(row.detected, Elems(e.add) + Elems(e.ignore))
            && r.removed == Drop(row.removed, Elems(e.remove))
            && Clean(r.ignored) && Clean(r.detected) && Clean(r.removed)
            && (forall x :: x in r.ignored <==> (x in Normalize(row.ignored) || x in e.ignore) && x !in e.add)
  {
    var e := Effective(row, request);
    EffectiveFacts(row, request);
    NormalizeCleans(row.detected);
    NormalizeCleans(row.removed);
    NormalizeCleans(e.remove);
    DropIsClean(row.detected, Elems(e.add) + Elems(e.ignore));
    DropIsClean(row.removed, Elems(e.remove));
    AppendedMembers(e.add, e.ignore);
    DropAgrees(row.detected, Elems(Normalize(e.add + e.ignore)), Elems(e.add) + Elems(e.ignore));
    IgnoredAfter(row.ignored, e.add, e.ignore);
  }

  lemma {:induction false} NonBlankConcat(xs: seq<string>, ys: seq<string>)
    ensures NonBlank(xs + ys) == NonBlank(xs) + NonBlank(ys)
    decreases |ys|
  {
    if ys == [] {
      assert xs + ys == xs;
    } else {
      assert (xs + ys)[..|xs + ys| - 1] == xs + ys[..|ys| - 1];
      NonBlankConcat(xs, ys[..|ys| - 1]);
    }
  }

  lemma AppendedMembers(xs: seq<string>, ys: seq<string>)
    requires Clean(xs) && Clean(ys)
    ensures forall x :: x in Normalize(xs + ys) <==> x in xs || x in ys
  {
    assert forall i :: 0 <= i < |xs| ==> xs[i] in xs;
    assert forall i :: 0 <= i < |ys| ==> ys[i] in ys;
    NonBlankConcat(xs, ys);
    NonBlankOfClean(xs);
    NonBlankOfClean(ys);
    forall x ensures x in Normalize(xs + ys) <==> x in xs || x in ys { UniqMembers(xs + ys, x); }
  }

  lemma IgnoredAfter(ignored: seq<string>, add: seq<string>, ignore: seq<string>)
    requires Clean(add) && Clean(ignore)
    ensures var merged := Merge(ignored, ignore);
            var r := if |add| > 0 then Subtract(merged, add) else merged;
            Clean(r) && forall x :: x in r <==> (x in Normalize(ignored) || x in ignore) && x !in add
  {
    NormalizeCleans(ignore);
    NormalizeCleans(add);
    MergeFacts(ignored, ignore);
    NormalizeCleans(Merge(ignored, ignore));
    SubtractFacts(Merge(ignored, ignore), add);
  }

  lemma ApplyKeepsInv(row: Row, request: Selection, now: int)
    requires Inv(row)
    ensures Inv(Apply(row, request, now, true))
  {
    var e, r := Effective(row, request), Apply(row, request, now, true);
    EffectiveFacts(row, request);
    AppliedModels(row, request, now);
    AppliedLists(row, request, now);
    NormalizeCleans(r.ignored);
    forall x ensures x in Local(r) <==> (x in Local(row) && x !in e.remove) || x in e.add {
      DropMembers(Local(row), Elems(e.remove), x);
    }
    forall x ensures x in r.detected <==> x in row.detected && x !in e.add && x !in e.ignore {
      DropMembers(row.detected, Elems(e.add) + Elems(e.ignore), x);
    }
    forall x ensures x in r.removed <==> x in row.removed && x !in e.remove {
      DropMembers(row.removed, Elems(e.remove), x);
    }
  }

  /** Each application splits the pending additions into added, ignored and remaining: nothing is lost or
      duplicated, adding wins over ignoring, and an added name is not ignored afterwards. */
  lemma ApplySplitsPending(row: Row, request: Selection, now: int)
    requires Inv(row)
    ensures var e, r := Effective(row, request), Apply(row, request, now, true);
            && (forall x :: x in row.detected <==> x in e.add || x in Drop(e.ignore, Elems(e.add)) || x in r.detected)
            && (forall x :: x in e.add ==> x !in Drop(e.ignore, Elems(e.add)) && x !in r.detected && x !in r.ignored)
            && (forall x :: x in Drop(e.ignore, Elems(e.add)) ==> x !in r.detected && x in r.ignored)
            && (forall x :: x in e.add ==> x in Local(r))
            && (forall x :: x in row.removed <==> x in e.remove || x in r.removed)
            && (forall x :: x in e.remove ==> x !in r.removed && x !in Local(r))
  {
    var e, r := Effective(row, request), Apply(row, request, now, true);
    EffectiveFacts(row, request);
    AppliedModels(row, request, now);
    AppliedLists(row, request, now);
    forall x
      ensures x in Drop(e.ignore, Elems(e.add)) <==> x in e.ignore && x !in e.add
      ensures x in r.detected <==> x in row.detected && x !in e.add && x !in e.ignore
      ensures x in r.removed <==> x in row.removed && x !in e.remove
      ensures x in Local(r) <==> (x in Local(row) && x !in e.remove) || x in e.add
    {
      DropMembers(e.ignore, Elems(e.add), x);
      DropMembers(row.detected, Elems(e.add) + Elems(e.ignore), x);
      DropMembers(row.removed, Elems(e.remove), x);
      DropMembers(Local(row), Elems(e.remove), x);
    }
  }

  // ---------- automatic synchronization ----------

  /** A synchronization that is due and saved. */
  function Synced(row: Row, loaded: map<string, string>, upstream: seq<string>, now: int): Row {
    Check(row, loaded, true, true, 0, now, Some(upstream), true)
  }

  /** Automatic synchronization appends everything that is pending, in upstream order. */
  lemma AutoSyncFacts(row: Row, loaded: map<string, string>, upstream: seq<string>, now: int)
    requires CommaFree(upstream) && row.autoSync
    ensures var a, d := Synced(row, loaded, upstream, now), Detect(row, loaded, upstream, now);
            a == d.(models := a.models, detected := []) && Local(a) == Local(row) + d.detected
  {
    var d := Detect(row, loaded, upstream, now);
    DetectFacts(row, loaded, upstream, now);
    LocalIsClean(row);
    MergeAddsAll(row, d.detected);
    MergeFacts(Local(row), d.detected);
    WriteBack(Local(row) + d.detected);
  }

  /** Adding all that a detection found. */
  function DetectThenAdd(row: Row, loaded: map<string, string>, upstream: seq<string>, now: int): Row {
    var d := Detect(row, loaded, upstream, now);
    Apply(d, Selection(d.detected, [], []), now, true)
  }

  lemma DetectThenAddFacts(row: Row, loaded: map<string, string>, upstream: seq<string>, now: int)
    requires CommaFree(upstream)
    ensures var d, m := Detect(row, loaded, upstream, now), DetectThenAdd(row, loaded, upstream, now);
            && Local(m) == Local(row) + d.detected && m.detected == [] && m.removed == d.removed
            && (forall x :: x in m.ignored <==> x in Normalize(row.ignored))
  {
    var d := Detect(row, loaded, upstream, now);
    var request := Selection(d.detected, [], []);
    DetectFacts(row, loaded, upstream, now);
    var e := Effective(d, request);
    EffectiveFacts(d, request);
    AppliedModels(d, request, now);
    AppliedLists(d, request, now);
    NormalizeCleans(d.detected);
    AddEverything(d);
    DropNothing(Local(d), Elems(e.remove));
    DropNothing(d.removed, Elems(e.remove));
    DropEverything(d.detected, Elems(e.add) + Elems(e.ignore));
  }

  /** With the same redirects, automatic synchronization does what detecting and then adding everything by hand does. */
  lemma AutoSyncIsDetectThenAdd(row: Row, loaded: map<string, string>, upstream: seq<string>, now: int)
    requires CommaFree(upstream) && row.autoSync
    ensures var a, m := Synced(row, loaded, upstream, now), DetectThenAdd(row, loaded, upstream, now);
            && Local(a) == Local(m) && a.detected == m.detected && a.removed == m.removed
            && (forall x :: x in Normalize(a.ignored) <==> x in m.ignored)
  {
    DetectFacts(row, loaded, upstream, now);
    AutoSyncFacts(row, loaded, upstream, now);
    DetectThenAddFacts(row, loaded, upstream, now);
  }

  /** Selecting all pending additions adds them in the order they were found. */
  lemma AddEverything(row: Row)
    requires Clean(row.detected)
    ensures Intersect(row.detected, Normalize(row.detected)) == row.detected
  {
    NormalizeCleans(row.detected);
    KeepIsDrop(row.detected, Elems(row.detected), {});
    DropNothing(row.detected, {});
  }

  /** Whatever the row was, a synchronization leaves it consistent. */
  lemma SyncedIsConsistent(row: Row, loaded: map<string, string>, upstream: seq<string>, now: int)
    requires CommaFree(upstream) && row.autoSync
    ensures Inv(Synced(row, loaded, upstream, now))
  {
    var a, d := Synced(row, loaded, upstream, now), Detect(row, loaded, upstream, now);
    assert Inv(d) && Local(d) == Local(row) by { DetectFacts(row, loaded, upstream, now); }
    AutoSyncFacts(row, loaded, upstream, now);
    NothingPending(d, a);
  }

  /** A consistent row stays so when nothing is pending for addition any more and models come in. */
  lemma NothingPending(d: Row, a: Row)
    requires Inv(d) && a.detected == [] && a.removed == d.removed
    requires Local(a) == Local(d) + d.detected
    ensures Inv(a)
  {
  }

  lemma CheckKeepsInv(row: Row, loaded: map<string, string>, force: bool, allowAuto: bool, minInterval: int, now: int,
                      upstream: Option<seq<string>>, saved: bool)
    requires Inv(row) && (upstream.Some? ==> CommaFree(upstream.value))
    ensures Inv(Check(row, loaded, force, allowAuto, minInterval, now, upstream, saved))
  {
    var r := Check(row, loaded, force, allowAuto, minInterval, now, upstream, saved);
    if upstream.Some? && r != row {
      if allowAuto && row.autoSync {
        assert r == Synced(row, loaded, upstream.value, now);
        SyncedIsConsistent(row, loaded, upstream.value, now);
      } else {
        assert r == Detect(row, loaded, upstream.value, now);
        DetectFacts(row, loaded, upstream.value, now);
      }
    }
  }

  // ---------- who checks, and with which redirects ----------

  /** A single channel is loaded whole.  The task and the handlers for all channels select columns, and the redirects
      are not among them. */
  datatype Caller = DetectOne | DetectAll | Task

  function LoadedBy(row: Row, who: Caller): map<string, string> {
    if who.DetectOne? then row.mapping else map[]
  }

  /** Only the task waits for its interval, and only the task synchronizes by itself. */
  function CheckBy(row: Row, who: Caller, minInterval: int, now: int, upstream: Option<seq<string>>, saved: bool): Row {
    Check(row, LoadedBy(row, who), !who.Task?, who.Task?, minInterval, now, upstream, saved)
  }

  /** A check is written if and only if it is saved and, for the task, the last one is not too recent; any other caller
      checks at once.  Then the time of the check is set, and neither the synchronization switch nor the redirects
      change.  Only the task changes the models. */
  lemma CheckIsWrittenIff(row: Row, who: Caller, minInterval: int, now: int, upstream: Option<seq<string>>, saved: bool)
    requires row.lastCheck != now
    ensures var r := CheckBy(row, who, minInterval, now, upstream, saved);
            && (r.lastCheck == now <==>
                 saved && (who != Task || row.lastCheck <= 0 || now - row.lastCheck >= minInterval))
            && (r.lastCheck != now ==> r == row)
            && r.autoSync == row.autoSync && r.mapping == row.mapping && r.ignored == row.ignored
            && (who != Task || !row.autoSync ==> r.models == row.models)
            && (upstream.None? ==> r.models == row.models && r.detected == row.detected && r.removed == row.removed)
  {
  }

  /** An application that is saved sets the time of the check too, and one that is not changes nothing. */
  lemma ApplyIsWrittenIff(row: Row, request: Selection, now: int, saved: bool)
    ensures !saved ==> Apply(row, request, now, saved) == row
    ensures saved ==>
              && Apply(row, request, now, saved).lastCheck == now
              && Apply(row, request, now, saved).autoSync == row.autoSync
              && Apply(row, request, now, saved).mapping == row.mapping
  {
  }

  /** A redirect target that the channel neither serves nor ignores is listed upstream. */
  ghost predicate TargetListed(row: Row, upstream: seq<string>) {
    exists x :: x in row.mapping.Values && x in Normalize(upstream) && x !in Local(row) && x !in Normalize(row.ignored)
  }

  /** A redirect source that the channel serves is not listed upstream. */
  ghost predicate SourceUnlisted(row: Row, upstream: seq<string>) {
    exists x :: x in row.mapping.Keys && x in Local(row) && x !in Normalize(upstream)
  }

  lemma {:induction false} DropSameIff<T>(xs: seq<T>, s: set<T>, t: set<T>)
    requires s <= t
    ensures Drop(xs, s) == Drop(xs, t) <==> forall x :: x in xs && x in t ==> x in s
  {
    if forall x :: x in xs && x in t ==> x in s {
      DropAgrees(xs, s, t);
    } else {
      var x :| x in xs && x in t && x !in s;
      DropMembers(xs, s, x);
      DropMembers(xs, t, x);
    }
  }

  /** What the redirects change: without them a detection finds the same additions if and only if no unserved target
      is listed upstream, and the same removals if and only if every served source is. */
  lemma RedirectsMatterIff(row: Row, upstream: seq<string>, now: int)
    ensures Detect(row, map[], upstream, now).detected == Detect(row, row.mapping, upstream, now).detected <==>
              !TargetListed(row, upstream)
    ensures Detect(row, map[], upstream, now).removed == Detect(row, row.mapping, upstream, now).removed <==>
              !SourceUnlisted(row, upstream)
  {
    var none: map<string, string> := map[];
    DetectFacts(row, none, upstream, now);
    DetectFacts(row, row.mapping, upstream, now);
    var covered := Elems(Local(row)) + none.Values + Elems(Normalize(row.ignored));
    DropSameIff(Normalize(upstream), covered, Elems(Local(row)) + row.mapping.Values + Elems(Normalize(row.ignored)));
    DropSameIff(Local(row), none.Keys + Elems(Normalize(upstream)), row.mapping.Keys + Elems(Normalize(upstream)));
  }

  /** The task leaves the channel as detecting it alone and adding everything would, if and only if no unserved
      redirect target is listed upstream and every served redirect source is. */
  lemma TaskIsDetectThenAddIff(row: Row, minInterval: int, now: int, upstream: seq<string>)
    requires CommaFree(upstream) && row.autoSync && !TooSoon(row, false, minInterval, now)
    ensures var a := CheckBy(row, Task, minInterval, now, Some(upstream), true);
            var m := DetectThenAdd(row, row.mapping, upstream, now);
            Local(a) == Local(m) && a.detected == m.detected && a.removed == m.removed <==>
              !TargetListed(row, upstream) && !SourceUnlisted(row, upstream)
  {
    var none: map<string, string> := map[];
    assert CheckBy(row, Task, minInterval, now, Some(upstream), true) == Synced(row, none, upstream, now);
    AutoSyncFacts(row, none, upstream, now);
    DetectThenAddFacts(row, row.mapping, upstream, now);
    RedirectsMatterIff(row, upstream, now);
    SameTail(Local(row), Detect(row, none, upstream, now).detected, Detect(row, row.mapping, upstream, now).detected);
  }

  lemma SameTail<T>(xs: seq<T>, ys: seq<T>, zs: seq<T>)
    ensures xs + ys == xs + zs <==> ys == zs
  {
    assert (xs + ys)[|xs|..] == ys && (xs + zs)[|xs|..] == zs;
  }

  /** A round over all channels, detecting and applying everything, keeps the redirect sources a channel serves if and
      only if upstream lists them all. */
  lemma BatchKeepsSourcesIff(row: Row, upstream: seq<string>, t0: int, t1: int)
    requires CommaFree(upstream)
    ensures var d := CheckBy(row, DetectAll, 0, t0, Some(upstream), true);
            var r := Apply(d, Everything(d), t1, true);
            (forall x :: x in row.mapping.Keys && x in Local(row) ==> x in Local(r)) <==> !SourceUnlisted(row, upstream)
  {
    var none: map<string, string> := map[];
    var d := Detect(row, none, upstream, t0);
    var r := Apply(d, Everything(d), t1, true);
    OneRoundConverges(row, none, upstream, t0, t1, t1);
    DetectFacts(row, none, upstream, t0);
    forall x | x in Local(row) ensures x in Local(r) <==> x in Normalize(upstream) {
      DropMembers(Local(row), Elems(d.removed), x);
    }
  }

  lemma DetectOneName(row: Row, loaded: map<string, string>, source: string, target: string, now: int)
    requires Local(row) == [source] && row.ignored == [] && Clean([target]) && source != target
    ensures Detect(row, loaded, [target], now).detected == if target in loaded.Values then [] else [target]
    ensures Detect(row, loaded, [target], now).removed == if source in loaded.Keys then [] else [source]
  {
    NormalizeCleans([target]);
    DetectFacts(row, loaded, [target], now);
    OneDropped(target, Elems([source]) + loaded.Values + Elems(Normalize([])));
    OneDropped(source, loaded.Keys + Elems([target]));
  }

  /** A channel serves one name, redirected to a name that is all upstream lists, and ignores nothing.  Detecting it
      alone finds nothing to change. */
  lemma DetectAloneFindsNothing(row: Row, source: string, target: string, minInterval: int, now: int)
    requires Local(row) == [source] && row.mapping == map[source := target] && row.ignored == []
    requires Clean([target]) && source != target
    ensures var d := CheckBy(row, DetectOne, minInterval, now, Some([target]), true);
            d.detected == [] && d.removed == [] && d.models == row.models
  {
    DetectOneName(row, row.mapping, source, target, now);
    assert row.mapping[source] == target;
    assert CheckBy(row, DetectOne, minInterval, now, Some([target]), true) == Detect(row, row.mapping, [target], now);
  }

  /** But the task adds the target. */
  lemma TaskAddsTarget(row: Row, source: string, target: string, now: int)
    requires Local(row) == [source] && row.mapping == map[source := target] && row.ignored == [] && row.autoSync
    requires Clean([target]) && CommaFree([target]) && source != target
    ensures Local(Synced(row, LoadedBy(row, Task), [target], now)) == [source, target]
  {
    DetectOneName(row, map[], source, target, now);
    AutoSyncFacts(row, map[], [target], now);
  }

  /** And detecting and applying over all channels replaces the source by the target. */
  lemma BatchDropsSource(row: Row, source: string, target: string, now: int)
    requires Local(row) == [source] && row.mapping == map[source := target] && row.ignored == []
    requires Clean([target]) && CommaFree([target]) && source != target
    ensures var d := Detect(row, LoadedBy(row, DetectAll), [target], now);
            Local(Apply(d, Everything(d), now, true)) == [target]
  {
    DetectOneName(row, map[], source, target, now);
    OneRoundConverges(row, map[], [target], now, now, now);
    OneDropped(source, Elems([source]));
  }

  /** A stored column of one name is such a channel. */
  lemma OneNameServed(source: string, target: string)
    requires Clean([source]) && CommaFree([source])
    ensures Local(Row(source, [], [], [], 0, true, map[source := target])) == [source]
  {
    WriteBack([source]);
  }

  lemma OneDropped(x: string, s: set<string>)
    ensures Drop([x], s) == if x in s then [] else [x]
  {
    assert [x][..0] == [];
  }

  // ---------- convergence ----------

  /** After detecting and applying any selection, detecting again against the same upstream finds exactly what was
      left pending, in the same order. */
  lemma RedetectionFindsTheRest(row: Row, loaded: map<string, string>, upstream: seq<string>, request: Selection,
                                t0: int, t1: int, t2: int)
    requires CommaFree(upstream)
    ensures var r := Apply(Detect(row, loaded, upstream, t0), request, t1, true);
            var again := Detect(r, loaded, upstream, t2);
            again.detected == r.detected && again.removed == r.removed && Local(again) == Local(r)
  {
    var d := Detect(row, loaded, upstream, t0);
    var e, r := Effective(d, request), Apply(d, request, t1, true);
    DetectFacts(row, loaded, upstream, t0);
    EffectiveFacts(d, request);
    AppliedModels(d, request, t1);
    AppliedLists(d, request, t1);
    DetectFacts(r, loaded, upstream, t2);
    NormalizeCleans(r.ignored);
    RestOfAdditions(row, loaded, upstream, d, e, r);
    RestOfRemovals(row, loaded, upstream, e, r);
  }

  lemma RestOfAdditions(row: Row, loaded: map<string, string>, upstream: seq<string>, d: Row, e: Selection, r: Row)
    requires Local(r) == Drop(Local(row), Elems(e.remove)) + e.add
    requires forall x :: x in e.remove ==> x !in Normalize(upstream)
    requires forall x :: x in Normalize(r.ignored) <==> (x in Normalize(row.ignored) || x in e.ignore) && x !in e.add
    requires d.detected == Drop(Normalize(upstream), Elems(Local(row)) + loaded.Values + Elems(Normalize(row.ignored)))
    ensures Drop(Normalize(upstream), Elems(Local(r)) + loaded.Values + Elems(Normalize(r.ignored)))
            == Drop(d.detected, Elems(e.add) + Elems(e.ignore))
  {
    var u := Normalize(upstream);
    var before := Elems(Local(row)) + loaded.Values + Elems(Normalize(row.ignored));
    var after := Elems(Local(r)) + loaded.Values + Elems(Normalize(r.ignored));
    DropTwice(u, before, Elems(e.add) + Elems(e.ignore));
    forall x | x in u ensures x in after <==> x in before + (Elems(e.add) + Elems(e.ignore)) {
      CoveredAfter(row, e, r, x);
    }
    DropAgrees(u, after, before + (Elems(e.add) + Elems(e.ignore)));
  }

  lemma CoveredAfter(row: Row, e: Selection, r: Row, x: string)
    requires Local(r) == Drop(Local(row), Elems(e.remove)) + e.add && x !in e.remove
    requires x in Normalize(r.ignored) <==> (x in Normalize(row.ignored) || x in e.ignore) && x !in e.add
    ensures x in Local(r) || x in Normalize(r.ignored) <==>
            x in Local(row) || x in Normalize(row.ignored) || x in e.add || x in e.ignore
  {
    DropMembers(Local(row), Elems(e.remove), x);
  }

  lemma RestOfRemovals(row: Row, loaded: map<string, string>, upstream: seq<string>, e: Selection, r: Row)
    requires Local(r) == Drop(Local(row), Elems(e.remove)) + e.add
    requires forall x :: x in e.add ==> x in Normalize(upstream)
    ensures Drop(Local(r), loaded.Keys + Elems(Normalize(upstream)))
            == Drop(Drop(Local(row), loaded.Keys + Elems(Normalize(upstream))), Elems(e.remove))
  {
    var stays := loaded.Keys + Elems(Normalize(upstream));
    DropConcat(Drop(Local(row), Elems(e.remove)), e.add, stays);
    DropEverything(e.add, stays);
    DropTwice(Local(row), Elems(e.remove), stays);
    DropTwice(Local(row), stays, Elems(e.remove));
    assert Elems(e.remove) + stays == stays + Elems(e.remove);
  }

  /** Selecting everything that is pending. */
  function Everything(row: Row): Selection {
    Selection(row.detected, [], row.removed)
  }

  lemma EverythingIsEffective(row: Row)
    requires Inv(row)
    ensures var e := Effective(row, Everything(row));
            && e.add == row.detected && (forall x :: x !in e.ignore) && (forall x :: x in e.remove <==> x in row.removed)
  {
    NormalizeCleans(row.detected);
    NormalizeCleans(row.removed);
    AddEverything(row);
    EffectiveFacts(row, Everything(row));
  }

  /** One round converges: detect, apply everything, detect again leaves nothing pending.  The list is then the
      survivors in their old order followed by the new names in upstream order, and it keeps redirect sources. */
  lemma OneRoundConverges(row: Row, loaded: map<string, string>, upstream: seq<string>, t0: int, t1: int, t2: int)
    requires CommaFree(upstream)
    ensures var d := Detect(row, loaded, upstream, t0);
            var again := Detect(Apply(d, Everything(d), t1, true), loaded, upstream, t2);
            && again.detected == [] && again.removed == []
            && Local(Apply(d, Everything(d), t1, true)) == Local(again)
            && Local(again) == Drop(Local(row), Elems(d.removed)) + d.detected
            && (forall x :: x in Local(row) && (x in loaded.Keys || x in Normalize(upstream)) ==> x in Local(again))
  {
    var d := Detect(row, loaded, upstream, t0);
    var r := Apply(d, Everything(d), t1, true);
    var e := Effective(d, Everything(d));
    DetectFacts(row, loaded, upstream, t0);
    EverythingIsEffective(d);
    RedetectionFindsTheRest(row, loaded, upstream, Everything(d), t0, t1, t2);
    AppliedLists(d, Everything(d), t1);
    AppliedModels(d, Everything(d), t1);
    DropEverything(d.detected, Elems(e.add) + Elems(e.ignore));
    DropEverything(d.removed, Elems(e.remove));
    DropAgrees(Local(row), Elems(e.remove), Elems(d.removed));
    forall x | x in Local(row) && (x in loaded.Keys || x in Normalize(upstream)) ensures x in Local(r) {
      DropMembers(Local(row), Elems(d.removed), x);
    }
  }

  lemma ConvergesOnNames(row: Row, loaded: map<string, string>, upstream: seq<string>, t: int)
    requires CommaFree(Normalize(upstream))
    ensures var d := Detect(row, loaded, upstream, t);
            Detect(Apply(d, Everything(d), t, true), loaded, upstream, t).detected == []
  {
    var names := Normalize(upstream);
    NormalizeCleans(upstream);
    NormalizeCleans(names);
    var d := Detect(row, loaded, upstream, t);
    assert Detect(row, loaded, names, t) == d;
    var r := Apply(d, Everything(d), t, true);
    assert Detect(r, loaded, names, t) == Detect(r, loaded, upstream, t);
    OneRoundConverges(row, loaded, names, t, t, t);
  }

  /** A name holding a comma is torn apart by the column it is stored in, so it stays pending for ever: one round
      converges for every row and whatever redirects are loaded exactly when the upstream's names are comma-free. */
  lemma ConvergesIffCommaFree(upstream: seq<string>, t: int)
    ensures (forall row, loaded :: var d := Detect(row, loaded, upstream, t);
                                   Detect(Apply(d, Everything(d), t, true), loaded, upstream, t).detected == [])
            <==> CommaFree(Normalize(upstream))
  {
    if CommaFree(Normalize(upstream)) {
      forall row: Row, loaded: map<string, string>
        ensures var d := Detect(row, loaded, upstream, t);
                Detect(Apply(d, Everything(d), t, true), loaded, upstream, t).detected == []
      {
        ConvergesOnNames(row, loaded, upstream, t);
      }
    } else {
      CommaStaysPending(upstream, t);
    }
  }

  lemma CommaStaysPending(upstream: seq<string>, t: int)
    requires !CommaFree(Normalize(upstream))
    ensures var d := Detect(Row("", [], [], [], 0, false, map[]), map[], upstream, t);
            Detect(Apply(d, Everything(d), t, true), map[], upstream, t).detected != []
  {
    var x :| x in Normalize(upstream) && !Delimited.Free(x, ',');
    var row := Row("", [], [], [], 0, false, map[]);
    var d := Detect(row, map[], upstream, t);
    var r := Apply(d, Everything(d), t, true);
    DetectFacts(r, map[], upstream, t);
    LocalIsClean(r);
    NothingIgnored(row, map[], upstream, t);
    assert x in Detect(r, map[], upstream, t).detected;
  }

  lemma NothingIgnored(row: Row, loaded: map<string, string>, upstream: seq<string>, t: int)
    requires row.ignored == []
    ensures var d := Detect(row, loaded, upstream, t); Apply(d, Everything(d), t, true).ignored == []
  {
    var d := Detect(row, loaded, upstream, t);
    IntersectFacts([], Normalize(d.detected));
    assert Effective(d, Everything(d)).ignore == [];
  }
}
