/** Multi-key channels while others act on them.  A management request, a report on a key (that it failed, or works
    again) and the polling of the next key load the channel, work on that copy and save it later.  The locks they take
    are held neither at the load nor, for a report, at the save.  A run is any interleaving of loads and saves. */
module MultiKeyRuns {
  import opened Options
  import opened MultiKey
  import Delimited

  datatype Action =
    | Disable(index: Option<int>)
    | Enable(index: Option<int>)
    | EnableAll
    | DisableAll
    | Delete(index: Option<int>)
    | DeleteDisabled
    | Append(input: string)
    | Report(using: string, status: int, now: int, reason: string)
    | Poll

  /** Management requests, as opposed to reports and polling. */
  predicate Manages(a: Action) {
    !a.Report? && !a.Poll?
  }

  /** What a management action makes of its copy. */
  function EditOf(copy: Row, a: Action): Edit
    requires Manages(a)
  {
    match a
    case Disable(i) => Disabling(copy, i)
    case Enable(i) => Enabling(copy, i)
    case EnableAll => Save(copy.key, Info(map[], map[], map[]))
    case DisableAll => AllDisabling(copy)
    case Delete(i) => Deletion(copy, i)
    case DeleteDisabled => DisabledDeletion(copy)
    case Append(input) => Appending(copy, input)
  }

  predicate HasEnabled(copy: Row) {
    exists i :: 0 <= i < |Keys(copy)| && StatusOf(copy.info, i) == ENABLED
  }

  /** What reports and polling save, always without the key column.  Polling saves its copy as it is, but for the
      polling index, once it has found an enabled key; it does so only without the memory cache. */
  function InfoFrom(copy: Row, a: Action): Option<Info>
    requires !Manages(a)
  {
    if a.Report? then Some(KeyReported(copy, a.using, a.status, a.now, a.reason).info)
    else if HasEnabled(copy) then Some(copy.info) else None
  }

  /** A management action saves through Channel.Update. */
  function SavedFrom(row: Row, copy: Row, a: Action): Row {
    if Manages(a) then Commit(row, EditOf(copy, a))
    else if InfoFrom(copy, a).None? then row
    else row.(size := copy.size, info := InfoFrom(copy, a).value)
  }

  datatype Store = Store(row: Row, copies: map<nat, Row>)

  datatype Event = Loaded(k: nat) | Saved(k: nat, action: Action)

  function Step(s: Store, e: Event): Store {
    if e.Loaded? then s.(copies := s.copies[e.k := s.row])
    else if e.k !in s.copies then s
    else Store(SavedFrom(s.row, s.copies[e.k], e.action), s.copies - {e.k})
  }

  function Exec(s: Store, es: seq<Event>): Store {
    if es == [] then s else Step(Exec(s, es[..|es| - 1]), es[|es| - 1])
  }

  /** Saved over the row it was loaded from, each action does what the results on single actions say. */
  lemma UndisturbedAction(row: Row, a: Action)
    ensures SavedFrom(row, row, a) ==
            match a
            case Disable(i) => DisableKey(row, i)
            case Enable(i) => EnableKey(row, i)
            case EnableAll => EnableAllKeys(row)
            case DisableAll => DisableAllKeys(row)
            case Delete(i) => DeleteKey(row, i)
            case DeleteDisabled => DeleteDisabledKeys(row)
            case Append(input) => AppendKeys(row, input)
            case Report(using, status, now, reason) => KeyReported(row, using, status, now, reason)
            case Poll => row
  {
  }

  // ---------- counts and statuses ----------

  lemma StoredIsSound(before: Row, key: string, info: Info)
    requires forall i :: i in info.status ==> i >= 0
    ensures Sound(Stored(before, key, info)) && (before.key != "" ==> Stored(before, key, info).key != "")
  {
  }

  lemma EditHasPositions(copy: Row, a: Action)
    requires Sound(copy) && Manages(a) && EditOf(copy, a).Save?
    ensures forall i :: i in EditOf(copy, a).info.status ==> i >= 0
  {
    match a
    case DisableAll => TurnedOffFacts(copy.info.status, copy.size);
    case Delete(i) => RetainFilters(Keys(copy), copy.info, {i.value}, true, |Keys(copy)|);
    case DeleteDisabled => RetainFilters(Keys(copy), copy.info, Failed(copy), false, |Keys(copy)|);
    case _ =>
  }

  /** A save without the key column finds as many keys as its copy had. */
  predicate Timely(row: Row, copy: Row, a: Action) {
    !Manages(a) && (a.Poll? ==> HasEnabled(copy)) ==> |Keys(row)| == |Keys(copy)|
  }

  lemma SaveIsSoundIff(row: Row, copy: Row, a: Action)
    requires Sound(row) && Sound(copy)
    ensures Sound(SavedFrom(row, copy, a)) <==> Timely(row, copy, a)
    ensures row.key != "" ==> SavedFrom(row, copy, a).key != ""
  {
    if Manages(a) {
      var e := EditOf(copy, a);
      if e.Save? {
        EditHasPositions(copy, a);
        StoredIsSound(row, e.key, e.info);
      }
    }
  }

  ghost predicate AllSound(s: Store) {
    Sound(s.row) && forall k :: k in s.copies ==> Sound(s.copies[k])
  }

  predicate TimelyStep(s: Store, e: Event) {
    e.Saved? && e.k in s.copies ==> Timely(s.row, s.copies[e.k], e.action)
  }

  /** The row is sound after each event of the run. */
  ghost predicate SoundThroughout(s: Store, es: seq<Event>) {
    es == [] || (SoundThroughout(s, es[..|es| - 1]) && Sound(Exec(s, es).row))
  }

  /** No write that changes the number of keys falls between the load and the save of a report or a polling. */
  ghost predicate TimelyThroughout(s: Store, es: seq<Event>) {
    es == [] || (TimelyThroughout(s, es[..|es| - 1]) && TimelyStep(Exec(s, es[..|es| - 1]), es[|es| - 1]))
  }

  lemma StepIsSoundIff(s: Store, e: Event)
    requires AllSound(s)
    ensures Sound(Step(s, e).row) <==> TimelyStep(s, e)
    ensures Sound(Step(s, e).row) ==> AllSound(Step(s, e))
  {
    if e.Saved? && e.k in s.copies {
      SaveIsSoundIff(s.row, s.copies[e.k], e.action);
    }
  }

  /** Through a whole run the count is the number of keys and no status lies outside them, if and only if the save of
      each report and of each polling finds as many keys as were loaded.  Management requests may overlap at will. */
  lemma {:induction false} RunsKeepSoundIff(s: Store, es: seq<Event>)
    requires AllSound(s)
    ensures SoundThroughout(s, es) <==> TimelyThroughout(s, es)
    ensures SoundThroughout(s, es) ==> AllSound(Exec(s, es))
  {
    if es != [] {
      var init, e := es[..|es| - 1], es[|es| - 1];
      RunsKeepSoundIff(s, init);
      if SoundThroughout(s, init) {
        StepIsSoundIff(Exec(s, init), e);
      }
    }
  }

  /** A channel that has a key keeps having one, in every run. */
  lemma {:induction false} RunsKeepAKey(s: Store, es: seq<Event>)
    requires s.row.key != ""
    ensures Exec(s, es).row.key != ""
  {
    if es != [] {
      RunsKeepAKey(s, es[..|es| - 1]);
    }
  }

  // ---------- blank keys, times and reasons ----------

  lemma LeftAreProper(row: Row, drop: set<int>)
    requires Delimited.NoEmpty(Keys(row))
    ensures var left := Without(Keys(row), drop); Delimited.NoEmpty(left) && (left != [] ==> Delimited.EndsProper(left))
  {
    var left := Without(Keys(row), drop);
    WithoutLength(Keys(row), drop);
    forall j | 0 <= j < |left| ensures left[j] != "" {
      assert left[j] in left;
      var i :| 0 <= i < |Keys(row)| && Keys(row)[i] == left[j];
    }
  }

  /** An edit of a column without blank keys: its side maps fit the keys it saves, or the keys that were there. */
  ghost predicate Fits(e: Edit) {
    e.Save? ==>
      if e.key == "" then e.info == Info(map[], map[], map[])
      else var keys := Delimited.ReadList(e.key, '\n'); Delimited.NoEmpty(keys) && InfoWithin(e.info, |keys|)
  }

  lemma CommitIsValid(row: Row, e: Edit)
    requires Valid(row) && Fits(e)
    ensures Valid(Commit(row, e))
  {
    if e.Save? {
      StoredListing(row, e.key, e.info);
    }
  }

  lemma RetainedFits(copy: Row, drop: set<int>, always: bool)
    requires Valid(copy) && exists i :: 0 <= i < |Keys(copy)| && i in drop
    ensures var k := Retain(Keys(copy), copy.info, drop, always, |Keys(copy)|);
            Fits(Save(Delimited.Join(k.keys, '\n'), k.info))
  {
    var k := Retain(Keys(copy), copy.info, drop, always, |Keys(copy)|);
    RetainedListing(copy, drop, always);
    LeftAreProper(copy, drop);
    if k.keys == [] {
      NothingRetained(Keys(copy), copy.info, drop, always, |Keys(copy)|);
    }
  }

  lemma {:induction false} NothingRetained(keys: seq<string>, info: Info, drop: set<int>, always: bool, n: nat)
    requires n <= |keys| && Retain(keys, info, drop, always, n).keys == []
    ensures Retain(keys, info, drop, always, n).info == Info(map[], map[], map[])
  {
    if n > 0 && n - 1 in drop { NothingRetained(keys, info, drop, always, n - 1); }
  }

  lemma JoinedFits(keys: seq<string>, info: Info)
    requires keys != [] && Delimited.AllFree(keys, '\n') && Delimited.NoEmpty(keys) && InfoWithin(info, |keys|)
    ensures Fits(Save(Delimited.Join(keys, '\n'), info))
  {
    Delimited.RoundTripIff(keys, '\n');
  }

  lemma AppendingFits(copy: Row, input: string)
    requires Valid(copy) && copy.key != ""
    ensures Fits(Appending(copy, input))
  {
    var keys, added := Keys(copy), Added(copy, input);
    AddedIsProper(copy, input);
    KeysAreFree(copy);
    Delimited.ReadListEnds(copy.key, '\n');
    JoinedFits(keys + added, copy.info);
    assert Appending(copy, input) == Save(Delimited.Join(keys + added, '\n'), copy.info);
  }

  lemma EditFits(copy: Row, a: Action)
    requires Valid(copy) && copy.key != "" && Manages(a)
    ensures Fits(EditOf(copy, a))
  {
    match a
    case Delete(i) =>
      if !BadIndex(copy, i) { RetainedFits(copy, {i.value}, true); }
    case DeleteDisabled =>
      if Failed(copy) != {} { RetainedFits(copy, Failed(copy), false); }
    case Append(input) => AppendingFits(copy, input);
    case DisableAll => TurnedOffFacts(copy.info.status, copy.size);
    case _ =>
  }

  lemma SaveIsValidIff(row: Row, copy: Row, a: Action)
    requires Valid(row) && Valid(copy) && copy.key != ""
    ensures Valid(SavedFrom(row, copy, a)) <==> Timely(row, copy, a)
  {
    if Manages(a) {
      EditFits(copy, a);
      CommitIsValid(row, EditOf(copy, a));
    }
  }

  ghost predicate AllValid(s: Store) {
    && Valid(s.row) && s.row.key != ""
    && forall k :: k in s.copies ==> Valid(s.copies[k]) && s.copies[k].key != ""
  }

  lemma StepIsValidIff(s: Store, e: Event)
    requires AllValid(s)
    ensures Valid(Step(s, e).row) <==> TimelyStep(s, e)
    ensures Valid(Step(s, e).row) ==> AllValid(Step(s, e))
  {
    if e.Saved? && e.k in s.copies {
      SaveIsValidIff(s.row, s.copies[e.k], e.action);
      SaveIsSoundIff(s.row, s.copies[e.k], e.action);
    }
  }

  /** The row is valid after each event of the run. */
  ghost predicate ValidThroughout(s: Store, es: seq<Event>) {
    es == [] || (ValidThroughout(s, es[..|es| - 1]) && Valid(Exec(s, es).row))
  }

  /** The same condition decides whether a channel that has a key and no blank one stays so, with no time or reason
      outside its keys either. */
  lemma {:induction false} RunsKeepValidIff(s: Store, es: seq<Event>)
    requires AllValid(s)
    ensures ValidThroughout(s, es) <==> TimelyThroughout(s, es)
    ensures ValidThroughout(s, es) ==> AllValid(Exec(s, es))
  {
    if es != [] {
      var init, e := es[..|es| - 1], es[|es| - 1];
      RunsKeepValidIff(s, init);
      if ValidThroughout(s, init) {
        StepIsValidIff(Exec(s, init), e);
      }
    }
  }

  // ---------- reports that overlap ----------

  lemma ExecOneMore(s: Store, es: seq<Event>, e: Event)
    ensures Exec(s, es + [e]) == Step(Exec(s, es), e)
  {
    assert (es + [e])[..|es + [e]| - 1] == es;
  }

  /** One action loads the channel, another loads and saves it, and then the first saves. */
  function Overlap(second: Action, first: Action): seq<Event> {
    [Loaded(0)] + [Loaded(1)] + [Saved(1, second)] + [Saved(0, first)]
  }

  lemma OverlapRun(row: Row, second: Action, first: Action)
    ensures Exec(Store(row, map[]), Overlap(second, first)).row == SavedFrom(SavedFrom(row, row, second), row, first)
  {
    var s := Store(row, map[]);
    ExecOneMore(s, [], Loaded(0));
    ExecOneMore(s, [Loaded(0)], Loaded(1));
    ExecOneMore(s, [Loaded(0)] + [Loaded(1)], Saved(1, second));
    ExecOneMore(s, [Loaded(0)] + [Loaded(1)] + [Saved(1, second)], Saved(0, first));
    assert [] + [Loaded(0)] == [Loaded(0)];
  }

  lemma {:induction false} WithoutOne<T>(xs: seq<T>, j: nat)
    requires j < |xs|
    ensures Without(xs, {j}) == xs[..j] + xs[j + 1..]
  {
    var init := xs[..|xs| - 1];
    if j == |xs| - 1 {
      WithoutAll(init, {j});
    } else {
      WithoutOne(init, j);
      assert init[j + 1..] + [xs[|xs| - 1]] == xs[j + 1..];
    }
  }

  lemma LeftAfterOne(row: Row, j: nat)
    requires Valid(row) && j < |Keys(row)| && |Keys(row)| > 1
    ensures Without(Keys(row), {j}) != [] && Delimited.EndsProper(Without(Keys(row), {j}))
  {
    WithoutOne(Keys(row), j);
    LeftAreProper(row, {j});
  }

  lemma DeletedKeys(row: Row, j: nat)
    requires Valid(row) && j < |Keys(row)| && Without(Keys(row), {j}) != []
    requires Delimited.EndsProper(Without(Keys(row), {j}))
    ensures Keys(DeleteKey(row, Some(j))) == Without(Keys(row), {j})
  {
    RetainedListing(row, {j}, true);
  }

  /** The report says that the key is not to be used. */
  predicate Disables(a: Action) {
    a.Report? && a.status != ENABLED
  }

  /** The row when the report has saved. */
  lemma ReportAfterDeletion(row: Row, j: nat, report: Action)
    requires Valid(row) && j < |Keys(row)| && |Keys(row)| > 1 && Disables(report)
    ensures var r := Exec(Store(row, map[]), Overlap(Delete(Some(j)), report)).row;
            var i := PositionOf(Keys(row), report.using);
            && Keys(r) == Keys(row)[..j] + Keys(row)[j + 1..] && r.size == |Keys(row)|
            && r.info.status == row.info.status[i := report.status]
  {
    OverlapRun(row, Delete(Some(j)), report);
    LeftAfterOne(row, j);
    DeletedKeys(row, j);
    WithoutOne(Keys(row), j);
  }

  /** Deleting any key between the load and the save of such a report leaves a count of one too many. */
  lemma DeletionMiscounts(row: Row, j: nat, report: Action)
    requires Valid(row) && j < |Keys(row)| && |Keys(row)| > 1 && Disables(report)
    ensures var r := Exec(Store(row, map[]), Overlap(Delete(Some(j)), report)).row;
            !Sound(r) && r.size == |Keys(r)| + 1
  {
    ReportAfterDeletion(row, j, report);
  }

  lemma ShiftedKeys(keys: seq<string>, left: seq<string>, j: nat, i: nat)
    requires j < i < |keys| && left == keys[..j] + keys[j + 1..]
    ensures |left| == |keys| - 1 && left[i - 1] == keys[i] && (i < |left| ==> left[i] == keys[i + 1])
  {
  }

  /** When the deleted key came before the reported one, the reported key has the status the key before it had, and the
      report, if it is recorded of any key, is recorded of the one after it. */
  lemma DeletionShiftsReport(row: Row, j: nat, report: Action)
    requires Valid(row) && Disables(report) && j < PositionOf(Keys(row), report.using)
    ensures var r := Exec(Store(row, map[]), Overlap(Delete(Some(j)), report)).row;
            var i := PositionOf(Keys(row), report.using);
            && |Keys(r)| == |Keys(row)| - 1
            && Keys(r)[i - 1] == Keys(row)[i] && StatusOf(r.info, i - 1) == StatusOf(row.info, i - 1)
            && (i < |Keys(r)| ==> Keys(r)[i] == Keys(row)[i + 1] && StatusOf(r.info, i) == report.status)
  {
    ReportAfterDeletion(row, j, report);
    ShiftedKeys(Keys(row), Keys(row)[..j] + Keys(row)[j + 1..], j, PositionOf(Keys(row), report.using));
  }

  /** Polling that loads before a report and saves after it undoes the report: the channel is as it was. */
  lemma PollingUndoesReport(row: Row, report: Action)
    requires report.Report? && HasEnabled(row)
    ensures Exec(Store(row, map[]), Overlap(report, Poll)).row == row
  {
    OverlapRun(row, report, Poll);
  }
}
