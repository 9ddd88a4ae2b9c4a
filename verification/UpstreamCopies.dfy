/** Reconciliation while others reconcile.  Every handler, and the task, loads a channel, works on that copy, and
    writes from it later, over whatever the row holds by then.  A run is any interleaving of loads and writes. */
module UpstreamCopies {
  import opened Options
  import opened Lists
  import opened ModelNames
  import opened UpstreamSync
  import opened UpstreamRuns

  /** Who has loaded a copy, and for what. */
  datatype Holder = Checker(who: Caller) | Applier

  /** The mapping of a copy is what its holder has loaded of it. */
  datatype Copy = Copy(row: Row, holder: Holder)

  /** The stored row and the copies not yet written back. */
  datatype Store = Store(row: Row, copies: map<nat, Copy>)

  datatype Event =
    | Loaded(k: nat, holder: Holder)
    | Checked(k: nat, who: Caller, minInterval: int, now: int, upstream: Option<seq<string>>, saved: bool)
    | Applied(k: nat, request: Selection, now: int, saved: bool)

  /** What an event writes over the row, from the copy it holds. */
  function WrittenFrom(row: Row, copy: Row, e: Event): Row
    requires !e.Loaded?
  {
    match e
    case Checked(k, who, minInterval, now, upstream, saved) =>
      CheckOver(row, copy, !who.Task?, who.Task?, minInterval, now, upstream, saved)
    case Applied(k, request, now, saved) => ApplyOver(row, copy, request, now, saved)
  }

  function HolderOf(e: Event): Holder {
    match e
    case Loaded(_, holder) => holder
    case Checked(_, who, _, _, _, _) => Checker(who)
    case Applied(_, _, _, _) => Applier
  }

  /** What a holder loads.  An application makes no use of the redirects. */
  function LoadedFor(row: Row, holder: Holder): Row {
    if holder.Checker? then row.(mapping := LoadedBy(row, holder.who)) else row
  }

  /** The event writes a copy that is there and was loaded for it. */
  predicate Writes(s: Store, e: Event) {
    !e.Loaded? && e.k in s.copies && s.copies[e.k].holder == HolderOf(e)
  }

  function Step(s: Store, e: Event): Store {
    if e.Loaded? then s.(copies := s.copies[e.k := Copy(LoadedFor(s.row, e.holder), e.holder)])
    else if !Writes(s, e) then s
    else Store(WrittenFrom(s.row, s.copies[e.k].row, e), s.copies - {e.k})
  }

  function Exec(s: Store, es: seq<Event>): Store {
    if es == [] then s else Step(Exec(s, es[..|es| - 1]), es[|es| - 1])
  }

  ghost predicate CommaFreeEvent(e: Event) {
    e.Checked? && e.upstream.Some? ==> CommaFree(e.upstream.value)
  }

  ghost predicate CommaFreeEvents(es: seq<Event>) {
    forall i :: 0 <= i < |es| ==> CommaFreeEvent(es[i])
  }

  /** A check that writes before anyone else does is one step of its own, */
  lemma UndisturbedCheck(row: Row, who: Caller, minInterval: int, now: int, upstream: Option<seq<string>>, saved: bool)
    ensures CheckOver(row, row.(mapping := LoadedBy(row, who)), !who.Task?, who.Task?, minInterval, now, upstream, saved)
            == CheckBy(row, who, minInterval, now, upstream, saved)
  {
  }

  /** and so is an application. */
  lemma UndisturbedApply(row: Row, who: Caller, request: Selection, now: int, saved: bool)
    ensures ApplyOver(row, row.(mapping := LoadedBy(row, who)), request, now, saved) == Apply(row, request, now, saved)
  {
  }

  /** What a check from a copy leaves in each column besides the lists: the copy's settings with the new time, the row's
      redirects, and the row's models unless the check added to the copy's. */
  lemma CheckOverColumns(row: Row, copy: Row, who: Caller, minInterval: int, now: int, upstream: Option<seq<string>>)
    requires who != Task || copy.lastCheck <= 0 || now - copy.lastCheck >= minInterval
    ensures var r := CheckOver(row, copy, !who.Task?, who.Task?, minInterval, now, upstream, true);
            && r.lastCheck == now && r.autoSync == copy.autoSync && r.mapping == row.mapping
            && (upstream.None? || who != Task || !copy.autoSync ==> r.models == row.models)
  {
  }

  lemma ApplyOverColumns(row: Row, copy: Row, request: Selection, now: int)
    ensures var r := ApplyOver(row, copy, request, now, true);
            r.lastCheck == now && r.autoSync == copy.autoSync && r.mapping == row.mapping
  {
  }

  // ---------- the settings ----------

  ghost predicate AllTidy(s: Store) {
    Tidy(s.row) && forall k :: k in s.copies ==> Tidy(s.copies[k].row)
  }

  lemma CheckIsTidy(copy: Row, force: bool, allowAuto: bool, minInterval: int, now: int, upstream: Option<seq<string>>)
    requires Tidy(copy) && (upstream.Some? ==> CommaFree(upstream.value))
    ensures Tidy(Check(copy, copy.mapping, force, allowAuto, minInterval, now, upstream, true))
  {
    if upstream.Some? {
      var d := Detect(copy, copy.mapping, upstream.value, now);
      DetectFacts(copy, copy.mapping, upstream.value, now);
      assert Tidy(d) && d.ignored == copy.ignored;
    }
  }


  lemma ApplyOverIsTidy(row: Row, copy: Row, request: Selection, now: int, saved: bool)
    requires Tidy(row) && Tidy(copy)
    ensures Tidy(ApplyOver(row, copy, request, now, saved))
  {
    var e, r := Effective(copy, request), Apply(copy, request, now, true);
    EffectiveFacts(copy, request);
    AppliedLists(copy, request, now);
    NormalizeCleans(r.ignored);
    forall x ensures x in r.detected <==> x in copy.detected && x !in e.add && x !in e.ignore {
      DropMembers(copy.detected, Elems(e.add) + Elems(e.ignore), x);
    }
  }

  lemma StepKeepsTidy(s: Store, e: Event)
    requires AllTidy(s) && CommaFreeEvent(e)
    ensures AllTidy(Step(s, e))
  {
    if Writes(s, e) {
      var copy := s.copies[e.k].row;
      match e
      case Checked(k, who, minInterval, now, upstream, saved) =>
        CheckIsTidy(copy, !who.Task?, who.Task?, minInterval, now, upstream);
      case Applied(k, request, now, saved) => ApplyOverIsTidy(s.row, copy, request, now, saved);
    }
  }

  /** Settings are written whole, so what relates them to each other survives every interleaving: the pending lists stay
      clean, and no ignored name is pending. */
  lemma {:induction false} RunsKeepTidy(s: Store, es: seq<Event>)
    requires AllTidy(s) && CommaFreeEvents(es)
    ensures AllTidy(Exec(s, es))
  {
    if es != [] {
      RunsKeepTidy(s, es[..|es| - 1]);
      StepKeepsTidy(Exec(s, es[..|es| - 1]), es[|es| - 1]);
    }
  }

  // ---------- the settings and the models ----------

  ghost predicate Gained(row: Row, copy: Row, x: string) {
    x in Local(row) && x !in Local(copy)
  }

  ghost predicate Lost(row: Row, copy: Row, x: string) {
    x in Local(copy) && x !in Local(row)
  }

  /** Nothing is written. */
  predicate Idle(copy: Row, e: Event)
    requires !e.Loaded?
  {
    !e.saved || (e.Checked? && TooSoon(copy, !e.who.Task?, e.minInterval, e.now))
  }

  predicate WritesModels(copy: Row, e: Event)
    requires !e.Loaded?
  {
    match e
    case Checked(k, who, minInterval, now, upstream, saved) =>
      AutoAdds(copy, copy.mapping, !who.Task?, who.Task?, minInterval, now, upstream) > 0
    case Applied(k, request, now, saved) => ModelsChange(copy, request)
  }

  /** A name the copy does not serve that the event would leave pending for addition. */
  predicate WouldPropose(copy: Row, e: Event, x: string)
    requires !e.Loaded?
  {
    match e
    case Checked(k, who, minInterval, now, upstream, saved) =>
      if upstream.None? then x in copy.detected
      else x in Normalize(upstream.value) && x !in copy.mapping.Values && x !in Normalize(copy.ignored)
    case Applied(k, request, now, saved) => x in copy.detected && x !in Normalize(request.ignore)
  }

  /** A name the copy serves that the event would leave pending for removal. */
  predicate WouldRetire(copy: Row, e: Event, x: string)
    requires !e.Loaded?
  {
    match e
    case Checked(k, who, minInterval, now, upstream, saved) =>
      if upstream.None? then x in copy.removed else x !in copy.mapping.Keys && x !in Normalize(upstream.value)
    case Applied(k, request, now, saved) => x in copy.removed
  }

  /** The write finds no name gained since the load that it proposes to add, and none lost that it proposes to remove,
      unless it replaces the models too. */
  ghost predicate Timely(row: Row, copy: Row, e: Event)
    requires !e.Loaded?
  {
    Idle(copy, e) || WritesModels(copy, e) ||
    (&& (forall x :: Gained(row, copy, x) ==> !WouldPropose(copy, e, x))
     && (forall x :: Lost(row, copy, x) ==> !WouldRetire(copy, e, x)))
  }

  /** Settings that are written without the models. */
  lemma SettingsOverIsInvIff(row: Row, copy: Row, next: Row, e: Event)
    requires !e.Loaded? && Tidy(next)
    requires forall x :: x in next.detected <==> x !in Local(copy) && WouldPropose(copy, e, x)
    requires forall x :: x in next.removed <==> x in Local(copy) && WouldRetire(copy, e, x)
    ensures Inv(Written(row, next, false)) <==>
              (&& (forall x :: Gained(row, copy, x) ==> !WouldPropose(copy, e, x))
               && (forall x :: Lost(row, copy, x) ==> !WouldRetire(copy, e, x)))
  {
    assert Tidy(Written(row, next, false)) && Local(Written(row, next, false)) == Local(row);
  }

  lemma CheckOverIsInvIff(row: Row, copy: Row, e: Event)
    requires Inv(row) && Inv(copy) && e.Checked? && CommaFreeEvent(e)
    ensures Inv(WrittenFrom(row, copy, e)) <==> Timely(row, copy, e)
  {
    if !Idle(copy, e) {
      if e.upstream.None? {
        SettingsOverIsInvIff(row, copy, copy.(lastCheck := e.now), e);
      } else if WritesModels(copy, e) {
        SyncedIsConsistent(copy, copy.mapping, e.upstream.value, e.now);
        assert Inv(Written(row, Synced(copy, copy.mapping, e.upstream.value, e.now), true));
      } else {
        DetectFacts(copy, copy.mapping, e.upstream.value, e.now);
        SettingsOverIsInvIff(row, copy, Detect(copy, copy.mapping, e.upstream.value, e.now), e);
      }
    }
  }

  lemma FirstIsIn<T>(xs: seq<T>)
    ensures xs != [] ==> xs[0] in xs
  {
  }

  /** An application that leaves the models alone adds and removes nothing. */
  lemma UnchangedModels(copy: Row, request: Selection)
    requires Inv(copy) && !ModelsChange(copy, request)
    ensures var sel := Effective(copy, request); sel.add == [] && sel.remove == []
  {
    var sel := Effective(copy, request);
    EffectiveFacts(copy, request);
    AppliedModels(copy, request, 0);
    forall x ensures x in Local(copy) <==> (x in Local(copy) && x !in sel.remove) || x in sel.add {
      DropMembers(Local(copy), Elems(sel.remove), x);
      assert x in Drop(Local(copy), Elems(sel.remove)) + sel.add <==>
             x in Drop(Local(copy), Elems(sel.remove)) || x in sel.add;
    }
    FirstIsIn(sel.add);
    FirstIsIn(sel.remove);
  }

  lemma ApplyOverIsInvIff(row: Row, copy: Row, e: Event)
    requires Inv(row) && Inv(copy) && e.Applied?
    ensures Inv(WrittenFrom(row, copy, e)) <==> Timely(row, copy, e)
  {
    if !Idle(copy, e) {
      ApplyKeepsInv(copy, e.request, e.now);
      if WritesModels(copy, e) {
        assert Inv(Written(row, Apply(copy, e.request, e.now, true), true));
      } else {
        LeftPending(copy, e);
        SettingsOverIsInvIff(row, copy, Apply(copy, e.request, e.now, true), e);
      }
    }
  }

  lemma LeftPending(copy: Row, e: Event)
    requires Inv(copy) && e.Applied? && !WritesModels(copy, e)
    ensures var r := Apply(copy, e.request, e.now, true);
            && (forall x :: x in r.detected <==> x !in Local(copy) && WouldPropose(copy, e, x))
            && (forall x :: x in r.removed <==> x in Local(copy) && WouldRetire(copy, e, x))
  {
    var sel, r := Effective(copy, e.request), Apply(copy, e.request, e.now, true);
    UnchangedModels(copy, e.request);
    EffectiveFacts(copy, e.request);
    AppliedLists(copy, e.request, e.now);
    DropNothing(copy.removed, Elems(sel.remove));
    forall x ensures x in r.detected <==> x in copy.detected && x !in Normalize(e.request.ignore) {
      DropMembers(copy.detected, Elems(sel.add) + Elems(sel.ignore), x);
    }
  }

  ghost predicate AllInv(s: Store) {
    Inv(s.row) && forall k :: k in s.copies ==> Inv(s.copies[k].row)
  }

  ghost predicate TimelyStep(s: Store, e: Event) {
    Writes(s, e) ==> Timely(s.row, s.copies[e.k].row, e)
  }

  lemma StepIsInvIff(s: Store, e: Event)
    requires AllInv(s) && CommaFreeEvent(e)
    ensures Inv(Step(s, e).row) <==> TimelyStep(s, e)
    ensures TimelyStep(s, e) ==> AllInv(Step(s, e))
  {
    if Writes(s, e) {
      if e.Checked? {
        CheckOverIsInvIff(s.row, s.copies[e.k].row, e);
      } else {
        ApplyOverIsInvIff(s.row, s.copies[e.k].row, e);
      }
    }
  }

  /** The row is consistent after each event of the run. */
  ghost predicate InvThroughout(s: Store, es: seq<Event>) {
    es == [] || (InvThroughout(s, es[..|es| - 1]) && Inv(Exec(s, es).row))
  }

  /** Each write of the run is timely. */
  ghost predicate TimelyThroughout(s: Store, es: seq<Event>) {
    es == [] || (TimelyThroughout(s, es[..|es| - 1]) && TimelyStep(Exec(s, es[..|es| - 1]), es[|es| - 1]))
  }

  /** A run keeps pending additions unserved and pending removals served, all the way, if and only if each of its
      writes is timely. */
  lemma {:induction false} RunsKeepInvIff(s: Store, es: seq<Event>)
    requires AllInv(s) && CommaFreeEvents(es)
    ensures InvThroughout(s, es) <==> TimelyThroughout(s, es)
    ensures InvThroughout(s, es) ==> AllInv(Exec(s, es))
  {
    if es != [] {
      var init, e := es[..|es| - 1], es[|es| - 1];
      RunsKeepInvIff(s, init);
      if InvThroughout(s, init) {
        StepIsInvIff(Exec(s, init), e);
      }
    }
  }

  // ---------- ignored names ----------

  ghost predicate Ignores(row: Row, x: string) {
    x in Normalize(row.ignored)
  }

  /** A write keeps a name ignored, or starts to, if and only if its copy ignored it, or it is a request to ignore the
      name (and not to add it) that finds it pending in the copy.  What the row ignored by then does not matter. */
  lemma WriteIgnoresIff(row: Row, copy: Row, e: Event, x: string)
    requires !e.Loaded? && Tidy(copy) && !Idle(copy, e)
    ensures Ignores(WrittenFrom(row, copy, e), x) <==>
              Ignores(copy, x) ||
              (e.Applied? && x in copy.detected && x in Normalize(e.request.ignore) && x !in Normalize(e.request.add))
  {
    if e.Applied? {
      EffectiveFacts(copy, e.request);
      AppliedLists(copy, e.request, e.now);
      NormalizeCleans(Apply(copy, e.request, e.now, true).ignored);
    }
  }

  /** The row and every copy still to be written ignore the name. */
  ghost predicate AllIgnore(s: Store, x: string) {
    Ignores(s.row, x) && forall k :: k in s.copies ==> Ignores(s.copies[k].row, x)
  }

  lemma {:induction false} IgnoredInRuns(s: Store, es: seq<Event>, x: string)
    requires AllTidy(s) && CommaFreeEvents(es) && AllIgnore(s, x)
    ensures AllIgnore(Exec(s, es), x)
  {
    if es != [] {
      var before, e := Exec(s, es[..|es| - 1]), es[|es| - 1];
      IgnoredInRuns(s, es[..|es| - 1], x);
      RunsKeepTidy(s, es[..|es| - 1]);
      if Writes(before, e) && !Idle(before.copies[e.k].row, e) {
        WriteIgnoresIff(before.row, before.copies[e.k].row, e, x);
      }
    }
  }

  /** A write that changes nothing but the time of the check. */
  function PlainWrite(s: Store, k: nat): (e: Event)
    requires k in s.copies
    ensures Writes(s, e) && !Idle(s.copies[k].row, e) && CommaFreeEvent(e) && e.k == k
    ensures e.Applied? ==> e.request == Selection([], [], [])
  {
    match s.copies[k].holder
    case Checker(who) => Checked(k, who, 0, s.copies[k].row.lastCheck, None, true)
    case Applier => Applied(k, Selection([], [], []), 0, true)
  }

  /** A name stays ignored in every run from here on if and only if the row ignores it and so does every copy loaded
      and not yet written: it was ignored before each of those was loaded. */
  lemma IgnoredForGoodIff(s: Store, x: string)
    requires AllTidy(s)
    ensures (forall es :: CommaFreeEvents(es) ==> Ignores(Exec(s, es).row, x)) <==> AllIgnore(s, x)
  {
    if AllIgnore(s, x) {
      forall es | CommaFreeEvents(es) ensures Ignores(Exec(s, es).row, x) {
        IgnoredInRuns(s, es, x);
      }
    } else if Ignores(s.row, x) {
      var k :| k in s.copies && !Ignores(s.copies[k].row, x);
      var e := PlainWrite(s, k);
      assert Exec(s, [e]) == Step(Exec(s, []), e);
      WriteIgnoresIff(s.row, s.copies[k].row, e, x);
      assert CommaFreeEvents([e]) && !Ignores(Exec(s, [e]).row, x);
    } else {
      assert CommaFreeEvents([]) && !Ignores(Exec(s, []).row, x);
    }
  }

  /** The name is ignored and not served. */
  ghost predicate Shunned(row: Row, x: string) {
    Ignores(row, x) && x !in Local(row)
  }

  ghost predicate AllShun(s: Store, x: string) {
    Shunned(s.row, x) && forall k :: k in s.copies ==> Shunned(s.copies[k].row, x)
  }

  /** What an application can add to the models. */
  lemma AppliedNames(row: Row, request: Selection, now: int, x: string)
    requires Tidy(row) && x in Local(Apply(row, request, now, true))
    ensures x in Local(row) || x in Effective(row, request).add
  {
    var e := Effective(row, request);
    var next := ApplySelected(Local(row), e.add, e.remove);
    EffectiveFacts(row, request);
    LocalIsClean(row);
    ApplySelectedFacts(Local(row), e.add, e.remove);
    forall y | y in next ensures y in Local(row) || y in e.add {
      DropMembers(Local(row), Elems(e.remove) - Elems(e.add), y);
      DropMembers(e.add, Elems(Local(row)), y);
    }
    WriteBack(next);
  }

  lemma WriteKeepsShunned(row: Row, copy: Row, e: Event, x: string)
    requires !e.Loaded? && Tidy(copy) && CommaFreeEvent(e) && Shunned(row, x) && Shunned(copy, x)
    ensures Shunned(WrittenFrom(row, copy, e), x)
  {
    if !Idle(copy, e) {
      WriteIgnoresIff(row, copy, e, x);
      if WritesModels(copy, e) {
        if e.Checked? {
          DetectFacts(copy, copy.mapping, e.upstream.value, e.now);
          AutoSyncFacts(copy, copy.mapping, e.upstream.value, e.now);
        } else {
          EffectiveFacts(copy, e.request);
          if x in Local(Apply(copy, e.request, e.now, true)) {
            AppliedNames(copy, e.request, e.now, x);
          }
        }
      }
    }
  }

  /** A name that the row and every outstanding copy ignore and do not serve is never served or proposed again, in any
      run, whatever is selected and whatever fails. */
  lemma {:induction false} IgnoredIsNeverServed(s: Store, es: seq<Event>, x: string)
    requires AllTidy(s) && CommaFreeEvents(es) && AllShun(s, x)
    ensures AllShun(Exec(s, es), x) && x !in Exec(s, es).row.detected
  {
    RunsKeepTidy(s, es);
    if es != [] {
      var before, e := Exec(s, es[..|es| - 1]), es[|es| - 1];
      IgnoredIsNeverServed(s, es[..|es| - 1], x);
      RunsKeepTidy(s, es[..|es| - 1]);
      if Writes(before, e) {
        WriteKeepsShunned(before.row, before.copies[e.k].row, e, x);
      }
    }
  }

  // ---------- what overlapping handlers lose ----------

  lemma ExecOneMore(s: Store, es: seq<Event>, e: Event)
    ensures Exec(s, es + [e]) == Step(Exec(s, es), e)
  {
    assert (es + [e])[..|es + [e]| - 1] == es;
  }

  /** One handler loads, a second loads and writes, and then the first writes. */
  function Overlap(second: Event, first: Event): seq<Event> {
    [Loaded(0, HolderOf(first)), Loaded(1, HolderOf(second))] + [second] + [first]
  }

  lemma BothLoaded(row: Row, first: Holder, second: Holder)
    ensures Exec(Store(row, map[]), [Loaded(0, first), Loaded(1, second)]) ==
            Store(row, map[0 := Copy(LoadedFor(row, first), first), 1 := Copy(LoadedFor(row, second), second)])
  {
    var s, a, b := Store(row, map[]), Loaded(0, first), Loaded(1, second);
    ExecOneMore(s, [], a);
    ExecOneMore(s, [a], b);
    assert [] + [a] == [a] && [a] + [b] == [a, b];
  }

  lemma OverlapRun(row: Row, second: Event, first: Event)
    requires second.Applied? && second.k == 1 && !first.Loaded? && first.k == 0
    ensures var s, es := Store(row, map[]), Overlap(second, first);
            && Exec(s, es[..3]).row == WrittenFrom(row, row, second)
            && Exec(s, es).row == WrittenFrom(WrittenFrom(row, row, second), LoadedFor(row, HolderOf(first)), first)
  {
    var s, load := Store(row, map[]), [Loaded(0, HolderOf(first)), Loaded(1, HolderOf(second))];
    BothLoaded(row, HolderOf(first), HolderOf(second));
    ExecOneMore(s, load, second);
    ExecOneMore(s, load + [second], first);
    assert Overlap(second, first)[..3] == load + [second];
  }

  /** A synchronization from a copy that neither serves nor ignores a name upstream lists. */
  lemma TaskAddsListed(row: Row, copy: Row, minInterval: int, now: int, upstream: seq<string>, x: string)
    requires CommaFree(upstream) && x in Normalize(upstream) && copy.autoSync && copy.mapping == map[]
    requires !Ignores(copy, x) && x !in Local(copy) && !TooSoon(copy, false, minInterval, now)
    ensures var r := CheckOver(row, copy, false, true, minInterval, now, Some(upstream), true);
            x in Local(r) && !Ignores(r, x)
  {
    DetectFacts(copy, copy.mapping, upstream, now);
    AutoSyncFacts(copy, copy.mapping, upstream, now);
    assert x in Detect(copy, copy.mapping, upstream, now).detected;
  }

  lemma RequestIgnores(row: Row, e: Event, x: string)
    requires Inv(row) && x in row.detected && e.Applied? && e.saved
    requires x in Normalize(e.request.ignore) && x !in Normalize(e.request.add)
    ensures Shunned(WrittenFrom(row, row, e), x)
  {
    WriteIgnoresIff(row, row, e, x);
    EffectiveFacts(row, e.request);
    if x in Local(Apply(row, e.request, e.now, true)) {
      AppliedNames(row, e.request, e.now, x);
    }
  }

  /** Whatever pending name is ignored between the task's load and its write, the task serves it if it is listed
      upstream, and it is no longer ignored. */
  lemma IgnoringIsLost(row: Row, ignore: Event, check: Event, x: string)
    requires Inv(row) && row.autoSync && x in row.detected
    requires ignore.Applied? && ignore.k == 1 && ignore.saved
    requires x in Normalize(ignore.request.ignore) && x !in Normalize(ignore.request.add)
    requires check.Checked? && check.k == 0 && check.who == Task && check.saved && check.upstream.Some?
    requires CommaFreeEvent(check) && x in Normalize(check.upstream.value)
    requires !TooSoon(row, false, check.minInterval, check.now)
    ensures var s, es := Store(row, map[]), Overlap(ignore, check);
            Shunned(Exec(s, es[..3]).row, x) && x in Local(Exec(s, es).row) && !Ignores(Exec(s, es).row, x)
  {
    OverlapRun(row, ignore, check);
    RequestIgnores(row, ignore, x);
    TaskAddsListed(WrittenFrom(row, row, ignore), row.(mapping := map[]), check.minInterval, check.now,
                   check.upstream.value, x);
  }

  lemma RequestAdds(row: Row, e: Event, x: string)
    requires Inv(row) && x in row.detected && e.Applied? && e.saved && x in Normalize(e.request.add)
    ensures x in Local(WrittenFrom(row, row, e))
  {
    EffectiveFacts(row, e.request);
    AppliedModels(row, e.request, e.now);
    assert x in Effective(row, e.request).add;
  }

  /** Whatever pending name is added between the load and the write of a detection over all channels, that detection
      proposes it again if it is listed upstream, although it is served. */
  lemma AddedIsProposedAgain(row: Row, add: Event, check: Event, x: string)
    requires Inv(row) && x in row.detected
    requires add.Applied? && add.k == 1 && add.saved && x in Normalize(add.request.add)
    requires check.Checked? && check.k == 0 && check.who == DetectAll && check.saved && check.upstream.Some?
    requires x in Normalize(check.upstream.value)
    ensures var s, es := Store(row, map[]), Overlap(add, check);
            x in Local(Exec(s, es).row) && x in Exec(s, es).row.detected
  {
    OverlapRun(row, add, check);
    RequestAdds(row, add, x);
    DetectFacts(row.(mapping := map[]), map[], check.upstream.value, check.now);
  }
}
