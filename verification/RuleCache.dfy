/** The audit scanner's rule cache: scans that read, miss and reload under a read-write lock, interleaved with
    rule edits that write the database first and invalidate the cache afterwards.

    A scan or an edit is a thread; one step is one access to the lock, the cache or the database.  `now` on a step is
    the clock it reads, `ok` whether its database call succeeds, `table` what an edit leaves in the rule table. */
module RuleCache {
  import opened Options

  datatype AuditRule = AuditRule(
    name: string, category: string, ruleType: string, patterns: seq<string>, riskLevel: int, description: string,
    enabled: bool, isGlobal: bool, ownerGroup: string)

  type Table = seq<AuditRule>

  const TTL: int := 120

  /** GetEnabledRules. */
  function EnabledRules(table: Table, group: string): seq<AuditRule> {
    if table == [] then []
    else
      var r := table[|table| - 1];
      EnabledRules(table[..|table| - 1], group) +
      if r.enabled && (r.isGlobal || r.ownerGroup == group) then [r] else []
  }

  /** The rules are the enabled ones of the table that are global or the group's own: all of them, each as often as it is
      there and in the table's order.  `at` says where each comes from. */
  ghost predicate Selects(table: Table, group: string, rules: seq<AuditRule>, at: seq<int>) {
    && |at| == |rules| && (forall k :: 0 <= k < |at| ==> 0 <= at[k] < |table| && rules[k] == table[at[k]])
    && Increasing(at)
    && (forall i :: 0 <= i < |table| ==>
          (i in at <==> table[i].enabled && (table[i].isGlobal || table[i].ownerGroup == group)))
  }

  /** What a scan of the group is to use. */
  ghost predicate InForce(table: Table, group: string, rules: seq<AuditRule>) {
    exists at :: Selects(table, group, rules, at)
  }

  lemma {:induction false} EnabledAt(table: Table, group: string) returns (at: seq<int>)
    ensures Selects(table, group, EnabledRules(table, group), at)
  {
    at := [];
    if table != [] {
      var init, r := table[..|table| - 1], table[|table| - 1];
      var before := EnabledAt(init, group);
      var applies := r.enabled && (r.isGlobal || r.ownerGroup == group);
      at := before + if applies then [|table| - 1] else [];
      forall i | 0 <= i < |table|
        ensures i in at <==> table[i].enabled && (table[i].isGlobal || table[i].ownerGroup == group)
      {
        if i < |init| { assert table[i] == init[i]; }
      }
    }
  }

  /** There is only one such list: the rules a group gets are determined by the table. */
  lemma {:induction false} SelectionIsUnique(table: Table, group: string, a: seq<AuditRule>, b: seq<AuditRule>,
                                             at: seq<int>, bt: seq<int>)
    requires Selects(table, group, a, at) && Selects(table, group, b, bt)
    ensures a == b
  {
    SortedIsDetermined(at, bt);
  }

  ghost predicate Increasing(a: seq<int>) {
    forall j, k :: 0 <= j < k < |a| ==> a[j] < a[k]
  }

  lemma FirstIsIn(a: seq<int>)
    ensures a != [] ==> a[0] in a
  {
  }

  lemma LastIsLargest(a: seq<int>, x: int)
    requires Increasing(a) && x in a
    ensures x <= a[|a| - 1]
  {
    var j :| 0 <= j < |a| && a[j] == x;
  }

  lemma WithoutLast(a: seq<int>, x: int)
    requires Increasing(a) && a != []
    ensures x in a[..|a| - 1] <==> x in a && x != a[|a| - 1]
  {
    if x in a && x != a[|a| - 1] {
      var j :| 0 <= j < |a| && a[j] == x;
      assert a[..|a| - 1][j] == x;
    }
  }

  lemma {:induction false} SortedIsDetermined(a: seq<int>, b: seq<int>)
    requires Increasing(a) && Increasing(b) && forall x :: x in a <==> x in b
    ensures a == b
  {
    if a != [] && b != [] {
      assert a[|a| - 1] in a && b[|b| - 1] in b;
      LastIsLargest(a, b[|b| - 1]);
      LastIsLargest(b, a[|a| - 1]);
      var c, d := a[..|a| - 1], b[..|b| - 1];
      forall x ensures x in c <==> x in d {
        WithoutLast(a, x);
        WithoutLast(b, x);
      }
      SortedIsDetermined(c, d);
    } else {
      FirstIsIn(a);
      FirstIsIn(b);
    }
  }

  /** A cached list, with the database version it was loaded from as bookkeeping. */
  datatype Entry = Entry(rules: seq<AuditRule>, version: nat)

  datatype Pc =
    // a scan
    | Start
    | Checking                      // read lock held
    | Returning(hit: Entry)         // read lock held
    | Missed                        // read lock held
    | WantWrite
    | Rechecking                    // write lock held, as in the next three
    | Loading
    | Storing(loaded: Entry)
    | Releasing(result: Option<Entry>)
    | Finished(result: Option<Entry>)
    // a rule edit
    | Editing
    | Written(made: nat)            // database written, cache not yet cleared
    | Clearing(made: nat)           // the same, write lock held
    | Cleared(made: nat)            // write lock held
    | Edited(made: nat)
    | EditFailed

  /** `floor` records, for a scan, the newest edit that was complete when the scan started. */
  datatype Thread = Thread(group: string, pc: Pc, floor: nat)

  datatype State = State(
    threads: seq<Thread>,
    history: seq<Table>,            // every content the rule table has had; the last is current
    cache: map<string, Entry>,
    lastLoad: Option<int>,
    writer: Option<nat>,
    readers: set<nat>,
    completed: nat)                 // the newest version whose edit has cleared the cache

  datatype Event = Run(i: nat, now: int, ok: bool, table: Table)

  ghost predicate Initial(s: State) {
    && (forall i :: 0 <= i < |s.threads| ==> s.threads[i].floor == 0 && (s.threads[i].pc.Start? || s.threads[i].pc.Editing?))
    && |s.history| == 1 && s.cache == map[] && s.lastLoad == None && s.writer == None && s.readers == {} && s.completed == 0
  }

  predicate Hit(s: State, group: string, now: int) {
    group in s.cache && s.lastLoad.Some? && now - s.lastLoad.value < TTL
  }

  predicate Enabled(s: State, i: nat) {
    && i < |s.threads|
    && match s.threads[i].pc
       case Start => s.writer.None?
       case WantWrite => s.writer.None? && s.readers == {}
       case Written(_) => s.writer.None? && s.readers == {}
       case Finished(_) => false
       case Edited(_) => false
       case EditFailed => false
       case _ => true
  }

  function At(s: State, i: nat, pc: Pc): State
    requires i < |s.threads|
  {
    s.(threads := s.threads[i := s.threads[i].(pc := pc)])
  }

  function Max(a: nat, b: nat): nat {
    if a < b then b else a
  }

  predicate IsEdit(pc: Pc) {
    pc.Editing? || pc.Written? || pc.Clearing? || pc.Cleared? || pc.Edited? || pc.EditFailed?
  }

  /** getRulesForGroup, one step. */
  function RunScan(s: State, i: nat, now: int, ok: bool): State
    requires Enabled(s, i) && !IsEdit(s.threads[i].pc) && |s.history| > 0
  {
    var th := s.threads[i];
    match th.pc
    case Start => s.(threads := s.threads[i := th.(pc := Checking, floor := s.completed)], readers := s.readers + {i})
    case Checking => At(s, i, if Hit(s, th.group, now) then Returning(s.cache[th.group]) else Missed)
    case Returning(e) => At(s, i, Finished(Some(e))).(readers := s.readers - {i})
    case Missed => At(s, i, WantWrite).(readers := s.readers - {i})
    case WantWrite => At(s, i, Rechecking).(writer := Some(i))
    case Rechecking => At(s, i, if Hit(s, th.group, now) then Releasing(Some(s.cache[th.group])) else Loading)
    case Loading =>
      var v := |s.history| - 1;
      At(s, i, if ok then Storing(Entry(EnabledRules(s.history[v], th.group), v)) else Releasing(None))
    case Storing(e) => At(s, i, Releasing(Some(e))).(cache := s.cache[th.group := e], lastLoad := Some(now))
    case Releasing(r) => At(s, i, Finished(r)).(writer := None)
  }

  /** A rule handler, one step: write the table, then InvalidateCache. */
  function RunEdit(s: State, i: nat, ok: bool, table: Table): State
    requires Enabled(s, i) && IsEdit(s.threads[i].pc)
  {
    match s.threads[i].pc
    case Editing => if ok then At(s, i, Written(|s.history|)).(history := s.history + [table]) else At(s, i, EditFailed)
    case Written(v) => At(s, i, Clearing(v)).(writer := Some(i))
    case Clearing(v) => At(s, i, Cleared(v)).(cache := map[], lastLoad := None, completed := Max(s.completed, v))
    case Cleared(v) => At(s, i, Edited(v)).(writer := None)
  }

  function Step(s: State, e: Event): State {
    if !Enabled(s, e.i) || s.history == [] then s
    else if IsEdit(s.threads[e.i].pc) then RunEdit(s, e.i, e.ok, e.table)
    else RunScan(s, e.i, e.now, e.ok)
  }

  function Exec(s: State, es: seq<Event>): State {
    if es == [] then s else Step(Exec(s, es[..|es| - 1]), es[|es| - 1])
  }

  // ---------- invariants ----------

  predicate Reads(pc: Pc) {
    pc.Checking? || pc.Returning? || pc.Missed?
  }

  predicate Writes(pc: Pc) {
    pc.Rechecking? || pc.Loading? || pc.Storing? || pc.Releasing? || pc.Clearing? || pc.Cleared?
  }

  /** A thread inside the write section owns the lock; one inside the read section is among the readers. */
  ghost predicate Holds(s: State, i: nat)
    requires i < |s.threads|
  {
    (Writes(s.threads[i].pc) ==> s.writer == Some(i)) && (Reads(s.threads[i].pc) ==> i in s.readers)
  }

  ghost predicate LockInv(s: State) {
    (s.writer.Some? ==> s.readers == {}) && forall i: nat :: i < |s.threads| ==> Holds(s, i)
  }

  /** An entry is what some version of the table gives its group, and no older than `floor`. */
  ghost predicate Genuine(history: seq<Table>, e: Entry, group: string, floor: nat) {
    floor <= e.version < |history| && e.rules == EnabledRules(history[e.version], group)
  }

  /** The rule list a scan has in hand. */
  function InHand(pc: Pc): Option<Entry> {
    match pc
    case Returning(e) => Some(e)
    case Storing(e) => Some(e)
    case Releasing(r) => r
    case Finished(r) => r
    case _ => None
  }

  /** Scans only ever hold entries at least as new as what was complete when they started; an entry about to be
      stored is as new as anything complete now. */
  ghost predicate ScanInv(s: State, th: Thread) {
    && th.floor <= s.completed
    && (InHand(th.pc).Some? ==>
          Genuine(s.history, InHand(th.pc).value, th.group, if th.pc.Storing? then s.completed else th.floor))
    && (th.pc.Written? || th.pc.Clearing? ==> th.pc.made < |s.history|)
    && (th.pc.Cleared? || th.pc.Edited? ==> th.pc.made <= s.completed)
  }

  ghost predicate Inv(s: State) {
    && LockInv(s)
    && s.completed < |s.history|
    && (forall g :: g in s.cache ==> Genuine(s.history, s.cache[g], g, s.completed))
    && (forall i :: 0 <= i < |s.threads| ==> ScanInv(s, s.threads[i]))
  }

  /** Every version newer than the newest completed edit has an editor still on its way to clearing the cache. */
  ghost predicate PendingEditor(s: State, v: nat) {
    exists i :: 0 <= i < |s.threads| && (s.threads[i].pc == Written(v) || s.threads[i].pc == Clearing(v))
  }

  ghost predicate EditInv(s: State) {
    forall v: nat :: s.completed < v < |s.history| ==> PendingEditor(s, v)
  }

  lemma StepKeepsOwnLock(s: State, e: Event)
    requires LockInv(s) && Enabled(s, e.i)
    ensures Holds(Step(s, e), e.i)
  {
    assert Holds(s, e.i);
  }

  lemma StepKeepsOtherLock(s: State, e: Event, j: nat)
    requires LockInv(s) && j < |s.threads| && j != e.i
    ensures Holds(Step(s, e), j)
  {
    assert Holds(s, j);
    if Enabled(s, e.i) { assert Holds(s, e.i) && Step(s, e).threads[j] == s.threads[j]; }
  }

  lemma StepKeepsLocks(s: State, e: Event)
    requires LockInv(s)
    ensures LockInv(Step(s, e))
  {
    var s' := Step(s, e);
    forall j: nat | j < |s'.threads| ensures Holds(s', j) {
      if j != e.i { StepKeepsOtherLock(s, e, j); }
      else if Enabled(s, e.i) { StepKeepsOwnLock(s, e); }
    }
    if Enabled(s, e.i) { OneWriterNoReaders(s, e); }
  }

  lemma OneWriterNoReaders(s: State, e: Event)
    requires LockInv(s) && Enabled(s, e.i)
    ensures Step(s, e).writer.Some? ==> Step(s, e).readers == {}
  {
    assert Holds(s, e.i);
  }

  /** A scan step leaves the database and the record of completed edits alone. */
  lemma ScanStepFrame(s: State, i: nat, now: int, ok: bool)
    requires Enabled(s, i) && !IsEdit(s.threads[i].pc) && |s.history| > 0
    ensures var s' := RunScan(s, i, now, ok);
            && s'.history == s.history && s'.completed == s.completed && |s'.threads| == |s.threads|
            && (forall j :: 0 <= j < |s.threads| && j != i ==> s'.threads[j] == s.threads[j])
            && (s'.cache == s.cache ||
                (s.threads[i].pc.Storing? && s'.cache == s.cache[s.threads[i].group := s.threads[i].pc.loaded]))
  {
  }

  /** An edit step only ever appends to the history and empties the cache; only clearing moves `completed`, forward,
      and it does so while holding the write lock. */
  lemma EditStepFrame(s: State, i: nat, ok: bool, table: Table)
    requires Enabled(s, i) && IsEdit(s.threads[i].pc) && ScanInv(s, s.threads[i]) && s.completed < |s.history|
    ensures var s' := RunEdit(s, i, ok, table);
            && s.history <= s'.history && s.completed <= s'.completed < |s'.history| && |s'.threads| == |s.threads|
            && (forall j :: 0 <= j < |s.threads| && j != i ==> s'.threads[j] == s.threads[j])
            && (s'.cache == s.cache || s'.cache == map[])
            && (s'.completed != s.completed ==> s.threads[i].pc.Clearing? && s'.cache == map[])
  {
  }

  lemma StepFrame(s: State, e: Event)
    requires Inv(s)
    ensures var s' := Step(s, e);
            && s.history <= s'.history && s.completed <= s'.completed < |s'.history| && |s'.threads| == |s.threads|
            && (forall j :: 0 <= j < |s.threads| && j != e.i ==> s'.threads[j] == s.threads[j])
  {
    if Enabled(s, e.i) {
      if IsEdit(s.threads[e.i].pc) { EditStepFrame(s, e.i, e.ok, e.table); } else { ScanStepFrame(s, e.i, e.now, e.ok); }
    }
  }

  lemma GenuineGrows(h: seq<Table>, h': seq<Table>, e: Entry, g: string, floor: nat)
    requires h <= h' && Genuine(h, e, g, floor)
    ensures Genuine(h', e, g, floor)
  {
  }

  lemma StepKeepsCache(s: State, e: Event, g: string)
    requires Inv(s) && g in Step(s, e).cache
    ensures Genuine(Step(s, e).history, Step(s, e).cache[g], g, Step(s, e).completed)
  {
    if Enabled(s, e.i) {
      if IsEdit(s.threads[e.i].pc) {
        EditStepFrame(s, e.i, e.ok, e.table);
        GenuineGrows(s.history, Step(s, e).history, s.cache[g], g, s.completed);
      } else {
        ScanStepFrame(s, e.i, e.now, e.ok);
        assert ScanInv(s, s.threads[e.i]);
      }
    }
  }

  lemma ScanStepKeepsScan(s: State, i: nat, now: int, ok: bool)
    requires Inv(s) && Enabled(s, i) && !IsEdit(s.threads[i].pc)
    ensures ScanInv(RunScan(s, i, now, ok), RunScan(s, i, now, ok).threads[i])
  {
    var th := s.threads[i];
    assert ScanInv(s, th);
    match th.pc
    case Checking =>
      if Hit(s, th.group, now) { assert Genuine(s.history, s.cache[th.group], th.group, s.completed); }
    case Rechecking =>
      if Hit(s, th.group, now) { assert Genuine(s.history, s.cache[th.group], th.group, s.completed); }
    case _ =>
  }

  lemma StepKeepsOwnScan(s: State, e: Event)
    requires Inv(s) && Enabled(s, e.i)
    ensures ScanInv(Step(s, e), Step(s, e).threads[e.i])
  {
    assert ScanInv(s, s.threads[e.i]);
    if !IsEdit(s.threads[e.i].pc) { ScanStepKeepsScan(s, e.i, e.now, e.ok); }
  }

  lemma StepKeepsOtherScan(s: State, e: Event, j: nat)
    requires Inv(s) && j < |s.threads| && j != e.i
    ensures j < |Step(s, e).threads| && ScanInv(Step(s, e), Step(s, e).threads[j])
  {
    var th := s.threads[j];
    assert ScanInv(s, th);
    if Enabled(s, e.i) {
      if IsEdit(s.threads[e.i].pc) {
        EditStepFrame(s, e.i, e.ok, e.table);
        assert Holds(s, j) && Holds(s, e.i);
        if InHand(th.pc).Some? {
          GenuineGrows(s.history, Step(s, e).history, InHand(th.pc).value, th.group,
                       if th.pc.Storing? then s.completed else th.floor);
        }
      } else {
        ScanStepFrame(s, e.i, e.now, e.ok);
      }
    }
  }

  lemma StepKeepsInv(s: State, e: Event)
    requires Inv(s)
    ensures Inv(Step(s, e))
  {
    var s' := Step(s, e);
    StepKeepsLocks(s, e);
    StepFrame(s, e);
    forall g | g in s'.cache ensures Genuine(s'.history, s'.cache[g], g, s'.completed) { StepKeepsCache(s, e, g); }
    forall j | 0 <= j < |s'.threads| ensures ScanInv(s', s'.threads[j]) {
      if j == e.i && Enabled(s, e.i) { StepKeepsOwnScan(s, e); }
      else if j != e.i { StepKeepsOtherScan(s, e, j); }
    }
  }

  lemma StepKeepsEditor(s: State, e: Event, v: nat)
    requires Inv(s) && PendingEditor(s, v) && Step(s, e).completed < v
    ensures PendingEditor(Step(s, e), v)
  {
    StepFrame(s, e);
    var i :| 0 <= i < |s.threads| && (s.threads[i].pc == Written(v) || s.threads[i].pc == Clearing(v));
    if i == e.i && Enabled(s, i) {
      assert Step(s, e) == RunEdit(s, i, e.ok, e.table);
    }
    var th := Step(s, e).threads[i];
    assert th.pc == Written(v) || th.pc == Clearing(v);
  }

  lemma StepKeepsEdits(s: State, e: Event)
    requires Inv(s) && EditInv(s)
    ensures EditInv(Step(s, e))
  {
    var s' := Step(s, e);
    StepFrame(s, e);
    forall v: nat | s'.completed < v < |s'.history| ensures PendingEditor(s', v) {
      if v < |s.history| {
        StepKeepsEditor(s, e, v);
      } else {
        assert s'.threads[e.i].pc == Written(v);
      }
    }
  }

  lemma InitialInv(s: State)
    requires Initial(s)
    ensures Inv(s) && EditInv(s)
  {
  }

  lemma {:induction false} RunsKeepInv(s: State, es: seq<Event>)
    requires Inv(s) && EditInv(s)
    ensures Inv(Exec(s, es)) && EditInv(Exec(s, es))
  {
    if es != [] {
      RunsKeepInv(s, es[..|es| - 1]);
      StepKeepsInv(Exec(s, es[..|es| - 1]), es[|es| - 1]);
      StepKeepsEdits(Exec(s, es[..|es| - 1]), es[|es| - 1]);
    }
  }

  lemma {:induction false} ExecConcat(s: State, es: seq<Event>, more: seq<Event>)
    ensures Exec(s, es + more) == Exec(Exec(s, es), more)
    decreases |more|
  {
    if more == [] {
      assert es + more == es;
    } else {
      assert (es + more)[..|es + more| - 1] == es + more[..|more| - 1];
      ExecConcat(s, es, more[..|more| - 1]);
    }
  }

  // ---------- main results ----------

  /** In every interleaving, a cached list that differs from what the database holds means that some edit is still
      between its database write and its invalidation. */
  lemma StaleOnlyWhileEditing(s: State, es: seq<Event>, g: string)
    requires Initial(s) && g in Exec(s, es).cache
    ensures var z := Exec(s, es);
            && |z.history| > 0
            && (!InForce(z.history[|z.history| - 1], g, z.cache[g].rules) ==> PendingEditor(z, |z.history| - 1))
  {
    InitialInv(s);
    RunsKeepInv(s, es);
    StaleMeansPending(Exec(s, es), g);
    var at := EnabledAt(Exec(s, es).history[|Exec(s, es).history| - 1], g);
  }

  lemma StaleMeansPending(z: State, g: string)
    requires Inv(z) && EditInv(z) && g in z.cache
    ensures |z.history| > 0
    ensures z.cache[g].rules != EnabledRules(z.history[|z.history| - 1], g) ==> PendingEditor(z, |z.history| - 1)
  {
    assert Genuine(z.history, z.cache[g], g, z.completed);
  }

  /** A lookup notes, when it starts, how many edits have completed. */
  lemma OwnStepFloor(s: State, e: Event)
    requires Enabled(s, e.i) && s.history != []
    ensures var th, s' := s.threads[e.i], Step(s, e);
            && |s'.threads| == |s.threads| && s'.threads[e.i].group == th.group
            && s'.threads[e.i].floor == if th.pc.Start? then s.completed else th.floor
  {
  }

  lemma StepKeepsFloor(s: State, e: Event, i: nat, floor: nat)
    requires Inv(s) && i < |s.threads| && floor <= s.completed
    requires s.threads[i].pc.Start? || s.threads[i].floor >= floor
    ensures var s' := Step(s, e);
            && i < |s'.threads| && s'.threads[i].group == s.threads[i].group && floor <= s'.completed
            && (s'.threads[i].pc.Start? || s'.threads[i].floor >= floor)
  {
    StepFrame(s, e);
    if e.i == i && Enabled(s, i) {
      OwnStepFloor(s, e);
    }
  }

  lemma {:induction false} RunsKeepFloor(z: State, more: seq<Event>, i: nat)
    requires Inv(z) && EditInv(z) && i < |z.threads| && z.threads[i].pc.Start?
    ensures var y := Exec(z, more);
            && i < |y.threads| && y.threads[i].group == z.threads[i].group && z.completed <= y.completed
            && (y.threads[i].pc.Start? || y.threads[i].floor >= z.completed)
  {
    if more != [] {
      var init, e := more[..|more| - 1], more[|more| - 1];
      RunsKeepFloor(z, init, i);
      RunsKeepInv(z, init);
      StepKeepsFloor(Exec(z, init), e, i, z.completed);
    }
  }

  /** A scan that starts after an edit has completed never uses rules from before that edit: what it returns are exactly
      the enabled rules, global or of its group, of a table version at least as new. */
  lemma ScansSeeCompletedEdits(s: State, es: seq<Event>, more: seq<Event>, scan: nat, edit: nat)
    requires Initial(s) && scan < |Exec(s, es).threads| && edit < |Exec(s, es).threads|
    requires Exec(s, es).threads[scan].pc.Start? && Exec(s, es).threads[edit].pc.Edited?
    ensures var z, y := Exec(s, es), Exec(s, es + more);
            && scan < |y.threads|
            && (y.threads[scan].pc.Finished? && y.threads[scan].pc.result.Some? ==>
                  var e := y.threads[scan].pc.result.value;
                  && z.threads[edit].pc.made <= e.version < |y.history|
                  && InForce(y.history[e.version], z.threads[scan].group, e.rules))
  {
    InitialInv(s);
    RunsKeepInv(s, es);
    ExecConcat(s, es, more);
    LaterScan(Exec(s, es), more, scan, edit);
    var y := Exec(s, es + more);
    if y.threads[scan].pc.Finished? && y.threads[scan].pc.result.Some? {
      var e := y.threads[scan].pc.result.value;
      var at := EnabledAt(y.history[e.version], Exec(s, es).threads[scan].group);
    }
  }

  lemma LaterScan(z: State, more: seq<Event>, scan: nat, edit: nat)
    requires Inv(z) && EditInv(z) && scan < |z.threads| && edit < |z.threads|
    requires z.threads[scan].pc.Start? && z.threads[edit].pc.Edited?
    ensures var y := Exec(z, more);
            && scan < |y.threads|
            && (y.threads[scan].pc.Finished? && y.threads[scan].pc.result.Some? ==>
                  Genuine(y.history, y.threads[scan].pc.result.value, z.threads[scan].group, z.threads[edit].pc.made))
  {
    RunsKeepInv(z, more);
    RunsKeepFloor(z, more, scan);
    assert ScanInv(z, z.threads[edit]) && ScanInv(Exec(z, more), Exec(z, more).threads[scan]);
  }

  // ---------- a scan gets its rules ----------

  function ScanRank(pc: Pc): nat {
    match pc
    case Start => 8 case Checking => 7 case Missed => 6 case WantWrite => 5 case Rechecking => 4 case Loading => 3
    case Storing(_) => 2 case Returning(_) => 1 case Releasing(_) => 1 case _ => 0
  }

  /** The state when a scan has gone on by itself, at one time, with its database calls succeeding. */
  function ScanAlone(s: State, i: nat, now: int): State
    requires i < |s.threads|
    decreases ScanRank(s.threads[i].pc)
  {
    if !Enabled(s, i) || IsEdit(s.threads[i].pc) || s.history == [] then s else ScanAlone(RunScan(s, i, now, true), i, now)
  }

  lemma OneScanStep(s: State, i: nat, now: int)
    requires Enabled(s, i) && !IsEdit(s.threads[i].pc) && s.history != []
    ensures ScanAlone(s, i, now) == ScanAlone(RunScan(s, i, now, true), i, now)
  {
  }

  lemma ScanOver(s: State, i: nat, now: int)
    requires i < |s.threads| && s.threads[i].pc.Finished?
    ensures ScanAlone(s, i, now) == s
  {
  }

  lemma CachedScan(s: State, i: nat, now: int)
    requires i < |s.threads| && s.threads[i].pc.Start? && s.writer.None? && s.history != []
    requires Hit(s, s.threads[i].group, now)
    ensures var z := ScanAlone(s, i, now);
            i < |z.threads| && z.threads[i].pc == Finished(Some(s.cache[s.threads[i].group])) && z.cache == s.cache
  {
    var s1 := RunScan(s, i, now, true);
    var s2 := RunScan(s1, i, now, true);
    var s3 := RunScan(s2, i, now, true);
    OneScanStep(s, i, now);
    OneScanStep(s1, i, now);
    OneScanStep(s2, i, now);
    ScanOver(s3, i, now);
  }

  lemma StoringScan(s: State, i: nat, now: int)
    requires i < |s.threads| && s.threads[i].pc.Storing? && s.history != []
    ensures var z, e := ScanAlone(s, i, now), s.threads[i].pc.loaded;
            && i < |z.threads| && z.threads[i].pc == Finished(Some(e))
            && z.cache == s.cache[s.threads[i].group := e] && z.lastLoad == Some(now)
  {
    var s1 := RunScan(s, i, now, true);
    var s2 := RunScan(s1, i, now, true);
    OneScanStep(s, i, now);
    OneScanStep(s1, i, now);
    ScanOver(s2, i, now);
  }

  lemma LoadingScan(s: State, i: nat, now: int)
    requires i < |s.threads| && s.threads[i].pc.WantWrite? && s.writer.None? && s.readers == {} && s.history != []
    requires !Hit(s, s.threads[i].group, now)
    ensures var z, g, v := ScanAlone(s, i, now), s.threads[i].group, |s.history| - 1;
            && i < |z.threads| && z.threads[i].pc == Finished(Some(Entry(EnabledRules(s.history[v], g), v)))
            && z.cache == s.cache[g := Entry(EnabledRules(s.history[v], g), v)] && z.lastLoad == Some(now)
  {
    var s1 := RunScan(s, i, now, true);
    var s2 := RunScan(s1, i, now, true);
    var s3 := RunScan(s2, i, now, true);
    OneScanStep(s, i, now);
    OneScanStep(s1, i, now);
    OneScanStep(s2, i, now);
    StoringScan(s3, i, now);
  }

  /** A scan that finds the lock free gets a list: the cached one of its group if the cache was loaded less than two
      minutes ago, and otherwise exactly the rules in force, which it also leaves in the cache. */
  lemma ScanGetsRules(s: State, i: nat, now: int)
    requires i < |s.threads| && s.threads[i].pc.Start? && s.writer.None? && s.readers == {} && s.history != []
    ensures var z, g := ScanAlone(s, i, now), s.threads[i].group;
            && i < |z.threads| && z.threads[i].pc.Finished? && z.threads[i].pc.result.Some? && g in z.cache
            && z.cache[g] == z.threads[i].pc.result.value
            && (if g in s.cache && s.lastLoad.Some? && now - s.lastLoad.value < 120 then z.cache == s.cache
                else InForce(s.history[|s.history| - 1], g, z.cache[g].rules) && z.lastLoad == Some(now))
  {
    var g := s.threads[i].group;
    if Hit(s, g, now) {
      CachedScan(s, i, now);
    } else {
      var s1 := RunScan(s, i, now, true);
      var s2 := RunScan(s1, i, now, true);
      var s3 := RunScan(s2, i, now, true);
      OneScanStep(s, i, now);
      OneScanStep(s1, i, now);
      OneScanStep(s2, i, now);
      assert s3.readers == {};
      LoadingScan(s3, i, now);
      var at := EnabledAt(s.history[|s.history| - 1], g);
    }
  }

  /** An edit whose write succeeds makes its table the current one, and has emptied the cache when it is done; one whose
      write fails changes nothing. */
  lemma EditIsApplied(s: State, i: nat, table: Table)
    requires i < |s.threads| && s.threads[i].pc.Editing? && s.writer.None? && s.readers == {}
    ensures var s1 := RunEdit(s, i, true, table);
            var s2 := RunEdit(s1, i, true, table);
            var s3 := RunEdit(s2, i, true, table);
            var z := RunEdit(s3, i, true, table);
            && z.threads[i].pc == Edited(|s.history|) && z.history == s.history + [table]
            && z.cache == map[] && z.lastLoad == None && z.writer == None
    ensures RunEdit(s, i, false, table) == s.(threads := s.threads[i := s.threads[i].(pc := EditFailed)])
  {
  }
}
