/** The verification patrol: rounds that list the watched channels, test them one after the other, count low verdicts,
    and switch channels between enabled and verify-disabled through UpdateChannelStatus. A verdict is judged by the
    status the channel had when the round listed it, and written to the row as it is when the verdict arrives. */
module VerifyPatrol {
  import opened Options

  const ENABLED: int := 1
  const MANUALLY_DISABLED: int := 2
  const AUTO_DISABLED: int := 3
  const VERIFY_DISABLED: int := 4
  const THRESHOLD: int := 70
  const MAX_FAILS: int := 2
  const INTERVAL: int := 300   // seconds

  /** Key bookkeeping of a multi-key channel.  `blank` is the position of its first blank key, 0 without one. */
  datatype Keys = Keys(count: nat, blank: nat, size: int, statusList: map<int, int>)

  datatype Channel = Channel(status: int, autoVerify: bool, lastVerify: int, hasModel: bool, keys: Option<Keys>)

  datatype Verdict = RequestError | Score(score: int)

  datatype Reply = Reply(v: Verdict, at: int)

  predicate Low(v: Verdict) {
    v.Score? && v.score < THRESHOLD
  }

  predicate Passing(v: Verdict) {
    v.Score? && v.score >= THRESHOLD
  }

  /** GetAutoVerifyChannels. */
  predicate Watched(ch: Channel) {
    ch.autoVerify && (ch.status == ENABLED || ch.status == VERIFY_DISABLED)
  }

  /** The channel is tested in a round that starts at `now`. */
  predicate Due(ch: Channel, now: int) {
    Watched(ch) && !(ch.lastVerify > 0 && now - ch.lastVerify < INTERVAL) && ch.hasModel
  }

  /** A channel whose status UpdateChannelStatus writes directly. */
  predicate Direct(ch: Channel) {
    ch.keys.None? || ch.keys.value.count == 0
  }

  /** UpdateChannelStatus without a key: for a multi-key channel it is the entry of the first blank key that changes, or
      of the first key without one, and the channel itself turns auto-disabled once every key has an entry. */
  function SetStatus(ch: Channel, status: int): Channel {
    if ch.status == status then ch
    else if Direct(ch) then ch.(status := status)
    else
      var k := ch.keys.value;
      var list := if status == ENABLED then k.statusList - {k.blank} else k.statusList[k.blank := status];
      ch.(keys := Some(k.(statusList := list)), status := if |list| >= k.size then AUTO_DISABLED else ch.status)
  }

  /** The row and the fail counter after a reply for a channel that was listed with status `seen`. */
  function Judge(row: Channel, seen: int, fails: int, r: Reply): (Channel, int) {
    var tested := row.(lastVerify := r.at);
    if r.v.RequestError? then (tested, fails)
    else if seen == ENABLED then
      if r.v.score >= THRESHOLD then (tested, 0)
      else if fails + 1 >= MAX_FAILS then (SetStatus(tested, VERIFY_DISABLED), 0)
      else (tested, fails + 1)
    else if seen == VERIFY_DISABLED && r.v.score >= THRESHOLD then (SetStatus(tested, ENABLED), 0)
    else (tested, fails)
  }

  function FailsOf(fails: map<int, int>, id: int): int {
    if id in fails then fails[id] else 0
  }

  /** What an undisturbed round does to one channel. */
  function Round(ch: Channel, fails: int, r: Reply, now: int): (Channel, int) {
    if Due(ch, now) then Judge(ch, ch.status, fails, r) else (ch, fails)
  }

  class Patrol {
    var channels: map<int, Channel>
    var fails: map<int, int>

    constructor (channels: map<int, Channel>)
      ensures this.channels == channels && fails == map[]
    {
      this.channels := channels;
      fails := map[];
    }

    /** One round that nobody disturbs, over the watched channels in any order; replies[id] answers the test of id. */
    method Once(listed: seq<int>, replies: map<int, Reply>, now: int)
      requires forall i, j :: 0 <= i < j < |listed| ==> listed[i] != listed[j]
      requires forall id :: id in listed <==> id in channels && Watched(channels[id])
      requires forall id :: id in listed ==> id in replies
      modifies this
      ensures channels.Keys == old(channels).Keys
      ensures forall id :: id in channels && Watched(old(channels)[id]) ==>
                (channels[id], FailsOf(fails, id)) ==
                Round(old(channels)[id], FailsOf(old(fails), id), replies[id], now)
      ensures forall id :: id in channels && !Watched(old(channels)[id]) ==>
                channels[id] == old(channels)[id] && FailsOf(fails, id) == FailsOf(old(fails), id)
    {
      for i := 0 to |listed|
        invariant channels.Keys == old(channels).Keys
        invariant forall id :: id in listed[..i] ==>
                    (channels[id], FailsOf(fails, id)) ==
                    Round(old(channels)[id], FailsOf(old(fails), id), replies[id], now)
        invariant forall id :: id in channels && id !in listed[..i] ==>
                    channels[id] == old(channels)[id] && FailsOf(fails, id) == FailsOf(old(fails), id)
      {
        var id := listed[i];
        assert id !in listed[..i] && listed[..i + 1] == listed[..i] + [id];
        var channel := channels[id];
        if !(channel.lastVerify > 0 && now - channel.lastVerify < INTERVAL) && channel.hasModel {
          var count, updated := TestOne(channel, FailsOf(fails, id), replies[id]);
          channels, fails := channels[id := updated], fails[id := count];
        }
      }
      assert listed[..|listed|] == listed;
    }

    /** The branches of the loop body on one reply. */
    static method TestOne(channel: Channel, fails: int, r: Reply) returns (count: int, updated: Channel)
      ensures (updated, count) == Judge(channel, channel.status, fails, r)
    {
      count, updated := fails, channel.(lastVerify := r.at);
      if r.v.RequestError? {
        return;
      }
      if channel.status == ENABLED {
        if r.v.score < THRESHOLD {
          count := count + 1;
          if count >= MAX_FAILS {
            updated := SetStatus(updated, VERIFY_DISABLED);
            count := 0;
          }
        } else {
          count := 0;
        }
      } else if channel.status == VERIFY_DISABLED {
        if r.v.score >= THRESHOLD {
          updated := SetStatus(updated, ENABLED);
          count := 0;
        }
      }
    }
  }

  // ---------- one channel over any run of listings, replies and edits ----------

  /** `pending` is the status with which the current round listed the channel, until its reply arrives. */
  datatype Watch = Watch(row: Channel, pending: Option<int>, fails: int)

  datatype Event =
    | Listed(now: int)
    | Tested(r: Reply)
    | Edited(ch: Channel)   // by an administrator or by the relay

  function Step(w: Watch, e: Event): Watch {
    match e
    case Listed(now) => w.(pending := if Due(w.row, now) then Some(w.row.status) else None)
    case Tested(r) =>
      if w.pending.None? then w
      else var (row, fails) := Judge(w.row, w.pending.value, w.fails, r); Watch(row, None, fails)
    case Edited(ch) => w.(row := ch)
  }

  function Exec(w: Watch, es: seq<Event>): Watch {
    if es == [] then w else Step(Exec(w, es[..|es| - 1]), es[|es| - 1])
  }

  lemma ExecOneMore(w: Watch, es: seq<Event>, e: Event)
    ensures Exec(w, es + [e]) == Step(Exec(w, es), e)
  {
    assert (es + [e])[..|es|] == es;
  }

  /** A test that took place: the status the channel was listed with, and the verdict. */
  datatype Test = Test(seen: int, v: Verdict)

  predicate LowWhileEnabled(t: Test) {
    t.seen == ENABLED && Low(t.v)
  }

  function Tests(w: Watch, es: seq<Event>): seq<Test> {
    if es == [] then []
    else
      var before, e := Exec(w, es[..|es| - 1]), es[|es| - 1];
      Tests(w, es[..|es| - 1]) + if e.Tested? && before.pending.Some? then [Test(before.pending.value, e.r.v)] else []
  }

  /** Low verdicts while enabled since the last passing verdict. */
  function LowsSincePass(tests: seq<Test>): nat {
    if tests == [] then 0
    else
      var t := tests[|tests| - 1];
      if Passing(t.v) then 0 else LowsSincePass(tests[..|tests| - 1]) + if LowWhileEnabled(t) then 1 else 0
  }

  /** Only the patrol is to have a listing under way: the run starts between two rounds, with no failure counted. */
  predicate Initial(w: Watch) {
    w.pending.None? && w.fails == 0
  }

  lemma {:induction false} PendingWasWatched(w: Watch, es: seq<Event>)
    requires Initial(w)
    ensures Exec(w, es).pending.Some? ==> Exec(w, es).pending.value in {ENABLED, VERIFY_DISABLED}
  {
    if es != [] {
      PendingWasWatched(w, es[..|es| - 1]);
    }
  }

  lemma JudgeParity(row: Channel, seen: int, fails: int, r: Reply, tests: seq<Test>)
    requires fails == LowsSincePass(tests) % 2 && seen in {ENABLED, VERIFY_DISABLED}
    ensures Judge(row, seen, fails, r).1 == LowsSincePass(tests + [Test(seen, r.v)]) % 2
  {
    assert (tests + [Test(seen, r.v)])[..|tests|] == tests;
  }

  /** In every run the fail counter is the parity of the low verdicts since the last pass: request errors neither count
      nor reset, and every second low verdict uses the count up. */
  lemma {:induction false} CounterIsParity(w: Watch, es: seq<Event>)
    requires Initial(w)
    ensures Exec(w, es).fails == LowsSincePass(Tests(w, es)) % 2
  {
    if es != [] {
      var init, e := es[..|es| - 1], es[|es| - 1];
      CounterIsParity(w, init);
      PendingWasWatched(w, init);
      var before := Exec(w, init);
      if e.Tested? && before.pending.Some? {
        JudgeParity(before.row, before.pending.value, before.fails, e.r, Tests(w, init));
      } else {
        assert Tests(w, es) == Tests(w, init);
      }
    }
  }

  /** An odd count has an earlier low verdict behind it, taken while enabled, with no passing verdict since. */
  lemma {:induction false} LowIsBehind(tests: seq<Test>)
    requires LowsSincePass(tests) > 0
    ensures exists i | 0 <= i < |tests| ::
              LowWhileEnabled(tests[i]) && forall j | i <= j < |tests| :: !Passing(tests[j].v)
  {
    var t, init := tests[|tests| - 1], tests[..|tests| - 1];
    if LowWhileEnabled(t) {
      assert LowWhileEnabled(tests[|tests| - 1]);
    } else {
      LowIsBehind(init);
      var i :| 0 <= i < |init| && LowWhileEnabled(init[i]) && forall j | i <= j < |init| :: !Passing(init[j].v);
      assert tests[i] == init[i];
      forall j | i <= j < |tests|
        ensures !Passing(tests[j].v)
      {
        assert j < |init| ==> tests[j] == init[j];
      }
    }
  }

  /** No edit lies between the listing of a pending test and now. (A reply ends the listing, so only the last event
      matters.) */
  predicate Undisturbed(es: seq<Event>) {
    es == [] || !es[|es| - 1].Edited?
  }

  /** After any history, a reply in an undisturbed round changes the status of a single-key channel exactly so: enabled
      turns verify-disabled on a low verdict that makes the lows since the last pass even, verify-disabled turns
      enabled on a pass, and every other status stays. */
  lemma StatusMoves(w: Watch, es: seq<Event>, r: Reply)
    requires Initial(w) && Undisturbed(es) && Direct(Exec(w, es).row)
    ensures var before, after := Exec(w, es), Exec(w, es + [Tested(r)]);
            && (after.row.status == VERIFY_DISABLED != before.row.status <==>
                 before.pending == Some(ENABLED) && Low(r.v) && LowsSincePass(Tests(w, es)) % 2 == 1)
            && (after.row.status == ENABLED != before.row.status <==>
                 before.pending == Some(VERIFY_DISABLED) && Passing(r.v))
            && (after.row.status != before.row.status ==> after.row.status in {ENABLED, VERIFY_DISABLED})
  {
    ExecOneMore(w, es, Tested(r));
    CounterIsParity(w, es);
  }

  /** In any run, disturbed or not, on any channel: a reply that turns a row verify-disabled is low, and an earlier low
      verdict while enabled lies behind it with no pass between. */
  lemma DisabledAfterTwoLows(w: Watch, es: seq<Event>, r: Reply)
    requires Initial(w)
    requires Exec(w, es + [Tested(r)]).row.status == VERIFY_DISABLED != Exec(w, es).row.status
    ensures Low(r.v)
    ensures exists i | 0 <= i < |Tests(w, es)| ::
              LowWhileEnabled(Tests(w, es)[i]) && forall j | i <= j < |Tests(w, es)| :: !Passing(Tests(w, es)[j].v)
  {
    ExecOneMore(w, es, Tested(r));
    CounterIsParity(w, es);
    PendingWasWatched(w, es);
    LowIsBehind(Tests(w, es));
  }

  /** After a test, no round that starts within the interval tests the channel again, and none tests a channel without
      a model. */
  lemma TestsAreSpaced(w: Watch, r: Reply, now: int)
    requires w.pending.Some? && r.at > 0 && (now - r.at < INTERVAL || !w.row.hasModel)
    ensures Step(Step(w, Tested(r)), Listed(now)).pending.None?
  {
  }

  /** With a reply that comes after an edit, a status that the patrol should leave alone (manually or automatically
      disabled) is overwritten exactly when the listed status and the verdict call for a switch. */
  lemma StaleListingOverrides(w: Watch, es: seq<Event>, r: Reply)
    requires Initial(w) && Direct(Exec(w, es).row)
    requires Exec(w, es).row.status !in {ENABLED, VERIFY_DISABLED}
    ensures Exec(w, es + [Tested(r)]).row.status != Exec(w, es).row.status <==>
              || (Exec(w, es).pending == Some(ENABLED) && Low(r.v) && LowsSincePass(Tests(w, es)) % 2 == 1)
              || (Exec(w, es).pending == Some(VERIFY_DISABLED) && Passing(r.v))
  {
    ExecOneMore(w, es, Tested(r));
    CounterIsParity(w, es);
    PendingWasWatched(w, es);
  }

  /** So a channel that an administrator disables while its test is under way can be enabled again by the patrol. */
  lemma ManualDisableIsUndone()
    ensures var ch := Channel(ENABLED, true, 0, true, None);
            var low, pass := Score(10), Score(90);
            var listedTwice := Step(Step(Step(Watch(ch, None, 0), Listed(900)), Tested(Reply(low, 1000))), Listed(1900));
            var disabled := Step(listedTwice, Edited(ch.(status := MANUALLY_DISABLED)));
            var after := Step(Step(Step(disabled, Tested(Reply(low, 2000))), Listed(2900)), Tested(Reply(pass, 3000)));
            disabled.row.status == MANUALLY_DISABLED && after.row.status == ENABLED
  {
  }

  /** Disabling an enabled channel takes effect as verify-disabled if and only if the status is written directly. With
      several keys the channel stays enabled, or turns auto-disabled and leaves the patrol for good. */
  lemma DisableTakesEffectIff(ch: Channel)
    requires ch.status == ENABLED
    ensures SetStatus(ch, VERIFY_DISABLED).status == VERIFY_DISABLED <==> Direct(ch)
    ensures !Direct(ch) ==>
              SetStatus(ch, VERIFY_DISABLED).status ==
              if |ch.keys.value.statusList.Keys + {ch.keys.value.blank}| >= ch.keys.value.size then AUTO_DISABLED
              else ENABLED
  {
    if !Direct(ch) {
      var k := ch.keys.value;
      var list := k.statusList[k.blank := VERIFY_DISABLED];
      assert list.Keys == k.statusList.Keys + {k.blank};
      assert |list| == |list.Keys|;
    }
  }

  // ---------- when a channel is tested, and what a score does ----------

  /** A round tests a channel if and only if it is under automatic verification, enabled or disabled by the patrol, has a
      model to test, and was never tested or last tested at least 300 seconds ago. */
  lemma TestedIff(w: Watch, now: int)
    ensures Step(w, Listed(now)).pending.Some? <==>
              && w.row.autoVerify && (w.row.status == 1 || w.row.status == 4) && w.row.hasModel
              && (w.row.lastVerify <= 0 || now - w.row.lastVerify >= 300)
    ensures Step(w, Listed(now)).pending.Some? ==> Step(w, Listed(now)).pending.value == w.row.status
    ensures Step(w, Listed(now)).row == w.row
  {
  }

  /** What a reply does to a single-key channel: a request error only sets the time of the test.  An enabled channel with
      70 or more has its failures forgotten; with less it fails, and the second time it is disabled.  A channel disabled
      by the patrol is enabled by 70 or more. */
  lemma ScoreDecides(ch: Channel, fails: nat, r: Reply, now: int)
    requires Direct(ch) && Step(Watch(ch, None, fails), Listed(now)).pending.Some?
    ensures var after := Step(Step(Watch(ch, None, fails), Listed(now)), Tested(r));
            && after.row == ch.(lastVerify := r.at, status := after.row.status) && after.pending.None?
            && (r.v.RequestError? ==> after.row.status == ch.status && after.fails == fails)
            && (r.v.Score? && r.v.score >= 70 ==> after.row.status == 1 && after.fails == 0)
            && (r.v.Score? && r.v.score < 70 && ch.status == 1 && fails == 0 ==> after.row.status == 1 && after.fails == 1)
            && (r.v.Score? && r.v.score < 70 && ch.status == 1 && fails > 0 ==> after.row.status == 4 && after.fails == 0)
            && (r.v.Score? && r.v.score < 70 && ch.status == 4 ==> after.row.status == 4 && after.fails == fails)
  {
  }

  /** Enabling a channel that the patrol disabled takes effect if and only if the status is written directly.  With
      several keys only the entry of the first blank key, or of the first, goes. */
  lemma EnableTakesEffectIff(ch: Channel)
    requires ch.status == VERIFY_DISABLED
    ensures SetStatus(ch, ENABLED).status == ENABLED <==> Direct(ch)
    ensures !Direct(ch) ==>
              var k := ch.keys.value; SetStatus(ch, ENABLED).keys == Some(k.(statusList := k.statusList - {k.blank}))
  {
  }
}
